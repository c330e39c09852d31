# Culprit aggregation of a Jenkins build (RunWithSCMMixIn)

This project models the part of Jenkins that decides who is blamed for a build
(`RunWithSCMMixIn.getCulprits`) and whether a user committed to it
(`RunWithSCMMixIn.hasParticipant`), and proves what the two operations promise.

- `builds.dfy` (module `Builds`): the history facts both operations read. A `Build`
  holds `isBuilding()`, `getResult()`, `getCulpritIds()`,
  `getChangeSets()` and the previous completed build. It also holds the three facts
  that upstream propagation asks of that predecessor: whether it is an
  `AbstractBuild`, whether it has a previous non-failed build, and the values of its
  dependency-change map. An `Entry` whose `getAuthor()` throws has author `None`.
  `Result` has the five values of `hudson.model.Result` in ordinal order, and
  `IsWorseThan` compares ordinals.
- `changelog.dfy` (module `ChangeLog`): the entries of nested change sets in
  iteration order (`Flatten`, `DependencyEntries`). `Authors` adds their authors one
  entry at a time and stops at the first entry whose author cannot be determined.
  `AuthorsMeaning` ties it to the reference definition `AuthorSet`.
- `culprits.dfy` (module `RunWithSCM`): `Culprits` is the specification of
  `getCulprits`. `GetCulprits` is the method, with the source's nested loops and its
  recursive call on the predecessor, and it is proved equal to `Culprits`.
  `HasParticipant` is the early-return scan, proved equal to the predicate
  `Participated`. The persisted-id answer is `CulpritSet.Persisted(ids)`. Its
  `Elements` are the ids mapped through `User.get`, and its `Size` is the number of
  ids.
- `properties.dfy` (module `CulpritProperties`): lemmas about `Culprits` and
  `Participated`.
- `scenarios.dfy` (module `CulpritScenarios`): small concrete histories.

Inputs that are process-wide or external in the source become explicit parameters:
- the `hudson.upstreamCulprits` system property is the boolean `upstreamCulprits`;
- `User.get` is a total function `resolve: string -> User`.

Facts about the code that the model makes explicit:
- `getCulprits` does not catch an exception from `Entry.getAuthor()`
  (RunWithSCMMixIn.java:92, :103), so it escapes to the caller. The model returns
  `AuthorFailure(commitId)` for the first such entry in iteration order.
  `hasParticipant` catches it, logs it and skips the entry (:134-139).
- The recursive call (:87) is made only on the previous completed build, and only
  while this build is still building. So in a consistent history it is at most one
  level deep (`RecursionDepthAtMostOne`).
- `Result` follows the ordinals of `hudson.model.Result`:
  SUCCESS < UNSTABLE < FAILURE < NOT_BUILT < ABORTED. Only "worse than SUCCESS" is
  used (:82), and it means "not SUCCESS" (`SuccessIsBest`).

Observation from `PersistedSize`: the persisted-id view reports the number of stored
ids as its size. It yields fewer distinct users whenever `User.get` maps two stored ids
to the same user.

## Model

| member | source | states |
|---|---|---|
| RunWithSCM.GetCulprits | core/src/main/java/jenkins/scm/RunWithSCMMixIn.java:76-126 | the result equals `Culprits`: the persisted view when ids are stored, otherwise inherited culprits, own authors and upstream authors, or the first author-lookup failure |
| RunWithSCM.AddChangeSetAuthors | core/src/main/java/jenkins/scm/RunWithSCMMixIn.java:90-93 | the nested loops over change sets and entries add exactly the authors of all own entries in order, or stop at the first entry whose author cannot be determined |
| RunWithSCM.AddUpstreamAuthors | core/src/main/java/jenkins/scm/RunWithSCMMixIn.java:100-106 | the loops over dependency changes, upstream builds and entries add exactly the authors of all upstream entries, or stop at the first failing lookup |
| RunWithSCM.HasParticipant | core/src/main/java/jenkins/scm/RunWithSCMMixIn.java:131-142 | true iff some own change-set entry has the given user as its author; entries whose author lookup fails are skipped and the scan continues |
| CulpritProperties.PersistedIdsAreAuthoritative | core/src/main/java/jenkins/scm/RunWithSCMMixIn.java:113-125 | with persisted ids the answer is their view: exactly the images of the ids under User.get, size equal to the number of ids, and the same for any build with the same ids and any flag value |
| CulpritProperties.PersistedSize | core/src/main/java/jenkins/scm/RunWithSCMMixIn.java:122-124 | the view yields at most as many users as its reported size, and exactly as many iff User.get is injective on the stored ids |
| CulpritProperties.LiveCulpritsExactly | core/src/main/java/jenkins/scm/RunWithSCMMixIn.java:77-110 | live branch: succeeds iff the inherited computation succeeds and every consulted author is known; the set is exactly inherited users ∪ own authors ∪ upstream authors (when propagating) |
| CulpritProperties.OwnAuthorsIncluded | core/src/main/java/jenkins/scm/RunWithSCMMixIn.java:90-93 | the author of every entry of every own change set is in the live result |
| CulpritProperties.UpstreamAuthorsIncluded | core/src/main/java/jenkins/scm/RunWithSCMMixIn.java:95-107 | with propagation active, the author of every entry of every upstream build of every dependency change is in the result |
| CulpritProperties.InheritedCulpritsIncluded | core/src/main/java/jenkins/scm/RunWithSCMMixIn.java:79-89 | when the inheritance condition holds, every culprit of the previous completed build is a culprit of this build |
| CulpritProperties.NothingInheritedUnlessFailing | core/src/main/java/jenkins/scm/RunWithSCMMixIn.java:79-89 | unless a previous completed build exists, this build is building, and its result is non-null and worse than SUCCESS, nothing of the predecessor's culprits is added |
| CulpritProperties.CompletedBuildInheritsNothing | core/src/main/java/jenkins/scm/RunWithSCMMixIn.java:80 | a build that is no longer building never inherits culprits, whatever its predecessor's result |
| CulpritProperties.HealthyPredecessorInheritsNothing | core/src/main/java/jenkins/scm/RunWithSCMMixIn.java:81-82 | a predecessor with a null or SUCCESS result passes on no culprits |
| CulpritProperties.NoUpstreamWithoutPropagation | core/src/main/java/jenkins/scm/RunWithSCMMixIn.java:80-108 | with the flag off, a non-AbstractBuild predecessor, or no previous non-failed build, the result is exactly the own authors, or own authors ∪ predecessor culprits when inheriting |
| CulpritProperties.CompletedBuildDoesNotRecurse | core/src/main/java/jenkins/scm/RunWithSCMMixIn.java:79-87 | for a build that is not building, the culprits equal a computation without the recursive call |
| CulpritProperties.RecursionDepthAtMostOne | core/src/main/java/jenkins/scm/RunWithSCMMixIn.java:79-87 | in a history whose previous completed builds are not building, the predecessor's culprits are computed without further recursion |
| CulpritProperties.ParticipatedMeaning | core/src/main/java/jenkins/scm/RunWithSCMMixIn.java:131-142 | a participant is exactly an author of one of the build's own flattened entries |
| CulpritProperties.ParticipantIsCulprit | core/src/main/java/jenkins/scm/RunWithSCMMixIn.java:131-136 | every participant of a build is among its live culprits |
| ChangeLog.AuthorsMeaning | core/src/main/java/jenkins/scm/RunWithSCMMixIn.java:90-93 | adding authors entry by entry succeeds iff every author is known, yields exactly the set of authors, and a failure names the first entry with an unknown author |
| ChangeLog.FailureIsFinal | core/src/main/java/jenkins/scm/RunWithSCMMixIn.java:92 | once an author lookup has failed, further entries do not change the outcome (the exception escapes) |
| Builds.SuccessIsBest | core/src/main/java/jenkins/scm/RunWithSCMMixIn.java:82 | a result is worse than SUCCESS iff it is not SUCCESS, and SUCCESS is worse than nothing |
| CulpritScenarios.HealthyPredecessorScenario | core/src/main/java/jenkins/scm/RunWithSCMMixIn.java:79-93 | a running build without changes after a successful predecessor has no culprits |
| CulpritScenarios.FailingPredecessorScenario | core/src/main/java/jenkins/scm/RunWithSCMMixIn.java:79-93 | a running build with a change by y after a failed build blamed on x has culprits exactly {x, y} |
| CulpritScenarios.CompletedBuildScenario | core/src/main/java/jenkins/scm/RunWithSCMMixIn.java:80 | the same history once the build has completed has culprits exactly {y} |
| CulpritScenarios.ParticipantLocalityScenario | core/src/main/java/jenkins/scm/RunWithSCMMixIn.java:131-142 | an inherited culprit is not a participant |
| CulpritScenarios.UnknownAuthorScenario | core/src/main/java/jenkins/scm/RunWithSCMMixIn.java:133-139 | an entry with an unknown author does not hide a later entry from hasParticipant, but makes getCulprits fail with that entry's commit id |

## Left out

- Reading the `hudson.upstreamCulprits` system property: it is the parameter `upstreamCulprits`.
- `User.get` identity resolution: it is the uninterpreted parameter `resolve`, assumed total.
- History and graph queries (`getPreviousCompletedBuild`, `getPreviousNotFailedBuild`, `getPreviousSuccessfulBuild`, `getDependencyChanges`): their answers are fields of `Build`.
- The `instanceof AbstractBuild` test: it is the field `isAbstractBuild`.
- The dependency-change map: only its values are modelled, as a sequence; the project keys are not used by the computation.
- Logging in `hasParticipant`: the log message is not modelled; the skipped entry is.
- The lazy `AbstractSet`/`AdaptedIterator` view: only its element set and size are modelled. Iteration order, and re-reading `getCulpritIds()` on each call, are not modelled, because builds are immutable values here.
- Stapler export, the generic `Job`/`Queue.Task` bounds and `asRun()`: framework wiring.
- `Result` beyond its ordinal order with SUCCESS as the best value.
- Idempotence of `getCulprits` needs no lemma: `Culprits` is a function of its inputs.
- HasParticipant, GetCulprits: users are compared by value. The source compares them by reference, with `==` in hasParticipant (:135) and through `HashSet` equality in getCulprits (:78, :87, :92, :103). The model relies on `User.get` returning one instance per user.
