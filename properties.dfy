/** What getCulprits and hasParticipant promise, stated over their
    specifications Culprits and Participated. */
module CulpritProperties {
  import opened Builds
  import opened ChangeLog
  import opened RunWithSCM

  /** The users inherited from the previous completed build, if any. */
  function InheritedUsers(b: Build, upstreamCulprits: bool, resolve: string -> User): set<User>
  {
    if Inherits(b) && Culprits(b.previousCompleted.value, upstreamCulprits, resolve).Ok? then
      Culprits(b.previousCompleted.value, upstreamCulprits, resolve).culprits.Elements(resolve)
    else {}
  }

  /** The authors of the upstream builds, when upstream propagation is active. */
  function UpstreamUsers(b: Build, upstreamCulprits: bool): set<User>
  {
    if Propagates(b, upstreamCulprits) then AuthorSet(UpstreamEntries(b)) else {}
  }

  /** resolve maps no two distinct ids to the same user. */
  predicate InjectiveOn(ids: set<string>, resolve: string -> User)
  {
    forall x, y | x in ids && y in ids && x != y :: resolve(x) != resolve(y)
  }

  // ---------------------------------------------------------------------------
  // The persisted-id branch

  /** With persisted culprit ids the answer is the view of those ids: its
      elements are exactly their images under User.get and its size is the
      number of ids; nothing else about the build, and not the flag, matters. */
  lemma PersistedIdsAreAuthoritative(b: Build, other: Build, upstreamCulprits: bool,
                                     otherFlag: bool, resolve: string -> User)
    requires b.culpritIds.Some? && other.culpritIds == b.culpritIds
    ensures Culprits(b, upstreamCulprits, resolve) == Ok(Persisted(b.culpritIds.value))
    ensures Culprits(other, otherFlag, resolve) == Culprits(b, upstreamCulprits, resolve)
    ensures forall u :: u in Culprits(b, upstreamCulprits, resolve).culprits.Elements(resolve) <==>
                        exists id | id in b.culpritIds.value :: resolve(id) == u
    ensures Culprits(b, upstreamCulprits, resolve).culprits.Size() == |b.culpritIds.value|
  {
  }

  /** The view never yields more users than its reported size, and it yields
      exactly as many as it reports precisely when User.get keeps the stored
      ids apart. */
  lemma {:induction false} PersistedSize(ids: set<string>, resolve: string -> User)
    ensures |Persisted(ids).Elements(resolve)| <= Persisted(ids).Size()
    ensures |Persisted(ids).Elements(resolve)| == Persisted(ids).Size() <==> InjectiveOn(ids, resolve)
    decreases |ids|
  {
    var image := Persisted(ids).Elements(resolve);
    if ids != {} {
      var x :| x in ids;
      var rest := ids - {x};
      var restImage := Persisted(rest).Elements(resolve);
      PersistedSize(rest, resolve);
      assert image == restImage + {resolve(x)};
      if resolve(x) in restImage {
        var y :| y in rest && resolve(y) == resolve(x);
        assert !InjectiveOn(ids, resolve);
      } else {
        assert |image| == |restImage| + 1;
        if !InjectiveOn(rest, resolve) {
          assert !InjectiveOn(ids, resolve);
        } else {
          assert InjectiveOn(ids, resolve);
        }
      }
    } else {
      assert image == {};
    }
  }

  // ---------------------------------------------------------------------------
  // The live branch

  /** The live branch succeeds exactly when the inherited computation succeeds
      (if it runs) and every author it reads can be determined; the answer is
      then a HashSet holding exactly the inherited users, the own authors and,
      with propagation active, the upstream authors. */
  lemma LiveCulpritsExactly(b: Build, upstreamCulprits: bool, resolve: string -> User)
    requires b.culpritIds.None?
    ensures Culprits(b, upstreamCulprits, resolve).Ok? <==>
              && (Inherits(b) ==> Culprits(b.previousCompleted.value, upstreamCulprits, resolve).Ok?)
              && Resolvable(OwnEntries(b))
              && (Propagates(b, upstreamCulprits) ==> Resolvable(UpstreamEntries(b)))
    ensures Culprits(b, upstreamCulprits, resolve).Ok? ==>
              Culprits(b, upstreamCulprits, resolve).culprits ==
                Live(InheritedUsers(b, upstreamCulprits, resolve) + AuthorSet(OwnEntries(b))
                     + UpstreamUsers(b, upstreamCulprits))
  {
    AuthorsMeaning(OwnEntries(b));
    if Propagates(b, upstreamCulprits) {
      AuthorsMeaning(UpstreamEntries(b));
    }
  }

  /** Every author of every entry of every own change set is a culprit. */
  lemma OwnAuthorsIncluded(b: Build, upstreamCulprits: bool, resolve: string -> User, i: nat, j: nat)
    requires b.culpritIds.None? && Culprits(b, upstreamCulprits, resolve).Ok?
    requires i < |b.changeSets| && j < |b.changeSets[i]|
    ensures b.changeSets[i][j].author.Some?
    ensures b.changeSets[i][j].author.value in Culprits(b, upstreamCulprits, resolve).culprits.users
  {
    LiveCulpritsExactly(b, upstreamCulprits, resolve);
    FlattenContains(b.changeSets, i, j);
  }

  /** With upstream propagation active, every author of every entry of every
      upstream build of every dependency change is a culprit. */
  lemma UpstreamAuthorsIncluded(b: Build, upstreamCulprits: bool, resolve: string -> User,
                                i: nat, j: nat, k: nat)
    requires b.culpritIds.None? && Culprits(b, upstreamCulprits, resolve).Ok?
    requires Propagates(b, upstreamCulprits)
    requires var ds := b.previousCompleted.value.dependencyChanges;
             i < |ds| && j < |ds[i].builds| && k < |ds[i].builds[j]|
    ensures var e := b.previousCompleted.value.dependencyChanges[i].builds[j][k];
            e.author.Some? && e.author.value in Culprits(b, upstreamCulprits, resolve).culprits.users
  {
    LiveCulpritsExactly(b, upstreamCulprits, resolve);
    DependencyEntriesContain(b.previousCompleted.value.dependencyChanges, i, j, k);
  }

  /** When the predecessor's culprits are inherited, all of them are culprits
      of this build. */
  lemma InheritedCulpritsIncluded(b: Build, upstreamCulprits: bool, resolve: string -> User)
    requires b.culpritIds.None? && Culprits(b, upstreamCulprits, resolve).Ok? && Inherits(b)
    ensures Culprits(b.previousCompleted.value, upstreamCulprits, resolve).Ok?
    ensures Culprits(b.previousCompleted.value, upstreamCulprits, resolve).culprits.Elements(resolve)
            <= Culprits(b, upstreamCulprits, resolve).culprits.users
  {
    LiveCulpritsExactly(b, upstreamCulprits, resolve);
  }

  /** Without inheritance nothing of the predecessor's culprit set is added:
      the culprits are the own authors, plus the upstream authors when
      propagation is active. */
  lemma NothingInheritedUnlessFailing(b: Build, upstreamCulprits: bool, resolve: string -> User)
    requires b.culpritIds.None? && !Inherits(b)
    ensures Culprits(b, upstreamCulprits, resolve) == LiveCulprits({}, b, upstreamCulprits)
    ensures Culprits(b, upstreamCulprits, resolve).Ok? ==>
              Culprits(b, upstreamCulprits, resolve).culprits.users ==
                AuthorSet(OwnEntries(b)) + UpstreamUsers(b, upstreamCulprits)
  {
    LiveCulpritsExactly(b, upstreamCulprits, resolve);
  }

  /** A build that is no longer building never inherits, whatever its
      predecessor's result. */
  lemma CompletedBuildInheritsNothing(b: Build, upstreamCulprits: bool, resolve: string -> User)
    requires b.culpritIds.None? && !b.building
    ensures Culprits(b, upstreamCulprits, resolve).Ok? ==>
              Culprits(b, upstreamCulprits, resolve).culprits.users ==
                AuthorSet(OwnEntries(b)) + UpstreamUsers(b, upstreamCulprits)
  {
    NothingInheritedUnlessFailing(b, upstreamCulprits, resolve);
  }

  /** A predecessor whose result is SUCCESS, or not yet known, passes on no
      culprits. */
  lemma HealthyPredecessorInheritsNothing(b: Build, upstreamCulprits: bool, resolve: string -> User)
    requires b.culpritIds.None? && b.previousCompleted.Some?
    requires b.previousCompleted.value.result in {None, Some(SUCCESS)}
    ensures Culprits(b, upstreamCulprits, resolve).Ok? ==>
              Culprits(b, upstreamCulprits, resolve).culprits.users ==
                AuthorSet(OwnEntries(b)) + UpstreamUsers(b, upstreamCulprits)
  {
    NothingInheritedUnlessFailing(b, upstreamCulprits, resolve);
  }

  /** With the flag off, a predecessor that is not an AbstractBuild, or no
      previous non-failed build, the culprits are the own authors, plus the
      inherited users when inheritance applies. */
  lemma NoUpstreamWithoutPropagation(b: Build, upstreamCulprits: bool, resolve: string -> User)
    requires b.culpritIds.None? && Culprits(b, upstreamCulprits, resolve).Ok?
    requires !upstreamCulprits || b.previousCompleted.None? ||
             !b.previousCompleted.value.isAbstractBuild || !b.previousCompleted.value.hasPreviousNotFailed
    ensures !Inherits(b) ==>
              Culprits(b, upstreamCulprits, resolve).culprits.users == AuthorSet(OwnEntries(b))
    ensures Inherits(b) ==>
              Culprits(b, upstreamCulprits, resolve).culprits.users ==
                Culprits(b.previousCompleted.value, upstreamCulprits, resolve).culprits.Elements(resolve)
                + AuthorSet(OwnEntries(b))
  {
    LiveCulpritsExactly(b, upstreamCulprits, resolve);
  }

  // ---------------------------------------------------------------------------
  // Termination and recursion depth

  /** The culprits of a build that is not building, computed without any
      recursion. */
  function CompletedCulprits(b: Build, upstreamCulprits: bool): Outcome
  {
    if b.culpritIds.Some? then Ok(Persisted(b.culpritIds.value))
    else LiveCulprits({}, b, upstreamCulprits)
  }

  /** getCulprits on a build that is not building does not recurse. */
  lemma CompletedBuildDoesNotRecurse(b: Build, upstreamCulprits: bool, resolve: string -> User)
    requires !b.building
    ensures Culprits(b, upstreamCulprits, resolve) == CompletedCulprits(b, upstreamCulprits)
  {
  }

  /** Because the recursive call is made on the previous COMPLETED build, in a
      consistent history the recursion is at most one level deep: the
      predecessor's culprits are computed without recursion. */
  lemma RecursionDepthAtMostOne(b: Build, upstreamCulprits: bool, resolve: string -> User)
    requires WellFormedHistory(b) && b.culpritIds.None?
    ensures !Inherits(b) ==>
              Culprits(b, upstreamCulprits, resolve) == LiveCulprits({}, b, upstreamCulprits)
    ensures Inherits(b) ==>
              Culprits(b, upstreamCulprits, resolve) ==
                AfterInheritance(CompletedCulprits(b.previousCompleted.value, upstreamCulprits),
                                 b, upstreamCulprits, resolve)
  {
    if Inherits(b) {
      CompletedBuildDoesNotRecurse(b.previousCompleted.value, upstreamCulprits, resolve);
    }
  }

  // ---------------------------------------------------------------------------
  // hasParticipant

  /** A participant is an author of one of the build's own entries. */
  lemma ParticipatedMeaning(b: Build, user: User)
    ensures Participated(b.changeSets, user) <==>
              exists e | e in OwnEntries(b) :: e.author == Some(user)
  {
    if Participated(b.changeSets, user) {
      var i, j :| 0 <= i < |b.changeSets| && 0 <= j < |b.changeSets[i]| &&
                  b.changeSets[i][j].author == Some(user);
      FlattenContains(b.changeSets, i, j);
    }
    if e :| e in OwnEntries(b) && e.author == Some(user) {
      FlattenMember(b.changeSets, e);
    }
  }

  /** Whoever participated in a build is one of its live culprits. */
  lemma ParticipantIsCulprit(b: Build, upstreamCulprits: bool, resolve: string -> User, user: User)
    requires b.culpritIds.None? && Culprits(b, upstreamCulprits, resolve).Ok?
    requires Participated(b.changeSets, user)
    ensures user in Culprits(b, upstreamCulprits, resolve).culprits.users
  {
    var i, j :| 0 <= i < |b.changeSets| && 0 <= j < |b.changeSets[i]| &&
                b.changeSets[i][j].author == Some(user);
    OwnAuthorsIncluded(b, upstreamCulprits, resolve, i, j);
  }
}
