/** The history facts the culprit computation reads: builds, their change sets and
    the upstream dependency changes recorded for them. Every collaborator of
    RunWithSCMMixIn (build history, change-log parsing, the dependency graph) is
    represented here by the data it would return. */
module Builds {

  datatype Option<+T> = None | Some(value: T)

  /** hudson.model.Result, in declaration order; a larger ordinal is a worse outcome. */
  datatype Result = SUCCESS | UNSTABLE | FAILURE | NOT_BUILT | ABORTED

  function Ordinal(r: Result): nat
  {
    match r
    case SUCCESS => 0
    case UNSTABLE => 1
    case FAILURE => 2
    case NOT_BUILT => 3
    case ABORTED => 4
  }

  /** Result.isWorseThan: strictly greater severity. */
  predicate IsWorseThan(r: Result, than: Result)
  {
    Ordinal(r) > Ordinal(than)
  }

  /** A user record as returned by User.get; handles are compared by equality. */
  datatype User = User(id: string)

  /** A ChangeLogSet.Entry. `author` is None when getAuthor() throws. */
  datatype Entry = Entry(commitId: string, author: Option<User>)

  /** A ChangeLogSet: the ordered entries of one checkout. */
  type ChangeSet = seq<Entry>

  /** AbstractBuild.DependencyChange: the change set of each upstream build of
      one upstream project that is new since the reference build. */
  datatype DependencyChange = DependencyChange(builds: seq<ChangeSet>)

  /** A run that has SCM changes (the RunWithSCM interface), with the answers of
      the history queries the culprit computation asks about it.
      - building: isBuilding()
      - result: getResult(), None for null
      - culpritIds: getCulpritIds(), None for null
      - changeSets: getChangeSets()
      - previousCompleted: getPreviousCompletedBuild(), None for null
      - isAbstractBuild: the run is an AbstractBuild (supports dependency tracking)
      - hasPreviousNotFailed: getPreviousNotFailedBuild() != null
      - dependencyChanges: the values of
        getDependencyChanges(getPreviousSuccessfulBuild()) */
  datatype Build = Build(
    building: bool,
    result: Option<Result>,
    culpritIds: Option<set<string>>,
    changeSets: seq<ChangeSet>,
    previousCompleted: Option<Build>,
    isAbstractBuild: bool,
    hasPreviousNotFailed: bool,
    dependencyChanges: seq<DependencyChange>)

  /** The history is consistent with getPreviousCompletedBuild: every link in
      the predecessor chain points at a build that is no longer building. */
  predicate WellFormedHistory(b: Build)
    decreases b
  {
    match b.previousCompleted
    case None => true
    case Some(p) => !p.building && WellFormedHistory(p)
  }

  /** SUCCESS is the best result: a result is worse than SUCCESS exactly when it
      is not SUCCESS, and nothing is better than SUCCESS. */
  lemma SuccessIsBest(r: Result)
    ensures IsWorseThan(r, SUCCESS) <==> r != SUCCESS
    ensures !IsWorseThan(SUCCESS, r)
  {
  }
}
