/** Small concrete histories that show the inheritance rule and the locality of
    hasParticipant. */
module CulpritScenarios {
  import opened Builds
  import opened ChangeLog
  import opened RunWithSCM

  /** A build with the given state, change sets and predecessor, no persisted
      ids and no dependency tracking. */
  function SimpleBuild(building: bool, result: Option<Result>, changeSets: seq<ChangeSet>,
                       previous: Option<Build>): Build
  {
    Build(building, result, None, changeSets, previous, false, false, [])
  }

  /** A predecessor with result SUCCESS passes nothing on: a running build
      without changes has no culprits. */
  lemma HealthyPredecessorScenario(x: User, resolve: string -> User)
    ensures var p := SimpleBuild(false, Some(SUCCESS), [[Entry("c1", Some(x))]], None);
            var b := SimpleBuild(true, None, [], Some(p));
            Culprits(b, true, resolve) == Ok(Live({}))
  {
    var b := SimpleBuild(true, None, [], Some(SimpleBuild(false, Some(SUCCESS), [[Entry("c1", Some(x))]], None)));
    assert OwnEntries(b) == [];
  }

  /** A failed predecessor with culprit x, and a running build with an own
      change by y: the culprits are exactly x and y. */
  lemma FailingPredecessorScenario(x: User, y: User, resolve: string -> User)
    ensures var p := SimpleBuild(false, Some(FAILURE), [[Entry("c1", Some(x))]], None);
            var b := SimpleBuild(true, None, [[Entry("c2", Some(y))]], Some(p));
            Culprits(b, false, resolve) == Ok(Live({x, y}))
  {
    var e1, e2 := Entry("c1", Some(x)), Entry("c2", Some(y));
    var p := SimpleBuild(false, Some(FAILURE), [[e1]], None);
    var b := SimpleBuild(true, None, [[e2]], Some(p));
    FlattenOne([e1]);
    AuthorsSnoc([], e1);
    assert [] + [e1] == [e1];
    FlattenOne([e2]);
    AuthorsSnoc([], e2);
    assert [] + [e2] == [e2];
    assert Culprits(p, false, resolve) == Ok(Live({x}));
    assert Inherits(b);
    assert Culprits(b, false, resolve)
        == AfterInheritance(Ok(Live({x})), b, false, resolve)
        == LiveCulprits({x}, b, false);
    assert Authors(OwnEntries(b)) == Found({y});
    assert !Propagates(b, false);
    assert LiveCulprits({x}, b, false) == Ok(Live({x} + {y}));
    assert {x} + {y} == {x, y};
  }

  /** The same history once the build has completed: the failed predecessor's
      culprit is no longer inherited. */
  lemma CompletedBuildScenario(x: User, y: User, resolve: string -> User)
    ensures var p := SimpleBuild(false, Some(FAILURE), [[Entry("c1", Some(x))]], None);
            var b := SimpleBuild(false, Some(SUCCESS), [[Entry("c2", Some(y))]], Some(p));
            Culprits(b, false, resolve) == Ok(Live({y}))
  {
    var e2 := Entry("c2", Some(y));
    var b := SimpleBuild(false, Some(SUCCESS), [[e2]],
                         Some(SimpleBuild(false, Some(FAILURE), [[Entry("c1", Some(x))]], None)));
    FlattenOne([e2]);
    AuthorsSnoc([], e2);
    assert [] + [e2] == [e2];
  }

  /** x is a culprit of the running build through the failed predecessor but
      did not participate in it. */
  lemma ParticipantLocalityScenario(x: User, y: User, resolve: string -> User)
    requires x != y
    ensures var p := SimpleBuild(false, Some(FAILURE), [[Entry("c1", Some(x))]], None);
            var b := SimpleBuild(true, None, [[Entry("c2", Some(y))]], Some(p));
            && Culprits(b, false, resolve).Ok?
            && x in Culprits(b, false, resolve).culprits.users
            && !Participated(b.changeSets, x)
  {
    FailingPredecessorScenario(x, y, resolve);
  }

  /** An entry whose author cannot be determined does not stop hasParticipant
      from finding a later entry by the user, while it makes getCulprits fail
      with that entry's commit id. */
  lemma UnknownAuthorScenario(u: User, resolve: string -> User)
    ensures var b := SimpleBuild(true, None, [[Entry("c1", None), Entry("c2", Some(u))]], None);
            && Participated(b.changeSets, u)
            && Culprits(b, false, resolve) == AuthorFailure("c1")
  {
    var e1, e2 := Entry("c1", None), Entry("c2", Some(u));
    var b := SimpleBuild(true, None, [[e1, e2]], None);
    assert b.changeSets[0][1] == e2;
    FlattenOne([e1, e2]);
    assert OwnEntries(b) == [e1, e2];
    AuthorsSnoc([], e1);
    assert [] + [e1] == [e1];
    assert Authors([e1]) == Failed("c1");
    FailureIsFinal([e1], [e1, e2]);
    assert Authors(OwnEntries(b)) == Failed("c1");
    assert !Inherits(b);
  }
}
