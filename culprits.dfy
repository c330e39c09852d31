/** RunWithSCMMixIn: the set of users blamed for a build (getCulprits) and
    whether a user committed to it (hasParticipant). */
module RunWithSCM {
  import opened Builds
  import opened ChangeLog

  /** What getCulprits returns: a HashSet built live, or the view of the
      persisted culprit ids that maps each id through User.get on iteration. */
  datatype CulpritSet = Live(users: set<User>) | Persisted(ids: set<string>)
  {
    /** The users an iteration of the set yields. */
    function Elements(resolve: string -> User): set<User>
    {
      match this
      case Live(us) => us
      case Persisted(ids) => set id | id in ids :: resolve(id)
    }

    /** What size() reports. */
    function Size(): nat
    {
      match this
      case Live(us) => |us|
      case Persisted(ids) => |ids|
    }
  }

  /** getCulprits either returns a set or lets the exception of a failing
      getAuthor() escape; the failure names that entry's commit id. */
  datatype Outcome = Ok(culprits: CulpritSet) | AuthorFailure(commitId: string)

  /** The predecessor's culprits are inherited: a previous completed build
      exists, this build is still building, and the predecessor has a result
      worse than SUCCESS. */
  predicate Inherits(b: Build)
  {
    && b.previousCompleted.Some?
    && b.building
    && b.previousCompleted.value.result.Some?
    && IsWorseThan(b.previousCompleted.value.result.value, SUCCESS)
  }

  /** Upstream authors are added: the flag is set, the previous completed build
      is an AbstractBuild, and it has a previous non-failed build. */
  predicate Propagates(b: Build, upstreamCulprits: bool)
  {
    && b.previousCompleted.Some?
    && b.previousCompleted.value.isAbstractBuild
    && upstreamCulprits
    && b.previousCompleted.value.hasPreviousNotFailed
  }

  /** The entries of this build's own change sets. */
  function OwnEntries(b: Build): seq<Entry>
  {
    Flatten(b.changeSets)
  }

  /** The entries of the upstream builds recorded in the predecessor's
      dependency changes. */
  function UpstreamEntries(b: Build): seq<Entry>
    requires b.previousCompleted.Some?
  {
    DependencyEntries(b.previousCompleted.value.dependencyChanges)
  }

  /** The live branch once the inherited users are known: add the own authors,
      then the upstream authors when propagation is active. */
  function LiveCulprits(inherited: set<User>, b: Build, upstreamCulprits: bool): Outcome
  {
    match Authors(OwnEntries(b))
    case Failed(c) => AuthorFailure(c)
    case Found(own) =>
      if !Propagates(b, upstreamCulprits) then Ok(Live(inherited + own))
      else
        match Authors(UpstreamEntries(b))
        case Failed(c) => AuthorFailure(c)
        case Found(up) => Ok(Live(inherited + own + up))
  }

  /** The live branch after the predecessor's culprits were (or were not)
      computed: a failure there escapes, otherwise its users are the start. */
  function AfterInheritance(inherited: Outcome, b: Build, upstreamCulprits: bool,
                            resolve: string -> User): Outcome
  {
    match inherited
    case AuthorFailure(c) => AuthorFailure(c)
    case Ok(pc) => LiveCulprits(pc.Elements(resolve), b, upstreamCulprits)
  }

  /** The specification of getCulprits. `upstreamCulprits` is the
      hudson.upstreamCulprits system property and `resolve` is User.get. */
  function Culprits(b: Build, upstreamCulprits: bool, resolve: string -> User): Outcome
    decreases b
  {
    if b.culpritIds.None? then
      var inherited :=
        if Inherits(b) then Culprits(b.previousCompleted.value, upstreamCulprits, resolve)
        else Ok(Live({}));
      AfterInheritance(inherited, b, upstreamCulprits, resolve)
    else
      Ok(Persisted(b.culpritIds.value))
  }

  /** `r.add(e.getAuthor())` for a whole scan: the users already in `r` plus the
      scanned authors, or the scan's failure. */
  function AddTo(r: set<User>, s: Scan): Scan
  {
    match s
    case Found(us) => Found(r + us)
    case Failed(c) => Failed(c)
  }

  /** The loops over this build's change sets and their entries. */
  method AddChangeSetAuthors(r0: set<User>, css: seq<ChangeSet>) returns (res: Scan)
    ensures res == AddTo(r0, Authors(Flatten(css)))
  {
    var r := r0;
    ghost var own: set<User> := {};
    for i := 0 to |css|
      invariant r == r0 + own
      invariant Authors(Flatten(css[..i])) == Found(own)
    {
      var c := css[i];
      VisitedBounds(css, i);
      for j := 0 to |c|
        invariant r == r0 + own
        invariant Authors(Visited(css, i, j)) == Found(own)
      {
        var e := c[j];
        VisitedStep(css, i, j);
        ScanStep(Visited(css, i, j), e, Flatten(css), own);
        if e.author.None? {
          return Failed(e.commitId);
        }
        r := r + {e.author.value};
        own := own + {e.author.value};
      }
    }
    assert css[..|css|] == css;
    return Found(r);
  }

  /** The loops over the dependency changes, their upstream builds and the
      entries of each upstream build's change set. */
  method AddUpstreamAuthors(r0: set<User>, deps: seq<DependencyChange>) returns (res: Scan)
    ensures res == AddTo(r0, Authors(DependencyEntries(deps)))
  {
    var r := r0;
    ghost var up: set<User> := {};
    for i := 0 to |deps|
      invariant r == r0 + up
      invariant Authors(DependencyEntries(deps[..i])) == Found(up)
    {
      var bs := deps[i].builds;
      UpstreamBuildsBounds(deps, i);
      for j := 0 to |bs|
        invariant r == r0 + up
        invariant Authors(DependencyEntries(deps[..i]) + Flatten(bs[..j])) == Found(up)
      {
        var c := bs[j];
        UpstreamVisitedBounds(deps, i, j);
        for k := 0 to |c|
          invariant r == r0 + up
          invariant Authors(UpstreamVisited(deps, i, j, k)) == Found(up)
        {
          var e := c[k];
          UpstreamVisitedStep(deps, i, j, k);
          ScanStep(UpstreamVisited(deps, i, j, k), e, DependencyEntries(deps), up);
          if e.author.None? {
            return Failed(e.commitId);
          }
          r := r + {e.author.value};
          up := up + {e.author.value};
        }
      }
    }
    assert deps[..|deps|] == deps;
    return Found(r);
  }

  /** getCulprits. */
  method GetCulprits(b: Build, upstreamCulprits: bool, resolve: string -> User) returns (o: Outcome)
    decreases b
    ensures o == Culprits(b, upstreamCulprits, resolve)
  {
    if b.culpritIds.None? {
      var r: set<User> := {};
      var p := b.previousCompleted;
      if p.Some? && b.building {
        var pr := p.value.result;
        if pr.Some? && IsWorseThan(pr.value, SUCCESS) {
          var inherited := GetCulprits(p.value, upstreamCulprits, resolve);
          if inherited.AuthorFailure? {
            return inherited;
          }
          r := r + inherited.culprits.Elements(resolve);
          assert r == inherited.culprits.Elements(resolve);
        }
      }
      assert !Inherits(b) ==> r == {};
      assert Culprits(b, upstreamCulprits, resolve) == LiveCulprits(r, b, upstreamCulprits);
      var own := AddChangeSetAuthors(r, b.changeSets);
      if own.Failed? {
        return AuthorFailure(own.commitId);
      }
      r := own.authors;
      if p.Some? && p.value.isAbstractBuild && upstreamCulprits {
        if p.value.hasPreviousNotFailed {
          var up := AddUpstreamAuthors(r, p.value.dependencyChanges);
          if up.Failed? {
            return AuthorFailure(up.commitId);
          }
          r := up.authors;
        }
      }
      return Ok(Live(r));
    }
    return Ok(Persisted(b.culpritIds.value));
  }

  /** Some entry of the change sets was authored by `user`. */
  predicate Participated(css: seq<ChangeSet>, user: User)
  {
    exists i, j | 0 <= i < |css| && 0 <= j < |css[i]| :: css[i][j].author == Some(user)
  }

  /** hasParticipant: an entry whose author cannot be determined is logged and
      skipped, and the scan goes on. */
  method HasParticipant(b: Build, user: User) returns (found: bool)
    ensures found <==> Participated(b.changeSets, user)
  {
    var css: seq<ChangeSet> := b.changeSets;
    for i := 0 to |css|
      invariant forall i', j | 0 <= i' < i && 0 <= j < |css[i']| :: css[i'][j].author != Some(user)
    {
      var c: ChangeSet := css[i];
      for j := 0 to |c|
        invariant forall j' | 0 <= j' < j :: c[j'].author != Some(user)
      {
        var e: Entry := c[j];
        match e.author
        case Some(a) =>
          if a == user {
            return true;
          }
        case None =>
      }
    }
    return false;
  }
}
