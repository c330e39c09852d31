/** Walking change sets in the order RunWithSCMMixIn iterates them, and collecting
    their authors. A scan stops at the first entry whose author lookup fails,
    since getCulprits does not catch that exception. */
module ChangeLog {
  import opened Builds

  /** The entries of a sequence of change sets, in iteration order. */
  function Flatten<T>(css: seq<seq<T>>): seq<T>
  {
    if css == [] then [] else Flatten(css[..|css| - 1]) + css[|css| - 1]
  }

  /** The entries of the upstream builds of a list of dependency changes, in
      iteration order (dependency change, then build, then entry). */
  function DependencyEntries(ds: seq<DependencyChange>): seq<Entry>
  {
    if ds == [] then [] else DependencyEntries(ds[..|ds| - 1]) + Flatten(ds[|ds| - 1].builds)
  }

  /** Outcome of adding the authors of a run of entries to a set. */
  datatype Scan = Found(authors: set<User>) | Failed(commitId: string)

  /** One `r.add(e.getAuthor())` step. */
  function Extend(s: Scan, e: Entry): Scan
  {
    match s
    case Failed(_) => s
    case Found(us) =>
      match e.author
      case None => Failed(e.commitId)
      case Some(u) => Found(us + {u})
  }

  /** The authors of `es`, added one entry at a time. */
  function Authors(es: seq<Entry>): Scan
  {
    if es == [] then Found({}) else Extend(Authors(es[..|es| - 1]), es[|es| - 1])
  }

  /** Reference definition: the authors of all entries whose author is known. */
  function AuthorSet(es: seq<Entry>): set<User>
  {
    set e | e in es && e.author.Some? :: e.author.value
  }

  /** Every entry of `es` has an author that can be determined. */
  predicate Resolvable(es: seq<Entry>)
  {
    forall e | e in es :: e.author.Some?
  }

  lemma FlattenSnoc<T>(css: seq<seq<T>>, i: nat)
    requires i < |css|
    ensures Flatten(css[..i + 1]) == Flatten(css[..i]) + css[i]
  {
    assert css[..i + 1][..i] == css[..i];
  }

  lemma DependencyEntriesSnoc(ds: seq<DependencyChange>, i: nat)
    requires i < |ds|
    ensures DependencyEntries(ds[..i + 1]) == DependencyEntries(ds[..i]) + Flatten(ds[i].builds)
  {
    assert ds[..i + 1][..i] == ds[..i];
  }

  lemma FlattenOne<T>(c: seq<T>)
    ensures Flatten([c]) == c
  {
    assert [c][..0] == [];
  }

  lemma AuthorsSnoc(es: seq<Entry>, e: Entry)
    ensures Authors(es + [e]) == Extend(Authors(es), e)
  {
    assert (es + [e])[..|es|] == es;
  }

  /** Flattening a prefix of the change sets gives a prefix of the entries. */
  lemma {:induction false} FlattenPrefix<T>(css: seq<seq<T>>, i: nat)
    requires i <= |css|
    ensures Flatten(css[..i]) <= Flatten(css)
    decreases |css| - i
  {
    if i < |css| {
      FlattenPrefix(css, i + 1);
      FlattenSnoc(css, i);
    } else {
      assert css[..i] == css;
    }
  }

  lemma {:induction false} DependencyEntriesPrefix(ds: seq<DependencyChange>, i: nat)
    requires i <= |ds|
    ensures DependencyEntries(ds[..i]) <= DependencyEntries(ds)
    decreases |ds| - i
  {
    if i < |ds| {
      DependencyEntriesPrefix(ds, i + 1);
      DependencyEntriesSnoc(ds, i);
    } else {
      assert ds[..i] == ds;
    }
  }

  /** The entries a loop over `css` has visited before entry `j` of change set `i`. */
  function Visited<T>(css: seq<seq<T>>, i: nat, j: nat): seq<T>
    requires i < |css| && j <= |css[i]|
  {
    Flatten(css[..i]) + css[i][..j]
  }

  lemma VisitedStep<T>(css: seq<seq<T>>, i: nat, j: nat)
    requires i < |css| && j < |css[i]|
    ensures Visited(css, i, j + 1) == Visited(css, i, j) + [css[i][j]]
    ensures Visited(css, i, j + 1) <= Flatten(css)
  {
    assert css[i][..j + 1] == css[i][..j] + [css[i][j]];
    FlattenPrefix(css, i + 1);
    FlattenSnoc(css, i);
  }

  lemma VisitedBounds<T>(css: seq<seq<T>>, i: nat)
    requires i < |css|
    ensures Visited(css, i, 0) == Flatten(css[..i])
    ensures Visited(css, i, |css[i]|) == Flatten(css[..i + 1])
  {
    assert css[i][..0] == [];
    assert css[i][..|css[i]|] == css[i];
    FlattenSnoc(css, i);
  }

  /** The entries the loops over dependency changes, upstream builds and entries
      have visited before entry `k` of build `j` of dependency change `i`. */
  function UpstreamVisited(ds: seq<DependencyChange>, i: nat, j: nat, k: nat): seq<Entry>
    requires i < |ds| && j < |ds[i].builds| && k <= |ds[i].builds[j]|
  {
    DependencyEntries(ds[..i]) + Visited(ds[i].builds, j, k)
  }

  lemma UpstreamVisitedStep(ds: seq<DependencyChange>, i: nat, j: nat, k: nat)
    requires i < |ds| && j < |ds[i].builds| && k < |ds[i].builds[j]|
    ensures UpstreamVisited(ds, i, j, k + 1) == UpstreamVisited(ds, i, j, k) + [ds[i].builds[j][k]]
    ensures UpstreamVisited(ds, i, j, k + 1) <= DependencyEntries(ds)
  {
    var x := DependencyEntries(ds[..i]);
    VisitedStep(ds[i].builds, j, k);
    FlattenPrefix(ds[i].builds, |ds[i].builds|);
    assert ds[i].builds[..|ds[i].builds|] == ds[i].builds;
    DependencyEntriesPrefix(ds, i + 1);
    DependencyEntriesSnoc(ds, i);
    assert x + Visited(ds[i].builds, j, k + 1) <= x + Flatten(ds[i].builds);
  }

  lemma UpstreamVisitedBounds(ds: seq<DependencyChange>, i: nat, j: nat)
    requires i < |ds| && j < |ds[i].builds|
    ensures UpstreamVisited(ds, i, j, 0) == DependencyEntries(ds[..i]) + Flatten(ds[i].builds[..j])
    ensures UpstreamVisited(ds, i, j, |ds[i].builds[j]|) ==
            DependencyEntries(ds[..i]) + Flatten(ds[i].builds[..j + 1])
  {
    VisitedBounds(ds[i].builds, j);
  }

  lemma UpstreamBuildsBounds(ds: seq<DependencyChange>, i: nat)
    requires i < |ds|
    ensures DependencyEntries(ds[..i]) + Flatten(ds[i].builds[..0]) == DependencyEntries(ds[..i])
    ensures DependencyEntries(ds[..i]) + Flatten(ds[i].builds[..|ds[i].builds|]) ==
            DependencyEntries(ds[..i + 1])
  {
    assert ds[i].builds[..0] == [];
    assert ds[i].builds[..|ds[i].builds|] == ds[i].builds;
    DependencyEntriesSnoc(ds, i);
  }

  /** One step of a scan whose visited entries lie on the way to `all`: adding
      an author extends the found set, and a failing lookup fixes the outcome of
      the whole scan. */
  lemma ScanStep(seen: seq<Entry>, e: Entry, all: seq<Entry>, found: set<User>)
    requires Authors(seen) == Found(found) && seen + [e] <= all
    ensures e.author.Some? ==> Authors(seen + [e]) == Found(found + {e.author.value})
    ensures e.author.None? ==> Authors(all) == Failed(e.commitId)
  {
    AuthorsSnoc(seen, e);
    if e.author.None? {
      FailureIsFinal(seen + [e], all);
    }
  }

  /** Once a scan has failed, scanning further entries keeps the first failure. */
  lemma {:induction false} FailureIsFinal(xs: seq<Entry>, ys: seq<Entry>)
    requires xs <= ys && Authors(xs).Failed?
    ensures Authors(ys) == Authors(xs)
    decreases |ys|
  {
    if |ys| > |xs| {
      var zs := ys[..|ys| - 1];
      assert xs <= zs;
      FailureIsFinal(xs, zs);
    } else {
      assert xs == ys;
    }
  }

  /** Authors against its reference definition: the scan succeeds exactly when
      every author is known, it then yields exactly the set of authors, and a
      failure names the first entry whose author is unknown. */
  lemma {:induction false} AuthorsMeaning(es: seq<Entry>)
    ensures Authors(es).Found? <==> Resolvable(es)
    ensures Authors(es).Found? ==> Authors(es).authors == AuthorSet(es)
    ensures Authors(es).Failed? ==>
              exists k | 0 <= k < |es| ::
                es[k].author.None? && es[k].commitId == Authors(es).commitId &&
                Resolvable(es[..k])
  {
    if es != [] {
      var n := |es| - 1;
      var init := es[..n];
      AuthorsMeaning(init);
      assert es == init + [es[n]];
      assert forall e :: e in es <==> e in init || e == es[n];
      if Authors(init).Failed? {
        var k :| 0 <= k < |init| && init[k].author.None? &&
                 init[k].commitId == Authors(init).commitId && Resolvable(init[..k]);
        assert es[..k] == init[..k];
        assert es[k] == init[k];
      } else if es[n].author.None? {
        assert es[..n] == init;
      }
    }
  }

  /** Every entry of change set `i` is among the flattened entries. */
  lemma {:induction false} FlattenContains<T>(css: seq<seq<T>>, i: nat, j: nat)
    requires i < |css| && j < |css[i]|
    ensures css[i][j] in Flatten(css)
  {
    FlattenPrefix(css, i + 1);
    FlattenSnoc(css, i);
    assert css[i][j] in Flatten(css[..i + 1]);
  }

  /** Every entry of upstream build `j` of dependency change `i` is among the
      dependency entries. */
  lemma DependencyEntriesContain(ds: seq<DependencyChange>, i: nat, j: nat, k: nat)
    requires i < |ds| && j < |ds[i].builds| && k < |ds[i].builds[j]|
    ensures ds[i].builds[j][k] in DependencyEntries(ds)
  {
    FlattenContains(ds[i].builds, j, k);
    DependencyEntriesPrefix(ds, i + 1);
    DependencyEntriesSnoc(ds, i);
    assert ds[i].builds[j][k] in DependencyEntries(ds[..i + 1]);
  }

  /** The flattened entries are exactly the entries of the change sets. */
  lemma {:induction false} FlattenMember<T>(css: seq<seq<T>>, x: T)
    ensures x in Flatten(css) <==>
            exists i, j | 0 <= i < |css| && 0 <= j < |css[i]| :: css[i][j] == x
  {
    if css != [] {
      var n := |css| - 1;
      FlattenMember(css[..n], x);
      if x in Flatten(css) && x !in Flatten(css[..n]) {
        var j :| 0 <= j < |css[n]| && css[n][j] == x;
      }
      if exists i, j | 0 <= i < |css| && 0 <= j < |css[i]| :: css[i][j] == x {
        var i, j :| 0 <= i < |css| && 0 <= j < |css[i]| && css[i][j] == x;
        FlattenContains(css, i, j);
      }
    }
  }
}
