/**
 The reconciliation of Zircon's uboringssl subset with the vendored
 BoringSSL tree (the walker of `updateZircon`). Both trees are maps from a
 stem, the path below the tree's root starting with `/`, to a node. The walk
 visits the subset's stems in order; for each regular file that is not on the
 skip list it finds the upstream counterpart (at the stem, else under `/src`),
 compares the contents and copies the upstream file over the subset file when
 they differ. The first error ends the walk; copies already made stay made.
 */
module Subset {
  import opened Bytes
  import opened Results

  datatype Node = Dir | File(data: seq<byte>)

  type Tree = map<string, Node>

  /** Subset files maintained by hand rather than rolled from upstream. */
  const SkippedFiles: set<string> := {"/BUILD.gn", "/README.fuchsia.md", "/stack-note.S"}

  /** The places a subset stem's counterpart may live in the vendored tree, in the order tried. */
  function Candidates(stem: string): seq<string> {
    [stem, "/src" + stem]
  }

  /** The outcome of a lookup: the index of the first candidate present and its node, or none. */
  datatype Lookup = Found(at: nat, node: Node) | Missing

  /** The first of `paths` present in `tree`. */
  function FirstExisting(tree: Tree, paths: seq<string>): (r: Lookup)
    ensures r.Missing? <==> forall i | 0 <= i < |paths| :: paths[i] !in tree
    ensures r.Found? ==>
              && r.at < |paths|
              && paths[r.at] in tree
              && tree[paths[r.at]] == r.node
              && forall j | 0 <= j < r.at :: paths[j] !in tree
  {
    if paths == [] then Missing
    else if paths[0] in tree then Found(0, tree[paths[0]])
    else match FirstExisting(tree, paths[1..])
      case Missing => Missing
      case Found(at, node) => Found(at + 1, node)
  }

  /** The upstream counterpart of a subset stem: the stem itself wins over `/src` + stem. */
  function Upstream(boring: Tree, stem: string): (r: Lookup)
    ensures stem in boring ==> r == Found(0, boring[stem])
    ensures stem !in boring && "/src" + stem in boring ==> r == Found(1, boring["/src" + stem])
    ensures r.Missing? <==> stem !in boring && "/src" + stem !in boring
  {
    var r := FirstExisting(boring, Candidates(stem));
    assert Candidates(stem)[0] == stem && Candidates(stem)[1] == "/src" + stem;
    r
  }

  /** Why the walk stopped. Each of these is fatal to the roll. */
  datatype WalkError =
    | Unwalkable(stem: string)         // the walk could not stat the subset path
    | MissingUpstream(stem: string)    // neither candidate exists, so hashing the counterpart fails
    | UnreadableUpstream(path: string) // the counterpart is a directory, so hashing it fails

  /** The walker gets as far as comparing the file at `stem` with its counterpart. */
  predicate Compared(zircon: Tree, stem: string) {
    stem in zircon && zircon[stem].File? && stem !in SkippedFiles
  }

  /** The counterpart of a compared file can be read. */
  predicate HasUpstreamFile(boring: Tree, stem: string) {
    Upstream(boring, stem).Found? && Upstream(boring, stem).node.File?
  }

  /** Visiting `stem` does not stop the walk. */
  predicate Resolvable(zircon: Tree, boring: Tree, stem: string) {
    stem in zircon && (Compared(zircon, stem) ==> HasUpstreamFile(boring, stem))
  }

  /** Visiting `stem` copies a file. */
  predicate NeedsCopy(zircon: Tree, boring: Tree, stem: string) {
    Compared(zircon, stem) && HasUpstreamFile(boring, stem)
    && Upstream(boring, stem).node.data != zircon[stem].data
  }

  /**
   One visit of the walker: the subset tree afterwards and whether it copied
   a file. A stem the walk cannot stat, a compared file without a counterpart
   and a counterpart that is a directory each stop the walk; a visit that
   goes on writes at most the visited stem, keeps the tree's shape, and
   writes nothing unless it compared the file.
   */
  function Visit(zircon: Tree, boring: Tree, stem: string): (r: Result<(Tree, bool), WalkError>)
    ensures r == Err(Unwalkable(stem)) <==> stem !in zircon
    ensures r == Err(MissingUpstream(stem)) <==> Compared(zircon, stem) && Upstream(boring, stem).Missing?
    ensures r.Err? && r.error.UnreadableUpstream? <==>
              Compared(zircon, stem) && Upstream(boring, stem).Found? && Upstream(boring, stem).node.Dir?
    ensures r.Err? && r.error.UnreadableUpstream? ==>
              r.error.path in Candidates(stem) && r.error.path in boring && boring[r.error.path].Dir?
    ensures r.Ok? ==>
              && SameShape(zircon, r.value.0)
              && forall s | s in zircon && s != stem :: r.value.0[s] == zircon[s]
    ensures r.Ok? && !Compared(zircon, stem) ==> r.value == (zircon, false)
  {
    if stem !in zircon then Err(Unwalkable(stem))
    else if zircon[stem].Dir? then Ok((zircon, false))
    else if stem in SkippedFiles then Ok((zircon, false))
    else match Upstream(boring, stem)
      case Missing => Err(MissingUpstream(stem))
      case Found(at, Dir) => Err(UnreadableUpstream(Candidates(stem)[at]))
      case Found(_, File(data)) =>
        if data != zircon[stem].data then Ok((zircon[stem := File(data)], true))
        else Ok((zircon, false))
  }

  /** The state after a walk: the subset tree, the stems copied (in order) and the error that stopped it, if any. */
  datatype Sync = Sync(tree: Tree, copied: seq<string>, failure: Option<WalkError>)

  /**
   The walk over the subset's stems in `order`. It keeps the subset's paths,
   never writes a directory, a skipped file or any other path it does not
   compare, and copies only compared files on the walk.
   */
  function Walk(zircon: Tree, boring: Tree, order: seq<string>): (r: Sync)
    ensures r.tree.Keys == zircon.Keys
    ensures forall s | s in zircon && !Compared(zircon, s) :: r.tree[s] == zircon[s]
    ensures forall s | s in r.copied :: s in order && Compared(zircon, s)
    decreases |order|
  {
    if order == [] then Sync(zircon, [], None)
    else match Visit(zircon, boring, order[0])
      case Err(e) => Sync(zircon, [], Some(e))
      case Ok((next, copied)) =>
        var rest := Walk(next, boring, order[1..]);
        Sync(rest.tree, (if copied then [order[0]] else []) + rest.copied, rest.failure)
  }

  // The reference behaviour the walk is compared with.

  /** What a reconciled subset holds at `stem`: its counterpart's contents if the walker compares it, else what it held. */
  function Target(zircon: Tree, boring: Tree, stem: string): Node
    requires stem in zircon
  {
    if Compared(zircon, stem) && HasUpstreamFile(boring, stem) then Upstream(boring, stem).node
    else zircon[stem]
  }

  /** The subset with the stems in `visited` reconciled and all others as they were. */
  function Reconciled(zircon: Tree, boring: Tree, visited: set<string>): Tree {
    map s | s in zircon :: if s in visited then Target(zircon, boring, s) else zircon[s]
  }

  /** How many stems of `order` the walk gets through before one stops it. */
  function Reached(zircon: Tree, boring: Tree, order: seq<string>): (k: nat)
    ensures k <= |order|
    ensures forall i | 0 <= i < k :: Resolvable(zircon, boring, order[i])
    ensures k < |order| ==> !Resolvable(zircon, boring, order[k])
  {
    if order == [] || !Resolvable(zircon, boring, order[0]) then 0
    else 1 + Reached(zircon, boring, order[1..])
  }

  function Elems(s: seq<string>): set<string> {
    set x | x in s
  }

  /** Two trees with the same paths, each a directory in one exactly when it is in the other. */
  predicate SameShape(a: Tree, b: Tree) {
    a.Keys == b.Keys && forall s | s in a :: a[s].Dir? == b[s].Dir?
  }

  lemma ReconciledShape(zircon: Tree, boring: Tree, visited: set<string>)
    ensures SameShape(zircon, Reconciled(zircon, boring, visited))
    ensures forall s | s in zircon :: Target(Reconciled(zircon, boring, visited), boring, s) == Target(zircon, boring, s)
    ensures forall s :: NeedsCopy(Reconciled(zircon, boring, visited), boring, s)
                   <==> NeedsCopy(zircon, boring, s) && s !in visited
  {
  }

  /** Reconciling `a` and then `b` is reconciling `a + b`. */
  lemma ReconciledCompose(zircon: Tree, boring: Tree, a: set<string>, b: set<string>)
    ensures Reconciled(Reconciled(zircon, boring, a), boring, b) == Reconciled(zircon, boring, a + b)
  {
    ReconciledShape(zircon, boring, a);
  }

  lemma {:induction false} ReachedShape(z1: Tree, z2: Tree, boring: Tree, order: seq<string>)
    requires SameShape(z1, z2)
    ensures Reached(z1, boring, order) == Reached(z2, boring, order)
    decreases |order|
  {
    if order != [] {
      ReachedShape(z1, z2, boring, order[1..]);
    }
  }

  /** A successful visit reconciles exactly the visited stem, and copies exactly when the contents differ. */
  lemma VisitReconciles(zircon: Tree, boring: Tree, stem: string)
    ensures Visit(zircon, boring, stem).Ok? <==> Resolvable(zircon, boring, stem)
    ensures Visit(zircon, boring, stem).Ok? ==>
              && Visit(zircon, boring, stem).value.0 == Reconciled(zircon, boring, {stem})
              && Visit(zircon, boring, stem).value.1 == NeedsCopy(zircon, boring, stem)
  {
    if Visit(zircon, boring, stem).Ok? {
      var next := Visit(zircon, boring, stem).value.0;
      var want := Reconciled(zircon, boring, {stem});
      assert next.Keys == want.Keys;
      forall s | s in next
        ensures next[s] == want[s]
      {
      }
    }
  }

  /**
   The walk agrees with the reference: it gets through the first
   `Reached` stems, stops exactly when one is not resolvable, leaves the
   subset reconciled on the stems it got through, and copies exactly the
   files among them whose contents differed from their counterparts.
   */
  ghost predicate MatchesReference(zircon: Tree, boring: Tree, order: seq<string>) {
    var k := Reached(zircon, boring, order);
    var w := Walk(zircon, boring, order);
    && (w.failure.None? <==> k == |order|)
    && w.tree == Reconciled(zircon, boring, Elems(order[..k]))
    && forall s :: s in w.copied <==> s in order[..k] && NeedsCopy(zircon, boring, s)
  }

  /** The walk agrees with the reference on every subset, upstream tree and order. */
  lemma {:induction false} WalkMatchesReference(zircon: Tree, boring: Tree, order: seq<string>)
    ensures MatchesReference(zircon, boring, order)
    decreases |order|
  {
    if order == [] {
      assert Reconciled(zircon, boring, {}) == zircon;
    } else if !Resolvable(zircon, boring, order[0]) {
      VisitReconciles(zircon, boring, order[0]);
      assert Elems(order[..0]) == {};
      assert Reconciled(zircon, boring, {}) == zircon;
    } else {
      WalkMatchesReference(Reconciled(zircon, boring, {order[0]}), boring, order[1..]);
      MatchesReferenceStep(zircon, boring, order);
    }
  }

  /** A walk whose first stem is resolvable agrees with the reference if the walk over the rest, from the reconciled subset, does. */
  lemma MatchesReferenceStep(zircon: Tree, boring: Tree, order: seq<string>)
    requires order != [] && Resolvable(zircon, boring, order[0])
    requires MatchesReference(Reconciled(zircon, boring, {order[0]}), boring, order[1..])
    ensures MatchesReference(zircon, boring, order)
  {
    var stem := order[0];
    var next := Reconciled(zircon, boring, {stem});
    var rest := order[1..];
    var k := Reached(zircon, boring, order);
    var k' := Reached(next, boring, rest);
    var w := Walk(zircon, boring, order);
    WalkStep(zircon, boring, order);
    ReconciledShape(zircon, boring, {stem});
    TakeCons(order, k);
    ElemsCons(order, k);
    ReconciledCompose(zircon, boring, {stem}, Elems(rest[..k']));
    forall s
      ensures s in w.copied <==> s in order[..k] && NeedsCopy(zircon, boring, s)
    {
      assert s in order[..k] <==> s == stem || s in rest[..k'];
    }
  }

  /** A walk whose first stem is resolvable is that stem's visit followed by the walk over the rest. */
  lemma WalkStep(zircon: Tree, boring: Tree, order: seq<string>)
    requires order != [] && Resolvable(zircon, boring, order[0])
    ensures var stem := order[0];
            var next := Reconciled(zircon, boring, {stem});
            var w := Walk(zircon, boring, order);
            var rw := Walk(next, boring, order[1..]);
            && w.tree == rw.tree && w.failure == rw.failure
            && w.copied == (if NeedsCopy(zircon, boring, stem) then [stem] else []) + rw.copied
            && Reached(zircon, boring, order) == 1 + Reached(next, boring, order[1..])
  {
    var stem := order[0];
    var next := Reconciled(zircon, boring, {stem});
    VisitReconciles(zircon, boring, stem);
    assert Visit(zircon, boring, stem) == Ok((next, NeedsCopy(zircon, boring, stem)));
    ReconciledShape(zircon, boring, {stem});
    ReachedShape(zircon, next, boring, order[1..]);
  }

  lemma ElemsCons(s: seq<string>, n: nat)
    requires 0 < n <= |s|
    ensures Elems(s[..n]) == {s[0]} + Elems(s[1..][..n - 1])
  {
    TakeCons(s, n);
  }

  lemma TakeCons(s: seq<string>, n: nat)
    requires 0 < n <= |s|
    ensures s[..n] == [s[0]] + s[1..][..n - 1]
  {
  }

  /** The walk completes exactly when every stem it visits is resolvable. */
  lemma {:induction false} WalkSucceedsIff(zircon: Tree, boring: Tree, order: seq<string>)
    ensures Walk(zircon, boring, order).failure.None?
        <==> forall i | 0 <= i < |order| :: Resolvable(zircon, boring, order[i])
  {
    WalkMatchesReference(zircon, boring, order);
  }

  /**
   A subset file on the walk with no upstream counterpart in either location
   stops the walk.
   */
  lemma WalkFailsOnMissingUpstream(zircon: Tree, boring: Tree, order: seq<string>, i: nat)
    requires i < |order| && Compared(zircon, order[i])
    requires order[i] !in boring && "/src" + order[i] !in boring
    ensures Walk(zircon, boring, order).failure.Some?
  {
    WalkSucceedsIff(zircon, boring, order);
  }

  /** The skip list is maintained by hand: whatever the walk does, it keeps the skipped files as they were. */
  lemma SkippedFilesKept(zircon: Tree, boring: Tree, order: seq<string>)
    ensures forall s | s in SkippedFiles && s in zircon ::
              s in Walk(zircon, boring, order).tree && Walk(zircon, boring, order).tree[s] == zircon[s]
  {
  }

  /** A completed walk leaves every file it compared equal to its counterpart. */
  lemma WalkSynchronises(zircon: Tree, boring: Tree, order: seq<string>)
    requires Walk(zircon, boring, order).failure.None?
    ensures Walk(zircon, boring, order).tree.Keys == zircon.Keys
    ensures forall s | s in order && Compared(zircon, s) ::
              HasUpstreamFile(boring, s) && Walk(zircon, boring, order).tree[s] == Upstream(boring, s).node
  {
    WalkMatchesReference(zircon, boring, order);
    assert order[..|order|] == order;
  }

  /** A file is copied only when its contents differ from its counterpart's; every such file on a completed walk is. */
  lemma {:induction false} WalkCopiesExactlyChanged(zircon: Tree, boring: Tree, order: seq<string>)
    requires Walk(zircon, boring, order).failure.None?
    ensures forall s :: s in Walk(zircon, boring, order).copied <==> s in order && NeedsCopy(zircon, boring, s)
  {
    WalkMatchesReference(zircon, boring, order);
    assert order[..|order|] == order;
  }

  lemma NothingListedIsEmpty(s: seq<string>)
    requires forall x :: x !in s
    ensures s == []
  {
    if s != [] {
      HeadIn(s);
    }
  }

  lemma HeadIn(s: seq<string>)
    requires |s| > 0
    ensures s[0] in s
  {
  }

  /** A second walk over unchanged upstream copies nothing and changes nothing. */
  lemma WalkIdempotent(zircon: Tree, boring: Tree, order: seq<string>)
    requires Walk(zircon, boring, order).failure.None?
    ensures var once := Walk(zircon, boring, order).tree;
            Walk(once, boring, order) == Sync(once, [], None)
  {
    var visited := Elems(order);
    WalkMatchesReference(zircon, boring, order);
    assert order[..|order|] == order;
    var once := Reconciled(zircon, boring, visited);
    ReconciledShape(zircon, boring, visited);
    ReachedShape(zircon, once, boring, order);
    WalkMatchesReference(once, boring, order);
    ReconciledCompose(zircon, boring, visited, visited);
    assert visited + visited == visited;
    var again := Walk(once, boring, order);
    NothingListedIsEmpty(again.copied);
  }

  /** The walk order does not matter: visiting the same stems in any order gives the same subset and the same verdict. */
  lemma WalkOrderIrrelevant(zircon: Tree, boring: Tree, order1: seq<string>, order2: seq<string>)
    requires Elems(order1) == Elems(order2)
    ensures Walk(zircon, boring, order1).failure.None? <==> Walk(zircon, boring, order2).failure.None?
    ensures Walk(zircon, boring, order1).failure.None? ==>
              Walk(zircon, boring, order1).tree == Walk(zircon, boring, order2).tree
  {
    WalkSucceedsIff(zircon, boring, order1);
    WalkSucceedsIff(zircon, boring, order2);
    WalkMatchesReference(zircon, boring, order1);
    WalkMatchesReference(zircon, boring, order2);
    assert order1[..|order1|] == order1;
    assert order2[..|order2|] == order2;
    forall i | 0 <= i < |order2|
      ensures order2[i] in Elems(order1)
    {
    }
    forall i | 0 <= i < |order1|
      ensures order1[i] in Elems(order2)
    {
    }
  }
}
