/** The size hierarchy that both scan backends fill (`_add_size_to_hierarchy`,
    which scanner.py and mft_scanner.py define identically).

    The source keeps a nested dict `name -> {"total": int, "children": {...}}`.
    Here a node is named by the chain of component names that leads to it from
    the top level, and the tree is the map from those chains to the nodes'
    totals: a chain is a key exactly when the nested node exists, and the
    children of node `p` are the keys `p + [c]`. */
module Hierarchy {
  import opened Text

  type NodePath = seq<string>

  /** One call of `_add_size_to_hierarchy`: the components of the relative
      path and the size added. */
  datatype Addition = Addition(parts: seq<string>, size: nat)

  /** `rel_path.replace("/", "\\").split("\\")` */
  function Components(relPath: string): (parts: seq<string>)
    ensures |parts| >= 1
  {
    Split(ReplaceChar(relPath, '/', '\\'), '\\')
  }

  /** Whether adding a file with components `parts` adds its size to the node
      `p`: a single component names a node itself; otherwise every proper,
      non-empty prefix does and the last component (the file name) does not. */
  predicate Touches(parts: seq<string>, p: NodePath)
  {
    if |parts| <= 1 then p == parts
    else 1 <= |p| < |parts| && p == parts[..|p|]
  }

  /** The sum of the sizes of the additions in `h` that pass through `p`. */
  function Through(h: seq<Addition>, p: NodePath): nat
  {
    if h == [] then 0
    else Through(h[..|h| - 1], p) + (if Touches(h[|h| - 1].parts, p) then h[|h| - 1].size else 0)
  }

  /** Whether some addition in `h` passes through `p`. */
  predicate Reached(h: seq<Addition>, p: NodePath)
  {
    exists i | 0 <= i < |h| :: Touches(h[i].parts, p)
  }

  /** The sum of all sizes added. */
  function SizeSum(h: seq<Addition>): nat
  {
    if h == [] then 0 else SizeSum(h[..|h| - 1]) + h[|h| - 1].size
  }

  /** The shared hierarchy object. `history` records every addition made to
      it, in order; the invariant is that each node's total is the sum of the
      sizes added through it, and that a node exists exactly when some
      addition passed through it (nothing is ever removed). */
  class SizeTree {
    var totals: map<NodePath, nat>
    ghost var history: seq<Addition>

    ghost predicate Valid()
      reads this
    {
      && (forall p | p in totals :: Reached(history, p))
      && (forall p | Reached(history, p) :: p in totals)
      && (forall p | p in totals :: totals[p] == Through(history, p))
    }

    /** `{}` */
    constructor ()
      ensures Valid() && totals == map[] && history == []
    {
      totals := map[];
      history := [];
    }

    /** `_add_size_to_hierarchy(self, rel_path, size)`: every node the path
        passes through is created if missing (`setdefault`) and its total
        grows by `size`; every other node keeps its total. */
    method AddSize(relPath: string, size: nat)
      requires Valid()
      modifies this
      ensures Valid()
      ensures history == old(history) + [Addition(Components(relPath), size)]
      ensures forall p :: p in totals <==> p in old(totals) || Touches(Components(relPath), p)
      ensures forall p | p in totals ::
                totals[p] == (if p in old(totals) then old(totals)[p] else 0)
                             + (if Touches(Components(relPath), p) then size else 0)
    {
      var parts := Components(relPath);
      var t := AddAlong(totals, parts, size);
      AdditionKeepsInvariant(totals, history, t, Addition(parts, size));
      totals := t;
      history := history + [Addition(parts, size)];
    }
  }

  /** The dict walk of `_add_size_to_hierarchy` on the totals alone: `node =
      child["children"]` moves one level down, so the node visited at step `i`
      is named by the first `i` components. */
  method AddAlong(totals: map<NodePath, nat>, parts: seq<string>, size: nat) returns (t: map<NodePath, nat>)
    requires |parts| >= 1
    ensures forall p :: p in t <==> p in totals || Touches(parts, p)
    ensures forall p | p in t ::
              t[p] == (if p in totals then totals[p] else 0) + (if Touches(parts, p) then size else 0)
  {
    t := totals;
    if |parts| <= 1 {
      var key := [parts[0]];
      assert key == parts;
      t := t[key := (if key in t then t[key] else 0) + size];
    } else {
      var i := 1;
      while i < |parts|
        invariant 1 <= i <= |parts|
        invariant forall p :: p in t <==> p in totals || ProperPrefix(parts, p, i)
        invariant forall p | p in t ::
                    t[p] == (if p in totals then totals[p] else 0)
                            + (if ProperPrefix(parts, p, i) then size else 0)
      {
        var key := parts[..i];
        assert ProperPrefix(parts, key, i + 1);
        assert forall p | ProperPrefix(parts, p, i + 1) :: ProperPrefix(parts, p, i) || p == key;
        t := t[key := (if key in t then t[key] else 0) + size];
        i := i + 1;
      }
      assert forall p :: Touches(parts, p) == ProperPrefix(parts, p, |parts|);
    }
  }

  /** `p` is one of the first `i - 1` non-empty prefixes of `parts`. */
  predicate ProperPrefix(parts: seq<string>, p: NodePath, i: int)
  {
    1 <= |p| < i && |p| <= |parts| && p == parts[..|p|]
  }

  lemma ReachedSnoc(h: seq<Addition>, a: Addition, p: NodePath)
    ensures Reached(h + [a], p) <==> Reached(h, p) || Touches(a.parts, p)
  {
    var h' := h + [a];
    if Reached(h, p) {
      var i :| 0 <= i < |h| && Touches(h[i].parts, p);
      assert h'[i] == h[i];
    }
    if Touches(a.parts, p) {
      assert h'[|h|] == a;
    }
    if Reached(h', p) {
      var i :| 0 <= i < |h'| && Touches(h'[i].parts, p);
      if i < |h| { assert h'[i] == h[i]; }
    }
  }

  /** The invariant of `SizeTree` survives one addition. */
  lemma AdditionKeepsInvariant(totals: map<NodePath, nat>, h: seq<Addition>, totals': map<NodePath, nat>, a: Addition)
    requires forall p | p in totals :: Reached(h, p)
    requires forall p | Reached(h, p) :: p in totals
    requires forall p | p in totals :: totals[p] == Through(h, p)
    requires forall p :: p in totals' <==> p in totals || Touches(a.parts, p)
    requires forall p | p in totals' ::
               totals'[p] == (if p in totals then totals[p] else 0) + (if Touches(a.parts, p) then a.size else 0)
    ensures forall p | p in totals' :: Reached(h + [a], p)
    ensures forall p | Reached(h + [a], p) :: p in totals'
    ensures forall p | p in totals' :: totals'[p] == Through(h + [a], p)
  {
    var h' := h + [a];
    assert h'[..|h'| - 1] == h && h'[|h'| - 1] == a;
    forall p ensures Reached(h', p) <==> Reached(h, p) || Touches(a.parts, p) {
      ReachedSnoc(h, a, p);
    }
    forall p | p in totals' ensures totals'[p] == Through(h', p) {
      assert Through(h', p) == Through(h, p) + (if Touches(a.parts, p) then a.size else 0);
      if p !in totals {
        assert !Reached(h, p);
        ThroughUnreached(h, p);
      }
    }
  }

  lemma {:induction false} ThroughUnreached(h: seq<Addition>, p: NodePath)
    requires !Reached(h, p)
    ensures Through(h, p) == 0
  {
    if h != [] {
      var init := h[..|h| - 1];
      assert forall i | 0 <= i < |init| :: init[i] == h[i];
      ThroughUnreached(init, p);
    }
  }

  /** Totals are additive over a split history. In particular a tree that
      received the additions `partial` and then `full` holds, at every node,
      the contributions of both. */
  lemma {:induction false} ThroughConcat(a: seq<Addition>, b: seq<Addition>, p: NodePath)
    ensures Through(a + b, p) == Through(a, p) + Through(b, p)
  {
    if b == [] {
      assert a + b == a;
    } else {
      assert (a + b)[..|a + b| - 1] == a + b[..|b| - 1];
      ThroughConcat(a, b[..|b| - 1], p);
    }
  }

  lemma ThroughRemove(h: seq<Addition>, k: nat, p: NodePath)
    requires k < |h|
    ensures Through(h, p) == Through(h[..k] + h[k + 1..], p) + (if Touches(h[k].parts, p) then h[k].size else 0)
  {
    assert h == h[..k] + [h[k]] + h[k + 1..];
    ThroughConcat(h[..k] + [h[k]], h[k + 1..], p);
    ThroughConcat(h[..k], [h[k]], p);
    ThroughConcat(h[..k], h[k + 1..], p);
    assert [h[k]][..0] == [];
  }

  /** The totals do not depend on the order of the additions. */
  lemma {:induction false} ThroughPermutation(h1: seq<Addition>, h2: seq<Addition>, p: NodePath)
    requires multiset(h1) == multiset(h2)
    ensures Through(h1, p) == Through(h2, p)
    decreases |h1|
  {
    if h1 != [] {
      var n := |h1| - 1;
      var x := h1[n];
      assert h1 == h1[..n] + [x];
      assert x in multiset(h2);
      var k :| 0 <= k < |h2| && h2[k] == x;
      assert h2 == h2[..k] + [x] + h2[k + 1..];
      calc {
        multiset(h1[..n]);
        multiset(h1) - multiset{x};
        multiset(h2) - multiset{x};
        { assert multiset(h2) == multiset(h2[..k]) + multiset{x} + multiset(h2[k + 1..]); }
        multiset(h2[..k] + h2[k + 1..]);
      }
      ThroughPermutation(h1[..n], h2[..k] + h2[k + 1..], p);
      ThroughRemove(h2, k, p);
      assert h1[..n] == h1[..|h1| - 1];
    } else {
      assert |multiset(h2)| == 0;
    }
  }

  lemma ReachedPermutation(h1: seq<Addition>, h2: seq<Addition>, p: NodePath)
    requires multiset(h1) == multiset(h2)
    ensures Reached(h1, p) == Reached(h2, p)
  {
    if Reached(h1, p) {
      var i :| 0 <= i < |h1| && Touches(h1[i].parts, p);
      assert h1[i] in multiset(h2);
      var j :| 0 <= j < |h2| && h2[j] == h1[i];
    }
    if Reached(h2, p) {
      var i :| 0 <= i < |h2| && Touches(h2[i].parts, p);
      assert h2[i] in multiset(h1);
      var j :| 0 <= j < |h1| && h1[j] == h2[i];
    }
  }

  /** Two hierarchies that received the same additions, in any order, are
      identical. */
  lemma AdditionOrderIrrelevant(t1: SizeTree, t2: SizeTree)
    requires t1.Valid() && t2.Valid()
    requires multiset(t1.history) == multiset(t2.history)
    ensures t1.totals == t2.totals
  {
    forall p ensures (p in t1.totals <==> p in t2.totals) {
      ReachedPermutation(t1.history, t2.history, p);
    }
    forall p | p in t1.totals ensures t1.totals[p] == t2.totals[p] {
      ThroughPermutation(t1.history, t2.history, p);
    }
  }

  /** Every addition that reaches a node also reaches its parent node. */
  lemma {:induction false} ThroughChildBelowParent(h: seq<Addition>, p: NodePath, c: string)
    requires |p| >= 1
    ensures Through(h, p + [c]) <= Through(h, p)
  {
    if h != [] {
      ThroughChildBelowParent(h[..|h| - 1], p, c);
      var parts := h[|h| - 1].parts;
      if Touches(parts, p + [c]) {
        assert (p + [c])[..|p|] == p;
        assert parts[..|p|] == (parts[..|p| + 1])[..|p|];
      }
    }
  }

  /** A node's total never exceeds its parent's, and its parent exists. */
  lemma ChildWithinParent(t: SizeTree, p: NodePath, c: string)
    requires t.Valid() && |p| >= 1 && p + [c] in t.totals
    ensures p in t.totals && t.totals[p + [c]] <= t.totals[p]
  {
    var i :| 0 <= i < |t.history| && Touches(t.history[i].parts, p + [c]);
    var parts := t.history[i].parts;
    assert (p + [c])[..|p|] == p;
    assert parts[..|p|] == (parts[..|p| + 1])[..|p|];
    assert Touches(parts, p);
    ThroughChildBelowParent(t.history, p, c);
  }

  /** Each addition reaches exactly one top-level node: the one named by its
      first component. */
  lemma OneTopLevelNode(parts: seq<string>, k: string)
    requires |parts| >= 1
    ensures Touches(parts, [k]) <==> k == parts[0]
  {
    if |parts| > 1 && k == parts[0] {
      assert parts[..1] == [k];
    }
  }

  function TopLevelSum(h: seq<Addition>, roots: seq<string>): nat
  {
    if roots == [] then 0 else TopLevelSum(h, roots[..|roots| - 1]) + Through(h, [roots[|roots| - 1]])
  }

  lemma ThroughSingle(a: Addition, p: NodePath)
    ensures Through([a], p) == if Touches(a.parts, p) then a.size else 0
  {
    assert [a][..0] == [];
  }

  lemma {:induction false} TopLevelSumOfOne(a: Addition, roots: seq<string>)
    requires |a.parts| >= 1
    requires forall i, j | 0 <= i < j < |roots| :: roots[i] != roots[j]
    ensures TopLevelSum([a], roots) == if a.parts[0] in roots then a.size else 0
  {
    if roots != [] {
      var n := |roots| - 1;
      var init := roots[..n];
      var last := roots[n];
      TopLevelSumOfOne(a, init);
      OneTopLevelNode(a.parts, last);
      ThroughSingle(a, [last]);
      assert roots == init + [last];
      assert a.parts[0] in roots <==> a.parts[0] in init || a.parts[0] == last;
    }
  }

  lemma {:induction false} TopLevelSumOfNone(roots: seq<string>)
    ensures TopLevelSum([], roots) == 0
  {
    if roots != [] {
      TopLevelSumOfNone(roots[..|roots| - 1]);
    }
  }

  lemma {:induction false} TopLevelSumConcat(a: seq<Addition>, b: seq<Addition>, roots: seq<string>)
    ensures TopLevelSum(a + b, roots) == TopLevelSum(a, roots) + TopLevelSum(b, roots)
  {
    if roots != [] {
      TopLevelSumConcat(a, b, roots[..|roots| - 1]);
      ThroughConcat(a, b, [roots[|roots| - 1]]);
    }
  }

  /** The top-level totals add up to the sum of all sizes added, given any
      list of the top-level names without repetition. */
  lemma {:induction false} TopLevelTotalsSumToSizes(h: seq<Addition>, roots: seq<string>)
    requires forall i, j | 0 <= i < j < |roots| :: roots[i] != roots[j]
    requires forall i | 0 <= i < |h| :: |h[i].parts| >= 1 && h[i].parts[0] in roots
    ensures TopLevelSum(h, roots) == SizeSum(h)
  {
    if h != [] {
      var init := h[..|h| - 1];
      var a := h[|h| - 1];
      assert h == init + [a];
      assert forall i | 0 <= i < |init| :: init[i] == h[i];
      TopLevelTotalsSumToSizes(init, roots);
      TopLevelSumConcat(init, [a], roots);
      TopLevelSumOfOne(a, roots);
      assert a.parts[0] in roots;
      assert TopLevelSum(h, roots) == TopLevelSum(init, roots) + a.size;
      assert SizeSum(h) == SizeSum(init) + a.size;
    } else {
      TopLevelSumOfNone(roots);
    }
  }
}
