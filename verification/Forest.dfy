/**
 The folders table as a forest: a row names its parent, or is at the root. What a
 chain of folders is, when one exists, and exactly when moving or deleting a
 folder leaves a forest.
 */
module Forest {
  import opened Base

  /** A folder row: where it is, and the key of the create that made it. */
  datatype Folder = Folder(parent: Option<nat>, key: Option<nat>)

  type Table = map<nat, Folder>

  ghost predicate ParentsExist(t: Table) {
    forall f :: f in t && t[f].parent.Some? ==> t[f].parent.value in t
  }

  /** The i-th folder of c is in the table, below the one before it. */
  predicate Link(t: Table, c: seq<nat>, i: nat)
    requires i < |c|
  {
    c[i] in t && (i > 0 ==> t[c[i]].parent == Some(c[i - 1]))
  }

  /** c goes down the tree, one child at a time. */
  predicate IsPath(t: Table, c: seq<nat>) {
    c != [] && forall i :: 0 <= i < |c| ==> Link(t, c, i)
  }

  function Last(c: seq<nat>): nat
    requires c != []
  {
    c[|c| - 1]
  }

  predicate IsCycle(t: Table, c: seq<nat>) {
    IsPath(t, c) && Link(t, c, 0) && t[c[0]].parent == Some(Last(c))
  }

  /** No folder is its own ancestor, and no parent is missing. */
  ghost predicate IsForest(t: Table) {
    ParentsExist(t) && forall c :: !IsCycle(t, c)
  }

  /** The path from the root down to f. */
  predicate IsChain(t: Table, c: seq<nat>, f: nat) {
    IsPath(t, c) && Link(t, c, 0) && t[c[0]].parent == None && Last(c) == f
  }

  ghost predicate HasChain(t: Table, f: nat) {
    exists c :: IsChain(t, c, f)
  }

  // ----- chains are unique and without repetition -----

  lemma PathPrefix(t: Table, c: seq<nat>, n: nat)
    requires IsPath(t, c) && 0 < n <= |c|
    ensures IsPath(t, c[..n]) && IsPath(t, c[n - 1..])
  {
    var d, e := c[..n], c[n - 1..];
    forall i | 0 <= i < |d| ensures Link(t, d, i) { assert Link(t, c, i); }
    forall i | 0 <= i < |e| ensures Link(t, e, i) { assert Link(t, c, n - 1 + i); }
  }

  lemma ChainPrefix(t: Table, c: seq<nat>, f: nat, n: nat)
    requires IsChain(t, c, f) && 0 < n <= |c|
    ensures IsChain(t, c[..n], c[n - 1])
  {
    PathPrefix(t, c, n);
  }

  lemma {:induction false} ChainUnique(t: Table, c: seq<nat>, d: seq<nat>, f: nat)
    requires IsChain(t, c, f) && IsChain(t, d, f)
    ensures c == d
    decreases |c|
  {
    assert Link(t, c, |c| - 1) && Link(t, d, |d| - 1);
    if |c| == 1 || |d| == 1 {
      assert c == [f] && d == [f];
    } else {
      ChainPrefix(t, c, f, |c| - 1);
      ChainPrefix(t, d, f, |d| - 1);
      assert c[|c| - 2] == d[|d| - 2];
      ChainUnique(t, c[..|c| - 1], d[..|d| - 1], c[|c| - 2]);
      assert c == c[..|c| - 1] + [f] && d == d[..|d| - 1] + [f];
    }
  }

  /** A chain names no folder twice. */
  lemma ChainRepeatFree(t: Table, c: seq<nat>, f: nat)
    requires IsChain(t, c, f)
    ensures forall i, j :: 0 <= i < j < |c| ==> c[i] != c[j]
  {
    forall i, j | 0 <= i < j < |c| ensures c[i] != c[j] {
      ChainPrefix(t, c, f, i + 1);
      ChainPrefix(t, c, f, j + 1);
      if c[i] == c[j] { ChainUnique(t, c[..i + 1], c[..j + 1], c[i]); }
    }
  }

  // ----- every folder of a forest has a chain, and only in a forest -----

  ghost function Elements(c: seq<nat>): set<nat> {
    set x | x in c
  }

  lemma {:induction false} RepeatFreeSize(c: seq<nat>)
    requires forall i, j :: 0 <= i < j < |c| ==> c[i] != c[j]
    ensures |Elements(c)| == |c|
  {
    if c == [] {
      assert Elements(c) == {};
    } else {
      RepeatFreeSize(c[1..]);
      assert Elements(c) == {c[0]} + Elements(c[1..]);
      assert c[0] !in Elements(c[1..]);
    }
  }

  lemma PathInTable(t: Table, c: seq<nat>)
    requires IsPath(t, c)
    ensures Elements(c) <= t.Keys
  {
    forall x | x in c ensures x in t {
      var i :| 0 <= i < |c| && c[i] == x;
      assert Link(t, c, i);
    }
  }

  /** Going up from a path without repetition ends at the root. */
  lemma {:induction false} WalkUp(t: Table, c: seq<nat>) returns (chain: seq<nat>)
    requires IsForest(t) && IsPath(t, c)
    requires forall i, j :: 0 <= i < j < |c| ==> c[i] != c[j]
    ensures IsChain(t, chain, Last(c))
    decreases |t.Keys| - |c|
  {
    assert Link(t, c, 0);
    if t[c[0]].parent == None {
      chain := c;
    } else {
      var p := t[c[0]].parent.value;
      if p in c {
        var k :| 0 <= k < |c| && c[k] == p;
        PathPrefix(t, c, k + 1);
        assert IsCycle(t, c[..k + 1]);
        assert false;
      } else {
        var d := [p] + c;
        forall i | 0 <= i < |d| ensures Link(t, d, i) {
          if i > 0 { assert Link(t, c, i - 1); }
        }
        RepeatFreeSize(d);
        PathInTable(t, d);
        SubsetSize(Elements(d), t.Keys);
        chain := WalkUp(t, d);
      }
    }
  }

  lemma PathJoin(t: Table, c: seq<nat>, d: seq<nat>)
    requires IsPath(t, c) && IsPath(t, d) && Link(t, d, 0) && t[d[0]].parent == Some(Last(c))
    ensures IsPath(t, c + d)
  {
    var e := c + d;
    forall i | 0 <= i < |e| ensures Link(t, e, i) {
      if i < |c| { assert Link(t, c, i); } else { assert Link(t, d, i - |c|); }
    }
  }

  /** A table is a forest exactly when every folder has a chain from the root. */
  lemma ForestIffChains(t: Table)
    ensures IsForest(t) <==> forall f :: f in t ==> HasChain(t, f)
  {
    if IsForest(t) {
      forall f | f in t ensures HasChain(t, f) {
        var c := WalkUp(t, [f]);
      }
    }
    if forall f :: f in t ==> HasChain(t, f) {
      forall f | f in t && t[f].parent.Some? ensures t[f].parent.value in t {
        var c :| IsChain(t, c, f);
        assert Link(t, c, |c| - 1) && Link(t, c, |c| - 2);
      }
      forall c ensures !IsCycle(t, c) {
        if IsCycle(t, c) {
          assert Link(t, c, |c| - 1);
          var d :| IsChain(t, d, Last(c));
          PathJoin(t, d, c);
          assert Link(t, d + c, 0);
          ChainUnique(t, d, d + c, Last(c));
        }
      }
    }
  }

  /** The chain of f, "" (none) being the root itself. */
  ghost function Chain(t: Table, f: nat): (c: seq<nat>)
    requires f in t && HasChain(t, f)
    ensures IsChain(t, c, f)
  {
    var c :| IsChain(t, c, f);
    c
  }

  ghost function ChainTo(t: Table, f: Option<nat>): (c: seq<nat>)
    requires f.Some? ==> f.value in t && HasChain(t, f.value)
  {
    if f.None? then [] else Chain(t, f.value)
  }

  /** f is g or above it. */
  ghost predicate Above(t: Table, f: nat, g: nat)
    requires g in t && HasChain(t, g)
  {
    f in Chain(t, g)
  }

  /** A chain extends its parent's. */
  lemma ChainStep(t: Table, f: nat)
    requires IsForest(t) && f in t
    ensures HasChain(t, f) && (t[f].parent.Some? ==> t[f].parent.value in t && HasChain(t, t[f].parent.value))
    ensures Chain(t, f) == ChainTo(t, t[f].parent) + [f]
  {
    ForestIffChains(t);
    var c := Chain(t, f);
    assert Link(t, c, |c| - 1);
    if t[f].parent.Some? {
      var p := t[f].parent.value;
      ChainPrefix(t, c, f, |c| - 1);
      ChainUnique(t, c[..|c| - 1], Chain(t, p), p);
    }
  }

  // ----- moving a folder -----

  lemma OneFolder(t: Table, f: nat)
    requires f in t
    ensures IsPath(t, [f])
  {
    assert Link(t, [f], 0) ==> IsPath(t, [f]);
  }

  function Move(t: Table, f: nat, parent: Option<nat>): Table
    requires f in t
  {
    t[f := t[f].(parent := parent)]
  }

  /** A path that does not go through f below its head stays one. */
  lemma PathAfterMove(t: Table, f: nat, parent: Option<nat>, c: seq<nat>)
    requires f in t && IsPath(t, c) && forall i :: 0 < i < |c| ==> c[i] != f
    ensures IsPath(Move(t, f, parent), c)
  {
    forall i | 0 <= i < |c| ensures Link(Move(t, f, parent), c, i) { assert Link(t, c, i); }
  }

  /** Once f is below parent, what was f's own chain becomes the parent's chain and f. */
  lemma BelowNewParent(t: Table, f: nat, parent: Option<nat>, c: seq<nat>)
    requires IsForest(t) && f in t && (parent.Some? ==> parent.value in t && HasChain(t, parent.value))
    requires f !in ChainTo(t, parent)
    requires IsPath(t, c) && c[0] == f && forall i :: 0 < i < |c| ==> c[i] != f
    ensures IsChain(Move(t, f, parent), ChainTo(t, parent) + c, Last(c))
  {
    var t', up := Move(t, f, parent), ChainTo(t, parent);
    PathAfterMove(t, f, parent, c);
    assert Link(t', c, 0);
    if parent.Some? {
      PathAfterMove(t, f, parent, up);
      PathJoin(t', up, c);
      assert Link(t, up, 0) && Link(t', up + c, 0);
    } else {
      assert up + c == c;
    }
  }

  /** Every folder still has a chain once f is below parent. */
  lemma ChainAfterMove(t: Table, f: nat, parent: Option<nat>, g: nat)
    requires IsForest(t) && f in t && g in t && (parent.Some? ==> parent.value in t && HasChain(t, parent.value))
    requires HasChain(t, g) && f !in ChainTo(t, parent)
    ensures HasChain(Move(t, f, parent), g)
  {
    var c := Chain(t, g);
    if f in c {
      var k :| 0 <= k < |c| && c[k] == f;
      ChainRepeatFree(t, c, g);
      PathPrefix(t, c, k + 1);
      assert c[k..] == c[k + 1 - 1..];
      BelowNewParent(t, f, parent, c[k..]);
    } else {
      PathAfterMove(t, f, parent, c);
      assert Link(t, c, 0) && Link(Move(t, f, parent), c, 0);
      assert IsChain(Move(t, f, parent), c, g);
    }
  }

  lemma MoveMakesCycle(t: Table, f: nat, p: nat)
    requires IsForest(t) && f in t && p in t && HasChain(t, p) && f in Chain(t, p)
    ensures !IsForest(Move(t, f, Some(p)))
  {
    var up := Chain(t, p);
    var k :| 0 <= k < |up| && up[k] == f;
    ChainRepeatFree(t, up, p);
    PathPrefix(t, up, k + 1);
    var c := up[k..];
    assert c == up[k + 1 - 1..];
    PathAfterMove(t, f, Some(p), c);
    assert Link(Move(t, f, Some(p)), c, 0);
    assert IsCycle(Move(t, f, Some(p)), c);
  }

  lemma MoveKeepsForest(t: Table, f: nat, parent: Option<nat>)
    requires IsForest(t) && f in t && (parent.Some? ==> parent.value in t && HasChain(t, parent.value))
    requires f !in ChainTo(t, parent)
    ensures IsForest(Move(t, f, parent))
  {
    ForestIffChains(t);
    forall g | g in Move(t, f, parent) ensures HasChain(Move(t, f, parent), g) {
      ChainAfterMove(t, f, parent, g);
    }
    ForestIffChains(Move(t, f, parent));
  }

  /** Main theorem on moves: the result is a forest exactly when f is not the new parent or above it. */
  lemma MoveIffNotBelow(t: Table, f: nat, parent: Option<nat>)
    requires IsForest(t) && f in t && (parent.Some? ==> parent.value in t)
    ensures parent.Some? ==> HasChain(t, parent.value)
    ensures IsForest(Move(t, f, parent)) <==> f !in ChainTo(t, parent)
  {
    ForestIffChains(t);
    if f in ChainTo(t, parent) {
      MoveMakesCycle(t, f, parent.value);
    } else {
      MoveKeepsForest(t, f, parent);
    }
  }

  /** And then the chain of f is its new parent's, with f at the end. */
  lemma MovedChain(t: Table, f: nat, parent: Option<nat>)
    requires IsForest(t) && f in t && (parent.Some? ==> parent.value in t && HasChain(t, parent.value))
    requires f !in ChainTo(t, parent)
    ensures IsForest(Move(t, f, parent)) && HasChain(Move(t, f, parent), f)
    ensures Chain(Move(t, f, parent), f) == ChainTo(t, parent) + [f]
  {
    ForestIffChains(t);
    MoveIffNotBelow(t, f, parent);
    assert Link(t, [f], 0) by { assert IsPath(t, [f]) by { ChainStep(t, f); OneFolder(t, f); } }
    BelowNewParent(t, f, parent, [f]);
    ChainUnique(Move(t, f, parent), Chain(Move(t, f, parent), f), ChainTo(t, parent) + [f], f);
  }

  // ----- adding and deleting folders -----

  /** A path is one in every table that has its folders in the same places. */
  lemma SamePath(t: Table, t': Table, c: seq<nat>)
    requires IsPath(t, c) && forall i :: 0 <= i < |c| ==> c[i] in t' && (Link(t, c, i) ==> t'[c[i]] == t[c[i]])
    ensures IsPath(t', c)
  {
    forall i | 0 <= i < |c| ensures Link(t', c, i) { assert Link(t, c, i); }
  }

  lemma ChainOfAdded(t: Table, f: nat, row: Folder)
    requires f !in t && (row.parent.Some? ==> row.parent.value in t && HasChain(t, row.parent.value))
    ensures IsChain(t[f := row], ChainTo(t, row.parent) + [f], f)
  {
    var t', up := t[f := row], ChainTo(t, row.parent);
    OneFolder(t', f);
    assert Link(t', [f], 0);
    if row.parent.Some? {
      OldChain(t, f, row, row.parent.value);
      PathJoin(t', up, [f]);
      assert Link(t', up, 0) && Link(t', up + [f], 0);
    } else {
      assert up + [f] == [f];
    }
  }

  lemma Added(t: Table, f: nat, row: Folder)
    requires IsForest(t) && f !in t && (row.parent.Some? ==> row.parent.value in t)
    ensures row.parent.Some? ==> HasChain(t, row.parent.value)
    ensures IsForest(t[f := row]) && HasChain(t[f := row], f)
    ensures Chain(t[f := row], f) == ChainTo(t, row.parent) + [f]
  {
    ForestIffChains(t);
    var t' := t[f := row];
    forall g | g in t ensures HasChain(t', g) { OldChain(t, f, row, g); }
    ChainOfAdded(t, f, row);
    ForestIffChains(t');
    ChainUnique(t', Chain(t', f), ChainTo(t, row.parent) + [f], f);
  }

  lemma OldChain(t: Table, f: nat, row: Folder, g: nat)
    requires f !in t && g in t && HasChain(t, g)
    ensures IsChain(t[f := row], Chain(t, g), g)
  {
    var c := Chain(t, g);
    forall i | 0 <= i < |c| ensures c[i] in t && t[f := row][c[i]] == t[c[i]] { assert Link(t, c, i); }
    SamePath(t, t[f := row], c);
    assert Link(t[f := row], c, 0);
  }

  /** Every folder that is f or below it. */
  ghost function Subtree(t: Table, f: nat): set<nat>
    requires IsForest(t)
  {
    ForestIffChains(t);
    set g | g in t && Above(t, f, g)
  }

  lemma Deleted(t: Table, f: nat)
    requires IsForest(t)
    ensures IsForest(t - Subtree(t, f))
  {
    ForestIffChains(t);
    var t' := t - Subtree(t, f);
    forall g | g in t' ensures HasChain(t', g) {
      var c := Chain(t, g);
      forall i | 0 <= i < |c| ensures c[i] in t && c[i] in t' && t'[c[i]] == t[c[i]] {
        assert Link(t, c, i);
        ChainPrefix(t, c, g, i + 1);
        ChainUnique(t, Chain(t, c[i]), c[..i + 1], c[i]);
      }
      SamePath(t, t', c);
      assert Link(t', c, 0);
      assert IsChain(t', c, g);
    }
    ForestIffChains(t');
  }

  /** The subtree contains f, and with a folder its children; a child in it other than f has its parent in it. */
  lemma SubtreeClosed(t: Table, f: nat, g: nat)
    requires IsForest(t) && g in t
    ensures f in t ==> f in Subtree(t, f)
    ensures g in Subtree(t, f) <==> (g == f || (t[g].parent.Some? && t[g].parent.value in Subtree(t, f)))
  {
    ForestIffChains(t);
    ChainStep(t, g);
    if f in t { ChainStep(t, f); }
  }

  // ----- two moves at the same time -----

  /** The chain of g after f has been moved below parent. */
  lemma MovedChainOf(t: Table, f: nat, parent: Option<nat>, g: nat)
    requires IsForest(t) && f in t && g in t && (parent.Some? ==> parent.value in t && HasChain(t, parent.value))
    requires HasChain(t, g) && f !in ChainTo(t, parent)
    ensures HasChain(Move(t, f, parent), g)
    ensures forall x :: x in Chain(Move(t, f, parent), g) ==> x in Chain(t, g) || (f in Chain(t, g) && x in ChainTo(t, parent))
    ensures f in Chain(t, g) ==> forall x :: x in ChainTo(t, parent) ==> x in Chain(Move(t, f, parent), g)
  {
    var c, t' := Chain(t, g), Move(t, f, parent);
    ChainAfterMove(t, f, parent, g);
    if f in c {
      var k :| 0 <= k < |c| && c[k] == f;
      ChainRepeatFree(t, c, g);
      PathPrefix(t, c, k + 1);
      assert c[k..] == c[k + 1 - 1..];
      BelowNewParent(t, f, parent, c[k..]);
      ChainUnique(t', Chain(t', g), ChainTo(t, parent) + c[k..], g);
    } else {
      PathAfterMove(t, f, parent, c);
      assert Link(t, c, 0) && Link(t', c, 0);
      ChainUnique(t', Chain(t', g), c, g);
    }
  }

  /**
   Two moves that are both checked against t before either is made, and each
   allowed by itself, leave a forest unless each folder is moved below the other.
   */
  lemma ConcurrentMovesIff(t: Table, a: nat, pa: Option<nat>, b: nat, pb: Option<nat>)
    requires IsForest(t) && a in t && b in t && (pa.Some? ==> pa.value in t) && (pb.Some? ==> pb.value in t)
    requires IsForest(Move(t, a, pa)) && IsForest(Move(t, b, pb))
    ensures (pa.Some? ==> HasChain(t, pa.value)) && (pb.Some? ==> HasChain(t, pb.value))
    ensures IsForest(Move(Move(t, a, pa), b, pb)) <==> !(a in ChainTo(t, pb) && b in ChainTo(t, pa))
  {
    ForestIffChains(t);
    MoveIffNotBelow(t, a, pa);
    MoveIffNotBelow(t, b, pb);
    MoveIffNotBelow(Move(t, a, pa), b, pb);
    if pb.Some? { MovedChainOf(t, a, pa, pb.value); }
  }

  const TWO_ROOTS: Table := map[0 := Folder(None, None), 1 := Folder(None, None)]

  lemma TwoRoots(f: nat)
    requires f in TWO_ROOTS
    ensures IsForest(TWO_ROOTS) && HasChain(TWO_ROOTS, f) && Chain(TWO_ROOTS, f) == [f]
  {
    var t := TWO_ROOTS;
    forall g | g in t ensures HasChain(t, g) { assert Link(t, [g], 0) && IsChain(t, [g], g); }
    ForestIffChains(t);
    assert Link(t, [f], 0);
    ChainUnique(t, Chain(t, f), [f], f);
  }

  /** Two moves, each allowed by itself, that make a cycle if both are checked before either is made. */
  lemma ConcurrentMovesMakeACycle()
    ensures exists t: Table, a: nat, b: nat :: IsForest(t) && a in t && b in t && IsForest(Move(t, a, Some(b))) && IsForest(Move(t, b, Some(a)))
              && !IsForest(Move(Move(t, a, Some(b)), b, Some(a)))
  {
    var t := TWO_ROOTS;
    TwoRoots(0);
    TwoRoots(1);
    MoveIffNotBelow(t, 0, Some(1));
    MoveIffNotBelow(t, 1, Some(0));
    BothMoved();
  }

  lemma BothMoved()
    ensures !IsForest(Move(Move(TWO_ROOTS, 0, Some(1)), 1, Some(0)))
  {
    var t := Move(Move(TWO_ROOTS, 0, Some(1)), 1, Some(0));
    assert Link(t, [1, 0], 0) && Link(t, [1, 0], 1);
    assert IsCycle(t, [1, 0]);
  }
}
