/** TransformHelpers: walking a transform hierarchy and naming a node's
    place in it. A hierarchy is a tree of named transforms; a node is
    identified by its path of child indices from the scene root (the empty
    path is the root, which has no parent). */
module TransformHelpers {
  import opened Basics

  datatype Transform = Transform(name: string, children: seq<Transform>)

  /** Child indices from the root. */
  type Path = seq<nat>

  /** The node at a path, if the path leads anywhere. */
  function At(t: Transform, p: Path): Option<Transform>
    decreases |p|
  {
    if |p| == 0 then Some(t)
    else if p[0] < |t.children| then At(t.children[p[0]], p[1..])
    else None
  }

  /** transform.childCount; 0 for a path that leads nowhere. */
  function ChildCount(root: Transform, p: Path): nat {
    match At(root, p)
    case Some(n) => |n.children|
    case None => 0
  }

  /** Going one child further down a path. */
  lemma {:induction false} AtAppend(t: Transform, p: Path, i: nat)
    requires At(t, p).Some? && i < |At(t, p).value.children|
    ensures At(t, p + [i]) == Some(At(t, p).value.children[i])
    decreases |p|
  {
    if |p| > 0 {
      assert (p + [i])[1..] == p[1..] + [i];
      AtAppend(t.children[p[0]], p[1..], i);
    }
  }

  // ---------------------------------------------------------------------------
  // Pre-order

  /** The proper descendants of `node`, which sits at path p, in pre-order:
      each child before its own descendants, siblings in child-index order. */
  function DescPaths(node: Transform, p: Path): seq<Path>
    decreases node, |node.children| + 1
  {
    ChildrenFrom(node, p, 0)
  }

  /** The children of `node` from index m on, each followed by its
      descendants. */
  function ChildrenFrom(node: Transform, p: Path, m: nat): seq<Path>
    decreases node, |node.children| - m
  {
    if m >= |node.children| then []
    else [p + [m]] + DescPaths(node.children[m], p + [m]) + ChildrenFrom(node, p, m + 1)
  }

  /** The proper descendants of the node at p, in pre-order. */
  function DescAll(root: Transform, p: Path): seq<Path> {
    match At(root, p)
    case Some(n) => DescPaths(n, p)
    case None => []
  }

  /** The children of the node at p from index m on, with their descendants. */
  function ChildrenAt(root: Transform, p: Path, m: nat): seq<Path> {
    match At(root, p)
    case Some(n) => ChildrenFrom(n, p, m)
    case None => []
  }

  /** One step of the pre-order of the children of the node at p. */
  lemma ChildrenAtUnfold(root: Transform, p: Path, m: nat)
    requires At(root, p).Some?
    ensures m >= ChildCount(root, p) ==> ChildrenAt(root, p, m) == []
    ensures m < ChildCount(root, p) ==>
              ChildrenAt(root, p, m) == [p + [m]] + DescAll(root, p + [m]) + ChildrenAt(root, p, m + 1)
  {
    if m < ChildCount(root, p) {
      AtAppend(root, p, m);
    }
  }

  /** Every path the pre-order lists leads to a node strictly below p. */
  lemma {:induction false} DescendantsAreBelow(node: Transform, p: Path, m: nat)
    ensures forall q :: q in ChildrenFrom(node, p, m) ==> |q| > |p| && q[..|p|] == p
    decreases node, |node.children| - m
  {
    if m < |node.children| {
      DescendantsAreBelow(node.children[m], p + [m], 0);
      DescendantsAreBelow(node, p, m + 1);
      forall q | q in DescPaths(node.children[m], p + [m])
        ensures |q| > |p| && q[..|p|] == p
      {
        assert q[..|p| + 1] == p + [m];
        assert q[..|p|] == (q[..|p| + 1])[..|p|];
      }
    }
  }

  /** The last node of a non-empty pre-order has no children. */
  lemma {:induction false} LastIsLeaf(root: Transform, node: Transform, p: Path, m: nat)
    requires At(root, p) == Some(node) && ChildrenFrom(node, p, m) != []
    ensures var s := ChildrenFrom(node, p, m);
            DescAll(root, s[|s| - 1]) == []
    decreases node, |node.children| - m
  {
    var s := ChildrenFrom(node, p, m);
    AtAppend(root, p, m);
    var rest := ChildrenFrom(node, p, m + 1);
    var below := DescPaths(node.children[m], p + [m]);
    assert s == [p + [m]] + below + rest;
    if rest != [] {
      LastIsLeaf(root, node, p, m + 1);
      assert s[|s| - 1] == rest[|rest| - 1];
    } else if below != [] {
      LastIsLeaf(root, node.children[m], p + [m], 0);
      assert s[|s| - 1] == below[|below| - 1];
    } else {
      assert s[|s| - 1] == p + [m];
    }
  }

  // ---------------------------------------------------------------------------
  // The walker's enumerators

  /** One WalkerEnum: its parent, the child it is at (null is None), its
      position and whether it still has to return its parent first. The
      enumerator's nested `child` enumerator is the next frame of the stack
      it belongs to. */
  datatype Frame = Frame(parent: Path, current: Option<Path>, position: int, returnParent: bool)

  /** What MoveNext ends with: its answer, the enumerator and its nested
      children, and the walker's shared `current`. */
  datatype Move = Move(more: bool, frames: seq<Frame>, walkerCurrent: Path)

  /** Positions start at -1 and only ever move forward. */
  predicate PositionsOk(fs: seq<Frame>) {
    forall i :: 0 <= i < |fs| ==> fs[i].position >= -1
  }

  lemma PositionsOfSuffix(fs: seq<Frame>, j: nat)
    requires PositionsOk(fs) && j <= |fs|
    ensures PositionsOk(fs[j..])
  {
    forall i | 0 <= i < |fs| - j ensures fs[j..][i].position >= -1 {
      assert fs[j..][i] == fs[i + j];
    }
  }

  function CurrentRank(f: Frame): nat {
    if f.current.Some? then 1 else 0
  }

  /** WalkerEnum.MoveNext on the enumerator fs[0], whose nested children
      are fs[1..]: true while the parent is still to be returned; the
      nested child moves first, and when it is done it is dropped with the
      current node; a current node with children of its own gets a new
      nested enumerator, whose parent is the walker's current node, and the
      answer is that enumerator's; otherwise the position moves on, and
      the next child, if there is one, becomes the current node here and
      in the walker. */
  function MoveNextFrom(root: Transform, walkerCurrent: Path, fs: seq<Frame>): (r: Move)
    requires |fs| >= 1 && PositionsOk(fs)
    ensures |r.frames| >= 1 && PositionsOk(r.frames)
    decreases |fs|, CurrentRank(fs[0]), 1
  {
    var f := fs[0];
    PositionsOfSuffix(fs, 1);
    if f.returnParent then Move(true, fs, walkerCurrent)
    else if |fs| > 1 && MoveNextFrom(root, walkerCurrent, fs[1..]).more then
      var r := MoveNextFrom(root, walkerCurrent, fs[1..]);
      Move(true, [f] + r.frames, r.walkerCurrent)
    else if |fs| > 1 then
      AfterChild(root, MoveNextFrom(root, walkerCurrent, fs[1..]).walkerCurrent, f.(current := None))
    else AfterChild(root, walkerCurrent, f)
  }

  /** MoveNext past the nested-child step, for an enumerator without one. */
  function AfterChild(root: Transform, walkerCurrent: Path, f: Frame): (r: Move)
    requires f.position >= -1
    ensures |r.frames| >= 1 && PositionsOk(r.frames)
    decreases 1, CurrentRank(f), 0
  {
    if f.current.Some? && ChildCount(root, f.current.value) > 0 then
      var r := MoveNextFrom(root, walkerCurrent, [Frame(walkerCurrent, None, -1, false)]);
      Move(r.more, [f] + r.frames, r.walkerCurrent)
    else
      var g := f.(position := f.position + 1);
      if g.position >= ChildCount(root, g.parent) then Move(false, [g], walkerCurrent)
      else
        var c := g.parent + [g.position];
        Move(true, [g.(current := Some(c))], c)
  }

  /** WalkerEnum.Current on fs[0]: the parent, once, clearing the flag;
      otherwise the nested child's node once that child has moved; otherwise
      the enumerator's own current node. */
  function CurrentFrom(fs: seq<Frame>): (r: (Option<Path>, seq<Frame>))
    requires |fs| >= 1
    ensures |r.1| == |fs|
    decreases |fs|
  {
    if fs[0].returnParent then (Some(fs[0].parent), [fs[0].(returnParent := false)] + fs[1..])
    else if |fs| > 1 && fs[1].position >= 0 then
      var r := CurrentFrom(fs[1..]);
      (r.0, [fs[0]] + r.1)
    else (fs[0].current, fs)
  }

  /** What an enumerator's current node may be: the child at its position,
      or, once the position ran past the last child, the last child if it
      has no children of its own. */
  ghost predicate CurrentOk(root: Transform, f: Frame) {
    var n := ChildCount(root, f.parent);
    f.current.Some? ==>
      || (f.current.value == f.parent + [f.position] && 0 <= f.position < n)
      || (n > 0 && f.position >= n && f.current.value == f.parent + [n - 1] && ChildCount(root, f.current.value) == 0)
  }

  /** The states a walk passes through: each nested enumerator's parent is
      the node its enclosing enumerator is at, only the outermost may still
      have its parent to return, and the walker's current node is the
      innermost enumerator's. */
  ghost predicate Good(root: Transform, fs: seq<Frame>, walkerCurrent: Path)
    decreases |fs|
  {
    && |fs| >= 1 && PositionsOk(fs)
    && At(root, fs[0].parent).Some?
    && fs[0].position >= -1
    && CurrentOk(root, fs[0])
    && (fs[0].returnParent ==>
          |fs| == 1 && fs[0].current.None? && fs[0].position == -1 && walkerCurrent == fs[0].parent)
    && (|fs| == 1 && fs[0].current.Some? ==> walkerCurrent == fs[0].current.value)
    && (|fs| > 1 ==>
          && fs[0].current.Some? && fs[0].current.value == fs[0].parent + [fs[0].position]
          && 0 <= fs[0].position < ChildCount(root, fs[0].parent)
          && fs[1].parent == fs[0].current.value && !fs[1].returnParent && fs[1].current.Some?
          && Good(root, fs[1..], walkerCurrent))
  }

  function NextIndex(position: int): nat {
    if position + 1 >= 0 then position + 1 else 0
  }

  /** The nodes an enumerator has still to yield: its parent if it has to
      return it first, what its nested children have still to yield (or
      the descendants of its current node when it has none), and the
      children after its position with their descendants. */
  ghost function Remaining(root: Transform, fs: seq<Frame>): seq<Path>
    requires |fs| >= 1
    decreases |fs|
  {
    var f := fs[0];
    (if f.returnParent then [f.parent] else [])
    + (if |fs| > 1 then Remaining(root, fs[1..])
       else if f.current.Some? then DescAll(root, f.current.value)
       else [])
    + ChildrenAt(root, f.parent, NextIndex(f.position))
  }

  /** The current node of a moved enumerator is its innermost one, which
      is the walker's. */
  lemma {:induction false} CurrentIsInnermost(root: Transform, fs: seq<Frame>, walkerCurrent: Path)
    requires Good(root, fs, walkerCurrent) && !fs[0].returnParent && fs[0].current.Some?
    ensures CurrentFrom(fs) == (Some(walkerCurrent), fs)
    decreases |fs|
  {
    if |fs| > 1 {
      CurrentIsInnermost(root, fs[1..], walkerCurrent);
      assert [fs[0]] + fs[1..] == fs;
    }
  }

  /** What MoveNext promises, for an enumerator whose parent is `parent`
      and which had the nodes `rem` still to yield. */
  ghost predicate MoveOk(root: Transform, parent: Path, rem: seq<Path>, walkerCurrent: Path, r: Move) {
    && |r.frames| >= 1
    && Good(root, r.frames, r.walkerCurrent)
    && r.frames[0].parent == parent && !r.frames[0].returnParent
    && (r.more <==> rem != [])
    && (r.more ==> r.frames[0].current.Some? && rem == [r.walkerCurrent] + Remaining(root, r.frames))
    && (!r.more ==> r.walkerCurrent == walkerCurrent && Remaining(root, r.frames) == [])
  }

  /** An enumerator at a child, with its nested enumerator in a good state. */
  lemma GoodCons(root: Transform, f: Frame, rest: seq<Frame>, walkerCurrent: Path)
    requires Good(root, rest, walkerCurrent)
    requires At(root, f.parent).Some? && !f.returnParent
    requires 0 <= f.position < ChildCount(root, f.parent) && f.current == Some(f.parent + [f.position])
    requires rest[0].parent == f.current.value && !rest[0].returnParent && rest[0].current.Some?
    ensures Good(root, [f] + rest, walkerCurrent)
    ensures Remaining(root, [f] + rest) == Remaining(root, rest) + ChildrenAt(root, f.parent, NextIndex(f.position))
  {
    var fs := [f] + rest;
    assert fs[1..] == rest;
    assert PositionsOk(fs) by {
      forall i | 0 <= i < |fs| ensures fs[i].position >= -1 {
        if i > 0 {
          assert fs[i] == rest[i - 1];
        }
      }
    }
  }

  /** An enumerator that is at no child and has no parent to return. */
  lemma GoodAlone(root: Transform, f: Frame, walkerCurrent: Path)
    requires At(root, f.parent).Some? && f.position >= -1 && !f.returnParent && f.current.None?
    ensures Good(root, [f], walkerCurrent)
  {
    assert PositionsOk([f]) by {
      forall i | 0 <= i < 1 ensures [f][i].position >= -1 {
      }
    }
  }

  /** MoveNext on an enumerator that has returned its parent (or never
      had to): it answers true exactly when nodes remain, and then the
      walker is at the first of them and the rest remain; once it answers
      false nothing remains and the walker's node is untouched. */
  lemma {:induction false} MoveNextSpec(root: Transform, fs: seq<Frame>, walkerCurrent: Path)
    requires Good(root, fs, walkerCurrent) && !fs[0].returnParent
    ensures MoveOk(root, fs[0].parent, Remaining(root, fs), walkerCurrent, MoveNextFrom(root, walkerCurrent, fs))
    decreases |fs|, CurrentRank(fs[0]), 2
  {
    if |fs| > 1 {
      assert Good(root, fs[1..], walkerCurrent);
      MoveNextSpec(root, fs[1..], walkerCurrent);
      ChildMoveSpec(root, fs, walkerCurrent, MoveNextFrom(root, walkerCurrent, fs[1..]));
    } else {
      assert fs == [fs[0]];
      AfterChildSpec(root, fs[0], walkerCurrent);
    }
  }

  /** The step of an enumerator with a nested child, given what the
      child's own MoveNext did: a child that moved is kept, and one that
      is done is dropped and the enumerator goes on by itself. */
  lemma {:induction false} ChildMoveSpec(root: Transform, fs: seq<Frame>, walkerCurrent: Path, r1: Move)
    requires Good(root, fs, walkerCurrent) && !fs[0].returnParent && |fs| > 1
    requires r1 == MoveNextFrom(root, walkerCurrent, fs[1..])
    requires MoveOk(root, fs[1].parent, Remaining(root, fs[1..]), walkerCurrent, r1)
    ensures MoveOk(root, fs[0].parent, Remaining(root, fs), walkerCurrent, MoveNextFrom(root, walkerCurrent, fs))
    decreases |fs|, CurrentRank(fs[0]), 1
  {
    if r1.more {
      ChildMovedSpec(root, fs, walkerCurrent, r1);
    } else {
      ChildDoneSpec(root, fs, walkerCurrent, r1);
    }
  }

  /** The nested child moved: it stays, and what remains is what remains
      of it followed by this enumerator's later children. */
  lemma ChildMovedSpec(root: Transform, fs: seq<Frame>, walkerCurrent: Path, r1: Move)
    requires Good(root, fs, walkerCurrent) && !fs[0].returnParent && |fs| > 1
    requires r1 == MoveNextFrom(root, walkerCurrent, fs[1..]) && r1.more
    requires MoveOk(root, fs[1].parent, Remaining(root, fs[1..]), walkerCurrent, r1)
    ensures MoveOk(root, fs[0].parent, Remaining(root, fs), walkerCurrent, MoveNextFrom(root, walkerCurrent, fs))
  {
    var f := fs[0];
    assert MoveNextFrom(root, walkerCurrent, fs) == Move(true, [f] + r1.frames, r1.walkerCurrent);
    assert Remaining(root, fs) == Remaining(root, fs[1..]) + ChildrenAt(root, f.parent, NextIndex(f.position));
    GoodCons(root, f, r1.frames, r1.walkerCurrent);
  }

  /** The nested child is done: it is dropped with the current node, and
      the enumerator moves on by itself. */
  lemma {:induction false} ChildDoneSpec(root: Transform, fs: seq<Frame>, walkerCurrent: Path, r1: Move)
    requires Good(root, fs, walkerCurrent) && !fs[0].returnParent && |fs| > 1
    requires r1 == MoveNextFrom(root, walkerCurrent, fs[1..]) && !r1.more
    requires MoveOk(root, fs[1].parent, Remaining(root, fs[1..]), walkerCurrent, r1)
    ensures MoveOk(root, fs[0].parent, Remaining(root, fs), walkerCurrent, MoveNextFrom(root, walkerCurrent, fs))
    decreases |fs|, CurrentRank(fs[0]), 0
  {
    var f := fs[0];
    var g := f.(current := None);
    assert r1.walkerCurrent == walkerCurrent && Remaining(root, fs[1..]) == [];
    assert MoveNextFrom(root, walkerCurrent, fs) == AfterChild(root, walkerCurrent, g);
    assert At(root, g.parent).Some? && g.position >= -1;
    GoodAlone(root, g, walkerCurrent);
    assert Remaining(root, fs) == ChildrenAt(root, f.parent, NextIndex(f.position));
    assert Remaining(root, [g]) == Remaining(root, fs);
    AfterChildSpec(root, g, walkerCurrent);
  }

  lemma {:induction false} AfterChildSpec(root: Transform, f: Frame, walkerCurrent: Path)
    requires Good(root, [f], walkerCurrent) && !f.returnParent
    ensures MoveOk(root, f.parent, Remaining(root, [f]), walkerCurrent, AfterChild(root, walkerCurrent, f))
    decreases 1, CurrentRank(f), 1
  {
    if f.current.Some? && ChildCount(root, f.current.value) > 0 {
      NestedSpec(root, f, walkerCurrent);
    } else {
      AdvanceSpec(root, f, walkerCurrent);
    }
  }

  /** The branch that opens a nested enumerator for the current node. */
  lemma {:induction false} NestedSpec(root: Transform, f: Frame, walkerCurrent: Path)
    requires Good(root, [f], walkerCurrent) && !f.returnParent
    requires f.current.Some? && ChildCount(root, f.current.value) > 0
    ensures MoveOk(root, f.parent, Remaining(root, [f]), walkerCurrent, AfterChild(root, walkerCurrent, f))
    decreases 1, 1, 0
  {
    var c := f.current.value;
    assert c == f.parent + [f.position] && 0 <= f.position < ChildCount(root, f.parent);
    AtAppend(root, f.parent, f.position);
    assert walkerCurrent == c;
    FreshNested(root, c);
    MoveNextSpec(root, [Frame(c, None, -1, false)], c);
    var r1 := MoveNextFrom(root, c, [Frame(c, None, -1, false)]);
    assert AfterChild(root, walkerCurrent, f) == Move(r1.more, [f] + r1.frames, r1.walkerCurrent);
    assert Remaining(root, [f]) == DescAll(root, c) + ChildrenAt(root, f.parent, NextIndex(f.position));
    GoodCons(root, f, r1.frames, r1.walkerCurrent);
  }

  /** A new nested enumerator for node c, with the walker at c, is in a
      good state and has all of c's descendants to yield. */
  lemma FreshNested(root: Transform, c: Path)
    requires At(root, c).Some?
    ensures Good(root, [Frame(c, None, -1, false)], c)
    ensures Remaining(root, [Frame(c, None, -1, false)]) == DescAll(root, c)
  {
    GoodAlone(root, Frame(c, None, -1, false), c);
  }

  /** The branch that moves the position on. */
  lemma AdvanceSpec(root: Transform, f: Frame, walkerCurrent: Path)
    requires Good(root, [f], walkerCurrent) && !f.returnParent
    requires !(f.current.Some? && ChildCount(root, f.current.value) > 0)
    ensures MoveOk(root, f.parent, Remaining(root, [f]), walkerCurrent, AfterChild(root, walkerCurrent, f))
  {
    if f.current.Some? {
      var c := f.current.value;
      if At(root, c).Some? {
        ChildrenAtUnfold(root, c, 0);
      }
      assert DescAll(root, c) == [];
    }
    assert Remaining(root, [f]) == ChildrenAt(root, f.parent, NextIndex(f.position));
    if f.position + 1 < ChildCount(root, f.parent) {
      AdvanceToNext(root, f, walkerCurrent);
    } else {
      AdvancePastEnd(root, f, walkerCurrent);
    }
  }

  /** The position reaches the next child, which becomes the current node. */
  lemma AdvanceToNext(root: Transform, f: Frame, walkerCurrent: Path)
    requires Good(root, [f], walkerCurrent) && !f.returnParent
    requires !(f.current.Some? && ChildCount(root, f.current.value) > 0)
    requires f.position + 1 < ChildCount(root, f.parent)
    ensures var c := f.parent + [f.position + 1];
            var h := f.(position := f.position + 1, current := Some(c));
            && AfterChild(root, walkerCurrent, f) == Move(true, [h], c)
            && Good(root, [h], c)
            && ChildrenAt(root, f.parent, NextIndex(f.position)) == [c] + Remaining(root, [h])
  {
    var g := f.(position := f.position + 1);
    var c := g.parent + [g.position];
    ChildrenAtUnfold(root, f.parent, NextIndex(f.position));
    AtAppend(root, f.parent, g.position);
    var h := g.(current := Some(c));
    assert Good(root, [h], c);
  }

  /** The position runs past the last child: false, and nothing remains. */
  lemma AdvancePastEnd(root: Transform, f: Frame, walkerCurrent: Path)
    requires Good(root, [f], walkerCurrent) && !f.returnParent
    requires !(f.current.Some? && ChildCount(root, f.current.value) > 0)
    requires f.position + 1 >= ChildCount(root, f.parent)
    ensures var g := f.(position := f.position + 1);
            && AfterChild(root, walkerCurrent, f) == Move(false, [g], walkerCurrent)
            && Good(root, [g], walkerCurrent)
            && ChildrenAt(root, f.parent, NextIndex(f.position)) == []
            && Remaining(root, [g]) == []
  {
    var g := f.(position := f.position + 1);
    ChildrenAtUnfold(root, f.parent, NextIndex(f.position));
    ChildrenAtUnfold(root, f.parent, NextIndex(g.position));
    if g.current.Some? {
      var c := g.current.value;
      if At(root, c).Some? {
        ChildrenAtUnfold(root, c, 0);
      }
    }
    assert Good(root, [g], walkerCurrent);
  }

  /** One round of the foreach loop, MoveNext and then Current, from any
      state of a walk: MoveNext answers true exactly when nodes remain; then
      Current yields the first of them, the walker is at it, and the rest
      remain. */
  lemma StepSpec(root: Transform, fs: seq<Frame>, walkerCurrent: Path)
    requires Good(root, fs, walkerCurrent)
    ensures var r := MoveNextFrom(root, walkerCurrent, fs);
            && (r.more <==> Remaining(root, fs) != [])
            && (r.more ==>
                  var (y, after) := CurrentFrom(r.frames);
                  && y == Some(Remaining(root, fs)[0]) && r.walkerCurrent == Remaining(root, fs)[0]
                  && Good(root, after, r.walkerCurrent)
                  && Remaining(root, after) == Remaining(root, fs)[1..])
            && (!r.more ==>
                  Good(root, r.frames, r.walkerCurrent) && Remaining(root, r.frames) == []
                  && r.walkerCurrent == walkerCurrent)
  {
    if fs[0].returnParent {
      var g := fs[0].(returnParent := false);
      assert Good(root, [g], walkerCurrent);
    } else {
      MoveNextSpec(root, fs, walkerCurrent);
      var r := MoveNextFrom(root, walkerCurrent, fs);
      assert MoveOk(root, fs[0].parent, Remaining(root, fs), walkerCurrent, r);
      if r.more {
        CurrentIsInnermost(root, r.frames, r.walkerCurrent);
      }
    }
  }

  // ---------------------------------------------------------------------------
  // Walker and WalkerEnum

  /** TransformHelper.Walker: the enumerable over the hierarchy below a
      node. Its `current` is shared with the enumerators it hands out, which
      move it to every node they visit. */
  class Walker {
    const root: Transform
    var current: Path
    const startFromSource: bool

    constructor (root: Transform, transform: Path, includeSource: bool)
      ensures this.root == root && current == transform && startFromSource == includeSource
    {
      this.root := root;
      current := transform;
      startFromSource := includeSource;
    }

    /** Walker.GetEnumerator: a new enumerator whose parent is the walker's
        current node, which is the source only until a walk has moved it. */
    method GetEnumerator() returns (e: WalkerEnum)
      ensures fresh(e) && e.walker == this
      ensures e.frames == [Frame(current, None, -1, startFromSource)]
    {
      e := new WalkerEnum(this, startFromSource);
    }
  }

  /** TransformHelper.WalkerEnum with its chain of nested child enumerators
      kept as a stack: frames[0] is this enumerator, frames[i + 1] the
      child of frames[i]. */
  class WalkerEnum {
    const walker: Walker
    var frames: seq<Frame>

    constructor (walker: Walker, returnParentFirst: bool)
      ensures this.walker == walker
      ensures frames == [Frame(walker.current, None, -1, returnParentFirst)]
    {
      this.walker := walker;
      frames := [Frame(walker.current, None, -1, returnParentFirst)];
    }

    /** A state a walk from the source can reach. */
    ghost predicate Valid()
      reads this, walker
    {
      Good(walker.root, frames, walker.current)
    }

    /** WalkerEnum.MoveNext. */
    method MoveNext() returns (more: bool)
      requires |frames| >= 1 && PositionsOk(frames)
      modifies this`frames, walker`current
      ensures var r := MoveNextFrom(walker.root, old(walker.current), old(frames));
              more == r.more && frames == r.frames && walker.current == r.walkerCurrent
      ensures old(Valid()) ==> Valid()
      ensures old(Valid()) && !old(frames[0].returnParent) ==>
                (more <==> old(Remaining(walker.root, frames)) != [])
    {
      assert frames[0..] == frames;
      if Good(walker.root, frames, walker.current) && !frames[0].returnParent {
        MoveNextSpec(walker.root, frames, walker.current);
      }
      more := MoveNextAt(0);
      assert old(frames)[..0] == [];
    }

    /** MoveNext on the nested enumerator frames[k]. */
    method MoveNextAt(k: nat) returns (more: bool)
      requires k < |frames| && PositionsOk(frames[k..])
      modifies this`frames, walker`current
      ensures var r := MoveNextFrom(walker.root, old(walker.current), old(frames)[k..]);
              more == r.more && frames == old(frames)[..k] + r.frames && walker.current == r.walkerCurrent
      decreases |frames| - k, CurrentRank(frames[k]), 1
    {
      ghost var fs := frames[k..];
      ghost var wc := walker.current;
      assert fs[0] == frames[k];
      if frames[k].returnParent {
        assert frames == frames[..k] + fs;
        return true;
      }
      ghost var f := frames[k];
      if k + 1 < |frames| {
        assert frames[k + 1..] == fs[1..];
        PositionsOfSuffix(fs, 1);
        var m := MoveNextAt(k + 1);
        if m {
          assert frames == old(frames)[..k] + ([f] + MoveNextFrom(walker.root, wc, fs[1..]).frames);
          return true;
        }
        frames := frames[..k + 1];
        frames := frames[k := frames[k].(current := None)];
      }
      assert frames == old(frames)[..k] + [frames[k]];
      more := AfterChildAt(k);
    }

    /** The rest of MoveNext on frames[k], the innermost enumerator: a
        current node with children gets a nested enumerator, otherwise the
        position moves on to the next child, if there is one. */
    method AfterChildAt(k: nat) returns (more: bool)
      requires k + 1 == |frames| && frames[k].position >= -1
      modifies this`frames, walker`current
      ensures var r := AfterChild(walker.root, old(walker.current), old(frames)[k]);
              more == r.more && frames == old(frames)[..k] + r.frames && walker.current == r.walkerCurrent
      decreases 1, CurrentRank(frames[k]), 0
    {
      if frames[k].current.Some? && ChildCount(walker.root, frames[k].current.value) > 0 {
        frames := frames + [Frame(walker.current, None, -1, false)];
        assert frames[k + 1..] == [Frame(walker.current, None, -1, false)];
        more := MoveNextAt(k + 1);
        return;
      }
      frames := frames[k := frames[k].(position := frames[k].position + 1)];
      if frames[k].position >= ChildCount(walker.root, frames[k].parent) {
        return false;
      }
      var c := frames[k].parent + [frames[k].position];
      frames := frames[k := frames[k].(current := Some(c))];
      walker.current := c;
      more := true;
    }

    /** WalkerEnum.Current. */
    method Current() returns (node: Option<Path>)
      requires |frames| >= 1
      modifies this`frames
      ensures node == CurrentFrom(old(frames)).0 && frames == CurrentFrom(old(frames)).1
    {
      assert frames[0..] == frames;
      node := CurrentAt(0);
      assert old(frames)[..0] == [] && old(frames)[0..] == old(frames);
      assert frames == [] + CurrentFrom(old(frames)).1;
    }

    /** Current on the nested enumerator frames[k]. */
    method CurrentAt(k: nat) returns (node: Option<Path>)
      requires k < |frames|
      modifies this`frames
      ensures var r := CurrentFrom(old(frames)[k..]);
              node == r.0 && frames == old(frames)[..k] + r.1
      decreases |frames| - k
    {
      ghost var fs := frames[k..];
      assert fs[0] == frames[k];
      if frames[k].returnParent {
        frames := frames[k := frames[k].(returnParent := false)];
        node := Some(frames[k].parent);
        assert frames == old(frames)[..k] + ([fs[0].(returnParent := false)] + fs[1..]);
        return;
      }
      if k + 1 < |frames| && frames[k + 1].position >= 0 {
        assert frames[k + 1..] == fs[1..];
        node := CurrentAt(k + 1);
        assert frames == old(frames)[..k] + ([fs[0]] + CurrentFrom(fs[1..]).1);
        return;
      }
      node := frames[k].current;
      assert frames == old(frames)[..k] + fs;
    }

    /** WalkerEnum.Reset: only the position goes back to -1; the current
        node and the nested child stay. */
    method Reset()
      requires |frames| >= 1
      modifies this`frames
      ensures frames == old(frames)[0 := old(frames)[0].(position := -1)]
    {
      frames := frames[0 := frames[0].(position := -1)];
    }
  }

  lemma ConsumeOne(yielded: seq<Path>, rest: seq<Path>, full: seq<Path>)
    requires yielded + rest == full && |rest| > 0
    ensures (yielded + [rest[0]]) + rest[1..] == full
  {
    assert rest == [rest[0]] + rest[1..];
  }

  /** The state of a walk right after a MoveNext from the good state
      `before`, with the walker at `walkerBefore`. */
  ghost predicate MovedFrom(e: WalkerEnum, before: seq<Frame>, walkerBefore: Path, more: bool)
    reads e, e.walker
  {
    && Good(e.walker.root, before, walkerBefore)
    && var r := MoveNextFrom(e.walker.root, walkerBefore, before);
       more == r.more && e.frames == r.frames && e.walker.current == r.walkerCurrent
  }

  /** One round of the foreach after a MoveNext that answered true: Current
      yields the next node of the pre-order and MoveNext moves on. */
  method WalkStep(e: WalkerEnum, ghost before: seq<Frame>, ghost walkerBefore: Path)
    returns (node: Path, more: bool, ghost after: seq<Frame>)
    requires MovedFrom(e, before, walkerBefore, true)
    modifies e`frames, e.walker`current
    ensures Remaining(e.walker.root, before) != [] && node == Remaining(e.walker.root, before)[0]
    ensures MovedFrom(e, after, node, more)
    ensures Remaining(e.walker.root, after) == Remaining(e.walker.root, before)[1..]
  {
    StepSpec(e.walker.root, before, walkerBefore);
    var y := e.Current();
    node := y.value;
    after := e.frames;
    StepSpec(e.walker.root, after, node);
    more := e.MoveNext();
  }

  /** A foreach over a walker, as SetLayerInHierarchy runs it: the nodes
      below the walker's node in pre-order, preceded by that node itself
      when the walker includes its source. The walk leaves the walker at
      the last node it yielded, which has no children: a second walk from
      the same walker starts there. */
  method Enumerate(walker: Walker) returns (yielded: seq<Path>)
    requires At(walker.root, walker.current).Some?
    modifies walker`current
    ensures yielded == (if walker.startFromSource then [old(walker.current)] else [])
                       + DescAll(walker.root, old(walker.current))
    ensures yielded != [] ==> walker.current == yielded[|yielded| - 1] && DescAll(walker.root, walker.current) == []
    ensures yielded == [] ==> walker.current == old(walker.current)
  {
    var root := walker.root;
    var source := walker.current;
    var e := walker.GetEnumerator();
    yielded := [];
    ghost var full := Remaining(root, e.frames);
    WalkStart(root, source, walker.startFromSource);
    ghost var before := e.frames;
    ghost var walkerBefore := walker.current;
    var more := e.MoveNext();
    while more
      invariant e.walker == walker && fresh(e)
      invariant MovedFrom(e, before, walkerBefore, more)
      invariant yielded + Remaining(root, before) == full
      invariant yielded == [] ==> walkerBefore == source
      invariant yielded != [] ==> walkerBefore == yielded[|yielded| - 1]
      decreases |Remaining(root, before)|
    {
      ghost var rest := Remaining(root, before);
      var node;
      node, more, before := WalkStep(e, before, walkerBefore);
      ConsumeOne(yielded, rest, full);
      yielded := yielded + [node];
      walkerBefore := node;
    }
    StepSpec(root, before, walkerBefore);
    assert yielded == full;
    if yielded != [] {
      WalkEnd(root, source, walker.startFromSource, yielded);
    }
  }

  /** A walk starts in a good state with the whole pre-order ahead. */
  lemma WalkStart(root: Transform, source: Path, includeSource: bool)
    requires At(root, source).Some?
    ensures Good(root, [Frame(source, None, -1, includeSource)], source)
    ensures Remaining(root, [Frame(source, None, -1, includeSource)])
         == (if includeSource then [source] else []) + DescAll(root, source)
  {
    ChildrenAtUnfold(root, source, 0);
  }

  /** The last node of a walk has no children. */
  lemma WalkEnd(root: Transform, source: Path, includeSource: bool, yielded: seq<Path>)
    requires At(root, source).Some?
    requires yielded == (if includeSource then [source] else []) + DescAll(root, source)
    requires yielded != []
    ensures DescAll(root, yielded[|yielded| - 1]) == []
  {
    var node := At(root, source).value;
    if DescAll(root, source) != [] {
      LastIsLeaf(root, node, source, 0);
      assert yielded[|yielded| - 1] == DescAll(root, source)[|DescAll(root, source)| - 1];
    } else {
      ChildrenAtUnfold(root, source, 0);
    }
  }

  // ---------------------------------------------------------------------------
  // GetPathInHierarchy

  /** Every node on the way from the root to p exists. */
  ghost predicate OnTree(root: Transform, p: Path) {
    forall i :: 0 <= i <= |p| ==> At(root, p[..i]).Some?
  }

  /** A path that leads somewhere passes only through nodes. */
  lemma {:induction false} PrefixesExist(root: Transform, p: Path)
    requires At(root, p).Some?
    ensures OnTree(root, p)
    decreases |p|
  {
    if |p| > 0 {
      PrefixesExist(root.children[p[0]], p[1..]);
      forall i | 0 <= i <= |p| ensures At(root, p[..i]).Some? {
        if i > 0 {
          assert p[..i][1..] == p[1..][..i - 1];
        }
      }
    }
  }

  function NameAt(root: Transform, p: Path): string
    requires At(root, p).Some?
  {
    At(root, p).value.name
  }

  /** The names from the root down to p: entry i is the name of the node i
      steps below the root. */
  ghost function Names(root: Transform, p: Path): (r: seq<string>)
    requires OnTree(root, p)
    ensures |r| == |p| + 1
  {
    seq(|p| + 1, i requires 0 <= i <= |p| => NameAt(root, p[..i]))
  }

  /** Names joined with '/'. */
  function Join(names: seq<string>): string
    requires |names| >= 1
  {
    if |names| == 1 then names[0] else names[0] + "/" + Join(names[1..])
  }

  /** TransformHelper.GetPathInHierarchy as written: starting from the
      node's name, while the node has a parent the loop prepends the name of
      the node it is at, and then moves to the parent. The names prepended
      are the node's own and those of its ancestors below the root, so the
      node's name comes twice and the root's never. */
  method GetPathInHierarchy(root: Transform, transform: Path) returns (name: string)
    requires At(root, transform).Some?
    ensures OnTree(root, transform)
    ensures name == Join(Names(root, transform)[1..] + [NameAt(root, transform)])
  {
    PrefixesExist(root, transform);
    ghost var names := Names(root, transform);
    name := NameAt(root, transform);
    var t := transform;
    while |t| > 0
      invariant t == transform[..|t|]
      invariant name == Join(names[|t| + 1..] + [names[|transform|]])
      decreases |t|
    {
      assert names[|t|] == NameAt(root, t);
      assert names[|t|..] + [names[|transform|]] == [names[|t|]] + (names[|t| + 1..] + [names[|transform|]]);
      name := NameAt(root, t) + "/" + name;
      t := t[..|t| - 1];
      assert t == transform[..|t|];
    }
    assert transform[..0] == [];
  }

  /** GetPathInHierarchy as evidently intended: the loop prepends the
      parent's name, so the result names the root, every ancestor and the
      node, once each, from the top down. */
  method GetPathInHierarchyFromRoot(root: Transform, transform: Path) returns (name: string)
    requires At(root, transform).Some?
    ensures OnTree(root, transform)
    ensures name == Join(Names(root, transform))
  {
    PrefixesExist(root, transform);
    ghost var names := Names(root, transform);
    name := NameAt(root, transform);
    var t := transform;
    while |t| > 0
      invariant t == transform[..|t|]
      invariant name == Join(names[|t|..])
      decreases |t|
    {
      var parent := t[..|t| - 1];
      assert parent == transform[..|t| - 1];
      assert names[|t| - 1] == NameAt(root, parent);
      assert names[|t| - 1..] == [names[|t| - 1]] + names[|t|..];
      name := NameAt(root, parent) + "/" + name;
      t := parent;
    }
    assert names[0..] == names;
  }

  /** How many times c occurs in s. */
  function Count(s: string, c: char): nat {
    if |s| == 0 then 0 else (if s[0] == c then 1 else 0) + Count(s[1..], c)
  }

  lemma {:induction false} CountConcat(a: string, b: string, c: char)
    ensures Count(a + b, c) == Count(a, c) + Count(b, c)
    decreases |a|
  {
    if |a| > 0 {
      assert (a + b)[1..] == a[1..] + b;
      CountConcat(a[1..], b, c);
    } else {
      assert a + b == b;
    }
  }

  lemma {:induction false} CountAbsent(s: string, c: char)
    requires c !in s
    ensures Count(s, c) == 0
    decreases |s|
  {
    if |s| > 0 {
      CountAbsent(s[1..], c);
    }
  }

  /** Joining names that have no '/' of their own puts one '/' between
      each two of them. */
  lemma {:induction false} JoinSeparators(names: seq<string>)
    requires |names| >= 1
    requires forall i :: 0 <= i < |names| ==> '/' !in names[i]
    ensures Count(Join(names), '/') == |names| - 1
    decreases |names|
  {
    CountAbsent(names[0], '/');
    if |names| > 1 {
      JoinSeparators(names[1..]);
      CountConcat(names[0], "/", '/');
      CountConcat(names[0] + "/", Join(names[1..]), '/');
    }
  }

  /** Both the path as written and the path as intended have one '/' per
      ancestor of the node, when no name holds a '/'; for a node without a
      parent both are its own name. */
  lemma PathSeparators(root: Transform, transform: Path)
    requires OnTree(root, transform)
    requires forall i :: 0 <= i <= |transform| ==> '/' !in NameAt(root, transform[..i])
    ensures var names := Names(root, transform);
            && Count(Join(names[1..] + [names[|transform|]]), '/') == |transform|
            && Count(Join(names), '/') == |transform|
    ensures transform == [] ==>
              && Join(Names(root, transform)) == NameAt(root, transform)
              && Join(Names(root, transform)[1..] + [NameAt(root, transform)]) == NameAt(root, transform)
  {
    var names := Names(root, transform);
    assert forall i :: 0 <= i < |names| ==> names[i] == NameAt(root, transform[..i]);
    JoinSeparators(names);
    var written := names[1..] + [names[|transform|]];
    assert forall i :: 0 <= i < |written| ==> written[i] == names[if i < |transform| then i + 1 else |transform|];
    JoinSeparators(written);
    if transform == [] {
      assert transform[..0] == transform;
    }
  }

  /** A scene root "Scene" with one child "Tower": the path as written is
      "Tower/Tower", the path as intended "Scene/Tower". */
  lemma PathOfAChild()
    ensures var root := Transform("Scene", [Transform("Tower", [])]);
            && OnTree(root, [0])
            && Join(Names(root, [0])[1..] + [NameAt(root, [0])]) == "Tower/Tower"
            && Join(Names(root, [0])) == "Scene/Tower"
  {
    var root := Transform("Scene", [Transform("Tower", [])]);
    PrefixesExist(root, [0]);
    var p: Path := [0];
    assert p[..0] == [] && p[..1] == p;
    assert Names(root, p) == ["Scene", "Tower"];
  }
}
