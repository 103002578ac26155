/** Concrete runs of the window stack: three windows and one popup. */
module Scenarios {
  import opened Seqs
  import opened Widgets
  import opened WindowStack
  import opened ScreenCore

  /** Windows 1, 2, 3 and a popup 4 owned by window 2. */
  ghost predicate ThreeWindowsAndPopup(t: Tree) {
    && t.role(1) == Window(false) && t.role(2) == Window(false) && t.role(3) == Window(false)
    && t.role(4) == Popup(false, Some(2))
    && PopupsRanked(t)
  }

  /** A duplicate-free sequence has as many elements as it has entries. */
  lemma {:induction false} DistinctCard(b: seq<Id>)
    requires Distinct(b)
    ensures |Elems(b)| == |b|
  {
    if b != [] {
      assert Distinct(b[1..]) by {
        forall i, j | 0 <= i < j < |b[1..]| ensures b[1..][i] != b[1..][j] {
          assert b[1..][i] == b[i + 1] && b[1..][j] == b[j + 1];
        }
      }
      DistinctCard(b[1..]);
      assert b == [b[0]] + b[1..];
      ElemsConcat([b[0]], b[1..]);
      assert b[0] !in b[1..] by {
        forall k | 0 <= k < |b[1..]| ensures b[1..][k] != b[0] {
          assert b[1..][k] == b[k + 1];
        }
      }
      assert Elems([b[0]]) == {b[0]};
      assert b[0] !in Elems(b[1..]);
    }
  }

  /** A duplicate-free sequence that starts with `a` and holds exactly
      `{a, c}` for some `c != a` is `[a, c]`; holding exactly `{a}`, `[a]`. */
  lemma PairOrSingle(b: seq<Id>, a: Id, c: Id)
    requires Distinct(b) && |b| > 0 && b[0] == a
    ensures Elems(b) == {a} ==> b == [a]
    ensures a != c && Elems(b) == {a, c} ==> b == [a, c]
  {
    DistinctCard(b);
    if a != c && Elems(b) == {a, c} {
      assert |b| == 2;
      assert b[1] in Elems(b);
    }
  }

  /** When the family `m` that `x` brings along and the part `keep` left
      below are known, the new stack is `keep`, then `x`, then the rest of
      the family, each once. */
  lemma MovedTail(t: Tree, before: seq<Id>, after: seq<Id>, x: Id, m: set<Id>, keep: seq<Id>)
    requires MovedToFront(t, before, after, x)
    requires Moved(t, Elems(before) + {x}, x) == m && Without(before, m) == keep
    ensures |keep| < |after| && after == keep + after[|keep|..]
    ensures after[|keep|] == x && Elems(after[|keep|..]) == m && Distinct(after[|keep|..])
  {
    var b := after[|keep|..];
    forall i, j | 0 <= i < j < |b| ensures b[i] != b[j] {
      assert b[i] == after[|keep| + i] && b[j] == after[|keep| + j];
    }
    assert after == after[..|keep|] + b;
  }

  /** Moving window 1 of `{1, 2, 3}` brings along nothing else. */
  lemma FirstFamily(t: Tree)
    requires ThreeWindowsAndPopup(t)
    ensures Moved(t, {1, 2, 3}, 1) == {1}
  {
    var s: set<Id> := {1, 2, 3};
    assert !Under(t, s, 2, 1) && !Under(t, s, 3, 1) && Under(t, s, 1, 1);
  }

  /** What stays below when window 1 is moved. */
  lemma FirstKeep()
    ensures Without([1, 2, 3], {1}) == [2, 3]
  {
    var m: set<Id> := {1};
    assert [3][1..] == [];
    assert Without([3], m) == [3];
    assert [2, 3][1..] == [3];
    assert Without([2, 3], m) == [2, 3];
    assert [1, 2, 3][1..] == [2, 3];
  }

  /** Bringing window 1 of `[1, 2, 3]` to the front gives `[2, 3, 1]`. */
  lemma BringFirstWindowToFront(t: Tree, after: seq<Id>)
    requires ThreeWindowsAndPopup(t)
    requires MovedToFront(t, [1, 2, 3], after, 1)
    ensures after == [2, 3, 1]
  {
    assert Elems([1, 2, 3]) + {1} == {1, 2, 3};
    FirstFamily(t);
    FirstKeep();
    MovedTail(t, [1, 2, 3], after, 1, {1}, [2, 3]);
    PairOrSingle(after[2..], 1, 1);
  }

  /** Moving window 2 brings along exactly itself and its popup 4. */
  lemma OwnerFamily(t: Tree)
    requires ThreeWindowsAndPopup(t)
    ensures Moved(t, {1, 2, 3, 4}, 2) == {2, 4}
  {
    var s: set<Id> := {1, 2, 3, 4};
    assert Under(t, s, 2, 2);
    assert Under(t, s, 4, 2);
    assert !Under(t, s, 1, 2) && !Under(t, s, 3, 2);
  }

  /** What stays below when that family is moved. */
  lemma OwnerKeep()
    ensures Without([2, 3, 1, 4], {2, 4}) == [3, 1]
  {
    var m: set<Id> := {2, 4};
    assert [4][1..] == [];
    assert Without([4], m) == [];
    assert [1, 4][1..] == [4];
    assert Without([1, 4], m) == [1];
    assert [3, 1, 4][1..] == [1, 4];
    assert Without([3, 1, 4], m) == [3, 1];
    assert [2, 3, 1, 4][1..] == [3, 1, 4];
  }

  /** With popup 4 of window 2 on top, bringing window 2 of `[2, 3, 1, 4]`
      to the front brings the popup along: `[3, 1, 2, 4]`. */
  lemma BringOwnerToFront(t: Tree, after: seq<Id>)
    requires ThreeWindowsAndPopup(t)
    requires MovedToFront(t, [2, 3, 1, 4], after, 2)
    ensures after == [3, 1, 2, 4]
  {
    assert Elems([2, 3, 1, 4]) + {2} == {1, 2, 3, 4};
    OwnerFamily(t);
    OwnerKeep();
    MovedTail(t, [2, 3, 1, 4], after, 2, {2, 4}, [3, 1]);
    PairOrSingle(after[2..], 2, 4);
  }

  /** Window 7 with popups 6 and 5, and a popup 8 owned by popup 6. */
  ghost predicate NestedPopups(t: Tree) {
    && t.role(7) == Window(false)
    && t.role(6) == Popup(false, Some(7)) && t.role(5) == Popup(false, Some(7))
    && t.role(8) == Popup(false, Some(6))
    && PopupsRanked(t)
  }

  /** Moving window 7 of `{5, 6, 7, 8}` brings along everything. */
  lemma NestedFamily(t: Tree)
    requires NestedPopups(t)
    ensures Moved(t, {5, 6, 7, 8}, 7) == {5, 6, 7, 8}
    ensures Without([8, 6, 5, 7], {5, 6, 7, 8}) == []
  {
    var s: set<Id> := {5, 6, 7, 8};
    assert Under(t, s, 7, 7) && Under(t, s, 6, 7) && Under(t, s, 5, 7);
    assert Under(t, s, 8, 7);
    var m: set<Id> := {5, 6, 7, 8};
    assert [7][1..] == [] && [5, 7][1..] == [7] && [6, 5, 7][1..] == [5, 7];
    assert [8, 6, 5, 7][1..] == [6, 5, 7];
    assert Without([7], m) == [] && Without([5, 7], m) == [] && Without([6, 5, 7], m) == [];
  }

  /** The ranks the ownership of `NestedPopups` forces. */
  lemma NestedRanks(t: Tree)
    requires NestedPopups(t)
    ensures t.rank(8) < t.rank(6) < t.rank(7) && t.rank(5) < t.rank(7)
  {
    assert IsOwned(t, 8) && IsOwned(t, 6) && IsOwned(t, 5);
  }

  /** The popups of window 7 on the stack `[8, 6, 5, 7]`. */
  lemma NestedOwnedBy7(t: Tree)
    requires NestedPopups(t)
    ensures OwnedIn(t, [8, 6, 5, 7], 7) == [6, 5]
  {
    NestedRanks(t);
    assert [8, 6, 5, 7][1..] == [6, 5, 7] && [6, 5, 7][1..] == [5, 7] && [5, 7][1..] == [7];
    OwnedInNone(t, [7], 7);
    assert OwnedIn(t, [5, 7], 7) == [5];
    assert OwnedIn(t, [6, 5, 7], 7) == [6, 5];
  }

  /** The popups of popup 6, and of popups 5 and 8, on that stack. */
  lemma NestedOwnedBelow(t: Tree)
    requires NestedPopups(t)
    ensures OwnedIn(t, [8, 6, 5, 7], 6) == [8]
    ensures OwnedIn(t, [8, 6, 5, 7], 5) == [] && OwnedIn(t, [8, 6, 5, 7], 8) == []
  {
    NestedRanks(t);
    assert [8, 6, 5, 7][1..] == [6, 5, 7];
    OwnedInNone(t, [6, 5, 7], 6);
    OwnedInNone(t, [8, 6, 5, 7], 5);
    OwnedInNone(t, [8, 6, 5, 7], 8);
  }

  /** The blocks of the popups on that stack. */
  lemma NestedPopupBlocks(t: Tree)
    requires NestedPopups(t)
    ensures Block(t, [8, 6, 5, 7], 5) == [5] && Block(t, [8, 6, 5, 7], 6) == [6, 8]
  {
    var cs: seq<Id> := [8, 6, 5, 7];
    NestedRanks(t);
    NestedOwnedBelow(t);
    assert Blocks(t, cs, [], 5) == [] && Blocks(t, cs, [], 8) == [];
    assert Block(t, cs, 8) == [8] && Block(t, cs, 5) == [5];
    assert [8][1..] == [];
    assert Blocks(t, cs, [8], 6) == [8];
  }

  /** The block of window 7 on that stack: `[7, 6, 8, 5]`. */
  lemma NestedBlock(t: Tree)
    requires NestedPopups(t)
    ensures Block(t, [8, 6, 5, 7], 7) == [7, 6, 8, 5]
  {
    var cs: seq<Id> := [8, 6, 5, 7];
    NestedRanks(t);
    NestedOwnedBy7(t);
    NestedPopupBlocks(t);
    assert [5][1..] == [] && [6, 5][1..] == [5];
    assert Blocks(t, cs, [5], 7) == [5];
    assert Blocks(t, cs, [6, 5], 7) == [6, 8, 5];
  }

  /** Bringing window 7 of `[8, 6, 5, 7]` to the front puts it at the
      bottom of its family, then popup 6 with its popup 8 right above it,
      then popup 5: `[7, 6, 8, 5]`. */
  lemma BringNestedPopups(t: Tree, after: seq<Id>)
    requires NestedPopups(t)
    requires MovedToFront(t, [8, 6, 5, 7], after, 7)
    ensures after == [7, 6, 8, 5]
  {
    assert Elems([8, 6, 5, 7]) + {7} == {5, 6, 7, 8};
    NestedFamily(t);
    NestedBlock(t);
    assert after[0..] == after;
  }

  /** Move over widget `a` of a screen with an empty focus path and no
      drag, and press button 1: `a` becomes the drag target. */
  method PressOver(s: Screen, t: Tree, a: Id, x1: int, y1: int)
    requires WellFormed(t)
    requires t.findWidget(Vec(x1 - 1, y1 - 2)) == Some(a) && a != ScreenId
    requires forall w, p, d, m, k :: t.mouseMotionEvent(w, p, d, m, k) != Threw
    requires forall w, p, n, down, k :: t.mouseButtonEvent(w, p, n, down, k) != Threw
    requires !s.dragActive && s.focusPath == []
    modifies s
    ensures s.dragActive && s.dragWidget == Some(a) && s.focusPath == [] && s.children == old(s.children)
  {
    var moved := s.CursorPosCallbackEvent(t, x1, y1);
    var pressed := s.MouseButtonCallbackEvent(t, 1, true, 0);
  }

  /** Press over window `a`, then dispose of it: the drag widget is gone
      but the drag is still on, so the next pointer motion would reach the
      drag widget that no longer exists. */
  method DisposeDragTarget(t: Tree, a: Id, x1: int, y1: int) returns (s: Screen)
    requires WellFormed(t) && IsWindow(t.role(a))
    requires t.findWidget(Vec(x1 - 1, y1 - 2)) == Some(a) && a != ScreenId
    requires forall w, p, d, m, k :: t.mouseMotionEvent(w, p, d, m, k) != Threw
    requires forall w, p, n, down, k :: t.mouseButtonEvent(w, p, n, down, k) != Threw
    ensures s.dragActive && s.dragWidget == None && !s.DragLive(t)
  {
    s := new Screen(Vec(800, 600), Vec(800, 600), true);
    PressOver(s, t, a, x1, y1);
    s.DisposeWindow(a);
  }

  /** The same run with the corrected disposal: the drag ends with it. */
  method DisposeDragTargetCleared(t: Tree, a: Id, x1: int, y1: int) returns (s: Screen)
    requires WellFormed(t) && IsWindow(t.role(a))
    requires t.findWidget(Vec(x1 - 1, y1 - 2)) == Some(a) && a != ScreenId
    requires forall w, p, d, m, k :: t.mouseMotionEvent(w, p, d, m, k) != Threw
    requires forall w, p, n, down, k :: t.mouseButtonEvent(w, p, n, down, k) != Threw
    ensures !s.dragActive && s.dragWidget == None && s.DragLive(t)
  {
    s := new Screen(Vec(800, 600), Vec(800, 600), true);
    PressOver(s, t, a, x1, y1);
    s.DisposeWindowClearingDrag(t, a);
  }

  /** While `a` is the drag target, move over another widget `b` and
      release button 1: `a` is sent the button-up, at the release point
      taken relative to its parent, and the drag is over. */
  method ReleaseOver(s: Screen, t: Tree, a: Id, b: Id, x2: int, y2: int)
    requires WellFormed(t) && a in t.parent
    requires t.findWidget(Vec(x2 - 1, y2 - 2)) == Some(b) && b != a
    requires forall w, p, d, m, k :: t.mouseMotionEvent(w, p, d, m, k) != Threw
    requires forall w, p, d, m, k :: t.mouseDragEvent(w, p, d, m, k) != Threw
    requires forall w, p, n, down, k :: t.mouseButtonEvent(w, p, n, down, k) != Threw
    requires s.dragActive && s.dragWidget == Some(a) && s.focusPath == []
    modifies s
    ensures !s.dragActive && s.dragWidget == None && s.mousePos == Vec(x2 - 1, y2 - 2)
    ensures Release(a, RelativeTo(t, a, Vec(x2 - 1, y2 - 2)), 1, 0) in s.sent
  {
    var moved := s.CursorPosCallbackEvent(t, x2, y2);
    var released := s.MouseButtonCallbackEvent(t, 1, false, 0);
  }

  /** Press over widget `a`, move over widget `b`, release: the button-up
      still reaches `a`, the drag target, at the release point taken
      relative to `a`'s parent, and the drag is over. */
  method DragAcross(t: Tree, a: Id, b: Id, x1: int, y1: int, x2: int, y2: int) returns (s: Screen)
    requires WellFormed(t)
    requires t.findWidget(Vec(x1 - 1, y1 - 2)) == Some(a) && a != ScreenId
    requires t.findWidget(Vec(x2 - 1, y2 - 2)) == Some(b) && b != a
    requires forall w, p, d, m, k :: t.mouseMotionEvent(w, p, d, m, k) != Threw
    requires forall w, p, d, m, k :: t.mouseDragEvent(w, p, d, m, k) != Threw
    requires forall w, p, n, down, k :: t.mouseButtonEvent(w, p, n, down, k) != Threw
    ensures !s.dragActive && s.dragWidget == None && s.mousePos == Vec(x2 - 1, y2 - 2)
    ensures a in t.parent && Release(a, RelativeTo(t, a, Vec(x2 - 1, y2 - 2)), 1, 0) in s.sent
  {
    s := new Screen(Vec(800, 600), Vec(800, 600), true);
    PressOver(s, t, a, x1, y1);
    ReleaseOver(s, t, a, b, x2, y2);
  }
}
