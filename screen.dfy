/** `nanogui::Screen`: the root of the widget tree, holding the window
    stack, the focus path, the drag target, the pointer state and the
    framebuffer sizes, and turning backend input callbacks into calls on
    the widget tree. */
module ScreenCore {
  import opened Seqs
  import opened Widgets
  import opened WindowStack
  import opened Focus
  import opened KeyRouting
  import opened ButtonMask
  import opened Events

  /** What the installed resize callback does when it is called. */
  datatype Outcome = Returned | Raised

  /** The position `p` in the coordinates of `w`'s parent. */
  function RelativeTo(t: Tree, w: Id, p: Vec): (r: Vec)
    requires w in t.parent
    ensures var origin := t.absolutePosition(t.parent[w]);
      Vec(r.x + origin.x, r.y + origin.y) == p
  {
    p.Minus(t.absolutePosition(t.parent[w]))
  }

  /** The cursor after the pointer is over `hit`: the cursor is replaced
      only when the hit widget asks for a different one. */
  function HoverCursor(t: Tree, hit: Option<Id>, c: Cursor): (r: Cursor)
    ensures hit.Some? ==> r == t.cursor(hit.value)
    ensures hit.None? ==> r == c
  {
    if hit.Some? && t.cursor(hit.value) != c then t.cursor(hit.value) else c
  }

  /** The drag target a press picks: the hit widget, unless it is the
      screen itself. */
  function PressTarget(hit: Option<Id>): (r: Option<Id>)
    ensures r.Some? <==> hit.Some? && hit.value != ScreenId
    ensures r.Some? ==> r == hit
  {
    if hit == Some(ScreenId) then None else hit
  }

  /** The motion a drag widget is sent, if a drag is active. */
  function DragSent(t: Tree, active: bool, drag: Option<Id>, p: Vec, delta: Vec): seq<Sent>
    requires active ==> drag.Some? && drag.value in t.parent
  {
    if active then [Drag(drag.value, RelativeTo(t, drag.value, p), delta)] else []
  }

  /** The drag widget's answer to the motion (false when there is no drag). */
  function DragReply(t: Tree, active: bool, drag: Option<Id>, p: Vec, delta: Vec,
                     buttons: bv32, mods: int): Reply
    requires active ==> drag.Some? && drag.value in t.parent
  {
    if active then t.mouseDragEvent(drag.value, RelativeTo(t, drag.value, p), delta, buttons, mods)
    else Done(false)
  }

  /** The button-up sent to the drag widget, if any: on a release during a
      drag while the pointer is over some other widget (or none). */
  function ReleaseSent(t: Tree, active: bool, drag: Option<Id>, pos: Vec, button: nat,
                       down: bool, mods: int): seq<Sent>
    requires active ==> drag.Some? && drag.value in t.parent
  {
    if active && !down && t.findWidget(pos) != drag
    then [Release(drag.value, RelativeTo(t, drag.value, pos), button, mods)]
    else []
  }

  /** That button-up was sent and the drag widget threw. */
  predicate ReleaseThrew(t: Tree, active: bool, drag: Option<Id>, pos: Vec, button: nat,
                         down: bool, mods: int)
    requires active ==> drag.Some? && drag.value in t.parent
  {
    && ReleaseSent(t, active, drag, pos, button, down, mods) != []
    && t.mouseButtonEvent(drag.value, RelativeTo(t, drag.value, pos), button, false, mods) == Threw
  }

  function KeyHandler(t: Tree, k: KeyArgs): Id -> Reply {
    (w: Id) => t.keyboardEvent(w, k)
  }

  function CharHandler(t: Tree, codepoint: nat): Id -> Reply {
    (w: Id) => t.keyboardCharacterEvent(w, codepoint)
  }

  /** What the log records when an entry is offered the key `k`. */
  function KeyNote(k: KeyArgs): Id -> Sent {
    (w: Id) => KeyTo(w, k)
  }

  /** What the log records when an entry is offered a character. */
  function CharNote(codepoint: nat): Id -> Sent {
    (w: Id) => CharTo(w, codepoint)
  }

  /** The index loop of `moveWindowToFront` that finds the window: the
      last index holding `x` (0 when there is none). */
  method BaseIndex(cs: seq<Id>, x: Id) returns (k: nat)
    ensures x in cs ==> k < |cs| && cs[k] == x && forall j :: k < j < |cs| ==> cs[j] != x
    ensures x !in cs ==> k == 0
  {
    k := 0;
    var index := 0;
    while index < |cs|
      invariant index <= |cs|
      invariant x in cs[..index] ==> k < index && cs[k] == x && forall j :: k < j < index ==> cs[j] != x
      invariant x !in cs[..index] ==> k == 0
    {
      assert cs[..index + 1] == cs[..index] + [cs[index]];
      if cs[index] == x {
        k := index;
      }
      index := index + 1;
    }
    assert cs[..index] == cs;
  }

  /** The scan of `moveWindowToFront` for a popup owned by `x` below index
      `base`: the first such index, if any. */
  method FindStranded(t: Tree, cs: seq<Id>, x: Id, base: nat) returns (found: bool, index: nat)
    ensures found ==> index < |cs| && index < base && OwnedBy(t, cs[index], x)
    ensures found ==> forall j :: 0 <= j < index ==> !(OwnedBy(t, cs[j], x) && j < base)
    ensures !found ==> forall j :: 0 <= j < |cs| ==> !(OwnedBy(t, cs[j], x) && j < base)
  {
    index := 0;
    while index < |cs|
      invariant index <= |cs|
      invariant forall j :: 0 <= j < index ==> !(OwnedBy(t, cs[j], x) && j < base)
    {
      if OwnedBy(t, cs[index], x) && index < base {
        return true, index;
      }
      index := index + 1;
    }
    return false, 0;
  }

  /** The middle loop of `updateFocus`: collect `w` and its ancestors up
      to the root, remembering the last window passed, i.e. the outermost. */
  method CollectChain(t: Tree, w: Option<Id>) returns (path: seq<Id>, window: Option<Id>)
    requires ParentsAcyclic(t)
    ensures path == Chain(t, w)
    ensures window == LastWindow(t, path)
  {
    path := [];
    window := None;
    var widget := w;
    while widget.Some?
      invariant path + Chain(t, widget) == Chain(t, w)
      invariant window == LastWindow(t, path)
      decreases if widget.Some? then t.depth(widget.value) + 1 else 0
    {
      var v := widget.value;
      assert Chain(t, widget) == [v] + Chain(t, Parent(t, v));
      Regroup(path, [v], Chain(t, Parent(t, v)));
      ghost var prev := path;
      path := path + [v];
      assert path[..|path| - 1] == prev;
      if IsWindow(t.role(v)) {
        window := widget;
      }
      widget := Parent(t, v);
    }
  }

  class Screen {
    /** `mChildren`: the window stack, back to front. */
    var children: seq<Id>
    /** `mFocusPath`: the focused widget first, the screen last. */
    var focusPath: seq<Id>
    /** The widgets whose `focused()` flag is set. */
    var focused: set<Id>
    var dragActive: bool
    var dragWidget: Option<Id>
    var mouseState: bv32
    var modifiers: int
    var mousePos: Vec
    var cursor: Cursor
    var fbSize: Vec
    var size: Vec
    var visible: bool
    var processEvents: bool
    var resizeCallback: Option<Vec -> Outcome>
    /** Every notification sent to a widget, in order. */
    ghost var sent: seq<Sent>

    /** The state `initialize` leaves: the sizes and visibility come from
        the backend window, the pointer state is cleared and events are on. */
    constructor (fb: Vec, sz: Vec, shown: bool)
      ensures children == [] && focusPath == [] && focused == {}
      ensures !dragActive && dragWidget == None
      ensures mouseState == 0 && modifiers == 0 && mousePos == Vec(0, 0)
      ensures cursor == Arrow && fbSize == fb && size == sz && visible == shown
      ensures processEvents && resizeCallback == None && sent == []
    {
      children, focusPath, focused := [], [], {};
      dragActive, dragWidget := false, None;
      mouseState, modifiers, mousePos := 0, 0, Vec(0, 0);
      cursor, fbSize, size, visible := Arrow, fb, sz, shown;
      processEvents, resizeCallback := true, None;
      sent := [];
    }

    /** During a drag the drag widget exists and has a parent. */
    predicate DragLive(t: Tree)
      reads this
    {
      dragActive ==> dragWidget.Some? && dragWidget.value in t.parent
    }

    /** `moveWindowToFront(x)`: erase `x`, push it on top, then, as long as
        some popup of `x` is below it, move that popup to the front and
        start over. */
    method MoveWindowToFront(t: Tree, x: Id)
      requires PopupsRanked(t) && Distinct(children)
      modifies this`children
      ensures MovedToFront(t, old(children), children, x)
      decreases t.rank(x)
    {
      ghost var before := children;
      ghost var s := Elems(before) + {x};
      PromoteInit(t, before, x);
      children := Without(children, {x}) + [x];
      ghost var pre: seq<Id>, post: seq<Id>, d: set<Id> := Without(before, {x}), [], {x};
      ghost var n: nat := 0;
      ArrangeInit(t, before, x);
      var changed := true;
      while changed
        invariant Promoting(t, before, x, s, pre, post, d, children)
        invariant Arranged(t, before, x, pre, post, n)
        invariant !changed ==> forall i :: 0 <= i < |pre| ==> !OwnedBy(t, pre[i], x)
        decreases Pending(t, pre, x), changed
      {
        var base := BaseIndex(children, x);
        assert children[|pre|] == x;
        DistinctIndex(children, base, |pre|);
        changed := false;
        var found, index := FindStranded(t, children, x, base);
        if found {
          var p := children[index];
          assert p == pre[index];
          ghost var cs := children;
          forall j | 0 <= j < index ensures !OwnedBy(t, pre[j], x) {
            assert children[j] == pre[j];
          }
          MoveWindowToFront(t, p);
          ArrangeBlock(t, before, x, s, pre, post, d, cs, p, children);
          ArrangeStep(t, before, x, s, pre, post, p, index, children[|Without(cs, Moved(t, s, p))|..], n);
          pre, post, d := PromoteStep(t, before, x, s, pre, post, d, cs, p, children);
          n := n + 1;
          changed := true;
        } else {
          forall i | 0 <= i < |pre| ensures !OwnedBy(t, pre[i], x) {
            assert children[i] == pre[i];
          }
        }
      }
      PromoteDone(t, before, x, s, pre, post, d, children, n);
    }

    /** `updateFocus(w)`: notify the focused entries of the old path that
        they lost focus, rebuild the path up the parent chain from `w`,
        notify every new entry, root first, that it gained focus, and bring
        the outermost window of the chain to the front. */
    method UpdateFocus(t: Tree, w: Option<Id>)
      requires ParentsAcyclic(t)
      requires LastWindow(t, Chain(t, w)).Some? ==> PopupsRanked(t) && Distinct(children)
      modifies this`focusPath, this`focused, this`sent, this`children
      ensures focusPath == Chain(t, w)
      ensures focused == (old(focused) - Elems(old(focusPath))) + Elems(Chain(t, w))
      ensures sent == old(sent) + Lost(old(focusPath), old(focused)) + Gained(Chain(t, w))
      ensures LastWindow(t, Chain(t, w)).None? ==> children == old(children)
      ensures LastWindow(t, Chain(t, w)).Some? ==>
        MovedToFront(t, old(children), children, LastWindow(t, Chain(t, w)).value)
    {
      ClearFocus();
      focusPath := [];
      var path, window := CollectChain(t, w);
      focusPath := path;
      GainFocus();
      if window.Some? {
        MoveWindowToFront(t, window.value);
      }
    }

    /** The first loop of `updateFocus`: `focusEvent(false)` to every entry
        of the path that is focused, in path order. */
    method ClearFocus()
      modifies this`focused, this`sent
      ensures focused == old(focused) - Elems(focusPath)
      ensures sent == old(sent) + Lost(focusPath, old(focused))
    {
      var i := 0;
      while i < |focusPath|
        invariant i <= |focusPath|
        invariant focused == old(focused) - Elems(focusPath[..i])
        invariant sent == old(sent) + Lost(focusPath[..i], old(focused))
      {
        var v := focusPath[i];
        assert focusPath[..i + 1][..i] == focusPath[..i];
        ElemsConcat(focusPath[..i], [v]);
        assert focusPath[..i + 1] == focusPath[..i] + [v];
        if v in focused {
          focused := focused - {v};
          sent := sent + [FocusLost(v)];
        }
        i := i + 1;
      }
      assert focusPath[..i] == focusPath;
    }

    /** The last loop of `updateFocus`: `focusEvent(true)` to every entry
        of the path, from the root to the leaf. */
    method GainFocus()
      modifies this`focused, this`sent
      ensures focused == old(focused) + Elems(focusPath)
      ensures sent == old(sent) + Gained(focusPath)
    {
      var k := |focusPath|;
      assert focusPath[k..] == [];
      while k > 0
        invariant 0 <= k <= |focusPath|
        invariant focused == old(focused) + Elems(focusPath[k..])
        invariant sent == old(sent) + Gained(focusPath[k..])
      {
        k := k - 1;
        assert focusPath[k..][1..] == focusPath[k + 1..];
        ElemsConcat([focusPath[k]], focusPath[k + 1..]);
        assert focusPath[k..] == [focusPath[k]] + focusPath[k + 1..];
        focused := focused + {focusPath[k]};
        sent := sent + [FocusGained(focusPath[k])];
      }
    }

    /** `disposeWindow(win)`: forget the focus path if `win` is on it (with
        no notifications), forget the drag widget if it is `win`, and remove
        `win` from the children. The drag flag is left as it was. */
    method DisposeWindow(win: Id)
      modifies this`focusPath, this`dragWidget, this`children
      ensures win in old(focusPath) ==> focusPath == []
      ensures win !in old(focusPath) ==> focusPath == old(focusPath)
      ensures old(dragWidget) == Some(win) ==> dragWidget == None
      ensures old(dragWidget) != Some(win) ==> dragWidget == old(dragWidget)
      ensures children == Without(old(children), {win})
    {
      if win in focusPath {
        focusPath := [];
      }
      if dragWidget == Some(win) {
        dragWidget := None;
      }
      children := Without(children, {win});
    }

    /** `disposeWindow` as it evidently should be: disposing the drag
        widget also ends the drag, so no later event reaches it. */
    method DisposeWindowClearingDrag(t: Tree, win: Id)
      requires DragLive(t)
      modifies this`focusPath, this`dragActive, this`dragWidget, this`children
      ensures win in old(focusPath) ==> focusPath == []
      ensures win !in old(focusPath) ==> focusPath == old(focusPath)
      ensures old(dragWidget) == Some(win) ==> dragWidget == None && !dragActive
      ensures old(dragWidget) != Some(win) ==> dragWidget == old(dragWidget) && dragActive == old(dragActive)
      ensures children == Without(old(children), {win})
      ensures DragLive(t)
    {
      if win in focusPath {
        focusPath := [];
      }
      if dragWidget == Some(win) {
        dragWidget := None;
        dragActive := false;
      }
      children := Without(children, {win});
    }

    /** `keyboardEvent`: offer the key to the focused entries of the path,
        from the one below the root inward, until one consumes it. A throw
        propagates to the caller. */
    method KeyboardEvent(t: Tree, k: KeyArgs) returns (r: Reply)
      modifies this`sent
      ensures r == KeyRoute(focusPath, focused, KeyHandler(t, k))
      ensures sent == old(sent) + KeyLog(focusPath, focused, KeyHandler(t, k), KeyNote(k))
    {
      r := RouteAlongPath(KeyHandler(t, k), KeyNote(k));
    }

    /** `keyboardCharacterEvent`: the same routing for a character. */
    method KeyboardCharacterEvent(t: Tree, codepoint: nat) returns (r: Reply)
      modifies this`sent
      ensures r == KeyRoute(focusPath, focused, CharHandler(t, codepoint))
      ensures sent == old(sent) +
        KeyLog(focusPath, focused, CharHandler(t, codepoint), CharNote(codepoint))
    {
      r := RouteAlongPath(CharHandler(t, codepoint), CharNote(codepoint));
    }

    /** The reverse iteration shared by the two key handlers: `h` answers
        for an entry, and `note` is what the log records when the entry is
        offered the event. */
    method RouteAlongPath(h: Id -> Reply, note: Id -> Sent) returns (r: Reply)
      modifies this`sent
      ensures r == KeyRoute(focusPath, focused, h)
      ensures sent == old(sent) + KeyLog(focusPath, focused, h, note)
    {
      if |focusPath| > 0 {
        var i := |focusPath| - 1;
        ghost var log: seq<Sent> := [];
        while i > 0
          invariant 0 <= i <= |focusPath| - 1
          invariant Route(focusPath, focused, h, |focusPath| - 1) == Route(focusPath, focused, h, i)
          invariant log + RouteLog(focusPath, focused, h, note, i) == RouteLog(focusPath, focused, h, note, |focusPath| - 1)
          invariant sent == old(sent) + log
        {
          var w := focusPath[i - 1];
          if w in focused {
            var reply := h(w);
            sent := sent + [note(w)];
            if reply == Threw {
              return Threw;
            }
            if reply == Done(true) {
              return Done(true);
            }
            log := log + [note(w)];
          }
          i := i - 1;
        }
      }
      return Done(false);
    }

    /** `keyCallbackEvent`: route the key; a throw yields false. */
    method KeyCallbackEvent(t: Tree, k: KeyArgs) returns (r: bool)
      modifies this`sent
      ensures r <==> KeyRoute(focusPath, focused, KeyHandler(t, k)) == Done(true)
      ensures sent == old(sent) + KeyLog(focusPath, focused, KeyHandler(t, k), KeyNote(k))
    {
      var reply := KeyboardEvent(t, k);
      r := reply == Done(true);
    }

    /** `charCallbackEvent`: route the character; a throw yields false. */
    method CharCallbackEvent(t: Tree, codepoint: nat) returns (r: bool)
      modifies this`sent
      ensures r <==> KeyRoute(focusPath, focused, CharHandler(t, codepoint)) == Done(true)
      ensures sent == old(sent) +
        KeyLog(focusPath, focused, CharHandler(t, codepoint), CharNote(codepoint))
    {
      var reply := KeyboardCharacterEvent(t, codepoint);
      r := reply == Done(true);
    }

    /** `setVisible(v)`: show or hide the backend window when the
        visibility changes. */
    method SetVisible(v: bool)
      modifies this`visible
      ensures visible == v
    {
      if visible != v {
        visible := v;
      }
    }

    /** What performing the callback call `c` does, answering `answer`:
        the callback's own effect, and every field outside its frame kept. */
    twostate predicate Performed(t: Tree, c: Call, fbNow: Vec, sizeNow: Vec, answer: bool)
      requires c.CursorPos? || c.ButtonCall? ==> old(DragLive(t))
      requires c.ButtonCall? ==> c.button < 32
      reads this
    {
      && processEvents == old(processEvents) && resizeCallback == old(resizeCallback)
      && match c
         case NoCall => unchanged(this)
         case Hide =>
           && !visible
           && unchanged(this`children, this`focusPath, this`focused, this`dragActive, this`dragWidget,
                        this`mouseState, this`modifiers, this`mousePos, this`cursor, this`fbSize, this`size,
                        this`sent)
         case KeyCall(args) =>
           && OnlyLogged()
           && (answer <==> KeyRoute(focusPath, focused, KeyHandler(t, args)) == Done(true))
           && sent == old(sent) + KeyLog(focusPath, focused, KeyHandler(t, args), KeyNote(args))
         case CharCall(codepoint) =>
           && OnlyLogged()
           && (answer <==> KeyRoute(focusPath, focused, CharHandler(t, codepoint)) == Done(true))
           && sent == old(sent) + KeyLog(focusPath, focused, CharHandler(t, codepoint), CharNote(codepoint))
         case ScrollCall(dx, dy) =>
           && OnlyLogged()
           && (ModalBlocks(t, focusPath, mousePos) ==> !answer && sent == old(sent))
           && (!ModalBlocks(t, focusPath, mousePos) ==>
                 && (answer <==> t.scrollEvent(ScreenId, mousePos, Vec(dx, dy)) == Done(true))
                 && sent == old(sent) + [Scrolled(mousePos, Vec(dx, dy))])
         case DropCall(files) =>
           && OnlyLogged()
           && answer == t.dropEvent(ScreenId, files) && sent == old(sent) + [Dropped(files)]
         case ResizeCall =>
           && unchanged(this`children, this`focusPath, this`focused, this`dragActive, this`dragWidget,
                        this`mouseState, this`modifiers, this`mousePos, this`cursor, this`visible)
           && (old(fbSize) == Vec(0, 0) || sizeNow == Vec(0, 0) ==>
                 !answer && fbSize == old(fbSize) && size == old(size) && sent == old(sent))
           && (old(fbSize) != Vec(0, 0) && sizeNow != Vec(0, 0) ==>
                 && fbSize == fbNow && size == sizeNow
                 && (answer <==> resizeCallback.Some? && resizeCallback.value(sizeNow) == Returned)
                 && sent == old(sent) + (if resizeCallback.Some? then [Resized(sizeNow)] else []))
         case CursorPos(x, y) =>
           && unchanged(this`children, this`focusPath, this`focused, this`dragActive, this`dragWidget,
                        this`mouseState, this`modifiers, this`fbSize, this`size, this`visible)
           && PointerMoved(t, x, y, answer)
         case ButtonCall(button, down, mods) =>
           && unchanged(this`mousePos, this`fbSize, this`size, this`visible)
           && ButtonHandled(t, button, down, mods, answer)
    }

    /** Every field but the log is as it was. */
    twostate predicate OnlyLogged()
      reads this
    {
      unchanged(this`children, this`focusPath, this`focused, this`dragActive, this`dragWidget,
                this`mouseState, this`modifiers, this`mousePos, this`cursor, this`fbSize, this`size,
                this`visible, this`processEvents, this`resizeCallback)
    }

    /** `onEvent`: turn a backend event into the screen callback `Dispatch`
        names and perform it. The callback's answer, which `onEvent` drops,
        is the ghost `answer`. `fbNow` and `sizeNow` are the sizes the
        backend reports when asked during a resize. */
    method OnEvent(t: Tree, ev: Event, fbNow: Vec, sizeNow: Vec) returns (ghost answer: bool)
      requires ev.MouseMotion? || ev.MouseButton? ==> DragLive(t)
      requires ev.MouseButton? ==> ev.button < 32 && WellFormed(t)
      modifies this
      ensures Performed(t, Dispatch(old(processEvents), ev), fbNow, sizeNow, answer)
    {
      var c := Dispatch(processEvents, ev);
      if c.CursorPos? {
        answer := PerformMotion(t, c);
      } else if c.ButtonCall? {
        answer := PerformButton(t, c);
      } else if c.KeyCall? || c.CharCall? || c.ScrollCall? || c.DropCall? {
        answer := PerformDelivery(t, c);
      } else {
        answer := PerformWindow(t, c, fbNow, sizeNow);
      }
    }

    /** The pointer-motion call of `onEvent`. */
    method PerformMotion(t: Tree, c: Call) returns (ghost answer: bool)
      requires c.CursorPos? && DragLive(t)
      modifies this
      ensures Performed(t, c, Vec(0, 0), Vec(0, 0), answer)
    {
      answer := CursorPosCallbackEvent(t, c.x, c.y);
    }

    /** The mouse-button call of `onEvent`. */
    method PerformButton(t: Tree, c: Call) returns (ghost answer: bool)
      requires c.ButtonCall? && c.button < 32 && WellFormed(t) && DragLive(t)
      modifies this
      ensures Performed(t, c, Vec(0, 0), Vec(0, 0), answer)
    {
      answer := MouseButtonCallbackEvent(t, c.button, c.down, c.mods);
    }

    /** The calls of `onEvent` that hand an event on: keys, characters,
        scrolling and dropped files. */
    method PerformDelivery(t: Tree, c: Call) returns (ghost answer: bool)
      requires c.KeyCall? || c.CharCall? || c.ScrollCall? || c.DropCall?
      modifies this
      ensures Performed(t, c, Vec(0, 0), Vec(0, 0), answer)
    {
      match c
      case KeyCall(args) =>
        answer := KeyCallbackEvent(t, args);
      case CharCall(codepoint) =>
        answer := CharCallbackEvent(t, codepoint);
      case ScrollCall(dx, dy) =>
        answer := ScrollCallbackEvent(t, dx, dy);
      case DropCall(files) =>
        answer := DropCallbackEvent(t, files);
    }

    /** The window calls of `onEvent` (a resize, a close request) and the
        events it ignores. */
    method PerformWindow(t: Tree, c: Call, fbNow: Vec, sizeNow: Vec) returns (ghost answer: bool)
      requires c.ResizeCall? || c.Hide? || c.NoCall?
      modifies this
      ensures Performed(t, c, fbNow, sizeNow, answer)
    {
      answer := false;
      if c.ResizeCall? {
        answer := ResizeCallbackEvent(fbNow, sizeNow);
      } else if c.Hide? {
        SetVisible(false);
      }
    }

    /** `resizeEvent`: call the resize callback if one is installed. */
    method ResizeEvent(sz: Vec) returns (r: Reply)
      modifies this`sent
      ensures r == Done(true) <==> resizeCallback.Some? && resizeCallback.value(sz) == Returned
      ensures r == Threw <==> resizeCallback.Some? && resizeCallback.value(sz) == Raised
      ensures sent == old(sent) + (if resizeCallback.Some? then [Resized(sz)] else [])
    {
      if resizeCallback.Some? {
        var outcome := resizeCallback.value(sz);
        sent := sent + [Resized(sz)];
        if outcome == Raised {
          return Threw;
        }
        return Done(true);
      }
      return Done(false);
    }

    /** `resizeCallbackEvent`, given the framebuffer and logical sizes the
        backend reports: ignored when the stored framebuffer size or the new
        logical size is (0, 0), and then the callback is not called;
        otherwise both sizes are stored and the resize callback is told. */
    method ResizeCallbackEvent(newFb: Vec, newSize: Vec) returns (r: bool)
      modifies this`fbSize, this`size, this`sent
      ensures old(fbSize) == Vec(0, 0) || newSize == Vec(0, 0) ==>
        !r && fbSize == old(fbSize) && size == old(size) && sent == old(sent)
      ensures old(fbSize) != Vec(0, 0) && newSize != Vec(0, 0) ==>
        && fbSize == newFb && size == newSize
        && (r <==> resizeCallback.Some? && resizeCallback.value(newSize) == Returned)
        && sent == old(sent) + (if resizeCallback.Some? then [Resized(newSize)] else [])
    {
      if fbSize == Vec(0, 0) || newSize == Vec(0, 0) {
        return false;
      }
      fbSize, size := newFb, newSize;
      var reply := ResizeEvent(size);
      r := reply == Done(true);
    }

    /** `scrollCallbackEvent`: refused outside a modal window, and then not
        handed on; otherwise the screen's `scrollEvent` at the pointer. */
    method ScrollCallbackEvent(t: Tree, x: int, y: int) returns (r: bool)
      modifies this`sent
      ensures ModalBlocks(t, focusPath, mousePos) ==> !r && sent == old(sent)
      ensures !ModalBlocks(t, focusPath, mousePos) ==>
        && (r <==> t.scrollEvent(ScreenId, mousePos, Vec(x, y)) == Done(true))
        && sent == old(sent) + [Scrolled(mousePos, Vec(x, y))]
    {
      if ModalBlocks(t, focusPath, mousePos) {
        return false;
      }
      var reply := t.scrollEvent(ScreenId, mousePos, Vec(x, y));
      sent := sent + [Scrolled(mousePos, Vec(x, y))];
      r := reply == Done(true);
    }

    /** `dropCallbackEvent`: hand the file names to the screen's `dropEvent`. */
    method DropCallbackEvent(t: Tree, files: seq<string>) returns (r: bool)
      modifies this`sent
      ensures r == t.dropEvent(ScreenId, files)
      ensures sent == old(sent) + [Dropped(files)]
    {
      r := t.dropEvent(ScreenId, files);
      sent := sent + [Dropped(files)];
    }

    /** What `cursorPosCallbackEvent(x, y)` does, answering `r`: compares
        the state before the call with the state after it. */
    twostate predicate PointerMoved(t: Tree, x: int, y: int, r: bool)
      requires old(DragLive(t))
      reads this
    {
      var p := Vec(x - 1, y - 2);
      var delta := p.Minus(old(mousePos));
      var drag := DragSent(t, old(dragActive), old(dragWidget), p, delta);
      var dragReply := DragReply(t, old(dragActive), old(dragWidget), p, delta, old(mouseState), old(modifiers));
      var motionReply := t.mouseMotionEvent(ScreenId, p, delta, old(mouseState), old(modifiers));
      && (!old(dragActive) ==> cursor == HoverCursor(t, t.findWidget(p), old(cursor)))
      && (old(dragActive) ==> cursor == old(cursor))
      && (dragReply == Threw ==> !r && mousePos == old(mousePos) && sent == old(sent) + drag)
      && (dragReply == Done(true) ==> r && mousePos == p && sent == old(sent) + drag)
      && (dragReply == Done(false) ==>
            && sent == old(sent) + drag + [Motion(p, delta)]
            && (motionReply == Threw ==> !r && mousePos == old(mousePos))
            && (motionReply != Threw ==> (r <==> motionReply == Done(true)) && mousePos == p))
    }

    /** `cursorPosCallbackEvent(x, y)`: the pointer is now at `(x, y) - (1, 2)`.
        Without a drag the cursor follows the hovered widget; with one the
        drag widget gets the motion first, and the screen's own
        `mouseMotionEvent` runs only if the drag handler did not consume it.
        The stored position is updated last, so a throw leaves it as it was. */
    method CursorPosCallbackEvent(t: Tree, x: int, y: int) returns (r: bool)
      requires DragLive(t)
      modifies this`cursor, this`mousePos, this`sent
      ensures PointerMoved(t, x, y, r)
    {
      var p := Vec(x - 1, y - 2);
      var ret := false;
      if !dragActive {
        var hit := t.findWidget(p);
        if hit.Some? && t.cursor(hit.value) != cursor {
          cursor := t.cursor(hit.value);
        }
      } else {
        var dw := dragWidget.value;
        var reply := t.mouseDragEvent(dw, RelativeTo(t, dw, p), p.Minus(mousePos), mouseState, modifiers);
        sent := sent + [Drag(dw, RelativeTo(t, dw, p), p.Minus(mousePos))];
        if reply == Threw {
          return false;
        }
        ret := reply == Done(true);
      }
      if !ret {
        var reply := t.mouseMotionEvent(ScreenId, p, p.Minus(mousePos), mouseState, modifiers);
        sent := sent + [Motion(p, p.Minus(mousePos))];
        if reply == Threw {
          return false;
        }
        ret := reply == Done(true);
      }
      mousePos := p;
      return ret;
    }

    /** What `mouseButtonCallbackEvent(button, down, mods)` does, answering
        `r`: compares the state before the call with the state after it. */
    twostate predicate ButtonHandled(t: Tree, button: nat, down: bool, mods: int, r: bool)
      requires button < 32 && old(DragLive(t))
      reads this
    {
      var gate := ModalBlocks(t, old(focusPath), old(mousePos));
      var hit := t.findWidget(old(mousePos));
      var release := ReleaseSent(t, old(dragActive), old(dragWidget), old(mousePos), button, down, mods);
      var threw := ReleaseThrew(t, old(dragActive), old(dragWidget), old(mousePos), button, down, mods);
      var notice := Button(old(mousePos), button, down, mods);
      && modifiers == mods && children == old(children) && DragLive(t)
      && (gate ==>
            && !r && mouseState == old(mouseState)
            && dragActive == old(dragActive) && dragWidget == old(dragWidget) && cursor == old(cursor)
            && focusPath == old(focusPath) && focused == old(focused) && sent == old(sent))
      && (!gate ==> mouseState == WithButton(old(mouseState), button, down))
      && (!gate && threw ==>
            && !r && dragActive == old(dragActive) && dragWidget == old(dragWidget) && cursor == old(cursor)
            && focusPath == old(focusPath) && focused == old(focused) && sent == old(sent) + release)
      && (!gate && !threw ==>
            && cursor == HoverCursor(t, hit, old(cursor))
            && (r <==> t.mouseButtonEvent(ScreenId, old(mousePos), button, down, mods) == Done(true))
            && (down ==> dragWidget == PressTarget(hit) && dragActive == dragWidget.Some?)
            && (down && !dragActive ==>
                  && focusPath == [] && focused == old(focused) - Elems(old(focusPath))
                  && sent == old(sent) + Lost(old(focusPath), old(focused)) + [notice])
            && (down && dragActive ==>
                  focusPath == old(focusPath) && focused == old(focused) && sent == old(sent) + [notice])
            && (!down ==>
                  && !dragActive && dragWidget == None
                  && focusPath == old(focusPath) && focused == old(focused)
                  && sent == old(sent) + release + [notice]))
    }

    /** `mouseButtonCallbackEvent(button, down, mods)`: record the modifiers;
        refuse the event outside a modal window; update the button mask;
        on a release away from the drag widget send it a button-up; let the
        cursor follow the widget under the pointer; a press starts a drag on
        the widget under the pointer, or clears the focus when there is none
        (or it is the screen); a release ends the drag; finally the screen's
        own `mouseButtonEvent`. */
    method MouseButtonCallbackEvent(t: Tree, button: nat, down: bool, mods: int) returns (r: bool)
      requires button < 32
      requires WellFormed(t) && DragLive(t)
      modifies this`modifiers, this`mouseState, this`dragActive, this`dragWidget, this`cursor,
               this`focusPath, this`focused, this`sent, this`children
      ensures ButtonHandled(t, button, down, mods, r)
    {
      modifiers := mods;
      if ModalBlocks(t, focusPath, mousePos) {
        return false;
      }
      mouseState := WithButton(mouseState, button, down);
      r := DeliverButton(t, button, down);
    }

    /** `mouseButtonCallbackEvent` once the event has passed the modal gate
        and the mask is updated. */
    method DeliverButton(t: Tree, button: nat, down: bool) returns (r: bool)
      requires WellFormed(t) && DragLive(t)
      modifies this`dragActive, this`dragWidget, this`cursor,
               this`focusPath, this`focused, this`sent, this`children
      ensures children == old(children) && DragLive(t)
      ensures
        var release := ReleaseSent(t, old(dragActive), old(dragWidget), mousePos, button, down, modifiers);
        ReleaseThrew(t, old(dragActive), old(dragWidget), mousePos, button, down, modifiers) ==>
          && !r && dragActive == old(dragActive) && dragWidget == old(dragWidget) && cursor == old(cursor)
          && focusPath == old(focusPath) && focused == old(focused) && sent == old(sent) + release
      ensures
        var hit := t.findWidget(mousePos);
        var release := ReleaseSent(t, old(dragActive), old(dragWidget), mousePos, button, down, modifiers);
        var notice := Button(mousePos, button, down, modifiers);
        !ReleaseThrew(t, old(dragActive), old(dragWidget), mousePos, button, down, modifiers) ==>
          && cursor == HoverCursor(t, hit, old(cursor))
          && (r <==> t.mouseButtonEvent(ScreenId, mousePos, button, down, modifiers) == Done(true))
          && (down ==> dragWidget == PressTarget(hit) && dragActive == dragWidget.Some?)
          && (down && !dragActive ==>
                && focusPath == [] && focused == old(focused) - Elems(old(focusPath))
                && sent == old(sent) + Lost(old(focusPath), old(focused)) + [notice])
          && (down && dragActive ==>
                focusPath == old(focusPath) && focused == old(focused) && sent == old(sent) + [notice])
          && (!down ==>
                && !dragActive && dragWidget == None
                && focusPath == old(focusPath) && focused == old(focused)
                && sent == old(sent) + release + [notice])
    {
      var threw := SendRelease(t, button, down);
      if threw {
        return false;
      }
      r := FinishButton(t, button, down);
    }

    /** The part of `mouseButtonCallbackEvent` after the button-up to the
        drag widget: cursor, drag bookkeeping, the screen's own handler. */
    method FinishButton(t: Tree, button: nat, down: bool) returns (r: bool)
      requires WellFormed(t)
      modifies this`dragActive, this`dragWidget, this`cursor,
               this`focusPath, this`focused, this`sent, this`children
      ensures children == old(children) && DragLive(t)
      ensures
        var hit := t.findWidget(mousePos);
        var notice := Button(mousePos, button, down, modifiers);
        && cursor == HoverCursor(t, hit, old(cursor))
        && (r <==> t.mouseButtonEvent(ScreenId, mousePos, button, down, modifiers) == Done(true))
        && (down ==> dragWidget == PressTarget(hit) && dragActive == dragWidget.Some?)
        && (down && !dragActive ==>
              && focusPath == [] && focused == old(focused) - Elems(old(focusPath))
              && sent == old(sent) + Lost(old(focusPath), old(focused)) + [notice])
        && (down && dragActive ==>
              focusPath == old(focusPath) && focused == old(focused) && sent == old(sent) + [notice])
        && (!down ==>
              && !dragActive && dragWidget == None
              && focusPath == old(focusPath) && focused == old(focused) && sent == old(sent) + [notice])
    {
      var dropWidget := t.findWidget(mousePos);
      if dropWidget.Some? && t.cursor(dropWidget.value) != cursor {
        cursor := t.cursor(dropWidget.value);
      }
      TrackDrag(t, down);
      var reply := t.mouseButtonEvent(ScreenId, mousePos, button, down, modifiers);
      sent := sent + [Button(mousePos, button, down, modifiers)];
      r := reply == Done(true);
    }

    /** The button-up `mouseButtonCallbackEvent` sends to the drag widget
        on a release over another widget; reports whether it threw. */
    method SendRelease(t: Tree, button: nat, down: bool) returns (threw: bool)
      requires DragLive(t)
      modifies this`sent
      ensures sent == old(sent) + ReleaseSent(t, dragActive, dragWidget, mousePos, button, down, modifiers)
      ensures threw == ReleaseThrew(t, dragActive, dragWidget, mousePos, button, down, modifiers)
    {
      threw := false;
      if dragActive && !down && t.findWidget(mousePos) != dragWidget {
        var dw := dragWidget.value;
        var reply := t.mouseButtonEvent(dw, RelativeTo(t, dw, mousePos), button, false, modifiers);
        sent := sent + [Release(dw, RelativeTo(t, dw, mousePos), button, modifiers)];
        threw := reply == Threw;
      }
    }

    /** The drag bookkeeping of `mouseButtonCallbackEvent`: a press starts
        a drag on the widget under the pointer unless that is the screen or
        nothing, in which case the focus is cleared; a release ends it. */
    method TrackDrag(t: Tree, down: bool)
      requires WellFormed(t)
      modifies this`dragActive, this`dragWidget, this`focusPath, this`focused, this`sent, this`children
      ensures children == old(children) && DragLive(t)
      ensures down ==> dragWidget == PressTarget(t.findWidget(mousePos)) && dragActive == dragWidget.Some?
      ensures down && !dragActive ==>
        && focusPath == [] && focused == old(focused) - Elems(old(focusPath))
        && sent == old(sent) + Lost(old(focusPath), old(focused))
      ensures down && dragActive ==>
        focusPath == old(focusPath) && focused == old(focused) && sent == old(sent)
      ensures !down ==>
        && !dragActive && dragWidget == None
        && focusPath == old(focusPath) && focused == old(focused) && sent == old(sent)
    {
      if down {
        dragWidget := t.findWidget(mousePos);
        if dragWidget == Some(ScreenId) {
          dragWidget := None;
        }
        dragActive := dragWidget.Some?;
        if !dragActive {
          assert Chain(t, None) == [] && Gained([]) == [] && Elems([]) == {};
          UpdateFocus(t, None);
        }
      } else {
        dragActive := false;
        dragWidget := None;
      }
    }
  }
}
