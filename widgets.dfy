/** The widget tree as the screen sees it. Widget bodies (hit-testing,
    geometry, cursors, event handlers) live in code this model does not
    contain, so they are the fields of `Tree`, an oracle handed to every
    screen operation: the state of the rest of the toolkit at that moment. */
module Widgets {

  /** A widget handle: an index into the arena of live widgets. */
  type Id = nat

  /** The screen is itself a widget of the tree, its parentless root. */
  const ScreenId: Id := 0

  datatype Option<T> = None | Some(value: T)

  /** An integer 2D vector (`Vector2i`). */
  datatype Vec = Vec(x: int, y: int) {
    function Minus(o: Vec): Vec { Vec(x - o.x, y - o.y) }
  }

  /** `Cursor` shapes a widget can ask for. */
  datatype Cursor = Arrow | IBeam | Crosshair | Hand | HResize | VResize

  /** The dynamic type of a widget, as the screen inspects it: a plain
      widget, a `Window`, or a `Popup` (a `Window` too) with an optional
      owning window `parentWindow()`. */
  datatype Role = Plain | Window(modal: bool) | Popup(modal: bool, owner: Option<Id>)

  /** `dynamic_cast<Window *>` succeeds: windows and popups. */
  predicate IsWindow(r: Role) { r.Window? || r.Popup? }

  /** A widget handler either returns whether it consumed the event or
      throws; a throw is caught by the screen callback that called it. */
  datatype Reply = Done(consumed: bool) | Threw

  /** A notification the screen sends to a widget, as recorded in its log. */
  datatype Sent =
    | FocusLost(w: Id)
    | FocusGained(w: Id)
      /** The button-up made up for the drag target on a release elsewhere. */
    | Release(w: Id, pos: Vec, button: nat, mods: int)
    | Drag(w: Id, pos: Vec, rel: Vec)
    | Motion(pos: Vec, rel: Vec)
    | Button(pos: Vec, button: nat, down: bool, mods: int)
      /** A key event offered to a focus-path entry. */
    | KeyTo(w: Id, args: KeyArgs)
      /** A character offered to a focus-path entry. */
    | CharTo(w: Id, codepoint: nat)
      /** A scroll handed to the screen's `scrollEvent`. */
    | Scrolled(pos: Vec, rel: Vec)
      /** File names handed to the screen's `dropEvent`. */
    | Dropped(files: seq<string>)
      /** A call of the installed resize callback with the new size. */
    | Resized(size: Vec)

  /** Arguments of a key event. */
  datatype KeyArgs = KeyArgs(key: int, scancode: int, action: int, mods: int)

  datatype Tree = Tree(
    /** `parent()` of every widget that has one. */
    parent: map<Id, Id>,
    role: Id -> Role,
    /** A depth for every widget, smaller for the parent: a witness that
        parent links have no cycle. */
    depth: Id -> nat,
    /** A rank for every widget, larger for a popup's owner: a witness that
        popup ownership has no cycle. */
    rank: Id -> nat,
    /** `Screen::findWidget`: the deepest widget under a point, if any. */
    findWidget: Vec -> Option<Id>,
    contains: (Id, Vec) -> bool,
    absolutePosition: Id -> Vec,
    cursor: Id -> Cursor,
    keyboardEvent: (Id, KeyArgs) -> Reply,
    keyboardCharacterEvent: (Id, nat) -> Reply,
    /** `mouseButtonEvent(widget, position, button, down, modifiers)`. */
    mouseButtonEvent: (Id, Vec, nat, bool, int) -> Reply,
    /** `mouseMotionEvent(widget, position, delta, buttons, modifiers)`. */
    mouseMotionEvent: (Id, Vec, Vec, bv32, int) -> Reply,
    /** `mouseDragEvent(widget, position, delta, buttons, modifiers)`. */
    mouseDragEvent: (Id, Vec, Vec, bv32, int) -> Reply,
    scrollEvent: (Id, Vec, Vec) -> Reply,
    dropEvent: (Id, seq<string>) -> bool)

  function Parent(t: Tree, w: Id): Option<Id> {
    if w in t.parent then Some(t.parent[w]) else None
  }

  ghost predicate ParentsAcyclic(t: Tree) {
    forall c :: c in t.parent ==> t.depth(t.parent[c]) < t.depth(c)
  }

  /** `a` is a popup whose `parentWindow()` is set. */
  predicate IsOwned(t: Tree, a: Id) {
    t.role(a).Popup? && t.role(a).owner.Some?
  }

  function Owner(t: Tree, a: Id): Id
    requires IsOwned(t, a)
  {
    t.role(a).owner.value
  }

  /** `a` is a popup whose `parentWindow()` is `o`. */
  predicate OwnedBy(t: Tree, a: Id, o: Id) {
    IsOwned(t, a) && Owner(t, a) == o
  }

  ghost predicate PopupsRanked(t: Tree) {
    forall a :: IsOwned(t, a) ==> t.rank(a) < t.rank(Owner(t, a))
  }

  /** What the rest of the toolkit guarantees about the tree: the screen
      is a root and a plain widget, parent links and popup ownership are
      acyclic, and a hit other than the screen has a parent. */
  ghost predicate WellFormed(t: Tree) {
    && ScreenId !in t.parent
    && t.role(ScreenId) == Plain
    && ParentsAcyclic(t)
    && PopupsRanked(t)
    && forall p :: t.findWidget(p).Some? && t.findWidget(p).value != ScreenId ==>
         t.findWidget(p).value in t.parent
  }

  function Elems(s: seq<Id>): (r: set<Id>)
    ensures forall a {:trigger a in r} :: a in r <==> a in s
  {
    set a | a in s
  }

  lemma ElemsConcat(a: seq<Id>, b: seq<Id>)
    ensures Elems(a + b) == Elems(a) + Elems(b)
  {
    forall z | z in Elems(a + b) ensures z in Elems(a) + Elems(b) {
      assert z in a + b;
    }
  }

  /** The modal gate of the button and scroll callbacks: the focus path has
      an entry before the root, that entry is a modal window, and the
      pointer is outside it. */
  predicate ModalBlocks(t: Tree, path: seq<Id>, pos: Vec) {
    |path| > 1 && IsWindow(t.role(path[|path| - 2])) && t.role(path[|path| - 2]).modal
      && !t.contains(path[|path| - 2], pos)
  }
}
