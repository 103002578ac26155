/** `onEvent`: which screen callback a backend event is turned into. */
module Events {
  import opened Widgets

  /** A backend input event, with what the dispatch reads of it. A button
      event carries the modifier state the backend reports when it is
      dispatched; a text event, the code of its first character. */
  datatype Event =
    | MouseMotion(x: int, y: int)
    | MouseButton(button: nat, down: bool, mods: int)
    | Key(args: KeyArgs)
    | TextInput(codepoint: nat)
    | MouseWheel(x: int, y: int, flipped: bool)
    | SizeChanged(width: int, height: int)
    | CloseRequested
    | DropFile(file: string)
    | OtherEvent

  /** A call of one of the screen's callbacks (or of `setVisible(false)`). */
  datatype Call =
    | CursorPos(x: int, y: int)
    | ButtonCall(button: nat, down: bool, mods: int)
    | KeyCall(args: KeyArgs)
    | CharCall(codepoint: nat)
    | ScrollCall(dx: int, dy: int)
    | ResizeCall
    | Hide
    | DropCall(files: seq<string>)
    | NoCall

  /** The dispatch of `onEvent`: nothing while events are switched off. */
  function Dispatch(processEvents: bool, ev: Event): (c: Call)
    ensures !processEvents ==> c == NoCall
    ensures processEvents && ev.OtherEvent? ==> c == NoCall
  {
    if !processEvents then NoCall
    else match ev
      case MouseMotion(x, y) => CursorPos(x, y)
      case MouseButton(b, down, mods) => ButtonCall(b, down, mods)
      case Key(args) => KeyCall(args)
      case TextInput(cp) => CharCall(cp)
      case MouseWheel(x, y, flipped) => if flipped then ScrollCall(-x, -y) else ScrollCall(x, y)
      case SizeChanged(_, _) => ResizeCall
      case CloseRequested => Hide
      case DropFile(f) => DropCall([f])
      case OtherEvent => NoCall
  }
}
