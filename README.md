# nanogui `Screen`: input dispatch, focus and the window stack

This project models how nanogui's `Screen` (`src/screen.cpp`) turns backend
input events into calls on its widget tree, and proves properties of that
model. The `Screen` is the root of the widget tree. It owns:

- the window stack (`mChildren`, back to front);
- the focus path (`mFocusPath`, from the focused widget up to the screen);
- the drag target, the pointer position, the button mask and the modifiers;
- the framebuffer and logical sizes.

The model is imperative where the source is. `ScreenCore.Screen` is a class
with the screen's fields, and each state-changing callback is a method
with a `modifies` frame. The loops of `moveWindowToFront`, `updateFocus` and `keyboardEvent`
are `while` loops with invariants. Each method is proved against
specification functions and predicates, and the lemmas that state the
source's promises are proved about those:

- `MovedToFront` describes the window stack after `moveWindowToFront`;
- `Chain`, `LastWindow`, `Lost` and `Gained` describe the focus path and
  the notices `updateFocus` sends;
- `Route` and `KeyRoute` describe key routing;
- `WithButton` describes the button mask.

The widget tree is not part of the model. Its hit test, geometry, cursors
and event handlers are fields of `Widgets.Tree`, an oracle that every
operation receives. A handler answers `Done(consumed)` or `Threw`. `Threw`
stands for a C++ exception, which the calling callback catches. The ghost
field `sent` logs every event-handler call the screen makes on a widget,
and every call of the resize callback. That covers focus lost and gained,
key and character offers, drag and motion events, button events, scroll
and drop deliveries to the screen's own handlers, and resize calls.

Modules:

- `Seqs`: duplicate-freedom and `Without`, the erase-remove idiom.
- `Widgets`: the oracle tree, roles, replies, notices and the modal gate.
- `WindowStack`: what `moveWindowToFront` promises, including the order
  `Block` gives the brought-along popups, and the loop invariants that
  prove it.
- `Focus`: the focus path and the notices of `updateFocus`.
- `KeyRouting`: the reverse walk of `keyboardEvent` and
  `keyboardCharacterEvent`, and what it records.
- `ButtonMask`: the bits of `mMouseState`.
- `Events`: the callback each backend event becomes.
- `ScreenCore`: the `Screen` class, `onEvent` and the loops it delegates to.
- `Scenarios`: concrete stacks, a whole drag-and-release and the disposal
  of a drag target.

Several behaviours of the code are easy to misread. The model follows the
code in each:

- `resizeCallbackEvent` ignores an event only when the stored framebuffer
  size, or the new logical size, is the zero vector as a whole. One zero
  axis is not enough.
- `disposeWindow` clears the drag widget but leaves the drag flag as it
  was (see "## Findings").
- Key and character events skip the last path entry, which is the screen
  itself. They are offered to every focused entry below it, from the one
  next to the screen inward, until one consumes them.
- The focus path holds the screen itself as its last entry.
- `updateFocus` moves the outermost window of the chain to the front: the
  last window met going up from the widget, not the first.
- `moveWindowToFront` stacks the window, then the family of each of its
  popups in the order the popups had in the old stack, each family
  arranged the same way.

## Model

| member | source | states |
|---|---|---|
| ScreenCore.Screen.constructor | src/screen.cpp:167-215 | The initial state of `initialize`: sizes and visibility come from the backend; empty stack, path and notices; no drag; zero mask, modifiers and position; events switched on; no resize callback |
| ScreenCore.Screen.MoveWindowToFront | src/screen.cpp:649-669 | The new stack is `MovedToFront` of the old one. The untouched windows keep their order at the bottom. Above them comes the window's `Block`: the window, then the block of each of its popups in their old stack order. Every popup brought along is above its owner, and nothing is duplicated. Terminates because popup ownership is ranked |
| ScreenCore.BaseIndex | src/screen.cpp:655-658 | Returns the last index holding the window, or 0 when the stack does not hold it |
| ScreenCore.FindStranded | src/screen.cpp:660-667 | Finds the first index below the base that holds a popup owned by the window, or reports that there is none |
| WindowStack.PromoteInit | src/screen.cpp:650-651 | Erasing the window and pushing it on top establishes the loop invariant `Promoting` |
| WindowStack.PromoteStep | src/screen.cpp:660-665 | Moving a stranded popup to the front keeps `Promoting` and strictly shrinks the set of the window's popups still below it, the loop's measure |
| WindowStack.PromoteDone | src/screen.cpp:668 | When no popup of the window is below it, `Promoting` and `Arranged` imply `MovedToFront`, order included |
| WindowStack.OwnedIn | src/screen.cpp:660-662 | The popups of a window on a stack are exactly the stack's entries it owns (lower in rank), in stack order |
| WindowStack.ArrangeInit | src/screen.cpp:650-651 | Erasing the window and pushing it on top starts the order invariant `Arranged` with no block placed |
| WindowStack.ArrangeStep | src/screen.cpp:660-665 | Promoting the first stranded popup, whose recursive move put down its block, places that block next: the remaining stranded popups are the rest in old stack order |
| WindowStack.ArrangeBlock | src/screen.cpp:663-664 | The recursive move of a stranded popup, run on the current stack, produces the popup's block as it stood in the old stack |
| WindowStack.ArrangeHead | src/screen.cpp:660-662 | The first popup of the window found by the scan is the next one, in old stack order, whose block is not yet placed |
| WindowStack.ArrangeRest | src/screen.cpp:663-665 | Moving a popup's family out of the part below takes exactly that popup off the window's stranded popups |
| WindowStack.ArrangeDone | src/screen.cpp:668 | With no stranded popup left, the window and what is above it are the window's `Block` |
| WindowStack.FamilyUntouched | src/screen.cpp:660-665 | While the loop runs, the members of a stranded popup's block still have their popups in their old stack order |
| WindowStack.BlockSame | src/screen.cpp:649-669 | A block depends only on the stack order of its members' own popups |
| WindowStack.BlockUnder | src/screen.cpp:649-669 | Every member of a block is on the stack (or is the window) and is brought along by the window |
| WindowStack.OwnedInWithout | src/screen.cpp:650 | Erasing values and then picking a window's popups gives the same as picking them and then erasing |
| WindowStack.MovedToFrontFacts | src/screen.cpp:649-669 | After the move the stack holds the same windows plus this one; it holds this window exactly once; every popup owned by it is above it |
| WindowStack.MovedFamilyOrdered | src/screen.cpp:660-666 | After the move, every popup brought along with the window, however deep, is above its owner |
| WindowStack.MovedSplit | src/screen.cpp:650-651 | After the move, an index holds a brought-along window iff it is at or above the window, and no window is gained or lost apart from this one |
| WindowStack.MovedToFrontKeepsStackOrdered | src/screen.cpp:649-669 | If every popup was above its owner before the move, that still holds after it |
| WindowStack.WithoutKeepsStackOrdered | src/screen.cpp:638 | Removing windows from the stack keeps every remaining popup above its owner |
| Seqs.Without | src/screen.cpp:650 | Erasing a set of values keeps exactly the other elements and never lengthens the sequence |
| Seqs.WithoutKeepsDistinct | src/screen.cpp:650 | Erasing values from a duplicate-free stack leaves it duplicate-free |
| ScreenCore.Screen.UpdateFocus | src/screen.cpp:612-631 | The new path is the ancestor chain of the widget. The old path's entries are unfocused and the new one's focused. The log gains the focus-lost notices of the old path, then focus-gained notices for the new path, root first. The outermost window of the chain is moved to the front. When the chain has no window the stack is unchanged |
| ScreenCore.Screen.ClearFocus | src/screen.cpp:613-618 | Every entry of the path loses its flag, and exactly the focused ones, in path order, are sent a focus-lost notice |
| ScreenCore.CollectChain | src/screen.cpp:619-625 | The loop collects exactly the ancestor chain and remembers its outermost window |
| ScreenCore.Screen.GainFocus | src/screen.cpp:626-627 | Every entry of the path gains the flag and is sent one focus-gained notice, from the root to the leaf |
| Focus.ChainIsAncestry | src/screen.cpp:620-625 | The chain starts at the widget, each entry is the parent of the one before, and the last entry has no parent |
| Focus.ChainUnique | src/screen.cpp:620-625 | Any sequence with that shape is the chain |
| Focus.ChainDistinct | src/screen.cpp:620-625 | No widget is on the chain twice, and no entry is deeper than the widget |
| Focus.LastWindowSpec | src/screen.cpp:622-623 | The remembered window is None iff the chain has no window; otherwise it is a window on the chain with no window beyond it |
| Focus.LostSpec | src/screen.cpp:613-617 | Focus-lost notices go exactly to the path entries that were focused, at most once each |
| Focus.GainedAt | src/screen.cpp:626-627 | One focus-gained notice per path entry, in reverse path order |
| Focus.LostAll | src/screen.cpp:613-617 | On a duplicate-free, fully focused path, every entry in path order is sent exactly one focus-lost notice |
| Focus.FocusThenClear | src/screen.cpp:612-631 | After focusing a widget's chain, clearing the focus sends a focus-lost notice to every entry of that chain exactly once, leaf first, and no focus-gained notice |
| Focus.ModalGateOnChain | src/screen.cpp:496-503 | On a focus path built from a widget, the button and scroll gates (also at 573-580) close iff the widget's ancestor just below the root is a modal window that does not contain the pointer |
| ScreenCore.Screen.DisposeWindow | src/screen.cpp:633-639 | The path is emptied iff the window is on it, with no notices. The drag widget is forgotten iff it is the window. The window is erased from the stack. The drag flag is left alone |
| ScreenCore.Screen.DisposeWindowClearingDrag | src/screen.cpp:633-639 | As `DisposeWindow`, except that disposing the drag widget also clears the drag flag, so an active drag always has a live drag widget afterwards |
| ScreenCore.Screen.KeyboardEvent | src/screen.cpp:429-437 | The answer is `KeyRoute` of the path, the flags and the key handler. The log gains one key notice for each entry in `Delivered`, in delivery order, and nothing else |
| ScreenCore.Screen.KeyboardCharacterEvent | src/screen.cpp:439-446 | The answer is `KeyRoute` of the path, the flags and the character handler. The log gains one character notice for each entry in `Delivered`, in delivery order |
| ScreenCore.Screen.RouteAlongPath | src/screen.cpp:430-433 | The reverse walk from the entry below the root computes `KeyRoute`: it stops at the first focused entry that consumes the event or throws. It records exactly the entries it offers the event to, which by `KeyLogSpec` are those of `Delivered` |
| KeyRouting.Tried | src/screen.cpp:431-433 | The receivers of a key event are focused entries below the start index |
| KeyRouting.TriedDecreasing | src/screen.cpp:431 | The receivers come in strictly decreasing index order, i.e. from the root inward |
| KeyRouting.TriedDeclined | src/screen.cpp:432-433 | Every receiver but the last declined the event |
| KeyRouting.TriedAnswer | src/screen.cpp:432-436 | The walk's answer is the last receiver's, or false when nobody received the event |
| KeyRouting.TriedSpec | src/screen.cpp:431-433 | Only focused entries below the start receive the event, in strictly decreasing index order. All but the last receiver declined it. The result is the last receiver's answer, or false when there is none |
| KeyRouting.RouteConsumed | src/screen.cpp:431-433 | The event is consumed iff some focused entry takes it after every focused entry beyond it declined |
| KeyRouting.KeyRouteSpec | src/screen.cpp:429-437 | An empty path consumes nothing. The screen (last entry) and unfocused entries never receive a key. Delivery runs strictly inward, and all receivers but the last decline. The key is consumed iff some entry below the root takes it. No focused entry below the root is skipped: one that is not delivered to lies below the last receiver, which consumed the key or threw |
| KeyRouting.TriedComplete | src/screen.cpp:431-433 | A focused entry below the start that receives nothing lies below the last receiver, and that receiver did not decline, so the walk stopped there |
| KeyRouting.DeliveredComplete | src/screen.cpp:429-437 | The same for a key event: every focused entry below the root is offered it, inward, until the walk stops at a receiver that consumes it or throws |
| KeyRouting.Notices | src/screen.cpp:431-433 | One notice per listed entry, in list order, each for that entry |
| KeyRouting.RouteLogNotices | src/screen.cpp:431-433 | What the walk records is exactly one notice per receiver in `Tried`, in delivery order |
| KeyRouting.KeyLogSpec | src/screen.cpp:429-446 | The record of a key or character event has one notice per entry in `Delivered`, the `n`-th for the `n`-th receiver |
| ScreenCore.Screen.KeyCallbackEvent | src/screen.cpp:542-550 | True iff the routed key was consumed; a throw gives false. The log gains the key notices of the walk |
| ScreenCore.Screen.CharCallbackEvent | src/screen.cpp:552-561 | True iff the routed character was consumed; a throw gives false. The log gains the character notices of the walk |
| ScreenCore.Screen.ResizeEvent | src/screen.cpp:448-454 | True iff a resize callback is installed and returns; it throws iff the callback throws; false without a callback. The log records a call of the callback iff one is installed |
| ScreenCore.Screen.ResizeCallbackEvent | src/screen.cpp:589-610 | When the stored framebuffer size or the new logical size is (0, 0), the answer is false, both sizes stay and the callback is not called. Otherwise both sizes are stored, the callback is called once with the new size iff one is installed, and the answer is true iff it runs without throwing |
| ScreenCore.Screen.ScrollCallbackEvent | src/screen.cpp:570-587 | When the entry below the root is a modal window and the pointer is outside it, the answer is false and nothing is handed on. Otherwise the scroll goes to the screen's `scrollEvent` at the pointer, once, and its answer is returned, with a throw giving false |
| ScreenCore.Screen.DropCallbackEvent | src/screen.cpp:563-568 | The file list goes to the screen's `dropEvent` once, and its answer is returned |
| ScreenCore.Screen.CursorPosCallbackEvent | src/screen.cpp:456-490 | The pointer is at the reported position minus (1, 2). Without a drag the cursor follows the hovered widget. With one, the drag widget gets the motion first, relative to its parent, and the screen's motion handler runs only if that was not consumed. A throw gives false and keeps the old position |
| ScreenCore.RelativeTo | src/screen.cpp:475-476 | A position relative to a widget's parent, plus the parent's absolute position, gives the position back |
| ScreenCore.HoverCursor | src/screen.cpp:468-473 | With a hovered widget the cursor becomes that widget's cursor; with none it is unchanged |
| ScreenCore.Screen.MouseButtonCallbackEvent | src/screen.cpp:492-540 | The modifiers are always recorded. Outside a modal window nothing else changes and the answer is false. Otherwise the button bit follows the event. A throw from the drag widget's button-up stops the rest. A press drags the widget under the pointer, or clears the focus without notices of gain when that is the screen or nothing. A release ends the drag. The answer is the screen's `mouseButtonEvent` |
| ScreenCore.Screen.DeliverButton | src/screen.cpp:510-535 | The button-up to the drag widget, then the remaining steps of the callback; a throw from the button-up leaves drag, cursor and focus as they were |
| ScreenCore.Screen.SendRelease | src/screen.cpp:510-515 | A button-up goes to the drag widget, relative to its parent, iff a drag is active, the button is released, and the widget under the pointer is not the drag widget; reports whether it threw |
| ScreenCore.Screen.FinishButton | src/screen.cpp:517-535 | Cursor update, drag bookkeeping, then the screen's own button handler, whose answer is returned |
| ScreenCore.Screen.TrackDrag | src/screen.cpp:522-532 | A press makes the hit widget the drag widget unless it is the screen, and the flag says whether there is one; without one the focus is cleared. A release clears both |
| ScreenCore.PressTarget | src/screen.cpp:523-525 | A press picks a drag widget iff something other than the screen is under the pointer, and then picks that widget |
| ButtonMask.Press | src/screen.cpp:505-506 | Setting the button's bit leaves every other bit as it was |
| ButtonMask.Lift | src/screen.cpp:507-508 | Clearing the button's bit leaves every other bit as it was |
| ButtonMask.WithButton | src/screen.cpp:505-508 | After the event, the button's bit says whether it is down, and every other bit is unchanged |
| ButtonMask.LiftUndoesPress | src/screen.cpp:505-508 | Releasing a button that was up before it was pressed restores the mask |
| Events.Dispatch | src/screen.cpp:362-427 | Nothing is dispatched while events are switched off, nor for an event kind the screen does not handle |
| ScreenCore.Screen.OnEvent | src/screen.cpp:362-427 | `Performed` of the call `Dispatch` names. Nothing changes while events are off or for an unhandled kind. Otherwise the callback's own contract holds, with its answer as the ghost `answer`, and every field outside that callback's frame keeps its value: a close changes only the visibility; key, character, scroll and drop calls change only the log; a resize changes only the sizes and the log; a motion only the cursor, pointer and log |
| ScreenCore.Screen.PerformMotion | src/screen.cpp:368-372 | A motion event does what `cursorPosCallbackEvent` does (`PointerMoved`), and nothing else changes |
| ScreenCore.Screen.PerformButton | src/screen.cpp:374-380 | A button event does what `mouseButtonCallbackEvent` does (`ButtonHandled`), and the pointer, sizes and visibility are kept |
| ScreenCore.Screen.PerformDelivery | src/screen.cpp:382-425 | Key, text, wheel and drop events do what their callbacks do, and only the log changes |
| ScreenCore.Screen.PerformWindow | src/screen.cpp:404-417 | A size change does what `resizeCallbackEvent` does; a close request hides the screen and changes nothing else |
| ScreenCore.Screen.SetVisible | src/screen.cpp:250-259 | The screen is visible afterwards iff it was asked to be |
| Scenarios.BringFirstWindowToFront | src/screen.cpp:649-669 | With windows 1, 2, 3 and popup 4 owned by window 2, moving window 1 to the front of [1, 2, 3] gives [2, 3, 1] |
| Scenarios.BringOwnerToFront | src/screen.cpp:649-669 | Moving window 2 to the front of [2, 3, 1, 4] brings its popup along and gives [3, 1, 2, 4] |
| Scenarios.BringNestedPopups | src/screen.cpp:649-669 | With popups 6 and 5 of window 7 and popup 8 of popup 6, moving window 7 to the front of [8, 6, 5, 7] gives [7, 6, 8, 5] |
| Scenarios.NestedBlock | src/screen.cpp:660-665 | That window's block on that stack is [7, 6, 8, 5] |
| Scenarios.MovedTail | src/screen.cpp:649-669 | Once the brought-along family and the part left below are known, the new stack is that part, then the window, then the rest of the family, each once |
| Scenarios.PressOver | src/screen.cpp:456-540 | Moving over a widget and pressing button 1, on a screen without focus or drag, makes that widget the drag target |
| Scenarios.ReleaseOver | src/screen.cpp:456-540 | During a drag, moving over another widget and releasing button 1 ends the drag and sends the drag target a button-up relative to its parent |
| Scenarios.DragAcross | src/screen.cpp:456-540 | On a fresh screen: move over widget a, press button 1, move over widget b, release. The drag has ended, the pointer is over b, and a was sent a button-up relative to its parent |
| Scenarios.DisposeDragTarget | src/screen.cpp:633-639 | Pressing over a window and then disposing of it leaves a drag active with no drag widget, so `DragLive` fails |
| Scenarios.DisposeDragTargetCleared | src/screen.cpp:633-639 | The same run with the corrected disposal ends the drag and keeps `DragLive` |

## Findings

| source | as written | input that shows it | evidently intended | confidence | as-written member | corrected member |
|---|---|---|---|---|---|---|
| src/screen.cpp:633-639 | `disposeWindow` sets `mDragWidget` to null but leaves `mDragActive` set, so the next pointer motion (475), or a button release over some widget (511-513), dereferences the null drag widget | press over a window, so that it becomes the drag widget, then dispose of it | disposing the drag widget also ends the drag | medium, not executed | Scenarios.DisposeDragTarget | ScreenCore.Screen.DisposeWindowClearingDrag |

## Left out

- Backend and rendering: SDL, OpenGL and NanoVG calls, drawing, tooltips, theme setup, the cursor objects (`SDL_SetCursor`), `SDL_ShowWindow`/`SDL_HideWindow` and the screen registry are not modelled. The backend's sizes and the modifier state are parameters.
- The clock: `mLastInteraction` is only written from `SDL_GetTicks`, so it is not modelled.
- Diagnostics: the `std::cerr` messages in the callbacks' catch blocks are not modelled; only the value each catch returns is.
- Pixel ratio: the division of positions and sizes by `mPixelRatio` on Windows and Linux is not modelled, and coordinates are integers. This also covers the float-to-int casts of the cursor callback.
- ScreenCore.Screen.ScrollCallbackEvent: the source takes the scroll offsets as doubles (a `Vector2f`); the model uses integers.
- `setCaption`, `setSize`, `centerWindow`, `performLayout`, the destructor and the screen's constructors other than `initialize` are not modelled. They are outside the input path.
- Widget behaviour: handler bodies are oracle functions of `Widgets.Tree`. Handlers are assumed to re-enter no screen method; for example, a `requestFocus` that calls `updateFocus` again is not modelled. `focusEvent` is assumed to be the default one, which sets or clears the flag. Reference counting (`decRef` on removal) is not modelled.
- `removeChild` in `disposeWindow` is modelled as erasing the window from the stack.
- `onEvent` passes the first byte of a text event as the code point; UTF-8 decoding is not modelled.
- No class invariant: `Screen` has no `Valid()` predicate. The facts the methods need (`Distinct(children)`, `DragLive` and, for the stack, `StackOrdered`) are separate preconditions, and that a sequence of calls keeps them is stated per operation (`MovedToFrontKeepsStackOrdered`, `WithoutKeepsStackOrdered`, the `DragLive` ensures of the button callback), not as one invariant over all call sequences.
- ScreenCore.Screen.MouseButtonCallbackEvent: requires `button < 32`. The C++ shift `1 << button` is undefined beyond that, and backends report small button numbers.
- ScreenCore.Screen.MouseButtonCallbackEvent and ScreenCore.Screen.CursorPosCallbackEvent: require `DragLive`, i.e. an active drag has a drag widget with a parent. After `disposeWindow` of the drag widget during a drag, the C++ would dereference a null pointer there (see "## Findings"); the model does not follow that path.
- ScreenCore.Screen.OnEvent: requires `DragLive` for motion and button events and `button < 32` for button events, as the callbacks it calls do.
- ScreenCore.Screen.MoveWindowToFront: requires the stack to be duplicate-free. This is an assumption about how windows are added; nothing in `Screen` enforces it. The stack's popups are assumed to have acyclic ownership (`PopupsRanked`).
- ScreenCore.Screen.UpdateFocus: when the chain has a window, it requires a duplicate-free stack and ranked popups, as `MoveWindowToFront` does.
- ScreenCore.Screen.DropCallbackEvent: an exception from `dropEvent` is not modelled. The source does not catch it there.
