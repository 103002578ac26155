/** How key and character events travel along the focus path: from the
    entry just below the root inward to the focused leaf, to focused
    entries only, until one consumes the event. */
module KeyRouting {
  import opened Widgets

  /** The outcome of offering an event to `path[k-1]`, `path[k-2]`, ...,
      `path[0]`, skipping entries that are not focused. */
  function Route(path: seq<Id>, focused: set<Id>, h: Id -> Reply, k: nat): Reply
    requires k <= |path|
    decreases k
  {
    if k == 0 then Done(false)
    else if path[k - 1] !in focused then Route(path, focused, h, k - 1)
    else match h(path[k - 1])
      case Threw => Threw
      case Done(true) => Done(true)
      case Done(false) => Route(path, focused, h, k - 1)
  }

  /** The indices of the entries that receive the event, in delivery
      order: only focused entries below index `k`. */
  function Tried(path: seq<Id>, focused: set<Id>, h: Id -> Reply, k: nat): (r: seq<nat>)
    requires k <= |path|
    ensures forall n :: 0 <= n < |r| ==> r[n] < k && path[r[n]] in focused
    decreases k
  {
    if k == 0 then []
    else if path[k - 1] !in focused then Tried(path, focused, h, k - 1)
    else if h(path[k - 1]) == Done(false) then [k - 1] + Tried(path, focused, h, k - 1)
    else [k - 1]
  }

  /** The receivers come in strictly decreasing index order. */
  lemma {:induction false} TriedDecreasing(path: seq<Id>, focused: set<Id>, h: Id -> Reply, k: nat)
    requires k <= |path|
    ensures forall n, m :: 0 <= n < m < |Tried(path, focused, h, k)| ==>
      Tried(path, focused, h, k)[n] > Tried(path, focused, h, k)[m]
    decreases k
  {
    if k > 0 {
      TriedDecreasing(path, focused, h, k - 1);
      var rest := Tried(path, focused, h, k - 1);
      if path[k - 1] in focused && h(path[k - 1]) == Done(false) {
        var tr := [k - 1] + rest;
        forall n, m | 0 <= n < m < |tr| ensures tr[n] > tr[m] {
          assert tr[m] == rest[m - 1];
        }
      }
    }
  }

  /** Every receiver but the last declined the event. */
  lemma {:induction false} TriedDeclined(path: seq<Id>, focused: set<Id>, h: Id -> Reply, k: nat)
    requires k <= |path|
    ensures forall n :: 0 <= n < |Tried(path, focused, h, k)| - 1 ==>
      h(path[Tried(path, focused, h, k)[n]]) == Done(false)
    decreases k
  {
    if k > 0 {
      TriedDeclined(path, focused, h, k - 1);
      var rest := Tried(path, focused, h, k - 1);
      if path[k - 1] in focused && h(path[k - 1]) == Done(false) {
        var tr := [k - 1] + rest;
        forall n | 0 <= n < |tr| - 1 ensures h(path[tr[n]]) == Done(false) {
          if n > 0 {
            assert tr[n] == rest[n - 1];
          }
        }
      }
    }
  }

  /** The result of the walk is the last receiver's answer, false when
      nobody received the event. */
  lemma {:induction false} TriedAnswer(path: seq<Id>, focused: set<Id>, h: Id -> Reply, k: nat)
    requires k <= |path|
    ensures Route(path, focused, h, k) ==
      var tr := Tried(path, focused, h, k);
      if tr == [] then Done(false)
      else if h(path[tr[|tr| - 1]]) == Done(false) then Done(false)
      else h(path[tr[|tr| - 1]])
    decreases k
  {
    if k > 0 {
      TriedAnswer(path, focused, h, k - 1);
      var rest := Tried(path, focused, h, k - 1);
      if path[k - 1] in focused && h(path[k - 1]) == Done(false) {
        var tr := [k - 1] + rest;
        if rest != [] {
          assert tr[|tr| - 1] == rest[|rest| - 1];
        }
      }
    }
  }

  /** The event reaches its receivers in strictly decreasing index order; every receiver but the last declined it, and
      the result is the last receiver's answer (false when nobody got it). */
  lemma TriedSpec(path: seq<Id>, focused: set<Id>, h: Id -> Reply, k: nat)
    requires k <= |path|
    ensures forall n, m :: 0 <= n < m < |Tried(path, focused, h, k)| ==>
      Tried(path, focused, h, k)[n] > Tried(path, focused, h, k)[m]
    ensures forall n :: 0 <= n < |Tried(path, focused, h, k)| - 1 ==>
      h(path[Tried(path, focused, h, k)[n]]) == Done(false)
    ensures Route(path, focused, h, k) ==
      var tr := Tried(path, focused, h, k);
      if tr == [] then Done(false)
      else if h(path[tr[|tr| - 1]]) == Done(false) then Done(false)
      else h(path[tr[|tr| - 1]])
  {
    TriedDecreasing(path, focused, h, k);
    TriedDeclined(path, focused, h, k);
    TriedAnswer(path, focused, h, k);
  }

  /** No focused entry is skipped: a focused entry below `k` that does not
      receive the event lies below the last receiver, and that receiver
      stopped the walk by consuming the event or throwing. */
  lemma {:induction false} TriedComplete(path: seq<Id>, focused: set<Id>, h: Id -> Reply, k: nat, j: nat)
    requires k <= |path| && j < k && path[j] in focused
    requires j !in Tried(path, focused, h, k)
    ensures var tr := Tried(path, focused, h, k);
      tr != [] && j < tr[|tr| - 1] && h(path[tr[|tr| - 1]]) != Done(false)
    decreases k
  {
    var rest := Tried(path, focused, h, k - 1);
    if path[k - 1] !in focused {
      TriedComplete(path, focused, h, k - 1, j);
    } else if h(path[k - 1]) == Done(false) {
      var tr := [k - 1] + rest;
      assert Tried(path, focused, h, k) == tr;
      assert tr[0] == k - 1 && tr[1..] == rest;
      TriedComplete(path, focused, h, k - 1, j);
      assert tr[|tr| - 1] == rest[|rest| - 1];
    }
  }

  /** Entry `i` is the one that takes the event: it is focused, consumes the
      event, and every focused entry between it and index `k` declined. */
  ghost predicate Takes(path: seq<Id>, focused: set<Id>, h: Id -> Reply, i: nat, k: nat)
    requires i < k <= |path|
  {
    path[i] in focused && h(path[i]) == Done(true) &&
    forall j :: i < j < k && path[j] in focused ==> h(path[j]) == Done(false)
  }

  /** The event is consumed iff some entry below `k` takes it. */
  lemma {:induction false} RouteConsumed(path: seq<Id>, focused: set<Id>, h: Id -> Reply, k: nat)
    requires k <= |path|
    ensures Route(path, focused, h, k) == Done(true) <==>
      exists i :: 0 <= i < k && Takes(path, focused, h, i, k)
    decreases k
  {
    if k > 0 {
      RouteConsumed(path, focused, h, k - 1);
      var v := path[k - 1];
      if v in focused && h(v) == Done(true) {
        assert Takes(path, focused, h, k - 1, k);
      } else if v in focused && h(v) == Threw {
        forall i | 0 <= i < k ensures !Takes(path, focused, h, i, k) {
          if i < k - 1 {
            assert k - 1 > i && path[k - 1] in focused;
          }
        }
      } else {
        forall i | 0 <= i < k - 1 ensures Takes(path, focused, h, i, k) <==> Takes(path, focused, h, i, k - 1) {
        }
        if exists i :: 0 <= i < k && Takes(path, focused, h, i, k) {
          var i :| 0 <= i < k && Takes(path, focused, h, i, k);
          assert i < k - 1;
          assert Takes(path, focused, h, i, k - 1);
        }
        if Route(path, focused, h, k - 1) == Done(true) {
          var i :| 0 <= i < k - 1 && Takes(path, focused, h, i, k - 1);
          assert v in focused ==> h(v) == Done(false);
          assert Takes(path, focused, h, i, k);
        }
      }
    }
  }

  /** `keyboardEvent` / `keyboardCharacterEvent`: route from the entry just
      below the root; an empty path routes nothing. */
  function KeyRoute(path: seq<Id>, focused: set<Id>, h: Id -> Reply): Reply {
    if path == [] then Done(false) else Route(path, focused, h, |path| - 1)
  }

  /** The indices of the path entries a key event is delivered to, in order. */
  function Delivered(path: seq<Id>, focused: set<Id>, h: Id -> Reply): seq<nat> {
    if path == [] then [] else Tried(path, focused, h, |path| - 1)
  }

  /** The notifications the entries `idx` of `path` receive, in order. */
  function Notices(path: seq<Id>, idx: seq<nat>, note: Id -> Sent): (r: seq<Sent>)
    requires forall n :: 0 <= n < |idx| ==> idx[n] < |path|
    ensures |r| == |idx| && forall n :: 0 <= n < |r| ==> r[n] == note(path[idx[n]])
  {
    if idx == [] then [] else [note(path[idx[0]])] + Notices(path, idx[1..], note)
  }

  /** What the walk of `Route` records: `note` of every entry offered the
      event, in the order they are offered it. */
  function RouteLog(path: seq<Id>, focused: set<Id>, h: Id -> Reply, note: Id -> Sent, k: nat): seq<Sent>
    requires k <= |path|
    decreases k
  {
    if k == 0 then []
    else if path[k - 1] !in focused then RouteLog(path, focused, h, note, k - 1)
    else if h(path[k - 1]) == Done(false) then [note(path[k - 1])] + RouteLog(path, focused, h, note, k - 1)
    else [note(path[k - 1])]
  }

  /** The walk records exactly the notices of `Tried`'s receivers. */
  lemma {:induction false} RouteLogNotices(path: seq<Id>, focused: set<Id>, h: Id -> Reply, note: Id -> Sent, k: nat)
    requires k <= |path|
    ensures RouteLog(path, focused, h, note, k) == Notices(path, Tried(path, focused, h, k), note)
    decreases k
  {
    if k > 0 {
      RouteLogNotices(path, focused, h, note, k - 1);
      if path[k - 1] in focused {
        var rest := Tried(path, focused, h, k - 1);
        var tr := [k - 1] + rest;
        assert tr[1..] == rest;
        if h(path[k - 1]) == Done(false) {
          assert Tried(path, focused, h, k) == tr;
          assert Notices(path, tr, note) == [note(path[k - 1])] + Notices(path, rest, note);
        } else {
          assert Tried(path, focused, h, k) == [k - 1];
          assert [k - 1][1..] == [];
        }
      }
    }
  }

  /** What `keyboardEvent` / `keyboardCharacterEvent` record. */
  function KeyLog(path: seq<Id>, focused: set<Id>, h: Id -> Reply, note: Id -> Sent): seq<Sent> {
    if path == [] then [] else RouteLog(path, focused, h, note, |path| - 1)
  }

  /** The record of a key event holds one notice per receiver, in delivery
      order: the `n`-th notice is for the `n`-th entry `Delivered` names. */
  lemma KeyLogSpec(path: seq<Id>, focused: set<Id>, h: Id -> Reply, note: Id -> Sent)
    ensures KeyLog(path, focused, h, note) == Notices(path, Delivered(path, focused, h), note)
    ensures |KeyLog(path, focused, h, note)| == |Delivered(path, focused, h)|
    ensures forall n :: 0 <= n < |KeyLog(path, focused, h, note)| ==>
      KeyLog(path, focused, h, note)[n] == note(path[Delivered(path, focused, h)[n]])
  {
    if path != [] {
      RouteLogNotices(path, focused, h, note, |path| - 1);
    }
  }

  /** `TriedComplete` for a key event: a focused entry below the root that
      is not delivered to lies below the last receiver, which stopped the
      walk. */
  lemma DeliveredComplete(path: seq<Id>, focused: set<Id>, h: Id -> Reply)
    ensures forall j: nat :: j < |path| - 1 && path[j] in focused && j !in Delivered(path, focused, h) ==>
      var d := Delivered(path, focused, h);
      d != [] && j < d[|d| - 1] && h(path[d[|d| - 1]]) != Done(false)
  {
    forall j: nat | j < |path| - 1 && path[j] in focused && j !in Delivered(path, focused, h)
      ensures var d := Delivered(path, focused, h);
        d != [] && j < d[|d| - 1] && h(path[d[|d| - 1]]) != Done(false)
    {
      TriedComplete(path, focused, h, |path| - 1, j);
    }
  }

  /** Entry `i`, below the root, takes a key event. */
  ghost predicate TakesKey(path: seq<Id>, focused: set<Id>, h: Id -> Reply, i: nat) {
    i < |path| - 1 && Takes(path, focused, h, i, |path| - 1)
  }

  /** A key event never reaches the root (the last entry) nor an unfocused
      entry; it travels strictly inward; all receivers but the last decline
      it; it is consumed iff some entry below the root takes it; an empty
      path consumes nothing; and every focused entry below the root receives
      it unless the walk stopped at a receiver beyond that entry. */
  lemma KeyRouteSpec(path: seq<Id>, focused: set<Id>, h: Id -> Reply)
    ensures path == [] ==> KeyRoute(path, focused, h) == Done(false)
    ensures forall n :: 0 <= n < |Delivered(path, focused, h)| ==>
      Delivered(path, focused, h)[n] < |path| - 1 && path[Delivered(path, focused, h)[n]] in focused
    ensures forall n, m :: 0 <= n < m < |Delivered(path, focused, h)| ==>
      Delivered(path, focused, h)[n] > Delivered(path, focused, h)[m]
    ensures forall n :: 0 <= n < |Delivered(path, focused, h)| - 1 ==>
      h(path[Delivered(path, focused, h)[n]]) == Done(false)
    ensures KeyRoute(path, focused, h) == Done(true) <==>
      exists i: nat :: TakesKey(path, focused, h, i)
    ensures forall j: nat :: j < |path| - 1 && path[j] in focused && j !in Delivered(path, focused, h) ==>
      var d := Delivered(path, focused, h);
      d != [] && j < d[|d| - 1] && h(path[d[|d| - 1]]) != Done(false)
  {
    DeliveredComplete(path, focused, h);
    if path != [] {
      TriedSpec(path, focused, h, |path| - 1);
      var k := |path| - 1;
      RouteConsumed(path, focused, h, k);
      if Route(path, focused, h, k) == Done(true) {
        var i :| 0 <= i < k && Takes(path, focused, h, i, k);
        assert TakesKey(path, focused, h, i);
      }
      if exists i: nat :: TakesKey(path, focused, h, i) {
        var i: nat :| TakesKey(path, focused, h, i);
        assert 0 <= i < k && Takes(path, focused, h, i, k);
      }
    }
  }
}
