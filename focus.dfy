/** The focus path: the chain from the focused widget up to the root, and the
    focus notifications `updateFocus` sends. */
module Focus {
  import opened Seqs
  import opened Widgets

  /** `w, parent(w), ...` up to and including a parentless widget; empty
      for a null widget. */
  function Chain(t: Tree, w: Option<Id>): seq<Id>
    requires ParentsAcyclic(t)
    decreases if w.Some? then t.depth(w.value) + 1 else 0
  {
    match w
    case None => []
    case Some(v) => [v] + Chain(t, Parent(t, v))
  }

  /** `c` is the ancestor chain of `w`: it starts at `w`, each entry is the
      parent of the one before it, and the last has no parent. */
  ghost predicate IsChainOf(t: Tree, c: seq<Id>, w: Option<Id>) {
    match w
    case None => c == []
    case Some(v) =>
      && |c| > 0 && c[0] == v
      && (forall i :: 0 <= i < |c| - 1 ==> c[i] in t.parent && t.parent[c[i]] == c[i + 1])
      && c[|c| - 1] !in t.parent
  }

  lemma {:induction false} ChainIsAncestry(t: Tree, w: Option<Id>)
    requires ParentsAcyclic(t)
    ensures IsChainOf(t, Chain(t, w), w)
    decreases if w.Some? then t.depth(w.value) + 1 else 0
  {
    if w.Some? {
      var v := w.value;
      ChainIsAncestry(t, Parent(t, v));
      var rest := Chain(t, Parent(t, v));
      var c := [v] + rest;
      forall i | 0 <= i < |c| - 1 ensures c[i] in t.parent && t.parent[c[i]] == c[i + 1] {
        if i > 0 {
          assert c[i] == rest[i - 1] && c[i + 1] == rest[i];
        }
      }
    }
  }

  /** On a focus path built from `w`, the entry the modal gate inspects is
      the ancestor of `w` whose parent is the root: the gate closes iff
      that ancestor is a modal window not containing the pointer. */
  lemma ModalGateOnChain(t: Tree, w: Id, pos: Vec)
    requires ParentsAcyclic(t)
    ensures ModalBlocks(t, Chain(t, Some(w)), pos) <==>
      exists a :: a in Chain(t, Some(w)) && a in t.parent && t.parent[a] !in t.parent
        && IsWindow(t.role(a)) && t.role(a).modal && !t.contains(a, pos)
  {
    var c := Chain(t, Some(w));
    ChainIsAncestry(t, Some(w));
    if ModalBlocks(t, c, pos) {
      assert c[|c| - 2] in c && t.parent[c[|c| - 2]] == c[|c| - 1];
    }
    if exists a :: a in c && a in t.parent && t.parent[a] !in t.parent
        && IsWindow(t.role(a)) && t.role(a).modal && !t.contains(a, pos)
    {
      var a :| a in c && a in t.parent && t.parent[a] !in t.parent
        && IsWindow(t.role(a)) && t.role(a).modal && !t.contains(a, pos);
      var i :| 0 <= i < |c| && c[i] == a;
      assert i < |c| - 1;
      assert t.parent[a] == c[i + 1];
      assert i + 1 == |c| - 1;
    }
  }

  /** The ancestor chain is unique: any sequence with that shape is `Chain`. */
  lemma {:induction false} ChainUnique(t: Tree, c: seq<Id>, w: Option<Id>)
    requires ParentsAcyclic(t)
    requires IsChainOf(t, c, w)
    ensures c == Chain(t, w)
    decreases |c|
  {
    if w.Some? {
      var v := w.value;
      if |c| == 1 {
        assert Parent(t, v) == None;
      } else {
        assert c[0] in t.parent && t.parent[c[0]] == c[1];
        var rest := c[1..];
        forall i | 0 <= i < |rest| - 1
          ensures rest[i] in t.parent && t.parent[rest[i]] == rest[i + 1]
        {
          assert rest[i] == c[i + 1] && rest[i + 1] == c[i + 2];
        }
        ChainUnique(t, rest, Parent(t, v));
        assert c == [v] + rest;
      }
    }
  }

  /** Depths strictly decrease along the chain, so no widget is on it twice. */
  lemma {:induction false} ChainDistinct(t: Tree, w: Option<Id>)
    requires ParentsAcyclic(t)
    ensures Distinct(Chain(t, w))
    ensures forall i :: 0 <= i < |Chain(t, w)| ==> t.depth(Chain(t, w)[i]) <= (if w.Some? then t.depth(w.value) else 0)
    decreases if w.Some? then t.depth(w.value) + 1 else 0
  {
    if w.Some? {
      var v := w.value;
      ChainDistinct(t, Parent(t, v));
      var rest := Chain(t, Parent(t, v));
      forall i | 0 <= i < |rest| ensures rest[i] != v {
        assert t.depth(rest[i]) < t.depth(v);
      }
      DistinctConcat([v], rest);
    }
  }

  /** The LAST window on a chain, i.e. the outermost one: `updateFocus`
      overwrites its candidate at every window it passes. */
  function LastWindow(t: Tree, c: seq<Id>): Option<Id>
    decreases |c|
  {
    if c == [] then None
    else if IsWindow(t.role(c[|c| - 1])) then Some(c[|c| - 1])
    else LastWindow(t, c[..|c| - 1])
  }

  lemma {:induction false} LastWindowSpec(t: Tree, c: seq<Id>)
    ensures LastWindow(t, c).None? <==> forall k :: 0 <= k < |c| ==> !IsWindow(t.role(c[k]))
    ensures LastWindow(t, c).Some? ==>
      exists k :: 0 <= k < |c| && c[k] == LastWindow(t, c).value && IsWindow(t.role(c[k]))
        && forall j :: k < j < |c| ==> !IsWindow(t.role(c[j]))
    decreases |c|
  {
    if c != [] && !IsWindow(t.role(c[|c| - 1])) {
      var init := c[..|c| - 1];
      LastWindowSpec(t, init);
      if LastWindow(t, init).Some? {
        var k :| 0 <= k < |init| && init[k] == LastWindow(t, init).value && IsWindow(t.role(init[k]))
          && forall j :: k < j < |init| ==> !IsWindow(t.role(init[j]));
        assert c[k] == init[k];
        forall j | k < j < |c| ensures !IsWindow(t.role(c[j])) {
          if j < |c| - 1 {
            assert c[j] == init[j];
          }
        }
      } else {
        forall k | 0 <= k < |c| ensures !IsWindow(t.role(c[k])) {
          if k < |c| - 1 {
            assert c[k] == init[k];
          }
        }
      }
    } else if c != [] {
      assert c[|c| - 1] == LastWindow(t, c).value;
    }
  }

  /** The focus-lost notices `updateFocus` sends while emptying `path`:
      one for each entry, at its first occurrence, that was focused (the
      default `focusEvent(false)` clears the flag, so a repeated entry is
      not notified twice). */
  function Lost(path: seq<Id>, focused: set<Id>): seq<Sent>
    decreases |path|
  {
    if path == [] then []
    else
      var init := path[..|path| - 1];
      var v := path[|path| - 1];
      Lost(init, focused) + (if v in focused && v !in init then [FocusLost(v)] else [])
  }

  lemma {:induction false} LostSpec(path: seq<Id>, focused: set<Id>)
    ensures forall n :: 0 <= n < |Lost(path, focused)| ==> Lost(path, focused)[n].FocusLost?
    ensures forall v :: FocusLost(v) in Lost(path, focused) <==> v in path && v in focused
    ensures Distinct(Lost(path, focused))
    decreases |path|
  {
    if path != [] {
      var init := path[..|path| - 1];
      var v := path[|path| - 1];
      LostSpec(init, focused);
      var tail := if v in focused && v !in init then [FocusLost(v)] else [];
      assert path == init + [v];
      DistinctConcat(Lost(init, focused), tail);
      forall u ensures FocusLost(u) in Lost(path, focused) <==> u in path && u in focused {
        assert FocusLost(u) in Lost(path, focused) <==> FocusLost(u) in Lost(init, focused) || FocusLost(u) in tail;
        assert u in path <==> u in init || u == v;
      }
    }
  }

  /** The focus-gained notices sent over a new path, root first. */
  function Gained(path: seq<Id>): seq<Sent>
    decreases |path|
  {
    if path == [] then [] else Gained(path[1..]) + [FocusGained(path[0])]
  }

  lemma {:induction false} GainedAt(path: seq<Id>)
    ensures |Gained(path)| == |path|
    ensures forall n :: 0 <= n < |path| ==> Gained(path)[n] == FocusGained(path[|path| - 1 - n])
    decreases |path|
  {
    if path != [] {
      GainedAt(path[1..]);
      forall n | 0 <= n < |path| ensures Gained(path)[n] == FocusGained(path[|path| - 1 - n]) {
        if n < |path| - 1 {
          assert Gained(path)[n] == Gained(path[1..])[n];
          assert path[1..][|path| - 2 - n] == path[|path| - 1 - n];
        }
      }
    }
  }

  /** When every entry of a duplicate-free path is focused, emptying it
      sends exactly one focus-lost notice per entry, in path order. */
  lemma {:induction false} LostAll(path: seq<Id>, focused: set<Id>)
    requires Distinct(path) && forall v :: v in path ==> v in focused
    ensures |Lost(path, focused)| == |path|
    ensures forall n :: 0 <= n < |path| ==> Lost(path, focused)[n] == FocusLost(path[n])
    decreases |path|
  {
    if path != [] {
      var init := path[..|path| - 1];
      var v := path[|path| - 1];
      assert Distinct(init) by {
        forall i, j | 0 <= i < j < |init| ensures init[i] != init[j] {
          assert init[i] == path[i] && init[j] == path[j];
        }
      }
      assert v !in init by {
        forall k | 0 <= k < |init| ensures init[k] != v {
          assert init[k] == path[k];
        }
      }
      forall u | u in init ensures u in focused {
        assert u in path;
      }
      LostAll(init, focused);
      forall n | 0 <= n < |path| ensures Lost(path, focused)[n] == FocusLost(path[n]) {
        if n < |init| {
          assert path[n] == init[n];
        }
      }
    }
  }

  /** `updateFocus(w)` followed by `updateFocus(nullptr)`: the first call
      leaves every entry of the chain of `w` focused, so the second sends a
      focus-lost notice to each of them exactly once, leaf first, and no
      focus-gained notice at all. */
  lemma FocusThenClear(t: Tree, w: Option<Id>, focused: set<Id>)
    requires ParentsAcyclic(t)
    requires Elems(Chain(t, w)) <= focused
    ensures |Lost(Chain(t, w), focused)| == |Chain(t, w)|
    ensures forall n :: 0 <= n < |Chain(t, w)| ==> Lost(Chain(t, w), focused)[n] == FocusLost(Chain(t, w)[n])
    ensures Chain(t, None) == [] && Gained(Chain(t, None)) == []
  {
    ChainDistinct(t, w);
    forall v | v in Chain(t, w) ensures v in focused {
      assert v in Elems(Chain(t, w));
    }
    LostAll(Chain(t, w), focused);
  }
}
