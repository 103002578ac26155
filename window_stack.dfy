/** The back-to-front window stack (the screen's children) and what
    `moveWindowToFront` promises about it. */
module WindowStack {
  import opened Seqs
  import opened Widgets

  /** `a` reaches `x` by following `parentWindow()` links through popups
      that are on the stack `s`: `a` is `x` or a popup moved along with `x`. */
  ghost predicate Under(t: Tree, s: set<Id>, a: Id, x: Id)
    decreases if t.rank(a) < t.rank(x) then t.rank(x) - t.rank(a) else 0
  {
    a == x ||
    (a in s && IsOwned(t, a) && t.rank(a) < t.rank(Owner(t, a)) && t.rank(a) < t.rank(x)
     && Under(t, s, Owner(t, a), x))
  }

  /** Everything that moving `x` to the front brings along: `x` and,
      recursively, the popups on the stack owned by what is brought along. */
  ghost function Moved(t: Tree, s: set<Id>, x: Id): set<Id> {
    set a | a in s && Under(t, s, a, x)
  }

  /** Every element of `b` that is in `T` has its owner earlier in `b`. */
  ghost predicate Ordered(t: Tree, b: seq<Id>, T: set<Id>) {
    forall j {:trigger b[j] in T} :: 0 <= j < |b| && b[j] in T ==>
      IsOwned(t, b[j]) && Owner(t, b[j]) in b[..j]
  }

  /** The stack invariant: every popup is above (after) its owner. */
  ghost predicate StackOrdered(t: Tree, cs: seq<Id>) {
    forall i, j :: 0 <= i < |cs| && 0 <= j < |cs| && OwnedBy(t, cs[j], cs[i]) ==> i < j
  }

  /** The popups of `o` on the stack `cs`, bottom to top. */
  ghost function OwnedIn(t: Tree, cs: seq<Id>, o: Id): (r: seq<Id>)
    ensures forall a {:trigger a in r} :: a in r <==> a in cs && OwnedBy(t, a, o) && t.rank(a) < t.rank(o)
    ensures forall i :: 0 <= i < |r| ==> r[i] in cs && OwnedBy(t, r[i], o) && t.rank(r[i]) < t.rank(o)
  {
    if cs == [] then []
    else (if OwnedBy(t, cs[0], o) && t.rank(cs[0]) < t.rank(o) then [cs[0]] else []) + OwnedIn(t, cs[1..], o)
  }

  /** The order in which `moveWindowToFront(x)` stacks `x` and what it
      brings along, judged by the stack `cs` it starts from: `x`, then, for
      each popup of `x` from the bottom of `cs` up, that popup's own block. */
  ghost function Block(t: Tree, cs: seq<Id>, x: Id): seq<Id>
    decreases t.rank(x), 1
  {
    [x] + Blocks(t, cs, OwnedIn(t, cs, x), x)
  }

  /** The blocks of the popups `ps` of `x`, one after the other. */
  ghost function Blocks(t: Tree, cs: seq<Id>, ps: seq<Id>, x: Id): seq<Id>
    requires forall i :: 0 <= i < |ps| ==> t.rank(ps[i]) < t.rank(x)
    decreases t.rank(x), 0, |ps|
  {
    if ps == [] then [] else Block(t, cs, ps[0]) + Blocks(t, cs, ps[1..], x)
  }

  /** The shape `moveWindowToFront(x)` gives the stack: the elements it does
      not move keep their order at the bottom; above them comes `x`, then
      the popups brought along, each above its owner; nothing is
      duplicated. */
  ghost predicate Promoted(t: Tree, before: seq<Id>, after: seq<Id>, x: Id) {
    var m := Moved(t, Elems(before) + {x}, x);
    var keep := Without(before, m);
    && Distinct(after)
    && |keep| < |after|
    && after[..|keep|] == keep
    && after[|keep|] == x
    && Elems(after[|keep|..]) == m
    && Ordered(t, after[|keep|..], m - {x})
  }

  /** What `moveWindowToFront(x)` does to the stack: the shape above, with
      `x` and what it brings along in the order `Block` gives. */
  ghost predicate MovedToFront(t: Tree, before: seq<Id>, after: seq<Id>, x: Id) {
    && Promoted(t, before, after, x)
    && after[|Without(before, Moved(t, Elems(before) + {x}, x))|..] == Block(t, before, x)
  }

  lemma {:induction false} UnderTrans(t: Tree, s: set<Id>, a: Id, p: Id, x: Id)
    requires PopupsRanked(t)
    requires p in s && OwnedBy(t, p, x) && Under(t, s, a, p)
    ensures Under(t, s, a, x)
    decreases if t.rank(a) < t.rank(p) then t.rank(p) - t.rank(a) else 0
  {
    if a != p {
      UnderTrans(t, s, Owner(t, a), p, x);
    }
  }

  /** A popup whose owner is brought along by `p` is brought along too. */
  lemma MovedClosed(t: Tree, s: set<Id>, p: Id, a: Id, o: Id)
    requires PopupsRanked(t)
    requires a in s && o in Moved(t, s, p) && OwnedBy(t, a, o)
    ensures a in Moved(t, s, p)
  {
    assert Under(t, s, o, p);
  }

  /** Going up from `a` through a set `d` in which every member but `x` has
      its owner: if `a` is brought along by `p`, then `p` is in `d`. */
  lemma {:induction false} UnderReaches(t: Tree, s: set<Id>, d: set<Id>, x: Id, a: Id, p: Id)
    requires forall b :: b in d && b != x ==> IsOwned(t, b) && Owner(t, b) in d
    requires a in d && Under(t, s, a, p) && t.rank(p) < t.rank(x)
    ensures p in d
    decreases if t.rank(a) < t.rank(p) then t.rank(p) - t.rank(a) else 0
  {
    if a != p {
      UnderReaches(t, s, d, x, Owner(t, a), p);
    }
  }

  /** If `d` holds `x` and every popup of the stack owned by a member of `d`,
      then `d` holds everything `x` brings along. */
  lemma {:induction false} UnderInside(t: Tree, s: set<Id>, d: set<Id>, x: Id, a: Id)
    requires x in d
    requires forall b, o :: b in s && o in d && OwnedBy(t, b, o) ==> b in d
    requires Under(t, s, a, x)
    ensures a in d
    decreases if t.rank(a) < t.rank(x) then t.rank(x) - t.rank(a) else 0
  {
    if a != x {
      UnderInside(t, s, d, x, Owner(t, a));
    }
  }

  lemma {:induction false} OrderedAppend(t: Tree, a: seq<Id>, b: seq<Id>, T: set<Id>)
    requires Ordered(t, a, T)
    requires forall j :: 0 <= j < |b| && b[j] in T ==>
      IsOwned(t, b[j]) && (Owner(t, b[j]) in a || Owner(t, b[j]) in b[..j])
    ensures Ordered(t, a + b, T)
  {
    forall j | 0 <= j < |a + b| && (a + b)[j] in T
      ensures IsOwned(t, (a + b)[j]) && Owner(t, (a + b)[j]) in (a + b)[..j]
    {
      if j < |a| {
        assert (a + b)[j] == a[j] && (a + b)[..j] == a[..j];
      } else {
        var k := j - |a|;
        assert (a + b)[j] == b[k];
        assert (a + b)[..j] == a + b[..k];
      }
    }
  }

  /** Every member of `d` other than `x` is a popup whose owner is in `d`. */
  ghost predicate UpClosed(t: Tree, d: set<Id>, x: Id) {
    forall a {:trigger IsOwned(t, a)} :: a in d && a != x ==> IsOwned(t, a) && Owner(t, a) in d
  }

  /** Every popup of `s` owned by a member of `d` other than `x` is in `d`. */
  ghost predicate DownClosed(t: Tree, s: set<Id>, d: set<Id>, x: Id) {
    forall a, o :: a in s && o in d && o != x && OwnedBy(t, a, o) ==> a in d
  }

  /** The loop state of `moveWindowToFront(x)` started on the stack `before`:
      the stack is `pre + [x] + post`; `d` is what has been brought to the
      front so far (`x` and whole popup families), `pre` is `before` without
      it, and every member of `d` in `post` is above its owner. */
  ghost predicate Promoting(t: Tree, before: seq<Id>, x: Id, s: set<Id>,
                            pre: seq<Id>, post: seq<Id>, d: set<Id>, cs: seq<Id>)
  {
    && s == Elems(before) + {x}
    && cs == pre + ([x] + post)
    && Elems(cs) == s
    && Distinct(cs)
    && pre == Without(before, d)
    && x in d && d <= Moved(t, s, x)
    && Elems([x] + post) == d
    && UpClosed(t, d, x)
    && DownClosed(t, s, d, x)
    && Ordered(t, [x] + post, d - {x})
  }

  /** The popups of `x` still below `x`: the restart loop's measure. */
  ghost function Pending(t: Tree, pre: seq<Id>, x: Id): set<Id> {
    set a | a in pre && OwnedBy(t, a, x)
  }

  /** The order part of the loop state: `post` holds the blocks of the
      first `n` popups of `x` in `before`, and the popups of `x` still in
      `pre` are exactly the remaining ones, in their order. */
  ghost predicate Arranged(t: Tree, before: seq<Id>, x: Id, pre: seq<Id>, post: seq<Id>, n: nat) {
    var o := OwnedIn(t, before, x);
    && n <= |o|
    && post == Blocks(t, before, o[..n], x)
    && OwnedIn(t, pre, x) == o[n..]
  }

  /** Erasing `x` and pushing it on top starts the loop. */
  lemma PromoteInit(t: Tree, before: seq<Id>, x: Id)
    requires Distinct(before)
    ensures Promoting(t, before, x, Elems(before) + {x}, Without(before, {x}), [], {x},
                      Without(before, {x}) + [x])
  {
    WithoutKeepsDistinct(before, {x});
    DistinctConcat(Without(before, {x}), [x]);
    assert Under(t, Elems(before) + {x}, x, x);
  }

  /** A popup family not yet brought along shares nothing with `d`. */
  lemma StepDisjoint(t: Tree, s: set<Id>, d: set<Id>, x: Id, p: Id)
    requires UpClosed(t, d, x) && p !in d && t.rank(p) < t.rank(x)
    ensures forall a :: a in d ==> a !in Moved(t, s, p)
  {
    forall a | a in d ensures a !in Moved(t, s, p) {
      if a in Moved(t, s, p) {
        UnderReaches(t, s, d, x, a, p);
      }
    }
  }

  /** Adding the family of a popup `p` of `x` keeps `d` inside the family of
      `x` and closed both ways. */
  lemma StepClosure(t: Tree, s: set<Id>, d: set<Id>, x: Id, p: Id)
    requires PopupsRanked(t)
    requires p in s && OwnedBy(t, p, x) && x in d && d <= Moved(t, s, x)
    requires UpClosed(t, d, x) && DownClosed(t, s, d, x)
    ensures d + Moved(t, s, p) <= Moved(t, s, x)
    ensures UpClosed(t, d + Moved(t, s, p), x)
    ensures DownClosed(t, s, d + Moved(t, s, p), x)
  {
    var mp := Moved(t, s, p);
    forall a | a in mp ensures a in Moved(t, s, x) {
      UnderTrans(t, s, a, p, x);
    }
    forall a | a in mp && a != x ensures IsOwned(t, a) && Owner(t, a) in d + mp {
      assert Under(t, s, a, p);
      if a != p {
        assert Under(t, s, Owner(t, a), p);
        assert Owner(t, a) in s;
      }
    }
    forall a, o | a in s && o in d + mp && o != x && OwnedBy(t, a, o) ensures a in d + mp {
      if o in mp {
        MovedClosed(t, s, p, a, o);
      }
    }
  }

  /** Stacking the family of `p` above the already-ordered top keeps every
      brought-along popup above its owner. */
  lemma StepOrder(t: Tree, top: seq<Id>, block: seq<Id>, d: set<Id>, mp: set<Id>, x: Id, p: Id)
    requires |top| > 0 && top[0] == x && Elems(top) == d && Ordered(t, top, d - {x})
    requires forall a :: a in d ==> a !in mp
    requires |block| > 0 && block[0] == p && OwnedBy(t, p, x) && Distinct(block)
    requires Elems(block) == mp && Ordered(t, block, mp - {p})
    ensures Ordered(t, top + block, (d + mp) - {x})
  {
    forall j | 0 <= j < |block| && block[j] in (d + mp) - {x}
      ensures IsOwned(t, block[j]) && (Owner(t, block[j]) in top || Owner(t, block[j]) in block[..j])
    {
      if j > 0 {
        assert block[j] in mp - {p};
      }
    }
    forall j | 0 <= j < |top| && top[j] in (d + mp) - {x}
      ensures IsOwned(t, top[j]) && Owner(t, top[j]) in top[..j]
    {
      assert top[j] in d - {x};
    }
    OrderedAppend(t, top, block, (d + mp) - {x});
  }

  /** The sequence bookkeeping of one step: erasing the family `mp` from
      `pre + [x] + post` only touches `pre`. */
  lemma StepShape(before: seq<Id>, x: Id, pre: seq<Id>, post: seq<Id>, d: set<Id>,
                  mp: set<Id>, cs: seq<Id>, cs2: seq<Id>)
    returns (pre2: seq<Id>, post2: seq<Id>)
    requires cs == pre + ([x] + post) && pre == Without(before, d) && Elems([x] + post) == d
    requires forall a :: a in d ==> a !in mp
    requires |Without(cs, mp)| < |cs2| && cs2[..|Without(cs, mp)|] == Without(cs, mp)
    ensures pre2 == Without(pre, mp) == Without(before, d + mp)
    ensures post2 == post + cs2[|Without(cs, mp)|..]
    ensures cs2 == pre2 + ([x] + post2)
  {
    var top := [x] + post;
    assert forall a :: a in top ==> a !in mp;
    WithoutDisjoint(top, mp);
    assert cs == pre + top;
    WithoutConcat(pre, top, mp);
    var keep := Without(cs, mp);
    pre2 := Without(pre, mp);
    assert keep == pre2 + top;
    var block := cs2[|keep|..];
    assert cs2 == keep + block;
    post2 := post + block;
    WithoutWithout(before, d, mp);
    Regroup(pre2, top, block);
    Regroup([x], post, block);
  }

  /** Moving one stranded popup `p` of `x` to the front keeps the loop state
      and shrinks the set of stranded popups. */
  lemma PromoteStep(t: Tree, before: seq<Id>, x: Id, s: set<Id>, pre: seq<Id>, post: seq<Id>,
                    d: set<Id>, cs: seq<Id>, p: Id, cs2: seq<Id>)
    returns (pre2: seq<Id>, post2: seq<Id>, d2: set<Id>)
    requires PopupsRanked(t)
    requires Promoting(t, before, x, s, pre, post, d, cs)
    requires p in pre && OwnedBy(t, p, x)
    requires Promoted(t, cs, cs2, p)
    ensures Promoting(t, before, x, s, pre2, post2, d2, cs2)
    ensures Pending(t, pre2, x) < Pending(t, pre, x)
    ensures pre2 == Without(pre, Moved(t, s, p))
    ensures |Without(cs, Moved(t, s, p))| <= |cs2| && post2 == post + cs2[|Without(cs, Moved(t, s, p))|..]
  {
    assert Elems(cs) + {p} == s;
    var mp := Moved(t, s, p);
    var keep := Without(cs, mp);
    StepDisjoint(t, s, d, x, p);
    StepClosure(t, s, d, x, p);
    pre2, post2 := StepShape(before, x, pre, post, d, mp, cs, cs2);
    d2 := d + mp;
    StepTop(t, s, x, post, d, cs, p, cs2);
    PendingShrinks(t, pre, pre2, x, p);
  }

  /** The top of the stack after one step: what it holds, and that it is
      still ordered. */
  lemma StepTop(t: Tree, s: set<Id>, x: Id, post: seq<Id>, d: set<Id>, cs: seq<Id>, p: Id, cs2: seq<Id>)
    requires s == Elems(cs) + {p} && Elems(cs) == s
    requires Elems([x] + post) == d && Ordered(t, [x] + post, d - {x})
    requires forall a :: a in d ==> a !in Moved(t, s, p)
    requires OwnedBy(t, p, x)
    requires Promoted(t, cs, cs2, p)
    ensures var keep := Without(cs, Moved(t, s, p));
      && |keep| <= |cs2|
      && Elems(cs2) == s
      && Elems([x] + (post + cs2[|keep|..])) == d + Moved(t, s, p)
      && Ordered(t, [x] + (post + cs2[|keep|..]), (d + Moved(t, s, p)) - {x})
  {
    var mp := Moved(t, s, p);
    var keep := Without(cs, mp);
    var block := cs2[|keep|..];
    assert cs2 == keep + block;
    assert Elems(cs2) == s by {
      ElemsConcat(keep, block);
      assert Elems(keep) == Elems(cs) - mp;
    }
    assert Elems([x] + (post + block)) == d + mp by {
      Regroup([x], post, block);
      ElemsConcat([x] + post, block);
    }
    assert Ordered(t, [x] + (post + block), (d + mp) - {x}) by {
      DistinctConcat(keep, block);
      StepOrder(t, [x] + post, block, d, mp, x, p);
      Regroup([x], post, block);
    }
  }

  /** Taking away a family that holds the pending popup `p` shrinks the
      set of pending popups. */
  lemma PendingShrinks(t: Tree, pre: seq<Id>, pre2: seq<Id>, x: Id, p: Id)
    requires p in pre && OwnedBy(t, p, x) && p !in pre2
    requires forall a :: a in pre2 ==> a in pre
    ensures Pending(t, pre2, x) < Pending(t, pre, x)
  {
    assert p in Pending(t, pre, x) && p !in Pending(t, pre2, x);
    forall a | a in Pending(t, pre2, x) ensures a in Pending(t, pre, x) {
      assert a in pre2;
    }
  }

  /** When no popup of `x` is left below it, the loop has done what
      `MovedToFront` says. */
  lemma PromoteDone(t: Tree, before: seq<Id>, x: Id, s: set<Id>, pre: seq<Id>, post: seq<Id>,
                    d: set<Id>, cs: seq<Id>, n: nat)
    requires Promoting(t, before, x, s, pre, post, d, cs)
    requires Arranged(t, before, x, pre, post, n)
    requires forall i :: 0 <= i < |pre| ==> !OwnedBy(t, pre[i], x)
    ensures MovedToFront(t, before, cs, x)
  {
    ArrangeDone(t, before, x, pre, post, n);
    var m := Moved(t, s, x);
    forall b, o | b in s && o in d && OwnedBy(t, b, o) ensures b in d {
      if o == x {
        assert b in cs;
        assert b !in pre;
      }
    }
    forall a | a in m ensures a in d {
      UnderInside(t, s, d, x, a);
    }
    assert d == m;
    assert cs == pre + ([x] + post);
    assert cs[|pre|..] == [x] + post;
  }

  /** One unfolding of `OwnedIn` on `a` and on `a + b`: both start with
      the same pick `h` of the head of `a`. */
  lemma OwnedInCons(t: Tree, a: seq<Id>, b: seq<Id>, o: Id) returns (h: seq<Id>)
    requires a != []
    ensures OwnedIn(t, a, o) == h + OwnedIn(t, a[1..], o)
    ensures OwnedIn(t, a + b, o) == h + OwnedIn(t, a[1..] + b, o)
  {
    h := if OwnedBy(t, a[0], o) && t.rank(a[0]) < t.rank(o) then [a[0]] else [];
    assert (a + b)[0] == a[0] && (a + b)[1..] == a[1..] + b;
  }

  lemma {:induction false} OwnedInConcat(t: Tree, a: seq<Id>, b: seq<Id>, o: Id)
    ensures OwnedIn(t, a + b, o) == OwnedIn(t, a, o) + OwnedIn(t, b, o)
  {
    if a != [] {
      OwnedInConcat(t, a[1..], b, o);
      var h := OwnedInCons(t, a, b, o);
      Regroup(h, OwnedIn(t, a[1..], o), OwnedIn(t, b, o));
    } else {
      assert a + b == b;
      assert OwnedIn(t, a, o) == [];
    }
  }

  lemma {:induction false} OwnedInNone(t: Tree, cs: seq<Id>, o: Id)
    requires forall i :: 0 <= i < |cs| ==> !(OwnedBy(t, cs[i], o) && t.rank(cs[i]) < t.rank(o))
    ensures OwnedIn(t, cs, o) == []
  {
    if cs != [] {
      OwnedInNone(t, cs[1..], o);
    }
  }

  /** Erasing and picking out the popups of `o` commute. */
  lemma {:induction false} OwnedInWithout(t: Tree, cs: seq<Id>, d: set<Id>, o: Id)
    ensures OwnedIn(t, Without(cs, d), o) == Without(OwnedIn(t, cs, o), d)
  {
    if cs != [] {
      OwnedInWithout(t, cs[1..], d, o);
      var head := if cs[0] in d then [] else [cs[0]];
      var pick := if OwnedBy(t, cs[0], o) && t.rank(cs[0]) < t.rank(o) then [cs[0]] else [];
      OwnedInConcat(t, head, Without(cs[1..], d), o);
      WithoutConcat(pick, OwnedIn(t, cs[1..], o), d);
      if head != [] {
        assert OwnedIn(t, head, o) == pick by {
          assert head[1..] == [];
        }
      }
      if pick != [] {
        assert pick[1..] == [];
      }
    }
  }

  lemma {:induction false} OwnedInDistinct(t: Tree, cs: seq<Id>, o: Id)
    requires Distinct(cs)
    ensures Distinct(OwnedIn(t, cs, o))
  {
    if cs != [] {
      assert Distinct(cs[1..]) by {
        forall i, j | 0 <= i < j < |cs[1..]| ensures cs[1..][i] != cs[1..][j] {
          assert cs[1..][i] == cs[i + 1] && cs[1..][j] == cs[j + 1];
        }
      }
      OwnedInDistinct(t, cs[1..], o);
      assert cs[0] !in cs[1..] by {
        forall j | 0 <= j < |cs[1..]| ensures cs[1..][j] != cs[0] {
          assert cs[1..][j] == cs[j + 1];
        }
      }
      var pick := if OwnedBy(t, cs[0], o) && t.rank(cs[0]) < t.rank(o) then [cs[0]] else [];
      DistinctConcat(pick, OwnedIn(t, cs[1..], o));
    }
  }

  /** The first popup of `x` on a stack heads `OwnedIn`. */
  lemma {:induction false} FirstOwned(t: Tree, cs: seq<Id>, x: Id, i: nat)
    requires i < |cs| && OwnedBy(t, cs[i], x) && t.rank(cs[i]) < t.rank(x)
    requires forall j :: 0 <= j < i ==> !OwnedBy(t, cs[j], x)
    ensures |OwnedIn(t, cs, x)| > 0 && OwnedIn(t, cs, x)[0] == cs[i]
  {
    if i > 0 {
      assert cs[1..][i - 1] == cs[i];
      forall j | 0 <= j < i - 1 ensures !OwnedBy(t, cs[1..][j], x) {
        assert cs[1..][j] == cs[j + 1];
      }
      FirstOwned(t, cs[1..], x, i - 1);
    }
  }

  lemma {:induction false} BlocksAppend(t: Tree, cs: seq<Id>, ps: seq<Id>, q: Id, x: Id)
    requires forall i :: 0 <= i < |ps| ==> t.rank(ps[i]) < t.rank(x)
    requires t.rank(q) < t.rank(x)
    ensures Blocks(t, cs, ps + [q], x) == Blocks(t, cs, ps, x) + Block(t, cs, q)
    decreases |ps|
  {
    if ps == [] {
      assert [q][1..] == [];
      assert ps + [q] == [q];
    } else {
      assert (ps + [q])[1..] == ps[1..] + [q];
      BlocksAppend(t, cs, ps[1..], q, x);
    }
  }

  /** Everything in the block of `p` is `p` or on the stack, and is brought
      along by `p`. */
  lemma {:induction false} BlockUnder(t: Tree, cs: seq<Id>, p: Id, s: set<Id>)
    requires PopupsRanked(t) && Elems(cs) <= s
    ensures forall o :: o in Block(t, cs, p) ==> Under(t, s, o, p) && (o == p || o in cs)
    decreases t.rank(p), 1
  {
    BlocksUnder(t, cs, OwnedIn(t, cs, p), p, s);
  }

  lemma {:induction false} BlocksUnder(t: Tree, cs: seq<Id>, ps: seq<Id>, x: Id, s: set<Id>)
    requires PopupsRanked(t) && Elems(cs) <= s
    requires forall i :: 0 <= i < |ps| ==> ps[i] in cs && OwnedBy(t, ps[i], x) && t.rank(ps[i]) < t.rank(x)
    ensures forall o :: o in Blocks(t, cs, ps, x) ==> Under(t, s, o, x) && o in cs
    decreases t.rank(x), 0, |ps|
  {
    if ps != [] {
      var q := ps[0];
      BlockUnder(t, cs, q, s);
      BlocksUnder(t, cs, ps[1..], x, s);
      assert q in Elems(cs);
      forall o | o in Block(t, cs, q) ensures Under(t, s, o, x) && o in cs {
        UnderTrans(t, s, o, q, x);
      }
    }
  }

  /** A block only depends on where its own members' popups sit. */
  lemma {:induction false} BlockSame(t: Tree, cs: seq<Id>, before: seq<Id>, p: Id)
    requires forall o :: o in Block(t, before, p) ==> OwnedIn(t, cs, o) == OwnedIn(t, before, o)
    ensures Block(t, cs, p) == Block(t, before, p)
    decreases t.rank(p), 1
  {
    assert p in Block(t, before, p);
    BlocksSame(t, cs, before, OwnedIn(t, before, p), p);
  }

  lemma {:induction false} BlocksSame(t: Tree, cs: seq<Id>, before: seq<Id>, ps: seq<Id>, x: Id)
    requires forall i :: 0 <= i < |ps| ==> t.rank(ps[i]) < t.rank(x)
    requires forall o :: o in Blocks(t, before, ps, x) ==> OwnedIn(t, cs, o) == OwnedIn(t, before, o)
    ensures Blocks(t, cs, ps, x) == Blocks(t, before, ps, x)
    decreases t.rank(x), 0, |ps|
  {
    if ps != [] {
      BlockSame(t, cs, before, ps[0]);
      BlocksSame(t, cs, before, ps[1..], x);
    }
  }

  /** During the loop, the members of the block of a stranded popup `p`
      have their popups where they were in `before`. */
  lemma FamilyUntouched(t: Tree, before: seq<Id>, x: Id, s: set<Id>, pre: seq<Id>, post: seq<Id>,
                        d: set<Id>, cs: seq<Id>, p: Id)
    requires PopupsRanked(t)
    requires Promoting(t, before, x, s, pre, post, d, cs)
    requires p in pre && OwnedBy(t, p, x)
    ensures forall o :: o in Block(t, before, p) ==> OwnedIn(t, cs, o) == OwnedIn(t, before, o)
  {
    assert p !in d && p in s;
    BlockUnder(t, before, p, s);
    StepDisjoint(t, s, d, x, p);
    forall o | o in Block(t, before, p) ensures OwnedIn(t, cs, o) == OwnedIn(t, before, o) {
      assert o in Moved(t, s, p);
      assert o !in d && t.rank(o) < t.rank(x);
      PopupsOutside(t, before, pre, [x] + post, d, x, o);
    }
  }

  /** A widget outside `d` below `x` has none of its popups in `d`, so
      erasing `d` and stacking it on top leaves its popups in order. */
  lemma PopupsOutside(t: Tree, before: seq<Id>, pre: seq<Id>, top: seq<Id>, d: set<Id>, x: Id, o: Id)
    requires UpClosed(t, d, x) && o !in d && t.rank(o) < t.rank(x)
    requires pre == Without(before, d) && Elems(top) <= d
    ensures OwnedIn(t, pre + top, o) == OwnedIn(t, before, o)
  {
    forall a | a in d ensures !(OwnedBy(t, a, o) && t.rank(a) < t.rank(o)) {
      if a != x {
        assert IsOwned(t, a) && Owner(t, a) in d;
      }
    }
    OwnedInNone(t, top, o);
    OwnedInConcat(t, pre, top, o);
    OwnedInWithout(t, before, d, o);
    WithoutDisjoint(OwnedIn(t, before, o), d);
  }

  /** A popup of `x` other than `p` is not brought along by `p`. */
  lemma OwnPopupApart(t: Tree, s: set<Id>, x: Id, p: Id, q: Id)
    requires PopupsRanked(t) && OwnedBy(t, p, x) && OwnedBy(t, q, x) && q != p && x != p
    ensures q !in Moved(t, s, p)
  {
    assert !Under(t, s, q, p);
  }

  /** Erasing `x` and pushing it on top starts the order part of the loop. */
  lemma ArrangeInit(t: Tree, before: seq<Id>, x: Id)
    ensures Arranged(t, before, x, Without(before, {x}), [], 0)
  {
    var o := OwnedIn(t, before, x);
    assert o[..0] == [] && o[0..] == o;
    OwnedInWithout(t, before, {x}, x);
    WithoutDisjoint(o, {x});
  }

  /** The recursive call on a stranded popup `p` puts down the block of `p`
      as it stood in `before`. */
  lemma ArrangeBlock(t: Tree, before: seq<Id>, x: Id, s: set<Id>, pre: seq<Id>, post: seq<Id>,
                     d: set<Id>, cs: seq<Id>, p: Id, cs2: seq<Id>)
    requires PopupsRanked(t)
    requires Promoting(t, before, x, s, pre, post, d, cs)
    requires p in pre && OwnedBy(t, p, x)
    requires MovedToFront(t, cs, cs2, p)
    ensures |Without(cs, Moved(t, s, p))| <= |cs2|
    ensures cs2[|Without(cs, Moved(t, s, p))|..] == Block(t, before, p)
    ensures Distinct(pre) && x !in pre && p in s
  {
    assert Elems(cs) + {p} == s by {
      assert p in Elems(pre + ([x] + post));
    }
    DistinctConcat(pre, [x] + post);
    FamilyUntouched(t, before, x, s, pre, post, d, cs, p);
    BlockSame(t, cs, before, p);
  }

  /** Moving the family of `p` out of `pre` takes exactly `p` off the
      popups of `x` still waiting there. */
  lemma ArrangeRest(t: Tree, s: set<Id>, x: Id, pre: seq<Id>, p: Id, rest: seq<Id>)
    requires PopupsRanked(t) && Distinct(pre) && x !in pre && p in pre && p in s && OwnedBy(t, p, x)
    requires OwnedIn(t, pre, x) == [p] + rest
    ensures OwnedIn(t, Without(pre, Moved(t, s, p)), x) == rest
  {
    var mp := Moved(t, s, p);
    assert p in mp by {
      assert Under(t, s, p, p);
    }
    OwnedInWithout(t, pre, mp, x);
    WithoutConcat([p], rest, mp);
    assert Without([p], mp) == [] by {
      assert [p][1..] == [];
    }
    OwnedInDistinct(t, pre, x);
    DistinctConcat([p], rest);
    forall q | q in rest ensures q !in mp {
      assert q in OwnedIn(t, pre, x);
      OwnPopupApart(t, s, x, p, q);
    }
    WithoutDisjoint(rest, mp);
  }

  /** Moving the first stranded popup `p` of `x`, whose block is `block`,
      appends that block. */
  lemma ArrangeStep(t: Tree, before: seq<Id>, x: Id, s: set<Id>, pre: seq<Id>, post: seq<Id>,
                    p: Id, i: nat, block: seq<Id>, n: nat)
    requires PopupsRanked(t)
    requires Arranged(t, before, x, pre, post, n)
    requires Distinct(pre) && x !in pre && p in s
    requires i < |pre| && pre[i] == p && OwnedBy(t, p, x)
    requires forall j :: 0 <= j < i ==> !OwnedBy(t, pre[j], x)
    requires block == Block(t, before, p)
    ensures Arranged(t, before, x, Without(pre, Moved(t, s, p)), post + block, n + 1)
  {
    var o := OwnedIn(t, before, x);
    ArrangeHead(t, before, x, pre, post, n, i);
    ArrangeAppend(t, before, x, post, n, block);
    ArrangeRest(t, s, x, pre, p, o[n + 1..]);
  }

  /** The first stranded popup of `x` is the next one the block needs. */
  lemma ArrangeHead(t: Tree, before: seq<Id>, x: Id, pre: seq<Id>, post: seq<Id>, n: nat, i: nat)
    requires PopupsRanked(t)
    requires Arranged(t, before, x, pre, post, n)
    requires i < |pre| && OwnedBy(t, pre[i], x)
    requires forall j :: 0 <= j < i ==> !OwnedBy(t, pre[j], x)
    ensures n < |OwnedIn(t, before, x)| && OwnedIn(t, before, x)[n] == pre[i]
    ensures OwnedIn(t, pre, x) == [pre[i]] + OwnedIn(t, before, x)[n + 1..]
  {
    var o := OwnedIn(t, before, x);
    FirstOwned(t, pre, x, i);
    assert OwnedIn(t, pre, x) == o[n..];
    assert o[n..] == [o[n]] + o[n + 1..];
  }

  lemma ArrangeAppend(t: Tree, before: seq<Id>, x: Id, post: seq<Id>, n: nat, block: seq<Id>)
    requires n < |OwnedIn(t, before, x)|
    requires post == Blocks(t, before, OwnedIn(t, before, x)[..n], x)
    requires block == Block(t, before, OwnedIn(t, before, x)[n])
    ensures post + block == Blocks(t, before, OwnedIn(t, before, x)[..n + 1], x)
  {
    var o := OwnedIn(t, before, x);
    BlocksAppend(t, before, o[..n], o[n], x);
    assert o[..n + 1] == o[..n] + [o[n]];
  }

  /** With no popup of `x` left below it, `x` and `post` form its block. */
  lemma ArrangeDone(t: Tree, before: seq<Id>, x: Id, pre: seq<Id>, post: seq<Id>, n: nat)
    requires Arranged(t, before, x, pre, post, n)
    requires forall i :: 0 <= i < |pre| ==> !OwnedBy(t, pre[i], x)
    ensures [x] + post == Block(t, before, x)
  {
    var o := OwnedIn(t, before, x);
    OwnedInNone(t, pre, x);
    assert |o[n..]| == 0;
    assert o[..n] == o;
  }

  /** Erasing elements from a stack keeps every remaining popup above its
      owner. */
  lemma {:induction false} WithoutKeepsStackOrdered(t: Tree, cs: seq<Id>, d: set<Id>)
    requires StackOrdered(t, cs)
    ensures StackOrdered(t, Without(cs, d))
  {
    if cs != [] {
      var tail := cs[1..];
      assert StackOrdered(t, tail) by {
        forall i, j | 0 <= i < |tail| && 0 <= j < |tail| && OwnedBy(t, tail[j], tail[i]) ensures i < j {
          assert tail[i] == cs[i + 1] && tail[j] == cs[j + 1];
        }
      }
      WithoutKeepsStackOrdered(t, tail, d);
      var rest := Without(tail, d);
      var head := if cs[0] in d then [] else [cs[0]];
      var r := head + rest;
      assert r == Without(cs, d);
      forall i, j | 0 <= i < |r| && 0 <= j < |r| ensures OwnedBy(t, r[j], r[i]) ==> i < j {
        if head == [] {
          assert r[i] == rest[i] && r[j] == rest[j];
        } else if j == 0 {
          assert r[0] == cs[0];
          if i == 0 {
            assert !OwnedBy(t, cs[0], cs[0]);
          } else {
            assert r[i] == rest[i - 1] && rest[i - 1] in rest;
            assert r[i] in tail;
            var k :| 0 <= k < |tail| && tail[k] == r[i];
            assert cs[k + 1] == r[i];
            assert !OwnedBy(t, cs[0], cs[k + 1]);
          }
        } else if i > 0 {
          assert r[i] == rest[i - 1] && r[j] == rest[j - 1];
        }
      }
    }
  }

  /** `moveWindowToFront` keeps the stack invariant: if every popup was
      above its owner before, every popup is above its owner after. */
  lemma MovedToFrontKeepsStackOrdered(t: Tree, before: seq<Id>, after: seq<Id>, x: Id)
    requires PopupsRanked(t) && StackOrdered(t, before) && MovedToFront(t, before, after, x)
    ensures StackOrdered(t, after)
  {
    var s := Elems(before) + {x};
    var m := Moved(t, s, x);
    var keep := Without(before, m);
    var K := |keep|;
    WithoutKeepsStackOrdered(t, before, m);
    assert forall k :: K <= k < |after| ==> after[k] in m by {
      forall k | K <= k < |after| ensures after[k] in m {
        assert after[k] == after[K..][k - K];
      }
    }
    forall i, j | 0 <= i < |after| && 0 <= j < |after| ensures OwnedBy(t, after[j], after[i]) ==> i < j {
      if OwnedBy(t, after[j], after[i]) {
        if j == K {
          assert after[i] != x by {
            assert t.rank(after[j]) < t.rank(after[i]);
          }
          assert !Under(t, s, after[i], x) by {
            assert t.rank(x) < t.rank(after[i]);
          }
          assert i < K;
        } else if j > K {
          assert after[j] != x by {
            assert after[K] == x;
          }
          var b := after[K..];
          assert b[j - K] == after[j] && b[j - K] in m - {x};
          assert Owner(t, after[j]) in b[..j - K];
          var k :| 0 <= k < j - K && b[..j - K][k] == Owner(t, after[j]);
          assert after[K + k] == after[i];
          DistinctIndex(after, K + k, i);
        } else {
          assert after[j] == keep[j] && keep[j] in keep;
          assert after[j] !in m && after[j] in s;
          var popup, owner := after[j], after[i];
          assert owner in m ==> popup in m by {
            if owner in m {
              MovedClosed(t, s, x, popup, owner);
            }
          }
          assert i < K;
          assert after[i] == keep[i];
        }
      }
    }
  }

  /** In a stack of the `Promoted` shape, an index holds a brought-along
      window iff it is at or above the position of `x`. */
  lemma MovedSplit(t: Tree, before: seq<Id>, after: seq<Id>, x: Id)
    requires Promoted(t, before, after, x)
    ensures var m := Moved(t, Elems(before) + {x}, x);
      forall k :: 0 <= k < |after| ==> (after[k] in m <==> k >= |Without(before, m)|)
    ensures Elems(after) == Elems(before) + {x}
  {
    var s := Elems(before) + {x};
    var m := Moved(t, s, x);
    var keep := Without(before, m);
    var K := |keep|;
    var b := after[K..];
    assert after == keep + b;
    SplitAt(after, keep, b, m);
    ElemsConcat(keep, b);
    assert Under(t, s, x, x);
  }

  /** A stack made of a part free of `m` and then a part holding exactly
      `m` holds a member of `m` iff the index is in the second part. */
  lemma SplitAt(after: seq<Id>, keep: seq<Id>, b: seq<Id>, m: set<Id>)
    requires after == keep + b
    requires forall a :: a in keep ==> a !in m
    requires Elems(b) == m
    ensures forall k :: 0 <= k < |after| ==> (after[k] in m <==> k >= |keep|)
  {
    forall k | 0 <= k < |after| ensures after[k] in m <==> k >= |keep| {
      if k >= |keep| {
        assert after[k] == b[k - |keep|];
      } else {
        assert after[k] == keep[k] && keep[k] in keep;
      }
    }
  }

  /** What `moveWindowToFront(x)` promises, read off `MovedToFront`: the
      stack holds the same windows plus `x`, `x` exactly once, and every
      popup of `x` above `x`. */
  lemma MovedToFrontFacts(t: Tree, before: seq<Id>, after: seq<Id>, x: Id)
    requires PopupsRanked(t) && MovedToFront(t, before, after, x)
    ensures Elems(after) == Elems(before) + {x}
    ensures x in after
    ensures forall i, j :: 0 <= i < |after| && 0 <= j < |after| && after[i] == x && after[j] == x ==> i == j
    ensures forall i, j :: 0 <= i < |after| && 0 <= j < |after| && after[i] == x && OwnedBy(t, after[j], x) ==>
      i < j
  {
    var s := Elems(before) + {x};
    var m := Moved(t, s, x);
    var K := |Without(before, m)|;
    MovedSplit(t, before, after, x);
    assert after[K] == x;
    forall i, j | 0 <= i < |after| && 0 <= j < |after| && after[i] == x && OwnedBy(t, after[j], x)
      ensures i < j
    {
      DistinctIndex(after, i, K);
      assert after[j] in s;
      assert Under(t, s, after[j], x);
      assert after[j] != x;
      assert after[j] in m;
    }
  }

  /** ... and, recursively, every popup brought along with `x` is above its
      owner. */
  lemma MovedFamilyOrdered(t: Tree, before: seq<Id>, after: seq<Id>, x: Id)
    requires MovedToFront(t, before, after, x)
    ensures forall j :: 0 <= j < |after| && after[j] != x && Under(t, Elems(before) + {x}, after[j], x) ==>
      IsOwned(t, after[j]) && Owner(t, after[j]) in after[..j]
  {
    var s := Elems(before) + {x};
    var m := Moved(t, s, x);
    var K := |Without(before, m)|;
    MovedSplit(t, before, after, x);
    var b := after[K..];
    forall j | 0 <= j < |after| && after[j] != x && Under(t, s, after[j], x)
      ensures IsOwned(t, after[j]) && Owner(t, after[j]) in after[..j]
    {
      assert after[j] in s;
      assert after[j] in m;
      assert b[j - K] == after[j] && b[j - K] in m - {x};
      var o := Owner(t, after[j]);
      assert o in b[..j - K];
      var k :| 0 <= k < j - K && b[..j - K][k] == o;
      assert after[..j][K + k] == o;
    }
  }
}
