/** The map from file descriptors held here to the numbers they will have in a child.
  *
  * An item whose source is -1 is no longer held (it was stolen), or stands for a destination that is
  * to be silenced.  The first half is the map as a value; the second half is the object that holds it.
  */
module FdMaps {
  import opened Common

  datatype Item = Item(source: int, dest: int)

  predicate Live(it: Item) { it.source != -1 }

  /** The descriptors held by a map, in order. */
  function Held(m: seq<Item>): seq<int> {
    if m == [] then [] else (if Live(m[0]) then [m[0].source] else []) + Held(m[1..])
  }

  /** The first item for a destination, or |m|. */
  function IndexOf(m: seq<Item>, d: int): (i: nat)
    ensures i <= |m|
    ensures i < |m| ==> m[i].dest == d
    ensures forall j :: 0 <= j < i ==> m[j].dest != d
  {
    if m == [] || m[0].dest == d then 0 else 1 + IndexOf(m[1..], d)
  }

  predicate LiveAt(m: seq<Item>, d: int) {
    exists j :: 0 <= j < |m| && m[j].dest == d && Live(m[j])
  }

  /** What every operation keeps: destinations are real descriptor numbers, and each occurs once. */
  ghost predicate WellFormed(m: seq<Item>) {
    && (forall i :: 0 <= i < |m| ==> m[i].dest >= 0)
    && (forall i, j :: 0 <= i < j < |m| ==> m[i].dest != m[j].dest)
  }

  /** The map proper: destination to source. */
  function AsMap(m: seq<Item>): map<int, int> {
    if m == [] then map[] else AsMap(m[1..])[m[0].dest := m[0].source]
  }

  // ---------- operations on values ----------

  datatype TakeResult = TakeResult(items: seq<Item>, closed: seq<int>)

  function Take(m: seq<Item>, source: int, dest: int): TakeResult {
    var i := IndexOf(m, dest);
    if i < |m| then TakeResult(m[i := Item(source, dest)], if Live(m[i]) then [m[i].source] else [])
    else TakeResult(m + [Item(source, dest)], [])
  }

  function Stolen(m: seq<Item>, i: nat): seq<Item>
    requires i < |m|
  {
    m[i := m[i].(source := -1)]
  }

  datatype Merge = Merge(ok: bool, into: seq<Item>, from: seq<Item>, closed: seq<int>)

  /** steal_from, starting at item i of `from`. */
  function StealFrom(into: seq<Item>, from: seq<Item>, i: nat): Merge
    decreases |from| - i
  {
    if i >= |from| then Merge(true, into, from, [])
    else if Live(from[i]) && LiveAt(into, from[i].dest) then Merge(false, into, from, [])
    else
      var t := Take(into, from[i].source, from[i].dest);
      var r := StealFrom(t.items, Stolen(from, i), i + 1);
      r.(closed := t.closed + r.closed)
  }

  function Max(a: int, b: int): int { if a < b then b else a }

  function MaxDest(m: seq<Item>): int {
    if m == [] then 2 else Max(MaxDest(m[..|m| - 1]), m[|m| - 1].dest)
  }

  // ---------- lemmas about a single map ----------

  lemma HeldFirst(it: Item, m: seq<Item>)
    ensures Held([it] + m) == (if Live(it) then [it.source] else []) + Held(m)
  {
    assert ([it] + m)[1..] == m;
  }

  lemma Regroup(a: seq<int>, b: seq<int>, c: seq<int>)
    ensures a + (b + c) == a + b + c
  {}

  lemma {:induction false} HeldAppend(a: seq<Item>, b: seq<Item>)
    ensures Held(a + b) == Held(a) + Held(b)
  {
    if a == [] {
      assert a + b == b;
    } else {
      HeldAppend(a[1..], b);
      HeldFirst(a[0], a[1..]);
      HeldFirst(a[0], a[1..] + b);
      assert a == [a[0]] + a[1..] && a + b == [a[0]] + (a[1..] + b);
      hide *;
      Regroup(if Live(a[0]) then [a[0].source] else [], Held(a[1..]), Held(b));
    }
  }

  /** Held are the sources other than -1. */
  lemma {:induction false} HeldAreLive(m: seq<Item>, fd: int)
    ensures fd in Held(m) <==> fd != -1 && exists k :: 0 <= k < |m| && m[k].source == fd
  {
    if m != [] {
      HeldAreLive(m[1..], fd);
      assert m == [m[0]] + m[1..];
      if k :| 0 <= k < |m| && m[k].source == fd {
        if k > 0 { assert m[1..][k - 1].source == fd; }
      }
      if k :| 0 <= k < |m[1..]| && m[1..][k].source == fd { assert m[k + 1].source == fd; }
    }
  }

  lemma HeldUpdate(m: seq<Item>, i: nat, it: Item)
    requires i < |m|
    ensures multiset(Held(m[i := it])) + (if Live(m[i]) then multiset{m[i].source} else multiset{})
         == multiset(Held(m)) + (if Live(it) then multiset{it.source} else multiset{})
  {
    assert m == m[..i] + ([m[i]] + m[i + 1..]);
    assert m[i := it] == m[..i] + ([it] + m[i + 1..]);
    HeldAppend(m[..i], [m[i]] + m[i + 1..]);
    HeldAppend(m[..i], [it] + m[i + 1..]);
    HeldAppend([m[i]], m[i + 1..]);
    HeldAppend([it], m[i + 1..]);
  }

  lemma {:induction false} AsMapKeys(m: seq<Item>, d: int)
    ensures d in AsMap(m) <==> IndexOf(m, d) < |m|
    ensures d in AsMap(m) ==> AsMap(m)[d] == m[IndexOf(m, d)].source
  {
    if m != [] && m[0].dest != d { AsMapKeys(m[1..], d); }
  }

  /** With distinct destinations, a live destination is one the map sends to a descriptor. */
  lemma LiveIsMapped(m: seq<Item>, d: int)
    requires WellFormed(m)
    ensures LiveAt(m, d) <==> d in AsMap(m) && AsMap(m)[d] != -1
  {
    AsMapKeys(m, d);
    var i := IndexOf(m, d);
    if LiveAt(m, d) {
      var j :| 0 <= j < |m| && m[j].dest == d && Live(m[j]);
      assert i == j;
    }
  }

  lemma {:induction false} AsMapUpdate(m: seq<Item>, i: nat, it: Item)
    requires i < |m| && i == IndexOf(m, it.dest)
    ensures AsMap(m[i := it]) == AsMap(m)[it.dest := it.source]
  {
    if i == 0 {
      assert m[i := it][1..] == m[1..];
    } else {
      assert m[i := it][1..] == m[1..][i - 1 := it];
      AsMapUpdate(m[1..], i - 1, it);
    }
  }

  lemma {:induction false} AsMapAppend(m: seq<Item>, it: Item)
    requires IndexOf(m, it.dest) == |m|
    ensures AsMap(m + [it]) == AsMap(m)[it.dest := it.source]
  {
    if m != [] {
      assert (m + [it])[1..] == m[1..] + [it];
      AsMapAppend(m[1..], it);
    } else {
      assert (m + [it])[1..] == [];
    }
  }

  lemma TakeConserves(m: seq<Item>, source: int, dest: int)
    ensures var t := Take(m, source, dest);
      multiset(Held(m)) + (if source != -1 then multiset{source} else multiset{})
        == multiset(Held(t.items)) + multiset(t.closed)
  {
    var i := IndexOf(m, dest);
    if i < |m| {
      HeldUpdate(m, i, Item(source, dest));
    } else {
      HeldAppend(m, [Item(source, dest)]);
      assert Held([Item(source, dest)]) == if source != -1 then [source] else [];
    }
  }

  lemma TakeUpdatesMap(m: seq<Item>, source: int, dest: int)
    ensures AsMap(Take(m, source, dest).items) == AsMap(m)[dest := source]
  {
    var i := IndexOf(m, dest);
    if i < |m| {
      AsMapUpdate(m, i, Item(source, dest));
    } else {
      AsMapAppend(m, Item(source, dest));
    }
  }

  lemma TakeKeepsForm(m: seq<Item>, source: int, dest: int)
    requires WellFormed(m) && dest >= 0
    ensures var t := Take(m, source, dest);
      && WellFormed(t.items)
      && |m| <= |t.items|
      && forall k :: 0 <= k < |m| ==> t.items[k].dest == m[k].dest
  {}

  /** Taking is an update of the finite map that closes what it replaces and loses nothing else. */
  lemma TakeIsUpdate(m: seq<Item>, source: int, dest: int)
    requires WellFormed(m) && dest >= 0
    ensures var t := Take(m, source, dest);
      && WellFormed(t.items)
      && AsMap(t.items) == AsMap(m)[dest := source]
      && multiset(Held(m)) + (if source != -1 then multiset{source} else multiset{})
           == multiset(Held(t.items)) + multiset(t.closed)
      && t.closed == (if dest in AsMap(m) && AsMap(m)[dest] != -1 then [AsMap(m)[dest]] else [])
  {
    TakeKeepsForm(m, source, dest);
    TakeConserves(m, source, dest);
    TakeUpdatesMap(m, source, dest);
    AsMapKeys(m, dest);
  }

  lemma StealKeeps(m: seq<Item>, i: nat)
    requires WellFormed(m) && i < |m|
    ensures WellFormed(Stolen(m, i)) && |Stolen(m, i)| == |m|
    ensures Stolen(m, i)[i] == Item(-1, m[i].dest) && forall k :: 0 <= k < |m| && k != i ==> Stolen(m, i)[k] == m[k]
    ensures multiset(Held(Stolen(m, i))) + (if Live(m[i]) then multiset{m[i].source} else multiset{}) == multiset(Held(m))
  {
    HeldUpdate(m, i, m[i].(source := -1));
  }

  // ---------- lemmas about merging ----------

  /** The receiver and the source keep their form, and no destination is ever forgotten. */
  lemma {:induction false} MergeKeepsForm(into: seq<Item>, from: seq<Item>, i: nat)
    requires WellFormed(into) && WellFormed(from)
    ensures var r := StealFrom(into, from, i);
      && WellFormed(r.into) && WellFormed(r.from)
      && |r.from| == |from| && (forall k :: 0 <= k < |from| ==> r.from[k].dest == from[k].dest)
      && |into| <= |r.into| && (forall k :: 0 <= k < |into| ==> r.into[k].dest == into[k].dest)
    decreases |from| - i
  {
    if i < |from| && !Blocked(into, from, i) {
      var t, from' := MergeTurn(into, from, i);
      MergeKeepsForm(t.items, from', i + 1);
    }
  }

  predicate Blocked(into: seq<Item>, from: seq<Item>, i: nat) {
    i < |from| && Live(from[i]) && LiveAt(into, from[i].dest)
  }

  /** What the closes made so far add to the rest of a merge. */
  function After(closed: seq<int>, r: Merge): Merge { r.(closed := closed + r.closed) }

  /** One turn of the merge, with everything the proofs below need to know about it. */
  lemma MergeTurn(into: seq<Item>, from: seq<Item>, i: nat) returns (t: TakeResult, from': seq<Item>)
    requires WellFormed(into) && WellFormed(from) && i < |from| && !Blocked(into, from, i)
    ensures t == Take(into, from[i].source, from[i].dest) && from' == Stolen(from, i)
    ensures StealFrom(into, from, i) == After(t.closed, StealFrom(t.items, from', i + 1))
    ensures WellFormed(t.items) && WellFormed(from') && |from'| == |from|
    ensures forall k :: 0 <= k < |from| && k != i ==> from'[k] == from[k]
    ensures from'[i] == Item(-1, from[i].dest)
    ensures |into| <= |t.items| && forall k :: 0 <= k < |into| ==> t.items[k].dest == into[k].dest
    ensures AsMap(t.items) == AsMap(into)[from[i].dest := from[i].source]
    ensures multiset(Held(into)) + multiset(Held(from))
         == multiset(Held(t.items)) + multiset(Held(from')) + multiset(t.closed)
  {
    t := Take(into, from[i].source, from[i].dest);
    from' := Stolen(from, i);
    TakeKeepsForm(into, from[i].source, from[i].dest);
    TakeUpdatesMap(into, from[i].source, from[i].dest);
    TakeConserves(into, from[i].source, from[i].dest);
    StealKeeps(from, i);
    MoveOne(multiset(Held(into)), multiset(Held(t.items)), multiset(t.closed), multiset(Held(from)), multiset(Held(from')),
            if Live(from[i]) then multiset{from[i].source} else multiset{});
  }

  lemma MoveOne(a: multiset<int>, a': multiset<int>, c: multiset<int>, b: multiset<int>, b': multiset<int>, x: multiset<int>)
    requires a + x == a' + c && b' + x == b
    ensures a + b == a' + b' + c
  {
    assert a + b == a + x + b';
  }

  /** Conservation: success or failure, every descriptor held by the two maps is afterwards held by
    * one of them or has been closed, as many times as it was held. */
  lemma {:induction false} MergeConserves(into: seq<Item>, from: seq<Item>, i: nat)
    requires WellFormed(into) && WellFormed(from)
    ensures var r := StealFrom(into, from, i);
      multiset(Held(into)) + multiset(Held(from)) == multiset(Held(r.into)) + multiset(Held(r.from)) + multiset(r.closed)
    decreases |from| - i
  {
    if i < |from| && !Blocked(into, from, i) {
      var t, from' := MergeTurn(into, from, i);
      MergeConserves(t.items, from', i + 1);
      ClosedBefore(t.closed, StealFrom(t.items, from', i + 1));
    }
  }

  lemma AfterAfter(a: seq<int>, b: seq<int>, r: Merge)
    ensures After(a, After(b, r)) == After(a + b, r)
  {
    assert a + (b + r.closed) == (a + b) + r.closed;
  }

  lemma ClosedBefore(closed: seq<int>, r: Merge)
    ensures multiset(After(closed, r).closed) == multiset(closed) + multiset(r.closed)
  {}

  /** Some destination is live on both sides, counting from item i of the source. */
  ghost predicate Collides(into: seq<Item>, from: seq<Item>, i: nat) {
    exists k :: i <= k < |from| && Live(from[k]) && LiveAt(into, from[k].dest)
  }

  /** Taking item i over cannot create or hide a collision with a later item. */
  lemma TurnKeepsCollisions(into: seq<Item>, from: seq<Item>, i: nat, into': seq<Item>, from': seq<Item>)
    requires WellFormed(into) && WellFormed(from) && WellFormed(into') && i < |from| && !Blocked(into, from, i)
    requires AsMap(into') == AsMap(into)[from[i].dest := from[i].source]
    requires |from'| == |from| && forall k :: 0 <= k < |from| && k != i ==> from'[k] == from[k]
    ensures Collides(into', from', i + 1) <==> Collides(into, from, i)
  {
    forall k | i < k < |from| ensures LiveAt(into', from[k].dest) == LiveAt(into, from[k].dest) {
      LiveIsMapped(into', from[k].dest);
      LiveIsMapped(into, from[k].dest);
    }
    if Collides(into', from', i + 1) {
      var k :| i + 1 <= k < |from'| && Live(from'[k]) && LiveAt(into', from'[k].dest);
      assert Live(from[k]) && LiveAt(into, from[k].dest);
    }
    if Collides(into, from, i) {
      var k :| i <= k < |from| && Live(from[k]) && LiveAt(into, from[k].dest);
      assert Live(from'[k]) && LiveAt(into', from'[k].dest);
    }
  }

  /** The merge fails exactly when some destination is live in both maps. */
  lemma {:induction false} MergeFailsIffCollision(into: seq<Item>, from: seq<Item>, i: nat)
    requires WellFormed(into) && WellFormed(from)
    ensures StealFrom(into, from, i).ok <==> !Collides(into, from, i)
    decreases |from| - i
  {
    if i < |from| {
      if Blocked(into, from, i) {
        assert Collides(into, from, i);
      } else {
        var t, from' := MergeTurn(into, from, i);
        TurnKeepsCollisions(into, from, i, t.items, from');
        MergeFailsIffCollision(t.items, from', i + 1);
      }
    }
  }

  /** A successful merge is an override of finite maps: the source's entry wins, a silenced one
    * included, and the source is left holding nothing. */
  lemma {:induction false} MergeIsOverride(into: seq<Item>, from: seq<Item>, i: nat)
    requires WellFormed(into) && WellFormed(from) && i <= |from|
    requires forall k :: 0 <= k < i ==> !Live(from[k])
    requires StealFrom(into, from, i).ok
    ensures var r := StealFrom(into, from, i);
      AsMap(r.into) == AsMap(into) + AsMap(from[i..]) && Held(r.from) == []
    decreases |from| - i
  {
    if i == |from| {
      NothingHeld(from);
      assert from[i..] == [];
    } else {
      var t, from' := MergeTurn(into, from, i);
      MergeIsOverride(t.items, from', i + 1);
      assert from'[i + 1..] == from[i + 1..];
      OverrideFirst(AsMap(into), from, i);
    }
  }

  lemma OverrideFirst(m: map<int, int>, from: seq<Item>, i: nat)
    requires WellFormed(from) && i < |from|
    ensures m[from[i].dest := from[i].source] + AsMap(from[i + 1..]) == m + AsMap(from[i..])
  {
    NotLater(from, i);
    assert from[i..][0] == from[i] && from[i..][1..] == from[i + 1..];
  }

  lemma NotLater(m: seq<Item>, i: nat)
    requires WellFormed(m) && i < |m|
    ensures m[i].dest !in AsMap(m[i + 1..])
  {
    AsMapKeys(m[i + 1..], m[i].dest);
  }

  /** What a successful merge closes: exactly the receiver's descriptors at destinations that the other
    * map names.  (There the other map has -1, or the merge would have failed.) */
  lemma {:induction false} MergeClosesOverridden(into: seq<Item>, from: seq<Item>, i: nat, fd: int)
    requires WellFormed(into) && WellFormed(from) && i <= |from| && StealFrom(into, from, i).ok
    ensures fd in StealFrom(into, from, i).closed <==>
              fd != -1 && exists d :: d in AsMap(from[i..]) && d in AsMap(into) && AsMap(into)[d] == fd
    decreases |from| - i
  {
    if i < |from| {
      var t, from' := MergeTurn(into, from, i);
      TakeIsUpdate(into, from[i].source, from[i].dest);
      MergeClosesOverridden(t.items, from', i + 1, fd);
      assert from'[i + 1..] == from[i + 1..];
      NotLater(from, i);
      hide StealFrom, Take, WellFormed;
      FirstOrLater(into, t.items, from, i, fd);
    }
  }

  lemma FirstOrLater(into: seq<Item>, into': seq<Item>, from: seq<Item>, i: nat, fd: int)
    requires i < |from| && from[i].dest !in AsMap(from[i + 1..])
    requires AsMap(into') == AsMap(into)[from[i].dest := from[i].source]
    ensures (exists d :: d in AsMap(from[i..]) && d in AsMap(into) && AsMap(into)[d] == fd) <==>
              (from[i].dest in AsMap(into) && AsMap(into)[from[i].dest] == fd)
              || (exists d :: d in AsMap(from[i + 1..]) && d in AsMap(into') && AsMap(into')[d] == fd)
  {
    assert from[i..][1..] == from[i + 1..] && from[i..][0] == from[i];
    var all, rest, d0 := AsMap(from[i..]), AsMap(from[i + 1..]), from[i].dest;
    forall d ensures d in all <==> d == d0 || d in rest { AsMapKeys(from[i..], d); AsMapKeys(from[i + 1..], d); }
    hide AsMap;
    var m, m' := AsMap(into), AsMap(into');
    if d :| d in all && d in m && m[d] == fd {
      if d != d0 { assert d in rest && d in m' && m'[d] == fd; }
    }
    if d :| d in rest && d in m' && m'[d] == fd {
      assert d != d0 && d in all && d in m && m[d] == fd;
    }
    if d0 in m && m[d0] == fd { assert d0 in all; }
  }

  /** One turn changes nothing about which later items will collide. */
  lemma BlockedLater(into: seq<Item>, from: seq<Item>, i: nat, into': seq<Item>, from': seq<Item>, j: nat)
    requires WellFormed(into) && WellFormed(from) && WellFormed(into') && i < j < |from|
    requires AsMap(into') == AsMap(into)[from[i].dest := from[i].source]
    requires |from'| == |from| && from'[j] == from[j]
    ensures Blocked(into', from', j) <==> Blocked(into, from, j)
  {
    LiveIsMapped(into, from[j].dest);
    LiveIsMapped(into', from[j].dest);
  }

  /** Items i to k of `from` have been merged and given up; everything else in it is as it was. */
  ghost predicate MergedUpTo(into: seq<Item>, from: seq<Item>, i: nat, k: nat, r: Merge) {
    && i <= k <= |from|
    && (r.ok <==> k == |from|)
    && AsMap(r.into) == AsMap(into) + AsMap(from[i..k])
    && |r.from| == |from|
    && forall j :: 0 <= j < |from| ==> r.from[j] == if i <= j < k then Item(-1, from[j].dest) else from[j]
  }

  lemma MergedNothing(into: seq<Item>, from: seq<Item>, k: nat)
    requires k <= |from| && (k < |from| ==> Blocked(into, from, k))
    ensures MergedUpTo(into, from, k, k, StealFrom(into, from, k))
  {
    assert from[k..k] == [] && AsMap(into) + map[] == AsMap(into);
  }

  lemma MergedOneMore(into: seq<Item>, from: seq<Item>, into': seq<Item>, from': seq<Item>, i: nat, k: nat, r: Merge, closed: seq<int>)
    requires WellFormed(from) && i < k <= |from| == |from'|
    requires AsMap(into') == AsMap(into)[from[i].dest := from[i].source]
    requires from'[i] == Item(-1, from[i].dest) && forall j :: 0 <= j < |from| && j != i ==> from'[j] == from[j]
    requires MergedUpTo(into', from', i + 1, k, r)
    ensures MergedUpTo(into, from, i, k, After(closed, r))
  {
    assert from'[i + 1..k] == from[i + 1..k];
    var front := from[..k];
    assert WellFormed(front);
    OverrideFirst(AsMap(into), front, i);
    assert front[i..] == from[i..k] && front[i + 1..] == from[i + 1..k];
  }

  /** A merge whose first collision is at k. */
  lemma {:induction false} MergeUpTo(into: seq<Item>, from: seq<Item>, i: nat, k: nat)
    requires WellFormed(into) && WellFormed(from) && i <= k <= |from|
    requires forall j :: i <= j < k ==> !Blocked(into, from, j)
    requires k < |from| ==> Blocked(into, from, k)
    ensures MergedUpTo(into, from, i, k, StealFrom(into, from, i))
    decreases k - i
  {
    hide StealFrom, MergedUpTo, Take;
    if i == k {
      MergedNothing(into, from, k);
    } else {
      var t, from' := MergeTurn(into, from, i);
      forall j | i < j < |from| ensures Blocked(t.items, from', j) <==> Blocked(into, from, j) {
        BlockedLater(into, from, i, t.items, from', j);
      }
      MergeUpTo(t.items, from', i + 1, k);
      hide WellFormed, Blocked;
      MergedOneMore(into, from, t.items, from', i, k, StealFrom(t.items, from', i + 1), t.closed);
    }
  }

  lemma {:induction false} FirstBlocked(into: seq<Item>, from: seq<Item>, i: nat) returns (k: nat)
    requires i <= |from|
    ensures i <= k <= |from| && (k < |from| ==> Blocked(into, from, k))
    ensures forall j :: i <= j < k ==> !Blocked(into, from, j)
    decreases |from| - i
  {
    if i == |from| || Blocked(into, from, i) { k := i; } else { k := FirstBlocked(into, from, i + 1); }
  }

  /** What any merge leaves, complete or not: it stops at the first item whose destination is live in
    * both maps, if there is one.  The items before it override the receiver and are given up; that item
    * and those behind it stay as they are. */
  lemma MergeStopsAtCollision(into: seq<Item>, from: seq<Item>) returns (k: nat)
    requires WellFormed(into) && WellFormed(from)
    ensures k <= |from|
    ensures k < |from| ==> from[k].source != -1 && exists j :: 0 <= j < |into| && into[j].dest == from[k].dest && into[j].source != -1
    ensures forall i, j :: 0 <= i < k && 0 <= j < |into| && into[j].dest == from[i].dest ==> from[i].source == -1 || into[j].source == -1
    ensures var r := StealFrom(into, from, 0);
      && (r.ok <==> k == |from|)
      && AsMap(r.into) == AsMap(into) + AsMap(from[..k])
      && |r.from| == |from| && r.from[k..] == from[k..]
      && forall j :: 0 <= j < k ==> r.from[j] == Item(-1, from[j].dest)
  {
    k := FirstBlocked(into, from, 0);
    MergeUpTo(into, from, 0, k);
    assert from[0..k] == from[..k];
    forall i, j | 0 <= i < k && 0 <= j < |into| && into[j].dest == from[i].dest ensures from[i].source == -1 || into[j].source == -1 {
      assert !Blocked(into, from, i);
    }
  }

  lemma {:induction false} NothingHeld(m: seq<Item>)
    requires forall k :: 0 <= k < |m| ==> !Live(m[k])
    ensures Held(m) == []
  {
    if m != [] { NothingHeld(m[1..]); }
  }

  // ---------- the largest destination ----------

  lemma {:induction false} MaxDestBounds(m: seq<Item>)
    ensures MaxDest(m) >= 2
    ensures forall k :: 0 <= k < |m| ==> m[k].dest <= MaxDest(m)
    ensures MaxDest(m) == 2 || exists k :: 0 <= k < |m| && m[k].dest == MaxDest(m)
  {
    if m != [] {
      var p := m[..|m| - 1];
      MaxDestBounds(p);
      if MaxDest(m) != 2 && MaxDest(m) == MaxDest(p) {
        var k :| 0 <= k < |p| && p[k].dest == MaxDest(p);
        assert m[k].dest == MaxDest(m);
      }
    }
  }

  /** A map with more destinations has no smaller a bound. */
  lemma MoreDests(a: seq<Item>, b: seq<Item>)
    requires AsMap(a).Keys <= AsMap(b).Keys
    ensures MaxDest(a) <= MaxDest(b)
  {
    MaxDestBounds(a);
    MaxDestBounds(b);
    if MaxDest(a) != 2 {
      var k :| 0 <= k < |a| && a[k].dest == MaxDest(a);
      AsMapKeys(a, a[k].dest);
      AsMapKeys(b, a[k].dest);
    }
  }

  /** Merging leaves the bound of the source map, which still names everything it gave away, and
    * a successful merge makes the receiver's bound cover both. */
  lemma MergeKeepsMaxDest(into: seq<Item>, from: seq<Item>)
    requires WellFormed(into) && WellFormed(from)
    ensures var r := StealFrom(into, from, 0);
      && MaxDest(r.from) == MaxDest(from)
      && (r.ok ==> MaxDest(r.into) >= MaxDest(into) && MaxDest(r.into) >= MaxDest(from))
  {
    var r := StealFrom(into, from, 0);
    MergeKeepsForm(into, from, 0);
    SameDests(r.from, from);
    if r.ok {
      MergeIsOverride(into, from, 0);
      assert from[0..] == from;
      MoreDests(into, r.into);
      MoreDests(from, r.into);
    }
  }

  lemma {:induction false} SameDests(a: seq<Item>, b: seq<Item>)
    requires |a| == |b| && forall k :: 0 <= k < |a| ==> a[k].dest == b[k].dest
    ensures MaxDest(a) == MaxDest(b)
  {
    if a != [] { SameDests(a[..|a| - 1], b[..|b| - 1]); }
  }

  // ---------- the objects ----------

  /** Where close(2) is counted. */
  class CloseLog {
    var closed: seq<int>

    constructor ()
      ensures closed == []
    {
      closed := [];
    }

    method Close(fd: int)
      modifies this
      ensures closed == old(closed) + [fd]
    {
      closed := closed + [fd];
    }
  }

  class UnixFdMap {
    const log: CloseLog
    var items: seq<Item>

    constructor (log: CloseLog)
      ensures this.log == log && items == []
    {
      this.log := log;
      items := [];
    }

    method TakeFd(source: int, dest: int)
      requires dest > -1
      modifies this, log
      ensures items == Take(old(items), source, dest).items
      ensures log.closed == old(log.closed) + Take(old(items), source, dest).closed
    {
      var i := 0;
      while i < |items|
        invariant 0 <= i <= IndexOf(items, dest)
      {
        if items[i].dest == dest {
          if items[i].source != -1 {
            log.Close(items[i].source);
          }
          items := items[i := items[i].(source := source)];
          return;
        }
        i := i + 1;
      }
      items := items + [Item(source, dest)];
    }

    method Steal(i: nat) returns (source: int, dest: int)
      requires i < |items|
      modifies this
      ensures items == Stolen(old(items), i)
      ensures source == old(items)[i].source && dest == old(items)[i].dest
    {
      dest := items[i].dest;
      source := items[i].source;
      items := items[i := items[i].(source := -1)];
    }

    /** The descriptor standing for a destination in the child, or -1. */
    method PeekForDest(dest: int) returns (source: int)
      requires WellFormed(items)
      ensures source == if dest in AsMap(items) then AsMap(items)[dest] else -1
    {
      AsMapKeys(items, dest);
      var i := 0;
      while i < |items|
        invariant 0 <= i <= IndexOf(items, dest)
      {
        if items[i].dest == dest { return items[i].source; }
        i := i + 1;
      }
      return -1;
    }

    method GetMaxDestFd() returns (max: int)
      ensures max == MaxDest(items)
    {
      max := 2;
      for i := 0 to |items|
        invariant max == MaxDest(items[..i])
      {
        assert items[..i + 1][..i] == items[..i];
        if items[i].dest > max { max := items[i].dest; }
      }
      assert items[..|items|] == items;
    }

    /** Some item here is live for this destination. */
    method IsLiveAt(dest: int) returns (found: bool)
      ensures found == LiveAt(items, dest)
    {
      var j := 0;
      while j < |items|
        invariant 0 <= j <= |items|
        invariant forall k :: 0 <= k < j ==> !(items[k].dest == dest && Live(items[k]))
      {
        if items[j].dest == dest && items[j].source != -1 { return true; }
        j := j + 1;
      }
      return false;
    }

    method MoveItem(other: UnixFdMap, i: nat)
      requires other != this && other.log == log && i < |other.items| && other.items[i].dest > -1
      modifies this, other, log
      ensures items == Take(old(items), old(other.items)[i].source, old(other.items)[i].dest).items
      ensures other.items == Stolen(old(other.items), i)
      ensures log.closed == old(log.closed) + Take(old(items), old(other.items)[i].source, old(other.items)[i].dest).closed
    {
      var source, dest := other.Steal(i);
      TakeFd(source, dest);
    }

    /** One turn of the loop below. */
    method StealItem(other: UnixFdMap, i: nat) returns (ok: bool, ghost closed: seq<int>)
      requires other != this && other.log == log && i < |other.items|
      requires WellFormed(items) && WellFormed(other.items)
      modifies this, other, log
      ensures WellFormed(items) && WellFormed(other.items) && |other.items| == |old(other.items)|
      ensures log.closed == old(log.closed) + closed
      ensures var r := StealFrom(old(items), old(other.items), i);
        if ok then r == After(closed, StealFrom(items, other.items, i + 1))
        else r == Merge(false, items, other.items, []) && closed == []
    {
      var it := other.items[i];
      closed := [];
      if it.source != -1 {
        var live := IsLiveAt(it.dest);
        if live { return false, []; }
      }
      ghost var t, from' := MergeTurn(items, other.items, i);
      MoveItem(other, i);
      return true, t.closed;
    }

    method StealFromMap(other: UnixFdMap) returns (ok: bool)
      requires other != this && other.log == log
      requires WellFormed(items) && WellFormed(other.items)
      modifies this, other, log
      ensures var r := StealFrom(old(items), old(other.items), 0);
        && ok == r.ok && items == r.into && other.items == r.from
        && log.closed == old(log.closed) + r.closed
    {
      ghost var want := StealFrom(items, other.items, 0);
      ghost var closed: seq<int> := [];
      var i := 0;
      while i < |other.items|
        invariant 0 <= i <= |other.items|
        invariant WellFormed(items) && WellFormed(other.items)
        invariant log.closed == old(log.closed) + closed
        invariant want == After(closed, StealFrom(items, other.items, i))
        decreases |other.items| - i
      {
        ghost var more;
        ok, more := StealItem(other, i);
        if !ok { return; }
        AfterAfter(closed, more, StealFrom(items, other.items, i + 1));
        closed := closed + more;
        i := i + 1;
      }
      return true;
    }

    /** Disposing of the map closes everything it still holds. */
    method Dispose()
      modifies this, log
      ensures items == [] && log.closed == old(log.closed) + Held(old(items))
    {
      ghost var closed0 := log.closed;
      for i := 0 to |items|
        invariant items == old(items)
        invariant log.closed == closed0 + Held(items[..i])
      {
        assert items[..i + 1] == items[..i] + [items[i]];
        HeldAppend(items[..i], [items[i]]);
        if items[i].source != -1 {
          log.Close(items[i].source);
        }
      }
      assert items[..|items|] == items;
      items := [];
    }
  }
}
