/** Closed tabs are parked for a while, so that closing can be undone: a queue of entries, each with a
  * timer.  An entry is popped, or its timer forces the tab to quit, or the lot is disposed of.
  */
module ParkingLots {
  import opened Common

  // ---------- the lot on values ----------

  /** Entries are numbered in the order of their arrival; `pushed` has the tab of each. */
  datatype Lot = Lot(pushed: seq<nat>, parked: seq<nat>, popped: seq<nat>, quit: seq<nat>)

  datatype Op = Push(tab: nat) | Pop | Timeout(entry: nat) | Dispose

  function Position(s: seq<nat>, x: nat): (i: nat)
    ensures i <= |s| && (i < |s| ==> s[i] == x) && (i == |s| ==> x !in s)
    ensures forall j :: 0 <= j < i ==> s[j] != x
  {
    if s == [] || s[0] == x then 0 else 1 + Position(s[1..], x)
  }

  function Leave(parked: seq<nat>, entry: nat): seq<nat> {
    var i := Position(parked, entry);
    if i == |parked| then parked else parked[..i] + parked[i + 1..]
  }

  /** Only the timer of an entry that is still parked can run out. */
  predicate Enabled(l: Lot, op: Op) { op.Timeout? ==> op.entry in l.parked }

  function Apply(l: Lot, op: Op): Lot
    requires Enabled(l, op)
  {
    match op
    case Push(tab) => l.(pushed := l.pushed + [tab], parked := l.parked + [|l.pushed|])
    case Pop => if l.parked == [] then l else l.(parked := l.parked[1..], popped := l.popped + [l.parked[0]])
    case Timeout(e) => l.(parked := Leave(l.parked, e), quit := l.quit + [e])
    case Dispose => l.(parked := [], quit := l.quit + l.parked)
  }

  datatype Run = Start | Then(before: Run, op: Op)

  predicate Valid(r: Run)
    decreases r, 0
  {
    r.Then? ==> Valid(r.before) && Enabled(End(r.before), r.op)
  }

  function End(r: Run): Lot
    requires Valid(r)
    decreases r, 1
  {
    if r.Start? then Lot([], [], [], []) else Apply(End(r.before), r.op)
  }

  function Numbers(n: nat): seq<nat> { seq(n, (i: nat) => i) }

  ghost predicate Increasing(s: seq<nat>) { forall i, j :: 0 <= i < j < |s| ==> s[i] < s[j] }

  // ---------- conservation ----------

  lemma LeaveOne(parked: seq<nat>, entry: nat)
    requires entry in parked
    ensures multiset(Leave(parked, entry)) + multiset{entry} == multiset(parked)
  {
    var i := Position(parked, entry);
    assert parked == parked[..i] + [parked[i]] + parked[i + 1..];
  }

  lemma NumbersGrow(n: nat)
    ensures Numbers(n + 1) == Numbers(n) + [n]
    ensures multiset(Numbers(n + 1)) == multiset(Numbers(n)) + multiset{n}
  {
    assert Numbers(n + 1) == Numbers(n) + [n];
  }

  /** Where the entries of a lot are, with multiplicity. */
  function Everywhere(l: Lot): multiset<nat> { multiset(l.parked) + multiset(l.popped) + multiset(l.quit) }

  lemma Regroup(a: multiset<nat>, rest: multiset<nat>, b: multiset<nat>, c: multiset<nat>, e: nat)
    requires a == rest + multiset{e}
    ensures rest + (b + multiset{e}) + c == a + b + c
    ensures rest + b + (c + multiset{e}) == a + b + c
    ensures a + b + c == rest + b + c + multiset{e}
  {}

  lemma OneMore(s: seq<nat>, e: nat)
    ensures multiset(s + [e]) == multiset(s) + multiset{e}
    ensures multiset([e] + s) == multiset(s) + multiset{e}
  {}

  lemma ApplyConserves(l: Lot, op: Op)
    requires Enabled(l, op)
    ensures var l' := Apply(l, op);
      Everywhere(l') == if op.Push? then Everywhere(l) + multiset{|l.pushed|} else Everywhere(l)
  {
    hide Leave;
    var a, b, c := multiset(l.parked), multiset(l.popped), multiset(l.quit);
    match op
    case Push(_) =>
      var n: nat := |l.pushed|;
      OneMore(l.parked, n);
      Regroup(a + multiset{n}, a, b, c, n);
    case Pop =>
      if l.parked != [] {
        var e, rest := l.parked[0], l.parked[1..];
        assert l.parked == [e] + rest;
        OneMore(rest, e);
        OneMore(l.popped, e);
        Regroup(a, multiset(rest), b, c, e);
      }
    case Timeout(e) =>
      LeaveOne(l.parked, e);
      OneMore(l.quit, e);
      Regroup(a, multiset(Leave(l.parked, e)), b, c, e);
    case Dispose =>
      assert multiset(l.quit + l.parked) == c + a;
  }

  lemma OnceMore(l: Lot, op: Op)
    requires Enabled(l, op) && Everywhere(l) == multiset(Numbers(|l.pushed|))
    ensures Everywhere(Apply(l, op)) == multiset(Numbers(|Apply(l, op).pushed|))
  {
    ApplyConserves(l, op);
    NumbersGrow(|l.pushed|);
    hide Everywhere, Numbers;
  }

  /** Over every run each entry that was ever pushed is in exactly one place, once: still parked,
    * popped, or forced to quit. */
  lemma {:induction false} EachLeavesOnce(r: Run)
    requires Valid(r)
    ensures Everywhere(End(r)) == multiset(Numbers(|End(r).pushed|))
  {
    if r.Then? {
      hide Everywhere, Numbers, Apply, Enabled;
      EachLeavesOnce(r.before);
      OnceMore(End(r.before), r.op);
    }
  }

  lemma NumbersOnce(n: nat, e: nat)
    ensures multiset(Numbers(n))[e] == if e < n then 1 else 0
  {
    if n > 0 {
      NumbersOnce(n - 1, e);
      NumbersGrow(n - 1);
    }
  }

  /** So a popped entry is never forced to quit as well, and after disposal every entry has left. */
  lemma PoppedIsUnharmed(r: Run, e: nat)
    requires Valid(r) && e < |End(r).pushed|
    ensures var l := End(r);
      && multiset(l.parked)[e] + multiset(l.popped)[e] + multiset(l.quit)[e] == 1
      && (e in l.popped ==> e !in l.quit && e !in l.parked)
      && (r.Then? && r.op.Dispose? ==> (e in l.popped <==> e !in l.quit))
  {
    EachLeavesOnce(r);
    NumbersOnce(|End(r).pushed|, e);
    var l := End(r);
    assert Everywhere(l)[e] == 1;
  }

  // ---------- what each step does to the entries ----------

  /** Popping takes out exactly the entry parked longest; from an empty lot nothing comes. */
  lemma PopTakesOldest(r: Run)
    requires Valid(Then(r, Pop))
    ensures var was, now := End(r), End(Then(r, Pop));
      && now.pushed == was.pushed && now.quit == was.quit
      && if was.parked == [] then now.parked == [] && now.popped == was.popped
         else
           && [was.parked[0]] + now.parked == was.parked
           && now.popped == was.popped + [was.parked[0]]
           && was.parked[0] !in now.parked && was.parked[0] !in was.popped
           && forall e :: e in now.parked ==> was.parked[0] < e
  {
    FirstInFirstOut(r);
    var was, now := End(r), End(Then(r, Pop));
    if was.parked != [] {
      forall j | 0 <= j < |now.parked| ensures was.parked[0] < now.parked[j] { assert now.parked[j] == was.parked[j + 1]; }
      forall j | 0 <= j < |was.popped| ensures was.popped[j] < was.parked[0] {}
    }
  }

  /** So after popping twice the same entry has not come out twice: of two entries the second one comes
    * next, and of one none. */
  lemma PopTwice(r: Run)
    requires Valid(r)
    ensures var once := Then(r, Pop); var was := End(r);
      && Valid(once) && Valid(Then(once, Pop))
      && var now := End(Then(once, Pop));
      now.popped == was.popped + was.parked[..if |was.parked| < 2 then |was.parked| else 2]
  {
    var was, once := End(r), Then(r, Pop);
    assert Valid(once) && Valid(Then(once, Pop));
    PopTakesOldest(r);
    PopTakesOldest(once);
    hide End, Valid;
    if |was.parked| == 1 { assert was.parked[..1] == [was.parked[0]]; }
    if |was.parked| >= 2 { assert was.parked[..2] == [was.parked[0]] + [was.parked[1]]; }
  }

  /** Pushing parks the tab as the newest entry; a timer that runs out makes exactly its entry quit;
    * disposing makes all that are parked quit, oldest first. */
  lemma OtherSteps(r: Run, op: Op)
    requires Valid(Then(r, op))
    ensures var was, now := End(r), End(Then(r, op));
      match op
      case Push(tab) =>
        now.pushed == was.pushed + [tab] && now.parked == was.parked + [|was.pushed|]
        && now.popped == was.popped && now.quit == was.quit
      case Timeout(e) =>
        now.pushed == was.pushed && now.popped == was.popped && now.quit == was.quit + [e]
        && e in was.parked && (forall x :: x in now.parked <==> x in was.parked && x != e)
        && |now.parked| == |was.parked| - 1
      case Dispose =>
        now.pushed == was.pushed && now.popped == was.popped && now.parked == [] && now.quit == was.quit + was.parked
      case Pop => true
  {
    if op.Timeout? {
      FirstInFirstOut(r);
      LeaveExactly(End(r).parked, op.entry);
    }
  }

  lemma LeaveExactly(parked: seq<nat>, e: nat)
    requires Increasing(parked) && e in parked
    ensures |Leave(parked, e)| == |parked| - 1
    ensures forall x :: x in Leave(parked, e) <==> x in parked && x != e
  {
    var i, rest := Position(parked, e), Leave(parked, e);
    forall x | x in parked && x != e ensures x in rest {
      var k :| 0 <= k < |parked| && parked[k] == x;
      assert rest[if k < i then k else k - 1] == x;
    }
    forall k | 0 <= k < |rest| ensures rest[k] in parked && rest[k] != e {
      assert rest[k] == parked[if k < i then k else k + 1];
    }
  }

  // ---------- order ----------

  ghost predicate Ordered(l: Lot) {
    && Increasing(l.parked) && Increasing(l.popped)
    && (forall i :: 0 <= i < |l.parked| ==> l.parked[i] < |l.pushed|)
    && (forall i :: 0 <= i < |l.popped| ==> l.popped[i] < |l.pushed|)
    && (forall i, j :: 0 <= i < |l.popped| && 0 <= j < |l.parked| ==> l.popped[i] < l.parked[j])
  }

  lemma LeaveKeepsOrder(parked: seq<nat>, entry: nat)
    requires Increasing(parked)
    ensures Increasing(Leave(parked, entry))
    ensures forall e :: e in Leave(parked, entry) ==> e in parked
  {}

  lemma PopOrdered(l: Lot)
    requires Ordered(l) && l.parked != []
    ensures Ordered(Apply(l, Pop))
  {
    var l' := Apply(l, Pop);
    forall i, j | 0 <= i < |l'.popped| && 0 <= j < |l'.parked| ensures l'.popped[i] < l'.parked[j] {
      assert l'.parked[j] == l.parked[j + 1];
    }
  }

  lemma ApplyOrdered(l: Lot, op: Op)
    requires Ordered(l) && Enabled(l, op)
    ensures Ordered(Apply(l, op))
  {
    match op
    case Push(_) =>
    case Pop =>
      if l.parked != [] { PopOrdered(l); }
    case Timeout(e) =>
      LeaveKeepsOrder(l.parked, e);
      hide Leave, Increasing;
      var rest := Leave(l.parked, e);
      forall i | 0 <= i < |rest| ensures rest[i] < |l.pushed| { assert rest[i] in l.parked; }
      forall i, j | 0 <= i < |l.popped| && 0 <= j < |rest| ensures l.popped[i] < rest[j] { assert rest[j] in l.parked; }
    case Dispose =>
  }

  /** First in, first out: entries are popped in the order of arrival, and every entry still parked
    * came after all that were popped. */
  lemma {:induction false} FirstInFirstOut(r: Run)
    requires Valid(r)
    ensures Ordered(End(r))
  {
    if r.Then? {
      FirstInFirstOut(r.before);
      ApplyOrdered(End(r.before), r.op);
    }
  }

  // ---------- the code ----------

  class ParkedTab {
    var tab: Option<nat>
    var sourceId: nat
    var lot: ParkingLot?
    ghost const entry: nat
    ghost var freed: bool

    constructor (tab: nat, lot: ParkingLot, ghost entry: nat)
      ensures this.tab == Some(tab) && this.lot == lot && this.entry == entry && !freed && sourceId == 0
    {
      this.tab, this.lot, this.entry, freed, sourceId := Some(tab), lot, entry, false, 0;
    }
  }

  /** The timers that are set, each with the entry its callback will get. */
  class MainLoop {
    var timers: map<nat, ParkedTab>
    var nextId: nat

    constructor ()
      ensures timers == map[] && nextId == 1
    {
      timers, nextId := map[], 1;
    }
  }

  class ParkingLot {
    const loop: MainLoop
    var tabs: seq<ParkedTab>
    /** The tabs forced to quit, in order. */
    var forced: seq<nat>
    ghost var pushed: seq<nat>
    ghost var popped: seq<nat>
    ghost var quit: seq<nat>

    constructor (loop: MainLoop)
      requires loop.timers == map[] && loop.nextId > 0
      ensures Valid() && State() == Lot([], [], [], []) && this.loop == loop
    {
      this.loop := loop;
      tabs, forced, pushed, popped, quit := [], [], [], [], [];
    }

    ghost function State(): Lot
      reads this
    {
      Lot(pushed, Entries(tabs), popped, quit)
    }

    /** An entry in use has a live timer of its own. */
    ghost predicate Live(p: ParkedTab)
      reads this, loop, p
    {
      && 0 < p.sourceId < loop.nextId && p.sourceId in loop.timers && loop.timers[p.sourceId] == p
      && p.lot == this && !p.freed
    }

    /** Entries and live timers correspond one to one, and no timer has a freed entry. */
    ghost predicate Timed()
      reads this, loop, tabs
    {
      && (forall p :: p in tabs ==> Live(p))
      && (forall t :: t in loop.timers ==> loop.timers[t] in tabs && loop.timers[t].sourceId == t)
    }

    /** Entries stand in the order of their arrival. */
    ghost predicate Arrived()
      reads this
    {
      Increasing(Entries(tabs)) && forall i :: 0 <= i < |tabs| ==> Entries(tabs)[i] < |pushed|
    }

    /** The entry still has the tab it was pushed with. */
    ghost predicate Holds(p: ParkedTab)
      reads this, p
    {
      p.entry < |pushed| && p.tab == Some(pushed[p.entry])
    }

    /** The tabs forced to quit are those of the entries that quit. */
    ghost predicate Forced() reads this {
      |forced| == |quit| && forall i :: 0 <= i < |quit| ==> quit[i] < |pushed| && forced[i] == pushed[quit[i]]
    }

    ghost predicate Valid()
      reads this, loop, tabs
    {
      loop.nextId > 0 && Timed() && Arrived() && Forced() && forall p :: p in tabs ==> Holds(p)
    }

    method PushTab(tab: nat)
      requires Valid()
      modifies this, loop
      ensures Valid() && State() == Apply(old(State()), Push(tab))
      ensures fresh(tabs[|tabs| - 1]) && tabs[..|tabs| - 1] == old(tabs) && tabs[|tabs| - 1].tab == Some(tab)
      ensures loop.timers.Keys == old(loop.timers.Keys) + {tabs[|tabs| - 1].sourceId} && forced == old(forced)
    {
      var parked := new ParkedTab(tab, this, |pushed|);
      parked.sourceId := loop.nextId;
      loop.timers := loop.timers[loop.nextId := parked];
      loop.nextId := loop.nextId + 1;
      tabs := tabs + [parked];
      pushed := pushed + [tab];
      EntriesAppend(old(tabs), parked);
      forall p | p in old(tabs) ensures Live(p) && Holds(p) {
        assert old(Live(p) && Holds(p));
      }
      BelowAll(Entries(old(tabs)), |old(pushed)|);
      hide Live, Holds, Increasing;
    }

    /** Takes the entry at position i out of the lot; its tab, if nobody took it, may be forced to quit. */
    method Remove(parked: ParkedTab, forceQuit: bool, ghost i: nat)
      requires loop.nextId > 0 && Timed() && Arrived() && Forced()
      requires i < |tabs| && tabs[i] == parked
      requires forall p :: p in tabs && p != parked ==> Holds(p)
      requires forceQuit ==> Holds(parked)
      modifies this, loop, parked
      ensures Valid() && parked.freed && parked.sourceId == 0
      ensures tabs == old(tabs[..i] + tabs[i + 1..]) && loop.timers.Keys == old(loop.timers.Keys - {parked.sourceId})
      ensures State() == old(State()).(parked := Leave(old(Entries(tabs)), parked.entry),
                                       quit := if forceQuit then old(quit) + [parked.entry] else old(quit))
    {
      var tab := parked.tab;
      SliceOut(tabs, i);
      LeaveKeepsOrder(Entries(tabs), parked.entry);
      hide Leave;
      assert Live(parked);
      parked.tab := None;
      if parked.sourceId != 0 {
        loop.timers := loop.timers - {parked.sourceId};
        parked.sourceId := 0;
      }
      tabs := Unlinked(tabs, parked, i);
      parked.lot := null;
      parked.freed := true;
      if tab.Some? && forceQuit {
        forced := forced + [tab.value];
        quit := quit + [parked.entry];
      }
      forall p | p in tabs ensures Live(p) && Holds(p) {
        assert p in old(tabs) && p != parked;
        assert old(Live(p) && Holds(p));
      }
      StillBelow(Entries(old(tabs)), Entries(tabs), |pushed|);
      hide Live, Holds, Increasing;
    }

    /** The tab parked first comes back unharmed: its entry leaves the lot and is freed, and its timer,
      * and no other, is gone. */
    method PopTab() returns (ret: Option<nat>)
      requires Valid()
      modifies this, loop, tabs
      ensures Valid() && State() == Apply(old(State()), Pop)
      ensures ret == if old(tabs) == [] then None else Some(old(pushed)[old(tabs)[0].entry])
      ensures forced == old(forced) && pushed == old(pushed) && quit == old(quit)
      ensures old(tabs) == [] ==> tabs == [] && popped == old(popped) && loop.timers == old(loop.timers)
      ensures old(tabs) != [] ==>
                (&& tabs == old(tabs)[1..] && popped == old(popped) + [old(tabs)[0].entry]
                 && old(tabs)[0].freed && old(tabs[0].sourceId) in old(loop.timers)
                 && loop.timers.Keys == old(loop.timers.Keys - {tabs[0].sourceId}))
    {
      ret := None;
      if tabs != [] {
        var parked := tabs[0];
        assert Live(parked) && Holds(parked);
        FirstEntry(tabs);
        hide Live, Leave, Increasing, Entries;
        ret := parked.tab;
        parked.tab := None;
        Remove(parked, false, 0);
        popped := popped + [parked.entry];
      }
    }

    /** The callback of an entry's timer: the entry is in use, and its tab is forced to quit. */
    method SourceFunc(parked: ParkedTab)
      requires Valid() && parked in tabs
      modifies this, loop, parked
      ensures Enabled(old(State()), Timeout(parked.entry))
      ensures Valid() && State() == Apply(old(State()), Timeout(parked.entry))
      ensures forced == old(forced) + [old(pushed)[parked.entry]]
      ensures parked.freed && loop.timers.Keys == old(loop.timers.Keys - {parked.sourceId})
    {
      assert Live(parked) && Holds(parked);
      ghost var i :| 0 <= i < |tabs| && tabs[i] == parked;
      assert Entries(tabs)[i] == parked.entry;
      Remove(parked, true, i);
    }

    /** Forces all that is parked to quit, from the head on. */
    method DisposeAll()
      requires Valid()
      modifies this, loop, tabs
      ensures Valid() && tabs == [] && loop.timers == map[]
      ensures State() == Apply(old(State()), Dispose)
    {
      while tabs != []
        invariant Valid()
        invariant forall p :: p in tabs ==> p in old(tabs)
        invariant quit + Entries(tabs) == old(quit) + Entries(old(tabs))
        invariant pushed == old(pushed) && popped == old(popped)
        decreases |tabs|
      {
        hide Live, Leave, Increasing;
        assert tabs[0] in tabs && Holds(tabs[0]);
        FirstEntry(tabs);
        ghost var rest := Entries(tabs[1..]);
        assert quit + ([tabs[0].entry] + rest) == (quit + [tabs[0].entry]) + rest;
        Remove(tabs[0], true, 0);
      }
    }
  }

  /** What the main loop does when a timer runs out. */
  method TimerFires(loop: MainLoop, lot: ParkingLot, id: nat)
    requires lot.Valid() && lot.loop == loop && id in loop.timers
    modifies lot, loop, lot.tabs
    ensures lot.Valid() && old(loop.timers)[id].freed && id !in loop.timers
    ensures Enabled(old(lot.State()), Timeout(old(loop.timers[id]).entry))
    ensures lot.State() == Apply(old(lot.State()), Timeout(old(loop.timers[id]).entry))
  {
    var parked := loop.timers[id];
    assert lot.Live(parked) && parked.sourceId == id;
    parked.lot.SourceFunc(parked);
  }

  lemma StillBelow(s: seq<nat>, rest: seq<nat>, n: nat)
    requires (forall i :: 0 <= i < |s| ==> s[i] < n) && forall e :: e in rest ==> e in s
    ensures forall i :: 0 <= i < |rest| ==> rest[i] < n
  {
    forall i | 0 <= i < |rest| ensures rest[i] < n { assert rest[i] in s; }
  }

  lemma FirstEntry(tabs: seq<ParkedTab>)
    requires tabs != []
    ensures Entries(tabs) == [tabs[0].entry] + Entries(tabs[1..])
    ensures tabs[..0] + tabs[1..] == tabs[1..]
    ensures Leave(Entries(tabs), tabs[0].entry) == Entries(tabs[1..]) == Entries(tabs)[1..]
  {
    assert Entries(tabs)[..0] + Entries(tabs)[1..] == Entries(tabs)[1..];
  }

  /** The queue without an entry, which stands at position i. */
  method Unlinked(tabs: seq<ParkedTab>, parked: ParkedTab, ghost i: nat) returns (rest: seq<ParkedTab>)
    requires i < |tabs| && tabs[i] == parked && parked !in tabs[..i]
    ensures rest == tabs[..i] + tabs[i + 1..]
  {
    var k := 0;
    while tabs[k] != parked
      invariant k <= i
      decreases i - k
    {
      k := k + 1;
    }
    assert k == i by { assert forall j :: 0 <= j < i ==> tabs[..i][j] == tabs[j]; }
    rest := tabs[..k] + tabs[k + 1..];
  }

  lemma SliceOut(tabs: seq<ParkedTab>, i: nat)
    requires i < |tabs| && Increasing(Entries(tabs))
    ensures Entries(tabs[..i] + tabs[i + 1..]) == Leave(Entries(tabs), tabs[i].entry)
    ensures tabs[i] !in tabs[..i] && tabs[i] !in tabs[i + 1..]
    ensures forall p :: p in tabs[..i] + tabs[i + 1..] <==> p in tabs && p != tabs[i]
  {
    var rest := tabs[..i] + tabs[i + 1..];
    forall j, k | 0 <= j < k < |tabs| ensures tabs[j] != tabs[k] {
      assert Entries(tabs)[j] < Entries(tabs)[k];
    }
    assert Entries(tabs)[i] == tabs[i].entry;
    forall p | p in tabs && p != tabs[i] ensures p in rest {
      var k :| 0 <= k < |tabs| && tabs[k] == p;
      assert rest[if k < i then k else k - 1] == p;
    }
  }

  ghost function Entries(ps: seq<ParkedTab>): seq<nat> {
    seq(|ps|, (i: nat) requires i < |ps| => ps[i].entry)
  }

  lemma BelowAll(s: seq<nat>, n: nat)
    ensures (Increasing(s) && forall i :: 0 <= i < |s| ==> s[i] < n) ==>
              Increasing(s + [n]) && forall i :: 0 <= i <= |s| ==> (s + [n])[i] < n + 1
  {}

  lemma EntriesAppend(ps: seq<ParkedTab>, p: ParkedTab)
    ensures Entries(ps + [p]) == Entries(ps) + [p.entry]
  {}
}
