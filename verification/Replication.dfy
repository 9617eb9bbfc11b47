/** How the client's list of containers follows the agent's: one snapshot, then deltas.
  *
  * The agent announces deltas only after it has been asked for the list.  Everything travels on one
  * first-in-first-out channel.  The state machine spans the provider, the agent's array, the channel
  * and the client's array.
  */
module Replication {
  import opened Common
  import opened Containers

  /** A container on the bus: its id and the object path it was exported at. */
  datatype Export = Export(id: string, path: nat)

  datatype Message =
    | Listed(paths: seq<nat>)
    | Changed(position: nat, removed: nat, added: seq<nat>)

  /** The agent.  Paths come from random GUIDs; `next` stands for one never used before. */
  datatype Agent = Agent(exports: seq<Export>, listed: bool, next: nat)

  function Paths(es: seq<Export>): seq<nat> {
    if es == [] then [] else [es[0].path] + Paths(es[1..])
  }

  function ExportIds(es: seq<Export>): seq<string> {
    if es == [] then [] else [es[0].id] + ExportIds(es[1..])
  }

  // ---------- the agent's callbacks ----------

  function OnSignal(a: Agent, s: Signal): Agent {
    match s
    case Added(id) => a.(exports := a.exports + [Export(id, a.next)], next := a.next + 1)
    case Removed(id) =>
      var i := IndexOfId(ExportIds(a.exports), id);
      if i < |a.exports| then a.(exports := a.exports[..i] + a.exports[i + 1..]) else a
  }

  function Announced(a: Agent, s: Signal): seq<Message> {
    if !a.listed then []
    else
      match s
      case Added(id) => [Changed(|a.exports|, 0, [a.next])]
      case Removed(id) =>
        var i := IndexOfId(ExportIds(a.exports), id);
        if i < |a.exports| then [Changed(i, 1, [])] else []
  }

  function OnSignals(a: Agent, ss: seq<Signal>): Agent
    decreases |ss|
  {
    if ss == [] then a else OnSignals(OnSignal(a, ss[0]), ss[1..])
  }

  function AllAnnounced(a: Agent, ss: seq<Signal>): seq<Message>
    decreases |ss|
  {
    if ss == [] then [] else Announced(a, ss[0]) + AllAnnounced(OnSignal(a, ss[0]), ss[1..])
  }

  function Exported(ids: seq<string>): Agent {
    OnSignals(Agent([], false, 0), Additions(ids))
  }

  function Additions(ids: seq<string>): seq<Signal> {
    if ids == [] then [] else [Added(ids[0])] + Additions(ids[1..])
  }

  // ---------- the client ----------

  function Splice<T>(s: seq<T>, position: nat, removed: nat, added: seq<T>): seq<T>
    requires position + removed <= |s|
  {
    s[..position] + added + s[position + removed..]
  }

  /** The position and the removal count are in range of the client's array. */
  predicate Applicable(client: Option<seq<nat>>, m: Message) {
    m.Changed? ==> client.Some? && m.position + m.removed <= |client.value|
  }

  function Receive(client: Option<seq<nat>>, m: Message): Option<seq<nat>>
    requires Applicable(client, m)
  {
    match m
    case Listed(paths) => Some(paths)
    case Changed(p, r, added) => Some(Splice(client.value, p, r, added))
  }

  // ---------- the system ----------

  datatype System = System(provider: seq<Container>, agent: Agent, channel: seq<Message>, client: Option<seq<nat>>)

  datatype Step = Update(containers: seq<Container>) | List | Deliver

  /** The agent starts with containers of its own and what the provider found at first. */
  function Init(base: seq<string>, found: seq<Container>): System {
    var p := Merge([], found);
    System(p, Exported(base + Ids(p)), [], None)
  }

  predicate Enabled(s: System, step: Step) {
    match step
    case Update(_) => true
    case List => !s.agent.listed
    case Deliver => s.channel != [] && Applicable(s.client, s.channel[0])
  }

  function Apply(s: System, step: Step): System
    requires Enabled(s, step)
  {
    match step
    case Update(cs) =>
      var signals := MergeSignals(s.provider, cs);
      System(Merge(s.provider, cs), OnSignals(s.agent, signals), s.channel + AllAnnounced(s.agent, signals), s.client)
    case List =>
      s.(agent := s.agent.(listed := true), channel := s.channel + [Listed(Paths(s.agent.exports))])
    case Deliver =>
      s.(channel := s.channel[1..], client := Receive(s.client, s.channel[0]))
  }

  datatype Run = Start(base: seq<string>, found: seq<Container>) | Then(before: Run, step: Step)

  predicate Valid(r: Run)
    decreases r, 0
  {
    r.Then? ==> Valid(r.before) && Enabled(End(r.before), r.step)
  }

  function End(r: Run): System
    requires Valid(r)
    decreases r, 1
  {
    if r.Start? then Init(r.base, r.found) else Apply(End(r.before), r.step)
  }

  function Base(r: Run): seq<string> {
    if r.Start? then r.base else Base(r.before)
  }

  /** No update of the run takes away a container that shares its id with one of the agent's own. */
  ghost predicate Benign(r: Run)
    requires Valid(r)
  {
    r.Then? ==>
      Benign(r.before) && (r.step.Update? ==> LeavesAlone(Base(r), End(r.before).provider, r.step.containers))
  }

  // ---------- invariant ----------

  /** Receiving the messages in order is possible throughout and ends at the target. */
  ghost predicate Leads(client: Option<seq<nat>>, ms: seq<Message>, target: seq<nat>)
    decreases |ms|
  {
    if ms == [] then client == Some(target)
    else Applicable(client, ms[0]) && Leads(Receive(client, ms[0]), ms[1..], target)
  }

  ghost predicate FreshPaths(a: Agent) {
    && (forall i :: 0 <= i < |a.exports| ==> a.exports[i].path < a.next)
    && (forall i, j :: 0 <= i < j < |a.exports| ==> a.exports[i].path != a.exports[j].path)
  }

  ghost predicate Inv(s: System) {
    && UniqueIds(s.provider) && FreshPaths(s.agent)
    && if s.agent.listed then Leads(s.client, s.channel, Paths(s.agent.exports)) else s.channel == [] && s.client == None
  }

  // ---------- lemmas ----------

  lemma {:induction false} ExportsAt(es: seq<Export>)
    ensures |Paths(es)| == |es| && |ExportIds(es)| == |es|
    ensures forall i :: 0 <= i < |es| ==> Paths(es)[i] == es[i].path && ExportIds(es)[i] == es[i].id
  {
    if es != [] {
      ExportsAt(es[1..]);
      forall i | 0 < i < |es| ensures Paths(es)[i] == es[i].path && ExportIds(es)[i] == es[i].id {
        assert Paths(es)[i] == Paths(es[1..])[i - 1] && ExportIds(es)[i] == ExportIds(es[1..])[i - 1];
      }
    }
  }

  lemma {:induction false} ExportIdsAppend(es: seq<Export>, more: seq<Export>)
    ensures ExportIds(es + more) == ExportIds(es) + ExportIds(more)
  {
    if es == [] {
      assert es + more == more;
    } else {
      assert (es + more)[1..] == es[1..] + more;
      ExportIdsAppend(es[1..], more);
    }
  }

  lemma {:induction false} ExportIdsSlice(es: seq<Export>, i: nat)
    requires i <= |es|
    ensures |ExportIds(es)| == |es|
    ensures ExportIds(es[..i]) == ExportIds(es)[..i] && ExportIds(es[i..]) == ExportIds(es)[i..]
  {
    ExportsAt(es);
    assert es == es[..i] + es[i..];
    ExportIdsAppend(es[..i], es[i..]);
    ExportsAt(es[..i]);
  }

  /** The ids of the exports change as the signals say. */
  lemma OnSignalFollows(a: Agent, s: Signal)
    ensures ExportIds(OnSignal(a, s).exports) == Follow(ExportIds(a.exports), s)
  {
    hide ExportIds;
    ExportsAt(a.exports);
    match s
    case Added(id) =>
      ExportIdsAppend(a.exports, [Export(id, a.next)]);
      ExportsAt([Export(id, a.next)]);
      assert ExportIds([Export(id, a.next)]) == [id];
    case Removed(id) =>
      var i := IndexOfId(ExportIds(a.exports), id);
      if i < |a.exports| {
        ExportIdsSlice(a.exports, i);
        ExportIdsSlice(a.exports, i + 1);
        ExportIdsAppend(a.exports[..i], a.exports[i + 1..]);
      }
  }

  lemma {:induction false} OnSignalsFollow(a: Agent, ss: seq<Signal>)
    ensures ExportIds(OnSignals(a, ss).exports) == FollowAll(ExportIds(a.exports), ss)
    ensures OnSignals(a, ss).listed == a.listed
    decreases |ss|
  {
    if ss != [] {
      OnSignalFollows(a, ss[0]);
      OnSignalsFollow(OnSignal(a, ss[0]), ss[1..]);
    }
  }

  lemma {:induction false} OnSignalsFresh(a: Agent, ss: seq<Signal>)
    requires FreshPaths(a)
    ensures FreshPaths(OnSignals(a, ss))
    decreases |ss|
  {
    if ss != [] { OnSignalsFresh(OnSignal(a, ss[0]), ss[1..]); }
  }

  lemma {:induction false} LeadsOn(client: Option<seq<nat>>, ms: seq<Message>, target: seq<nat>,
                                   more: seq<Message>, goal: seq<nat>)
    requires Leads(client, ms, target) && Leads(Some(target), more, goal)
    ensures Leads(client, ms + more, goal)
    decreases |ms|
  {
    if ms == [] {
      assert ms + more == more;
    } else {
      assert (ms + more)[1..] == ms[1..] + more && (ms + more)[0] == ms[0];
      LeadsOn(Receive(client, ms[0]), ms[1..], target, more, goal);
    }
  }

  lemma OneLeads(client: seq<nat>, m: Message, target: seq<nat>)
    requires Applicable(Some(client), m) && Receive(Some(client), m) == Some(target)
    ensures Leads(Some(client), [m], target)
  {
    assert [m][1..] == [];
  }

  lemma NoneLead(client: seq<nat>)
    ensures Leads(Some(client), [], client)
  {}

  /** One announcement, applied to a copy of the paths before, gives the paths after. */
  lemma AnnouncedLeads(a: Agent, s: Signal)
    requires a.listed
    ensures Leads(Some(Paths(a.exports)), Announced(a, s), Paths(OnSignal(a, s).exports))
  {
    hide Leads, Paths;
    var a' := OnSignal(a, s);
    ExportsAt(a.exports);
    ExportsAt(a'.exports);
    match s
    case Added(_) =>
      assert Splice(Paths(a.exports), |a.exports|, 0, [a.next]) == Paths(a'.exports);
      OneLeads(Paths(a.exports), Changed(|a.exports|, 0, [a.next]), Paths(a'.exports));
    case Removed(id) =>
      var i := IndexOfId(ExportIds(a.exports), id);
      if i < |a.exports| {
        assert Splice(Paths(a.exports), i, 1, []) == Paths(a'.exports);
        OneLeads(Paths(a.exports), Changed(i, 1, []), Paths(a'.exports));
      } else {
        NoneLead(Paths(a.exports));
      }
  }

  lemma {:induction false} AllAnnouncedLead(a: Agent, ss: seq<Signal>)
    requires a.listed
    ensures Leads(Some(Paths(a.exports)), AllAnnounced(a, ss), Paths(OnSignals(a, ss).exports))
    decreases |ss|
  {
    if ss != [] {
      var a' := OnSignal(a, ss[0]);
      AnnouncedLeads(a, ss[0]);
      AllAnnouncedLead(a', ss[1..]);
      LeadsOn(Some(Paths(a.exports)), Announced(a, ss[0]), Paths(a'.exports), AllAnnounced(a', ss[1..]),
              Paths(OnSignals(a', ss[1..]).exports));
    }
  }

  lemma {:induction false} SilentBeforeListing(a: Agent, ss: seq<Signal>)
    requires !a.listed
    ensures AllAnnounced(a, ss) == []
    decreases |ss|
  {
    if ss != [] { SilentBeforeListing(OnSignal(a, ss[0]), ss[1..]); }
  }

  lemma MergeKeepsUnique(cs: seq<Container>, input: seq<Container>)
    requires UniqueIds(cs)
    ensures UniqueIds(Merge(cs, input))
  {
    MergeIds(cs, input, "");
  }

  lemma StepInv(s: System, step: Step)
    requires Inv(s) && Enabled(s, step)
    ensures Inv(Apply(s, step))
  {
    match step
    case Update(cs) =>
      var signals := MergeSignals(s.provider, cs);
      MergeKeepsUnique(s.provider, cs);
      OnSignalsFresh(s.agent, signals);
      OnSignalsFollow(s.agent, signals);
      if s.agent.listed {
        AllAnnouncedLead(s.agent, signals);
        LeadsOn(s.client, s.channel, Paths(s.agent.exports), AllAnnounced(s.agent, signals),
                Paths(OnSignals(s.agent, signals).exports));
      } else {
        SilentBeforeListing(s.agent, signals);
      }
    case List =>
      var m := Listed(Paths(s.agent.exports));
      assert [] + [m] == [m] && [m][1..] == [];
    case Deliver =>
  }

  lemma InitInv(base: seq<string>, found: seq<Container>)
    ensures Inv(Init(base, found))
  {
    var ids := base + Ids(Merge([], found));
    MergeKeepsUnique([], found);
    OnSignalsFresh(Agent([], false, 0), Additions(ids));
    OnSignalsFollow(Agent([], false, 0), Additions(ids));
  }

  lemma {:induction false} RunInv(r: Run)
    requires Valid(r)
    ensures Inv(End(r))
  {
    if r.Start? {
      InitInv(r.base, r.found);
    } else {
      RunInv(r.before);
      StepInv(End(r.before), r.step);
    }
  }

  // ---------- main results ----------

  /** Replication safety: in every reachable state the next message can be applied, and once the
    * list has been asked for, applying all that is in flight, in order and always in range, takes
    * the client to the agent's paths. */
  lemma ClientCatchesUp(r: Run)
    requires Valid(r)
    ensures var s := End(r);
      && (s.channel != [] ==> Enabled(s, Deliver))
      && (s.agent.listed ==> Leads(s.client, s.channel, Paths(s.agent.exports)))
      && (s.agent.listed && s.channel == [] ==> s.client == Some(Paths(s.agent.exports)))
  {
    RunInv(r);
  }

  /** No path ever occurs twice in what the client will hold. */
  lemma PathsStayDistinct(r: Run, i: nat, j: nat)
    requires Valid(r) && i < j < |End(r).agent.exports|
    ensures var paths := Paths(End(r).agent.exports); j < |paths| && paths[i] != paths[j]
  {
    RunInv(r);
    ExportsAt(End(r).agent.exports);
  }

  lemma {:induction false} AdditionsFollowed(ids: seq<string>, more: seq<string>)
    ensures FollowAll(ids, Additions(more)) == ids + more
    decreases |more|
  {
    if more == [] {
      assert ids + more == ids;
    } else {
      AdditionsFollowed(ids + [more[0]], more[1..]);
      assert ids + [more[0]] + more[1..] == ids + more;
      assert Additions(more)[1..] == Additions(more[1..]);
    }
  }

  /** End to end: through any series of benign updates the agent's ids are its own followed by the
    * provider's; so when nothing is in flight, the client's list is as long as both together. */
  lemma {:induction false} AgentFollowsProvider(r: Run)
    requires Valid(r) && Benign(r)
    ensures ExportIds(End(r).agent.exports) == Base(r) + Ids(End(r).provider)
  {
    if r.Start? {
      var ids := r.base + Ids(Merge([], r.found));
      OnSignalsFollow(Agent([], false, 0), Additions(ids));
      AdditionsFollowed([], ids);
      assert [] + ids == ids;
    } else {
      AgentFollowsProvider(r.before);
      RunInv(r.before);
      if r.step.Update? {
        var s := End(r.before);
        OnSignalsFollow(s.agent, MergeSignals(s.provider, r.step.containers));
        MergeFollowed(Base(r), s.provider, r.step.containers);
      }
    }
  }

  // ---------- the agent's own containers ----------

  /** Every one of the agent's own containers is still exported, where it was at the start. */
  ghost predicate OwnThere(base: seq<string>, es: seq<Export>) {
    forall i :: 0 <= i < |base| ==> Export(base[i], i) in es
  }

  /** Exports are in the order of their paths, and the lowest paths are the agent's own. */
  ghost predicate Numbered(base: seq<string>, a: Agent) {
    && |base| <= a.next
    && (forall i :: 0 <= i < |a.exports| ==> a.exports[i].path < a.next)
    && (forall i, j :: 0 <= i < j < |a.exports| ==> a.exports[i].path < a.exports[j].path)
    && (forall e :: e in a.exports && e.path < |base| ==> e.id == base[e.path])
  }

  lemma RemovedElements(es: seq<Export>, i: nat)
    requires i < |es|
    requires forall j, k :: 0 <= j < k < |es| ==> es[j].path < es[k].path
    ensures forall e :: e in es[..i] + es[i + 1..] <==> e in es && e != es[i]
  {
    var rest := es[..i] + es[i + 1..];
    forall e | e in es && e != es[i] ensures e in rest {
      var k :| 0 <= k < |es| && es[k] == e;
      assert rest[if k < i then k else k - 1] == e;
    }
    forall e | e in rest ensures e in es && e != es[i] {
      var k :| 0 <= k < |rest| && rest[k] == e;
      assert e == es[if k < i then k else k + 1];
    }
  }

  lemma OwnAdded(base: seq<string>, a: Agent, id: string)
    requires Numbered(base, a)
    ensures var es := a.exports + [Export(id, a.next)];
      && Numbered(base, Agent(es, a.listed, a.next + 1))
      && (OwnThere(base, es) <==> OwnThere(base, a.exports))
  {
    var e := Export(id, a.next);
    var es := a.exports + [e];
    assert forall x :: x in es <==> x in a.exports || x == e;
  }

  lemma RemovedNumbered(base: seq<string>, a: Agent, i: nat)
    requires Numbered(base, a) && i < |a.exports|
    ensures Numbered(base, a.(exports := a.exports[..i] + a.exports[i + 1..]))
  {
    RemovedElements(a.exports, i);
    var es := a.exports[..i] + a.exports[i + 1..];
    forall k | 0 <= k < |es| ensures es[k] == a.exports[if k < i then k else k + 1] {}
  }

  /** The first export with an id of the agent's own is one of the agent's own. */
  lemma FirstIsOwn(base: seq<string>, a: Agent, id: string, i: nat)
    requires Numbered(base, a) && i < |a.exports| && a.exports[i].id == id
    requires forall j :: 0 <= j < i ==> a.exports[j].id != id
    requires OwnThere(base, a.exports) && id in base
    ensures a.exports[i].path < |base| && a.exports[i] == Export(base[a.exports[i].path], a.exports[i].path)
  {
    var k :| 0 <= k < |base| && base[k] == id;
    assert Export(base[k], k) in a.exports;
    var j :| 0 <= j < |a.exports| && a.exports[j] == Export(id, k);
    assert a.exports[i].path <= k;
    assert a.exports[i] in a.exports;
  }

  lemma OwnRemoved(base: seq<string>, a: Agent, id: string, i: nat)
    requires Numbered(base, a) && i < |a.exports| && a.exports[i].id == id
    requires forall j :: 0 <= j < i ==> a.exports[j].id != id
    ensures var es := a.exports[..i] + a.exports[i + 1..];
      OwnThere(base, es) <==> OwnThere(base, a.exports) && id !in base
  {
    RemovedElements(a.exports, i);
    var es := a.exports[..i] + a.exports[i + 1..];
    if OwnThere(base, a.exports) && id in base {
      FirstIsOwn(base, a, id, i);
    }
  }

  lemma OwnMissing(base: seq<string>, a: Agent, id: string)
    requires id in base && forall j :: 0 <= j < |a.exports| ==> a.exports[j].id != id
    ensures !OwnThere(base, a.exports)
  {
    var k :| 0 <= k < |base| && base[k] == id;
    assert Export(base[k], k) !in a.exports;
  }

  /** A signal takes away one of the agent's own containers exactly when it names one of their ids,
    * and nothing brings it back. */
  lemma OwnStep(base: seq<string>, a: Agent, s: Signal)
    requires Numbered(base, a)
    ensures Numbered(base, OnSignal(a, s))
    ensures OwnThere(base, OnSignal(a, s).exports) <==> OwnThere(base, a.exports) && !(s.Removed? && s.id in base)
  {
    hide ExportIds, Numbered, OwnThere;
    match s
    case Added(id) =>
      OwnAdded(base, a, id);
    case Removed(id) =>
      ExportsAt(a.exports);
      var i := IndexOfId(ExportIds(a.exports), id);
      if i < |a.exports| {
        RemovedNumbered(base, a, i);
        OwnRemoved(base, a, id, i);
      } else if id in base {
        OwnMissing(base, a, id);
      }
  }

  ghost predicate NamesOwn(base: seq<string>, ss: seq<Signal>) {
    exists s :: s in ss && s.Removed? && s.id in base
  }

  lemma {:induction false} OwnSteps(base: seq<string>, a: Agent, ss: seq<Signal>)
    requires Numbered(base, a)
    ensures Numbered(base, OnSignals(a, ss))
    ensures OwnThere(base, OnSignals(a, ss).exports) <==> OwnThere(base, a.exports) && !NamesOwn(base, ss)
    decreases |ss|
  {
    if ss != [] {
      hide OnSignal, Numbered, OwnThere;
      OwnStep(base, a, ss[0]);
      OwnSteps(base, OnSignal(a, ss[0]), ss[1..]);
      assert ss == [ss[0]] + ss[1..];
    }
  }

  lemma {:induction false} DeparturesNames(cs: seq<Container>, input: seq<Container>)
    ensures forall s :: s in Departures(cs, input) <==>
              s.Removed? && exists c :: c in cs && c.id == s.id && !HasId(input, c.id)
  {
    if cs != [] {
      var front, last := cs[..|cs| - 1], cs[|cs| - 1];
      assert cs == front + [last];
      DeparturesNames(front, input);
    }
  }

  lemma {:induction false} ArrivalsAdd(cs: seq<Container>, input: seq<Container>)
    ensures forall s :: s in Arrivals(cs, input) ==> s.Added?
    decreases |input|
  {
    if input != [] {
      ArrivalsAdd(if HasId(cs, input[0].id) then cs else cs + [input[0]], input[1..]);
    }
  }

  lemma MergeNamesOwn(base: seq<string>, cs: seq<Container>, input: seq<Container>)
    ensures NamesOwn(base, MergeSignals(cs, input)) <==> !LeavesAlone(base, cs, input)
  {
    DeparturesNames(cs, input);
    ArrivalsAdd(Survivors(cs, input), input);
    if c :| c in cs && !HasId(input, c.id) && c.id in base {
      assert Removed(c.id) in MergeSignals(cs, input);
    }
  }

  lemma {:induction false} ExportedInOrder(a: Agent, ids: seq<string>)
    ensures var b := OnSignals(a, Additions(ids));
      && |b.exports| == |a.exports| + |ids| && b.next == a.next + |ids|
      && (forall i :: 0 <= i < |a.exports| ==> b.exports[i] == a.exports[i])
      && (forall i :: 0 <= i < |ids| ==> b.exports[|a.exports| + i] == Export(ids[i], a.next + i))
    decreases |ids|
  {
    if ids != [] {
      var a' := OnSignal(a, Added(ids[0]));
      assert Additions(ids)[1..] == Additions(ids[1..]);
      ExportedInOrder(a', ids[1..]);
      var b := OnSignals(a', Additions(ids[1..]));
      forall i | 0 <= i < |ids| ensures b.exports[|a.exports| + i] == Export(ids[i], a.next + i) {
        if i > 0 { assert b.exports[|a'.exports| + (i - 1)] == Export(ids[1..][i - 1], a'.next + (i - 1)); }
      }
    }
  }

  lemma OwnAtFirst(base: seq<string>, found: seq<Container>)
    ensures var a := Init(base, found).agent; Numbered(base, a) && OwnThere(base, a.exports)
  {
    var ids := base + Ids(Merge([], found));
    ExportedInOrder(Agent([], false, 0), ids);
    var es := Exported(ids).exports;
    assert forall i :: 0 <= i < |ids| ==> es[i] == Export(ids[i], i);
    forall i | 0 <= i < |base| ensures Export(base[i], i) in es { assert es[i] == Export(base[i], i); }
  }

  lemma {:induction false} OwnOverRun(r: Run)
    requires Valid(r)
    ensures Numbered(Base(r), End(r).agent)
    ensures OwnThere(Base(r), End(r).agent.exports) <==> Benign(r)
  {
    if r.Start? {
      OwnAtFirst(r.base, r.found);
    } else {
      OwnOverRun(r.before);
      if r.step.Update? {
        var s := End(r.before);
        OwnSteps(Base(r), s.agent, MergeSignals(s.provider, r.step.containers));
        MergeNamesOwn(Base(r), s.provider, r.step.containers);
      }
    }
  }

  /** The agent goes on exporting its own containers, at their old paths, exactly through the runs in
    * which no container leaves the provider under one of their ids. */
  lemma OwnStayIffBenign(r: Run)
    requires Valid(r)
    ensures (forall i :: 0 <= i < |Base(r)| ==> Export(Base(r)[i], i) in End(r).agent.exports) <==> Benign(r)
  {
    OwnOverRun(r);
  }

  lemma ClientHoldsEverything(r: Run)
    requires Valid(r) && Benign(r) && End(r).agent.listed && End(r).channel == []
    ensures End(r).client.Some? && |End(r).client.value| == |Base(r)| + |End(r).provider|
  {
    ClientCatchesUp(r);
    AgentFollowsProvider(r);
    ExportsAt(End(r).agent.exports);
    IdsAt(End(r).provider);
  }
}
