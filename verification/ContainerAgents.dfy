/** The three objects that keep a list of containers, updated in place: the provider, the agent that
  * exports what the provider has, and the client.
  */
module ContainerAgents {
  import opened Common
  import opened Containers
  import opened Replication

  // ---------- running signals one after the other ----------

  lemma {:induction false} OnSignalsAppend(a: Agent, ss: seq<Signal>, more: seq<Signal>)
    ensures OnSignals(a, ss + more) == OnSignals(OnSignals(a, ss), more)
    ensures AllAnnounced(a, ss + more) == AllAnnounced(a, ss) + AllAnnounced(OnSignals(a, ss), more)
    decreases |ss|
  {
    hide OnSignal, Announced;
    if ss == [] {
      assert ss + more == more;
    } else {
      assert (ss + more)[0] == ss[0] && (ss + more)[1..] == ss[1..] + more;
      OnSignalsAppend(OnSignal(a, ss[0]), ss[1..], more);
      assert Announced(a, ss[0]) + (AllAnnounced(OnSignal(a, ss[0]), ss[1..]) + AllAnnounced(OnSignals(a, ss), more))
          == AllAnnounced(a, ss) + AllAnnounced(OnSignals(a, ss), more);
    }
  }

  lemma OnFirst(a: Agent, s: Signal, rest: seq<Signal>)
    ensures OnSignals(a, [s] + rest) == OnSignals(OnSignal(a, s), rest)
    ensures AllAnnounced(a, [s] + rest) == Announced(a, s) + AllAnnounced(OnSignal(a, s), rest)
  {
    assert ([s] + rest)[1..] == rest;
  }

  // ---------- announcements of a merge ----------

  /** Where items changed: how many went and how many stand there now. */
  datatype Notice = Notice(position: nat, removed: nat, added: nat)

  /** The scan from the end announces every position once, replaced or removed. */
  function ScanNotices(cs: seq<Container>, input: seq<Container>): seq<Notice> {
    if cs == [] then []
    else
      var n := |cs| - 1;
      [Notice(n, 1, if HasId(input, cs[n].id) then 1 else 0)] + ScanNotices(cs[..n], input)
  }

  /** Every container that is added is announced at the end of the list. */
  function FreshNotices(cs: seq<Container>, input: seq<Container>): seq<Notice>
    decreases |input|
  {
    if input == [] then []
    else if HasId(cs, input[0].id) then FreshNotices(cs, input[1..])
    else [Notice(|cs|, 0, 1)] + FreshNotices(cs + [input[0]], input[1..])
  }

  // ---------- the agent ----------

  class AgentImpl {
    var containers: seq<Export>
    var hasListed: bool
    /** A path never used before. */
    var next: nat
    /** All messages put on the bus, oldest first. */
    var sent: seq<Message>

    constructor ()
      ensures State() == Agent([], false, 0) && sent == []
    {
      containers, hasListed, next, sent := [], false, 0, [];
    }

    ghost function State(): Agent reads this { Agent(containers, hasListed, next) }

    method AddContainer(id: string)
      modifies this
      ensures State() == OnSignal(old(State()), Added(id))
      ensures sent == old(sent) + Announced(old(State()), Added(id))
    {
      var path := next;
      next := next + 1;
      containers := containers + [Export(id, path)];
      if hasListed {
        sent := sent + [Changed(|containers| - 1, 0, [path])];
      }
    }

    /** The first element with the id goes, if there is one. */
    method ProviderRemoved(id: string)
      modifies this
      ensures State() == OnSignal(old(State()), Removed(id))
      ensures sent == old(sent) + Announced(old(State()), Removed(id))
    {
      ExportsAt(containers);
      var i := 0;
      while i < |containers|
        invariant i <= |containers|
        invariant State() == old(State()) && sent == old(sent)
        invariant forall j :: 0 <= j < i ==> containers[j].id != id
      {
        if containers[i].id == id {
          assert IndexOfId(ExportIds(containers), id) == i;
          containers := containers[..i] + containers[i + 1..];
          if hasListed {
            sent := sent + [Changed(i, 1, [])];
          }
          return;
        }
        i := i + 1;
      }
    }

    method HandleListContainers()
      modifies this
      ensures State() == old(State()).(listed := true)
      ensures sent == old(sent) + [Listed(Paths(old(containers)))]
    {
      ExportsAt(containers);
      var strv := [];
      for i := 0 to |containers|
        invariant strv == Paths(containers)[..i]
        invariant State() == old(State()) && sent == old(sent)
      {
        strv := strv + [containers[i].path];
      }
      assert strv == Paths(containers);
      sent := sent + [Listed(strv)];
      hasListed := true;
    }
  }

  // ---------- the provider ----------

  class Provider {
    var containers: seq<Container>
    /** Connected to the signals "added" and "removed". */
    const agent: AgentImpl
    /** A copy that changes only by splicing at the announced positions. */
    ghost var listener: seq<Container>
    /** Everything announced to listeners, oldest first. */
    ghost var notices: seq<Notice>

    constructor (agent: AgentImpl)
      ensures Valid() && containers == [] && this.agent == agent && notices == []
    {
      this.agent := agent;
      containers, listener, notices := [], [], [];
    }

    ghost predicate Valid() reads this { UniqueIds(containers) && listener == containers }

    /** Announces that `added` items now stand where `removed` items stood. */
    method ItemsChanged(position: nat, removed: nat, added: nat)
      requires position + removed <= |listener| && position + added <= |containers|
      modifies this`listener, this`notices
      ensures listener == Splice(old(listener), position, removed, containers[position..position + added])
      ensures notices == old(notices) + [Notice(position, removed, added)]
    {
      listener := Splice(listener, position, removed, containers[position..position + added]);
      notices := notices + [Notice(position, removed, added)];
    }

    method RealAdded(c: Container)
      requires listener == containers
      modifies this
      ensures containers == old(containers) + [c] && listener == containers
      ensures notices == old(notices) + [Notice(|old(containers)|, 0, 1)]
    {
      var position := |containers|;
      containers := containers + [c];
      ItemsChanged(position, 0, 1);
    }

    /** Takes out the object itself; i is where it stands. */
    method RealRemoved(c: Container, ghost i: nat)
      requires listener == containers
      requires i < |containers| && containers[i] == c && c !in containers[..i]
      modifies this
      ensures containers == old(containers[..i] + containers[i + 1..]) && listener == containers
      ensures notices == old(notices) + [Notice(i, 1, 0)]
    {
      var position := 0;
      while position < |containers| && containers[position] != c
        invariant position <= i
        invariant containers == old(containers) && listener == containers && notices == old(notices)
      {
        position := position + 1;
      }
      assert position == i by {
        assert forall j :: 0 <= j < i ==> containers[..i][j] == containers[j];
      }
      if position < |containers| {
        containers := containers[..position] + containers[position + 1..];
        ItemsChanged(position, 1, 0);
      }
    }

    /** The agent hears of it first; then the class's own handler runs. */
    method EmitAdded(c: Container)
      requires listener == containers
      modifies this, agent
      ensures listener == containers
      ensures HasId(old(containers), c.id) ==>
                (&& containers == old(containers) && notices == old(notices)
                 && agent.State() == old(agent.State()) && agent.sent == old(agent.sent))
      ensures !HasId(old(containers), c.id) ==>
                (&& containers == old(containers) + [c] && notices == old(notices) + [Notice(|old(containers)|, 0, 1)]
                 && agent.State() == OnSignal(old(agent.State()), Added(c.id))
                 && agent.sent == old(agent.sent) + Announced(old(agent.State()), Added(c.id)))
    {
      for i := 0 to |containers|
        invariant containers == old(containers) && listener == containers && notices == old(notices)
        invariant agent.State() == old(agent.State()) && agent.sent == old(agent.sent)
        invariant forall j :: 0 <= j < i ==> containers[j].id != c.id
      {
        if containers[i].id == c.id { return; }
      }
      agent.AddContainer(c.id);
      RealAdded(c);
    }

    method EmitRemoved(c: Container, ghost i: nat)
      requires listener == containers
      requires i < |containers| && containers[i] == c && c !in containers[..i]
      modifies this, agent
      ensures containers == old(containers[..i] + containers[i + 1..]) && listener == containers
      ensures notices == old(notices) + [Notice(i, 1, 0)]
      ensures agent.State() == OnSignal(old(agent.State()), Removed(c.id))
      ensures agent.sent == old(agent.sent) + Announced(old(agent.State()), Removed(c.id))
    {
      agent.ProviderRemoved(c.id);
      RealRemoved(c, i);
    }

    method FindWithEqualId(cs: seq<Container>, id: string) returns (found: bool, position: nat)
      ensures found == HasId(cs, id) && position == FindId(cs, id)
    {
      position := 0;
      while position < |cs|
        invariant position <= |cs|
        invariant forall j :: 0 <= j < position ==> cs[j].id != id
      {
        if cs[position].id == id { return true, position; }
        position := position + 1;
      }
      found := false;
    }

    /** One turn of the scan from the end: the container before i is replaced or leaves. */
    method ReplaceOrRemove(i: nat, input: seq<Container>)
      requires 0 < i <= |containers| && listener == containers
      requires forall j :: 0 <= j < i - 1 ==> containers[j].id != containers[i - 1].id
      modifies this, agent
      ensures listener == containers
      ensures containers == old(containers[..i - 1] + Survivors([containers[i - 1]], input) + containers[i..])
      ensures notices == old(notices) + [Notice(i - 1, 1, if HasId(input, old(containers[i - 1]).id) then 1 else 0)]
      ensures var gone := Departures([old(containers[i - 1])], input);
        && agent.State() == OnSignals(old(agent.State()), gone)
        && agent.sent == old(agent.sent) + AllAnnounced(old(agent.State()), gone)
    {
      hide OnSignal, Announced;
      var container := containers[i - 1];
      var found, position := FindWithEqualId(input, container.id);
      SingleTurn(container, input, agent.State());
      if found {
        containers := containers[..i - 1] + [input[position]] + containers[i..];
        ItemsChanged(i - 1, 1, 1);
      } else {
        EmitRemoved(container, i - 1);
      }
    }

    /** The first scan of a merge, from the end so that positions stay good. */
    method ReplaceAll(input: seq<Container>)
      requires Valid()
      modifies this, agent
      ensures listener == containers && containers == Survivors(old(containers), input)
      ensures notices == old(notices) + ScanNotices(old(containers), input)
      ensures var gone := Departures(old(containers), input);
        && agent.State() == OnSignals(old(agent.State()), gone)
        && agent.sent == old(agent.sent) + AllAnnounced(old(agent.State()), gone)
    {
      hide OnSignals, AllAnnounced, Departures, Survivors, ScanNotices, HasId;
      ghost var was, before, bus := containers, agent.State(), agent.sent;
      var i := |containers|;
      assert was[..i] == was && was[i..] == [];
      NothingLeft(input, before);
      while i > 0
        invariant i <= |was| && i <= |containers|
        invariant listener == containers
        invariant containers == was[..i] + Survivors(was[i..], input)
        invariant OnSignals(before, Departures(was, input)) == OnSignals(agent.State(), Departures(was[..i], input))
        invariant bus + AllAnnounced(before, Departures(was, input))
               == agent.sent + AllAnnounced(agent.State(), Departures(was[..i], input))
        invariant notices + ScanNotices(was[..i], input) == old(notices) + ScanNotices(was, input)
      {
        ghost var now, log, told := agent.State(), agent.sent, notices;
        OneNotice(was, i, input, told);
        assert containers[i - 1] == was[i - 1] && containers[i..] == Survivors(was[i..], input);
        assert containers[..i - 1] == was[..i - 1];
        OneTurn(was, i, input, now);
        ReplaceOrRemove(i, input);
        ghost var said := AllAnnounced(now, Departures([was[i - 1]], input));
        assert log + (said + AllAnnounced(agent.State(), Departures(was[..i - 1], input)))
            == (log + said) + AllAnnounced(agent.State(), Departures(was[..i - 1], input));
        i := i - 1;
      }
      assert was[..0] == [] && was[0..] == was;
      NothingLeft(input, agent.State());
    }

    /** The second scan: what the input has and the provider lacks. */
    method AddMissing(input: seq<Container>)
      requires listener == containers
      modifies this, agent
      ensures listener == containers && containers == AddFresh(old(containers), input)
      ensures notices == old(notices) + FreshNotices(old(containers), input)
      ensures var came := Arrivals(old(containers), input);
        && agent.State() == OnSignals(old(agent.State()), came)
        && agent.sent == old(agent.sent) + AllAnnounced(old(agent.State()), came)
    {
      hide OnSignal, Announced, HasId;
      ghost var was, before, bus := containers, agent.State(), agent.sent;
      assert input[0..] == input;
      for i := 0 to |input|
        invariant listener == containers
        invariant AddFresh(was, input) == AddFresh(containers, input[i..])
        invariant OnSignals(before, Arrivals(was, input)) == OnSignals(agent.State(), Arrivals(containers, input[i..]))
        invariant bus + AllAnnounced(before, Arrivals(was, input))
               == agent.sent + AllAnnounced(agent.State(), Arrivals(containers, input[i..]))
        invariant notices + FreshNotices(containers, input[i..]) == old(notices) + FreshNotices(was, input)
      {
        var container := input[i];
        assert input[i..][1..] == input[i + 1..];
        var found, position := FindWithEqualId(containers, container.id);
        if !found {
          ghost var now, log := agent.State(), agent.sent;
          ghost var rest := Arrivals(containers + [container], input[i + 1..]);
          assert Arrivals(containers, input[i..]) == [Added(container.id)] + rest;
          OnFirst(now, Added(container.id), rest);
          ghost var told, later := notices, FreshNotices(containers + [container], input[i + 1..]);
          ghost var one := Notice(|containers|, 0, 1);
          assert told + ([one] + later) == (told + [one]) + later;
          EmitAdded(container);
          assert log + (Announced(now, Added(container.id)) + AllAnnounced(agent.State(), rest))
              == (log + Announced(now, Added(container.id))) + AllAnnounced(agent.State(), rest);
        }
      }
    }

    /** The new list is the merge of the old one with the input; the agent has followed every signal
      * and said what it had to say; and the listener, which only splices, has the new list too. */
    method MergeInput(input: seq<Container>)
      requires Valid()
      modifies this, agent
      ensures Valid() && containers == Merge(old(containers), input)
      ensures notices == old(notices)
                + ScanNotices(old(containers), input) + FreshNotices(Survivors(old(containers), input), input)
      ensures agent.State() == OnSignals(old(agent.State()), MergeSignals(old(containers), input))
      ensures agent.sent == old(agent.sent) + AllAnnounced(old(agent.State()), MergeSignals(old(containers), input))
    {
      hide OnSignals, AllAnnounced, Departures, Arrivals, Survivors, AddFresh;
      ghost var was, before, bus := containers, agent.State(), agent.sent;
      ghost var gone, came := Departures(was, input), Arrivals(Survivors(was, input), input);
      OnSignalsAppend(before, gone, came);
      MergeKeepsUnique(was, input);
      ReplaceAll(input);
      AddMissing(input);
      assert bus + (AllAnnounced(before, gone) + AllAnnounced(OnSignals(before, gone), came))
          == (bus + AllAnnounced(before, gone)) + AllAnnounced(OnSignals(before, gone), came);
    }
  }

  lemma OneNotice(was: seq<Container>, i: nat, input: seq<Container>, told: seq<Notice>)
    requires 0 < i <= |was|
    ensures told + ScanNotices(was[..i], input)
         == told + [Notice(i - 1, 1, if HasId(input, was[i - 1].id) then 1 else 0)] + ScanNotices(was[..i - 1], input)
  {
    hide HasId;
    assert was[..i][..i - 1] == was[..i - 1];
  }

  lemma NothingLeft(input: seq<Container>, a: Agent)
    ensures Survivors([], input) == [] && Departures([], input) == [] && ScanNotices([], input) == []
    ensures OnSignals(a, []) == a && AllAnnounced(a, []) == []
  {}

  lemma SingleTurn(c: Container, input: seq<Container>, a: Agent)
    ensures Survivors([c], input) == if HasId(input, c.id) then [input[FindId(input, c.id)]] else []
    ensures var gone := Departures([c], input);
      && gone == (if HasId(input, c.id) then [] else [Removed(c.id)])
      && OnSignals(a, gone) == (if HasId(input, c.id) then a else OnSignal(a, Removed(c.id)))
      && AllAnnounced(a, gone) == (if HasId(input, c.id) then [] else Announced(a, Removed(c.id)))
  {
    hide OnSignal, Announced;
    assert Survivors([c][1..], input) == [];
    assert [c][..0] == [] && Departures([], input) == [];
    assert [Removed(c.id)][1..] == [];
    assert Announced(a, Removed(c.id)) + [] == Announced(a, Removed(c.id));
  }

  /** What turn i of the scan contributes to the list, to the agent and to the bus. */
  lemma OneTurn(was: seq<Container>, i: nat, input: seq<Container>, a: Agent)
    requires 0 < i <= |was|
    ensures Survivors(was[i - 1..], input) == Survivors([was[i - 1]], input) + Survivors(was[i..], input)
    ensures var gone := Departures([was[i - 1]], input); var rest := Departures(was[..i - 1], input);
      && OnSignals(a, Departures(was[..i], input)) == OnSignals(OnSignals(a, gone), rest)
      && AllAnnounced(a, Departures(was[..i], input)) == AllAnnounced(a, gone) + AllAnnounced(OnSignals(a, gone), rest)
  {
    hide OnSignals, AllAnnounced;
    var c := was[i - 1];
    SingleTurn(c, input, a);
    assert was[i - 1..][0] == c && was[i - 1..][1..] == was[i..];
    assert was[..i] == was[..i - 1] + [c];
    DeparturesLast(was[..i - 1], c, input);
    OnSignalsAppend(a, Departures([c], input), Departures(was[..i - 1], input));
  }

  // ---------- the client ----------

  class Client {
    /** One proxy for every path. */
    var containers: seq<nat>
    /** A copy that changes only by splicing at the announced positions. */
    ghost var listener: seq<nat>
    ghost var notices: seq<Notice>

    constructor ()
      ensures containers == listener == [] && notices == []
    {
      containers, listener, notices := [], [], [];
    }

    /** The reply to the request for the list.  Nobody listens yet, and nothing is announced; whoever
      * begins to listen later reads the list as it is. */
    method AddListed(paths: seq<nat>)
      modifies this
      ensures containers == listener == old(containers) + paths && notices == old(notices)
    {
      for i := 0 to |paths|
        invariant containers == old(containers) + paths[..i] && notices == old(notices)
      {
        containers := containers + [paths[i]];
      }
      listener := containers;
    }

    method ContainersChanged(position: nat, removed: nat, added: seq<nat>)
      requires position + removed <= |containers| && listener == containers
      modifies this
      ensures containers == listener == Splice(old(containers), position, removed, added)
      ensures notices == old(notices) + [Notice(position, removed, |added|)]
    {
      if removed > 0 {
        containers := containers[..position] + containers[position + removed..];
      }
      assert containers == Splice(old(containers), position, removed, added[..0]);
      for i := 0 to |added|
        invariant containers == Splice(old(containers), position, removed, added[..i])
        invariant listener == old(listener) && notices == old(notices)
      {
        containers := containers[..position + i] + [added[i]] + containers[position + i..];
      }
      assert added[..|added|] == added;
      ItemsChanged(position, removed, |added|);
    }

    method ItemsChanged(position: nat, removed: nat, added: nat)
      requires position + removed <= |listener| && position + added <= |containers|
      modifies this`listener, this`notices
      ensures listener == Splice(old(listener), position, removed, containers[position..position + added])
      ensures notices == old(notices) + [Notice(position, removed, added)]
    {
      listener := Splice(listener, position, removed, containers[position..position + added]);
      notices := notices + [Notice(position, removed, added)];
    }
  }
}
