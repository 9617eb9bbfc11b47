/** How a terminal tab learns the exit status of its child.
  *
  * The agent reports a death with a bus-wide ProcessExited, then a per-process Exited or Signaled,
  * and then takes the process object off the bus.  The application attaches its handlers at any
  * moment before, between or after those messages, and resolves the race with a table of seen
  * ProcessExited messages and a ping.  This module is the protocol as a transition system; the
  * classes at work on either side are in WaitAgents.
  */
module WaitProtocol {
  import opened WaitStatus

  /** A child of the agent.  Processes are numbered in spawn order; the number stands for the
    * unique object path. */
  datatype Child =
    | Running
    | Dead(status: Status)  // reaped, but wait_cb has not run yet
    | Gone(status: Status)  // wait_cb has run: both messages sent, object unexported

  datatype Request = Ping(task: nat)

  datatype Message =
    | ProcessExited(path: nat, status: Status)
    | Exited(path: nat, ret: Status)
    | Signaled(path: nat, sig: Status)
    | Pong(task: nat, alive: bool)

  datatype Outcome = Code(code: Status) | Failed

  /** A pending wait.  `results` lists what g_task_return_* was called with, in order. */
  datatype Task = Task(path: nat, refs: int, completed: bool, results: seq<Outcome>)

  datatype App = App(exited: map<nat, Status>, tasks: seq<Task>)

  datatype System = System(children: seq<Child>, requests: seq<Request>, bus: seq<Message>, app: App)

  // ---------- what the application does ----------

  function Unref(t: Task): Task { t.(refs := t.refs - 1) }

  function Complete(t: Task, o: Outcome): Task {
    if t.completed then t
    else Unref(t.(completed := true, results := t.results + [o]))
  }

  function OnProcessExited(a: App, path: nat, status: Status): App {
    a.(exited := a.exited[path := status])
  }

  /** A task stays connected to the process until its last reference is dropped. */
  predicate Connected(t: Task, path: nat) { t.path == path && t.refs > 0 }

  predicate AnyConnected(a: App, path: nat) {
    exists i :: 0 <= i < |a.tasks| && Connected(a.tasks[i], path)
  }

  function CompleteConnected(ts: seq<Task>, path: nat, o: Outcome): (r: seq<Task>)
    ensures |r| == |ts|
    ensures forall i :: 0 <= i < |ts| ==>
      r[i] == if Connected(ts[i], path) then Complete(ts[i], o) else ts[i]
  {
    seq(|ts|, i requires 0 <= i < |ts| => if Connected(ts[i], path) then Complete(ts[i], o) else ts[i])
  }

  /** The per-process message: every connected handler drops the table entry and completes its task. */
  function OnFinal(a: App, path: nat, code: Status): App {
    App(if AnyConnected(a, path) then a.exited - {path} else a.exited,
        CompleteConnected(a.tasks, path, Code(code)))
  }

  function OnPong(a: App, k: nat, alive: bool): App
    requires k < |a.tasks|
  {
    var t := a.tasks[k];
    if alive then a.(tasks := a.tasks[k := Unref(t)])
    else
      var o := if t.path in a.exited then Code(TablePathCode(a.exited[t.path])) else Failed;
      App(a.exited - {t.path}, a.tasks[k := Unref(Complete(t, o))])
  }

  /** wait_async: one reference for the ping callback, one to stay alive until completion. */
  function NewTask(path: nat): Task { Task(path, 2, false, []) }

  predicate Deliverable(a: App, m: Message) { m.Pong? ==> m.task < |a.tasks| }

  function Receive(a: App, m: Message): App
    requires Deliverable(a, m)
  {
    match m
    case ProcessExited(p, s) => OnProcessExited(a, p, s)
    case Exited(p, ret) => OnFinal(a, p, ExitCode(ret, 0))
    case Signaled(p, sig) => OnFinal(a, p, ExitCode(0, sig))
    case Pong(k, alive) => OnPong(a, k, alive)
  }

  // ---------- what the agent does ----------

  function FinalMessage(path: nat, s: Status): Message {
    if IfSignaled(s) then Signaled(path, TermSig(s)) else Exited(path, ExitStatus(s))
  }

  function DeathMessages(path: nat, s: Status): seq<Message> {
    [ProcessExited(path, s), FinalMessage(path, s)]
  }

  // ---------- the whole system ----------

  datatype Step =
    | Spawn
    | Die(path: nat, status: Status)
    | WaitCallback(path: nat)
    | WaitAsync(path: nat)
    | HandlePing
    | Deliver

  function Init(): System { System([], [], [], App(map[], [])) }

  predicate Enabled(s: System, step: Step) {
    match step
    case Spawn => true
    case Die(p, st) => p < |s.children| && s.children[p].Running? && OfDeadChild(st)
    case WaitCallback(p) => p < |s.children| && s.children[p].Dead?
    case WaitAsync(p) => p < |s.children|
    case HandlePing => |s.requests| > 0 && s.requests[0].task < |s.app.tasks|
                       && s.app.tasks[s.requests[0].task].path < |s.children|
    case Deliver => |s.bus| > 0 && Deliverable(s.app, s.bus[0])
  }

  function Apply(s: System, step: Step): System
    requires Enabled(s, step)
  {
    match step
    case Spawn => s.(children := s.children + [Running])
    case Die(p, st) => s.(children := s.children[p := Dead(st)])
    case WaitCallback(p) =>
      var st := s.children[p].status;
      s.(children := s.children[p := Gone(st)], bus := s.bus + DeathMessages(p, st))
    case WaitAsync(p) =>
      s.(requests := s.requests + [Ping(|s.app.tasks|)],
         app := s.app.(tasks := s.app.tasks + [NewTask(p)]))
    case HandlePing =>
      var k := s.requests[0].task;
      var p := s.app.tasks[k].path;
      s.(requests := s.requests[1..], bus := s.bus + [Pong(k, !s.children[p].Gone?)])
    case Deliver =>
      s.(bus := s.bus[1..], app := Receive(s.app, s.bus[0]))
  }

  /** A run from the initial state, one step at a time. */
  datatype Run = Start | Then(before: Run, step: Step)

  predicate Valid(r: Run)
    decreases r, 0
  {
    r.Then? ==> Valid(r.before) && Enabled(End(r.before), r.step)
  }

  /** The state a run ends in. */
  function End(r: Run): System
    requires Valid(r)
    decreases r, 1
  {
    if r.Start? then Init() else Apply(End(r.before), r.step)
  }

  /** `later` continues the run `r`. */
  predicate Continues(later: Run, r: Run) {
    later == r || (later.Then? && Continues(later.before, r))
  }

  // ---------- invariant ----------

  /** The application has processed the Exited or Signaled message of this process. */
  ghost predicate FinalDelivered(s: System, p: nat)
    requires p < |s.children|
  {
    s.children[p].Gone? && FinalMessage(p, s.children[p].status) !in s.bus
  }

  ghost predicate AnnounceDelivered(s: System, p: nat)
    requires p < |s.children|
  {
    s.children[p].Gone? && ProcessExited(p, s.children[p].status) !in s.bus
  }

  ghost predicate PingInFlight(s: System, k: nat) {
    Ping(k) in s.requests || Pong(k, true) in s.bus || Pong(k, false) in s.bus
  }

  ghost predicate MessageOk(s: System, m: Message) {
    match m
    case Pong(k, alive) =>
      k < |s.app.tasks| && s.app.tasks[k].path < |s.children| && (!alive ==> s.children[s.app.tasks[k].path].Gone?)
    case _ =>
      m.path < |s.children| && s.children[m.path].Gone? && m in DeathMessages(m.path, s.children[m.path].status)
  }

  /** Where a message stands in the story of one process: announced, finished, ping refused. */
  ghost function Concerns(s: System, m: Message): int {
    if m.Pong? then if m.alive || m.task >= |s.app.tasks| then -1 else s.app.tasks[m.task].path
    else m.path
  }

  ghost function Rank(m: Message): int {
    if m.ProcessExited? then 0 else if m.Pong? then 2 else 1
  }

  ghost predicate InOrder(s: System, a: Message, b: Message) {
    && (Concerns(s, a) == Concerns(s, b) != -1 ==> Rank(a) < Rank(b) || (a.Pong? && b.Pong?))
    && (a.Pong? && b.Pong? ==> a.task < b.task)
  }

  ghost predicate BusInv(s: System) {
    && (forall i :: 0 <= i < |s.bus| ==> MessageOk(s, s.bus[i]))
    && (forall i, j :: 0 <= i < j < |s.bus| ==> InOrder(s, s.bus[i], s.bus[j]))
    && (forall i :: 0 <= i < |s.requests| ==> s.requests[i].task < |s.app.tasks|)
    && (forall i, j :: 0 <= i < j < |s.requests| ==> s.requests[i].task < s.requests[j].task)
    && (forall i, j :: 0 <= i < |s.bus| && 0 <= j < |s.requests| && s.bus[i].Pong? ==> s.bus[i].task < s.requests[j].task)
  }

  ghost predicate ChildInv(s: System) {
    forall p :: 0 <= p < |s.children| && !s.children[p].Running? ==> OfDeadChild(s.children[p].status)
  }

  ghost predicate TaskInv(s: System, k: nat)
    requires k < |s.app.tasks|
  {
    var t := s.app.tasks[k];
    && t.path < |s.children|
    && t.refs == (if PingInFlight(s, k) then 1 else 0) + (if t.completed then 0 else 1)
    && |t.results| == (if t.completed then 1 else 0)
    && (t.completed ==> FinalDelivered(s, t.path))
    && (t.completed && t.results[0].Code? ==> t.results[0].code == WithoutCore(s.children[t.path].status))
    && (!t.completed && FinalDelivered(s, t.path) ==> PingInFlight(s, k) && Pong(k, true) !in s.bus)
    && (t.path in s.app.exited && FinalDelivered(s, t.path) ==> !t.completed)
  }

  ghost predicate Waited(s: System, p: nat) {
    exists k :: 0 <= k < |s.app.tasks| && s.app.tasks[k].path == p
  }

  ghost predicate TableInv(s: System) {
    && (forall p :: p in s.app.exited ==>
          p < |s.children| && AnnounceDelivered(s, p) && s.app.exited[p] == s.children[p].status)
    && (forall p :: 0 <= p < |s.children| && AnnounceDelivered(s, p) && p !in s.app.exited ==> Waited(s, p))
  }

  ghost predicate AnnouncedFirst(s: System) {
    forall p :: 0 <= p < |s.children| && FinalDelivered(s, p) ==> AnnounceDelivered(s, p)
  }

  ghost predicate TasksInv(s: System) {
    forall k :: 0 <= k < |s.app.tasks| ==> TaskInv(s, k)
  }

  /** Everything but the contents of the bus. */
  ghost predicate StateInv(s: System) {
    ChildInv(s) && TableInv(s) && AnnouncedFirst(s) && TasksInv(s)
  }

  ghost predicate Inv(s: System) { BusInv(s) && StateInv(s) }

  lemma InitInv()
    ensures Inv(Init())
  {}

  // ---------- steps of the agent ----------

  /** The application cannot tell the two states apart by what has reached it. */
  ghost predicate SameTraffic(s: System, s': System) {
    && |s.children| <= |s'.children|
    && (forall p :: 0 <= p < |s.children| ==>
          && FinalDelivered(s', p) == FinalDelivered(s, p)
          && AnnounceDelivered(s', p) == AnnounceDelivered(s, p)
          && (s.children[p].Gone? ==> s'.children[p] == s.children[p]))
    && (forall p :: |s.children| <= p < |s'.children| ==> !s'.children[p].Gone?)
    && (forall k :: PingInFlight(s', k) == PingInFlight(s, k))
    && (forall k :: Pong(k, true) in s'.bus && !PingAsked(s, k) ==> Pong(k, true) in s.bus)
  }

  /** The ping of this wait has not reached the agent while its child was still there. */
  ghost predicate PingAsked(s: System, k: nat) {
    k < |s.app.tasks| && s.app.tasks[k].path < |s.children| && !s.children[s.app.tasks[k].path].Gone?
  }

  lemma CarryState(s: System, s': System)
    requires StateInv(s) && ChildInv(s') && s'.app == s.app && SameTraffic(s, s')
    ensures StateInv(s')
  {
    forall k | 0 <= k < |s.app.tasks| ensures TaskInv(s', k) { assert TaskInv(s, k); }
    forall q | 0 <= q < |s'.children| && AnnounceDelivered(s', q) && q !in s'.app.exited ensures Waited(s', q) {
      assert AnnounceDelivered(s, q) && Waited(s, q);
    }
  }

  lemma SpawnInv(s: System)
    requires Inv(s)
    ensures Inv(Apply(s, Spawn))
  {
    var s' := Apply(s, Spawn);
    SameBus(s, s');
    CarryState(s, s');
  }

  lemma DieInv(s: System, p: nat, st: Status)
    requires Inv(s) && Enabled(s, Die(p, st))
    ensures Inv(Apply(s, Die(p, st)))
  {
    var s' := Apply(s, Die(p, st));
    SameBus(s, s');
    CarryState(s, s');
  }

  lemma SameBus(s: System, s': System)
    requires BusInv(s) && s'.requests == s.requests && s'.bus == s.bus && s'.app == s.app
    requires |s.children| <= |s'.children|
    requires forall p :: 0 <= p < |s.children| ==>
      s'.children[p] == s.children[p] || (!s.children[p].Gone? && !s'.children[p].Gone?)
    ensures BusInv(s')
  {
    forall i | 0 <= i < |s.bus| ensures MessageOk(s', s'.bus[i]) { assert MessageOk(s, s.bus[i]); }
    forall i, j | 0 <= i < j < |s.bus| ensures InOrder(s', s'.bus[i], s'.bus[j]) { assert InOrder(s, s.bus[i], s.bus[j]); }
  }

  lemma WaitCallbackBus(s: System, p: nat)
    requires BusInv(s) && Enabled(s, WaitCallback(p))
    ensures BusInv(Apply(s, WaitCallback(p)))
  {
    var s' := Apply(s, WaitCallback(p));
    forall i | 0 <= i < |s'.bus| ensures MessageOk(s', s'.bus[i]) {
      if i < |s.bus| { assert MessageOk(s, s.bus[i]); }
    }
    forall i, j | 0 <= i < j < |s'.bus| ensures InOrder(s', s'.bus[i], s'.bus[j]) {
      if i < |s.bus| { assert MessageOk(s, s.bus[i]); }
      if j < |s.bus| { assert InOrder(s, s.bus[i], s.bus[j]); }
    }
  }

  /** Sending both messages puts them in flight and leaves all other traffic alone. */
  lemma WaitCallbackTraffic(s: System, p: nat)
    requires Enabled(s, WaitCallback(p))
    ensures SameTraffic(s, Apply(s, WaitCallback(p)))
  {
    var s' := Apply(s, WaitCallback(p));
    var st := s.children[p].status;
    assert s'.bus[|s.bus|] == ProcessExited(p, st) && s'.bus[|s.bus| + 1] == FinalMessage(p, st);
  }

  lemma WaitCallbackInv(s: System, p: nat)
    requires Inv(s) && Enabled(s, WaitCallback(p))
    ensures Inv(Apply(s, WaitCallback(p)))
  {
    WaitCallbackBus(s, p);
    WaitCallbackTraffic(s, p);
    CarryState(s, Apply(s, WaitCallback(p)));
  }

  lemma HandlePingBus(s: System)
    requires BusInv(s) && Enabled(s, HandlePing)
    ensures BusInv(Apply(s, HandlePing))
  {
    var s' := Apply(s, HandlePing);
    forall i | 0 <= i < |s'.bus| ensures MessageOk(s', s'.bus[i]) {
      if i < |s.bus| { assert MessageOk(s, s.bus[i]); }
    }
    forall i, j | 0 <= i < j < |s'.bus| ensures InOrder(s', s'.bus[i], s'.bus[j]) {
      assert MessageOk(s, s.bus[i]);
      if j < |s.bus| { assert InOrder(s, s.bus[i], s.bus[j]); }
    }
  }

  /** Answering a ping only turns a request into its pong. */
  lemma HandlePingTraffic(s: System)
    requires BusInv(s) && Enabled(s, HandlePing)
    ensures SameTraffic(s, Apply(s, HandlePing))
  {
    var s' := Apply(s, HandlePing);
    assert s.requests == [s.requests[0]] + s'.requests;
  }

  lemma HandlePingInv(s: System)
    requires Inv(s) && Enabled(s, HandlePing)
    ensures Inv(Apply(s, HandlePing))
  {
    HandlePingBus(s);
    HandlePingTraffic(s);
    CarryState(s, Apply(s, HandlePing));
  }

  // ---------- a new wait ----------

  lemma WaitAsyncBus(s: System, p: nat)
    requires BusInv(s) && Enabled(s, WaitAsync(p))
    ensures BusInv(Apply(s, WaitAsync(p)))
    ensures forall alive :: Pong(|s.app.tasks|, alive) !in s.bus
  {
    var s' := Apply(s, WaitAsync(p));
    forall i | 0 <= i < |s.bus| ensures MessageOk(s', s'.bus[i]) { assert MessageOk(s, s.bus[i]); }
    forall i, j | 0 <= i < j < |s.bus| ensures InOrder(s', s'.bus[i], s'.bus[j]) {
      assert MessageOk(s, s.bus[i]) && MessageOk(s, s.bus[j]) && InOrder(s, s.bus[i], s.bus[j]);
    }
  }

  lemma WaitAsyncState(s: System, p: nat)
    requires StateInv(s) && Enabled(s, WaitAsync(p))
    requires forall alive :: Pong(|s.app.tasks|, alive) !in s.bus
    ensures StateInv(Apply(s, WaitAsync(p)))
  {
    var s' := Apply(s, WaitAsync(p));
    var n := |s.app.tasks|;
    assert s'.requests[|s.requests|] == Ping(n);
    forall k | 0 <= k <= n ensures TaskInv(s', k) {
      if k < n {
        assert TaskInv(s, k);
        assert PingInFlight(s', k) == PingInFlight(s, k);
      }
    }
    forall q | 0 <= q < |s'.children| && AnnounceDelivered(s', q) && q !in s'.app.exited ensures Waited(s', q) {
      assert AnnounceDelivered(s, q);
      var k :| 0 <= k < |s.app.tasks| && s.app.tasks[k].path == q;
      assert s'.app.tasks[k].path == q;
    }
  }

  // ---------- delivery, one lemma per kind of message ----------

  /** Taking the head off the bus: what is left is unchanged, and the head does not recur. */
  lemma HeadLeaves(s: System)
    requires BusInv(s) && |s.bus| > 0
    ensures s.bus[0] !in s.bus[1..]
    ensures forall m :: m in s.bus <==> m == s.bus[0] || m in s.bus[1..]
    ensures s.bus[0].Pong? ==> Pong(s.bus[0].task, !s.bus[0].alive) !in s.bus && Ping(s.bus[0].task) !in s.requests
  {
    forall j | 0 < j < |s.bus| ensures s.bus[j] != s.bus[0] {
      assert InOrder(s, s.bus[0], s.bus[j]) && MessageOk(s, s.bus[0]);
    }
    forall j | 0 <= j < |s.bus| && s.bus[0].Pong? ensures s.bus[j] != Pong(s.bus[0].task, !s.bus[0].alive) {
      assert j > 0 ==> InOrder(s, s.bus[0], s.bus[j]);
    }
  }

  lemma DeliverBus(s: System, s': System)
    requires BusInv(s) && |s.bus| > 0
    requires s'.children == s.children && s'.requests == s.requests && s'.bus == s.bus[1..]
    requires |s'.app.tasks| == |s.app.tasks|
    requires forall k :: 0 <= k < |s.app.tasks| ==> s'.app.tasks[k].path == s.app.tasks[k].path
    ensures BusInv(s')
  {
    forall i | 0 <= i < |s'.bus| ensures MessageOk(s', s'.bus[i]) { assert MessageOk(s, s.bus[i + 1]); }
    forall i, j | 0 <= i < j < |s'.bus| ensures InOrder(s', s'.bus[i], s'.bus[j]) {
      assert InOrder(s, s.bus[i + 1], s.bus[j + 1]);
    }
  }

  /** What a delivery does to the traffic: only the head of the bus is missing afterwards. */
  ghost predicate HeadGone(s: System, s': System) {
    && |s.bus| > 0
    && s'.children == s.children && s'.requests == s.requests
    && (forall m :: m in s'.bus <==> m in s.bus && m != s.bus[0])
    && s.bus[0] in s.bus
  }

  lemma DeliverTraffic(s: System)
    requires BusInv(s) && Enabled(s, Deliver)
    ensures HeadGone(s, Apply(s, Deliver)) && MessageOk(s, s.bus[0])
  {
    HeadLeaves(s);
  }

  lemma AnnounceState(s: System, s': System, p: nat)
    requires StateInv(s) && HeadGone(s, s') && p < |s.children| && s.children[p].Gone?
    requires s.bus[0] == ProcessExited(p, s.children[p].status)
    requires s'.app == OnProcessExited(s.app, p, s.children[p].status)
    ensures StateInv(s')
  {
    assert !FinalDelivered(s, p) by { assert !AnnounceDelivered(s, p); }
    forall q | 0 <= q < |s.children| ensures FinalDelivered(s', q) == FinalDelivered(s, q) {}
    forall q | 0 <= q < |s.children| && q != p ensures AnnounceDelivered(s', q) == AnnounceDelivered(s, q) {}
    forall k | 0 <= k < |s.app.tasks| ensures TaskInv(s', k) {
      assert TaskInv(s, k);
      assert PingInFlight(s', k) == PingInFlight(s, k);
    }
    forall q | 0 <= q < |s'.children| && AnnounceDelivered(s', q) && q !in s'.app.exited ensures Waited(s', q) {
      assert AnnounceDelivered(s, q) && Waited(s, q);
    }
  }

  /** The final message arrives after the announcement. */
  lemma FinalAtHead(s: System)
    requires BusInv(s) && |s.bus| > 0 && (s.bus[0].Exited? || s.bus[0].Signaled?)
    ensures var p := s.bus[0].path;
      && p < |s.children| && s.children[p].Gone? && s.bus[0] == FinalMessage(p, s.children[p].status)
      && AnnounceDelivered(s, p) && !FinalDelivered(s, p)
  {
    var p := s.bus[0].path;
    assert MessageOk(s, s.bus[0]);
    forall j | 0 <= j < |s.bus| ensures s.bus[j] != ProcessExited(p, s.children[p].status) {
      assert j > 0 ==> InOrder(s, s.bus[0], s.bus[j]);
    }
  }

  /** Delivering the final message of p changes nothing about the traffic of any other process. */
  lemma FinalTraffic(s: System, s': System, p: nat)
    requires HeadGone(s, s') && p < |s.children| && s.children[p].Gone?
    requires s.bus[0] == FinalMessage(p, s.children[p].status)
    ensures FinalDelivered(s', p)
    ensures forall q :: 0 <= q < |s.children| && q != p ==> FinalDelivered(s', q) == FinalDelivered(s, q)
    ensures forall q :: 0 <= q < |s.children| ==> AnnounceDelivered(s', q) == AnnounceDelivered(s, q)
    ensures forall k, alive :: Pong(k, alive) in s'.bus <==> Pong(k, alive) in s.bus
    ensures forall k :: PingInFlight(s', k) == PingInFlight(s, k)
  {}

  lemma FinalTask(s: System, s': System, p: nat, k: nat)
    requires StateInv(s) && HeadGone(s, s') && p < |s.children| && s.children[p].Gone?
    requires s.bus[0] == FinalMessage(p, s.children[p].status) && AnnounceDelivered(s, p)
    requires s'.app == OnFinal(s.app, p, SignalPathCode(s.children[p].status))
    requires k < |s.app.tasks|
    ensures TaskInv(s', k)
  {
    FinalTraffic(s, s', p);
    BothPathsAgree(s.children[p].status);
    assert TaskInv(s, k);
    if s.app.tasks[k].path == p { assert Connected(s.app.tasks[k], p); }
  }

  lemma FinalTable(s: System, s': System, p: nat)
    requires TableInv(s) && HeadGone(s, s') && p < |s.children| && s.children[p].Gone?
    requires s.bus[0] == FinalMessage(p, s.children[p].status)
    requires s'.app == OnFinal(s.app, p, SignalPathCode(s.children[p].status))
    ensures TableInv(s')
  {
    FinalTraffic(s, s', p);
    forall q | 0 <= q < |s'.children| && AnnounceDelivered(s', q) && q !in s'.app.exited ensures Waited(s', q) {
      assert AnnounceDelivered(s, q);
      var k :| 0 <= k < |s.app.tasks| && s.app.tasks[k].path == q;
      assert s'.app.tasks[k].path == q;
    }
  }

  lemma FinalState(s: System, s': System, p: nat)
    requires StateInv(s) && HeadGone(s, s') && p < |s.children| && s.children[p].Gone?
    requires s.bus[0] == FinalMessage(p, s.children[p].status) && AnnounceDelivered(s, p)
    requires s'.app == OnFinal(s.app, p, SignalPathCode(s.children[p].status))
    ensures StateInv(s')
  {
    FinalTable(s, s', p);
    forall k | 0 <= k < |s.app.tasks| ensures TaskInv(s', k) { FinalTask(s, s', p, k); }
    FinalTraffic(s, s', p);
  }

  /** A refused ping comes back after the final message. */
  lemma PongAtHead(s: System)
    requires BusInv(s) && |s.bus| > 0 && s.bus[0].Pong?
    ensures var k := s.bus[0].task;
      && k < |s.app.tasks| && s.app.tasks[k].path < |s.children|
      && (!s.bus[0].alive ==> FinalDelivered(s, s.app.tasks[k].path))
      && Ping(k) !in s.requests && Pong(k, !s.bus[0].alive) !in s.bus
  {
    HeadLeaves(s);
    assert MessageOk(s, s.bus[0]);
    if !s.bus[0].alive {
      var p := s.app.tasks[s.bus[0].task].path;
      forall j | 0 <= j < |s.bus| ensures s.bus[j] != FinalMessage(p, s.children[p].status) {
        assert j > 0 ==> InOrder(s, s.bus[0], s.bus[j]);
      }
    }
  }

  lemma PongTask(s: System, s': System, k0: nat, k: nat)
    requires StateInv(s) && HeadGone(s, s') && s.bus[0].Pong? && s.bus[0].task == k0
    requires k0 < |s.app.tasks| && s.app.tasks[k0].path < |s.children|
    requires Ping(k0) !in s.requests && Pong(k0, !s.bus[0].alive) !in s.bus
    requires !s.bus[0].alive ==> FinalDelivered(s, s.app.tasks[k0].path)
    requires s'.app == OnPong(s.app, k0, s.bus[0].alive)
    requires k < |s.app.tasks|
    ensures TaskInv(s', k)
  {
    var p := s.app.tasks[k0].path;
    assert TaskInv(s, k0) && TaskInv(s, k);
    if !s.bus[0].alive && p in s.app.exited { BothPathsAgree(s.children[p].status); }
    assert FinalDelivered(s', s.app.tasks[k].path) == FinalDelivered(s, s.app.tasks[k].path);
    assert k != k0 ==> PingInFlight(s', k) == PingInFlight(s, k);
  }

  lemma PongState(s: System, s': System, k0: nat)
    requires StateInv(s) && HeadGone(s, s') && s.bus[0].Pong? && s.bus[0].task == k0
    requires k0 < |s.app.tasks| && s.app.tasks[k0].path < |s.children|
    requires Ping(k0) !in s.requests && Pong(k0, !s.bus[0].alive) !in s.bus
    requires !s.bus[0].alive ==> FinalDelivered(s, s.app.tasks[k0].path)
    requires s'.app == OnPong(s.app, k0, s.bus[0].alive)
    ensures StateInv(s')
  {
    forall k | 0 <= k < |s.app.tasks| ensures TaskInv(s', k) { PongTask(s, s', k0, k); }
    forall q | 0 <= q < |s.children|
      ensures FinalDelivered(s', q) == FinalDelivered(s, q) && AnnounceDelivered(s', q) == AnnounceDelivered(s, q)
    {}
    forall q | 0 <= q < |s'.children| && AnnounceDelivered(s', q) && q !in s'.app.exited ensures Waited(s', q) {
      var k :| 0 <= k < |s.app.tasks| && s.app.tasks[k].path == q;
      assert s'.app.tasks[k].path == q;
    }
  }

  lemma DeliverInv(s: System)
    requires Inv(s) && Enabled(s, Deliver)
    ensures Inv(Apply(s, Deliver))
  {
    var s' := Apply(s, Deliver);
    DeliverBus(s, s');
    DeliverTraffic(s);
    match s.bus[0] {
      case ProcessExited(p, _) => AnnounceState(s, s', p);
      case Exited(p, _) => FinalAtHead(s); FinalState(s, s', p);
      case Signaled(p, _) => FinalAtHead(s); FinalState(s, s', p);
      case Pong(k, _) => PongAtHead(s); PongState(s, s', k);
    }
  }

  lemma StepInv(s: System, step: Step)
    requires Inv(s) && Enabled(s, step)
    ensures Inv(Apply(s, step))
  {
    match step
    case Spawn => SpawnInv(s);
    case Die(p, st) => DieInv(s, p, st);
    case WaitCallback(p) => WaitCallbackInv(s, p);
    case WaitAsync(p) => WaitAsyncBus(s, p); WaitAsyncState(s, p);
    case HandlePing => HandlePingInv(s);
    case Deliver => DeliverInv(s);
  }

  lemma {:induction false} RunInv(r: Run)
    requires Valid(r)
    ensures Inv(End(r))
  {
    if r.Then? {
      RunInv(r.before);
      StepInv(End(r.before), r.step);
    }
  }

  // ---------- main results ----------

  /** Safety: in every state of every run a wait has returned at most once, never while its child
    * still has news on the way, and any code it returned is the child's true status. */
  lemma WaitsReturnTheTruth(r: Run, k: nat)
    requires Valid(r) && k < |End(r).app.tasks|
    ensures var s := End(r); var t := s.app.tasks[k];
      && t.path < |s.children|
      && |t.results| <= 1
      && (|t.results| == 1 <==> t.completed)
      && (t.completed ==> s.children[t.path].Gone? && FinalMessage(t.path, s.children[t.path].status) !in s.bus)
      && (t.completed && t.results[0].Code? ==> t.results[0].code == WithoutCore(s.children[t.path].status))
      && 0 <= t.refs <= 2
  {
    RunInv(r);
    assert TaskInv(End(r), k);
  }

  /** Nothing about process p is still on its way: no message, no ping, no pong. */
  ghost predicate Quiet(s: System, p: nat) {
    && p < |s.children| && s.children[p].Gone?
    && (forall i :: 0 <= i < |s.bus| ==>
          if s.bus[i].Pong? then s.bus[i].task < |s.app.tasks| ==> s.app.tasks[s.bus[i].task].path != p
          else s.bus[i].path != p)
    && (forall i :: 0 <= i < |s.requests| ==>
          s.requests[i].task < |s.app.tasks| ==> s.app.tasks[s.requests[i].task].path != p)
  }

  /** Completion and cleanup: once a child is gone and its traffic has been delivered, each of its
    * waits has returned exactly once and dropped both references, and a waited-for path has left
    * the table. */
  lemma QuietMeansDone(r: Run, p: nat)
    requires Valid(r) && Quiet(End(r), p)
    ensures var s := End(r);
      && (forall k :: 0 <= k < |s.app.tasks| && s.app.tasks[k].path == p ==>
            s.app.tasks[k].completed && |s.app.tasks[k].results| == 1 && s.app.tasks[k].refs == 0)
      && (p in s.app.exited <==> !Waited(s, p))
  {
    RunInv(r);
    var s := End(r);
    forall k | 0 <= k < |s.app.tasks| && s.app.tasks[k].path == p
      ensures !PingInFlight(s, k) && s.app.tasks[k].completed && |s.app.tasks[k].results| == 1 && s.app.tasks[k].refs == 0
    {
      assert TaskInv(s, k);
    }
    if Waited(s, p) {
      var k :| 0 <= k < |s.app.tasks| && s.app.tasks[k].path == p;
      assert TaskInv(s, k);
    }
  }

  /** Work left for the agent and the bus; dying and waiting are up to the environment. */
  function Backlog(cs: seq<Child>): nat {
    if cs == [] then 0 else (if cs[0].Dead? then 3 else 0) + Backlog(cs[1..])
  }

  function Work(s: System): nat { Backlog(s.children) + 2 * |s.requests| + |s.bus| }

  lemma {:induction false} BacklogAt(cs: seq<Child>, p: nat, c: Child)
    requires p < |cs|
    ensures Backlog(cs[p := c]) - (if c.Dead? then 3 else 0) == Backlog(cs) - (if cs[p].Dead? then 3 else 0)
  {
    if p > 0 {
      BacklogAt(cs[1..], p - 1, c);
      assert cs[p := c][1..] == cs[1..][p - 1 := c];
    }
  }

  lemma CallbackUsesWork(s: System, p: nat)
    requires Enabled(s, WaitCallback(p))
    ensures Work(Apply(s, WaitCallback(p))) < Work(s)
  {
    BacklogAt(s.children, p, Gone(s.children[p].status));
  }

  predicate Internal(step: Step) { step.WaitCallback? || step.HandlePing? || step.Deliver? }

  /** Progress: every step of the agent or the bus uses up work, and as long as any work is left
    * such a step is enabled.  So once nobody dies or waits any more a run comes to rest, with every
    * child that has died quiet. */
  lemma Progress(r: Run)
    requires Valid(r)
    ensures var s := End(r);
      && (forall step :: Enabled(s, step) && Internal(step) ==> Work(Apply(s, step)) < Work(s))
      && (Work(s) > 0 ==> exists step :: Enabled(s, step) && Internal(step))
      && (Work(s) == 0 ==> forall p :: 0 <= p < |s.children| ==> s.children[p].Running? || Quiet(s, p))
  {
    RunInv(r);
    var s := End(r);
    forall step | Enabled(s, step) && Internal(step) ensures Work(Apply(s, step)) < Work(s) {
      if step.WaitCallback? { CallbackUsesWork(s, step.path); }
    }
    if |s.bus| > 0 {
      assert MessageOk(s, s.bus[0]);
      assert Enabled(s, Deliver);
    } else if |s.requests| > 0 {
      assert TaskInv(s, s.requests[0].task);
      assert Enabled(s, HandlePing);
    } else if Backlog(s.children) > 0 {
      var p := FindDead(s.children);
      assert Enabled(s, WaitCallback(p));
    } else {
      NoBacklog(s.children);
    }
  }

  lemma {:induction false} NoBacklog(cs: seq<Child>)
    requires Backlog(cs) == 0
    ensures forall p :: 0 <= p < |cs| ==> !cs[p].Dead?
  {
    if cs != [] {
      NoBacklog(cs[1..]);
      assert forall p :: 0 < p < |cs| ==> cs[p] == cs[1..][p - 1];
    }
  }

  lemma FindDead(cs: seq<Child>) returns (p: nat)
    requires Backlog(cs) > 0
    ensures p < |cs| && cs[p].Dead?
  {
    if cs[0].Dead? { p := 0; } else { p := FindDead(cs[1..]); p := p + 1; }
  }

  // ---------- which waits fail ----------

  /** A wait is too late when its process has delivered its final message already and an earlier
    * wait is there to use up the table entry. */
  ghost predicate TooLate(s: System, p: nat) {
    p < |s.children| && FinalDelivered(s, p) && Waited(s, p)
  }

  ghost predicate EarlierPending(s: System, k: nat)
    requires k < |s.app.tasks|
  {
    exists j :: 0 <= j < k && s.app.tasks[j].path == s.app.tasks[k].path && !s.app.tasks[j].completed
  }

  /** What a wait of either kind looks like in every later state. */
  ghost predicate Fate(s: System, k: nat, late: bool) {
    && k < |s.app.tasks| && s.app.tasks[k].path < |s.children|
    && var t := s.app.tasks[k];
       if late then
         && FinalDelivered(s, t.path)
         && (if t.completed then t.results == [Failed] else t.path !in s.app.exited || EarlierPending(s, k))
       else
         && (t.completed ==> |t.results| == 1 && t.results[0].Code?)
         && (!t.completed && FinalDelivered(s, t.path) ==>
               t.path in s.app.exited && forall j :: 0 <= j < k ==> s.app.tasks[j].path != t.path)
  }

  lemma FateBegins(s: System, p: nat)
    requires TasksInv(s) && Enabled(s, WaitAsync(p))
    requires FinalDelivered(s, p) && p !in s.app.exited ==> Waited(s, p)
    ensures Fate(Apply(s, WaitAsync(p)), |s.app.tasks|, TooLate(s, p))
  {
    var s' := Apply(s, WaitAsync(p));
    var n := |s.app.tasks|;
    if TooLate(s, p) && p in s.app.exited {
      var j :| 0 <= j < n && s.app.tasks[j].path == p;
      assert TaskInv(s, j);
      assert s'.app.tasks[j] == s.app.tasks[j];
      assert EarlierPending(s', n);
    }
  }

  /** Pongs arrive in the order of their waits. */
  lemma PongsInOrder(s: System, j: nat)
    requires BusInv(s) && |s.bus| > 0 && s.bus[0].Pong? && j < s.bus[0].task
    ensures !PingInFlight(s, j)
  {
    forall i, alive | 0 <= i < |s.bus| ensures s.bus[i] != Pong(j, alive) {
      assert i > 0 ==> InOrder(s, s.bus[0], s.bus[i]);
    }
  }

  /** A pong for the wait itself. */
  lemma FateOnOwnPong(s: System, s': System, k: nat, late: bool)
    requires TasksInv(s) && Fate(s, k, late) && HeadGone(s, s') && s.bus[0].Pong? && s.bus[0].task == k
    requires !s.bus[0].alive ==> FinalDelivered(s, s.app.tasks[k].path)
    requires late && !s.app.tasks[k].completed ==> !EarlierPending(s, k)
    requires s'.app == OnPong(s.app, k, s.bus[0].alive)
    ensures Fate(s', k, late)
  {
    var p := s.app.tasks[k].path;
    assert TaskInv(s, k);
    assert FinalDelivered(s', p) == FinalDelivered(s, p);
  }

  /** A pong for another wait; only one made earlier matters while this one is pending. */
  lemma FateOnOtherPong(s: System, s': System, k: nat, late: bool, j0: nat)
    requires TasksInv(s) && Fate(s, k, late) && HeadGone(s, s') && s.bus[0] == Pong(j0, s.bus[0].Pong? && s.bus[0].alive)
    requires j0 < |s.app.tasks| && j0 != k
    requires !s.app.tasks[k].completed && FinalDelivered(s, s.app.tasks[k].path) ==>
      j0 < k && forall j :: 0 <= j < j0 ==> !PingInFlight(s, j)
    requires s'.app == OnPong(s.app, j0, s.bus[0].alive)
    ensures Fate(s', k, late)
  {
    var p := s.app.tasks[k].path;
    assert TaskInv(s, j0) && s'.app.tasks[k] == s.app.tasks[k];
    assert FinalDelivered(s', p) == FinalDelivered(s, p);
    if late && !s.app.tasks[k].completed && p in s'.app.exited {
      var j :| 0 <= j < k && s.app.tasks[j].path == p && !s.app.tasks[j].completed;
      assert TaskInv(s, j);
      if j != j0 { assert s'.app.tasks[j] == s.app.tasks[j]; }
      assert EarlierPending(s', k);
    }
  }

  lemma FateOnFinal(s: System, s': System, k: nat, late: bool, p: nat)
    requires TasksInv(s) && Fate(s, k, late) && HeadGone(s, s') && p < |s.children| && s.children[p].Gone?
    requires s.bus[0] == FinalMessage(p, s.children[p].status)
    requires s'.app == OnFinal(s.app, p, SignalPathCode(s.children[p].status))
    ensures Fate(s', k, late)
  {
    FinalTraffic(s, s', p);
    assert TaskInv(s, k);
    var q := s.app.tasks[k].path;
    if q == p {
      assert !FinalDelivered(s, p);
      assert Connected(s.app.tasks[k], p);
    } else if late && !s.app.tasks[k].completed && EarlierPending(s, k) {
      var j :| 0 <= j < k && s.app.tasks[j].path == q && !s.app.tasks[j].completed;
      assert s'.app.tasks[j] == s.app.tasks[j];
      assert EarlierPending(s', k);
    }
  }

  /** Steps that change neither a wait nor what has reached the application about it. */
  lemma FateKept(s: System, s': System, k: nat, late: bool)
    requires Fate(s, k, late)
    requires |s.children| <= |s'.children| && |s.app.tasks| <= |s'.app.tasks|
    requires forall j :: 0 <= j < |s.app.tasks| ==> s'.app.tasks[j] == s.app.tasks[j]
    requires var p := s.app.tasks[k].path;
      FinalDelivered(s', p) == FinalDelivered(s, p) && (FinalDelivered(s, p) ==> (p in s'.app.exited <==> p in s.app.exited))
    ensures Fate(s', k, late)
  {
    var p := s.app.tasks[k].path;
    if late && !s.app.tasks[k].completed && EarlierPending(s, k) {
      var j :| 0 <= j < k && s.app.tasks[j].path == p && !s.app.tasks[j].completed;
      assert s'.app.tasks[j] == s.app.tasks[j];
      assert EarlierPending(s', k);
    }
  }

  lemma FateOnPong(s: System, k: nat, late: bool)
    requires BusInv(s) && TasksInv(s) && Fate(s, k, late) && Enabled(s, Deliver) && s.bus[0].Pong?
    ensures Fate(Apply(s, Deliver), k, late)
  {
    var s' := Apply(s, Deliver);
    var j0 := s.bus[0].task;
    DeliverTraffic(s);
    PongAtHead(s);
    assert TaskInv(s, k);
    forall j | 0 <= j < j0 ensures !PingInFlight(s, j) { PongsInOrder(s, j); }
    if j0 == k {
      forall j | 0 <= j < k && s.app.tasks[j].path == s.app.tasks[k].path && !s.app.tasks[j].completed
        ensures late ==> s.app.tasks[k].completed
      {
        assert TaskInv(s, j);
      }
      FateOnOwnPong(s, s', k, late);
    } else {
      FateOnOtherPong(s, s', k, late, j0);
    }
  }

  lemma FateOnDeliver(s: System, k: nat, late: bool)
    requires BusInv(s) && AnnouncedFirst(s) && TasksInv(s) && Fate(s, k, late) && Enabled(s, Deliver)
    ensures Fate(Apply(s, Deliver), k, late)
  {
    var s' := Apply(s, Deliver);
    if s.bus[0].Pong? {
      FateOnPong(s, k, late);
    } else {
      DeliverTraffic(s);
      if s.bus[0].ProcessExited? {
        assert !AnnounceDelivered(s, s.bus[0].path);
        FateKept(s, s', k, late);
      } else {
        FinalAtHead(s);
        FateOnFinal(s, s', k, late, s.bus[0].path);
      }
    }
  }

  lemma FateStep(s: System, step: Step, k: nat, late: bool)
    requires Inv(s) && Enabled(s, step) && Fate(s, k, late)
    ensures Fate(Apply(s, step), k, late)
  {
    match step
    case Deliver => FateOnDeliver(s, k, late);
    case WaitCallback(p) => WaitCallbackTraffic(s, p); FateKept(s, Apply(s, step), k, late);
    case HandlePing => HandlePingTraffic(s); FateKept(s, Apply(s, step), k, late);
    case WaitAsync(_) => FateKept(s, Apply(s, step), k, late);
    case Spawn => FateKept(s, Apply(s, step), k, late);
    case Die(_, _) => FateKept(s, Apply(s, step), k, late);
  }

  lemma {:induction false} RunFate(r: Run, p: nat, later: Run)
    requires Valid(Then(r, WaitAsync(p))) && Valid(later) && Continues(later, Then(r, WaitAsync(p)))
    ensures Fate(End(later), |End(r).app.tasks|, TooLate(End(r), p))
  {
    var s := End(later.before);
    RunInv(later.before);
    if later == Then(r, WaitAsync(p)) {
      FateBegins(s, p);
    } else {
      RunFate(r, p, later.before);
      FateStep(s, later.step, |End(r).app.tasks|, TooLate(End(r), p));
    }
  }

  lemma StepKeepsPath(s: System, step: Step, k: nat)
    ensures Enabled(s, step) && k < |s.app.tasks| ==>
              k < |Apply(s, step).app.tasks| && Apply(s, step).app.tasks[k].path == s.app.tasks[k].path
  {}

  lemma {:induction false} PathKept(r: Run, p: nat, later: Run)
    requires Valid(Then(r, WaitAsync(p))) && Valid(later) && Continues(later, Then(r, WaitAsync(p)))
    ensures |End(r).app.tasks| < |End(later).app.tasks| && End(later).app.tasks[|End(r).app.tasks|].path == p
  {
    if later == Then(r, WaitAsync(p)) {
      assert End(later).app.tasks == End(r).app.tasks + [NewTask(p)];
    } else {
      PathKept(r, p, later.before);
      StepKeepsPath(End(later.before), later.step, |End(r).app.tasks|);
    }
  }

  /** Exactness: a wait that has returned failed if and only if it was too late when it was made.
    * Otherwise it returned the child's true status; so the first wait on a process never fails. */
  lemma WaitFailsIffTooLate(r: Run, p: nat, later: Run)
    requires Valid(Then(r, WaitAsync(p))) && Valid(later) && Continues(later, Then(r, WaitAsync(p)))
    ensures var k := |End(r).app.tasks|; var s := End(later);
      && k < |s.app.tasks| && s.app.tasks[k].path == p < |s.children|
      && (s.app.tasks[k].completed ==>
            && s.children[p].Gone?
            && s.app.tasks[k].results ==
                 [if TooLate(End(r), p) then Failed else Code(WithoutCore(s.children[p].status))])
  {
    RunFate(r, p, later);
    PathKept(r, p, later);
    RunInv(later);
    assert TaskInv(End(later), |End(r).app.tasks|);
  }

  /** A child has died with code 1 and all its news has been delivered before anyone waits. */
  function NewsBeforeWait(): Run {
    Then(Then(Then(Then(Then(Start, Spawn), Die(0, 0x100)), WaitCallback(0)), Deliver), Deliver)
  }

  lemma NewsBeforeWaitEnds()
    ensures Valid(NewsBeforeWait())
    ensures End(NewsBeforeWait()) == System([Gone(0x100)], [], [], App(map[0 := 0x100], []))
  {
    var r1 := Then(Then(Then(Start, Spawn), Die(0, 0x100)), WaitCallback(0));
    assert Valid(r1) && End(r1).bus == [ProcessExited(0, 0x100), Exited(0, 1)];
    var r2 := Then(r1, Deliver);
    assert Valid(r2) && End(r2).bus == [Exited(0, 1)];
    assert End(r2).app.tasks == [] && End(r2).app.exited == map[0 := 0x100];
    assert !AnyConnected(End(r2).app, 0);
  }

  /** The second of two waits made after that comes back with an error instead of a status. */
  lemma SecondWaitCanFail() returns (later: Run)
    ensures Valid(Then(Then(NewsBeforeWait(), WaitAsync(0)), WaitAsync(0)))
    ensures Valid(later) && Continues(later, Then(Then(NewsBeforeWait(), WaitAsync(0)), WaitAsync(0)))
    ensures End(later).app.tasks == [Task(0, 0, true, [Code(0x100)]), Task(0, 0, true, [Failed])]
  {
    NewsBeforeWaitEnds();
    var r := Then(Then(NewsBeforeWait(), WaitAsync(0)), WaitAsync(0));
    assert Valid(r);
    assert End(r) == System([Gone(0x100)], [Ping(0), Ping(1)], [], App(map[0 := 0x100], [NewTask(0), NewTask(0)]));
    later := Then(Then(Then(Then(r, HandlePing), HandlePing), Deliver), Deliver);
    PongTwice(End(r));
    assert Valid(Then(r, HandlePing)) && Valid(Then(Then(r, HandlePing), HandlePing));
  }

  lemma PongTwice(s: System)
    requires s == System([Gone(0x100)], [Ping(0), Ping(1)], [], App(map[0 := 0x100], [NewTask(0), NewTask(0)]))
    ensures Enabled(s, HandlePing) && Enabled(Apply(s, HandlePing), HandlePing)
    ensures var s2 := Apply(Apply(s, HandlePing), HandlePing);
      && Enabled(s2, Deliver) && Enabled(Apply(s2, Deliver), Deliver)
      && Apply(Apply(s2, Deliver), Deliver).app.tasks == [Task(0, 0, true, [Code(0x100)]), Task(0, 0, true, [Failed])]
  {
    var s1 := Apply(s, HandlePing);
    assert s1.requests == [Ping(1)] && s1.bus == [Pong(0, false)];
    var s2 := Apply(s1, HandlePing);
    assert s2.bus == [Pong(0, false), Pong(1, false)];
    var s3 := Apply(s2, Deliver);
    assert TablePathCode(0x100) == 0x100;
    assert s3.app.tasks[0] == Task(0, 0, true, [Code(0x100)]) && s3.app.tasks[1] == NewTask(0);
    assert s3.bus == [Pong(1, false)] && 0 !in s3.app.exited;
    var s4 := Apply(s3, Deliver);
    assert s4.app.tasks[1] == Unref(Complete(NewTask(0), Failed));
    assert s4.app.tasks[1] == Task(0, 0, true, [Failed]);
    assert s4.app.tasks == [Task(0, 0, true, [Code(0x100)]), Task(0, 0, true, [Failed])];
  }
}
