/** The objects at both ends of the exit-status protocol, proved against WaitProtocol. */
module WaitAgents {
  import opened WaitStatus
  import opened WaitProtocol

  /** The connection from the agent to the application: first in, first out. */
  class Connection {
    var queue: seq<Message>

    constructor ()
      ensures queue == []
    {
      queue := [];
    }

    method Emit(m: Message)
      modifies this
      ensures queue == old(queue) + [m]
    {
      queue := queue + [m];
    }
  }

  /** The agent's object for one child process. */
  class ProcessImpl {
    const path: nat
    var exported: bool
    var subprocess: bool  // a reference to the GSubprocess is held

    /** The state of the child as the protocol sees it, given the status it died with. */
    ghost function View(status: Status): Child
      reads this
    {
      if exported then Dead(status) else Gone(status)
    }

    constructor (path: nat)
      ensures this.path == path && exported && subprocess
    {
      this.path := path;
      exported := true;
      subprocess := true;
    }

    /** The child has been reaped with this status. */
    method WaitCallback(bus: Connection, status: Status)
      requires exported && OfDeadChild(status)
      modifies this, bus
      ensures View(status) == Gone(status) && !subprocess
      ensures bus.queue == old(bus.queue) + DeathMessages(path, status)
    {
      bus.Emit(ProcessExited(path, status));
      if IfSignaled(status) {
        bus.Emit(Signaled(path, TermSig(status)));
      } else {
        bus.Emit(Exited(path, ExitStatus(status)));
      }
      exported := false;
      subprocess := false;
    }

    /** A ping reaches the object, or the bus answers that there is none. */
    method HandlePing(bus: Connection, task: nat)
      modifies bus
      ensures bus.queue == old(bus.queue) + [Pong(task, exported)]
    {
      bus.Emit(Pong(task, exported));
    }
  }

  class Application {
    var exited: map<nat, Status>
    var tasks: seq<Task>

    ghost function View(): App
      reads this
    {
      App(exited, tasks)
    }

    constructor ()
      ensures View() == Init().app
    {
      exited := map[];
      tasks := [];
    }

    method ClientProcessExited(path: nat, status: Status)
      modifies this
      ensures View() == Receive(old(View()), ProcessExited(path, status))
    {
      exited := exited[path := status];
    }

    /** Gives the waiter its value once; the first call also drops the reference that kept it alive. */
    method WaitComplete(k: nat, o: Outcome)
      requires k < |tasks|
      modifies this`tasks
      ensures tasks == old(tasks)[k := Complete(old(tasks)[k], o)]
    {
      var t := tasks[k];
      if !t.completed {
        t := t.(completed := true);
        t := t.(results := t.results + [o]);
        t := Unref(t);
        tasks := tasks[k := t];
      }
    }

    /** One handler of the Exited signal. */
    method ProcessExitedHandler(k: nat, exitStatus: Status)
      requires k < |tasks|
      modifies this
      ensures exited == old(exited) - {old(tasks)[k].path}
      ensures tasks == old(tasks)[k := Complete(old(tasks)[k], Code(ExitCode(exitStatus, 0)))]
    {
      exited := exited - {tasks[k].path};
      WaitComplete(k, Code(ExitCode(exitStatus, 0)));
    }

    /** One handler of the Signaled signal. */
    method ProcessSignaledHandler(k: nat, termSig: Status)
      requires k < |tasks|
      modifies this
      ensures exited == old(exited) - {old(tasks)[k].path}
      ensures tasks == old(tasks)[k := Complete(old(tasks)[k], Code(ExitCode(0, termSig)))]
    {
      exited := exited - {tasks[k].path};
      WaitComplete(k, Code(ExitCode(0, termSig)));
    }

    /** The signal reaches the handlers of every task still connected, in the order they connected. */
    method DeliverFinal(m: Message)
      requires m.Exited? || m.Signaled?
      modifies this
      ensures View() == Receive(old(View()), m)
    {
      ghost var code := if m.Exited? then ExitCode(m.ret, 0) else ExitCode(0, m.sig);
      ghost var any := false;
      for k := 0 to |tasks|
        invariant |tasks| == |old(tasks)|
        invariant forall i :: 0 <= i < |tasks| ==>
          tasks[i] == if i < k && Connected(old(tasks)[i], m.path) then Complete(old(tasks)[i], Code(code)) else old(tasks)[i]
        invariant any <==> exists i :: 0 <= i < k && Connected(old(tasks)[i], m.path)
        invariant exited == if any then old(exited) - {m.path} else old(exited)
      {
        if Connected(tasks[k], m.path) {
          any := true;
          if m.Exited? {
            ProcessExitedHandler(k, m.ret);
          } else {
            ProcessSignaledHandler(k, m.sig);
          }
        }
      }
      assert any == AnyConnected(old(View()), m.path);
      assert tasks == CompleteConnected(old(tasks), m.path, Code(code));
    }

    /** The ping came back: an error means that the object is gone. */
    method HasForegroundProcess(k: nat, alive: bool)
      requires k < |tasks|
      modifies this
      ensures View() == Receive(old(View()), Pong(k, alive))
    {
      if !alive {
        var path := tasks[k].path;
        var o := Failed;
        if path in exited {
          var status := exited[path];
          if IfExited(status) {
            o := Code(ExitCode(ExitStatus(status), 0));
          } else {
            o := Code(ExitCode(0, TermSig(status)));
          }
          exited := exited - {path};
        }
        assert exited == old(exited) - {path};
        WaitComplete(k, o);
      }
      tasks := tasks[k := Unref(tasks[k])];
    }

    /** Connects the handlers and returns the ping to send. */
    method WaitAsync(path: nat) returns (ping: Request)
      modifies this`tasks
      ensures tasks == old(tasks) + [NewTask(path)] && ping == Ping(|old(tasks)|)
    {
      ping := Ping(|tasks|);
      tasks := tasks + [Task(path, 1 + 1, false, [])];
    }
  }
}
