/** Run contexts as the agent keeps them: layers whose arrays and descriptor maps change in place,
  * folded by spawn.  Every method is proved against the functions of Environ, FdMaps and Lowering,
  * and the ledger of descriptors is an invariant of the context. */
module RunContexts {
  import opened Common
  import opened Decimals
  import opened Environ
  import opened FdMaps
  import opened Lowering
  import opened ShellWords

  class RunLayer {
    var argv: seq<string>
    var env: seq<string>
    var cwd: Option<string>
    const fdMap: UnixFdMap
    const handler: Handler

    ghost function View(): Layer
      reads this, fdMap
    {
      Layer(argv, env, cwd, fdMap.items, handler)
    }

    constructor (log: CloseLog, handler: Handler)
      ensures fresh(fdMap) && fdMap.log == log && this.handler == handler
      ensures View() == Layer([], [], None, [], handler)
    {
      argv := [];
      env := [];
      cwd := None;
      fdMap := new UnixFdMap(log);
      this.handler := handler;
    }

    method AppendArgs(args: seq<string>)
      modifies this`argv
      ensures argv == old(argv) + args
    {
      argv := argv + args;
    }

    method AppendArgv(arg: string)
      modifies this`argv
      ensures argv == old(argv) + [arg]
    {
      argv := argv + [arg];
    }

    method PrependArgs(args: seq<string>)
      modifies this`argv
      ensures argv == args + old(argv)
    {
      argv := args + argv;
    }

    method SetCwd(cwd: Option<string>)
      modifies this`cwd
      ensures this.cwd == cwd
    {
      this.cwd := cwd;
    }

    method SetEnviron(environ: seq<string>)
      modifies this`env
      ensures env == environ
    {
      env := [];
      env := env + environ;
    }

    method GetEnvVar(key: string) returns (value: Option<string>)
      ensures value == GetEnv(env, key)
    {
      var i := 0;
      while i < |env|
        invariant 0 <= i <= Find(env, key)
      {
        if Matches(key, env[i]) { return Some(env[i][|key| + 1..]); }
        i := i + 1;
      }
      return None;
    }

    method UnsetEnvVar(key: string)
      modifies this`env
      ensures env == UnsetEnv(old(env), key)
    {
      var i := 0;
      while i < |env|
        invariant 0 <= i <= Find(env, key) && env == old(env)
      {
        if Matches(key, env[i]) {
          env := env[i := env[|env| - 1]];
          env := env[..|env| - 1];
          return;
        }
        i := i + 1;
      }
    }

    /** A NULL value unsets. */
    method SetEnvVar(key: string, value: Option<string>)
      modifies this`env
      ensures env == if value.None? then UnsetEnv(old(env), key) else SetEnv(old(env), key, value.value)
    {
      if value.None? {
        UnsetEnvVar(key);
        return;
      }
      ghost var env0 := env;
      env := env + [Entry(key, value.value)];
      var i := 0;
      while i < |env| - 1
        invariant 0 <= i <= |env0| && i <= Find(env0, key)
        invariant env == env0 + [Entry(key, value.value)]
      {
        if Matches(key, env[i]) {
          env := env[i := env[|env| - 1]];
          env := env[..|env| - 1];
          return;
        }
        i := i + 1;
      }
    }

    method AddPairs(environ: seq<string>)
      modifies this`env
      ensures env == AddEnviron(old(env), environ)
    {
      ghost var want := AddEnviron(env, environ);
      var i := 0;
      while i < |environ|
        invariant 0 <= i <= |environ|
        invariant AddEnviron(env, environ[i..]) == want
      {
        var pair := environ[i];
        assert environ[i..][0] == pair && environ[i..][1..] == environ[i + 1..];
        if HasKey(pair) {
          AddOnePair(pair);
        }
        i := i + 1;
      }
    }

    method AddOnePair(pair: string)
      requires HasKey(pair)
      modifies this`env
      ensures env == AddPair(old(env), pair)
    {
      var j := 0;
      while j < |env|
        invariant 0 <= j <= Find(env, KeyOf(pair)) && env == old(env)
      {
        if Matches(KeyOf(pair), env[j]) {
          env := env[j := pair];
          return;
        }
        j := j + 1;
      }
      env := env + [pair];
    }

    /** Moves the environment in front of the command, as assignments of `env`. */
    method EnvironToArgv()
      modifies this`argv, this`env
      ensures env == []
      ensures argv == if old(env) == [] then old(argv) else ["env"] + old(env) + old(argv)
    {
      if env == [] { return; }
      PrependArgs(["env"] + env);
      env := [];
    }
  }

  // ---------- handlers ----------

  /** The layer above and the layer below are separate objects that close into the same log. */
  ghost predicate Apart(upper: RunLayer, lower: RunLayer, log: CloseLog)
    reads upper.fdMap, lower.fdMap
  {
    && upper != lower && upper.fdMap != lower.fdMap
    && upper.fdMap.log == log && lower.fdMap.log == log
    && WellFormed(upper.fdMap.items) && WellFormed(lower.fdMap.items)
  }

  /** What a handler has done, given the upper layer as it was before its environment was sorted. */
  twostate predicate DoneAs(h: Handled, ok: bool, upper: RunLayer, lower: RunLayer, log: CloseLog)
    reads upper.fdMap, lower, lower.fdMap, log
  {
    && ok == h.ok && lower.View() == h.lower && upper.fdMap.items == h.left
    && log.closed == old(log.closed) + h.closed
  }

  /** Handle, for a default layer. */
  lemma HandleDefault(u: Layer, low: Layer)
    requires u.handler.Default?
    ensures CwdConflict(u.cwd, low.cwd) ==> Handle(u, low) == Handled(false, low, u.fds, [])
    ensures !CwdConflict(u.cwd, low.cwd) ==>
      var m := StealFrom(low.fds, u.fds, 0);
      var env := Sorted(u.env);
      var placed := low.(cwd := Inherit(u.cwd, low.cwd), fds := m.into);
      Handle(u, low) == Handled(m.ok,
        if !m.ok then placed
        else if env == [] then placed.(argv := low.argv + u.argv)
        else if u.argv == [] then placed.(env := AddEnviron(low.env, env))
        else placed.(argv := low.argv + (["env"] + env + u.argv)), m.from, m.closed)
  {}

  /** The command moves down, and so does its environment: as `env` words if there is a command. */
  method MoveCommand(upper: RunLayer, lower: RunLayer)
    requires upper != lower
    modifies lower`argv, lower`env
    ensures lower.env == if upper.argv == [] then AddEnviron(old(lower.env), upper.env) else old(lower.env)
    ensures lower.argv == old(lower.argv) +
      if upper.env == [] || upper.argv == [] then upper.argv else ["env"] + upper.env + upper.argv
  {
    if upper.env != [] {
      if upper.argv == [] {
        lower.AddPairs(upper.env);
      } else {
        lower.AppendArgv("env");
        lower.AppendArgs(upper.env);
      }
    }
    lower.AppendArgs(upper.argv);
    assert old(lower.argv) + ["env"] + upper.env + upper.argv == old(lower.argv) + (["env"] + upper.env + upper.argv);
  }

  method DefaultHandler(upper: RunLayer, lower: RunLayer, log: CloseLog, ghost u: Layer) returns (ok: bool)
    requires Apart(upper, lower, log) && u.handler.Default? && upper.View() == u.(env := Sorted(u.env))
    modifies lower, lower.fdMap, upper.fdMap, log
    ensures DoneAs(Handle(u, old(lower.View())), ok, upper, lower, log)
  {
    hide Handle, StealFrom, AddEnviron, Sorted;
    HandleDefault(u, lower.View());
    if upper.cwd.Some? {
      if lower.cwd.Some? && upper.cwd != lower.cwd { return false; }
      lower.SetCwd(upper.cwd);
    }
    ok := lower.fdMap.StealFromMap(upper.fdMap);
    if !ok { return; }
    NothingToAdd(lower.env);
    MoveCommand(upper, lower);
    assert old(lower.argv) + [] == old(lower.argv);
  }

  lemma NothingToAdd(env: seq<string>)
    ensures AddEnviron(env, []) == env
  {}

  lemma {:induction false} QuoteJoinedAppend(ws: seq<string>, w: string)
    ensures QuoteJoined(ws + [w]) == (if ws == [] then "" else QuoteJoined(ws) + " ") + Quote(w)
  {
    if ws == [] {
      assert ws + [w] == [w];
    } else {
      assert (ws + [w])[1..] == ws[1..] + [w];
      QuoteJoinedAppend(ws[1..], w);
      if ws[1..] == [] { assert ws == [ws[0]]; }
    }
  }

  lemma EnvPrefixGrows(env: seq<string>, i: nat, str: string)
    requires i < |env| && str + " " == "env " + QuoteAll(env[..i])
    ensures str + " " + Quote(env[i]) + " " == "env " + QuoteAll(env[..i + 1])
  {
    assert env[..i + 1] == env[..i] + [env[i]];
    QuoteAllAppend(env[..i], env[i]);
  }

  /** `env`, the quoted assignments and a space. */
  method BuildEnvPrefix(env: seq<string>) returns (str: string)
    ensures str == "env " + QuoteAll(env)
  {
    str := "env";
    for i := 0 to |env|
      invariant str + " " == "env " + QuoteAll(env[..i])
    {
      EnvPrefixGrows(env, i, str);
      str := str + " ";
      str := str + Quote(env[i]);
    }
    assert env[..|env|] == env;
    str := str + " ";
  }

  /** The text for `sh -c`, built word by word. */
  method BuildCommandString(env: seq<string>, argv: seq<string>) returns (str: string)
    ensures str == CommandString(env, argv)
  {
    str := "";
    if env != [] { str := BuildEnvPrefix(env); }
    ghost var head := str;
    for i := 0 to |argv|
      invariant str == head + QuoteJoined(argv[..i])
    {
      assert argv[..i + 1] == argv[..i] + [argv[i]];
      QuoteJoinedAppend(argv[..i], argv[i]);
      if i > 0 { str := str + " "; }
      str := str + Quote(argv[i]);
    }
    assert argv[..|argv|] == argv;
  }

  method ShellHandler(upper: RunLayer, lower: RunLayer, log: CloseLog, ghost u: Layer) returns (ok: bool)
    requires Apart(upper, lower, log) && u.handler.Shell? && upper.View() == u.(env := Sorted(u.env))
    modifies lower, lower.fdMap, upper.fdMap, log
    ensures DoneAs(Handle(u, old(lower.View())), ok, upper, lower, log)
  {
    ok := lower.fdMap.StealFromMap(upper.fdMap);
    if !ok { return; }
    if upper.cwd.Some? { lower.SetCwd(upper.cwd); }
    var str := BuildCommandString(upper.env, upper.argv);
    AppendShell(upper, lower, str);
  }

  method AppendShell(upper: RunLayer, lower: RunLayer, str: string)
    requires upper.handler.Shell?
    modifies lower`argv
    ensures lower.argv == old(lower.argv) + (["/bin/sh"] + ShellOptions(upper.handler.kind) + ["-c", str])
  {
    lower.AppendArgv("/bin/sh");
    if upper.handler.kind == LoginShell {
      lower.AppendArgv("-l");
    } else if upper.handler.kind == InteractiveShell {
      lower.AppendArgv("-i");
    }
    lower.AppendArgv("-c");
    lower.AppendArgv(str);
  }

  method ScopeHandler(upper: RunLayer, lower: RunLayer, log: CloseLog, ghost u: Layer) returns (ok: bool)
    requires Apart(upper, lower, log) && u.handler.Scope? && upper.View() == u.(env := Sorted(u.env))
    modifies lower, lower.fdMap, upper.fdMap, log
    ensures DoneAs(Handle(u, old(lower.View())), ok, upper, lower, log)
  {
    ok := lower.fdMap.StealFromMap(upper.fdMap);
    if !ok { return; }
    lower.SetCwd(upper.cwd);
    lower.SetEnviron(upper.env);
    ghost var argv0 := lower.argv;
    if upper.handler.systemd {
      AppendScope(lower, upper.handler.unit);
    }
    lower.AppendArgs(upper.argv);
    assert argv0 + ScopeWords(u.handler.systemd, u.handler.unit) + u.argv
        == argv0 + (ScopeWords(u.handler.systemd, u.handler.unit) + u.argv);
  }

  method AppendScope(lower: RunLayer, unit: string)
    modifies lower`argv
    ensures lower.argv == old(lower.argv) + ScopeWords(true, unit)
  {
    lower.AppendArgv("systemd-run");
    lower.AppendArgv("--user");
    lower.AppendArgv("--scope");
    lower.AppendArgv("--collect");
    lower.AppendArgv("--quiet");
    lower.AppendArgv("--same-dir");
    lower.AppendArgv("--unit=ptyxis-spawn-" + unit + ".scope");
  }

  lemma {:induction false} EnvOptionsAppend(env: seq<string>, e: string)
    ensures EnvOptions(env + [e]) == EnvOptions(env) + ["--env=" + e]
  {
    if env == [] {
      assert env + [e] == [e];
    } else {
      assert (env + [e])[1..] == env[1..] + [e];
      EnvOptionsAppend(env[1..], e);
    }
  }

  lemma {:induction false} ForwardOptionsAppend(m: seq<Item>, it: Item)
    ensures ForwardOptions(m + [it])
         == ForwardOptions(m) + (if it.dest >= 2 && Live(it) then ["--forward-fd=" + Decimal(it.dest)] else [])
  {
    var last := if it.dest >= 2 && Live(it) then ["--forward-fd=" + Decimal(it.dest)] else [];
    if m == [] {
      assert m + [it] == [it];
    } else {
      var first := if m[0].dest >= 2 && Live(m[0]) then ["--forward-fd=" + Decimal(m[0].dest)] else [];
      assert (m + [it])[1..] == m[1..] + [it];
      ForwardOptionsAppend(m[1..], it);
      assert first + (ForwardOptions(m[1..]) + last) == first + ForwardOptions(m[1..]) + last;
    }
  }

  method AppendEnvOptions(lower: RunLayer, env: seq<string>)
    modifies lower`argv
    ensures lower.argv == old(lower.argv) + EnvOptions(env)
  {
    for i := 0 to |env|
      invariant lower.argv == old(lower.argv) + EnvOptions(env[..i])
    {
      assert env[..i + 1] == env[..i] + [env[i]];
      EnvOptionsAppend(env[..i], env[i]);
      lower.AppendArgv("--env=" + env[i]);
    }
    assert env[..|env|] == env;
  }

  method AppendForwardOptions(lower: RunLayer, items: seq<Item>)
    modifies lower`argv
    ensures lower.argv == old(lower.argv) + ForwardOptions(items)
  {
    for i := 0 to |items|
      invariant lower.argv == old(lower.argv) + ForwardOptions(items[..i])
    {
      assert items[..i + 1] == items[..i] + [items[i]];
      ForwardOptionsAppend(items[..i], items[i]);
      if items[i].dest >= 2 && items[i].source != -1 {
        lower.AppendArgv("--forward-fd=" + Decimal(items[i].dest));
      }
    }
    assert items[..|items|] == items;
  }

  method AppendHostWords(upper: RunLayer, lower: RunLayer)
    requires upper != lower
    modifies lower`argv
    ensures lower.argv == old(lower.argv) + HostWords(upper.env, upper.cwd, upper.fdMap.items)
  {
    lower.AppendArgv("flatpak-spawn");
    lower.AppendArgv("--host");
    lower.AppendArgv("--watch-bus");
    AppendEnvOptions(lower, upper.env);
    if upper.cwd.Some? {
      lower.AppendArgv("--directory=" + upper.cwd.value);
    }
    AppendForwardOptions(lower, upper.fdMap.items);
  }

  method HostHandler(upper: RunLayer, lower: RunLayer, log: CloseLog, ghost u: Layer) returns (ok: bool)
    requires Apart(upper, lower, log) && u.handler.Host? && upper.View() == u.(env := Sorted(u.env))
    modifies lower, lower.fdMap, upper.fdMap, log
    ensures DoneAs(Handle(u, old(lower.View())), ok, upper, lower, log)
  {
    AppendHostWords(upper, lower);
    if upper.fdMap.items != [] {
      ok := lower.fdMap.StealFromMap(upper.fdMap);
      if !ok { return; }
    }
    ok := true;
    lower.AppendArgs(upper.argv);
  }

  // ---------- the context ----------

  ghost function Maps(ls: seq<RunLayer>): set<object> { set l | l in ls :: l.fdMap }

  ghost function Views(ls: seq<RunLayer>): (v: seq<Layer>)
    reads ls, Maps(ls)
    ensures |v| == |ls|
  {
    if ls == [] then [] else [ls[0].View()] + Views(ls[1..])
  }

  /** Separate layers, each with a map of its own, closing into one log. */
  ghost predicate Separate(ls: seq<RunLayer>, log: CloseLog) {
    && (forall i, j :: 0 <= i < j < |ls| ==> ls[i] != ls[j] && ls[i].fdMap != ls[j].fdMap)
    && (forall i :: 0 <= i < |ls| ==> ls[i].fdMap.log == log)
  }

  /** Layers that have not been touched look the same. */
  twostate lemma {:induction false} ViewsKept(ls: seq<RunLayer>)
    requires forall l :: l in ls ==> l.View() == old(l.View())
    ensures Views(ls) == old(Views(ls))
  {
    if ls != [] {
      assert ls[0] in ls;
      ViewsKept(ls[1..]);
    }
  }

  lemma ViewsAt(ls: seq<RunLayer>, i: nat)
    requires i < |ls|
    ensures Views(ls)[i] == ls[i].View()
  {
    if i > 0 { ViewsAt(ls[1..], i - 1); }
  }

  /** Adding a layer made just now. */
  lemma SeparatePush(l: RunLayer, ls: seq<RunLayer>, log: CloseLog)
    requires Separate(ls, log) && l !in ls && l.fdMap !in Maps(ls) && l.fdMap.log == log
    ensures Separate([l] + ls, log)
  {
    forall j | 0 <= j < |ls| ensures ls[j] in ls && ls[j].fdMap in Maps(ls) {}
  }

  /** Every descriptor ever taken is held by a layer, has been closed, or was handed to the launcher,
    * as many times as it was taken. */
  ghost predicate Ledger(stack: seq<Layer>, taken: seq<int>, closed: seq<int>, launched: seq<Item>) {
    && AllWellFormed(stack)
    && multiset(taken) == HeldByAll(stack) + multiset(closed) + multiset(Sources(launched))
  }

  lemma LedgerPush(l: Layer, stack: seq<Layer>, taken: seq<int>, closed: seq<int>, launched: seq<Item>)
    requires Ledger(stack, taken, closed, launched) && l.fds == []
    ensures Ledger([l] + stack, taken, closed, launched)
  {
    HeldByPushed(l, stack);
    assert multiset{} + HeldByAll(stack) == HeldByAll(stack);
  }

  lemma {:induction false} HeldByAppend(a: seq<Layer>, b: seq<Layer>)
    ensures HeldByAll(a + b) == HeldByAll(a) + HeldByAll(b)
  {
    if a == [] {
      assert a + b == b;
    } else {
      assert (a + b)[1..] == a[1..] + b;
      HeldByAppend(a[1..], b);
    }
  }

  lemma HeldByInsert(l: Layer, upper: seq<Layer>, rest: seq<Layer>)
    requires l.fds == []
    ensures HeldByAll(upper + [l] + rest) == HeldByAll(upper + rest)
  {
    HeldByAppend(upper, rest);
    HeldByAppend(upper + [l], rest);
    HeldByAppend(upper, [l]);
    HeldByPushed(l, []);
    assert [l] + [] == [l] && HeldByAll([]) == multiset{};
    assert multiset(Held(l.fds)) == multiset{};
  }

  lemma WellFormedInsert(l: Layer, upper: seq<Layer>, rest: seq<Layer>)
    requires AllWellFormed(upper + rest) && l.fds == []
    ensures AllWellFormed(upper + [l] + rest)
  {
    var all := upper + [l] + rest;
    assert WellFormed(l.fds);
    hide WellFormed;
    forall i | 0 <= i < |all| ensures WellFormed(all[i].fds) {
      if i < |upper| {
        assert all[i] == (upper + rest)[i];
      } else if i > |upper| {
        assert all[i] == (upper + rest)[i - 1];
      }
    }
  }

  lemma LedgerInsert(l: Layer, stack: seq<Layer>, n: nat, taken: seq<int>, closed: seq<int>, launched: seq<Item>)
    requires Ledger(stack, taken, closed, launched) && l.fds == [] && n <= |stack|
    ensures Ledger(stack[..n] + [l] + stack[n..], taken, closed, launched)
  {
    assert stack == stack[..n] + stack[n..];
    HeldByInsert(l, stack[..n], stack[n..]);
    WellFormedInsert(l, stack[..n], stack[n..]);
    hide HeldByAll, AllWellFormed;
  }

  lemma {:induction false} ViewsAppend(a: seq<RunLayer>, b: seq<RunLayer>)
    ensures Views(a + b) == Views(a) + Views(b)
  {
    if a == [] {
      assert a + b == b;
    } else {
      assert (a + b)[1..] == a[1..] + b;
      ViewsAppend(a[1..], b);
    }
  }

  lemma ViewsFirst(l: RunLayer, rest: seq<RunLayer>)
    ensures Views([l] + rest) == [l.View()] + Views(rest)
  {
    assert ([l] + rest)[1..] == rest;
  }

  lemma SplitAt(a: seq<Layer>, b: seq<Layer>, c: seq<Layer>)
    ensures (a + b)[..|a|] == a && (a + b)[|a|..] == b && a + (c + b) == a + c + b
  {}

  lemma ViewsInsert(l: RunLayer, ls: seq<RunLayer>, n: nat)
    requires n <= |ls|
    ensures Views(ls[..n] + ([l] + ls[n..])) == Views(ls)[..n] + [l.View()] + Views(ls)[n..]
  {
    hide Views;
    var upper, rest := ls[..n], ls[n..];
    assert ls == upper + rest;
    ViewsAppend(upper, rest);
    ViewsAppend(upper, [l] + rest);
    ViewsFirst(l, rest);
    SplitAt(Views(upper), Views(rest), [l.View()]);
  }

  lemma SeparateInsert(l: RunLayer, ls: seq<RunLayer>, n: nat, log: CloseLog)
    requires Separate(ls, log) && l !in ls && l.fdMap !in Maps(ls) && l.fdMap.log == log && n <= |ls|
    ensures Separate(ls[..n] + ([l] + ls[n..]), log)
  {
    forall j | 0 <= j < |ls| ensures ls[j] in ls && ls[j].fdMap in Maps(ls) {}
  }

  lemma Rebalance(taken: multiset<int>, top: multiset<int>, rest: multiset<int>, closed: multiset<int>, launched: multiset<int>,
                  more: multiset<int>, top': multiset<int>, closing: multiset<int>)
    requires taken == top + rest + closed + launched
    requires top + more == top' + closing
    ensures taken + more == top' + rest + (closed + closing) + launched
  {
    assert taken + more == (top + more) + rest + closed + launched;
    assert (top' + closing) + rest + closed + launched == top' + rest + (closed + closing) + launched;
  }

  lemma LedgerTake(stack: seq<Layer>, stack': seq<Layer>, source: int, dest: int,
                   taken: seq<int>, closed: seq<int>, launched: seq<Item>)
    requires Ledger(stack, taken, closed, launched) && stack != [] && dest > -1
    requires stack' == [stack[0].(fds := Take(stack[0].fds, source, dest).items)] + stack[1..]
    ensures Ledger(stack', taken + (if source != -1 then [source] else []),
                   closed + Take(stack[0].fds, source, dest).closed, launched)
  {
    var t := Take(stack[0].fds, source, dest);
    var more := if source != -1 then [source] else [];
    TakeKeepsForm(stack[0].fds, source, dest);
    TakeConserves(stack[0].fds, source, dest);
    HeldByPushed(stack'[0], stack[1..]);
    LedgerSplit(taken, more);
    LedgerSplit(closed, t.closed);
    Rebalance(multiset(taken), multiset(Held(stack[0].fds)), HeldByAll(stack[1..]), multiset(closed),
              multiset(Sources(launched)), multiset(more), multiset(Held(t.items)), multiset(t.closed));
  }

  lemma LedgerTop(stack: seq<Layer>, taken: seq<int>, closed: seq<int>, launched: seq<Item>)
    ensures Ledger(stack, taken, closed, launched) && stack != [] ==> WellFormed(stack[0].fds)
  {}

  lemma LedgerHandle(stack: seq<Layer>, taken: seq<int>, closed: seq<int>, launched: seq<Item>, h: Handled)
    requires Ledger(stack, taken, closed, launched) && |stack| > 1 && h == Handle(stack[0], stack[1])
    ensures Ledger([h.lower] + stack[2..], taken, closed + (h.closed + Held(h.left)), launched)
  {
    hide Handle;
    HandleConserves(stack[0], stack[1]);
    LedgerTwo(stack, taken, closed, launched, h.lower, h.closed + Held(h.left));
  }

  /** Two layers become one, and something is closed. */
  lemma LedgerTwo(stack: seq<Layer>, taken: seq<int>, closed: seq<int>, launched: seq<Item>, lower: Layer, now: seq<int>)
    requires Ledger(stack, taken, closed, launched) && |stack| > 1 && WellFormed(lower.fds)
    requires multiset(Held(stack[0].fds)) + multiset(Held(stack[1].fds)) == multiset(Held(lower.fds)) + multiset(now)
    ensures Ledger([lower] + stack[2..], taken, closed + now, launched)
  {
    hide Held, WellFormed, Sources;
    HeldByTwo(stack);
    HeldByPushed(lower, stack[2..]);
    LedgerSplit(closed, now);
    Rebalance(multiset(taken), multiset(Held(stack[0].fds)) + multiset(Held(stack[1].fds)), HeldByAll(stack[2..]),
              multiset(closed), multiset(Sources(launched)), multiset{}, multiset(Held(lower.fds)), multiset(now));
  }

  lemma LedgerLaunch(root: Layer, root': Layer, taken: seq<int>, closed: seq<int>)
    requires Ledger([root], taken, closed, []) && WellFormed(root'.fds) && Held(root'.fds) == []
    ensures Ledger([root'], taken, closed, Launched(root.fds))
  {
    assert [root][0] == root && [root][1..] == [] && [root'][1..] == [];
    assert WellFormed([root][0].fds);
    LaunchedAreHeld(root.fds);
    assert HeldByAll([root]) == multiset(Held(root.fds)) && HeldByAll([root']) == multiset{};
  }

  lemma LedgerFree(stack: seq<Layer>, taken: seq<int>, closed: seq<int>, launched: seq<Item>)
    requires Ledger(stack, taken, closed, launched) && stack != []
    ensures Ledger(stack[1..], taken, closed + Held(stack[0].fds), launched)
  {
    LedgerSplit(closed, Held(stack[0].fds));
  }

  /** Once a context is gone, each descriptor it was given is accounted for exactly once: closed, or
    * handed to the launcher, and never both. */
  lemma ExactlyOnce(taken: seq<int>, closed: seq<int>, launched: seq<Item>, fd: int)
    requires Ledger([], taken, closed, launched)
    requires forall i, j :: 0 <= i < j < |taken| ==> taken[i] != taken[j]
    ensures multiset(closed)[fd] + multiset(Sources(launched))[fd] == if fd in taken then 1 else 0
  {
    CountOnce(taken, fd);
  }

  lemma {:induction false} CountOnce(s: seq<int>, x: int)
    requires forall i, j :: 0 <= i < j < |s| ==> s[i] != s[j]
    ensures multiset(s)[x] == if x in s then 1 else 0
  {
    if s != [] {
      assert s == [s[0]] + s[1..];
      CountOnce(s[1..], x);
    }
  }

  lemma TopOne(ls: seq<RunLayer>, log: CloseLog)
    requires ls != [] && Separate(ls, log)
    ensures Views(ls) == [ls[0].View()] + Views(ls[1..])
    ensures forall l :: l in ls[1..] ==> l != ls[0] && l.fdMap != ls[0].fdMap
    ensures Separate(ls[1..], log)
  {}

  lemma InMaps(ls: seq<RunLayer>, l: RunLayer)
    requires l in ls
    ensures l.fdMap in Maps(ls)
  {}

  /** The two topmost layers, as objects and as values. */
  lemma TopTwo(ls: seq<RunLayer>, log: CloseLog)
    requires |ls| > 1 && Separate(ls, log) && AllWellFormed(Views(ls))
    ensures Views(ls) == [ls[0].View(), ls[1].View()] + Views(ls[2..])
    ensures Apart(ls[0], ls[1], log)
    ensures forall l :: l in ls[2..] ==> l != ls[0] && l != ls[1] && l.fdMap != ls[0].fdMap && l.fdMap != ls[1].fdMap
    ensures Separate(ls[1..], log)
  {
    assert ls[1..][1..] == ls[2..];
    assert WellFormed(Views(ls)[0].fds) && WellFormed(Views(ls)[1].fds);
  }

  class RunContext {
    const log: CloseLog
    var layers: seq<RunLayer>
    var ended: bool
    var launched: seq<Item>
    ghost var taken: seq<int>

    ghost predicate Valid()
      reads this, layers, Maps(layers), log
    {
      Separate(layers, log) && Ledger(Views(layers), taken, log.closed, launched)
    }

    /** A context starts with the root layer, which has the whole environment of the process. */
    constructor (environ: seq<string>)
      ensures Valid() && |layers| == 1 && !ended && taken == [] && launched == []
      ensures Views(layers) == [Layer([], environ, None, [], Default)]
      ensures fresh(log) && fresh(layers[0]) && fresh(layers[0].fdMap)
    {
      var l := new CloseLog();
      var root := new RunLayer(l, Default);
      root.SetEnviron(environ);
      log := l;
      layers := [root];
      ended := false;
      launched := [];
      taken := [];
    }

    method Push(handler: Handler)
      requires Valid()
      modifies this`layers
      ensures Valid()
      ensures Views(layers) == [Layer([], [], None, [], handler)] + old(Views(layers))
      ensures layers[1..] == old(layers) && fresh(layers[0]) && fresh(layers[0].fdMap)
    {
      var l := new RunLayer(log, handler);
      ViewsKept(layers);
      SeparatePush(l, layers, log);
      LedgerPush(l.View(), Views(layers), taken, log.closed, launched);
      layers := [l] + layers;
      assert layers[1..] == old(layers);
    }

    /** A layer directly above the root, below all others. */
    method PushAtBase(handler: Handler)
      requires Valid() && layers != []
      modifies this`layers
      ensures Valid()
      ensures var was := old(Views(layers)); var n := |was| - 1;
        Views(layers) == was[..n] + [Layer([], [], None, [], handler)] + was[n..]
      ensures layers[..|layers| - 2] + layers[|layers| - 1..] == old(layers)
      ensures fresh(layers[|layers| - 2]) && fresh(layers[|layers| - 2].fdMap)
    {
      hide Ledger, Separate, Views;
      var l := new RunLayer(log, handler);
      var n := |layers| - 1;
      ViewsKept(layers);
      ViewsInsert(l, layers, n);
      SeparateInsert(l, layers, n, log);
      LedgerInsert(l.View(), Views(layers), n, taken, log.closed, launched);
      var inserted := layers[..n] + ([l] + layers[n..]);
      label Before:
      layers := inserted;
      ViewsKept@Before(inserted);
    }

    /** The current layer takes ownership of a descriptor: it will stand at the destination asked for, and
      * a live one that stood there is closed.  A bad destination is refused and nothing is taken. */
    method TakeFd(source: int, dest: int)
      requires Valid() && layers != []
      modifies this`taken, layers[0].fdMap, log
      ensures Valid()
      ensures taken == old(taken) + if source > -1 && dest > -1 then [source] else []
      ensures var was, now := old(Views(layers))[0], Views(layers)[0]; var m := AsMap(was.fds);
        if source >= -1 && dest > -1 then
          && AsMap(now.fds) == m[dest := source] && now == was.(fds := now.fds)
          && log.closed == old(log.closed) + if dest in m && m[dest] != -1 then [m[dest]] else []
        else
          now == was && log.closed == old(log.closed)
      ensures Views(layers)[1..] == old(Views(layers)[1..])
    {
      if source < -1 || dest <= -1 { return; }
      hide Ledger, Views, Separate, Take;
      ghost var stack := Views(layers);
      LedgerTop(stack, taken, log.closed, launched);
      TakeIsUpdate(stack[0].fds, source, dest);
      Accept(source, dest);
    }

    method Accept(source: int, dest: int)
      requires Valid() && layers != [] && source >= -1 && dest > -1
      modifies this`taken, layers[0].fdMap, log
      ensures Valid() && taken == old(taken) + if source > -1 then [source] else []
      ensures var stack := old(Views(layers)); var t := Take(stack[0].fds, source, dest);
        && Views(layers) == [stack[0].(fds := t.items)] + stack[1..]
        && log.closed == old(log.closed) + t.closed
    {
      assert layers[0].fdMap.log == log;
      hide Ledger, Views, Separate, Take;
      ghost var stack := Views(layers);
      TopOne(layers, log);
      layers[0].fdMap.TakeFd(source, dest);
      if source > -1 { taken := taken + [source]; }
      ViewsKept(layers[1..]);
      TopOne(layers, log);
      LedgerTake(stack, Views(layers), source, dest, old(taken), old(log.closed), launched);
    }

    /** Runs the handler of a layer that has just been unlinked, then frees the layer. */
    method CallbackLayer(upper: RunLayer, lower: RunLayer) returns (ok: bool, ghost h: Handled)
      requires Apart(upper, lower, log)
      modifies upper`env, upper.fdMap, lower, lower.fdMap, log
      ensures h == Handle(old(upper.View()), old(lower.View()))
      ensures ok == h.ok && lower.View() == h.lower
      ensures log.closed == old(log.closed) + (h.closed + Held(h.left))
    {
      hide Handle;
      ghost var u := upper.View();
      upper.env := Sorted(upper.env);
      ok := RunHandler(upper, lower, u);
      h := Handle(u, old(lower.View()));
      upper.fdMap.Dispose();
      assert old(log.closed) + h.closed + Held(h.left) == old(log.closed) + (h.closed + Held(h.left));
    }

    method RunHandler(upper: RunLayer, lower: RunLayer, ghost u: Layer) returns (ok: bool)
      requires Apart(upper, lower, log) && upper.View() == u.(env := Sorted(u.env))
      modifies lower, lower.fdMap, upper.fdMap, log
      ensures DoneAs(Handle(u, old(lower.View())), ok, upper, lower, log)
    {
      match upper.handler
      case Default => ok := DefaultHandler(upper, lower, log, u);
      case Shell(_) => ok := ShellHandler(upper, lower, log, u);
      case Scope(_, _) => ok := ScopeHandler(upper, lower, log, u);
      case Host => ok := HostHandler(upper, lower, log, u);
      case Error => ok := false;
    }

    /** One turn of the fold: the top layer is unlinked, handled and freed. */
    method FoldOne() returns (ok: bool, ghost h: Handled)
      requires Valid() && |layers| > 1
      modifies this`layers, log, layers[0], layers[0].fdMap, layers[1], layers[1].fdMap
      ensures Valid() && layers == old(layers)[1..]
      ensures h == Handle(old(Views(layers))[0], old(Views(layers))[1]) && ok == h.ok
      ensures Views(layers) == [h.lower] + old(Views(layers))[2..]
      ensures log.closed == old(log.closed) + (h.closed + Held(h.left))
    {
      hide Handle;
      var upper, lower := layers[0], layers[1];
      ghost var stack := Views(layers);
      ghost var below := layers[2..];
      TopTwo(layers, log);
      layers := layers[1..];
      ok, h := CallbackLayer(upper, lower);
      ViewsKept(below);
      assert layers[1..] == below;
      assert Views(layers) == [h.lower] + stack[2..];
      LedgerHandle(stack, taken, old(log.closed), launched, h);
    }

    /** Gives every live descriptor of root to the launcher. */
    method HandOver(root: RunLayer)
      requires launched == [] && WellFormed(root.fdMap.items)
      modifies this`launched, root.fdMap
      ensures launched == Launched(old(root.fdMap.items))
      ensures WellFormed(root.fdMap.items) && Held(root.fdMap.items) == []
    {
      ghost var items0 := root.fdMap.items;
      for i := 0 to |root.fdMap.items|
        invariant |root.fdMap.items| == |items0|
        invariant forall k :: 0 <= k < |items0| ==>
          root.fdMap.items[k] == if k < i then items0[k].(source := -1) else items0[k]
        invariant launched == Launched(items0[..i])
      {
        assert items0[..i + 1] == items0[..i] + [items0[i]];
        LaunchedAppend(items0[..i], items0[i]);
        var source, dest := root.fdMap.Steal(i);
        if source != -1 && dest != -1 {
          launched := launched + [Item(source, dest)];
        }
      }
      assert items0[..|items0|] == items0;
      NothingHeld(root.fdMap.items);
    }

    /** Folds the stack until root is left or a layer cannot be folded. */
    method Fold() returns (ok: bool, ghost r: Lowered)
      requires Valid() && layers != [] && launched == []
      modifies this`layers, log, layers, Maps(layers)
      ensures Valid() && layers != [] && (ok ==> |layers| == 1)
      ensures forall l :: l in layers ==> l in old(layers)
      ensures r == Lower(old(Views(layers)))
      ensures ok == r.ok && Views(layers) == r.layers && log.closed == old(log.closed) + r.closed
    {
      hide *;
      ghost var closed: seq<int> := [];
      r := Lower(Views(layers));
      NothingClosed(r);
      while |layers| > 1
        invariant Valid() && layers != []
        invariant forall l :: l in layers ==> l in old(layers)
        invariant log.closed == old(log.closed) + closed
        invariant r == ClosedEarlier(closed, Lower(Views(layers)))
        decreases |layers|
      {
        InMaps(old(layers), layers[0]);
        InMaps(old(layers), layers[1]);
        ok, closed := FoldTurn(closed, r);
        if !ok { return; }
      }
      LowerDone(Views(layers), closed);
      ok := true;
    }

    /** One turn, and what it leaves to be done. */
    method FoldTurn(ghost closed: seq<int>, ghost r: Lowered) returns (ok: bool, ghost closed': seq<int>)
      requires Valid() && |layers| > 1 && r == ClosedEarlier(closed, Lower(Views(layers)))
      modifies this`layers, log, layers[0], layers[0].fdMap, layers[1], layers[1].fdMap
      ensures Valid() && layers == old(layers)[1..]
      ensures exists now :: closed' == closed + now && log.closed == old(log.closed) + now
      ensures r == if ok then ClosedEarlier(closed', Lower(Views(layers))) else Lowered(false, Views(layers), closed')
    {
      hide Handle, Lower;
      ghost var stack := Views(layers);
      ghost var h;
      ok, h := FoldOne();
      LowerTurn(stack, closed, h);
      closed' := closed + (h.closed + Held(h.left));
    }

    /** Folds the stack and starts what is left, or stops at the first layer that cannot be folded. */
    method SpawnWithFlags() returns (ok: bool, argv: seq<string>, env: seq<string>, cwd: Option<string>, ghost r: Lowered)
      requires Valid() && layers != [] && !ended && launched == []
      modifies this, log, layers, Maps(layers)
      ensures Valid() && ended && taken == old(taken)
      ensures r == Lower(old(Views(layers))) && ok == r.ok && log.closed == old(log.closed) + r.closed
      ensures if ok
        then |r.layers| == 1 && Layer(argv, env, cwd, r.layers[0].fds, r.layers[0].handler) == r.layers[0]
             && launched == Launched(r.layers[0].fds)
        else Views(layers) == r.layers && launched == []
    {
      hide Handle, Lower, Ledger, Separate, Launched, Views;
      ended := true;
      argv, env, cwd := [], [], None;
      ok, r := Fold();
      if !ok { return; }
      argv, env, cwd := layers[0].argv, layers[0].env, layers[0].cwd;
      InMaps(old(layers), layers[0]);
      ViewsAt(layers, 0);
      Launch();
    }

    /** Root is all that is left: its descriptors go to the launcher. */
    method Launch()
      requires Valid() && |layers| == 1 && launched == []
      modifies this`launched, layers[0].fdMap
      ensures Valid() && launched == Launched(old(Views(layers))[0].fds)
    {
      var root := layers[0];
      ghost var before := root.View();
      assert Views(layers) == [before];
      assert WellFormed(Views(layers)[0].fds);
      HandOver(root);
      assert Views(layers) == [root.View()];
      LedgerLaunch(before, root.View(), taken, log.closed);
    }

    /** Dropping the last reference frees every layer still there. */
    method Dispose()
      requires Valid()
      modifies this`layers, log, layers, Maps(layers)
      ensures Valid() && layers == []
    {
      while layers != []
        invariant Valid()
        invariant forall l :: l in layers ==> l in old(layers)
        decreases |layers|
      {
        InMaps(old(layers), layers[0]);
        FreeTop();
      }
    }

    method FreeTop()
      requires Valid() && layers != []
      modifies this`layers, log, layers[0].fdMap
      ensures Valid() && layers == old(layers)[1..]
    {
      ghost var stack := Views(layers);
      ghost var below := layers[1..];
      TopOne(layers, log);
      assert stack[1..] == Views(below);
      layers[0].fdMap.Dispose();
      layers := layers[1..];
      ViewsKept(below);
      assert Views(layers) == stack[1..];
      LedgerFree(stack, taken, old(log.closed), launched);
    }
  }

  lemma {:induction false} LaunchedAppend(m: seq<Item>, it: Item)
    ensures Launched(m + [it]) == Launched(m) + if Live(it) then [it] else []
  {
    var last := if Live(it) then [it] else [];
    if m == [] {
      assert m + [it] == [it];
    } else {
      var first := if Live(m[0]) then [m[0]] else [];
      assert (m + [it])[1..] == m[1..] + [it];
      LaunchedAppend(m[1..], it);
      assert first + (Launched(m[1..]) + last) == first + Launched(m[1..]) + last;
    }
  }

  lemma NothingClosed(r: Lowered)
    ensures ClosedEarlier([], r) == r
  {
    assert [] + r.closed == r.closed;
  }

  lemma LowerDone(stack: seq<Layer>, closed: seq<int>)
    requires |stack| == 1
    ensures ClosedEarlier(closed, Lower(stack)) == Lowered(true, stack, closed)
  {
    assert closed + [] == closed;
  }

  /** What one turn of the fold leaves to be done. */
  lemma LowerTurn(stack: seq<Layer>, closed: seq<int>, h: Handled)
    requires |stack| > 1 && h == Handle(stack[0], stack[1])
    ensures var rest := [h.lower] + stack[2..];
      var now := closed + (h.closed + Held(h.left));
      ClosedEarlier(closed, Lower(stack)) == if h.ok then ClosedEarlier(now, Lower(rest)) else Lowered(false, rest, now)
  {
    hide Handle;
    var rest := [h.lower] + stack[2..];
    var now := h.closed + Held(h.left);
    if h.ok { assert closed + (now + Lower(rest).closed) == closed + now + Lower(rest).closed; }
  }
}
