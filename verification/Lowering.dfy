/** Folding a stack of run-context layers into one command, on values.
  *
  * layers[0] is the top of the stack and the last one is root.  Handle is what one layer's handler
  * does to the layer below it; Lower is the loop of spawn_with_flags.  The end of the module is the
  * ledger of file descriptors.
  */
module Lowering {
  import opened Common
  import opened Decimals
  import opened Environ
  import opened FdMaps
  import opened ShellWords

  datatype ShellKind = PlainShell | LoginShell | InteractiveShell

  /** The handlers that run contexts push.  Whether systemd-run is usable and the random unit name
    * are answers of the outside world, so they are part of the value. */
  datatype Handler =
    | Default
    | Shell(kind: ShellKind)
    | Scope(systemd: bool, unit: string)
    | Host
    | Error

  datatype Layer = Layer(argv: seq<string>, env: seq<string>, cwd: Option<string>, fds: seq<Item>, handler: Handler)

  // ---------- pieces of command lines ----------

  /** The text after `sh -c`: the environment as assignments of `env`, then the command. */
  function CommandString(env: seq<string>, argv: seq<string>): string {
    (if env != [] then "env " + QuoteAll(env) else "") + QuoteJoined(argv)
  }

  function ShellOptions(kind: ShellKind): seq<string> {
    match kind
    case PlainShell => []
    case LoginShell => ["-l"]
    case InteractiveShell => ["-i"]
  }

  function ShellWordsFor(kind: ShellKind, env: seq<string>, argv: seq<string>): seq<string> {
    ["/bin/sh"] + ShellOptions(kind) + ["-c", CommandString(env, argv)]
  }

  function ScopeWords(systemd: bool, unit: string): seq<string> {
    if systemd then
      ["systemd-run", "--user", "--scope", "--collect", "--quiet", "--same-dir", "--unit=ptyxis-spawn-" + unit + ".scope"]
    else []
  }

  function EnvOptions(env: seq<string>): seq<string> {
    if env == [] then [] else ["--env=" + env[0]] + EnvOptions(env[1..])
  }

  /** flatpak-spawn is told to forward every live descriptor from 2 up. */
  function ForwardOptions(m: seq<Item>): seq<string> {
    if m == [] then []
    else (if m[0].dest >= 2 && Live(m[0]) then ["--forward-fd=" + Decimal(m[0].dest)] else []) + ForwardOptions(m[1..])
  }

  function HostWords(env: seq<string>, cwd: Option<string>, fds: seq<Item>): seq<string> {
    ["flatpak-spawn", "--host", "--watch-bus"] + EnvOptions(env)
      + (if cwd.Some? then ["--directory=" + cwd.value] else []) + ForwardOptions(fds)
  }

  // ---------- one handler ----------

  predicate CwdConflict(upper: Option<string>, lower: Option<string>) {
    upper.Some? && lower.Some? && upper != lower
  }

  function Inherit(upper: Option<string>, lower: Option<string>): Option<string> {
    if upper.Some? then upper else lower
  }

  /** What the handler does to the layer below before it merges descriptors. */
  function Before(upper: Layer, lower: Layer): Layer {
    match upper.handler
    case Default => lower.(cwd := Inherit(upper.cwd, lower.cwd))
    case Host => lower.(argv := lower.argv + HostWords(Sorted(upper.env), upper.cwd, upper.fds))
    case _ => lower
  }

  /** What it does after the merge has succeeded. */
  function AfterMerge(upper: Layer, lower: Layer): Layer {
    var env := Sorted(upper.env);
    match upper.handler
    case Default =>
      if env == [] then lower.(argv := lower.argv + upper.argv)
      else if upper.argv == [] then lower.(env := AddEnviron(lower.env, env))
      else lower.(argv := lower.argv + (["env"] + env + upper.argv))
    case Shell(kind) =>
      lower.(cwd := Inherit(upper.cwd, lower.cwd), argv := lower.argv + ShellWordsFor(kind, env, upper.argv))
    case Scope(systemd, unit) =>
      lower.(cwd := upper.cwd, env := env, argv := lower.argv + (ScopeWords(systemd, unit) + upper.argv))
    case Host => lower.(argv := lower.argv + upper.argv)
    case Error => lower
  }

  /** The outcome of a handler: the layer below, what the upper layer is left holding, what was closed. */
  datatype Handled = Handled(ok: bool, lower: Layer, left: seq<Item>, closed: seq<int>)

  function Handle(upper: Layer, lower: Layer): Handled {
    if upper.handler.Error? || (upper.handler.Default? && CwdConflict(upper.cwd, lower.cwd)) then
      Handled(false, lower, upper.fds, [])
    else
      var m := StealFrom(lower.fds, upper.fds, 0);
      var low := Before(upper, lower);
      Handled(m.ok, (if m.ok then AfterMerge(upper, low) else low).(fds := m.into), m.from, m.closed)
  }

  // ---------- the loop ----------

  datatype Lowered = Lowered(ok: bool, layers: seq<Layer>, closed: seq<int>)

  function Lower(layers: seq<Layer>): Lowered
    decreases |layers|
  {
    if |layers| <= 1 then Lowered(true, layers, [])
    else
      var h := Handle(layers[0], layers[1]);
      var rest := [h.lower] + layers[2..];
      if !h.ok then Lowered(false, rest, h.closed + Held(h.left))
      else ClosedEarlier(h.closed + Held(h.left), Lower(rest))
  }

  function ClosedEarlier(closed: seq<int>, r: Lowered): Lowered { r.(closed := closed + r.closed) }

  /** Handing the root map to the launcher: the live items, in order. */
  function Launched(m: seq<Item>): seq<Item> {
    if m == [] then [] else (if Live(m[0]) then [m[0]] else []) + Launched(m[1..])
  }

  // ---------- the ledger ----------

  /** The descriptors held by a stack, as a multiset. */
  function HeldByAll(layers: seq<Layer>): multiset<int> {
    if layers == [] then multiset{} else multiset(Held(layers[0].fds)) + HeldByAll(layers[1..])
  }

  ghost predicate AllWellFormed(layers: seq<Layer>) {
    forall i :: 0 <= i < |layers| ==> WellFormed(layers[i].fds)
  }

  /** Descriptors either stay where they are or have been merged once. */
  ghost predicate MergedOrKept(upper: seq<Item>, lower: seq<Item>, into: seq<Item>, left: seq<Item>, closed: seq<int>) {
    var m := StealFrom(lower, upper, 0);
    || (into == m.into && left == m.from && closed == m.closed)
    || (into == lower && left == upper && closed == [])
  }

  lemma HandleMerges(upper: Layer, lower: Layer)
    ensures var h := Handle(upper, lower); MergedOrKept(upper.fds, lower.fds, h.lower.fds, h.left, h.closed)
  {}

  lemma MergeLedger(upper: seq<Item>, lower: seq<Item>, into: seq<Item>, left: seq<Item>, closed: seq<int>)
    requires WellFormed(upper) && WellFormed(lower) && MergedOrKept(upper, lower, into, left, closed)
    ensures WellFormed(into) && WellFormed(left)
    ensures multiset(Held(upper)) + multiset(Held(lower)) == multiset(Held(into)) + multiset(closed + Held(left))
  {
    LedgerSplit(closed, Held(left));
    if into == lower && left == upper && closed == [] {
    } else {
      MergeKeepsForm(lower, upper, 0);
      MergeConserves(lower, upper, 0);
      Regroup(multiset(Held(upper)), multiset(Held(lower)), multiset(Held(into)), multiset(Held(left)), multiset(closed));
    }
  }

  lemma Regroup(a: multiset<int>, b: multiset<int>, c: multiset<int>, d: multiset<int>, e: multiset<int>)
    requires b + a == c + d + e
    ensures a + b == c + (e + d)
  {
    assert a + b == b + a;
    assert c + d + e == c + (e + d);
  }

  /** One handler, whatever it is and however it ends, moves descriptors without losing any. */
  lemma HandleConserves(upper: Layer, lower: Layer)
    requires WellFormed(upper.fds) && WellFormed(lower.fds)
    ensures var h := Handle(upper, lower);
      && WellFormed(h.lower.fds) && WellFormed(h.left)
      && multiset(Held(upper.fds)) + multiset(Held(lower.fds))
           == multiset(Held(h.lower.fds)) + multiset(h.closed + Held(h.left))
  {
    var h := Handle(upper, lower);
    HandleMerges(upper, lower);
    MergeLedger(upper.fds, lower.fds, h.lower.fds, h.left, h.closed);
  }

  lemma LedgerSplit(a: seq<int>, b: seq<int>)
    ensures multiset(a + b) == multiset(a) + multiset(b)
  {}

  lemma HeldByTwo(layers: seq<Layer>)
    requires |layers| >= 2
    ensures HeldByAll(layers)
         == multiset(Held(layers[0].fds)) + multiset(Held(layers[1].fds)) + HeldByAll(layers[2..])
  {
    assert layers[1..][1..] == layers[2..];
  }

  lemma HeldByPushed(l: Layer, layers: seq<Layer>)
    ensures HeldByAll([l] + layers) == multiset(Held(l.fds)) + HeldByAll(layers)
  {
    assert ([l] + layers)[1..] == layers;
  }

  /** The whole fold, success or failure at any layer, keeps the ledger: what the stack held is what
    * the remaining stack holds and what was closed. */
  lemma {:induction false} LowerConserves(layers: seq<Layer>)
    requires AllWellFormed(layers)
    ensures var r := Lower(layers);
      AllWellFormed(r.layers) && HeldByAll(layers) == HeldByAll(r.layers) + multiset(r.closed)
    decreases |layers|
  {
    if |layers| > 1 {
      var h := Handle(layers[0], layers[1]);
      var rest := [h.lower] + layers[2..];
      var now := h.closed + Held(h.left);
      HandleConserves(layers[0], layers[1]);
      HeldByTwo(layers);
      HeldByPushed(h.lower, layers[2..]);
      if h.ok {
        LowerConserves(rest);
        LedgerSplit(now, Lower(rest).closed);
      }
    }
  }

  /** A successful fold leaves root alone on the stack, and the fold never makes it grow. */
  lemma {:induction false} LowerEndsAtRoot(layers: seq<Layer>)
    requires layers != []
    ensures var r := Lower(layers);
      && 1 <= |r.layers| <= |layers|
      && (r.ok ==> |r.layers| == 1)
      && (!r.ok ==> |r.layers| < |layers|)
    decreases |layers|
  {
    if |layers| > 1 {
      var h := Handle(layers[0], layers[1]);
      var rest := [h.lower] + layers[2..];
      if h.ok { LowerEndsAtRoot(rest); }
    }
  }

  /** The launcher receives exactly the live descriptors, each destination at most once. */
  lemma {:induction false} LaunchedAreHeld(m: seq<Item>)
    requires WellFormed(m)
    ensures Sources(Launched(m)) == Held(m)
    ensures WellFormed(Launched(m))
    ensures forall it :: it in Launched(m) <==> it in m && Live(it)
  {
    if m != [] {
      assert WellFormed(m[1..]);
      LaunchedAreHeld(m[1..]);
      var t := Launched(m[1..]);
      assert m == [m[0]] + m[1..];
      if Live(m[0]) {
        assert Launched(m)[1..] == t;
        forall j | 0 <= j < |t| ensures t[j].dest != m[0].dest && t[j].dest >= 0 {
          assert t[j] in m[1..];
        }
      } else {
        assert Launched(m) == t;
      }
    }
  }

  function Sources(m: seq<Item>): seq<int> {
    if m == [] then [] else [m[0].source] + Sources(m[1..])
  }
}
