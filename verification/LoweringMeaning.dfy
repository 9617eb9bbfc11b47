/** Lowering a stack of layers preserves what the stack means.
  *
  * The meaning of a stack is computed from the top without looking at how handlers build command
  * lines: which words are run, in which environment and directory, with which descriptors.  The
  * theorem is that the command left in root, executed, comes to exactly that.
  */
module LoweringMeaning {
  import opened Common
  import opened Environ
  import opened FdMaps
  import opened Lowering
  import opened Programs
  import opened ShellWords

  datatype Meaning = Meaning(argv: seq<string>, env: map<string, string>, cwd: Option<string>, fds: map<int, int>)

  function Own(l: Layer): Meaning { Meaning(l.argv, MapOf(l.env), l.cwd, AsMap(l.fds)) }

  /** What the layers down to `low` mean, given what those above it mean and their handler: the
    * upper environment is laid over the lower one, except that a scope replaces environment and
    * directory outright; descriptors of the upper layer win. */
  function Combine(up: Meaning, h: Handler, low: Layer): Meaning {
    var fds := AsMap(low.fds) + up.fds;
    var cwd := if up.cwd.Some? then up.cwd else low.cwd;
    match h
    case Scope(_, _) => Meaning(up.argv, up.env, up.cwd, fds)
    case Shell(_) => Meaning(up.argv, MapOf(low.env) + up.env, cwd, fds)
    case _ => Meaning(if up.argv == [] then low.argv else up.argv, MapOf(low.env) + up.env, cwd, fds)
  }

  function MeaningFrom(m: Meaning, h: Handler, below: seq<Layer>): Meaning
    decreases |below|
  {
    if below == [] then m else MeaningFrom(Combine(m, h, below[0]), below[0].handler, below[1..])
  }

  /** The meaning of a stack, top first. */
  function MeaningOf(layers: seq<Layer>): Meaning
    requires layers != []
  {
    MeaningFrom(Own(layers[0]), layers[0].handler, layers[1..])
  }

  // ---------- what is assumed of a stack ----------

  /** A lower layer's own words, if any, are a program that runs what follows it. */
  ghost predicate Transparent(peel: Peel, words: seq<string>) {
    words != [] ==>
      && CommandName(words[0]) && !BuiltIn(words[0])
      && forall rest :: rest != [] ==> peel(words + rest) == |words|
  }

  ghost predicate Sane(l: Layer) {
    Settable(l.env) && WellFormed(l.fds)
  }

  /** The handlers covered, with a command to run above every shell and every scope. */
  predicate Covered(m: Meaning, h: Handler) {
    h.Default? || ((h.Shell? || h.Scope?) && m.argv != [])
  }

  ghost predicate CoveredFrom(peel: Peel, m: Meaning, h: Handler, below: seq<Layer>)
    decreases |below|
  {
    below != [] ==>
      && Covered(m, h) && Sane(below[0]) && Transparent(peel, below[0].argv)
      && CoveredFrom(peel, Combine(m, h, below[0]), below[0].handler, below[1..])
  }

  ghost predicate CoveredStack(peel: Peel, layers: seq<Layer>) {
    && layers != [] && Sane(layers[0])
    && (layers[0].argv != [] ==> CommandName(layers[0].argv[0]))
    && CoveredFrom(peel, Own(layers[0]), layers[0].handler, layers[1..])
  }

  /** The layers fit together: no two directories asked for, no destination live on both sides. */
  ghost predicate Fits(m: Meaning, h: Handler, low: Layer) {
    && !(h.Default? && m.cwd.Some? && low.cwd.Some? && m.cwd != low.cwd)
    && forall d :: d in m.fds && m.fds[d] != -1 ==> !(d in AsMap(low.fds) && AsMap(low.fds)[d] != -1)
  }

  ghost predicate FitFrom(m: Meaning, h: Handler, below: seq<Layer>)
    decreases |below|
  {
    below != [] ==> Fits(m, h, below[0]) && FitFrom(Combine(m, h, below[0]), below[0].handler, below[1..])
  }

  ghost predicate FitTogether(layers: seq<Layer>) {
    layers != [] && FitFrom(Own(layers[0]), layers[0].handler, layers[1..])
  }

  // ---------- a layer that stands for everything above it ----------

  /** In any surrounding environment, the layer's command comes to the meant one. */
  ghost predicate RunsAs(peel: Peel, l: Layer, m: Meaning, around: map<string, string>) {
    Runs(peel, Config(l.argv, around + MapOf(l.env)), Config(m.argv, around + m.env))
  }

  ghost predicate Represents(peel: Peel, l: Layer, m: Meaning) {
    && (forall around :: RunsAs(peel, l, m, around))
    && l.cwd == m.cwd && AsMap(l.fds) == m.fds && Sane(l)
    && (if l.argv == [] then m.argv == [] && MapOf(l.env) == m.env else m.argv != [] && CommandName(l.argv[0]))
  }

  lemma OwnRepresents(peel: Peel, l: Layer)
    requires Sane(l) && (l.argv != [] ==> CommandName(l.argv[0]))
    ensures Represents(peel, l, Own(l))
  {
    forall around ensures RunsAs(peel, l, Own(l), around) {
      RunsToItself(peel, Config(l.argv, around + MapOf(l.env)));
    }
  }

  // ---------- command lines built by handlers ----------

  /** Prefixing transparent words adds at most one step. */
  lemma PrefixRuns(peel: Peel, words: seq<string>, rest: seq<string>, env: map<string, string>, e: Config)
    requires Transparent(peel, words) && rest != []
    requires Runs(peel, Config(rest, env), e)
    ensures Runs(peel, Config(words + rest, env), e)
  {
    if words == [] {
      assert words + rest == rest;
    } else {
      assert (words + rest)[|words|..] == rest;
      assert peel(words + rest) == |words|;
      StepThenRuns(peel, Config(words + rest, env), Config(rest, env), e);
    }
  }

  /** The upper command under its own environment, whichever words announce that environment. */
  function UnderEnv(env: seq<string>, argv: seq<string>): seq<string> {
    if env == [] then argv else ["env"] + env + argv
  }

  lemma UnderEnvRuns(peel: Peel, up: Layer, m: Meaning, around: map<string, string>)
    requires Represents(peel, up, m) && up.argv != []
    ensures Runs(peel, Config(UnderEnv(Sorted(up.env), up.argv), around), Config(m.argv, around + m.env))
  {
    var env := Sorted(up.env);
    SortingKeepsMeaning(up.env);
    SortedSettable(up.env);
    var target := Config(m.argv, around + m.env);
    assert RunsAs(peel, up, m, around);
    if env == [] {
      assert MapOf(up.env) == map[] && around + map[] == around;
    } else {
      EnvRuns(peel, env, up.argv, around);
      StepThenRuns(peel, Config(["env"] + env + up.argv, around), Config(up.argv, around + MapOf(env)), target);
    }
  }

  lemma SortedSettable(env: seq<string>)
    requires Settable(env)
    ensures Settable(Sorted(env))
  {
    SortingKeepsMeaning(env);
    forall i | 0 <= i < |Sorted(env)| ensures Assigns(Sorted(env)[i]) && !Dashed(Sorted(env)[i]) {
      assert Sorted(env)[i] in env;
    }
  }

  /** The text given to `sh -c` reads back as the upper command under its own environment. */
  lemma CommandStringReads(env: seq<string>, argv: seq<string>)
    ensures Read(PosixShell, CommandString(env, argv)) == Words(UnderEnv(env, argv))
  {
    var tail := QuoteJoined(argv);
    if env == [] {
      ReadJoined(PosixShell, argv, []);
      assert CommandString(env, argv) == tail && [] + argv == argv;
    } else {
      assert CommandString(env, argv) == "env" + " " + (QuoteAll(env) + tail);
      ReadFirstWord(PosixShell, "env", QuoteAll(env) + tail);
      ReadAllThen(PosixShell, env, tail, ["env"]);
      ReadJoined(PosixShell, argv, ["env"] + env);
    }
  }

  // ---------- one lemma per handler ----------

  lemma MergedFds(upper: Layer, lower: Layer)
    requires Sane(upper) && Sane(lower) && Handle(upper, lower).ok
    ensures WellFormed(Handle(upper, lower).lower.fds)
    ensures AsMap(Handle(upper, lower).lower.fds) == AsMap(lower.fds) + AsMap(upper.fds)
  {
    MergeKeepsForm(lower.fds, upper.fds, 0);
    MergeIsOverride(lower.fds, upper.fds, 0);
    assert upper.fds[0..] == upper.fds;
  }

  /** Whatever words were built above the lower layer's own, in the environment they will run in. */
  lemma DefaultRuns(peel: Peel, upper: Layer, m: Meaning, lower: Layer, around: map<string, string>)
    requires Represents(peel, upper, m) && upper.argv != [] && Transparent(peel, lower.argv)
    ensures Runs(peel, Config(lower.argv + UnderEnv(Sorted(upper.env), upper.argv), around + MapOf(lower.env)),
                 Config(m.argv, around + (MapOf(lower.env) + m.env)))
  {
    var env := around + MapOf(lower.env);
    UnderEnvRuns(peel, upper, m, env);
    assert env + m.env == around + (MapOf(lower.env) + m.env);
    PrefixRuns(peel, lower.argv, UnderEnv(Sorted(upper.env), upper.argv), env, Config(m.argv, env + m.env));
  }

  /** Default handler with a command above: the command moves down, announced by its environment. */
  lemma DefaultCommand(peel: Peel, upper: Layer, m: Meaning, lower: Layer, out: Layer)
    requires Represents(peel, upper, m) && upper.argv != [] && Sane(lower) && Transparent(peel, lower.argv)
    requires out.argv == lower.argv + UnderEnv(Sorted(upper.env), upper.argv) && out.env == lower.env
    requires out.cwd == if upper.cwd.Some? then upper.cwd else lower.cwd
    requires WellFormed(out.fds) && AsMap(out.fds) == AsMap(lower.fds) + AsMap(upper.fds)
    ensures Represents(peel, out, Combine(m, Default, lower))
  {
    forall around ensures RunsAs(peel, out, Combine(m, Default, lower), around) {
      DefaultRuns(peel, upper, m, lower, around);
    }
    EnvIsCommandName();
    FirstWord(lower.argv, UnderEnv(Sorted(upper.env), upper.argv));
  }

  lemma FirstWord(prefix: seq<string>, words: seq<string>)
    requires words != []
    ensures prefix + words != [] && (prefix + words)[0] == if prefix == [] then words[0] else prefix[0]
  {}

  lemma NoKeyWithoutEquals(w: string)
    requires forall i :: 0 <= i < |w| ==> w[i] != '='
    ensures !HasKey(w)
  {}

  lemma EnvIsCommandName()
    ensures CommandName("env") && CommandName("/bin/sh") && CommandName("systemd-run")
  {
    NoKeyWithoutEquals("env");
    NoKeyWithoutEquals("/bin/sh");
    NoKeyWithoutEquals("systemd-run");
  }

  /** Default handler with no command above: its environment is merged into the layer below. */
  lemma DefaultEnviron(peel: Peel, upper: Layer, m: Meaning, lower: Layer, out: Layer)
    requires Represents(peel, upper, m) && upper.argv == [] && Sane(lower) && Transparent(peel, lower.argv)
    requires out.argv == lower.argv && out.env == AddEnviron(lower.env, Sorted(upper.env))
    requires out.cwd == if upper.cwd.Some? then upper.cwd else lower.cwd
    requires WellFormed(out.fds) && AsMap(out.fds) == AsMap(lower.fds) + AsMap(upper.fds)
    ensures Represents(peel, out, Combine(m, Default, lower))
  {
    SortingKeepsMeaning(upper.env);
    SortedSettable(upper.env);
    AddIsOverlay(lower.env, Sorted(upper.env));
    OverlayIsUnion(MapOf(lower.env), Sorted(upper.env));
    AddSettable(lower.env, Sorted(upper.env));
    OwnRepresents(peel, out);
    assert Combine(m, Default, lower) == Own(out);
  }

  lemma {:induction false} AddSettable(env: seq<string>, pairs: seq<string>)
    requires Settable(env) && Settable(pairs)
    ensures Settable(AddEnviron(env, pairs))
    decreases |pairs|
  {
    if pairs != [] {
      AddPairKeepsUnique(env, pairs[0]);
      AddSettable(AddPair(env, pairs[0]), pairs[1..]);
    }
  }

  lemma ShellWordsRun(peel: Peel, kind: ShellKind, env: seq<string>, argv: seq<string>,
                      around: map<string, string>, target: Config)
    requires argv != [] && Runs(peel, Config(UnderEnv(env, argv), around), target)
    ensures Runs(peel, Config(ShellWordsFor(kind, env, argv), around), target)
  {
    CommandStringReads(env, argv);
    ShellRuns(peel, ShellOptions(kind), CommandString(env, argv), UnderEnv(env, argv), around);
    StepThenRuns(peel, Config(ShellWordsFor(kind, env, argv), around), Config(UnderEnv(env, argv), around), target);
  }

  lemma ShellHandlerRuns(peel: Peel, upper: Layer, m: Meaning, kind: ShellKind, lower: Layer, around: map<string, string>)
    requires Represents(peel, upper, m) && upper.argv != [] && Transparent(peel, lower.argv)
    ensures Runs(peel, Config(lower.argv + ShellWordsFor(kind, Sorted(upper.env), upper.argv), around + MapOf(lower.env)),
                 Config(m.argv, around + (MapOf(lower.env) + m.env)))
  {
    var env := around + MapOf(lower.env);
    var target := Config(m.argv, env + m.env);
    UnderEnvRuns(peel, upper, m, env);
    ShellWordsRun(peel, kind, Sorted(upper.env), upper.argv, env, target);
    PrefixRuns(peel, lower.argv, ShellWordsFor(kind, Sorted(upper.env), upper.argv), env, target);
    assert env + m.env == around + (MapOf(lower.env) + m.env);
  }

  lemma ShellHandled(peel: Peel, upper: Layer, m: Meaning, kind: ShellKind, lower: Layer, out: Layer)
    requires Represents(peel, upper, m) && upper.argv != [] && Sane(lower) && Transparent(peel, lower.argv)
    requires out.argv == lower.argv + ShellWordsFor(kind, Sorted(upper.env), upper.argv)
    requires out.env == lower.env && out.cwd == if upper.cwd.Some? then upper.cwd else lower.cwd
    requires WellFormed(out.fds) && AsMap(out.fds) == AsMap(lower.fds) + AsMap(upper.fds)
    ensures Represents(peel, out, Combine(m, Shell(kind), lower))
  {
    forall around ensures RunsAs(peel, out, Combine(m, Shell(kind), lower), around) {
      ShellHandlerRuns(peel, upper, m, kind, lower, around);
    }
    EnvIsCommandName();
    FirstWord(lower.argv, ShellWordsFor(kind, Sorted(upper.env), upper.argv));
  }

  lemma ScopeHandled(peel: Peel, upper: Layer, m: Meaning, systemd: bool, unit: string, lower: Layer, out: Layer)
    requires Represents(peel, upper, m) && upper.argv != [] && Sane(lower) && Transparent(peel, lower.argv)
    requires out.argv == lower.argv + (ScopeWords(systemd, unit) + upper.argv)
    requires out.env == Sorted(upper.env) && out.cwd == upper.cwd
    requires WellFormed(out.fds) && AsMap(out.fds) == AsMap(lower.fds) + AsMap(upper.fds)
    ensures Represents(peel, out, Combine(m, Scope(systemd, unit), lower))
  {
    var c := Combine(m, Scope(systemd, unit), lower);
    SortingKeepsMeaning(upper.env);
    SortedSettable(upper.env);
    forall around ensures RunsAs(peel, out, c, around) {
      var env := around + MapOf(upper.env);
      var target := Config(c.argv, around + c.env);
      assert RunsAs(peel, upper, m, around);
      ScopeRuns(peel, systemd, unit, upper.argv, env, target);
      PrefixRuns(peel, lower.argv, ScopeWords(systemd, unit) + upper.argv, env, target);
    }
    EnvIsCommandName();
    FirstWord(lower.argv, ScopeWords(systemd, unit) + upper.argv);
  }

  lemma ScopeRuns(peel: Peel, systemd: bool, unit: string, argv: seq<string>, env: map<string, string>, target: Config)
    requires argv != [] && CommandName(argv[0]) && Runs(peel, Config(argv, env), target)
    ensures Runs(peel, Config(ScopeWords(systemd, unit) + argv, env), target)
  {
    if systemd {
      ScopeSteps(peel, unit, argv, env);
      hide ScopeWords, Step;
      StepThenRuns(peel, Config(ScopeWords(systemd, unit) + argv, env), Config(argv, env), target);
    } else {
      assert ScopeWords(systemd, unit) + argv == argv;
    }
  }

  lemma ScopeSteps(peel: Peel, unit: string, argv: seq<string>, env: map<string, string>)
    requires argv != [] && !Dashed(argv[0])
    ensures Step(peel, Config(ScopeWords(true, unit) + argv, env)) == Some(Config(argv, env))
  {
    var words, options := ScopeWords(true, unit) + argv, ScopeWords(true, unit)[1..];
    assert words[0] == "systemd-run" && words[1..] == options + argv;
    assert options[0] == "--user" && options[1] == "--scope" && options[4] == "--same-dir";
    ScopeSkips(options, argv, env);
    hide ScopeStep, ScopeWords;
  }

  // ---------- the fold ----------

  /** A handler succeeds exactly when the layers fit. */
  lemma HandleSucceedsIffFits(peel: Peel, upper: Layer, m: Meaning, lower: Layer)
    requires Represents(peel, upper, m) && Sane(lower) && !upper.handler.Error?
    ensures Handle(upper, lower).ok <==> Fits(m, upper.handler, lower)
  {
    MergeFailsIffCollision(lower.fds, upper.fds, 0);
    var collides := Collides(lower.fds, upper.fds, 0);
    if collides {
      var k :| 0 <= k < |upper.fds| && Live(upper.fds[k]) && LiveAt(lower.fds, upper.fds[k].dest);
      var d := upper.fds[k].dest;
      assert LiveAt(upper.fds, d);
      LiveIsMapped(upper.fds, d);
      LiveIsMapped(lower.fds, d);
    }
    forall d | d in m.fds && m.fds[d] != -1 && d in AsMap(lower.fds) && AsMap(lower.fds)[d] != -1 ensures collides {
      LiveIsMapped(upper.fds, d);
      LiveIsMapped(lower.fds, d);
      var k :| 0 <= k < |upper.fds| && upper.fds[k].dest == d && Live(upper.fds[k]);
    }
  }

  lemma HandledByDefault(peel: Peel, upper: Layer, m: Meaning, lower: Layer)
    requires Represents(peel, upper, m) && upper.handler.Default? && Sane(lower) && Transparent(peel, lower.argv)
    requires Handle(upper, lower).ok
    ensures Represents(peel, Handle(upper, lower).lower, Combine(m, Default, lower))
  {
    var out := Handle(upper, lower).lower;
    var env := Sorted(upper.env);
    MergedFds(upper, lower);
    if upper.argv != [] {
      assert out.argv == lower.argv + UnderEnv(env, upper.argv);
      DefaultCommand(peel, upper, m, lower, out);
    } else {
      assert env == [] ==> out.argv == lower.argv && AddEnviron(lower.env, env) == lower.env;
      DefaultEnviron(peel, upper, m, lower, out);
    }
  }

  lemma HandledByShell(peel: Peel, upper: Layer, m: Meaning, lower: Layer)
    requires Represents(peel, upper, m) && upper.handler.Shell? && m.argv != [] && Sane(lower) && Transparent(peel, lower.argv)
    requires Handle(upper, lower).ok
    ensures Represents(peel, Handle(upper, lower).lower, Combine(m, upper.handler, lower))
  {
    var out := Handle(upper, lower).lower;
    var kind := upper.handler.kind;
    MergedFds(upper, lower);
    ShellHandled(peel, upper, m, kind, lower, out);
  }

  lemma HandledByScope(peel: Peel, upper: Layer, m: Meaning, lower: Layer)
    requires Represents(peel, upper, m) && upper.handler.Scope? && m.argv != [] && Sane(lower) && Transparent(peel, lower.argv)
    requires Handle(upper, lower).ok
    ensures Represents(peel, Handle(upper, lower).lower, Combine(m, upper.handler, lower))
  {
    var out := Handle(upper, lower).lower;
    var Scope(systemd, unit) := upper.handler;
    MergedFds(upper, lower);
    ScopeHandled(peel, upper, m, systemd, unit, lower, out);
  }

  lemma HandleRepresents(peel: Peel, upper: Layer, m: Meaning, lower: Layer)
    requires Represents(peel, upper, m) && Covered(m, upper.handler) && Sane(lower) && Transparent(peel, lower.argv)
    requires Handle(upper, lower).ok
    ensures Represents(peel, Handle(upper, lower).lower, Combine(m, upper.handler, lower))
  {
    if upper.handler.Default? { HandledByDefault(peel, upper, m, lower); }
    else if upper.handler.Shell? { HandledByShell(peel, upper, m, lower); }
    else { HandledByScope(peel, upper, m, lower); }
  }

  lemma {:induction false} FoldRepresents(peel: Peel, layers: seq<Layer>, m: Meaning)
    requires layers != [] && Represents(peel, layers[0], m)
    requires CoveredFrom(peel, m, layers[0].handler, layers[1..])
    ensures Lower(layers).ok <==> FitFrom(m, layers[0].handler, layers[1..])
    ensures Lower(layers).ok ==>
      && |Lower(layers).layers| == 1
      && Represents(peel, Lower(layers).layers[0], MeaningFrom(m, layers[0].handler, layers[1..]))
    decreases |layers|
  {
    if |layers| > 1 {
      var upper, lower := layers[0], layers[1];
      var h := Handle(upper, lower);
      HandleSucceedsIffFits(peel, upper, m, lower);
      if h.ok {
        HandleRepresents(peel, upper, m, lower);
        var rest := [h.lower] + layers[2..];
        assert h.lower.handler == lower.handler;
        assert rest[1..] == layers[1..][1..];
        FoldRepresents(peel, rest, Combine(m, upper.handler, lower));
      }
    }
  }

  lemma RepresentsAlone(peel: Peel, root: Layer, m: Meaning)
    requires Represents(peel, root, m)
    ensures Runs(peel, Config(root.argv, MapOf(root.env)), Config(m.argv, m.env))
  {
    assert RunsAs(peel, root, m, map[]);
    assert map[] + MapOf(root.env) == MapOf(root.env) && map[] + m.env == m.env;
  }

  /** What it is for a root layer to carry out a meaning. */
  ghost predicate CarriesOut(peel: Peel, root: Layer, m: Meaning) {
    && Runs(peel, Config(root.argv, MapOf(root.env)), Config(m.argv, m.env))
    && root.cwd == m.cwd
    && AsMap(root.fds) == m.fds
  }

  /** When lowering succeeds.  For every covered stack, of any height and any mix of default, shell
    * and scope layers, it does so if and only if the layers fit together. */
  lemma LoweringSucceedsIffFit(peel: Peel, layers: seq<Layer>)
    requires CoveredStack(peel, layers)
    ensures Lower(layers).ok <==> FitTogether(layers)
  {
    OwnRepresents(peel, layers[0]);
    FoldRepresents(peel, layers, Own(layers[0]));
  }

  /** The main result.  For every such stack the single command left in root, run in root's
    * environment, comes to the meant command in exactly the meant environment, and root has the
    * meant directory and descriptors. */
  lemma LoweringPreservesMeaning(peel: Peel, layers: seq<Layer>, root: Layer, closed: seq<int>)
    requires CoveredStack(peel, layers) && Lower(layers) == Lowered(true, [root], closed)
    ensures CarriesOut(peel, root, MeaningOf(layers))
  {
    hide Lower;
    OwnRepresents(peel, layers[0]);
    FoldRepresents(peel, layers, Own(layers[0]));
    RepresentsAlone(peel, root, MeaningOf(layers));
  }

  // ---------- what a stack means, layer by layer ----------

  /** The directory of the topmost layer that asks for one.  What the layer directly below a scope asks
    * for is hidden: the scope puts its own in its place. */
  function AskedDirectory(layers: seq<Layer>, hidden: bool): Option<string> {
    if layers == [] then None
    else if !hidden && layers[0].cwd.Some? then layers[0].cwd
    else AskedDirectory(layers[1..], layers[0].handler.Scope?)
  }

  /** The value the topmost layer that sets a variable gives it, with the same exception. */
  function AskedVariable(layers: seq<Layer>, hidden: bool, key: string): Option<string> {
    if layers == [] then None
    else if !hidden && key in MapOf(layers[0].env) then Some(MapOf(layers[0].env)[key])
    else AskedVariable(layers[1..], layers[0].handler.Scope?, key)
  }

  /** The words of the topmost layer that has any. */
  function AskedWords(layers: seq<Layer>): seq<string> {
    if layers == [] then [] else if layers[0].argv != [] then layers[0].argv else AskedWords(layers[1..])
  }

  /** What the topmost layer that mentions a destination puts there. */
  function AskedSource(layers: seq<Layer>, dest: int): Option<int> {
    if layers == [] then None
    else if dest in AsMap(layers[0].fds) then Some(AsMap(layers[0].fds)[dest])
    else AskedSource(layers[1..], dest)
  }

  lemma {:induction false} DirectoryBelow(m: Meaning, h: Handler, below: seq<Layer>)
    ensures MeaningFrom(m, h, below).cwd == if m.cwd.Some? then m.cwd else AskedDirectory(below, h.Scope?)
    decreases |below|
  {
    if below != [] { DirectoryBelow(Combine(m, h, below[0]), below[0].handler, below[1..]); }
  }

  lemma {:induction false} VariableBelow(m: Meaning, h: Handler, below: seq<Layer>, key: string)
    ensures var r := MeaningFrom(m, h, below).env; var asked := AskedVariable(below, h.Scope?, key);
      if key in m.env then key in r && r[key] == m.env[key]
      else if asked.Some? then key in r && r[key] == asked.value else key !in r
    decreases |below|
  {
    if below != [] { VariableBelow(Combine(m, h, below[0]), below[0].handler, below[1..], key); }
  }

  lemma {:induction false} SourceBelow(m: Meaning, h: Handler, below: seq<Layer>, dest: int)
    ensures var r := MeaningFrom(m, h, below).fds; var asked := AskedSource(below, dest);
      if dest in m.fds then dest in r && r[dest] == m.fds[dest]
      else if asked.Some? then dest in r && r[dest] == asked.value else dest !in r
    decreases |below|
  {
    if below != [] { SourceBelow(Combine(m, h, below[0]), below[0].handler, below[1..], dest); }
  }

  lemma {:induction false} WordsBelow(peel: Peel, m: Meaning, h: Handler, below: seq<Layer>)
    requires CoveredFrom(peel, m, h, below)
    ensures MeaningFrom(m, h, below).argv == if m.argv != [] then m.argv else AskedWords(below)
    decreases |below|
  {
    if below != [] { WordsBelow(peel, Combine(m, h, below[0]), below[0].handler, below[1..]); }
  }

  /** The main result again, without a calculation from layer to layer: the command left in root comes to
    * the words of the topmost layer that has any; every variable, the directory and every descriptor
    * are those of the topmost layer that asks for them. */
  lemma LoweringInTerms(peel: Peel, layers: seq<Layer>, root: Layer, closed: seq<int>) returns (env: map<string, string>)
    requires CoveredStack(peel, layers) && Lower(layers) == Lowered(true, [root], closed)
    ensures Runs(peel, Config(root.argv, MapOf(root.env)), Config(AskedWords(layers), env))
    ensures forall key :: (if key in env then Some(env[key]) else None) == AskedVariable(layers, false, key)
    ensures root.cwd == AskedDirectory(layers, false)
    ensures forall dest :: (if dest in AsMap(root.fds) then Some(AsMap(root.fds)[dest]) else None) == AskedSource(layers, dest)
  {
    hide Lower;
    var m, h, below := Own(layers[0]), layers[0].handler, layers[1..];
    LoweringPreservesMeaning(peel, layers, root, closed);
    env := MeaningOf(layers).env;
    hide Runs, CarriesOut, CoveredFrom;
    assert CarriesOut(peel, root, MeaningFrom(m, h, below));
    MeantByRoot(peel, root, MeaningFrom(m, h, below));
    WordsBelow(peel, m, h, below);
    DirectoryBelow(m, h, below);
    forall key ensures (if key in env then Some(env[key]) else None) == AskedVariable(layers, false, key) {
      VariableBelow(m, h, below, key);
    }
    forall dest ensures (if dest in AsMap(root.fds) then Some(AsMap(root.fds)[dest]) else None) == AskedSource(layers, dest) {
      SourceBelow(m, h, below, dest);
    }
  }

  lemma MeantByRoot(peel: Peel, root: Layer, m: Meaning)
    ensures CarriesOut(peel, root, m) ==> Runs(peel, Config(root.argv, MapOf(root.env)), Config(m.argv, m.env))
    ensures CarriesOut(peel, root, m) ==> root.cwd == m.cwd && AsMap(root.fds) == m.fds
  {}

  /** Every successful lowering has that form. */
  lemma LoweringLeavesRoot(layers: seq<Layer>)
    requires layers != [] && Lower(layers).ok
    ensures exists root, closed :: Lower(layers) == Lowered(true, [root], closed)
  {
    LowerEndsAtRoot(layers);
    var r := Lower(layers);
    assert r == Lowered(true, [r.layers[0]], r.closed);
  }
}
