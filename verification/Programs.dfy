/** What executing a command line leads to, as far as the wrappers used by run contexts go.
  *
  * One Step is one execve: `env`, `sh -c` and `systemd-run --scope` each replace themselves by the
  * command they were given, in an environment of their making.  `peel` stands for any further
  * programs known to run their trailing words unchanged: it says how many leading words are theirs.
  */
module Programs {
  import opened Common
  import opened Environ
  import opened ShellWords

  /** An argument vector about to be executed in an environment.  No wrapper changes directory. */
  datatype Config = Config(argv: seq<string>, env: map<string, string>)

  predicate Dashed(w: string) { w != "" && w[0] == '-' }

  predicate Assigns(w: string) { HasKey(w) && KeyOf(w) != "" }

  /** env(1): leading NAME=VALUE words are assignments, the rest is the command. */
  function Assign(words: seq<string>, env: map<string, string>): Config {
    if words != [] && Assigns(words[0]) then Assign(words[1..], env[KeyOf(words[0]) := ValueOf(words[0])])
    else Config(words, env)
  }

  function RunnableOnly(c: Config): Option<Config> { if c.argv == [] then None else Some(c) }

  function EnvStep(words: seq<string>, env: map<string, string>): Option<Config> {
    if words != [] && Dashed(words[0]) then None else RunnableOnly(Assign(words, env))
  }

  /** sh [-l | -i] -c text, for a text that is one simple command without expansions. */
  function ShellStep(words: seq<string>, env: map<string, string>): Option<Config> {
    var rest := if words != [] && words[0] in ["-l", "-i"] then words[1..] else words;
    if |rest| == 2 && rest[0] == "-c" && Read(PosixShell, rest[1]).Words? then
      RunnableOnly(Config(Read(PosixShell, rest[1]).words, env))
    else None
  }

  /** How many leading words are options. */
  function OptionCount(words: seq<string>): (n: nat)
    ensures n <= |words|
  {
    if words != [] && Dashed(words[0]) then 1 + OptionCount(words[1..]) else 0
  }

  /** systemd-run replaces itself by the command, as the user and in the directory it was started in,
    * only when it is told to make a scope for the user and to keep the directory. */
  function ScopeStep(words: seq<string>, env: map<string, string>): Option<Config> {
    var n := OptionCount(words);
    if "--user" in words[..n] && "--scope" in words[..n] && "--same-dir" in words[..n] then RunnableOnly(Config(words[n..], env))
    else None
  }

  predicate BuiltIn(w: string) { w == "env" || w == "/bin/sh" || w == "systemd-run" }

  type Peel = seq<string> -> nat

  function Step(peel: Peel, c: Config): Option<Config> {
    if c.argv == [] then None
    else
      var words := c.argv[1..];
      if c.argv[0] == "env" then EnvStep(words, c.env)
      else if c.argv[0] == "/bin/sh" then ShellStep(words, c.env)
      else if c.argv[0] == "systemd-run" then ScopeStep(words, c.env)
      else
        var n := peel(c.argv);
        if 0 < n < |c.argv| then Some(Config(c.argv[n..], c.env)) else None
  }

  function Steps(peel: Peel, c: Config, n: nat): Option<Config>
    decreases n
  {
    if n == 0 then Some(c)
    else match Step(peel, c)
      case None => None
      case Some(d) => Steps(peel, d, n - 1)
  }

  /** Executing c comes to executing d. */
  ghost predicate Runs(peel: Peel, c: Config, d: Config) {
    exists n: nat :: Steps(peel, c, n) == Some(d)
  }

  lemma RunsToItself(peel: Peel, c: Config)
    ensures Runs(peel, c, c)
  {
    assert Steps(peel, c, 0) == Some(c);
  }

  lemma StepThenRuns(peel: Peel, c: Config, d: Config, e: Config)
    requires Step(peel, c) == Some(d) && Runs(peel, d, e)
    ensures Runs(peel, c, e)
  {
    var n: nat :| Steps(peel, d, n) == Some(e);
    assert Steps(peel, c, n + 1) == Some(e);
  }

  /** Execution is deterministic: a command line comes to at most one program that is not a wrapper. */
  lemma {:induction false} OneProgram(peel: Peel, c: Config, d: Config, e: Config)
    requires Runs(peel, c, d) && Runs(peel, c, e) && Step(peel, d).None? && Step(peel, e).None?
    ensures d == e
  {
    var n: nat :| Steps(peel, c, n) == Some(d);
    var m: nat :| Steps(peel, c, m) == Some(e);
    SameEnd(peel, c, n, m, d, e);
  }

  lemma {:induction false} SameEnd(peel: Peel, c: Config, n: nat, m: nat, d: Config, e: Config)
    requires Steps(peel, c, n) == Some(d) && Steps(peel, c, m) == Some(e)
    requires Step(peel, d).None? && Step(peel, e).None?
    ensures d == e
    decreases n
  {
    hide Step;
    if n > 0 && m > 0 { SameEnd(peel, Step(peel, c).value, n - 1, m - 1, d, e); }
  }

  // ---------- what each wrapper does with the words it is given ----------

  /** A word that neither env nor systemd-run takes for something of its own. */
  predicate CommandName(w: string) { !Assigns(w) && !Dashed(w) }

  /** An environment env can set up: distinct names, none of them empty or looking like an option. */
  ghost predicate Settable(env: seq<string>) {
    UniqueKeys(env) && forall i :: 0 <= i < |env| ==> Assigns(env[i]) && !Dashed(env[i])
  }

  lemma {:induction false} AssignPrefix(assignments: seq<string>, argv: seq<string>, env: map<string, string>)
    requires forall i :: 0 <= i < |assignments| ==> Assigns(assignments[i])
    ensures Assign(assignments + argv, env) == Assign(argv, Overlay(env, assignments))
    decreases |assignments|
  {
    if assignments == [] {
      assert assignments + argv == argv;
    } else {
      assert (assignments + argv)[1..] == assignments[1..] + argv;
      AssignPrefix(assignments[1..], argv, env[KeyOf(assignments[0]) := ValueOf(assignments[0])]);
    }
  }

  lemma {:induction false} AssignShortens(words: seq<string>, env: map<string, string>)
    ensures |Assign(words, env).argv| <= |words|
    decreases |words|
  {
    if words != [] && Assigns(words[0]) { AssignShortens(words[1..], env[KeyOf(words[0]) := ValueOf(words[0])]); }
  }

  /** `env K=V... command` runs the command with the assignments laid over the environment if and
    * only if the command's name does not itself look like an assignment. */
  lemma EnvRunsIffName(assignments: seq<string>, argv: seq<string>, env: map<string, string>)
    requires Settable(assignments) && assignments != [] && argv != []
    ensures EnvStep(assignments + argv, env) == Some(Config(argv, env + MapOf(assignments))) <==> !Assigns(argv[0])
  {
    AssignPrefix(assignments, argv, env);
    OverlayIsUnion(env, assignments);
    assert (assignments + argv)[0] == assignments[0];
    var e := env + MapOf(assignments);
    if Assigns(argv[0]) { AssignShortens(argv[1..], e[KeyOf(argv[0]) := ValueOf(argv[0])]); }
  }

  lemma EnvRuns(peel: Peel, assignments: seq<string>, argv: seq<string>, env: map<string, string>)
    requires Settable(assignments) && assignments != [] && argv != [] && CommandName(argv[0])
    ensures Step(peel, Config(["env"] + assignments + argv, env)) == Some(Config(argv, env + MapOf(assignments)))
  {
    EnvRunsIffName(assignments, argv, env);
    assert (["env"] + assignments + argv)[1..] == assignments + argv;
  }

  lemma ShellRuns(peel: Peel, options: seq<string>, text: string, words: seq<string>, env: map<string, string>)
    requires options in [[], ["-l"], ["-i"]]
    requires Read(PosixShell, text) == Words(words) && words != []
    ensures Step(peel, Config(["/bin/sh"] + options + ["-c", text], env)) == Some(Config(words, env))
  {
    var c := Config(["/bin/sh"] + options + ["-c", text], env);
    assert c.argv[1..] == options + ["-c", text];
    if options != [] { assert (options + ["-c", text])[1..] == ["-c", text]; }
    else { assert options + ["-c", text] == ["-c", text]; }
  }

  lemma {:induction false} OptionsCounted(options: seq<string>, argv: seq<string>)
    requires forall i :: 0 <= i < |options| ==> Dashed(options[i])
    requires argv == [] || !Dashed(argv[0])
    ensures OptionCount(options + argv) == |options|
  {
    if options == [] {
      assert options + argv == argv;
    } else {
      assert (options + argv)[1..] == options[1..] + argv;
      OptionsCounted(options[1..], argv);
    }
  }

  lemma ScopeSkips(options: seq<string>, argv: seq<string>, env: map<string, string>)
    requires forall i :: 0 <= i < |options| ==> Dashed(options[i])
    requires "--user" in options && "--scope" in options && "--same-dir" in options
    requires argv != [] && !Dashed(argv[0])
    ensures ScopeStep(options + argv, env) == Some(Config(argv, env))
  {
    OptionsCounted(options, argv);
    assert (options + argv)[..|options|] == options && (options + argv)[|options|..] == argv;
  }
}
