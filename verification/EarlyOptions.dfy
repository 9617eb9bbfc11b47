/** The rewriting of `-- command args` (or `-e command args`) into `-x 'quoted'` before GTK starts. */
module EarlyOptions {
  import opened Common
  import opened ShellWords

  predicate HasPrefix(s: string, prefix: string) { |prefix| <= |s| && s[..|prefix|] == prefix }

  predicate IsSeparator(arg: string) { arg == "--" || arg == "-e" }

  predicate KeepsInstance(arg: string) {
    arg == "--tab" || arg == "--new-window" || arg == "--tab-with-profile" || HasPrefix(arg, "--tab-with-profile=")
  }

  predicate Executes(arg: string) { arg == "-x" || arg == "--execute" || HasPrefix(arg, "--execute=") }

  /** Where the command starts to be taken verbatim: the first separator that something follows. */
  function SeparatorAt(args: seq<string>): (i: nat)
    ensures i <= |args|
    ensures i < |args| ==> i + 1 < |args| && IsSeparator(args[i])
    ensures forall j :: 0 <= j < i && j + 1 < |args| ==> !IsSeparator(args[j])
  {
    if |args| <= 1 then |args|
    else if IsSeparator(args[0]) then 0
    else 1 + SeparatorAt(args[1..])
  }

  function Normalised(arg: string): string { if arg == "-e" then "--" else arg }

  /** The argument vector after the rewrite. */
  function Rewritten(args: seq<string>): seq<string> {
    var i := SeparatorAt(args);
    if i < |args| then args[..i] + ["-x", QuoteAll(args[i + 1..])]
    else if args != [] then args[..|args| - 1] + [Normalised(args[|args| - 1])]
    else args
  }

  predicate AnyKeeps(args: seq<string>, n: nat) {
    0 < n <= |args| && (AnyKeeps(args, n - 1) || KeepsInstance(args[n - 1]))
  }

  predicate AnyExecutes(args: seq<string>, n: nat) {
    0 < n <= |args| && (AnyExecutes(args, n - 1) || Executes(args[n - 1]))
  }

  /** Whether the rewrite asks for a process of its own: there is a command to execute, and no
    * option up to it that addresses the running instance. */
  predicate WantsStandalone(args: seq<string>) {
    var i := SeparatorAt(args);
    (i < |args| || AnyExecutes(args, i)) && !AnyKeeps(args, i)
  }

  /** What the running instance is asked to execute is exactly what followed the separator. */
  lemma ExecuteRoundTrip(args: seq<string>)
    requires SeparatorAt(args) < |args|
    ensures var i := SeparatorAt(args); var out := Rewritten(args);
      && |out| == i + 2 && out[..i] == args[..i] && out[i] == "-x"
      && ParseArgv(out[i + 1]) == Words(args[i + 1..])
  {
    var i := SeparatorAt(args);
    ParseQuoteAll(args[i + 1..]);
  }

  /** Only the part after the separator is rewritten: two command lines are turned into the same
    * vector only if they carried the same options and the same command. */
  lemma RewriteInjective(a: seq<string>, b: seq<string>)
    requires SeparatorAt(a) < |a| && SeparatorAt(b) < |b| && Rewritten(a) == Rewritten(b)
    ensures a[..SeparatorAt(a)] == b[..SeparatorAt(b)] && a[SeparatorAt(a) + 1..] == b[SeparatorAt(b) + 1..]
  {
    ExecuteRoundTrip(a);
    ExecuteRoundTrip(b);
  }

  // ---------- the same, with the options spelled out ----------

  /** An option that opens a tab or window in the running instance. */
  predicate OpensHere(arg: string) {
    arg == "--tab" || arg == "--new-window" || arg == "--tab-with-profile" || "--tab-with-profile=" <= arg
  }

  /** An option that gives a command to execute. */
  predicate GivesCommand(arg: string) { arg == "-x" || arg == "--execute" || "--execute=" <= arg }

  lemma {:induction false} AnyAre(args: seq<string>, n: nat)
    requires n <= |args|
    ensures AnyKeeps(args, n) <==> exists i :: 0 <= i < n && OpensHere(args[i])
    ensures AnyExecutes(args, n) <==> exists i :: 0 <= i < n && GivesCommand(args[i])
  {
    if n > 0 {
      AnyAre(args, n - 1);
      assert KeepsInstance(args[n - 1]) == OpensHere(args[n - 1]) && Executes(args[n - 1]) == GivesCommand(args[n - 1]);
      hide KeepsInstance, OpensHere, Executes, GivesCommand;
    }
  }

  /** With a command after the first `--` or `-e`: everything before stays, the rest becomes one string,
    * and a process of its own is wanted unless one of the options before opens something here. */
  lemma WithCommand(before: seq<string>, sep: string, command: seq<string>)
    requires sep in ["--", "-e"] && command != [] && forall a :: a in before ==> a != "--" && a != "-e"
    ensures var args := before + [sep] + command;
      && Rewritten(args) == before + ["-x", QuoteAll(command)]
      && ParseArgv(QuoteAll(command)) == Words(command)
      && (WantsStandalone(args) <==> forall i :: 0 <= i < |before| ==> !OpensHere(before[i]))
  {
    var args, n := before + [sep] + command, |before|;
    assert forall i :: 0 <= i < n ==> args[i] == before[i] && before[i] in before;
    assert args[n] == sep && args[..n] == before && args[n + 1..] == command;
    assert IsSeparator(args[n]) && SeparatorAt(args) == n;
    AnyAre(args, n);
    ParseQuoteAll(command);
    hide OpensHere, GivesCommand, QuoteAll, ParseArgv;
  }

  /** Without one: only a last `-e` becomes `--`, and a process of its own is wanted if an option gives a
    * command and none opens something here. */
  lemma WithoutCommand(args: seq<string>)
    requires forall i :: 0 <= i && i + 1 < |args| ==> args[i] != "--" && args[i] != "-e"
    ensures |Rewritten(args)| == |args|
    ensures forall i :: 0 <= i < |args| ==> Rewritten(args)[i] == if args[i] == "-e" then "--" else args[i]
    ensures WantsStandalone(args) <==>
              (exists i :: 0 <= i < |args| && GivesCommand(args[i])) && !exists i :: 0 <= i < |args| && OpensHere(args[i])
  {
    var n := SeparatorAt(args);
    assert n == |args|;
    NotConverted(args);
    AnyAre(args, n);
    hide OpensHere, GivesCommand, Rewritten, AnyKeeps, AnyExecutes;
  }

  /** argv as C passes it: the arguments and then NULL. */
  ghost predicate Holds(argv: array<Option<string>>, args: seq<string>)
    reads argv
  {
    && |args| < argv.Length
    && (forall k :: 0 <= k < |args| ==> argv[k] == Some(args[k]))
    && (forall k :: |args| <= k < argv.Length ==> argv[k] == None)
  }

  /** Quotes everything after slot i into one string and empties those slots. */
  method TakeRest(argv: array<Option<string>>, argc: nat, i: nat, ghost args: seq<string>) returns (str: string)
    requires argc < argv.Length && i < argc == |args|
    requires forall k :: i < k < argc ==> argv[k] == Some(args[k])
    modifies argv
    ensures str == QuoteAll(args[i + 1..])
    ensures forall k :: 0 <= k < argv.Length ==> argv[k] == if i < k < argc then None else old(argv[k])
  {
    str := "";
    var j := i + 1;
    while j < argc
      invariant i + 1 <= j <= argc
      invariant forall k :: 0 <= k < argv.Length ==> argv[k] == if i < k < j then None else old(argv[k])
      invariant str == QuoteAll(args[i + 1..j])
    {
      QuoteNext(args, i + 1, j);
      str := str + Quote(argv[j].value);
      str := str + " ";
      argv[j] := None;
      j := j + 1;
    }
    WholeTail(args, i + 1);
  }

  lemma WholeTail(args: seq<string>, i: nat)
    ensures i <= |args| ==> args[i..|args|] == args[i..]
  {}

  /** A separator that something follows is the one the rewrite acts on. */
  lemma FoundSeparator(args: seq<string>, i: nat)
    ensures i + 1 < |args| && i <= SeparatorAt(args) ==> (IsSeparator(args[i]) <==> i == SeparatorAt(args))
  {}

  lemma NothingKept(arg: string)
    ensures IsSeparator(arg) ==> !KeepsInstance(arg) && !Executes(arg)
  {}

  lemma QuoteNext(args: seq<string>, i: nat, j: nat)
    requires i <= j < |args|
    ensures QuoteAll(args[i..j + 1]) == QuoteAll(args[i..j]) + Quote(args[j]) + " "
  {
    assert args[i..j + 1] == args[i..j] + [args[j]];
    QuoteAllAppend(args[i..j], args[j]);
  }

  /** The separator and what follows become two slots, `-x` and the quoted command. */
  method Convert(argv: array<Option<string>>, argc: nat, i: nat, ghost args: seq<string>) returns (newArgc: nat)
    requires argc < argv.Length && argc == |args| && i + 1 < argc && i == SeparatorAt(args)
    requires forall k :: 0 <= k < argc && k != i ==> argv[k] == Some(args[k])
    requires forall k :: argc <= k < argv.Length ==> argv[k] == None
    modifies argv
    ensures Holds(argv, Rewritten(args)) && newArgc == |Rewritten(args)|
  {
    var str := TakeRest(argv, argc, i, args);
    argv[i] := Some("-x");
    argv[i + 1] := Some(str);
    newArgc := i + 1 + 1;
    ghost var out := Rewritten(args);
    assert out == args[..i] + ["-x", str];
    forall k | 0 <= k < |out| ensures argv[k] == Some(out[k]) {}
  }

  /** No separator was acted on: at most the last argument, a lone -e, has been changed. */
  lemma NotConverted(args: seq<string>)
    requires SeparatorAt(args) == |args|
    ensures |Rewritten(args)| == |args|
    ensures forall k :: 0 <= k < |args| ==> Rewritten(args)[k] == Normalised(args[k])
  {
    forall k | 0 <= k < |args| ensures Rewritten(args)[k] == Normalised(args[k]) {
      if k + 1 < |args| { assert !IsSeparator(args[k]); }
    }
  }

  method CheckEarlyOpts(argv: array<Option<string>>, argc: nat, ghost args: seq<string>)
    returns (newArgc: nat, standalone: bool)
    requires Holds(argv, args) && argc == |args|
    modifies argv
    ensures Holds(argv, Rewritten(args)) && newArgc == |Rewritten(args)|
    ensures standalone == WantsStandalone(args)
  {
    hide KeepsInstance, Executes, Rewritten, SeparatorAt;
    var ignoreStandalone, realStandalone := false, false;
    var i := 0;
    while i < argc
      invariant 0 <= i <= argc && i <= SeparatorAt(args)
      invariant forall k :: 0 <= k < i ==> argv[k] == Some(Normalised(args[k]))
      invariant forall k :: i <= k < argc ==> argv[k] == Some(args[k])
      invariant forall k :: argc <= k < argv.Length ==> argv[k] == None
      invariant ignoreStandalone == AnyKeeps(args, i)
      invariant realStandalone == AnyExecutes(args, i)
    {
      var arg := argv[i].value;
      if KeepsInstance(arg) { ignoreStandalone := true; }
      if Executes(arg) { realStandalone := true; }
      if arg == "-e" {
        argv[i] := Some("--");
      }
      if i + 1 < argc { FoundSeparator(args, i); }
      if argv[i] == Some("--") && argv[i + 1].Some? {
        NothingKept(arg);
        NotDashed(args, i);
        newArgc := Convert(argv, argc, i, args);
        standalone := !ignoreStandalone;
        return;
      }
      i := i + 1;
    }
    NotConverted(args);
    newArgc := argc;
    standalone := !ignoreStandalone && realStandalone;
  }

  /** Nothing before the separator has been changed. */
  lemma NotDashed(args: seq<string>, i: nat)
    ensures i <= SeparatorAt(args) && i < |args| ==> forall k :: 0 <= k < i ==> Normalised(args[k]) == args[k]
  {}
}
