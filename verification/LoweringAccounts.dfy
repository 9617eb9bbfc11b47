/** What each handler leaves below, read back from the words it wrote.
  *
  * The readers take the words of a layer apart as the program they start would, and know nothing of how
  * handlers build them.
  */
module LoweringAccounts {
  import opened Common
  import opened Decimals
  import opened Environ
  import opened FdMaps
  import opened Lowering
  import opened Programs
  import opened ShellWords

  // ---------- success, directory, environment ----------

  ghost predicate LiveInBoth(upper: seq<Item>, lower: seq<Item>) {
    exists i, j :: 0 <= i < |upper| && 0 <= j < |lower|
                && upper[i].dest == lower[j].dest && upper[i].source != -1 && lower[j].source != -1
  }

  /** A handler runs through unless it is the error handler, or a default layer asks for another
    * directory than the one below, or a destination is live on both sides. */
  lemma HandledIff(upper: Layer, lower: Layer)
    requires WellFormed(upper.fds) && WellFormed(lower.fds)
    ensures Handle(upper, lower).ok <==>
              && !upper.handler.Error?
              && !(upper.handler.Default? && upper.cwd.Some? && lower.cwd.Some? && upper.cwd.value != lower.cwd.value)
              && !LiveInBoth(upper.fds, lower.fds)
    ensures !Handle(upper, lower).ok && !upper.handler.Host? && !upper.handler.Default? ==>
              Handle(upper, lower).lower.(fds := lower.fds) == lower
  {
    MergeFailsIffCollision(lower.fds, upper.fds, 0);
    hide StealFrom, AfterMerge;
    if LiveInBoth(upper.fds, lower.fds) {
      var i, j :| 0 <= i < |upper.fds| && 0 <= j < |lower.fds|
               && upper.fds[i].dest == lower.fds[j].dest && upper.fds[i].source != -1 && lower.fds[j].source != -1;
      assert Live(upper.fds[i]) && LiveAt(lower.fds, upper.fds[i].dest);
      assert Collides(lower.fds, upper.fds, 0);
    }
    if Collides(lower.fds, upper.fds, 0) {
      var i :| 0 <= i < |upper.fds| && Live(upper.fds[i]) && LiveAt(lower.fds, upper.fds[i].dest);
      var j :| 0 <= j < |lower.fds| && lower.fds[j].dest == upper.fds[i].dest && Live(lower.fds[j]);
      assert upper.fds[i].source != -1 && lower.fds[j].source != -1;
    }
  }

  /** The directory below: for a default or shell layer the upper one if it asks for one and otherwise
    * the lower one, for a scope the upper one in any case, for a host layer the lower one. */
  lemma HandledDirectory(upper: Layer, lower: Layer)
    requires Handle(upper, lower).ok
    ensures Handle(upper, lower).lower.cwd ==
              if upper.handler.Scope? then upper.cwd
              else if upper.handler.Host? then lower.cwd
              else if upper.cwd.Some? then upper.cwd else lower.cwd
    ensures Handle(upper, lower).lower.handler == lower.handler
  {}

  /** The descriptors below: those of both layers, and where both name a destination the upper one's. */
  lemma HandledDescriptors(upper: Layer, lower: Layer)
    requires WellFormed(upper.fds) && WellFormed(lower.fds) && Handle(upper, lower).ok
    ensures AsMap(Handle(upper, lower).lower.fds) == AsMap(lower.fds) + AsMap(upper.fds)
  {
    MergeIsOverride(lower.fds, upper.fds, 0);
    assert upper.fds[0..] == upper.fds;
  }

  // ---------- shell layers ----------

  /** The mode a shell is started in, and the words of the command it is given. */
  function ReadShell(words: seq<string>): Option<(ShellKind, seq<string>)> {
    var options := if |words| == 3 then [] else if |words| == 4 then words[1..2] else [""];
    if !(options == [] || options == ["-l"] || options == ["-i"]) || words[0] != "/bin/sh" || words[|words| - 2] != "-c" then None
    else
      var text := Read(PosixShell, words[|words| - 1]);
      if !text.Words? then None
      else
        Some((if options == ["-l"] then LoginShell else if options == ["-i"] then InteractiveShell else PlainShell, text.words))
  }

  /** A shell layer starts the shell in the mode asked for, on the upper command under its environment. */
  lemma ShellReadsBack(upper: Layer, lower: Layer) returns (env: seq<string>)
    requires upper.handler.Shell? && Handle(upper, lower).ok
    ensures multiset(env) == multiset(upper.env)
    ensures forall i, j :: 0 <= i < j < |env| ==> NotAfter(env[i], env[j])
    ensures var out := Handle(upper, lower).lower; var n := |lower.argv|;
      && out.env == lower.env && n < |out.argv| && out.argv[..n] == lower.argv
      && ReadShell(out.argv[n..]) ==
           Some((upper.handler.kind, if upper.env == [] then upper.argv else ["env"] + env + upper.argv))
  {
    env := Sorted(upper.env);
    SortedInOrder(upper.env);
    ShellTextReads(env, upper.argv);
    var words := ShellWordsFor(upper.handler.kind, env, upper.argv);
    var out := Handle(upper, lower).lower;
    assert out.argv == lower.argv + words;
    assert out.argv[|lower.argv|..] == words;
    hide CommandString, Read, Handle, Sorted;
    match upper.handler.kind
    case PlainShell => assert words == ["/bin/sh", "-c", CommandString(env, upper.argv)];
    case LoginShell => assert words == ["/bin/sh", "-l", "-c", CommandString(env, upper.argv)] && words[1..2] == ["-l"];
    case InteractiveShell => assert words == ["/bin/sh", "-i", "-c", CommandString(env, upper.argv)] && words[1..2] == ["-i"];
  }

  lemma ShellTextReads(env: seq<string>, argv: seq<string>)
    ensures Read(PosixShell, CommandString(env, argv)) == Words(if env == [] then argv else ["env"] + env + argv)
  {
    var tail := QuoteJoined(argv);
    if env == [] {
      ReadJoined(PosixShell, argv, []);
      assert CommandString(env, argv) == tail && [] + argv == argv;
    } else {
      assert CommandString(env, argv) == "env" + " " + (QuoteAll(env) + tail);
      ReadFirstWord(PosixShell, "env", QuoteAll(env) + tail);
      ReadAllThen(PosixShell, env, tail, ["env"]);
      ReadJoined(PosixShell, argv, ["env"] + env);
    }
  }

  // ---------- scope layers ----------

  /** A scope layer runs the upper command in the upper environment, in a scope of its own name if
    * systemd-run can be used. */
  lemma ScopeReadsBack(upper: Layer, lower: Layer)
    requires upper.handler.Scope? && Handle(upper, lower).ok
    ensures var out := Handle(upper, lower).lower;
      && out.argv == lower.argv
           + (if upper.handler.systemd
              then ["systemd-run", "--user", "--scope", "--collect", "--quiet", "--same-dir",
                    "--unit=" + "ptyxis-spawn-" + upper.handler.unit + ".scope"]
              else [])
           + upper.argv
      && multiset(out.env) == multiset(upper.env)
  {
    SortedInOrder(upper.env);
    var out := Handle(upper, lower).lower;
    var words := ScopeWords(upper.handler.systemd, upper.handler.unit);
    assert out.argv == lower.argv + (words + upper.argv);
    assert "--unit=ptyxis-spawn-" == "--unit=" + "ptyxis-spawn-";
    assert lower.argv + (words + upper.argv) == lower.argv + words + upper.argv;
  }

  // ---------- host layers ----------

  predicate Begins(w: string, prefix: string) { |prefix| <= |w| && w[..|prefix|] == prefix }

  predicate AllDigits(s: string) { s != "" && forall i :: 0 <= i < |s| ==> IsDigit(s[i]) }

  /** What flatpak-spawn is told: variables, a directory, descriptors to pass on, and the command. */
  datatype HostCall = HostCall(env: seq<string>, directory: Option<string>, forwarded: seq<nat>, command: seq<string>)

  /** Options end at the first word that is not one; the last directory counts. */
  function ReadOptions(words: seq<string>): Option<HostCall> {
    if words == [] || !Dashed(words[0]) then Some(HostCall([], None, [], words))
    else
      var w, rest := words[0], ReadOptions(words[1..]);
      if rest.None? then None
      else
        var r := rest.value;
        if Begins(w, "--env=") then Some(r.(env := [w[6..]] + r.env))
        else if Begins(w, "--directory=") then Some(r.(directory := if r.directory.Some? then r.directory else Some(w[12..])))
        else if Begins(w, "--forward-fd=") && AllDigits(w[13..]) then Some(r.(forwarded := [Parse(w[13..])] + r.forwarded))
        else None
  }

  function ReadHost(words: seq<string>): Option<HostCall> {
    if |words| >= 3 && words[..3] == ["flatpak-spawn", "--host", "--watch-bus"] then ReadOptions(words[3..]) else None
  }

  lemma EnvOptionsFirst(e: string, env: seq<string>, rest: seq<string>)
    ensures EnvOptions([e] + env) + rest == ["--env=" + e] + (EnvOptions(env) + rest)
  {
    assert ([e] + env)[1..] == env;
  }

  lemma {:induction false} EnvOptionsRead(env: seq<string>, rest: seq<string>)
    ensures ReadOptions(EnvOptions(env) + rest)
         == if ReadOptions(rest).None? then None
            else Some(ReadOptions(rest).value.(env := env + ReadOptions(rest).value.env))
  {
    hide ReadOptions;
    var tail := ReadOptions(rest);
    if env == [] {
      assert EnvOptions(env) + rest == rest;
      if tail.Some? { assert [] + tail.value.env == tail.value.env; }
    } else {
      hide EnvOptions;
      EnvOptionsRead(env[1..], rest);
      assert env == [env[0]] + env[1..];
      EnvOptionsFirst(env[0], env[1..], rest);
      VariableRead(env[0], EnvOptions(env[1..]) + rest);
      if tail.Some? { assert [env[0]] + (env[1..] + tail.value.env) == env + tail.value.env; }
    }
  }

  lemma VariableRead(entry: string, rest: seq<string>)
    ensures ReadOptions(["--env=" + entry] + rest)
         == if ReadOptions(rest).None? then None
            else Some(ReadOptions(rest).value.(env := [entry] + ReadOptions(rest).value.env))
  {
    var words := ["--env=" + entry] + rest;
    assert words[1..] == rest && words[0][6..] == entry && Begins(words[0], "--env=");
  }

  lemma DirectoryRead(cwd: string, rest: seq<string>)
    ensures ReadOptions(["--directory=" + cwd] + rest)
         == if ReadOptions(rest).None? then None
            else Some(ReadOptions(rest).value.(
                   directory := if ReadOptions(rest).value.directory.Some? then ReadOptions(rest).value.directory else Some(cwd)))
  {
    var words := ["--directory=" + cwd] + rest;
    assert words[1..] == rest && words[0][12..] == cwd && Begins(words[0], "--directory=");
    assert words[0][..6][2] == 'd' && !Begins(words[0], "--env=");
  }

  /** The live destinations from 2 up, in order. */
  function Passed(m: seq<Item>): seq<nat> {
    if m == [] then [] else (if m[0].dest >= 2 && m[0].source != -1 then [m[0].dest as nat] else []) + Passed(m[1..])
  }

  lemma ForwardRead(n: nat, rest: seq<string>)
    ensures ReadOptions(["--forward-fd=" + Decimal(n)] + rest)
         == if ReadOptions(rest).None? then None
            else Some(ReadOptions(rest).value.(forwarded := [n] + ReadOptions(rest).value.forwarded))
  {
    var words := ["--forward-fd=" + Decimal(n)] + rest;
    ParseDecimal(n);
    assert words[1..] == rest && words[0][13..] == Decimal(n) && Begins(words[0], "--forward-fd=");
    assert words[0][2] == 'f' && !Begins(words[0], "--env=") && !Begins(words[0], "--directory=");
  }

  lemma {:induction false} ForwardOptionsRead(m: seq<Item>, rest: seq<string>)
    ensures ReadOptions(ForwardOptions(m) + rest)
         == if ReadOptions(rest).None? then None
            else Some(ReadOptions(rest).value.(forwarded := Passed(m) + ReadOptions(rest).value.forwarded))
  {
    hide ReadOptions, Decimal;
    if m == [] {
      assert ForwardOptions(m) + rest == rest;
      if ReadOptions(rest).Some? { assert [] + ReadOptions(rest).value.forwarded == ReadOptions(rest).value.forwarded; }
    } else {
      var tail := ForwardOptions(m[1..]) + rest;
      ForwardOptionsRead(m[1..], rest);
      if m[0].dest >= 2 && Live(m[0]) {
        ForwardRead(m[0].dest, tail);
        assert ForwardOptions(m) + rest == ["--forward-fd=" + Decimal(m[0].dest)] + tail;
        if ReadOptions(rest).Some? {
          var later := ReadOptions(rest).value.forwarded;
          assert [m[0].dest as nat] + (Passed(m[1..]) + later) == Passed(m) + later;
        }
      } else {
        assert ForwardOptions(m) + rest == tail && Passed(m) == Passed(m[1..]);
      }
    }
  }

  lemma {:induction false} PassedAreLive(m: seq<Item>, n: nat)
    ensures n in Passed(m) <==> n >= 2 && exists k :: 0 <= k < |m| && m[k].dest == n && m[k].source != -1
  {
    if m != [] {
      PassedAreLive(m[1..], n);
      assert m == [m[0]] + m[1..];
      if k :| 0 <= k < |m| && m[k].dest == n && m[k].source != -1 {
        if k > 0 { assert m[1..][k - 1] == m[k]; }
      }
      if k :| 0 <= k < |m[1..]| && m[1..][k].dest == n && m[1..][k].source != -1 {
        assert m[k + 1] == m[1..][k];
      }
    }
  }

  lemma {:induction false} CommandShrinks(words: seq<string>)
    ensures ReadOptions(words).Some? ==> |ReadOptions(words).value.command| <= |words|
    ensures ReadOptions(words).Some? && words != [] && Dashed(words[0]) ==> |ReadOptions(words).value.command| < |words|
  {
    if words != [] && Dashed(words[0]) { CommandShrinks(words[1..]); }
  }

  /** All options of a host layer, before a command. */
  lemma HostOptionsRead(env: seq<string>, cwd: Option<string>, fds: seq<Item>, argv: seq<string>)
    ensures HostWords(env, cwd, fds) + argv != [] && |HostWords(env, cwd, fds)| >= 3
    ensures var r := ReadHost(HostWords(env, cwd, fds) + argv); var tail := ReadOptions(argv);
      if tail.None? then r.None?
      else
        && r.Some? && r.value.command == tail.value.command
        && (tail == Some(HostCall([], None, [], argv)) ==> r.value == HostCall(env, cwd, Passed(fds), argv))
  {
    hide ReadOptions, EnvOptions, ForwardOptions, Passed;
    var forwards := ForwardOptions(fds) + argv;
    var directory := if cwd.Some? then ["--directory=" + cwd.value] else [];
    var words := HostWords(env, cwd, fds) + argv;
    assert words[3..] == EnvOptions(env) + (directory + forwards) && words[..3] == ["flatpak-spawn", "--host", "--watch-bus"];
    ForwardOptionsRead(fds, argv);
    if cwd.Some? { DirectoryRead(cwd.value, forwards); } else { assert directory + forwards == forwards; }
    EnvOptionsRead(env, directory + forwards);
    assert env + [] == env && Passed(fds) + [] == Passed(fds);
  }

  /** A host layer, read back from the words left below.  The words after the options are the upper
    * command exactly if that does not itself begin like an option.  Then the variables are the upper
    * environment, the directory is the upper one, and the descriptors passed on are exactly the live
    * destinations from 2 up. */
  lemma HostReadsBack(upper: Layer, lower: Layer)
    requires upper.handler.Host? && Handle(upper, lower).ok
    ensures var out := Handle(upper, lower).lower; var n := |lower.argv|;
      && out.env == lower.env && n < |out.argv| && out.argv[..n] == lower.argv
      && var r := ReadHost(out.argv[n..]);
         && (r.Some? && r.value.command == upper.argv <==> upper.argv == [] || !Dashed(upper.argv[0]))
         && (upper.argv == [] || !Dashed(upper.argv[0]) ==>
               && multiset(r.value.env) == multiset(upper.env)
               && (UniqueKeys(upper.env) ==> MapOf(r.value.env) == MapOf(upper.env))
               && r.value.directory == upper.cwd
               && forall d: nat :: d in r.value.forwarded <==>
                    d >= 2 && exists k :: 0 <= k < |upper.fds| && upper.fds[k].dest == d && upper.fds[k].source != -1)
  {
    var env, out := Sorted(upper.env), Handle(upper, lower).lower;
    var words := HostWords(env, upper.cwd, upper.fds);
    assert out.argv == lower.argv + words + upper.argv;
    assert out.env == lower.env;
    hide Handle;
    HostOptionsRead(env, upper.cwd, upper.fds, upper.argv);
    assert out.argv[|lower.argv|..] == words + upper.argv;
    hide HostWords, ReadHost;
    CommandShrinks(upper.argv);
    SortedInOrder(upper.env);
    if UniqueKeys(upper.env) { SortingKeepsMeaning(upper.env); }
    forall d: nat
      ensures d in Passed(upper.fds) <==>
                d >= 2 && exists k :: 0 <= k < |upper.fds| && upper.fds[k].dest == d && upper.fds[k].source != -1
    {
      PassedAreLive(upper.fds, d);
    }
  }
}
