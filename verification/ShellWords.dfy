/** Quoting words for a shell, and splitting a command line back into words.
  *
  * Quote is g_shell_quote.  Scan covers two readers of its output: g_shell_parse_argv, and the
  * part of the POSIX shell grammar that needs no expansion (sections 2.2 and 2.3 of the
  * POSIX.1-2017 Shell Command Language); anything the shell would expand is Unreadable here.
  */
module ShellWords {

  datatype Dialect = GLib | PosixShell

  datatype Mode = Blank | Bare | Single | Double | Comment

  datatype Reading = Words(words: seq<string>) | Unreadable

  // ---------- printing ----------

  function EscapeBody(w: string): string {
    if w == "" then ""
    else (if w[0] == '\'' then "'\\''" else [w[0]]) + EscapeBody(w[1..])
  }

  function Quote(w: string): string { "'" + EscapeBody(w) + "'" }

  /** Every word quoted and followed by a space. */
  function QuoteAll(ws: seq<string>): string {
    if ws == [] then "" else Quote(ws[0]) + " " + QuoteAll(ws[1..])
  }

  /** Every word quoted, with single spaces in between. */
  function QuoteJoined(ws: seq<string>): string {
    if ws == [] then "" else if |ws| == 1 then Quote(ws[0]) else Quote(ws[0]) + " " + QuoteJoined(ws[1..])
  }

  // ---------- reading ----------

  predicate IsBlank(d: Dialect, c: char) { c == ' ' || c == '\t' || (d.GLib? && c == '\n') }

  /** Unquoted characters that mean something to the shell beyond being part of a word. */
  predicate IsSpecial(d: Dialect, c: char) {
    d.PosixShell? && c in "|&;<>()$`\n*?[]~!{}=%^"
  }

  predicate EscapableInDouble(c: char) { c in "\"\\$`" }

  function Scan(d: Dialect, s: string, mode: Mode, cur: string, done: seq<string>): Reading {
    if s == "" then
      match mode
      case Blank => Words(done)
      case Comment => Words(done)
      case Bare => Words(done + [cur])
      case _ => Unreadable
    else
      var c, rest := s[0], s[1..];
      match mode
      case Comment => Scan(d, rest, if c == '\n' then Blank else Comment, cur, done)
      case Single => if c == '\'' then Scan(d, rest, Bare, cur, done) else Scan(d, rest, Single, cur + [c], done)
      case Double =>
        if c == '"' then Scan(d, rest, Bare, cur, done)
        else if c == '\\' && rest != "" && EscapableInDouble(rest[0]) then Scan(d, rest[1..], Double, cur + [rest[0]], done)
        else if c == '\\' && rest != "" && rest[0] == '\n' then
          Scan(d, rest[1..], Double, if d.GLib? then cur + "\n" else cur, done)
        else if d.PosixShell? && c in "$`" then Unreadable
        else Scan(d, rest, Double, cur + [c], done)
      case _ =>
        if IsBlank(d, c) then Scan(d, rest, Blank, "", if mode.Bare? then done + [cur] else done)
        else if c == '\'' then Scan(d, rest, Single, cur, done)
        else if c == '"' then Scan(d, rest, Double, cur, done)
        else if c == '#' && mode.Blank? then Scan(d, rest, Comment, cur, done)
        else if c == '\\' then
          if rest == "" then Unreadable
          else if rest[0] == '\n' then Scan(d, rest[1..], mode, cur, done)
          else Scan(d, rest[1..], Bare, cur + [rest[0]], done)
        else if IsSpecial(d, c) then Unreadable
        else Scan(d, rest, Bare, cur + [c], done)
  }

  function Read(d: Dialect, s: string): Reading { Scan(d, s, Blank, "", []) }

  /** g_shell_parse_argv: no words at all is an error too. */
  function ParseArgv(s: string): Reading {
    var r := Read(GLib, s);
    if r == Words([]) then Unreadable else r
  }

  // ---------- single steps of the reader ----------

  lemma OpenQuote(d: Dialect, rest: string, mode: Mode, cur: string, done: seq<string>)
    requires mode.Blank? || mode.Bare?
    ensures Scan(d, "'" + rest, mode, cur, done) == Scan(d, rest, Single, cur, done)
  {
    assert ("'" + rest)[1..] == rest;
  }

  lemma CloseQuote(d: Dialect, rest: string, cur: string, done: seq<string>)
    ensures Scan(d, "'" + rest, Single, cur, done) == Scan(d, rest, Bare, cur, done)
  {
    assert ("'" + rest)[1..] == rest;
  }

  lemma QuotedChar(d: Dialect, c: char, rest: string, cur: string, done: seq<string>)
    requires c != '\''
    ensures Scan(d, [c] + rest, Single, cur, done) == Scan(d, rest, Single, cur + [c], done)
  {
    assert ([c] + rest)[1..] == rest;
  }

  lemma EscapedQuote(d: Dialect, rest: string, cur: string, done: seq<string>)
    ensures Scan(d, "\\'" + rest, Bare, cur, done) == Scan(d, rest, Bare, cur + "'", done)
  {
    var s := "\\'" + rest;
    assert s[0] == '\\' && s[1..] == "'" + rest && s[1..][1..] == rest;
  }

  /** A quote inside a quoted word: closed, escaped, opened again. */
  lemma QuoteInQuotes(d: Dialect, rest: string, cur: string, done: seq<string>)
    ensures Scan(d, "'\\''" + rest, Single, cur, done) == Scan(d, rest, Single, cur + "'", done)
  {
    assert "'\\''" + rest == "'" + ("\\'" + ("'" + rest));
    CloseQuote(d, "\\'" + ("'" + rest), cur, done);
    EscapedQuote(d, "'" + rest, cur, done);
    OpenQuote(d, rest, Bare, cur + "'", done);
  }

  lemma EndOfWord(d: Dialect, rest: string, cur: string, done: seq<string>)
    ensures Scan(d, " " + rest, Bare, cur, done) == Scan(d, rest, Blank, "", done + [cur])
  {
    assert (" " + rest)[1..] == rest;
  }

  // ---------- round trips ----------

  lemma BodySplit(w: string, rest: string)
    ensures w != "" ==>
              EscapeBody(w) + rest == (if w[0] == '\'' then "'\\''" else [w[0]]) + (EscapeBody(w[1..]) + rest)
  {}

  lemma ReadFirst(d: Dialect, w: string, rest: string, cur: string, done: seq<string>)
    requires w != ""
    ensures Scan(d, EscapeBody(w) + rest, Single, cur, done)
         == Scan(d, EscapeBody(w[1..]) + rest, Single, cur + [w[0]], done)
  {
    BodySplit(w, rest);
    if w[0] == '\'' {
      QuoteInQuotes(d, EscapeBody(w[1..]) + rest, cur, done);
    } else {
      QuotedChar(d, w[0], EscapeBody(w[1..]) + rest, cur, done);
    }
  }

  lemma {:induction false} ReadBody(d: Dialect, w: string, rest: string, cur: string, done: seq<string>)
    ensures Scan(d, EscapeBody(w) + rest, Single, cur, done) == Scan(d, rest, Single, cur + w, done)
  {
    if w == "" {
      assert EscapeBody(w) + rest == rest && cur + w == cur;
    } else {
      ReadFirst(d, w, rest, cur, done);
      ReadBody(d, w[1..], rest, cur + [w[0]], done);
      assert cur + [w[0]] + w[1..] == cur + w;
    }
  }

  /** Whatever is in the word, and whatever follows, a quoted word reads back as exactly that word. */
  lemma ReadQuoted(d: Dialect, w: string, rest: string, mode: Mode, cur: string, done: seq<string>)
    requires mode.Blank? || mode.Bare?
    ensures Scan(d, Quote(w) + rest, mode, cur, done) == Scan(d, rest, Bare, cur + w, done)
  {
    assert Quote(w) + rest == "'" + (EscapeBody(w) + ("'" + rest));
    OpenQuote(d, EscapeBody(w) + ("'" + rest), mode, cur, done);
    ReadBody(d, w, "'" + rest, cur, done);
    CloseQuote(d, rest, cur + w, done);
  }

  lemma ReadQuotedThenSpace(d: Dialect, w: string, rest: string, done: seq<string>)
    ensures Scan(d, Quote(w) + " " + rest, Blank, "", done) == Scan(d, rest, Blank, "", done + [w])
  {
    assert Quote(w) + " " + rest == Quote(w) + (" " + rest);
    ReadQuoted(d, w, " " + rest, Blank, "", done);
    assert "" + w == w;
    EndOfWord(d, rest, w, done);
  }

  lemma {:induction false} ReadAllThen(d: Dialect, ws: seq<string>, rest: string, done: seq<string>)
    ensures Scan(d, QuoteAll(ws) + rest, Blank, "", done) == Scan(d, rest, Blank, "", done + ws)
  {
    if ws == [] {
      assert QuoteAll(ws) + rest == rest && done + ws == done;
    } else {
      assert QuoteAll(ws) + rest == Quote(ws[0]) + " " + (QuoteAll(ws[1..]) + rest);
      ReadQuotedThenSpace(d, ws[0], QuoteAll(ws[1..]) + rest, done);
      ReadAllThen(d, ws[1..], rest, done + [ws[0]]);
      assert done + [ws[0]] + ws[1..] == done + ws;
    }
  }

  lemma ReadAll(d: Dialect, ws: seq<string>, done: seq<string>)
    ensures Scan(d, QuoteAll(ws), Blank, "", done) == Words(done + ws)
  {
    ReadAllThen(d, ws, "", done);
    assert QuoteAll(ws) + "" == QuoteAll(ws);
  }

  lemma {:induction false} ReadJoined(d: Dialect, ws: seq<string>, done: seq<string>)
    ensures Scan(d, QuoteJoined(ws), Blank, "", done) == Words(done + ws)
  {
    if ws == [] {
      assert done + ws == done;
    } else if |ws| == 1 {
      ReadQuoted(d, ws[0], "", Blank, "", done);
      assert Quote(ws[0]) + "" == Quote(ws[0]) && "" + ws[0] == ws[0] && [ws[0]] == ws;
    } else {
      ReadQuotedThenSpace(d, ws[0], QuoteJoined(ws[1..]), done);
      ReadJoined(d, ws[1..], done + [ws[0]]);
      assert done + [ws[0]] + ws[1..] == done + ws;
    }
  }

  /** The round trip of `ptyxis -- words`: the string parses back to the words, for any non-empty list. */
  lemma ParseQuoteAll(ws: seq<string>)
    requires ws != []
    ensures ParseArgv(QuoteAll(ws)) == Words(ws)
  {
    ReadAll(GLib, ws, []);
    assert [] + ws == ws;
  }

  /** Distinct argument lists never print alike. */
  lemma QuoteAllInjective(a: seq<string>, b: seq<string>)
    requires QuoteAll(a) == QuoteAll(b)
    ensures a == b
  {
    ReadAll(GLib, a, []);
    ReadAll(GLib, b, []);
    assert [] + a == a && [] + b == b;
  }

  /** A word without single quotes stands between two of them; a single quote is written as a closing
    * one, an escaped one and an opening one. */
  lemma {:induction false} QuoteForm(a: string, b: string)
    requires '\'' !in a
    ensures Quote(a) == "'" + a + "'"
    ensures Quote(a + "'" + b) == "'" + a + "'\\'" + Quote(b)
  {
    BodyForm(a, b);
    assert "'" + (a + "'\\''" + EscapeBody(b)) + "'" == "'" + a + "'\\'" + ("'" + EscapeBody(b) + "'");
  }

  lemma BodyForm(a: string, b: string)
    requires '\'' !in a
    ensures EscapeBody(a) == a
    ensures EscapeBody(a + "'" + b) == a + "'\\''" + EscapeBody(b)
  {
    BodyPlain(a);
    BodyAppend(a + "'", b);
    BodyAppend(a, "'");
    assert EscapeBody("'") == "'\\''" + EscapeBody("");
  }

  lemma {:induction false} BodyPlain(a: string)
    requires '\'' !in a
    ensures EscapeBody(a) == a
  {
    if a != "" {
      BodyPlain(a[1..]);
      assert a == [a[0]] + a[1..];
    }
  }

  lemma Assoc(a: string, b: string, c: string)
    ensures a + b + c == a + (b + c)
  {}

  lemma {:induction false} BodyAppend(a: string, b: string)
    ensures EscapeBody(a + b) == EscapeBody(a) + EscapeBody(b)
  {
    if a == "" {
      assert a + b == b && EscapeBody(a) == "";
    } else {
      hide EscapeBody;
      var first, rest := [a[0]], a[1..];
      assert a == first + rest;
      Assoc(first, rest, b);
      BodyAppend(rest, b);
      BodyFirst(a[0], rest);
      BodyFirst(a[0], rest + b);
      Assoc(if a[0] == '\'' then "'\\''" else first, EscapeBody(rest), EscapeBody(b));
    }
  }

  lemma BodyFirst(c: char, rest: string)
    ensures EscapeBody([c] + rest) == (if c == '\'' then "'\\''" else [c]) + EscapeBody(rest)
  {
    assert ([c] + rest)[1..] == rest;
  }

  /** Between single quotes every character stands for itself, in either dialect. */
  lemma SingleQuotesAreLiteral(d: Dialect, w: string)
    requires '\'' !in w
    ensures Read(d, "'" + w + "'") == Words([w])
  {
    QuoteForm(w, "");
    assert Quote(w) + "" == Quote(w);
    ReadQuoted(d, w, "", Blank, "", []);
    assert "" + w == w;
  }

  lemma {:induction false} QuoteAllAppend(ws: seq<string>, w: string)
    ensures QuoteAll(ws + [w]) == QuoteAll(ws) + Quote(w) + " "
  {
    if ws != [] {
      QuoteAllAppend(ws[1..], w);
      assert (ws + [w])[1..] == ws[1..] + [w];
      assert Quote(ws[0]) + " " + (QuoteAll(ws[1..]) + Quote(w) + " ") == QuoteAll(ws) + Quote(w) + " ";
    } else {
      assert QuoteAll([w]) == Quote(w) + " " + QuoteAll([]);
    }
  }

  predicate Plain(d: Dialect, c: char) { !IsBlank(d, c) && !IsSpecial(d, c) && c !in "'\"#\\" }

  lemma PlainChar(d: Dialect, c: char, rest: string, mode: Mode, cur: string, done: seq<string>)
    requires mode.Blank? || mode.Bare?
    requires Plain(d, c)
    ensures Scan(d, [c] + rest, mode, cur, done) == Scan(d, rest, Bare, cur + [c], done)
  {
    assert ([c] + rest)[1..] == rest;
  }

  lemma {:induction false} ReadPlain(d: Dialect, w: string, rest: string, mode: Mode, cur: string, done: seq<string>)
    requires w != "" && (mode.Blank? || mode.Bare?)
    requires forall i :: 0 <= i < |w| ==> Plain(d, w[i])
    ensures Scan(d, w + rest, mode, cur, done) == Scan(d, rest, Bare, cur + w, done)
  {
    assert w + rest == [w[0]] + (w[1..] + rest);
    PlainChar(d, w[0], w[1..] + rest, mode, cur, done);
    if w[1..] == "" {
      assert w[1..] + rest == rest && [w[0]] == w;
    } else {
      ReadPlain(d, w[1..], rest, Bare, cur + [w[0]], done);
      assert cur + [w[0]] + w[1..] == cur + w;
    }
  }

  /** An unquoted word of plain characters, at the start of a line. */
  lemma ReadFirstWord(d: Dialect, w: string, rest: string)
    requires w != "" && forall i :: 0 <= i < |w| ==> Plain(d, w[i])
    ensures Scan(d, w + " " + rest, Blank, "", []) == Scan(d, rest, Blank, "", [w])
  {
    assert w + " " + rest == w + (" " + rest);
    ReadPlain(d, w, " " + rest, Blank, "", []);
    assert "" + w == w && [] + [w] == [w];
    EndOfWord(d, rest, w, []);
  }
}
