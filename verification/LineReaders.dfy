/** Reading a buffer line by line, in place: every line is a slice of the buffer. */
module LineReaders {

  const NEWLINE := '\n'
  const RETURN := '\r'

  /** A line found: where it starts, its length, and where reading goes on. */
  datatype Line = Line(start: nat, length: nat, next: nat)

  /** The first newline at or after a position, or the length. */
  function NewlineAt(s: string, from: nat): (i: nat)
    requires from <= |s|
    ensures from <= i <= |s| && (i < |s| ==> s[i] == NEWLINE)
    ensures forall k :: from <= k < i ==> s[k] != NEWLINE
    decreases |s| - from
  {
    if from == |s| || s[from] == NEWLINE then from else NewlineAt(s, from + 1)
  }

  function LineAt(s: string, from: nat): (l: Line)
    requires from < |s|
    ensures l.start == from && l.start + l.length <= l.next <= |s| && from < l.next
  {
    var end := NewlineAt(s, from);
    if end == |s| then Line(from, end - from, end)
    else if end > from && s[end - 1] == RETURN then Line(from, end - from - 1, end + 1)
    else Line(from, end - from, end + 1)
  }

  function LinesFrom(s: string, from: nat): seq<Line>
    requires from <= |s|
    decreases |s| - from
  {
    if from == |s| then [] else [LineAt(s, from)] + LinesFrom(s, LineAt(s, from).next)
  }

  function Text(s: string, l: Line): string
    requires l.start + l.length <= |s|
  {
    s[l.start..l.start + l.length]
  }

  // ---------- an independent account: splitting ----------

  /** The pieces between newlines; an empty piece at the end does not count. */
  function Split(s: string): seq<string>
    decreases |s|
  {
    if s == "" then []
    else
      var end := NewlineAt(s, 0);
      if end == |s| then [s] else [s[..end]] + Split(s[end + 1..])
  }

  function Join(pieces: seq<string>): string {
    if pieces == [] then "" else if |pieces| == 1 then pieces[0] else pieces[0] + [NEWLINE] + Join(pieces[1..])
  }

  /** A piece before a newline loses one carriage return at its end. */
  function Chomp(piece: string): string {
    if piece != "" && piece[|piece| - 1] == RETURN then piece[..|piece| - 1] else piece
  }

  /** All pieces but one that no newline ends are chomped. */
  function Chomped(pieces: seq<string>, ended: bool): seq<string> {
    if pieces == [] then []
    else if |pieces| == 1 && !ended then pieces
    else [Chomp(pieces[0])] + Chomped(pieces[1..], ended)
  }

  predicate Ended(s: string) { s != "" && s[|s| - 1] == NEWLINE }

  function Texts(s: string, ls: seq<Line>): seq<string>
    requires forall i :: 0 <= i < |ls| ==> ls[i].start + ls[i].length <= |s|
  {
    seq(|ls|, (i: nat) requires i < |ls| => Text(s, ls[i]))
  }

  /** The pieces hold no newline, and no empty piece ends a text that no newline ends. */
  lemma {:induction false} PiecesClean(s: string)
    ensures forall p :: p in Split(s) ==> NEWLINE !in p
    ensures Split(s) != [] && !Ended(s) ==> Split(s)[|Split(s)| - 1] != ""
    decreases |s|
  {
    if s != "" {
      var end := NewlineAt(s, 0);
      if end < |s| {
        PiecesClean(s[end + 1..]);
        SplitSome(s[end + 1..]);
        SplitFirst(s, end);
        hide Split;
      }
    }
  }

  function Tail(s: string): string { if Ended(s) then [NEWLINE] else "" }

  /** Splitting loses nothing: joined again, the pieces are the text. */
  lemma {:induction false} SplitJoins(s: string)
    ensures Join(Split(s)) + Tail(s) == s
    decreases |s|
  {
    if s != "" {
      hide Split, Join, Tail, Ended;
      var end := NewlineAt(s, 0);
      SplitFirst(s, end);
      if end < |s| {
        var rest := s[end + 1..];
        SplitJoins(rest);
        SplitSome(rest);
        TailStep(s, end, rest);
        if rest == "" {
          JoinOne(s[..end]);
        } else {
          JoinFirst(s[..end], Split(rest), Tail(rest));
        }
      } else {
        JoinOne(s);
        NoTail(s);
      }
    }
  }

  lemma TailStep(s: string, end: nat, rest: string)
    ensures end < |s| && s[end] == NEWLINE && rest == s[end + 1..] ==> s == s[..end] + [NEWLINE] + rest
    ensures end < |s| && s[end] == NEWLINE && rest == s[end + 1..] ==>
              Tail(s) == if rest == "" then [NEWLINE] else Tail(rest)
  {}

  lemma NoTail(s: string)
    ensures NewlineAt(s, 0) == |s| ==> Tail(s) == "" && s + "" == s
  {}

  lemma JoinOne(p: string)
    ensures Join([p]) == p && [p] + [] == [p]
  {}

  lemma JoinFirst(p: string, rest: seq<string>, tail: string)
    requires rest != []
    ensures Join([p] + rest) + tail == p + [NEWLINE] + (Join(rest) + tail)
  {
    assert ([p] + rest)[1..] == rest;
  }

  lemma {:induction false} NewlineShift(s: string, from: nat, i: nat)
    requires from <= i <= |s|
    ensures NewlineAt(s[from..], i - from) == NewlineAt(s, i) - from
    decreases |s| - i
  {
    if i < |s| && s[i] != NEWLINE { NewlineShift(s, from, i + 1); }
  }

  lemma {:induction false} LinesInRange(s: string, from: nat)
    requires from <= |s|
    ensures forall l :: l in LinesFrom(s, from) ==> from <= l.start && l.start + l.length <= |s|
    decreases |s| - from
  {
    if from < |s| { LinesInRange(s, LineAt(s, from).next); }
  }

  lemma SliceOfSlice(s: string, from: nat, end: nat, k: nat)
    ensures from <= k <= end <= |s| ==> s[from..end][..k - from] == s[from..k]
  {}

  /** A line before a newline is the text up to it, chomped. */
  lemma LineIsChomped(s: string, from: nat, end: nat)
    requires from <= end < |s| && end == NewlineAt(s, from)
    ensures Text(s, LineAt(s, from)) == Chomp(s[from..end]) && LineAt(s, from).next == end + 1
  {
    var piece := s[from..end];
    if end > from {
      assert piece[|piece| - 1] == s[end - 1];
      SliceOfSlice(s, from, end, end - 1);
    }
  }

  lemma SplitFirst(u: string, end: nat)
    requires u != "" && end == NewlineAt(u, 0)
    ensures Split(u) == if end == |u| then [u] else [u[..end]] + Split(u[end + 1..])
  {}

  lemma EndedSuffix(s: string, from: nat, k: nat)
    ensures from < k <= |s| ==> (Ended(s[from..]) <==> if k == |s| then s[|s| - 1] == NEWLINE else Ended(s[k..]))
  {}

  /** A line read is one piece split off. */
  lemma InnerPiece(s: string, from: nat, end: nat)
    requires from <= end < |s| && end == NewlineAt(s, from)
    ensures LineAt(s, from).next == end + 1
    ensures Split(s[from..]) == [s[from..end]] + Split(s[end + 1..])
    ensures Text(s, LineAt(s, from)) == Chomp(s[from..end])
    ensures Ended(s[from..]) <==> end + 1 == |s| || Ended(s[end + 1..])
  {
    hide Split, Ended, Chomp, LineAt, Text;
    var u := s[from..];
    LineIsChomped(s, from, end);
    EndedSuffix(s, from, end + 1);
    NewlineShift(s, from, from);
    SplitFirst(u, end - from);
    assert u[..end - from] == s[from..end];
    assert u[end - from + 1..] == s[end + 1..];
  }

  lemma LastPiece(s: string, from: nat)
    requires from < |s| == NewlineAt(s, from)
    ensures LineAt(s, from).next == |s|
    ensures Split(s[from..]) == [s[from..]] && Text(s, LineAt(s, from)) == s[from..] && !Ended(s[from..])
  {
    NewlineShift(s, from, from);
    SplitFirst(s[from..], |s| - from);
  }

  lemma ChompedFirst(p: string, rest: seq<string>, ended: bool)
    requires rest != [] || ended
    ensures Chomped([p] + rest, ended) == [Chomp(p)] + Chomped(rest, ended)
  {
    assert ([p] + rest)[1..] == rest;
  }

  lemma SplitSome(s: string)
    ensures Split(s) == [] <==> s == ""
    ensures Chomped([], true) == Chomped([], false) == []
  {}

  /** The lines that are read are the pieces between newlines, without the return before a newline. */
  lemma {:induction false} LinesAreSplit(s: string, from: nat)
    requires from <= |s|
    ensures forall i :: 0 <= i < |LinesFrom(s, from)| ==> LinesFrom(s, from)[i].start + LinesFrom(s, from)[i].length <= |s|
    ensures Texts(s, LinesFrom(s, from)) == Chomped(Split(s[from..]), Ended(s[from..]))
    decreases |s| - from
  {
    hide Split, Chomped, Chomp, Text, Ended;
    LinesInRange(s, from);
    SplitSome(s[from..]);
    if from < |s| {
      var l := LineAt(s, from);
      var rest := LinesFrom(s, l.next);
      LinesAreSplit(s, l.next);
      var end := NewlineAt(s, from);
      LinesInRange(s, l.next);
      SplitSome(s[l.next..]);
      assert Texts(s, LinesFrom(s, from)) == [Text(s, l)] + Texts(s, rest);
      if end < |s| {
        InnerPiece(s, from, end);
        ChompedFirst(s[from..end], Split(s[l.next..]), Ended(s[from..]));
      } else {
        LastPiece(s, from);
        ChompedLast(s[from..]);
      }
    }
  }

  lemma ChompedLast(p: string)
    ensures Chomped([p], false) == [p]
  {}

  // ---------- terminators ----------

  /** What a line skips: nothing at the end of the text, else a newline with or without a return. */
  lemma Terminators(s: string, from: nat)
    requires from < |s|
    ensures var l := LineAt(s, from); var skipped := s[l.start + l.length..l.next];
      skipped == [RETURN, NEWLINE] || skipped == [NEWLINE] || (skipped == "" && l.next == |s|)
  {
    var l := LineAt(s, from);
    var end := NewlineAt(s, from);
    if end < |s| {
      if l.length < end - from {
        assert s[end - 1..end + 1] == [RETURN, NEWLINE];
      } else {
        assert s[end..end + 1] == [NEWLINE];
      }
    }
  }

  lemma {:induction false} NewlineAfter(s: string, from: nat, end: nat)
    requires from <= end <= |s| && '\n' !in s[from..end] && (end < |s| ==> s[end] == '\n')
    ensures NewlineAt(s, from) == end
    decreases end - from
  {
    if from < end {
      assert s[from] == s[from..end][0] && s[from + 1..end] == s[from..end][1..];
      NewlineAfter(s, from + 1, end);
    }
  }

  /** The cases of a line, spelled out.  A text of any content but newlines is what is read when a newline
    * follows, when a return and a newline do, and when nothing does; of several returns one is dropped. */
  lemma ReadBeforeNewline(before: string, text: string, rest: string)
    requires '\n' !in text && (text == "" || text[|text| - 1] != '\r')
    ensures var s := before + text + "\n" + rest; var l := LineAt(s, |before|);
      Text(s, l) == text && l.next == |before| + |text| + 1 && s[l.next..] == rest
  {
    var s := before + text + "\n" + rest;
    var end := |before| + |text|;
    assert s[|before|..end] == text && s[end] == '\n';
    NewlineAfter(s, |before|, end);
    hide NewlineAt;
  }

  lemma ReadBeforeReturn(before: string, text: string, rest: string)
    requires '\n' !in text
    ensures var s := before + text + "\r\n" + rest; var l := LineAt(s, |before|);
      Text(s, l) == text && l.next == |before| + |text| + 2 && s[l.next..] == rest
  {
    var s := before + text + "\r\n" + rest;
    var end := |before| + |text|;
    assert s[|before|..end] == text && s[end] == '\r' && s[end + 1] == '\n';
    assert s[|before|..end + 1] == text + "\r";
    NewlineAfter(s, |before|, end + 1);
    hide NewlineAt;
  }

  lemma ReadAtTheEnd(before: string, text: string)
    requires '\n' !in text && text != ""
    ensures var s := before + text; var l := LineAt(s, |before|);
      Text(s, l) == text && l.next == |s|
  {
    var s := before + text;
    assert s[|before|..] == text;
    NewlineAfter(s, |before|, |s|);
    hide NewlineAt;
  }

  /** A list of texts written out with a terminator after each. */
  function Written(texts: seq<string>, terminator: string): string {
    if texts == [] then "" else texts[0] + terminator + Written(texts[1..], terminator)
  }

  lemma WrittenFirst(before: string, texts: seq<string>, terminator: string)
    requires texts != []
    ensures before + Written(texts, terminator) == before + texts[0] + terminator + Written(texts[1..], terminator)
  {
    var t, rest := texts[0], Written(texts[1..], terminator);
    assert Written(texts, terminator) == t + terminator + rest;
    hide Written;
    assert before + (t + terminator + rest) == before + t + terminator + rest;
  }

  lemma LinesFirst(s: string, from: nat)
    requires from < |s|
    ensures LinesFrom(s, from) == [LineAt(s, from)] + LinesFrom(s, LineAt(s, from).next)
  {}

  /** Lines written with returns and newlines are read back, whatever they hold but newlines. */
  lemma {:induction false} WrittenWithReturns(before: string, texts: seq<string>)
    requires forall t :: t in texts ==> '\n' !in t
    ensures var s := before + Written(texts, "\r\n"); var ls := LinesFrom(s, |before|);
      |ls| == |texts| && forall i :: 0 <= i < |ls| ==> ls[i].start + ls[i].length <= |s| && Text(s, ls[i]) == texts[i]
    decreases |texts|
  {
    if texts != [] {
      hide LineAt, Text;
      var t, rest := texts[0], Written(texts[1..], "\r\n");
      var s := before + Written(texts, "\r\n");
      var next := before + t + "\r\n";
      WrittenFirst(before, texts, "\r\n");
      ReadBeforeReturn(before, t, rest);
      LinesFirst(s, |before|);
      hide Written, LinesFrom;
      WrittenWithReturns(next, texts[1..]);
    }
  }

  /** A text is read in full, or it ends in a return and is read without that. */
  predicate Reads(text: string, read: string) {
    if text != "" && text[|text| - 1] == '\r' then read + "\r" == text else read == text
  }

  lemma ReadWritten(before: string, text: string, rest: string)
    requires '\n' !in text
    ensures var s := before + text + "\n" + rest; var l := LineAt(s, |before|);
      Reads(text, Text(s, l)) && l.next == |before| + |text| + 1
  {
    if text != "" && text[|text| - 1] == '\r' {
      var u := text[..|text| - 1];
      assert text == u + "\r";
      assert before + text + "\n" + rest == before + u + "\r\n" + rest;
      ReadBeforeReturn(before, u, rest);
    } else {
      ReadBeforeNewline(before, text, rest);
    }
  }

  ghost predicate AllRead(texts: seq<string>, s: string, ls: seq<Line>) {
    |ls| == |texts| && forall i :: 0 <= i < |ls| ==> ls[i].start + ls[i].length <= |s| && Reads(texts[i], Text(s, ls[i]))
  }

  lemma AllReadFirst(texts: seq<string>, s: string, l: Line, ls: seq<Line>)
    requires texts != [] && l.start + l.length <= |s| && Reads(texts[0], Text(s, l)) && AllRead(texts[1..], s, ls)
    ensures AllRead(texts, s, [l] + ls)
  {
    hide Text, Reads;
  }

  /** Lines written with newlines are read back, less a return at their end: so exactly those come back as
    * they were that do not end in one. */
  lemma {:induction false} WrittenWithNewlines(before: string, texts: seq<string>)
    requires forall t :: t in texts ==> '\n' !in t
    ensures var s := before + Written(texts, "\n"); AllRead(texts, s, LinesFrom(s, |before|))
    decreases |texts|
  {
    if texts != [] {
      hide LineAt, Text, Reads, AllRead;
      var t, rest := texts[0], Written(texts[1..], "\n");
      var s := before + Written(texts, "\n");
      var next := before + t + "\n";
      WrittenFirst(before, texts, "\n");
      ReadWritten(before, t, rest);
      LinesFirst(s, |before|);
      hide Written, LinesFrom;
      WrittenWithNewlines(next, texts[1..]);
      AllReadFirst(texts, s, LineAt(s, |before|), LinesFrom(s, |next|));
    } else {
      hide Text, Reads;
    }
  }

  /** Lines follow each other without gap: slices and what they skip make up the text. */
  lemma {:induction false} LinesCover(s: string, from: nat, i: nat)
    requires from <= |s| && i < |LinesFrom(s, from)|
    ensures var ls := LinesFrom(s, from);
      && ls[0].start == from && ls[i].start < |s|
      && ls[i] == LineAt(s, ls[i].start)
      && (if i + 1 < |ls| then ls[i + 1].start == ls[i].next else ls[i].next == |s|)
    decreases |s| - from
  {
    if i > 0 {
      LinesCover(s, LineAt(s, from).next, i - 1);
    }
  }

  // ---------- the reader ----------

  class LineReader {
    const contents: array?<char>
    const length: nat
    var pos: nat

    /** A negative length stands for all of a text that ends in a zero byte; the array holds it. */
    constructor (contents: array?<char>, length: int)
      requires if contents == null then length >= 0 else length <= contents.Length
      ensures this.contents == contents && pos == 0 && Valid()
      ensures this.length == if contents == null then 0 else if length < 0 then contents.Length else length
    {
      this.contents := contents;
      this.length := if contents == null then 0 else if length < 0 then contents.Length else length;
      pos := 0;
    }

    predicate Valid() reads this {
      pos <= length && (contents == null ==> length == 0) && (contents != null ==> length <= contents.Length)
    }

    ghost function Buffer(): string
      requires Valid()
      reads this, contents
    {
      if contents == null then "" else contents[..length]
    }

    /** The lines still to come. */
    ghost function Rest(): seq<Line>
      requires Valid()
      reads this, contents
    {
      LinesFrom(Buffer(), pos)
    }

    /** Takes the first of the lines to come, or says that there is none. */
    method Next() returns (found: bool, start: nat, size: nat)
      requires Valid()
      modifies this
      ensures Valid() && Buffer() == old(Buffer())
      ensures found == (old(Rest()) != [])
      ensures found ==> Line(start, size, pos) == old(Rest())[0] && Rest() == old(Rest())[1..] && pos > old(pos)
      ensures found ==> start + size <= length
      ensures !found ==> size == 0 && pos == old(pos) && pos == length
    {
      if contents == null || pos >= length {
        return false, 0, 0;
      }
      ghost var s := Buffer();
      found, start := true, pos;
      while pos < length
        invariant start <= pos <= length && found
        invariant NewlineAt(s, start) == NewlineAt(s, pos)
        invariant Buffer() == s && s == contents[..length]
      {
        if contents[pos] == NEWLINE {
          size := pos - start;
          if size > 0 && pos > 0 && contents[pos - 1] == RETURN {
            size := size - 1;
          }
          pos := pos + 1;
          return;
        }
        pos := pos + 1;
      }
      size := pos - start;
    }
  }

  /** Reading to the end terminates and yields every line once, in order. */
  method ReadAll(reader: LineReader) returns (lines: seq<Line>)
    requires reader.Valid()
    modifies reader
    ensures lines == old(reader.Rest())
    ensures reader.Valid() && reader.pos == reader.length
  {
    hide LinesFrom, LineAt;
    lines := [];
    var found, start, size := reader.Next();
    while found
      invariant reader.Valid() && reader.Buffer() == old(reader.Buffer())
      invariant found ==> old(reader.Rest()) == lines + [Line(start, size, reader.pos)] + reader.Rest()
      invariant !found ==> old(reader.Rest()) == lines && reader.pos == reader.length
      decreases reader.length - reader.pos, found
    {
      lines := lines + [Line(start, size, reader.pos)];
      ghost var rest := reader.Rest();
      found, start, size := reader.Next();
      if found {
        assert rest == [Line(start, size, reader.pos)] + reader.Rest();
        assert lines + ([Line(start, size, reader.pos)] + reader.Rest())
            == lines + [Line(start, size, reader.pos)] + reader.Rest();
      }
    }
  }
}
