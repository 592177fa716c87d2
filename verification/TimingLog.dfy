/** The client's timing log (client/client.c:147-162, client/main.c:33-53) as text: what the
    two threads write, and how the parser takes a line apart (analysis/parser/data_parser.py). */
module TimingLog {
  import opened Common

  // Other is a line the parser skips, Malformed one whose time stamp it cannot read.
  datatype Line =
    | Start(t: nat) | End(t: nat)
    | FlooderStart | FlooderEnd | FlooderControl
    | Other | Malformed

  predicate Written(l: Line) {
    !l.Other? && !l.Malformed?
  }

  type Entry = l: Line | Written(l) witness FlooderStart

  // ---- Decimal numbers ----

  predicate IsDigit(c: char) {
    '0' <= c <= '9'
  }

  function Digits(n: nat): string {
    if n < 10 then [n as char + '0'] else Digits(n / 10) + [(n % 10) as char + '0']
  }

  predicate AllDigits(s: string) {
    forall i :: 0 <= i < |s| ==> IsDigit(s[i])
  }

  predicate IsNumber(s: string) {
    s != "" && AllDigits(s)
  }

  function Value(s: string): nat
    requires AllDigits(s)
    decreases |s|
  {
    if s == "" then 0 else Value(s[..|s| - 1]) * 10 + (s[|s| - 1] - '0') as nat
  }

  lemma {:induction false} DigitsReadBack(n: nat)
    ensures IsNumber(Digits(n)) && Value(Digits(n)) == n
  {
    if n < 10 {
      assert Digits(n)[..0] == "";
    } else {
      DigitsReadBack(n / 10);
      var s := Digits(n);
      assert s[..|s| - 1] == Digits(n / 10);
    }
  }

  // ---- One line ----

  function Render(l: Entry): string {
    match l
    case Start(t) => "START: " + Digits(t) + "\n"
    case End(t) => "END: " + Digits(t) + "\n"
    case FlooderStart => "FLOODER_START\n"
    case FlooderEnd => "FLOODER_END\n"
    case FlooderControl => "FLOODER_CONTROL\n"
  }

  predicate IsBlank(c: char) {
    c == ' ' || '\t' <= c <= '\r'
  }

  function Skip(s: string): string
    decreases |s|
  {
    if s != "" && IsBlank(s[0]) then Skip(s[1..]) else s
  }

  function Word(s: string): (w: string)
    ensures w <= s
    decreases |s|
  {
    if s == "" || IsBlank(s[0]) then "" else [s[0]] + Word(s[1..])
  }

  // split()[1], empty when the line has no second word.
  function SecondWord(s: string): string {
    var t := Skip(s);
    Word(Skip(t[|Word(t)|..]))
  }

  function Stamp(line: string): Option<nat> {
    var w := SecondWord(line);
    if IsNumber(w) then Some(Value(w)) else None
  }

  function Classify(line: string): Line {
    if "FLOODER_START" <= line then FlooderStart
    else if "FLOODER_END" <= line then FlooderEnd
    else if "FLOODER_CONTROL" <= line then FlooderControl
    else if "START" <= line then
      var t := Stamp(line);
      if t.Some? then Start(t.value) else Malformed
    else if "END" <= line then
      var t := Stamp(line);
      if t.Some? then End(t.value) else Malformed
    else Other
  }

  lemma {:induction false} WordIs(w: string, rest: string)
    requires forall c <- w :: !IsBlank(c)
    requires rest == "" || IsBlank(rest[0])
    ensures Word(w + rest) == w
    decreases |w|
  {
    if w == "" {
      assert w + rest == rest;
    } else {
      assert (w + rest)[1..] == w[1..] + rest;
      WordIs(w[1..], rest);
    }
  }

  lemma SecondWordIs(head: string, number: string)
    requires head != "" && forall c <- head :: !IsBlank(c)
    requires IsNumber(number)
    ensures SecondWord(head + " " + number + "\n") == number
  {
    var s := head + " " + number + "\n";
    assert s == head + (" " + number + "\n");
    assert !IsBlank(s[0]) by { assert s[0] == head[0]; }
    WordIs(head, " " + number + "\n");
    var t := s[|head|..];
    assert t == " " + number + "\n" && t[1..] == number + "\n";
    assert !IsBlank(t[1]) by { assert t[1] == number[0] && number[0] in number; }
    assert Skip(t) == Skip(t[1..]) == t[1..];
    WordIs(number, "\n");
  }

  lemma StampIs(head: string, t: nat)
    requires head != "" && forall c <- head :: !IsBlank(c)
    ensures Stamp(head + " " + Digits(t) + "\n") == Some(t)
  {
    hide SecondWord;
    DigitsReadBack(t);
    SecondWordIs(head, Digits(t));
  }

  lemma StartReadBack(t: nat)
    ensures Classify(Render(Start(t))) == Start(t)
  {
    hide Stamp, Digits;
    StampIs("START:", t);
    var line := Render(Start(t));
    assert line == "START:" + " " + Digits(t) + "\n";
    assert line[0] == 'S' && "FLOODER_START"[0] == 'F' && "FLOODER_END"[0] == 'F' && "FLOODER_CONTROL"[0] == 'F';
    assert line == "START" + (":" + " " + Digits(t) + "\n");
  }

  lemma EndReadBack(t: nat)
    ensures Classify(Render(End(t))) == End(t)
  {
    hide Stamp, Digits;
    StampIs("END:", t);
    var line := Render(End(t));
    assert line == "END:" + " " + Digits(t) + "\n";
    assert line[0] == 'E' && "FLOODER_START"[0] == 'F' && "FLOODER_END"[0] == 'F' && "FLOODER_CONTROL"[0] == 'F';
    assert "START"[0] == 'S';
    assert line == "END" + (":" + " " + Digits(t) + "\n");
  }

  lemma MarkerReadBack(l: Entry)
    requires !l.Start? && !l.End?
    ensures Classify(Render(l)) == l
  {
    hide Stamp;
    var line := Render(l);
    assert "FLOODER_START"[8] == 'S' && "FLOODER_END"[8] == 'E' && "FLOODER_CONTROL"[8] == 'C';
    assert line[8] == if l.FlooderStart? then 'S' else if l.FlooderEnd? then 'E' else 'C';
    assert l.FlooderStart? ==> line == "FLOODER_START" + "\n";
    assert l.FlooderEnd? ==> line == "FLOODER_END" + "\n";
    assert l.FlooderControl? ==> line == "FLOODER_CONTROL" + "\n";
  }

  // What the client writes is what the parser reads.
  lemma ReadBack(l: Entry)
    ensures Classify(Render(l)) == l
  {
    hide Classify, Render;
    match l
    case Start(t) => StartReadBack(t);
    case End(t) => EndReadBack(t);
    case FlooderStart => MarkerReadBack(l);
    case FlooderEnd => MarkerReadBack(l);
    case FlooderControl => MarkerReadBack(l);
  }

  // ---- The whole file ----

  function TextOf(log: seq<Entry>): string {
    if log == [] then "" else Render(log[0]) + TextOf(log[1..])
  }

  // Up to and including the newline: what readline returns, empty at the end of the file.
  function FirstLine(text: string): (l: string)
    ensures l <= text && (text != "" ==> l != "")
    decreases |text|
  {
    if text == "" then "" else if text[0] == '\n' then "\n" else [text[0]] + FirstLine(text[1..])
  }

  function ReadLog(text: string): seq<Line>
    decreases |text|
  {
    if text == "" then [] else [Classify(FirstLine(text))] + ReadLog(text[|FirstLine(text)|..])
  }

  lemma {:induction false} FirstLineIs(line: string, rest: string)
    requires '\n' !in line
    ensures FirstLine(line + "\n" + rest) == line + "\n"
    decreases |line|
  {
    if line != "" {
      assert (line + "\n" + rest)[1..] == line[1..] + "\n" + rest;
      FirstLineIs(line[1..], rest);
    } else {
      assert line + "\n" + rest == "\n" + rest;
    }
  }

  function Unended(l: Entry): (line: string)
    ensures Render(l) == line + "\n"
  {
    Render(l)[..|Render(l)| - 1]
  }

  lemma OneLine(l: Entry)
    ensures '\n' !in Unended(l)
  {
    hide Digits;
    match l
    case Start(t) => NumberLine("START: ", t);
    case End(t) => NumberLine("END: ", t);
    case _ =>
  }

  lemma NumberLine(head: string, t: nat)
    requires '\n' !in head
    ensures '\n' !in head + Digits(t) && (head + Digits(t) + "\n")[..|head + Digits(t)|] == head + Digits(t)
  {
    hide Digits;
    DigitsReadBack(t);
  }

  // Reading the log file back gives the log.
  lemma {:induction false} LogRoundTrip(log: seq<Entry>)
    ensures ReadLog(TextOf(log)) == log
    decreases |log|
  {
    if log != [] {
      hide Classify, Render, ReadLog;
      OneLine(log[0]);
      ReadFirst(Unended(log[0]), TextOf(log[1..]));
      ReadBack(log[0]);
      LogRoundTrip(log[1..]);
    } else {
      NothingRead();
    }
  }

  lemma NothingRead()
    ensures ReadLog("") == []
  {
  }

  lemma ReadFirst(line: string, rest: string)
    requires '\n' !in line
    ensures ReadLog(line + "\n" + rest) == [Classify(line + "\n")] + ReadLog(rest)
  {
    hide Classify;
    FirstLineIs(line, rest);
    assert (line + "\n" + rest)[|line + "\n"|..] == rest;
  }

  // Each write appends one line's text to the file.
  lemma {:induction false} TextAppended(log: seq<Entry>, l: Entry)
    ensures TextOf(log + [l]) == TextOf(log) + Render(l)
    decreases |log|
  {
    if log == [] {
      assert [l][1..] == [];
    } else {
      assert (log + [l])[1..] == log[1..] + [l];
      TextAppended(log[1..], l);
    }
  }

  // ---- Lines spelled out ----

  lemma DecimalDigits()
    ensures Digits(1024) == "1024" && Digits(0) == "0"
  {
    assert Digits(1) == "1" && Digits(10) == "10" && Digits(102) == "102";
  }

  lemma LinesWritten()
    ensures Render(Start(1024)) == "START: 1024\n" && Render(End(1024)) == "END: 1024\n"
    ensures Render(FlooderStart) == "FLOODER_START\n" && Render(FlooderEnd) == "FLOODER_END\n"
    ensures Render(FlooderControl) == "FLOODER_CONTROL\n"
  {
    DecimalDigits();
    assert "START: " + "1024" + "\n" == "START: 1024\n" && "END: " + "1024" + "\n" == "END: 1024\n";
  }
}
