/** Recovering the measurements from the timing log (analysis/parser/data_parser.py). */
module Parser {
  import opened Common
  import opened TimingLog

  // A data point: seconds from the first start, and the round trip time in nanoseconds.
  datatype Point = Point(at: real, rtt: int)

  // A data point with the flooder's state when its round ended.
  datatype Mark = Mark(point: Point, on: bool, control: bool)

  // ---- What the markers before a line say, by looking back from the end ----

  function LastStart(lines: seq<Line>): Option<nat> {
    if lines == [] then None
    else if Last(lines).Start? then Some(Last(lines).t)
    else LastStart(Init(lines))
  }

  // The first start time; one of zero does not count as a time and gives way to the next.
  function FirstStart(lines: seq<Line>): Option<nat> {
    if lines == [] then None
    else
      var f := FirstStart(Init(lines));
      if Last(lines).Start? && (f.None? || f.value == 0) then Some(Last(lines).t) else f
  }

  // The flooder counts as on before its first marker.
  predicate FlooderOn(lines: seq<Line>) {
    if lines == [] then true
    else if Last(lines).FlooderStart? then true
    else if Last(lines).FlooderEnd? then false
    else FlooderOn(Init(lines))
  }

  predicate Control(lines: seq<Line>) {
    FlooderControl in lines
  }

  // The parser raises no exception.
  predicate Parses(lines: seq<Line>) {
    && Malformed !in lines
    && forall i :: 0 <= i < |lines| && lines[i].End? ==> LastStart(lines[..i]).Some?
  }

  function Ends(lines: seq<Line>): nat {
    if lines == [] then 0 else Ends(Init(lines)) + (if Last(lines).End? then 1 else 0)
  }

  function Measured(before: seq<Line>, end: nat): Mark
    requires LastStart(before).Some?
  {
    StartsTogether(before);
    var s := LastStart(before).value;
    Mark(Point((s - FirstStart(before).value) as real / 1000000000.0, end - s), FlooderOn(before), Control(before))
  }

  function Marks(lines: seq<Line>): seq<Mark>
    requires Parses(lines)
  {
    if lines == [] then []
    else
      ParsesInit(lines);
      Marks(Init(lines)) + (if Last(lines).End? then [Measured(Init(lines), Last(lines).t)] else [])
  }

  function Last(lines: seq<Line>): Line
    requires lines != []
  {
    lines[|lines| - 1]
  }

  function Init(lines: seq<Line>): seq<Line>
    requires lines != []
  {
    lines[..|lines| - 1]
  }

  lemma {:induction false} StartsTogether(lines: seq<Line>)
    ensures LastStart(lines).Some? <==> FirstStart(lines).Some?
  {
    if lines != [] {
      StartsTogether(Init(lines));
    }
  }

  lemma ParsesInit(lines: seq<Line>)
    requires lines != []
    ensures Parses(lines) <==> Parses(Init(lines)) && !Last(lines).Malformed?
                               && (Last(lines).End? ==> LastStart(Init(lines)).Some?)
  {
    var init := Init(lines);
    assert forall i :: 0 <= i < |init| ==> init[i] == lines[i] && init[..i] == lines[..i];
    assert lines == init + [Last(lines)];
  }

  // ---- The six lists ----

  datatype Choice = All | With | Without

  function Chosen(marks: seq<Mark>, control: bool, choice: Choice): seq<Point> {
    if marks == [] then []
    else
      var m := marks[|marks| - 1];
      Chosen(marks[..|marks| - 1], control, choice)
      + if m.control == control && (choice.All? || m.on == choice.With?) then [m.point] else []
  }

  datatype Lists = Lists(rtts: seq<Point>, withFlooder: seq<Point>, without: seq<Point>,
                         ctrl: seq<Point>, ctrlWith: seq<Point>, ctrlWithout: seq<Point>)

  function Sorted(marks: seq<Mark>): Lists {
    Lists(Chosen(marks, false, All), Chosen(marks, false, With), Chosen(marks, false, Without),
          Chosen(marks, true, All), Chosen(marks, true, With), Chosen(marks, true, Without))
  }

  datatype Outcome = Parsed(lists: Lists) | Raised

  function Outcomes(lines: seq<Line>): Outcome {
    if Parses(lines) then Parsed(Sorted(Marks(lines))) else Raised
  }

  lemma Prefixes(line: string)
    ensures "FLOODER_START" <= line <==> Classify(line).FlooderStart?
    ensures "FLOODER_END" <= line <==> Classify(line).FlooderEnd?
    ensures "FLOODER_CONTROL" <= line <==> Classify(line).FlooderControl?
    ensures "START" <= line ==> !("END" <= line)
    ensures "START" <= line ==> Classify(line) == if Stamp(line).Some? then Start(Stamp(line).value) else Malformed
    ensures "END" <= line ==> Classify(line) == if Stamp(line).Some? then End(Stamp(line).value) else Malformed
    ensures !("START" <= line) && !("END" <= line) ==>
              !Classify(line).Start? && !Classify(line).End? && !Classify(line).Malformed?
  {
    hide Stamp;
    assert "FLOODER_START"[8] == 'S' && "FLOODER_END"[8] == 'E' && "FLOODER_CONTROL"[8] == 'C';
    assert "FLOODER_START"[0] == 'F' && "FLOODER_END"[0] == 'F' && "FLOODER_CONTROL"[0] == 'F';
    assert "START"[0] == 'S' && "END"[0] == 'E';
  }

  lemma OneMore(before: seq<Line>, l: Line)
    ensures LastStart(before + [l]) == if l.Start? then Some(l.t) else LastStart(before)
    ensures FirstStart(before + [l]) == if l.Start? && (FirstStart(before).None? || FirstStart(before) == Some(0))
                                         then Some(l.t) else FirstStart(before)
    ensures FlooderOn(before + [l]) == (l.FlooderStart? || (!l.FlooderEnd? && FlooderOn(before)))
    ensures Control(before + [l]) == (l.FlooderControl? || Control(before))
  {
    assert Init(before + [l]) == before;
  }

  lemma OneMoreMark(before: seq<Line>, l: Line)
    requires Parses(before)
    ensures Parses(before + [l]) <==> !l.Malformed? && (l.End? ==> LastStart(before).Some?)
    ensures Parses(before + [l]) ==>
              Marks(before + [l]) == if l.End? then Marks(before) + [Measured(before, l.t)] else Marks(before)
  {
    hide Parses, Measured;
    ParsesInit(before + [l]);
    assert Init(before + [l]) == before;
  }

  lemma OneMoreChosen(marks: seq<Mark>, m: Mark, control: bool, choice: Choice)
    ensures Chosen(marks + [m], control, choice) ==
      if m.control == control && (choice.All? || m.on == choice.With?) then Chosen(marks, control, choice) + [m.point]
      else Chosen(marks, control, choice)
  {
    assert (marks + [m])[..|marks|] == marks;
  }

  // A mark goes to the full list and one of the two others, of the experiment or of the control.
  function Filed(a: Lists, m: Mark): Lists {
    var p := [m.point];
    if m.control && m.on then a.(ctrl := a.ctrl + p, ctrlWith := a.ctrlWith + p)
    else if m.control then a.(ctrl := a.ctrl + p, ctrlWithout := a.ctrlWithout + p)
    else if m.on then a.(rtts := a.rtts + p, withFlooder := a.withFlooder + p)
    else a.(rtts := a.rtts + p, without := a.without + p)
  }

  lemma OneMoreSorted(marks: seq<Mark>, m: Mark)
    ensures Sorted(marks + [m]) == Filed(Sorted(marks), m)
  {
    hide Chosen;
    forall control, choice {
      OneMoreChosen(marks, m, control, choice);
    }
  }

  lemma NoLines()
    ensures ReadLog("") == [] && Parses([]) && Marks([]) == [] && Sorted(Marks([])) == Lists([], [], [], [], [], [])
    ensures !Control([]) && FlooderOn([]) && FirstStart([]) == None && LastStart([]) == None
  {
  }

  lemma StepOver(times: string, lines: seq<Line>, rest: string, line: string)
    requires line == FirstLine(rest) && line != "" && ReadLog(times) == lines + ReadLog(rest)
    ensures ReadLog(times) == lines + [Classify(line)] + ReadLog(rest[|line|..])
  {
    hide Classify;
  }

  lemma NeverParses(lines: seq<Line>, rest: string)
    requires !Parses(lines)
    ensures !Parses(lines + ReadLog(rest))
  {
    hide ReadLog, LastStart;
    var all := lines + ReadLog(rest);
    assert all[..|lines|] == lines;
    if Parses(all) {
      assert forall i :: 0 <= i < |lines| ==> lines[i] == all[i] && lines[..i] == all[..i];
    }
  }

  // ---- What the reference definitions mean ----

  lemma {:induction false} LastStartIs(lines: seq<Line>, i: nat)
    requires i < |lines| && lines[i].Start?
    requires forall j :: i < j < |lines| ==> !lines[j].Start?
    ensures LastStart(lines) == Some(lines[i].t)
  {
    if i < |lines| - 1 {
      LastStartIs(Init(lines), i);
    }
  }

  lemma {:induction false} NoStart(lines: seq<Line>)
    ensures LastStart(lines).None? <==> forall i :: 0 <= i < |lines| ==> !lines[i].Start?
  {
    if lines != [] {
      NoStart(Init(lines));
      assert lines == Init(lines) + [Last(lines)];
    }
  }

  // No exception is raised exactly when every time can be read and a START precedes every END.
  lemma ParsesIs(lines: seq<Line>)
    ensures Parses(lines) <==>
      && Malformed !in lines
      && forall i :: 0 <= i < |lines| && lines[i].End? ==> exists j :: 0 <= j < i && lines[j].Start?
  {
    hide LastStart;
    forall i | 0 <= i < |lines|
      ensures LastStart(lines[..i]).Some? <==> exists j :: 0 <= j < i && lines[j].Start?
    {
      NoStart(lines[..i]);
      assert forall j :: 0 <= j < i ==> lines[..i][j] == lines[j];
    }
  }

  // Time zero of a data point is the first start with a time other than zero.
  lemma {:induction false} FirstStartIs(lines: seq<Line>, i: nat)
    requires i < |lines| && lines[i].Start? && lines[i].t != 0
    requires forall j :: 0 <= j < i && lines[j].Start? ==> lines[j].t == 0
    ensures FirstStart(lines) == Some(lines[i].t)
  {
    if i < |lines| - 1 {
      FirstStartIs(Init(lines), i);
    } else {
      StartsZero(Init(lines));
    }
  }

  lemma {:induction false} StartsZero(lines: seq<Line>)
    requires forall j :: 0 <= j < |lines| && lines[j].Start? ==> lines[j].t == 0
    ensures FirstStart(lines).None? || FirstStart(lines) == Some(0)
  {
    if lines != [] {
      StartsZero(Init(lines));
    }
  }

  // The flooder is taken to be on exactly if the latest marker says so, or there is none.
  lemma {:induction false} FlooderOnIs(lines: seq<Line>)
    ensures FlooderOn(lines) <==>
      forall i :: 0 <= i < |lines| && lines[i].FlooderEnd? ==> exists j :: i < j < |lines| && lines[j].FlooderStart?
  {
    if lines != [] {
      var init := Init(lines);
      FlooderOnIs(init);
      assert lines == init + [Last(lines)];
      if Last(lines).FlooderStart? {
        assert lines[|lines| - 1].FlooderStart?;
      } else if !Last(lines).FlooderEnd? {
        assert forall j :: 0 <= j < |lines| && lines[j].FlooderStart? ==> j < |init| && init[j].FlooderStart?;
        assert forall j :: 0 <= j < |init| ==> lines[j] == init[j];
      }
    }
  }

  // One data point for each END line, in order: it is measured from the latest start before
  // that line and labelled by the markers before it.
  lemma {:induction false} MarkOfEnd(lines: seq<Line>, i: nat)
    requires Parses(lines) && i < |lines| && lines[i].End?
    ensures |Marks(lines)| == Ends(lines) && Ends(lines[..i]) < Ends(lines)
    ensures LastStart(lines[..i]).Some? && Marks(lines)[Ends(lines[..i])] == Measured(lines[..i], lines[i].t)
    decreases |lines|
  {
    hide Measured;
    ParsesInit(lines);
    MarksCount(Init(lines));
    if i == |lines| - 1 {
    } else {
      MarkOfEnd(Init(lines), i);
      assert Init(lines)[..i] == lines[..i];
    }
  }

  lemma {:induction false} MarksCount(lines: seq<Line>)
    requires Parses(lines)
    ensures |Marks(lines)| == Ends(lines)
  {
    if lines != [] {
      ParsesInit(lines);
      MarksCount(Init(lines));
    }
  }

  // Takes the two lists apart again: from[i] tells which list the i-th point comes from.
  predicate Merges(from: seq<bool>, a: seq<Point>, b: seq<Point>, all: seq<Point>) {
    if all == [] then from == [] && a == [] && b == []
    else
      && from != []
      && (if from[|from| - 1] then a != [] && a[|a| - 1] == all[|all| - 1] else b != [] && b[|b| - 1] == all[|all| - 1])
      && Merges(from[..|from| - 1], if from[|from| - 1] then a[..|a| - 1] else a,
                if from[|from| - 1] then b else b[..|b| - 1], all[..|all| - 1])
  }

  function Sources(marks: seq<Mark>, control: bool): seq<bool> {
    if marks == [] then []
    else
      var m := marks[|marks| - 1];
      Sources(marks[..|marks| - 1], control) + if m.control == control then [m.on] else []
  }

  lemma MergesMore(from: seq<bool>, a: seq<Point>, b: seq<Point>, all: seq<Point>, on: bool, p: Point)
    requires Merges(from, a, b, all)
    ensures Merges(from + [on], if on then a + [p] else a, if on then b else b + [p], all + [p])
  {
    assert (from + [on])[..|from|] == from && (all + [p])[..|all|] == all;
    assert (a + [p])[..|a|] == a && (b + [p])[..|b|] == b;
  }

  lemma OneMoreSource(marks: seq<Mark>, m: Mark, control: bool)
    ensures Sources(marks + [m], control) ==
      if m.control == control then Sources(marks, control) + [m.on] else Sources(marks, control)
  {
    assert (marks + [m])[..|marks|] == marks;
  }

  // The lists with and without the flooder merge, in order, to the full list.
  lemma {:induction false} ListsMerge(marks: seq<Mark>, control: bool)
    ensures Merges(Sources(marks, control), Chosen(marks, control, With), Chosen(marks, control, Without),
                   Chosen(marks, control, All))
    decreases |marks|
  {
    if marks != [] {
      var m, rest := marks[|marks| - 1], marks[..|marks| - 1];
      assert marks == rest + [m];
      ListsMerge(rest, control);
      OneMoreMerged(rest, m, control);
    }
  }

  lemma OneMoreMerged(rest: seq<Mark>, m: Mark, control: bool)
    requires Merges(Sources(rest, control), Chosen(rest, control, With), Chosen(rest, control, Without),
                    Chosen(rest, control, All))
    ensures var marks := rest + [m];
      Merges(Sources(marks, control), Chosen(marks, control, With), Chosen(marks, control, Without),
             Chosen(marks, control, All))
  {
    hide Chosen, Sources, Merges;
    OneMoreSource(rest, m, control);
    OneMoreChosen(rest, m, control, All);
    OneMoreChosen(rest, m, control, With);
    OneMoreChosen(rest, m, control, Without);
    MergesMore(Sources(rest, control), Chosen(rest, control, With), Chosen(rest, control, Without),
               Chosen(rest, control, All), m.on, m.point);
  }

  // ---- The lists, told from the lines alone ----

  // The flooder counts as on at line i: every end marker before it is followed by a start marker.
  ghost predicate UnderFlood(lines: seq<Line>, i: nat)
    requires i <= |lines|
  {
    forall j :: 0 <= j < i && lines[j].FlooderEnd? ==> exists k :: j < k < i && lines[k].FlooderStart?
  }

  // Line i belongs to the control sequence.
  ghost predicate AfterControl(lines: seq<Line>, i: nat)
    requires i <= |lines|
  {
    exists j :: 0 <= j < i && lines[j].FlooderControl?
  }

  lemma LabelsAt(lines: seq<Line>, i: nat)
    requires i <= |lines|
    ensures FlooderOn(lines[..i]) <==> UnderFlood(lines, i)
    ensures Control(lines[..i]) <==> AfterControl(lines, i)
  {
    hide FlooderOn;
    var before := lines[..i];
    assert forall j :: 0 <= j < i ==> before[j] == lines[j];
    FlooderOnIs(before);
    if FlooderControl in before {
      var j :| 0 <= j < i && before[j] == FlooderControl;
      assert lines[j].FlooderControl?;
    }
  }

  // The two labels of a data point are those of the markers before its END line.
  lemma LabelsOfEnd(lines: seq<Line>, i: nat)
    requires Parses(lines) && i < |lines| && lines[i].End?
    ensures |Marks(lines)| == Ends(lines) && Ends(lines[..i]) < Ends(lines)
    ensures var m := Marks(lines)[Ends(lines[..i])];
      (m.on <==> UnderFlood(lines, i)) && (m.control <==> AfterControl(lines, i))
  {
    hide FlooderOn, Control, Marks, Ends;
    MarkOfEnd(lines, i);
    LabelsAt(lines, i);
  }

  // Its numbers are those of the START line last before it and of the first whose time is not zero.
  lemma PointOfEnd(lines: seq<Line>, first: nat, start: nat, i: nat)
    requires Parses(lines) && first <= start < i < |lines| && lines[i].End?
    requires lines[start].Start? && forall j :: start < j < i ==> !lines[j].Start?
    requires lines[first].Start? && lines[first].t != 0
    requires forall j :: 0 <= j < first && lines[j].Start? ==> lines[j].t == 0
    ensures |Marks(lines)| == Ends(lines) && Ends(lines[..i]) < Ends(lines)
    ensures var p := Marks(lines)[Ends(lines[..i])].point;
      && p.rtt == lines[i].t - lines[start].t
      && p.at * 1000000000.0 == (lines[start].t - lines[first].t) as real
  {
    hide Parses, Marks;
    MarkOfEnd(lines, i);
    var before := lines[..i];
    LastStartIs(before, start);
    FirstStartIs(before, first);
  }

  // The data points of the first n lines, those of the experiment or of the control sequence,
  // all of them or those under the flood or not.
  ghost function PointsOf(lines: seq<Line>, n: nat, control: bool, choice: Choice): seq<Point>
    requires n <= |lines| && Parses(lines)
  {
    if n == 0 then []
    else
      PointsOf(lines, n - 1, control, choice)
      + if lines[n - 1].End? && AfterControl(lines, n - 1) == control
           && (choice.All? || UnderFlood(lines, n - 1) == (choice == With))
        then [Measured(lines[..n - 1], lines[n - 1].t).point] else []
  }

  lemma {:induction false} ChosenAre(lines: seq<Line>, n: nat, control: bool, choice: Choice)
    requires n <= |lines| && Parses(lines)
    ensures Parses(lines[..n]) && Chosen(Marks(lines[..n]), control, choice) == PointsOf(lines, n, control, choice)
  {
    hide Marks, Chosen, FlooderOn, Control, LastStart, UnderFlood, AfterControl;
    ParsesPrefix(lines, n);
    NoMarks(control, choice);
    if n == 0 {
      assert lines[..0] == [];
    } else {
      var before, l := lines[..n - 1], lines[n - 1];
      assert lines[..n] == before + [l];
      ChosenAre(lines, n - 1, control, choice);
      OneMoreMark(before, l);
      LabelsAt(lines, n - 1);
      if l.End? {
        OneMoreChosen(Marks(before), Measured(before, l.t), control, choice);
      }
    }
  }

  lemma NoMarks(control: bool, choice: Choice)
    ensures Parses([]) && Chosen(Marks([]), control, choice) == []
  {
  }

  lemma ParsesPrefix(lines: seq<Line>, n: nat)
    requires n <= |lines| && Parses(lines)
    ensures Parses(lines[..n])
  {
    hide LastStart;
    assert forall i :: 0 <= i < n ==> lines[..n][i] == lines[i] && lines[..n][..i] == lines[..i];
  }

  ghost function ListsOf(lines: seq<Line>): Lists
    requires Parses(lines)
  {
    var n := |lines|;
    Lists(PointsOf(lines, n, false, All), PointsOf(lines, n, false, With), PointsOf(lines, n, false, Without),
          PointsOf(lines, n, true, All), PointsOf(lines, n, true, With), PointsOf(lines, n, true, Without))
  }

  // Each of the six lists holds exactly the points of its END lines, in the order of the log.
  lemma ListsAre(lines: seq<Line>)
    requires Parses(lines)
    ensures Outcomes(lines) == Parsed(ListsOf(lines))
  {
    hide Parses, Marks, Chosen, PointsOf;
    assert lines[..|lines|] == lines;
    forall control, choice {
      ChosenAre(lines, |lines|, control, choice);
    }
  }

  // A round before any marker counts as measured under the flood.
  lemma UnmarkedRound()
    ensures Parses([Start(100), End(150)])
    ensures Sorted(Marks([Start(100), End(150)])) ==
      Lists([Point(0.0, 50)], [Point(0.0, 50)], [], [], [], [])
  {
    hide Chosen, Sorted, Parses, Marks, FlooderOn, LastStart, FirstStart, ReadLog, Control;
    NoLines();
    var before := [] + [Start(100)];
    OneMore([], Start(100));
    OneMoreMark([], Start(100));
    OneMoreMark(before, End(150));
    OneMoreSorted([], Measured(before, 150));
    assert [] + [Measured(before, 150)] == [Measured(before, 150)] && Marks([]) == [];
    assert before + [End(150)] == [Start(100), End(150)];
  }

  method ParseClientTimes(times: string) returns (r: Outcome)
    ensures r == Outcomes(ReadLog(times))
    ensures r == if Parses(ReadLog(times)) then Parsed(ListsOf(ReadLog(times))) else Raised
  {
    hide Parses, Marks, LastStart, FirstStart, FlooderOn, Control, ReadLog, Classify, Stamp, Sorted;
    hide ListsOf;
    if Parses(ReadLog(times)) {
      ListsAre(ReadLog(times));
    }
    var rtts, rttsWith, rttsWithout: seq<Point> := [], [], [];
    var ctrl, ctrlWith, ctrlWithout: seq<Point> := [], [], [];
    var control, flooderOn := false, true;
    var stime: nat := 0;
    var firstStart: Option<nat> := None;
    var rest := times;
    ghost var lines: seq<Line> := [];
    assert [] + ReadLog(times) == ReadLog(times);
    NoLines();
    while true
      invariant ReadLog(times) == lines + ReadLog(rest)
      invariant Parses(lines)
      invariant Sorted(Marks(lines)) == Lists(rtts, rttsWith, rttsWithout, ctrl, ctrlWith, ctrlWithout)
      invariant control == Control(lines) && flooderOn == FlooderOn(lines)
      invariant firstStart == FirstStart(lines)
      invariant stime == if LastStart(lines).Some? then LastStart(lines).value else 0
      decreases |rest|
    {
      var line := FirstLine(rest);
      if line == "" {
        break;
      }
      ghost var l := Classify(line);
      StepOver(times, lines, rest, line);
      Prefixes(line);
      OneMore(lines, l);
      OneMoreMark(lines, l);
      StartsTogether(lines);
      if l.End? && LastStart(lines).Some? {
        OneMoreSorted(Marks(lines), Measured(lines, l.t));
      }
      lines := lines + [l];
      rest := rest[|line|..];
      if "FLOODER_START" <= line {
        flooderOn := true;
      }
      if "FLOODER_END" <= line {
        flooderOn := false;
      }
      if "FLOODER_CONTROL" <= line {
        control := true;
      }
      if "START" <= line {
        var t := Stamp(line);
        if t.None? {
          NeverParses(lines, rest);
          return Raised;
        }
        stime := t.value;
        if firstStart == None || firstStart == Some(0) {
          firstStart := Some(stime);
        }
      }
      if "END" <= line {
        var t := Stamp(line);
        if t.None? || firstStart.None? {
          NeverParses(lines, rest);
          return Raised;
        }
        var point := Point((stime - firstStart.value) as real / 1000000000.0, t.value - stime);
        if !control {
          rtts := rtts + [point];
        } else {
          ctrl := ctrl + [point];
        }
        if flooderOn {
          if !control {
            rttsWith := rttsWith + [point];
          } else {
            ctrlWith := ctrlWith + [point];
          }
        } else if !control {
          rttsWithout := rttsWithout + [point];
        } else {
          ctrlWithout := ctrlWithout + [point];
        }
      }
    }
    assert lines + [] == lines;
    r := Parsed(Lists(rtts, rttsWith, rttsWithout, ctrl, ctrlWith, ctrlWithout));
  }
}
