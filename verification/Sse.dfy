/**
 * matchingSseData of adapters/remote-mcp/src/mcp-parse.ts: the payload of one event out of an event stream
 * (section 9.2.6 of the HTML Living Standard). Reading a printed stream gives back what was printed.
 */
module Sse {
  import opened Prelude
  import opened Strings

  // ----- the reader

  /** raw.split(/\r?\n/): at every line feed, together with one carriage return before it. */
  function SplitLines(raw: string): (lines: seq<string>)
    ensures |lines| >= 1
  {
    if raw == "" then [""]
    else if raw[0] == '\n' then [""] + SplitLines(raw[1..])
    else if raw[0] == '\r' && |raw| > 1 && raw[1] == '\n' then [""] + SplitLines(raw[2..])
    else
      var rest := SplitLines(raw[1..]);
      [[raw[0]] + rest[0]] + rest[1..]
  }

  predicate IsData(line: string) {
    "data:" <= line
  }

  /** The value of a data line: without the field name and one space after it. */
  function DataValue(line: string): string
    requires IsData(line)
  {
    var value := line[5..];
    if value != "" && value[0] == ' ' then value[1..] else value
  }

  function Flushed(data: seq<string>): seq<string> {
    if |data| > 0 then [Join(data, "\n")] else []
  }

  /** The payloads of the remaining lines, given the data lines of the event in progress. */
  function Payloads(lines: seq<string>, data: seq<string>): seq<string> {
    if lines == [] then Flushed(data)
    else if lines[0] == "" then Flushed(data) + Payloads(lines[1..], [])
    else if IsData(lines[0]) then Payloads(lines[1..], data + [DataValue(lines[0])])
    else Payloads(lines[1..], data)
  }

  /** The last payload, or the first one whose id is the expected one; "" for none. `matches` reads the payload. */
  function Chosen(payloads: seq<string>, wanted: Option<string -> bool>): string {
    if wanted.None? then (if payloads == [] then "" else payloads[|payloads| - 1])
    else if payloads == [] then ""
    else if wanted.value(payloads[0]) then payloads[0]
    else Chosen(payloads[1..], wanted)
  }

  method MatchingSseData(raw: string, wanted: Option<string -> bool>) returns (text: string)
    ensures text == Chosen(Payloads(SplitLines(raw), []), wanted)
  {
    var payloads: seq<string> := [];
    var data: seq<string> := [];
    var lines := SplitLines(raw);
    for i := 0 to |lines|
      invariant payloads + Payloads(lines[i..], data) == Payloads(lines, [])
    {
      var line := lines[i];
      assert lines[i..][0] == line && lines[i..][1..] == lines[i + 1..];
      if line == "" {
        if |data| > 0 {
          payloads := payloads + [Join(data, "\n")];
        }
        data := [];
      } else if IsData(line) {
        data := data + [DataValue(line)];
      }
    }
    assert lines[|lines|..] == [];
    if |data| > 0 {
      payloads := payloads + [Join(data, "\n")];
    }
    assert payloads == Payloads(lines, []);
    if wanted.None? {
      return if |payloads| > 0 then payloads[|payloads| - 1] else "";
    }
    for i := 0 to |payloads|
      invariant Chosen(payloads, wanted) == Chosen(payloads[i..], wanted)
    {
      if wanted.value(payloads[i]) {
        return payloads[i];
      }
      assert payloads[i..][1..] == payloads[i + 1..];
    }
    text := "";
  }

  // ----- the stream, as data with a printer

  datatype LineEnd = Lf | CrLf

  predicate EndsInReturn(s: string) {
    s != "" && s[|s| - 1] == '\r'
  }

  /**
   * A line of an event: one line of its payload, or a comment or another field. A carriage return is like
   * any other character, except at the end of a line that a bare line feed ends.
   */
  datatype Line = Data(text: string, spaced: bool, end: LineEnd) | Other(text: string, end: LineEnd)
  {
    predicate Valid() {
      && Free(text, '\n') && (end.Lf? ==> !EndsInReturn(text))
      && (Other? ==> text != "" && !IsData(text))
      && (Data? && !spaced ==> text == "" || text[0] != ' ')
    }

    function Text(): string {
      if Other? then text else if spaced then "data: " + text else "data:" + text
    }
  }

  /** The lines of an event and the blank line that ends it. */
  datatype Event = Event(lines: seq<Line>, end: LineEnd)

  /** Events, then perhaps lines that no blank line follows, the last of them perhaps without its line end. */
  datatype Stream = Stream(events: seq<Event>, rest: seq<Line>, cut: bool)

  predicate ValidLines(lines: seq<Line>) {
    forall i :: 0 <= i < |lines| ==> lines[i].Valid()
  }

  predicate ValidStream(s: Stream) {
    (forall i :: 0 <= i < |s.events| ==> ValidLines(s.events[i].lines)) && ValidLines(s.rest) && (s.cut ==> s.rest != [])
  }

  function EndText(e: LineEnd): string {
    if e.Lf? then "\n" else "\r\n"
  }

  function PrintLines(lines: seq<Line>): string {
    if lines == [] then "" else lines[0].Text() + EndText(lines[0].end) + PrintLines(lines[1..])
  }

  function PrintEvents(events: seq<Event>): string {
    if events == [] then ""
    else PrintLines(events[0].lines) + EndText(events[0].end) + PrintEvents(events[1..])
  }

  /** The unfinished lines; cut, the last one ends with the text. */
  function PrintRest(lines: seq<Line>, cut: bool): string {
    if lines == [] then ""
    else if cut && |lines| == 1 then lines[0].Text()
    else lines[0].Text() + EndText(lines[0].end) + PrintRest(lines[1..], cut)
  }

  function Print(s: Stream): string {
    PrintEvents(s.events) + PrintRest(s.rest, s.cut)
  }

  function DataTexts(lines: seq<Line>): seq<string> {
    if lines == [] then []
    else if lines[0].Data? then [lines[0].text] + DataTexts(lines[1..])
    else DataTexts(lines[1..])
  }

  /** The payload an event carries: its data lines with line feeds between them; none without data lines. */
  function PayloadOf(lines: seq<Line>): seq<string> {
    if DataTexts(lines) == [] then [] else [Join(DataTexts(lines), "\n")]
  }

  function Carried(events: seq<Event>): seq<string> {
    if events == [] then [] else PayloadOf(events[0].lines) + Carried(events[1..])
  }

  // ----- the round trip

  lemma {:induction false} SplitTerminated(text: string, end: LineEnd, more: string)
    requires Free(text, '\n') && (end.Lf? ==> !EndsInReturn(text))
    ensures SplitLines(text + EndText(end) + more) == [text] + SplitLines(more)
    decreases |text|
  {
    var raw := text + EndText(end) + more;
    if text == "" {
      assert raw[|EndText(end)|..] == more;
    } else {
      SplitTerminated(text[1..], end, more);
      assert raw[0] == text[0] && raw[1..] == text[1..] + EndText(end) + more;
      assert [text[0]] + text[1..] == text;
      assert SplitLines(raw) == [[text[0]] + text[1..]] + SplitLines(more);
    }
  }

  lemma {:induction false} SplitUnterminated(text: string)
    requires Free(text, '\n')
    ensures SplitLines(text) == [text]
    decreases |text|
  {
    if text != "" {
      SplitUnterminated(text[1..]);
      assert [text[0]] + text[1..] == text;
    }
  }

  lemma DataLine(value: string)
    ensures IsData("data:" + value) && ("data:" + value)[5..] == value
    ensures DataValue("data:" + value) == if value != "" && value[0] == ' ' then value[1..] else value
  {
  }

  lemma LineFree(l: Line)
    requires l.Valid()
    ensures Free(l.Text(), '\n') && (l.end.Lf? ==> !EndsInReturn(l.Text())) && l.Text() != ""
  {
    assert l.Data? ==> l.Text() == (if l.spaced then "data: " else "data:") + l.text;
  }

  lemma LineText(l: Line)
    requires l.Valid()
    ensures Free(l.Text(), '\n') && (l.end.Lf? ==> !EndsInReturn(l.Text())) && l.Text() != ""
    ensures IsData(l.Text()) == l.Data? && (l.Data? ==> DataValue(l.Text()) == l.text)
  {
    LineFree(l);
    hide DataValue, Free, IsData;
    if l.Data? {
      var value := if l.spaced then " " + l.text else l.text;
      assert l.Text() == "data:" + value;
      DataLine(value);
    }
  }

  /** One printed line adds its data text, if it has one, to the event in progress. */
  lemma ReadLine(l: Line, more: string, data: seq<string>)
    requires l.Valid()
    ensures Payloads(SplitLines(l.Text() + EndText(l.end) + more), data)
         == Payloads(SplitLines(more), data + DataTexts([l]))
  {
    LineText(l);
    SplitTerminated(l.Text(), l.end, more);
    assert ([l.Text()] + SplitLines(more))[1..] == SplitLines(more);
    DataTextOfOne(l);
    assert data + [] == data;
    hide Line.Text, Line.Valid, SplitLines, DataTexts;
  }

  lemma DataTextsSplit(lines: seq<Line>)
    requires lines != []
    ensures DataTexts(lines) == DataTexts([lines[0]]) + DataTexts(lines[1..])
  {
    DataTextOfOne(lines[0]);
    assert [] + DataTexts(lines[1..]) == DataTexts(lines[1..]);
  }

  lemma DataTextOfOne(l: Line)
    ensures DataTexts([l]) == if l.Data? then [l.text] else []
  {
    assert [l][1..] == [];
  }

  lemma {:induction false} ReadLines(lines: seq<Line>, more: string, data: seq<string>)
    requires ValidLines(lines)
    ensures Payloads(SplitLines(PrintLines(lines) + more), data) == Payloads(SplitLines(more), data + DataTexts(lines))
    decreases |lines|
  {
    if lines == [] {
      assert PrintLines(lines) + more == more && data + [] == data;
    } else {
      var l, rest := lines[0], PrintLines(lines[1..]) + more;
      assert PrintLines(lines) + more == l.Text() + EndText(l.end) + rest;
      ReadLine(l, rest, data);
      ReadLines(lines[1..], more, data + DataTexts([l]));
      DataTextsSplit(lines);
      assert data + DataTexts([l]) + DataTexts(lines[1..]) == data + DataTexts(lines);
    }
  }

  lemma ReadEvent(e: Event, rest: string)
    requires ValidLines(e.lines)
    ensures Payloads(SplitLines(PrintLines(e.lines) + (EndText(e.end) + rest)), [])
         == PayloadOf(e.lines) + Payloads(SplitLines(rest), [])
  {
    hide SplitLines, DataTexts, ValidLines, PrintLines;
    ReadLines(e.lines, EndText(e.end) + rest, []);
    assert [] + DataTexts(e.lines) == DataTexts(e.lines);
    SplitTerminated("", e.end, rest);
    assert "" + EndText(e.end) + rest == EndText(e.end) + rest;
    assert ([""] + SplitLines(rest))[1..] == SplitLines(rest);
  }

  lemma {:induction false} ReadEvents(events: seq<Event>, more: string)
    requires forall i :: 0 <= i < |events| ==> ValidLines(events[i].lines)
    ensures Payloads(SplitLines(PrintEvents(events) + more), []) == Carried(events) + Payloads(SplitLines(more), [])
    decreases |events|
  {
    hide SplitLines, Payloads, PayloadOf, ValidLines, PrintLines, EndText;
    var last := Payloads(SplitLines(more), []);
    if events == [] {
      assert PrintEvents(events) + more == more;
      assert [] + last == last;
    } else {
      var e, rest := events[0], PrintEvents(events[1..]) + more;
      assert PrintEvents(events) + more == PrintLines(e.lines) + (EndText(e.end) + rest);
      ReadEvent(e, rest);
      ReadEvents(events[1..], more);
      assert PayloadOf(e.lines) + (Carried(events[1..]) + last) == (PayloadOf(e.lines) + Carried(events[1..])) + last;
    }
  }

  lemma ReadCutLine(l: Line, data: seq<string>)
    requires l.Valid()
    ensures Payloads(SplitLines(l.Text()), data) == Flushed(data + DataTexts([l]))
  {
    LineText(l);
    SplitUnterminated(l.Text());
    DataTextOfOne(l);
    assert [l.Text()][1..] == [] && data + [] == data;
    hide Line.Text, Line.Valid, SplitLines, DataTexts, Flushed;
  }

  lemma ReadNothing(data: seq<string>)
    ensures Payloads(SplitLines(""), data) == Flushed(data)
  {
    assert SplitLines("") == [""] && [""][1..] == [];
    assert Flushed(data) + [] == Flushed(data);
  }

  lemma {:induction false} ReadRest(lines: seq<Line>, cut: bool, data: seq<string>)
    requires ValidLines(lines)
    ensures Payloads(SplitLines(PrintRest(lines, cut)), data) == Flushed(data + DataTexts(lines))
    decreases |lines|
  {
    hide SplitLines, Payloads, Line.Text, Line.Valid, EndText, Flushed;
    if lines == [] {
      ReadNothing(data);
      assert data + [] == data;
    } else if cut && |lines| == 1 {
      ReadCutLine(lines[0], data);
      assert lines == [lines[0]];
    } else {
      ReadLine(lines[0], PrintRest(lines[1..], cut), data);
      ReadRest(lines[1..], cut, data + DataTexts([lines[0]]));
      DataTextsSplit(lines);
      assert data + DataTexts([lines[0]]) + DataTexts(lines[1..]) == data + DataTexts(lines);
    }
  }

  /** Reading a printed stream, whatever the line ends and the other lines, gives the payloads its events carry. */
  lemma ReaderInvertsPrinter(s: Stream)
    requires ValidStream(s)
    ensures Payloads(SplitLines(Print(s)), []) == Carried(s.events) + PayloadOf(s.rest)
  {
    ReadEvents(s.events, PrintRest(s.rest, s.cut));
    ReadRest(s.rest, s.cut, []);
    assert [] + DataTexts(s.rest) == DataTexts(s.rest);
  }

  // ----- payloads in general

  /** An event for a payload: one data line for each of its lines. */
  function DataLines(texts: seq<string>, end: LineEnd): seq<Line> {
    if texts == [] then [] else [Data(texts[0], true, end)] + DataLines(texts[1..], end)
  }

  function EventsFor(payloads: seq<string>, end: LineEnd): seq<Event> {
    if payloads == [] then []
    else [Event(DataLines(Split(payloads[0], '\n'), end), end)] + EventsFor(payloads[1..], end)
  }

  /** What is read of a printed payload line: a bare line feed takes a carriage return before it along. */
  function LineKept(text: string, end: LineEnd): string {
    if end.Lf? && EndsInReturn(text) then text[..|text| - 1] else text
  }

  function LinesKept(texts: seq<string>, end: LineEnd): (r: seq<string>)
    ensures |r| == |texts|
  {
    if texts == [] then [] else [LineKept(texts[0], end)] + LinesKept(texts[1..], end)
  }

  function PayloadKept(payload: string, end: LineEnd): string {
    Join(LinesKept(Split(payload, '\n'), end), "\n")
  }

  function PayloadsKept(payloads: seq<string>, end: LineEnd): seq<string> {
    if payloads == [] then [] else [PayloadKept(payloads[0], end)] + PayloadsKept(payloads[1..], end)
  }

  /** The same text as DataLines prints, taken apart as it is read. */
  function LinesRead(texts: seq<string>, end: LineEnd): seq<Line> {
    if texts == [] then []
    else [Data(LineKept(texts[0], end), true, if EndsInReturn(texts[0]) then CrLf else end)] + LinesRead(texts[1..], end)
  }

  function EventsRead(payloads: seq<string>, end: LineEnd): seq<Event> {
    if payloads == [] then []
    else [Event(LinesRead(Split(payloads[0], '\n'), end), end)] + EventsRead(payloads[1..], end)
  }

  lemma LinePrint(text: string, end: LineEnd)
    ensures Data(text, true, end).Text() + EndText(end)
         == var l := LinesRead([text], end)[0]; l.Text() + EndText(l.end)
  {
    if end.Lf? && EndsInReturn(text) {
      var front := text[..|text| - 1];
      assert text == front + "\r";
      assert "data: " + text + "\n" == "data: " + front + "\r\n";
    }
  }

  lemma {:induction false} LinesReadCarry(texts: seq<string>, end: LineEnd)
    requires AllFree(texts, '\n')
    ensures ValidLines(LinesRead(texts, end)) && DataTexts(LinesRead(texts, end)) == LinesKept(texts, end)
    ensures PrintLines(LinesRead(texts, end)) == PrintLines(DataLines(texts, end))
    decreases |texts|
  {
    if texts != [] {
      LinesReadCarry(texts[1..], end);
      LinePrint(texts[0], end);
      var d, r := DataLines(texts, end), LinesRead(texts, end);
      assert d[1..] == DataLines(texts[1..], end) && r[1..] == LinesRead(texts[1..], end);
      assert r[0] == LinesRead([texts[0]], end)[0];
    }
  }

  lemma {:induction false} EventsReadCarry(payloads: seq<string>, end: LineEnd)
    ensures Carried(EventsRead(payloads, end)) == PayloadsKept(payloads, end)
    ensures PrintEvents(EventsRead(payloads, end)) == PrintEvents(EventsFor(payloads, end))
    ensures forall i :: 0 <= i < |EventsRead(payloads, end)| ==> ValidLines(EventsRead(payloads, end)[i].lines)
    decreases |payloads|
  {
    if payloads != [] {
      var p := payloads[0];
      hide LinesRead, LinesKept, DataLines, PrintLines, DataTexts, ValidLines, Split, Join;
      EventsReadCarry(payloads[1..], end);
      JoinSplit(p, '\n');
      LinesReadCarry(Split(p, '\n'), end);
      var d, r := EventsFor(payloads, end), EventsRead(payloads, end);
      assert d[1..] == EventsFor(payloads[1..], end) && r[1..] == EventsRead(payloads[1..], end);
      assert r[0].lines == LinesRead(Split(p, '\n'), end);
      assert PayloadOf(r[0].lines) == [PayloadKept(p, end)];
    }
  }

  /** A payload of which every line is read as it was printed. */
  ghost predicate Survives(payload: string, end: LineEnd) {
    end.CrLf? || forall i :: 0 <= i < |Split(payload, '\n')| ==> !EndsInReturn(Split(payload, '\n')[i])
  }

  lemma {:induction false} JoinKeptIsShorter(texts: seq<string>, end: LineEnd)
    ensures |Join(LinesKept(texts, end), "\n")| <= |Join(texts, "\n")|
    ensures |Join(LinesKept(texts, end), "\n")| == |Join(texts, "\n")| ==>
              end.CrLf? || forall i :: 0 <= i < |texts| ==> !EndsInReturn(texts[i])
    decreases |texts|
  {
    if texts != [] { JoinKeptIsShorter(texts[1..], end); }
  }

  lemma {:induction false} AllKept(texts: seq<string>, end: LineEnd)
    requires end.CrLf? || forall i :: 0 <= i < |texts| ==> !EndsInReturn(texts[i])
    ensures LinesKept(texts, end) == texts
    decreases |texts|
  {
    if texts != [] { AllKept(texts[1..], end); }
  }

  lemma KeptExactly(payload: string, end: LineEnd)
    ensures PayloadKept(payload, end) == payload <==> Survives(payload, end)
  {
    JoinSplit(payload, '\n');
    JoinKeptIsShorter(Split(payload, '\n'), end);
    if Survives(payload, end) { AllKept(Split(payload, '\n'), end); }
  }

  lemma {:induction false} AllKeptExactly(payloads: seq<string>, end: LineEnd)
    ensures PayloadsKept(payloads, end) == payloads <==> forall i :: 0 <= i < |payloads| ==> Survives(payloads[i], end)
    decreases |payloads|
  {
    hide PayloadKept, Survives;
    if payloads != [] {
      KeptExactly(payloads[0], end);
      AllKeptExactly(payloads[1..], end);
      assert payloads == [payloads[0]] + payloads[1..];
    }
  }

  /**
   * Printed payloads are read back as they were if and only if the line ends are CRLF or no line of a payload
   * ends in a carriage return; then the reader picks the last, or the first that is wanted.
   */
  lemma PayloadsSurvive(payloads: seq<string>, end: LineEnd, wanted: Option<string -> bool>)
    ensures var read := Payloads(SplitLines(Print(Stream(EventsFor(payloads, end), [], false))), []);
            && (read == payloads <==> forall i :: 0 <= i < |payloads| ==> Survives(payloads[i], end))
            && ((forall i :: 0 <= i < |payloads| ==> Survives(payloads[i], end)) ==> Chosen(read, wanted) == Chosen(payloads, wanted))
  {
    hide Survives, EventsFor, EventsRead, PayloadsKept, SplitLines, Payloads, Chosen;
    EventsReadCarry(payloads, end);
    ReaderInvertsPrinter(Stream(EventsRead(payloads, end), [], false));
    assert PayloadsKept(payloads, end) + [] == PayloadsKept(payloads, end);
    AllKeptExactly(payloads, end);
  }

  /** A carriage return at the end of a payload line is lost when a bare line feed follows. */
  lemma ReturnBeforeLineFeedIsLost(t: string)
    requires Free(t, '\n')
    ensures Payloads(SplitLines(Print(Stream(EventsFor([t + "\r"], Lf), [], false))), []) == [t]
  {
    var payloads := [t + "\r"];
    SplitFree(t + "\r", '\n');
    assert LinesKept([t + "\r"], Lf) == [t] && PayloadKept(t + "\r", Lf) == t;
    assert PayloadsKept(payloads, Lf) == [t];
    hide EventsFor, EventsRead, PayloadsKept, SplitLines, Payloads;
    EventsReadCarry(payloads, Lf);
    ReaderInvertsPrinter(Stream(EventsRead(payloads, Lf), [], false));
    assert [t] + [] == [t];
  }

  /** What is chosen for an id is the first match, and "" exactly if there is none (or it is empty). */
  lemma {:induction false} ChosenIsFirstMatch(payloads: seq<string>, wants: string -> bool)
    ensures (exists k :: 0 <= k < |payloads| && wants(payloads[k]) && Chosen(payloads, Some(wants)) == payloads[k]
              && forall j :: 0 <= j < k ==> !wants(payloads[j]))
            || (Chosen(payloads, Some(wants)) == "" && forall j :: 0 <= j < |payloads| ==> !wants(payloads[j]))
    decreases |payloads|
  {
    if payloads != [] && !wants(payloads[0]) {
      ChosenIsFirstMatch(payloads[1..], wants);
      var tail := payloads[1..];
      if k :| 0 <= k < |tail| && wants(tail[k]) && Chosen(tail, Some(wants)) == tail[k] && forall j :: 0 <= j < k ==> !wants(tail[j]) {
        assert payloads[k + 1] == tail[k];
        assert forall j :: 1 <= j < k + 1 ==> payloads[j] == tail[j - 1];
      } else {
        assert forall j :: 1 <= j < |payloads| ==> payloads[j] == tail[j - 1];
      }
    }
  }
}
