/**
 Server-sent event framing: what the server writes, and the line parser with which the
 backend client reads such a stream (section 9.2 of the WHATWG HTML Living Standard).
 */
module Sse {
  const DATA := "data: "
  const DONE := "data: [DONE]"

  function Frame(payload: string): string {
    DATA + payload + "\n\n"
  }

  /** The whole response: one frame per payload and the end marker. */
  function Emit(payloads: seq<string>): string {
    if payloads == [] then DONE + "\n\n" else Frame(payloads[0]) + Emit(payloads[1..])
  }

  // ----- reading lines -----

  // Where the client's line splitter ends a line.
  predicate IsBreak(ch: char) {
    || ch == '\n' || ch == '\r' || ch == '\U{0B}' || ch == '\U{0C}' || ch == '\U{1C}' || ch == '\U{1D}'
    || ch == '\U{1E}' || ch == '\U{85}' || ch == '\U{2028}' || ch == '\U{2029}'
  }

  function LineEnd(s: string): (n: nat)
    ensures n <= |s|
    ensures forall i | 0 <= i < n :: !IsBreak(s[i])
    ensures n < |s| ==> IsBreak(s[n])
  {
    if s == "" || IsBreak(s[0]) then 0 else 1 + LineEnd(s[1..])
  }

  /** A break ends a line; text after the last break is a line of its own. */
  function Lines(s: string): seq<string>
    decreases |s|
  {
    if s == "" then []
    else
      var n := LineEnd(s);
      [s[..n]] + if n < |s| then Lines(s[n + 1..]) else []
  }

  // The white space that str.strip removes, beyond the line breaks.
  predicate IsBlank(ch: char) {
    || ch == ' ' || ch == '\t' || ch == '\U{1F}' || ch == '\U{A0}' || ch == '\U{1680}'
    || '\U{2000}' <= ch <= '\U{200A}' || ch == '\U{202F}' || ch == '\U{205F}' || ch == '\U{3000}'
  }

  function StripLeft(s: string): string {
    if s != "" && (IsBlank(s[0]) || IsBreak(s[0])) then StripLeft(s[1..]) else s
  }

  function StripRight(s: string): string {
    if s != "" && (IsBlank(s[|s| - 1]) || IsBreak(s[|s| - 1])) then StripRight(s[..|s| - 1]) else s
  }

  function Strip(s: string): string {
    StripRight(StripLeft(s))
  }

  /** The payload a line carries, if it is a data line that json.loads accepts. */
  function Payloads(isJson: string -> bool, line: string): seq<string> {
    var l := Strip(line);
    if l == "" || l == DONE then []
    else if DATA <= l && isJson(l[|DATA|..]) then [l[|DATA|..]]
    else []
  }

  function ParseLines(isJson: string -> bool, lines: seq<string>): seq<string> {
    if lines == [] then [] else Payloads(isJson, lines[0]) + ParseLines(isJson, lines[1..])
  }

  lemma {:induction false} ParseSum(isJson: string -> bool, a: seq<string>, b: seq<string>)
    ensures ParseLines(isJson, a + b) == ParseLines(isJson, a) + ParseLines(isJson, b)
  {
    if a == [] {
      assert a + b == b;
    } else {
      ParseSum(isJson, a[1..], b);
      assert (a + b)[1..] == a[1..] + b && (a + b)[0] == a[0];
      var first := Payloads(isJson, a[0]);
      var x, y := ParseLines(isJson, a[1..]), ParseLines(isJson, b);
      assert first + (x + y) == (first + x) + y;
    }
  }

  /** The client's loop over the lines of a response. */
  method ReadStream(isJson: string -> bool, lines: seq<string>) returns (payloads: seq<string>)
    ensures payloads == ParseLines(isJson, lines)
  {
    payloads := [];
    for k := 0 to |lines|
      invariant payloads == ParseLines(isJson, lines[..k])
    {
      assert lines[..k + 1] == lines[..k] + [lines[k]];
      ParseSum(isJson, lines[..k], [lines[k]]);
      assert ParseLines(isJson, [lines[k]]) == Payloads(isJson, lines[k]) + [];
      var line := Strip(lines[k]);
      if line == "" || line == DONE {
        continue;
      }
      if DATA <= line {
        var raw := line[|DATA|..];
        if isJson(raw) {
          payloads := payloads + [raw];
        }
      }
    }
    assert lines[..|lines|] == lines;
  }

  predicate IsSpace(ch: char) {
    IsBlank(ch) || IsBreak(ch)
  }

  lemma {:induction false} StripsLeft(pad: string, s: string)
    requires forall i | 0 <= i < |pad| :: IsSpace(pad[i])
    ensures StripLeft(pad + s) == StripLeft(s)
  {
    if pad == "" {
      assert pad + s == s;
    } else {
      assert (pad + s)[1..] == pad[1..] + s;
      StripsLeft(pad[1..], s);
    }
  }

  lemma {:induction false} StripsRight(s: string, pad: string)
    requires forall i | 0 <= i < |pad| :: IsSpace(pad[i])
    ensures StripRight(s + pad) == StripRight(s)
    decreases |pad|
  {
    if pad == "" {
      assert s + pad == s;
    } else {
      var n := |pad| - 1;
      assert (s + pad)[..|s| + n] == s + pad[..n] && (s + pad)[|s| + n] == pad[n];
      StripsRight(s, pad[..n]);
    }
  }

  /**
   What a line means, whatever white space stands around it: a line of white space and the
   end marker give nothing, and any other gives what follows "data: " if that is JSON, and
   nothing if it does not start so or is not JSON.
   */
  lemma LineMeaning(isJson: string -> bool, left: string, core: string, right: string)
    requires forall i | 0 <= i < |left| :: IsSpace(left[i])
    requires forall i | 0 <= i < |right| :: IsSpace(right[i])
    requires core != "" ==> !IsSpace(core[0]) && !IsSpace(core[|core| - 1])
    ensures ParseLines(isJson, [left + core + right])
         == if core != "data: [DONE]" && "data: " <= core && isJson(core[6..]) then [core[6..]] else []
  {
    var line := left + core + right;
    assert line == left + (core + right);
    StripsLeft(left, core + right);
    if core == "" {
      assert core + right == right && right + "" == right && "" + right == right;
      StripsLeft(right, "");
      assert Strip(line) == "";
    } else {
      assert StripLeft(core + right) == core + right;
      StripsRight(core, right);
      assert Strip(line) == core;
    }
    assert [line][1..] == [];
  }

  // ----- the round trip -----

  /** A payload on one line, as json.dumps writes an object. */
  predicate SingleLineObject(p: string) {
    p != "" && p[0] == '{' && p[|p| - 1] == '}' && forall i | 0 <= i < |p| :: !IsBreak(p[i])
  }

  lemma {:induction false} LineEndIs(line: string, rest: string)
    requires forall i | 0 <= i < |line| :: !IsBreak(line[i])
    requires rest != "" && IsBreak(rest[0])
    ensures LineEnd(line + rest) == |line|
  {
    if line == "" {
      assert line + rest == rest;
    } else {
      assert (line + rest)[1..] == line[1..] + rest;
      LineEndIs(line[1..], rest);
    }
  }

  lemma LinesFirst(line: string, rest: string)
    requires forall i | 0 <= i < |line| :: !IsBreak(line[i])
    ensures Lines(line + "\n" + rest) == [line] + Lines(rest)
  {
    var s := line + "\n" + rest;
    assert s == line + ("\n" + rest);
    LineEndIs(line, "\n" + rest);
    hide LineEnd;
    assert s[..|line|] == line && s[|line| + 1..] == rest;
  }

  // A line closed by an empty line, in front of anything.
  lemma LinesOfBlock(line: string, rest: string)
    requires forall i | 0 <= i < |line| :: !IsBreak(line[i])
    ensures Lines(line + "\n\n" + rest) == [line, ""] + Lines(rest)
  {
    hide LineEnd, Lines;
    LinesFirst(line, "\n" + rest);
    LinesFirst("", rest);
    assert line + "\n\n" + rest == line + "\n" + ("\n" + rest);
    assert "" + "\n" + rest == "\n" + rest;
    assert [line] + ([""] + Lines(rest)) == [line, ""] + Lines(rest);
  }

  lemma StripsToItself(s: string)
    requires s != "" && !IsBlank(s[0]) && !IsBreak(s[0])
    requires !IsBlank(s[|s| - 1]) && !IsBreak(s[|s| - 1])
    ensures Strip(s) == s
  {
  }

  /**
   Framing round trip: for every list of single-line JSON objects, reading the lines of what
   the server emits gives the same list in the same order, and the end marker gives nothing.
   */
  lemma {:induction false} FramingRoundTrip(isJson: string -> bool, payloads: seq<string>)
    requires forall i | 0 <= i < |payloads| :: SingleLineObject(payloads[i]) && isJson(payloads[i])
    ensures ParseLines(isJson, Lines(Emit(payloads))) == payloads
  {
    if payloads == [] {
      EndMarkerIsSilent(isJson);
    } else {
      var p, rest := payloads[0], payloads[1..];
      FramingRoundTrip(isJson, rest);
      FrameGivesPayload(isJson, p, Emit(rest));
      assert Emit(payloads) == Frame(p) + Emit(rest);
      hide Lines, ParseLines, Emit;
      assert payloads == [p] + rest;
    }
  }

  lemma EndMarkerIsSilent(isJson: string -> bool)
    ensures ParseLines(isJson, Lines(Emit([]))) == []
  {
    assert Emit([]) == DONE + "\n\n" + "";
    LinesOfBlock(DONE, "");
    StripsToItself(DONE);
    hide Emit, Strip;
    PairOfLines(isJson, DONE, []);
  }

  lemma FrameGivesPayload(isJson: string -> bool, p: string, rest: string)
    requires SingleLineObject(p) && isJson(p)
    ensures ParseLines(isJson, Lines(Frame(p) + rest)) == [p] + ParseLines(isJson, Lines(rest))
  {
    var line := DATA + p;
    assert Frame(p) + rest == line + "\n\n" + rest;
    LinesOfBlock(line, rest);
    DataLine(isJson, p);
    hide Lines, ParseLines, Payloads;
    PairOfLines(isJson, line, Lines(rest));
  }

  lemma DataLine(isJson: string -> bool, p: string)
    requires SingleLineObject(p) && isJson(p)
    ensures Payloads(isJson, DATA + p) == [p]
    ensures forall i | 0 <= i < |DATA + p| :: !IsBreak((DATA + p)[i])
  {
    var line := DATA + p;
    StripsToItself(line);
    hide Strip;
    assert line[|DATA|..] == p;
    assert line[|DATA|] == '{' && DONE[|DATA|] == '[';
  }

  lemma PairOfLines(isJson: string -> bool, line: string, rest: seq<string>)
    ensures ParseLines(isJson, [line, ""] + rest) == Payloads(isJson, line) + ParseLines(isJson, rest)
  {
    assert ([line, ""] + rest)[1..] == [""] + rest;
    assert ([""] + rest)[1..] == rest;
    assert Payloads(isJson, "") == [];
  }

  /** A server that ends its lines with CR LF is read alike. */
  lemma CrlfReadsAlike(isJson: string -> bool, p: string, rest: string)
    requires SingleLineObject(p) && isJson(p)
    ensures ParseLines(isJson, Lines("data: " + p + "\r\n" + rest)) == [p] + ParseLines(isJson, Lines(rest))
  {
    var line := DATA + p;
    DataLine(isJson, p);
    CrlfLines(line, rest);
    hide Lines, ParseLines, Payloads;
    PairOfLines(isJson, line, Lines(rest));
  }

  lemma CrlfLines(line: string, rest: string)
    requires forall i | 0 <= i < |line| :: !IsBreak(line[i])
    ensures Lines(line + "\r\n" + rest) == [line, ""] + Lines(rest)
  {
    var s := line + "\r\n" + rest;
    assert s == line + ("\r\n" + rest);
    LineEndIs(line, "\r\n" + rest);
    assert Lines(s) == [line] + Lines("\n" + rest) by {
      hide LineEnd;
      assert s[..|line|] == line && s[|line| + 1..] == "\n" + rest;
    }
    hide Lines;
    assert "" + "\n" + rest == "\n" + rest;
    LinesFirst("", rest);
    assert [line] + ([""] + Lines(rest)) == [line, ""] + Lines(rest);
  }

  /** Blank lines, comments and other fields between two frames change nothing. */
  lemma OtherLinesIgnored(isJson: string -> bool, a: seq<string>, other: string, b: seq<string>)
    requires !(DATA <= Strip(other))
    ensures ParseLines(isJson, a + [other] + b) == ParseLines(isJson, a + b)
  {
    OtherLineIsSilent(isJson, other);
    hide ParseLines;
    ParseSum(isJson, a + [other], b);
    ParseSum(isJson, a, [other]);
    ParseSum(isJson, a, b);
  }

  lemma OtherLineIsSilent(isJson: string -> bool, other: string)
    requires !(DATA <= Strip(other))
    ensures ParseLines(isJson, [other]) == []
  {
  }

  // ----- event dispatch -----

  // The value of a data field: what follows the colon, without one leading space.
  function DataField(line: string): seq<string> {
    if !("data:" <= line) then []
    else if "data: " <= line then [line[6..]]
    else [line[5..]]
  }

  function Separated(values: seq<string>): string {
    if values == [] then "" else if |values| == 1 then values[0] else values[0] + "\n" + Separated(values[1..])
  }

  /**
   What an event-stream client dispatches: data fields pile up, a blank line dispatches them
   as one event, and fields after the last blank line are discarded.
   */
  function Dispatched(lines: seq<string>, pending: seq<string>): seq<string>
    decreases |lines|
  {
    if lines == [] then []
    else if lines[0] != "" then Dispatched(lines[1..], pending + DataField(lines[0]))
    else (if pending == [] then [] else [Separated(pending)]) + Dispatched(lines[1..], [])
  }

  predicate OnOneLine(s: string) {
    forall i | 0 <= i < |s| :: !IsBreak(s[i])
  }

  // The lines of a response that sends values as events.
  function EventLines(values: seq<string>): seq<string> {
    if values == [] then [] else ["data: " + values[0], ""] + EventLines(values[1..])
  }

  /** On the wire: a data line and a blank line for every payload and for the end marker, and no more. */
  lemma {:induction false} EmittedLines(payloads: seq<string>)
    requires forall i | 0 <= i < |payloads| :: OnOneLine(payloads[i])
    ensures Lines(Emit(payloads)) == EventLines(payloads + ["[DONE]"])
  {
    hide *;
    if payloads == [] {
      EndMarkerLines();
      assert payloads + ["[DONE]"] == ["[DONE]"];
    } else {
      var rest := payloads[1..];
      EmittedLines(rest);
      OneMoreFrame(payloads);
      var all := payloads + ["[DONE]"];
      assert all[0] == payloads[0] && all[1..] == rest + ["[DONE]"];
      OneMoreValue(all);
    }
  }

  lemma EndMarkerLines()
    ensures Lines(Emit([])) == EventLines(["[DONE]"])
  {
    assert Emit([]) == DONE + "\n\n" + "";
    LinesOfBlock(DONE, "");
    assert ["[DONE]"][1..] == [] && DONE == "data: " + "[DONE]";
    assert EventLines(["[DONE]"]) == [DONE, ""] + EventLines([]);
  }

  lemma OneMoreFrame(payloads: seq<string>)
    requires payloads != [] && OnOneLine(payloads[0])
    ensures Lines(Emit(payloads)) == ["data: " + payloads[0], ""] + Lines(Emit(payloads[1..]))
  {
    hide Lines;
    var line, rest := DATA + payloads[0], Emit(payloads[1..]);
    assert Emit(payloads) == line + "\n\n" + rest;
    assert OnOneLine(line) by { assert OnOneLine(DATA); }
    LinesOfBlock(line, rest);
  }

  lemma OneMoreValue(values: seq<string>)
    requires values != []
    ensures EventLines(values) == ["data: " + values[0], ""] + EventLines(values[1..])
  {
  }

  lemma {:induction false} EventsDispatched(values: seq<string>)
    ensures Dispatched(EventLines(values), []) == values
  {
    if values != [] {
      var line, rest := "data: " + values[0], EventLines(values[1..]);
      EventsDispatched(values[1..]);
      assert EventLines(values) == [line, ""] + rest;
      OneEvent(values[0], rest);
      hide EventLines, Dispatched;
      assert values == [values[0]] + values[1..];
    }
  }

  lemma OneEvent(value: string, rest: seq<string>)
    ensures Dispatched(["data: " + value, ""] + rest, []) == [value] + Dispatched(rest, [])
  {
    var line := "data: " + value;
    var lines := [line, ""] + rest;
    assert "data:" <= "data: " <= line;
    assert DataField(line) == [value] && [] + [value] == [value];
    assert lines[1..] == [""] + rest && lines[1..][1..] == rest;
    assert Dispatched(lines, []) == Dispatched(lines[1..], [value]);
    assert Separated([value]) == value;
  }

  /** Each frame is a whole event by itself, so a client sees it as soon as it is sent. */
  lemma FrameIsOneEvent(payload: string)
    requires OnOneLine(payload)
    ensures Dispatched(Lines(Frame(payload)), []) == [payload]
  {
    var line := DATA + payload;
    assert OnOneLine(line) by { assert OnOneLine(DATA); }
    assert Frame(payload) == line + "\n\n" + "";
    LinesOfBlock(line, "");
    OneEvent(payload, []);
    assert [line, ""] + [] == [line, ""];
  }

  /**
   A client that follows the event-stream rules sees one event for each payload, in order,
   with just that payload as its data, and then the end marker.
   */
  lemma DispatchRoundTrip(payloads: seq<string>)
    requires forall i | 0 <= i < |payloads| :: OnOneLine(payloads[i])
    ensures Dispatched(Lines(Emit(payloads)), []) == payloads + ["[DONE]"]
  {
    EmittedLines(payloads);
    EventsDispatched(payloads + ["[DONE]"]);
  }
}
