// Reading a backend's reply body, plain or as a server-sent event stream
// (internal/proxy/mcp.go:60-114).
module Sse {
  import opened Wrappers
  import opened Strings

  const NL := '\n'
  const CR := '\r'

  // ---- lines, as bufio.ScanLines cuts them ----

  function DropCR(line: string): string {
    if line != "" && line[|line| - 1] == CR then line[..|line| - 1] else line
  }

  // Up to the first newline, which `Rest` also drops; everything when there is none.
  function Head(s: string): string {
    if s == "" || s[0] == NL then "" else [s[0]] + Head(s[1..])
  }

  function Rest(s: string): (r: string)
    ensures s != "" ==> |r| < |s|
  {
    if s == "" then "" else if s[0] == NL then s[1..] else Rest(s[1..])
  }

  // Every newline ends a line; a last line without one counts unless it is empty.
  function Lines(s: string): seq<string>
    decreases |s|
  {
    if s == "" then [] else [DropCR(Head(s))] + Lines(Rest(s))
  }

  // ---- what a stream means: its events, each the data lines between blank lines ----

  function IsData(line: string): bool { HasPrefix(line, "data:") }

  // A data line's value: one space after the colon is not part of it.
  function Value(line: string): string
    requires IsData(line)
  {
    if HasPrefix(line[5..], " ") then line[6..] else line[5..]
  }

  // The values of a block of lines.
  function Values(block: seq<string>): seq<string> {
    if block == [] then []
    else if IsData(block[0]) then [Value(block[0])] + Values(block[1..])
    else Values(block[1..])
  }

  // Lines grouped into events by blank lines; the last group ends with the input.
  function Blocks(lines: seq<string>): (r: seq<seq<string>>)
    ensures r != []
  {
    if lines == [] then [[]]
    else if lines[0] == "" then [[]] + Blocks(lines[1..])
    else
      var r := Blocks(lines[1..]);
      [[lines[0]] + r[0]] + r[1..]
  }

  function FirstWithData(blocks: seq<seq<string>>): Option<seq<string>> {
    if blocks == [] then None
    else if Values(blocks[0]) != [] then Some(Values(blocks[0]))
    else FirstWithData(blocks[1..])
  }

  // The lines put together again.
  function Glue(parts: seq<string>): string { Join(parts, NL) }

  // The simple form: parse all events, take the first that has data.
  function Payload(stream: string): Option<string> {
    match FirstWithData(Blocks(Lines(stream)))
    case None => None
    case Some(values) => Some(Glue(values))
  }

  lemma {:induction false} ValuesNone(block: seq<string>)
    ensures Values(block) == [] <==> forall l :: l in block ==> !IsData(l)
  {
    if block != [] {
      ValuesNone(block[1..]);
      assert block == [block[0]] + block[1..];
    }
  }

  lemma {:induction false} BlocksHold(lines: seq<string>)
    ensures FirstWithData(Blocks(lines)).None? <==> forall l :: l in lines ==> !IsData(l)
  {
    if lines != [] {
      BlocksHold(lines[1..]);
      assert lines == [lines[0]] + lines[1..];
      var r := Blocks(lines[1..]);
      if lines[0] == "" {
        assert ([[]] + r)[1..] == r && Values([]) == [];
      } else {
        var more := [[lines[0]] + r[0]] + r[1..];
        assert more[1..] == r[1..];
        assert ([lines[0]] + r[0])[1..] == r[0];
      }
    }
  }

  // There is a payload exactly when some line has data.
  lemma {:induction false} PayloadIffData(stream: string)
    ensures Payload(stream).Some? <==> exists l :: l in Lines(stream) && "data:" <= l
  {
    BlocksHold(Lines(stream));
    if Payload(stream).Some? {
      var l :| l in Lines(stream) && IsData(l);
    }
  }

  // ---- the scanner's loop ----

  // What the loop answers from `lines` on, having collected `data`.
  ghost function Scan(data: seq<string>, lines: seq<string>): Option<seq<string>> {
    var blocks := Blocks(lines);
    var first := data + Values(blocks[0]);
    if first != [] then Some(first) else FirstWithData(blocks[1..])
  }

  lemma {:induction false} ScanStep(data: seq<string>, lines: seq<string>)
    requires lines != []
    ensures Scan(data, lines) ==
      if lines[0] == "" then if data != [] then Some(data) else Scan([], lines[1..])
      else if IsData(lines[0]) then Scan(data + [Value(lines[0])], lines[1..])
      else Scan(data, lines[1..])
  {
    var tail := Blocks(lines[1..]);
    var blocks := Blocks(lines);
    if lines[0] == "" {
      assert blocks[1..] == tail;
      assert data + Values([]) == data;
      assert tail[..1] + tail[1..] == tail;
      assert [] + Values(tail[0]) == Values(tail[0]);
    } else {
      assert blocks[0] == [lines[0]] + tail[0];
      assert blocks[0][1..] == tail[0] && blocks[1..] == tail[1..];
      if IsData(lines[0]) {
        assert data + Values(blocks[0]) == data + [Value(lines[0])] + Values(tail[0]);
      }
    }
  }

  method DecodeSSE(stream: string) returns (payload: Option<string>)
    ensures payload == Payload(stream)
  {
    var data: seq<string> := [];
    var rest := stream;
    assert Payload(stream) == Joined(Scan(data, Lines(rest))) by { Unstarted(Lines(stream)); }
    while rest != ""
      invariant Payload(stream) == Joined(Scan(data, Lines(rest)))
      decreases |rest|
    {
      var line := DropCR(Head(rest));
      ScanStep(data, Lines(rest));
      assert Lines(rest)[1..] == Lines(Rest(rest));
      rest := Rest(rest);
      if line == "" {
        if data != [] {
          return Some(Glue(data));
        }
      } else if IsData(line) {
        data := data + [Value(line)];
      }
    }
    assert Blocks([]) == [[]] && data + Values([]) == data;
    payload := if data != [] then Some(Glue(data)) else None;
  }

  ghost function Joined(values: Option<seq<string>>): Option<string> {
    match values
    case None => None
    case Some(vs) => Some(Glue(vs))
  }

  lemma {:induction false} Unstarted(lines: seq<string>)
    ensures Scan([], lines) == FirstWithData(Blocks(lines))
  {
    assert [] + Values(Blocks(lines)[0]) == Values(Blocks(lines)[0]);
  }

  // The choice of framing: by the announced content type, not by the body.
  predicate Mentions(s: string, part: string) {
    part <= s || (s != "" && Mentions(s[1..], part))
  }

  lemma {:induction false} MentionsMeans(s: string, part: string)
    ensures Mentions(s, part) <==> exists i :: 0 <= i <= |s| && part <= s[i..]
  {
    assert s[0..] == s;
    if s != "" {
      MentionsMeans(s[1..], part);
      if i :| 0 <= i <= |s[1..]| && part <= s[1..][i..] {
        assert s[i + 1..] == s[1..][i..];
      }
      if i :| 1 <= i <= |s| && part <= s[i..] {
        assert s[i..] == s[1..][i - 1..];
      }
    }
  }

  method DecodeBody(contentType: string, body: string) returns (payload: Option<string>)
    ensures payload == if Mentions(contentType, "text/event-stream") then Payload(body) else Some(body)
  {
    if Mentions(contentType, "text/event-stream") {
      payload := DecodeSSE(body);
    } else {
      payload := Some(body);
    }
  }

  // ---- the sender's side ----

  // A line of text: no newline in it.
  ghost predicate OneLine(s: string) { '\n' !in s }

  // The lines written out, each ended by a newline.
  function Written(lines: seq<string>): string {
    if lines == [] then "" else lines[0] + "\n" + Written(lines[1..])
  }

  // A payload cut at its newlines; always at least one part.
  function Split(s: string): (r: seq<string>)
    ensures r != []
  {
    if s == "" then [""]
    else if s[0] == '\n' then [""] + Split(s[1..])
    else
      var r := Split(s[1..]);
      [[s[0]] + r[0]] + r[1..]
  }

  // One part as a data line; `spaced` says whether a space follows the colon.
  function DataLine(part: string, spaced: bool): string {
    if spaced then "data: " + part else "data:" + part
  }

  function DataLines(parts: seq<string>, spaced: seq<bool>): seq<string>
    requires |parts| == |spaced|
  {
    seq(|parts|, i requires 0 <= i < |parts| => DataLine(parts[i], spaced[i]))
  }

  function DropCRs(parts: seq<string>): seq<string> {
    seq(|parts|, i requires 0 <= i < |parts| => DropCR(parts[i]))
  }

  // Without the space a part that begins with one would lose it.
  ghost predicate SpacesKept(parts: seq<string>, spaced: seq<bool>) {
    && |parts| == |spaced|
    && forall i :: 0 <= i < |parts| ==> spaced[i] || !HasPrefix(parts[i], " ")
  }

  lemma {:induction false} HeadOf(line: string, s: string)
    requires OneLine(line)
    ensures Head(line + [NL] + s) == line && Rest(line + [NL] + s) == s
    ensures Head(line) == line && Rest(line) == ""
  {
    if line != "" {
      HeadOf(line[1..], s);
      assert (line + [NL] + s)[1..] == line[1..] + [NL] + s;
    } else {
      assert (line + [NL] + s)[1..] == s;
    }
  }

  lemma {:induction false} WrittenStep(lines: seq<string>, s: string)
    requires lines != []
    ensures Written(lines) + s == lines[0] + [NL] + (Written(lines[1..]) + s)
    ensures DropCRs(lines) == [DropCR(lines[0])] + DropCRs(lines[1..])
  {
    var line, tail := lines[0] + [NL], Written(lines[1..]);
    assert Written(lines) == line + tail;
    assert (line + tail) + s == line + (tail + s);
  }

  lemma {:induction false} WrittenIsRead(lines: seq<string>, s: string)
    requires forall l :: l in lines ==> OneLine(l)
    ensures Lines(Written(lines) + s) == DropCRs(lines) + Lines(s)
  {
    if lines == [] {
      assert Written(lines) + s == s;
    } else {
      WrittenStep(lines, s);
      var more := Written(lines[1..]) + s;
      assert Lines(more) == DropCRs(lines[1..]) + Lines(s) by { WrittenIsRead(lines[1..], s); }
      assert Lines(lines[0] + [NL] + more) == [DropCR(lines[0])] + Lines(more) by { OneLineIsRead(lines[0], more); }
      Reassociate([DropCR(lines[0])], DropCRs(lines[1..]), Lines(s));
    }
  }

  lemma {:induction false} Reassociate<T>(a: seq<T>, b: seq<T>, c: seq<T>)
    ensures (a + b) + c == a + (b + c)
  {
  }

  lemma {:induction false} OneLineIsRead(line: string, s: string)
    requires OneLine(line)
    ensures Lines(line + [NL] + s) == [DropCR(line)] + Lines(s)
  {
    HeadOf(line, s);
  }

  // Lines without data in front change nothing, blank ones included.
  lemma {:induction false} NoiseIsSkipped(noise: seq<string>, lines: seq<string>)
    requires forall l :: l in noise ==> !IsData(l)
    ensures Scan([], noise + lines) == Scan([], lines)
  {
    if noise == [] {
      assert noise + lines == lines;
    } else {
      ScanStep([], noise + lines);
      assert (noise + lines)[1..] == noise[1..] + lines;
      NoiseIsSkipped(noise[1..], lines);
    }
  }

  // A run of data lines is collected in order.
  lemma {:induction false} DataIsCollected(data: seq<string>, run: seq<string>, values: seq<string>, lines: seq<string>)
    requires |run| == |values| && forall i :: 0 <= i < |run| ==>
            run[i] != "" && IsData(run[i]) && Value(run[i]) == values[i]
    ensures Scan(data, run + lines) == Scan(data + values, lines)
    decreases |run|
  {
    hide Scan, Value, IsData;
    if run == [] {
      assert run + lines == lines && data + values == data;
    } else {
      ScanStep(data, run + lines);
      assert (run + lines)[1..] == run[1..] + lines;
      DataIsCollected(data + [values[0]], run[1..], values[1..], lines);
      assert data + [values[0]] + values[1..] == data + values;
    }
  }

  lemma {:induction false} DataLineRead(part: string, spaced: bool)
    requires spaced || !HasPrefix(part, " ")
    ensures var line := DropCR(DataLine(part, spaced));
            line != "" && IsData(line) && Value(line) == DropCR(part)
  {
    var full := DataLine(part, spaced);
    var line := DropCR(full);
    if part == "" || part[|part| - 1] != CR {
      assert line == full;
    } else {
      assert line == DataLine(part[..|part| - 1], spaced);
    }
    assert line == DataLine(DropCR(part), spaced);
    assert line[5..] == if spaced then " " + DropCR(part) else DropCR(part);
    assert spaced ==> line[6..] == DropCR(part);
  }

  // What ends the event: a blank line and whatever follows, or the end of the input.
  datatype Ending = BlankLine(after: string) | EndOfInput

  function EndingText(e: Ending): string {
    match e
    case BlankLine(after) => "\n" + after
    case EndOfInput => ""
  }

  lemma {:induction false} EndingFlushes(data: seq<string>, e: Ending)
    requires data != []
    ensures Scan(data, Lines(EndingText(e))) == Some(data)
  {
    if e.BlankLine? {
      HeadOf("", e.after);
      assert [NL] + e.after == "" + [NL] + e.after;
      ScanStep(data, Lines(EndingText(e)));
    } else {
      assert data + Values([]) == data;
    }
  }

  lemma {:induction false} JoinSplit(s: string)
    ensures Glue(Split(s)) == s
  {
    if s != "" {
      var r := Split(s[1..]);
      JoinSplit(s[1..]);
      JoinStep(s[0], r);
      assert s == [s[0]] + s[1..];
    }
  }

  lemma {:induction false} JoinStep(c: char, r: seq<string>)
    requires r != []
    ensures Glue([""] + r) == [NL] + Glue(r)
    ensures Glue([[c] + r[0]] + r[1..]) == [c] + Glue(r)
  {
    assert ([""] + r)[1..] == r;
    var more := [[c] + r[0]] + r[1..];
    assert more[1..] == r[1..];
    assert |r| > 1 ==> Glue(more) == [c] + r[0] + [NL] + Glue(r[1..]) == [c] + Glue(r);
  }

  lemma {:induction false} PartsAreLines(s: string)
    ensures forall part :: part in Split(s) ==> OneLine(part)
  {
    if s != "" {
      PartsAreLines(s[1..]);
      var r := Split(s[1..]);
      assert OneLine(r[0]);
      forall part | part in Split(s) ensures OneLine(part) {
        assert part in r || part == "" || part == [s[0]] + r[0];
      }
    }
  }

  // A stream that frames `payload`: comment, event, id and blank lines, then its lines
  // as data, then the ending.
  function Framed(noise: seq<string>, payload: string, spaced: seq<bool>, e: Ending): string
    requires |spaced| == |Split(payload)|
  {
    Written(noise) + (Written(DataLines(Split(payload), spaced)) + EndingText(e))
  }

  lemma {:induction false} FramedIsScanned(noise: seq<string>, payload: string, spaced: seq<bool>, e: Ending)
    requires forall l :: l in noise ==> OneLine(l) && !IsData(l)
    requires SpacesKept(Split(payload), spaced)
    ensures Payload(Framed(noise, payload, spaced, e)) == Some(Glue(DropCRs(Split(payload))))
  {
    hide Scan, Lines, Written, Split, Blocks, FirstWithData, DropCRs, Glue;
    var parts := Split(payload);
    var lead, run := DropCRs(noise), DropCRs(DataLines(parts, spaced));
    var values, ending := DropCRs(parts), Lines(EndingText(e));
    FramedLines(noise, payload, spaced, e);
    assert DropCRs(parts) != [] by { DropCRsKeepsLength(parts); }
    Unstarted(lead + (run + ending));
    NoiseWithoutCR(noise);
    NoiseIsSkipped(lead, run + ending);
    DataRun(parts, spaced);
    DataIsCollected([], run, values, ending);
    assert [] + values == values;
    EndingFlushes(values, e);
  }

  lemma {:induction false} DropCRsKeepsLength(parts: seq<string>)
    ensures |DropCRs(parts)| == |parts|
  {
  }

  lemma {:induction false} FramedLines(noise: seq<string>, payload: string, spaced: seq<bool>, e: Ending)
    requires forall l :: l in noise ==> OneLine(l)
    requires |spaced| == |Split(payload)|
    ensures Lines(Framed(noise, payload, spaced, e))
            == DropCRs(noise) + (DropCRs(DataLines(Split(payload), spaced)) + Lines(EndingText(e)))
  {
    hide Lines, Written, Split, DropCRs;
    var parts := Split(payload);
    var run := DataLines(parts, spaced);
    PartsAreLines(payload);
    forall l | l in run ensures OneLine(l) {
      var i :| 0 <= i < |run| && l == run[i];
      assert parts[i] in parts;
    }
    WrittenIsRead(noise, Written(run) + EndingText(e));
    WrittenIsRead(run, EndingText(e));
  }

  lemma {:induction false} NoiseWithoutCR(noise: seq<string>)
    requires forall l :: l in noise ==> !IsData(l)
    ensures forall l :: l in DropCRs(noise) ==> !IsData(l)
  {
    forall l | l in DropCRs(noise) ensures !IsData(l) {
      var i :| 0 <= i < |noise| && l == DropCR(noise[i]);
      assert noise[i] in noise && l <= noise[i];
    }
  }

  lemma {:induction false} DataRun(parts: seq<string>, spaced: seq<bool>)
    requires SpacesKept(parts, spaced)
    ensures var run, values := DropCRs(DataLines(parts, spaced)), DropCRs(parts);
            |run| == |values|
            && forall i :: 0 <= i < |run| ==> run[i] != "" && IsData(run[i]) && Value(run[i]) == values[i]
  {
    var run := DropCRs(DataLines(parts, spaced));
    forall i | 0 <= i < |run| ensures run[i] != "" && IsData(run[i]) && Value(run[i]) == DropCRs(parts)[i] {
      DataLineRead(parts[i], spaced[i]);
    }
  }

  ghost predicate NoLineEndsInCR(payload: string) {
    forall part :: part in Split(payload) ==> part == "" || part[|part| - 1] != '\r'
  }

  // Framing then decoding gives the payload back exactly when none of its lines ends
  // in a carriage return; whatever comes before and after, and also when the input
  // ends without the blank line.
  lemma {:induction false} FramingRoundTrip(noise: seq<string>, payload: string, spaced: seq<bool>, e: Ending)
    requires forall l :: l in noise ==> OneLine(l) && !IsData(l)
    requires SpacesKept(Split(payload), spaced)
    ensures Payload(Framed(noise, payload, spaced, e)) == Some(payload) <==> NoLineEndsInCR(payload)
  {
    FramedIsScanned(noise, payload, spaced, e);
    JoinSplit(payload);
    var parts := Split(payload);
    if NoLineEndsInCR(payload) {
      forall i | 0 <= i < |parts| ensures DropCR(parts[i]) == parts[i] {
        assert parts[i] in parts;
      }
      assert DropCRs(parts) == parts;
    } else {
      var part :| part in parts && part != "" && part[|part| - 1] == '\r';
      var i :| 0 <= i < |parts| && parts[i] == part;
      ShorterWithoutCR(parts, i);
    }
  }

  lemma {:induction false} NotLonger(parts: seq<string>)
    ensures |Glue(DropCRs(parts))| <= |Glue(parts)|
  {
    if |parts| > 1 {
      NotLonger(parts[1..]);
      assert DropCRs(parts)[1..] == DropCRs(parts[1..]);
    }
  }

  lemma {:induction false} ShorterWithoutCR(parts: seq<string>, i: nat)
    requires i < |parts| && DropCR(parts[i]) != parts[i]
    ensures |Glue(DropCRs(parts))| < |Glue(parts)|
  {
    if |parts| > 1 {
      assert DropCRs(parts)[1..] == DropCRs(parts[1..]);
      if i == 0 {
        NotLonger(parts[1..]);
      } else {
        ShorterWithoutCR(parts[1..], i - 1);
      }
    }
  }

  // A last line without its newline reads the same as with it.
  lemma {:induction false} FinalNewlineIsOptional(lines: seq<string>, last: string)
    requires forall l :: l in lines ==> OneLine(l)
    requires OneLine(last) && last != ""
    ensures Payload(Written(lines) + last) == Payload(Written(lines) + (last + "\n"))
  {
    WrittenIsRead(lines, last);
    WrittenIsRead(lines, last + [NL]);
    HeadOf(last, "");
    assert last + [NL] + "" == last + [NL];
    assert Lines(last) == [DropCR(last)] == Lines(last + [NL]);
  }
}
