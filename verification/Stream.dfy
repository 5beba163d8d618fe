/**
 The server-sent-event reader of web/lib/stream.ts, from decoded text on: what it yields does not depend on
 how the text was cut into chunks, and it undoes the `data:` encoding of section 9.2.6 of the WHATWG HTML
 Living Standard, without carriage returns.
 */
module Stream {
  const SEPARATOR: string := "\n\n"

  // ---------------------------------------------------------------------------------------------
  // String operations.

  predicate SeparatorAt(s: string, i: nat) {
    i + 2 <= |s| && s[i] == '\n' && s[i + 1] == '\n'
  }

  /** indexOf("\n\n"): the first position, or -1. */
  function IndexOf(s: string): (i: int)
    ensures i == -1 ==> forall j: nat :: !SeparatorAt(s, j)
    ensures i != -1 ==> 0 <= i && SeparatorAt(s, i) && forall j: nat :: j < i ==> !SeparatorAt(s, j)
  {
    IndexFrom(s, 0)
  }

  function IndexFrom(s: string, from: nat): (i: int)
    requires from <= |s|
    requires forall j: nat :: j < from ==> !SeparatorAt(s, j)
    ensures i == -1 ==> forall j: nat :: !SeparatorAt(s, j)
    ensures i != -1 ==> from <= i && SeparatorAt(s, i) && forall j: nat :: j < i ==> !SeparatorAt(s, j)
    decreases |s| - from
  {
    if from == |s| then -1 else if SeparatorAt(s, from) then from else IndexFrom(s, from + 1)
  }

  /** split("\n") */
  function Lines(s: string): (lines: seq<string>)
    ensures lines != []
  {
    if s == [] then [""]
    else
      var rest := Lines(s[1..]);
      if s[0] == '\n' then [""] + rest else [[s[0]] + rest[0]] + rest[1..]
  }

  /** join("\n") */
  function Join(lines: seq<string>): string {
    if lines == [] then "" else if |lines| == 1 then lines[0] else lines[0] + "\n" + Join(lines[1..])
  }

  const FIELD: string := "data:"

  predicate IsData(line: string) {
    FIELD <= line
  }

  /** The value of a data line: one leading blank is not part of it. */
  function DataValue(line: string): string
    requires IsData(line)
  {
    var rest := line[5..];
    if rest != [] && rest[0] == ' ' then rest[1..] else rest
  }

  function DataValues(lines: seq<string>): seq<string> {
    if lines == [] then []
    else (if IsData(lines[0]) then [DataValue(lines[0])] else []) + DataValues(lines[1..])
  }

  /** What one frame yields: nothing when its data is empty. */
  function FrameData(frame: string): string {
    Join(DataValues(Lines(frame)))
  }

  function Yielded(frame: string): seq<string> {
    if FrameData(frame) == "" then [] else [FrameData(frame)]
  }

  // ---------------------------------------------------------------------------------------------
  // The reader.

  /** The reference: cut the whole text at its separators from left to right; the unterminated tail yields nothing. */
  function Events(text: string): seq<string>
    decreases |text|
  {
    var i := IndexOf(text);
    if i == -1 then [] else Yielded(text[..i]) + Events(text[i + 2..])
  }

  function Tail(text: string): string
    decreases |text|
  {
    var i := IndexOf(text);
    if i == -1 then text else Tail(text[i + 2..])
  }

  function Concat(chunks: seq<string>): string {
    if chunks == [] then "" else Concat(chunks[..|chunks| - 1]) + chunks[|chunks| - 1]
  }

  /** The read loop: append each chunk to the buffer, and take complete frames out of it. */
  method StreamEvents(chunks: seq<string>) returns (out: seq<string>, buffer: string)
    ensures out == Events(Concat(chunks))
    ensures buffer == Tail(Concat(chunks)) && IndexOf(buffer) == -1
  {
    out, buffer := [], "";
    for n := 0 to |chunks|
      invariant out == Events(Concat(chunks[..n]))
      invariant buffer == Tail(Concat(chunks[..n])) && IndexOf(buffer) == -1
    {
      assert chunks[..n + 1][..n] == chunks[..n];
      EventsAppend(Concat(chunks[..n]), chunks[n]);
      TailHasNoSeparator(buffer + chunks[n]);
      var frames;
      frames, buffer := TakeFrames(buffer + chunks[n]);
      out := out + frames;
    }
    assert chunks[..|chunks|] == chunks;
  }

  /** The inner loop: as long as the buffer holds a separator, take the frame in front of it. */
  method TakeFrames(text: string) returns (out: seq<string>, buffer: string)
    ensures out == Events(text) && buffer == Tail(text)
  {
    out, buffer := [], text;
    var sep := IndexOf(buffer);
    while sep != -1
      invariant sep == IndexOf(buffer)
      invariant out + Events(buffer) == Events(text)
      invariant Tail(buffer) == Tail(text)
      decreases |buffer|
    {
      var frame := buffer[..sep];
      buffer := buffer[sep + 2..];
      var data := FrameData(frame);
      Reassociate(out, Yielded(frame), Events(buffer));
      if data != "" {
        out := out + [data];
      }
      sep := IndexOf(buffer);
    }
  }

  lemma Reassociate<T>(a: seq<T>, b: seq<T>, c: seq<T>)
    ensures a + (b + c) == (a + b) + c
    ensures b == [] ==> a + b == a
  {
  }

  lemma TailHasNoSeparator(text: string)
    ensures IndexOf(Tail(text)) == -1
    decreases |text|
  {
    var i := IndexOf(text);
    if i != -1 {
      TailHasNoSeparator(text[i + 2..]);
    }
  }

  lemma IndexUnique(s: string, i: nat)
    requires SeparatorAt(s, i) && forall j: nat :: j < i ==> !SeparatorAt(s, j)
    ensures IndexOf(s) == i
  {
  }

  /** The first frame of a text is still the first when more text arrives. */
  lemma FirstFrameStays(text: string, more: string)
    requires IndexOf(text) != -1
    ensures var i := IndexOf(text);
            && IndexOf(text + more) == i && (text + more)[..i] == text[..i]
            && (text + more)[i + 2..] == text[i + 2..] + more
  {
    var i := IndexOf(text);
    forall j: nat | j < i
      ensures !SeparatorAt(text + more, j)
    {
      assert !SeparatorAt(text, j);
    }
    IndexUnique(text + more, i);
  }

  /** Text that arrives later only continues from the tail. */
  lemma {:induction false} EventsAppend(text: string, more: string)
    ensures Events(text + more) == Events(text) + Events(Tail(text) + more)
    ensures Tail(text + more) == Tail(Tail(text) + more)
    decreases |text|
  {
    var i := IndexOf(text);
    if i == -1 {
    } else {
      FirstFrameStays(text, more);
      EventsAppend(text[i + 2..], more);
      Reassociate(Yielded(text[..i]), Events(text[i + 2..]), Events(Tail(text) + more));
    }
  }

  // ---------------------------------------------------------------------------------------------
  // The encoder's inverse.

  function DataLines(lines: seq<string>): seq<string> {
    if lines == [] then [] else ["data: " + lines[0]] + DataLines(lines[1..])
  }

  /** One event: each line of the payload after the field name, then a blank line. */
  function Encode(payload: string): string {
    Join(DataLines(Lines(payload))) + SEPARATOR
  }

  function EncodeAll(payloads: seq<string>): string {
    if payloads == [] then "" else Encode(payloads[0]) + EncodeAll(payloads[1..])
  }

  predicate OneLine(s: string) {
    forall i :: 0 <= i < |s| ==> s[i] != '\n'
  }

  lemma {:induction false} LinesAreLines(s: string)
    ensures forall i :: 0 <= i < |Lines(s)| ==> OneLine(Lines(s)[i])
    ensures Join(Lines(s)) == s
  {
    if s == [] {
    } else {
      LinesAreLines(s[1..]);
      var rest := Lines(s[1..]);
      assert s == [s[0]] + s[1..];
      if s[0] == '\n' {
        assert ([""] + rest)[1..] == rest;
      } else {
        assert ([[s[0]] + rest[0]] + rest[1..])[1..] == rest[1..];
      }
    }
  }

  lemma {:induction false} LinesOfOneLine(s: string)
    requires OneLine(s)
    ensures Lines(s) == [s]
  {
    if s == [] {
    } else {
      LinesOfOneLine(s[1..]);
      assert [s[0]] + s[1..] == s;
      assert [s[1..]][1..] == [];
    }
  }

  lemma {:induction false} LinesOfJoin(a: string, rest: string)
    requires OneLine(a)
    ensures Lines(a + "\n" + rest) == [a] + Lines(rest)
  {
    if a == [] {
      assert ("" + "\n" + rest)[1..] == rest;
    } else {
      LinesOfJoin(a[1..], rest);
      assert (a + "\n" + rest)[1..] == a[1..] + "\n" + rest;
      assert ([a[1..]] + Lines(rest))[1..] == Lines(rest);
      assert [a[0]] + a[1..] == a;
    }
  }

  lemma {:induction false} JoinedLines(lines: seq<string>)
    requires lines != [] && forall i :: 0 <= i < |lines| ==> OneLine(lines[i])
    ensures Lines(Join(lines)) == lines
  {
    if |lines| == 1 {
      LinesOfOneLine(lines[0]);
    } else {
      JoinedLines(lines[1..]);
      LinesOfJoin(lines[0], Join(lines[1..]));
    }
  }

  lemma DataLineUndone(line: string)
    requires OneLine(line)
    ensures OneLine("data: " + line) && IsData("data: " + line) && DataValue("data: " + line) == line
  {
    var data := "data: " + line;
    assert data[5..] == " " + line;
    assert data[..5] == FIELD;
  }

  lemma {:induction false} DataLinesUndone(lines: seq<string>)
    requires forall i :: 0 <= i < |lines| ==> OneLine(lines[i])
    ensures |DataLines(lines)| == |lines|
    ensures forall i :: 0 <= i < |lines| ==> OneLine(DataLines(lines)[i]) && DataLines(lines)[i] != ""
    ensures DataValues(DataLines(lines)) == lines
  {
    if lines == [] {
    } else {
      DataLinesUndone(lines[1..]);
      DataLineUndone(lines[0]);
      assert DataLines(lines)[1..] == DataLines(lines[1..]);
    }
  }

  /** Non-empty lines joined by line breaks hold no separator, and do not end in a line break. */
  lemma {:induction false} NoSeparatorInside(lines: seq<string>)
    requires lines != [] && forall i :: 0 <= i < |lines| ==> OneLine(lines[i]) && lines[i] != ""
    ensures Join(lines) != "" && Join(lines)[0] != '\n' && Join(lines)[|Join(lines)| - 1] != '\n'
    ensures forall j: nat :: !SeparatorAt(Join(lines), j)
  {
    if |lines| == 1 {
    } else {
      NoSeparatorInside(lines[1..]);
      var s, a, rest := Join(lines), lines[0], Join(lines[1..]);
      forall j: nat
        ensures !SeparatorAt(s, j)
      {
        if j > |a| {
          assert !SeparatorAt(rest, j - |a| - 1);
        }
      }
    }
  }

  lemma EncodedFrame(payload: string, more: string)
    ensures IndexOf(Encode(payload) + more) == |Encode(payload)| - 2
    ensures FrameData(Encode(payload)[..|Encode(payload)| - 2]) == payload
  {
    var lines := DataLines(Lines(payload));
    LinesAreLines(payload);
    DataLinesUndone(Lines(payload));
    NoSeparatorInside(lines);
    JoinedLines(lines);
    var frame, text := Join(lines), Encode(payload) + more;
    assert Encode(payload)[..|frame|] == frame;
    forall j: nat | j < |frame|
      ensures !SeparatorAt(text, j)
    {
      assert !SeparatorAt(frame, j);
    }
    IndexUnique(text, |frame|);
  }

  /** An encoded payload in front is yielded first, unless it is empty. */
  lemma OneFrame(payload: string, more: string)
    ensures Events(Encode(payload) + more) == (if payload == "" then [] else [payload]) + Events(more)
    ensures Tail(Encode(payload) + more) == Tail(more)
  {
    var head := Encode(payload);
    EncodedFrame(payload, more);
    assert (head + more)[..|head| - 2] == head[..|head| - 2];
    assert (head + more)[|head|..] == more;
  }

  /** Empty payloads are not yielded. */
  function NonEmpty(payloads: seq<string>): seq<string> {
    if payloads == [] then [] else (if payloads[0] == "" then [] else [payloads[0]]) + NonEmpty(payloads[1..])
  }

  /**
   Payloads encoded one after another, with any unterminated text behind them, come back unchanged, but for the
   empty ones.
   */
  lemma {:induction false} PayloadsComeBack(payloads: seq<string>, tail: string)
    requires IndexOf(tail) == -1
    ensures Events(EncodeAll(payloads) + tail) == NonEmpty(payloads)
    ensures Tail(EncodeAll(payloads) + tail) == tail
  {
    if payloads == [] {
      assert EncodeAll(payloads) + tail == tail;
    } else {
      var head, rest := Encode(payloads[0]), EncodeAll(payloads[1..]) + tail;
      PayloadsComeBack(payloads[1..], tail);
      OneFrame(payloads[0], rest);
      Reassociate(head, EncodeAll(payloads[1..]), tail);
    }
  }

  // ---------------------------------------------------------------------------------------------
  // What one frame yields, line by line.

  lemma {:induction false} DataValuesAdd(a: seq<string>, b: seq<string>)
    ensures DataValues(a + b) == DataValues(a) + DataValues(b)
  {
    if a == [] {
      assert a + b == b;
    } else {
      DataValuesAdd(a[1..], b);
      assert (a + b)[0] == a[0] && (a + b)[1..] == a[1..] + b;
      Reassociate(if IsData(a[0]) then [DataValue(a[0])] else [], DataValues(a[1..]), DataValues(b));
    }
  }

  /** A line is data when it starts with the five characters of the field name. */
  predicate StartsWithData(line: string) {
    |line| >= 5 && line[0] == 'd' && line[1] == 'a' && line[2] == 't' && line[3] == 'a' && line[4] == ':'
  }

  lemma FieldName(line: string)
    ensures IsData(line) <==> StartsWithData(line)
  {
    if StartsWithData(line) {
      assert line[..5] == FIELD;
    }
    if IsData(line) {
      assert forall i :: 0 <= i < 5 ==> line[i] == FIELD[i];
    }
  }

  lemma LineValues(line: string)
    ensures DataValues([line])
         == if !StartsWithData(line) then []
            else if |line| > 5 && line[5] == ' ' then [line[6..]] else [line[5..]]
  {
    FieldName(line);
    assert [line][1..] == [];
    assert StartsWithData(line) && |line| > 5 ==> line[5..][1..] == line[6..];
  }

  ghost predicate OneLines(lines: seq<string>) {
    forall i :: 0 <= i < |lines| ==> OneLine(lines[i])
  }

  lemma OneLinesAdd(a: seq<string>, b: seq<string>)
    requires OneLines(a) && OneLines(b)
    ensures OneLines(a + b)
  {
  }

  /** A line of another field changes nothing in what the frame yields. */
  lemma OtherLinesAreIgnored(before: seq<string>, line: string, after: seq<string>)
    requires OneLines(before) && OneLine(line) && OneLines(after) && before + after != [] && !StartsWithData(line)
    ensures FrameData(Join(before + [line] + after)) == FrameData(Join(before + after))
  {
    OtherLineValues(before, line, after);
    OneLinesAdd(before, [line]);
    OneLinesAdd(before + [line], after);
    OneLinesAdd(before, after);
    FrameOfLines(before + [line] + after);
    FrameOfLines(before + after);
  }

  lemma OtherLineValues(before: seq<string>, line: string, after: seq<string>)
    requires !StartsWithData(line)
    ensures DataValues(before + [line] + after) == DataValues(before + after)
  {
    DataValuesAdd(before + [line], after);
    DataValuesAdd(before, [line]);
    DataValuesAdd(before, after);
    LineValues(line);
    assert DataValues(before) + [] == DataValues(before);
  }

  lemma FrameOfLines(lines: seq<string>)
    requires lines != [] && OneLines(lines)
    ensures FrameData(Join(lines)) == Join(DataValues(lines))
  {
    JoinedLines(lines);
  }

  /** A frame of data lines yields what follows each field name, without one leading blank, on lines of its own. */
  lemma DataLinesAreJoined(values: seq<string>, lines: seq<string>)
    requires |lines| == |values| > 0
    requires forall i :: 0 <= i < |lines| ==> OneLine(lines[i]) && OneLine(values[i])
    requires forall i :: 0 <= i < |lines| ==>
               lines[i] == "data: " + values[i]
               || (lines[i] == "data:" + values[i] && (values[i] != "" ==> values[i][0] != ' '))
    ensures FrameData(Join(lines)) == Join(values)
  {
    JoinedLines(lines);
    ValuesOfLines(values, lines);
  }

  lemma {:induction false} ValuesOfLines(values: seq<string>, lines: seq<string>)
    requires |lines| == |values|
    requires forall i :: 0 <= i < |lines| ==>
               lines[i] == "data: " + values[i]
               || (lines[i] == "data:" + values[i] && (values[i] != "" ==> values[i][0] != ' '))
    ensures DataValues(lines) == values
  {
    if lines == [] {
    } else {
      ValuesOfLines(values[1..], lines[1..]);
      LineValues(lines[0]);
      assert lines[0] == "data: " + values[0] ==> lines[0][6..] == values[0];
      assert lines[0] == "data:" + values[0] ==> lines[0][5..] == values[0];
      assert [lines[0]] + lines[1..] == lines;
      DataValuesAdd([lines[0]], lines[1..]);
      assert [values[0]] + values[1..] == values;
    }
  }
}
