/**
 * Reading AMI messages off a byte stream. `Read` is the specification of one call on the
 * unread bytes; `Reader.ReadMessage` is the loop over a buffered reader that meets it.
 */
module Codec {
  import opened Text
  import opened Messages

  /** What a read finds behind the last byte: the peer's orderly end, or an I/O failure. */
  datatype StreamEnd = AtEof | Broken

  datatype ReadResult = Msg(fields: Fields) | Eof | UnexpectedEof | IoError

  // ---------------------------------------------------------------- one message

  /** A line without a colon is free-form command output, kept whole under the key "Output". */
  function ParseLine(line: string): Field {
    var i := IndexOf(line, ':');
    if i == |line| then Field("Output", line) else Field(line[..i], TrimLeft(line[i + 1..]))
  }

  function EndOfInput(partial: string, acc: Fields, end: StreamEnd): ReadResult {
    if end.Broken? then IoError else if acc == [] && partial == "" then Eof else UnexpectedEof
  }

  predicate HasLine(input: string) {
    IndexOf(input, '\n') < |input|
  }

  /** The first line, without its line end, and the bytes behind it. */
  function FirstLine(input: string): string
    requires HasLine(input)
  {
    TrimRight(input[..IndexOf(input, '\n') + 1])
  }

  function AfterLine(input: string): (rest: string)
    requires HasLine(input)
    ensures |rest| < |input|
  {
    input[IndexOf(input, '\n') + 1..]
  }

  /** Continues a message of which `acc` has been read; returns the result and the unread bytes. */
  function ReadFrom(input: string, acc: Fields, end: StreamEnd): (r: (ReadResult, string))
    ensures |r.1| <= |input|
    ensures r.0.Msg? ==> |r.1| < |input| && r.0.fields != [] && acc <= r.0.fields
    ensures !r.0.Msg? ==> r.1 == ""
    decreases |input|
  {
    if !HasLine(input) then (EndOfInput(input, acc, end), "")
    else
      var line, rest := FirstLine(input), AfterLine(input);
      if line != "" then ReadFrom(rest, acc + [ParseLine(line)], end)
      else if acc == [] then ReadFrom(rest, [], end)
      else (Msg(acc), rest)
  }

  function Read(input: string, end: StreamEnd): (ReadResult, string) {
    ReadFrom(input, [], end)
  }

  lemma SplitLine(body: string, rest: string)
    requires '\n' !in body
    ensures var input := body + "\n" + rest;
            HasLine(input) && FirstLine(input) == TrimRight(body) && AfterLine(input) == rest
  {
    var input := body + "\n" + rest;
    IndexOfIs(input, '\n', |body|);
    assert input[..|body| + 1] == body + "\n";
    assert input[|body| + 1..] == rest;
    TrimRightSpec(body);
    TrimRightIs(body + "\n", TrimRight(body));
  }

  /** Any input with a line is that line's body, a newline and the rest. */
  lemma LineBodyOf(input: string) returns (body: string)
    requires HasLine(input)
    ensures '\n' !in body && input == body + "\n" + AfterLine(input) && FirstLine(input) == TrimRight(body)
  {
    var n := IndexOf(input, '\n');
    IndexOfSpec(input, '\n');
    body := input[..n];
    assert input == body + "\n" + input[n + 1..];
    SplitLine(body, AfterLine(input));
  }

  /** One line of input, terminator included, does one step of the reading loop. */
  lemma ReadStep(body: string, rest: string, acc: Fields, end: StreamEnd)
    requires '\n' !in body
    ensures var line := TrimRight(body);
            ReadFrom(body + "\n" + rest, acc, end) ==
            if line != "" then ReadFrom(rest, acc + [ParseLine(line)], end)
            else if acc == [] then ReadFrom(rest, [], end)
            else (Msg(acc), rest)
  {
    SplitLine(body, rest);
  }

  // ---------------------------------------------------------------- what an encoded field reads as

  /** The encoded field is a single line whose first colon is the separator. */
  ghost predicate OneLine(f: Field) {
    ':' !in f.key && '\n' !in f.key && '\n' !in f.value
  }

  /** What is left of a field that is written and read back. */
  function Trimmed(f: Field): Field {
    f.(value := TrimLeft(TrimRight(f.value)))
  }

  function TrimmedAll(fs: Fields): (r: Fields)
    ensures |r| == |fs| && forall i :: 0 <= i < |fs| ==> r[i] == Trimmed(fs[i])
  {
    if fs == [] then [] else [Trimmed(fs[0])] + TrimmedAll(fs[1..])
  }

  /** An encoded field without its newline. */
  function LineBody(f: Field): string {
    f.key + ": " + f.value + "\r"
  }

  lemma TrimRightTail(head: string, tail: string)
    requires head != "" && !IsNewlineChar(head[|head| - 1])
    ensures TrimRight(head + tail) == head + TrimRight(tail)
  {
    TrimRightSpec(tail);
    var s, r := head + tail, head + TrimRight(tail);
    forall i | |r| <= i < |s| ensures IsNewlineChar(s[i]) {
      assert s[i] == tail[i - |head|];
    }
    TrimRightIs(s, r);
  }

  lemma ParseLineSplit(key: string, value: string)
    requires ':' !in key
    ensures ParseLine(key + ": " + value) == Field(key, TrimLeft(value))
  {
    var line := key + ": " + value;
    IndexOfIs(line, ':', |key|);
    assert line[..|key|] == key;
    var rest := line[|key| + 1..];
    assert rest[0] == ' ' && rest[1..] == value;
  }

  lemma ParseEncodedLine(f: Field)
    requires OneLine(f)
    ensures '\n' !in LineBody(f)
    ensures TrimRight(LineBody(f)) != ""
    ensures ParseLine(TrimRight(LineBody(f))) == Trimmed(f)
  {
    var head, v := f.key + ": ", TrimRight(f.value);
    NotInConcat(f.key, ": ", '\n');
    NotInConcat(head, f.value, '\n');
    NotInConcat(head + f.value, "\r", '\n');
    Assoc(head, f.value, "\r");
    TrimRightTail(head, f.value + "\r");
    TrimRightSpec(f.value);
    TrimRightIs(f.value + "\r", v);
    ParseLineSplit(f.key, v);
  }

  lemma ReadLine(f: Field, rest: string, acc: Fields, end: StreamEnd)
    requires OneLine(f)
    ensures ReadFrom(Line(f) + rest, acc, end) == ReadFrom(rest, acc + [Trimmed(f)], end)
  {
    var body := LineBody(f);
    assert Line(f) == body + "\n";
    ParseEncodedLine(f);
    ReadStep(body, rest, acc, end);
  }

  lemma {:induction false} ReadLines(fs: Fields, rest: string, acc: Fields, end: StreamEnd)
    requires forall f :: f in fs ==> OneLine(f)
    ensures ReadFrom(Lines(fs) + rest, acc, end) == ReadFrom(rest, acc + TrimmedAll(fs), end)
    decreases |fs|
  {
    if fs == [] {
      assert Lines(fs) + rest == rest;
      assert acc + TrimmedAll(fs) == acc;
    } else {
      Assoc(Line(fs[0]), Lines(fs[1..]), rest);
      ReadLine(fs[0], Lines(fs[1..]) + rest, acc, end);
      ReadLines(fs[1..], rest, acc + [Trimmed(fs[0])], end);
      Assoc(acc, [Trimmed(fs[0])], TrimmedAll(fs[1..]));
    }
  }

  /** The encoding of any message made of one-line fields reads back as its trimmed fields. */
  lemma ReadEncoded(fs: Fields, tail: string, end: StreamEnd)
    requires fs != [] && forall f :: f in fs ==> OneLine(f)
    ensures Read(Encode(fs) + tail, end) == (Msg(TrimmedAll(fs)), tail)
  {
    Assoc(Lines(fs), "\r\n", tail);
    ReadLines(fs, "\r\n" + tail, [], end);
    assert [] + TrimmedAll(fs) == TrimmedAll(fs);
    assert "\r\n" == "\r" + "\n";
    TrimRightIs("\r", "");
    ReadStep("\r", tail, TrimmedAll(fs), end);
  }

  // ---------------------------------------------------------------- the round trip

  /** Key without colon or newline; value without newline, leading space or final carriage return. */
  ghost predicate WellFormedField(f: Field) {
    && OneLine(f)
    && (f.value != "" ==> f.value[0] != ' ' && f.value[|f.value| - 1] != '\r')
  }

  ghost predicate WellFormed(fs: Fields) {
    fs != [] && forall f :: f in fs ==> WellFormedField(f)
  }

  /** A field as the parser can produce it: like a well-formed one, save the spaces of Output lines. */
  ghost predicate ReadableField(f: Field) {
    && OneLine(f)
    && (f.value != "" ==> f.value[|f.value| - 1] != '\r')
    && (f.key != "Output" && f.value != "" ==> f.value[0] != ' ')
  }

  lemma TrimmedFixed(f: Field)
    requires '\n' !in f.value
    ensures Trimmed(f) == f <==> (f.value != "" ==> f.value[0] != ' ' && f.value[|f.value| - 1] != '\r')
  {
    var v := f.value;
    if v != "" {
      var last := v[|v| - 1];
      assert last in v;
      TrimRightSpec(v);
      var t := TrimRight(v);
      TrimLeftSpec(t);
      if last == '\r' {
        assert |t| == |v| ==> t == v;
        assert |TrimLeft(t)| <= |t| < |v|;
      } else {
        TrimRightIs(v, v);
        TrimLeftSpec(v);
      }
    }
  }

  lemma ParsedLineReadable(line: string)
    requires line != "" && '\n' !in line && !IsNewlineChar(line[|line| - 1])
    ensures ReadableField(ParseLine(line))
  {
    var i := IndexOf(line, ':');
    IndexOfSpec(line, ':');
    if i < |line| {
      var rest := line[i + 1..];
      var k := |line| - |TrimLeft(rest)|;
      TrimLeftSpec(rest);
      assert TrimLeft(rest) == line[k..];
      assert forall c :: c in line[k..] || c in line[..i] ==> c in line;
    }
  }

  /** Whatever the bytes, every field of a message that is read is a readable one. */
  lemma {:induction false} ReadShape(input: string, acc: Fields, end: StreamEnd)
    requires forall f :: f in acc ==> ReadableField(f)
    ensures var r := ReadFrom(input, acc, end).0;
            r.Msg? ==> forall f :: f in r.fields ==> ReadableField(f)
    decreases |input|
  {
    if HasLine(input) {
      var body := LineBodyOf(input);
      var line := FirstLine(input);
      if line != "" {
        TrimRightSpec(body);
        ParsedLineReadable(line);
        ReadShape(AfterLine(input), acc + [ParseLine(line)], end);
      } else if acc == [] {
        ReadShape(AfterLine(input), [], end);
      }
    }
  }

  /**
   * Reading the encoding of `fs`, whatever follows it, yields `fs` itself exactly when `fs` is
   * well formed; and then it takes exactly the encoding off the stream.
   */
  lemma RoundTrip(fs: Fields, tail: string, end: StreamEnd)
    ensures Read(Encode(fs) + tail, end).0 == Msg(fs) <==> WellFormed(fs)
    ensures WellFormed(fs) ==> Read(Encode(fs) + tail, end).1 == tail
  {
    ReadShape(Encode(fs) + tail, [], end);
    if fs != [] && forall f :: f in fs ==> OneLine(f) {
      ReadEncoded(fs, tail, end);
      TrimmedAllFixed(fs);
    }
  }

  lemma TrimmedAllFixed(fs: Fields)
    requires forall f :: f in fs ==> OneLine(f)
    ensures TrimmedAll(fs) == fs <==> forall f :: f in fs ==> WellFormedField(f)
  {
    forall i | 0 <= i < |fs|
      ensures TrimmedAll(fs)[i] == fs[i] <==> WellFormedField(fs[i])
    {
      assert fs[i] in fs;
      TrimmedFixed(fs[i]);
    }
    if f :| f in fs && !WellFormedField(f) {
      var i :| 0 <= i < |fs| && fs[i] == f;
      assert TrimmedAll(fs)[i] != fs[i];
    } else {
      assert forall i :: 0 <= i < |fs| ==> fs[i] in fs;
    }
  }

  lemma TrimmedReadable(f: Field)
    requires ReadableField(f)
    ensures Trimmed(f).value == TrimLeft(f.value)
    ensures f.key != "Output" ==> Trimmed(f) == f
    ensures WellFormedField(Trimmed(f))
  {
    var v := f.value;
    if v != "" {
      assert v[|v| - 1] in v;
    }
    TrimRightIs(v, v);
    TrimLeftSpec(v);
    assert forall c :: c in TrimLeft(v) ==> c in v;
  }

  /** The same fields without the leading spaces of Output values. */
  function StripOutput(fs: Fields): (r: Fields)
    ensures |r| == |fs|
    ensures forall i :: 0 <= i < |fs| ==>
              r[i] == if fs[i].key == "Output" then Field("Output", TrimLeft(fs[i].value)) else fs[i]
  {
    if fs == [] then []
    else
      var f := fs[0];
      [if f.key == "Output" then Field("Output", TrimLeft(f.value)) else f] + StripOutput(fs[1..])
  }

  lemma {:induction false} TrimmedReadableAll(fs: Fields)
    requires forall f :: f in fs ==> ReadableField(f)
    ensures TrimmedAll(fs) == StripOutput(fs)
    ensures forall f :: f in StripOutput(fs) ==> WellFormedField(f)
  {
    if fs != [] {
      TrimmedReadable(fs[0]);
      TrimmedReadableAll(fs[1..]);
    }
  }

  /**
   * For any message read from any bytes, encoding and reading again strips the leading spaces
   * of its Output values and changes nothing else; a further round trip changes nothing.
   */
  lemma ParseNormalises(input: string, end: StreamEnd)
    requires Read(input, end).0.Msg?
    ensures var m := Read(input, end).0.fields;
            && Read(Encode(m), AtEof) == (Msg(StripOutput(m)), "")
            && Read(Encode(StripOutput(m)), AtEof) == (Msg(StripOutput(m)), "")
  {
    var m := Read(input, end).0.fields;
    ReadShape(input, [], end);
    TrimmedReadableAll(m);
    ReadEncoded(m, "", AtEof);
    assert Encode(m) + "" == Encode(m);
    var m' := StripOutput(m);
    RoundTrip(m', "", AtEof);
    assert Encode(m') + "" == Encode(m');
  }

  /** Exactly when the first reading and encoding is the identity already: no Output value starts with a space. */
  lemma ReencodeIdentityExactly(input: string, end: StreamEnd)
    requires Read(input, end).0.Msg?
    ensures var m := Read(input, end).0.fields;
            Read(Encode(m), AtEof).0 == Msg(m) <==>
            forall f :: f in m && f.key == "Output" && f.value != "" ==> f.value[0] != ' '
  {
    var m := Read(input, end).0.fields;
    ParseNormalises(input, end);
    forall f | f in m ensures TrimLeft(f.value) == f.value <==> (f.value != "" ==> f.value[0] != ' ') {
      TrimLeftSpec(f.value);
    }
    if f :| f in m && f.key == "Output" && TrimLeft(f.value) != f.value {
      var i :| 0 <= i < |m| && m[i] == f;
      assert StripOutput(m)[i] != m[i];
    } else {
      assert forall i :: 0 <= i < |m| ==> m[i] in m;
      assert StripOutput(m) == m;
    }
  }

  /** A line of command output: not empty, no colon, no newline, and no carriage return at the end. */
  predicate IsOutputLine(line: string) {
    line != "" && ':' !in line && '\n' !in line && line[|line| - 1] != '\r'
  }

  lemma ReadOutput(line: string)
    requires IsOutputLine(line)
    ensures Read(line + "\r" + "\n" + ("\r" + "\n" + ""), AtEof).0 == Msg([Field("Output", line)])
  {
    var m := [Field("Output", line)];
    assert line[|line| - 1] in line;
    NotInConcat(line, "\r", '\n');
    TrimRightIs(line + "\r", line);
    TrimRightIs("\r", "");
    IndexOfIs(line, ':', |line|);
    ReadStep(line + "\r", "\r" + "\n" + "", [], AtEof);
    ReadStep("\r", "", m, AtEof);
    assert [] + m == m;
  }

  /** Every such line is kept whole when it is first read, and loses its leading spaces when encoded and read again. */
  lemma {:induction false} OutputLosesSpaces(line: string)
    requires IsOutputLine(line)
    ensures Read(line + "\r\n\r\n", AtEof).0 == Msg([Field("Output", line)])
    ensures Read(Encode([Field("Output", line)]), AtEof).0 == Msg([Field("Output", TrimLeft(line))])
  {
    var input, m := line + "\r\n\r\n", [Field("Output", line)];
    ReadOutput(line);
    assert line + "\r" + "\n" + ("\r" + "\n" + "") == input;
    ParseNormalises(input, AtEof);
    assert StripOutput(m) == [Field("Output", TrimLeft(line))];
  }

  /** Such as a line that starts with a space. */
  lemma OutputLineWithSpace()
    ensures IsOutputLine(" x") && TrimLeft(" x") != " x"
  {
    TrimLeftSpec(" x");
  }

  // ---------------------------------------------------------------- framing of a whole stream

  /** All messages up to the first read that yields none, and what that read reports. */
  function DecodeAll(input: string, end: StreamEnd): (r: (seq<Fields>, ReadResult))
    ensures !r.1.Msg?
    decreases |input|
  {
    var (first, rest) := Read(input, end);
    if !first.Msg? then ([], first)
    else
      var (more, last) := DecodeAll(rest, end);
      ([first.fields] + more, last)
  }

  /** Any number of lines made of carriage returns only. */
  ghost predicate Blank(s: string) {
    s == "" ||
    var n := IndexOf(s, '\n');
    n < |s| && (forall i :: 0 <= i < n ==> s[i] == '\r') && Blank(s[n + 1..])
  }

  lemma {:induction false} HalfReadNeverEof(input: string, acc: Fields, end: StreamEnd)
    requires acc != []
    ensures ReadFrom(input, acc, end).0 != Eof
    decreases |input|
  {
    if HasLine(input) && FirstLine(input) != "" {
      HalfReadNeverEof(AfterLine(input), acc + [ParseLine(FirstLine(input))], end);
    }
  }

  lemma BlankLine(input: string)
    requires HasLine(input)
    ensures FirstLine(input) == "" <==> forall i :: 0 <= i < IndexOf(input, '\n') ==> input[i] == '\r'
  {
    var n := IndexOf(input, '\n');
    IndexOfSpec(input, '\n');
    TrimRightSpec(input[..n + 1]);
    if forall i :: 0 <= i < n ==> input[i] == '\r' {
      TrimRightIs(input[..n + 1], "");
    }
  }

  /**
   * A read that yields no message: where the stream breaks it reports that; at an orderly end it
   * reports a clean end if and only if there were only blank lines left, and otherwise an
   * unexpected one.
   */
  lemma {:induction false} NoMessageExactly(input: string)
    ensures Read(input, AtEof).0 == Eof <==> Blank(input)
    ensures Read(input, AtEof).0 != IoError
    ensures Read(input, Broken).0.Msg? || Read(input, Broken).0 == IoError
    ensures Read(input, AtEof).0.Msg? <==> Read(input, Broken).0.Msg?
    decreases |input|
  {
    EndsApart(input, []);
    if HasLine(input) {
      BlankLine(input);
      if FirstLine(input) == "" {
        NoMessageExactly(AfterLine(input));
      } else {
        HalfReadNeverEof(AfterLine(input), [] + [ParseLine(FirstLine(input))], AtEof);
      }
    }
  }

  lemma {:induction false} EndsApart(input: string, acc: Fields)
    ensures ReadFrom(input, acc, AtEof).0 != IoError
    ensures ReadFrom(input, acc, Broken).0.Msg? || ReadFrom(input, acc, Broken).0 == IoError
    ensures ReadFrom(input, acc, AtEof).0.Msg? <==> ReadFrom(input, acc, Broken).0.Msg?
    decreases |input|
  {
    if HasLine(input) {
      if FirstLine(input) != "" {
        EndsApart(AfterLine(input), acc + [ParseLine(FirstLine(input))]);
      } else if acc == [] {
        EndsApart(AfterLine(input), []);
      }
    }
  }

  datatype Frame = Frame(blank: string, message: Fields)

  function Stream(frames: seq<Frame>): string {
    if frames == [] then ""
    else frames[0].blank + Encode(frames[0].message) + Stream(frames[1..])
  }

  function MessagesOf(frames: seq<Frame>): seq<Fields> {
    seq(|frames|, i requires 0 <= i < |frames| => frames[i].message)
  }

  ghost predicate WellFramed(frames: seq<Frame>) {
    forall f :: f in frames ==> Blank(f.blank) && WellFormed(f.message)
  }

  lemma {:induction false} SkipBlank(blank: string, rest: string, end: StreamEnd)
    requires Blank(blank)
    ensures Read(blank + rest, end) == Read(rest, end)
    decreases |blank|
  {
    if blank == "" {
      assert blank + rest == rest;
    } else {
      var n := IndexOf(blank, '\n');
      var body, more := blank[..n], blank[n + 1..];
      IndexOfSpec(blank, '\n');
      assert blank == body + "\n" + more;
      Assoc(body + "\n", more, rest);
      TrimRightIs(body, "");
      ReadStep(body, more + rest, [], end);
      SkipBlank(more, rest, end);
    }
  }

  /** Well-framed messages come off the front of a stream one by one, each exactly as sent. */
  lemma {:induction false} DecodeFrames(frames: seq<Frame>, tail: string, end: StreamEnd)
    requires WellFramed(frames)
    ensures DecodeAll(Stream(frames) + tail, end) ==
            (MessagesOf(frames) + DecodeAll(tail, end).0, DecodeAll(tail, end).1)
    decreases |frames|
  {
    if frames == [] {
      assert Stream(frames) + tail == tail;
      assert MessagesOf(frames) + DecodeAll(tail, end).0 == DecodeAll(tail, end).0;
    } else {
      var f, rest := frames[0], Stream(frames[1..]) + tail;
      Assoc(f.blank + Encode(f.message), Stream(frames[1..]), tail);
      Assoc(f.blank, Encode(f.message), rest);
      SkipBlank(f.blank, Encode(f.message) + rest, end);
      RoundTrip(f.message, rest, end);
      DecodeFrames(frames[1..], tail, end);
      assert [f.message] + MessagesOf(frames[1..]) == MessagesOf(frames);
      Assoc([f.message], MessagesOf(frames[1..]), DecodeAll(tail, end).0);
    }
  }

  /** A whole stream: blank lines anywhere, exactly the messages sent, then a clean end. */
  lemma Framing(frames: seq<Frame>, trailing: string)
    requires WellFramed(frames) && Blank(trailing)
    ensures DecodeAll(Stream(frames) + trailing, AtEof) == (MessagesOf(frames), Eof)
  {
    DecodeFrames(frames, trailing, AtEof);
    SkipBlank(trailing, "", AtEof);
    assert trailing + "" == trailing;
    assert MessagesOf(frames) + [] == MessagesOf(frames);
  }

  lemma CutLine(body: string, cut: string, acc: Fields)
    requires '\n' !in body && cut <= body
    requires cut != "" || acc != []
    ensures ReadFrom(cut, acc, AtEof) == (UnexpectedEof, "")
  {
    assert forall i :: 0 <= i < |cut| ==> cut[i] == body[i] && body[i] in body;
    IndexOfIs(cut, '\n', |cut|);
  }

  lemma PrefixOfConcat(cut: string, a: string, b: string)
    requires cut <= a + b
    ensures |cut| <= |a| ==> cut <= a
    ensures |cut| >= |a| ==> cut[|a|..] <= b && cut == a + cut[|a|..]
  {
    assert cut == (a + b)[..|cut|];
    if |cut| <= |a| {
      assert cut == a[..|cut|];
    } else {
      assert cut[|a|..] == b[..|cut| - |a|];
    }
  }

  lemma {:induction false} CutLines(fs: Fields, cut: string, acc: Fields)
    requires forall f :: f in fs ==> OneLine(f)
    requires cut <= Encode(fs) && |cut| < |Encode(fs)|
    requires cut != "" || acc != []
    ensures ReadFrom(cut, acc, AtEof) == (UnexpectedEof, "")
    decreases |fs|
  {
    if fs == [] {
      PrefixOfConcat(cut, "\r", "\n");
      CutLine("\r", cut, acc);
    } else {
      var f := fs[0];
      assert Line(f) == LineBody(f) + "\n";
      Assoc(Line(f), Lines(fs[1..]), "\r\n");
      PrefixOfConcat(cut, Line(f), Encode(fs[1..]));
      if |cut| < |Line(f)| {
        ParseEncodedLine(f);
        PrefixOfConcat(cut, LineBody(f), "\n");
        CutLine(LineBody(f), cut, acc);
      } else {
        var more := cut[|Line(f)|..];
        ReadLine(f, more, acc, AtEof);
        CutLines(fs[1..], more, acc + [Trimmed(f)]);
      }
    }
  }

  /** A stream cut inside a message yields the messages before it and then an unexpected end. */
  lemma CutInsideMessage(frames: seq<Frame>, blank: string, message: Fields, k: nat)
    requires WellFramed(frames) && Blank(blank) && WellFormed(message)
    requires 0 < k < |Encode(message)|
    ensures DecodeAll(Stream(frames) + (blank + Encode(message)[..k]), AtEof) ==
            (MessagesOf(frames), UnexpectedEof)
  {
    var cut := Encode(message)[..k];
    DecodeFrames(frames, blank + cut, AtEof);
    SkipBlank(blank, cut, AtEof);
    CutLines(message, cut, []);
    assert MessagesOf(frames) + [] == MessagesOf(frames);
  }

  lemma {:induction false} ReadExtends(input: string, more: string, acc: Fields, end: StreamEnd, end': StreamEnd)
    requires ReadFrom(input, acc, end).0.Msg?
    ensures ReadFrom(input + more, acc, end') ==
            (ReadFrom(input, acc, end).0, ReadFrom(input, acc, end).1 + more)
    decreases |input|
  {
    var body := LineBodyOf(input);
    var rest := AfterLine(input);
    Assoc(body + "\n", rest, more);
    ReadStep(body, rest, acc, end);
    ReadStep(body, rest + more, acc, end');
    var line := TrimRight(body);
    if line != "" {
      ReadExtends(rest, more, acc + [ParseLine(line)], end, end');
    } else if acc == [] {
      ReadExtends(rest, more, [], end, end');
    }
  }

  /**
   * For any bytes at all: the messages decoded from a prefix of a stream are the first messages
   * of the stream, so no message is ever delivered in part.
   */
  lemma {:induction false} NeverPartial(input: string, more: string, end: StreamEnd, end': StreamEnd)
    ensures DecodeAll(input, end).0 <= DecodeAll(input + more, end').0
    decreases |input|
  {
    var (first, rest) := Read(input, end);
    if first.Msg? {
      ReadExtends(input, more, [], end, end');
      NeverPartial(rest, more, end, end');
    }
  }

  // ---------------------------------------------------------------- the buffered reader

  class Reader {
    const data: string
    const end: StreamEnd
    var pos: nat

    ghost predicate Valid()
      reads this
    {
      pos <= |data|
    }

    ghost function Unread(): string
      reads this
      requires Valid()
    {
      data[pos..]
    }

    constructor (data: string, end: StreamEnd)
      ensures Valid() && Unread() == data && this.end == end
    {
      this.data, this.end, pos := data, end, 0;
    }

    /** The bytes up to and including the next newline; without one, all the bytes that are left. */
    method ReadString() returns (line: string, found: bool)
      requires Valid()
      modifies this
      ensures Valid() && (found <==> HasLine(old(Unread())))
      ensures found ==> line == old(Unread())[..IndexOf(old(Unread()), '\n') + 1] && Unread() == AfterLine(old(Unread()))
      ensures !found ==> line == old(Unread()) && Unread() == ""
    {
      var i := pos;
      while i < |data| && data[i] != '\n'
        invariant pos <= i <= |data|
        invariant forall j :: pos <= j < i ==> data[j] != '\n'
      {
        i := i + 1;
      }
      IndexOfIs(data[pos..], '\n', i - pos);
      found := i < |data|;
      var next := if found then i + 1 else i;
      line := data[pos..next];
      pos := next;
    }

    method ReadMessage() returns (r: ReadResult)
      requires Valid()
      modifies this
      ensures Valid() && (r, Unread()) == Read(old(Unread()), end)
    {
      ghost var outcome := Read(Unread(), end);
      var fields: Fields := [];
      while true
        invariant Valid() && ReadFrom(Unread(), fields, end) == outcome
        decreases |data| - pos
      {
        ghost var before := Unread();
        var line, found := ReadString();
        if !found {
          if end == Broken {
            return IoError;
          }
          if fields == [] && line == "" {
            return Eof;
          }
          return UnexpectedEof;
        }
        line := TrimRight(line);
        assert line == FirstLine(before) && Unread() == AfterLine(before);
        if line == "" {
          if fields == [] {
            continue;
          }
          return Msg(fields);
        }
        var i := IndexOf(line, ':');
        if i == |line| {
          fields := fields + [Field("Output", line)];
          continue;
        }
        fields := fields + [Field(line[..i], TrimLeft(line[i + 1..]))];
      }
    }
  }
}
