/** PostgreSQL messages on the wire (src/proxy/protocol.rs): framing and error responses. */
module Wire {
  import opened Wrappers
  import opened Bytes

  // The type byte, and the length field with the body behind it.
  datatype Message = Message(kind: Byte, payload: seq<Byte>)

  datatype ReadError = UnexpectedEof | InvalidLength | TooLarge

  datatype ReadResult =
    | Read(msg: Message, rest: seq<Byte>)
    | Closed
    | Failed(error: ReadError)
    | Panicked

  // ---- framing ----

  // A negative length is a huge unsigned number: too large if there is a limit, and without a limit
  // its buffer cannot be reserved.
  function ReadFrame(stream: seq<Byte>, max: nat): ReadResult {
    if stream == [] then Closed
    else if |stream| < 5 then Failed(UnexpectedEof)
    else
      var len := I32At(stream, 1);
      if 0 <= len < 4 then Failed(InvalidLength)
      else if max > 0 && (len < 0 || len > max) then Failed(TooLarge)
      else if len < 0 then Panicked
      else if |stream| < 1 + len then Failed(UnexpectedEof)
      else Read(Message(stream[0], stream[1..1 + len]), stream[1 + len..])
  }

  // A startup message has no type byte; it is kept as type 0.
  function Written(msg: Message): seq<Byte> {
    (if msg.kind != 0 then [msg.kind] else []) + msg.payload
  }

  /** A stream with what is still to be read and what has been written. */
  class Channel {
    var input: seq<Byte>
    var output: seq<Byte>

    constructor (input: seq<Byte>)
      ensures this.input == input && output == []
    {
      this.input, output := input, [];
    }

    method ReadMessage(max: nat) returns (r: ReadResult)
      modifies this`input
      ensures r == ReadFrame(old(input), max)
      ensures r.Read? ==> input == r.rest
      ensures var s := old(input);
              var len := if |s| >= 5 then I32At(s, 1) else 0;
              && (r.Closed? <==> s == [])
              && (r == Failed(InvalidLength) <==> |s| >= 5 && 0 <= len < 4)
              && (r == Failed(TooLarge) <==> |s| >= 5 && max > 0 && (len < 0 || len > max) && !(0 <= len < 4))
              && (r == Panicked <==> |s| >= 5 && max == 0 && len < 0)
              && (r == Failed(UnexpectedEof) <==>
                    0 < |s| < 5 || (|s| >= 5 && len >= 4 && (max == 0 || len <= max) && |s| < 1 + len))
              && (r.Read? ==> |r.msg.payload| == len && s == [r.msg.kind] + r.msg.payload + r.rest)
    {
      if ReadFrame(input, max).Read? { ReadIsWellFormed(input, max); }
      if input == [] { return Closed; }
      var kind := input[0];
      input := input[1..];
      if |input| < 4 { input := []; return Failed(UnexpectedEof); }
      ReadsShift(old(input), 1);
      var len, lenBuf := I32At(input, 0), input[..4];
      input := input[4..];
      if 0 <= len < 4 { return Failed(InvalidLength); }
      if max > 0 && (len < 0 || len > max) { return Failed(TooLarge); }
      if len < 0 { return Panicked; }
      if |input| < len - 4 { input := []; return Failed(UnexpectedEof); }
      var payload := lenBuf + input[..len - 4];
      assert payload == old(input)[1..1 + len] && input[len - 4..] == old(input)[1 + len..];
      input := input[len - 4..];
      return Read(Message(kind, payload), input);
    }

    method WriteMessage(msg: Message)
      modifies this`output
      ensures output == old(output) + Written(msg)
    {
      if msg.kind != 0 { output := output + [msg.kind]; }
      output := output + msg.payload;
      assert output == old(output) + Written(msg);
    }
  }

  // What a writer may send: a nonzero type, and a length field that counts itself and the body.
  predicate WellFormed(msg: Message, max: nat) {
    && msg.kind != 0 && 4 <= |msg.payload| < 0x8000_0000
    && (max > 0 ==> |msg.payload| <= max)
    && I32At(msg.payload, 0) == |msg.payload|
  }

  lemma WrittenReads(msg: Message, rest: seq<Byte>, max: nat)
    requires WellFormed(msg, max)
    ensures ReadFrame(Written(msg) + rest, max) == Read(msg, rest)
  {
    var s, n := Written(msg) + rest, |msg.payload|;
    ReadsShift(s, 1);
    assert s[1..] == msg.payload + rest;
    assert forall i :: 0 <= i < 4 ==> s[1..][i] == msg.payload[i];
    assert s[1..1 + n] == msg.payload && s[1 + n..] == rest;
  }

  lemma ReadIsWellFormed(s: seq<Byte>, max: nat)
    requires ReadFrame(s, max).Read?
    ensures var (m, rest) := (ReadFrame(s, max).msg, ReadFrame(s, max).rest);
            && (WellFormed(m, max) <==> m.kind != 0)
            && s == [m.kind] + m.payload + rest
  {
    var m := ReadFrame(s, max).msg;
    ReadsShift(s, 1);
    assert forall i :: 0 <= i < 4 ==> s[1..][i] == m.payload[i];
  }

  // The messages that can be read, and what is left when no further one can.
  function Frames(s: seq<Byte>, max: nat): (seq<Message>, seq<Byte>)
    decreases |s|
  {
    match ReadFrame(s, max)
    case Read(m, rest) => var (ms, last) := Frames(rest, max); ([m] + ms, last)
    case _ => ([], s)
  }

  function WrittenAll(ms: seq<Message>): seq<Byte> {
    if ms == [] then [] else Written(ms[0]) + WrittenAll(ms[1..])
  }

  predicate AllWellFormed(ms: seq<Message>, max: nat) {
    forall i :: 0 <= i < |ms| ==> WellFormed(ms[i], max)
  }

  function Untyped(ms: seq<Message>): nat {
    if ms == [] then 0 else (if ms[0].kind == 0 then 1 else 0) + Untyped(ms[1..])
  }

  lemma OneMoreFrame(s: seq<Byte>, m: Message, tail: seq<Byte>, max: nat)
    requires ReadFrame(s, max) == Read(m, tail)
    ensures Frames(s, max) == ([m] + Frames(tail, max).0, Frames(tail, max).1)
  {
  }

  lemma {:induction false} WrittenFrames(ms: seq<Message>, rest: seq<Byte>, max: nat)
    requires AllWellFormed(ms, max) && !ReadFrame(rest, max).Read?
    ensures Frames(WrittenAll(ms) + rest, max) == (ms, rest)
  {
    if ms == [] {
      assert WrittenAll(ms) + rest == rest;
    } else {
      var tail := WrittenAll(ms[1..]) + rest;
      assert WrittenAll(ms) + rest == Written(ms[0]) + tail;
      WrittenReads(ms[0], tail, max);
      WrittenFrames(ms[1..], rest, max);
      OneMoreFrame(Written(ms[0]) + tail, ms[0], tail, max);
      assert ms == [ms[0]] + ms[1..];
    }
  }

  /** Reading all of a stream and writing the messages back reproduces it exactly if no type byte is
      zero; each zero type byte is lost. */
  lemma {:induction false} FramesWriteBack(s: seq<Byte>, max: nat)
    ensures var (ms, rest) := Frames(s, max);
            && !ReadFrame(rest, max).Read?
            && (AllWellFormed(ms, max) <==> Untyped(ms) == 0)
            && |WrittenAll(ms) + rest| + Untyped(ms) == |s|
            && (WrittenAll(ms) + rest == s <==> Untyped(ms) == 0)
    decreases |s|
  {
    var r := ReadFrame(s, max);
    if r.Read? {
      FramesWriteBack(r.rest, max);
      ReadIsWellFormed(s, max);
      var (ms, rest) := Frames(s, max);
      assert ms[1..] == Frames(r.rest, max).0;
      assert WrittenAll(ms) + rest == Written(r.msg) + (WrittenAll(ms[1..]) + rest);
      FirstWellFormed(ms, max);
    } else {
      assert WrittenAll([]) + s == s;
    }
  }

  /** For example a message with type byte zero and no body: it is read, and written back one byte shorter. */
  lemma ZeroTypeIsLost(max: nat)
    requires max == 0 || max >= 4
    ensures Frames([0, 0, 0, 0, 4], max).0 == [Message(0, [0, 0, 0, 4])] && Frames([0, 0, 0, 0, 4], max).1 == []
    ensures WrittenAll([Message(0, [0, 0, 0, 4])]) == [0, 0, 0, 4]
  {
    var s: seq<Byte> := [0, 0, 0, 0, 4];
    var m := Message(0, [0, 0, 0, 4]);
    assert I32At(s, 1) == 4 && s[1..5] == m.payload && s[5..] == [];
    assert ReadFrame([], max) == Closed;
    OneMoreFrame(s, m, [], max);
  }

  lemma FirstWellFormed(ms: seq<Message>, max: nat)
    requires ms != []
    ensures AllWellFormed(ms, max) <==> WellFormed(ms[0], max) && AllWellFormed(ms[1..], max)
  {
    if WellFormed(ms[0], max) && AllWellFormed(ms[1..], max) {
      forall i | 0 <= i < |ms| ensures WellFormed(ms[i], max) {
        if i > 0 { assert ms[i] == ms[1..][i - 1]; }
      }
    }
  }

  /** A stream splits into well-formed messages and an unreadable rest in one way only, and that is
      the way it is read. */
  lemma FramingIsUnique(s: seq<Byte>, ms: seq<Message>, rest: seq<Byte>, max: nat)
    ensures AllWellFormed(ms, max) && s == WrittenAll(ms) + rest && !ReadFrame(rest, max).Read?
       <==> Frames(s, max) == (ms, rest) && Untyped(ms) == 0
  {
    FramesWriteBack(s, max);
    if AllWellFormed(ms, max) && s == WrittenAll(ms) + rest && !ReadFrame(rest, max).Read? {
      WrittenFrames(ms, rest, max);
    }
  }

  // ---- error responses ----

  const ERROR: Byte := 69 // 'E'
  const SEVERITY: Byte := 83 // 'S'
  const SEVERITY_FIXED: Byte := 86 // 'V'
  const CODE: Byte := 67 // 'C'
  const MESSAGE: Byte := 77 // 'M'

  predicate NulFree(s: seq<Byte>) {
    0 !in s
  }

  // What precedes the first zero byte, and what follows it.
  function UpToNul(s: seq<Byte>): (r: Option<(seq<Byte>, seq<Byte>)>)
    ensures r.Some? ==> |r.value.0| + 1 + |r.value.1| == |s| && NulFree(r.value.0)
  {
    if s == [] then None
    else if s[0] == 0 then Some(([], s[1..]))
    else
      match UpToNul(s[1..])
      case None => None
      case Some((name, rest)) => Some(([s[0]] + name, rest))
  }

  lemma {:induction false} NulFreePrefix(a: seq<Byte>, rest: seq<Byte>)
    requires NulFree(a)
    ensures UpToNul(a + [0] + rest) == Some((a, rest))
  {
    var s := a + [0] + rest;
    if a == [] {
      assert s[1..] == rest;
    } else {
      assert s[1..] == a[1..] + [0] + rest;
      NulFreePrefix(a[1..], rest);
      assert [a[0]] + a[1..] == a;
    }
  }

  lemma {:induction false} SomePrefix(a: seq<Byte>)
    requires 0 in a
    ensures UpToNul(a).Some?
  {
    if a[0] != 0 {
      assert a == [a[0]] + a[1..];
      SomePrefix(a[1..]);
    }
  }

  function Field(kind: Byte, text: seq<Byte>): seq<Byte> {
    [kind] + (text + [0])
  }

  function ErrorBody(severity: seq<Byte>, code: seq<Byte>, message: seq<Byte>): seq<Byte> {
    Field(SEVERITY, severity) + Field(SEVERITY_FIXED, severity) + Field(CODE, code) + Field(MESSAGE, message) + [0]
  }

  // The length is cut to 32 bits.
  function ErrorResponse(severity: seq<Byte>, code: seq<Byte>, message: seq<Byte>): seq<Byte> {
    var body := ErrorBody(severity, code, message);
    [ERROR] + Put32(|body| + 4) + body
  }

  // The first field of type 'M' before the terminator.
  function FindMessage(body: seq<Byte>): Option<seq<Byte>>
    decreases |body|
  {
    if body == [] || body[0] == 0 then None
    else
      match UpToNul(body[1..])
      case None => None
      case Some((value, rest)) => if body[0] == MESSAGE then Some(value) else FindMessage(rest)
  }

  /** The search loop over the fields. */
  method ExtractErrorMessage(msg: Message) returns (r: Option<seq<Byte>>)
    requires |msg.payload| >= 4
    ensures r == if msg.kind == 69 then FindMessage(msg.payload[4..]) else None
  {
    if msg.kind != ERROR { return None; }
    var body := msg.payload[4..];
    var pos := 0;
    while pos < |body|
      invariant 0 <= pos <= |body|
      invariant FindMessage(body) == FindMessage(body[pos..])
    {
      var fieldType := body[pos];
      assert body[pos..][1..] == body[pos + 1..];
      pos := pos + 1;
      if fieldType == 0 { break; }
      var rest := body[pos..];
      var field := UpToNul(rest);
      if field.None? { return None; }
      if fieldType == MESSAGE { return Some(field.value.0); }
      NulSplits(rest);
      pos := pos + |field.value.0| + 1;
      assert rest[|field.value.0| + 1..] == body[pos..];
    }
    return None;
  }

  lemma {:induction false} NulSplits(s: seq<Byte>)
    requires UpToNul(s).Some?
    ensures s[|UpToNul(s).value.0| + 1..] == UpToNul(s).value.1
  {
    if s[0] != 0 { NulSplits(s[1..]); }
  }

  lemma SkipField(kind: Byte, text: seq<Byte>, rest: seq<Byte>)
    requires kind !in {0, MESSAGE} && NulFree(text)
    ensures FindMessage(Field(kind, text) + rest) == FindMessage(rest)
  {
    var s := Field(kind, text) + rest;
    assert s[1..] == text + [0] + rest;
    NulFreePrefix(text, rest);
  }

  lemma FindsField(text: seq<Byte>, rest: seq<Byte>)
    ensures FindMessage(Field(MESSAGE, text) + rest).Some?
    ensures FindMessage(Field(MESSAGE, text) + rest) == Some(text) <==> NulFree(text)
  {
    var s := Field(MESSAGE, text) + rest;
    assert s[1..] == text + [0] + rest;
    if NulFree(text) {
      NulFreePrefix(text, rest);
    } else {
      SomePrefix(text + [0] + rest);
    }
  }

  // The fields as they lie in a message, each a type byte and a text with its zero byte.
  function AllFields(fields: seq<(Byte, seq<Byte>)>): seq<Byte> {
    if fields == [] then [] else Field(fields[0].0, fields[0].1) + AllFields(fields[1..])
  }

  predicate Fielded(fields: seq<(Byte, seq<Byte>)>) {
    forall i :: 0 <= i < |fields| ==> fields[i].0 != 0 && NulFree(fields[i].1)
  }

  /** Whatever fields a message has, the text found is that of the first field of type 77, an 'M', if there is one
      before the terminator or the end. */
  lemma {:induction false} FindsFirstMessage(fields: seq<(Byte, seq<Byte>)>, rest: seq<Byte>, k: nat)
    requires Fielded(fields) && k <= |fields| && forall i :: 0 <= i < k ==> fields[i].0 != 77
    ensures k < |fields| && fields[k].0 == 77 ==> FindMessage(AllFields(fields) + rest) == Some(fields[k].1)
    ensures k == |fields| && (rest == [] || rest[0] == 0) ==> FindMessage(AllFields(fields) + rest) == None
  {
    if fields == [] {
      assert AllFields(fields) + rest == rest;
    } else {
      var tail := AllFields(fields[1..]) + rest;
      assert AllFields(fields) + rest == Field(fields[0].0, fields[0].1) + tail;
      if k == 0 {
        if fields[0].0 == 77 { FindsField(fields[0].1, tail); }
      } else {
        SkipField(fields[0].0, fields[0].1, tail);
        FindsFirstMessage(fields[1..], rest, k - 1);
      }
    }
  }

  /** A client reads an error response as one message with the severity twice, the code and the message, and the
      text it finds there is the one put in exactly if that has no zero byte. */
  lemma ErrorRoundTrip(severity: seq<Byte>, code: seq<Byte>, message: seq<Byte>, rest: seq<Byte>, max: nat)
    requires NulFree(severity) && NulFree(code)
    requires var n := 2 * |severity| + |code| + |message| + 13; n < 0x8000_0000 && (max > 0 ==> n <= max)
    ensures var r := ReadFrame(ErrorResponse(severity, code, message) + rest, max);
            && r.Read? && r.rest == rest && r.msg.kind == 69
            && r.msg.payload[4..] == [83] + severity + [0] + [86] + severity + [0] + [67] + code + [0]
                                     + [77] + message + [0] + [0]
            && FindMessage(r.msg.payload[4..]).Some?
            && (FindMessage(r.msg.payload[4..]) == Some(message) <==> NulFree(message))
  {
    var body := ErrorBody(severity, code, message);
    var msg := Message(ERROR, Put32(|body| + 4) + body);
    Put32Reads(|body| + 4, body);
    assert ErrorResponse(severity, code, message) + rest == Written(msg) + rest;
    WrittenReads(msg, rest, max);
    assert msg.payload[4..] == body;
    FieldsOf(severity, code, message);
    BodyIs(severity, code, message);
  }

  lemma BodyIs(severity: seq<Byte>, code: seq<Byte>, message: seq<Byte>)
    ensures ErrorBody(severity, code, message)
         == [83] + severity + [0] + [86] + severity + [0] + [67] + code + [0] + [77] + message + [0] + [0]
  {
    var a: seq<Byte> := [83] + severity + [0];
    var b: seq<Byte> := [86] + severity + [0];
    var c: seq<Byte> := [67] + code + [0];
    assert Field(83, severity) == a && Field(86, severity) == b && Field(67, code) == c;
    assert a + Field(86, severity) == a + [86] + severity + [0];
    assert a + b + Field(67, code) == a + b + [67] + code + [0];
    assert a + b + c + Field(77, message) == a + b + c + [77] + message + [0];
  }

  lemma FieldsOf(severity: seq<Byte>, code: seq<Byte>, message: seq<Byte>)
    requires NulFree(severity) && NulFree(code)
    ensures FindMessage(ErrorBody(severity, code, message)).Some?
    ensures FindMessage(ErrorBody(severity, code, message)) == Some(message) <==> NulFree(message)
  {
    var s4 := Field(MESSAGE, message) + [0];
    var s3 := Field(CODE, code) + s4;
    var s2 := Field(SEVERITY_FIXED, severity) + s3;
    assert ErrorBody(severity, code, message) == Field(SEVERITY, severity) + s2;
    SkipField(SEVERITY, severity, s2);
    SkipField(SEVERITY_FIXED, severity, s3);
    SkipField(CODE, code, s4);
    FindsField(message, [0]);
  }
}
