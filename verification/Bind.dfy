/** The Bind message (src/proxy/protocol.rs, extract_bind), encoded as in section 55.7 of the
    PostgreSQL 16 manual. Machine arithmetic is that of a release build. */
module Bind {
  import opened Wrappers
  import opened Bytes
  import opened Wire

  const BIND: Byte := 66 // 'B'

  datatype BindMessage = BindMessage(
    portal: seq<Byte>, statement: seq<Byte>, parameters: seq<Option<seq<Byte>>>, formats: seq<int>)

  datatype Extracted = Bound(msg: BindMessage) | NoBind | Aborted

  // ---- what the extractor does ----

  // The format of each of n parameters: text if there are no codes, the same for all if there is one.
  function Expanded(codes: seq<int>, n: nat): (formats: seq<int>)
    ensures |formats| == n
  {
    seq(n, i => if |codes| == 1 then codes[0] else if 0 <= i < |codes| then codes[i] else 0)
  }

  function Codes(s: seq<Byte>, n: nat): (codes: seq<int>)
    requires 2 * n <= |s|
    ensures |codes| == n
  {
    if n == 0 then [] else [I16At(s, 0)] + Codes(s[2..], n - 1)
  }

  datatype One = Param(value: Option<seq<Byte>>, size: nat) | Truncated | Wrapped

  // The parameter at the start of `rest`, which begins at `pos`. A length below -1 is a huge unsigned
  // number: the end of the parameter wraps around to before its start, which aborts, or is far behind.
  function OneParam(rest: seq<Byte>, pos: nat): (r: One)
    ensures r.Param? ==> r.size <= |rest|
  {
    if |rest| < 4 then Truncated
    else
      var len := I32At(rest, 0);
      if len == -1 then Param(None, 4)
      else if len < 0 then if pos + 4 + len >= 0 then Wrapped else Truncated
      else if |rest| < 4 + len then Truncated
      else Param(Some(rest[4..4 + len]), 4 + len)
  }

  // The parameters up to the first one that is cut off; None is an abort.
  function Params(rest: seq<Byte>, pos: nat, n: nat): Option<seq<Option<seq<Byte>>>> {
    if n == 0 then Some([])
    else
      match OneParam(rest, pos)
      case Truncated => Some([])
      case Wrapped => None
      case Param(value, size) =>
        match Params(rest[size..], pos + size, n - 1)
        case None => None
        case Some(more) => Some([value] + more)
  }

  // What follows the names; `pos` is where `rest` begins. A negative count is a huge unsigned number:
  // either its codes seem to end behind the message, or the vector for them cannot be reserved.
  function AfterNames(portal: seq<Byte>, statement: seq<Byte>, rest: seq<Byte>, pos: nat): Extracted {
    if |rest| < 2 then NoBind
    else
      var n := I16At(rest, 0);
      if n < 0 then if pos + 2 + 2 * n >= 0 then Aborted else NoBind
      else if |rest| < 2 + 2 * n then NoBind
      else AfterCodes(portal, statement, Codes(rest[2..], n), rest[2 + 2 * n..], pos + 2 + 2 * n)
  }

  function AfterCodes(portal: seq<Byte>, statement: seq<Byte>, codes: seq<int>, rest: seq<Byte>, pos: nat): Extracted {
    if |rest| < 2 then NoBind
    else if I16At(rest, 0) < 0 then Aborted
    else
      match Params(rest[2..], pos + 2, I16At(rest, 0))
      case None => Aborted
      case Some(params) => Bound(BindMessage(portal, statement, params, Expanded(codes, |params|)))
  }

  function AfterPortal(portal: seq<Byte>, rest: seq<Byte>, pos: nat): Extracted {
    match UpToNul(rest)
    case None => NoBind
    case Some((statement, values)) => AfterNames(portal, statement, values, pos + |statement| + 1)
  }

  function BindOf(body: seq<Byte>): Extracted {
    match UpToNul(body)
    case None => NoBind
    case Some((portal, rest)) => AfterPortal(portal, rest, |portal| + 1)
  }

  lemma OneMoreCode(codes: seq<int>, rest: seq<Byte>, n: nat)
    requires n > 0 && 2 * n <= |rest|
    ensures codes + Codes(rest, n) == codes + [I16At(rest, 0)] + Codes(rest[2..], n - 1)
  {
  }

  method ReadCodes(body: seq<Byte>, start: nat, n: nat) returns (codes: seq<int>, pos: nat)
    requires start + 2 * n <= |body|
    ensures codes == Codes(body[start..], n) && pos == start + 2 * n
  {
    hide Codes;
    codes, pos := [], start;
    ghost var rest := body[start..];
    ghost var all := Codes(rest, n);
    for i := 0 to n
      invariant pos == start + 2 * i && rest == body[pos..]
      invariant codes + Codes(rest, n - i) == all
    {
      ReadsShift(body, pos);
      DropTwice(body, pos, 2);
      OneMoreCode(codes, rest, n - i);
      codes := codes + [I16At(body, pos)];
      rest := rest[2..];
      pos := pos + 2;
    }
    assert Codes(rest, 0) == [];
  }

  // One iteration of the parameter loop.
  method ReadParam(body: seq<Byte>, pos: nat) returns (r: One)
    requires pos <= |body|
    ensures r == OneParam(body[pos..], pos)
  {
    if pos + 4 > |body| { return Truncated; }
    ReadsShift(body, pos);
    var len := I32At(body, pos);
    if len == -1 { return Param(None, 4); }
    if len < 0 {
      return if pos + 4 + len >= 0 then Wrapped else Truncated;
    }
    if pos + 4 + len > |body| { return Truncated; }
    assert body[pos..][4..4 + len] == body[pos + 4..pos + 4 + len];
    return Param(Some(body[pos + 4..pos + 4 + len]), 4 + len);
  }

  function Before(parameters: seq<Option<seq<Byte>>>, r: Option<seq<Option<seq<Byte>>>>)
    : Option<seq<Option<seq<Byte>>>>
  {
    if r.None? then None else Some(parameters + r.value)
  }

  lemma NoneBefore(r: Option<seq<Option<seq<Byte>>>>)
    ensures Before([], r) == r
  {
    if r.Some? { assert [] + r.value == r.value; }
  }

  lemma OneMore(parameters: seq<Option<seq<Byte>>>, s: seq<Byte>, pos: nat, n: nat, p: One)
    requires n > 0 && p == OneParam(s, pos)
    ensures p.Truncated? ==> Before(parameters, Params(s, pos, n)) == Some(parameters)
    ensures p.Wrapped? ==> Before(parameters, Params(s, pos, n)) == None
    ensures p.Param? ==> Before(parameters, Params(s, pos, n))
                           == Before(parameters + [p.value], Params(s[p.size..], pos + p.size, n - 1))
  {
    assert parameters + [] == parameters;
    if p.Param? {
      var more := Params(s[p.size..], pos + p.size, n - 1);
      if more.Some? { assert parameters + ([p.value] + more.value) == parameters + [p.value] + more.value; }
    }
  }

  method ReadParams(body: seq<Byte>, start: nat, n: nat) returns (r: Option<seq<Option<seq<Byte>>>>)
    requires start <= |body|
    ensures r == Params(body[start..], start, n)
  {
    var parameters, pos := [], start;
    ghost var rest := body[start..];
    ghost var all := Params(rest, start, n);
    NoneBefore(all);
    for i := 0 to n
      invariant start <= pos <= |body| && rest == body[pos..]
      invariant all == Before(parameters, Params(rest, pos, n - i))
    {
      var p := ReadParam(body, pos);
      OneMore(parameters, rest, pos, n - i, p);
      if p.Wrapped? { return None; }
      if p.Truncated? { return Some(parameters); }
      DropTwice(body, pos, p.size);
      rest := rest[p.size..];
      pos := pos + p.size;
      parameters := parameters + [p.value];
    }
    assert parameters + [] == parameters;
    assert Params(rest, pos, 0) == Some([]);
    return Some(parameters);
  }

  // The protocol's rule: no code means text for every parameter, one code is for every parameter, and
  // otherwise there is one code for each.
  function RuleFormat(codes: seq<int>, n: nat, i: nat): int
    requires |codes| in {0, 1, n} && i < n
  {
    if |codes| == 0 then 0 else if |codes| == 1 then codes[0] else codes[i]
  }

  /** Follows the rule, and pads with text or cuts where a client sends another number of codes. */
  method ExpandFormats(codes: seq<int>, n: nat) returns (formats: seq<int>)
    ensures formats == Expanded(codes, n)
    ensures |formats| == n && forall i :: 0 <= i < n && |codes| != 1 ==>
              formats[i] == if i < |codes| then codes[i] else 0
    ensures |codes| in {0, 1, n} ==> forall i :: 0 <= i < n ==> formats[i] == RuleFormat(codes, n, i)
  {
    if codes == [] { return seq(n, _ => 0); }
    if |codes| == 1 { return seq(n, _ => codes[0]); }
    formats := if |codes| <= n then codes + seq(n - |codes|, _ => 0) else codes[..n];
  }

  // What precedes the next zero byte, and the position behind it.
  method ReadName(body: seq<Byte>, start: nat, ghost rest: seq<Byte>) returns (name: Option<seq<Byte>>, pos: nat)
    requires start <= |body| && rest == body[start..]
    ensures match UpToNul(rest)
            case None => name == None
            case Some((value, after)) =>
              name == Some(value) && pos == start + |value| + 1 <= |body| && after == body[pos..]
  {
    var found := UpToNul(body[start..]);
    if found.None? { return None, start; }
    NulSplits(rest);
    DropTwice(body, start, |found.value.0| + 1);
    return Some(found.value.0), start + |found.value.0| + 1;
  }

  lemma NamesRead(body: seq<Byte>, portal: seq<Byte>, rest: seq<Byte>, statement: seq<Byte>, values: seq<Byte>)
    requires UpToNul(body) == Some((portal, rest)) && UpToNul(rest) == Some((statement, values))
    ensures BindOf(body) == AfterNames(portal, statement, values, |portal| + 1 + |statement| + 1)
  {
    hide AfterNames, UpToNul;
  }

  method ExtractBind(msg: Message) returns (r: Extracted)
    requires |msg.payload| >= 4
    ensures r == if msg.kind == 66 then BindOf(msg.payload[4..]) else NoBind
  {
    if msg.kind != BIND { return NoBind; }
    r := ExtractBody(msg.payload[4..]);
  }

  method ExtractBody(body: seq<Byte>) returns (r: Extracted)
    ensures r == BindOf(body)
  {
    hide AfterNames, UpToNul;
    assert body[0..] == body;
    var portal, portalEnd := ReadName(body, 0, body);
    if portal.None? { return NoBind; }
    var statement, pos := ReadName(body, portalEnd, UpToNul(body).value.1);
    if statement.None? { return NoBind; }
    NamesRead(body, portal.value, UpToNul(body).value.1, statement.value, body[pos..]);
    r := ExtractValues(body, pos, portal.value, statement.value, body[pos..]);
  }

  // The part of the extractor after the names.
  method ExtractValues(body: seq<Byte>, start: nat, portal: seq<Byte>, statement: seq<Byte>, ghost rest: seq<Byte>)
    returns (r: Extracted)
    requires start <= |body| && rest == body[start..]
    ensures r == AfterNames(portal, statement, rest, start)
  {
    var pos := start;
    if pos + 2 > |body| { return NoBind; }
    ReadsShift(body, pos);
    var formatCount := I16At(body, pos);
    pos := pos + 2;
    if formatCount < 0 {
      return if pos + 2 * formatCount >= 0 then Aborted else NoBind;
    }
    if pos + 2 * formatCount > |body| { return NoBind; }
    assert rest[2..] == body[pos..];
    var codes, next := ReadCodes(body, pos, formatCount);
    assert rest[2 + 2 * formatCount..] == body[next..];
    r := ExtractParams(body, next, portal, statement, codes);
  }

  // The part of the extractor after the format codes.
  method ExtractParams(body: seq<Byte>, start: nat, portal: seq<Byte>, statement: seq<Byte>, codes: seq<int>)
    returns (r: Extracted)
    requires start <= |body|
    ensures r == AfterCodes(portal, statement, codes, body[start..], start)
  {
    if start + 2 > |body| { return NoBind; }
    ReadsShift(body, start);
    var paramCount := I16At(body, start);
    if paramCount < 0 { return Aborted; }
    assert body[start..][2..] == body[start + 2..];
    var parameters := ReadParams(body, start + 2, paramCount);
    if parameters.None? { return Aborted; }
    var formats := ExpandFormats(codes, |parameters.value|);
    return Bound(BindMessage(portal, statement, parameters.value, formats));
  }

  // ---- the client's encoding ----

  function EncodeCodes(codes: seq<int>): (s: seq<Byte>)
    ensures |s| == 2 * |codes|
  {
    if codes == [] then [] else Put16(codes[0]) + EncodeCodes(codes[1..])
  }

  // The names, the format codes and the parameters; result formats follow.
  function EncodeBind(portal: seq<Byte>, statement: seq<Byte>, codes: seq<int>, params: seq<Option<seq<Byte>>>,
                      rest: seq<Byte>): seq<Byte>
  {
    portal + [0] + (statement + [0] + EncodeValues(codes, params, rest))
  }

  function EncodeValues(codes: seq<int>, params: seq<Option<seq<Byte>>>, rest: seq<Byte>): seq<Byte> {
    Put16(|codes|) + (EncodeCodes(codes) + (Put16(|params|) + (EncodeItems(params) + rest)))
  }

  // What the extractor should find.
  function Sent(portal: seq<Byte>, statement: seq<Byte>, codes: seq<int>, params: seq<Option<seq<Byte>>>): Extracted {
    Bound(BindMessage(portal, statement, params, Expanded(codes, |params|)))
  }

  // Names and parameters come out as they were sent, each parameter with a format: the only code, or the code at
  // its place, or text.
  predicate Carries(r: Extracted, portal: seq<Byte>, statement: seq<Byte>, codes: seq<int>,
                    params: seq<Option<seq<Byte>>>)
  {
    && r.Bound? && r.msg.portal == portal && r.msg.statement == statement && r.msg.parameters == params
    && |r.msg.formats| == |params|
    && forall i :: 0 <= i < |params| ==>
         r.msg.formats[i] == if |codes| == 1 then codes[0] else if i < |codes| then codes[i] else 0
  }

  lemma SentCarries(r: Extracted, portal: seq<Byte>, statement: seq<Byte>, codes: seq<int>,
                    params: seq<Option<seq<Byte>>>)
    ensures r == Sent(portal, statement, codes, params) <==> Carries(r, portal, statement, codes, params)
  {
    if Carries(r, portal, statement, codes, params) { assert r.msg.formats == Expanded(codes, |params|); }
  }

  // Counts are 16-bit and lengths 31-bit numbers.
  predicate Encodable(codes: seq<int>, params: seq<Option<seq<Byte>>>) {
    && |codes| < 0x1_0000 && |params| < 0x1_0000
    && (forall i :: 0 <= i < |codes| ==> -0x8000 <= codes[i] < 0x8000)
    && (forall i :: 0 <= i < |params| && params[i].Some? ==> |params[i].value| < 0x8000_0000)
  }

  lemma {:induction false} CodesRead(codes: seq<int>, rest: seq<Byte>)
    requires forall i :: 0 <= i < |codes| ==> -0x8000 <= codes[i] < 0x8000
    ensures Codes(EncodeCodes(codes) + rest, |codes|) == codes
  {
    if codes == [] {
    } else {
      var tail := EncodeCodes(codes[1..]) + rest;
      assert EncodeCodes(codes) + rest == Put16(codes[0]) + tail;
      Put16Reads(codes[0], tail);
      assert (Put16(codes[0]) + tail)[2..] == tail;
      CodesRead(codes[1..], rest);
      assert codes == [codes[0]] + codes[1..];
    }
  }

  lemma OneParamReads(e: Option<seq<Byte>>, rest: seq<Byte>, pos: nat)
    requires e.Some? ==> |e.value| < 0x8000_0000
    ensures OneParam(EncodeItem(e) + rest, pos) == Param(e, |EncodeItem(e)|)
    ensures (EncodeItem(e) + rest)[|EncodeItem(e)|..] == rest
  {
    FirstItem(e, rest);
  }

  lemma NextParam(s: seq<Byte>, pos: nat, value: Option<seq<Byte>>, size: nat, tail: seq<Byte>, n: nat,
                  more: seq<Option<seq<Byte>>>)
    requires size <= |s| && OneParam(s, pos) == Param(value, size) && s[size..] == tail
    requires Params(tail, pos + size, n) == Some(more)
    ensures Params(s, pos, n + 1) == Some([value] + more)
  {
  }

  lemma {:induction false} ParamsRead(params: seq<Option<seq<Byte>>>, rest: seq<Byte>, pos: nat)
    requires forall i :: 0 <= i < |params| && params[i].Some? ==> |params[i].value| < 0x8000_0000
    ensures Params(EncodeItems(params) + rest, pos, |params|) == Some(params)
  {
    if params == [] {
    } else {
      var tail, size := EncodeItems(params[1..]) + rest, |EncodeItem(params[0])|;
      ItemsSplit(params, rest);
      OneParamReads(params[0], tail, pos);
      ParamsRead(params[1..], rest, pos + size);
      NextParam(EncodeItem(params[0]) + tail, pos, params[0], size, tail, |params| - 1, params[1..]);
      assert params == [params[0]] + params[1..];
    }
  }

  lemma CountReads(n: nat, rest: seq<Byte>)
    requires n < 0x1_0000
    ensures I16At(Put16(n) + rest, 0) == if n < 0x8000 then n else n - 0x1_0000
    ensures (Put16(n) + rest)[2..] == rest
  {
    Put16Reads(n, rest);
  }

  lemma AfterCodesReads(portal: seq<Byte>, statement: seq<Byte>, codes: seq<int>, params: seq<Option<seq<Byte>>>,
                        rest: seq<Byte>, pos: nat)
    requires Encodable(codes, params)
    ensures AfterCodes(portal, statement, codes, Put16(|params|) + (EncodeItems(params) + rest), pos)
         == if |params| < 0x8000
            then Sent(portal, statement, codes, params) else Aborted
  {
    CountReads(|params|, EncodeItems(params) + rest);
    ParamsRead(params, rest, pos + 2);
  }

  lemma CodesApart(count: seq<Byte>, codeBytes: seq<Byte>, tail: seq<Byte>, n: nat)
    requires |count| == 2 && |codeBytes| == 2 * n
    ensures var s := count + (codeBytes + tail); s[2..] == codeBytes + tail && s[2 + 2 * n..] == tail
  {
  }

  lemma CodesThenRest(portal: seq<Byte>, statement: seq<Byte>, s: seq<Byte>, codes: seq<int>, pos: nat)
    requires |s| >= 2 + 2 * |codes| && I16At(s, 0) == |codes| && Codes(s[2..], |codes|) == codes
    ensures AfterNames(portal, statement, s, pos)
         == AfterCodes(portal, statement, codes, s[2 + 2 * |codes|..], pos + 2 + 2 * |codes|)
  {
    hide AfterCodes, Codes;
  }

  // The format codes come out, and the parameters are read behind them.
  lemma CodesComeOut(portal: seq<Byte>, statement: seq<Byte>, codes: seq<int>, tail: seq<Byte>, pos: nat, s: seq<Byte>)
    requires |codes| < 0x8000 && forall i :: 0 <= i < |codes| ==> -0x8000 <= codes[i] < 0x8000
    requires s == Put16(|codes|) + (EncodeCodes(codes) + tail)
    ensures AfterNames(portal, statement, s, pos)
         == AfterCodes(portal, statement, codes, tail, pos + 2 + 2 * |codes|)
  {
    assert I16At(s, 0) == |codes| by { CountReads(|codes|, EncodeCodes(codes) + tail); }
    assert s[2..] == EncodeCodes(codes) + tail && s[2 + 2 * |codes|..] == tail by {
      CodesApart(Put16(|codes|), EncodeCodes(codes), tail, |codes|);
    }
    CodesRead(codes, tail);
    CodesThenRest(portal, statement, s, codes, pos);
  }

  lemma AfterNamesReads(portal: seq<Byte>, statement: seq<Byte>, codes: seq<int>, params: seq<Option<seq<Byte>>>,
                        rest: seq<Byte>, pos: nat)
    requires Encodable(codes, params)
    ensures var r := AfterNames(portal, statement, EncodeValues(codes, params, rest), pos);
            if |codes| < 0x8000 && |params| < 0x8000
            then r == Sent(portal, statement, codes, params)
            else !r.Bound?
  {
    var tail := Put16(|params|) + (EncodeItems(params) + rest);
    if |codes| < 0x8000 {
      CodesComeOut(portal, statement, codes, tail, pos, EncodeValues(codes, params, rest));
      AfterCodesReads(portal, statement, codes, params, rest, pos + 2 + 2 * |codes|);
    } else {
      TooManyCodes(portal, statement, |codes|, EncodeCodes(codes) + tail, pos);
    }
  }

  lemma TooManyCodes(portal: seq<Byte>, statement: seq<Byte>, n: nat, tail: seq<Byte>, pos: nat)
    requires 0x8000 <= n < 0x1_0000
    ensures !AfterNames(portal, statement, Put16(n) + tail, pos).Bound?
  {
    CountReads(n, tail);
  }

  /** The extractor gives back the names, the parameters with NULL kept apart, and a format for each
      parameter, exactly if both counts fit into 15 bits. */
  lemma BindRoundTrip(portal: seq<Byte>, statement: seq<Byte>, codes: seq<int>, params: seq<Option<seq<Byte>>>,
                      rest: seq<Byte>)
    requires NulFree(portal) && NulFree(statement) && Encodable(codes, params)
    ensures Carries(BindOf(EncodeBind(portal, statement, codes, params, rest)), portal, statement, codes, params)
       <==> |codes| < 0x8000 && |params| < 0x8000
  {
    hide AfterNames, BindOf, Carries;
    SentCarries(BindOf(EncodeBind(portal, statement, codes, params, rest)), portal, statement, codes, params);
    AfterNamesReads(portal, statement, codes, params, rest, |portal| + |statement| + 2);
    WholeMessage(portal, statement, EncodeValues(codes, params, rest),
                 EncodeBind(portal, statement, codes, params, rest), Sent(portal, statement, codes, params),
                 |codes| < 0x8000 && |params| < 0x8000);
  }

  lemma NamesDecode(portal: seq<Byte>, statement: seq<Byte>, values: seq<Byte>, body: seq<Byte>)
    requires NulFree(portal) && NulFree(statement) && body == portal + [0] + (statement + [0] + values)
    ensures BindOf(body) == AfterNames(portal, statement, values, |portal| + |statement| + 2)
  {
    hide AfterNames;
    NulFreePrefix(portal, statement + [0] + values);
    NulFreePrefix(statement, values);
  }

  lemma WholeMessage(portal: seq<Byte>, statement: seq<Byte>, values: seq<Byte>, body: seq<Byte>, sent: Extracted,
                     fits: bool)
    requires NulFree(portal) && NulFree(statement) && sent.Bound?
    requires body == portal + [0] + (statement + [0] + values)
    requires var r := AfterNames(portal, statement, values, |portal| + |statement| + 2);
             if fits then r == sent else !r.Bound?
    ensures BindOf(body) == sent <==> fits
  {
    hide AfterNames, BindOf;
    NamesDecode(portal, statement, values, body);
  }

  /** From 32768 parameters on the extractor aborts, for example with that many NULLs. */
  lemma TooManyParamsAbort(portal: seq<Byte>, statement: seq<Byte>, codes: seq<int>, params: seq<Option<seq<Byte>>>,
                           rest: seq<Byte>)
    requires NulFree(portal) && NulFree(statement) && Encodable(codes, params)
    requires |codes| < 0x8000 <= |params|
    ensures BindOf(EncodeBind(portal, statement, codes, params, rest)) == Aborted
  {
    hide AfterNames, BindOf;
    var values, tail := EncodeValues(codes, params, rest), Put16(|params|) + (EncodeItems(params) + rest);
    CodesComeOut(portal, statement, codes, tail, |portal| + |statement| + 2, values);
    AfterCodesReads(portal, statement, codes, params, rest, |portal| + |statement| + 4 + 2 * |codes|);
    NamesDecode(portal, statement, values, EncodeBind(portal, statement, codes, params, rest));
  }

  // ---- messages that are cut off or have wrong lengths ----

  predicate Short(params: seq<Option<seq<Byte>>>) {
    forall i :: 0 <= i < |params| && params[i].Some? ==> |params[i].value| < 0x8000_0000
  }

  // The parameters before one that the extractor does not get over.
  lemma {:induction false} ParamsBefore(params: seq<Option<seq<Byte>>>, tail: seq<Byte>, pos: nat, end: nat, n: nat,
                                        stop: One)
    requires |params| < n && Short(params)
    requires end == pos + |EncodeItems(params)| && stop == OneParam(tail, end) && !stop.Param?
    ensures Params(EncodeItems(params) + tail, pos, n) == if stop.Wrapped? then None else Some(params)
  {
    hide OneParam, EncodeItem;
    if params == [] {
      assert EncodeItems(params) + tail == tail;
    } else {
      var first, others := params[0], params[1..];
      var more := EncodeItems(others) + tail;
      assert |EncodeItems(params)| == |EncodeItem(first)| + |EncodeItems(others)|;
      ItemsSplit(params, tail);
      hide EncodeItems, Params;
      ParamsBefore(others, tail, pos + |EncodeItem(first)|, end, n - 1, stop);
      FirstOf(first, more, pos, n - 1, Params(more, pos + |EncodeItem(first)|, n - 1));
      assert params == [first] + others;
    }
  }

  lemma FirstOf(first: Option<seq<Byte>>, more: seq<Byte>, pos: nat, n: nat, result: Option<seq<Option<seq<Byte>>>>)
    requires first.Some? ==> |first.value| < 0x8000_0000
    requires Params(more, pos + |EncodeItem(first)|, n) == result
    ensures Params(EncodeItem(first) + more, pos, n + 1) == Before([first], result)
  {
    hide OneParam, EncodeItem;
    OneParamReads(first, more, pos);
  }

  // The values part of a message that announces n parameters and goes on with some of them and `tail`.
  function CutValues(codes: seq<int>, n: nat, params: seq<Option<seq<Byte>>>, tail: seq<Byte>): seq<Byte> {
    Put16(|codes|) + (EncodeCodes(codes) + (Put16(n) + (EncodeItems(params) + tail)))
  }

  // Where `tail` begins.
  function TailAt(portal: seq<Byte>, statement: seq<Byte>, codes: seq<int>, params: seq<Option<seq<Byte>>>): nat {
    |portal| + |statement| + 6 + 2 * |codes| + |EncodeItems(params)|
  }

  lemma CutDecodes(portal: seq<Byte>, statement: seq<Byte>, codes: seq<int>, n: nat, params: seq<Option<seq<Byte>>>,
                   tail: seq<Byte>)
    requires NulFree(portal) && NulFree(statement) && Encodable(codes, params)
    requires |codes| < 0x8000 && |params| < n < 0x8000
    requires !OneParam(tail, TailAt(portal, statement, codes, params)).Param?
    ensures BindOf(portal + [0] + (statement + [0] + CutValues(codes, n, params, tail)))
         == if OneParam(tail, TailAt(portal, statement, codes, params)).Wrapped? then Aborted
            else Sent(portal, statement, codes, params)
  {
    hide BindOf, AfterNames, OneParam;
    var body, pos := portal + [0] + (statement + [0] + CutValues(codes, n, params, tail)), |portal| + |statement| + 2;
    var values := Put16(n) + (EncodeItems(params) + tail);
    NamesDecode(portal, statement, CutValues(codes, n, params, tail), body);
    CodesComeOut(portal, statement, codes, values, pos, CutValues(codes, n, params, tail));
    CountReads(n, EncodeItems(params) + tail);
    ParamsBefore(params, tail, pos + 4 + 2 * |codes|, TailAt(portal, statement, codes, params), n,
                 OneParam(tail, TailAt(portal, statement, codes, params)));
  }

  lemma NoNameWithoutNul(s: seq<Byte>)
    requires NulFree(s)
    ensures UpToNul(s) == None
  {
    if s != [] {
      assert s == [s[0]] + s[1..];
      NoNameWithoutNul(s[1..]);
    }
  }

  // Values that end before the parameters.
  lemma CutValuesEarly(portal: seq<Byte>, statement: seq<Byte>, codes: seq<int>, tail: seq<Byte>, kept: nat, pos: nat)
    requires |codes| < 0x8000 && kept < 4 + 2 * |codes| && kept <= |Put16(|codes|) + (EncodeCodes(codes) + tail)|
    ensures AfterNames(portal, statement, (Put16(|codes|) + (EncodeCodes(codes) + tail))[..kept], pos) == NoBind
  {
    var values := Put16(|codes|) + (EncodeCodes(codes) + tail);
    CountReads(|codes|, EncodeCodes(codes) + tail);
    if kept >= 2 { assert I16At(values[..kept], 0) == I16At(values, 0); }
  }

  /** A message that ends before its parameters, within a name or the format codes or between them, is no Bind. */
  lemma CutEarly(portal: seq<Byte>, statement: seq<Byte>, codes: seq<int>, params: seq<Option<seq<Byte>>>,
                 rest: seq<Byte>, kept: nat)
    requires NulFree(portal) && NulFree(statement) && |codes| < 0x8000
    requires kept < |portal| + |statement| + 6 + 2 * |codes|
    ensures kept <= |EncodeBind(portal, statement, codes, params, rest)|
    ensures BindOf(EncodeBind(portal, statement, codes, params, rest)[..kept]) == NoBind
  {
    hide AfterNames, UpToNul;
    var values, body := EncodeValues(codes, params, rest), EncodeBind(portal, statement, codes, params, rest);
    if kept <= |portal| {
      assert body[..kept] == portal[..kept];
      NoNameWithoutNul(portal[..kept]);
    } else if kept <= |portal| + 1 + |statement| {
      var part := statement[..kept - |portal| - 1];
      assert body[..kept] == portal + [0] + part;
      NulFreePrefix(portal, part);
      NoNameWithoutNul(part);
    } else {
      var part := values[..kept - |portal| - |statement| - 2];
      assert body[..kept] == portal + [0] + (statement + [0] + part);
      NamesDecode(portal, statement, part, body[..kept]);
      CutValuesEarly(portal, statement, codes, Put16(|params|) + (EncodeItems(params) + rest),
                     kept - |portal| - |statement| - 2, |portal| + |statement| + 2);
    }
  }

  /** A message that ends within a parameter, within its length or within its bytes, gives the parameters before it
      and formats for these only. */
  lemma CutMessage(portal: seq<Byte>, statement: seq<Byte>, codes: seq<int>, n: nat, params: seq<Option<seq<Byte>>>,
                   last: seq<Byte>, kept: nat)
    requires NulFree(portal) && NulFree(statement) && Encodable(codes, params)
    requires |codes| < 0x8000 && |params| < n < 0x8000 && |last| < 0x8000_0000
    requires kept < |EncodeItem(Some(last))|
    ensures Carries(BindOf(portal + [0] + (statement + [0]
                             + CutValues(codes, n, params, EncodeItem(Some(last))[..kept]))),
                    portal, statement, codes, params)
  {
    hide BindOf, Carries;
    var tail := EncodeItem(Some(last))[..kept];
    CutIsTruncated(last, kept, TailAt(portal, statement, codes, params));
    CutDecodes(portal, statement, codes, n, params, tail);
    SentCarries(Sent(portal, statement, codes, params), portal, statement, codes, params);
  }

  lemma CutIsTruncated(last: seq<Byte>, kept: nat, pos: nat)
    requires |last| < 0x8000_0000 && kept < |EncodeItem(Some(last))|
    ensures OneParam(EncodeItem(Some(last))[..kept], pos) == Truncated
  {
    var whole := EncodeItem(Some(last));
    FirstItem(Some(last), []);
    assert whole + [] == whole;
    if kept >= 4 { assert I32At(whole[..kept], 0) == I32At(whole, 0); }
  }

  /** A parameter with a length below -1: if the length reaches back no further than the start of the message body,
      the extractor aborts; otherwise the parameters before it are given. */
  lemma NegativeLength(portal: seq<Byte>, statement: seq<Byte>, codes: seq<int>, n: nat,
                       params: seq<Option<seq<Byte>>>, len: int, rest: seq<Byte>)
    requires NulFree(portal) && NulFree(statement) && Encodable(codes, params)
    requires |codes| < 0x8000 && |params| < n < 0x8000 && -0x8000_0000 <= len < -1
    ensures var r := BindOf(portal + [0] + (statement + [0] + CutValues(codes, n, params, Put32(len) + rest)));
            if -len <= TailAt(portal, statement, codes, params) + 4 then r == Aborted
            else Carries(r, portal, statement, codes, params)
  {
    hide BindOf, Carries, AfterNames;
    Put32Reads(len, rest);
    CutDecodes(portal, statement, codes, n, params, Put32(len) + rest);
    SentCarries(Sent(portal, statement, codes, params), portal, statement, codes, params);
  }

  /** With 32768 or more format codes the count is read as negative: the codes seem to end within the message body,
      and it aborts, or before its start, and nothing is extracted. */
  lemma ManyCodes(portal: seq<Byte>, statement: seq<Byte>, codes: seq<int>, params: seq<Option<seq<Byte>>>,
                  rest: seq<Byte>)
    requires NulFree(portal) && NulFree(statement) && Encodable(codes, params) && |codes| >= 0x8000
    ensures BindOf(EncodeBind(portal, statement, codes, params, rest))
         == if 2 * (0x1_0000 - |codes|) <= |portal| + |statement| + 4 then Aborted else NoBind
  {
    hide BindOf, UpToNul;
    var tail := EncodeCodes(codes) + (Put16(|params|) + (EncodeItems(params) + rest));
    CountReads(|codes|, tail);
    NamesDecode(portal, statement, EncodeValues(codes, params, rest),
                EncodeBind(portal, statement, codes, params, rest));
  }

  lemma ManyNullsAbort()
    ensures BindOf(EncodeBind([], [], [], seq(0x8000, _ => None), [])) == Aborted
  {
    TooManyParamsAbort([], [], [], seq(0x8000, _ => None), []);
  }
}
