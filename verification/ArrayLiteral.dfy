/** PostgreSQL's binary arrays as array literals (src/proxy/pg_binary.rs, decode_array and
    pg_array_quote), read back by the rules for array literals in section 8.15.6 of the PostgreSQL
    manual. Machine arithmetic is that of a release build. */
module ArrayLiteral {
  import opened Wrappers
  import opened Bytes
  import opened SqlString
  import opened Text

  // ---- quoting ----

  predicate IsSpecial(c: char) {
    c in {',', '{', '}', '"', '\\'} || IsWhitespace(c)
  }

  predicate IsNull(s: string) {
    && |s| == 4 && s[0] in {'N', 'n'} && s[1] in {'U', 'u'} && s[2] in {'L', 'l'} && s[3] in {'L', 'l'}
  }

  predicate AnySpecial(s: string) {
    s != "" && (IsSpecial(s[0]) || AnySpecial(s[1..]))
  }

  predicate NeedsQuote(s: string) {
    s == "" || IsNull(s) || AnySpecial(s)
  }

  function EscapedChar(c: char): string {
    if c in {'"', '\\'} then ['\\', c] else [c]
  }

  function Escaped(s: string): string {
    if s == "" then "" else EscapedChar(s[0]) + Escaped(s[1..])
  }

  function Quoted(s: string): string {
    if NeedsQuote(s) then "\"" + Escaped(s) + "\"" else s
  }

  lemma AnySpecialMeans(s: string)
    ensures AnySpecial(s) <==> exists i :: 0 <= i < |s| && IsSpecial(s[i])
  {
    if s != "" {
      AnySpecialMeans(s[1..]);
      if i :| 0 <= i < |s| && IsSpecial(s[i]) { assert i > 0 ==> s[1..][i - 1] == s[i]; }
      if i :| 0 <= i < |s[1..]| && IsSpecial(s[1..][i]) { assert s[i + 1] == s[1..][i]; }
    }
  }

  /** A value is printed without quotes exactly if it is not empty, not the word NULL in any case, and has no comma,
      brace, quote, backslash or white space; otherwise the quoted text is longer. */
  lemma QuotesOnlyIfNeeded(s: string)
    ensures Quoted(s) == s
       <==> && s != ""
            && !(|s| == 4 && s[0] in "Nn" && s[1] in "Uu" && s[2] in "Ll" && s[3] in "Ll")
            && forall i :: 0 <= i < |s| ==>
                 && s[i] !in {',', '{', '}', '"', '\\'}
                 && s[i] as int !in {9, 10, 11, 12, 13, 0x20, 0x85, 0xA0, 0x1680, 0x2000, 0x2001, 0x2002, 0x2003,
                                     0x2004, 0x2005, 0x2006, 0x2007, 0x2008, 0x2009, 0x200A, 0x2028, 0x2029,
                                     0x202F, 0x205F, 0x3000}
    ensures Quoted(s) != s ==> |Quoted(s)| >= |s| + 2
  {
    AnySpecialMeans(s);
    EscapedIsLonger(s);
    forall i | 0 <= i < |s| { WhitespaceCodes(s[i]); }
  }

  lemma EscapedIsLonger(s: string)
    ensures |Escaped(s)| >= |s|
  {
    if s != "" { EscapedIsLonger(s[1..]); }
  }

  /** The quoting loop. */
  method ArrayQuote(s: string) returns (out: string)
    ensures out == Quoted(s)
  {
    hide NeedsQuote;
    if !NeedsQuote(s) { return s; }
    out := "\"";
    for i := 0 to |s|
      invariant out + Escaped(s[i..]) == "\"" + Escaped(s)
    {
      assert s[i..][1..] == s[i + 1..];
      Regroup(out, EscapedChar(s[i]), Escaped(s[i + 1..]));
      Regroup(out, "\\", [s[i]]);
      if s[i] in {'"', '\\'} { out := out + "\\"; }
      out := out + [s[i]];
    }
    assert s[|s|..] == "";
    out := out + "\"";
  }

  // ---- decoding ----

  const TEXT_TYPES: set<nat> := {18, 19, 25, 1042, 1043}
  const JSONB: nat := 3802
  // bool, int8, int2, int4, float4, float8, numeric and uuid are printed without quoting.
  const RAW_TYPES: set<nat> := {16, 20, 21, 23, 700, 701, 1700, 2950}

  // The library's UTF-8 decoder and the renderers of the other element types.
  datatype Codec = Codec(utf8: seq<Byte> -> Option<string>, other: (nat, seq<Byte>) -> Option<string>)

  // The value of an element as text.
  function ElementValue(oid: nat, bytes: seq<Byte>, codec: Codec): Option<string> {
    if oid in TEXT_TYPES then codec.utf8(bytes)
    else if oid == JSONB then if bytes == [] || bytes[0] != 1 then None else codec.utf8(bytes[1..])
    else codec.other(oid, bytes)
  }

  function ElementText(oid: nat, bytes: seq<Byte>, codec: Codec): Option<string> {
    match ElementValue(oid, bytes, codec)
    case None => None
    case Some(s) => Some(if oid in RAW_TYPES then s else Quoted(s))
  }

  datatype Parts = Parts(parts: seq<string>) | NoParts | Panic

  datatype One = Part(text: string, size: nat) | NoPart | PanicPart

  // The element at `pos`. A length below -1 is a huge unsigned number: the end of the element wraps
  // around to before its start, which aborts, or to far behind the end of the array.
  function OneItem(bytes: seq<Byte>, pos: nat, oid: nat, codec: Codec): (r: One)
    ensures r.Part? ==> pos + r.size <= |bytes|
  {
    if pos + 4 > |bytes| then NoPart
    else
      var len := I32At(bytes, pos);
      if len == -1 then Part("NULL", 4)
      else if len < 0 then if pos + 4 + len >= 0 then PanicPart else NoPart
      else if pos + 4 + len > |bytes| then NoPart
      else
        match ElementText(oid, bytes[pos + 4..pos + 4 + len], codec)
        case None => NoPart
        case Some(t) => Part(t, 4 + len)
  }

  function ItemReader(bytes: seq<Byte>, oid: nat, codec: Codec): nat -> One {
    (pos: nat) => OneItem(bytes, pos, oid, codec)
  }

  // The next n elements, behind the ones that are printed already.
  function Items(parts: seq<string>, pos: nat, n: nat, read: nat -> One): Parts
    decreases n
  {
    if n == 0 then Parts(parts)
    else
      match read(pos)
      case NoPart => NoParts
      case PanicPart => Panic
      case Part(t, size) => Items(parts + [t], pos + size, n - 1, read)
  }

  function AsLiteral(r: Parts): Decoded {
    match r
    case Parts(parts) => Literal("{" + Join(parts, ',') + "}")
    case NoParts => Nothing
    case Panic => Abort
  }

  // One dimension with lower bound 1, or none; a negative length overflows the vector's capacity.
  function DecodedArray(bytes: seq<Byte>, codec: Codec): Decoded {
    if |bytes| < 12 then Nothing
    else if I32At(bytes, 0) == 0 then Literal("{}")
    else if I32At(bytes, 0) != 1 || |bytes| < 20 || I32At(bytes, 16) != 1 then Nothing
    else if I32At(bytes, 12) < 0 then Abort
    else AsLiteral(Items([], 20, I32At(bytes, 12), ItemReader(bytes, U32At(bytes, 8), codec)))
  }

  method ArrayElementText(oid: nat, bytes: seq<Byte>, codec: Codec) returns (text: Option<string>)
    ensures text == ElementText(oid, bytes, codec)
  {
    var value := ElementValue(oid, bytes, codec);
    if value.None? || oid in RAW_TYPES { return value; }
    var quoted := ArrayQuote(value.value);
    return Some(quoted);
  }

  method DecodeItem(bytes: seq<Byte>, pos: nat, oid: nat, codec: Codec) returns (r: One)
    requires pos <= |bytes|
    ensures r == OneItem(bytes, pos, oid, codec)
  {
    if pos + 4 > |bytes| { return NoPart; }
    var len := I32At(bytes, pos);
    if len == -1 { return Part("NULL", 4); }
    if len < 0 {
      return if pos + 4 + len >= 0 then PanicPart else NoPart;
    }
    if pos + 4 + len > |bytes| { return NoPart; }
    var text := ArrayElementText(oid, bytes[pos + 4..pos + 4 + len], codec);
    return if text.None? then NoPart else Part(text.value, 4 + len);
  }

  lemma ItemsTurn(parts: seq<string>, pos: nat, n: nat, read: nat -> One, item: One, bytes: seq<Byte>, oid: nat,
                  codec: Codec)
    requires n > 0 && read == ItemReader(bytes, oid, codec) && item == OneItem(bytes, pos, oid, codec)
    ensures Items(parts, pos, n, read)
         == match item
            case NoPart => NoParts
            case PanicPart => Panic
            case Part(t, size) => Items(parts + [t], pos + size, n - 1, read)
  {
  }

  /** The decoding loop. */
  method DecodeItems(bytes: seq<Byte>, dimLen: nat, oid: nat, codec: Codec) returns (r: Parts)
    requires |bytes| >= 20
    ensures r == Items([], 20, dimLen, ItemReader(bytes, oid, codec))
  {
    hide OneItem;
    var pos: nat := 20;
    var parts := [];
    ghost var read := ItemReader(bytes, oid, codec);
    for i := 0 to dimLen
      invariant 20 <= pos <= |bytes|
      invariant Items([], 20, dimLen, read) == Items(parts, pos, dimLen - i, read)
    {
      var item := DecodeItem(bytes, pos, oid, codec);
      ItemsTurn(parts, pos, dimLen - i, read, item, bytes, oid, codec);
      if item.NoPart? { return NoParts; }
      if item.PanicPart? { return Panic; }
      pos := pos + item.size;
      parts := parts + [item.text];
    }
    return Parts(parts);
  }

  method DecodeArray(bytes: seq<Byte>, codec: Codec) returns (r: Decoded)
    ensures r == DecodedArray(bytes, codec)
  {
    if |bytes| < 12 { return Nothing; }
    var ndims := I32At(bytes, 0);
    var oid := U32At(bytes, 8);
    if ndims == 0 { return Literal("{}"); }
    if ndims != 1 { return Nothing; }
    if |bytes| < 20 { return Nothing; }
    var dimLen, lowerBound := I32At(bytes, 12), I32At(bytes, 16);
    if lowerBound != 1 { return Nothing; }
    if dimLen < 0 { return Abort; }
    var items := DecodeItems(bytes, dimLen, oid, codec);
    return AsLiteral(items);
  }

  // ---- reading an array literal back ----

  predicate IsBlank(c: char) {
    9 <= c as int <= 13 || c == ' '
  }

  function SkipBlanks(s: string): (r: string)
    ensures |r| <= |s|
  {
    if s != "" && IsBlank(s[0]) then SkipBlanks(s[1..]) else s
  }

  // The rest of an item after its opening quote: its text and what follows the closing quote.
  function QuotedItem(s: string): (r: Option<(string, string)>)
    ensures r.Some? ==> |r.value.1| < |s|
  {
    if s == "" then None
    else if s[0] == '"' then Some(("", s[1..]))
    else
      var k := if s[0] == '\\' then 1 else 0;
      if |s| <= k then None
      else
        match QuotedItem(s[k + 1..])
        case None => None
        case Some((text, rest)) => Some(([s[k]] + text, rest))
  }

  // An item without quotes, up to the next delimiter; blanks at its end do not belong to it.
  // The flag says whether a character is escaped, in which case the item is not NULL.
  function BareItem(s: string): (r: Option<(string, bool, string)>)
    ensures r.Some? ==> |r.value.2| <= |s|
  {
    if s == "" || s[0] in {'{', '"'} then None
    else if s[0] in {',', '}'} then Some(("", false, s))
    else
      var k := if s[0] == '\\' then 1 else 0;
      if |s| <= k then None
      else
        match BareItem(s[k + 1..])
        case None => None
        case Some((text, escaped, rest)) =>
          if text == "" && !escaped && k == 0 && IsBlank(s[0]) then Some(("", false, rest))
          else Some(([s[k]] + text, escaped || k == 1, rest))
  }

  // One item, which is NULL or a text, and what follows it.
  function Item(s: string): (r: Option<(Option<string>, string)>)
    ensures r.Some? ==> |r.value.1| <= |s|
  {
    if s != "" && s[0] == '"' then
      match QuotedItem(s[1..])
      case None => None
      case Some((text, rest)) => Some((Some(text), SkipBlanks(rest)))
    else
      match BareItem(s)
      case None => None
      case Some((text, escaped, rest)) =>
        if text == "" then None
        else Some((if IsNull(text) && !escaped then None else Some(text), rest))
  }

  // The items after an opening brace or a comma, to the closing brace at the end.
  function ItemList(s: string): Option<seq<Option<string>>>
    decreases |s|
  {
    match Item(SkipBlanks(s))
    case None => None
    case Some((value, rest)) =>
      if rest == "" then None
      else if rest[0] == ',' then
        match ItemList(rest[1..])
        case None => None
        case Some(values) => Some([value] + values)
      else if rest[0] == '}' && SkipBlanks(rest[1..]) == "" then Some([value])
      else None
  }

  /** A one-dimensional array literal: the items between the braces. */
  function ParseArray(literal: string): Option<seq<Option<string>>> {
    var s := SkipBlanks(literal);
    if s == "" || s[0] != '{' then None
    else
      var body := SkipBlanks(s[1..]);
      if body != "" && body[0] == '}' then if SkipBlanks(body[1..]) == "" then Some([]) else None
      else ItemList(s[1..])
  }

  // ---- the round trip ----

  // One character, escaped or not, before the rest of a quoted item.
  lemma CharThenItem(c: char, s: string, text: string, rest: string)
    requires QuotedItem(s) == Some((text, rest))
    ensures QuotedItem(EscapedChar(c) + s) == Some(([c] + text, rest))
  {
    var all, k := EscapedChar(c) + s, |EscapedChar(c)| - 1;
    assert all[k] == c && all[k + 1..] == s;
  }

  lemma {:induction false} EscapedReads(s: string, rest: string)
    ensures QuotedItem(Escaped(s) + ("\"" + rest)) == Some((s, rest))
  {
    var end := "\"" + rest;
    if s == "" {
      assert Escaped(s) + end == end && end[1..] == rest;
    } else {
      EscapedReads(s[1..], rest);
      CharThenItem(s[0], Escaped(s[1..]) + end, s[1..], rest);
      Regroup(EscapedChar(s[0]), Escaped(s[1..]), end);
      assert [s[0]] + s[1..] == s;
    }
  }

  lemma {:induction false} BareReads(s: string, rest: string)
    requires !AnySpecial(s)
    requires rest != "" && rest[0] in {',', '}'}
    ensures BareItem(s + rest) == Some((s, false, rest))
  {
    if s == "" {
      assert s + rest == rest;
    } else {
      assert (s + rest)[1..] == s[1..] + rest;
      BareReads(s[1..], rest);
      assert [s[0]] + s[1..] == s;
    }
  }

  // What the decoder prints for an element.
  function Printed(value: Option<string>): string {
    if value.None? then "NULL" else Quoted(value.value)
  }

  lemma PrintedReads(value: Option<string>, rest: string)
    requires rest != "" && rest[0] in {',', '}'}
    ensures Item(SkipBlanks(Printed(value) + rest)) == Some((value, rest))
  {
    if value.Some? && NeedsQuote(value.value) {
      QuotedReads(value.value, rest);
    } else {
      if value.None? { NullIsPlain(); }
      PlainItemReads(Printed(value), rest);
      assert value.Some? ==> !IsNull(value.value);
    }
  }

  lemma QuotedReads(s: string, rest: string)
    ensures Item(SkipBlanks("\"" + Escaped(s) + "\"" + rest)) == Some((Some(s), SkipBlanks(rest)))
  {
    hide Escaped, BareItem;
    var text := "\"" + Escaped(s) + "\"" + rest;
    assert text[1..] == Escaped(s) + ("\"" + rest);
    EscapedReads(s, rest);
  }

  lemma PlainItemReads(s: string, rest: string)
    requires s != "" && !AnySpecial(s) && rest != "" && rest[0] in {',', '}'}
    ensures Item(SkipBlanks(s + rest)) == Some((if IsNull(s) then None else Some(s), rest))
  {
    hide QuotedItem, BareItem;
    assert !IsBlank(s[0]) && s[0] != '"';
    BareReads(s, rest);
  }

  lemma NullIsPlain()
    ensures !AnySpecial("NULL")
  {
    assert "NULL"[1..] == "ULL" && "ULL"[1..] == "LL" && "LL"[1..] == "L" && "L"[1..] == "";
    assert !AnySpecial("L") && !AnySpecial("LL") && !AnySpecial("ULL");
  }

  function PrintedAll(values: seq<Option<string>>): seq<string> {
    seq(|values|, i requires 0 <= i < |values| => Printed(values[i]))
  }

  lemma JoinMore(first: string, parts: seq<string>)
    requires parts != []
    ensures Join([first] + parts, ',') + "}" == first + ("," + (Join(parts, ',') + "}"))
  {
    assert ([first] + parts)[1..] == parts;
  }

  // One item before the rest of the list.
  lemma ItemThenList(value: Option<string>, tail: string, values: seq<Option<string>>)
    requires ItemList(tail) == Some(values)
    ensures ItemList(Printed(value) + ("," + tail)) == Some([value] + values)
  {
    PrintedReads(value, "," + tail);
    assert ("," + tail)[1..] == tail;
  }

  lemma {:induction false} PrintedListReads(values: seq<Option<string>>)
    requires values != []
    ensures ItemList(Join(PrintedAll(values), ',') + "}") == Some(values)
  {
    var parts := PrintedAll(values);
    if |values| == 1 {
      PrintedReads(values[0], "}");
      assert values == [values[0]];
    } else {
      PrintedListReads(values[1..]);
      assert parts == [Printed(values[0])] + PrintedAll(values[1..]);
      JoinMore(Printed(values[0]), PrintedAll(values[1..]));
      ItemThenList(values[0], Join(PrintedAll(values[1..]), ',') + "}", values[1..]);
      assert values == [values[0]] + values[1..];
    }
  }

  lemma LiteralReads(values: seq<Option<string>>)
    ensures ParseArray("{" + Join(PrintedAll(values), ',') + "}") == Some(values)
  {
    var body := Join(PrintedAll(values), ',') + "}";
    var s := "{" + Join(PrintedAll(values), ',') + "}";
    assert s[1..] == body;
    if values != [] {
      PrintedListReads(values);
      assert PrintedAll(values)[0] == Printed(values[0]);
      assert body[0] == Printed(values[0])[0];
    } else {
      assert body == "}";
    }
  }

  // ---- the server's encoding ----

  // An empty array has no dimension.
  function EncodeArray(oid: nat, flags: int, elems: seq<Option<seq<Byte>>>): seq<Byte> {
    if elems == [] then Put32(0) + Put32(flags) + Put32(oid)
    else Put32(1) + Put32(flags) + Put32(oid) + Put32(|elems|) + Put32(1) + EncodeItems(elems)
  }

  // Lengths are signed 32-bit numbers.
  predicate Encodable(oid: nat, elems: seq<Option<seq<Byte>>>) {
    && oid < 0x1_0000_0000 && |elems| < 0x8000_0000
    && forall i :: 0 <= i < |elems| && elems[i].Some? ==> |elems[i].value| < 0x8000_0000
  }

  predicate Readable(oid: nat, e: Option<seq<Byte>>, codec: Codec) {
    e.Some? ==> ElementValue(oid, e.value, codec).Some?
  }

  function ValueOf(oid: nat, e: Option<seq<Byte>>, codec: Codec): Option<string> {
    if e.None? then None else ElementValue(oid, e.value, codec)
  }

  function ValuesOf(oid: nat, elems: seq<Option<seq<Byte>>>, codec: Codec): seq<Option<string>> {
    seq(|elems|, i requires 0 <= i < |elems| => ValueOf(oid, elems[i], codec))
  }

  // Numbers, truth values and identifiers are words without special characters.
  ghost predicate RawIsBare(oid: nat, codec: Codec) {
    oid in {16, 20, 21, 23, 700, 701, 1700, 2950} ==>
      forall b: seq<Byte> :: codec.other(oid, b).Some? ==> !NeedsQuote(codec.other(oid, b).value)
  }

  predicate AllReadable(oid: nat, elems: seq<Option<seq<Byte>>>, codec: Codec) {
    forall i :: 0 <= i < |elems| ==> Readable(oid, elems[i], codec)
  }

  lemma TextIsPrinted(oid: nat, bytes: seq<Byte>, codec: Codec)
    requires RawIsBare(oid, codec)
    ensures ElementText(oid, bytes, codec).Some? <==> Readable(oid, Some(bytes), codec)
    ensures ElementText(oid, bytes, codec).Some? ==>
              ElementText(oid, bytes, codec).value == Printed(ValueOf(oid, Some(bytes), codec))
  {
  }

  lemma SliceBehind(bytes: seq<Byte>, pos: nat, lo: nat, hi: nat)
    requires lo <= hi && pos + hi <= |bytes|
    ensures bytes[pos..][lo..hi] == bytes[pos + lo..pos + hi]
  {
  }

  // What is read at the place of an item.
  lemma ItemAt(bytes: seq<Byte>, pos: nat, e: Option<seq<Byte>>, rest: seq<Byte>)
    requires e.Some? ==> |e.value| < 0x8000_0000
    requires pos <= |bytes| && bytes[pos..] == EncodeItem(e) + rest
    ensures |EncodeItem(e)| == (if e.None? then 4 else 4 + |e.value|) && pos + |EncodeItem(e)| <= |bytes|
    ensures I32At(bytes, pos) == (if e.None? then -1 else |e.value|) && bytes[pos + |EncodeItem(e)|..] == rest
    ensures e.Some? ==> bytes[pos + 4..pos + 4 + |e.value|] == e.value
  {
    FirstItem(e, rest);
    ReadsShift(bytes, pos);
    DropTwice(bytes, pos, |EncodeItem(e)|);
    if e.Some? {
      SliceBehind(bytes, pos, 4, 4 + |e.value|);
    }
  }

  // Decoding an item that lies at `pos`.
  lemma OneItemDecodes(oid: nat, e: Option<seq<Byte>>, bytes: seq<Byte>, pos: nat, rest: seq<Byte>, codec: Codec)
    requires RawIsBare(oid, codec) && (e.Some? ==> |e.value| < 0x8000_0000)
    requires pos <= |bytes| && bytes[pos..] == EncodeItem(e) + rest
    ensures OneItem(bytes, pos, oid, codec)
         == if Readable(oid, e, codec) then Part(Printed(ValueOf(oid, e, codec)), |EncodeItem(e)|) else NoPart
    ensures bytes[pos + |EncodeItem(e)|..] == rest
  {
    hide ElementText, ElementValue, Quoted, EncodeItem, I32At, RawIsBare;
    ItemAt(bytes, pos, e, rest);
    if e.Some? { TextIsPrinted(oid, e.value, codec); }
  }

  // What the loop makes of the elements behind `parts`.
  function Outcome(parts: seq<string>, oid: nat, elems: seq<Option<seq<Byte>>>, codec: Codec): Parts
    decreases |elems|
  {
    if elems == [] then Parts(parts)
    else if !Readable(oid, elems[0], codec) then NoParts
    else Outcome(parts + [Printed(ValueOf(oid, elems[0], codec))], oid, elems[1..], codec)
  }

  lemma {:induction false} OutcomeIs(parts: seq<string>, oid: nat, elems: seq<Option<seq<Byte>>>, codec: Codec)
    ensures Outcome(parts, oid, elems, codec)
         == if AllReadable(oid, elems, codec) then Parts(parts + PrintedAll(ValuesOf(oid, elems, codec))) else NoParts
    decreases |elems|
  {
    if elems == [] {
      assert parts + PrintedAll(ValuesOf(oid, elems, codec)) == parts;
    } else {
      ReadableSplit(oid, elems, codec);
      PrintedSplit(parts, oid, elems, codec);
      if Readable(oid, elems[0], codec) {
        OutcomeIs(parts + [Printed(ValueOf(oid, elems[0], codec))], oid, elems[1..], codec);
      }
    }
  }

  // The reader finds the elements one behind the other, the unreadable ones as such.
  predicate Finds(read: nat -> One, oid: nat, elems: seq<Option<seq<Byte>>>, pos: nat, codec: Codec)
    decreases |elems|
  {
    elems == [] ||
    (&& read(pos) == (if Readable(oid, elems[0], codec)
                      then Part(Printed(ValueOf(oid, elems[0], codec)), |EncodeItem(elems[0])|) else NoPart)
     && Finds(read, oid, elems[1..], pos + |EncodeItem(elems[0])|, codec))
  }

  lemma {:induction false} ReaderFinds(oid: nat, elems: seq<Option<seq<Byte>>>, bytes: seq<Byte>, pos: nat,
                                       codec: Codec)
    requires Encodable(oid, elems) && RawIsBare(oid, codec)
    requires pos <= |bytes| && EncodeItems(elems) <= bytes[pos..]
    ensures Finds(ItemReader(bytes, oid, codec), oid, elems, pos, codec)
    decreases |elems|
  {
    hide OneItem, EncodeItem;
    if elems != [] {
      var rest := bytes[pos..][|EncodeItem(elems[0])|..];
      assert bytes[pos..] == EncodeItem(elems[0]) + rest by { PrefixRest(elems, bytes[pos..]); }
      assert EncodeItems(elems[1..]) <= rest by { PrefixRest(elems, bytes[pos..]); }
      ItemAt(bytes, pos, elems[0], rest);
      OneItemDecodes(oid, elems[0], bytes, pos, rest, codec);
      ReaderFinds(oid, elems[1..], bytes, pos + |EncodeItem(elems[0])|, codec);
    }
  }

  // The first item and the others of a list at the start of some bytes.
  lemma PrefixRest(elems: seq<Option<seq<Byte>>>, bytes: seq<Byte>)
    requires elems != [] && EncodeItems(elems) <= bytes
    ensures var n := |EncodeItem(elems[0])|;
            n <= |bytes| && bytes == EncodeItem(elems[0]) + bytes[n..] && EncodeItems(elems[1..]) <= bytes[n..]
  {
    hide EncodeItem;
    var first, others := EncodeItem(elems[0]), EncodeItems(elems[1..]);
    assert bytes[..|first + others|] == first + others;
    assert bytes[..|first|] == bytes[..|first + others|][..|first|] == first;
    assert bytes[|first|..][..|others|] == bytes[..|first + others|][|first|..] == others;
  }

  lemma {:induction false} EncodedItemsDecode(parts: seq<string>, oid: nat, elems: seq<Option<seq<Byte>>>,
                                              read: nat -> One, pos: nat, codec: Codec)
    requires Finds(read, oid, elems, pos, codec)
    ensures Items(parts, pos, |elems|, read) == Outcome(parts, oid, elems, codec)
    decreases |elems|
  {
    if elems == [] {
    } else {
      if Readable(oid, elems[0], codec) {
        EncodedItemsDecode(parts + [Printed(ValueOf(oid, elems[0], codec))], oid, elems[1..], read,
                           pos + |EncodeItem(elems[0])|, codec);
      }
    }
  }

  lemma PrintedSplit(parts: seq<string>, oid: nat, elems: seq<Option<seq<Byte>>>, codec: Codec)
    requires elems != []
    ensures parts + PrintedAll(ValuesOf(oid, elems, codec))
         == parts + [Printed(ValueOf(oid, elems[0], codec))] + PrintedAll(ValuesOf(oid, elems[1..], codec))
  {
  }

  lemma ReadableSplit(oid: nat, elems: seq<Option<seq<Byte>>>, codec: Codec)
    requires elems != []
    ensures AllReadable(oid, elems, codec) <==> Readable(oid, elems[0], codec) && AllReadable(oid, elems[1..], codec)
  {
    if Readable(oid, elems[0], codec) && AllReadable(oid, elems[1..], codec) {
      forall i | 0 <= i < |elems| ensures Readable(oid, elems[i], codec) {
        if i > 0 { assert elems[i] == elems[1..][i - 1]; }
      }
    }
  }

  lemma DecodedText(oid: nat, flags: int, elems: seq<Option<seq<Byte>>>, codec: Codec)
    requires Encodable(oid, elems) && RawIsBare(oid, codec)
    ensures DecodedArray(EncodeArray(oid, flags, elems), codec)
         == if AllReadable(oid, elems, codec)
            then Literal("{" + Join(PrintedAll(ValuesOf(oid, elems, codec)), ',') + "}")
            else Nothing
  {
    HeaderReads(oid, flags, elems);
    if elems != [] {
      var bytes := EncodeArray(oid, flags, elems);
      ReaderFinds(oid, elems, bytes, 20, codec);
      EncodedItemsDecode([], oid, elems, ItemReader(bytes, oid, codec), 20, codec);
      OutcomeIs([], oid, elems, codec);
      assert [] + PrintedAll(ValuesOf(oid, elems, codec)) == PrintedAll(ValuesOf(oid, elems, codec));
    } else {
      assert PrintedAll(ValuesOf(oid, elems, codec)) == [];
    }
  }

  /** Decoding the server's encoding of a list of elements gives an array literal that reads back as
      exactly that list, NULL apart from the text "NULL" and empty texts kept; it gives no literal
      exactly if some element cannot be decoded. */
  lemma ArrayRoundTrip(oid: nat, flags: int, elems: seq<Option<seq<Byte>>>, codec: Codec)
    requires Encodable(oid, elems) && RawIsBare(oid, codec)
    ensures var r := DecodedArray(EncodeArray(oid, flags, elems), codec);
            if AllReadable(oid, elems, codec)
            then r.Literal? && ParseArray(r.text) == Some(ValuesOf(oid, elems, codec))
            else r == Nothing
  {
    DecodedText(oid, flags, elems, codec);
    LiteralReads(ValuesOf(oid, elems, codec));
  }

  /** An array of text, name, varchar, char or "char" elements: there is a literal exactly if all elements are UTF-8,
      and it reads back as their texts. */
  lemma TextArrayReads(oid: nat, flags: int, elems: seq<Option<seq<Byte>>>, codec: Codec)
    requires oid in {18, 19, 25, 1042, 1043} && Encodable(oid, elems)
    ensures var r := DecodedArray(EncodeArray(oid, flags, elems), codec);
            if exists i :: 0 <= i < |elems| && elems[i].Some? && codec.utf8(elems[i].value).None? then r == Nothing
            else
              && r.Literal? && ParseArray(r.text).Some?
              && var values := ParseArray(r.text).value;
                 && |values| == |elems|
                 && forall i :: 0 <= i < |elems| ==>
                      values[i] == if elems[i].Some? then codec.utf8(elems[i].value) else None
  {
    hide DecodedArray, EncodeArray, ParseArray, Encodable;
    ArrayRoundTrip(oid, flags, elems, codec);
    if i :| 0 <= i < |elems| && elems[i].Some? && codec.utf8(elems[i].value).None? {
      assert !Readable(oid, elems[i], codec);
    }
  }

  predicate IsJsonb(bytes: seq<Byte>, codec: Codec) {
    bytes != [] && bytes[0] == 1 && codec.utf8(bytes[1..]).Some?
  }

  /** An array of jsonb elements: there is a literal exactly if each of them has version one and is UTF-8 behind the
      version byte, and it reads back as the texts behind these bytes. */
  lemma JsonbArrayReads(flags: int, elems: seq<Option<seq<Byte>>>, codec: Codec)
    requires Encodable(3802, elems)
    ensures var r := DecodedArray(EncodeArray(3802, flags, elems), codec);
            if exists i :: 0 <= i < |elems| && elems[i].Some? && !IsJsonb(elems[i].value, codec) then r == Nothing
            else
              && r.Literal? && ParseArray(r.text).Some?
              && var values := ParseArray(r.text).value;
                 && |values| == |elems|
                 && forall i :: 0 <= i < |elems| ==>
                      values[i] == if elems[i].Some? then codec.utf8(elems[i].value[1..]) else None
  {
    hide DecodedArray, EncodeArray, ParseArray, Encodable;
    ArrayRoundTrip(3802, flags, elems, codec);
    if i :| 0 <= i < |elems| && elems[i].Some? && !IsJsonb(elems[i].value, codec) {
      assert !Readable(3802, elems[i], codec);
    }
  }

  /** What the header alone decides: an array without dimensions is empty, one with several or with another lower
      bound than one gives nothing, and so does a header that is cut off; a negative length aborts. */
  lemma HeaderDecides(bytes: seq<Byte>, codec: Codec)
    ensures |bytes| < 12 ==> DecodedArray(bytes, codec) == Nothing
    ensures |bytes| >= 12 && bytes[..4] == [0, 0, 0, 0] ==> DecodedArray(bytes, codec) == Literal("{}")
    ensures |bytes| >= 12 && bytes[..4] != [0, 0, 0, 0] && bytes[..4] != [0, 0, 0, 1] ==>
              DecodedArray(bytes, codec) == Nothing
    ensures |bytes| >= 12 && bytes[..4] == [0, 0, 0, 1] && (|bytes| < 20 || bytes[16..20] != [0, 0, 0, 1]) ==>
              DecodedArray(bytes, codec) == Nothing
    ensures |bytes| >= 20 && bytes[..4] == [0, 0, 0, 1] && bytes[16..20] == [0, 0, 0, 1] && bytes[12] >= 128 ==>
              DecodedArray(bytes, codec) == Abort
  {
    hide Items, AsLiteral;
    if |bytes| >= 12 { SmallNumber(bytes, 0); }
    if |bytes| >= 20 { SmallNumber(bytes, 16); }
  }

  lemma SmallNumber(bytes: seq<Byte>, i: nat)
    requires i + 4 <= |bytes|
    ensures I32At(bytes, i) == 0 <==> bytes[i..i + 4] == [0, 0, 0, 0]
    ensures I32At(bytes, i) == 1 <==> bytes[i..i + 4] == [0, 0, 0, 1]
  {
    var b := bytes[i..i + 4];
    assert b[0] == bytes[i] && b[1] == bytes[i + 1] && b[2] == bytes[i + 2] && b[3] == bytes[i + 3];
  }

  // ---- which byte strings have a literal ----

  // The item that is printed at a place is encoded there.
  lemma PartIsEncoded(bytes: seq<Byte>, pos: nat, oid: nat, codec: Codec) returns (e: Option<seq<Byte>>)
    requires RawIsBare(oid, codec) && OneItem(bytes, pos, oid, codec).Part?
    ensures pos <= |bytes| && EncodeItem(e) <= bytes[pos..]
    ensures Readable(oid, e, codec) && (e.Some? ==> |e.value| < 0x8000_0000)
    ensures OneItem(bytes, pos, oid, codec) == Part(Printed(ValueOf(oid, e, codec)), |EncodeItem(e)|)
  {
    var len := I32At(bytes, pos);
    e := if len == -1 then None else Some(bytes[pos + 4..pos + 4 + len]);
    LengthIsEncoded(bytes, pos, e);
    if e.Some? { TextIsPrinted(oid, e.value, codec); }
  }

  lemma LengthIsEncoded(bytes: seq<Byte>, pos: nat, e: Option<seq<Byte>>)
    requires pos + 4 <= |bytes|
    requires var len := I32At(bytes, pos);
             if e.None? then len == -1
             else len >= 0 && pos + 4 + len <= |bytes| && e.value == bytes[pos + 4..pos + 4 + len]
    ensures EncodeItem(e) <= bytes[pos..]
  {
    var four := bytes[pos..][..4];
    ReadsShift(bytes, pos);
    assert I32At(four, 0) == I32At(bytes, pos);
    Put32Of(four);
    if e.Some? {
      var n := 4 + |e.value|;
      SliceBehind(bytes, pos, 4, n);
      assert bytes[pos..][..n] == four + bytes[pos..][4..n];
    }
  }

  lemma {:induction false} PartsAreEncoded(parts: seq<string>, pos: nat, n: nat, bytes: seq<Byte>, oid: nat,
                                           codec: Codec) returns (elems: seq<Option<seq<Byte>>>)
    requires RawIsBare(oid, codec) && pos <= |bytes| && Items(parts, pos, n, ItemReader(bytes, oid, codec)).Parts?
    ensures |elems| == n && EncodeItems(elems) <= bytes[pos..] && AllReadable(oid, elems, codec)
    ensures forall i :: 0 <= i < n && elems[i].Some? ==> |elems[i].value| < 0x8000_0000
    decreases n
  {
    hide OneItem, EncodeItem, Readable;
    if n == 0 {
      elems := [];
    } else {
      var item := OneItem(bytes, pos, oid, codec);
      ItemsTurn(parts, pos, n, ItemReader(bytes, oid, codec), item, bytes, oid, codec);
      var e := PartIsEncoded(bytes, pos, oid, codec);
      var others := PartsAreEncoded(parts + [item.text], pos + item.size, n - 1, bytes, oid, codec);
      elems := [e] + others;
      assert elems[1..] == others;
      assert bytes[pos..][|EncodeItem(e)|..] == bytes[pos + item.size..];
      assert bytes[pos..] == EncodeItem(e) + bytes[pos + item.size..];
    }
  }

  // The elements are encoded behind the header, and each can be decoded.
  ghost predicate Holds(bytes: seq<Byte>, oid: nat, n: nat, elems: seq<Option<seq<Byte>>>, codec: Codec)
    requires |bytes| >= 20
  {
    && |elems| == n && Encodable(oid, elems) && EncodeItems(elems) <= bytes[20..]
    && AllReadable(oid, elems, codec)
  }

  lemma HeldIsDecoded(bytes: seq<Byte>, elems: seq<Option<seq<Byte>>>, codec: Codec)
    requires |bytes| >= 20 && I32At(bytes, 0) == 1 && I32At(bytes, 16) == 1 && I32At(bytes, 12) >= 0
    requires RawIsBare(U32At(bytes, 8), codec) && Holds(bytes, U32At(bytes, 8), I32At(bytes, 12), elems, codec)
    ensures DecodedArray(bytes, codec)
         == Literal("{" + Join(PrintedAll(ValuesOf(U32At(bytes, 8), elems, codec)), ',') + "}")
  {
    var oid := U32At(bytes, 8);
    ReaderFinds(oid, elems, bytes, 20, codec);
    EncodedItemsDecode([], oid, elems, ItemReader(bytes, oid, codec), 20, codec);
    OutcomeIs([], oid, elems, codec);
    assert [] + PrintedAll(ValuesOf(oid, elems, codec)) == PrintedAll(ValuesOf(oid, elems, codec));
  }

  /** Behind a header with one dimension and lower bound one, any byte string has a literal exactly if it starts with
      the encodings of as many elements as announced, each of which can be decoded; what follows is ignored, and
      the literal reads back as the elements' values. */
  lemma LiteralIffEncoded(bytes: seq<Byte>, codec: Codec)
    requires |bytes| >= 20 && I32At(bytes, 0) == 1 && I32At(bytes, 16) == 1 && I32At(bytes, 12) >= 0
    requires RawIsBare(U32At(bytes, 8), codec)
    ensures var r, oid, n := DecodedArray(bytes, codec), U32At(bytes, 8), I32At(bytes, 12);
            && (r.Literal? <==> exists elems :: Holds(bytes, oid, n, elems, codec))
            && (forall elems :: Holds(bytes, oid, n, elems, codec) ==>
                  r.Literal? && ParseArray(r.text) == Some(ValuesOf(oid, elems, codec)))
  {
    hide ParseArray, Holds;
    var r, oid, n := DecodedArray(bytes, codec), U32At(bytes, 8), I32At(bytes, 12);
    if r.Literal? {
      var elems := PartsAreEncoded([], 20, n, bytes, oid, codec);
      EncodedHolds(bytes, oid, n, elems, codec);
    }
    forall elems | Holds(bytes, oid, n, elems, codec)
      ensures r.Literal? && ParseArray(r.text) == Some(ValuesOf(oid, elems, codec))
    {
      HeldIsDecoded(bytes, elems, codec);
      LiteralReads(ValuesOf(oid, elems, codec));
    }
  }

  // The elements that are read before anything goes wrong.
  lemma {:induction false} ItemsBefore(parts: seq<string>, pos: nat, n: nat, elems: seq<Option<seq<Byte>>>,
                                       read: nat -> One, oid: nat, codec: Codec, end: nat)
    returns (printed: seq<string>)
    requires |elems| < n && Finds(read, oid, elems, pos, codec) && AllReadable(oid, elems, codec)
    requires end == pos + |EncodeItems(elems)|
    ensures Items(parts, pos, n, read) == Items(printed, end, n - |elems|, read)
    decreases |elems|
  {
    hide EncodeItem, Readable;
    if elems == [] {
      printed := parts;
    } else {
      ReadableSplit(oid, elems, codec);
      printed := ItemsBefore(parts + [Printed(ValueOf(oid, elems[0], codec))], pos + |EncodeItem(elems[0])|, n - 1,
                             elems[1..], read, oid, codec, end);
    }
  }

  /** An element with a length below -1 behind elements that can be decoded: if the length reaches back no further than
      the start of the value, the decoder aborts; otherwise there is no literal. */
  lemma NegativeElement(bytes: seq<Byte>, elems: seq<Option<seq<Byte>>>, codec: Codec)
    requires |bytes| >= 20 && I32At(bytes, 0) == 1 && I32At(bytes, 16) == 1 && I32At(bytes, 12) > |elems|
    requires RawIsBare(U32At(bytes, 8), codec) && Holds(bytes, U32At(bytes, 8), |elems|, elems, codec)
    requires 24 + |EncodeItems(elems)| <= |bytes| && I32At(bytes, 20 + |EncodeItems(elems)|) < -1
    ensures DecodedArray(bytes, codec)
         == if -I32At(bytes, 20 + |EncodeItems(elems)|) <= 24 + |EncodeItems(elems)| then Abort else Nothing
  {
    hide Finds, EncodeItems, Readable;
    var oid, end := U32At(bytes, 8), 20 + |EncodeItems(elems)|;
    ReaderFinds(oid, elems, bytes, 20, codec);
    var n, read := I32At(bytes, 12), ItemReader(bytes, oid, codec);
    var printed := ItemsBefore([], 20, n, elems, read, oid, codec, end);
    ItemsTurn(printed, end, n - |elems|, read, OneItem(bytes, end, oid, codec), bytes, oid, codec);
  }

  lemma EncodedHolds(bytes: seq<Byte>, oid: nat, n: nat, elems: seq<Option<seq<Byte>>>, codec: Codec)
    requires |bytes| >= 20 && oid < 0x1_0000_0000 && n < 0x8000_0000
    requires |elems| == n && EncodeItems(elems) <= bytes[20..] && AllReadable(oid, elems, codec)
    requires forall i :: 0 <= i < n && elems[i].Some? ==> |elems[i].value| < 0x8000_0000
    ensures Holds(bytes, oid, n, elems, codec)
  {
  }

  // Five fields of four bytes each.
  lemma FieldsApart(a: seq<Byte>, b: seq<Byte>, c: seq<Byte>, d: seq<Byte>, e: seq<Byte>, rest: seq<Byte>)
    requires |a| == |b| == |c| == |d| == |e| == 4
    ensures var all := a + b + c + d + e + rest;
            && all == a + (b + c + d + e + rest) && all[8..] == c + (d + e + rest)
            && all[12..] == d + (e + rest) && all[16..] == e + rest && all[20..] == rest
  {
  }

  lemma HeaderReads(oid: nat, flags: int, elems: seq<Option<seq<Byte>>>)
    requires Encodable(oid, elems)
    ensures var bytes := EncodeArray(oid, flags, elems);
            && |bytes| >= 12 && I32At(bytes, 0) == (if elems == [] then 0 else 1)
            && (elems != [] ==> && |bytes| >= 20 && U32At(bytes, 8) == oid && I32At(bytes, 12) == |elems|
                                && I32At(bytes, 16) == 1 && bytes[20..] == EncodeItems(elems))
  {
    var bytes := EncodeArray(oid, flags, elems);
    if elems == [] {
      assert bytes == Put32(0) + (Put32(flags) + Put32(oid));
      Put32Reads(0, Put32(flags) + Put32(oid));
    } else {
      var items := EncodeItems(elems);
      FieldsApart(Put32(1), Put32(flags), Put32(oid), Put32(|elems|), Put32(1), items);
      FieldsRead(bytes, flags, oid, |elems|, items);
    }
  }

  lemma FieldsRead(bytes: seq<Byte>, flags: int, oid: nat, n: nat, items: seq<Byte>)
    requires oid < 0x1_0000_0000 && n < 0x8000_0000 && |bytes| >= 20
    requires bytes == Put32(1) + (Put32(flags) + Put32(oid) + Put32(n) + Put32(1) + items)
    requires bytes[8..] == Put32(oid) + (Put32(n) + Put32(1) + items)
    requires bytes[12..] == Put32(n) + (Put32(1) + items) && bytes[16..] == Put32(1) + items
    ensures I32At(bytes, 0) == 1 && U32At(bytes, 8) == oid && I32At(bytes, 12) == n && I32At(bytes, 16) == 1
  {
    Put32Reads(1, Put32(flags) + Put32(oid) + Put32(n) + Put32(1) + items);
    Put32ReadsUnsigned(oid, Put32(n) + Put32(1) + items);
    Put32Reads(n, Put32(1) + items);
    Put32Reads(1, items);
    ReadsShift(bytes, 8);
    ReadsShift(bytes, 12);
    ReadsShift(bytes, 16);
  }

  // ---- the SQL string literal around it ----

  function QuotesIn(values: seq<Option<string>>): nat {
    if values == [] then 0
    else (if values[0].Some? then Quotes(values[0].value) else 0) + QuotesIn(values[1..])
  }

  predicate QuoteFree(values: seq<Option<string>>) {
    forall i :: 0 <= i < |values| && values[i].Some? ==> '\'' !in values[i].value
  }

  lemma {:induction false} QuoteFreeCounts(values: seq<Option<string>>)
    ensures QuotesIn(values) == 0 <==> QuoteFree(values)
  {
    if values == [] {
    } else {
      QuoteFreeCounts(values[1..]);
      if values[0].Some? { NoQuotes(values[0].value); }
      assert values == [values[0]] + values[1..];
    }
  }

  // Printing keeps the quotes of a value and adds none.
  lemma {:induction false} EscapedQuotes(s: string)
    ensures Quotes(Escaped(s)) == Quotes(s)
  {
    if s == "" {
    } else {
      EscapedQuotes(s[1..]);
      QuotesConcat(EscapedChar(s[0]), Escaped(s[1..]));
    }
  }

  lemma PrintedQuotes(value: Option<string>)
    ensures Quotes(Printed(value)) == if value.Some? then Quotes(value.value) else 0
  {
    if value.None? {
      NoQuotes("NULL");
    } else {
      EscapedQuotes(value.value);
      NoQuotes("\"");
      QuotesConcat("\"" + Escaped(value.value), "\"");
      QuotesConcat("\"", Escaped(value.value));
    }
  }

  lemma {:induction false} JoinedQuotes(values: seq<Option<string>>)
    ensures Quotes(Join(PrintedAll(values), ',')) == QuotesIn(values)
  {
    if values == [] {
    } else {
      var first, parts := Printed(values[0]), PrintedAll(values[1..]);
      PrintedQuotes(values[0]);
      JoinedQuotes(values[1..]);
      assert PrintedAll(values) == [first] + parts;
      if |values| > 1 {
        assert ([first] + parts)[1..] == parts;
        QuotesConcat(first + [','], Join(parts, ','));
        QuotesConcat(first, [',']);
      } else {
        assert QuotesIn(values[1..]) == 0;
      }
    }
  }

  lemma LiteralQuotes(values: seq<Option<string>>)
    ensures Quotes("{" + Join(PrintedAll(values), ',') + "}") == QuotesIn(values)
  {
    var body := Join(PrintedAll(values), ',');
    JoinedQuotes(values);
    QuotesConcat("{" + body, "}");
    QuotesConcat("{", body);
    NoQuotes("{");
    NoQuotes("}");
  }

  // Parsing never makes a quote.
  lemma {:induction false} SkippedQuotes(s: string)
    ensures Quotes(SkipBlanks(s)) <= Quotes(s)
  {
    if s == "" {
    } else {
      SkippedQuotes(s[1..]);
    }
  }

  // A character behind a possible backslash.
  lemma QuotesBehind(s: string, k: nat)
    requires k < |s| && k <= 1
    ensures Quotes([s[k]]) + Quotes(s[k + 1..]) <= Quotes(s)
  {
    QuotesConcat(s[..k], s[k..]);
    QuotesConcat([s[k]], s[k + 1..]);
    assert s == s[..k] + s[k..] && s[k..] == [s[k]] + s[k + 1..];
  }

  lemma {:induction false} QuotedItemQuotes(s: string)
    ensures QuotedItem(s).Some? ==> Quotes(QuotedItem(s).value.0) + Quotes(QuotedItem(s).value.1) <= Quotes(s)
  {
    if s != "" && s[0] != '"' {
      var k := if s[0] == '\\' then 1 else 0;
      if k < |s| && QuotedItem(s[k + 1..]).Some? {
        QuotedItemQuotes(s[k + 1..]);
        QuotesBehind(s, k);
        QuotesConcat([s[k]], QuotedItem(s[k + 1..]).value.0);
      }
    }
  }

  lemma {:induction false} BareItemQuotes(s: string)
    ensures BareItem(s).Some? ==> Quotes(BareItem(s).value.0) + Quotes(BareItem(s).value.2) <= Quotes(s)
  {
    if s != "" && s[0] !in {'{', '"', ',', '}'} {
      var k := if s[0] == '\\' then 1 else 0;
      if k < |s| && BareItem(s[k + 1..]).Some? {
        BareItemQuotes(s[k + 1..]);
        QuotesBehind(s, k);
        QuotesConcat([s[k]], BareItem(s[k + 1..]).value.0);
      }
    }
  }

  lemma ItemQuotes(s: string)
    ensures Item(s).Some? ==>
              QuotesIn([Item(s).value.0]) + Quotes(Item(s).value.1) <= Quotes(s)
  {
    if s != "" && s[0] == '"' {
      QuotedItemQuotes(s[1..]);
      if QuotedItem(s[1..]).Some? { SkippedQuotes(QuotedItem(s[1..]).value.1); }
    } else {
      BareItemQuotes(s);
    }
  }

  lemma MoreQuotes(value: Option<string>, values: seq<Option<string>>)
    ensures QuotesIn([value] + values) == QuotesIn([value]) + QuotesIn(values)
  {
    assert ([value] + values)[1..] == values;
  }

  lemma {:induction false} ListQuotes(s: string)
    ensures ItemList(s).Some? ==> QuotesIn(ItemList(s).value) <= Quotes(s)
    decreases |s|
  {
    SkippedQuotes(s);
    ItemQuotes(SkipBlanks(s));
    if Item(SkipBlanks(s)).Some? {
      var (value, rest) := Item(SkipBlanks(s)).value;
      if rest != "" && rest[0] == ',' {
        ListQuotes(rest[1..]);
        if ItemList(rest[1..]).Some? { MoreQuotes(value, ItemList(rest[1..]).value); }
      }
    }
  }

  lemma ParsedQuotes(s: string)
    ensures ParseArray(s).Some? ==> QuotesIn(ParseArray(s).value) <= Quotes(s)
  {
    SkippedQuotes(s);
    if SkipBlanks(s) != "" { ListQuotes(SkipBlanks(s)[1..]); }
  }

  // The list that the server takes from a constant with a cast, given what follows the opening quote.
  function ServerArray(sql: string, cast: string): Option<seq<Option<string>>> {
    match ReadSqlString(sql)
    case None => None
    case Some((text, rest)) => if rest == cast then ParseArray(text) else None
  }

  /** A text put between quotes as it is, is read back exactly if it has no quote itself. */
  lemma QuotedLiteralIff(body: string, cast: string)
    ensures ReadSqlString(body + "'" + ("::" + cast)) == Some((body, "::" + cast)) <==> Quotes(body) == 0
  {
    QuotesAreDoubled(body + "'" + ("::" + cast));
    if Quotes(body) == 0 { QuoteFreeReads(body, "::" + cast); }
  }

  // A constant that is read up to its cast has twice the quotes of its text.
  lemma ConstantQuotes(body: string, cast: string)
    requires ReadSqlString(body + "'" + cast).Some? && ReadSqlString(body + "'" + cast).value.1 == cast
    ensures Quotes(body) == 2 * Quotes(ReadSqlString(body + "'" + cast).value.0)
  {
    QuotesAreHalved(body + "'" + cast);
    QuotesConcat(body + "'", cast);
    QuotesConcat(body, "'");
    assert Quotes("'") == 1 + Quotes(""[0..]);
  }

  lemma ConstantIff(body: string, cast: string, values: seq<Option<string>>)
    requires ParseArray(body) == Some(values) && Quotes(body) == QuotesIn(values)
    requires cast == "" || cast[0] != '\''
    ensures ServerArray(body + "'" + cast, cast) == Some(values) <==> QuotesIn(values) == 0
  {
    if QuotesIn(values) == 0 {
      QuoteFreeReads(body, cast);
    } else if ServerArray(body + "'" + cast, cast) == Some(values) {
      ConstantQuotes(body, cast);
      ParsedQuotes(ReadSqlString(body + "'" + cast).value.0);
      assert false;
    }
  }

  /** A decoded array is put between quotes as it is and cast to its type. The server takes the list of
      values from that constant exactly if no value has a single quote in it. */
  lemma ArrayConstantIff(oid: nat, flags: int, elems: seq<Option<seq<Byte>>>, codec: Codec, cast: string)
    requires Encodable(oid, elems) && RawIsBare(oid, codec) && AllReadable(oid, elems, codec)
    ensures var r := DecodedArray(EncodeArray(oid, flags, elems), codec);
            var values := ValuesOf(oid, elems, codec);
            && r.Literal?
            && (ServerArray(r.text + "'" + ("::" + cast), "::" + cast) == Some(values) <==> QuoteFree(values))
  {
    var values := ValuesOf(oid, elems, codec);
    var body := "{" + Join(PrintedAll(values), ',') + "}";
    DecodedText(oid, flags, elems, codec);
    LiteralReads(values);
    LiteralQuotes(values);
    QuoteFreeCounts(values);
    ConstantIff(body, "::" + cast, values);
  }

  lemma ItsIsPlain()
    ensures !NeedsQuote("it's")
  {
    var s := "it's";
    assert s[1..] == "t's" && s[1..][1..] == "'s" && s[1..][1..][1..] == "s" && s[1..][1..][1..][1..] == "";
    assert !AnySpecial(s[1..][1..][1..]);
    assert !AnySpecial(s[1..][1..]);
    assert !AnySpecial(s[1..]);
  }

  lemma PlainTextDecodes(bytes: seq<Byte>, codec: Codec, s: string)
    requires |bytes| < 0x8000_0000 && codec.utf8(bytes) == Some(s) && !NeedsQuote(s)
    ensures DecodedArray(EncodeArray(25, 0, [Some(bytes)]), codec) == Literal("{" + s + "}")
  {
    DecodedText(25, 0, [Some(bytes)], codec);
    assert PrintedAll(ValuesOf(25, [Some(bytes)], codec)) == [s];
  }

  lemma PossessiveBreaks()
    ensures ReadSqlString("{it's}'::text[]") == Some(("{it", "s}'::text[]"))
  {
    NoQuotes("{it");
    QuoteFreeReads("{it", "s}'::text[]");
    assert "{it" + "'" + "s}'::text[]" == "{it's}'::text[]";
  }

  /** The list of the one text "it's" fails: the constant ends at its quote. */
  lemma PossessiveFails(bytes: seq<Byte>, codec: Codec)
    requires |bytes| == 4 && codec.utf8(bytes) == Some("it's")
    ensures DecodedArray(EncodeArray(25, 0, [Some(bytes)]), codec) == Literal("{it's}")
    ensures ReadSqlString("{it's}'::text[]") == Some(("{it", "s}'::text[]"))
  {
    ItsIsPlain();
    PlainTextDecodes(bytes, codec, "it's");
    assert "{" + "it's" + "}" == "{it's}";
    PossessiveBreaks();
  }
}
