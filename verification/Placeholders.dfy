/** Rendering bind parameters as SQL literals and inlining them into a statement's text
    (src/proxy/protocol.rs, format_bind_params_typed_ext and inline_bind_params). */
module Placeholders {
  import opened Wrappers
  import opened SqlString
  import opened Text

  // ---- Rendering ----

  // A bound parameter as the renderer sees it: NULL, text with its UTF-8 decoding if there is one,
  // or binary with the literal of the type decoder if it knows the type.
  datatype Param =
    | Null
    | TextParam(utf8: Option<string>, byteCount: nat)
    | BinaryParam(literal: Option<string>, byteCount: nat)

  function PlaceholderLiteral(byteCount: nat): string {
    "'" + ("<binary " + Decimal(byteCount) + " bytes>") + "'"
  }

  function Render(p: Param): string {
    match p
    case Null => "NULL"
    case TextParam(Some(s), _) => "'" + Doubled(s) + "'"
    case TextParam(None, n) => PlaceholderLiteral(n)
    case BinaryParam(Some(literal), _) => literal
    case BinaryParam(None, n) => PlaceholderLiteral(n)
  }

  // Neither empty nor the start of a placeholder or of its number.
  predicate Rendered(v: string) {
    v != "" && v[0] != '$' && !IsDigit(v[0])
  }

  // The type decoders' literals start with a quote, E' or B'.
  predicate DecoderLiteral(v: string) {
    "'" <= v || "E'" <= v || "B'" <= v
  }

  /** One literal per parameter, and what the server reads there: no value exactly for a NULL parameter, the
      text of a text parameter that can be decoded, a note of the length for a parameter that cannot be, and
      otherwise the type decoder's literal. No literal can begin with a placeholder or lengthen one before it. */
  method FormatBindParams(params: seq<Param>) returns (r: seq<string>)
    requires forall p :: p in params && p.BinaryParam? && p.literal.Some? ==> DecoderLiteral(p.literal.value)
    ensures |r| == |params| && forall i :: 0 <= i < |r| ==> r[i] == Render(params[i])
    ensures AllRendered(r)
    ensures forall i :: 0 <= i < |r| ==> (ReadLiteral(r[i]) == NoValue <==> params[i].Null?)
    ensures forall i :: 0 <= i < |r| && params[i].TextParam? && params[i].utf8.Some? ==>
              ReadLiteral(r[i]) == TextValue(params[i].utf8.value)
    ensures forall i :: 0 <= i < |r| && ((params[i].TextParam? && params[i].utf8.None?)
                                         || (params[i].BinaryParam? && params[i].literal.None?)) ==>
              ReadLiteral(r[i]) == TextValue("<binary " + Decimal(params[i].byteCount) + " bytes>")
    ensures forall i :: 0 <= i < |r| && params[i].BinaryParam? && params[i].literal.Some? ==>
              r[i] == params[i].literal.value
  {
    hide ReadLiteral, Doubled;
    r := [];
    for i := 0 to |params|
      invariant |r| == i && forall k :: 0 <= k < i ==> r[k] == Render(params[k])
      invariant AllRendered(r)
    {
      assert params[i] in params;
      r := r + [Render(params[i])];
    }
    forall i | 0 <= i < |r| ensures ReadAs(params[i], r[i]) {
      assert params[i] in params;
      RenderedReads(params[i]);
    }
  }

  // How the literal of a parameter should be read.
  predicate ReadAs(p: Param, literal: string) {
    match p
    case Null => ReadLiteral(literal) == NoValue
    case TextParam(Some(s), _) => ReadLiteral(literal) == TextValue(s)
    case BinaryParam(Some(known), _) => literal == known && ReadLiteral(literal) != NoValue
    case _ => ReadLiteral(literal) == TextValue("<binary " + Decimal(p.byteCount) + " bytes>")
  }

  lemma RenderedReads(p: Param)
    requires p.BinaryParam? && p.literal.Some? ==> DecoderLiteral(p.literal.value)
    ensures ReadAs(p, Render(p))
  {
    match p
    case Null =>
    case TextParam(Some(s), _) => DoubledLiteral(s);
    case BinaryParam(Some(known), _) => assert known[0] != "NULL"[0];
    case _ => NoteReads(p.byteCount);
  }

  lemma NoteReads(byteCount: nat)
    ensures ReadLiteral(PlaceholderLiteral(byteCount)) == TextValue("<binary " + Decimal(byteCount) + " bytes>")
  {
    hide ReadLiteral, Doubled, Decimal;
    QuoteFreeParts("<binary ", Decimal(byteCount), " bytes>");
    var note := "<binary " + Decimal(byteCount) + " bytes>";
    QuoteFreeIsDoubled(note);
    DoubledLiteral(note);
  }

  lemma QuoteFreeParts(open: string, digits: string, close: string)
    requires '\'' !in open && '\'' !in close && AllDigits(digits)
    ensures '\'' !in open + digits + close
  {
    assert forall k :: 0 <= k < |digits| ==> digits[k] != '\'';
  }

  /** The server reads the literal of a text parameter as exactly that text. */
  lemma TextLiteralReads(s: string, byteCount: nat, rest: string)
    requires rest == "" || rest[0] != '\''
    ensures var literal := Render(TextParam(Some(s), byteCount));
            literal[0] == '\'' && ReadSqlString(literal[1..] + rest) == Some((s, rest))
  {
    DoubledReads(s, rest);
    BetweenQuotes(Doubled(s), rest);
  }

  // ---- Whole-string replacement ----

  // Every non-overlapping occurrence of pat, leftmost first.
  function ReplaceAll(text: string, pat: string, value: string): string
    requires pat != ""
    decreases |text|
  {
    if text == "" then ""
    else if pat <= text then value + ReplaceAll(text[|pat|..], pat, value)
    else [text[0]] + ReplaceAll(text[1..], pat, value)
  }

  function Placeholder(i: nat): string {
    "$" + Decimal(i)
  }

  // Replaces the placeholders hi, hi - 1, ..., lo + 1, one whole-string replacement each.
  function Down(text: string, params: seq<string>, hi: nat, lo: nat): string
    requires lo <= hi <= |params|
    decreases hi
  {
    if hi == lo then text
    else Down(ReplaceAll(text, Placeholder(hi), params[hi - 1]), params, hi - 1, lo)
  }

  /** Replaces $n, ..., $1 in the text, highest number first. */
  method InlineBindParams(sql: string, params: seq<string>) returns (result: string)
    ensures result == Down(sql, params, |params|, 0)
  {
    result := sql;
    var i := |params|;
    while i > 0
      invariant 0 <= i <= |params|
      invariant Down(sql, params, |params|, 0) == Down(result, params, i, 0)
    {
      result := ReplaceAll(result, Placeholder(i), params[i - 1]);
      i := i - 1;
    }
  }

  // ---- What inlining is for: substituting all placeholders at once ----

  // The parameter that a run of digits after '$' names.
  function Index(digits: string, n: nat): Option<nat>
    requires AllDigits(digits)
  {
    if digits != "" && digits[0] != '0' && Value(digits) <= n then Some(Value(digits)) else None
  }

  // The digits that follow the '$' at the start of the text.
  function Run(text: string): (d: string)
    requires text != ""
    ensures AllDigits(d) && 1 + |d| <= |text| && text[1..1 + |d|] == d
    ensures 1 + |d| < |text| ==> !IsDigit(text[1 + |d|])
  {
    text[1..][..DigitRun(text[1..])]
  }

  // One left-to-right pass; inserted values are not looked at again.
  function Simultaneous(text: string, params: seq<string>): string
    decreases |text|
  {
    if text == "" then ""
    else if text[0] != '$' then [text[0]] + Simultaneous(text[1..], params)
    else
      var d := Run(text);
      (match Index(d, |params|) case Some(k) => (if k > 0 then params[k - 1] else "") case None => "$" + d)
      + Simultaneous(text[1 + |d|..], params)
  }

  predicate Occurs(pat: string, text: string) {
    pat <= text || (text != "" && Occurs(pat, text[1..]))
  }

  // No occurrence of a placeholder with number lo + 1, ..., hi.
  ghost predicate Free(text: string, hi: nat, lo: nat) {
    forall j: nat :: lo < j <= hi ==> !Occurs(Placeholder(j), text)
  }

  // The template's '$' runs are parameters, or have no parameter's number as a prefix; and the value
  // of each parameter used is free of the placeholders that are replaced after it.
  ghost predicate Safe(text: string, params: seq<string>)
    decreases |text|
  {
    text == "" ||
    (if text[0] != '$' then Safe(text[1..], params)
     else
       var d := Run(text);
       && Safe(text[1 + |d|..], params)
       && match Index(d, |params|)
          case Some(k) => k > 0 && Free(params[k - 1], k - 1, 0)
          case None => Free("$" + d, |params|, 0))
  }

  // ---- Replacement and concatenation ----

  predicate NoDigitStart(s: string) {
    s == "" || !IsDigit(s[0])
  }

  predicate AllRendered(params: seq<string>) {
    forall i :: 0 <= i < |params| ==> Rendered(params[i])
  }

  lemma PlaceholderShape(i: nat)
    ensures var p := Placeholder(i); p[0] == '$' && |p| >= 2 && forall k :: 1 <= k < |p| ==> IsDigit(p[k])
  {
  }

  lemma PrefixShort(p: string, w: string, z: string)
    requires |p| <= |w|
    ensures p <= w + z <==> p <= w
  {
    assert (w + z)[..|p|] == w[..|p|];
  }

  // A text that starts with no digit cannot complete a placeholder begun in w.
  lemma ReplaceConcat(w: string, z: string, i: nat, value: string)
    requires !Occurs(Placeholder(i), w) && NoDigitStart(z)
    ensures ReplaceAll(w + z, Placeholder(i), value) == w + ReplaceAll(z, Placeholder(i), value)
    decreases |w|
  {
    var pat := Placeholder(i);
    if w == "" {
      assert w + z == z;
    } else {
      assert !(pat <= w + z) by {
        PlaceholderShape(i);
        if |pat| <= |w| {
          PrefixShort(pat, w, z);
        } else if z != "" {
          assert (w + z)[|w|] == z[0];
        }
      }
      assert (w + z)[1..] == w[1..] + z;
      ReplaceConcat(w[1..], z, i, value);
    }
  }

  lemma ReplaceStart(z: string, i: nat, value: string)
    requires NoDigitStart(z) && Rendered(value)
    ensures NoDigitStart(ReplaceAll(z, Placeholder(i), value))
  {
  }

  lemma {:induction false} DownConcat(w: string, z: string, params: seq<string>, hi: nat, lo: nat)
    requires lo <= hi <= |params| && AllRendered(params)
    requires Free(w, hi, lo) && NoDigitStart(z)
    ensures Down(w + z, params, hi, lo) == w + Down(z, params, hi, lo)
    ensures NoDigitStart(Down(z, params, hi, lo))
    decreases hi
  {
    if lo < hi {
      var value := params[hi - 1];
      ReplaceConcat(w, z, hi, value);
      ReplaceStart(z, hi, value);
      DownConcat(w, ReplaceAll(z, Placeholder(hi), value), params, hi - 1, lo);
    }
  }

  // A first character that is not '$' is never touched.
  lemma {:induction false} DownChar(c: char, z: string, params: seq<string>, hi: nat, lo: nat)
    requires lo <= hi <= |params| && c != '$'
    ensures Down([c] + z, params, hi, lo) == [c] + Down(z, params, hi, lo)
    decreases hi
  {
    if lo < hi {
      var pat := Placeholder(hi);
      assert !(pat <= [c] + z) by { PlaceholderShape(hi); assert ([c] + z)[0] == c; }
      assert ([c] + z)[1..] == z;
      DownChar(c, ReplaceAll(z, pat, params[hi - 1]), params, hi - 1, lo);
    }
  }

  lemma DownSplit(text: string, params: seq<string>, hi: nat, mid: nat, lo: nat)
    requires lo <= mid <= hi <= |params|
    ensures Down(text, params, hi, lo) == Down(Down(text, params, hi, mid), params, mid, lo)
    decreases hi
  {
    if hi > mid {
      DownSplit(ReplaceAll(text, Placeholder(hi), params[hi - 1]), params, hi - 1, mid, lo);
    }
  }

  lemma ReplaceHead(pat: string, z: string, value: string)
    requires pat != ""
    ensures ReplaceAll(pat + z, pat, value) == value + ReplaceAll(z, pat, value)
  {
    assert (pat + z)[|pat|..] == z;
    assert (pat + z)[..|pat|] == pat;
  }

  // A placeholder at the start of the text is replaced sooner or later: its '$' disappears.
  lemma {:induction false} HitChangesHead(z: string, params: seq<string>, hi: nat, j: nat)
    requires 0 < j <= hi <= |params| && AllRendered(params) && Placeholder(j) <= z
    ensures Down(z, params, hi, 0) != "" && Down(z, params, hi, 0)[0] != '$'
    decreases hi
  {
    var pat, value := Placeholder(hi), params[hi - 1];
    var z' := ReplaceAll(z, pat, value);
    if pat <= z {
      assert z'[0] == value[0] && z' == [z'[0]] + z'[1..];
      DownChar(z'[0], z'[1..], params, hi - 1, 0);
    } else {
      var p := Placeholder(j);
      assert z == p + z[|p|..];
      PassesDigits(p, z[|p|..], 0, hi, value);
      HitChangesHead(z', params, hi - 1, j);
    }
  }

  // Replacing another placeholder leaves the characters of p in front.
  lemma PassesDigits(p: string, rest: string, k: nat, hi: nat, value: string)
    requires k < |p| && (forall i :: 1 <= i < |p| ==> IsDigit(p[i]))
    requires k == 0 ==> !(Placeholder(hi) <= p + rest)
    ensures p[k..] <= ReplaceAll(p[k..] + rest, Placeholder(hi), value)
    decreases |p| - k
  {
    var text := p[k..] + rest;
    assert !(Placeholder(hi) <= text) by {
      PlaceholderShape(hi);
      if k > 0 { assert text[0] == p[k]; } else { assert p[0..] == p; }
    }
    assert text[0] == p[k];
    if k + 1 < |p| {
      PassesDigits(p, rest, k + 1, hi, value);
      assert text[1..] == p[k + 1..] + rest;
      assert p[k..] == [p[k]] + p[k + 1..];
    }
  }

  // ---- Numbers that are prefixes of numbers ----

  lemma PrefixIsSmaller(a: string, b: string)
    requires AllDigits(a) && AllDigits(b) && a <= b
    ensures Value(a) <= Value(b)
  {
    if |a| < |b| {
      var n := |b| - 1;
      assert b[..n][..|a|] == a;
      PrefixIsSmaller(a, b[..n]);
    } else {
      assert a == b;
    }
  }

  // Inside "$d" a placeholder can only start at the '$'.
  lemma OccursInRun(d: string, j: nat)
    requires AllDigits(d)
    ensures Occurs(Placeholder(j), "$" + d) <==> Decimal(j) <= d
  {
    var pat := Placeholder(j);
    assert ("$" + d)[1..] == d;
    NotInDigits(d, j);
    if pat <= "$" + d {
      assert Decimal(j) == pat[1..] == ("$" + d)[..|pat|][1..] == d[..|pat| - 1];
    }
    if Decimal(j) <= d {
      assert pat == ("$" + d)[..|pat|];
    }
  }

  lemma NotInDigits(d: string, j: nat)
    requires AllDigits(d)
    ensures !Occurs(Placeholder(j), d)
  {
    PlaceholderShape(j);
    if d != "" {
      assert AllDigits(d[1..]) && IsDigit(d[0]);
      NotInDigits(d[1..], j);
    }
  }

  // The run of parameter k contains no placeholder with a higher number.
  lemma OwnRunIsFree(d: string, k: nat, n: nat)
    requires AllDigits(d) && Index(d, n) == Some(k)
    ensures d == Decimal(k) && 0 < k <= n && Free("$" + d, n, k)
  {
    DecimalOfValue(d);
    forall j: nat | k < j <= n ensures !Occurs(Placeholder(j), "$" + d) {
      OccursInRun(d, j);
      if Decimal(j) <= d {
        PrefixIsSmaller(Decimal(j), d);
        ValueOfDecimal(j);
        assert false;
      }
    }
  }

  // ---- The first occurrence in a value ----

  // The leftmost position at which one of the placeholders 1..hi occurs.
  lemma FirstHit(v: string, hi: nat) returns (p: nat, j: nat)
    requires !Free(v, hi, 0)
    ensures p < |v| && v[p] == '$' && Free(v[..p], hi, 0)
    ensures 0 < j <= hi && Placeholder(j) <= v[p..]
    decreases |v|
  {
    if exists i: nat :: 0 < i <= hi && Placeholder(i) <= v {
      j :| 0 < j <= hi && Placeholder(j) <= v;
      PlaceholderShape(j);
      p := 0;
      assert v[0..] == v && v[..0] == "";
      EmptyIsFree(hi);
    } else {
      var i: nat :| 0 < i <= hi && Occurs(Placeholder(i), v);
      assert Occurs(Placeholder(i), v[1..]);
      var q;
      q, j := FirstHit(v[1..], hi);
      p := q + 1;
      assert v[p..] == v[1..][q..];
      forall m: nat | 0 < m <= hi ensures !Occurs(Placeholder(m), v[..p]) {
        assert v[..p][1..] == v[1..][..q];
        if |Placeholder(m)| <= p {
          PrefixShort(Placeholder(m), v[..p], v[p..]);
          assert v[..p] + v[p..] == v;
        }
      }
    }
  }

  lemma EmptyIsFree(hi: nat)
    ensures Free("", hi, 0)
  {
    forall m: nat | 0 < m <= hi ensures !Occurs(Placeholder(m), "") {
      PlaceholderShape(m);
    }
  }

  // ---- One run of the template ----

  // Replacing in "$d" + rest when d names parameter k.
  lemma DownParameter(d: string, rest: string, params: seq<string>, k: nat)
    requires AllDigits(d) && Index(d, |params|) == Some(k) && AllRendered(params) && NoDigitStart(rest)
    ensures 0 < k <= |params|
    ensures Down("$" + d + rest, params, |params|, 0)
         == Down(params[k - 1] + Down(rest, params, |params|, k - 1), params, k - 1, 0)
    ensures NoDigitStart(Down(rest, params, |params|, k - 1))
  {
    var n := |params|;
    OwnRunIsFree(d, k, n);
    DownSplit("$" + d + rest, params, n, k, 0);
    DownConcat("$" + d, rest, params, n, k);
    var rest' := Down(rest, params, n, k);
    ReplaceHead("$" + d, rest', params[k - 1]);
    DownSplit(rest, params, n, k, k - 1);
    assert Down(rest, params, n, k - 1) == ReplaceAll(rest', Placeholder(k), params[k - 1]);
    ReplaceStart(rest', k, params[k - 1]);
  }

  // A value with a hit shows: after the hit-free part before it, '$' has given way.
  lemma DownHitValue(v: string, rest: string, params: seq<string>, hi: nat, tail: string)
    requires hi <= |params| && AllRendered(params) && !Free(v, hi, 0)
    ensures Down(v + rest, params, hi, 0) != v + tail
  {
    var p, j := FirstHit(v, hi);
    var z := v[p..] + rest;
    assert v + rest == v[..p] + z;
    assert z[0] == '$';
    assert Placeholder(j) <= z by { assert v[p..][..|Placeholder(j)|] == z[..|Placeholder(j)|]; }
    DownConcat(v[..p], z, params, hi, 0);
    HitChangesHead(z, params, hi, j);
    assert (v + tail)[p] == '$';
    assert (v[..p] + Down(z, params, hi, 0))[p] == Down(z, params, hi, 0)[0];
  }

  lemma NonParameterHit(d: string, rest: string, params: seq<string>, tail: string)
    requires AllDigits(d) && AllRendered(params) && !Free("$" + d, |params|, 0)
    ensures Down("$" + d + rest, params, |params|, 0) != "$" + d + tail
  {
    var j: nat :| 0 < j <= |params| && Occurs(Placeholder(j), "$" + d);
    OccursInRun(d, j);
    var z := "$" + d + rest;
    assert Placeholder(j) <= z by { assert z[1..][..|Decimal(j)|] == d[..|Decimal(j)|]; }
    HitChangesHead(z, params, |params|, j);
    assert ("$" + d + tail)[0] == '$';
  }

  // The two cases of "$d" + rest, given the text that follows the run.
  lemma ParameterCase(d: string, rest: string, params: seq<string>, k: nat, tail: string)
    requires AllDigits(d) && Index(d, |params|) == Some(k) && AllRendered(params) && NoDigitStart(rest)
    ensures 0 < k <= |params|
    ensures Free(params[k - 1], k - 1, 0) ==>
      (Down("$" + d + rest, params, |params|, 0) == params[k - 1] + tail <==> Down(rest, params, |params|, 0) == tail)
    ensures !Free(params[k - 1], k - 1, 0) ==> Down("$" + d + rest, params, |params|, 0) != params[k - 1] + tail
  {
    DownParameter(d, rest, params, k);
    var v, rest' := params[k - 1], Down(rest, params, |params|, k - 1);
    if Free(v, k - 1, 0) {
      DownSplit(rest, params, |params|, k - 1, 0);
      DownConcat(v, rest', params, k - 1, 0);
      SamePrefix(v, Down(rest, params, |params|, 0), tail);
    } else {
      DownHitValue(v, rest', params, k - 1, tail);
    }
  }

  lemma NonParameterCase(d: string, rest: string, params: seq<string>, tail: string)
    requires AllDigits(d) && AllRendered(params) && NoDigitStart(rest)
    ensures Free("$" + d, |params|, 0) ==>
      (Down("$" + d + rest, params, |params|, 0) == "$" + d + tail <==> Down(rest, params, |params|, 0) == tail)
    ensures !Free("$" + d, |params|, 0) ==> Down("$" + d + rest, params, |params|, 0) != "$" + d + tail
  {
    if Free("$" + d, |params|, 0) {
      DownConcat("$" + d, rest, params, |params|, 0);
      SamePrefix("$" + d, Down(rest, params, |params|, 0), tail);
    } else {
      NonParameterHit(d, rest, params, tail);
    }
  }

  lemma RunUnfolds(sql: string, params: seq<string>, d: string, rest: string, tail: string)
    requires sql != "" && sql[0] == '$' && d == Run(sql) && rest == sql[1 + |d|..]
    requires tail == Simultaneous(rest, params)
    ensures match Index(d, |params|)
            case Some(k) =>
              && Simultaneous(sql, params) == (if k > 0 then params[k - 1] else "") + tail
              && (Safe(sql, params) <==> Safe(rest, params) && k > 0 && Free(params[k - 1], k - 1, 0))
            case None =>
              && Simultaneous(sql, params) == "$" + d + tail
              && (Safe(sql, params) <==> Safe(rest, params) && Free("$" + d, |params|, 0))
  {
  }

  // The case of a '$' at the start of the text, given the result for what follows its run.
  lemma RunCase(sql: string, params: seq<string>, d: string, rest: string)
    requires AllRendered(params) && sql != "" && sql[0] == '$'
    requires d == Run(sql) && rest == sql[1 + |d|..]
    requires Down(rest, params, |params|, 0) == Simultaneous(rest, params) <==> Safe(rest, params)
    ensures Down(sql, params, |params|, 0) == Simultaneous(sql, params) <==> Safe(sql, params)
  {
    hide Down, Simultaneous, Safe, Free, Index, Run;
    assert sql == "$" + d + rest && NoDigitStart(rest);
    var tail := Simultaneous(rest, params);
    RunUnfolds(sql, params, d, rest, tail);
    match Index(d, |params|)
    case Some(k) => ParameterCase(d, rest, params, k, tail);
    case None => NonParameterCase(d, rest, params, tail);
  }

  lemma SamePrefix(w: string, a: string, b: string)
    ensures w + a == w + b <==> a == b
  {
    if w + a == w + b {
      assert a == (w + a)[|w|..] == (w + b)[|w|..] == b;
    }
  }

  /** Replacing the placeholders one after the other gives the simultaneous substitution exactly for
      safe inputs: no placeholder number is the prefix of a '$' run that is no parameter, and no used
      value contains a placeholder with a lower number than its own. */
  lemma {:induction false} InliningExactIffSafe(sql: string, params: seq<string>)
    requires AllRendered(params)
    ensures Down(sql, params, |params|, 0) == Simultaneous(sql, params) <==> Safe(sql, params)
    decreases |sql|
  {
    var n := |params|;
    if sql == "" {
      DownEmpty(params, n);
    } else if sql[0] != '$' {
      InliningExactIffSafe(sql[1..], params);
      assert sql == [sql[0]] + sql[1..];
      DownChar(sql[0], sql[1..], params, n, 0);
      SamePrefix([sql[0]], Down(sql[1..], params, n, 0), Simultaneous(sql[1..], params));
    } else {
      InliningExactIffSafe(sql[1 + |Run(sql)|..], params);
      RunCase(sql, params, Run(sql), sql[1 + |Run(sql)|..]);
    }
  }

  lemma DownEmpty(params: seq<string>, n: nat)
    requires n <= |params|
    ensures Down("", params, n, 0) == ""
  {
  }

  // Every '$' run of the template is the number of a parameter.
  predicate AllParameters(text: string, n: nat)
    decreases |text|
  {
    text == "" ||
    (if text[0] != '$' then AllParameters(text[1..], n)
     else Index(Run(text), n).Some? && AllParameters(text[1 + |Run(text)|..], n))
  }

  /** In particular it does when the template only uses its parameters and no value contains '$'. */
  lemma {:induction false} DollarFreeIsSafe(sql: string, params: seq<string>)
    requires AllParameters(sql, |params|)
    requires forall i :: 0 <= i < |params| ==> '$' !in params[i]
    ensures Safe(sql, params)
    decreases |sql|
  {
    if sql == "" {
    } else {
      if sql[0] != '$' {
        DollarFreeIsSafe(sql[1..], params);
      } else {
        var d := Run(sql);
        var k := Index(d, |params|).value;
        DollarFreeIsSafe(sql[1 + |d|..], params);
        DecimalOfValue(d);
        forall j: nat | 0 < j <= k - 1 ensures !Occurs(Placeholder(j), params[k - 1]) {
          NoDollarNoPlaceholder(params[k - 1], j);
        }
      }
    }
  }

  lemma NoDollarNoPlaceholder(v: string, j: nat)
    requires '$' !in v
    ensures !Occurs(Placeholder(j), v)
  {
    PlaceholderShape(j);
    if v != "" {
      assert v[0] in v;
      NoDollarNoPlaceholder(v[1..], j);
    }
  }

  /** Why safety is needed: the text '$1' bound to $2 is rewritten by the replacement of $1. */
  lemma InsertedTextIsScannedAgain(a: string)
    requires Rendered(a)
    ensures Down("$2", [a, "'$1'"], 2, 0) == "'" + a + "'"
    ensures Simultaneous("$2", [a, "'$1'"]) == "'$1'"
    ensures !Safe("$2", [a, "'$1'"])
  {
    var params := [a, "'$1'"];
    assert Decimal(2) == "2" && Decimal(1) == "1";
    assert Placeholder(2) == "$2" && Placeholder(1) == "$1";
    assert ReplaceAll("$2", "$2", "'$1'") == "'$1'" by {
      assert "$2"[2..] == "";
    }
    assert ReplaceAll("'$1'", "$1", a) == "'" + a + "'" by {
      assert "'$1'"[1..] == "$1'" && "$1'"[2..] == "'" && "'"[1..] == "";
      assert !("$1" <= "'$1'") && !("$1" <= "'");
    }
    assert Down("'$1'", params, 1, 0) == "'" + a + "'";
    assert Run("$2") == "2" by { assert "$2"[1..] == "2" && DigitRun("2") == 1; }
    assert Value("2") == 2 by { assert "2"[..0] == ""; }
    assert Simultaneous("$2", params) == "'$1'" by { assert "$2"[2..] == ""; }
    InliningExactIffSafe("$2", params);
    assert |a| > 0 && a != "$1";
  }
}
