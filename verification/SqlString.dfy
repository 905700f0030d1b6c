/** SQL string constants with doubled quotes. */
module SqlString {
  import opened Wrappers

  function CharText(c: char): string {
    if c == '\'' then "''" else [c]
  }

  // The text between the quotes of a constant.
  function Doubled(s: string): string {
    if s == "" then "" else CharText(s[0]) + Doubled(s[1..])
  }

  // The rest of a string constant after its opening quote: its text and what follows the closing quote.
  function ReadSqlString(s: string): (r: Option<(string, string)>) {
    if s == "" then None
    else if s[0] == '\'' && (|s| == 1 || s[1] != '\'') then Some(("", s[1..]))
    else
      match ReadSqlString(s[if s[0] == '\'' then 2 else 1..])
      case None => None
      case Some((text, rest)) => Some(([s[0]] + text, rest))
  }

  // What the server takes a whole literal for: no value for the keyword NULL, the text of a string constant,
  // or something else.
  datatype Reading = NoValue | TextValue(text: string) | OtherLiteral

  function ReadLiteral(literal: string): Reading {
    if literal == "NULL" then NoValue
    else if literal == "" || literal[0] != '\'' then OtherLiteral
    else
      match ReadSqlString(literal[1..])
      case Some((text, rest)) => if rest == "" then TextValue(text) else OtherLiteral
      case None => OtherLiteral
  }

  function Quotes(s: string): nat {
    if s == "" then 0 else (if s[0] == '\'' then 1 else 0) + Quotes(s[1..])
  }

  // Every quote in the text of a string constant is written twice.
  lemma {:induction false} QuotesAreDoubled(s: string)
    ensures match ReadSqlString(s)
            case None => true
            case Some((text, rest)) => |s| == |text| + Quotes(text) + 1 + |rest|
  {
    if s != "" && !(s[0] == '\'' && (|s| == 1 || s[1] != '\'')) {
      QuotesAreDoubled(s[if s[0] == '\'' then 2 else 1..]);
      if ReadSqlString(s).Some? {
        var (text, rest) := ReadSqlString(s).value;
        assert text[0] == s[0];
      }
    }
  }

  // Reading a constant leaves one quote of two, and none of what follows it is lost.
  lemma {:induction false} QuotesAreHalved(s: string)
    ensures ReadSqlString(s).Some? ==>
              Quotes(s) == 2 * Quotes(ReadSqlString(s).value.0) + 1 + Quotes(ReadSqlString(s).value.1)
  {
    if s == "" {
    } else if s[0] == '\'' {
      if |s| > 1 && s[1] == '\'' {
        QuotesAreHalved(s[2..]);
        assert s[1..][1..] == s[2..];
      }
    } else {
      QuotesAreHalved(s[1..]);
    }
  }

  lemma {:induction false} QuotesConcat(a: string, b: string)
    ensures Quotes(a + b) == Quotes(a) + Quotes(b)
  {
    if a == "" {
      assert a + b == b;
    } else {
      QuotesConcat(a[1..], b);
      assert (a + b)[1..] == a[1..] + b;
    }
  }

  lemma {:induction false} NoQuotes(s: string)
    ensures Quotes(s) == 0 <==> '\'' !in s
  {
    if s == "" {
    } else {
      NoQuotes(s[1..]);
    }
  }

  lemma {:induction false} QuoteFreeReads(body: string, rest: string)
    requires Quotes(body) == 0 && (rest == "" || rest[0] != '\'')
    ensures ReadSqlString(body + "'" + rest) == Some((body, rest))
  {
    var s := body + "'" + rest;
    if body == "" {
      assert s[1..] == rest;
    } else {
      assert s[1..] == body[1..] + "'" + rest;
      QuoteFreeReads(body[1..], rest);
      assert [body[0]] + body[1..] == body;
    }
  }

  lemma CharReads(c: char, s: string, text: string, rest: string)
    requires ReadSqlString(s) == Some((text, rest))
    ensures ReadSqlString(CharText(c) + s) == Some(([c] + text, rest))
  {
    var all := CharText(c) + s;
    assert all[|CharText(c)|..] == s;
  }

  lemma ClosingReads(rest: string)
    requires rest == "" || rest[0] != '\''
    ensures ReadSqlString("'" + rest) == Some(("", rest))
  {
    assert ("'" + rest)[1..] == rest;
  }

  lemma DoubledSplit(s: string, end: string)
    requires s != ""
    ensures Doubled(s) + end == CharText(s[0]) + (Doubled(s[1..]) + end)
  {
  }

  // The text of a constant before what closes it.
  lemma {:induction false} DoubledBefore(s: string, end: string, rest: string)
    requires ReadSqlString(end) == Some(("", rest))
    ensures ReadSqlString(Doubled(s) + end) == Some((s, rest))
  {
    if s == "" {
      assert Doubled(s) + end == end;
    } else {
      var tail := Doubled(s[1..]) + end;
      DoubledBefore(s[1..], end, rest);
      CharReads(s[0], tail, s[1..], rest);
      assert Doubled(s) + end == CharText(s[0]) + tail by { DoubledSplit(s, end); }
      assert [s[0]] + s[1..] == s;
    }
  }

  /** Doubling the quotes is what reading a constant undoes. */
  lemma DoubledReads(s: string, rest: string)
    requires rest == "" || rest[0] != '\''
    ensures ReadSqlString(Doubled(s) + ("'" + rest)) == Some((s, rest))
  {
    ClosingReads(rest);
    DoubledBefore(s, "'" + rest, rest);
  }

  lemma BetweenQuotes(s: string, rest: string)
    ensures ("'" + s + "'")[1..] + rest == s + ("'" + rest)
    ensures ("'" + s + "'")[0] == '\'' && ("'" + s + "'") != "NULL"
  {
  }

  /** As a literal of its own, doubled quotes and all. */
  lemma DoubledLiteral(s: string)
    ensures ReadLiteral("'" + Doubled(s) + "'") == TextValue(s)
  {
    DoubledReads(s, "");
    BetweenQuotes(Doubled(s), "");
    assert ("'" + Doubled(s) + "'")[1..] + "" == ("'" + Doubled(s) + "'")[1..];
  }

  lemma QuoteFreeIsDoubled(s: string)
    requires '\'' !in s
    ensures Doubled(s) == s
  {
    if s != "" { QuoteFreeIsDoubled(s[1..]); }
  }
}
