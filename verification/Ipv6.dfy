/** Text of IPv6 addresses (src/proxy/pg_binary.rs, compress_ipv6), by sections 4.2.1 to 4.2.3 of RFC 5952. */
module Ipv6 {
  import opened Wrappers
  import opened Text

  type Group = g: int | 0 <= g < 0x1_0000

  // ---- hexadecimal ----

  predicate IsHexDigit(c: char) {
    '0' <= c <= '9' || 'a' <= c <= 'f'
  }

  function HexDigit(n: nat): (c: char)
    requires n < 16
    ensures IsHexDigit(c)
  {
    if n < 10 then ('0' as int + n) as char else ('a' as int + n - 10) as char
  }

  function HexDigitValue(c: char): (n: nat)
    requires IsHexDigit(c)
    ensures n < 16
  {
    if c <= '9' then c as int - '0' as int else c as int - 'a' as int + 10
  }

  // The shortest lower-case hexadecimal numeral.
  function Hex(n: nat): (s: string)
    ensures s != "" && IsHex(s)
    ensures n > 0 ==> s[0] != '0'
  {
    if n < 16 then [HexDigit(n)] else Hex(n / 16) + [HexDigit(n % 16)]
  }

  predicate IsHex(s: string) {
    forall i :: 0 <= i < |s| ==> IsHexDigit(s[i])
  }

  function HexValue(s: string): nat
    requires IsHex(s)
  {
    if s == "" then 0 else HexValue(s[..|s| - 1]) * 16 + HexDigitValue(s[|s| - 1])
  }

  lemma {:induction false} HexReads(n: nat)
    ensures HexValue(Hex(n)) == n
  {
    if n >= 16 {
      HexReads(n / 16);
      assert Hex(n)[..|Hex(n)| - 1] == Hex(n / 16);
    } else {
      assert Hex(n)[..0] == "";
    }
  }

  // ---- the longest run of zero groups ----

  predicate ZeroRun(groups: seq<Group>, start: nat, len: nat) {
    start + len <= |groups| && forall i :: start <= i < start + len ==> groups[i] == 0
  }

  // The longest run, and the first of the longest ones.
  ghost predicate IsBest(groups: seq<Group>, start: nat, len: nat) {
    ZeroRun(groups, start, len) && BestUpTo(groups, |groups|, start, len)
  }

  // The same for the runs that end at or before `end`.
  ghost predicate BestUpTo(groups: seq<Group>, end: nat, start: nat, len: nat) {
    forall s: nat, n: nat :: ZeroRun(groups, s, n) && s + n <= end ==> n < len || (n == len && start <= s)
  }

  lemma BestIsUnique(groups: seq<Group>, start: nat, len: nat, start': nat, len': nat)
    requires IsBest(groups, start, len) && IsBest(groups, start', len')
    ensures start == start' && len == len'
  {
    assert ZeroRun(groups, start', len') && ZeroRun(groups, start, len);
  }

  function HexAll(groups: seq<Group>): (parts: seq<string>)
    ensures |parts| == |groups|
  {
    seq(|groups|, i requires 0 <= i < |groups| => Hex(groups[i]))
  }

  // A run of two or more groups is replaced by two colons.
  function Render(groups: seq<Group>, start: nat, len: nat): string
    requires start + len <= |groups|
  {
    if len < 2 then Join(HexAll(groups), ':')
    else Join(HexAll(groups[..start]), ':') + "::" + Join(HexAll(groups[start + len..]), ':')
  }

  // The run that ends at the current group is as long as it can be.
  ghost predicate Current(groups: seq<Group>, end: nat, len: nat) {
    && len <= end <= |groups|
    && ZeroRun(groups, end - len, len)
    && (len < end ==> groups[end - len - 1] != 0)
  }

  lemma NextGroup(groups: seq<Group>, end: nat, len: nat, start: nat, best: nat)
    requires Current(groups, end, len) && end < |groups|
    requires ZeroRun(groups, start, best) && start + best <= end && BestUpTo(groups, end, start, best)
    requires len <= best
    ensures groups[end] != 0 ==> Current(groups, end + 1, 0) && BestUpTo(groups, end + 1, start, best)
    ensures groups[end] == 0 && len < best ==>
              Current(groups, end + 1, len + 1) && BestUpTo(groups, end + 1, start, best)
    ensures groups[end] == 0 && len == best ==>
              Current(groups, end + 1, len + 1) && BestUpTo(groups, end + 1, end - len, len + 1)
  {
    forall s: nat, n: nat | ZeroRun(groups, s, n) && s + n == end + 1 && n > 0
      ensures groups[end] == 0 && n <= len + 1
    {
      assert groups[end] == 0;
      LimitedRun(groups, end, len, s);
    }
  }

  lemma LimitedRun(groups: seq<Group>, end: nat, len: nat, s: nat)
    requires Current(groups, end, len) && s <= end < |groups| && ZeroRun(groups, s, end + 1 - s)
    ensures s >= end - len
  {
  }

  /** The search loop and the formatting. */
  method CompressIpv6(groups: seq<Group>) returns (text: string)
    ensures exists start: nat, len: nat :: IsBest(groups, start, len) && text == Render(groups, start, len)
  {
    var bestStart, bestLen: nat, curStart, curLen: nat := 0, 0, 0, 0;
    for i := 0 to |groups|
      invariant Current(groups, i, curLen) && (curLen > 0 ==> curStart == i - curLen)
      invariant ZeroRun(groups, bestStart, bestLen) && bestStart + bestLen <= i
      invariant BestUpTo(groups, i, bestStart, bestLen)
      invariant curLen <= bestLen
    {
      NextGroup(groups, i, curLen, bestStart, bestLen);
      if groups[i] == 0 {
        if curLen == 0 { curStart := i; }
        curLen := curLen + 1;
        if curLen > bestLen {
          bestLen := curLen;
          bestStart := curStart;
        }
      } else {
        curLen := 0;
      }
    }
    assert IsBest(groups, bestStart, bestLen);
    if bestLen < 2 {
      return Join(HexAll(groups), ':');
    }
    var head := HexAll(groups[..bestStart]);
    var tail := HexAll(groups[bestStart + bestLen..]);
    return Join(head, ':') + "::" + Join(tail, ':');
  }

  // ---- reading an address back ----

  // The pieces between the separators.
  function Split(s: string, separator: char): (parts: seq<string>)
    ensures parts != []
  {
    if s == "" then [""]
    else
      var rest := Split(s[1..], separator);
      if s[0] == separator then [""] + rest else [[s[0]] + rest[0]] + rest[1..]
  }

  function ReadGroup(s: string): Option<Group> {
    if s != "" && IsHex(s) && HexValue(s) < 0x1_0000 then Some(HexValue(s)) else None
  }

  function ReadParts(parts: seq<string>): Option<seq<Group>> {
    if parts == [] then Some([])
    else if ReadGroup(parts[0]).None? || ReadParts(parts[1..]).None? then None
    else Some([ReadGroup(parts[0]).value] + ReadParts(parts[1..]).value)
  }

  function ReadGroups(s: string): Option<seq<Group>> {
    if s == "" then Some([]) else ReadParts(Split(s, ':'))
  }

  // The index of the first two colons in a row, or the length.
  function DoubleColon(s: string): (i: nat)
    ensures i <= |s|
    ensures i < |s| ==> i + 2 <= |s|
  {
    if |s| < 2 then |s| else if s[0] == ':' && s[1] == ':' then 0 else 1 + DoubleColon(s[1..])
  }

  /** The n groups that a text stands for: two colons in a row stand for the missing ones, all zero. */
  function Expand(s: string, n: nat): Option<seq<Group>> {
    var i := DoubleColon(s);
    if i == |s| then
      match ReadGroups(s)
      case None => None
      case Some(groups) => if |groups| == n then Some(groups) else None
    else
      match (ReadGroups(s[..i]), ReadGroups(s[i + 2..]))
      case (Some(head), Some(tail)) =>
        if |head| + |tail| < n then Some(head + seq(n - |head| - |tail|, _ => 0) + tail) else None
      case _ => None
  }

  // ---- the round trip ----

  // Nonempty, without colons.
  predicate Word(s: string) {
    s != "" && forall i :: 0 <= i < |s| ==> s[i] != ':'
  }

  /** Groups are written in lower case. */
  lemma LowerCase(n: nat)
    requires n < 16
    ensures Hex(n) == [("0123456789abcdef")[n]]
  {
  }

  /** An example of the whole text: the zero groups give way to two colons. */
  lemma SampleAddress()
    ensures var groups: seq<Group> := [0xfe, 0, 0, 1];
            IsBest(groups, 1, 2) && Render(groups, 1, 2) == "fe::1"
  {
    var groups: seq<Group> := [0xfe, 0, 0, 1];
    forall s: nat, n: nat | ZeroRun(groups, s, n) && s + n <= 4 ensures n < 2 || (n == 2 && 1 <= s) {
      if n > 0 { assert groups[s] == 0 && groups[s + n - 1] == 0; }
    }
    assert Hex(0xf) == "f" && Hex(0xfe) == "fe" && Hex(1) == "1";
    assert HexAll(groups[..1]) == ["fe"] && HexAll(groups[3..]) == ["1"];
  }

  lemma HexIsWord(n: nat)
    ensures Word(Hex(n))
  {
    forall i | 0 <= i < |Hex(n)| ensures Hex(n)[i] != ':' {
      assert IsHexDigit(Hex(n)[i]);
    }
  }

  lemma {:induction false} SplitWord(w: string, rest: string)
    requires forall i :: 0 <= i < |w| ==> w[i] != ':'
    requires rest == "" || rest[0] == ':'
    ensures Split(w + rest, ':') == [w] + if rest == "" then [] else Split(rest[1..], ':')
  {
    if w == "" {
      assert w + rest == rest;
    } else {
      assert (w + rest)[1..] == w[1..] + rest;
      SplitWord(w[1..], rest);
      assert [w[0]] + w[1..] == w;
    }
  }

  lemma {:induction false} SplitJoined(parts: seq<string>)
    requires parts != [] && forall i :: 0 <= i < |parts| ==> Word(parts[i])
    ensures Split(Join(parts, ':'), ':') == parts
  {
    assert Word(parts[0]);
    if |parts| == 1 {
      SplitWord(parts[0], "");
      assert parts[0] + "" == parts[0];
    } else {
      SplitJoined(parts[1..]);
      var rest := ":" + Join(parts[1..], ':');
      assert Join(parts, ':') == parts[0] + rest;
      assert rest[1..] == Join(parts[1..], ':');
      SplitWord(parts[0], rest);
    }
  }

  lemma {:induction false} HexPartsRead(groups: seq<Group>)
    ensures ReadParts(HexAll(groups)) == Some(groups)
  {
    if groups == [] {
    } else {
      HexReads(groups[0]);
      HexPartsRead(groups[1..]);
      assert HexAll(groups)[1..] == HexAll(groups[1..]);
      assert groups == [groups[0]] + groups[1..];
    }
  }

  lemma JoinedGroupsRead(groups: seq<Group>)
    ensures ReadGroups(Join(HexAll(groups), ':')) == Some(groups)
  {
    if groups != [] {
      forall i | 0 <= i < |groups| ensures Word(HexAll(groups)[i]) { HexIsWord(groups[i]); }
      SplitJoined(HexAll(groups));
      HexPartsRead(groups);
      JoinedStart(groups);
    }
  }

  // No two colons in a row, none at the start and none at the end.
  predicate Gapless(s: string) {
    && (s != "" ==> s[0] != ':' && s[|s| - 1] != ':')
    && forall i :: 0 < i < |s| ==> s[i - 1] != ':' || s[i] != ':'
  }

  lemma {:induction false} JoinedStart(groups: seq<Group>)
    ensures Gapless(Join(HexAll(groups), ':'))
    ensures groups != [] ==> Join(HexAll(groups), ':') != ""
  {
    if groups == [] {
    } else {
      var parts := HexAll(groups);
      HexIsWord(groups[0]);
      if |groups| > 1 {
        JoinedStart(groups[1..]);
        assert parts[1..] == HexAll(groups[1..]);
      }
    }
  }

  lemma {:induction false} NoDouble(s: string)
    requires forall i :: 0 < i < |s| ==> s[i - 1] != ':' || s[i] != ':'
    ensures DoubleColon(s) == |s|
  {
    if |s| >= 2 {
      assert s[1 - 1] != ':' || s[1] != ':';
      forall i | 0 < i < |s[1..]| ensures s[1..][i - 1] != ':' || s[1..][i] != ':' {
        assert s[i + 1 - 1] != ':' || s[i + 1] != ':';
      }
      NoDouble(s[1..]);
    }
  }

  lemma {:induction false} DoubleAfter(a: string, b: string)
    requires a != "" ==> a[|a| - 1] != ':'
    requires forall i :: 0 < i < |a| ==> a[i - 1] != ':' || a[i] != ':'
    ensures DoubleColon(a + "::" + b) == |a|
  {
    if a == "" {
    } else {
      var s := a + "::" + b;
      assert s[1..] == a[1..] + "::" + b;
      if |a| > 1 { assert a[1 - 1] != ':' || a[1] != ':'; }
      forall i | 0 < i < |a[1..]| ensures a[1..][i - 1] != ':' || a[1..][i] != ':' {
        assert a[i + 1 - 1] != ':' || a[i + 1] != ':';
      }
      DoubleAfter(a[1..], b);
    }
  }

  // A compressed text: what stands before and behind the two colons, zeros in between.
  lemma CompressedReads(head: seq<Group>, tail: seq<Group>, n: nat)
    requires |head| + |tail| < n
    ensures var text := Join(HexAll(head), ':') + "::" + Join(HexAll(tail), ':');
            && DoubleColon(text) < |text|
            && Expand(text, n) == Some(head + seq(n - |head| - |tail|, _ => 0) + tail)
  {
    var a, b := Join(HexAll(head), ':'), Join(HexAll(tail), ':');
    var text := a + "::" + b;
    JoinedStart(head);
    DoubleAfter(a, b);
    JoinedGroupsRead(head);
    JoinedGroupsRead(tail);
    assert text[..|a|] == a && text[|a| + 2..] == b;
  }

  lemma PlainReads(groups: seq<Group>)
    ensures var text := Join(HexAll(groups), ':');
            DoubleColon(text) == |text| && Expand(text, |groups|) == Some(groups)
  {
    JoinedStart(groups);
    NoDouble(Join(HexAll(groups), ':'));
    JoinedGroupsRead(groups);
  }

  ghost predicate TwoZeros(groups: seq<Group>) {
    exists i :: 0 < i < |groups| && groups[i - 1] == 0 && groups[i] == 0
  }

  lemma TwoZerosIffLongRun(groups: seq<Group>, start: nat, len: nat)
    requires IsBest(groups, start, len)
    ensures TwoZeros(groups) <==> len >= 2
  {
    if TwoZeros(groups) {
      var i :| 0 < i < |groups| && groups[i - 1] == 0 && groups[i] == 0;
      assert ZeroRun(groups, i - 1, 2);
    }
    if len >= 2 { assert groups[start + 1 - 1] == 0 && groups[start + 1] == 0; }
  }

  /** The text stands for exactly the groups it was made from, and it has two colons in a row exactly
      if there are two zero groups in a row. */
  lemma CompressedExpands(groups: seq<Group>, start: nat, len: nat)
    requires IsBest(groups, start, len)
    ensures var text := Render(groups, start, len);
            && Expand(text, |groups|) == Some(groups)
            && (DoubleColon(text) < |text| <==> TwoZeros(groups))
  {
    TwoZerosIffLongRun(groups, start, len);
    if len < 2 {
      PlainReads(groups);
    } else {
      CompressedReads(groups[..start], groups[start + len..], |groups|);
      assert groups == groups[..start] + seq(len, _ => 0) + groups[start + len..];
    }
  }
}
