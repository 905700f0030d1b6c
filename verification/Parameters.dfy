/** Parameter lists in PostgreSQL's CSV log, such as "Parameters: $1 = 'a', $2 = NULL"
    (src/capture/csv_log.rs, parse_parameters). */
module Parameters {
  import opened SqlString
  import opened Wrappers
  import opened Text

  // ---- trimming ----

  function TrimStart(s: string): (r: string)
    ensures |r| <= |s|
  {
    if s != "" && IsWhitespace(s[0]) then TrimStart(s[1..]) else s
  }

  function TrimEnd(s: string): (r: string)
    ensures |r| <= |s|
  {
    if s != "" && IsWhitespace(s[|s| - 1]) then TrimEnd(s[..|s| - 1]) else s
  }

  function Trim(s: string): string {
    TrimEnd(TrimStart(s))
  }

  // Without whitespace at its ends.
  predicate Tight(s: string) {
    s != "" && !IsWhitespace(s[0]) && !IsWhitespace(s[|s| - 1])
  }

  // ---- the parser ----

  const PREFIX: string := "Parameters:"
  const USIZE_LIMIT: nat := 0x1_0000_0000_0000_0000

  // The entries between commas outside of quotes; `current` is the part of an entry already seen.
  function Entries(chars: string, inQuote: bool, current: string): seq<string> {
    if chars == "" then if Trim(current) == "" then [] else [Trim(current)]
    else if chars[0] == '\'' && !inQuote then Entries(chars[1..], true, current + "'")
    else if chars[0] == '\'' then
      if |chars| > 1 && chars[1] == '\'' then Entries(chars[2..], true, current + "''")
      else Entries(chars[1..], false, current + "'")
    else if chars[0] == ',' && !inQuote then [Trim(current)] + Entries(chars[1..], false, "")
    else Entries(chars[1..], inQuote, current + [chars[0]])
  }

  // The index of the first " = ", or the length.
  function FindEquals(s: string): (i: nat)
    ensures i <= |s| && (i < |s| ==> i + 3 <= |s|)
  {
    if |s| < 3 then |s| else if s[..3] == " = " then 0 else 1 + FindEquals(s[1..])
  }

  // An unsigned 64-bit number, with an optional plus sign.
  function ReadNumber(s: string): Option<nat> {
    var digits := if s != "" && s[0] == '+' then s[1..] else s;
    if digits != "" && AllDigits(digits) && Value(digits) < USIZE_LIMIT then Some(Value(digits)) else None
  }

  function ReadEntry(text: string): Option<(nat, string)> {
    var trimmed := Trim(text);
    var entry := if trimmed != "" && trimmed[0] == '$' then trimmed[1..] else trimmed;
    var i := FindEquals(entry);
    if i == |entry| then None
    else
      match ReadNumber(Trim(entry[..i]))
      case None => None
      case Some(n) => Some((n, Trim(entry[i + 3..])))
  }

  // The entries that can be read; the others are passed over.
  function ReadEntries(entries: seq<string>): seq<(nat, string)> {
    if entries == [] then []
    else Listed(ReadEntry(entries[0])) + ReadEntries(entries[1..])
  }

  function Listed(p: Option<(nat, string)>): seq<(nat, string)> {
    if p.None? then [] else [p.value]
  }

  function Parsed(detail: string): Option<seq<(nat, string)>> {
    var trimmed := Trim(detail);
    if PREFIX <= trimmed then Some(ReadEntries(Entries(Trim(trimmed[|PREFIX|..]), false, ""))) else None
  }

  /** The character loop. */
  method SplitEntries(chars: string) returns (entries: seq<string>)
    ensures entries == Entries(chars, false, "")
  {
    var current, inQuote, i := "", false, 0;
    entries := [];
    while i < |chars|
      invariant 0 <= i <= |chars|
      invariant entries + Entries(chars[i..], inQuote, current) == Entries(chars, false, "")
    {
      ghost var rest := chars[i..];
      assert rest[1..] == chars[i + 1..];
      if chars[i] == '\'' && !inQuote {
        inQuote := true;
        current := current + "'";
      } else if chars[i] == '\'' && inQuote {
        if i + 1 < |chars| && chars[i + 1] == '\'' {
          assert rest[2..] == chars[i + 2..];
          current := current + "''";
          i := i + 2;
          continue;
        }
        inQuote := false;
        current := current + "'";
      } else if chars[i] == ',' && !inQuote {
        assert entries + ([Trim(current)] + Entries(rest[1..], false, ""))
            == entries + [Trim(current)] + Entries(rest[1..], false, "");
        entries := entries + [Trim(current)];
        current := "";
      } else {
        current := current + [chars[i]];
      }
      i := i + 1;
    }
    assert chars[i..] == "";
    if Trim(current) != "" { entries := entries + [Trim(current)]; }
  }

  method ReadAll(entries: seq<string>) returns (params: seq<(nat, string)>)
    ensures params == ReadEntries(entries)
  {
    hide ReadEntry;
    params := [];
    for i := 0 to |entries|
      invariant params + ReadEntries(entries[i..]) == ReadEntries(entries)
    {
      var p := Listed(ReadEntry(entries[i]));
      assert entries[i..][1..] == entries[i + 1..];
      Regroup(params, p, ReadEntries(entries[i + 1..]));
      params := params + p;
    }
    assert entries[|entries|..] == [] && params + [] == params;
  }

  method ParseParameters(detail: string) returns (r: Option<seq<(nat, string)>>)
    ensures r == Parsed(detail)
  {
    var trimmed := Trim(detail);
    if !(PREFIX <= trimmed) { return None; }
    var rest := Trim(trimmed[|PREFIX|..]);
    if rest == "" { return Some([]); }
    var entries := SplitEntries(rest);
    var params := ReadAll(entries);
    return Some(params);
  }

  // ---- the server's line ----

  function Entry(p: (nat, string)): string {
    "$" + Decimal(p.0) + " = " + p.1
  }

  // Entries with a comma and a blank between them.
  function Listing(entries: seq<string>): string {
    if entries == [] then ""
    else if |entries| == 1 then entries[0]
    else entries[0] + ", " + Listing(entries[1..])
  }

  function Line(entries: seq<string>): string {
    "Parameters: " + Listing(entries)
  }

  function Printed(params: seq<(nat, string)>): string {
    Line(AllEntries(params))
  }

  // Whether quotes are open after a text that has no comma outside of them.
  function Scan(s: string, inQuote: bool): Option<bool> {
    if s == "" then Some(inQuote)
    else if s[0] == '\'' && inQuote && |s| > 1 && s[1] == '\'' then Scan(s[2..], true)
    else if s[0] == '\'' then Scan(s[1..], !inQuote)
    else if s[0] == ',' && !inQuote then None
    else Scan(s[1..], inQuote)
  }

  // A value in a list: no commas outside of quotes, every quote closed, no whitespace at the ends.
  predicate Token(v: string) {
    Tight(v) && Scan(v, false) == Some(false)
  }

  // What the parser takes for one entry, whatever is in it.
  predicate Whole(entry: string) {
    Tight(entry) && Scan(entry, false) == Some(false)
  }

  lemma {:induction false} ScanDoubled(s: string)
    ensures Scan(Doubled(s) + "'", true) == Some(false)
  {
    var t := Doubled(s) + "'";
    if s == "" {
      assert t[1..] == "";
    } else if s[0] == '\'' {
      assert t[2..] == Doubled(s[1..]) + "'";
      ScanDoubled(s[1..]);
    } else {
      assert t[1..] == Doubled(s[1..]) + "'";
      ScanDoubled(s[1..]);
    }
  }

  /** Every SQL-quoted string can stand in a list, whatever it contains. */
  lemma QuotedIsToken(s: string)
    ensures Token("'" + Doubled(s) + "'")
  {
    var v := "'" + Doubled(s) + "'";
    assert v[1..] == Doubled(s) + "'";
    ScanDoubled(s);
  }

  lemma {:induction false} PlainScans(s: string)
    requires '\'' !in s && ',' !in s
    ensures Scan(s, false) == Some(false)
  {
    if s == "" {
    } else {
      PlainScans(s[1..]);
    }
  }

  /** So can every other text without quotes and commas. */
  lemma BareIsToken(s: string)
    requires Tight(s) && '\'' !in s && ',' !in s
    ensures Token(s)
  {
    PlainScans(s);
  }

  // ---- the round trip ----

  lemma {:induction false} WalkOver(s: string, inQuote: bool, rest: string, current: string)
    requires Scan(s, inQuote).Some? && (rest == "" || rest[0] != '\'')
    ensures Entries(s + rest, inQuote, current) == Entries(rest, Scan(s, inQuote).value, current + s)
    decreases |s|
  {
    if s == "" {
      assert s + rest == rest && current + s == current;
    } else {
      var k := if s[0] == '\'' && inQuote && |s| > 1 && s[1] == '\'' then 2 else 1;
      assert (s + rest)[k..] == s[k..] + rest;
      assert s[..k] == if k == 2 then "''" else [s[0]];
      assert current + s[..k] + s[k..] == current + s;
      var open := if k == 2 then true else if s[0] == '\'' then !inQuote else inQuote;
      WalkOver(s[k..], open, rest, current + s[..k]);
    }
  }

  lemma TrimTight(s: string)
    requires Tight(s)
    ensures Trim(s) == s && Trim(" " + s) == s
  {
    assert (" " + s)[1..] == s;
  }

  lemma EntryIsTight(p: (nat, string))
    requires Token(p.1)
    ensures Whole(Entry(p))
  {
    var head := "$" + Decimal(p.0) + " = ";
    assert Entry(p) == head + p.1;
    forall i | 0 <= i < |head| ensures head[i] !in {'\'', ','} {
      if 1 <= i <= |Decimal(p.0)| { assert IsDigit(head[i]); }
    }
    ScanAfterPlain(head, p.1);
  }

  lemma {:induction false} ScanAfterPlain(head: string, s: string)
    requires forall i :: 0 <= i < |head| ==> head[i] !in {'\'', ','}
    ensures Scan(head + s, false) == Scan(s, false)
  {
    if head == "" {
      assert head + s == s;
    } else {
      assert (head + s)[1..] == head[1..] + s;
      ScanAfterPlain(head[1..], s);
    }
  }

  lemma {:induction false} EqualsAfter(digits: string, v: string)
    requires AllDigits(digits)
    ensures FindEquals(digits + " = " + v) == |digits|
  {
    var s := digits + " = " + v;
    if digits == "" {
      assert s[..3] == " = ";
    } else {
      assert s[0] == digits[0] && IsDigit(s[0]) && s[..3][0] == s[0];
      assert s[1..] == digits[1..] + " = " + v;
      EqualsAfter(digits[1..], v);
    }
  }

  lemma NumberReads(n: nat)
    ensures ReadNumber(Trim(Decimal(n))) == if n < 0x1_0000_0000_0000_0000 then Some(n) else None
  {
    var digits := Decimal(n);
    assert IsDigit(digits[0]) && IsDigit(digits[|digits| - 1]);
    TrimTight(digits);
    ValueOfDecimal(n);
  }

  lemma EntryReads(p: (nat, string))
    requires Token(p.1)
    ensures ReadEntry(Entry(p)) == if p.0 < 0x1_0000_0000_0000_0000 then Some(p) else None
  {
    hide Tight, Scan, Trim;
    EntryIsTight(p);
    TrimTight(Entry(p));
    var digits := Decimal(p.0);
    var entry := Entry(p)[1..];
    assert entry == digits + " = " + p.1;
    EqualsAfter(digits, p.1);
    assert entry[..|digits|] == digits && entry[|digits| + 3..] == p.1;
    NumberReads(p.0);
    TrimTight(p.1);
  }

  predicate Listable(params: seq<(nat, string)>) {
    forall i :: 0 <= i < |params| ==> Token(params[i].1) && params[i].0 < 0x1_0000_0000_0000_0000
  }

  function AllEntries(params: seq<(nat, string)>): seq<string> {
    seq(|params|, i requires 0 <= i < |params| => Entry(params[i]))
  }

  // The first entry comes out whole, with or without a blank before it.
  lemma FirstEntrySplits(entry: string, blank: string, rest: string)
    requires Whole(entry) && blank in {"", " "}
    requires rest == "" || rest[0] == ','
    ensures Entries(blank + entry + rest, false, "")
         == [entry] + if rest == "" then [] else Entries(rest[1..], false, "")
  {
    var current := blank + entry;
    TrimTight(entry);
    assert Trim(current) == entry by { if blank == "" { assert current == entry; } }
    ScanAfterPlain(blank, entry);
    WalkOver(current, false, rest, "");
    assert "" + current == current;
  }

  lemma EntryThenList(entry: string, blank: string, more: string, entries: seq<string>)
    requires Whole(entry) && blank in {"", " "}
    requires Entries(" " + more, false, "") == entries
    ensures Entries(blank + entry + (", " + more), false, "") == [entry] + entries
  {
    FirstEntrySplits(entry, blank, ", " + more);
    assert (", " + more)[1..] == " " + more;
  }

  // The list is split into its entries.
  lemma {:induction false} ListSplits(entries: seq<string>, blank: string)
    requires entries != [] && AllWhole(entries) && blank in {"", " "}
    ensures Entries(blank + Listing(entries), false, "") == entries
  {
    hide Entries, Whole;
    var entry := entries[0];
    assert Whole(entry);
    if |entries| == 1 {
      FirstEntrySplits(entry, blank, "");
      assert blank + entry + "" == blank + Listing(entries);
      assert [entry] + [] == entries;
    } else {
      var more := Listing(entries[1..]);
      ListSplits(entries[1..], " ");
      EntryThenList(entry, blank, more, entries[1..]);
      assert blank + entry + (", " + more) == blank + Listing(entries);
      assert entries == [entry] + entries[1..];
    }
  }

  predicate AllWhole(entries: seq<string>) {
    forall i :: 0 <= i < |entries| ==> Whole(entries[i])
  }

  lemma ListedAreWhole(params: seq<(nat, string)>)
    requires Listable(params)
    ensures AllWhole(AllEntries(params))
  {
    hide Whole, Token;
    forall i | 0 <= i < |params| ensures Whole(AllEntries(params)[i]) {
      assert Token(params[i].1);
      EntryIsTight(params[i]);
    }
  }

  lemma {:induction false} EntriesRead(params: seq<(nat, string)>)
    requires Listable(params)
    ensures ReadEntries(AllEntries(params)) == params
  {
    hide ReadEntry, Entry, Token;
    if params == [] {
    } else {
      var first, others := params[0], params[1..];
      EntryReads(first);
      EntriesRead(others);
      hide ReadEntries, Listable;
      FirstRead(Entry(first), AllEntries(others));
      AllEntriesSplit(params, first, others);
      assert params == [first] + others;
    }
  }

  lemma AllEntriesSplit(params: seq<(nat, string)>, first: (nat, string), others: seq<(nat, string)>)
    requires params == [first] + others
    ensures AllEntries(params) == [Entry(first)] + AllEntries(others)
  {
    hide Entry;
  }

  lemma FirstRead(entry: string, entries: seq<string>)
    ensures ReadEntries([entry] + entries) == Listed(ReadEntry(entry)) + ReadEntries(entries)
  {
    hide ReadEntry;
    assert ([entry] + entries)[1..] == entries;
  }

  lemma {:induction false} ListIsTight(entries: seq<string>)
    requires entries != [] && AllWhole(entries)
    ensures Tight(Listing(entries))
  {
    assert Whole(entries[0]);
    if |entries| > 1 {
      ListIsTight(entries[1..]);
    }
  }

  // A line is taken apart into its entries.
  lemma LineParses(entries: seq<string>)
    requires AllWhole(entries)
    ensures Parsed(Line(entries)) == Some(ReadEntries(entries))
  {
    hide Whole, ReadEntries;
    var line, list := Line(entries), Listing(entries);
    assert "Parameters: " == PREFIX + " ";
    if entries == [] {
      assert line == PREFIX + " ";
      assert line[..|line| - 1] == PREFIX;
      assert TrimStart(line) == line && TrimEnd(line) == TrimEnd(PREFIX) == PREFIX;
      assert PREFIX[|PREFIX|..] == "";
    } else {
      ListIsTight(entries);
      TrimTight(line);
      TrimTight(list);
      assert line[|PREFIX|..] == " " + list;
      ListSplits(entries, "");
      assert "" + list == list;
    }
  }

  /** Every list of numbered values comes out as it was printed. */
  lemma ParametersRoundTrip(params: seq<(nat, string)>)
    requires Listable(params)
    ensures Parsed(Printed(params)) == Some(params)
  {
    ListedAreWhole(params);
    LineParses(AllEntries(params));
    EntriesRead(params);
  }

  // A blank, an equals sign and a blank.
  predicate EqualsAt(s: string, i: nat) {
    i + 2 < |s| && s[i] == ' ' && s[i + 1] == '=' && s[i + 2] == ' '
  }

  lemma {:induction false} NoEquals(s: string)
    requires forall i: nat :: !EqualsAt(s, i)
    ensures FindEquals(s) == |s|
  {
    if |s| >= 3 {
      assert s[..3] != " = " by { assert !EqualsAt(s, 0); }
      NoEqualsBehind(s);
      NoEquals(s[1..]);
    }
  }

  lemma NoEqualsBehind(s: string)
    requires s != "" && forall i: nat :: !EqualsAt(s, i)
    ensures forall i: nat :: !EqualsAt(s[1..], i)
  {
    forall i: nat ensures !EqualsAt(s[1..], i) {
      assert !EqualsAt(s, i + 1);
    }
  }

  // No number and value can be told apart in it, or its number does not fit into 64 bits.
  ghost predicate Unreadable(entry: string) {
    || (forall i: nat :: !EqualsAt(entry, i))
    || exists p: (nat, string) :: Token(p.1) && p.0 >= 0x1_0000_0000_0000_0000 && entry == Entry(p)
  }

  lemma UnreadableIsNothing(entry: string)
    requires Whole(entry) && Unreadable(entry)
    ensures ReadEntry(entry) == None
  {
    hide Entry, EqualsAt, Token;
    TrimTight(entry);
    if forall i: nat :: !EqualsAt(entry, i) {
      hide Trim;
      NoEqualsBehind(entry);
      NoEquals(if entry[0] == '$' then entry[1..] else entry);
    } else {
      var p: (nat, string) :| Token(p.1) && p.0 >= 0x1_0000_0000_0000_0000 && entry == Entry(p);
      EntryReads(p);
    }
  }

  lemma {:induction false} ReadsConcat(a: seq<string>, b: seq<string>)
    ensures ReadEntries(a + b) == ReadEntries(a) + ReadEntries(b)
  {
    hide ReadEntry;
    if a == [] {
      assert a + b == b;
    } else {
      assert (a + b)[1..] == a[1..] + b;
      ReadsConcat(a[1..], b);
      Regroup(Listed(ReadEntry(a[0])), ReadEntries(a[1..]), ReadEntries(b));
    }
  }

  lemma ReadsAround(before: seq<(nat, string)>, entry: string, after: seq<(nat, string)>)
    requires Listable(before) && Listable(after) && ReadEntry(entry) == None
    ensures ReadEntries(AllEntries(before) + [entry] + AllEntries(after)) == before + after
  {
    hide ReadEntry, AllEntries, Listable;
    var a, b := AllEntries(before), AllEntries(after);
    EntriesRead(before);
    EntriesRead(after);
    assert ReadEntries([entry]) == [];
    hide ReadEntries;
    ReadsConcat(a + [entry], b);
    ReadsConcat(a, [entry]);
    assert before + [] == before;
  }

  lemma WholeAround(a: seq<string>, entry: string, b: seq<string>)
    requires AllWhole(a) && Whole(entry) && AllWhole(b)
    ensures AllWhole(a + [entry] + b)
  {
    hide Whole;
  }

  /** An unreadable entry is passed over, and the others come out. */
  lemma UnreadableIsPassedOver(before: seq<(nat, string)>, entry: string, after: seq<(nat, string)>)
    requires Listable(before) && Listable(after) && Whole(entry) && Unreadable(entry)
    ensures Parsed(Line(AllEntries(before) + [entry] + AllEntries(after))) == Some(before + after)
  {
    hide Whole, AllWhole, Unreadable, Parsed, Line, AllEntries, Listable, ReadEntries, ReadEntry;
    ListedAreWhole(before);
    ListedAreWhole(after);
    WholeAround(AllEntries(before), entry, AllEntries(after));
    LineParses(AllEntries(before) + [entry] + AllEntries(after));
    UnreadableIsNothing(entry);
    ReadsAround(before, entry, after);
  }
}
