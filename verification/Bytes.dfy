/** Big-endian integers in byte strings. */
module Bytes {
  import opened Wrappers

  type Byte = b: int | 0 <= b < 256

  function U16At(b: seq<Byte>, i: nat): (n: nat)
    requires i + 2 <= |b|
    ensures n < 0x1_0000
  {
    (b[i] as int) * 256 + b[i + 1] as int
  }

  function Signed16(n: nat): int
    requires n < 0x1_0000
  {
    if n < 0x8000 then n else n - 0x1_0000
  }

  function I16At(b: seq<Byte>, i: nat): (n: int)
    requires i + 2 <= |b|
    ensures -0x8000 <= n < 0x8000
  {
    Signed16(U16At(b, i))
  }

  function U32At(b: seq<Byte>, i: nat): (n: nat)
    requires i + 4 <= |b|
    ensures n < 0x1_0000_0000
  {
    U16At(b, i) * 0x1_0000 + U16At(b, i + 2)
  }

  function I32At(b: seq<Byte>, i: nat): (n: int)
    requires i + 4 <= |b|
    ensures -0x8000_0000 <= n < 0x8000_0000
  {
    var n := U32At(b, i);
    if n < 0x8000_0000 then n else n - 0x1_0000_0000
  }

  // The value taken modulo 2^16 or 2^32.
  function Put16(n: int): (b: seq<Byte>)
    ensures |b| == 2
  {
    var u := n % 0x1_0000;
    [u / 256, u % 256]
  }

  function Put32(n: int): (b: seq<Byte>)
    ensures |b| == 4
  {
    var u := n % 0x1_0000_0000;
    Put16(u / 0x1_0000) + Put16(u % 0x1_0000)
  }

  lemma Put16Reads(n: int, rest: seq<Byte>)
    ensures U16At(Put16(n) + rest, 0) == n % 0x1_0000
    ensures -0x8000 <= n < 0x8000 ==> I16At(Put16(n) + rest, 0) == n
  {
    var b := Put16(n) + rest;
    assert b[0] == n % 0x1_0000 / 256 && b[1] == n % 0x1_0000 % 256;
  }

  lemma Put32ReadsUnsigned(u: nat, rest: seq<Byte>)
    requires u < 0x1_0000_0000
    ensures U32At(Put32(u) + rest, 0) == u
  {
    var hi, lo := u / 0x1_0000, u % 0x1_0000;
    var b := Put32(u) + rest;
    assert b == Put16(hi) + (Put16(lo) + rest);
    Put16Reads(hi, Put16(lo) + rest);
    Put16Reads(lo, rest);
    assert b[2] == (Put16(lo) + rest)[0] && b[3] == (Put16(lo) + rest)[1];
  }

  lemma Put32Reads(n: int, rest: seq<Byte>)
    ensures U32At(Put32(n) + rest, 0) == n % 0x1_0000_0000
    ensures -0x8000_0000 <= n < 0x8000_0000 ==> I32At(Put32(n) + rest, 0) == n
  {
    var u := n % 0x1_0000_0000;
    assert u % 0x1_0000_0000 == u;
    assert Put32(n) == Put32(u);
    Put32ReadsUnsigned(u, rest);
    assert -0x8000_0000 <= n < 0x8000_0000 ==> u == if n < 0 then n + 0x1_0000_0000 else n;
  }

  // Writing what was read gives the bytes back.
  lemma Put32Of(b: seq<Byte>)
    requires |b| == 4
    ensures Put32(I32At(b, 0)) == b && Put32(U32At(b, 0)) == b
  {
    var hi, lo := U16At(b, 0), U16At(b, 2);
    var u := U32At(b, 0);
    assert I32At(b, 0) % 0x1_0000_0000 == u && u % 0x1_0000_0000 == u;
    assert u / 0x1_0000 == hi && u % 0x1_0000 == lo;
    Put16Of(b[0], b[1]);
    Put16Of(b[2], b[3]);
  }

  lemma Put16Of(a: Byte, b: Byte)
    ensures Put16((a as int) * 256 + b as int) == [a, b]
  {
  }

  // Reading at an offset is reading at the start of the rest.
  lemma ReadsShift(b: seq<Byte>, i: nat)
    requires i + 2 <= |b|
    ensures U16At(b, i) == U16At(b[i..], 0)
    ensures i + 4 <= |b| ==> U32At(b, i) == U32At(b[i..], 0)
  {
  }

  lemma DropTwice(b: seq<Byte>, i: nat, j: nat)
    requires i + j <= |b|
    ensures b[i..][j..] == b[i + j..]
  {
  }

  // ---- length-prefixed values ----

  // A length and the bytes, or -1 for NULL.
  function EncodeItem(e: Option<seq<Byte>>): seq<Byte> {
    if e.None? then Put32(-1) else Put32(|e.value|) + e.value
  }

  function EncodeItems(elems: seq<Option<seq<Byte>>>): seq<Byte> {
    if elems == [] then [] else EncodeItem(elems[0]) + EncodeItems(elems[1..])
  }

  lemma ItemsSplit(elems: seq<Option<seq<Byte>>>, rest: seq<Byte>)
    requires elems != []
    ensures EncodeItems(elems) + rest == EncodeItem(elems[0]) + (EncodeItems(elems[1..]) + rest)
  {
  }

  // The first item and what follows it.
  lemma FirstItem(e: Option<seq<Byte>>, rest: seq<Byte>)
    requires e.Some? ==> |e.value| < 0x8000_0000
    ensures var all, n := EncodeItem(e) + rest, if e.None? then 0 else |e.value|;
            && |all| >= 4 + n && all[4 + n..] == rest
            && I32At(all, 0) == (if e.None? then -1 else n)
            && (e.Some? ==> all[4..4 + n] == e.value)
  {
    if e.None? {
      Put32Reads(-1, rest);
    } else {
      Put32Reads(|e.value|, e.value + rest);
      assert EncodeItem(e) + rest == Put32(|e.value|) + (e.value + rest);
    }
  }
}
