/**
 The fixed-width hexadecimal strings under which field elements are stored and looked up.
 The database compares them as strings; their order is that of the numbers.
 */
module PaddedHex {
  import opened Field
  import opened LinkedRecords

  type Byte = x: int | 0 <= x < 256

  /** The canonical serialization of a number: `len` bytes, least significant first. */
  function LittleEndian(n: nat, len: nat): (bytes: seq<Byte>)
    ensures |bytes| == len
  {
    if len == 0 then [] else [n % 256] + LittleEndian(n / 256, len - 1)
  }

  function Reverse(s: seq<Byte>): (r: seq<Byte>)
    ensures |r| == |s|
  {
    if s == [] then [] else Reverse(s[1..]) + [s[0]]
  }

  function Digit(d: nat): char
    requires d < 16
  {
    if d < 10 then '0' + d as char else 'a' + (d - 10) as char
  }

  function HexOfByte(b: Byte): string {
    [Digit(b / 16), Digit(b % 16)]
  }

  function HexOf(bytes: seq<Byte>): (s: string)
    ensures |s| == 2 * |bytes|
  {
    if bytes == [] then [] else HexOf(bytes[..|bytes| - 1]) + HexOfByte(bytes[|bytes| - 1])
  }

  /** Writes the bytes in hexadecimal and pads on the left; more bytes than fit are refused by an assertion. */
  method BytesToHexLpadded(bytes: seq<Byte>, maxBytes: nat) returns (s: string)
    requires |bytes| <= maxBytes
    ensures s == seq(2 * (maxBytes - |bytes|), _ => '0') + HexOf(bytes)
    ensures |s| == 2 * maxBytes
  {
    s := "";
    for i := 0 to |bytes|
      invariant s == HexOf(bytes[..i])
    {
      assert bytes[..i + 1][..i] == bytes[..i];
      s := s + HexOfByte(bytes[i]);
    }
    assert bytes[..|bytes|] == bytes;
    s := seq(2 * (maxBytes - |bytes|), _ => '0') + s;
  }

  /** The stored form of a field element. */
  function PaddedHex(x: Fr): (s: string)
    ensures |s| == 64
  {
    HexOf(Reverse(LittleEndian(x, 32)))
  }

  method SerializeToPaddedHex(x: Fr) returns (s: string)
    ensures s == PaddedHex(x)
  {
    var bigEndian := Reverse(LittleEndian(x, 32));
    s := BytesToHexLpadded(bigEndian, 32);
    assert seq(0, _ => '0') + HexOf(bigEndian) == HexOf(bigEndian);
  }

  // ---------------------------------------------------------------- decoding

  function DigitValue(c: char): Option<nat> {
    if '0' <= c <= '9' then Some((c - '0') as nat)
    else if 'a' <= c <= 'f' then Some((c - 'a') as nat + 10)
    else if 'A' <= c <= 'F' then Some((c - 'A') as nat + 10)
    else None
  }

  function DecodeHex(s: string): Option<seq<Byte>> {
    if s == [] then Some([])
    else if |s| == 1 then None
    else
      match (DecodeHex(s[..|s| - 2]), DigitValue(s[|s| - 2]), DigitValue(s[|s| - 1]))
      case (Some(init), Some(hi), Some(lo)) => if hi < 16 && lo < 16 then Some(init + [16 * hi + lo]) else None
      case _ => None
  }

  function NumberOf(littleEndian: seq<Byte>): nat {
    if littleEndian == [] then 0 else littleEndian[0] + 256 * NumberOf(littleEndian[1..])
  }

  /** Reads a stored string back: the last 32 bytes, which must be a canonical field element. */
  function DeserializePadded(s: string): Option<Fr> {
    match DecodeHex(s)
    case None => None
    case Some(bytes) =>
      var unpadded := if |bytes| > 32 then bytes[|bytes| - 32..] else bytes;
      if |unpadded| < 32 then None else
      var n := NumberOf(Reverse(unpadded));
      if n < MODULUS then Some(n) else None
  }

  // ---------------------------------------------------------------- round trip

  function Pow256(n: nat): nat {
    if n == 0 then 1 else 256 * Pow256(n - 1)
  }

  lemma {:induction false} NumberOfLittleEndian(n: nat, len: nat)
    requires n < Pow256(len)
    ensures NumberOf(LittleEndian(n, len)) == n
  {
    if len > 0 {
      NumberOfLittleEndian(n / 256, len - 1);
      assert LittleEndian(n, len)[1..] == LittleEndian(n / 256, len - 1);
    }
  }

  lemma {:induction false} ReversePush(s: seq<Byte>, b: Byte)
    ensures Reverse(s + [b]) == [b] + Reverse(s)
  {
    if s == [] {
      assert s + [b] == [b];
    } else {
      assert (s + [b])[1..] == s[1..] + [b];
      ReversePush(s[1..], b);
    }
  }

  lemma {:induction false} ReverseTwice(s: seq<Byte>)
    ensures Reverse(Reverse(s)) == s
  {
    if s != [] {
      ReversePush(Reverse(s[1..]), s[0]);
      ReverseTwice(s[1..]);
    }
  }

  lemma DigitRoundTrip(d: nat)
    requires d < 16
    ensures DigitValue(Digit(d)) == Some(d)
  {
  }

  lemma DecodePush(s: string, bytes: seq<Byte>, b: Byte)
    requires DecodeHex(s) == Some(bytes)
    ensures DecodeHex(s + HexOfByte(b)) == Some(bytes + [b])
  {
    DigitRoundTrip(b / 16);
    DigitRoundTrip(b % 16);
    var (hi: nat, lo: nat) := (b / 16, b % 16);
    assert 16 * hi + lo == b;
    var t := s + HexOfByte(b);
    assert t[..|t| - 2] == s && t[|t| - 2] == Digit(hi) && t[|t| - 1] == Digit(lo);
    hide Digit, DigitValue, HexOfByte;
  }

  lemma {:induction false} DecodeOfHex(bytes: seq<Byte>)
    ensures DecodeHex(HexOf(bytes)) == Some(bytes)
  {
    if bytes != [] {
      var init, b := bytes[..|bytes| - 1], bytes[|bytes| - 1];
      DecodeOfHex(init);
      DecodePush(HexOf(init), init, b);
      assert init + [b] == bytes;
    }
  }

  lemma ModulusFits()
    ensures MODULUS <= Pow256(32)
  {
    assert Pow256(4) == 0x1_0000_0000;
    assert Pow256(8) == 0x1_0000_0000 * 0x1_0000_0000;
    assert Pow256(12) == 0x1_0000_0000 * Pow256(8);
    assert Pow256(16) == 0x1_0000_0000 * Pow256(12);
    assert Pow256(20) == 0x1_0000_0000 * Pow256(16);
    assert Pow256(24) == 0x1_0000_0000 * Pow256(20);
    assert Pow256(28) == 0x1_0000_0000 * Pow256(24);
    assert Pow256(32) == 0x1_0000_0000 * Pow256(28);
  }

  /** Every field element is read back as itself; so no two share a string. */
  lemma PaddedHexRoundTrip(x: Fr)
    ensures DeserializePadded(PaddedHex(x)) == Some(x)
  {
    var le := LittleEndian(x, 32);
    ModulusFits();
    DecodeOfHex(Reverse(le));
    ReverseTwice(le);
    NumberOfLittleEndian(x, 32);
  }

  // ---------------------------------------------------------------- order

  /** The database's comparison of strings. */
  predicate StringLess(s: string, t: string) {
    t != [] && (s == [] || s[0] < t[0] || (s[0] == t[0] && StringLess(s[1..], t[1..])))
  }

  lemma {:induction false} StringLessSplit(a: string, b: string, x: string, y: string)
    requires |a| == |b|
    ensures StringLess(a + x, b + y) <==> StringLess(a, b) || (a == b && StringLess(x, y))
  {
    if a == [] {
      assert a + x == x && b + y == y;
    } else {
      assert (a + x)[1..] == a[1..] + x && (b + y)[1..] == b[1..] + y;
      StringLessSplit(a[1..], b[1..], x, y);
      assert a == [a[0]] + a[1..] && b == [b[0]] + b[1..];
    }
  }

  lemma DigitOrder(d: nat, e: nat)
    requires d < 16 && e < 16
    ensures Digit(d) < Digit(e) <==> d < e
    ensures Digit(d) == Digit(e) <==> d == e
  {
  }

  lemma OneCharLess(a: char, b: char)
    ensures StringLess([a], [b]) <==> a < b
  {
    assert [a][1..] == [] && [b][1..] == [];
  }

  lemma ByteOrder(b: Byte, c: Byte)
    ensures StringLess(HexOfByte(b), HexOfByte(c)) <==> b < c
    ensures HexOfByte(b) == HexOfByte(c) <==> b == c
  {
    DigitOrder(b / 16, c / 16);
    DigitOrder(b % 16, c % 16);
    var (b1, b0, c1, c0) := ([Digit(b / 16)], [Digit(b % 16)], [Digit(c / 16)], [Digit(c % 16)]);
    assert HexOfByte(b) == b1 + b0 && HexOfByte(c) == c1 + c0;
    StringLessSplit(b1, c1, b0, c0);
    OneCharLess(b1[0], c1[0]);
    OneCharLess(b0[0], c0[0]);
    assert (b1 == c1) == (b1[0] == c1[0]);
    if HexOfByte(b) == HexOfByte(c) {
      assert HexOfByte(b)[0] == HexOfByte(c)[0] && HexOfByte(b)[1] == HexOfByte(c)[1];
    }
  }

  lemma HexPush(n: nat, len: nat)
    requires len > 0
    ensures HexOf(Reverse(LittleEndian(n, len))) == HexOf(Reverse(LittleEndian(n / 256, len - 1))) + HexOfByte(n % 256)
  {
    var le := LittleEndian(n, len);
    assert le[1..] == LittleEndian(n / 256, len - 1);
    var be := Reverse(le);
    assert be[..|be| - 1] == Reverse(le[1..]);
  }

  lemma DivModOrder(n: nat, m: nat)
    ensures n < m <==> n / 256 < m / 256 || (n / 256 == m / 256 && n % 256 < m % 256)
    ensures n == m <==> n / 256 == m / 256 && n % 256 == m % 256
  {
  }

  lemma {:induction false} HexOrder(n: nat, m: nat, len: nat)
    requires n < Pow256(len) && m < Pow256(len)
    ensures StringLess(HexOf(Reverse(LittleEndian(n, len))), HexOf(Reverse(LittleEndian(m, len)))) <==> n < m
    ensures HexOf(Reverse(LittleEndian(n, len))) == HexOf(Reverse(LittleEndian(m, len))) <==> n == m
  {
    if len == 0 {
      assert LittleEndian(n, 0) == LittleEndian(m, 0) == [];
    } else {
      assert n / 256 < Pow256(len - 1) && m / 256 < Pow256(len - 1);
      hide *;
      DivModOrder(n, m);
      HexOrder(n / 256, m / 256, len - 1);
      HexPush(n, len);
      HexPush(m, len);
      HexOrderStep(HexOf(Reverse(LittleEndian(n / 256, len - 1))), HexOf(Reverse(LittleEndian(m / 256, len - 1))), n % 256, m % 256);
    }
  }

  lemma HexOrderStep(a: string, b: string, x: Byte, y: Byte)
    requires |a| == |b|
    ensures StringLess(a + HexOfByte(x), b + HexOfByte(y)) <==> StringLess(a, b) || (a == b && x < y)
    ensures a + HexOfByte(x) == b + HexOfByte(y) <==> a == b && x == y
  {
    hide *;
    ByteOrder(x, y);
    StringLessSplit(a, b, HexOfByte(x), HexOfByte(y));
    SplitEqual(a, b, HexOfByte(x), HexOfByte(y));
  }

  lemma SplitEqual(a: string, b: string, x: string, y: string)
    requires |a| == |b|
    ensures a + x == b + y <==> a == b && x == y
  {
    if a + x == b + y {
      assert a == (a + x)[..|a|] == (b + y)[..|a|] == b;
      assert x == (a + x)[|a|..] == (b + y)[|a|..] == y;
    }
  }

  /** String order is numeric order, for all field elements. */
  lemma PaddedHexOrder(x: Fr, y: Fr)
    ensures StringLess(PaddedHex(x), PaddedHex(y)) <==> x < y
  {
    ModulusFits();
    HexOrder(x, y, 32);
  }

  /** What the database returns for: strings below `v`'s, sorted downwards, first one. */
  ghost predicate IsLowByString(r: Records, v: Fr, l: Fr) {
    && l in r && StringLess(PaddedHex(l), PaddedHex(v))
    && forall k :: k in r && StringLess(PaddedHex(k), PaddedHex(v)) ==> !StringLess(PaddedHex(l), PaddedHex(k))
  }

  /** So the sorted string query finds the numeric predecessor. */
  lemma StringQueryFindsLow(r: Records, v: Fr, l: Fr)
    ensures IsLowByString(r, v, l) <==> IsLow(r, v, l)
  {
    hide PaddedHex, StringLess;
    forall x: Fr, y: Fr
      ensures StringLess(PaddedHex(x), PaddedHex(y)) <==> x < y
    {
      PaddedHexOrder(x, y);
    }
  }
}
