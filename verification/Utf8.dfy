/** TextEncoder: the UTF-8 bytes of a UTF-16 text (the last step before a preimage is signed). */
module Utf8 {
  import opened Prelude
  import opened NumberText
  import opened Quoting

  type Byte = b: nat | b < 0x100

  function CodePoint(high: Unit, low: Unit): (c: nat)
    requires HighSurrogate(high) && LowSurrogate(low)
    ensures 0x10000 <= c < 0x110000
  {
    0x10000 + (high - 0xd800) * 0x400 + (low - 0xdc00)
  }

  function EncodeUnit(u: Unit): seq<Byte> {
    if u < 0x80 then [u]
    else if u < 0x800 then [0xc0 + u / 64, 0x80 + u % 64]
    else [0xe0 + u / 64 / 64, 0x80 + u / 64 % 64, 0x80 + u % 64]
  }

  function EncodePair(c: nat): seq<Byte>
    requires 0x10000 <= c < 0x110000
  {
    [0xf0 + c / 64 / 64 / 64, 0x80 + c / 64 / 64 % 64, 0x80 + c / 64 % 64, 0x80 + c % 64]
  }

  /** An unpaired surrogate is replaced by U+FFFD. */
  function Encode(t: Text): seq<Byte> {
    if t == [] then []
    else if StartsWithPair(t) then EncodePair(CodePoint(t[0], t[1])) + Encode(t[2..])
    else if HighSurrogate(t[0]) || LowSurrogate(t[0]) then EncodeUnit(0xfffd) + Encode(t[1..])
    else EncodeUnit(t[0]) + Encode(t[1..])
  }

  /** The length of a sequence, from its first byte. */
  function Width(b: int): (w: nat)
    ensures 1 <= w <= 4
  {
    if b < 0x80 then 1 else if b < 0xe0 then 2 else if b < 0xf0 then 3 else 4
  }

  function ScalarOf(bs: seq<int>): int
    requires 1 <= |bs| <= 4
  {
    match |bs|
    case 1 => bs[0]
    case 2 => (bs[0] - 0xc0) * 64 + (bs[1] - 0x80)
    case 3 => ((bs[0] - 0xe0) * 64 + (bs[1] - 0x80)) * 64 + (bs[2] - 0x80)
    case _ => (((bs[0] - 0xf0) * 64 + (bs[1] - 0x80)) * 64 + (bs[2] - 0x80)) * 64 + (bs[3] - 0x80)
  }

  function UnitsOf(scalar: int): seq<int> {
    if scalar < 0x10000 then [scalar]
    else [0xd800 + (scalar - 0x10000) / 0x400, 0xdc00 + (scalar - 0x10000) % 0x400]
  }

  function Decode(bs: seq<int>): seq<int> {
    if bs == [] then []
    else if |bs| < Width(bs[0]) then []
    else UnitsOf(ScalarOf(bs[..Width(bs[0])])) + Decode(bs[Width(bs[0])..])
  }

  lemma DecodesUnit(u: Unit, rest: seq<int>)
    ensures Decode(EncodeUnit(u) + rest) == [u] + Decode(rest)
  {
    var bs := EncodeUnit(u) + rest;
    var w := |EncodeUnit(u)|;
    assert bs[..w] == EncodeUnit(u) && bs[w..] == rest;
  }

  lemma DecodesPair(high: Unit, low: Unit, rest: seq<int>)
    requires HighSurrogate(high) && LowSurrogate(low)
    ensures Decode(EncodePair(CodePoint(high, low)) + rest) == [high, low] + Decode(rest)
  {
    var c := CodePoint(high, low);
    var bs := EncodePair(c) + rest;
    assert bs[..4] == EncodePair(c) && bs[4..] == rest;
    assert ScalarOf(EncodePair(c)) == c;
    assert c - 0x10000 == (high - 0xd800) * 0x400 + (low - 0xdc00);
  }

  /** Well-formed text survives encoding, so different texts have different bytes. */
  lemma {:induction false} EncodeRoundTrip(t: Text)
    requires WellFormed(t)
    ensures Decode(Encode(t)) == t
  {
    hide Decode, EncodeUnit, EncodePair;
    if t == [] {
      assert Decode([]) == [] by { EmptyDecodes(); }
    } else if StartsWithPair(t) {
      EncodeRoundTrip(t[2..]);
      DecodesPair(t[0], t[1], Encode(t[2..]));
      assert t == [t[0], t[1]] + t[2..];
    } else {
      EncodeRoundTrip(t[1..]);
      DecodesUnit(t[0], Encode(t[1..]));
      assert t == [t[0]] + t[1..];
    }
  }

  lemma EmptyDecodes()
    ensures Decode([]) == []
  {
  }

  /** How many bytes a unit takes, and the bytes of the units that are not re-encoded. */
  lemma UnitBytes(u: Unit)
    requires !HighSurrogate(u) && !LowSurrogate(u)
    ensures |Encode([u])| == if u < 0x80 then 1 else if u < 0x800 then 2 else 3
    ensures u < 0x80 ==> Encode([u]) == [u]
  {
    assert [u][1..] == [];
    assert EncodeUnit(u) + [] == EncodeUnit(u);
  }

  lemma LoneSurrogateBytes(u: Unit)
    requires HighSurrogate(u) || LowSurrogate(u)
    ensures Encode([u]) == [0xef, 0xbf, 0xbd]
  {
    assert [u][1..] == [];
    assert EncodeUnit(0xfffd) == [0xef, 0xbf, 0xbd] && EncodeUnit(0xfffd) + [] == EncodeUnit(0xfffd);
  }
}
