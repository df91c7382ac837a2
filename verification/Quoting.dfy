/** QuoteJSONString of ECMA-262 (section 25.5.2.3), the printer behind `JSON.stringify(string)`. */
module Quoting {
  import opened Prelude
  import opened NumberText

  const QUOTE: Unit := 0x22
  const BACKSLASH: Unit := 0x5c
  const LETTER_U: Unit := 0x75

  predicate HighSurrogate(u: Unit) {
    0xd800 <= u < 0xdc00
  }

  predicate LowSurrogate(u: Unit) {
    0xdc00 <= u < 0xe000
  }

  predicate StartsWithPair(t: Text) {
    |t| >= 2 && HighSurrogate(t[0]) && LowSurrogate(t[1])
  }

  /** The units with a two-character escape, and the letter that follows the backslash. */
  function ShortEscape(u: Unit): Option<Unit> {
    match u
    case 0x08 => Some(0x62)
    case 0x09 => Some(0x74)
    case 0x0a => Some(0x6e)
    case 0x0c => Some(0x66)
    case 0x0d => Some(0x72)
    case 0x22 => Some(0x22)
    case 0x5c => Some(0x5c)
    case _ => None
  }

  /** Lower-case hexadecimal digit. */
  function HexUnit(d: nat): (u: Unit)
    requires d < 16
    ensures HexValue(u) == d
  {
    if d < 10 then 0x30 + d else 0x61 + (d - 10)
  }

  function Hex4(u: Unit): (t: Text)
    ensures |t| == 4
  {
    [HexUnit(u / 16 / 16 / 16), HexUnit(u / 16 / 16 % 16), HexUnit(u / 16 % 16), HexUnit(u % 16)]
  }

  /** One code unit that is not half of a pair: an unpaired surrogate or a control is escaped. */
  function Escape(u: Unit): Text {
    if ShortEscape(u).Some? then [BACKSLASH, ShortEscape(u).value]
    else if u < 0x20 || HighSurrogate(u) || LowSurrogate(u) then [BACKSLASH, LETTER_U] + Hex4(u)
    else [u]
  }

  function Body(s: Text): Text {
    if s == [] then []
    else if StartsWithPair(s) then [s[0]] + ([s[1]] + Body(s[2..]))
    else Escape(s[0]) + Body(s[1..])
  }

  function Quote(s: Text): Text {
    [QUOTE] + Body(s) + [QUOTE]
  }

  // ----- a reader for the JSON string grammar of RFC 8259 (section 7)

  function HexValue(u: Unit): (d: nat)
    ensures d < 16
  {
    if 0x30 <= u < 0x3a then u - 0x30 else if 0x61 <= u < 0x67 then u - 0x61 + 10 else 0
  }

  function ShortUnescape(u: Unit): Unit {
    match u
    case 0x62 => 0x08
    case 0x74 => 0x09
    case 0x6e => 0x0a
    case 0x66 => 0x0c
    case 0x72 => 0x0d
    case _ => u
  }

  function ReadHex4(t: Text): Unit
    requires |t| == 4
  {
    ((HexValue(t[0]) * 16 + HexValue(t[1])) * 16 + HexValue(t[2])) * 16 + HexValue(t[3])
  }

  /** The string up to the closing quote, and what follows that quote. */
  function ReadBody(t: Text): Option<(Text, Text)> {
    if t == [] then None
    else if t[0] == QUOTE then Some(([], t[1..]))
    else if t[0] != BACKSLASH then Prepend(t[0], ReadBody(t[1..]))
    else if |t| >= 6 && t[1] == LETTER_U then Prepend(ReadHex4(t[2..6]), ReadBody(t[6..]))
    else if |t| >= 2 then Prepend(ShortUnescape(t[1]), ReadBody(t[2..]))
    else None
  }

  function Prepend(u: Unit, r: Option<(Text, Text)>): Option<(Text, Text)> {
    if r.None? then None else Some(([u] + r.value.0, r.value.1))
  }

  // ----- the reader inverts the printer

  lemma Hex4RoundTrip(u: Unit)
    ensures ReadHex4(Hex4(u)) == u
  {
  }

  lemma ReadsClose(rest: Text)
    ensures ReadBody([QUOTE] + rest) == Some(([], rest))
  {
    assert ([QUOTE] + rest)[1..] == rest;
  }

  lemma ReadsRaw(u: Unit, rest: Text)
    requires u != QUOTE && u != BACKSLASH
    ensures ReadBody([u] + rest) == Prepend(u, ReadBody(rest))
  {
    assert ([u] + rest)[1..] == rest;
  }

  lemma ReadsUnicodeEscape(u: Unit, rest: Text)
    ensures ReadBody([BACKSLASH, LETTER_U] + Hex4(u) + rest) == Prepend(u, ReadBody(rest))
  {
    hide Hex4, ReadHex4;
    var t := [BACKSLASH, LETTER_U] + Hex4(u) + rest;
    assert t[2..6] == Hex4(u) && t[6..] == rest;
    Hex4RoundTrip(u);
  }

  lemma ReadsEscape(u: Unit, rest: Text)
    ensures ReadBody(Escape(u) + rest) == Prepend(u, ReadBody(rest))
  {
    var t := Escape(u) + rest;
    if ShortEscape(u).Some? {
      assert t[2..] == rest;
    } else if u < 0x20 || HighSurrogate(u) || LowSurrogate(u) {
      hide ReadBody;
      ReadsUnicodeEscape(u, rest);
    } else {
      hide ReadBody;
      ReadsRaw(u, rest);
    }
  }

  /** Quoting is self-delimiting and loses nothing, unpaired surrogates included. */
  lemma {:induction false} QuoteRoundTrip(s: Text, rest: Text)
    ensures ReadBody(Body(s) + ([QUOTE] + rest)) == Some((s, rest))
  {
    hide ReadBody, Escape;
    var close := [QUOTE] + rest;
    if s == [] {
      assert Body(s) + close == close;
      ReadsClose(rest);
    } else if StartsWithPair(s) {
      QuoteRoundTrip(s[2..], rest);
      var inner := [s[1]] + (Body(s[2..]) + close);
      assert Body(s) + close == [s[0]] + inner;
      ReadsRaw(s[0], inner);
      ReadsRaw(s[1], Body(s[2..]) + close);
      assert s == [s[0]] + ([s[1]] + s[2..]);
    } else {
      QuoteRoundTrip(s[1..], rest);
      assert Body(s) + close == Escape(s[0]) + (Body(s[1..]) + close);
      ReadsEscape(s[0], Body(s[1..]) + close);
      assert s == [s[0]] + s[1..];
    }
  }

  lemma QuotePrefix(a: Text, b: Text, r: Text, s: Text)
    requires Quote(a) + r == Quote(b) + s
    ensures a == b && r == s
  {
    hide ReadBody, Body;
    assert (Quote(a) + r)[1..] == Body(a) + ([QUOTE] + r);
    assert (Quote(b) + s)[1..] == Body(b) + ([QUOTE] + s);
    QuoteRoundTrip(a, r);
    QuoteRoundTrip(b, s);
  }

  // ----- the output is well-formed UTF-16

  /** Every surrogate is half of a pair, so encoding the text as UTF-8 replaces nothing. */
  predicate WellFormed(t: Text) {
    if t == [] then true
    else if StartsWithPair(t) then WellFormed(t[2..])
    else !HighSurrogate(t[0]) && !LowSurrogate(t[0]) && WellFormed(t[1..])
  }

  lemma {:induction false} WellFormedConcat(a: Text, b: Text)
    requires WellFormed(a) && WellFormed(b)
    ensures WellFormed(a + b)
  {
    if a == [] {
      assert a + b == b;
    } else if StartsWithPair(a) {
      assert (a + b)[2..] == a[2..] + b;
      WellFormedConcat(a[2..], b);
    } else {
      assert (a + b)[1..] == a[1..] + b;
      WellFormedConcat(a[1..], b);
    }
  }

  lemma {:induction false} PlainIsWellFormed(t: Text)
    requires forall i :: 0 <= i < |t| ==> t[i] < 0xd800
    ensures WellFormed(t)
  {
    if t != [] {
      PlainIsWellFormed(t[1..]);
    }
  }

  lemma EscapeIsWellFormed(u: Unit)
    ensures WellFormed(Escape(u))
  {
    if u < 0x20 || HighSurrogate(u) || LowSurrogate(u) || ShortEscape(u).Some? {
      PlainIsWellFormed(Escape(u));
    }
  }

  lemma {:induction false} BodyIsWellFormed(s: Text)
    ensures WellFormed(Body(s))
  {
    if s == [] {
    } else if StartsWithPair(s) {
      BodyIsWellFormed(s[2..]);
      assert Body(s)[2..] == Body(s[2..]);
    } else {
      BodyIsWellFormed(s[1..]);
      EscapeIsWellFormed(s[0]);
      WellFormedConcat(Escape(s[0]), Body(s[1..]));
    }
  }

  lemma QuoteIsWellFormed(s: Text)
    ensures WellFormed(Quote(s))
  {
    BodyIsWellFormed(s);
    PlainIsWellFormed([QUOTE]);
    WellFormedConcat([QUOTE], Body(s));
    WellFormedConcat([QUOTE] + Body(s), [QUOTE]);
  }

  /** How a unit is written: as it is, with a letter, or with four digits. */
  lemma UnitForms(u: Unit)
    ensures Body([u]) == [u] <==> u >= 0x20 && u != 0x22 && u != 0x5c && !(0xd800 <= u < 0xe000)
    ensures |Body([u])| == 2 <==> u in {0x08, 0x09, 0x0a, 0x0c, 0x0d, 0x22, 0x5c}
    ensures |Body([u])| in {1, 2, 6}
  {
    assert [u][1..] == [];
  }

  lemma BodySteps(s: Text)
    requires s != []
    ensures Body(s) == if StartsWithPair(s) then s[..2] + Body(s[2..]) else Body(s[..1]) + Body(s[1..])
  {
    hide Escape;
    var one := s[..1];
    assert one == [s[0]] && one[1..] == [];
    if StartsWithPair(s) {
      assert s[..2] == [s[0]] + [s[1]];
    }
  }

  /** A text without controls, quotes, backslashes and unpaired surrogates is printed as it is. */
  lemma {:induction false} PlainQuoted(s: Text)
    requires forall i :: 0 <= i < |s| ==> s[i] >= 0x20 && s[i] != 0x22 && s[i] != 0x5c && !(0xd800 <= s[i] < 0xe000)
    ensures Quote(s) == [0x22] + s + [0x22]
    decreases |s|
  {
    if s != [] {
      PlainQuoted(s[1..]);
      assert Body(s[1..]) == Quote(s[1..])[1..|s|];
      UnitForms(s[0]);
      BodySteps(s);
      assert s[..1] == [s[0]] && s == [s[0]] + s[1..];
    }
  }
}
