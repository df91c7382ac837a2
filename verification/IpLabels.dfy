/**
 * The labels of the rule tables in packages/core/src/ip-address.ts, read as text: the address by the
 * project's own parser, then the decimal length. Each names the network its rule is proved to test.
 */
module IpLabels {
  import opened Prelude
  import opened Strings
  import opened IpAddress
  import opened IpRanges

  /** Reading the label: the parser's address, a slash, and the length in decimal. */
  predicate Names(text: string, parse: string -> Option<seq<nat>>, p: Prefix) {
    var parts := Split(text, '/');
    |parts| == 2 && parse(parts[0]) == Some(p.net) && parts[1] != "" && AllDigits(parts[1]) && ValueIn(10, parts[1]) == p.length
  }

  function Digit(d: nat): char
    requires d < 10
  {
    ('0' as int + d) as char
  }

  function Decimal(n: nat): string
    requires n < 1000
  {
    if n < 10 then [Digit(n)]
    else if n < 100 then [Digit(n / 10), Digit(n % 10)]
    else [Digit(n / 100), Digit(n / 10 % 10), Digit(n % 10)]
  }

  lemma ShortValues(base: nat, s: string)
    requires AllHex(s) && 1 <= |s| <= 3
    ensures |s| == 1 ==> ValueIn(base, s) == DigitValue(s[0])
    ensures |s| == 2 ==> ValueIn(base, s) == base * DigitValue(s[0]) + DigitValue(s[1])
    ensures |s| == 3 ==> ValueIn(base, s) == base * (base * DigitValue(s[0]) + DigitValue(s[1])) + DigitValue(s[2])
  {
    assert s[..1][..0] == "" && ValueIn(base, s[..1]) == DigitValue(s[0]);
    if |s| >= 2 { assert s[..2][..1] == s[..1] && ValueIn(base, s[..2]) == base * DigitValue(s[0]) + DigitValue(s[1]); }
    if |s| == 1 { assert s[..1] == s; } else if |s| == 2 { assert s[..2] == s; }
  }

  lemma DigitReads(d: nat)
    requires d < 10
    ensures IsDigit(Digit(d)) && DigitValue(Digit(d)) == d && Digit(d) != '/'
  {
  }

  lemma DecimalDigits(n: nat)
    requires n < 1000
    ensures 10 * (n / 10) + n % 10 == n && 10 * (10 * (n / 100) + n / 10 % 10) + n % 10 == n
  {
  }

  lemma DecimalShape(n: nat)
    requires n < 1000
    ensures 1 <= |Decimal(n)| <= 3 && AllDigits(Decimal(n)) && AllHex(Decimal(n)) && Free(Decimal(n), '/')
  {
    hide Digit, DigitValue;
    DigitReads(n % 10);
    DigitReads(n / 10 % 10);
    DigitReads(n / 100);
  }

  lemma DecimalReads(n: nat)
    requires n < 1000
    ensures 1 <= |Decimal(n)| <= 3 && AllDigits(Decimal(n)) && ValueIn(10, Decimal(n)) == n && Free(Decimal(n), '/')
  {
    hide Digit, DigitValue, ValueIn, AllDigits, Free;
    DecimalShape(n);
    DecimalDigits(n);
    DigitReads(n % 10);
    DigitReads(n / 10 % 10);
    DigitReads(n / 100);
    ShortValues(10, Decimal(n));
  }

  lemma SplitCidr(address: string, length: string)
    requires Free(address, '/') && Free(length, '/')
    ensures Split(address + "/" + length, '/') == [address, length]
  {
    SplitAtFirst(address, length, '/');
    SplitFree(length, '/');
    hide Split;
  }

  function DecimalQuad(o: seq<nat>): Quad
    requires |o| == 4 && DigitsBelow(256, o)
  {
    Quad(Decimal(o[0]), Decimal(o[1]), Decimal(o[2]), Decimal(o[3]))
  }

  lemma QuadIsDecimal(q: Quad, o: seq<nat>)
    requires |o| == 4 && DigitsBelow(256, o) && q == DecimalQuad(o)
    ensures q.Valid() && q.Bytes() == o
  {
    hide Decimal, ValueIn;
    DecimalReads(o[0]);
    DecimalReads(o[1]);
    DecimalReads(o[2]);
    DecimalReads(o[3]);
  }

  lemma DecimalQuadReads(o: seq<nat>)
    requires |o| == 4 && DigitsBelow(256, o)
    ensures Ipv4(DecimalQuad(o).Text()) == Some(o) && Free(DecimalQuad(o).Text(), '/')
  {
    var q := DecimalQuad(o);
    QuadIsDecimal(q, o);
    hide DecimalQuad, ValueIn, Ipv4;
    QuadRead(q);
  }

  /** The text is the prefix in the usual notation. */
  predicate Spelled(text: string, p: Prefix)
    requires |p.net| == 4 && DigitsBelow(256, p.net) && p.length <= 32
  {
    text == DecimalQuad(p.net).Text() + "/" + Decimal(p.length)
  }

  lemma SmallDecimals()
    ensures Decimal(0) == "0" && Decimal(2) == "2" && Decimal(4) == "4" && Decimal(8) == "8"
    ensures Decimal(10) == "10" && Decimal(12) == "12" && Decimal(15) == "15" && Decimal(16) == "16"
    ensures Decimal(18) == "18" && Decimal(24) == "24" && Decimal(51) == "51" && Decimal(64) == "64"
    ensures Decimal(88) == "88" && Decimal(99) == "99"
  {
  }

  lemma LargeDecimals()
    ensures Decimal(100) == "100" && Decimal(113) == "113" && Decimal(127) == "127" && Decimal(168) == "168"
    ensures Decimal(169) == "169" && Decimal(172) == "172" && Decimal(192) == "192" && Decimal(198) == "198"
    ensures Decimal(203) == "203" && Decimal(224) == "224" && Decimal(240) == "240" && Decimal(254) == "254"
  {
  }

  lemma V4LabelsFrom0(i: nat)
    requires 0 <= i < 5
    ensures Spelled(V4Label(i), V4Prefix(i))
  {
    SmallDecimals();
    LargeDecimals();
    hide Decimal;
  }

  lemma V4LabelsFrom5(i: nat)
    requires 5 <= i < 10
    ensures Spelled(V4Label(i), V4Prefix(i))
  {
    SmallDecimals();
    LargeDecimals();
    hide Decimal;
  }

  lemma V4LabelsFrom10(i: nat)
    requires 10 <= i < 15
    ensures Spelled(V4Label(i), V4Prefix(i))
  {
    SmallDecimals();
    LargeDecimals();
    hide Decimal;
  }

  /** Every IPv4 label, read by the project's own parser, names the network of its rule. */
  lemma V4LabelsName(i: nat)
    requires i < IPV4_RULES
    ensures Names(V4Label(i), Ipv4, V4Prefix(i))
  {
    hide V4Label, V4Prefix, ValueIn, Ipv4, Split, Decimal, DecimalQuad;
    if i < 5 {
      V4LabelsFrom0(i);
    } else if i < 10 {
      V4LabelsFrom5(i);
    } else {
      V4LabelsFrom10(i);
    }
    var p := V4Prefix(i);
    DecimalQuadReads(p.net);
    DecimalReads(p.length);
    SplitCidr(DecimalQuad(p.net).Text(), Decimal(p.length));
  }

  /** The labels of the IPv6 table around their "::", and the hex groups they hold. */
  function V6Spelling(i: nat): (f: Form)
    ensures f.compressed && !f.bracketed && |f.head| <= 2 && |f.tail| <= 1
  {
    match i
    case 0 => Form([], true, [], false)
    case 1 => Form([], true, [Hex("1")], false)
    case 2 => Form([Hex("100")], true, [], false)
    case 3 => Form([Hex("2001"), Hex("db8")], true, [], false)
    case 4 => Form([Hex("fc00")], true, [], false)
    case 5 => Form([Hex("fe80")], true, [], false)
    case _ => Form([Hex("ff00")], true, [], false)
  }

  lemma ShortJoin(ps: seq<Piece>)
    requires |ps| <= 2
    ensures Join(Texts(ps), ":") == if ps == [] then "" else if |ps| == 1 then ps[0].Text() else ps[0].Text() + ":" + ps[1].Text()
  {
    if |ps| == 2 { assert Texts(ps)[1..] == [ps[1].Text()]; }
    hide Piece.Text;
  }

  lemma ShortMeaning(ps: seq<Piece>)
    requires |ps| <= 2 && AllValid(ps)
    ensures MeaningOf(ps) == if ps == [] then [] else if |ps| == 1 then ps[0].Meaning() else ps[0].Meaning() + ps[1].Meaning()
  {
    if |ps| == 1 {
      assert ps[1..] == [];
      assert ps[0].Meaning() + [] == ps[0].Meaning();
    } else if |ps| == 2 {
      assert ps[1..] == [ps[1]];
      assert ps[1..][1..] == [];
      assert ps[1].Meaning() + [] == ps[1].Meaning();
    }
    hide Piece.Meaning, Piece.Valid;
  }

  lemma FourDigits(s: string)
    requires AllHex(s) && |s| == 4
    ensures ValueIn(16, s) == 16 * (16 * (16 * DigitValue(s[0]) + DigitValue(s[1])) + DigitValue(s[2])) + DigitValue(s[3])
  {
    ShortValues(16, s[..3]);
    assert s[..3][0] == s[0] && s[..3][1] == s[1] && s[..3][2] == s[2];
  }

  lemma V6Groups()
    ensures ValueIn(16, "1") == 1 && ValueIn(16, "100") == 0x100 && ValueIn(16, "db8") == 0xdb8
    ensures ValueIn(16, "2001") == 0x2001 && ValueIn(16, "fc00") == 0xfc00 && ValueIn(16, "fe80") == 0xfe80 && ValueIn(16, "ff00") == 0xff00
  {
    ShortValues(16, "1"); ShortValues(16, "100"); ShortValues(16, "db8");
    FourDigits("2001"); FourDigits("fc00"); FourDigits("fe80"); FourDigits("ff00");
    hide ValueIn;
  }

  lemma HexMeans(digits: string)
    requires IsHexGroup(digits)
    ensures Hex(digits).Valid() && Hex(digits).Meaning() == [ValueIn(16, digits)]
  {
  }

  lemma V6SpellingValid(i: nat)
    requires i < IPV6_RULES
    ensures AllValid(V6Spelling(i).head) && AllValid(V6Spelling(i).tail)
  {
  }

  /** Head groups, zeros, tail groups, each side of at most two. */
  lemma ShortForm(f: Form, g: seq<nat>, h: seq<nat>)
    requires f.compressed && AllValid(f.head) && AllValid(f.tail) && MeaningOf(f.head) == g && MeaningOf(f.tail) == h
    requires |g| + |h| <= 8
    ensures f.Valid() && f.Meaning() == g + Copies(0, 8 - |g| - |h|) + h
  {
    hide AllValid, MeaningOf;
  }

  function V6Head(i: nat): seq<nat> {
    match i
    case 0 => []
    case 1 => []
    case 2 => [0x100]
    case 3 => [0x2001, 0xdb8]
    case 4 => [0xfc00]
    case 5 => [0xfe80]
    case _ => [0xff00]
  }

  lemma V6HeadMeans(i: nat)
    requires i < IPV6_RULES
    ensures AllValid(V6Spelling(i).head) && MeaningOf(V6Spelling(i).head) == V6Head(i)
  {
    V6SpellingValid(i);
    ShortMeaning(V6Spelling(i).head);
    V6Groups();
    HexMeans("100"); HexMeans("2001"); HexMeans("db8"); HexMeans("fc00"); HexMeans("fe80"); HexMeans("ff00");
    hide ValueIn, MeaningOf, AllValid, Piece.Meaning, Piece.Valid;
  }

  lemma V6TailMeans(i: nat)
    requires i < IPV6_RULES
    ensures AllValid(V6Spelling(i).tail) && MeaningOf(V6Spelling(i).tail) == if i == 1 then [1] else []
  {
    V6SpellingValid(i);
    ShortMeaning(V6Spelling(i).tail);
    V6Groups();
    HexMeans("1");
    hide ValueIn, MeaningOf, AllValid, Piece.Meaning, Piece.Valid;
  }

  lemma V6SpellingMeans(i: nat)
    requires i < IPV6_RULES
    ensures V6Spelling(i).Valid() && V6Spelling(i).Meaning() == V6Prefix(i).net
  {
    V6HeadMeans(i);
    V6TailMeans(i);
    hide V6Spelling, MeaningOf, AllValid, Form.Meaning, Form.Valid;
    ShortForm(V6Spelling(i), V6Head(i), if i == 1 then [1] else []);
  }

  function Shown(ps: seq<Piece>): string
    requires |ps| <= 2
  {
    if ps == [] then "" else if |ps| == 1 then ps[0].Text() else ps[0].Text() + ":" + ps[1].Text()
  }

  lemma ShortText(f: Form)
    requires f.compressed && !f.bracketed && |f.head| <= 2 && |f.tail| <= 2
    ensures f.Text() == Shown(f.head) + "::" + Shown(f.tail)
  {
    ShortJoin(f.head);
    ShortJoin(f.tail);
    hide Piece.Text, Join, Texts;
  }

  function V6Address(i: nat): string {
    match i
    case 0 => "::"
    case 1 => "::1"
    case 2 => "100::"
    case 3 => "2001:db8::"
    case 4 => "fc00::"
    case 5 => "fe80::"
    case _ => "ff00::"
  }

  lemma V6Shown(i: nat)
    requires i < IPV6_RULES
    ensures Shown(V6Spelling(i).head) + "::" + Shown(V6Spelling(i).tail) == V6Address(i)
  {
  }

  lemma V6LabelText(i: nat)
    requires i < IPV6_RULES
    ensures V6Label(i) == V6Address(i) + "/" + Decimal(V6Prefix(i).length)
  {
    V6Decimals();
    hide Decimal;
  }

  lemma V6Decimals()
    ensures Decimal(128) == "128" && Decimal(64) == "64" && Decimal(32) == "32" && Decimal(7) == "7"
    ensures Decimal(10) == "10" && Decimal(8) == "8"
  {
  }

  lemma {:induction false} JoinedHasNoSlash(ps: seq<Piece>)
    requires AllValid(ps)
    ensures Free(Join(Texts(ps), ":"), '/')
    decreases |ps|
  {
    if ps != [] {
      assert Texts(ps)[1..] == Texts(ps[1..]);
      JoinedHasNoSlash(ps[1..]);
    }
  }

  lemma FreeConcat(a: string, b: string, sep: char)
    requires Free(a, sep) && Free(b, sep)
    ensures Free(a + b, sep)
  {
  }

  lemma FormHasNoSlash(f: Form)
    requires f.Valid()
    ensures Free(f.Text(), '/')
  {
    JoinedHasNoSlash(f.head);
    JoinedHasNoSlash(f.tail);
    assert Free("::", '/') && Free("[", '/') && Free("]", '/');
    hide Join, Texts, AllValid, Free;
    var a, b := Join(Texts(f.head), ":"), Join(Texts(f.tail), ":");
    FreeConcat(a, "::", '/');
    FreeConcat(a + "::", b, '/');
    FreeConcat("[", Inner(f), '/');
    FreeConcat("[" + Inner(f), "]", '/');
  }

  lemma V6SpellingIsLabel(i: nat)
    requires i < IPV6_RULES
    ensures V6Label(i) == V6Spelling(i).Text() + "/" + Decimal(V6Prefix(i).length)
  {
    ShortText(V6Spelling(i));
    V6Shown(i);
    V6LabelText(i);
    hide Form.Text, Decimal, Shown, V6Spelling, V6Address, V6Label, V6Prefix;
  }

  /** Every IPv6 label, read by the project's own parser, names the network of its rule. */
  lemma V6LabelsName(i: nat)
    requires i < IPV6_RULES
    ensures Names(V6Label(i), Ipv6, V6Prefix(i))
  {
    V6SpellingMeans(i);
    V6SpellingIsLabel(i);
    hide V6Spelling, V6Label, V6Prefix, ValueIn, Ipv6, Split, Decimal, Form.Meaning, Form.Valid;
    ParserInvertsPrinter(V6Spelling(i));
    FormHasNoSlash(V6Spelling(i));
    DecimalReads(V6Prefix(i).length);
    SplitCidr(V6Spelling(i).Text(), Decimal(V6Prefix(i).length));
  }
}
