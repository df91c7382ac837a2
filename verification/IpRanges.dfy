/**
 * The rule tables of packages/core/src/ip-address.ts with blockedRange and isLoopback. A rule's mask test
 * is proved to be membership in the prefix its label names, and a mapped address to fare as the plain one.
 */
module IpRanges {
  import opened Prelude
  import opened Strings
  import opened IpText
  import opened IpAddress

  // ----- prefixes

  /** `x >> k`. */
  function Shr(x: nat, k: nat): nat {
    if k == 0 then x else Shr(x / 2, k - 1)
  }

  /** The number whose digits in the given base are listed, most significant first. */
  function NumberOf(base: nat, digits: seq<nat>): nat {
    if digits == [] then 0 else base * NumberOf(base, digits[..|digits| - 1]) + digits[|digits| - 1]
  }

  predicate DigitsBelow(base: nat, digits: seq<nat>) {
    forall i :: 0 <= i < |digits| ==> digits[i] < base
  }

  /** A network: an address and how many of its leading bits matter. */
  datatype Prefix = Prefix(net: seq<nat>, length: nat)

  /** Numeric membership: the addresses agree once the bits beyond the prefix are shifted out. */
  predicate InPrefix(bits: nat, base: nat, address: seq<nat>, p: Prefix)
    requires p.length <= bits
  {
    Shr(NumberOf(base, address), bits - p.length) == Shr(NumberOf(base, p.net), bits - p.length)
  }

  lemma {:induction false} ShrTwice(x: nat, a: nat, b: nat)
    ensures Shr(x, a + b) == Shr(Shr(x, a), b)
    decreases a
  {
    if a > 0 { ShrTwice(x / 2, a - 1, b); }
  }

  lemma {:induction false} ShrOnce(x: nat, k: nat)
    ensures Shr(x, k + 1) == Shr(x, k) / 2
    decreases k
  {
    if k > 0 { ShrOnce(x / 2, k - 1); }
  }

  lemma ShrSmall(x: nat)
    ensures Shr(x, 0) == x && Shr(x, 1) == x / 2 && Shr(x, 4) == x / 16 && Shr(x, 6) == x / 64
    ensures Shr(x, 8) == x / 256 && Shr(x, 9) == x / 512
  {
    ShrNothing(x);
    ShrOnce(x, 0); ShrOnce(x, 1); ShrOnce(x, 2); ShrOnce(x, 3); ShrOnce(x, 4);
    ShrOnce(x, 5); ShrOnce(x, 6); ShrOnce(x, 7); ShrOnce(x, 8);
    hide Shr;
  }

  lemma ShrNothing(x: nat)
    ensures Shr(x, 0) == x
  {
  }

  /** Shifting out one whole digit drops it. */
  lemma ShrDigit(width: nat, base: nat, digits: seq<nat>)
    requires (width == 8 && base == 256) || (width == 16 && base == 65536)
    requires digits != [] && DigitsBelow(base, digits)
    ensures Shr(NumberOf(base, digits), width) == NumberOf(base, digits[..|digits| - 1])
  {
    var n := NumberOf(base, digits);
    ShrSmall(n);
    if width == 16 {
      ShrTwice(n, 8, 8);
      ShrSmall(n / 256);
      assert n / 256 / 256 == n / 65536;
    }
  }

  lemma {:induction false} ShrDigits(width: nat, base: nat, digits: seq<nat>, k: nat)
    requires (width == 8 && base == 256) || (width == 16 && base == 65536)
    requires k <= |digits| && DigitsBelow(base, digits)
    ensures Shr(NumberOf(base, digits), width * (|digits| - k)) == NumberOf(base, digits[..k])
    decreases |digits|
  {
    if k == |digits| {
      assert digits[..k] == digits;
    } else {
      ShrDigit(width, base, digits);
      var shorter := digits[..|digits| - 1];
      ShrTwice(NumberOf(base, digits), width, width * (|shorter| - k));
      ShrDigits(width, base, shorter, k);
      assert shorter[..k] == digits[..k];
      assert width * (|digits| - k) == width + width * (|shorter| - k);
    }
  }

  lemma {:induction false} NumbersDiffer(base: nat, a: seq<nat>, b: seq<nat>)
    requires (base == 256 || base == 65536) && |a| == |b| && DigitsBelow(base, a) && DigitsBelow(base, b)
    ensures NumberOf(base, a) == NumberOf(base, b) <==> a == b
    decreases |a|
  {
    if a != [] {
      var m := |a| - 1;
      NumbersDiffer(base, a[..m], b[..m]);
      assert a == a[..m] + [a[m]] && b == b[..m] + [b[m]];
    }
  }

  /** Membership looks at the first `k` digits, without the low `j` bits of the last of them. */
  lemma InPrefixByDigits(bits: nat, width: nat, base: nat, address: seq<nat>, p: Prefix, k: nat, j: nat)
    requires (width == 8 && base == 256) || (width == 16 && base == 65536)
    requires |address| == |p.net| && k <= |p.net|
    requires p.length <= bits && bits - p.length == width * (|p.net| - k) + j
    requires DigitsBelow(base, address) && DigitsBelow(base, p.net)
    ensures InPrefix(bits, base, address, p)
        <==> Shr(NumberOf(base, address[..k]), j) == Shr(NumberOf(base, p.net[..k]), j)
    ensures j == 0 ==> (InPrefix(bits, base, address, p) <==> address[..k] == p.net[..k])
  {
    hide Shr, NumberOf;
    ShrDigits(width, base, address, k);
    ShrDigits(width, base, p.net, k);
    ShrTwice(NumberOf(base, address), width * (|p.net| - k), j);
    ShrTwice(NumberOf(base, p.net), width * (|p.net| - k), j);
    if j == 0 {
      NumbersDiffer(base, address[..k], p.net[..k]);
      ShrNothing(NumberOf(base, address[..k]));
      ShrNothing(NumberOf(base, p.net[..k]));
    }
  }

  lemma SameFront(a: seq<nat>, b: seq<nat>, k: nat)
    requires k <= |a| && k <= |b|
    ensures a[..k] == b[..k] <==> forall j :: 0 <= j < k ==> a[j] == b[j]
  {
    if a[..k] == b[..k] {
      forall j | 0 <= j < k ensures a[j] == b[j] {
        assert a[..k][j] == b[..k][j];
      }
    }
  }

  // ----- the rule tables

  const IPV4_RULES := 15
  const IPV6_RULES := 7

  function V4Label(i: nat): string {
    match i
    case 0 => "0.0.0.0/8"
    case 1 => "10.0.0.0/8"
    case 2 => "100.64.0.0/10"
    case 3 => "127.0.0.0/8"
    case 4 => "169.254.0.0/16"
    case 5 => "172.16.0.0/12"
    case 6 => "192.0.0.0/24"
    case 7 => "192.0.2.0/24"
    case 8 => "192.88.99.0/24"
    case 9 => "192.168.0.0/16"
    case 10 => "198.18.0.0/15"
    case 11 => "198.51.100.0/24"
    case 12 => "203.0.113.0/24"
    case 13 => "224.0.0.0/4"
    case _ => "240.0.0.0/4"
  }

  /** The network a label names. */
  function V4Prefix(i: nat): (p: Prefix)
    ensures |p.net| == 4 && DigitsBelow(256, p.net) && p.length <= 32
  {
    match i
    case 0 => Prefix([0, 0, 0, 0], 8)
    case 1 => Prefix([10, 0, 0, 0], 8)
    case 2 => Prefix([100, 64, 0, 0], 10)
    case 3 => Prefix([127, 0, 0, 0], 8)
    case 4 => Prefix([169, 254, 0, 0], 16)
    case 5 => Prefix([172, 16, 0, 0], 12)
    case 6 => Prefix([192, 0, 0, 0], 24)
    case 7 => Prefix([192, 0, 2, 0], 24)
    case 8 => Prefix([192, 88, 99, 0], 24)
    case 9 => Prefix([192, 168, 0, 0], 16)
    case 10 => Prefix([198, 18, 0, 0], 15)
    case 11 => Prefix([198, 51, 100, 0], 24)
    case 12 => Prefix([203, 0, 113, 0], 24)
    case 13 => Prefix([224, 0, 0, 0], 4)
    case _ => Prefix([240, 0, 0, 0], 4)
  }

  predicate V4Matches(i: nat, o: seq<nat>)
    requires |o| == 4
  {
    match i
    case 0 => o[0] == 0
    case 1 => o[0] == 10
    case 2 => o[0] == 100 && BitAnd(o[1], 0xc0) == 0x40
    case 3 => o[0] == 127
    case 4 => o[0] == 169 && o[1] == 254
    case 5 => o[0] == 172 && 16 <= o[1] <= 31
    case 6 => o[0] == 192 && o[1] == 0 && o[2] == 0
    case 7 => o[0] == 192 && o[1] == 0 && o[2] == 2
    case 8 => o[0] == 192 && o[1] == 88 && o[2] == 99
    case 9 => o[0] == 192 && o[1] == 168
    case 10 => o[0] == 198 && BitAnd(o[1], 0xfe) == 18
    case 11 => o[0] == 198 && o[1] == 51 && o[2] == 100
    case 12 => o[0] == 203 && o[1] == 0 && o[2] == 113
    case 13 => BitAnd(o[0], 0xf0) == 0xe0
    case _ => BitAnd(o[0], 0xf0) == 0xf0
  }

  function V6Label(i: nat): string {
    match i
    case 0 => "::/128"
    case 1 => "::1/128"
    case 2 => "100::/64"
    case 3 => "2001:db8::/32"
    case 4 => "fc00::/7"
    case 5 => "fe80::/10"
    case _ => "ff00::/8"
  }

  function V6Prefix(i: nat): (p: Prefix)
    ensures |p.net| == 8 && DigitsBelow(65536, p.net) && p.length <= 128
  {
    match i
    case 0 => Prefix([0, 0, 0, 0, 0, 0, 0, 0], 128)
    case 1 => Prefix([0, 0, 0, 0, 0, 0, 0, 1], 128)
    case 2 => Prefix([0x0100, 0, 0, 0, 0, 0, 0, 0], 64)
    case 3 => Prefix([0x2001, 0x0db8, 0, 0, 0, 0, 0, 0], 32)
    case 4 => Prefix([0xfc00, 0, 0, 0, 0, 0, 0, 0], 7)
    case 5 => Prefix([0xfe80, 0, 0, 0, 0, 0, 0, 0], 10)
    case _ => Prefix([0xff00, 0, 0, 0, 0, 0, 0, 0], 8)
  }

  predicate AllZero(g: seq<nat>) {
    forall i :: 0 <= i < |g| ==> g[i] == 0
  }

  predicate IsOne(g: seq<nat>) {
    forall i :: 0 <= i < |g| ==> g[i] == if i == 7 then 1 else 0
  }

  predicate V6Matches(i: nat, g: seq<nat>)
    requires |g| == 8
  {
    match i
    case 0 => AllZero(g)
    case 1 => IsOne(g)
    case 2 => g[0] == 0x0100 && AllZero(g[1..4])
    case 3 => g[0] == 0x2001 && g[1] == 0x0db8
    case 4 => BitAnd(g[0], 0xfe00) == 0xfc00
    case 5 => BitAnd(g[0], 0xffc0) == 0xfe80
    case _ => BitAnd(g[0], 0xff00) == 0xff00
  }

  // ----- a mask test is prefix membership

  lemma Shls(a: nat)
    ensures Shl(a, 0) == a && Shl(a, 1) == 2 * a && Shl(a, 2) == 4 * a && Shl(a, 4) == 16 * a
    ensures Shl(a, 6) == 64 * a && Shl(a, 8) == 256 * a && Shl(a, 9) == 512 * a
  {
    assert Shl(a, 1) == 2 * Shl(a, 0);
    assert Shl(a, 3) == 2 * Shl(a, 2) == 4 * Shl(a, 1);
    assert Shl(a, 5) == 2 * Shl(a, 4) == 4 * Shl(a, 3);
    assert Shl(a, 7) == 2 * Shl(a, 6) == 4 * Shl(a, 5);
    assert Shl(a, 9) == 2 * Shl(a, 8) == 4 * Shl(a, 7);
  }

  lemma OnesAre()
    ensures Ones(1) == 1 && Ones(2) == 3 && Ones(4) == 15 && Ones(6) == 63 && Ones(7) == 127 && Ones(8) == 255
    ensures Ones(9) == 511 && Ones(10) == 1023
  {
  }

  lemma OctetMasks(x: nat)
    requires x < 256
    ensures BitAnd(x, 0xc0) == x / 64 * 64 && BitAnd(x, 0xfe) == x / 2 * 2 && BitAnd(x, 0xf0) == x / 16 * 16
  {
    hide Shl, Ones, BitAnd;
    OnesAre();
    Shls(3); Shls(15); Shls(127); Shls(x / 64); Shls(x / 2); Shls(x / 16);
    HighBits(x / 64, x % 64, 6, 2);
    HighBits(x / 2, x % 2, 1, 7);
    HighBits(x / 16, x % 16, 4, 4);
  }

  lemma GroupMasks(x: nat)
    requires x < 65536
    ensures BitAnd(x, 0xfe00) == x / 512 * 512 && BitAnd(x, 0xffc0) == x / 64 * 64 && BitAnd(x, 0xff00) == x / 256 * 256
    ensures BitAnd(x, 0xff) == x % 256
  {
    hide Shl, Ones, BitAnd;
    OnesAre();
    Shls(127); Shls(1023); Shls(255); Shls(x / 512); Shls(x / 64); Shls(x / 256);
    HighBits(x / 512, x % 512, 9, 7);
    HighBits(x / 64, x % 64, 6, 10);
    HighBits(x / 256, x % 256, 8, 8);
    LowBits(x / 256, x % 256, 8);
  }

  lemma FirstDigits(base: nat, x: seq<nat>)
    requires |x| >= 2
    ensures NumberOf(base, x[..1]) == x[0] && NumberOf(base, x[..2]) == base * x[0] + x[1]
  {
    assert x[..1][..0] == [] && x[..2][..1] == x[..1];
  }

  /** Whole octets: equality of the leading ones. */
  lemma V4WholeRules(i: nat, o: seq<nat>)
    requires i in {0, 1, 3, 4, 6, 7, 8, 9, 11, 12} && |o| == 4 && DigitsBelow(256, o)
    ensures V4Matches(i, o) <==> InPrefix(32, 256, o, V4Prefix(i))
  {
    var p := V4Prefix(i);
    var k := p.length / 8;
    InPrefixByDigits(32, 8, 256, o, p, k, 0);
    hide InPrefix;
    SameFront(o, p.net, k);
  }

  /** The first octet alone, or the first two, without the low `j` bits. */
  lemma V4ByOneOctet(o: seq<nat>, p: Prefix)
    requires |o| == |p.net| == 4 && DigitsBelow(256, o) && DigitsBelow(256, p.net) && p.length == 4
    ensures InPrefix(32, 256, o, p) <==> o[0] / 16 == p.net[0] / 16
  {
    InPrefixByDigits(32, 8, 256, o, p, 1, 4);
    FirstDigits(256, o);
    FirstDigits(256, p.net);
    ShrSmall(o[0]);
    ShrSmall(p.net[0]);
    hide InPrefix, NumberOf, Shr;
  }

  lemma V4ByTwoOctets(o: seq<nat>, p: Prefix)
    requires |o| == |p.net| == 4 && DigitsBelow(256, o) && DigitsBelow(256, p.net) && p.length in {10, 12, 15}
    ensures var x, y := 256 * o[0] + o[1], 256 * p.net[0] + p.net[1];
            InPrefix(32, 256, o, p)
            <==> (if p.length == 10 then x / 64 == y / 64 else if p.length == 12 then x / 16 == y / 16 else x / 2 == y / 2)
  {
    hide InPrefix, NumberOf, Shr;
    InPrefixByDigits(32, 8, 256, o, p, 2, 16 - p.length);
    FirstDigits(256, o);
    FirstDigits(256, p.net);
    ShrSmall(256 * o[0] + o[1]);
    ShrSmall(256 * p.net[0] + p.net[1]);
  }

  lemma V4MaskRules(i: nat, o: seq<nat>)
    requires i in {2, 5, 10, 13, 14} && |o| == 4 && DigitsBelow(256, o)
    ensures V4Matches(i, o) <==> InPrefix(32, 256, o, V4Prefix(i))
  {
    hide InPrefix, BitAnd;
    OctetMasks(o[0]);
    OctetMasks(o[1]);
    if i >= 13 { V4ByOneOctet(o, V4Prefix(i)); } else { V4ByTwoOctets(o, V4Prefix(i)); }
  }

  /** Every IPv4 rule holds of exactly the addresses in the network its label names. */
  lemma V4RulesArePrefixes(i: nat, o: seq<nat>)
    requires i < IPV4_RULES && |o| == 4 && DigitsBelow(256, o)
    ensures V4Matches(i, o) <==> InPrefix(32, 256, o, V4Prefix(i))
  {
    if i in {2, 5, 10, 13, 14} { V4MaskRules(i, o); } else { V4WholeRules(i, o); }
  }

  lemma ZeroSlice(g: seq<nat>)
    requires |g| == 8
    ensures AllZero(g[1..4]) <==> g[1] == 0 && g[2] == 0 && g[3] == 0
  {
    assert g[1..4] == [g[1], g[2], g[3]];
    if AllZero(g[1..4]) {
      assert g[1..4][0] == g[1] && g[1..4][1] == g[2] && g[1..4][2] == g[3];
    }
  }

  lemma V6WholeRules(i: nat, g: seq<nat>)
    requires i < 4 && |g| == 8 && DigitsBelow(65536, g)
    ensures V6Matches(i, g) <==> InPrefix(128, 65536, g, V6Prefix(i))
  {
    var p := V6Prefix(i);
    var k := p.length / 16;
    InPrefixByDigits(128, 16, 65536, g, p, k, 0);
    hide InPrefix;
    SameFront(g, p.net, k);
    ZeroSlice(g);
  }

  lemma V6ByOneGroup(g: seq<nat>, p: Prefix)
    requires |g| == |p.net| == 8 && DigitsBelow(65536, g) && DigitsBelow(65536, p.net) && p.length in {7, 8, 10}
    ensures var x, y := g[0], p.net[0];
            InPrefix(128, 65536, g, p)
            <==> (if p.length == 7 then x / 512 == y / 512 else if p.length == 10 then x / 64 == y / 64 else x / 256 == y / 256)
  {
    hide InPrefix, NumberOf, Shr;
    InPrefixByDigits(128, 16, 65536, g, p, 1, 16 - p.length);
    FirstDigits(65536, g);
    FirstDigits(65536, p.net);
    ShrSmall(g[0]);
    ShrSmall(p.net[0]);
  }

  lemma V6MaskRules(i: nat, g: seq<nat>)
    requires 4 <= i < 7 && |g| == 8 && DigitsBelow(65536, g)
    ensures V6Matches(i, g) <==> InPrefix(128, 65536, g, V6Prefix(i))
  {
    hide InPrefix, BitAnd;
    GroupMasks(g[0]);
    V6ByOneGroup(g, V6Prefix(i));
  }

  /** Every IPv6 rule holds of exactly the addresses in the network its label names. */
  lemma V6RulesArePrefixes(i: nat, g: seq<nat>)
    requires i < IPV6_RULES && |g| == 8 && DigitsBelow(65536, g)
    ensures V6Matches(i, g) <==> InPrefix(128, 65536, g, V6Prefix(i))
  {
    if i < 4 { V6WholeRules(i, g); } else { V6MaskRules(i, g); }
  }

  // ----- classification

  function LowerChar(c: char): char {
    if 'A' <= c <= 'Z' then (c as int + 32) as char else c
  }

  /** toLowerCase on the letters that an address or "localhost" can hold. */
  function Lower(s: string): (l: string)
    ensures |l| == |s| && forall i :: 0 <= i < |s| ==> l[i] == LowerChar(s[i])
  {
    seq(|s|, i requires 0 <= i < |s| => LowerChar(s[i]))
  }

  function TrimDots(s: string): string {
    if s != "" && s[|s| - 1] == '.' then TrimDots(s[..|s| - 1]) else s
  }

  function Canonical(host: string): string {
    TrimDots(Lower(host))
  }

  /** The embedded IPv4 address of a mapped (::ffff:) or compatible (::) address. */
  function MappedIpv4(g: seq<nat>): Option<seq<nat>>
    requires |g| == 8
  {
    if !AllZero(g[..5]) then None
    else if g[5] != 0xffff && g[5] != 0 then None
    else Some([Shr(g[6], 8), BitAnd(g[6], 0xff), Shr(g[7], 8), BitAnd(g[7], 0xff)])
  }

  /** `find` on the IPv4 table, from rule `i` on. */
  function FindV4(o: seq<nat>, i: nat): Option<string>
    requires |o| == 4 && i <= IPV4_RULES
    decreases IPV4_RULES - i
  {
    if i == IPV4_RULES then None else if V4Matches(i, o) then Some(V4Label(i)) else FindV4(o, i + 1)
  }

  function FindV6(g: seq<nat>, i: nat): Option<string>
    requires |g| == 8 && i <= IPV6_RULES
    decreases IPV6_RULES - i
  {
    if i == IPV6_RULES then None else if V6Matches(i, g) then Some(V6Label(i)) else FindV6(g, i + 1)
  }

  function RangeOfGroups(g: seq<nat>): Option<string>
    requires |g| == 8
  {
    var low := MappedIpv4(g);
    if low.Some? && FindV4(low.value, 0).Some? then FindV4(low.value, 0) else FindV6(g, 0)
  }

  lemma Ipv6Shape(host: string)
    requires Ipv6(host).Some?
    ensures |Ipv6(host).value| == 8 && DigitsBelow(65536, Ipv6(host).value)
  {
    AcceptsOnlyForms(host);
    ParserInvertsPrinter(FormOf(host));
  }

  lemma Ipv4Shape(host: string)
    requires Ipv4(host).Some?
    ensures |Ipv4(host).value| == 4 && DigitsBelow(256, Ipv4(host).value)
  {
    AcceptsOnlyQuads(host);
  }

  function BlockedRange(host: string): Option<string> {
    var c := Canonical(host);
    var groups, octets := Ipv6(c), Ipv4(c);
    if groups.Some? then
      Ipv6Shape(c);
      RangeOfGroups(groups.value)
    else if octets.None? then None
    else
      Ipv4Shape(c);
      FindV4(octets.value, 0)
  }

  predicate LocalName(c: string) {
    c == "localhost" || (|c| >= 10 && c[|c| - 10..] == ".localhost")
  }

  function IsLoopback(host: string): bool {
    var c := Canonical(host);
    if LocalName(c) then true
    else
      var octets, groups := Ipv4(c), Ipv6(c);
      if octets.Some? then
        Ipv4Shape(c);
        octets.value[0] == 127
      else if groups.None? then false
      else
        Ipv6Shape(c);
        IsOne(groups.value) || (MappedIpv4(groups.value).Some? && MappedIpv4(groups.value).value[0] == 127)
  }

  // ----- what holds of every host

  lemma {:induction false} JoinedEndsInDigit(ps: seq<Piece>)
    requires AllValid(ps) && ps != []
    ensures var s := Join(Texts(ps), ":"); s != "" && IsHexDigit(s[|s| - 1])
    decreases |ps|
  {
    assert ps[0].Valid();
    if |ps| > 1 {
      assert Texts(ps)[1..] == Texts(ps[1..]);
      JoinedEndsInDigit(ps[1..]);
    }
    hide ValueIn;
  }

  /** An address ends in a digit, a colon or a bracket. */
  lemma FormEnds(f: Form)
    requires f.Valid()
    ensures var s := f.Text(); s != "" && (IsHexDigit(s[|s| - 1]) || s[|s| - 1] == ':' || s[|s| - 1] == ']')
  {
    if f.head != [] { JoinedEndsInDigit(f.head); }
    if f.tail != [] { JoinedEndsInDigit(f.tail); }
    hide Piece.Text, Piece.Valid;
  }

  lemma QuadEnds(c: string)
    requires Ipv4(c).Some?
    ensures c != "" && IsDigit(c[|c| - 1])
  {
    AcceptsOnlyQuads(c);
    var q := QuadOf(Split(c, '.'));
    assert c[|c| - 1] == q.d[|q.d| - 1];
    hide Ipv4, Split;
  }

  lemma NamesAreNoLiterals(c: string)
    requires LocalName(c)
    ensures Ipv4(c).None? && Ipv6(c).None?
  {
    assert c[|c| - 1] == 't';
    if Ipv4(c).Some? {
      QuadEnds(c);
    }
    if Ipv6(c).Some? {
      AcceptsOnlyForms(c);
      FormEnds(FormOf(c));
    }
    hide Ipv4, Ipv6, Split, Form.Text, Form.Meaning, FormOf, LocalName;
  }

  lemma LiteralsAreApart(c: string)
    requires Ipv4(c).Some?
    ensures Ipv6(c).None?
  {
    AcceptsOnlyQuads(c);
    var q := QuadOf(Split(c, '.'));
    QuadRead(q);
    assert c[0] == q.a[0];
    assert Body(c) == c;
    hide Ipv4, Split, ValueIn, SplitDouble;
  }

  /** A lookup finds the first rule whose network holds the address, and something exactly if one does. */
  lemma {:induction false} FindV4First(o: seq<nat>, i: nat)
    requires |o| == 4 && DigitsBelow(256, o) && i <= IPV4_RULES
    ensures FindV4(o, i).Some? <==> exists j :: i <= j < IPV4_RULES && InPrefix(32, 256, o, V4Prefix(j))
    ensures forall j :: i <= j < IPV4_RULES && InPrefix(32, 256, o, V4Prefix(j))
              && (forall k :: i <= k < j ==> !InPrefix(32, 256, o, V4Prefix(k)))
              ==> FindV4(o, i) == Some(V4Label(j))
    decreases IPV4_RULES - i
  {
    if i < IPV4_RULES {
      V4RulesArePrefixes(i, o);
      FindV4First(o, i + 1);
    }
    hide InPrefix, V4Matches, V4Prefix, V4Label;
  }

  lemma {:induction false} FindV6First(g: seq<nat>, i: nat)
    requires |g| == 8 && DigitsBelow(65536, g) && i <= IPV6_RULES
    ensures FindV6(g, i).Some? <==> exists j :: i <= j < IPV6_RULES && InPrefix(128, 65536, g, V6Prefix(j))
    ensures forall j :: i <= j < IPV6_RULES && InPrefix(128, 65536, g, V6Prefix(j))
              && (forall k :: i <= k < j ==> !InPrefix(128, 65536, g, V6Prefix(k)))
              ==> FindV6(g, i) == Some(V6Label(j))
    decreases IPV6_RULES - i
  {
    if i < IPV6_RULES {
      V6RulesArePrefixes(i, g);
      FindV6First(g, i + 1);
    }
    hide InPrefix, V6Matches, V6Prefix, V6Label;
  }

  // ----- capital letters and trailing dots

  lemma LowerJoins(a: string, b: string)
    ensures Lower(a + b) == Lower(a) + Lower(b)
  {
  }

  lemma {:induction false} LowerKeepsValue(s: string)
    requires AllHex(s)
    ensures AllHex(Lower(s)) && ValueIn(16, Lower(s)) == ValueIn(16, s)
    ensures AllDigits(s) ==> Lower(s) == s
    decreases |s|
  {
    if s != "" {
      LowerKeepsValue(s[..|s| - 1]);
      assert Lower(s)[..|s| - 1] == Lower(s[..|s| - 1]);
    }
  }

  function LowerPiece(p: Piece): Piece {
    if p.Hex? then Hex(Lower(p.digits)) else p
  }

  function LowerPieces(ps: seq<Piece>): seq<Piece> {
    if ps == [] then [] else [LowerPiece(ps[0])] + LowerPieces(ps[1..])
  }

  lemma LowerPieceKeeps(p: Piece)
    requires p.Valid()
    ensures LowerPiece(p).Valid() && LowerPiece(p).Meaning() == p.Meaning() && LowerPiece(p).Text() == Lower(p.Text())
  {
    if p.Hex? {
      LowerKeepsValue(p.digits);
    } else {
      var q := p.quad;
      LowerKeepsValue(q.a); LowerKeepsValue(q.b); LowerKeepsValue(q.c); LowerKeepsValue(q.d);
      assert Lower(".") == ".";
      LowerJoins(q.a, "."); LowerJoins(q.a + ".", q.b); LowerJoins(q.a + "." + q.b, ".");
      LowerJoins(q.a + "." + q.b + ".", q.c); LowerJoins(q.a + "." + q.b + "." + q.c, ".");
      LowerJoins(q.a + "." + q.b + "." + q.c + ".", q.d);
      hide Lower, ValueIn;
    }
  }

  lemma TextsCons(p: Piece, ps: seq<Piece>)
    ensures Texts([p] + ps) == [p.Text()] + Texts(ps)
  {
    hide Piece.Text;
  }

  lemma {:induction false} LowerPiecesMeaning(ps: seq<Piece>)
    requires AllValid(ps)
    ensures AllValid(LowerPieces(ps)) && MeaningOf(LowerPieces(ps)) == MeaningOf(ps)
    decreases |ps|
  {
    if ps != [] {
      LowerPieceKeeps(ps[0]);
      LowerPiecesMeaning(ps[1..]);
      assert LowerPieces(ps)[1..] == LowerPieces(ps[1..]);
    }
    hide Piece.Text, Piece.Valid, Piece.Meaning, LowerPiece;
  }

  lemma {:induction false} LowerPiecesText(ps: seq<Piece>)
    requires AllValid(ps)
    ensures Join(Texts(LowerPieces(ps)), ":") == Lower(Join(Texts(ps), ":"))
    decreases |ps|
  {
    if ps != [] {
      LowerPieceKeeps(ps[0]);
      LowerPiecesText(ps[1..]);
      assert ps == [ps[0]] + ps[1..];
      TextsCons(ps[0], ps[1..]);
      TextsCons(LowerPiece(ps[0]), LowerPieces(ps[1..]));
      var a, b := ps[0].Text(), Join(Texts(ps[1..]), ":");
      assert Lower(":") == ":";
      LowerJoins(a, ":");
      LowerJoins(a + ":", b);
      hide Lower, Piece.Text, Piece.Valid, LowerPiece, Texts;
      assert ([a] + Texts(ps[1..]))[1..] == Texts(ps[1..]);
      assert ([Lower(a)] + Texts(LowerPieces(ps[1..])))[1..] == Texts(LowerPieces(ps[1..]));
    } else {
      assert Lower("") == "";
    }
  }

  lemma LowerPiecesKeep(ps: seq<Piece>)
    requires AllValid(ps)
    ensures AllValid(LowerPieces(ps)) && MeaningOf(LowerPieces(ps)) == MeaningOf(ps)
    ensures Join(Texts(LowerPieces(ps)), ":") == Lower(Join(Texts(ps), ":"))
  {
    LowerPiecesMeaning(ps);
    LowerPiecesText(ps);
  }

  function LowerForm(f: Form): Form {
    Form(LowerPieces(f.head), f.compressed, LowerPieces(f.tail), f.bracketed)
  }

  lemma LowerFormMeaning(f: Form)
    requires f.Valid()
    ensures LowerForm(f).Valid() && LowerForm(f).Meaning() == f.Meaning()
  {
    assert LowerPieces([]) == [];
    hide Lower, LowerPieces, Texts, Join, AllValid, MeaningOf, Copies, Form.Text;
    LowerPiecesKeep(f.head);
    LowerPiecesKeep(f.tail);
  }

  lemma LowerInner(f: Form)
    requires f.Valid()
    ensures Inner(LowerForm(f)) == Lower(Inner(f))
  {
    LowerPiecesKeep(f.head);
    LowerPiecesKeep(f.tail);
    var a, b := Join(Texts(f.head), ":"), Join(Texts(f.tail), ":");
    LowerJoins(a, "::");
    LowerJoins(a + "::", b);
    assert Lower("::") == "::";
    hide Lower, LowerPieces, Texts, Join, AllValid, MeaningOf;
  }

  lemma LowerFormText(f: Form)
    requires f.Valid()
    ensures LowerForm(f).Text() == Lower(f.Text())
  {
    LowerInner(f);
    LowerJoins("[", Inner(f));
    LowerJoins("[" + Inner(f), "]");
    assert Lower("[") == "[" && Lower("]") == "]";
    hide Lower, LowerPieces, Texts, Join, AllValid, MeaningOf;
  }

  /** However it is capitalised, a form is classified as the address it means. */
  lemma CanonicalForm(f: Form)
    requires f.Valid()
    ensures Ipv6(Canonical(f.Text())) == Some(f.Meaning())
  {
    LowerFormMeaning(f);
    LowerFormText(f);
    FormEnds(LowerForm(f));
    ParserInvertsPrinter(LowerForm(f));
    hide Form.Text, Form.Valid, Form.Meaning, Ipv6, Lower;
  }

  lemma CanonicalQuad(q: Quad)
    requires q.Valid()
    ensures Ipv4(Canonical(q.Text())) == Some(q.Bytes())
  {
    LowerPieceKeeps(Dotted(q));
    QuadRead(q);
    assert q.Text()[|q.Text()| - 1] == q.d[|q.d| - 1];
    hide Ipv4, Lower, ValueIn;
  }

  // ----- mapped addresses

  lemma BytesOf(a: nat, b: nat)
    requires a < 256 && b < 256
    ensures Shr(256 * a + b, 8) == a && BitAnd(256 * a + b, 0xff) == b
  {
    hide Shr, BitAnd;
    ShrSmall(256 * a + b);
    GroupMasks(256 * a + b);
  }

  function Mapped(o: seq<nat>): seq<nat>
    requires |o| == 4
  {
    [0, 0, 0, 0, 0, 0xffff, 256 * o[0] + o[1], 256 * o[2] + o[3]]
  }

  lemma MappedBytes(o: seq<nat>)
    requires |o| == 4 && DigitsBelow(256, o)
    ensures MappedIpv4(Mapped(o)) == Some(o)
  {
    hide Shr, BitAnd;
    BytesOf(o[0], o[1]);
    BytesOf(o[2], o[3]);
    assert MappedIpv4(Mapped(o)).value == o;
  }

  lemma HostOfGroups(host: string, g: seq<nat>)
    requires Ipv6(Canonical(host)) == Some(g) && |g| == 8
    ensures BlockedRange(host) == RangeOfGroups(g)
    ensures IsLoopback(host) == (IsOne(g) || (MappedIpv4(g).Some? && MappedIpv4(g).value[0] == 127))
  {
    var c := Canonical(host);
    hide Canonical, Ipv6, Ipv4, RangeOfGroups, LocalName, MappedIpv4, IsOne;
    if LocalName(c) { NamesAreNoLiterals(c); }
    if Ipv4(c).Some? { LiteralsAreApart(c); }
  }

  lemma HostOfOctets(host: string, o: seq<nat>)
    requires Ipv4(Canonical(host)) == Some(o) && |o| == 4
    ensures BlockedRange(host) == FindV4(o, 0) && IsLoopback(host) == (o[0] == 127)
  {
    var c := Canonical(host);
    hide Canonical, Ipv6, Ipv4, FindV4, LocalName, MappedIpv4, IsOne, RangeOfGroups;
    if LocalName(c) { NamesAreNoLiterals(c); }
    LiteralsAreApart(c);
  }

  /** However it is spelled, a ::ffff: address is blocked, and is loopback, exactly as its plain IPv4 address is. */
  lemma MappedFaresAsPlain(f: Form, q: Quad)
    requires f.Valid() && q.Valid() && f.Meaning() == [0, 0, 0, 0, 0, 0xffff] + q.Pair()
    ensures BlockedRange(f.Text()) == BlockedRange(q.Text()) && IsLoopback(f.Text()) == IsLoopback(q.Text())
  {
    var o := q.Bytes();
    assert f.Meaning() == Mapped(o);
    CanonicalForm(f);
    CanonicalQuad(q);
    hide Canonical, Form.Text, Quad.Text, Form.Meaning, Form.Valid, Quad.Bytes, Ipv6, Ipv4, BlockedRange, IsLoopback;
    HostOfGroups(f.Text(), Mapped(o));
    HostOfOctets(q.Text(), o);
    MappedBytes(o);
    NoV6RuleForMapped(Mapped(o));
    hide FindV4, FindV6, MappedIpv4, IsOne;
  }

  lemma NoV6RuleForMapped(g: seq<nat>)
    requires |g| == 8 && g[0] == 0 && g[5] == 0xffff
    ensures FindV6(g, 0).None? && !IsOne(g)
  {
    assert BitAnd(0, 0xfe00) == BitAnd(0, 0xffc0) == BitAnd(0, 0xff00) == 0;
    assert FindV6(g, 6).None?;
    assert FindV6(g, 5).None?;
    assert FindV6(g, 3).None?;
    assert FindV6(g, 1).None?;
  }

  // ----- what is blocked

  ghost predicate InBlockedV4(o: seq<nat>) {
    exists j :: 0 <= j < IPV4_RULES && InPrefix(32, 256, o, V4Prefix(j))
  }

  ghost predicate InBlockedV6(g: seq<nat>) {
    exists j :: 0 <= j < IPV6_RULES && InPrefix(128, 65536, g, V6Prefix(j))
  }

  lemma MappedShape(g: seq<nat>)
    requires |g| == 8 && DigitsBelow(65536, g) && MappedIpv4(g).Some?
    ensures |MappedIpv4(g).value| == 4 && DigitsBelow(256, MappedIpv4(g).value)
  {
    hide Shr, BitAnd;
    ShrSmall(g[6]); ShrSmall(g[7]); GroupMasks(g[6]); GroupMasks(g[7]);
  }

  lemma GroupsBlocked(g: seq<nat>)
    requires |g| == 8 && DigitsBelow(65536, g)
    ensures RangeOfGroups(g).Some? <==> (MappedIpv4(g).Some? && InBlockedV4(MappedIpv4(g).value)) || InBlockedV6(g)
  {
    if MappedIpv4(g).Some? {
      MappedShape(g);
      FindV4First(MappedIpv4(g).value, 0);
    }
    FindV6First(g, 0);
    hide InPrefix, FindV4, FindV6, MappedIpv4;
  }

  /**
   * A host is blocked exactly if it is an address literal in a listed network: an IPv4 address, the IPv4
   * address inside a mapped or compatible one, or an IPv6 address.
   */
  lemma BlockedExactly(host: string)
    ensures var groups, octets := Ipv6(Canonical(host)), Ipv4(Canonical(host));
            BlockedRange(host).Some?
            <==> (if groups.Some? then |groups.value| == 8 && ((MappedIpv4(groups.value).Some? && InBlockedV4(MappedIpv4(groups.value).value))
                                                               || InBlockedV6(groups.value))
                  else octets.Some? && InBlockedV4(octets.value))
  {
    var c := Canonical(host);
    hide Ipv6, Ipv4, Canonical, RangeOfGroups, FindV4, InPrefix, MappedIpv4, InBlockedV4, InBlockedV6;
    if Ipv6(c).Some? {
      Ipv6Shape(c);
      GroupsBlocked(Ipv6(c).value);
    } else if Ipv4(c).Some? {
      Ipv4Shape(c);
      OctetsBlocked(Ipv4(c).value);
    }
  }

  lemma OctetsBlocked(o: seq<nat>)
    requires |o| == 4 && DigitsBelow(256, o)
    ensures FindV4(o, 0).Some? <==> InBlockedV4(o)
  {
    FindV4First(o, 0);
  }

  // ----- loopback

  /** Every loopback host but the localhost names is blocked. */
  lemma LoopbackIsBlocked(host: string)
    requires IsLoopback(host)
    ensures BlockedRange(host).Some? <==> !LocalName(Canonical(host))
  {
    var c := Canonical(host);
    hide Canonical;
    if LocalName(c) {
      NamesAreNoLiterals(c);
    } else if Ipv4(c).Some? {
      LiteralsAreApart(c);
      Ipv4Shape(c);
      LoopbackRule(Ipv4(c).value);
    } else {
      Ipv6Shape(c);
      LoopbackGroups(Ipv6(c).value);
    }
    hide Ipv4, Ipv6, LocalName, FindV4, RangeOfGroups, MappedIpv4;
  }

  lemma LoopbackRule(o: seq<nat>)
    requires |o| == 4 && (o[0] == 127 || o[0] == 0)
    ensures FindV4(o, 0).Some? && (o[0] == 0 ==> FindV4(o, 0) == Some("0.0.0.0/8"))
  {
    assert V4Matches(3, o) || V4Matches(0, o);
    assert FindV4(o, 3).Some? || V4Matches(0, o);
    assert FindV4(o, 1).Some? || V4Matches(0, o);
  }

  lemma LoopbackGroups(g: seq<nat>)
    requires |g| == 8 && (IsOne(g) || (MappedIpv4(g).Some? && MappedIpv4(g).value[0] == 127))
    ensures RangeOfGroups(g).Some?
  {
    if IsOne(g) {
      assert AllZero(g[..5]);
      ShrSmall(0);
    }
    LoopbackRule(MappedIpv4(g).value);
    hide FindV4, FindV6, BitAnd, Shr;
  }

  /** The labels of the unspecified and the loopback address are never reported: 0.0.0.0/8 answers first. */
  lemma UnreachableLabels(host: string)
    ensures BlockedRange(host) != Some("::/128") && BlockedRange(host) != Some("::1/128")
  {
    var c := Canonical(host);
    if Ipv6(c).Some? {
      Ipv6Shape(c);
      ZeroAndOneAnsweredFirst(Ipv6(c).value);
    } else if Ipv4(c).Some? {
      Ipv4Shape(c);
      V4LabelsAreV4(Ipv4(c).value, 0);
    }
    hide Ipv4, Ipv6, FindV4, RangeOfGroups, Canonical;
  }

  lemma {:induction false} V4LabelsAreV4(o: seq<nat>, i: nat)
    requires |o| == 4 && i <= IPV4_RULES
    ensures FindV4(o, i).Some? ==> FindV4(o, i).value != "" && FindV4(o, i).value[0] != ':'
    decreases IPV4_RULES - i
  {
    if i < IPV4_RULES { V4LabelsAreV4(o, i + 1); }
    hide V4Matches;
  }

  lemma {:induction false} V6LabelsLater(g: seq<nat>, i: nat)
    requires |g| == 8 && 2 <= i <= IPV6_RULES
    ensures FindV6(g, i).Some? ==> FindV6(g, i).value != "" && FindV6(g, i).value[0] != ':'
    decreases IPV6_RULES - i
  {
    if i < IPV6_RULES { V6LabelsLater(g, i + 1); }
    hide V6Matches;
  }

  lemma ZeroAndOneAnsweredFirst(g: seq<nat>)
    requires |g| == 8
    ensures RangeOfGroups(g).Some? ==> RangeOfGroups(g).value != "" && RangeOfGroups(g).value[0] != ':'
  {
    V6LabelsLater(g, 2);
    if MappedIpv4(g).Some? { V4LabelsAreV4(MappedIpv4(g).value, 0); }
    if AllZero(g) || IsOne(g) {
      ShrSmall(0);
      assert AllZero(g[..5]) && g[6] == 0;
      LoopbackRule(MappedIpv4(g).value);
    }
    hide FindV4, BitAnd, Shr;
  }

  // ----- dots at the end, and names

  lemma {:induction false} TrimsDots(s: string, n: nat)
    ensures TrimDots(s + Copies('.', n)) == TrimDots(s)
    decreases n
  {
    if n == 0 {
      assert s + Copies('.', 0) == s;
    } else {
      assert (s + Copies('.', n))[..|s| + n - 1] == s + Copies('.', n - 1);
      TrimsDots(s, n - 1);
    }
  }

  /** Any number of dots at the end of a host changes neither answer. */
  lemma TrailingDotsIgnored(host: string, n: nat)
    ensures BlockedRange(host + Copies('.', n)) == BlockedRange(host) && IsLoopback(host + Copies('.', n)) == IsLoopback(host)
  {
    assert Lower(host + Copies('.', n)) == Lower(host) + Copies('.', n);
    TrimsDots(Lower(host), n);
    assert Canonical(host + Copies('.', n)) == Canonical(host);
    hide Canonical, Lower, Ipv4, Ipv6, LocalName, MappedIpv4, IsOne, FindV4, RangeOfGroups;
  }

  /** What a host is compared as has no dot at its end and no capital letter. */
  lemma {:induction false} TrimmedEnds(s: string)
    ensures TrimDots(s) <= s && (TrimDots(s) != "" ==> TrimDots(s)[|TrimDots(s)| - 1] != '.')
    decreases |s|
  {
    if s != "" && s[|s| - 1] == '.' { TrimmedEnds(s[..|s| - 1]); }
  }

  /**
   * A host is loopback exactly if it is a localhost name, a literal in 127.0.0.0/8, ::1, or a literal whose embedded
   * IPv4 address is in 127.0.0.0/8.
   */
  lemma LoopbackExactly(host: string)
    ensures var c := Canonical(host);
            IsLoopback(host) <==>
              || c == "localhost" || (exists p: string :: c == p + ".localhost")
              || (Ipv4(c).Some? && |Ipv4(c).value| > 0 && Ipv4(c).value[0] == 127)
              || (Ipv6(c).Some? && |Ipv6(c).value| == 8
                  && (Ipv6(c).value == [0, 0, 0, 0, 0, 0, 0, 1]
                      || (MappedIpv4(Ipv6(c).value).Some? && |MappedIpv4(Ipv6(c).value).value| == 4 && MappedIpv4(Ipv6(c).value).value[0] == 127)))
  {
    var c := Canonical(host);
    hide Canonical, Ipv4, Ipv6, MappedIpv4;
    assert LocalName(c) <==> c == "localhost" || exists p: string :: c == p + ".localhost" by {
      if |c| >= 10 && c[|c| - 10..] == ".localhost" { assert c == c[..|c| - 10] + ".localhost"; }
      if p: string :| c == p + ".localhost" { assert c[|c| - 10..] == ".localhost"; }
    }
    if Ipv4(c).Some? { LiteralsAreApart(c); Ipv4Shape(c); }
    if Ipv6(c).Some? {
      Ipv6Shape(c);
      var g := Ipv6(c).value;
      assert IsOne(g) <==> g == [0, 0, 0, 0, 0, 0, 0, 1];
      if MappedIpv4(g).Some? { MappedShape(g); }
    }
    hide LocalName, IsOne;
  }
}
