/**
 * The address literal parser of packages/core/src/ip-address.ts. The textual forms are given on their
 * own, as data with a printer; the parser is proved to read exactly the printed forms, as what they mean.
 */
module IpAddress {
  import opened Prelude
  import opened Strings
  import opened IpText

  // ----- digits

  predicate IsDigit(c: char) {
    '0' <= c <= '9'
  }

  predicate IsHexDigit(c: char) {
    IsDigit(c) || 'a' <= c <= 'f' || 'A' <= c <= 'F'
  }

  function DigitValue(c: char): (v: nat)
    requires IsHexDigit(c)
    ensures v < 16
  {
    if IsDigit(c) then c as int - '0' as int
    else if 'a' <= c <= 'f' then c as int - 'a' as int + 10
    else c as int - 'A' as int + 10
  }

  predicate AllDigits(s: string) {
    forall i :: 0 <= i < |s| ==> IsDigit(s[i])
  }

  predicate AllHex(s: string) {
    forall i :: 0 <= i < |s| ==> IsHexDigit(s[i])
  }

  /** The number the digits write in the given base. */
  function ValueIn(base: nat, s: string): nat
    requires AllHex(s)
  {
    if s == "" then 0 else base * ValueIn(base, s[..|s| - 1]) + DigitValue(s[|s| - 1])
  }

  // ----- parseIpv4

  predicate IsOctet(part: string) {
    1 <= |part| <= 3 && AllDigits(part) && ValueIn(10, part) <= 255
  }

  function Octets(parts: seq<string>): Option<seq<nat>> {
    if parts == [] then Some([])
    else if !IsOctet(parts[0]) then None
    else
      var rest := Octets(parts[1..]);
      if rest.None? then None else Some([ValueIn(10, parts[0])] + rest.value)
  }

  function Ipv4(host: string): Option<seq<nat>> {
    var parts := Split(host, '.');
    if |parts| != 4 then None else Octets(parts)
  }

  lemma {:induction false} OctetsAppend(a: seq<string>, b: seq<string>)
    ensures Octets(a + b) == (if Octets(a).None? || Octets(b).None? then None else Some(Octets(a).value + Octets(b).value))
    decreases |a|
  {
    if a == [] {
      assert a + b == b;
      if Octets(b).Some? { assert [] + Octets(b).value == Octets(b).value; }
    } else {
      assert (a + b)[1..] == a[1..] + b;
      OctetsAppend(a[1..], b);
      if Octets(a).Some? && Octets(b).Some? {
        var x, r := ValueIn(10, a[0]), Octets(a[1..]).value;
        assert ([x] + r) + Octets(b).value == [x] + (r + Octets(b).value);
      }
    }
  }

  lemma OctetsOfOne(part: string)
    ensures Octets([part]) == if IsOctet(part) then Some([ValueIn(10, part)]) else None
  {
    assert [part][1..] == [];
    if IsOctet(part) { assert [ValueIn(10, part)] + [] == [ValueIn(10, part)]; }
  }

  method ParseIpv4(host: string) returns (r: Option<seq<nat>>)
    ensures r == Ipv4(host)
  {
    var parts := Split(host, '.');
    if |parts| != 4 {
      return None;
    }
    var octets: seq<nat> := [];
    for i := 0 to |parts|
      invariant Octets(parts[..i]) == Some(octets)
    {
      var part := parts[i];
      assert parts == parts[..i] + parts[i..] && parts[i..][0] == part;
      OctetsOfOne(part);
      OctetsAppend(parts[..i], parts[i..]);
      if !(1 <= |part| <= 3 && AllDigits(part)) {
        return None;
      }
      var value := ValueIn(10, part);
      if value > 255 {
        return None;
      }
      octets := octets + [value];
      assert parts[..i + 1] == parts[..i] + [part];
      OctetsAppend(parts[..i], [part]);
    }
    assert parts[..|parts|] == parts;
    r := Some(octets);
  }

  // ----- expandGroups and parseIpv6

  predicate IsHexGroup(group: string) {
    1 <= |group| <= 4 && AllHex(group)
  }

  predicate HasDot(s: string) {
    !Free(s, '.')
  }

  /** What one piece between colons stands for: one group, or two for a dotted quad. */
  function PieceValue(group: string): Option<seq<nat>> {
    if HasDot(group) then
      var quad := Ipv4(group);
      if quad.None? || |quad.value| != 4 then None
      else Some([BitOr(Shl(quad.value[0], 8), quad.value[1]), BitOr(Shl(quad.value[2], 8), quad.value[3])])
    else if IsHexGroup(group) then Some([ValueIn(16, group)])
    else None
  }

  function Groups(pieces: seq<string>): Option<seq<nat>> {
    if pieces == [] then Some([])
    else
      var first, rest := PieceValue(pieces[0]), Groups(pieces[1..]);
      if first.None? || rest.None? then None else Some(first.value + rest.value)
  }

  function Expanded(part: string): Option<seq<nat>> {
    if part == "" then Some([]) else Groups(Split(part, ':'))
  }

  function Body(host: string): string {
    if 2 <= |host| && host[0] == '[' && host[|host| - 1] == ']' then host[1..|host| - 1] else host
  }

  function Ipv6(host: string): Option<seq<nat>> {
    var body := Body(host);
    if Free(body, ':') then None
    else
      var halves := SplitDouble(body);
      if |halves| > 2 then None
      else
        var head, tail := Expanded(halves[0]), if |halves| == 2 then Expanded(halves[1]) else Some([]);
        if head.None? || tail.None? then None
        else
          var fill := 8 - |head.value| - |tail.value|;
          if fill < 0 || (|halves| == 1 && fill != 0) then None
          else Some(head.value + Copies(0, fill) + tail.value)
  }

  lemma {:induction false} GroupsAppend(a: seq<string>, b: seq<string>)
    ensures Groups(a + b) == (if Groups(a).None? || Groups(b).None? then None else Some(Groups(a).value + Groups(b).value))
    decreases |a|
  {
    if a == [] {
      assert a + b == b;
      if Groups(b).Some? { assert [] + Groups(b).value == Groups(b).value; }
    } else {
      assert (a + b)[1..] == a[1..] + b;
      GroupsAppend(a[1..], b);
      if Groups(a).Some? && Groups(b).Some? {
        var x, r := PieceValue(a[0]).value, Groups(a[1..]).value;
        assert (x + r) + Groups(b).value == x + (r + Groups(b).value);
      }
    }
  }

  lemma GroupsOfOne(piece: string)
    ensures Groups([piece]) == PieceValue(piece)
  {
    assert [piece][1..] == [];
    if PieceValue(piece).Some? { assert PieceValue(piece).value + [] == PieceValue(piece).value; }
  }

  lemma {:induction false} OctetsShape(parts: seq<string>)
    requires Octets(parts).Some?
    ensures |Octets(parts).value| == |parts| && forall i :: 0 <= i < |parts| ==> Octets(parts).value[i] <= 255
    ensures forall i :: 0 <= i < |parts| ==> IsOctet(parts[i])
    decreases |parts|
  {
    if parts != [] { OctetsShape(parts[1..]); }
  }

  method ExpandGroups(part: string) returns (r: Option<seq<nat>>)
    ensures r == Expanded(part)
  {
    if part == "" {
      return Some([]);
    }
    var out: seq<nat> := [];
    var groups := Split(part, ':');
    for i := 0 to |groups|
      invariant Groups(groups[..i]) == Some(out)
    {
      var group := groups[i];
      assert groups == groups[..i] + groups[i..] && groups[i..][0] == group;
      GroupsOfOne(group);
      GroupsAppend(groups[..i], groups[i..]);
      assert groups[..i + 1] == groups[..i] + [group];
      GroupsAppend(groups[..i], [group]);
      if HasDot(group) {
        var quad := ParseIpv4(group);
        if quad.None? {
          return None;
        }
        OctetsShape(Split(group, '.'));
        out := out + [BitOr(Shl(quad.value[0], 8), quad.value[1]), BitOr(Shl(quad.value[2], 8), quad.value[3])];
      } else {
        if !IsHexGroup(group) {
          return None;
        }
        out := out + [ValueIn(16, group)];
      }
    }
    assert groups[..|groups|] == groups;
    r := Some(out);
  }

  method ParseIpv6(host: string) returns (r: Option<seq<nat>>)
    ensures r == Ipv6(host)
  {
    var body := Body(host);
    if Free(body, ':') {
      return None;
    }
    var halves := SplitDouble(body);
    if |halves| > 2 {
      return None;
    }
    var head := ExpandGroups(halves[0]);
    var tail := Some([]);
    if |halves| == 2 {
      tail := ExpandGroups(halves[1]);
    }
    if head.None? || tail.None? {
      return None;
    }
    var fill := 8 - |head.value| - |tail.value|;
    if fill < 0 || (|halves| == 1 && fill != 0) {
      return None;
    }
    r := Some(head.value + Copies(0, fill) + tail.value);
  }

  // ----- the textual forms

  /** Four octets as they are spelled. */
  datatype Quad = Quad(a: string, b: string, c: string, d: string)
  {
    predicate Valid() {
      IsOctet(a) && IsOctet(b) && IsOctet(c) && IsOctet(d)
    }

    function Text(): string {
      a + "." + b + "." + c + "." + d
    }

    function Bytes(): (o: seq<nat>)
      requires Valid()
      ensures |o| == 4 && forall i :: 0 <= i < 4 ==> o[i] < 256
    {
      [ValueIn(10, a), ValueIn(10, b), ValueIn(10, c), ValueIn(10, d)]
    }

    /** The two groups the quad stands for. */
    function Pair(): seq<nat>
      requires Valid()
    {
      [256 * Bytes()[0] + Bytes()[1], 256 * Bytes()[2] + Bytes()[3]]
    }
  }

  datatype Piece = Hex(digits: string) | Dotted(quad: Quad)
  {
    predicate Valid() {
      if Hex? then IsHexGroup(digits) else quad.Valid()
    }

    function Text(): string {
      if Hex? then digits else quad.Text()
    }

    function Meaning(): (g: seq<nat>)
      requires Valid()
    {
      if Hex? then [ValueIn(16, digits)] else quad.Pair()
    }
  }

  /** Eight groups in full, or a head and a tail around "::"; possibly in brackets. */
  datatype Form = Form(head: seq<Piece>, compressed: bool, tail: seq<Piece>, bracketed: bool)
  {
    predicate Valid() {
      && AllValid(head) && AllValid(tail)
      && var n := |MeaningOf(head)| + |MeaningOf(tail)|;
         if compressed then n <= 8 else n == 8 && tail == []
    }

    function Text(): string {
      var body := if compressed then Join(Texts(head), ":") + "::" + Join(Texts(tail), ":") else Join(Texts(head), ":");
      if bracketed then "[" + body + "]" else body
    }

    function Meaning(): seq<nat>
      requires Valid()
    {
      MeaningOf(head) + Copies(0, 8 - |MeaningOf(head)| - |MeaningOf(tail)|) + MeaningOf(tail)
    }
  }

  predicate AllValid(ps: seq<Piece>) {
    forall i :: 0 <= i < |ps| ==> ps[i].Valid()
  }

  function Texts(ps: seq<Piece>): (t: seq<string>)
    ensures |t| == |ps| && forall i :: 0 <= i < |ps| ==> t[i] == ps[i].Text()
  {
    seq(|ps|, i requires 0 <= i < |ps| => ps[i].Text())
  }

  function MeaningOf(ps: seq<Piece>): seq<nat>
    requires AllValid(ps)
  {
    if ps == [] then [] else ps[0].Meaning() + MeaningOf(ps[1..])
  }

  // ----- reading a printed form gives its meaning

  lemma {:induction false} DigitsBound(base: nat, s: string)
    requires AllHex(s) && (base == 16 || (base == 10 && AllDigits(s)))
    ensures |s| <= 4 && base == 16 ==> ValueIn(16, s) < 65536
    ensures |s| == 0 ==> ValueIn(base, s) == 0
    ensures |s| == 1 ==> ValueIn(base, s) < 16
    ensures |s| == 2 && base == 16 ==> ValueIn(16, s) < 256
    ensures |s| == 3 && base == 16 ==> ValueIn(16, s) < 4096
    decreases |s|
  {
    if s != "" { DigitsBound(base, s[..|s| - 1]); }
  }

  lemma QuadSplit(q: Quad)
    requires q.Valid()
    ensures Split(q.Text(), '.') == [q.a, q.b, q.c, q.d]
  {
    var parts := [q.a, q.b, q.c, q.d];
    assert parts[1..] == [q.b, q.c, q.d] && [q.b, q.c, q.d][1..] == [q.c, q.d] && [q.c, q.d][1..] == [q.d];
    assert Join([q.c, q.d], ".") == q.c + "." + q.d;
    assert Join([q.b, q.c, q.d], ".") == q.b + "." + (q.c + "." + q.d);
    assert Join(parts, ".") == q.a + "." + (q.b + "." + (q.c + "." + q.d));
    assert q.a + "." + (q.b + "." + (q.c + "." + q.d)) == q.Text();
    SplitJoin(parts, '.');
    hide ValueIn, Split;
  }

  lemma QuadOctets(q: Quad)
    requires q.Valid()
    ensures Octets([q.a, q.b, q.c, q.d]) == Some(q.Bytes())
  {
    var parts := [q.a, q.b, q.c, q.d];
    assert parts[1..] == [q.b, q.c, q.d] && [q.b, q.c, q.d][1..] == [q.c, q.d];
    OctetsOfOne(q.d);
    assert [q.c, q.d][1..] == [q.d];
    assert Octets([q.c, q.d]) == Some([ValueIn(10, q.c)] + [ValueIn(10, q.d)]);
    assert Octets([q.b, q.c, q.d]) == Some([ValueIn(10, q.b)] + ([ValueIn(10, q.c)] + [ValueIn(10, q.d)]));
    assert q.Bytes() == [ValueIn(10, q.a)] + ([ValueIn(10, q.b)] + ([ValueIn(10, q.c)] + [ValueIn(10, q.d)]));
    hide ValueIn, IsOctet;
  }

  lemma QuadRead(q: Quad)
    requires q.Valid()
    ensures Ipv4(q.Text()) == Some(q.Bytes()) && Free(q.Text(), ':') && HasDot(q.Text())
  {
    QuadSplit(q);
    QuadOctets(q);
    assert q.Text()[|q.a|] == '.';
    hide ValueIn, Split, Octets;
  }

  lemma Shl8(a: nat)
    ensures Shl(a, 8) == 256 * a
  {
    assert Shl(a, 1) == 2 * Shl(a, 0);
    assert Shl(a, 3) == 2 * Shl(a, 2) == 4 * Shl(a, 1);
    assert Shl(a, 5) == 2 * Shl(a, 4) == 4 * Shl(a, 3);
    assert Shl(a, 7) == 2 * Shl(a, 6) == 4 * Shl(a, 5);
  }

  lemma PieceRead(p: Piece)
    requires p.Valid()
    ensures PieceValue(p.Text()) == Some(p.Meaning())
    ensures Free(p.Text(), ':') && p.Text() != ""
    ensures |p.Meaning()| >= 1 && forall i :: 0 <= i < |p.Meaning()| ==> p.Meaning()[i] < 65536
  {
    if p.Hex? {
      DigitsBound(16, p.digits);
    } else {
      QuadRead(p.quad);
      var o := p.quad.Bytes();
      Shl8(o[0]);
      Shl8(o[2]);
      assert Ones(8) == 255;
      OrOfShifted(o[0], o[1], 8);
      OrOfShifted(o[2], o[3], 8);
    }
  }

  lemma {:induction false} PiecesRead(ps: seq<Piece>)
    requires AllValid(ps)
    ensures Groups(Texts(ps)) == Some(MeaningOf(ps)) && AllFree(Texts(ps), ':')
    ensures forall i :: 0 <= i < |ps| ==> Texts(ps)[i] != ""
    ensures |MeaningOf(ps)| >= |ps| && forall i :: 0 <= i < |MeaningOf(ps)| ==> MeaningOf(ps)[i] < 65536
    decreases |ps|
  {
    if ps != [] {
      PieceRead(ps[0]);
      PiecesRead(ps[1..]);
      assert Texts(ps)[1..] == Texts(ps[1..]);
      assert Texts(ps) == [ps[0].Text()] + Texts(ps[1..]);
    }
  }

  lemma JoinedRead(ps: seq<Piece>)
    requires AllValid(ps)
    ensures Expanded(Join(Texts(ps), ":")) == Some(MeaningOf(ps)) && Single(Join(Texts(ps), ":"))
  {
    PiecesRead(ps);
    JoinedIsSingle(Texts(ps));
    if ps != [] { SplitJoin(Texts(ps), ':'); }
  }

  /** Without the brackets. */
  function Inner(f: Form): string {
    if f.compressed then Join(Texts(f.head), ":") + "::" + Join(Texts(f.tail), ":") else Join(Texts(f.head), ":")
  }

  predicate Bracketed(s: string) {
    2 <= |s| && s[0] == '[' && s[|s| - 1] == ']'
  }

  lemma {:induction false} JoinedHasNoBracket(ps: seq<Piece>)
    requires AllValid(ps)
    ensures Free(Join(Texts(ps), ":"), '[')
    decreases |ps|
  {
    if ps != [] {
      assert Texts(ps)[1..] == Texts(ps[1..]);
      JoinedHasNoBracket(ps[1..]);
    }
  }

  lemma BodyOfForm(f: Form)
    requires f.Valid()
    ensures Body(f.Text()) == Inner(f)
  {
    JoinedHasNoBracket(f.head);
    JoinedHasNoBracket(f.tail);
    if f.bracketed {
      assert f.Text() == "[" + Inner(f) + "]";
      assert f.Text()[1..|f.Text()| - 1] == Inner(f);
    } else {
      assert Free(Inner(f), '[');
    }
  }

  lemma {:induction false} AtMostTwoGroupsEach(ps: seq<Piece>)
    requires AllValid(ps)
    ensures |MeaningOf(ps)| <= 2 * |ps|
    decreases |ps|
  {
    if ps != [] { AtMostTwoGroupsEach(ps[1..]); }
  }

  lemma FullFormHasColon(ps: seq<Piece>)
    requires AllValid(ps) && |MeaningOf(ps)| == 8
    ensures !Free(Join(Texts(ps), ":"), ':')
  {
    AtMostTwoGroupsEach(ps);
    assert Join(Texts(ps), ":")[|ps[0].Text()|] == ':';
  }

  lemma ReadHalves(host: string, a: string, b: string)
    requires Body(host) == a + "::" + b && SplitDouble(Body(host)) == [a, b]
    requires Expanded(a).Some? && Expanded(b).Some? && |Expanded(a).value| + |Expanded(b).value| <= 8
    ensures Ipv6(host) == Some(Expanded(a).value + Copies(0, 8 - |Expanded(a).value| - |Expanded(b).value|) + Expanded(b).value)
  {
    hide Body, Expanded, SplitDouble, Copies;
    assert Body(host)[|a|] == ':';
  }

  lemma TwoHalves(a: string, b: string)
    requires Single(a) && Single(b)
    ensures SplitDouble(a + "::" + b) == [a, b]
  {
    SplitDoubleAtFirst(a, b);
    SplitDoubleSingle(b);
    hide Single, SplitDouble;
    assert [a] + [b] == [a, b];
  }

  lemma CompressedRead(f: Form)
    requires f.Valid() && f.compressed
    ensures Ipv6(f.Text()) == Some(f.Meaning())
  {
    hide AllValid, Body, MeaningOf, Texts, Expanded, Form.Text, Copies, Ipv6, Single, SplitDouble, Join;
    BodyOfForm(f);
    JoinedRead(f.head);
    JoinedRead(f.tail);
    TwoHalves(Join(Texts(f.head), ":"), Join(Texts(f.tail), ":"));
    ReadHalves(f.Text(), Join(Texts(f.head), ":"), Join(Texts(f.tail), ":"));
  }

  lemma FullRead(f: Form)
    requires f.Valid() && !f.compressed
    ensures Ipv6(f.Text()) == Some(f.Meaning())
  {
    BodyOfForm(f);
    JoinedRead(f.head);
    FullFormHasColon(f.head);
    SplitDoubleSingle(Join(Texts(f.head), ":"));
    hide AllValid, Body, Texts, Expanded, Piece.Text, Piece.Valid, Form.Text, Join, Single, SplitDouble;
    assert f.Meaning() == MeaningOf(f.head) + [] + [];
  }

  /** Reading any textual form gives exactly the eight groups it means. */
  lemma ParserInvertsPrinter(f: Form)
    requires f.Valid()
    ensures Ipv6(f.Text()) == Some(f.Meaning())
    ensures |f.Meaning()| == 8 && forall i :: 0 <= i < 8 ==> f.Meaning()[i] < 65536
  {
    PiecesRead(f.head);
    PiecesRead(f.tail);
    if f.compressed { CompressedRead(f); } else { FullRead(f); }
    hide Ipv6, Texts, Groups, AllValid, Form.Text;
  }

  // ----- nothing else is read

  function QuadOf(parts: seq<string>): Quad
    requires |parts| == 4
  {
    Quad(parts[0], parts[1], parts[2], parts[3])
  }

  /** What parseIpv4 accepts is four octets with dots between them. */
  lemma AcceptsOnlyQuads(host: string)
    requires Ipv4(host).Some?
    ensures |Split(host, '.')| == 4
    ensures var q := QuadOf(Split(host, '.')); q.Valid() && q.Text() == host && Ipv4(host) == Some(q.Bytes())
  {
    var parts := Split(host, '.');
    OctetsShape(parts);
    JoinSplit(host, '.');
    var q := QuadOf(parts);
    QuadSplit(q);
    assert parts == [q.a, q.b, q.c, q.d];
    assert Join(parts, ".") == Join(Split(q.Text(), '.'), ".");
    JoinSplit(q.Text(), '.');
    QuadRead(q);
    hide ValueIn, Octets, Split, Join;
  }

  function PieceOf(text: string): Piece {
    if HasDot(text) && |Split(text, '.')| == 4 then Dotted(QuadOf(Split(text, '.'))) else Hex(text)
  }

  function PiecesOf(texts: seq<string>): seq<Piece> {
    seq(|texts|, i requires 0 <= i < |texts| => PieceOf(texts[i]))
  }

  lemma AcceptsOnlyPiece(text: string)
    requires PieceValue(text).Some?
    ensures PieceOf(text).Valid() && PieceOf(text).Text() == text
  {
    if HasDot(text) { AcceptsOnlyQuads(text); }
    hide Ipv4, Split, ValueIn;
  }

  lemma {:induction false} EachPieceRead(texts: seq<string>)
    requires Groups(texts).Some?
    ensures forall i :: 0 <= i < |texts| ==> PieceValue(texts[i]).Some?
    decreases |texts|
  {
    if texts != [] { EachPieceRead(texts[1..]); }
    hide PieceValue;
  }

  lemma AcceptsOnlyPieces(texts: seq<string>)
    requires Groups(texts).Some?
    ensures AllValid(PiecesOf(texts)) && Texts(PiecesOf(texts)) == texts
  {
    hide PieceValue, PieceOf, Piece.Valid, Piece.Text, Groups;
    EachPieceRead(texts);
    forall i | 0 <= i < |texts| ensures PiecesOf(texts)[i].Valid() && Texts(PiecesOf(texts))[i] == texts[i] {
      AcceptsOnlyPiece(texts[i]);
    }
  }

  function PiecesIn(half: string): seq<Piece> {
    if half == "" then [] else PiecesOf(Split(half, ':'))
  }

  lemma AcceptsOnlyHalves(half: string)
    requires Expanded(half).Some?
    ensures AllValid(PiecesIn(half)) && Join(Texts(PiecesIn(half)), ":") == half
    ensures Expanded(half) == Some(MeaningOf(PiecesIn(half)))
  {
    if half != "" {
      AcceptsOnlyPieces(Split(half, ':'));
      JoinSplit(half, ':');
      PiecesRead(PiecesIn(half));
    }
    hide Split, Groups, PiecesOf;
  }

  /** The form a host was written in. */
  function FormOf(host: string): Form {
    var halves := SplitDouble(Body(host));
    Form(PiecesIn(halves[0]), |halves| == 2, if |halves| == 2 then PiecesIn(halves[1]) else [], Bracketed(host))
  }

  lemma JoinHalves(s: string)
    requires |SplitDouble(s)| <= 2
    ensures s == if |SplitDouble(s)| == 2 then SplitDouble(s)[0] + "::" + SplitDouble(s)[1] else SplitDouble(s)[0]
  {
    JoinSplitDouble(s);
    hide SplitDouble;
  }

  /** What parseIpv6 demands of the halves of what it accepts. */
  lemma AcceptedHalves(host: string)
    requires Ipv6(host).Some?
    ensures var halves := SplitDouble(Body(host));
            && |halves| <= 2 && Expanded(halves[0]).Some? && (|halves| == 2 ==> Expanded(halves[1]).Some?)
            && var n := |Expanded(halves[0]).value| + (if |halves| == 2 then |Expanded(halves[1]).value| else 0);
               if |halves| == 2 then n <= 8 else n == 8
  {
    hide SplitDouble, Body, Expanded, Copies;
  }

  lemma Unwrapped(host: string)
    ensures host == if Bracketed(host) then "[" + Body(host) + "]" else Body(host)
  {
  }

  lemma FormTextIsHost(host: string)
    requires Ipv6(host).Some?
    ensures FormOf(host).Text() == host
  {
    hide Ipv6, SplitDouble, Expanded, PiecesIn, AllValid, MeaningOf, Texts, Join, Body, Bracketed;
    AcceptedHalves(host);
    JoinHalves(Body(host));
    Unwrapped(host);
    var halves := SplitDouble(Body(host));
    AcceptsOnlyHalves(halves[0]);
    if |halves| == 2 { AcceptsOnlyHalves(halves[1]); }
  }

  /** Whatever parseIpv6 accepts is a textual form, read as that form means: eight groups below 65536. */
  lemma AcceptsOnlyForms(host: string)
    requires Ipv6(host).Some?
    ensures FormOf(host).Valid() && FormOf(host).Text() == host && Ipv6(host) == Some(FormOf(host).Meaning())
  {
    AcceptedHalves(host);
    FormTextIsHost(host);
    var halves := SplitDouble(Body(host));
    AcceptsOnlyHalves(halves[0]);
    if |halves| == 2 { AcceptsOnlyHalves(halves[1]); }
    assert MeaningOf([]) == [] && AllValid([]);
    hide Ipv6, SplitDouble, Expanded, PiecesIn, AllValid, MeaningOf, Texts, Form.Text, Body, Copies;
    ParserInvertsPrinter(FormOf(host));
  }
}
