/**
 * The signing preimage: `canonicalJson` (packages/protocol/src/canonical.ts).
 *
 * JavaScript values live in a heap, so that sharing and cycles exist. `Meaning` gives the JSON value
 * a JavaScript value stands for, if it stands for one; a JSON object is a map, which is how key order
 * stops mattering. Module CanonicalWriter holds the writer itself, with its shared `ancestors` set.
 */
module Canonical {
  import opened Prelude
  import opened NumberText
  import opened Quoting
  import opened KeyOrder

  const MAX_DEPTH := 64

  const COMMA: Unit := 0x2c
  const COLON: Unit := 0x3a
  const LBRACKET: Unit := 0x5b
  const RBRACKET: Unit := 0x5d
  const LBRACE: Unit := 0x7b
  const RBRACE: Unit := 0x7d
  const NULL_TEXT: Text := [0x6e, 0x75, 0x6c, 0x6c]
  const TRUE_TEXT: Text := [0x74, 0x72, 0x75, 0x65]
  const FALSE_TEXT: Text := [0x66, 0x61, 0x6c, 0x73, 0x65]

  // ----- JavaScript values

  /** `Other` is a function, symbol or bigint; `Ref` an object, found in the heap. */
  datatype Value = Null | Undefined | Other | Bool(flag: bool) | Num(number: Number) | Str(text: Text) | Ref(id: nat)

  datatype Prop = Prop(key: Text, value: Value)

  predicate DistinctKeys(ps: seq<Prop>) {
    forall i, j :: 0 <= i < j < |ps| ==> ps[i].key != ps[j].key
  }

  type Props = ps: seq<Prop> | DistinctKeys(ps) witness []

  /** `Exotic` is an object that is neither an array nor a plain object. */
  datatype Container = Arr(items: seq<Value>) | Obj(props: Props) | Exotic

  type Heap = nat -> Container

  // ----- JSON values

  type JsonNumber = n: Number | n == Zero(false) || n.Finite? witness Zero(false)

  datatype Json =
    | JNull
    | JBool(flag: bool)
    | JNumber(number: JsonNumber)
    | JString(text: Text)
    | JArray(items: seq<Json>)
    | JObject(fields: map<Text, Json>)

  // ----- what a JavaScript value stands for

  /**
   * The JSON value read at `v`, `depth` levels below the root. With `guarded`, reaching one of the
   * `ancestors` again is refused, as the writer does; without, only the depth limit stops a cycle.
   */
  function Read(h: Heap, v: Value, ancestors: set<nat>, depth: nat, guarded: bool): Option<Json>
    decreases MAX_DEPTH + 1 - depth, 1, 0
  {
    if depth > MAX_DEPTH then None
    else match v
      case Null => Some(JNull)
      case Undefined => None
      case Other => None
      case Bool(b) => Some(JBool(b))
      case Num(n) => if n.NaN? || n.Infinity? then None else Some(JNumber(if n.Zero? then Zero(false) else n))
      case Str(s) => Some(JString(s))
      case Ref(id) =>
        if guarded && id in ancestors then None
        else match h(id)
          case Arr(items) =>
            var r := ReadItems(h, items, ancestors + {id}, depth + 1, guarded);
            if r.None? then None else Some(JArray(r.value))
          case Obj(props) =>
            var r := ReadProps(h, props, ancestors + {id}, depth + 1, guarded);
            if r.None? then None else Some(JObject(r.value))
          case Exotic => None
  }

  function ReadItems(h: Heap, items: seq<Value>, ancestors: set<nat>, depth: nat, guarded: bool): (r: Option<seq<Json>>)
    ensures r.Some? ==> |r.value| == |items|
    decreases MAX_DEPTH + 1 - depth, 2, |items|
  {
    if items == [] then Some([])
    else
      var head := Read(h, items[0], ancestors, depth, guarded);
      var tail := ReadItems(h, items[1..], ancestors, depth, guarded);
      if head.None? || tail.None? then None else Some([head.value] + tail.value)
  }

  /** A property whose value is undefined is not there. */
  function ReadProps(h: Heap, props: seq<Prop>, ancestors: set<nat>, depth: nat, guarded: bool): Option<map<Text, Json>>
    decreases MAX_DEPTH + 1 - depth, 2, |props|
  {
    if props == [] then Some(map[])
    else
      var tail := ReadProps(h, props[1..], ancestors, depth, guarded);
      if props[0].value.Undefined? then tail
      else
        var head := Read(h, props[0].value, ancestors, depth, guarded);
        if head.None? || tail.None? then None else Some(tail.value[props[0].key := head.value])
  }

  /** The JSON value a JavaScript value stands for: its finite unfolding, at most MAX_DEPTH levels deep. */
  function Meaning(h: Heap, v: Value): Option<Json> {
    Read(h, v, {}, 0, false)
  }

  // ----- printing JSON

  function Join(parts: seq<Text>): Text {
    if parts == [] then []
    else if |parts| == 1 then parts[0]
    else parts[0] + [COMMA] + Join(parts[1..])
  }

  function Wrap(open: Unit, inner: Text, close: Unit): Text {
    [open] + inner + [close]
  }

  /** JSON text with the keys of every object in the order `o`. */
  ghost function Print(o: Order, j: Json): Text
    decreases j, 1
  {
    match j
    case JNull => NULL_TEXT
    case JBool(b) => if b then TRUE_TEXT else FALSE_TEXT
    case JNumber(n) => NumberToString(n)
    case JString(s) => Quote(s)
    case JArray(items) => Wrap(LBRACKET, Join(ItemParts(o, items)), RBRACKET)
    case JObject(fields) => Wrap(LBRACE, Join(FieldParts(o, Ordered(o, fields.Keys), j)), RBRACE)
  }

  ghost function ItemParts(o: Order, items: seq<Json>): (parts: seq<Text>)
    ensures |parts| == |items|
    decreases items, 0
  {
    seq(|items|, i requires 0 <= i < |items| => Print(o, items[i]))
  }

  ghost function FieldParts(o: Order, keys: seq<Text>, j: Json): (parts: seq<Text>)
    requires j.JObject? && forall k :: k in keys ==> k in j.fields
    ensures |parts| == |keys|
    decreases j, 0
  {
    seq(|keys|, i requires 0 <= i < |keys| => Quote(keys[i]) + [COLON] + Print(o, j.fields[keys[i]]))
  }

  // ----- printing is injective

  /** What may follow a JSON value inside a larger text. */
  predicate Delimited(rest: Text) {
    rest == [] || rest[0] == COMMA || rest[0] == RBRACKET || rest[0] == RBRACE
  }

  datatype Shape = NullShape | TrueShape | FalseShape | NumberShape | StringShape | ArrayShape | ObjectShape | NoShape

  function ShapeOf(j: Json): Shape {
    match j
    case JNull => NullShape
    case JBool(b) => if b then TrueShape else FalseShape
    case JNumber(_) => NumberShape
    case JString(_) => StringShape
    case JArray(_) => ArrayShape
    case JObject(_) => ObjectShape
  }

  /** The first unit of a JSON text says what kind of value it is. */
  function ShapeAt(t: Text): Shape {
    if t == [] then NoShape
    else if t[0] == 0x6e then NullShape
    else if t[0] == 0x74 then TrueShape
    else if t[0] == 0x66 then FalseShape
    else if IsDigit(t[0]) || t[0] == MINUS then NumberShape
    else if t[0] == QUOTE then StringShape
    else if t[0] == LBRACKET then ArrayShape
    else if t[0] == LBRACE then ObjectShape
    else NoShape
  }

  lemma PrintShape(o: Order, j: Json, rest: Text)
    ensures ShapeAt(Print(o, j) + rest) == ShapeOf(j)
  {
    if j.JNumber? {
      NumberUnits(j.number);
    }
  }

  lemma NumberPrefix(a: JsonNumber, b: JsonNumber, r: Text, s: Text)
    requires NumberToString(a) + r == NumberToString(b) + s
    requires Delimited(r) && Delimited(s)
    ensures a == b && r == s
  {
    NumberUnits(a);
    NumberUnits(b);
    SameRun(NumberToString(a), NumberToString(b), r, s, NumberUnit);
    NumberRoundTrip(a);
    NumberRoundTrip(b);
  }

  /** What follows the first part of a joined list that `rest` closes. */
  function After(parts: seq<Text>, rest: Text): Text {
    if |parts| <= 1 then rest else [COMMA] + (Join(parts[1..]) + rest)
  }

  lemma JoinStep(parts: seq<Text>, close: Unit, r: Text)
    requires parts != []
    requires close == RBRACKET || close == RBRACE
    ensures Join(parts) + ([close] + r) == parts[0] + After(parts, [close] + r)
    ensures Delimited(After(parts, [close] + r))
  {
  }

  /** Where two lists agree on the first part, both stop there or both go on. */
  lemma AfterSplits(p: seq<Text>, q: seq<Text>, close: Unit, r: Text, s: Text)
    requires p != [] && q != []
    requires close == RBRACKET || close == RBRACE
    requires After(p, [close] + r) == After(q, [close] + s)
    ensures |p| == 1 <==> |q| == 1
    ensures |p| == 1 ==> r == s
    ensures |p| > 1 ==> Join(p[1..]) + ([close] + r) == Join(q[1..]) + ([close] + s)
  {
    hide Join;
    var tp, tq := After(p, [close] + r), After(q, [close] + s);
    assert tp[0] == tq[0];
    assert tp[1..] == tq[1..];
    assert |p| == 1 ==> tp[1..] == r;
    assert |q| == 1 ==> tq[1..] == s;
    assert |p| > 1 ==> tp[1..] == Join(p[1..]) + ([close] + r);
    assert |q| > 1 ==> tq[1..] == Join(q[1..]) + ([close] + s);
  }

  /**
   * A printed value can be told apart from what follows it: if two texts agree and each starts with
   * a printed value, the values agree and so do the remainders.
   */
  lemma {:induction false} PrintPrefix(o: Order, a: Json, b: Json, r: Text, s: Text)
    requires Print(o, a) + r == Print(o, b) + s
    requires Delimited(r) && Delimited(s)
    ensures a == b && r == s
    decreases a, 3, 0
  {
    assert ShapeOf(a) == ShapeOf(b) by {
      hide Print;
      PrintShape(o, a, r);
      PrintShape(o, b, s);
    }
    match a
    case JNull => LiteralPrefix(o, a, b, r, s);
    case JBool(_) => LiteralPrefix(o, a, b, r, s);
    case JNumber(n) => NumberPrefix(n, b.number, r, s);
    case JString(t) => QuotePrefix(t, b.text, r, s);
    case JArray(items) =>
      hide Wrap, Join, Delimited;
      Unwrap(LBRACKET, Join(ItemParts(o, items)), Join(ItemParts(o, b.items)), RBRACKET, r, s);
      ItemsPrefix(o, items, b.items, r, s);
    case JObject(_) => ObjectPrefix(o, a, b, r, s);
  }

  lemma LiteralPrefix(o: Order, a: Json, b: Json, r: Text, s: Text)
    requires a == b && (a.JNull? || a.JBool?)
    requires Print(o, a) + r == Print(o, b) + s
    ensures r == s
  {
    var n := |Print(o, a)|;
    assert r == (Print(o, a) + r)[n..] == (Print(o, b) + s)[n..] == s;
  }

  lemma Unwrap(open: Unit, x: Text, y: Text, close: Unit, r: Text, s: Text)
    requires Wrap(open, x, close) + r == Wrap(open, y, close) + s
    ensures x + ([close] + r) == y + ([close] + s)
  {
    assert x + ([close] + r) == (Wrap(open, x, close) + r)[1..];
    assert y + ([close] + s) == (Wrap(open, y, close) + s)[1..];
  }

  lemma {:induction false} ObjectPrefix(o: Order, a: Json, b: Json, r: Text, s: Text)
    requires a.JObject? && b.JObject?
    requires Print(o, a) + r == Print(o, b) + s
    ensures a == b && r == s
    decreases a, 2, 0
  {
    hide Wrap, Join, Less;
    var ka, kb := Ordered(o, a.fields.Keys), Ordered(o, b.fields.Keys);
    Unwrap(LBRACE, Join(FieldParts(o, ka, a)), Join(FieldParts(o, kb, b)), RBRACE, r, s);
    FieldsPrefix(o, ka, a, kb, b, r, s);
    SameFields(a.fields, b.fields, ka);
  }

  lemma SameFields(m: map<Text, Json>, n: map<Text, Json>, ks: seq<Text>)
    requires forall k :: k in ks <==> k in m.Keys
    requires forall k :: k in ks <==> k in n.Keys
    requires forall k :: k in ks ==> m[k] == n[k]
    ensures m == n
  {
    assert m.Keys == n.Keys;
  }

  /** An empty list and a non-empty one differ at once: no value starts with a closing bracket. */
  lemma ItemsStart(o: Order, xs: seq<Json>, r: Text)
    ensures ShapeAt(Join(ItemParts(o, xs)) + ([RBRACKET] + r)) == if xs == [] then NoShape else ShapeOf(xs[0])
  {
    if xs != [] {
      hide Print, Join;
      JoinStep(ItemParts(o, xs), RBRACKET, r);
      PrintShape(o, xs[0], After(ItemParts(o, xs), [RBRACKET] + r));
    } else {
      assert Join(ItemParts(o, xs)) + ([RBRACKET] + r) == [RBRACKET] + r;
    }
  }

  lemma {:induction false} ItemsPrefix(o: Order, xs: seq<Json>, ys: seq<Json>, r: Text, s: Text)
    requires Join(ItemParts(o, xs)) + ([RBRACKET] + r) == Join(ItemParts(o, ys)) + ([RBRACKET] + s)
    ensures xs == ys && r == s
    decreases xs, 1, |xs|
  {
    hide Print, After, Delimited;
    ItemsStart(o, xs, r);
    ItemsStart(o, ys, s);
    var px, py := ItemParts(o, xs), ItemParts(o, ys);
    if xs == [] {
      assert Join(px) + ([RBRACKET] + r) == [RBRACKET] + r && ([RBRACKET] + r)[1..] == r;
      assert Join(py) + ([RBRACKET] + s) == [RBRACKET] + s && ([RBRACKET] + s)[1..] == s;
    } else {
      hide Join, ShapeAt, ShapeOf;
      JoinStep(px, RBRACKET, r);
      JoinStep(py, RBRACKET, s);
      PrintPrefix(o, xs[0], ys[0], After(px, [RBRACKET] + r), After(py, [RBRACKET] + s));
      AfterSplits(px, py, RBRACKET, r, s);
      assert xs == [xs[0]] + xs[1..] && ys == [ys[0]] + ys[1..];
      if |xs| > 1 {
        assert px[1..] == ItemParts(o, xs[1..]) && py[1..] == ItemParts(o, ys[1..]);
        ItemsPrefix(o, xs[1..], ys[1..], r, s);
      }
    }
  }

  lemma FieldsStart(o: Order, ks: seq<Text>, a: Json, r: Text)
    requires a.JObject? && forall k :: k in ks ==> k in a.fields
    ensures ShapeAt(Join(FieldParts(o, ks, a)) + ([RBRACE] + r)) == if ks == [] then NoShape else StringShape
  {
    if ks != [] {
      hide Print, Join;
      JoinStep(FieldParts(o, ks, a), RBRACE, r);
    } else {
      assert Join(FieldParts(o, ks, a)) + ([RBRACE] + r) == [RBRACE] + r;
    }
  }

  lemma {:induction false} FieldsPrefix(o: Order, ka: seq<Text>, a: Json, kb: seq<Text>, b: Json, r: Text, s: Text)
    requires a.JObject? && forall k :: k in ka ==> k in a.fields
    requires b.JObject? && forall k :: k in kb ==> k in b.fields
    requires Join(FieldParts(o, ka, a)) + ([RBRACE] + r) == Join(FieldParts(o, kb, b)) + ([RBRACE] + s)
    ensures ka == kb && r == s
    ensures forall k :: k in ka ==> a.fields[k] == b.fields[k]
    decreases a, 1, |ka|
  {
    hide Print, Quote, After, Delimited;
    FieldsStart(o, ka, a, r);
    FieldsStart(o, kb, b, s);
    var pa, pb := FieldParts(o, ka, a), FieldParts(o, kb, b);
    if ka == [] {
      assert Join(pa) + ([RBRACE] + r) == [RBRACE] + r && ([RBRACE] + r)[1..] == r;
      assert Join(pb) + ([RBRACE] + s) == [RBRACE] + s && ([RBRACE] + s)[1..] == s;
    } else {
      hide Join, ShapeAt;
      JoinStep(pa, RBRACE, r);
      JoinStep(pb, RBRACE, s);
      FieldPrefix(o, ka[0], a.fields[ka[0]], kb[0], b.fields[kb[0]], After(pa, [RBRACE] + r), After(pb, [RBRACE] + s));
      AfterSplits(pa, pb, RBRACE, r, s);
      assert ka == [ka[0]] + ka[1..] && kb == [kb[0]] + kb[1..];
      if |ka| > 1 {
        assert pa[1..] == FieldParts(o, ka[1..], a) && pb[1..] == FieldParts(o, kb[1..], b);
        FieldsPrefix(o, ka[1..], a, kb[1..], b, r, s);
      }
    }
  }

  lemma {:induction false} FieldPrefix(o: Order, ka: Text, va: Json, kb: Text, vb: Json, r: Text, s: Text)
    requires (Quote(ka) + [COLON] + Print(o, va)) + r == (Quote(kb) + [COLON] + Print(o, vb)) + s
    requires Delimited(r) && Delimited(s)
    ensures ka == kb && va == vb && r == s
    decreases va, 4, 0
  {
    hide Print, Quote, Delimited;
    var ta, tb := [COLON] + (Print(o, va) + r), [COLON] + (Print(o, vb) + s);
    assert (Quote(ka) + [COLON] + Print(o, va)) + r == Quote(ka) + ta;
    assert (Quote(kb) + [COLON] + Print(o, vb)) + s == Quote(kb) + tb;
    QuotePrefix(ka, kb, ta, tb);
    assert ta[1..] == Print(o, va) + r && tb[1..] == Print(o, vb) + s;
    PrintPrefix(o, va, vb, r, s);
  }

  /** Equal texts come from equal JSON values. */
  lemma PrintInjective(o: Order, a: Json, b: Json)
    requires Print(o, a) == Print(o, b)
    ensures a == b
  {
    assert Print(o, a) + [] == Print(o, b) + [];
    PrintPrefix(o, a, b, [], []);
  }

  // ----- what is printed

  /** The units of a text given as a string literal. */
  function Units(s: string): Text
    requires forall i :: 0 <= i < |s| ==> s[i] as int < 0x10000
  {
    seq(|s|, i requires 0 <= i < |s| => s[i] as int)
  }

  /** The members of an object as its text lists them: every key once, in order, each with its own value. */
  lemma ObjectText(o: Order, fields: map<Text, Json>) returns (keys: seq<Text>)
    ensures forall k :: k in keys <==> k in fields
    ensures forall i, j :: 0 <= i < j < |keys| ==> Precedes(o, keys[i], keys[j])
    ensures Print(o, JObject(fields))
         == Units("{") + Join(seq(|keys|, i requires 0 <= i < |keys| =>
                                Quote(keys[i]) + Units(":") + Print(o, fields[keys[i]]))) + Units("}")
  {
    hide Precedes, Less, Join, Quote;
    keys := Ordered(o, fields.Keys);
    assert forall i :: 0 <= i < |keys| ==> keys[i] in fields;
    AscendingInOrder(o, keys);
    assert Units("{") == [LBRACE] && Units("}") == [RBRACE];
    assert Units(":") == [COLON];
    assert FieldParts(o, keys, JObject(fields))
        == seq(|keys|, i requires 0 <= i < |keys| => Quote(keys[i]) + Units(":") + Print(o, fields[keys[i]]));
  }

  lemma LiteralTexts(o: Order)
    ensures Print(o, JNull) == Units("null") && Print(o, JBool(true)) == Units("true") && Print(o, JBool(false)) == Units("false")
    ensures Print(o, JArray([JNull, JBool(true)])) == Units("[null,true]")
    ensures Print(o, JString(Units("a\n"))) == Units("\"a\\n\"")
  {
  }
}
