/** What an approval is for: the preimage of `approvalHash` (apps/gateway/src/pipeline/approval-key.ts). */
module ApprovalKey {
  import opened Prelude
  import opened NumberText
  import opened Quoting
  import opened KeyOrder
  import opened Canonical

  /**
   * An input as JavaScript holds it: an object enumerates its keys in an order of its own, and a
   * number may be infinite, because `JSON.parse` reads 1e400 as Infinity. Both entry points pass an
   * object, so that the key `i` is always printed.
   */
  datatype Input =
    | InNull
    | InBool(flag: bool)
    | InNumber(number: Number)
    | InString(text: Text)
    | InArray(items: seq<Input>)
    | InObject(keys: seq<Text>, fields: map<Text, Input>)

  predicate DistinctTexts(ks: seq<Text>) {
    forall i, j :: 0 <= i < j < |ks| ==> ks[i] != ks[j]
  }

  ghost predicate Valid(t: Input) {
    match t
    case InArray(items) => forall i :: 0 <= i < |items| ==> Valid(items[i])
    case InObject(keys, fields) =>
      DistinctTexts(keys) && (forall k :: k in keys <==> k in fields) && forall k :: k in fields ==> Valid(fields[k])
    case _ => true
  }

  predicate IsFinite(n: Number) {
    n.Zero? || n.Finite?
  }

  /**
   * The JSON value that an input is printed as, whatever order its objects enumerate their keys in.
   * SerializeJSONProperty (section 25.5.2.2 of ECMA-262) prints a number that is not finite as null.
   */
  ghost function JsonOf(t: Input): Json
    requires Valid(t)
  {
    match t
    case InNull => JNull
    case InBool(b) => JBool(b)
    case InNumber(n) => if IsFinite(n) then JNumber(if n.Zero? then Zero(false) else n) else JNull
    case InString(s) => JString(s)
    case InArray(items) => JArray(seq(|items|, i requires 0 <= i < |items| => JsonOf(items[i])))
    case InObject(_, fields) => JObject(map k | k in fields :: JsonOf(fields[k]))
  }

  /** `canonical(value)`: every object rebuilt from its entries sorted by code units. */
  function Canonicalised(t: Input): Input {
    match t
    case InArray(items) => InArray(seq(|items|, i requires 0 <= i < |items| => Canonicalised(items[i])))
    case InObject(keys, fields) =>
      InObject(EnumerationOf(Sort(CodeUnits, keys)), map k | k in fields :: Canonicalised(fields[k]))
    case _ => t
  }

  /** OrdinaryOwnPropertyKeys: array indices in ascending order, then the other keys as they were inserted. */
  function EnumerationOf(inserted: seq<Text>): seq<Text> {
    Sort(IndexFirst, Only(inserted, true)) + Only(inserted, false)
  }

  function Only(ks: seq<Text>, indices: bool): seq<Text> {
    if ks == [] then []
    else if ArrayIndex(ks[0]) == indices then [ks[0]] + Only(ks[1..], indices)
    else Only(ks[1..], indices)
  }

  /** `JSON.stringify`: properties in enumeration order. */
  ghost function Stringify(t: Input): Text
    requires Valid(t)
    decreases t, 1
  {
    match t
    case InNull => NULL_TEXT
    case InBool(b) => if b then TRUE_TEXT else FALSE_TEXT
    case InNumber(n) => if IsFinite(n) then NumberToString(n) else NULL_TEXT
    case InString(s) => Quote(s)
    case InArray(_) => Wrap(LBRACKET, Join(ItemTexts(t)), RBRACKET)
    case InObject(_, _) => Wrap(LBRACE, Join(FieldTexts(t)), RBRACE)
  }

  ghost function ItemTexts(t: Input): seq<Text>
    requires t.InArray? && Valid(t)
    decreases t, 0
  {
    seq(|t.items|, i requires 0 <= i < |t.items| => Stringify(t.items[i]))
  }

  ghost function FieldTexts(t: Input): seq<Text>
    requires t.InObject? && Valid(t)
    decreases t, 0
  {
    assert forall i :: 0 <= i < |t.keys| ==> t.keys[i] in t.fields;
    seq(|t.keys|, i requires 0 <= i < |t.keys| => Quote(t.keys[i]) + [COLON] + Stringify(t.fields[t.keys[i]]))
  }

  const KEY_C: Text := [0x63]
  const KEY_A: Text := [0x61]
  const KEY_I: Text := [0x69]

  /** The text that `approvalHash` feeds to SHA-256. */
  ghost function ApprovalPreimage(connector: Text, action: Text, input: Input): Text
    requires Valid(input)
  {
    CanonicalisedValid(input);
    [LBRACE] + (Quote(KEY_C) + ([COLON] + (Quote(connector) +
    ([COMMA] + (Quote(KEY_A) + ([COLON] + (Quote(action) +
    ([COMMA] + (Quote(KEY_I) + ([COLON] + (Stringify(Canonicalised(input)) + [RBRACE])))))))))))
  }

  // ----- canonicalising forgets the enumeration order and nothing else

  lemma {:induction false} OnlyKeeps(ks: seq<Text>, indices: bool)
    requires Ascending(CodeUnits, ks)
    ensures forall k :: k in Only(ks, indices) <==> k in ks && ArrayIndex(k) == indices
    ensures Ascending(CodeUnits, Only(ks, indices))
  {
    hide ArrayIndex, UnitsLess;
    if ks != [] {
      assert ks == [ks[0]] + ks[1..];
      OnlyKeeps(ks[1..], indices);
      var rest := Only(ks[1..], indices);
      forall j | 0 <= j < |rest| ensures Less(CodeUnits, ks[0], rest[j]) {
        assert rest[j] in ks[1..];
      }
    }
  }

  lemma EnumerationSorts(ks: seq<Text>, keys: set<Text>)
    requires Sorts(CodeUnits, ks, keys)
    ensures Sorts(IndexFirst, EnumerationOf(ks), keys)
  {
    hide ArrayIndex, UnitsLess;
    OnlyKeeps(ks, true);
    OnlyKeeps(ks, false);
    var front, back := Sort(IndexFirst, Only(ks, true)), Only(ks, false);
    SortSorts(IndexFirst, Only(ks, true));
    var all := front + back;
    forall i, j | 0 <= i < j < |all| ensures Less(IndexFirst, all[i], all[j]) {
      assert i < |front| ==> all[i] in front;
      assert j >= |front| ==> all[j] in back;
      assert i >= |front| ==> all[i] in back && Less(CodeUnits, all[i], all[j]);
    }
  }

  lemma DistinctAscending(o: Order, ks: seq<Text>)
    requires Ascending(o, ks)
    ensures DistinctTexts(ks)
  {
    hide Less;
    forall i, j | 0 <= i < j < |ks| ensures ks[i] != ks[j] {
      LessTotal(o, ks[i], ks[j]);
    }
  }

  lemma {:induction false} CanonicalisedValid(t: Input)
    requires Valid(t)
    ensures Valid(Canonicalised(t)) && JsonOf(Canonicalised(t)) == JsonOf(t)
    decreases t
  {
    hide EnumerationOf, Sort, Ascending;
    match t
    case InArray(items) =>
      forall i | 0 <= i < |items|
        ensures Valid(Canonicalised(items[i])) && JsonOf(Canonicalised(items[i])) == JsonOf(items[i])
      {
        CanonicalisedValid(items[i]);
      }
    case InObject(keys, fields) =>
      forall k | k in fields
        ensures Valid(Canonicalised(fields[k])) && JsonOf(Canonicalised(fields[k])) == JsonOf(fields[k])
      {
        CanonicalisedValid(fields[k]);
      }
      CanonicalKeys(keys, fields.Keys);
    case _ =>
  }

  lemma CanonicalKeys(keys: seq<Text>, ks: set<Text>)
    requires forall k :: k in keys <==> k in ks
    ensures Sorts(IndexFirst, EnumerationOf(Sort(CodeUnits, keys)), ks)
    ensures DistinctTexts(EnumerationOf(Sort(CodeUnits, keys)))
  {
    hide Less;
    SortSorts(CodeUnits, keys);
    assert (set k | k in keys) == ks;
    EnumerationSorts(Sort(CodeUnits, keys), ks);
    DistinctAscending(IndexFirst, EnumerationOf(Sort(CodeUnits, keys)));
  }

  /** The canonical text is the JSON value printed in a fixed total key order. */
  lemma {:induction false} StringifyCanonical(t: Input)
    requires Valid(t) && Valid(Canonicalised(t))
    ensures Stringify(Canonicalised(t)) == Print(IndexFirst, JsonOf(t))
    decreases t, 1
  {
    hide Quote, Join, Wrap, Less;
    match t
    case InArray(items) =>
      var c := Canonicalised(t);
      forall i | 0 <= i < |items| ensures Stringify(c.items[i]) == Print(IndexFirst, JsonOf(items[i])) {
        assert Valid(c.items[i]);
        StringifyCanonical(items[i]);
      }
      assert ItemTexts(c) == ItemParts(IndexFirst, JsonOf(t).items);
    case InObject(keys, fields) =>
      ObjectCanonical(t);
    case _ =>
      hide NumberToString;
  }

  lemma {:induction false} ObjectCanonical(t: Input)
    requires t.InObject? && Valid(t) && Valid(Canonicalised(t))
    ensures Stringify(Canonicalised(t)) == Print(IndexFirst, JsonOf(t))
    decreases t, 0
  {
    var c, j := Canonicalised(t), JsonOf(t);
    forall k | k in t.fields ensures Valid(c.fields[k]) && Stringify(c.fields[k]) == Print(IndexFirst, j.fields[k]) {
      hide Stringify, Print;
      assert k in c.fields && c.fields[k] == Canonicalised(t.fields[k]);
      assert Valid(c.fields[k]);
      StringifyCanonical(t.fields[k]);
    }
    CanonicalKeys(t.keys, t.fields.Keys);
    hide Stringify, Less;
    SameObjectText(c, j);
  }

  lemma SameObjectText(c: Input, j: Json)
    requires c.InObject? && Valid(c) && j.JObject? && c.fields.Keys == j.fields.Keys
    requires Sorts(IndexFirst, c.keys, j.fields.Keys)
    requires forall k :: k in c.fields ==> Stringify(c.fields[k]) == Print(IndexFirst, j.fields[k])
    ensures Stringify(c) == Print(IndexFirst, j)
  {
    hide Less, Quote, Join, Wrap, Valid;
    var ks := Ordered(IndexFirst, j.fields.Keys);
    SortingIsUnique(IndexFirst, c.keys, ks, j.fields.Keys);
    assert FieldTexts(c) == FieldParts(IndexFirst, ks, j);
  }

  lemma SameSuffix(p: Text, x: Text, y: Text)
    requires p + x == p + y
    ensures x == y
  {
    assert x == (p + x)[|p|..] && y == (p + y)[|p|..];
  }

  /**
   * Two approvals share a preimage if and only if they name the same connector, the same action and
   * arguments that are printed as the same JSON value.
   */
  lemma ApprovalSeparates(c1: Text, a1: Text, t1: Input, c2: Text, a2: Text, t2: Input)
    requires Valid(t1) && Valid(t2)
    ensures ApprovalPreimage(c1, a1, t1) == ApprovalPreimage(c2, a2, t2)
       <==> c1 == c2 && a1 == a2 && JsonOf(t1) == JsonOf(t2)
  {
    CanonicalisedValid(t1);
    CanonicalisedValid(t2);
    StringifyCanonical(t1);
    StringifyCanonical(t2);
    hide Quote, Print, Stringify, JsonOf, Canonicalised, Valid;
    if ApprovalPreimage(c1, a1, t1) == ApprovalPreimage(c2, a2, t2) {
      PreimageParts(c1, a1, Print(IndexFirst, JsonOf(t1)), c2, a2, Print(IndexFirst, JsonOf(t2)));
      PrintInjective(IndexFirst, JsonOf(t1), JsonOf(t2));
    }
  }

  /** The hashed text in full: connector, action, and the input as JSON with its keys in enumeration order. */
  lemma PreimageText(c: Text, a: Text, t: Input)
    requires Valid(t)
    ensures ApprovalPreimage(c, a, t)
         == Units("{\"c\":") + Quote(c) + Units(",\"a\":") + Quote(a) + Units(",\"i\":") + Print(IndexFirst, JsonOf(t)) + Units("}")
  {
    CanonicalisedValid(t);
    StringifyCanonical(t);
    PlainQuoted(KEY_C);
    PlainQuoted(KEY_A);
    PlainQuoted(KEY_I);
    assert Units("{\"c\":") == [LBRACE] + Quote(KEY_C) + [COLON];
    assert Units(",\"a\":") == [COMMA] + Quote(KEY_A) + [COLON];
    assert Units(",\"i\":") == [COMMA] + Quote(KEY_I) + [COLON];
    assert Units("}") == [RBRACE];
    Regrouped(Quote(KEY_C), Quote(c), Quote(KEY_A), Quote(a), Quote(KEY_I), Print(IndexFirst, JsonOf(t)));
    hide Quote, Print, Stringify, JsonOf, Canonicalised, Valid, Units;
  }

  lemma Regrouped(kc: Text, c: Text, ka: Text, a: Text, ki: Text, i: Text)
    ensures [LBRACE] + (kc + ([COLON] + (c + ([COMMA] + (ka + ([COLON] + (a + ([COMMA] + (ki + ([COLON] + (i + [RBRACE])))))))))))
         == ([LBRACE] + kc + [COLON]) + c + ([COMMA] + ka + [COLON]) + a + ([COMMA] + ki + [COLON]) + i + [RBRACE]
  {
  }

  lemma PreimageParts(c1: Text, a1: Text, s1: Text, c2: Text, a2: Text, s2: Text)
    requires [LBRACE] + (Quote(KEY_C) + ([COLON] + (Quote(c1) + ([COMMA] + (Quote(KEY_A) + ([COLON] + (Quote(a1) +
             ([COMMA] + (Quote(KEY_I) + ([COLON] + (s1 + [RBRACE])))))))))))
          == [LBRACE] + (Quote(KEY_C) + ([COLON] + (Quote(c2) + ([COMMA] + (Quote(KEY_A) + ([COLON] + (Quote(a2) +
             ([COMMA] + (Quote(KEY_I) + ([COLON] + (s2 + [RBRACE])))))))))))
    ensures c1 == c2 && a1 == a2 && s1 == s2
  {
    hide Quote;
    var i1, i2 := Quote(KEY_I) + ([COLON] + (s1 + [RBRACE])), Quote(KEY_I) + ([COLON] + (s2 + [RBRACE]));
    var k1, k2 := Quote(a1) + ([COMMA] + i1), Quote(a2) + ([COMMA] + i2);
    var j1, j2 := Quote(KEY_A) + ([COLON] + k1), Quote(KEY_A) + ([COLON] + k2);
    var h1, h2 := Quote(c1) + ([COMMA] + j1), Quote(c2) + ([COMMA] + j2);
    var g1, g2 := Quote(KEY_C) + ([COLON] + h1), Quote(KEY_C) + ([COLON] + h2);
    SameSuffix([LBRACE], g1, g2);
    SameSuffix(Quote(KEY_C), [COLON] + h1, [COLON] + h2);
    SameSuffix([COLON], h1, h2);
    QuotePrefix(c1, c2, [COMMA] + j1, [COMMA] + j2);
    SameSuffix([COMMA], j1, j2);
    SameSuffix(Quote(KEY_A), [COLON] + k1, [COLON] + k2);
    SameSuffix([COLON], k1, k2);
    QuotePrefix(a1, a2, [COMMA] + i1, [COMMA] + i2);
    SameSuffix([COMMA], i1, i2);
    SameSuffix(Quote(KEY_I), [COLON] + (s1 + [RBRACE]), [COLON] + (s2 + [RBRACE]));
    SameSuffix([COLON], s1 + [RBRACE], s2 + [RBRACE]);
    assert s1 == (s1 + [RBRACE])[..|s1 + [RBRACE]| - 1];
    assert s2 == (s2 + [RBRACE])[..|s2 + [RBRACE]| - 1];
  }

  // ----- when approving a call covers that call alone

  /** An input without the order of its keys and without the sign of its zeros. */
  function Normal(t: Input): Input {
    match t
    case InNumber(n) => if n.Zero? then InNumber(Zero(false)) else t
    case InArray(items) => InArray(seq(|items|, i requires 0 <= i < |items| => Normal(items[i])))
    case InObject(_, fields) => InObject([], map k | k in fields :: Normal(fields[k]))
    case _ => t
  }

  predicate SameInput(t: Input, u: Input) {
    Normal(t) == Normal(u)
  }

  /** An input that holds neither a null nor a number that is not finite. */
  ghost predicate NullFree(t: Input) {
    match t
    case InNull => false
    case InNumber(n) => IsFinite(n)
    case InArray(items) => forall i :: 0 <= i < |items| ==> NullFree(items[i])
    case InObject(_, fields) => forall k :: k in fields ==> NullFree(fields[k])
    case _ => true
  }

  lemma {:induction false} SameInputPrintsAlike(t: Input, u: Input)
    requires Valid(t) && Valid(u) && SameInput(t, u)
    ensures JsonOf(t) == JsonOf(u)
  {
    hide DistinctTexts;
    match t
    case InArray(items) =>
      forall i | 0 <= i < |items| ensures JsonOf(items[i]) == JsonOf(u.items[i]) {
        assert Normal(items[i]) == Normal(t).items[i] == Normal(u).items[i] == Normal(u.items[i]);
        SameInputPrintsAlike(items[i], u.items[i]);
      }
    case InObject(_, fields) =>
      assert fields.Keys == Normal(t).fields.Keys == Normal(u).fields.Keys == u.fields.Keys;
      forall k | k in fields ensures JsonOf(fields[k]) == JsonOf(u.fields[k]) {
        assert Normal(fields[k]) == Normal(t).fields[k] == Normal(u).fields[k] == Normal(u.fields[k]);
        SameInputPrintsAlike(fields[k], u.fields[k]);
      }
    case _ =>
  }

  /** Only null and the numbers printed as null lose their identity. */
  lemma {:induction false} NullFreeIsKept(t: Input, u: Input)
    requires Valid(t) && Valid(u) && NullFree(t) && JsonOf(t) == JsonOf(u)
    ensures SameInput(t, u)
  {
    hide DistinctTexts;
    match t
    case InArray(items) =>
      forall i | 0 <= i < |items| ensures Normal(items[i]) == Normal(u.items[i]) {
        assert JsonOf(items[i]) == JsonOf(t).items[i] == JsonOf(u).items[i] == JsonOf(u.items[i]);
        NullFreeIsKept(items[i], u.items[i]);
      }
    case InObject(_, fields) =>
      assert fields.Keys == JsonOf(t).fields.Keys == JsonOf(u).fields.Keys == u.fields.Keys;
      forall k | k in fields ensures Normal(fields[k]) == Normal(u.fields[k]) {
        assert JsonOf(fields[k]) == JsonOf(t).fields[k] == JsonOf(u).fields[k] == JsonOf(u.fields[k]);
        NullFreeIsKept(fields[k], u.fields[k]);
      }
    case _ =>
  }

  /** Each null replaced by Infinity, and each number that is not finite by null. */
  function Lookalike(t: Input): Input {
    match t
    case InNull => InNumber(Infinity(false))
    case InNumber(n) => if IsFinite(n) then t else InNull
    case InArray(items) => InArray(seq(|items|, i requires 0 <= i < |items| => Lookalike(items[i])))
    case InObject(keys, fields) => InObject(keys, map k | k in fields :: Lookalike(fields[k]))
    case _ => t
  }

  lemma {:induction false} LookalikePrintsAlike(t: Input)
    requires Valid(t)
    ensures Valid(Lookalike(t)) && JsonOf(Lookalike(t)) == JsonOf(t)
    ensures t.InObject? ==> Lookalike(t).InObject?
  {
    var u := Lookalike(t);
    match t
    case InArray(items) =>
      forall i | 0 <= i < |items| ensures Valid(u.items[i]) && JsonOf(u.items[i]) == JsonOf(items[i]) {
        LookalikePrintsAlike(items[i]);
      }
    case InObject(_, fields) =>
      forall k | k in fields ensures Valid(u.fields[k]) && JsonOf(u.fields[k]) == JsonOf(fields[k]) {
        LookalikePrintsAlike(fields[k]);
      }
    case _ =>
  }

  lemma {:induction false} LookalikeDiffers(t: Input)
    requires !NullFree(t)
    ensures !SameInput(t, Lookalike(t))
  {
    var u := Lookalike(t);
    match t
    case InArray(items) =>
      var i :| 0 <= i < |items| && !NullFree(items[i]);
      LookalikeDiffers(items[i]);
      assert Normal(t).items[i] == Normal(items[i]) && Normal(u).items[i] == Normal(u.items[i]);
    case InObject(_, fields) =>
      var k :| k in fields && !NullFree(fields[k]);
      LookalikeDiffers(fields[k]);
      assert Normal(t).fields[k] == Normal(fields[k]) && Normal(u).fields[k] == Normal(u.fields[k]);
    case _ =>
  }

  /** Approving this call covers no other connector, action or arguments. */
  ghost predicate CoversItselfAlone(c: Text, a: Text, t: Input)
    requires Valid(t)
  {
    forall c2, a2, u | Valid(u) && ApprovalPreimage(c2, a2, u) == ApprovalPreimage(c, a, t) ::
      c2 == c && a2 == a && SameInput(t, u)
  }

  /** An approval covers one call alone if and only if the arguments hold no null and no infinite number. */
  lemma ApprovalCovers(c: Text, a: Text, t: Input)
    requires Valid(t)
    ensures CoversItselfAlone(c, a, t) <==> NullFree(t)
  {
    hide ApprovalPreimage;
    if NullFree(t) {
      forall c2, a2, u | Valid(u) && ApprovalPreimage(c2, a2, u) == ApprovalPreimage(c, a, t)
        ensures c2 == c && a2 == a && SameInput(t, u)
      {
        ApprovalSeparates(c2, a2, u, c, a, t);
        NullFreeIsKept(t, u);
      }
    } else {
      LookalikePrintsAlike(t);
      ApprovalSeparates(c, a, Lookalike(t), c, a, t);
      LookalikeDiffers(t);
    }
  }

  /** The same arguments in another key order, or with another sign of zero, need no second approval. */
  lemma ApprovalIgnoresKeyOrder(c: Text, a: Text, t: Input, u: Input)
    requires Valid(t) && Valid(u) && SameInput(t, u)
    ensures ApprovalPreimage(c, a, t) == ApprovalPreimage(c, a, u)
  {
    SameInputPrintsAlike(t, u);
    ApprovalSeparates(c, a, t, c, a, u);
  }

  /** {"k": x} for one argument k. */
  function Argument(k: Text, x: Input): Input {
    InObject([k], map[k := x])
  }

  lemma ArgumentParts(k: Text, x: Input, y: Input)
    requires Valid(x) && Valid(y)
    ensures Valid(Argument(k, x)) && JsonOf(Argument(k, x)) == JObject(map[k := JsonOf(x)])
    ensures SameInput(Argument(k, x), Argument(k, y)) ==> SameInput(x, y)
  {
    var t, u := Argument(k, x), Argument(k, y);
    assert Valid(t);
    assert JsonOf(t).fields == map[k := JsonOf(x)];
    assert Normal(t).fields[k] == Normal(x) && Normal(u).fields[k] == Normal(y);
  }

  /** Approving {"k": null} covers {"k": 1e400} and {"k": -1e400}, and the other way round. */
  lemma InfinityIsApprovedAsNull(c: Text, a: Text, k: Text)
    ensures var none, much, less :=
              Argument(k, InNull), Argument(k, InNumber(Infinity(false))), Argument(k, InNumber(Infinity(true)));
            && Valid(none) && Valid(much) && Valid(less)
            && !SameInput(none, much) && !SameInput(none, less) && !SameInput(much, less)
            && ApprovalPreimage(c, a, none) == ApprovalPreimage(c, a, much) == ApprovalPreimage(c, a, less)
  {
    var none, much, less := InNull, InNumber(Infinity(false)), InNumber(Infinity(true));
    assert Valid(none) && Valid(much) && Valid(less);
    ArgumentParts(k, none, much);
    ArgumentParts(k, much, less);
    ArgumentParts(k, less, none);
    assert !SameInput(none, much) && !SameInput(much, less) && !SameInput(less, none);
    assert JsonOf(none) == JsonOf(much) == JsonOf(less) == JNull;
    hide ApprovalPreimage, Argument, Valid, JsonOf, Normal;
    ApprovalSeparates(c, a, Argument(k, none), c, a, Argument(k, much));
    ApprovalSeparates(c, a, Argument(k, none), c, a, Argument(k, less));
  }
}
