/** The writer of packages/protocol/src/canonical.ts, and what its output says about its input. */
module CanonicalWriter {
  import opened Prelude
  import opened NumberText
  import opened Quoting
  import opened KeyOrder
  import opened Canonical
  import opened Utf8

  /** The text of a JSON value with its keys sorted by code units, or a refusal. */
  ghost function Printed(j: Option<Json>): Option<Text> {
    if j.None? then None else Some(Print(CodeUnits, j.value))
  }

  /** `canonicalJson(value)`; None is the INVALID_INPUT error. */
  ghost function CanonicalJson(h: Heap, v: Value): Option<Text> {
    Printed(Read(h, v, {}, 0, true))
  }

  // ----- looking a property up

  function Lookup(props: seq<Prop>, key: Text): Value {
    if props == [] then Undefined
    else if props[0].key == key then props[0].value
    else Lookup(props[1..], key)
  }

  function Keys(props: seq<Prop>): seq<Text> {
    seq(|props|, i requires 0 <= i < |props| => props[i].key)
  }

  lemma {:induction false} LookupAbsent(props: seq<Prop>, key: Text)
    requires forall i :: 0 <= i < |props| ==> props[i].key != key
    ensures Lookup(props, key) == Undefined
  {
    if props != [] {
      LookupAbsent(props[1..], key);
    }
  }

  lemma {:induction false} LookupFound(props: seq<Prop>, key: Text)
    requires Lookup(props, key) != Undefined
    ensures key in Keys(props)
  {
    if props[0].key != key {
      LookupFound(props[1..], key);
      assert Keys(props[1..]) == Keys(props)[1..];
    } else {
      assert Keys(props)[0] == key;
    }
  }

  predicate Readable(h: Heap, v: Value, ancestors: set<nat>, depth: nat, guarded: bool) {
    v.Undefined? || Read(h, v, ancestors, depth, guarded).Some?
  }

  /** What an object's properties stand for, said key by key and so without regard to their order. */
  lemma {:induction false} PropsByKey(h: Heap, props: Props, ancestors: set<nat>, depth: nat, guarded: bool)
    ensures var r := ReadProps(h, props, ancestors, depth, guarded);
            && (r.Some? <==> forall k :: Readable(h, Lookup(props, k), ancestors, depth, guarded))
            && (r.Some? ==> forall k :: k in r.value <==> Lookup(props, k) != Undefined)
            && (r.Some? ==> forall k :: k in r.value ==> Some(r.value[k]) == Read(h, Lookup(props, k), ancestors, depth, guarded))
  {
    hide Read;
    if props != [] {
      PropsByKey(h, props[1..], ancestors, depth, guarded);
      var head := props[0];
      LookupAbsent(props[1..], head.key);
      var r := ReadProps(h, props, ancestors, depth, guarded);
      assert forall k :: Lookup(props, k) == if k == head.key then head.value else Lookup(props[1..], k);
      if r.None? {
        if Readable(h, head.value, ancestors, depth, guarded) {
          var k :| !Readable(h, Lookup(props[1..], k), ancestors, depth, guarded);
          assert exists x :: x == k && !Readable(h, Lookup(props, x), ancestors, depth, guarded);
        } else {
          assert exists k :: k == head.key && !Readable(h, Lookup(props, k), ancestors, depth, guarded);
        }
      } else {
        forall k ensures Readable(h, Lookup(props, k), ancestors, depth, guarded) {
          assert Readable(h, Lookup(props[1..], k), ancestors, depth, guarded);
        }
      }
    }
  }

  lemma {:induction false} ItemsByIndex(h: Heap, items: seq<Value>, ancestors: set<nat>, depth: nat, guarded: bool)
    ensures var r := ReadItems(h, items, ancestors, depth, guarded);
            && (r.Some? <==> forall i :: 0 <= i < |items| ==> Read(h, items[i], ancestors, depth, guarded).Some?)
            && (r.Some? ==> forall i :: 0 <= i < |items| ==> Some(r.value[i]) == Read(h, items[i], ancestors, depth, guarded))
  {
    hide Read;
    if items != [] {
      ItemsByIndex(h, items[1..], ancestors, depth, guarded);
      var r := ReadItems(h, items, ancestors, depth, guarded);
      if r.None? && Read(h, items[0], ancestors, depth, guarded).Some? {
        var i :| 0 <= i < |items[1..]| && Read(h, items[1..][i], ancestors, depth, guarded).None?;
        assert Read(h, items[i + 1], ancestors, depth, guarded).None?;
      }
      if r.Some? {
        forall i | 0 <= i < |items| ensures Some(r.value[i]) == Read(h, items[i], ancestors, depth, guarded) {
          if i > 0 { assert items[i] == items[1..][i - 1]; }
        }
      }
    }
  }

  // ----- the writer

  class Writer {
    const heap: Heap
    /** The containers being written, innermost last; shared by every nested call. */
    var ancestors: set<nat>

    constructor (heap: Heap)
      ensures this.heap == heap && ancestors == {}
    {
      this.heap := heap;
      ancestors := {};
    }

    method Write(v: Value, depth: nat) returns (r: Option<Text>)
      modifies this
      ensures ancestors == old(ancestors)
      ensures r == Printed(Read(heap, v, old(ancestors), depth, true))
      decreases MAX_DEPTH + 1 - depth, 1, 0
    {
      if depth > MAX_DEPTH {
        return None;
      }
      match v
      case Null => r := Some(NULL_TEXT);
      case Undefined => r := None;
      case Other => r := None;
      case Bool(b) => r := Some(if b then TRUE_TEXT else FALSE_TEXT);
      case Num(n) =>
        if n.NaN? || n.Infinity? {
          r := None;
        } else {
          r := Some(NumberToString(n));
        }
      case Str(s) => r := Some(Quote(s));
      case Ref(id) =>
        if id in ancestors {
          return None;
        }
        ancestors := ancestors + {id};
        match heap(id) {
          case Arr(items) => r := WriteArray(items, depth);
          case Obj(props) => r := WriteObject(props, depth);
          case Exotic => r := None;
        }
        ancestors := ancestors - {id};
    }

    method WriteArray(items: seq<Value>, depth: nat) returns (r: Option<Text>)
      requires depth <= MAX_DEPTH
      modifies this
      ensures ancestors == old(ancestors)
      ensures var j := ReadItems(heap, items, old(ancestors), depth + 1, true);
              r == Printed(if j.None? then None else Some(JArray(j.value)))
      decreases MAX_DEPTH + 1 - depth, 0, 0
    {
      hide Read, ReadItems;
      ghost var j := ReadItems(heap, items, ancestors, depth + 1, true);
      ItemsByIndex(heap, items, ancestors, depth + 1, true);
      var parts: seq<Text> := [];
      for i := 0 to |items|
        invariant ancestors == old(ancestors)
        invariant |parts| == i
        invariant forall k :: 0 <= k < i ==> Some(parts[k]) == Printed(Read(heap, items[k], ancestors, depth + 1, true))
      {
        var text := Write(items[i], depth + 1);
        if text.None? {
          return None;
        }
        parts := parts + [text.value];
      }
      assert forall k :: 0 <= k < |items| ==> Read(heap, items[k], ancestors, depth + 1, true).Some?;
      assert parts == ItemParts(CodeUnits, j.value);
      r := Some(Wrap(LBRACKET, Join(parts), RBRACKET));
    }

    method WriteObject(props: Props, depth: nat) returns (r: Option<Text>)
      requires depth <= MAX_DEPTH
      modifies this
      ensures ancestors == old(ancestors)
      ensures var j := ReadProps(heap, props, old(ancestors), depth + 1, true);
              r == Printed(if j.None? then None else Some(JObject(j.value)))
      decreases MAX_DEPTH + 1 - depth, 0, 0
    {
      hide Read, ReadProps;
      ghost var j := ReadProps(heap, props, ancestors, depth + 1, true);
      PropsByKey(heap, props, ancestors, depth + 1, true);
      var keys := Sort(CodeUnits, Keys(props));
      SortSorts(CodeUnits, Keys(props));
      var parts: seq<Text> := [];
      ghost var done: seq<Text> := [];
      for i := 0 to |keys|
        invariant ancestors == old(ancestors)
        invariant |parts| == |done|
        invariant forall n :: 0 <= n < |done| ==> PartOf(props, done[n], ancestors, depth + 1, parts[n])
        invariant Ascending(CodeUnits, done)
        invariant forall k :: k in done <==> k in keys[..i] && Lookup(props, k) != Undefined
      {
        var key := keys[i];
        assert keys[..i + 1] == keys[..i] + [key];
        var item := Lookup(props, key);
        if !item.Undefined? {
          var text := Write(item, depth + 1);
          if text.None? {
            assert !Readable(heap, Lookup(props, key), ancestors, depth + 1, true);
            return None;
          }
          forall n | 0 <= n < |done| ensures Less(CodeUnits, done[n], key) {
            assert done[n] in keys[..i];
          }
          parts := parts + [Quote(key) + [COLON] + text.value];
          done := done + [key];
        }
      }
      FinishObject(props, ancestors, depth + 1, done, parts);
      r := Some(Wrap(LBRACE, Join(parts), RBRACE));
    }

    /** `part` is `"key":value` for the property `key`. */
    ghost predicate PartOf(props: Props, key: Text, above: set<nat>, depth: nat, part: Text) {
      var j := Read(heap, Lookup(props, key), above, depth, true);
      j.Some? && part == Quote(key) + [COLON] + Print(CodeUnits, j.value)
    }

    lemma FinishObject(props: Props, above: set<nat>, depth: nat, done: seq<Text>, parts: seq<Text>)
      requires |parts| == |done| && Ascending(CodeUnits, done)
      requires forall n :: 0 <= n < |done| ==> PartOf(props, done[n], above, depth, parts[n])
      requires forall k :: k in done <==> k in Sort(CodeUnits, Keys(props)) && Lookup(props, k) != Undefined
      ensures var j := ReadProps(heap, props, above, depth, true);
              j.Some? && Print(CodeUnits, JObject(j.value)) == Wrap(LBRACE, Join(parts), RBRACE)
    {
      hide Read, ReadProps, Quote, Less, Join, Wrap, Sort;
      var j := ReadProps(heap, props, above, depth, true);
      PropsByKey(heap, props, above, depth, true);
      SortSorts(CodeUnits, Keys(props));
      forall k ensures k in done <==> Lookup(props, k) != Undefined {
        if Lookup(props, k) != Undefined { LookupFound(props, k); }
      }
      forall k ensures Readable(heap, Lookup(props, k), above, depth, true) {
        if k in done {
          var n :| 0 <= n < |done| && done[n] == k;
          assert PartOf(props, done[n], above, depth, parts[n]);
        }
      }
      SortingIsUnique(CodeUnits, done, Ordered(CodeUnits, j.value.Keys), j.value.Keys);
      assert parts == FieldParts(CodeUnits, done, JObject(j.value));
    }
  }

  // ----- the cycle check refuses nothing that has a finite unfolding

  /** Two unguarded readings of one value agree at whatever depth they succeed. */
  lemma {:induction false} DepthIrrelevant(h: Heap, v: Value, a: set<nat>, d: nat, b: set<nat>, e: nat)
    requires Read(h, v, a, d, false).Some? && Read(h, v, b, e, false).Some?
    ensures Read(h, v, a, d, false) == Read(h, v, b, e, false)
    decreases MAX_DEPTH + 1 - d
  {
    if v.Ref? {
      var a', b' := a + {v.id}, b + {v.id};
      match h(v.id)
      case Arr(items) =>
        ItemsByIndex(h, items, a', d + 1, false);
        ItemsByIndex(h, items, b', e + 1, false);
        forall i | 0 <= i < |items|
          ensures Read(h, items[i], a', d + 1, false) == Read(h, items[i], b', e + 1, false)
        {
          DepthIrrelevant(h, items[i], a', d + 1, b', e + 1);
        }
        assert ReadItems(h, items, a', d + 1, false).value == ReadItems(h, items, b', e + 1, false).value;
      case Obj(props) =>
        PropsByKey(h, props, a', d + 1, false);
        PropsByKey(h, props, b', e + 1, false);
        var m, n := ReadProps(h, props, a', d + 1, false).value, ReadProps(h, props, b', e + 1, false).value;
        forall k | k in m ensures k in n && m[k] == n[k] {
          assert Readable(h, Lookup(props, k), b', e + 1, false);
          DepthIrrelevant(h, Lookup(props, k), a', d + 1, b', e + 1);
        }
        assert m == n;
      case Exotic =>
    }
  }

  /** Every container in `above` unfolds, if at all, to a value that properly contains `j`. */
  ghost predicate Above(h: Heap, above: set<nat>, j: Json) {
    forall id: nat, a: set<nat>, d: nat ::
      id in above && Read(h, Ref(id), a, d, false).Some? ==> j < Read(h, Ref(id), a, d, false).value
  }

  /** A finite value cannot contain itself, so the check never fires on one. */
  lemma {:induction false} GuardSilent(h: Heap, v: Value, above: set<nat>, depth: nat)
    requires Read(h, v, above, depth, false).Some?
    requires Above(h, above, Read(h, v, above, depth, false).value)
    ensures Read(h, v, above, depth, true) == Read(h, v, above, depth, false)
    decreases MAX_DEPTH + 1 - depth
  {
    var j := Read(h, v, above, depth, false).value;
    if v.Ref? {
      assert v.id !in above;
      var above' := above + {v.id};
      match h(v.id)
      case Arr(items) =>
        ItemsByIndex(h, items, above', depth + 1, false);
        ItemsByIndex(h, items, above', depth + 1, true);
        forall i | 0 <= i < |items|
          ensures Read(h, items[i], above', depth + 1, true) == Read(h, items[i], above', depth + 1, false)
        {
          ChildAbove(h, v, above, depth, j.items[i]);
          GuardSilent(h, items[i], above', depth + 1);
        }
        assert ReadItems(h, items, above', depth + 1, true).value == j.items;
      case Obj(props) =>
        PropsByKey(h, props, above', depth + 1, false);
        PropsByKey(h, props, above', depth + 1, true);
        forall k ensures Readable(h, Lookup(props, k), above', depth + 1, true)
          && (k in j.fields ==> Read(h, Lookup(props, k), above', depth + 1, true) == Some(j.fields[k]))
        {
          if k in j.fields {
            ChildAbove(h, v, above, depth, j.fields[k]);
            GuardSilent(h, Lookup(props, k), above', depth + 1);
          }
        }
        assert ReadProps(h, props, above', depth + 1, true).value == j.fields;
      case Exotic =>
    }
  }

  lemma ChildAbove(h: Heap, v: Value, above: set<nat>, depth: nat, child: Json)
    requires v.Ref? && Read(h, v, above, depth, false).Some?
    requires Above(h, above, Read(h, v, above, depth, false).value)
    requires child < Read(h, v, above, depth, false).value
    ensures Above(h, above + {v.id}, child)
  {
    hide Read;
    forall id: nat, a: set<nat>, d: nat | id in above + {v.id} && Read(h, Ref(id), a, d, false).Some?
      ensures child < Read(h, Ref(id), a, d, false).value
    {
      if id !in above {
        DepthIrrelevant(h, v, above, depth, a, d);
      }
    }
  }

  /** The check only ever takes values away. */
  lemma {:induction false} GuardRestricts(h: Heap, v: Value, above: set<nat>, depth: nat)
    requires Read(h, v, above, depth, true).Some?
    ensures Read(h, v, above, depth, false) == Read(h, v, above, depth, true)
    decreases MAX_DEPTH + 1 - depth
  {
    if v.Ref? {
      var above' := above + {v.id};
      match h(v.id)
      case Arr(items) =>
        ItemsByIndex(h, items, above', depth + 1, false);
        ItemsByIndex(h, items, above', depth + 1, true);
        forall i | 0 <= i < |items|
          ensures Read(h, items[i], above', depth + 1, true) == Read(h, items[i], above', depth + 1, false)
        {
          GuardRestricts(h, items[i], above', depth + 1);
        }
        assert ReadItems(h, items, above', depth + 1, true).value == ReadItems(h, items, above', depth + 1, false).value;
      case Obj(props) =>
        PropsByKey(h, props, above', depth + 1, false);
        PropsByKey(h, props, above', depth + 1, true);
        forall k ensures Lookup(props, k) != Undefined ==>
          Read(h, Lookup(props, k), above', depth + 1, true) == Read(h, Lookup(props, k), above', depth + 1, false)
        {
          assert Readable(h, Lookup(props, k), above', depth + 1, true);
          if Lookup(props, k) != Undefined { GuardRestricts(h, Lookup(props, k), above', depth + 1); }
        }
        forall k ensures Readable(h, Lookup(props, k), above', depth + 1, false) {
          assert Readable(h, Lookup(props, k), above', depth + 1, true);
        }
        assert ReadProps(h, props, above', depth + 1, true).value == ReadProps(h, props, above', depth + 1, false).value;
      case Exotic =>
    }
  }

  /**
   * The writer accepts a value exactly when it has a finite unfolding within the depth limit, sharing
   * included; the text is that unfolding, printed.
   */
  lemma CanonicalIsMeaning(h: Heap, v: Value)
    ensures CanonicalJson(h, v) == Printed(Meaning(h, v))
  {
    hide Read;
    if Read(h, v, {}, 0, true).Some? {
      GuardRestricts(h, v, {}, 0);
    } else if Meaning(h, v).Some? {
      GuardSilent(h, v, {}, 0);
    }
  }

  /** Two accepted values get the same preimage if and only if they stand for the same JSON value. */
  lemma CanonicalInjective(h1: Heap, v1: Value, h2: Heap, v2: Value)
    requires CanonicalJson(h1, v1).Some? && CanonicalJson(h2, v2).Some?
    ensures CanonicalJson(h1, v1) == CanonicalJson(h2, v2) <==> Meaning(h1, v1) == Meaning(h2, v2)
  {
    CanonicalIsMeaning(h1, v1);
    CanonicalIsMeaning(h2, v2);
    hide Print;
    if CanonicalJson(h1, v1) == CanonicalJson(h2, v2) {
      PrintInjective(CodeUnits, Meaning(h1, v1).value, Meaning(h2, v2).value);
    }
  }

  // ----- what a value stands for, said of the value alone

  /** The JSON value `j` is what JavaScript's value `v` holds; -0 stands for 0, an undefined property for none. */
  ghost predicate StandsFor(h: Heap, v: Value, j: Json)
    decreases j
  {
    match j
    case JNull => v == Null
    case JBool(b) => v == Bool(b)
    case JNumber(n) => v == Num(n) || (n == Zero(false) && v == Num(Zero(true)))
    case JString(s) => v == Str(s)
    case JArray(items) =>
      && v.Ref? && h(v.id).Arr? && |h(v.id).items| == |items|
      && forall i :: 0 <= i < |items| ==> StandsFor(h, h(v.id).items[i], items[i])
    case JObject(fields) =>
      && v.Ref? && h(v.id).Obj?
      && (forall k :: k in fields <==> Lookup(h(v.id).props, k) != Undefined)
      && (forall k :: k in fields ==> StandsFor(h, Lookup(h(v.id).props, k), fields[k]))
  }

  /** No value in `j` lies more than `levels` containers deep. */
  ghost predicate Within(j: Json, levels: nat)
    decreases j
  {
    match j
    case JArray(items) => forall i :: 0 <= i < |items| ==> levels > 0 && Within(items[i], levels - 1)
    case JObject(fields) => forall k :: k in fields ==> levels > 0 && Within(fields[k], levels - 1)
    case _ => true
  }

  lemma {:induction false} ReadStandsFor(h: Heap, v: Value, above: set<nat>, depth: nat, j: Json)
    requires depth <= MAX_DEPTH
    ensures Read(h, v, above, depth, false) == Some(j) <==> StandsFor(h, v, j) && Within(j, MAX_DEPTH - depth)
    decreases MAX_DEPTH - depth
  {
    if v.Ref? {
      match h(v.id)
      case Arr(items) => if j.JArray? { ArrayStandsFor(h, v, above, depth, j); }
      case Obj(props) => if j.JObject? { ObjectStandsFor(h, v, above, depth, j); }
      case Exotic =>
    }
  }

  lemma {:induction false} ChildStandsFor(h: Heap, v: Value, above: set<nat>, depth: nat, j: Json)
    requires depth <= MAX_DEPTH
    ensures Read(h, v, above, depth + 1, false) == Some(j)
       <==> depth < MAX_DEPTH && StandsFor(h, v, j) && Within(j, MAX_DEPTH - depth - 1)
    decreases MAX_DEPTH - depth, 0
  {
    if depth < MAX_DEPTH { ReadStandsFor(h, v, above, depth + 1, j); }
  }

  lemma {:induction false} ArrayStandsFor(h: Heap, v: Value, above: set<nat>, depth: nat, j: Json)
    requires depth <= MAX_DEPTH && v.Ref? && h(v.id).Arr? && j.JArray?
    ensures Read(h, v, above, depth, false) == Some(j) <==> StandsFor(h, v, j) && Within(j, MAX_DEPTH - depth)
    decreases MAX_DEPTH - depth, 1
  {
    var items, above' := h(v.id).items, above + {v.id};
    ItemsByIndex(h, items, above', depth + 1, false);
    forall i | 0 <= i < |items| && i < |j.items|
      ensures Read(h, items[i], above', depth + 1, false) == Some(j.items[i])
         <==> depth < MAX_DEPTH && StandsFor(h, items[i], j.items[i]) && Within(j.items[i], MAX_DEPTH - depth - 1)
    {
      ChildStandsFor(h, items[i], above', depth, j.items[i]);
    }
    hide ReadItems;
    var r := ReadItems(h, items, above', depth + 1, false);
    if StandsFor(h, v, j) && Within(j, MAX_DEPTH - depth) {
      assert forall i :: 0 <= i < |items| ==> Read(h, items[i], above', depth + 1, false).Some?;
      assert r.value == j.items;
    }
  }

  lemma {:induction false} ObjectStandsFor(h: Heap, v: Value, above: set<nat>, depth: nat, j: Json)
    requires depth <= MAX_DEPTH && v.Ref? && h(v.id).Obj? && j.JObject?
    ensures Read(h, v, above, depth, false) == Some(j) <==> StandsFor(h, v, j) && Within(j, MAX_DEPTH - depth)
    decreases MAX_DEPTH - depth, 1
  {
    var props, above' := h(v.id).props, above + {v.id};
    PropsByKey(h, props, above', depth + 1, false);
    forall k | k in j.fields
      ensures Read(h, Lookup(props, k), above', depth + 1, false) == Some(j.fields[k])
         <==> depth < MAX_DEPTH && StandsFor(h, Lookup(props, k), j.fields[k]) && Within(j.fields[k], MAX_DEPTH - depth - 1)
    {
      ChildStandsFor(h, Lookup(props, k), above', depth, j.fields[k]);
    }
    hide ReadProps;
    var r := ReadProps(h, props, above', depth + 1, false);
    if StandsFor(h, v, j) && Within(j, MAX_DEPTH - depth) {
      assert forall k :: Readable(h, Lookup(props, k), above', depth + 1, false);
      assert r.value == j.fields;
    }
  }

  /**
   * `canonicalJson` returns a text exactly for the values that stand for a JSON value at most 64 containers
   * deep, and the text is that JSON value, printed.
   */
  lemma AcceptsExactly(h: Heap, v: Value)
    ensures CanonicalJson(h, v).Some? <==> exists j :: StandsFor(h, v, j) && Within(j, 64)
    ensures forall j :: StandsFor(h, v, j) && Within(j, 64) ==> CanonicalJson(h, v) == Some(Print(CodeUnits, j))
  {
    CanonicalIsMeaning(h, v);
    hide CanonicalJson, StandsFor, Within, Print, Read;
    forall j ensures Meaning(h, v) == Some(j) <==> StandsFor(h, v, j) && Within(j, 64) {
      ReadStandsFor(h, v, {}, 0, j);
    }
    if Meaning(h, v).Some? {
      assert StandsFor(h, v, Meaning(h, v).value) && Within(Meaning(h, v).value, 64);
    }
  }

  // ----- key order, undefined properties and the sign of zero do not matter

  predicate AlikeValues(u: Value, v: Value) {
    u == v || (u.Num? && v.Num? && u.number.Zero? && v.number.Zero?)
  }

  /** The same items in the same order, or the same defined properties in any order. */
  ghost predicate AlikeContainers(c: Container, d: Container) {
    match (c, d)
    case (Arr(xs), Arr(ys)) => |xs| == |ys| && forall i :: 0 <= i < |xs| ==> AlikeValues(xs[i], ys[i])
    case (Obj(ps), Obj(qs)) => forall k :: AlikeValues(Lookup(ps, k), Lookup(qs, k))
    case (Exotic, Exotic) => true
    case _ => false
  }

  ghost predicate AlikeHeaps(g: Heap, h: Heap) {
    forall id: nat :: AlikeContainers(g(id), h(id))
  }

  lemma {:induction false} AlikeReads(g: Heap, u: Value, h: Heap, v: Value, above: set<nat>, depth: nat)
    requires AlikeHeaps(g, h) && AlikeValues(u, v)
    ensures Read(g, u, above, depth, true) == Read(h, v, above, depth, true)
    decreases MAX_DEPTH + 1 - depth, 1
  {
    if u.Ref? && depth <= MAX_DEPTH {
      var above' := above + {u.id};
      assert AlikeContainers(g(u.id), h(u.id));
      match (g(u.id), h(u.id))
      case (Arr(xs), Arr(ys)) =>
        ItemsByIndex(g, xs, above', depth + 1, true);
        ItemsByIndex(h, ys, above', depth + 1, true);
        forall i | 0 <= i < |xs|
          ensures Read(g, xs[i], above', depth + 1, true) == Read(h, ys[i], above', depth + 1, true)
        {
          AlikeReads(g, xs[i], h, ys[i], above', depth + 1);
        }
        var r, s := ReadItems(g, xs, above', depth + 1, true), ReadItems(h, ys, above', depth + 1, true);
        assert r.Some? == s.Some?;
        assert r.Some? ==> r.value == s.value;
      case (Obj(ps), Obj(qs)) =>
        AlikeProps(g, ps, h, qs, above', depth + 1);
      case (Exotic, Exotic) =>
    }
  }

  lemma {:induction false} AlikeProps(g: Heap, ps: Props, h: Heap, qs: Props, above: set<nat>, depth: nat)
    requires AlikeHeaps(g, h) && forall k :: AlikeValues(Lookup(ps, k), Lookup(qs, k))
    requires 0 < depth <= MAX_DEPTH + 1
    ensures ReadProps(g, ps, above, depth, true) == ReadProps(h, qs, above, depth, true)
    decreases MAX_DEPTH + 2 - depth, 0
  {
    hide Read, ReadProps;
    PropsByKey(g, ps, above, depth, true);
    PropsByKey(h, qs, above, depth, true);
    forall k
      ensures Read(g, Lookup(ps, k), above, depth, true) == Read(h, Lookup(qs, k), above, depth, true)
      ensures Readable(g, Lookup(ps, k), above, depth, true) == Readable(h, Lookup(qs, k), above, depth, true)
    {
      AlikeReads(g, Lookup(ps, k), h, Lookup(qs, k), above, depth);
    }
    var r, s := ReadProps(g, ps, above, depth, true), ReadProps(h, qs, above, depth, true);
    assert r.Some? == s.Some?;
    if r.Some? {
      assert forall k :: k in r.value <==> k in s.value;
      assert r.value == s.value;
    }
  }

  /** Reordering keys, adding or dropping undefined properties and flipping the sign of zeros change nothing. */
  lemma CanonicalIgnoresKeyOrder(g: Heap, u: Value, h: Heap, v: Value)
    requires AlikeHeaps(g, h) && AlikeValues(u, v)
    ensures CanonicalJson(g, u) == CanonicalJson(h, v)
  {
    AlikeReads(g, u, h, v, {}, 0);
  }

  // ----- the text survives UTF-8 encoding

  lemma {:induction false} JoinWellFormed(parts: seq<Text>)
    requires forall i :: 0 <= i < |parts| ==> WellFormed(parts[i])
    ensures WellFormed(Join(parts))
  {
    if |parts| > 1 {
      JoinWellFormed(parts[1..]);
      PlainIsWellFormed([COMMA]);
      WellFormedConcat(parts[0], [COMMA]);
      WellFormedConcat(parts[0] + [COMMA], Join(parts[1..]));
    }
  }

  lemma WrapWellFormed(open: Unit, inner: Text, close: Unit)
    requires open < 0xd800 && close < 0xd800 && WellFormed(inner)
    ensures WellFormed(Wrap(open, inner, close))
  {
    PlainIsWellFormed([open]);
    PlainIsWellFormed([close]);
    WellFormedConcat([open], inner);
    WellFormedConcat([open] + inner, [close]);
  }

  lemma FieldWellFormed(key: Text, value: Text)
    requires WellFormed(value)
    ensures WellFormed(Quote(key) + [COLON] + value)
  {
    hide Quote;
    QuoteIsWellFormed(key);
    PlainIsWellFormed([COLON]);
    WellFormedConcat(Quote(key), [COLON]);
    WellFormedConcat(Quote(key) + [COLON], value);
  }

  /** No unpaired surrogate reaches the output, so `encode` maps different texts to different bytes. */
  lemma {:induction false} PrintWellFormed(o: Order, j: Json)
    ensures WellFormed(Print(o, j))
    decreases j
  {
    hide WellFormed, Join, Wrap, Quote, NumberToString;
    match j
    case JNull => PlainIsWellFormed(NULL_TEXT);
    case JBool(b) => PlainIsWellFormed(if b then TRUE_TEXT else FALSE_TEXT);
    case JNumber(n) =>
      NumberUnits(n);
      PlainIsWellFormed(NumberToString(n));
    case JString(s) => QuoteIsWellFormed(s);
    case JArray(items) =>
      forall i | 0 <= i < |items| ensures WellFormed(ItemParts(o, items)[i]) {
        PrintWellFormed(o, items[i]);
      }
      JoinWellFormed(ItemParts(o, items));
      WrapWellFormed(LBRACKET, Join(ItemParts(o, items)), RBRACKET);
    case JObject(fields) =>
      var keys := Ordered(o, fields.Keys);
      forall i | 0 <= i < |keys| ensures WellFormed(FieldParts(o, keys, j)[i]) {
        PrintWellFormed(o, fields[keys[i]]);
        FieldWellFormed(keys[i], Print(o, fields[keys[i]]));
      }
      JoinWellFormed(FieldParts(o, keys, j));
      WrapWellFormed(LBRACE, Join(FieldParts(o, keys, j)), RBRACE);
  }

  /**
   * The bytes that are signed: two accepted payloads share them if and only if they stand for the
   * same JSON value, so a signature over one is no signature over any other.
   */
  lemma SignedBytesInjective(h1: Heap, v1: Value, h2: Heap, v2: Value)
    requires CanonicalJson(h1, v1).Some? && CanonicalJson(h2, v2).Some?
    ensures Encode(CanonicalJson(h1, v1).value) == Encode(CanonicalJson(h2, v2).value) <==> Meaning(h1, v1) == Meaning(h2, v2)
  {
    CanonicalInjective(h1, v1, h2, v2);
    CanonicalIsMeaning(h1, v1);
    CanonicalIsMeaning(h2, v2);
    PrintWellFormed(CodeUnits, Meaning(h1, v1).value);
    PrintWellFormed(CodeUnits, Meaning(h2, v2).value);
    hide CanonicalJson, Encode, WellFormed;
    EncodeRoundTrip(CanonicalJson(h1, v1).value);
    EncodeRoundTrip(CanonicalJson(h2, v2).value);
  }
}
