/** The two orders in which the repository's writers visit the keys of an object, and sorting by them. */
module KeyOrder {
  import opened Prelude
  import opened NumberText

  /**
   * CodeUnits is `Object.keys(value).sort()`. IndexFirst is the order in which a JavaScript object
   * built from entries sorted by code units enumerates them: array indices first, by value
   * (OrdinaryOwnPropertyKeys, section 10.1.11.1 of ECMA-262), then the other keys as inserted.
   */
  datatype Order = CodeUnits | IndexFirst

  predicate UnitsLess(a: Text, b: Text) {
    if a == [] then b != []
    else b != [] && (a[0] < b[0] || (a[0] == b[0] && UnitsLess(a[1..], b[1..])))
  }

  const MAX_ARRAY_INDEX := 4294967294

  /** The canonical decimal text of a number up to 2^32 - 2. */
  predicate ArrayIndex(t: Text) {
    t != [] && AllDigits(t) && (t[0] == ZERO ==> |t| == 1) && DecimalValue(t) <= MAX_ARRAY_INDEX
  }

  predicate Less(o: Order, a: Text, b: Text) {
    if o.IndexFirst? && ArrayIndex(a) then ArrayIndex(b) ==> DecimalValue(a) < DecimalValue(b)
    else if o.IndexFirst? && ArrayIndex(b) then false
    else UnitsLess(a, b)
  }

  // ----- both are strict total orders

  lemma {:induction false} UnitsIrreflexive(a: Text)
    ensures !UnitsLess(a, a)
  {
    if a != [] {
      UnitsIrreflexive(a[1..]);
    }
  }

  lemma {:induction false} UnitsTotal(a: Text, b: Text)
    ensures UnitsLess(a, b) || UnitsLess(b, a) || a == b
    ensures !(UnitsLess(a, b) && UnitsLess(b, a))
  {
    if a != [] && b != [] {
      UnitsTotal(a[1..], b[1..]);
      assert a == [a[0]] + a[1..] && b == [b[0]] + b[1..];
    }
  }

  lemma {:induction false} UnitsTransitive(a: Text, b: Text, c: Text)
    requires UnitsLess(a, b) && UnitsLess(b, c)
    ensures UnitsLess(a, c)
  {
    if a != [] && a[0] == b[0] == c[0] {
      UnitsTransitive(a[1..], b[1..], c[1..]);
    }
  }

  lemma {:induction false} ValuePositive(t: Text)
    requires AllDigits(t)
    ensures DecimalValue(t) >= 0
    ensures t != [] && t[0] != ZERO ==> DecimalValue(t) >= 1
  {
    if t != [] {
      ValuePositive(t[..|t| - 1]);
    }
  }

  /** A canonical numeral is the decimal text of its own value. */
  lemma {:induction false} CanonicalNumeral(t: Text)
    requires t != [] && AllDigits(t) && (t[0] == ZERO ==> |t| == 1)
    ensures DecimalValue(t) >= 0 && Decimal(DecimalValue(t)) == t
  {
    var front, last := t[..|t| - 1], t[|t| - 1];
    if |t| == 1 {
      assert front == [];
      assert t == [last];
    } else {
      ValuePositive(front);
      CanonicalNumeral(front);
      assert DecimalValue(t) / 10 == DecimalValue(front) && DecimalValue(t) % 10 == last - ZERO;
      assert t == front + [last];
    }
  }

  lemma LessTotal(o: Order, a: Text, b: Text)
    ensures Less(o, a, b) || Less(o, b, a) || a == b
    ensures !(Less(o, a, b) && Less(o, b, a)) && !Less(o, a, a)
  {
    UnitsTotal(a, b);
    UnitsIrreflexive(a);
    if ArrayIndex(a) && ArrayIndex(b) {
      CanonicalNumeral(a);
      CanonicalNumeral(b);
    }
  }

  lemma LessTransitive(o: Order, a: Text, b: Text, c: Text)
    requires Less(o, a, b) && Less(o, b, c)
    ensures Less(o, a, c)
  {
    if UnitsLess(a, b) && UnitsLess(b, c) {
      UnitsTransitive(a, b, c);
    }
  }

  // ----- sorted sequences of distinct keys

  predicate Ascending(o: Order, s: seq<Text>) {
    forall i, j :: 0 <= i < j < |s| ==> Less(o, s[i], s[j])
  }

  /** `s` lists exactly the keys of `ks`, each once, in order. */
  ghost predicate Sorts(o: Order, s: seq<Text>, ks: set<Text>) {
    Ascending(o, s) && (forall k :: k in s <==> k in ks)
  }

  lemma {:induction false} SortingIsUnique(o: Order, s: seq<Text>, t: seq<Text>, ks: set<Text>)
    requires Sorts(o, s, ks) && Sorts(o, t, ks)
    ensures s == t
  {
    assert t != [] ==> t[0] in t;
    if s != [] {
      assert s[0] in s && s[0] in t;
      LessTotal(o, s[0], t[0]);
      assert t[0] in s;
      assert s[0] == t[0];
      TailSorts(o, s, ks);
      TailSorts(o, t, ks);
      SortingIsUnique(o, s[1..], t[1..], ks - {s[0]});
    }
  }

  lemma TailSorts(o: Order, s: seq<Text>, ks: set<Text>)
    requires Sorts(o, s, ks) && s != []
    ensures Sorts(o, s[1..], ks - {s[0]})
  {
    LessTotal(o, s[0], s[0]);
    assert s == [s[0]] + s[1..];
  }

  function Insert(o: Order, k: Text, s: seq<Text>): seq<Text> {
    if s == [] then [k]
    else if Less(o, k, s[0]) then [k] + s
    else if k == s[0] then s
    else [s[0]] + Insert(o, k, s[1..])
  }

  function Sort(o: Order, keys: seq<Text>): seq<Text> {
    if keys == [] then [] else Insert(o, keys[0], Sort(o, keys[1..]))
  }

  lemma {:induction false} InsertSorts(o: Order, k: Text, s: seq<Text>, ks: set<Text>)
    requires Sorts(o, s, ks)
    ensures Sorts(o, Insert(o, k, s), ks + {k})
  {
    var t := Insert(o, k, s);
    if s == [] {
    } else if Less(o, k, s[0]) {
      forall j | 0 <= j < |s| ensures Less(o, k, s[j]) {
        if j > 0 { LessTransitive(o, k, s[0], s[j]); }
      }
    } else if k == s[0] {
    } else {
      LessTotal(o, k, s[0]);
      TailSorts(o, s, ks);
      InsertSorts(o, k, s[1..], ks - {s[0]});
      var rest := Insert(o, k, s[1..]);
      assert s[0] in s;
      forall j | 0 <= j < |rest| ensures Less(o, s[0], rest[j]) {
        assert rest[j] in rest;
        if rest[j] != k {
          assert rest[j] in s[1..];
        }
      }
      forall x ensures x in t <==> x in ks + {k} {
        assert x in t <==> x == s[0] || x in rest;
      }
    }
  }

  lemma {:induction false} SortSorts(o: Order, keys: seq<Text>)
    ensures Sorts(o, Sort(o, keys), set k | k in keys)
  {
    if keys != [] {
      SortSorts(o, keys[1..]);
      InsertSorts(o, keys[0], Sort(o, keys[1..]), set k | k in keys[1..]);
      assert (set k | k in keys) == (set k | k in keys[1..]) + {keys[0]};
    }
  }

  lemma {:induction false} SortingExists(o: Order, ks: set<Text>)
    ensures exists s :: Sorts(o, s, ks)
  {
    if ks == {} {
      assert Sorts(o, [], ks);
    } else {
      var k :| k in ks;
      SortingExists(o, ks - {k});
      var s :| Sorts(o, s, ks - {k});
      InsertSorts(o, k, s, ks - {k});
      assert ks - {k} + {k} == ks;
    }
  }

  /** The keys of a set in order; SortingIsUnique says there is only one such sequence. */
  ghost function Ordered(o: Order, ks: set<Text>): (s: seq<Text>)
    ensures Sorts(o, s, ks)
  {
    SortingExists(o, ks);
    var s :| Sorts(o, s, ks);
    s
  }

  // ----- the two orders as JavaScript defines them

  /** `a` < `b` on strings: they agree on the first `n` units, and there `a` ends or has the smaller unit. */
  predicate Before(a: Text, b: Text, n: nat) {
    n <= |a| && n < |b| && a[..n] == b[..n] && (n == |a| || a[n] < b[n])
  }

  lemma {:induction false} UnitsLessMeansBefore(a: Text, b: Text)
    ensures UnitsLess(a, b) <==> exists n: nat :: Before(a, b, n)
  {
    if a == [] {
      assert b != [] ==> Before(a, b, 0);
    } else if b != [] {
      UnitsLessMeansBefore(a[1..], b[1..]);
      if a[0] < b[0] {
        assert Before(a, b, 0);
      } else if UnitsLess(a, b) {
        var n: nat :| Before(a[1..], b[1..], n);
        assert a[..n + 1] == [a[0]] + a[1..][..n] && b[..n + 1] == [b[0]] + b[1..][..n];
        assert Before(a, b, n + 1);
      } else if n: nat :| Before(a, b, n) {
        assert n > 0 ==> a[..n][0] == b[..n][0];
        assert n > 0 ==> a[1..][..n - 1] == a[..n][1..] && b[1..][..n - 1] == b[..n][1..];
        assert n > 0 ==> Before(a[1..], b[1..], n - 1);
      }
    }
  }

  lemma {:induction false} DecimalNumeral(v: nat)
    ensures |Decimal(v)| > 1 ==> Decimal(v)[0] != ZERO
    ensures DecimalValue(Decimal(v)) == v
  {
    DecimalRoundTrip(v);
    if v >= 10 {
      DecimalNumeral(v / 10);
      if |Decimal(v / 10)| == 1 {
        DecimalRoundTrip(v / 10);
        assert Decimal(v / 10)[..0] == [];
      }
    }
  }

  /** What a number up to 2^32 - 2 is written as. */
  ghost predicate Numeral(t: Text) {
    exists v: nat :: v <= 4294967294 && t == Decimal(v)
  }

  /** The array indices are exactly those. */
  lemma IndexMeansNumeral(t: Text)
    ensures ArrayIndex(t) <==> Numeral(t)
  {
    if ArrayIndex(t) {
      CanonicalNumeral(t);
    } else if v: nat :| v <= 4294967294 && t == Decimal(v) {
      DecimalNumeral(v);
    }
  }

  /** `a` is enumerated before `b`: by code units, or array indices by their number and then the rest. */
  ghost predicate Precedes(o: Order, a: Text, b: Text) {
    if o.CodeUnits? || !(Numeral(a) || Numeral(b)) then exists n: nat :: Before(a, b, n)
    else Numeral(a) && forall v: nat, w: nat | a == Decimal(v) && b == Decimal(w) && Numeral(b) :: v < w
  }

  lemma LessMeansPrecedes(o: Order, a: Text, b: Text)
    ensures Less(o, a, b) ==> Precedes(o, a, b)
  {
    hide UnitsLess, Decimal, DecimalValue, ArrayIndex, Numeral;
    UnitsLessMeansBefore(a, b);
    IndexMeansNumeral(a);
    IndexMeansNumeral(b);
    forall v: nat, w: nat | a == Decimal(v) && b == Decimal(w) && Numeral(b) && o.IndexFirst? && Less(o, a, b)
      ensures v < w
    {
      DecimalRoundTrip(v);
      DecimalRoundTrip(w);
    }
  }

  /** Sorting puts the keys in that order, each once. */
  lemma SortedInOrder(o: Order, keys: seq<Text>)
    ensures var s := Sort(o, keys);
            && (forall k :: k in s <==> k in keys)
            && (forall i, j :: 0 <= i < j < |s| ==> Precedes(o, s[i], s[j]))
  {
    SortSorts(o, keys);
    AscendingInOrder(o, Sort(o, keys));
  }

  lemma AscendingInOrder(o: Order, s: seq<Text>)
    requires Ascending(o, s)
    ensures forall i, j :: 0 <= i < j < |s| ==> Precedes(o, s[i], s[j])
  {
    hide Less, Precedes;
    forall i, j | 0 <= i < j < |s| ensures Precedes(o, s[i], s[j]) {
      LessMeansPrecedes(o, s[i], s[j]);
    }
  }

  /** `Object.keys(value).sort()`, unit by unit. */
  lemma SortedByUnits(keys: seq<Text>, i: nat, j: nat) returns (n: nat)
    requires i < j < |Sort(CodeUnits, keys)|
    ensures var a, b := Sort(CodeUnits, keys)[i], Sort(CodeUnits, keys)[j];
            n <= |a| && n < |b| && a[..n] == b[..n] && (n == |a| || a[n] < b[n])
  {
    SortedInOrder(CodeUnits, keys);
    assert Precedes(CodeUnits, Sort(CodeUnits, keys)[i], Sort(CodeUnits, keys)[j]);
    hide Sort;
    n :| Before(Sort(CodeUnits, keys)[i], Sort(CodeUnits, keys)[j], n);
  }
}
