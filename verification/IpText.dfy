/** Splitting text on "::", and bitwise "and" and "or" on numbers, for the address parser. */
module IpText {
  import opened Strings

  // ----- split on "::"

  /** Leftmost, without overlaps. */
  function SplitDouble(s: string): (parts: seq<string>)
    ensures |parts| >= 1
  {
    if |s| < 2 then [s]
    else if s[0] == ':' && s[1] == ':' then [""] + SplitDouble(s[2..])
    else
      var rest := SplitDouble(s[1..]);
      [[s[0]] + rest[0]] + rest[1..]
  }

  /** No "::" inside and no ':' at the end. */
  predicate Single(s: string) {
    && (forall i :: 0 <= i < |s| - 1 ==> !(s[i] == ':' && s[i + 1] == ':'))
    && (s != "" ==> s[|s| - 1] != ':')
  }

  lemma {:induction false} SplitDoubleSingle(s: string)
    requires Single(s)
    ensures SplitDouble(s) == [s]
  {
    if |s| >= 2 {
      SplitDoubleSingle(s[1..]);
      assert [s[0]] + s[1..] == s;
    }
  }

  lemma {:induction false} SplitDoubleAtFirst(a: string, b: string)
    requires Single(a)
    ensures SplitDouble(a + "::" + b) == [a] + SplitDouble(b)
  {
    var s := a + "::" + b;
    if a == "" {
      assert s[2..] == b;
    } else {
      if |a| >= 2 { assert s[1] == a[1]; }
      SplitDoubleAtFirst(a[1..], b);
      assert s[1..] == a[1..] + "::" + b;
      assert s[0] == a[0] && !(s[0] == ':' && s[1] == ':');
      assert SplitDouble(s) == [[s[0]] + a[1..]] + SplitDouble(b);
      assert [s[0]] + a[1..] == a;
    }
  }

  lemma {:induction false} JoinSplitDouble(s: string)
    ensures Join(SplitDouble(s), "::") == s
  {
    if |s| >= 2 {
      if s[0] == ':' && s[1] == ':' {
        JoinSplitDouble(s[2..]);
        assert ([""] + SplitDouble(s[2..]))[1..] == SplitDouble(s[2..]);
        assert "::" + s[2..] == s;
      } else {
        JoinSplitDouble(s[1..]);
        JoinFront([s[0]], SplitDouble(s[1..]), "::");
        assert [s[0]] + s[1..] == s;
      }
    }
  }

  /** Non-empty parts without ':' joined by ':' never show "::" nor begin or end with ':'. */
  lemma {:induction false} JoinedIsSingle(parts: seq<string>)
    requires AllFree(parts, ':') && forall i :: 0 <= i < |parts| ==> parts[i] != ""
    ensures Single(Join(parts, ":"))
    ensures parts != [] ==> Join(parts, ":") != "" && Join(parts, ":")[0] != ':'
    decreases |parts|
  {
    if |parts| > 1 {
      JoinedIsSingle(parts[1..]);
      var a, b := parts[0], Join(parts[1..], ":");
      var s := a + ":" + b;
      assert s[0] == a[0];
      assert s[|s| - 1] == b[|b| - 1];
      forall i | 0 <= i < |s| - 1 ensures !(s[i] == ':' && s[i + 1] == ':') {
        if i > |a| {
          assert s[i] == b[i - |a| - 1] && s[i + 1] == b[i - |a|];
        } else if i == |a| {
          assert s[i + 1] == b[0];
        }
      }
    }
  }

  // ----- bits

  /** `a << k`. */
  function Shl(a: nat, k: nat): (r: nat)
    ensures r >= a
  {
    if k == 0 then a else 2 * Shl(a, k - 1)
  }

  function Ones(n: nat): nat {
    if n == 0 then 0 else 2 * Ones(n - 1) + 1
  }

  function BitAnd(a: nat, b: nat): nat {
    if a == 0 || b == 0 then 0 else 2 * BitAnd(a / 2, b / 2) + (if a % 2 == 1 && b % 2 == 1 then 1 else 0)
  }

  function BitOr(a: nat, b: nat): nat {
    if a == 0 && b == 0 then 0 else 2 * BitOr(a / 2, b / 2) + (if a % 2 == 1 || b % 2 == 1 then 1 else 0)
  }

  /** A mask of `k` low ones keeps what is below bit `k`. */
  lemma {:induction false} LowBits(q: nat, r: nat, k: nat)
    requires r <= Ones(k)
    ensures BitAnd(Shl(q, k) + r, Ones(k)) == r
    decreases k
  {
    if k > 0 {
      LowBits(q, r / 2, k - 1);
      assert (Shl(q, k) + r) / 2 == Shl(q, k - 1) + r / 2 && Ones(k) / 2 == Ones(k - 1);
    }
  }

  /** A mask of `m` ones above bit `k` keeps what is above bit `k`. */
  lemma {:induction false} HighBits(q: nat, r: nat, k: nat, m: nat)
    requires r <= Ones(k) && q <= Ones(m)
    ensures BitAnd(Shl(q, k) + r, Shl(Ones(m), k)) == Shl(q, k)
    decreases k
  {
    if k == 0 {
      LowBits(0, q, m);
      ShlZero(m);
    } else {
      HighBits(q, r / 2, k - 1, m);
      assert (Shl(q, k) + r) / 2 == Shl(q, k - 1) + r / 2;
    }
  }

  lemma {:induction false} ShlZero(k: nat)
    ensures Shl(0, k) == 0
  {
    if k > 0 { ShlZero(k - 1); }
  }

  /** "or" of numbers with no bit in common adds them. */
  lemma {:induction false} OrOfShifted(a: nat, b: nat, k: nat)
    requires b <= Ones(k)
    ensures BitOr(Shl(a, k), b) == Shl(a, k) + b
    decreases k
  {
    if k == 0 {
      OrWithZero(a);
    } else {
      OrOfShifted(a, b / 2, k - 1);
    }
  }

  lemma {:induction false} OrWithZero(a: nat)
    ensures BitOr(a, 0) == a
  {
    if a != 0 { OrWithZero(a / 2); }
  }
}
