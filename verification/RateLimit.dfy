/** The fixed-window limiter of apps/gateway/src/http/rate-limit.ts and what it guarantees over any history of calls. */
module RateLimit {
  import opened Prelude

  type Key = nat

  datatype Window = Window(resetAt: int, count: nat)

  datatype Limits = Limits(limit: int, windowMs: int, maxKeys: int)
  {
    /** A first call in a window passes whatever the limit is. */
    function Cap(): int {
      Max(1, limit)
    }
  }

  type Windows = map<Key, Window>

  predicate Live(m: Windows, k: Key, now: int) {
    k in m && m[k].resetAt > now
  }

  function Swept(m: Windows, now: int): Windows {
    map k | k in m && m[k].resetAt > now :: m[k]
  }

  /**
   * Refused exactly when the key's own window is live and used up, or the key has no live window and
   * live windows of other keys take every slot.
   */
  predicate Allowed(l: Limits, m: Windows, k: Key, now: int) {
    if Live(m, k, now) then m[k].count < l.limit else |Swept(m, now)| < l.maxKeys
  }

  function Checked(l: Limits, m: Windows, k: Key, now: int): Windows {
    if Live(m, k, now) then (if m[k].count < l.limit then m[k := m[k].(count := m[k].count + 1)] else m)
    else
      var room := if |m| >= l.maxKeys then Swept(m, now) else m;
      if |room| >= l.maxKeys then room else room[k := Window(now + l.windowMs, 1)]
  }

  lemma SweptIsSmaller(m: Windows, now: int)
    ensures |Swept(m, now)| <= |m|
  {
    SubsetIsSmaller(Swept(m, now).Keys, m.Keys);
  }

  lemma {:induction false} SubsetIsSmaller(a: set<Key>, b: set<Key>)
    requires a <= b
    ensures |a| <= |b|
    decreases |a|
  {
    if a != {} {
      var x :| x in a;
      SubsetIsSmaller(a - {x}, b - {x});
    }
  }

  class RateLimiter {
    const limits: Limits
    var windows: Windows

    constructor (limits: Limits)
      ensures this.limits == limits && windows == map[]
    {
      this.limits := limits;
      windows := map[];
    }

    method Sweep(current: int)
      modifies this
      ensures windows == Swept(old(windows), current)
    {
      var keys := windows.Keys;
      ghost var seen: set<Key> := {};
      while keys != {}
        invariant seen + keys == old(windows).Keys && seen !! keys
        invariant windows == map k | k in old(windows) && (k in keys || old(windows)[k].resetAt > current) :: old(windows)[k]
        decreases |keys|
      {
        var key :| key in keys;
        if windows[key].resetAt <= current {
          windows := windows - {key};
        }
        keys, seen := keys - {key}, seen + {key};
      }
    }

    method Check(key: Key, current: int) returns (allowed: bool)
      modifies this
      ensures allowed == Allowed(limits, old(windows), key, current)
      ensures windows == Checked(limits, old(windows), key, current)
    {
      SweptIsSmaller(windows, current);
      if key !in windows || windows[key].resetAt <= current {
        if |windows| >= limits.maxKeys {
          Sweep(current);
        }
        if |windows| >= limits.maxKeys {
          return false;
        }
        windows := windows[key := Window(current + limits.windowMs, 1)];
        return true;
      }
      if windows[key].count >= limits.limit {
        return false;
      }
      windows := windows[key := windows[key].(count := windows[key].count + 1)];
      allowed := true;
    }

    method Reset()
      modifies this
      ensures windows == map[]
    {
      windows := map[];
    }
  }

  // ----- histories

  datatype Call = Call(key: Key, now: int)

  /** An allowed call and the start of the window it was counted in. */
  datatype Pass = Pass(at: int, start: int)

  datatype State = State(windows: Windows, clock: int, passes: map<Key, seq<Pass>>)

  function PassesOf(s: State, k: Key): seq<Pass> {
    if k in s.passes then s.passes[k] else []
  }

  function Step(l: Limits, s: State, c: Call): State {
    var n := Checked(l, s.windows, c.key, c.now);
    var passed := Allowed(l, s.windows, c.key, c.now) && c.key in n;
    State(n, c.now,
          if passed then s.passes[c.key := PassesOf(s, c.key) + [Pass(c.now, n[c.key].resetAt - l.windowMs)]] else s.passes)
  }

  function Run(l: Limits, s: State, calls: seq<Call>): State
    decreases |calls|
  {
    if calls == [] then s else Run(l, Step(l, s, calls[0]), calls[1..])
  }

  predicate Monotone(clock: int, calls: seq<Call>)
    decreases |calls|
  {
    calls == [] || (clock <= calls[0].now && Monotone(calls[0].now, calls[1..]))
  }

  // ----- the invariant of one key

  /** In order, each inside its window, and never more than the cap in one window. */
  ghost predicate Spaced(l: Limits, h: seq<Pass>, clock: int) {
    && (forall i :: 0 <= i < |h| ==> h[i].start <= h[i].at < h[i].start + l.windowMs && h[i].at <= clock)
    && (forall i, j :: 0 <= i < j < |h| ==> h[i].at <= h[j].at)
    && (forall i, j :: 0 <= i && i + l.Cap() == j < |h| ==> h[i].start + l.windowMs <= h[j].start)
  }

  /** The last `count` passes share the last window; all others ended before it began. */
  ghost predicate Current(l: Limits, h: seq<Pass>, w: Window) {
    && 1 <= w.count <= Min(|h|, l.Cap())
    && (forall i :: |h| - w.count <= i < |h| ==> h[i].start + l.windowMs == w.resetAt)
    && (forall i :: 0 <= i < |h| - w.count ==> h[i].start + 2 * l.windowMs <= w.resetAt)
  }

  ghost predicate Over(l: Limits, h: seq<Pass>, clock: int) {
    forall i :: 0 <= i < |h| ==> h[i].start + l.windowMs <= clock
  }

  ghost predicate KeyValid(l: Limits, s: State, k: Key) {
    && Spaced(l, PassesOf(s, k), s.clock)
    && (if k in s.windows then Current(l, PassesOf(s, k), s.windows[k]) else Over(l, PassesOf(s, k), s.clock))
  }

  ghost predicate Valid(l: Limits, s: State) {
    && |s.windows| <= Max(0, l.maxKeys)
    && (forall k :: KeyValid(l, s, k))
  }

  lemma JoinsWindow(l: Limits, h: seq<Pass>, clock: int, w: Window, now: int)
    requires l.windowMs > 0 && clock <= now < w.resetAt && w.count < l.limit
    requires Spaced(l, h, clock) && Current(l, h, w)
    ensures var n := h + [Pass(now, w.resetAt - l.windowMs)];
            Spaced(l, n, now) && Current(l, n, w.(count := w.count + 1))
  {
    assert h[|h| - 1].at <= now;
    var i := |h| - l.Cap();
    if i >= 0 {
      assert h[i].start + 2 * l.windowMs <= w.resetAt;
    }
  }

  lemma OpensWindow(l: Limits, h: seq<Pass>, clock: int, now: int)
    requires l.windowMs > 0 && clock <= now
    requires Spaced(l, h, clock) && Over(l, h, now)
    ensures Spaced(l, h + [Pass(now, now)], now) && Current(l, h + [Pass(now, now)], Window(now + l.windowMs, 1))
  {
    var i := |h| - l.Cap();
    if i >= 0 {
      assert h[i].start + l.windowMs <= now;
    }
  }

  lemma WindowEnds(l: Limits, h: seq<Pass>, w: Window, now: int)
    requires l.windowMs > 0 && Current(l, h, w) && w.resetAt <= now
    ensures Over(l, h, now)
  {
  }

  lemma Later(l: Limits, h: seq<Pass>, clock: int, now: int)
    requires clock <= now
    ensures Spaced(l, h, clock) ==> Spaced(l, h, now)
    ensures Over(l, h, clock) ==> Over(l, h, now)
  {
  }

  lemma OtherKey(l: Limits, s: State, c: Call, k: Key)
    requires l.windowMs > 0 && s.clock <= c.now && k != c.key && KeyValid(l, s, k)
    ensures KeyValid(l, Step(l, s, c), k)
  {
    if k in s.windows && s.windows[k].resetAt <= c.now {
      WindowEnds(l, PassesOf(s, k), s.windows[k], c.now);
    }
    Later(l, PassesOf(s, k), s.clock, c.now);
    hide Spaced, Current, Over;
  }

  lemma LiveKey(l: Limits, s: State, c: Call)
    requires l.windowMs > 0 && s.clock <= c.now && KeyValid(l, s, c.key) && Live(s.windows, c.key, c.now)
    ensures KeyValid(l, Step(l, s, c), c.key)
  {
    hide Spaced, Current, Over;
    var h := PassesOf(s, c.key);
    Later(l, h, s.clock, c.now);
    if s.windows[c.key].count < l.limit {
      JoinsWindow(l, h, s.clock, s.windows[c.key], c.now);
    }
  }

  lemma FreshKey(l: Limits, s: State, c: Call)
    requires l.windowMs > 0 && s.clock <= c.now && KeyValid(l, s, c.key) && !Live(s.windows, c.key, c.now)
    ensures KeyValid(l, Step(l, s, c), c.key)
  {
    hide Spaced, Current, Over;
    var h := PassesOf(s, c.key);
    Later(l, h, s.clock, c.now);
    if c.key in s.windows { WindowEnds(l, h, s.windows[c.key], c.now); }
    OpensWindow(l, h, s.clock, c.now);
    SweptIsSmaller(s.windows, c.now);
  }

  lemma StepValid(l: Limits, s: State, c: Call)
    requires l.windowMs > 0 && s.clock <= c.now && Valid(l, s)
    ensures Valid(l, Step(l, s, c))
  {
    SweptIsSmaller(s.windows, c.now);
    var n := Step(l, s, c);
    if c.key in n.windows {
      assert n.windows.Keys <= s.windows.Keys + {c.key};
    }
    if Live(s.windows, c.key, c.now) { LiveKey(l, s, c); } else { FreshKey(l, s, c); }
    forall k ensures KeyValid(l, n, k) {
      if k != c.key { OtherKey(l, s, c, k); }
    }
  }

  lemma {:induction false} RunValid(l: Limits, s: State, calls: seq<Call>)
    requires l.windowMs > 0 && Valid(l, s) && Monotone(s.clock, calls)
    ensures Valid(l, Run(l, s, calls))
    decreases |calls|
  {
    if calls != [] {
      StepValid(l, s, calls[0]);
      RunValid(l, Step(l, s, calls[0]), calls[1..]);
    }
  }

  // ----- the promise

  /** How many passes fall in the closed interval. */
  function Within(h: seq<Pass>, lo: int, hi: int): nat {
    if h == [] then 0
    else Within(h[..|h| - 1], lo, hi) + (if lo <= h[|h| - 1].at <= hi then 1 else 0)
  }

  lemma {:induction false} EarlierOnesDoNotCount(h: seq<Pass>, lo: int, hi: int, k: nat)
    requires k <= |h| && forall i :: 0 <= i < k ==> h[i].at < lo
    ensures Within(h, lo, hi) <= |h| - k
    decreases |h|
  {
    if |h| > k {
      EarlierOnesDoNotCount(h[..|h| - 1], lo, hi, k);
    } else if h != [] {
      EarlierOnesDoNotCount(h[..|h| - 1], lo, hi, k - 1);
    }
  }

  /** Passes two caps apart are in windows two apart, so more than a window's length apart. */
  lemma {:induction false} SpacedIsSparse(l: Limits, h: seq<Pass>, clock: int, lo: int)
    requires l.windowMs > 0 && Spaced(l, h, clock)
    ensures Within(h, lo, lo + l.windowMs) <= 2 * l.Cap()
    decreases |h|
  {
    if h != [] {
      var last, k := |h| - 1, |h| - 2 * l.Cap();
      if lo <= h[last].at <= lo + l.windowMs {
        if k > 0 {
          assert h[k - 1].start + l.windowMs <= h[k - 1 + l.Cap()].start;
          assert h[k - 1 + l.Cap()].start + l.windowMs <= h[last].start;
          EarlierOnesDoNotCount(h, lo, lo + l.windowMs, k);
        } else {
          EarlierOnesDoNotCount(h, lo, lo + l.windowMs, 0);
        }
      } else {
        SpacedIsSparse(l, h[..last], clock, lo);
      }
    }
  }

  /**
   * Whatever calls arrive on a clock that does not run backwards, no key gets more than twice the cap
   * through in any closed interval of one window's length, and never more than maxKeys are tracked.
   */
  lemma AtMostTwiceTheLimit(l: Limits, start: int, calls: seq<Call>, k: Key, lo: int)
    requires l.windowMs > 0 && Monotone(start, calls)
    ensures var s := Run(l, State(map[], start, map[]), calls);
            Within(PassesOf(s, k), lo, lo + l.windowMs) <= 2 * l.Cap() && |s.windows| <= Max(0, l.maxKeys)
  {
    var s := Run(l, State(map[], start, map[]), calls);
    RunValid(l, State(map[], start, map[]), calls);
    assert KeyValid(l, s, k);
    SpacedIsSparse(l, PassesOf(s, k), s.clock, lo);
  }

  lemma {:induction false} LastOnesCount(h: seq<Pass>, lo: int, hi: int, n: nat)
    requires n <= |h| && forall i :: |h| - n <= i < |h| ==> lo <= h[i].at <= hi
    ensures Within(h, lo, hi) >= n
    decreases n
  {
    if n > 0 { LastOnesCount(h[..|h| - 1], lo, hi, n - 1); }
  }

  /** A refusal means the key got its limit through since its window began, or live windows fill every slot. */
  lemma RefusedOnlyWhenUsedUp(l: Limits, s: State, c: Call)
    requires l.windowMs > 0 && Valid(l, s) && s.clock <= c.now && !Allowed(l, s.windows, c.key, c.now)
    ensures || (Live(s.windows, c.key, c.now)
                && Within(PassesOf(s, c.key), s.windows[c.key].resetAt - l.windowMs, c.now) >= l.limit)
            || |Swept(s.windows, c.now)| >= l.maxKeys
  {
    assert KeyValid(l, s, c.key);
    if Live(s.windows, c.key, c.now) {
      var w := s.windows[c.key];
      LastOnesCount(PassesOf(s, c.key), w.resetAt - l.windowMs, c.now, w.count);
    }
  }

  // ----- the bound is reached

  lemma {:induction false} RunJoins(l: Limits, s: State, a: seq<Call>, b: seq<Call>)
    ensures Run(l, s, a + b) == Run(l, Run(l, s, a), b)
    decreases |a|
  {
    if a == [] {
      assert a + b == b;
    } else {
      assert (a + b)[1..] == a[1..] + b;
      RunJoins(l, Step(l, s, a[0]), a[1..], b);
    }
  }

  lemma {:induction false} MonotoneCopies(clock: int, now: int, k: Key, n: nat, later: seq<Call>)
    requires clock <= now && Monotone(now, later)
    ensures Monotone(clock, Copies(Call(k, now), n) + later)
    decreases n
  {
    if n == 0 {
      assert Copies(Call(k, now), 0) + later == later;
      if later != [] { assert clock <= later[0].now; }
    } else {
      MonotoneCopies(now, now, k, n - 1, later);
      assert (Copies(Call(k, now), n) + later)[1..] == Copies(Call(k, now), n - 1) + later;
    }
  }

  /** In a live window with room for them, `n` calls pass. */
  lemma {:induction false} RoomForMore(l: Limits, s: State, k: Key, now: int, n: nat)
    requires Live(s.windows, k, now) && s.windows[k].count + n <= l.limit
    ensures var t := Run(l, s, Copies(Call(k, now), n));
            && t.windows == s.windows[k := s.windows[k].(count := s.windows[k].count + n)]
            && PassesOf(t, k) == PassesOf(s, k) + Copies(Pass(now, s.windows[k].resetAt - l.windowMs), n)
    decreases n
  {
    var calls, pass := Copies(Call(k, now), n), Pass(now, s.windows[k].resetAt - l.windowMs);
    if n == 0 {
      assert calls == [] && PassesOf(s, k) + Copies(pass, 0) == PassesOf(s, k);
    } else {
      var t := Step(l, s, Call(k, now));
      assert t.windows[k] == s.windows[k].(count := s.windows[k].count + 1) && PassesOf(t, k) == PassesOf(s, k) + [pass];
      assert calls[1..] == Copies(Call(k, now), n - 1);
      RoomForMore(l, t, k, now, n - 1);
      assert [pass] + Copies(pass, n - 1) == Copies(pass, n);
      assert PassesOf(s, k) + [pass] + Copies(pass, n - 1) == PassesOf(s, k) + Copies(pass, n);
    }
  }

  lemma FirstCallPasses(l: Limits, s: State, k: Key, now: int)
    requires l.windowMs > 0 && l.maxKeys >= 1 && s.windows.Keys <= {k} && !Live(s.windows, k, now)
    ensures var t := Step(l, s, Call(k, now));
            t.windows == map[k := Window(now + l.windowMs, 1)] && PassesOf(t, k) == PassesOf(s, k) + [Pass(now, now)]
  {
    assert Swept(s.windows, now) == map[];
    SubsetIsSmaller(s.windows.Keys, {k});
  }

  /** A key without a live window, and no other keys: a whole limit of calls passes at once. */
  lemma WindowFills(l: Limits, s: State, k: Key, now: int)
    requires l.limit >= 1 && l.windowMs > 0 && l.maxKeys >= 1
    requires s.windows.Keys <= {k} && !Live(s.windows, k, now)
    ensures var t := Run(l, s, Copies(Call(k, now), l.limit));
            && t.windows == map[k := Window(now + l.windowMs, l.limit)]
            && PassesOf(t, k) == PassesOf(s, k) + Copies(Pass(now, now), l.limit)
  {
    hide Step, PassesOf;
    var calls, pass := Copies(Call(k, now), l.limit), Pass(now, now);
    var t := Step(l, s, Call(k, now));
    FirstCallPasses(l, s, k, now);
    assert calls[1..] == Copies(Call(k, now), l.limit - 1);
    assert Run(l, s, calls) == Run(l, t, calls[1..]);
    hide Run;
    RoomForMore(l, t, k, now, l.limit - 1);
    assert [pass] + Copies(pass, l.limit - 1) == Copies(pass, l.limit);
    assert PassesOf(s, k) + [pass] + Copies(pass, l.limit - 1) == PassesOf(s, k) + ([pass] + Copies(pass, l.limit - 1));
  }

  lemma {:induction false} AllWithin(h: seq<Pass>, lo: int, hi: int)
    requires forall i :: 0 <= i < |h| ==> lo <= h[i].at <= hi
    ensures Within(h, lo, hi) == |h|
    decreases |h|
  {
    if h != [] { AllWithin(h[..|h| - 1], lo, hi); }
  }

  /** At every limit the bound is reached: a full window at its start, and the next one as soon as it ends. */
  lemma TwiceIsReached(l: Limits, start: int, k: Key)
    requires l.limit >= 1 && l.windowMs > 0 && l.maxKeys >= 1
    ensures var calls := Copies(Call(k, start), l.limit) + Copies(Call(k, start + l.windowMs), l.limit);
            && Monotone(start, calls)
            && Within(PassesOf(Run(l, State(map[], start, map[]), calls), k), start, start + l.windowMs) == 2 * l.Cap()
  {
    hide Run, Within, Monotone, Swept;
    var s, w := State(map[], start, map[]), l.windowMs;
    var a, b := Copies(Call(k, start), l.limit), Copies(Call(k, start + w), l.limit);
    TwoBurstsMonotone(start, start + w, k, l.limit);
    RunJoins(l, s, a, b);
    WindowFills(l, s, k, start);
    WindowFills(l, Run(l, s, a), k, start + w);
    var h := PassesOf(Run(l, s, a + b), k);
    assert h == Copies(Pass(start, start), l.limit) + Copies(Pass(start + w, start + w), l.limit);
    AllWithin(h, start, start + w);
  }

  lemma TwoBurstsMonotone(first: int, second: int, k: Key, n: nat)
    requires first <= second
    ensures Monotone(first, Copies(Call(k, first), n) + Copies(Call(k, second), n))
  {
    MonotoneCopies(first, second, k, n, []);
    assert Copies(Call(k, second), n) + [] == Copies(Call(k, second), n);
    hide Copies;
    MonotoneCopies(first, first, k, n, Copies(Call(k, second), n));
  }

  /** Without a window there is no limit: only the number of keys is ever refused. */
  lemma EmptyWindowLimitsNothing(l: Limits, m: Windows, k: Key, now: int)
    requires l.windowMs <= 0
    requires forall j :: j in m ==> m[j].resetAt <= now
    ensures Allowed(l, m, k, now) <==> 0 < l.maxKeys
    ensures forall j :: j in Checked(l, m, k, now) ==> Checked(l, m, k, now)[j].resetAt <= now
  {
    assert Swept(m, now) == map[];
  }

  /** A call that finds no slot leaves live windows only: every ended one has been swept. */
  lemma RefusalSweeps(l: Limits, m: Windows, k: Key, now: int)
    requires !Live(m, k, now) && !Allowed(l, m, k, now)
    ensures Checked(l, m, k, now) == map j | j in m && m[j].resetAt > now :: m[j]
  {
    SweptIsSmaller(m, now);
  }
}
