/**
 * The two replay guards: packages/protocol/src/replay.ts keeps an insertion-ordered Map and sweeps it
 * only at capacity; apps/agent/src/replay-store.ts keeps a table and prunes it on every call.
 */
module ReplayGuards {
  import opened Prelude

  const MAX_REPLAY_JOB_ID_LENGTH := 512
  const MAX_SAFE_INTEGER := 9007199254740991

  datatype Entry = Entry(id: string, expiresAt: int)

  /** Entries in insertion order, oldest first; both guards hold at most one entry per id. */
  type Table = seq<Entry>

  /** One call of `remember`, with the clock reading it makes. */
  datatype Call = Call(id: string, ttlMs: int, now: int)

  /** Fresh and Replay are the promise's true and false; the others are errors, by code. */
  datatype Answer = Fresh | Replay | InvalidInput | Internal

  // ----- argument checks

  predicate ControlCharacter(c: char) {
    c as int < 0x20 || c as int == 0x7f
  }

  predicate UsableId(id: string) {
    0 < |id| <= MAX_REPLAY_JOB_ID_LENGTH && forall i :: 0 <= i < |id| ==> !ControlCharacter(id[i])
  }

  predicate UsableTtl(ttlMs: int) {
    0 < ttlMs <= MAX_SAFE_INTEGER
  }

  predicate Usable(c: Call) {
    UsableId(c.id) && UsableTtl(c.ttlMs)
  }

  /** What the durable guard checks besides: its clock and the expiry it would store. */
  predicate SafeClock(c: Call) {
    0 <= c.now <= MAX_SAFE_INTEGER && c.now + c.ttlMs <= MAX_SAFE_INTEGER
  }

  method HasControlCharacter(value: string) returns (found: bool)
    ensures found <==> exists i :: 0 <= i < |value| && ControlCharacter(value[i])
  {
    for index := 0 to |value|
      invariant forall i :: 0 <= i < index ==> !ControlCharacter(value[i])
    {
      if ControlCharacter(value[index]) {
        return true;
      }
    }
    found := false;
  }

  // ----- tables

  predicate Holds(t: Table, id: string) {
    t != [] && (t[0].id == id || Holds(t[1..], id))
  }

  predicate Distinct(t: Table) {
    t == [] || (!Holds(t[1..], t[0].id) && Distinct(t[1..]))
  }

  /** The entries that have not expired at `now`, in order. */
  function Live(t: Table, now: int): (r: Table)
    ensures |r| <= |t|
  {
    if t == [] then []
    else if t[0].expiresAt > now then [t[0]] + Live(t[1..], now)
    else Live(t[1..], now)
  }

  function Without(t: Table, id: string): (r: Table)
    ensures |r| <= |t|
  {
    if t == [] then []
    else if t[0].id == id then Without(t[1..], id)
    else [t[0]] + Without(t[1..], id)
  }

  /** The newest `n` entries. */
  function Newest(t: Table, n: nat): Table {
    if |t| <= n then t else t[|t| - n..]
  }

  function Get(t: Table, id: string): Option<int> {
    if t == [] then None
    else if t[0].id == id then Some(t[0].expiresAt)
    else Get(t[1..], id)
  }

  // ----- what a guard is for: a window of live ids, bounded by forgetting the oldest

  function Window(max: nat, live: Table, c: Call): (Table, Answer)
  {
    if Holds(live, c.id) then (live, Replay)
    else (Newest(live + [Entry(c.id, c.now + c.ttlMs)], max), Fresh)
  }

  // ----- the memory guard

  function MemoryStep(max: nat, seen: Table, c: Call): (Table, Answer) {
    if !Usable(c) then (seen, InvalidInput)
    else
      var previous := Get(seen, c.id);
      if previous.Some? && previous.value > c.now then (seen, Replay)
      else
        var rest := Without(seen, c.id);
        var kept := if |rest| >= max then Live(rest, c.now) else rest;
        (Newest(kept + [Entry(c.id, c.now + c.ttlMs)], max), Fresh)
  }

  class MemoryReplayGuard {
    const maxEntries: nat
    var seen: Table

    ghost predicate Valid() reads this {
      maxEntries >= 1 && Distinct(seen) && |seen| <= maxEntries
    }

    constructor (maxEntries: nat)
      requires maxEntries >= 1
      ensures Valid() && this.maxEntries == maxEntries && seen == []
    {
      this.maxEntries := maxEntries;
      seen := [];
    }

    method Remember(id: string, ttlMs: int, now: int) returns (answer: Answer)
      requires Valid()
      modifies this
      ensures Valid()
      ensures (seen, answer) == MemoryStep(maxEntries, old(seen), Call(id, ttlMs, now))
    {
      hide Distinct, Holds, Without, Live, Get, Newest;
      var control := HasControlCharacter(id);
      if |id| == 0 || |id| > MAX_REPLAY_JOB_ID_LENGTH || control {
        return InvalidInput;
      }
      if !UsableTtl(ttlMs) {
        return InvalidInput;
      }
      var expiresAt := Get(seen, id);
      WithoutAbsent(seen, id);
      if expiresAt.Some? {
        if expiresAt.value > now {
          return Replay;
        }
        seen := Without(seen, id);
      }
      WithoutDistinct(old(seen), id);
      WithoutHolds(old(seen), id, id);
      LiveDistinct(seen, now);
      LiveHolds(seen, now, id);
      if |seen| >= maxEntries {
        Sweep(now);
      }
      AppendDistinct(seen, Entry(id, now + ttlMs), maxEntries);
      seen := seen + [Entry(id, now + ttlMs)];
      EvictOldest();
      answer := Fresh;
    }

    method EvictOldest()
      modifies this
      ensures seen == Newest(old(seen), maxEntries)
    {
      ghost var full, dropped := seen, 0;
      while |seen| > maxEntries
        invariant 0 <= dropped <= |full| && seen == full[dropped..]
        invariant dropped > 0 ==> |seen| >= maxEntries
      {
        seen, dropped := seen[1..], dropped + 1;
      }
    }

    /** Deletes the expired entries while iterating over the map. */
    method Sweep(now: int)
      requires Distinct(seen)
      modifies this
      ensures seen == Live(old(seen), now)
    {
      var entries := seen;
      assert entries[..0] == [] && Live([], now) == [];
      hide Live, Without, Holds, Distinct;
      for i := 0 to |entries|
        invariant seen == Live(entries[..i], now) + entries[i..]
      {
        assert entries[i..] == [entries[i]] + entries[i + 1..];
        assert entries == entries[..i] + entries[i..];
        assert entries[..i + 1] == entries[..i] + [entries[i]];
        SweepStep(entries[..i], entries[i], entries[i + 1..], now);
        if entries[i].expiresAt <= now {
          seen := Without(seen, entries[i].id);
        }
      }
      assert entries[..|entries|] == entries;
    }
  }

  /** Deleting one expired entry in the middle of a sweep touches no other entry. */
  lemma SweepStep(before: Table, e: Entry, after: Table, now: int)
    requires Distinct(before + ([e] + after))
    ensures var here := Live(before, now) + ([e] + after);
            Live(before + [e], now) + after == if e.expiresAt <= now then Without(here, e.id) else here
  {
    assert Live([e], now) == if e.expiresAt > now then [e] else [];
    LiveConcat(before, [e], now);
    DistinctSplit(before, e, after);
    LiveHolds(before, now, e.id);
    hide Live, Without, Holds, Distinct;
    WithoutMiddle(Live(before, now), e, after);
  }

  // ----- the durable guard

  function DurableStep(max: nat, table: Table, closed: bool, c: Call): (Table, Answer) {
    if closed then (table, Internal)
    else if !Usable(c) then (table, InvalidInput)
    else if !(0 <= c.now <= MAX_SAFE_INTEGER) then (table, Internal)
    else if c.now + c.ttlMs > MAX_SAFE_INTEGER then (table, InvalidInput)
    else Window(max, Live(table, c.now), c)
  }

  class DurableReplayGuard {
    const maxEntries: nat
    /** The rows of replay_entries by ascending sequence number. */
    var table: Table
    var closed: bool

    ghost predicate Valid() reads this {
      maxEntries >= 1 && Distinct(table) && |table| <= maxEntries
    }

    /** Opens the cache on the rows an earlier process left in it. */
    constructor (maxEntries: nat, rows: Table)
      requires maxEntries >= 1 && Distinct(rows) && |rows| <= maxEntries
      ensures Valid() && this.maxEntries == maxEntries && table == rows && !closed
    {
      this.maxEntries := maxEntries;
      table := rows;
      closed := false;
    }

    method Remember(id: string, ttlMs: int, now: int) returns (answer: Answer)
      requires Valid()
      modifies this`table
      ensures Valid()
      ensures (table, answer) == DurableStep(maxEntries, old(table), closed, Call(id, ttlMs, now))
    {
      if closed {
        return Internal;
      }
      var control := HasControlCharacter(id);
      if |id| == 0 || |id| > MAX_REPLAY_JOB_ID_LENGTH || control || !UsableTtl(ttlMs) {
        return InvalidInput;
      }
      if now < 0 || now > MAX_SAFE_INTEGER {
        return Internal;
      }
      var expiresAt := now + ttlMs;
      if expiresAt > MAX_SAFE_INTEGER || expiresAt <= now {
        return InvalidInput;
      }
      answer := Claim(id, now, expiresAt);
    }

    /** The IMMEDIATE transaction: prune, insert or ignore, evict the overflow. */
    method Claim(id: string, timestamp: int, expiresAt: int) returns (answer: Answer)
      requires Valid()
      modifies this`table
      ensures Valid()
      ensures (table, answer) == Window(maxEntries, Live(old(table), timestamp), Call(id, expiresAt - timestamp, timestamp))
    {
      LiveDistinct(table, timestamp);
      table := Live(table, timestamp);
      if Holds(table, id) {
        return Replay;
      }
      AppendDistinct(table, Entry(id, expiresAt), maxEntries);
      table := table + [Entry(id, expiresAt)];
      var overflow := |table| - maxEntries;
      if overflow > 0 {
        table := table[overflow..];
      }
      answer := Fresh;
    }

    method Close()
      modifies this`closed
      ensures closed
    {
      closed := true;
    }
  }

  // ----- which calls are errors

  /** Not empty, at most 512 characters, none of them a control character. */
  ghost predicate CleanId(id: string) {
    id != "" && |id| <= 512 && forall c :: c in id ==> 0x20 <= c as int && c as int != 0x7f
  }

  lemma CleanIsUsable(id: string)
    ensures CleanId(id) <==> UsableId(id)
  {
    assert forall i :: 0 <= i < |id| ==> id[i] in id;
    if UsableId(id) {
      forall c | c in id ensures !ControlCharacter(c) {
        var i :| 0 <= i < |id| && id[i] == c;
      }
    }
    assert forall c :: ControlCharacter(c) <==> (c as int) < 0x20 || c as int == 0x7f;
  }

  /** A guard refuses a call with an error for these reasons, and for these only; an error leaves the table alone. */
  lemma ErrorsExactly(max: nat, table: Table, closed: bool, c: Call)
    ensures var bad := !CleanId(c.id) || c.ttlMs <= 0 || c.ttlMs > 9007199254740991;
            var m, d := MemoryStep(max, table, c), DurableStep(max, table, closed, c);
            var badClock := c.now < 0 || c.now > 9007199254740991;
            && (m.1 == InvalidInput <==> bad) && m.1 != Internal
            && (d.1 == Internal <==> closed || (!bad && badClock))
            && (d.1 == InvalidInput <==> !closed && (bad || (!badClock && c.now + c.ttlMs > 9007199254740991)))
            && (m.1 == InvalidInput ==> m.0 == table)
            && (d.1 == Internal || d.1 == InvalidInput ==> d.0 == table)
  {
    CleanIsUsable(c.id);
    hide Live, Without, Get, Newest, Holds;
  }

  // ----- facts about tables

  lemma {:induction false} LiveConcat(s: Table, t: Table, now: int)
    ensures Live(s + t, now) == Live(s, now) + Live(t, now)
  {
    if s == [] {
      assert s + t == t;
    } else {
      assert (s + t)[1..] == s[1..] + t;
      LiveConcat(s[1..], t, now);
    }
  }

  predicate AllLive(t: Table, now: int) {
    t == [] || (t[0].expiresAt > now && AllLive(t[1..], now))
  }

  lemma {:induction false} LiveUnexpired(t: Table, now: int)
    ensures AllLive(Live(t, now), now)
  {
    if t != [] {
      LiveUnexpired(t[1..], now);
    }
  }

  lemma {:induction false} LiveHolds(t: Table, now: int, id: string)
    ensures Holds(Live(t, now), id) ==> Holds(t, id)
  {
    if t != [] {
      LiveHolds(t[1..], now, id);
    }
  }

  lemma {:induction false} LiveDistinct(t: Table, now: int)
    requires Distinct(t)
    ensures Distinct(Live(t, now))
  {
    if t != [] {
      LiveDistinct(t[1..], now);
      LiveHolds(t[1..], now, t[0].id);
    }
  }

  lemma {:induction false} WithoutHolds(t: Table, id: string, x: string)
    ensures Holds(Without(t, id), x) <==> Holds(t, x) && x != id
  {
    if t != [] {
      WithoutHolds(t[1..], id, x);
    }
  }

  lemma {:induction false} WithoutDistinct(t: Table, id: string)
    requires Distinct(t)
    ensures Distinct(Without(t, id))
  {
    if t != [] {
      WithoutDistinct(t[1..], id);
      WithoutHolds(t[1..], id, t[0].id);
    }
  }

  lemma {:induction false} WithoutAbsent(t: Table, id: string)
    ensures Get(t, id).Some? <==> Holds(t, id)
    ensures !Holds(t, id) ==> Without(t, id) == t
  {
    if t != [] {
      WithoutAbsent(t[1..], id);
    }
  }

  lemma {:induction false} WithoutMiddle(s: Table, e: Entry, t: Table)
    requires !Holds(s, e.id) && !Holds(t, e.id)
    ensures Without(s + ([e] + t), e.id) == s + t
  {
    if s == [] {
      assert s + ([e] + t) == [e] + t;
      WithoutAbsent(t, e.id);
    } else {
      assert (s + ([e] + t))[1..] == s[1..] + ([e] + t);
      WithoutMiddle(s[1..], e, t);
    }
  }

  lemma {:induction false} HoldsConcat(s: Table, t: Table, id: string)
    ensures Holds(s + t, id) <==> Holds(s, id) || Holds(t, id)
  {
    if s == [] {
      assert s + t == t;
    } else {
      assert (s + t)[1..] == s[1..] + t;
      HoldsConcat(s[1..], t, id);
    }
  }

  lemma {:induction false} HoldsAt(t: Table, i: nat)
    requires i < |t|
    ensures Holds(t, t[i].id)
  {
    if i > 0 {
      HoldsAt(t[1..], i - 1);
    }
  }

  lemma {:induction false} DistinctSplit(s: Table, e: Entry, t: Table)
    requires Distinct(s + ([e] + t))
    ensures !Holds(s, e.id) && !Holds(t, e.id)
  {
    if s == [] {
      assert s + ([e] + t) == [e] + t;
    } else {
      assert (s + ([e] + t))[1..] == s[1..] + ([e] + t);
      DistinctSplit(s[1..], e, t);
      HoldsConcat(s[1..], [e] + t, s[0].id);
    }
  }

  lemma {:induction false} DistinctSnoc(t: Table, e: Entry)
    requires Distinct(t) && !Holds(t, e.id)
    ensures Distinct(t + [e])
  {
    if t == [] {
      assert t + [e] == [e];
    } else {
      assert (t + [e])[1..] == t[1..] + [e];
      DistinctSnoc(t[1..], e);
      HoldsConcat(t[1..], [e], t[0].id);
    }
  }

  /** Adding an absent id and forgetting the oldest keeps the table distinct and bounded. */
  lemma AppendDistinct(t: Table, e: Entry, max: nat)
    requires Distinct(t) && !Holds(t, e.id) && |t| <= max && max >= 1
    ensures Distinct(Newest(t + [e], max)) && |Newest(t + [e], max)| <= max
  {
    DistinctSnoc(t, e);
  }

  // ----- the two guards answer alike

  lemma {:induction false} LiveTwice(t: Table, before: int, now: int)
    requires before <= now
    ensures Live(Live(t, before), now) == Live(t, now)
  {
    if t != [] {
      LiveTwice(t[1..], before, now);
    }
  }

  lemma {:induction false} LiveAll(t: Table, now: int)
    requires AllLive(t, now)
    ensures Live(t, now) == t
  {
    if t != [] {
      LiveAll(t[1..], now);
    }
  }

  lemma {:induction false} LiveGet(t: Table, id: string, now: int)
    requires Distinct(t)
    ensures Holds(Live(t, now), id) <==> Get(t, id).Some? && Get(t, id).value > now
    ensures !Holds(Live(t, now), id) ==> Live(Without(t, id), now) == Live(t, now)
  {
    if t != [] {
      LiveGet(t[1..], id, now);
      WithoutAbsent(t[1..], t[0].id);
      LiveHolds(t[1..], now, t[0].id);
    }
  }

  lemma AppendLive(kept: Table, e: Entry, max: nat, now: int)
    requires max >= 1 && |kept| <= max && e.expiresAt > now
    requires |kept| == max ==> AllLive(kept, now)
    ensures Live(Newest(kept + [e], max), now) == Newest(Live(kept, now) + [e], max)
  {
    LiveConcat(kept, [e], now);
    assert Live([e], now) == [e];
    if |kept| == max {
      LiveAll(kept, now);
      LiveAll(kept[1..], now);
      LiveConcat(kept[1..], [e], now);
      assert (kept + [e])[1..] == kept[1..] + [e];
    }
  }

  /** One call: the lazy guard's live entries become what the window says, and so does its answer. */
  lemma MemoryKeepsWindow(max: nat, seen: Table, c: Call)
    requires max >= 1 && Distinct(seen) && |seen| <= max && Usable(c)
    ensures var (after, answer) := MemoryStep(max, seen, c);
            (Live(after, c.now), answer) == Window(max, Live(seen, c.now), c)
    ensures Distinct(MemoryStep(max, seen, c).0) && |MemoryStep(max, seen, c).0| <= max
  {
    assert c.ttlMs > 0;
    hide Newest, Usable, Live, Without, Get, Distinct, Holds;
    var e := Entry(c.id, c.now + c.ttlMs);
    LiveGet(seen, c.id, c.now);
    if !Holds(Live(seen, c.now), c.id) {
      var rest := Without(seen, c.id);
      WithoutDistinct(seen, c.id);
      LiveDistinct(rest, c.now);
      LiveTwice(rest, c.now, c.now);
      WithoutHolds(seen, c.id, c.id);
      LiveHolds(rest, c.now, c.id);
      LiveUnexpired(rest, c.now);
      var kept := if |rest| >= max then Live(rest, c.now) else rest;
      AppendLive(kept, e, max, c.now);
      AppendDistinct(kept, e, max);
    }
  }

  /** The clock never runs backwards over a sequence of calls. */
  predicate Monotone(start: int, calls: seq<Call>)
    decreases calls
  {
    calls == [] || (start <= calls[0].now && Monotone(calls[0].now, calls[1..]))
  }

  function MemoryAnswers(max: nat, seen: Table, calls: seq<Call>): (r: seq<Answer>)
    ensures |r| == |calls|
    decreases calls
  {
    if calls == [] then []
    else
      var (after, answer) := MemoryStep(max, seen, calls[0]);
      [answer] + MemoryAnswers(max, after, calls[1..])
  }

  function DurableAnswers(max: nat, table: Table, calls: seq<Call>): (r: seq<Answer>)
    ensures |r| == |calls|
    decreases calls
  {
    if calls == [] then []
    else
      var (after, answer) := DurableStep(max, table, false, calls[0]);
      [answer] + DurableAnswers(max, after, calls[1..])
  }

  lemma WindowBounded(max: nat, live: Table, c: Call)
    requires max >= 1 && Distinct(live) && |live| <= max
    ensures Distinct(Window(max, live, c).0) && |Window(max, live, c).0| <= max
  {
    if !Holds(live, c.id) {
      AppendDistinct(live, Entry(c.id, c.now + c.ttlMs), max);
    }
  }

  /**
   * Same capacity, same live entries, monotone clock: whatever is asked, the lazily swept guard and
   * the eagerly pruned one give the same answers, errors included.
   */
  lemma {:induction false} GuardsAgree(max: nat, seen: Table, table: Table, start: int, calls: seq<Call>)
    requires max >= 1 && Distinct(seen) && |seen| <= max && Distinct(table) && |table| <= max
    requires Live(seen, start) == Live(table, start)
    requires Monotone(start, calls)
    requires forall i :: 0 <= i < |calls| && Usable(calls[i]) ==> SafeClock(calls[i])
    ensures MemoryAnswers(max, seen, calls) == DurableAnswers(max, table, calls)
    decreases calls
  {
    if calls != [] {
      var c := calls[0];
      LiveTwice(seen, start, c.now);
      LiveTwice(table, start, c.now);
      var (seen', x) := MemoryStep(max, seen, c);
      var (table', y) := DurableStep(max, table, false, c);
      if Usable(c) {
        MemoryKeepsWindow(max, seen, c);
        LiveDistinct(table, c.now);
        WindowBounded(max, Live(table, c.now), c);
        LiveHolds(seen', c.now, c.id);
        assert table' == Live(seen', c.now);
        LiveTwice(seen', c.now, c.now);
      }
      GuardsAgree(max, seen', table', c.now, calls[1..]);
    }
  }

  /** On a usable call the guards agree exactly when the clock reading and the expiry are safe integers. */
  lemma GuardsAgreeExactly(max: nat, table: Table, c: Call)
    requires max >= 1 && Distinct(table) && |table| <= max && Usable(c)
    ensures MemoryStep(max, table, c).1 == DurableStep(max, table, false, c).1 <==> SafeClock(c)
  {
    MemoryKeepsWindow(max, table, c);
  }

  function MemoryAfter(max: nat, seen: Table, calls: seq<Call>): Table
    decreases calls
  {
    if calls == [] then seen else MemoryAfter(max, MemoryStep(max, seen, calls[0]).0, calls[1..])
  }

  function TableAfter(max: nat, table: Table, calls: seq<Call>): Table
    decreases calls
  {
    if calls == [] then table else TableAfter(max, DurableStep(max, table, false, calls[0]).0, calls[1..])
  }

  /** The clock at the last usable call: a refused argument moves neither guard. */
  function LastReading(start: int, calls: seq<Call>): int
    decreases calls
  {
    if calls == [] then start else LastReading(if Usable(calls[0]) then calls[0].now else start, calls[1..])
  }

  /** On a monotone clock the durable table is what still lives of the memory guard's, at the last reading. */
  lemma {:induction false} PrunedIsLive(max: nat, seen: Table, start: int, clock: int, calls: seq<Call>)
    requires max >= 1 && Distinct(seen) && |seen| <= max
    requires start <= clock && Monotone(clock, calls)
    requires forall i :: 0 <= i < |calls| && Usable(calls[i]) ==> SafeClock(calls[i])
    ensures TableAfter(max, Live(seen, start), calls) == Live(MemoryAfter(max, seen, calls), LastReading(start, calls))
    ensures Distinct(MemoryAfter(max, seen, calls)) && |MemoryAfter(max, seen, calls)| <= max
    decreases calls
  {
    if calls != [] {
      var c := calls[0];
      var after := MemoryStep(max, seen, c).0;
      if Usable(c) {
        MemoryKeepsWindow(max, seen, c);
        LiveTwice(seen, start, c.now);
        PrunedIsLive(max, after, c.now, c.now, calls[1..]);
      } else {
        PrunedIsLive(max, seen, start, c.now, calls[1..]);
      }
    }
  }

  /**
   * What a clock that steps back does: after any calls on a monotone clock, last read at `last`, the guards part
   * on a call exactly when the memory guard holds its id with an expiry later than the new reading but not later
   * than `last`: the one still refuses what the other has forgotten.
   */
  lemma StepBackSeparates(max: nat, seen: Table, start: int, calls: seq<Call>, c: Call)
    requires max >= 1 && Distinct(seen) && |seen| <= max
    requires Monotone(start, calls) && Usable(c) && SafeClock(c)
    requires forall i :: 0 <= i < |calls| && Usable(calls[i]) ==> SafeClock(calls[i])
    ensures var m, d, last := MemoryAfter(max, seen, calls), TableAfter(max, Live(seen, start), calls), LastReading(start, calls);
            MemoryStep(max, m, c).1 != DurableStep(max, d, false, c).1 <==>
              Get(m, c.id).Some? && c.now < Get(m, c.id).value <= last
  {
    hide Live, Get, Holds, Distinct, Monotone, MemoryAfter, TableAfter, LastReading, Without, Newest;
    var m, last := MemoryAfter(max, seen, calls), LastReading(start, calls);
    PrunedIsLive(max, seen, start, start, calls);
    LiveGet(m, c.id, last);
    LiveDistinct(m, last);
    LiveGet(Live(m, last), c.id, c.now);
    WithoutAbsent(Live(m, last), c.id);
    if Get(Live(m, last), c.id).Some? { LiveValue(m, c.id, last); }
  }

  lemma {:induction false} LiveValue(t: Table, id: string, now: int)
    requires Distinct(t) && Get(Live(t, now), id).Some?
    ensures Get(t, id) == Get(Live(t, now), id)
  {
    if t[0].id == id {
      LiveHolds(t[1..], now, id);
      WithoutAbsent(Live(t[1..], now), id);
    } else {
      LiveValue(t[1..], id, now);
    }
  }

  /** With a clock that steps back they part: the eager guard has already forgotten what the lazy one still holds. */
  lemma BackwardsClockSeparates()
    ensures var calls := [Call("a", 10, 0), Call("b", 10, 20), Call("a", 10, 5)];
            && MemoryAnswers(2, [], calls) == [Fresh, Fresh, Replay]
            && DurableAnswers(2, [], calls) == [Fresh, Fresh, Fresh]
  {
    var a, b := Entry("a", 10), Entry("b", 30);
    var c0, c1, c2 := Call("a", 10, 0), Call("b", 10, 20), Call("a", 10, 5);
    assert Usable(c0) && Usable(c1) && Usable(c2);
    assert !Holds([], "a") && !Holds([], "b") && !Holds([b], "a") by { assert b.id[0] != a.id[0]; }
    assert [] + [a] == [a] && [] + [b] == [b] && [a] + [b] == [a, b];
    assert Without([a], "b") == [a] && Live([a], 20) == [] && Live([b], 5) == [b] by { assert b.id[0] != a.id[0]; }
    assert MemoryStep(2, [], c0) == ([a], Fresh) && DurableStep(2, [], false, c0) == ([a], Fresh);
    assert Get([a], "b") == None by { assert b.id[0] != a.id[0]; }
    assert Newest([a, b], 2) == [a, b] && Newest([b], 2) == [b];
    assert MemoryStep(2, [a], c1) == ([a, b], Fresh) && DurableStep(2, [a], false, c1) == ([b], Fresh);
    assert MemoryStep(2, [a, b], c2).1 == Replay && DurableStep(2, [b], false, c2).1 == Fresh;
    assert [c0, c1, c2][1..] == [c1, c2] && [c1, c2][1..] == [c2] && [c2][1..] == [];
    assert MemoryAnswers(2, [a, b], [c2]) == [Replay] && DurableAnswers(2, [b], [c2]) == [Fresh];
    assert MemoryAnswers(2, [a], [c1, c2]) == [Fresh, Replay] && DurableAnswers(2, [a], [c1, c2]) == [Fresh, Fresh];
  }

  // ----- at most once

  /** How many of the first `n` calls were accepted for an id other than `id`. */
  function OthersAccepted(calls: seq<Call>, answers: seq<Answer>, n: nat, id: string): nat
    requires n <= |calls| == |answers|
  {
    if n == 0 then 0
    else OthersAccepted(calls, answers, n - 1, id) + (if answers[n - 1] == Fresh && calls[n - 1].id != id then 1 else 0)
  }

  lemma {:induction false} OthersAcceptedTail(calls: seq<Call>, answers: seq<Answer>, n: nat, id: string)
    requires 0 < n <= |calls| == |answers|
    ensures OthersAccepted(calls, answers, n, id)
         == (if answers[0] == Fresh && calls[0].id != id then 1 else 0) + OthersAccepted(calls[1..], answers[1..], n - 1, id)
  {
    if n > 1 {
      OthersAcceptedTail(calls, answers, n - 1, id);
    }
  }

  /**
   * `id` was accepted with expiry `expiry` and `since` other ids after it: it is either still in the
   * window, with no more than `since` entries behind it, or at least `max` others were accepted.
   */
  predicate Remembered(max: nat, live: Table, id: string, expiry: int, since: nat) {
    since >= max || exists p :: 0 <= p < |live| && live[p].id == id && live[p].expiresAt >= expiry && |live| - 1 - p <= since
  }

  lemma {:induction false} LiveKeepsPlace(t: Table, p: nat, now: int)
    requires p < |t| && t[p].expiresAt > now
    ensures exists q :: 0 <= q < |Live(t, now)| && Live(t, now)[q] == t[p] && |Live(t, now)| - 1 - q <= |t| - 1 - p
  {
    if p > 0 {
      LiveKeepsPlace(t[1..], p - 1, now);
      var m := Live(t[1..], now);
      var q :| 0 <= q < |m| && m[q] == t[p] && |m| - 1 - q <= |t| - 1 - p;
      if Live(t, now) != m {
        assert Live(t, now)[q + 1] == m[q];
      }
    } else {
      assert Live(t, now)[0] == t[0];
    }
  }

  lemma PlaceAfterAppend(live: Table, q: nat, e: Entry, max: nat)
    requires q < |live| <= max
    requires q > 0 || |live| < max
    ensures var next := Newest(live + [e], max);
            exists r :: 0 <= r < |next| && next[r] == live[q] && |next| - 1 - r == |live| - q
  {
    var next := Newest(live + [e], max);
    assert next[|next| - 1 - |live| + q] == live[q];
  }

  /** Before its expiry, a remembered id is refused; accepting another id costs it at most one place. */
  lemma RememberedStep(max: nat, table: Table, c: Call, id: string, expiry: int, since: nat)
    requires max >= 1 && Distinct(table) && |table| <= max
    requires Remembered(max, table, id, expiry, since) && c.now < expiry
    ensures var (after, answer) := Window(max, Live(table, c.now), c);
            && (c.id == id && answer == Fresh ==> since >= max)
            && Remembered(max, after, id, expiry, since + if answer == Fresh && c.id != id then 1 else 0)
  {
    hide Newest, Live, Distinct;
    if since < max {
      var p :| 0 <= p < |table| && table[p].id == id && table[p].expiresAt >= expiry && |table| - 1 - p <= since;
      LiveKeepsPlace(table, p, c.now);
      var live := Live(table, c.now);
      var q :| 0 <= q < |live| && live[q] == table[p] && |live| - 1 - q <= |table| - 1 - p;
      HoldsAt(live, q);
      if !Holds(live, c.id) && (q > 0 || |live| < max) {
        PlaceAfterAppend(live, q, Entry(c.id, c.now + c.ttlMs), max);
      }
    }
  }

  lemma {:induction false} AcceptedAgain(max: nat, table: Table, start: int, calls: seq<Call>, j: nat, id: string, expiry: int, since: nat)
    requires max >= 1 && Distinct(table) && |table| <= max
    requires Monotone(start, calls) && j < |calls|
    requires Remembered(max, table, id, expiry, since)
    requires calls[j].id == id && calls[j].now < expiry && DurableAnswers(max, table, calls)[j] == Fresh
    ensures since + OthersAccepted(calls, DurableAnswers(max, table, calls), j, id) >= max
    decreases calls
  {
    var c := calls[0];
    var (after, answer) := DurableStep(max, table, false, c);
    var answers := DurableAnswers(max, table, calls);
    hide Window, Remembered, Distinct, Live, Holds, Usable;
    MonotoneHead(start, calls, j);
    if answer == Fresh || answer == Replay {
      RememberedStep(max, table, c, id, expiry, since);
      LiveDistinct(table, c.now);
      WindowBounded(max, Live(table, c.now), c);
    }
    if j > 0 {
      assert answers[1..] == DurableAnswers(max, after, calls[1..]);
      OthersAcceptedTail(calls, answers, j, id);
      AcceptedAgain(max, after, c.now, calls[1..], j - 1, id, expiry,
        since + if answer == Fresh && c.id != id then 1 else 0);
    }
  }

  lemma {:induction false} MonotoneHead(start: int, calls: seq<Call>, j: nat)
    requires Monotone(start, calls) && j < |calls|
    ensures calls[0].now <= calls[j].now
    decreases calls
  {
    if j > 0 {
      MonotoneHead(calls[0].now, calls[1..], j - 1);
    }
  }

  /**
   * At most once. If the first call accepts an id, and a later call made strictly before the stored
   * expiry accepts it again, at least `max` other ids were accepted in between.
   */
  lemma AtMostOnce(max: nat, table: Table, start: int, calls: seq<Call>, j: nat)
    requires max >= 1 && Distinct(table) && |table| <= max
    requires Monotone(start, calls) && 0 < j < |calls|
    requires calls[j].id == calls[0].id && calls[j].now < calls[0].now + calls[0].ttlMs
    requires DurableAnswers(max, table, calls)[0] == Fresh && DurableAnswers(max, table, calls)[j] == Fresh
    ensures OthersAccepted(calls, DurableAnswers(max, table, calls), j, calls[0].id) >= max
  {
    var c := calls[0];
    var (after, answer) := DurableStep(max, table, false, c);
    var answers := DurableAnswers(max, table, calls);
    LiveDistinct(table, c.now);
    WindowBounded(max, Live(table, c.now), c);
    assert after[|after| - 1] == Entry(c.id, c.now + c.ttlMs);
    assert Remembered(max, after, c.id, c.now + c.ttlMs, 0);
    assert answers[1..] == DurableAnswers(max, after, calls[1..]);
    OthersAcceptedTail(calls, answers, j, c.id);
    AcceptedAgain(max, after, c.now, calls[1..], j - 1, c.id, c.now + c.ttlMs, 0);
  }

  /**
   * The capacity is a real price: when the table is full of live ids, one more acceptance forgets the
   * oldest of them before its expiry.
   */
  lemma EvictionReopens(max: nat, live: Table, e: Entry, c: Call)
    requires max >= 1 && Distinct(live) && |live| == max && live[0] == e && c.now < e.expiresAt
    requires AllLive(live, c.now)
    requires Usable(c) && !Holds(live, c.id)
    ensures !Holds(Window(max, live, c).0, e.id)
  {
    var last := Entry(c.id, c.now + c.ttlMs);
    assert Newest(live + [last], max) == live[1..] + [last];
    assert !Holds(live[1..], e.id);
    hide Holds, Newest;
    HoldsConcat(live[1..], [last], e.id);
  }
}
