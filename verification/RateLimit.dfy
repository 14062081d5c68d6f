/** The fixed-window counters kept in Redis: requests per minute and messages
    per UTC day. Each script runs atomically; times are whole seconds. */
module RateLimit {
  import opened Options
  import opened Sorting

  const WINDOW := 60
  const DAY := 86400

  datatype RedisKey = Rpm(key: string) | Daily(key: string, day: int)

  /** A counter; without an expiry it would live forever. */
  datatype Counter = Counter(count: nat, expiry: Option<int>)

  datatype Reply = Reply(allowed: bool, count: nat, ttl: int)

  datatype RateLimitResult = RateLimitResult(allowed: bool, limit: nat, remaining: nat, resetAfter: int, resetAt: int)

  // ----- Redis, for one key -----

  predicate Live(c: Option<Counter>, now: int) {
    c.Some? && (c.value.expiry.None? || now < c.value.expiry.value)
  }

  /** GET, with a missing key counting as zero. */
  function Current(c: Option<Counter>, now: int): nat {
    if Live(c, now) then c.value.count else 0
  }

  /** TTL: negative when there is no key or no expiry. */
  function Ttl(c: Option<Counter>, now: int): int {
    if !Live(c, now) then -2
    else if c.value.expiry.None? then -1
    else c.value.expiry.value - now
  }

  function TtlOr(c: Option<Counter>, now: int, window: int): int {
    if Ttl(c, now) < 0 then window else Ttl(c, now)
  }

  /** INCR: a live counter keeps its expiry, a fresh one has none. */
  function Incr(c: Option<Counter>, now: int): Counter {
    Counter(Current(c, now) + 1, if Live(c, now) then c.value.expiry else None)
  }

  function Expire(c: Counter, now: int, window: int): Counter {
    c.(expiry := Some(now + window))
  }

  /** The counter after the check script. */
  function Checked(c: Option<Counter>, limit: nat, window: int, now: int): Option<Counter> {
    if Current(c, now) >= limit then c
    else
      var n := Incr(c, now);
      Some(if n.count == 1 then Expire(n, now, window) else n)
  }

  function CheckReply(c: Option<Counter>, limit: nat, window: int, now: int): Reply {
    if Current(c, now) >= limit then Reply(false, Current(c, now), TtlOr(c, now, window))
    else Reply(true, Current(c, now) + 1, TtlOr(Checked(c, limit, window, now), now, window))
  }

  function Saturating(a: nat, b: nat): nat { if a >= b then a - b else 0 }

  function ResultOf(r: Reply, limit: nat, now: int): RateLimitResult {
    RateLimitResult(r.allowed, limit, Saturating(limit, r.count), r.ttl, now + r.ttl)
  }

  function PeekResult(c: Option<Counter>, limit: nat, now: int): RateLimitResult {
    var count, ttl := Current(c, now), TtlOr(c, now, WINDOW);
    RateLimitResult(count < limit, limit, Saturating(limit, count), ttl, now + ttl)
  }

  // ----- the limiter -----

  class RateLimiter {
    var counters: map<RedisKey, Counter>

    function Slot(k: RedisKey): Option<Counter>
      reads this
    {
      if k in counters then Some(counters[k]) else None
    }

    constructor ()
      ensures counters == map[]
    {
      counters := map[];
    }

    /** The script both checks share. */
    method RunScript(k: RedisKey, limit: nat, window: int, now: int) returns (r: Reply)
      modifies this
      ensures Slot(k) == Checked(old(Slot(k)), limit, window, now)
      ensures r == CheckReply(old(Slot(k)), limit, window, now)
      ensures forall j :: j != k ==> Slot(j) == old(Slot(j))
    {
      var current := Current(Slot(k), now);
      if current >= limit {
        return Reply(false, current, TtlOr(Slot(k), now, window));
      }
      var n := Incr(Slot(k), now);
      counters := counters[k := n];
      if n.count == 1 {
        counters := counters[k := Expire(n, now, window)];
      }
      return Reply(true, n.count, TtlOr(Slot(k), now, window));
    }

    method Check(key: string, limitRpm: nat, now: int) returns (r: RateLimitResult)
      modifies this
      ensures Slot(Rpm(key)) == Checked(old(Slot(Rpm(key))), limitRpm, WINDOW, now)
      ensures r == ResultOf(CheckReply(old(Slot(Rpm(key))), limitRpm, WINDOW, now), limitRpm, now)
      ensures forall j :: j != Rpm(key) ==> Slot(j) == old(Slot(j))
    {
      var reply := RunScript(Rpm(key), limitRpm, WINDOW, now);
      var remaining := if limitRpm >= reply.count then limitRpm - reply.count else 0;
      r := RateLimitResult(reply.allowed, limitRpm, remaining, reply.ttl, now + reply.ttl);
    }

    /** Reads only. */
    method Peek(key: string, limitRpm: nat, now: int) returns (r: RateLimitResult)
      ensures r == PeekResult(Slot(Rpm(key)), limitRpm, now)
    {
      var count := Current(Slot(Rpm(key)), now);
      var ttl := Ttl(Slot(Rpm(key)), now);
      if ttl < 0 { ttl := WINDOW; }
      var remaining := if limitRpm >= count then limitRpm - count else 0;
      r := RateLimitResult(count < limitRpm, limitRpm, remaining, ttl, now + ttl);
    }

    method Reset(key: string)
      modifies this
      ensures Slot(Rpm(key)) == None
      ensures forall j :: j != Rpm(key) ==> Slot(j) == old(Slot(j))
    {
      counters := counters - {Rpm(key)};
    }

    method CheckDailyMessages(key: string, limit: nat, now: int) returns (r: Reply)
      modifies this
      ensures var k := Daily(key, now / DAY);
        && Slot(k) == Checked(old(Slot(k)), limit, DailyTtl(now), now)
        && r == CheckReply(old(Slot(k)), limit, DailyTtl(now), now)
        && forall j :: j != k ==> Slot(j) == old(Slot(j))
    {
      r := RunScript(Daily(key, now / DAY), limit, DailyTtl(now), now);
    }
  }

  /** Seconds to the next midnight, at least a minute. */
  function DailyTtl(now: int): int {
    var left := (now / DAY + 1) * DAY - now;
    if left < 60 then 60 else left
  }

  // ----- any interleaving of calls on many keys is independent runs per key -----

  datatype Call = Call(key: string, now: int)

  /** The counters after a sequence of checks with one limit. */
  function Table(calls: seq<Call>, limit: nat): map<string, Counter> {
    if calls == [] then map[] else
      var t, c := Table(calls[..|calls| - 1], limit), calls[|calls| - 1];
      var n := Checked(if c.key in t then Some(t[c.key]) else None, limit, WINDOW, c.now);
      if n.Some? then t[c.key := n.value] else t
  }

  function TimesOf(calls: seq<Call>, key: string): seq<int> {
    if calls == [] then [] else
      var c := calls[|calls| - 1];
      TimesOf(calls[..|calls| - 1], key) + (if c.key == key then [c.now] else [])
  }

  /** What one key's counter went through: its value, the times of allowed
      calls, and the times at which a new window began. */
  datatype Trace = Trace(counter: Option<Counter>, allowed: seq<int>, starts: seq<int>)

  function RunOf(times: seq<int>, limit: nat): Trace {
    if times == [] then Trace(None, [], []) else
      var tr, t := RunOf(times[..|times| - 1], limit), times[|times| - 1];
      Trace(Checked(tr.counter, limit, WINDOW, t),
        tr.allowed + (if CheckReply(tr.counter, limit, WINDOW, t).allowed then [t] else []),
        tr.starts + (if CheckReply(tr.counter, limit, WINDOW, t).allowed && !Live(tr.counter, t) then [t] else []))
  }

  lemma {:induction false} KeysAreIndependent(calls: seq<Call>, limit: nat, key: string)
    ensures var c := RunOf(TimesOf(calls, key), limit).counter;
      (key in Table(calls, limit) <==> c.Some?) && (c.Some? ==> Table(calls, limit)[key] == c.value)
  {
    if calls != [] {
      var n := |calls| - 1;
      KeysAreIndependent(calls[..n], limit, key);
      var ts := TimesOf(calls[..n], key);
      if calls[n].key == key {
        assert (ts + [calls[n].now])[..|ts|] == ts;
      } else {
        assert TimesOf(calls, key) == ts;
      }
    }
  }

  // ----- the window bounds -----

  ghost predicate NonDecreasing(times: seq<int>) {
    forall i, j :: 0 <= i < j < |times| ==> times[i] <= times[j]
  }

  function Within(lo: int, hi: int): int -> bool { x => lo <= x < hi }

  ghost predicate InSomeWindow(starts: seq<int>, x: int) {
    exists j :: 0 <= j < |starts| && starts[j] <= x < starts[j] + WINDOW
  }

  /** Windows do not overlap, hold every allowed call, and none holds more than
      limit; a counter carries the last window's count and end. */
  ghost predicate Windowed(tr: Trace, limit: nat) {
    && (forall i, j :: 0 <= i < j < |tr.starts| ==> tr.starts[i] + WINDOW <= tr.starts[j])
    && (forall x :: x in tr.allowed ==> InSomeWindow(tr.starts, x))
    && (forall j :: 0 <= j < |tr.starts| ==> Count(tr.allowed, Within(tr.starts[j], tr.starts[j] + WINDOW)) <= limit)
    && (tr.counter.None? ==> tr.starts == [])
    && (tr.counter.Some? ==>
          && tr.starts != []
          && tr.counter.value.expiry == Some(tr.starts[|tr.starts| - 1] + WINDOW)
          && 1 <= tr.counter.value.count <= limit
          && tr.counter.value.count
               == Count(tr.allowed, Within(tr.starts[|tr.starts| - 1], tr.starts[|tr.starts| - 1] + WINDOW)))
  }

  ghost predicate UpTo(tr: Trace, now: int) {
    forall j :: 0 <= j < |tr.starts| ==> tr.starts[j] <= now
  }

  lemma {:induction false} CountNone(s: seq<int>, p: int -> bool)
    requires forall x :: x in s ==> !p(x)
    ensures Count(s, p) == 0
  {
    if s != [] {
      var h := s[0];
      assert s == [h] + s[1..] && h in s && !p(h);
      CountNone(s[1..], p);
    }
  }

  function Stepped(tr: Trace, limit: nat, t: int): Trace {
    Trace(Checked(tr.counter, limit, WINDOW, t),
      tr.allowed + (if CheckReply(tr.counter, limit, WINDOW, t).allowed then [t] else []),
      tr.starts + (if CheckReply(tr.counter, limit, WINDOW, t).allowed && !Live(tr.counter, t) then [t] else []))
  }

  /** A call allowed inside the current window. */
  lemma JoinWindow(tr: Trace, limit: nat, t: int)
    requires Windowed(tr, limit) && UpTo(tr, t) && Live(tr.counter, t) && tr.counter.value.count < limit
    ensures Windowed(Stepped(tr, limit, t), limit)
  {
    hide Count;
    var s, n := Stepped(tr, limit, t), |tr.starts| - 1;
    assert s.starts == tr.starts && s.allowed == tr.allowed + [t];
    forall j | 0 <= j < |s.starts| ensures Count(s.allowed, Within(s.starts[j], s.starts[j] + WINDOW)) <= limit {
      CountAppend(tr.allowed, t, Within(s.starts[j], s.starts[j] + WINDOW));
    }
    forall x | x in s.allowed ensures InSomeWindow(s.starts, x) {
      if x in tr.allowed { assert InSomeWindow(tr.starts, x); } else { assert s.starts[n] <= t < s.starts[n] + WINDOW; }
    }
    CountAppend(tr.allowed, t, Within(s.starts[n], s.starts[n] + WINDOW));
  }

  /** A call allowed after the last window ended opens the next one. */
  lemma OpenWindow(tr: Trace, limit: nat, t: int)
    requires Windowed(tr, limit) && UpTo(tr, t) && !Live(tr.counter, t) && limit > 0
    ensures Windowed(Stepped(tr, limit, t), limit)
  {
    hide Count;
    var s, m := Stepped(tr, limit, t), |tr.starts|;
    assert s.starts == tr.starts + [t] && s.allowed == tr.allowed + [t];
    assert forall j :: 0 <= j < m ==> tr.starts[j] + WINDOW <= t;
    forall x | x in tr.allowed ensures x < t {
      assert InSomeWindow(tr.starts, x);
    }
    forall j | 0 <= j < |s.starts| ensures Count(s.allowed, Within(s.starts[j], s.starts[j] + WINDOW)) <= limit {
      CountAppend(tr.allowed, t, Within(s.starts[j], s.starts[j] + WINDOW));
      if j == m { CountNone(tr.allowed, Within(t, t + WINDOW)); }
      else { assert s.starts[j] == tr.starts[j]; }
    }
    CountAppend(tr.allowed, t, Within(t, t + WINDOW));
    CountNone(tr.allowed, Within(t, t + WINDOW));
    forall x | x in s.allowed ensures InSomeWindow(s.starts, x) {
      if x in tr.allowed {
        assert InSomeWindow(tr.starts, x);
        var j :| 0 <= j < m && tr.starts[j] <= x < tr.starts[j] + WINDOW;
        assert s.starts[j] == tr.starts[j];
      } else {
        assert s.starts[m] == t;
      }
    }
  }

  lemma {:induction false} RunIsWindowed(times: seq<int>, limit: nat)
    requires NonDecreasing(times)
    ensures Windowed(RunOf(times, limit), limit)
    ensures times != [] ==> UpTo(RunOf(times, limit), times[|times| - 1])
  {
    hide Count, Windowed;
    if times == [] {
      EmptyIsWindowed(limit);
    } else {
      var n := |times| - 1;
      RunIsWindowed(times[..n], limit);
      var tr, t := RunOf(times[..n], limit), times[n];
      assert UpTo(tr, t) by {
        if n > 0 { assert times[..n][n - 1] <= t; } else { assert times[..n] == []; }
      }
      assert RunOf(times, limit) == Stepped(tr, limit, t);
      StepIsWindowed(tr, limit, t);
    }
  }

  lemma EmptyIsWindowed(limit: nat)
    ensures Windowed(Trace(None, [], []), limit)
  {
  }

  lemma StepIsWindowed(tr: Trace, limit: nat, t: int)
    requires Windowed(tr, limit) && UpTo(tr, t)
    ensures Windowed(Stepped(tr, limit, t), limit) && UpTo(Stepped(tr, limit, t), t)
  {
    hide Count;
    if Current(tr.counter, t) >= limit {
      assert Stepped(tr, limit, t) == tr by { assert tr.allowed + [] == tr.allowed && tr.starts + [] == tr.starts; }
    } else if Live(tr.counter, t) {
      JoinWindow(tr, limit, t);
    } else {
      OpenWindow(tr, limit, t);
    }
  }

  /** The window that a call at t falls into or opens. */
  ghost predicate WindowAt(tr: Trace, start: int, t: int) {
    tr.starts != [] && start == tr.starts[|tr.starts| - 1] && start <= t < start + WINDOW
  }

  /** The reply is about the window that holds the call: its end, and what it has left. */
  ghost predicate SaysWindow(r: RateLimitResult, tr: Trace, limit: nat, t: int)
    requires tr.starts != []
  {
    var start := tr.starts[|tr.starts| - 1];
    var used := Count(tr.allowed, Within(start, start + WINDOW));
    start <= t < start + WINDOW && r.resetAt == start + WINDOW && used <= limit && r.remaining == limit - used
  }

  /** Check answers with the window that holds the call: it resets when that window
      ends, and what remains is the limit without the calls allowed in it. */
  lemma CheckSaysWindow(times: seq<int>, limit: nat, t: int)
    requires NonDecreasing(times + [t])
    ensures var before, after := RunOf(times, limit), RunOf(times + [t], limit);
      var r := ResultOf(CheckReply(before.counter, limit, WINDOW, t), limit, t);
      && r.limit == limit && r.resetAfter == r.resetAt - t
      && after.allowed == (if r.allowed then before.allowed + [t] else before.allowed)
      && (!r.allowed ==> r.remaining == 0)
      && (limit == 0 ==> !r.allowed && r.resetAt == t + WINDOW)
      && (limit > 0 ==> after.starts != [] && SaysWindow(r, after, limit, t))
  {
    hide Count, RunOf, Windowed;
    PrefixNonDecreasing(times, t);
    RunIsWindowed(times, limit);
    RunIsWindowed(times + [t], limit);
    RunStep(times, limit, t);
    var before := RunOf(times, limit);
    assert UpTo(before, t) by { if times != [] { assert (times + [t])[|times| - 1] <= (times + [t])[|times|]; } else { NothingRun(limit); } }
    WindowFields(before, limit, t);
  }

  lemma PrefixNonDecreasing(times: seq<int>, t: int)
    requires NonDecreasing(times + [t])
    ensures NonDecreasing(times)
  {
    forall i, j | 0 <= i < j < |times| ensures times[i] <= times[j] {
      assert (times + [t])[i] <= (times + [t])[j];
    }
  }

  lemma RunStep(times: seq<int>, limit: nat, t: int)
    ensures RunOf(times + [t], limit) == Stepped(RunOf(times, limit), limit, t)
  {
    assert (times + [t])[..|times|] == times;
  }

  lemma NothingRun(limit: nat)
    ensures RunOf([], limit) == Trace(None, [], [])
  {
  }

  lemma WindowFields(tr: Trace, limit: nat, t: int)
    requires Windowed(tr, limit) && UpTo(tr, t) && Windowed(Stepped(tr, limit, t), limit)
    ensures var after, r := Stepped(tr, limit, t), ResultOf(CheckReply(tr.counter, limit, WINDOW, t), limit, t);
      && r.limit == limit && r.resetAfter == r.resetAt - t
      && after.allowed == (if r.allowed then tr.allowed + [t] else tr.allowed)
      && (!r.allowed ==> r.remaining == 0)
      && (limit == 0 ==> !r.allowed && r.resetAt == t + WINDOW)
      && (limit > 0 ==> after.starts != [] && SaysWindow(r, after, limit, t))
  {
    hide Count;
    var after := Stepped(tr, limit, t);
    if Current(tr.counter, t) >= limit { assert after.allowed == tr.allowed && after.starts == tr.starts; }
  }

  /** Peek answers with the running window, or, when there is none, with the whole
      limit and the length of a window. */
  lemma PeekSaysWindow(times: seq<int>, limit: nat, t: int)
    requires NonDecreasing(times + [t])
    ensures var tr := RunOf(times, limit); var r := PeekResult(tr.counter, limit, t);
      && (r.allowed <==> r.remaining > 0) && r.limit == limit && r.resetAfter == r.resetAt - t
      && (forall start :: WindowAt(tr, start, t) ==>
            && r.resetAt == start + WINDOW
            && r.remaining == limit - Count(tr.allowed, Within(start, start + WINDOW)))
      && ((forall start :: !WindowAt(tr, start, t)) ==> r.resetAt == t + WINDOW && r.remaining == limit)
  {
    hide Count, RunOf;
    PrefixNonDecreasing(times, t);
    RunIsWindowed(times, limit);
    var tr := RunOf(times, limit);
    assert UpTo(tr, t) by { if times != [] { assert (times + [t])[|times| - 1] <= (times + [t])[|times|]; } else { NothingRun(limit); } }
    if tr.starts != [] {
      var start := tr.starts[|tr.starts| - 1];
      assert WindowAt(tr, start, t) <==> Live(tr.counter, t);
    }
  }

  /** What Peek answers is what Check would answer in the same state, bar the
      request it does not consume. */
  lemma PeekPredictsCheck(calls: seq<Call>, limit: nat, key: string, now: int)
    requires NonDecreasing(TimesOf(calls, key))
    ensures var c := if key in Table(calls, limit) then Some(Table(calls, limit)[key]) else None;
      var would, seen := ResultOf(CheckReply(c, limit, WINDOW, now), limit, now), PeekResult(c, limit, now);
      && seen == would.(remaining := seen.remaining)
      && seen.remaining == (if would.allowed then would.remaining + 1 else would.remaining)
  {
    hide Count, Table, RunOf;
    if key in Table(calls, limit) { CounterBounded(calls, limit, key); }
  }

  /** Every live counter expires and never exceeds the limit. */
  lemma CounterBounded(calls: seq<Call>, limit: nat, key: string)
    requires NonDecreasing(TimesOf(calls, key)) && key in Table(calls, limit)
    ensures Table(calls, limit)[key].expiry.Some? && 1 <= Table(calls, limit)[key].count <= limit
  {
    hide Count, Table, RunOf;
    KeysAreIndependent(calls, limit, key);
    RunIsWindowed(TimesOf(calls, key), limit);
  }

  /** At most limit calls are allowed in each window. */
  lemma AtMostLimitPerWindow(times: seq<int>, limit: nat, j: nat)
    requires NonDecreasing(times) && j < |RunOf(times, limit).starts|
    ensures var tr := RunOf(times, limit);
      Count(tr.allowed, Within(tr.starts[j], tr.starts[j] + WINDOW)) <= limit
  {
    hide Count, RunOf;
    RunIsWindowed(times, limit);
  }

  lemma {:induction false} CountCovered(s: seq<int>, p: int -> bool, q: int -> bool, r: int -> bool)
    requires forall x :: x in s && p(x) ==> q(x) || r(x)
    ensures Count(s, p) <= Count(s, q) + Count(s, r)
  {
    if s != [] {
      var h := s[0];
      assert s == [h] + s[1..] && h in s && (p(h) ==> q(h) || r(h));
      CountCovered(s[1..], p, q, r);
    }
  }

  lemma TwoWindowsApart(starts: seq<int>, j: nat, i: nat)
    requires forall k, l :: 0 <= k < l < |starts| ==> starts[k] + WINDOW <= starts[l]
    requires j + 1 < i < |starts|
    ensures starts[j] + 2 * WINDOW <= starts[i]
  {
    assert starts[j] + WINDOW <= starts[j + 1];
  }

  /** A call within a window's length of t is in the first window still
      running at t or in the one after it. */
  lemma NearWindow(starts: seq<int>, t: int, x: int, j: nat, i: nat)
    requires forall k, l :: 0 <= k < l < |starts| ==> starts[k] + WINDOW <= starts[l]
    requires j < |starts| && i < |starts| && t <= x < t + WINDOW
    requires starts[j] + WINDOW > t && starts[i] <= x < starts[i] + WINDOW
    requires forall k :: 0 <= k < j ==> starts[k] + WINDOW <= t
    ensures i == j || i == j + 1
  {
    if j + 1 < i { TwoWindowsApart(starts, j, i); }
  }

  /** The first window still running after time t, if any. */
  lemma {:induction false} FirstRunning(starts: seq<int>, t: int, m: nat) returns (j: nat)
    requires m <= |starts| && forall i :: 0 <= i < m ==> starts[i] + WINDOW <= t
    ensures j <= |starts| && (forall i :: 0 <= i < j ==> starts[i] + WINDOW <= t)
    ensures j < |starts| ==> starts[j] + WINDOW > t
    decreases |starts| - m
  {
    if m < |starts| && starts[m] + WINDOW <= t { j := FirstRunning(starts, t, m + 1); } else { j := m; }
  }

  /** In any 60 seconds whatsoever at most twice the limit gets through. */
  lemma AtMostTwiceLimit(times: seq<int>, limit: nat, t: int)
    requires NonDecreasing(times)
    ensures Count(RunOf(times, limit).allowed, Within(t, t + WINDOW)) <= 2 * limit
  {
    hide Count, RunOf;
    var tr := RunOf(times, limit);
    RunIsWindowed(times, limit);
    var j := FirstRunning(tr.starts, t, 0);
    var p := Within(t, t + WINDOW);
    var q := if j < |tr.starts| then Within(tr.starts[j], tr.starts[j] + WINDOW) else Within(0, 0);
    var r := if j + 1 < |tr.starts| then Within(tr.starts[j + 1], tr.starts[j + 1] + WINDOW) else Within(0, 0);
    forall x | x in tr.allowed && p(x) ensures q(x) || r(x) {
      assert InSomeWindow(tr.starts, x);
      var i :| 0 <= i < |tr.starts| && tr.starts[i] <= x < tr.starts[i] + WINDOW;
      NearWindow(tr.starts, t, x, j, i);
    }
    CountCovered(tr.allowed, p, q, r);
    CountNone(tr.allowed, Within(0, 0));
  }

  // ----- messages per day -----

  ghost predicate SameDay(times: seq<int>, day: int) {
    forall i :: 0 <= i < |times| ==> times[i] / DAY == day
  }

  /** One key's counter over one day, and how many calls got through. */
  function DayRun(times: seq<int>, limit: nat): (Option<Counter>, nat) {
    if times == [] then (None, 0) else
      var (c, n) := DayRun(times[..|times| - 1], limit);
      var t := times[|times| - 1];
      (Checked(c, limit, DailyTtl(t), t), n + (if CheckReply(c, limit, DailyTtl(t), t).allowed then 1 else 0))
  }

  lemma TtlReachesMidnight(t: int)
    ensures t < (t / DAY + 1) * DAY <= t + DailyTtl(t)
  {
  }

  /** A running counter keeps its expiry, and the reply says how long it has left. */
  lemma RunningKeepsExpiry(c: Option<Counter>, limit: nat, window: int, now: int, e: int)
    requires c.Some? && c.value.expiry == Some(e) && now < e && c.value.count > 0
    ensures Checked(c, limit, window, now).Some? && Checked(c, limit, window, now).value.expiry == Some(e)
    ensures CheckReply(c, limit, window, now).ttl == e - now
  {
  }

  /** The first call opens a window. */
  lemma FirstOpensWindow(limit: nat, window: nat, now: int)
    requires limit > 0
    ensures Checked(None, limit, window, now) == Some(Counter(1, Some(now + window)))
    ensures CheckReply(None, limit, window, now).ttl == window
  {
  }

  /** The day's counter expires at midnight, or a minute after its first message when
      midnight is nearer; the reply says how long that is from now. */
  lemma {:induction false} DailyCounterExpires(times: seq<int>, limit: nat, day: int)
    requires limit > 0 && times != [] && SameDay(times, day) && NonDecreasing(times)
    ensures var (c, _) := DayRun(times, limit); var midnight := (day + 1) * DAY;
      && c.Some?
      && c.value.expiry == Some(if midnight - times[0] < 60 then times[0] + 60 else midnight)
    ensures var (c, _) := DayRun(times[..|times| - 1], limit); var midnight := (day + 1) * DAY; var now := times[|times| - 1];
      CheckReply(c, limit, DailyTtl(now), now).ttl == (if midnight - times[0] < 60 then times[0] + 60 else midnight) - now
  {
    hide Checked, CheckReply;
    var m := |times| - 1;
    var now := times[m];
    TtlReachesMidnight(now);
    if m > 0 {
      var e := if (day + 1) * DAY - times[0] < 60 then times[0] + 60 else (day + 1) * DAY;
      DailyCounterExpires(times[..m], limit, day);
      DailyCapExact(times[..m], limit, day);
      assert times[..m][0] == times[0] && now / DAY == day;
      RunningKeepsExpiry(DayRun(times[..m], limit).0, limit, DailyTtl(now), now, e);
    } else {
      assert times[..0] == [];
      FirstOpensWindow(limit, DailyTtl(now), now);
    }
  }

  /** Exactly the first limit messages of a UTC day get through: the counter
      cannot expire before midnight, so it is never reset within the day. */
  lemma {:induction false} DailyCapExact(times: seq<int>, limit: nat, day: int)
    requires SameDay(times, day)
    ensures var (c, n) := DayRun(times, limit);
      && n == (if |times| <= limit then |times| else limit)
      && (c.None? <==> n == 0)
      && (c.Some? ==> c.value.count == n && c.value.expiry.Some? && c.value.expiry.value >= (day + 1) * DAY)
  {
    if times != [] {
      var m := |times| - 1;
      DailyCapExact(times[..m], limit, day);
      TtlReachesMidnight(times[m]);
    }
  }
}
