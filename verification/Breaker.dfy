/** The per-model circuit breaker: a pruned list of failure times and an
    `open_until` instant, against the full history of events. */
module Breaker {
  import opened Options

  datatype BreakerState = BreakerState(failures: seq<int>, openUntil: Option<int>)

  /** Breaker settings; each is taken as at least one. */
  datatype Config = Config(failures: nat, window: int, cooldown: int)

  function AtLeastOne(x: int): int { if x < 1 then 1 else x }

  function Threshold(c: Config): nat { AtLeastOne(c.failures) }

  function Window(c: Config): int { AtLeastOne(c.window) }

  function Cooldown(c: Config): int { AtLeastOne(c.cooldown) }

  datatype Event = Failure(at: int) | Success(at: int)

  // ----- the full history -----

  /** The entries less than a window before t. */
  function Recent(log: seq<int>, t: int, window: int): seq<int> {
    if log == [] then []
    else Recent(log[..|log| - 1], t, window) + (if t - log[|log| - 1] < window then [log[|log| - 1]] else [])
  }

  /** The entries that every later one follows by less than a window. */
  ghost function Kept(log: seq<int>, window: int): seq<int> {
    if log == [] then []
    else (if FollowedWithin(log[1..], log[0], window) then [log[0]] else []) + Kept(log[1..], window)
  }

  ghost predicate FollowedWithin(later: seq<int>, t: int, window: int) {
    forall j :: 0 <= j < |later| ==> later[j] - t < window
  }

  /** Every failure since the last success or trip, unpruned. */
  ghost function Since(h: seq<Event>, c: Config): seq<int>
    decreases |h|, 0
  {
    if h == [] then [] else
      match h[|h| - 1]
      case Success(_) => []
      case Failure(t) => if Trips(h[..|h| - 1], t, c) then [] else Since(h[..|h| - 1], c) + [t]
  }

  /** Whether a failure at t after history h reaches the threshold. */
  ghost predicate Trips(h: seq<Event>, t: int, c: Config)
    decreases |h|, 1
  {
    |Kept(Since(h, c) + [t], Window(c))| >= Threshold(c)
  }

  ghost predicate TripAt(h: seq<Event>, i: nat, c: Config)
    requires i < |h|
  {
    h[i].Failure? && Trips(h[..i], h[i].at, c)
  }

  ghost predicate SuccessAfter(h: seq<Event>, i: nat) {
    exists j :: i < j < |h| && h[j].Success?
  }

  /** Open: some trip after the last success is less than one cooldown old. */
  ghost predicate OpenAt(h: seq<Event>, now: int, c: Config) {
    exists i :: 0 <= i < |h| && OpenedBy(h, i, now, c)
  }

  ghost predicate OpenedBy(h: seq<Event>, i: nat, now: int, c: Config)
    requires i < |h|
  {
    TripAt(h, i, c) && !SuccessAfter(h, i) && now < h[i].at + Cooldown(c)
  }

  /** Events are recorded in the order of their instants. An instant is read before
      the lock is taken, so two callers may also record theirs the other way round. */
  ghost predicate InOrder(h: seq<Event>) {
    forall i, j :: 0 <= i < j < |h| ==> h[i].at <= h[j].at
  }

  // ----- the breaker's own steps -----

  function AfterFailure(st: BreakerState, now: int, c: Config): BreakerState {
    var failures := Recent(st.failures, now, Window(c)) + [now];
    if |failures| >= Threshold(c) then BreakerState([], Some(now + Cooldown(c)))
    else st.(failures := failures)
  }

  predicate IsOpen(st: Option<BreakerState>, now: int) {
    st.Some? && st.value.openUntil.Some? && st.value.openUntil.value > now
  }

  function Default(st: Option<BreakerState>): BreakerState {
    if st.Some? then st.value else BreakerState([], None)
  }

  /** What the map holds for a model after its events. */
  function Stored(h: seq<Event>, c: Config): Option<BreakerState> {
    if h == [] then None else
      match h[|h| - 1]
      case Success(_) => None
      case Failure(t) => Some(AfterFailure(Default(Stored(h[..|h| - 1], c)), t, c))
  }

  class ModelBreaker {
    var states: map<string, BreakerState>
    const config: Config

    constructor (c: Config)
      ensures states == map[] && config == c
    {
      config := c;
      states := map[];
    }

    function Of(model: string): Option<BreakerState>
      reads this
    {
      if model in states then Some(states[model]) else None
    }

    /** Returns whether the breaker is open now. */
    method RecordModelFailure(model: string, now: int) returns (open: bool)
      modifies this
      ensures Of(model) == Some(AfterFailure(Default(old(Of(model))), now, config))
      ensures open == IsOpen(Of(model), now)
      ensures forall m :: m != model ==> Of(m) == old(Of(m))
    {
      var st := if model in states then states[model] else BreakerState([], None);
      st := st.(failures := Recent(st.failures, now, Window(config)));
      st := st.(failures := st.failures + [now]);
      if |st.failures| >= Threshold(config) {
        st := st.(openUntil := Some(now + Cooldown(config)));
        st := st.(failures := []);
        states := states[model := st];
        return true;
      }
      states := states[model := st];
      return st.openUntil.Some? && st.openUntil.value > now;
    }

    method RecordModelSuccess(model: string)
      modifies this
      ensures Of(model) == None
      ensures forall m :: m != model ==> Of(m) == old(Of(m))
    {
      states := states - {model};
    }

    method IsModelBreakerOpen(model: string, now: int) returns (open: bool)
      ensures open == IsOpen(Of(model), now)
    {
      if model !in states || states[model].openUntil.None? { return false; }
      return states[model].openUntil.value > now;
    }
  }

  // ----- what the pruned list holds, whatever the instants -----

  lemma RecentAppend(log: seq<int>, x: int, t: int, w: int)
    ensures Recent(log + [x], t, w) == Recent(log, t, w) + (if t - x < w then [x] else [])
  {
    assert (log + [x])[..|log|] == log;
  }

  lemma {:induction false} RecentJoin(a: seq<int>, b: seq<int>, t: int, w: int)
    ensures Recent(a + b, t, w) == Recent(a, t, w) + Recent(b, t, w)
  {
    if b == [] {
      assert a + b == a;
    } else {
      var n := |b| - 1;
      RecentJoin(a, b[..n], t, w);
      RecentAppend(a + b[..n], b[n], t, w);
      assert a + b == a + b[..n] + [b[n]];
    }
  }

  lemma FollowedAppend(later: seq<int>, t: int, x: int, w: int)
    ensures FollowedWithin(later + [t], x, w) <==> FollowedWithin(later, x, w) && t - x < w
  {
    assert FollowedWithin(later + [t], x, w) ==> (later + [t])[|later|] - x < w;
    assert forall j :: 0 <= j < |later| ==> (later + [t])[j] == later[j];
  }

  /** Pruning at t and appending t keeps just the entries that are kept. */
  lemma {:induction false} PruneStep(log: seq<int>, t: int, w: int)
    requires w >= 1
    ensures Kept(log + [t], w) == Recent(Kept(log, w), t, w) + [t]
  {
    hide Recent, FollowedWithin;
    EmptyRecent(t, w);
    if log == [] {
      assert FollowedWithin([], t, w) by { NothingFollows(t, w); }
      assert [t][1..] == [] && Kept([], w) == [];
    } else {
      var x, rest := log[0], log[1..];
      assert (log + [t])[1..] == rest + [t] && (log + [t])[0] == x;
      PruneStep(rest, t, w);
      FollowedAppend(rest, t, x, w);
      var head := if FollowedWithin(rest, x, w) then [x] else [];
      RecentJoin(head, Kept(rest, w), t, w);
      RecentAppend([], x, t, w);
      assert [] + [x] == [x];
    }
  }

  lemma NothingFollows(t: int, w: int)
    ensures FollowedWithin([], t, w)
  {
  }

  lemma EmptyRecent(t: int, w: int)
    ensures Recent([], t, w) == []
  {
  }

  /** The time of the last failure, when the history ends with one. */
  ghost function LastFailure(h: seq<Event>): Option<int> {
    if h != [] && h[|h| - 1].Failure? then Some(h[|h| - 1].at) else None
  }

  /** The stored list, pruned and extended at t, is as long as the threshold. */
  predicate Reaches(st: Option<BreakerState>, t: int, c: Config) {
    |Recent(Default(st).failures, t, Window(c)) + [t]| >= Threshold(c)
  }

  /** The stored list is what is kept of the unpruned log since the last success or
      trip, and below the threshold. */
  ghost predicate Faithful(h: seq<Event>, c: Config) {
    && (Stored(h, c).None? <==> LastFailure(h).None?)
    && Default(Stored(h, c)).failures == Kept(Since(h, c), Window(c))
    && |Default(Stored(h, c)).failures| < Threshold(c)
  }

  lemma FailureFaithful(h: seq<Event>, c: Config)
    requires h != [] && h[|h| - 1].Failure? && Faithful(h[..|h| - 1], c)
    ensures Faithful(h, c)
    ensures Trips(h[..|h| - 1], h[|h| - 1].at, c) <==> Reaches(Stored(h[..|h| - 1], c), h[|h| - 1].at, c)
  {
    hide Recent;
    var g, t := h[..|h| - 1], h[|h| - 1].at;
    PruneStep(Since(g, c), t, Window(c));
    assert h[|h| - 1] == Failure(t);
    assert Since(h, c) == if Trips(g, t, c) then [] else Since(g, c) + [t];
    assert Stored(h, c) == Some(AfterFailure(Default(Stored(g, c)), t, c));
    assert Trips(g, t, c) <==> Reaches(Stored(g, c), t, c);
  }

  /** In whatever order the instants are recorded: the pruned list decides as the
      full log does, each failure counting as long as every later one came less
      than a window after it. */
  lemma {:induction false} PrunedIsKept(h: seq<Event>, c: Config)
    ensures Faithful(h, c)
    ensures LastFailure(h).Some? ==>
      (Trips(h[..|h| - 1], LastFailure(h).value, c) <==> Reaches(Stored(h[..|h| - 1], c), LastFailure(h).value, c))
  {
    if h != [] {
      hide Trips, Reaches;
      PrunedIsKept(h[..|h| - 1], c);
      if h[|h| - 1].Failure? { FailureFaithful(h, c); }
    }
  }

  // ----- instants in order: a sliding window -----

  ghost predicate UpTo(log: seq<int>, t: int) {
    && (forall i, j :: 0 <= i < j < |log| ==> log[i] <= log[j])
    && (forall i :: 0 <= i < |log| ==> log[i] <= t)
  }

  lemma {:induction false} SinceInOrder(h: seq<Event>, c: Config, t: int)
    requires InOrder(h) && (h != [] ==> h[|h| - 1].at <= t)
    ensures UpTo(Since(h, c), t)
  {
    hide Trips;
    if h != [] {
      var n := |h| - 1;
      SinceInOrder(h[..n], c, h[n].at);
    }
  }

  /** Then only the distance to the latest entry matters. */
  lemma {:induction false} KeptIsRecent(log: seq<int>, t: int, w: int)
    requires UpTo(log, t) && w >= 1
    ensures Kept(log + [t], w) == Recent(log + [t], t, w)
  {
    hide Recent;
    EmptyRecent(t, w);
    if log == [] {
      NothingFollows(t, w);
      RecentAppend([], t, t, w);
      assert [] + [t] == [t] && [t][1..] == [] && Kept([], w) == [];
    } else {
      var x, rest := log[0], log[1..];
      assert (log + [t])[1..] == rest + [t] && (log + [t])[0] == x;
      KeptIsRecent(rest, t, w);
      FollowedBySorted(rest, t, x, w);
      RecentJoin([x], rest + [t], t, w);
      RecentAppend([], x, t, w);
      assert [] + [x] == [x] && log + [t] == [x] + (rest + [t]);
    }
  }

  lemma FollowedBySorted(later: seq<int>, t: int, x: int, w: int)
    requires UpTo(later, t)
    ensures FollowedWithin(later + [t], x, w) <==> t - x < w
  {
    FollowedAppend(later, t, x, w);
  }

  /** When instants are recorded in order, a failure trips the breaker exactly when
      enough failures since the last success or trip are less than a window old. */
  lemma PrunedIsFiltered(h: seq<Event>, c: Config, t: int)
    requires InOrder(h) && (h != [] ==> h[|h| - 1].at <= t)
    ensures Reaches(Stored(h, c), t, c) <==> |Recent(Since(h, c) + [t], t, Window(c))| >= Threshold(c)
    ensures Recent(Default(Stored(h, c)).failures, t, Window(c)) == Recent(Since(h, c), t, Window(c))
  {
    hide Recent, Since, Stored;
    PrunedIsKept(h, c);
    SinceInOrder(h, c, t);
    PruneStep(Since(h, c), t, Window(c));
    KeptIsRecent(Since(h, c), t, Window(c));
    RecentAppend(Since(h, c), t, t, Window(c));
    var a, b := Recent(Default(Stored(h, c)).failures, t, Window(c)), Recent(Since(h, c), t, Window(c));
    assert a + [t] == b + [t];
    assert a == (a + [t])[..|a|] && b == (b + [t])[..|b|];
  }

  // ----- open exactly when the history says so -----

  /** The trip that is in force after a history, if there is one. */
  ghost predicate Latest(h: seq<Event>, i: nat, c: Config) {
    && i < |h| && TripAt(h, i, c) && !SuccessAfter(h, i)
    && forall j :: i < j < |h| ==> !TripAt(h, j, c)
  }

  ghost predicate NoTrip(h: seq<Event>, c: Config) {
    forall i :: 0 <= i < |h| && TripAt(h, i, c) ==> SuccessAfter(h, i)
  }

  lemma TripPrefix(h: seq<Event>, i: nat, c: Config)
    requires h != [] && i < |h| - 1
    ensures TripAt(h, i, c) <==> TripAt(h[..|h| - 1], i, c)
    ensures SuccessAfter(h, i) <==> SuccessAfter(h[..|h| - 1], i) || h[|h| - 1].Success?
  {
    var g := h[..|h| - 1];
    assert h[..i] == g[..i] && h[i] == g[i];
    if SuccessAfter(g, i) { var j :| i < j < |g| && g[j].Success?; assert h[j].Success?; }
    if SuccessAfter(h, i) && !h[|h| - 1].Success? { var j :| i < j < |h| && h[j].Success?; assert g[j].Success?; }
  }

  /** u is the end of the cooldown of the trip in force. */
  ghost predicate InForce(h: seq<Event>, u: int, c: Config) {
    exists i :: 0 <= i < |h| && Latest(h, i, c) && u == h[i].at + Cooldown(c)
  }

  /** open_until is the end of the latest unforgiven trip's cooldown. */
  lemma {:induction false} OpenUntilIsLatest(h: seq<Event>, c: Config)
    ensures Default(Stored(h, c)).openUntil.None? ==> NoTrip(h, c)
    ensures Default(Stored(h, c)).openUntil.Some? ==> InForce(h, Default(Stored(h, c)).openUntil.value, c)
  {
    hide Trips, InForce, NoTrip, Recent;
    if h == [] {
      NothingTripped(c);
    } else {
      var n := |h| - 1;
      OpenUntilIsLatest(h[..n], c);
      if h[n].Success? {
        SuccessForgives(h, c);
      } else {
        PrunedIsKept(h, c);
        FailureKeepsLatest(h, c);
      }
    }
  }

  lemma NothingTripped(c: Config)
    ensures NoTrip([], c)
  {
  }

  lemma SuccessForgives(h: seq<Event>, c: Config)
    requires h != [] && h[|h| - 1].Success?
    ensures NoTrip(h, c)
  {
    forall i | 0 <= i < |h| && TripAt(h, i, c) ensures SuccessAfter(h, i) {
      assert i < |h| - 1 && h[|h| - 1].Success?;
    }
  }

  lemma FailureKeepsLatest(h: seq<Event>, c: Config)
    requires h != [] && h[|h| - 1].Failure?
    requires Trips(h[..|h| - 1], h[|h| - 1].at, c) <==> Reaches(Stored(h[..|h| - 1], c), h[|h| - 1].at, c)
    requires var u := Default(Stored(h[..|h| - 1], c)).openUntil;
      (u.None? ==> NoTrip(h[..|h| - 1], c)) && (u.Some? ==> InForce(h[..|h| - 1], u.value, c))
    ensures var u := Default(Stored(h, c)).openUntil;
      (u.None? ==> NoTrip(h, c)) && (u.Some? ==> InForce(h, u.value, c))
  {
    hide Trips, Recent, NoTrip;
    var n := |h| - 1;
    var before, after := Default(Stored(h[..n], c)).openUntil, Default(Stored(h, c)).openUntil;
    if Trips(h[..n], h[n].at, c) {
      assert after == Some(h[n].at + Cooldown(c));
      assert TripAt(h, n, c) && Latest(h, n, c);
    } else {
      assert after == before;
      if before.Some? {
        var i :| 0 <= i < n && Latest(h[..n], i, c) && before.value == h[..n][i].at + Cooldown(c);
        LatestExtends(h, i, c);
      } else {
        NoTripExtends(h, c);
      }
    }
  }

  lemma LatestExtends(h: seq<Event>, i: nat, c: Config)
    requires h != [] && h[|h| - 1].Failure? && !TripAt(h, |h| - 1, c) && Latest(h[..|h| - 1], i, c)
    ensures Latest(h, i, c)
  {
    TripPrefix(h, i, c);
    forall j | i < j < |h| ensures !TripAt(h, j, c) {
      if j < |h| - 1 { TripPrefix(h, j, c); }
    }
  }

  lemma NoTripExtends(h: seq<Event>, c: Config)
    requires h != [] && h[|h| - 1].Failure? && !TripAt(h, |h| - 1, c) && NoTrip(h[..|h| - 1], c)
    ensures NoTrip(h, c)
  {
    forall i | 0 <= i < |h| && TripAt(h, i, c) ensures SuccessAfter(h, i) {
      TripPrefix(h, i, c);
    }
  }

  ghost predicate LatestIsRecent(h: seq<Event>, now: int, c: Config) {
    exists i :: 0 <= i < |h| && Latest(h, i, c) && now < h[i].at + Cooldown(c)
  }

  /** In whatever order instants are recorded, the breaker is open exactly when the
      trip recorded last, after the model's last success, is less than one cooldown
      old. */
  lemma OpenIffLatestTrip(h: seq<Event>, c: Config, now: int)
    ensures IsOpen(Stored(h, c), now) <==> LatestIsRecent(h, now, c)
  {
    hide Trips, Stored;
    OpenUntilIsLatest(h, c);
    var u := Default(Stored(h, c)).openUntil;
    if LatestIsRecent(h, now, c) {
      var j :| 0 <= j < |h| && Latest(h, j, c) && now < h[j].at + Cooldown(c);
      assert !NoTrip(h, c);
      var i :| 0 <= i < |h| && Latest(h, i, c) && u.value == h[i].at + Cooldown(c);
      assert i == j;
    }
  }

  /** When they are recorded in order, any such trip will do. */
  lemma OpenIffRecentTrip(h: seq<Event>, c: Config, now: int)
    requires InOrder(h)
    ensures IsOpen(Stored(h, c), now) <==> OpenAt(h, now, c)
  {
    hide Trips, Stored;
    OpenIffLatestTrip(h, c, now);
    if LatestIsRecent(h, now, c) {
      var i :| 0 <= i < |h| && Latest(h, i, c) && now < h[i].at + Cooldown(c);
      assert OpenedBy(h, i, now, c);
    }
    if OpenAt(h, now, c) {
      var j :| 0 <= j < |h| && OpenedBy(h, j, now, c);
      OpenUntilIsLatest(h, c);
      assert !NoTrip(h, c);
      var i :| 0 <= i < |h| && Latest(h, i, c);
      assert j <= i;
      assert h[j].at <= h[i].at;
    }
  }

  /** Out of order, one that was recorded too late can cut a cooldown short. */
  lemma LateRecordCloses()
    ensures var c, h := Config(1, 60, 5), [Failure(10), Failure(0)];
      OpenAt(h, 12, c) && !IsOpen(Stored(h, c), 12)
  {
    hide Recent;
    var c, h := Config(1, 60, 5), [Failure(10), Failure(0)];
    assert h[..1] == [Failure(10)] && [Failure(10)][..0] == [];
    RecentAppend([], 10, 10, 60);
    PrunedIsKept([Failure(10)], c);
    assert TripAt(h, 0, c) && !SuccessAfter(h, 0);
    assert OpenedBy(h, 0, 12, c);
  }

  // ----- the laws in terms of the configured numbers -----

  /** With settings of at least one, instants in order: a failure at t trips the breaker
      exactly when it is, with those recorded since the last success or trip and less
      than `window` before it, the `failures`-th; and the breaker is open at `now`
      exactly while a trip since the last success is less than `cooldown` old. A setting
      below one counts as one. */
  lemma SettingsRule(h: seq<Event>, c: Config, t: int, now: int)
    requires InOrder(h) && (h != [] ==> h[|h| - 1].at <= t)
    ensures var window := if c.window >= 1 then c.window else 1;
      var failures := if c.failures >= 1 then c.failures else 1;
      Trips(h, t, c) <==> |Recent(Since(h, c) + [t], t, window)| >= failures
    ensures IsOpen(Stored(h, c), now) <==>
      exists i :: 0 <= i < |h| && TripAt(h, i, c) && !SuccessAfter(h, i) && now - h[i].at < (if c.cooldown >= 1 then c.cooldown else 1)
  {
    hide Stored, Since, Recent, SuccessAfter;
    PrunedIsFiltered(h, c, t);
    TripsIffReaches(h, c, t);
    OpenIffRecentTrip(h, c, now);
    assert OpenAt(h, now, c) <==>
      exists i :: 0 <= i < |h| && TripAt(h, i, c) && !SuccessAfter(h, i) && now - h[i].at < (if c.cooldown >= 1 then c.cooldown else 1) by {
      if OpenAt(h, now, c) {
        var i :| 0 <= i < |h| && OpenedBy(h, i, now, c);
        assert TripAt(h, i, c) && !SuccessAfter(h, i);
      }
      if i :| 0 <= i < |h| && TripAt(h, i, c) && !SuccessAfter(h, i) && now - h[i].at < (if c.cooldown >= 1 then c.cooldown else 1) {
        assert OpenedBy(h, i, now, c);
      }
    }
  }

  lemma TripsIffReaches(h: seq<Event>, c: Config, t: int)
    ensures Trips(h, t, c) <==> Reaches(Stored(h, c), t, c)
  {
    hide Recent, Since, Stored;
    PrunedIsKept(h, c);
    PruneStep(Since(h, c), t, Window(c));
  }

  // ----- many models -----

  datatype ModelEvent = ModelEvent(model: string, event: Event)

  function EventsOf(log: seq<ModelEvent>, model: string): seq<Event> {
    if log == [] then [] else
      var e := log[|log| - 1];
      EventsOf(log[..|log| - 1], model) + (if e.model == model then [e.event] else [])
  }

  /** The map after any interleaving of events on any models. */
  function States(log: seq<ModelEvent>, c: Config): map<string, BreakerState> {
    if log == [] then map[] else
      var s, e := States(log[..|log| - 1], c), log[|log| - 1];
      match e.event
      case Success(_) => s - {e.model}
      case Failure(t) => s[e.model := AfterFailure(Default(if e.model in s then Some(s[e.model]) else None), t, c)]
  }

  /** Each model's entry depends on its own events only. */
  lemma {:induction false} ModelsAreIndependent(log: seq<ModelEvent>, c: Config, model: string)
    ensures var st := Stored(EventsOf(log, model), c);
      (model in States(log, c) <==> st.Some?) && (st.Some? ==> States(log, c)[model] == st.value)
  {
    if log != [] {
      var n := |log| - 1;
      ModelsAreIndependent(log[..n], c, model);
      var es := EventsOf(log[..n], model);
      if log[n].model == model {
        assert (es + [log[n].event])[..|es|] == es;
      } else {
        assert EventsOf(log, model) == es;
      }
    }
  }
}
