/** The monthly token budget: each caller reads the counter, decides, and only
    then increments it, so callers in flight can overshoot the limit. */
module TokenBudget {
  import opened Options

  /** The month's counter, and per slot the amount a caller has been granted
      but not yet added. There are as many slots as callers ever in flight. */
  datatype State = State(usage: int, granted: seq<Option<nat>>)

  datatype Step = Read(slot: nat, add: nat) | Increment(slot: nat)

  predicate Enabled(s: State, e: Step, m: nat) {
    match e
    case Read(i, add) => i < |s.granted| && s.granted[i].None? && add <= m
    case Increment(i) => i < |s.granted| && s.granted[i].Some?
  }

  /** The check that guards a grant. */
  predicate WithinBudget(s: State, add: nat, limit: int) {
    s.usage + add <= limit
  }

  function Effect(s: State, e: Step, limit: int, m: nat): State
    requires Enabled(s, e, m)
  {
    match e
    case Read(i, add) => if WithinBudget(s, add, limit) then s.(granted := s.granted[i := Some(add)]) else s
    case Increment(i) => State(s.usage + s.granted[i].value, s.granted[i := None])
  }

  ghost predicate Legal(s: State, es: seq<Step>, limit: int, m: nat)
    decreases |es|, 0
  {
    es == [] || (Legal(s, es[..|es| - 1], limit, m)
                 && Enabled(Run(s, es[..|es| - 1], limit, m), es[|es| - 1], m))
  }

  /** The state after a legal interleaving of steps. */
  ghost function Run(s: State, es: seq<Step>, limit: int, m: nat): State
    requires Legal(s, es, limit, m)
    decreases |es|, 1
  {
    if es == [] then s else Effect(Run(s, es[..|es| - 1], limit, m), es[|es| - 1], limit, m)
  }

  function Idle(k: nat, usage: int): State {
    State(usage, seq(k, i => None))
  }

  function Outstanding(g: seq<Option<nat>>): nat {
    if g == [] then 0
    else Outstanding(g[..|g| - 1]) + (if g[|g| - 1].Some? then g[|g| - 1].value else 0)
  }

  lemma {:induction false} OutstandingUpdate(g: seq<Option<nat>>, i: nat, v: Option<nat>)
    requires i < |g|
    ensures Outstanding(g[i := v])
         == Outstanding(g) - (if g[i].Some? then g[i].value else 0) + (if v.Some? then v.value else 0)
  {
    var n := |g| - 1;
    if i == n {
      assert g[i := v][..n] == g[..n];
    } else {
      assert g[i := v][..n] == g[..n][i := v];
      OutstandingUpdate(g[..n], i, v);
    }
  }

  lemma {:induction false} OutstandingBound(g: seq<Option<nat>>, m: nat)
    requires forall i :: 0 <= i < |g| && g[i].Some? ==> g[i].value <= m
    ensures Outstanding(g) <= |g| * m
  {
    if g != [] {
      var n := |g| - 1;
      OutstandingBound(g[..n], m);
      assert (n + 1) * m == n * m + m;
    }
  }

  lemma {:induction false} OutstandingWithGap(g: seq<Option<nat>>, m: nat, i: nat)
    requires i < |g| && g[i].None? && forall j :: 0 <= j < |g| && g[j].Some? ==> g[j].value <= m
    ensures Outstanding(g) <= (|g| - 1) * m
  {
    var n := |g| - 1;
    OutstandingBound(g[..n], m);
    if i < n {
      OutstandingWithGap(g[..n], m, i);
      assert n * m == (n - 1) * m + m;
    }
  }

  /** The most one caller can be granted: what it asks for, but never more than
      the whole limit. */
  function Share(limit: int, m: nat): nat {
    if limit < 0 then 0 else if m <= limit then m else limit
  }

  /** Usage together with everything granted stays within the limit plus what
      the other callers can have in flight. */
  ghost predicate Inv(s: State, limit: int, m: nat) {
    && |s.granted| >= 1 && s.usage >= 0
    && (forall i :: 0 <= i < |s.granted| && s.granted[i].Some? ==> s.granted[i].value <= Share(limit, m))
    && s.usage + Outstanding(s.granted) <= limit + (|s.granted| - 1) * Share(limit, m)
  }

  lemma StepKeepsInv(s: State, e: Step, limit: int, m: nat)
    requires Inv(s, limit, m) && Enabled(s, e, m)
    ensures Inv(Effect(s, e, limit, m), limit, m) && |Effect(s, e, limit, m).granted| == |s.granted|
  {
    match e
    case Read(i, add) =>
      if WithinBudget(s, add, limit) {
        OutstandingUpdate(s.granted, i, Some(add));
        OutstandingWithGap(s.granted, Share(limit, m), i);
      }
    case Increment(i) => OutstandingUpdate(s.granted, i, None);
  }

  /** With at most k callers in flight, each adding at most m, usage never
      exceeds limit + (k - 1) min(m, limit). */
  lemma {:induction false} UsageBounded(s: State, es: seq<Step>, limit: int, m: nat)
    requires Inv(s, limit, m) && Legal(s, es, limit, m)
    ensures var t := Run(s, es, limit, m);
      Inv(t, limit, m) && |t.granted| == |s.granted| && t.usage <= limit + (|s.granted| - 1) * Share(limit, m)
  {
    if es != [] {
      UsageBounded(s, es[..|es| - 1], limit, m);
      StepKeepsInv(Run(s, es[..|es| - 1], limit, m), es[|es| - 1], limit, m);
    }
  }

  /** Starting a month below the limit with nobody in flight; in particular usage
      stays within limit + (k - 1) m, and a lone caller never exceeds the limit. */
  lemma MonthBounded(k: nat, usage: nat, es: seq<Step>, limit: int, m: nat)
    requires k >= 1 && usage <= limit && Legal(Idle(k, usage), es, limit, m)
    ensures Run(Idle(k, usage), es, limit, m).usage <= limit + (k - 1) * Share(limit, m) <= limit + (k - 1) * m
    ensures k == 1 ==> Run(Idle(k, usage), es, limit, m).usage <= limit
  {
    hide Legal, Run;
    NothingOutstanding(k);
    ShareScales(k - 1, limit, m);
    UsageBounded(Idle(k, usage), es, limit, m);
  }

  lemma ShareScales(n: nat, limit: int, m: nat)
    ensures 0 <= n * Share(limit, m) <= n * m
  {
    assert n * (m - Share(limit, m)) >= 0;
  }

  lemma {:induction false} NothingOutstanding(k: nat)
    ensures Outstanding(seq(k, i => None)) == 0
  {
    if k > 0 {
      NothingOutstanding(k - 1);
      var g: seq<Option<nat>> := seq(k, i => None);
      var h: seq<Option<nat>> := seq(k - 1, i => None);
      assert g[..k - 1] == h;
    }
  }

  // ----- who is granted what -----

  /** A request is granted if and only if usage plus what it asks for is at most the
      limit; what others hold does not matter, and asking changes nothing else. */
  lemma GrantedIff(s: State, i: nat, add: nat, limit: int, m: nat)
    requires Enabled(s, Read(i, add), m)
    ensures var t := Effect(s, Read(i, add), limit, m);
      && (t.granted[i] == Some(add) <==> s.usage + add <= limit)
      && (t.granted[i].None? <==> s.usage + add > limit)
      && t.usage == s.usage && |t.granted| == |s.granted|
      && forall j :: 0 <= j < |s.granted| && j != i ==> t.granted[j] == s.granted[j]
  {
  }

  function Sum(adds: seq<nat>): nat {
    if adds == [] then 0 else Sum(adds[..|adds| - 1]) + adds[|adds| - 1]
  }

  /** One caller, each request counted before the next is made. */
  function OneByOne(adds: seq<nat>): seq<Step> {
    if adds == [] then [] else OneByOne(adds[..|adds| - 1]) + [Read(0, adds[|adds| - 1]), Increment(0)]
  }

  /** A lone caller's requests all pass as long as together they fit, and are
      counted in full. */
  lemma {:induction false} LoneCallerPasses(usage: int, adds: seq<nat>, limit: int, m: nat)
    requires usage + Sum(adds) <= limit && forall i :: 0 <= i < |adds| ==> adds[i] <= m
    ensures Legal(Idle(1, usage), OneByOne(adds), limit, m)
    ensures Run(Idle(1, usage), OneByOne(adds), limit, m) == Idle(1, usage + Sum(adds))
  {
    hide Legal, Run;
    if adds == [] {
      NothingRead(Idle(1, usage), limit, m);
    } else {
      var n := |adds| - 1;
      var s, front, a := Idle(1, usage), OneByOne(adds[..n]), adds[n];
      LoneCallerPasses(usage, adds[..n], limit, m);
      Extend(s, front, Read(0, a), limit, m);
      Extend(s, front + [Read(0, a)], Increment(0), limit, m);
      assert front + [Read(0, a)] + [Increment(0)] == front + [Read(0, a), Increment(0)];
    }
  }

  // ----- the bound is reached -----

  /** All k callers read before any of them adds. */
  function Reads(j: nat, m: nat): seq<Step> {
    if j == 0 then [] else Reads(j - 1, m) + [Read(j - 1, m)]
  }

  function Overrun(k: nat, j: nat, m: nat): seq<Step> {
    if j == 0 then Reads(k, m) else Overrun(k, j - 1, m) + [Increment(j - 1)]
  }

  lemma Extend(s: State, es: seq<Step>, e: Step, limit: int, m: nat)
    requires Legal(s, es, limit, m) && Enabled(Run(s, es, limit, m), e, m)
    ensures Legal(s, es + [e], limit, m)
    ensures Run(s, es + [e], limit, m) == Effect(Run(s, es, limit, m), e, limit, m)
  {
    assert (es + [e])[..|es|] == es;
  }

  /** The first j slots granted m each, or the first j done and the rest granted. */
  function GrantedTo(k: nat, j: nat, m: nat): seq<Option<nat>> { seq(k, i => if i < j then Some(m) else None) }

  function GrantedFrom(k: nat, j: nat, m: nat): seq<Option<nat>> { seq(k, i => if i < j then None else Some(m)) }

  lemma {:induction false} AllRead(k: nat, j: nat, limit: int, c: nat, m: nat)
    requires j <= k && c <= m
    ensures var s := Idle(k, limit - c);
      Legal(s, Reads(j, c), limit, m) && Run(s, Reads(j, c), limit, m) == State(limit - c, GrantedTo(k, j, c))
  {
    hide Legal, Run;
    if j > 0 {
      AllRead(k, j - 1, limit, c, m);
      assert GrantedTo(k, j - 1, c)[j - 1 := Some(c)] == GrantedTo(k, j, c);
      Extend(Idle(k, limit - c), Reads(j - 1, c), Read(j - 1, c), limit, m);
    } else {
      NothingRead(Idle(k, limit - c), limit, m);
      assert GrantedTo(k, 0, c) == Idle(k, limit - c).granted;
    }
  }

  lemma NothingRead(s: State, limit: int, m: nat)
    ensures Legal(s, [], limit, m) && Run(s, [], limit, m) == s
  {
  }

  lemma {:induction false} AllAdded(k: nat, j: nat, limit: int, c: nat, m: nat)
    requires j <= k && c <= m
    ensures var s := Idle(k, limit - c);
      Legal(s, Overrun(k, j, c), limit, m)
      && Run(s, Overrun(k, j, c), limit, m) == State(limit - c + j * c, GrantedFrom(k, j, c))
  {
    hide Legal, Run;
    if j > 0 {
      AllAdded(k, j - 1, limit, c, m);
      assert GrantedFrom(k, j - 1, c)[j - 1 := None] == GrantedFrom(k, j, c);
      Extend(Idle(k, limit - c), Overrun(k, j - 1, c), Increment(j - 1), limit, m);
      assert j * c == (j - 1) * c + c;
    } else {
      AllRead(k, k, limit, c, m);
      assert GrantedTo(k, k, c) == GrantedFrom(k, 0, c);
    }
  }

  /** No smaller bound holds: from a usage that is not negative, k callers asking
      for no more than m take the counter to exactly the bound. */
  lemma BoundIsReached(k: nat, limit: nat, m: nat)
    requires k >= 1
    ensures var c := Share(limit, m); var s := Idle(k, limit - c);
      && s.usage >= 0 && Legal(s, Overrun(k, k, c), limit, m)
      && Run(s, Overrun(k, k, c), limit, m).usage == limit + (k - 1) * c
  {
    var c := Share(limit, m);
    AllAdded(k, k, limit, c, m);
    assert k * c == (k - 1) * c + c;
  }
}
