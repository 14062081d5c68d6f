/** Minting playground keys: any number of concurrent callers, in any number of
    processes, over two tables, each running a pre-check and then a transaction whose conflict-ignoring
    insert waits for an uncommitted rival. */
module MintKey {
  import opened Options

  type User = nat
  type Caller = nat
  type Process = nat

  /** A generated key: its public id and the secret that goes with it. */
  datatype Key = Key(id: nat, secret: nat)

  datatype KeyRow = KeyRow(keyId: nat, user: User, org: nat)

  datatype LinkRow = LinkRow(user: User, key: Key)

  /** The cached organization lookup of a process. */
  datatype OrgLookup = Unasked | Asked | Known(org: nat)

  datatype Outcome = NoSession | AlreadyHad | Minted | LostRace | Failed

  datatype Stage =
    | Arrived
    | NeedsOrg
    | AwaitsOrg
    | HasOrg(org: nat)
    | KeyInserted(key: Key, org: nat)
    | LinkInserted(key: Key, org: nat)
    | Losing(key: Key, org: nat)
    | Done(outcome: Outcome)

  datatype Local = Local(process: Process, session: Option<User>, stage: Stage)

  /** Committed tables, the organization's row once it is set up, each process's
      lookup, and every caller's progress. What a transaction has written but not
      committed is in its caller's stage. */
  datatype State = State(keys: set<KeyRow>, links: set<LinkRow>, orgRow: Option<nat>, lookups: map<Process, OrgLookup>,
    callers: map<Caller, Local>)

  datatype Step =
    | SetUp(org: nat)
    | Arrive(p: Caller, process: Process, session: Option<User>)
    | PreCheck(p: Caller)
    | AskOrg(p: Caller)
    | OrgFound(process: Process)
    | OrgFailed(process: Process)
    | InsertKey(p: Caller, key: Key)
    | InsertLink(p: Caller)
    | Commit(p: Caller, acknowledged: bool)
    | GiveUp(p: Caller)
    | Abort(p: Caller)

  // ----- what the tables say -----

  predicate HasLink(links: set<LinkRow>, u: User) {
    exists l :: l in links && l.user == u
  }

  predicate HasKeyId(keys: set<KeyRow>, id: nat) {
    exists k :: k in keys && k.keyId == id
  }

  predicate InFlight(st: Stage) {
    st.KeyInserted? || st.LinkInserted? || st.Losing?
  }

  predicate At(s: State, p: Caller) { p in s.callers }

  /** Another transaction holds this key id, uncommitted. */
  predicate KeyIdHeld(s: State, p: Caller, id: nat) {
    exists q :: q in s.callers && q != p && InFlight(s.callers[q].stage) && s.callers[q].stage.key.id == id
  }

  /** Another transaction holds this user's link row, uncommitted. */
  predicate LinkHeld(s: State, p: Caller, u: User) {
    exists q :: q in s.callers && q != p && s.callers[q].stage.LinkInserted? && s.callers[q].session == Some(u)
  }

  function LookupOf(s: State, process: Process): OrgLookup {
    if process in s.lookups then s.lookups[process] else Unasked
  }

  // ----- the steps -----

  /** A lookup may fail at any time; it finds the row if there is one. A commit
      may take effect without its caller hearing of it. */
  predicate Enabled(s: State, e: Step) {
    match e
    case SetUp(_) => s.orgRow.None?
    case Arrive(p, _, _) => !At(s, p)
    case PreCheck(p) => At(s, p) && s.callers[p].stage.Arrived?
    case AskOrg(p) => At(s, p) && s.callers[p].stage.NeedsOrg?
    case OrgFound(process) => LookupOf(s, process).Asked? && s.orgRow.Some?
    case OrgFailed(process) => LookupOf(s, process).Asked?
    case InsertKey(p, key) =>
      At(s, p) && s.callers[p].stage.HasOrg? && s.callers[p].session.Some? && !KeyIdHeld(s, p, key.id)
    case InsertLink(p) =>
      At(s, p) && s.callers[p].stage.KeyInserted? && s.callers[p].session.Some?
      && !LinkHeld(s, p, s.callers[p].session.value)
    case Commit(p, _) => At(s, p) && s.callers[p].stage.LinkInserted? && s.callers[p].session.Some?
    case GiveUp(p) => At(s, p) && s.callers[p].stage.Losing?
    case Abort(p) => At(s, p) && !s.callers[p].stage.Done? && !s.callers[p].stage.AwaitsOrg?
  }

  function Move(s: State, p: Caller, st: Stage): State
    requires At(s, p)
  {
    s.(callers := s.callers[p := s.callers[p].(stage := st)])
  }

  /** A process's lookup resolves: everyone waiting for it goes on with its answer. */
  function Wake(callers: map<Caller, Local>, process: Process, st: Stage): map<Caller, Local> {
    map p | p in callers ::
      if callers[p].stage.AwaitsOrg? && callers[p].process == process then callers[p].(stage := st) else callers[p]
  }

  function Effect(s: State, e: Step): State
    requires Enabled(s, e)
  {
    match e
    case SetUp(o) => s.(orgRow := Some(o))
    case Arrive(p, process, session) => s.(callers := s.callers[p := Local(process, session, Arrived)])
    case PreCheck(p) =>
      var session := s.callers[p].session;
      if session.None? then Move(s, p, Done(NoSession))
      else if HasLink(s.links, session.value) then Move(s, p, Done(AlreadyHad))
      else Move(s, p, NeedsOrg)
    case AskOrg(p) => (
      match LookupOf(s, s.callers[p].process)
      case Known(o) => Move(s, p, HasOrg(o))
      case _ => Move(s, p, AwaitsOrg).(lookups := s.lookups[s.callers[p].process := Asked]))
    case OrgFound(process) =>
      var o := s.orgRow.value;
      s.(lookups := s.lookups[process := Known(o)], callers := Wake(s.callers, process, HasOrg(o)))
    case OrgFailed(process) =>
      s.(lookups := s.lookups[process := Unasked], callers := Wake(s.callers, process, Done(Failed)))
    case InsertKey(p, key) =>
      if HasKeyId(s.keys, key.id) then Move(s, p, Done(Failed))
      else Move(s, p, KeyInserted(key, s.callers[p].stage.org))
    case InsertLink(p) =>
      var st := s.callers[p].stage;
      if HasLink(s.links, s.callers[p].session.value) then Move(s, p, Losing(st.key, st.org))
      else Move(s, p, LinkInserted(st.key, st.org))
    case Commit(p, acknowledged) =>
      var st, u := s.callers[p].stage, s.callers[p].session.value;
      Move(s, p, Done(if acknowledged then Minted else Failed)).(
        keys := s.keys + {KeyRow(st.key.id, u, st.org)},
        links := s.links + {LinkRow(u, st.key)})
    case GiveUp(p) => Move(s, p, Done(LostRace))
    case Abort(p) => Move(s, p, Done(Failed))
  }

  predicate Init(s: State) {
    s == State({}, {}, None, map[], map[])
  }

  ghost predicate Next(s: State, t: State) {
    exists e :: Enabled(s, e) && t == Effect(s, e)
  }

  ghost predicate Behaviour(b: seq<State>) {
    && b != [] && Init(b[0])
    && (forall i :: 0 <= i < |b| - 1 ==> Next(b[i], b[i + 1]))
  }

  // ----- the invariant -----

  /** No user has two links, and no key id occurs twice. */
  ghost predicate Unique(keys: set<KeyRow>, links: set<LinkRow>) {
    && (forall l, m :: l in links && m in links && l.user == m.user ==> l == m)
    && (forall l, m :: l in links && m in links && l.key.id == m.key.id ==> l == m)
    && (forall k, m :: k in keys && m in keys && k.keyId == m.keyId ==> k == m)
  }

  ghost predicate Paired(k: KeyRow, l: LinkRow) {
    k.keyId == l.key.id && k.user == l.user
  }

  ghost predicate HasPartner(links: set<LinkRow>, k: KeyRow) { exists l :: l in links && Paired(k, l) }

  ghost predicate HasOwner(keys: set<KeyRow>, l: LinkRow) { exists k :: k in keys && Paired(k, l) }

  /** Committed keys and link rows are in one-to-one correspondence. */
  ghost predicate Bijection(keys: set<KeyRow>, links: set<LinkRow>) {
    && (forall k :: k in keys ==> HasPartner(links, k))
    && (forall l :: l in links ==> HasOwner(keys, l))
  }

  predicate Settled(st: Stage) {
    st.Losing? || (st.Done? && (st.outcome.AlreadyHad? || st.outcome.Minted? || st.outcome.LostRace?))
  }

  /** What each caller may rely on: its uncommitted key id is fresh, it holds a
      link only while none is committed, it settles only once one is, and the
      organization it read is the one set up. */
  ghost predicate CallerOk(s: State, c: Local) {
    && (InFlight(c.stage) ==> c.session.Some? && !HasKeyId(s.keys, c.stage.key.id))
    && (c.stage.LinkInserted? ==> !HasLink(s.links, c.session.value))
    && (Settled(c.stage) ==> c.session.Some? && HasLink(s.links, c.session.value))
    && (c.stage.HasOrg? || InFlight(c.stage) ==> s.orgRow == Some(c.stage.org))
  }

  /** Two transactions never share a key id, nor hold the same user's link. */
  predicate Compatible(c: Local, d: Local) {
    && (InFlight(c.stage) && InFlight(d.stage) ==> c.stage.key.id != d.stage.key.id)
    && (c.stage.LinkInserted? && d.stage.LinkInserted? ==> c.session != d.session)
  }

  /** Every key belongs to the one organization, and every process that knows an
      organization knows that one. */
  ghost predicate OneOrg(s: State) {
    && (forall k :: k in s.keys ==> s.orgRow == Some(k.org))
    && (forall x :: LookupOf(s, x).Known? ==> s.orgRow == Some(LookupOf(s, x).org))
  }

  ghost predicate Inv(s: State) {
    && Unique(s.keys, s.links) && Bijection(s.keys, s.links) && OneOrg(s)
    && (forall p :: p in s.callers ==> CallerOk(s, s.callers[p]))
    && (forall p, q :: p in s.callers && q in s.callers && p != q ==> Compatible(s.callers[p], s.callers[q]))
  }

  lemma InitInv(s: State)
    requires Init(s)
    ensures Inv(s)
  {
  }

  /** A caller may move to any stage that is right for it and clashes with nobody. */
  lemma MoveKeeps(s: State, p: Caller, st: Stage)
    requires Inv(s) && At(s, p)
    requires CallerOk(s, s.callers[p].(stage := st))
    requires forall q :: q in s.callers && q != p ==> Compatible(s.callers[q], s.callers[p].(stage := st))
    ensures Inv(Move(s, p, st))
  {
    hide Unique, Bijection, HasLink, HasKeyId;
    var t := Move(s, p, st);
    assert forall x :: LookupOf(t, x) == LookupOf(s, x);
    forall q | q in t.callers ensures CallerOk(t, t.callers[q]) {
      assert q != p ==> CallerOk(s, s.callers[q]);
    }
    forall q, r | q in t.callers && r in t.callers && q != r ensures Compatible(t.callers[q], t.callers[r]) {
      if q != p && r != p { assert Compatible(s.callers[q], s.callers[r]); }
    }
  }

  lemma SetUpStep(s: State, o: nat)
    requires Inv(s) && Enabled(s, SetUp(o))
    ensures Inv(Effect(s, SetUp(o)))
  {
    hide Unique, Bijection, HasLink, HasKeyId;
    var t := Effect(s, SetUp(o));
    forall q | q in t.callers ensures CallerOk(t, t.callers[q]) {
      assert CallerOk(s, s.callers[q]);
    }
    assert forall x :: LookupOf(t, x) == LookupOf(s, x) && !LookupOf(s, x).Known?;
  }

  lemma ArriveStep(s: State, p: Caller, process: Process, session: Option<User>)
    requires Inv(s) && Enabled(s, Arrive(p, process, session))
    ensures Inv(Effect(s, Arrive(p, process, session)))
  {
    hide Unique, Bijection, HasLink, HasKeyId;
    var t := Effect(s, Arrive(p, process, session));
    assert forall x :: LookupOf(t, x) == LookupOf(s, x);
    forall q | q in t.callers ensures CallerOk(t, t.callers[q]) {
      assert q != p ==> CallerOk(s, s.callers[q]);
    }
    forall q, r | q in t.callers && r in t.callers && q != r ensures Compatible(t.callers[q], t.callers[r]) {
      if q != p && r != p { assert Compatible(s.callers[q], s.callers[r]); }
    }
  }

  lemma WakeStep(s: State, process: Process, st: Stage, lookup: OrgLookup)
    requires Inv(s)
    requires st == Done(Failed) || (st.HasOrg? && s.orgRow == Some(st.org))
    requires lookup.Known? ==> s.orgRow == Some(lookup.org)
    ensures Inv(s.(lookups := s.lookups[process := lookup], callers := Wake(s.callers, process, st)))
  {
    hide Unique, Bijection, HasLink, HasKeyId;
    var t := s.(lookups := s.lookups[process := lookup], callers := Wake(s.callers, process, st));
    forall x | LookupOf(t, x).Known? ensures t.orgRow == Some(LookupOf(t, x).org) {
      assert x != process ==> LookupOf(t, x) == LookupOf(s, x);
    }
    forall q | q in t.callers ensures CallerOk(t, t.callers[q]) {
      assert CallerOk(s, s.callers[q]);
    }
    forall q, r | q in t.callers && r in t.callers && q != r ensures Compatible(t.callers[q], t.callers[r]) {
      assert Compatible(s.callers[q], s.callers[r]);
    }
  }

  lemma AskStep(s: State, p: Caller)
    requires Inv(s) && Enabled(s, AskOrg(p))
    ensures Inv(Effect(s, AskOrg(p)))
  {
    hide Unique, Bijection, HasLink, HasKeyId;
    var process := s.callers[p].process;
    match LookupOf(s, process)
    case Known(o) => MoveKeeps(s, p, HasOrg(o));
    case _ =>
      MoveKeeps(s, p, AwaitsOrg);
      AskedKeeps(Move(s, p, AwaitsOrg), process);
  }

  lemma AskedKeeps(s: State, process: Process)
    requires Inv(s)
    ensures Inv(s.(lookups := s.lookups[process := Asked]))
  {
    hide Unique, Bijection, HasLink, HasKeyId;
    var t := s.(lookups := s.lookups[process := Asked]);
    forall x | LookupOf(t, x).Known? ensures t.orgRow == Some(LookupOf(t, x).org) {
      assert LookupOf(t, x) == LookupOf(s, x);
    }
    forall q | q in t.callers ensures CallerOk(t, t.callers[q]) {
      assert CallerOk(s, s.callers[q]);
    }
  }

  lemma InsertKeyStep(s: State, p: Caller, key: Key)
    requires Inv(s) && Enabled(s, InsertKey(p, key))
    ensures Inv(Effect(s, InsertKey(p, key)))
  {
    hide Unique, Bijection;
    assert CallerOk(s, s.callers[p]);
    if HasKeyId(s.keys, key.id) {
      MoveKeeps(s, p, Done(Failed));
    } else {
      MoveKeeps(s, p, KeyInserted(key, s.callers[p].stage.org));
    }
  }

  lemma InsertLinkStep(s: State, p: Caller)
    requires Inv(s) && Enabled(s, InsertLink(p))
    ensures Inv(Effect(s, InsertLink(p)))
  {
    hide Unique, Bijection;
    var st := s.callers[p].stage;
    assert CallerOk(s, s.callers[p]);
    assert forall q :: q in s.callers && q != p ==> Compatible(s.callers[q], s.callers[p]);
    if HasLink(s.links, s.callers[p].session.value) {
      MoveKeeps(s, p, Losing(st.key, st.org));
    } else {
      MoveKeeps(s, p, LinkInserted(st.key, st.org));
    }
  }

  lemma NewRowsFresh(keys: set<KeyRow>, links: set<LinkRow>, k: KeyRow, l: LinkRow)
    requires Bijection(keys, links) && Paired(k, l)
    requires !HasKeyId(keys, k.keyId) && !HasLink(links, l.user)
    ensures forall m :: m in links ==> m.user != l.user && m.key.id != l.key.id
    ensures forall m :: m in keys ==> m.keyId != k.keyId
  {
    forall m | m in links ensures m.user != l.user && m.key.id != l.key.id {
      assert HasOwner(keys, m);
    }
  }

  lemma CommitUnique(keys: set<KeyRow>, links: set<LinkRow>, k: KeyRow, l: LinkRow)
    requires Unique(keys, links)
    requires forall m :: m in links ==> m.user != l.user && m.key.id != l.key.id
    requires forall m :: m in keys ==> m.keyId != k.keyId
    ensures Unique(keys + {k}, links + {l})
  {
  }

  lemma PartnerIn(links: set<LinkRow>, k: KeyRow, l: LinkRow, x: LinkRow)
    requires (x in links || x == l) && Paired(k, x)
    ensures HasPartner(links + {l}, k)
  {
    assert x in links + {l};
  }

  lemma OwnerIn(keys: set<KeyRow>, k: KeyRow, l: LinkRow, x: KeyRow)
    requires (x in keys || x == k) && Paired(x, l)
    ensures HasOwner(keys + {k}, l)
  {
    assert x in keys + {k};
  }

  lemma CommitBijection(keys: set<KeyRow>, links: set<LinkRow>, k: KeyRow, l: LinkRow)
    requires Bijection(keys, links) && Paired(k, l)
    ensures Bijection(keys + {k}, links + {l})
  {
    hide HasPartner, HasOwner;
    forall m | m in keys + {k} ensures HasPartner(links + {l}, m) {
      PartnerKept(keys, links, k, l, m);
    }
    forall m | m in links + {l} ensures HasOwner(keys + {k}, m) {
      OwnerKept(keys, links, k, l, m);
    }
  }

  lemma PartnerKept(keys: set<KeyRow>, links: set<LinkRow>, k: KeyRow, l: LinkRow, m: KeyRow)
    requires Bijection(keys, links) && Paired(k, l) && m in keys + {k}
    ensures HasPartner(links + {l}, m)
  {
    hide Paired, HasOwner;
    if m == k { PartnerIn(links, k, l, l); }
    else {
      assert HasPartner(links, m);
      var x :| x in links && Paired(m, x);
      PartnerIn(links, m, l, x);
    }
  }

  lemma OwnerKept(keys: set<KeyRow>, links: set<LinkRow>, k: KeyRow, l: LinkRow, m: LinkRow)
    requires Bijection(keys, links) && Paired(k, l) && m in links + {l}
    ensures HasOwner(keys + {k}, m)
  {
    hide Paired, HasPartner;
    if m == l { OwnerIn(keys, k, l, k); }
    else {
      assert HasOwner(keys, m);
      var x :| x in keys && Paired(x, m);
      OwnerIn(keys, k, m, x);
    }
  }

  lemma CommitHas(keys: set<KeyRow>, links: set<LinkRow>, k: KeyRow, l: LinkRow)
    ensures forall u :: HasLink(links + {l}, u) <==> HasLink(links, u) || u == l.user
    ensures forall id :: HasKeyId(keys + {k}, id) <==> HasKeyId(keys, id) || id == k.keyId
  {
    assert l in links + {l} && k in keys + {k};
    forall u ensures HasLink(links + {l}, u) <==> HasLink(links, u) || u == l.user {
      if HasLink(links, u) { var m :| m in links && m.user == u; assert m in links + {l}; }
    }
    forall id ensures HasKeyId(keys + {k}, id) <==> HasKeyId(keys, id) || id == k.keyId {
      if HasKeyId(keys, id) { var m :| m in keys && m.keyId == id; assert m in keys + {k}; }
    }
  }

  lemma CommitStep(s: State, p: Caller, acknowledged: bool)
    requires Inv(s) && Enabled(s, Commit(p, acknowledged))
    ensures Inv(Effect(s, Commit(p, acknowledged)))
  {
    var t := Effect(s, Commit(p, acknowledged));
    assert forall x :: LookupOf(t, x) == LookupOf(s, x);
    var st, u := s.callers[p].stage, s.callers[p].session.value;
    var k, l := KeyRow(st.key.id, u, st.org), LinkRow(u, st.key);
    assert CallerOk(s, s.callers[p]);
    hide Unique, Bijection, HasLink, HasKeyId;
    NewRowsFresh(s.keys, s.links, k, l);
    CommitUnique(s.keys, s.links, k, l);
    CommitBijection(s.keys, s.links, k, l);
    CommitHas(s.keys, s.links, k, l);
    forall q | q in t.callers ensures CallerOk(t, t.callers[q]) {
      if q != p {
        assert CallerOk(s, s.callers[q]) && Compatible(s.callers[p], s.callers[q]);
      }
    }
    forall q, r | q in t.callers && r in t.callers && q != r ensures Compatible(t.callers[q], t.callers[r]) {
      if q != p && r != p { assert Compatible(s.callers[q], s.callers[r]); }
    }
  }

  lemma PreCheckStep(s: State, p: Caller)
    requires Inv(s) && Enabled(s, PreCheck(p))
    ensures Inv(Effect(s, PreCheck(p)))
  {
    hide Unique, Bijection, HasLink, HasKeyId, Inv;
    var session := s.callers[p].session;
    if session.None? { MoveKeeps(s, p, Done(NoSession)); }
    else if HasLink(s.links, session.value) { MoveKeeps(s, p, Done(AlreadyHad)); }
    else { MoveKeeps(s, p, NeedsOrg); }
  }

  lemma NextInv(s: State, t: State)
    requires Inv(s) && Next(s, t)
    ensures Inv(t)
  {
    hide Unique, Bijection, HasLink, HasKeyId, Compatible, OneOrg;
    var e :| Enabled(s, e) && t == Effect(s, e);
    match e
    case SetUp(o) => SetUpStep(s, o);
    case Arrive(p, process, session) => ArriveStep(s, p, process, session);
    case PreCheck(p) => PreCheckStep(s, p);
    case AskOrg(p) => AskStep(s, p);
    case OrgFound(process) => WakeStep(s, process, HasOrg(s.orgRow.value), Known(s.orgRow.value));
    case OrgFailed(process) => WakeStep(s, process, Done(Failed), Unasked);
    case InsertKey(p, key) => InsertKeyStep(s, p, key);
    case InsertLink(p) => InsertLinkStep(s, p);
    case Commit(p, acknowledged) => CommitStep(s, p, acknowledged);
    case GiveUp(p) => QuitStep(s, p, LostRace);
    case Abort(p) => QuitStep(s, p, Failed);
  }

  lemma QuitStep(s: State, p: Caller, o: Outcome)
    requires Inv(s) && At(s, p) && (o.Failed? || (o.LostRace? && s.callers[p].stage.Losing?))
    ensures Inv(Move(s, p, Done(o)))
  {
    hide Unique, Bijection, HasLink, HasKeyId;
    assert CallerOk(s, s.callers[p]);
    MoveKeeps(s, p, Done(o));
  }

  /** In every interleaving, at every moment: at most one link per user, keys
      and links in bijection, one organization, and every caller that returned
      normally has left its user with a key. */
  lemma {:induction false} AlwaysInv(b: seq<State>, i: nat)
    requires Behaviour(b) && i < |b|
    ensures Inv(b[i])
  {
    hide Inv, Next, Init;
    if i == 0 {
      InitInv(b[0]);
    } else {
      AlwaysInv(b, i - 1);
      assert Next(b[i - 1], b[i - 1 + 1]);
      NextInv(b[i - 1], b[i]);
    }
  }

  // ----- the lookup -----

  /** The proxy's lookup of a user's secret. */
  ghost function GetUserApiKey(s: State, u: User): Option<nat> {
    if HasLink(s.links, u) then var l :| l in s.links && l.user == u; Some(l.key.secret) else None
  }

  lemma LinksGrow(s: State, t: State)
    requires Next(s, t)
    ensures s.links <= t.links && s.keys <= t.keys
  {
  }

  lemma {:induction false} LinksGrowAlways(b: seq<State>, i: nat, j: nat)
    requires Behaviour(b) && i <= j < |b|
    ensures b[i].links <= b[j].links && b[i].keys <= b[j].keys
  {
    hide Next;
    if i < j {
      LinksGrowAlways(b, i, j - 1);
      assert Next(b[j - 1], b[j - 1 + 1]);
      LinksGrow(b[j - 1], b[j]);
    }
  }

  /** Once the lookup has returned a key for a user it returns that key forever. */
  lemma LookupIsStable(b: seq<State>, i: nat, j: nat, u: User)
    requires Behaviour(b) && i <= j < |b| && GetUserApiKey(b[i], u).Some?
    ensures GetUserApiKey(b[j], u) == GetUserApiKey(b[i], u)
  {
    hide Next, Behaviour, Bijection, CallerOk, OneOrg;
    AlwaysInv(b, j);
    LinksGrowAlways(b, i, j);
    var l :| l in b[i].links && l.user == u;
    assert l in b[j].links;
  }

  /** A caller that returns normally with a session can be served. */
  lemma ReturnedMeansServed(b: seq<State>, i: nat, p: Caller, u: User)
    requires Behaviour(b) && i < |b| && p in b[i].callers
    requires b[i].callers[p].session == Some(u) && b[i].callers[p].stage.Done?
    ensures b[i].callers[p].stage.outcome.Failed? || b[i].callers[p].stage.outcome.NoSession?
            || GetUserApiKey(b[i], u).Some?
  {
    hide Next, Behaviour, Bijection, Unique, OneOrg;
    AlwaysInv(b, i);
    assert CallerOk(b[i], b[i].callers[p]);
  }

  /** Two callers racing for one user can both get past the pre-check, yet once
      one has committed, heard of or not, the other can only lose or fail. */
  lemma SecondMintCannotCommit(s: State, p: Caller, u: User, acknowledged: bool)
    requires Inv(s) && HasLink(s.links, u) && p in s.callers && s.callers[p].session == Some(u)
    ensures !Enabled(s, Commit(p, acknowledged))
  {
  }

  // ----- the secret that is served -----

  /** A behaviour together with the step taken at each moment. */
  ghost predicate Stepped(b: seq<State>, es: seq<Step>) {
    && |b| == |es| + 1 && Init(b[0])
    && forall i :: 0 <= i < |es| ==> Took(b[i], es[i], b[i + 1])
  }

  ghost predicate Took(s: State, e: Step, t: State) { Enabled(s, e) && t == Effect(s, e) }

  lemma SteppedIsBehaviour(b: seq<State>, es: seq<Step>)
    requires Stepped(b, es)
    ensures Behaviour(b)
  {
    forall i | 0 <= i < |b| - 1 ensures Next(b[i], b[i + 1]) { assert Took(b[i], es[i], b[i + 1]); }
  }

  /** Every behaviour took some steps. */
  lemma {:induction false} BehaviourTakesSteps(b: seq<State>) returns (es: seq<Step>)
    requires Behaviour(b)
    ensures Stepped(b, es)
  {
    hide Enabled, Effect;
    if |b| == 1 {
      es := [];
    } else {
      var n := |b| - 1;
      assert Next(b[n - 1], b[n - 1 + 1]);
      var e :| Enabled(b[n - 1], e) && b[n] == Effect(b[n - 1], e);
      forall i | 0 <= i < |b[..n]| - 1 ensures Next(b[..n][i], b[..n][i + 1]) { assert Next(b[i], b[i + 1]); }
      var front := BehaviourTakesSteps(b[..n]);
      es := front + [e];
      forall i | 0 <= i < |es| ensures Took(b[i], es[i], b[i + 1]) {
        if i < |front| { assert Took(b[..n][i], front[i], b[..n][i + 1]); }
      }
    }
  }

  predicate InSession(s: State, p: Caller, u: User) { p in s.callers && s.callers[p].session == Some(u) }

  /** Before moment i a caller in a session of u inserted k. */
  ghost predicate GivenTo(b: seq<State>, es: seq<Step>, i: nat, u: User, k: Key) {
    exists j, p :: 0 <= j < i && j < |es| && j < |b| && es[j] == InsertKey(p, k) && InSession(b[j], p, u)
  }

  lemma GivenLater(b: seq<State>, es: seq<Step>, i: nat, u: User, k: Key)
    requires GivenTo(b, es, i, u, k)
    ensures GivenTo(b, es, i + 1, u, k)
  {
    var j, p :| 0 <= j < i && j < |es| && j < |b| && es[j] == InsertKey(p, k) && InSession(b[j], p, u);
    assert es[j] == InsertKey(p, k) && InSession(b[j], p, u);
  }

  ghost predicate Provenance(b: seq<State>, es: seq<Step>, i: nat)
    requires i < |b|
  {
    && (forall l :: l in b[i].links ==> GivenTo(b, es, i, l.user, l.key))
    && (forall p :: p in b[i].callers && InFlight(b[i].callers[p].stage) ==> CarriesGiven(b, es, i, b[i].callers[p]))
  }

  ghost predicate CarriesGiven(b: seq<State>, es: seq<Step>, i: nat, c: Local)
    requires InFlight(c.stage)
  {
    c.session.Some? && GivenTo(b, es, i, c.session.value, c.stage.key)
  }

  /** A caller holds a key in flight after a step because it held it before or was
      given it in this very step. */
  lemma InFlightFrom(s: State, e: Step, p: Caller)
    requires Enabled(s, e) && p in Effect(s, e).callers && InFlight(Effect(s, e).callers[p].stage)
    ensures var c := Effect(s, e).callers[p];
      && p in s.callers && s.callers[p].session == c.session
      && (e == InsertKey(p, c.stage.key) || (InFlight(s.callers[p].stage) && s.callers[p].stage.key == c.stage.key))
  {
    hide HasLink, HasKeyId, KeyIdHeld, LinkHeld;
  }

  /** A link row is new after a step because its caller, who held the key, committed. */
  lemma LinkFrom(s: State, e: Step, l: LinkRow)
    requires Enabled(s, e) && l in Effect(s, e).links && l !in s.links
    ensures e.Commit? && e.p in s.callers && InFlight(s.callers[e.p].stage)
      && s.callers[e.p].session == Some(l.user) && s.callers[e.p].stage.key == l.key
  {
    hide HasLink, HasKeyId, KeyIdHeld, LinkHeld;
  }

  lemma ProvenanceStep(b: seq<State>, es: seq<Step>, i: nat)
    requires Stepped(b, es) && i < |es| && Provenance(b, es, i)
    ensures Provenance(b, es, i + 1)
  {
    hide Effect, Enabled, GivenTo;
    var s, e, t := b[i], es[i], b[i + 1];
    assert Took(s, e, t);
    forall p | p in t.callers && InFlight(t.callers[p].stage) ensures CarriesGiven(b, es, i + 1, t.callers[p]) {
      InFlightFrom(s, e, p);
      var c := t.callers[p];
      if e == InsertKey(p, c.stage.key) {
        InsertedNow(b, es, i, p, c.stage.key);
      } else {
        assert CarriesGiven(b, es, i, s.callers[p]);
        GivenLater(b, es, i, c.session.value, c.stage.key);
      }
    }
    forall l | l in t.links ensures GivenTo(b, es, i + 1, l.user, l.key) {
      if l !in s.links {
        LinkFrom(s, e, l);
        assert CarriesGiven(b, es, i, s.callers[e.p]);
      }
      GivenLater(b, es, i, l.user, l.key);
    }
  }

  lemma InsertedNow(b: seq<State>, es: seq<Step>, i: nat, p: Caller, k: Key)
    requires Stepped(b, es) && i < |es| && es[i] == InsertKey(p, k)
    ensures p in b[i].callers && b[i].callers[p].session.Some?
    ensures GivenTo(b, es, i + 1, b[i].callers[p].session.value, k)
  {
    assert Took(b[i], es[i], b[i + 1]);
    assert InSession(b[i], p, b[i].callers[p].session.value);
  }

  lemma {:induction false} ProvenanceAlways(b: seq<State>, es: seq<Step>, i: nat)
    requires Stepped(b, es) && i < |b|
    ensures Provenance(b, es, i)
  {
    hide Provenance, Stepped;
    if i == 0 {
      StartsEmpty(b, es);
    } else {
      ProvenanceAlways(b, es, i - 1);
      assert i - 1 < |es| by { LengthOf(b, es); }
      ProvenanceStep(b, es, i - 1);
    }
  }

  lemma LengthOf(b: seq<State>, es: seq<Step>)
    requires Stepped(b, es)
    ensures |b| == |es| + 1
  {
  }

  lemma StartsEmpty(b: seq<State>, es: seq<Step>)
    requires Stepped(b, es)
    ensures Provenance(b, es, 0)
  {
  }

  /** Whatever key is stored for a user, id and secret, is one that a caller in that
      user's session inserted earlier. */
  lemma StoredKeyWasGiven(b: seq<State>, es: seq<Step>, i: nat, l: LinkRow)
    requires Stepped(b, es) && i < |b| && l in b[i].links
    ensures GivenTo(b, es, i, l.user, l.key)
  {
    hide Stepped, GivenTo;
    ProvenanceAlways(b, es, i);
  }

  /** So the lookup serves only secrets that were minted for this user. */
  lemma ServedSecretWasMinted(b: seq<State>, es: seq<Step>, i: nat, u: User) returns (k: Key)
    requires Stepped(b, es) && i < |b| && GetUserApiKey(b[i], u).Some?
    ensures GetUserApiKey(b[i], u) == Some(k.secret) && GivenTo(b, es, i, u, k)
  {
    hide Stepped, GivenTo;
    var l :| l in b[i].links && l.user == u && l.key.secret == GetUserApiKey(b[i], u).value;
    k := l.key;
    StoredKeyWasGiven(b, es, i, l);
  }

  /** What has become of caller p since it inserted k. */
  predicate Holding(s: State, p: Caller, u: User, k: Key) {
    InSession(s, p, u) && (s.callers[p].stage.Done? || (InFlight(s.callers[p].stage) && s.callers[p].stage.key == k))
  }

  lemma HoldingStep(s: State, e: Step, p: Caller, u: User, k: Key)
    requires Enabled(s, e) && Holding(s, p, u, k)
    ensures Holding(Effect(s, e), p, u, k)
  {
    hide HasLink, HasKeyId, KeyIdHeld, LinkHeld;
  }

  lemma InsertHolds(s: State, p: Caller, u: User, k: Key)
    requires Enabled(s, InsertKey(p, k)) && InSession(s, p, u)
    ensures Holding(Effect(s, InsertKey(p, k)), p, u, k)
  {
    hide HasLink, HasKeyId, KeyIdHeld, LinkHeld;
  }

  lemma {:induction false} HoldingAlways(b: seq<State>, es: seq<Step>, j: nat, m: nat, p: Caller, u: User, k: Key)
    requires Stepped(b, es) && j < m < |b| && es[j] == InsertKey(p, k) && InSession(b[j], p, u)
    ensures Holding(b[m], p, u, k)
  {
    hide Enabled, Effect, Holding;
    assert Took(b[m - 1], es[m - 1], b[m - 1 + 1]);
    if m - 1 == j {
      InsertHolds(b[j], p, u, k);
    } else {
      HoldingAlways(b, es, j, m - 1, p, u, k);
      HoldingStep(b[m - 1], es[m - 1], p, u, k);
    }
  }

  lemma CommitStores(s: State, p: Caller, acknowledged: bool, u: User, k: Key)
    requires Enabled(s, Commit(p, acknowledged)) && Holding(s, p, u, k)
    ensures LinkRow(u, k) in Effect(s, Commit(p, acknowledged)).links
  {
  }

  /** Once a caller that inserted k for user u commits, heard of or not, the lookup
      serves the secret of k to u at every later moment. */
  lemma CommittedSecretIsServed(b: seq<State>, es: seq<Step>, j: nat, m: nat, i: nat, p: Caller, acknowledged: bool, u: User, k: Key)
    requires Stepped(b, es) && j < m < i < |b|
    requires es[j] == InsertKey(p, k) && InSession(b[j], p, u) && es[m] == Commit(p, acknowledged)
    ensures GetUserApiKey(b[i], u) == Some(k.secret)
  {
    hide Enabled, Effect, Holding, Behaviour, Bijection, CallerOk, OneOrg, Compatible;
    SteppedIsBehaviour(b, es);
    HoldingAlways(b, es, j, m, p, u, k);
    assert Took(b[m], es[m], b[m + 1]);
    CommitStores(b[m], p, acknowledged, u, k);
    LinksGrowAlways(b, m + 1, i);
    AlwaysInv(b, i);
    assert LinkRow(u, k) in b[i].links;
  }

  // ----- a mint can succeed -----

  ghost predicate Runs(s: State, es: seq<Step>, t: State)
    decreases |es|
  {
    if es == [] then t == s else Enabled(s, es[0]) && Runs(Effect(s, es[0]), es[1..], t)
  }

  /** The steps of a caller that arrives and meets nobody. */
  function Script(p: Caller, process: Process, u: User, k: Key, known: bool): seq<Step> {
    [Arrive(p, process, Some(u)), PreCheck(p), AskOrg(p)] + (if known then [] else [OrgFound(process)])
    + [InsertKey(p, k), InsertLink(p), Commit(p, true)]
  }

  lemma RunsStep(s: State, e: Step, es: seq<Step>, t: State)
    requires Enabled(s, e) && Runs(Effect(s, e), es, t)
    ensures Runs(s, [e] + es, t)
  {
    assert ([e] + es)[1..] == es;
  }

  lemma LastSteps(s: State, p: Caller, u: User, k: Key, o: nat) returns (t: State)
    requires InSession(s, p, u) && s.callers[p].stage == HasOrg(o)
    requires !HasLink(s.links, u) && !LinkHeld(s, p, u) && !HasKeyId(s.keys, k.id) && !KeyIdHeld(s, p, k.id)
    ensures Runs(s, [InsertKey(p, k), InsertLink(p), Commit(p, true)], t)
    ensures InSession(t, p, u) && t.callers[p].stage == Done(Minted) && LinkRow(u, k) in t.links
    ensures t.links == s.links + {LinkRow(u, k)} && t.keys == s.keys + {KeyRow(k.id, u, o)}
  {
    hide HasLink, HasKeyId;
    var s1 := Effect(s, InsertKey(p, k));
    assert !LinkHeld(s1, p, u);
    var s2 := Effect(s1, InsertLink(p));
    t := Effect(s2, Commit(p, true));
    RunsStep(s2, Commit(p, true), [], t);
    RunsStep(s1, InsertLink(p), [Commit(p, true)], t);
    RunsStep(s, InsertKey(p, k), [InsertLink(p), Commit(p, true)], t);
    assert [InsertLink(p)] + [Commit(p, true)] == [InsertLink(p), Commit(p, true)];
    assert [InsertKey(p, k)] + [InsertLink(p), Commit(p, true)] == [InsertKey(p, k), InsertLink(p), Commit(p, true)];
    assert [Commit(p, true)] + [] == [Commit(p, true)];
  }

  /** Nobody else is about to store a link for u, and k's id is nowhere in use. */
  predicate Unrivalled(s: State, p: Caller, u: User, k: Key) {
    !HasLink(s.links, u) && !LinkHeld(s, p, u) && !HasKeyId(s.keys, k.id) && !KeyIdHeld(s, p, k.id)
  }

  /** What others hold is not touched by steps that store and insert nothing. */
  lemma StaysUnrivalled(s: State, t: State, p: Caller, u: User, k: Key)
    requires Unrivalled(s, p, u, k) && t.links == s.links && t.keys == s.keys
    requires forall q :: q in t.callers && q != p && InFlight(t.callers[q].stage) ==> q in s.callers && t.callers[q] == s.callers[q]
    ensures Unrivalled(t, p, u, k)
  {
  }

  /** The lookup of the organization, first caller of its process or not. */
  lemma OrgSteps(s: State, p: Caller, process: Process, u: User, k: Key) returns (es: seq<Step>, t: State)
    requires InSession(s, p, u) && s.callers[p].stage.NeedsOrg? && s.callers[p].process == process
    requires s.orgRow.Some? && Unrivalled(s, p, u, k)
    requires LookupOf(s, process).Known? ==> s.orgRow == Some(LookupOf(s, process).org)
    ensures es == [AskOrg(p)] + (if LookupOf(s, process).Known? then [] else [OrgFound(process)])
    ensures Runs(s, es, t) && Unrivalled(t, p, u, k)
    ensures InSession(t, p, u) && t.callers[p].stage == HasOrg(s.orgRow.value) && t.links == s.links && t.keys == s.keys
  {
    hide HasLink, HasKeyId, Unrivalled;
    var s1 := Effect(s, AskOrg(p));
    if LookupOf(s, process).Known? {
      es, t := [AskOrg(p)], s1;
      assert [AskOrg(p)] + [] == [AskOrg(p)];
      RunsStep(s, AskOrg(p), [], t);
    } else {
      es, t := [AskOrg(p)] + [OrgFound(process)], Effect(s1, OrgFound(process));
      assert [OrgFound(process)] + [] == [OrgFound(process)];
      RunsStep(s1, OrgFound(process), [], t);
      RunsStep(s, AskOrg(p), [OrgFound(process)], t);
    }
    StaysUnrivalled(s, t, p, u, k);
  }

  lemma {:induction false} RunsJoin(s: State, es: seq<Step>, m: State, fs: seq<Step>, t: State)
    requires Runs(s, es, m) && Runs(m, fs, t)
    ensures Runs(s, es + fs, t)
    decreases |es|
  {
    hide Enabled, Effect;
    if es == [] {
      assert es + fs == fs;
    } else {
      assert (es + fs)[1..] == es[1..] + fs;
      RunsJoin(Effect(s, es[0]), es[1..], m, fs, t);
    }
  }

  lemma FirstSteps(s: State, p: Caller, process: Process, u: User, k: Key) returns (t: State)
    requires !At(s, p) && Unrivalled(s, p, u, k)
    ensures Runs(s, [Arrive(p, process, Some(u)), PreCheck(p)], t) && Unrivalled(t, p, u, k)
    ensures t == s.(callers := s.callers[p := Local(process, Some(u), NeedsOrg)])
  {
    hide HasKeyId, KeyIdHeld, LinkHeld;
    var s1 := Effect(s, Arrive(p, process, Some(u)));
    t := Effect(s1, PreCheck(p));
    assert t.callers == s.callers[p := Local(process, Some(u), NeedsOrg)];
    assert [PreCheck(p)] + [] == [PreCheck(p)];
    RunsStep(s1, PreCheck(p), [], t);
    RunsStep(s, Arrive(p, process, Some(u)), [PreCheck(p)], t);
    assert [Arrive(p, process, Some(u))] + [PreCheck(p)] == [Arrive(p, process, Some(u)), PreCheck(p)];
    assert Unrivalled(t, p, u, k) by { StaysUnrivalled(s, t, p, u, k); }
  }

  /** From any reachable state in which the organization is set up, a user without a
      link and without a rival can be given a key: a new caller's own steps, with its
      process's lookup, end in a mint, and then its secret is served. */
  lemma MintCanSucceed(s: State, p: Caller, process: Process, u: User, k: Key) returns (t: State)
    requires Inv(s) && s.orgRow.Some? && p !in s.callers
    requires (forall l :: l in s.links ==> l.user != u) && (forall r :: r in s.keys ==> r.keyId != k.id)
    requires forall q :: q in s.callers && s.callers[q].stage.LinkInserted? ==> s.callers[q].session != Some(u)
    requires forall q :: q in s.callers && InFlight(s.callers[q].stage) ==> s.callers[q].stage.key.id != k.id
    ensures Runs(s, Script(p, process, u, k, LookupOf(s, process).Known?), t)
    ensures InSession(t, p, u) && t.callers[p].stage == Done(Minted) && GetUserApiKey(t, u) == Some(k.secret)
    ensures t.links == s.links + {LinkRow(u, k)}
  {
    assert Unrivalled(s, p, u, k);
    hide Runs, Enabled, Effect, HasKeyId, KeyIdHeld, LinkHeld, Unique, Bijection, CallerOk, Compatible, Unrivalled;
    var known := LookupOf(s, process).Known?;
    var s1 := FirstSteps(s, p, process, u, k);
    assert LookupOf(s1, process) == LookupOf(s, process);
    var es, s2 := OrgSteps(s1, p, process, u, k);
    assert !HasLink(s2.links, u) && !LinkHeld(s2, p, u) && !HasKeyId(s2.keys, k.id) && !KeyIdHeld(s2, p, k.id) by {
      Spelled(s2, p, u, k);
    }
    t := LastSteps(s2, p, u, k, s.orgRow.value);
    var arrival, ending := [Arrive(p, process, Some(u)), PreCheck(p)], [InsertKey(p, k), InsertLink(p), Commit(p, true)];
    RunsJoin(s, arrival, s1, es, s2);
    RunsJoin(s, arrival + es, s2, ending, t);
    assert arrival + es + ending == Script(p, process, u, k, known);
    OnlyLink(s.links, u, LinkRow(u, k));
  }

  lemma Spelled(s: State, p: Caller, u: User, k: Key)
    requires Unrivalled(s, p, u, k)
    ensures !HasLink(s.links, u) && !LinkHeld(s, p, u) && !HasKeyId(s.keys, k.id) && !KeyIdHeld(s, p, k.id)
  {
  }

  lemma OnlyLink(links: set<LinkRow>, u: User, l: LinkRow)
    requires !HasLink(links, u) && l.user == u
    ensures HasLink(links + {l}, u) && forall m :: m in links + {l} && m.user == u ==> m == l
  {
    assert l in links + {l};
  }

  /** Every system can come to this: from empty tables, once the organization is set up,
      the first caller for a user is served. */
  lemma FirstMint(o: nat, p: Caller, process: Process, u: User, k: Key) returns (t: State)
    ensures var start := State({}, {}, None, map[], map[]);
      Init(start) && Runs(start, [SetUp(o)] + Script(p, process, u, k, false), t)
    ensures GetUserApiKey(t, u) == Some(k.secret) && t.links == {LinkRow(u, k)}
  {
    hide Runs, Inv, GetUserApiKey;
    var start := State({}, {}, None, map[], map[]);
    InitInv(start);
    SetUpStep(start, o);
    var s := Effect(start, SetUp(o));
    assert LookupOf(s, process) == Unasked;
    t := MintCanSucceed(s, p, process, u, k);
    RunsStep(start, SetUp(o), Script(p, process, u, k, false), t);
    assert s.links + {LinkRow(u, k)} == {LinkRow(u, k)};
  }

  /** A caller is held up only by a rival's uncommitted row: the same key id, or a link
      for the same user. */
  lemma WaitsForRivals(s: State, p: Caller, u: User, key: Key)
    requires InSession(s, p, u)
    ensures s.callers[p].stage.HasOrg? ==>
      (Enabled(s, InsertKey(p, key)) <==>
        forall q :: q in s.callers && q != p && InFlight(s.callers[q].stage) ==> s.callers[q].stage.key.id != key.id)
    ensures s.callers[p].stage.KeyInserted? ==>
      (Enabled(s, InsertLink(p)) <==>
        forall q :: q in s.callers && q != p && s.callers[q].stage.LinkInserted? ==> s.callers[q].session != Some(u))
    ensures s.callers[p].stage.LinkInserted? ==> Enabled(s, Commit(p, true)) && Enabled(s, Commit(p, false))
  {
  }
}
