/**
  The stores behind masking detection: the cache's expiring windows, cooldowns
  and blacklist, and the call and alert tables.  Every operation is a function
  on them; a call and the alert it raises are both named by the number of the
  registration, which makes their identifiers fresh.
*/
module DetectionStores {
  import opened Basics
  import opened ExpiringSets

  type Msisdn = string
  type Ip = string

  datatype Config = Config(window: int, threshold: int, cooldown: int)

  predicate ValidConfig(cfg: Config) {
    cfg.window >= 1 && cfg.threshold >= 1 && cfg.cooldown >= 1
  }

  datatype Cache = Cache(
    windows: map<Msisdn, TtlSet<Msisdn>>,
    cooldowns: map<Msisdn, int>,
    blacklist: map<Ip, Option<int>>)

  datatype CallRow = CallRow(a: Msisdn, b: Msisdn, ip: Ip, at: int, flagged: bool, alertId: Option<nat>)

  datatype AlertRow = AlertRow(
    b: Msisdn,
    aNumbers: set<Msisdn>,
    callIds: set<nat>,
    sourceIp: Ip,
    score: real,
    windowStart: int,
    windowEnd: int)

  datatype Tables = Tables(calls: map<nat, CallRow>, alerts: map<nat, AlertRow>)

  datatype Store = Store(cache: Cache, tables: Tables)

  const EMPTY: Store := Store(Cache(map[], map[], map[]), Tables(map[], map[]))

  function Window(c: Cache, b: Msisdn): Option<TtlSet<Msisdn>> {
    if b in c.windows then Some(c.windows[b]) else None
  }

  function AddCaller(c: Cache, b: Msisdn, a: Msisdn, now: int, ttl: int): Cache {
    c.(windows := c.windows[b := AddTo(Window(c, b), a, now, ttl)])
  }

  function Callers(c: Cache, b: Msisdn, now: int): set<Msisdn> {
    Live(Window(c, b), now)
  }

  predicate InCooldown(c: Cache, b: Msisdn, now: int) {
    b in c.cooldowns && now < c.cooldowns[b]
  }

  function SetCooldown(c: Cache, b: Msisdn, now: int, seconds: int): Cache {
    c.(cooldowns := c.cooldowns[b := now + seconds])
  }

  predicate Blacklisted(c: Cache, ip: Ip, now: int) {
    ip in c.blacklist && (c.blacklist[ip].Some? ==> now < c.blacklist[ip].value)
  }

  function AddToBlacklist(c: Cache, ip: Ip, now: int, ttl: Option<int>): Cache {
    c.(blacklist := c.blacklist[ip := if ttl.Some? then Some(now + ttl.value) else None])
  }

  /** An insert, or on a known id an update of the status columns only. */
  function SaveCall(t: Tables, id: nat, row: CallRow): Tables {
    t.(calls := t.calls[id := if id in t.calls
                              then t.calls[id].(flagged := row.flagged, alertId := row.alertId)
                              else row])
  }

  function CallsInWindow(t: Tables, b: Msisdn, from: int, to: int): set<nat> {
    set c | c in t.calls && t.calls[c].b == b && from <= t.calls[c].at <= to && !t.calls[c].flagged
  }

  /** Saving an alert again renews its callers and calls and leaves the rest of its row. */
  function SaveAlert(t: Tables, id: nat, row: AlertRow): Tables {
    t.(alerts := t.alerts[id :=
         if id in t.alerts then t.alerts[id].(aNumbers := row.aNumbers, callIds := row.callIds) else row])
  }

  function FlagAsFraud(t: Tables, ids: set<nat>, alert: nat): Tables {
    t.(calls := map c | c in t.calls ::
         if c in ids then t.calls[c].(flagged := true, alertId := Some(alert)) else t.calls[c])
  }

  function CleanupOldCalls(t: Tables, before: int): Tables {
    t.(calls := map c | c in t.calls && (t.calls[c].flagged || t.calls[c].at >= before) :: t.calls[c])
  }

  function Score(callers: nat, threshold: int): real
    requires threshold >= 1
  {
    var ratio := callers as real / threshold as real;
    if ratio < 1.0 then ratio else 1.0
  }

  /** The score is the callers' share of the threshold, and full from the threshold on. */
  lemma ScoreIsShare(n: nat, threshold: int)
    requires threshold >= 1
    ensures n >= threshold ==> Score(n, threshold) == 1.0
    ensures n < threshold ==> Score(n, threshold) < 1.0 && Score(n, threshold) * threshold as real == n as real
  {
    var ratio := n as real / threshold as real;
    assert ratio * threshold as real == n as real;
    if n >= threshold {
      assert ratio >= 1.0;
    } else {
      assert ratio < 1.0;
    }
  }
}

/**
  One registration, operation by operation.  Every operation may be its last:
  an early exit or a crash is a registration that does not advance any more.
*/
module RegistrationSteps {
  import opened Basics
  import opened DetectionStores

  datatype Registration = Registration(a: Msisdn, b: Msisdn, ip: Ip, at: int)

  datatype Status = Blocked | Processed | Cooldown | Alerted

  datatype Reply = Reply(status: Status, distinctCallers: nat)

  /** What the registration knows before its next operation. */
  datatype Phase =
    | Ready
    | Screened
    | Added
    | Counted(n: nat)
    | Suspect(n: nat)
    | Alarming(n: nat)
    | GotCallers(n: nat, aNumbers: set<Msisdn>, to: int)
    | GotCalls(n: nat, aNumbers: set<Msisdn>, to: int, ids: set<nat>)
    | AlertSaved(n: nat, ids: set<nat>)
    | Flagged(n: nat)
    | Done(reply: Reply)

  function NewRow(r: Registration): CallRow {
    CallRow(r.a, r.b, r.ip, r.at, false, None)
  }

  /** The row tells of this registration. */
  predicate SameCall(row: CallRow, r: Registration) {
    row.a == r.a && row.b == r.b && row.ip == r.ip && row.at == r.at
  }

  function NewAlert(cfg: Config, r: Registration, n: nat, aNumbers: set<Msisdn>, to: int, ids: set<nat>): AlertRow
    requires ValidConfig(cfg)
  {
    AlertRow(r.b, aNumbers, ids, r.ip, Score(n, cfg.threshold), to - cfg.window, to)
  }

  /** The next operation of registration `id`, with its clock reading. */
  function Advance(cfg: Config, s: Store, id: nat, r: Registration, phase: Phase, now: int): (Store, Phase)
    requires ValidConfig(cfg)
  {
    match phase
    case Ready =>
      (s, if Blacklisted(s.cache, r.ip, now) then Done(Reply(Blocked, 0)) else Screened)
    case Screened =>
      (s.(cache := AddCaller(s.cache, r.b, r.a, now, cfg.window)), Added)
    case Added =>
      (s, Counted(|Callers(s.cache, r.b, now)|))
    case Counted(n) =>
      (s.(tables := SaveCall(s.tables, id, NewRow(r))),
       if n >= cfg.threshold then Suspect(n) else Done(Reply(Processed, n)))
    case Suspect(n) =>
      (s, if InCooldown(s.cache, r.b, now) then Done(Reply(Cooldown, n)) else Alarming(n))
    case Alarming(n) =>
      (s, GotCallers(n, Callers(s.cache, r.b, now), now))
    case GotCallers(n, aNumbers, to) =>
      (s, GotCalls(n, aNumbers, to, CallsInWindow(s.tables, r.b, to - cfg.window, to)))
    case GotCalls(n, aNumbers, to, ids) =>
      (s.(tables := SaveAlert(s.tables, id, NewAlert(cfg, r, n, aNumbers, to, ids))), AlertSaved(n, ids))
    case AlertSaved(n, ids) =>
      (s.(tables := FlagAsFraud(s.tables, ids, id)), Flagged(n))
    case Flagged(n) =>
      (s.(cache := SetCooldown(s.cache, r.b, now, cfg.cooldown)), Done(Reply(Alerted, n)))
    case Done(_) =>
      (s, phase)
  }

  /** Up to `k` operations of one registration with nothing in between, on one clock reading. */
  function Exec(cfg: Config, s: Store, id: nat, r: Registration, phase: Phase, k: nat): (Store, Phase)
    requires ValidConfig(cfg)
    decreases k
  {
    if k == 0 || phase.Done? then (s, phase) else
      var (s', phase') := Advance(cfg, s, id, r, phase, r.at);
      Exec(cfg, s', id, r, phase', k - 1)
  }

  /** What raising an alert writes: the alert, then the flags of the calls it found. */
  function RaiseAlert(cfg: Config, t: Tables, id: nat, r: Registration, callers: set<Msisdn>): Tables
    requires ValidConfig(cfg)
  {
    var ids := CallsInWindow(t, r.b, r.at - cfg.window, r.at);
    FlagAsFraud(SaveAlert(t, id, NewAlert(cfg, r, |callers|, callers, r.at, ids)), ids, id)
  }

  lemma ExecStep(cfg: Config, s: Store, id: nat, r: Registration, phase: Phase, k: nat)
    requires ValidConfig(cfg) && k > 0 && !phase.Done?
    ensures var (s', phase') := Advance(cfg, s, id, r, phase, r.at);
      Exec(cfg, s, id, r, phase, k) == Exec(cfg, s', id, r, phase', k - 1)
  {
  }

  /** A whole registration in one formula. */
  function Registered(cfg: Config, s: Store, id: nat, r: Registration): (Store, Reply)
    requires ValidConfig(cfg)
  {
    if Blacklisted(s.cache, r.ip, r.at) then (s, Reply(Blocked, 0)) else
      var cache := AddCaller(s.cache, r.b, r.a, r.at, cfg.window);
      var callers := Callers(cache, r.b, r.at);
      var n := |callers|;
      var tables := SaveCall(s.tables, id, NewRow(r));
      if n < cfg.threshold then (Store(cache, tables), Reply(Processed, n))
      else if InCooldown(cache, r.b, r.at) then (Store(cache, tables), Reply(Cooldown, n))
      else
        (Store(SetCooldown(cache, r.b, r.at, cfg.cooldown), RaiseAlert(cfg, tables, id, r, callers)), Reply(Alerted, n))
  }

  /** Ten operations complete any registration; uninterrupted they are the one formula. */
  lemma ExecIsRegistered(cfg: Config, s: Store, id: nat, r: Registration, k: nat)
    requires ValidConfig(cfg) && k >= 10
    ensures var (s', reply) := Registered(cfg, s, id, r);
      Exec(cfg, s, id, r, Ready, k) == (s', Done(reply))
  {
    if !Blacklisted(s.cache, r.ip, r.at) {
      var s2 := s.(cache := AddCaller(s.cache, r.b, r.a, r.at, cfg.window));
      var n := |Callers(s2.cache, r.b, r.at)|;
      var s4 := s2.(tables := SaveCall(s2.tables, id, NewRow(r)));
      assert Exec(cfg, s, id, r, Ready, k) == Exec(cfg, s, id, r, Screened, k - 1);
      assert Exec(cfg, s, id, r, Screened, k - 1) == Exec(cfg, s2, id, r, Added, k - 2);
      assert Exec(cfg, s2, id, r, Added, k - 2) == Exec(cfg, s2, id, r, Counted(n), k - 3);
      if n >= cfg.threshold {
        assert Exec(cfg, s2, id, r, Counted(n), k - 3) == Exec(cfg, s4, id, r, Suspect(n), k - 4);
        if !InCooldown(s4.cache, r.b, r.at) {
          assert Exec(cfg, s4, id, r, Suspect(n), k - 4) == Exec(cfg, s4, id, r, Alarming(n), k - 5);
          ExecAlarm(cfg, s4, id, r, k - 5);
        } else {
          assert Exec(cfg, s4, id, r, Suspect(n), k - 4) == (s4, Done(Reply(Cooldown, n)));
        }
      } else {
        assert Exec(cfg, s2, id, r, Counted(n), k - 3) == (s4, Done(Reply(Processed, n)));
      }
    } else {
      assert Exec(cfg, s, id, r, Ready, k) == (s, Done(Reply(Blocked, 0)));
    }
  }

  lemma ExecAlarm(cfg: Config, s: Store, id: nat, r: Registration, k: nat)
    requires ValidConfig(cfg) && k >= 5
    ensures
      var callers := Callers(s.cache, r.b, r.at);
      Exec(cfg, s, id, r, Alarming(|callers|), k) ==
      (Store(SetCooldown(s.cache, r.b, r.at, cfg.cooldown), RaiseAlert(cfg, s.tables, id, r, callers)),
       Done(Reply(Alerted, |callers|)))
  {
    var callers := Callers(s.cache, r.b, r.at);
    var n := |callers|;
    var ids := CallsInWindow(s.tables, r.b, r.at - cfg.window, r.at);
    ExecStep(cfg, s, id, r, Alarming(n), k);
    ExecStep(cfg, s, id, r, GotCallers(n, callers, r.at), k - 1);
    ExecPersist(cfg, s, id, r, n, callers, ids, k - 2);
  }

  /** The writes of an alert, in their order. */
  lemma ExecPersist(cfg: Config, s: Store, id: nat, r: Registration, n: nat, callers: set<Msisdn>, ids: set<nat>,
                    k: nat)
    requires ValidConfig(cfg)
    ensures
      var alerted := SaveAlert(s.tables, id, NewAlert(cfg, r, n, callers, r.at, ids));
      var flagged := FlagAsFraud(alerted, ids, id);
      Exec(cfg, s, id, r, GotCalls(n, callers, r.at, ids), k) ==
      if k == 0 then (s, GotCalls(n, callers, r.at, ids))
      else if k == 1 then (Store(s.cache, alerted), AlertSaved(n, ids))
      else if k == 2 then (Store(s.cache, flagged), Flagged(n))
      else (Store(SetCooldown(s.cache, r.b, r.at, cfg.cooldown), flagged), Done(Reply(Alerted, n)))
  {
    var alerted := SaveAlert(s.tables, id, NewAlert(cfg, r, n, callers, r.at, ids));
    var flagged := FlagAsFraud(alerted, ids, id);
    if k > 0 {
      ExecStep(cfg, s, id, r, GotCalls(n, callers, r.at, ids), k);
      if k > 1 {
        ExecStep(cfg, Store(s.cache, alerted), id, r, AlertSaved(n, ids), k - 1);
        if k > 2 {
          ExecStep(cfg, Store(s.cache, flagged), id, r, Flagged(n), k - 2);
        }
      }
    }
  }
}

/**
  Any number of registrations at once, with cleanups, blacklistings, early exits
  and crashes between any two operations.
*/
module EvidenceProtocol {
  import opened Basics
  import opened DetectionStores
  import opened RegistrationSteps

  datatype Job = Job(r: Registration, phase: Phase)

  datatype World = World(store: Store, jobs: map<nat, Job>)

  datatype Action =
    | Arrive(id: nat, r: Registration)
    | Proceed(id: nat, now: int)
    | Cleanup(before: int)
    | Blacklist(ip: Ip, now: int, ttl: Option<int>)

  predicate Enabled(w: World, act: Action) {
    match act
    case Arrive(id, _) => id !in w.jobs
    case Proceed(id, _) => id in w.jobs
    case _ => true
  }

  function Next(cfg: Config, w: World, act: Action): World
    requires ValidConfig(cfg) && Enabled(w, act)
  {
    match act
    case Arrive(id, r) => w.(jobs := w.jobs[id := Job(r, Ready)])
    case Proceed(id, now) =>
      var job := w.jobs[id];
      var (s, phase) := Advance(cfg, w.store, id, job.r, job.phase, now);
      World(s, w.jobs[id := job.(phase := phase)])
    case Cleanup(before) =>
      w.(store := w.store.(tables := CleanupOldCalls(w.store.tables, before)))
    case Blacklist(ip, now, ttl) =>
      w.(store := w.store.(cache := AddToBlacklist(w.store.cache, ip, now, ttl)))
  }

  /** Worlds joined by enabled actions, from an empty store with nothing running. */
  ghost predicate IsRun(cfg: Config, worlds: seq<World>, acts: seq<Action>)
    requires ValidConfig(cfg)
  {
    && |worlds| == |acts| + 1
    && worlds[0] == World(EMPTY, map[])
    && forall i :: 0 <= i < |acts| ==> Enabled(worlds[i], acts[i]) && worlds[i + 1] == Next(cfg, worlds[i], acts[i])
  }

  ghost predicate HasEvidence(t: Tables, c: nat)
    requires c in t.calls
  {
    var x := t.calls[c].alertId;
    x.Some? && x.value in t.alerts && c in t.alerts[x.value].callIds
  }

  /** Each flagged call names a persisted alert that lists it. */
  ghost predicate Evidence(t: Tables) {
    forall c :: c in t.calls && t.calls[c].flagged ==> HasEvidence(t, c)
  }

  predicate BeforeCallSaved(p: Phase) {
    p.Ready? || p.Screened? || p.Added? || p.Counted?
  }

  predicate BeforeAlertSaved(p: Phase) {
    BeforeCallSaved(p) || p.Suspect? || p.Alarming? || p.GotCallers? || p.GotCalls?
  }

  ghost predicate JobAgrees(t: Tables, id: nat, job: Job) {
    && (BeforeCallSaved(job.phase) ==> id !in t.calls)
    && (BeforeAlertSaved(job.phase) ==> id !in t.alerts)
    && (job.phase.AlertSaved? ==> id in t.alerts && t.alerts[id].callIds == job.phase.ids)
    && (job.phase.Flagged? ==> id in t.alerts)
  }

  ghost predicate Inv(w: World) {
    && Evidence(w.store.tables)
    && w.store.tables.calls.Keys + w.store.tables.alerts.Keys <= w.jobs.Keys
    && forall id :: id in w.jobs ==> JobAgrees(w.store.tables, id, w.jobs[id])
  }

  /** No flagged call is deleted or unflagged, and no alert disappears or changes. */
  ghost predicate KeepsEvidence(t: Tables, t': Tables) {
    && (forall c :: c in t.calls && t.calls[c].flagged ==> c in t'.calls && t'.calls[c].flagged)
    && (forall x :: x in t.alerts ==> x in t'.alerts && t'.alerts[x] == t.alerts[x])
  }

  lemma SaveCallKeeps(t: Tables, id: nat, row: CallRow)
    requires Evidence(t) && id !in t.calls && !row.flagged
    ensures Evidence(SaveCall(t, id, row)) && KeepsEvidence(t, SaveCall(t, id, row))
  {
    var t' := SaveCall(t, id, row);
    forall c | c in t'.calls && t'.calls[c].flagged ensures HasEvidence(t', c) {
      assert HasEvidence(t, c);
    }
  }

  lemma SaveAlertKeeps(t: Tables, id: nat, row: AlertRow)
    requires Evidence(t) && id !in t.alerts
    ensures Evidence(SaveAlert(t, id, row)) && KeepsEvidence(t, SaveAlert(t, id, row))
  {
    var t' := SaveAlert(t, id, row);
    forall c | c in t'.calls && t'.calls[c].flagged ensures HasEvidence(t', c) {
      assert HasEvidence(t, c);
    }
  }

  lemma FlagKeeps(t: Tables, ids: set<nat>, id: nat)
    requires Evidence(t) && id in t.alerts && ids <= t.alerts[id].callIds
    ensures Evidence(FlagAsFraud(t, ids, id)) && KeepsEvidence(t, FlagAsFraud(t, ids, id))
  {
    var t' := FlagAsFraud(t, ids, id);
    forall c | c in t'.calls && t'.calls[c].flagged ensures HasEvidence(t', c) {
      assert c !in ids ==> HasEvidence(t, c);
    }
  }

  lemma CleanupKeeps(t: Tables, before: int)
    requires Evidence(t)
    ensures Evidence(CleanupOldCalls(t, before)) && KeepsEvidence(t, CleanupOldCalls(t, before))
  {
    var t' := CleanupOldCalls(t, before);
    forall c | c in t'.calls && t'.calls[c].flagged ensures HasEvidence(t', c) {
      assert HasEvidence(t, c);
    }
  }

  lemma StepKeepsEvidence(cfg: Config, w: World, act: Action)
    requires ValidConfig(cfg) && Enabled(w, act) && Inv(w)
    ensures Inv(Next(cfg, w, act))
    ensures KeepsEvidence(w.store.tables, Next(cfg, w, act).store.tables)
  {
    match act
    case Proceed(id, now) => AdvanceKeepsEvidence(cfg, w, id, now);
    case Cleanup(before) => CleanupKeeps(w.store.tables, before);
    case _ =>
  }

  lemma AdvanceKeepsEvidence(cfg: Config, w: World, id: nat, now: int)
    requires ValidConfig(cfg) && id in w.jobs && Inv(w)
    ensures Inv(Next(cfg, w, Proceed(id, now)))
    ensures KeepsEvidence(w.store.tables, Next(cfg, w, Proceed(id, now)).store.tables)
  {
    var t, job := w.store.tables, w.jobs[id];
    var (s', phase') := Advance(cfg, w.store, id, job.r, job.phase, now);
    assert JobAgrees(t, id, job);
    AdvanceTables(cfg, w.store, id, job, now);
    var w' := World(s', w.jobs[id := job.(phase := phase')]);
    forall o | o in w'.jobs ensures JobAgrees(s'.tables, o, w'.jobs[o]) {
      assert JobAgrees(t, o, w.jobs[o]);
    }
  }

  /** One operation touches no other registration's call and alert, and keeps the evidence. */
  lemma AdvanceTables(cfg: Config, s: Store, id: nat, job: Job, now: int)
    requires ValidConfig(cfg) && Evidence(s.tables) && JobAgrees(s.tables, id, job)
    ensures var (s', phase') := Advance(cfg, s, id, job.r, job.phase, now);
      && Evidence(s'.tables) && KeepsEvidence(s.tables, s'.tables)
      && JobAgrees(s'.tables, id, job.(phase := phase'))
      && (forall o :: o != id ==> (o in s'.tables.calls <==> o in s.tables.calls))
      && (forall o :: o != id ==> (o in s'.tables.alerts <==> o in s.tables.alerts))
  {
    var t := s.tables;
    match job.phase
    case Counted(n) => SaveCallKeeps(t, id, NewRow(job.r));
    case GotCalls(n, aNumbers, to, ids) => SaveAlertKeeps(t, id, NewAlert(cfg, job.r, n, aNumbers, to, ids));
    case AlertSaved(n, ids) => FlagKeeps(t, ids, id);
    case _ =>
  }

  /** At every moment of every run the evidence for each flagged call is complete. */
  lemma {:induction false} EvidenceAlways(cfg: Config, worlds: seq<World>, acts: seq<Action>, n: nat)
    requires ValidConfig(cfg) && IsRun(cfg, worlds, acts) && n < |worlds|
    ensures Inv(worlds[n])
  {
    if n == 0 {
    } else {
      EvidenceAlways(cfg, worlds, acts, n - 1);
      StepKeepsEvidence(cfg, worlds[n - 1], acts[n - 1]);
    }
  }

  lemma ActionKeepsEvidence(cfg: Config, worlds: seq<World>, acts: seq<Action>, n: nat)
    requires ValidConfig(cfg) && IsRun(cfg, worlds, acts) && n < |acts|
    ensures KeepsEvidence(worlds[n].store.tables, worlds[n + 1].store.tables)
  {
    EvidenceAlways(cfg, worlds, acts, n);
    StepKeepsEvidence(cfg, worlds[n], acts[n]);
  }

  lemma KeepsTwice(t: Tables, t': Tables, t'': Tables)
    requires KeepsEvidence(t, t') && KeepsEvidence(t', t'')
    ensures KeepsEvidence(t, t'')
  {
  }

  lemma {:induction false} KeptThroughout(tables: seq<Tables>, m: nat, n: nat)
    requires m <= n < |tables|
    requires forall k :: m <= k < n ==> KeepsEvidence(tables[k], tables[k + 1])
    ensures KeepsEvidence(tables[m], tables[n])
    decreases n
  {
    if m == n {
    } else {
      KeptThroughout(tables, m, n - 1);
      assert KeepsEvidence(tables[n - 1], tables[n - 1 + 1]);
      KeepsTwice(tables[m], tables[n - 1], tables[n]);
    }
  }

  /** Evidence once complete stays so: for all later moments of the run. */
  lemma FlaggedForever(cfg: Config, worlds: seq<World>, acts: seq<Action>, m: nat, n: nat)
    requires ValidConfig(cfg) && IsRun(cfg, worlds, acts) && m <= n < |worlds|
    ensures KeepsEvidence(worlds[m].store.tables, worlds[n].store.tables)
  {
    var tables := seq(|worlds|, k requires 0 <= k < |worlds| => worlds[k].store.tables);
    forall k | m <= k < n ensures KeepsEvidence(tables[k], tables[k + 1]) {
      ActionKeepsEvidence(cfg, worlds, acts, k);
    }
    KeptThroughout(tables, m, n);
  }
}

/**
  Registrations one after the other, each on one clock reading, with cleanups
  and blacklistings between them, and the pure function of one called number's
  own history that the replies turn out to be.
*/
module DetectionLog {
  import opened Basics
  import opened ExpiringSets
  import opened DetectionStores
  import opened RegistrationSteps

  datatype Event =
    | Register(r: Registration)
    | Cleanup(before: int, at: int)
    | Blacklist(ip: Ip, ttl: Option<int>, at: int)

  function Clock(e: Event): int {
    match e
    case Register(r) => r.at
    case Cleanup(_, at) => at
    case Blacklist(_, _, at) => at
  }

  ghost predicate OnClock(log: seq<Event>) {
    forall i, j :: 0 <= i < j < |log| ==> Clock(log[i]) <= Clock(log[j])
  }

  /** Event number `id` happens to the store. */
  function Step(cfg: Config, s: Store, id: nat, e: Event): Store
    requires ValidConfig(cfg)
  {
    match e
    case Register(r) => Registered(cfg, s, id, r).0
    case Cleanup(before, _) => s.(tables := CleanupOldCalls(s.tables, before))
    case Blacklist(ip, ttl, at) => s.(cache := AddToBlacklist(s.cache, ip, at, ttl))
  }

  function StateAt(cfg: Config, log: seq<Event>, n: nat): Store
    requires ValidConfig(cfg) && n <= |log|
  {
    if n == 0 then EMPTY else Step(cfg, StateAt(cfg, log, n - 1), n - 1, log[n - 1])
  }

  function ReplyAt(cfg: Config, log: seq<Event>, k: nat): Reply
    requires ValidConfig(cfg) && k < |log| && log[k].Register?
  {
    Registered(cfg, StateAt(cfg, log, k), k, log[k].r).1
  }

  /** A registration whose source address is not blacklisted when it arrives. */
  predicate Accepted(cfg: Config, log: seq<Event>, k: nat)
    requires ValidConfig(cfg) && k < |log|
  {
    log[k].Register? && !Blacklisted(StateAt(cfg, log, k).cache, log[k].r.ip, log[k].r.at)
  }

  /** The accepted calls to one number. */
  function History(cfg: Config, log: seq<Event>, b: Msisdn, n: nat): seq<Add<Msisdn>>
    requires ValidConfig(cfg) && n <= |log|
  {
    if n == 0 then []
    else if Accepted(cfg, log, n - 1) && log[n - 1].r.b == b then
      History(cfg, log, b, n - 1) + [Add(log[n - 1].r.a, log[n - 1].r.at)]
    else History(cfg, log, b, n - 1)
  }

  function States(cfg: Config, log: seq<Event>): (all: seq<Store>)
    requires ValidConfig(cfg)
    ensures |all| == |log| + 1 && forall k :: 0 <= k <= |log| ==> all[k] == StateAt(cfg, log, k)
  {
    seq(|log| + 1, k requires 0 <= k <= |log| => StateAt(cfg, log, k))
  }

  function Histories(cfg: Config, log: seq<Event>, b: Msisdn): (all: seq<seq<Add<Msisdn>>>)
    requires ValidConfig(cfg)
    ensures |all| == |log| + 1 && forall k :: 0 <= k <= |log| ==> all[k] == History(cfg, log, b, k)
  {
    seq(|log| + 1, k requires 0 <= k <= |log| => History(cfg, log, b, k))
  }

  function BurstCallers(cfg: Config, calls: seq<Add<Msisdn>>): set<Msisdn>
    requires calls != []
  {
    Items(calls, BurstStart(calls, cfg.window))
  }

  /** The reply the latest of these calls gets, from the history of its called number alone. */
  function Verdict(cfg: Config, calls: seq<Add<Msisdn>>): Status
    requires calls != []
    decreases |calls|, 0
  {
    var init, now := calls[..|calls| - 1], calls[|calls| - 1].at;
    if |BurstCallers(cfg, calls)| < cfg.threshold then Processed
    else if LastAlert(cfg, init).Some? && now - LastAlert(cfg, init).value < cfg.cooldown then Cooldown
    else Alerted
  }

  function LastAlert(cfg: Config, calls: seq<Add<Msisdn>>): Option<int>
    decreases |calls|, 1
  {
    if calls == [] then None
    else if Verdict(cfg, calls) == Alerted then Some(calls[|calls| - 1].at)
    else LastAlert(cfg, calls[..|calls| - 1])
  }

  /** The alerts among the calls from position `lo` on. */
  function AlertsFrom(cfg: Config, calls: seq<Add<Msisdn>>, lo: nat): nat {
    if |calls| <= lo then 0
    else AlertsFrom(cfg, calls[..|calls| - 1], lo) + (if Verdict(cfg, calls) == Alerted then 1 else 0)
  }

  /** The cache of the second copy of the detection path: no blacklist, no cooldown, nothing stored but the windows. */
  function InlineCacheAt(cfg: Config, log: seq<Event>, n: nat): Cache
    requires n <= |log|
  {
    if n == 0 then EMPTY.cache
    else
      match log[n - 1]
      case Register(r) => AddCaller(InlineCacheAt(cfg, log, n - 1), r.b, r.a, r.at, cfg.window)
      case _ => InlineCacheAt(cfg, log, n - 1)
  }

  /** The callers that copy counts for registration `k`. */
  function InlineCount(cfg: Config, log: seq<Event>, k: nat): nat
    requires k < |log| && log[k].Register?
  {
    |Callers(InlineCacheAt(cfg, log, k + 1), log[k].r.b, log[k].r.at)|
  }

  /** All calls to one number, accepted or not. */
  function AllCalls(log: seq<Event>, b: Msisdn, n: nat): seq<Add<Msisdn>>
    requires n <= |log|
  {
    if n == 0 then []
    else if log[n - 1].Register? && log[n - 1].r.b == b then
      AllCalls(log, b, n - 1) + [Add(log[n - 1].r.a, log[n - 1].r.at)]
    else AllCalls(log, b, n - 1)
  }

  /** No call to the number has come from a blacklisted address so far. */
  ghost predicate NoneBlocked(cfg: Config, log: seq<Event>, b: Msisdn, n: nat)
    requires ValidConfig(cfg) && n <= |log|
  {
    forall k :: 0 <= k < n && log[k].Register? && log[k].r.b == b ==> Accepted(cfg, log, k)
  }
}

module DetectionTheorems {
  import opened Basics
  import opened ExpiringSets
  import opened DetectionStores
  import opened RegistrationSteps
  import opened EvidenceProtocol
  import opened DetectionLog

  /** The cache holds, for each called number, a function of that number's history. */
  ghost predicate CacheAgrees(cfg: Config, c: Cache, b: Msisdn, calls: seq<Add<Msisdn>>) {
    && Window(c, b) == SetOf(calls, cfg.window)
    && (if LastAlert(cfg, calls).None? then b !in c.cooldowns
        else b in c.cooldowns && c.cooldowns[b] == LastAlert(cfg, calls).value + cfg.cooldown)
  }

  lemma BurstIsLive(cfg: Config, calls: seq<Add<Msisdn>>)
    requires ValidConfig(cfg) && calls != []
    ensures Live(SetOf(calls, cfg.window), calls[|calls| - 1].at) == BurstCallers(cfg, calls)
  {
    BurstTheorem(calls, cfg.window, BurstStart(calls, cfg.window));
  }

  lemma RegisteredRefines(cfg: Config, s: Store, id: nat, r: Registration, calls: seq<Add<Msisdn>>)
    requires ValidConfig(cfg) && CacheAgrees(cfg, s.cache, r.b, calls)
    requires !Blacklisted(s.cache, r.ip, r.at)
    ensures var (s', reply) := Registered(cfg, s, id, r);
      && CacheAgrees(cfg, s'.cache, r.b, calls + [Add(r.a, r.at)])
      && reply.status == Verdict(cfg, calls + [Add(r.a, r.at)])
      && reply.distinctCallers == |BurstCallers(cfg, calls + [Add(r.a, r.at)])|
  {
    var grown := calls + [Add(r.a, r.at)];
    SetOfAppend(calls, Add(r.a, r.at), cfg.window);
    BurstIsLive(cfg, grown);
    assert grown[..|grown| - 1] == calls;
    assert InCooldown(s.cache, r.b, r.at) <==>
             LastAlert(cfg, calls).Some? && r.at - LastAlert(cfg, calls).value < cfg.cooldown;
    var cache := AddCaller(s.cache, r.b, r.a, r.at, cfg.window);
    assert Window(cache, r.b) == SetOf(grown, cfg.window);
    assert Callers(cache, r.b, r.at) == BurstCallers(cfg, grown);
  }

  lemma OthersUntouched(cfg: Config, s: Store, id: nat, r: Registration, b: Msisdn)
    requires ValidConfig(cfg) && b != r.b
    ensures var c := Registered(cfg, s, id, r).0.cache;
      && Window(c, b) == Window(s.cache, b)
      && (b in c.cooldowns <==> b in s.cache.cooldowns)
      && (b in c.cooldowns ==> c.cooldowns[b] == s.cache.cooldowns[b])
  {
  }

  lemma CacheStep(cfg: Config, s: Store, id: nat, e: Event, b: Msisdn, calls: seq<Add<Msisdn>>)
    requires ValidConfig(cfg) && CacheAgrees(cfg, s.cache, b, calls)
    ensures CacheAgrees(cfg, Step(cfg, s, id, e).cache, b,
              if e.Register? && !Blacklisted(s.cache, e.r.ip, e.r.at) && e.r.b == b
              then calls + [Add(e.r.a, e.r.at)] else calls)
  {
    if e.Register? {
      if e.r.b != b {
        OthersUntouched(cfg, s, id, e.r, b);
      } else if !Blacklisted(s.cache, e.r.ip, e.r.at) {
        RegisteredRefines(cfg, s, id, e.r, calls);
      }
    }
  }

  lemma {:induction false} AgreesThroughout(cfg: Config, stores: seq<Store>, histories: seq<seq<Add<Msisdn>>>,
                                            b: Msisdn, n: nat)
    requires n < |stores| == |histories| && CacheAgrees(cfg, stores[0].cache, b, histories[0])
    requires forall k :: 0 <= k < n && CacheAgrees(cfg, stores[k].cache, b, histories[k]) ==>
               CacheAgrees(cfg, stores[k + 1].cache, b, histories[k + 1])
    ensures CacheAgrees(cfg, stores[n].cache, b, histories[n])
  {
    if n == 0 {
    } else {
      AgreesThroughout(cfg, stores, histories, b, n - 1);
    }
  }

  /** The cache refines the history of every called number. */
  lemma CacheRefinesHistory(cfg: Config, log: seq<Event>, b: Msisdn, n: nat)
    requires ValidConfig(cfg) && n <= |log|
    ensures CacheAgrees(cfg, StateAt(cfg, log, n).cache, b, History(cfg, log, b, n))
  {
    var stores, histories := States(cfg, log), Histories(cfg, log, b);
    forall k | 0 <= k < n && CacheAgrees(cfg, stores[k].cache, b, histories[k])
      ensures CacheAgrees(cfg, stores[k + 1].cache, b, histories[k + 1])
    {
      CacheStep(cfg, stores[k], k, log[k], b, histories[k]);
    }
    AgreesThroughout(cfg, stores, histories, b, n);
  }

  /** Every reply is a function of the called number's own history, whatever happens to other numbers. */
  lemma RepliesAreAFunctionOfHistory(cfg: Config, log: seq<Event>, k: nat)
    requires ValidConfig(cfg) && k < |log| && log[k].Register?
    ensures var calls := History(cfg, log, log[k].r.b, k + 1);
      if Accepted(cfg, log, k) then
        && calls != []
        && ReplyAt(cfg, log, k) == Reply(Verdict(cfg, calls), |BurstCallers(cfg, calls)|)
      else
        && calls == History(cfg, log, log[k].r.b, k)
        && ReplyAt(cfg, log, k) == Reply(Blocked, 0)
        && StateAt(cfg, log, k + 1) == StateAt(cfg, log, k)
  {
    var r := log[k].r;
    CacheRefinesHistory(cfg, log, r.b, k);
    if Accepted(cfg, log, k) {
      RegisteredRefines(cfg, StateAt(cfg, log, k), k, r, History(cfg, log, r.b, k));
    }
  }

  lemma {:induction false} InlineRefines(cfg: Config, log: seq<Event>, b: Msisdn, n: nat)
    requires n <= |log|
    ensures Window(InlineCacheAt(cfg, log, n), b) == SetOf(AllCalls(log, b, n), cfg.window)
  {
    if n == 0 {
    } else {
      InlineRefines(cfg, log, b, n - 1);
      if log[n - 1].Register? {
        SetOfAppend(AllCalls(log, b, n - 1), Add(log[n - 1].r.a, log[n - 1].r.at), cfg.window);
      }
    }
  }

  lemma HistoryTakesAccepted(cfg: Config, log: seq<Event>, b: Msisdn, k: nat)
    requires ValidConfig(cfg) && k < |log|
    requires log[k].Register? && log[k].r.b == b ==> Accepted(cfg, log, k)
    ensures History(cfg, log, b, k + 1) == History(cfg, log, b, k) +
      if log[k].Register? && log[k].r.b == b then [Add(log[k].r.a, log[k].r.at)] else []
  {
  }

  lemma {:induction false} HistoryIsAllCalls(cfg: Config, log: seq<Event>, b: Msisdn, n: nat)
    requires ValidConfig(cfg) && n <= |log| && NoneBlocked(cfg, log, b, n)
    ensures History(cfg, log, b, n) == AllCalls(log, b, n)
  {
    if n == 0 {
    } else {
      HistoryIsAllCalls(cfg, log, b, n - 1);
      HistoryTakesAccepted(cfg, log, b, n - 1);
    }
  }

  /**
    On one log, as long as no call to the number has been blocked, the inline
    copy counts what the service counts, and alerts exactly where the service
    alerts or is cooling down.
  */
  lemma InlineAgrees(cfg: Config, log: seq<Event>, k: nat)
    requires ValidConfig(cfg) && k < |log| && log[k].Register?
    requires NoneBlocked(cfg, log, log[k].r.b, k + 1)
    ensures InlineCount(cfg, log, k) == ReplyAt(cfg, log, k).distinctCallers
    ensures InlineCount(cfg, log, k) >= cfg.threshold <==>
              ReplyAt(cfg, log, k).status == Alerted || ReplyAt(cfg, log, k).status == Cooldown
  {
    var b := log[k].r.b;
    InlineRefines(cfg, log, b, k + 1);
    HistoryIsAllCalls(cfg, log, b, k + 1);
    RepliesAreAFunctionOfHistory(cfg, log, k);
    LatestCall(cfg, log, k);
    BurstIsLive(cfg, History(cfg, log, b, k + 1));
  }

  lemma LatestCall(cfg: Config, log: seq<Event>, k: nat)
    requires ValidConfig(cfg) && k < |log| && Accepted(cfg, log, k)
    ensures var calls := History(cfg, log, log[k].r.b, k + 1); calls != [] && calls[|calls| - 1].at == log[k].r.at
  {
  }

  lemma {:induction false} AlertsAreSpaced(cfg: Config, calls: seq<Add<Msisdn>>, lo: nat)
    requires ValidConfig(cfg) && Ordered(calls) && lo < |calls|
    requires AlertsFrom(cfg, calls, lo) > 0
    ensures LastAlert(cfg, calls).Some?
    ensures calls[lo].at <= LastAlert(cfg, calls).value <= calls[|calls| - 1].at
    ensures Times(AlertsFrom(cfg, calls, lo) - 1, cfg.cooldown) <= LastAlert(cfg, calls).value - calls[lo].at
  {
    var init := calls[..|calls| - 1];
    LatestAlert(cfg, calls, lo);
    if AlertsFrom(cfg, init, lo) == 0 {
    } else {
      AlertsAreSpaced(cfg, init, lo);
    }
  }

  /** What the latest call adds to the alerts. */
  lemma LatestAlert(cfg: Config, calls: seq<Add<Msisdn>>, lo: nat)
    requires lo < |calls|
    ensures var init, now := calls[..|calls| - 1], calls[|calls| - 1].at;
      || (LastAlert(cfg, calls) == LastAlert(cfg, init)
          && AlertsFrom(cfg, calls, lo) == AlertsFrom(cfg, init, lo))
      || (LastAlert(cfg, calls) == Some(now)
          && AlertsFrom(cfg, calls, lo) == AlertsFrom(cfg, init, lo) + 1
          && (LastAlert(cfg, init).Some? ==> now - LastAlert(cfg, init).value >= cfg.cooldown))
  {
  }

  /** `k` alerts in a span of `d`. */
  predicate RateHolds(k: nat, d: int, cooldown: int)
    requires cooldown >= 1
  {
    k == 0 || k - 1 <= d / cooldown
  }

  /** Event `k` is a registration for `b` whose reply is an alert. */
  predicate AlertsFor(cfg: Config, log: seq<Event>, b: Msisdn, k: nat)
    requires ValidConfig(cfg) && k < |log|
  {
    log[k].Register? && log[k].r.b == b && ReplyAt(cfg, log, k).status == Alerted
  }

  ghost function AlertedAt(cfg: Config, log: seq<Event>, b: Msisdn, m: nat, n: nat): set<nat>
    requires ValidConfig(cfg) && n <= |log|
  {
    set k: nat | m <= k < n && AlertsFor(cfg, log, b, k)
  }

  /** One event adds at most its own call to a history. */
  ghost predicate NextHistory(before: seq<Add<Msisdn>>, calls: seq<Add<Msisdn>>, at: int) {
    calls == before || (|calls| == |before| + 1 && calls[..|before|] == before && calls[|before|].at == at)
  }

  lemma HistoryIsNext(cfg: Config, log: seq<Event>, b: Msisdn, k: nat)
    requires ValidConfig(cfg) && k < |log|
    ensures NextHistory(History(cfg, log, b, k), History(cfg, log, b, k + 1), Clock(log[k]))
  {
  }

  lemma AlertsFromNext(cfg: Config, before: seq<Add<Msisdn>>, calls: seq<Add<Msisdn>>, at: int, lo: nat)
    requires NextHistory(before, calls, at) && lo <= |before|
    ensures AlertsFrom(cfg, calls, lo) == AlertsFrom(cfg, before, lo)
              + if calls != before && Verdict(cfg, calls) == Alerted then 1 else 0
  {
  }

  lemma AlertIsVerdict(cfg: Config, log: seq<Event>, b: Msisdn, k: nat)
    requires ValidConfig(cfg) && k < |log|
    ensures var before, calls := History(cfg, log, b, k), History(cfg, log, b, k + 1);
      AlertsFor(cfg, log, b, k) <==> calls != before && calls != [] && Verdict(cfg, calls) == Alerted
  {
    if log[k].Register? && log[k].r.b == b {
      RepliesAreAFunctionOfHistory(cfg, log, k);
    }
  }

  lemma AlertStep(cfg: Config, log: seq<Event>, b: Msisdn, k: nat, lo: nat)
    requires ValidConfig(cfg) && k < |log| && lo <= |History(cfg, log, b, k)|
    ensures AlertsFrom(cfg, History(cfg, log, b, k + 1), lo)
         == AlertsFrom(cfg, History(cfg, log, b, k), lo) + if AlertsFor(cfg, log, b, k) then 1 else 0
  {
    HistoryIsNext(cfg, log, b, k);
    AlertsFromNext(cfg, History(cfg, log, b, k), History(cfg, log, b, k + 1), Clock(log[k]), lo);
    AlertIsVerdict(cfg, log, b, k);
  }

  /** From its length at event `m` on, a history holds the calls of the events from `m` on. */
  lemma {:induction false} Growth(all: seq<seq<Add<Msisdn>>>, log: seq<Event>, m: nat, n: nat)
    requires |all| == |log| + 1 && m <= n <= |log| && OnClock(log)
    requires forall k :: 0 <= k < |log| ==> NextHistory(all[k], all[k + 1], Clock(log[k]))
    ensures |all[m]| <= |all[n]|
    ensures n > m ==> Within(all[n], |all[m]|, Clock(log[m]), Clock(log[n - 1]))
    decreases n
  {
    if m == n {
    } else {
      Growth(all, log, m, n - 1);
      assert NextHistory(all[n - 1], all[n], Clock(log[n - 1]));
      WithinNext(all[n - 1], all[n], |all[m]|, Clock(log[m]), if m < n - 1 then Clock(log[n - 2]) else Clock(log[m]),
                 Clock(log[n - 1]));
    }
  }

  lemma HistoryGrows(cfg: Config, log: seq<Event>, b: Msisdn, m: nat, n: nat)
    requires ValidConfig(cfg) && m <= n <= |log| && OnClock(log)
    ensures |History(cfg, log, b, m)| <= |History(cfg, log, b, n)|
    ensures n > m ==> Within(History(cfg, log, b, n), |History(cfg, log, b, m)|, Clock(log[m]), Clock(log[n - 1]))
  {
    var all := Histories(cfg, log, b);
    forall k | 0 <= k < |log| ensures NextHistory(all[k], all[k + 1], Clock(log[k])) {
      HistoryIsNext(cfg, log, b, k);
    }
    Growth(all, log, m, n);
  }

  ghost predicate Within(calls: seq<Add<Msisdn>>, lo: nat, from: int, to: int) {
    forall i :: lo <= i < |calls| ==> from <= calls[i].at <= to
  }

  lemma WithinNext(before: seq<Add<Msisdn>>, calls: seq<Add<Msisdn>>, lo: nat, from: int, last: int, at: int)
    requires NextHistory(before, calls, at) && from <= last <= at
    requires Within(before, lo, from, last) || lo == |before|
    ensures Within(calls, lo, from, at)
  {
    forall i | lo <= i < |calls| ensures from <= calls[i].at <= at {
      if i < |before| {
        assert calls[i] == before[i];
      }
    }
  }

  /** The alerts, up to event `k`, among the calls to `b` from the stretch that begins at event `m`. */
  function TotalAt(cfg: Config, log: seq<Event>, b: Msisdn, m: nat, k: nat): nat
    requires ValidConfig(cfg) && m <= |log| && k <= |log|
  {
    AlertsFrom(cfg, History(cfg, log, b, k), |History(cfg, log, b, m)|)
  }

  lemma TotalStep(cfg: Config, log: seq<Event>, b: Msisdn, m: nat, k: nat)
    requires ValidConfig(cfg) && m <= k < |log| && OnClock(log)
    ensures TotalAt(cfg, log, b, m, k + 1) == TotalAt(cfg, log, b, m, k) + if AlertsFor(cfg, log, b, k) then 1 else 0
  {
    HistoryGrows(cfg, log, b, m, k);
    AlertStep(cfg, log, b, k, |History(cfg, log, b, m)|);
  }

  function Flags(cfg: Config, log: seq<Event>, b: Msisdn): (flags: seq<bool>)
    requires ValidConfig(cfg)
    ensures |flags| == |log| && forall k :: 0 <= k < |log| ==> flags[k] == AlertsFor(cfg, log, b, k)
  {
    seq(|log|, k requires 0 <= k < |log| => AlertsFor(cfg, log, b, k))
  }

  function Totals(cfg: Config, log: seq<Event>, b: Msisdn, m: nat): (totals: seq<nat>)
    requires ValidConfig(cfg) && m <= |log|
    ensures |totals| == |log| + 1 && forall k :: 0 <= k <= |log| ==> totals[k] == TotalAt(cfg, log, b, m, k)
  {
    seq(|log| + 1, k requires 0 <= k <= |log| => TotalAt(cfg, log, b, m, k))
  }

  lemma TotalsCount(cfg: Config, log: seq<Event>, b: Msisdn, m: nat, n: nat)
    requires ValidConfig(cfg) && m <= n <= |log| && OnClock(log)
    ensures TotalAt(cfg, log, b, m, n) == TotalAt(cfg, log, b, m, m) + |Marked(Flags(cfg, log, b), m, n)|
  {
    var flags, totals := Flags(cfg, log, b), Totals(cfg, log, b, m);
    forall k | m <= k < n ensures totals[k + 1] == totals[k] + if flags[k] then 1 else 0 {
      TotalStep(cfg, log, b, m, k);
    }
    CountSteps(flags, totals, m, n);
  }

  lemma AlertsAreCounted(cfg: Config, log: seq<Event>, b: Msisdn, m: nat, n: nat)
    requires ValidConfig(cfg) && m <= n <= |log| && OnClock(log)
    ensures |AlertedAt(cfg, log, b, m, n)| == AlertsFrom(cfg, History(cfg, log, b, n), |History(cfg, log, b, m)|)
  {
    TotalsCount(cfg, log, b, m, n);
    assert AlertedAt(cfg, log, b, m, n) == Marked(Flags(cfg, log, b), m, n);
  }

  lemma SpacedAlerts(cfg: Config, calls: seq<Add<Msisdn>>, lo: nat, from: int, to: int)
    requires ValidConfig(cfg) && Ordered(calls) && Within(calls, lo, from, to) && from <= to
    ensures RateHolds(AlertsFrom(cfg, calls, lo), to - from, cfg.cooldown)
  {
    if lo < |calls| && AlertsFrom(cfg, calls, lo) > 0 {
      AlertsAreSpaced(cfg, calls, lo);
      QuotientBound(AlertsFrom(cfg, calls, lo) - 1, to - from, cfg.cooldown);
    }
  }

  lemma HistoryAlertRate(cfg: Config, log: seq<Event>, b: Msisdn, m: nat, n: nat) returns (count: nat)
    requires ValidConfig(cfg) && m < n <= |log| && OnClock(log)
    ensures count == AlertsFrom(cfg, History(cfg, log, b, n), |History(cfg, log, b, m)|)
    ensures RateHolds(count, Clock(log[n - 1]) - Clock(log[m]), cfg.cooldown)
  {
    HistoryIsOrdered(cfg, log, b, n);
    HistoryGrows(cfg, log, b, m, n);
    SpacedAlerts(cfg, History(cfg, log, b, n), |History(cfg, log, b, m)|, Clock(log[m]), Clock(log[n - 1]));
    count := AlertsFrom(cfg, History(cfg, log, b, n), |History(cfg, log, b, m)|);
  }

  /** So the service gives no number more than one alert per cooldown, and one more, in any stretch of any run. */
  lemma ServiceAlertRate(cfg: Config, log: seq<Event>, b: Msisdn, m: nat, n: nat)
    requires ValidConfig(cfg) && m < n <= |log| && OnClock(log)
    ensures RateHolds(|AlertedAt(cfg, log, b, m, n)|, Clock(log[n - 1]) - Clock(log[m]), cfg.cooldown)
  {
    var count := HistoryAlertRate(cfg, log, b, m, n);
    AlertsAreCounted(cfg, log, b, m, n);
  }

  /** No attack is missed: enough distinct callers within the last window always alert or are cooling down. */
  lemma NoMissedAttack(cfg: Config, calls: seq<Add<Msisdn>>)
    requires ValidConfig(cfg) && Ordered(calls) && calls != []
    requires |Recent(calls, cfg.window, calls[|calls| - 1].at)| >= cfg.threshold
    ensures Verdict(cfg, calls) != Processed
  {
    var now := calls[|calls| - 1].at;
    WindowIsHeld(calls, cfg.window, now);
    BurstIsLive(cfg, calls);
    SubsetSize(Recent(calls, cfg.window, now), BurstCallers(cfg, calls));
  }

  /**
    The count is that of a sliding window exactly when every caller of the burst
    has called again within the window; and exactly then, whatever the threshold,
    a call is processed just when a sliding window would process it.
  */
  lemma CountIsSlidingExactly(cfg: Config, calls: seq<Add<Msisdn>>)
    requires ValidConfig(cfg) && Ordered(calls) && calls != []
    ensures var now := calls[|calls| - 1].at;
      var sliding := |Recent(calls, cfg.window, now)|;
      var renewed := forall k :: BurstStart(calls, cfg.window) <= k < |calls| ==> Renewed(calls, cfg.window, now, k);
      && (|BurstCallers(cfg, calls)| == sliding <==> renewed)
      && ((forall t :: t >= 1 ==> (ProcessedAt(cfg, t, calls) <==> sliding < t)) <==> renewed)
  {
    var now := calls[|calls| - 1].at;
    var recent, held := Recent(calls, cfg.window, now), BurstCallers(cfg, calls);
    WindowIsHeld(calls, cfg.window, now);
    BurstIsLive(cfg, calls);
    WindowIsExactWhenRenewed(calls, cfg.window, now);
    SubsetSize(recent, held);
    forall t | t >= 1 ensures ProcessedAt(cfg, t, calls) <==> |held| < t {
      assert BurstCallers(cfg.(threshold := t), calls) == held;
    }
    if |held| != |recent| {
      assert ProcessedAt(cfg, |held|, calls) <==> |held| < |held|;
    }
  }

  /** The latest call is processed under threshold `t`. */
  predicate ProcessedAt(cfg: Config, t: int, calls: seq<Add<Msisdn>>)
    requires calls != []
  {
    Verdict(cfg.(threshold := t), calls) == Processed
  }

  lemma {:induction false} DripRaisesNothing(cfg: Config, names: seq<Msisdn>)
    requires ValidConfig(cfg) && Distinct(names) && |names| < cfg.threshold
    ensures LastAlert(cfg, Drip(names, cfg.window)) == None
  {
    if names == [] {
    } else {
      var calls := Drip(names, cfg.window);
      var init := names[..|names| - 1];
      assert calls[..|calls| - 1] == Drip(init, cfg.window);
      DripRaisesNothing(cfg, init);
      DripBurst(cfg, names);
    }
  }

  lemma DripBurst(cfg: Config, names: seq<Msisdn>)
    requires ValidConfig(cfg) && Distinct(names) && names != []
    ensures |BurstCallers(cfg, Drip(names, cfg.window))| == |names|
  {
    var calls := Drip(names, cfg.window);
    DripIsOneBurst(names, cfg.window);
    BurstIsUnique(calls, cfg.window, BurstStart(calls, cfg.window), 0);
  }

  /** The converse fails: as many callers as the threshold, no three of them within one window, still alert. */
  lemma SlowCallersRaiseAlert(cfg: Config, names: seq<Msisdn>)
    requires ValidConfig(cfg) && cfg.window >= 2 && cfg.threshold >= 2
    requires Distinct(names) && |names| == cfg.threshold
    ensures var calls := Drip(names, cfg.window);
      Verdict(cfg, calls) == Alerted && |Recent(calls, cfg.window, calls[|calls| - 1].at)| == 2
  {
    var calls := Drip(names, cfg.window);
    var m := |names| - 1;
    DripIsCountedWhole(names, cfg.window);
    DripBurst(cfg, names);
    assert calls[..m] == Drip(names[..m], cfg.window);
    DripRaisesNothing(cfg, names[..m]);
    assert names[m - 1] != names[m];
  }

  // ---------- alerts partition the calls ----------

  ghost predicate RowComesFromLog(cfg: Config, log: seq<Event>, t: Tables, n: nat, c: nat)
    requires ValidConfig(cfg) && n <= |log| && c in t.calls
  {
    && c < n && Accepted(cfg, log, c)
    && SameCall(t.calls[c], log[c].r) && (!t.calls[c].flagged ==> t.calls[c].alertId.None?)
  }

  /** The row has kept what it told, and an unflagged one has not been touched. */
  predicate SameRow(before: CallRow, row: CallRow) {
    && row.a == before.a && row.b == before.b && row.ip == before.ip && row.at == before.at
    && (row.flagged || row == before)
  }

  /** Each alert has the full score and lists the call that triggered it. */
  ghost predicate TriggersListed(t: Tables, n: nat) {
    forall x :: x in t.alerts ==> x < n && x in t.alerts[x].callIds && t.alerts[x].score == 1.0
  }

  /** Each call an alert lists is stored, and flagged for that alert and no other. */
  ghost predicate ListedAreFlagged(t: Tables) {
    forall x, c :: x in t.alerts && c in t.alerts[x].callIds ==> FlaggedFor(t, c, x)
  }

  ghost predicate FlaggedFor(t: Tables, c: nat, x: nat) {
    c in t.calls && t.calls[c].flagged && t.calls[c].alertId == Some(x)
  }

  ghost predicate Partitioned(t: Tables, n: nat) {
    TriggersListed(t, n) && ListedAreFlagged(t) && Evidence(t) && CallersNamed(t)
  }

  /** The callers of an alert's calls are among its A-numbers, save calls exactly a window old. */
  ghost predicate CallersNamed(t: Tables) {
    forall x, c :: x in t.alerts && c in t.alerts[x].callIds && c in t.calls ==>
      t.calls[c].at > t.alerts[x].windowStart ==> t.calls[c].a in t.alerts[x].aNumbers
  }

  lemma {:induction false} HistoryHasCall(cfg: Config, log: seq<Event>, c: nat, n: nat)
    requires ValidConfig(cfg) && c < n <= |log| && Accepted(cfg, log, c)
    ensures Add(log[c].r.a, log[c].r.at) in History(cfg, log, log[c].r.b, n)
  {
    if c == n - 1 {
    } else {
      HistoryHasCall(cfg, log, c, n - 1);
    }
  }

  lemma {:induction false} HistoryIsOrdered(cfg: Config, log: seq<Event>, b: Msisdn, n: nat)
    requires ValidConfig(cfg) && n <= |log| && OnClock(log)
    ensures Ordered(History(cfg, log, b, n))
    ensures forall i :: 0 <= i < |History(cfg, log, b, n)| ==>
              n > 0 && History(cfg, log, b, n)[i].at <= Clock(log[n - 1])
  {
    if n == 0 {
    } else {
      HistoryIsOrdered(cfg, log, b, n - 1);
    }
  }

  /** The A-numbers read for an alert name every caller of the last window. */
  lemma CallersCoverWindow(cfg: Config, log: seq<Event>, k: nat, c: nat)
    requires ValidConfig(cfg) && OnClock(log) && k < |log| && Accepted(cfg, log, k)
    requires c <= k && Accepted(cfg, log, c) && log[c].r.b == log[k].r.b
    requires log[k].r.at - log[c].r.at < cfg.window
    ensures var r := log[k].r;
      log[c].r.a in Callers(AddCaller(StateAt(cfg, log, k).cache, r.b, r.a, r.at, cfg.window), r.b, r.at)
  {
    var r := log[k].r;
    var calls := History(cfg, log, r.b, k + 1);
    CacheRefinesHistory(cfg, log, r.b, k);
    SetOfAppend(History(cfg, log, r.b, k), Add(r.a, r.at), cfg.window);
    HistoryHasCall(cfg, log, c, k + 1);
    HistoryIsOrdered(cfg, log, r.b, k + 1);
    WindowIsHeld(calls, cfg.window, r.at);
    var i :| 0 <= i < |calls| && calls[i] == Add(log[c].r.a, log[c].r.at);
    assert calls[i].item in Recent(calls, cfg.window, r.at);
  }

  lemma SaveCallKeepsPartition(t: Tables, n: nat, row: CallRow)
    requires Partitioned(t, n) && n !in t.calls && !row.flagged
    ensures Partitioned(SaveCall(t, n, row), n)
  {
    SaveCallKeeps(t, n, row);
    var t' := SaveCall(t, n, row);
    forall x, c | x in t'.alerts && c in t'.alerts[x].callIds ensures FlaggedFor(t', c, x) {
      assert FlaggedFor(t, c, x);
    }
  }

  /** An alert over unflagged calls, saved and then flagged for, keeps the partition. */
  lemma AlertKeepsPartition(t: Tables, n: nat, alert: AlertRow)
    requires Partitioned(t, n) && WellFounded(t, n, alert)
    ensures Partitioned(FlagAsFraud(SaveAlert(t, n, alert), alert.callIds, n), n + 1)
  {
    assert n !in t.alerts;
    var saved := SaveAlert(t, n, alert);
    SaveAlertKeeps(t, n, alert);
    FlagKeeps(saved, alert.callIds, n);
    var t' := FlagAsFraud(saved, alert.callIds, n);
    forall x, c | x in t'.alerts && c in t'.alerts[x].callIds ensures FlaggedFor(t', c, x) {
      if x != n {
        assert FlaggedFor(t, c, x);
      }
    }
  }

  lemma CleanupKeepsPartition(t: Tables, n: nat, before: int)
    requires Partitioned(t, n)
    ensures Partitioned(CleanupOldCalls(t, before), n)
  {
    CleanupKeeps(t, before);
    var t' := CleanupOldCalls(t, before);
    forall x, c | x in t'.alerts && c in t'.alerts[x].callIds ensures FlaggedFor(t', c, x) {
      assert FlaggedFor(t, c, x);
    }
  }

  /** The A-numbers a registration would read cover the stored calls of its window. */
  ghost predicate Covers(cfg: Config, s: Store, r: Registration) {
    var callers := Callers(AddCaller(s.cache, r.b, r.a, r.at, cfg.window), r.b, r.at);
    && r.a in callers
    && forall c :: c in s.tables.calls && s.tables.calls[c].b == r.b ==>
         r.at - s.tables.calls[c].at < cfg.window ==> s.tables.calls[c].a in callers
  }

  /** What an alert may hold: its trigger, unflagged calls, and the callers of those inside its window. */
  ghost predicate WellFounded(t: Tables, n: nat, alert: AlertRow) {
    && alert.score == 1.0 && n in alert.callIds
    && (forall c :: c in alert.callIds ==> c in t.calls && !t.calls[c].flagged)
    && (forall c :: c in alert.callIds && c in t.calls && t.calls[c].at > alert.windowStart ==>
          t.calls[c].a in alert.aNumbers)
  }

  lemma AlertRaised(cfg: Config, t: Tables, k: nat, r: Registration, callers: set<Msisdn>) returns (alert: AlertRow)
    requires ValidConfig(cfg) && |callers| >= cfg.threshold
    requires k in t.calls && t.calls[k] == NewRow(r)
    requires forall c :: c in t.calls && t.calls[c].b == r.b ==>
      r.at - t.calls[c].at < cfg.window ==> t.calls[c].a in callers
    ensures WellFounded(t, k, alert)
    ensures RaiseAlert(cfg, t, k, r, callers) == FlagAsFraud(SaveAlert(t, k, alert), alert.callIds, k)
  {
    ScoreIsShare(|callers|, cfg.threshold);
    alert := NewAlert(cfg, r, |callers|, callers, r.at, CallsInWindow(t, r.b, r.at - cfg.window, r.at));
  }

  lemma RaiseAlertKeepsPartition(cfg: Config, t: Tables, k: nat, r: Registration, callers: set<Msisdn>)
    requires ValidConfig(cfg) && Partitioned(t, k) && |callers| >= cfg.threshold
    requires k in t.calls && t.calls[k] == NewRow(r)
    requires forall c :: c in t.calls && t.calls[c].b == r.b ==>
      r.at - t.calls[c].at < cfg.window ==> t.calls[c].a in callers
    ensures Partitioned(RaiseAlert(cfg, t, k, r, callers), k + 1)
  {
    var alert := AlertRaised(cfg, t, k, r, callers);
    AlertKeepsPartition(t, k, alert);
  }

  lemma RegisteredKeepsPartition(cfg: Config, s: Store, k: nat, r: Registration)
    requires ValidConfig(cfg) && Partitioned(s.tables, k) && k !in s.tables.calls
    requires Covers(cfg, s, r)
    ensures Partitioned(Registered(cfg, s, k, r).0.tables, k + 1)
  {
    var callers := Callers(AddCaller(s.cache, r.b, r.a, r.at, cfg.window), r.b, r.at);
    var saved := SaveCall(s.tables, k, NewRow(r));
    SaveCallKeepsPartition(s.tables, k, NewRow(r));
    if |callers| >= cfg.threshold {
      RaiseAlertKeepsPartition(cfg, saved, k, r, callers);
    }
    var t' := Registered(cfg, s, k, r).0.tables;
    assert t' == s.tables || t' == saved || t' == RaiseAlert(cfg, saved, k, r, callers);
  }

  lemma RaiseAlertRows(cfg: Config, t: Tables, id: nat, r: Registration, callers: set<Msisdn>, c: nat)
    requires ValidConfig(cfg)
    ensures var t' := RaiseAlert(cfg, t, id, r, callers);
      && (c in t'.calls <==> c in t.calls)
      && (c in t.calls ==> SameRow(t.calls[c], t'.calls[c]))
  {
  }

  lemma RegisteredRows(cfg: Config, s: Store, id: nat, r: Registration, c: nat)
    requires ValidConfig(cfg) && id !in s.tables.calls
    ensures var t, t' := s.tables, Registered(cfg, s, id, r).0.tables;
      && (c in t'.calls <==> c in t.calls || (c == id && !Blacklisted(s.cache, r.ip, r.at)))
      && (c in t.calls ==> SameRow(t.calls[c], t'.calls[c]))
      && (c in t'.calls && c !in t.calls ==> SameRow(NewRow(r), t'.calls[c]))
  {
    var callers := Callers(AddCaller(s.cache, r.b, r.a, r.at, cfg.window), r.b, r.at);
    RaiseAlertRows(cfg, SaveCall(s.tables, id, NewRow(r)), id, r, callers, c);
  }

  lemma StepRows(cfg: Config, s: Store, id: nat, e: Event, c: nat)
    requires ValidConfig(cfg) && c in Step(cfg, s, id, e).tables.calls && id !in s.tables.calls
    ensures var row := Step(cfg, s, id, e).tables.calls[c];
      if c in s.tables.calls then SameRow(s.tables.calls[c], row)
      else c == id && e.Register? && !Blacklisted(s.cache, e.r.ip, e.r.at) && SameRow(NewRow(e.r), row)
  {
    if e.Register? {
      RegisteredRows(cfg, s, id, e.r, c);
    }
  }

  /** Every stored call is an accepted registration of the log. */
  lemma {:induction false} RowIsLogged(cfg: Config, log: seq<Event>, n: nat, c: nat)
    requires ValidConfig(cfg) && n <= |log| && c in StateAt(cfg, log, n).tables.calls
    ensures RowComesFromLog(cfg, log, StateAt(cfg, log, n).tables, n, c)
  {
    var before := StateAt(cfg, log, n - 1);
    if n - 1 in before.tables.calls {
      RowIsLogged(cfg, log, n - 1, n - 1);
    }
    StepRows(cfg, before, n - 1, log[n - 1], c);
    if c in before.tables.calls {
      RowIsLogged(cfg, log, n - 1, c);
    }
  }

  lemma RegistrationIsCovered(cfg: Config, log: seq<Event>, k: nat)
    requires ValidConfig(cfg) && k < |log| && OnClock(log) && Accepted(cfg, log, k)
    ensures Covers(cfg, StateAt(cfg, log, k), log[k].r)
  {
    var t, r := StateAt(cfg, log, k).tables, log[k].r;
    CallersCoverWindow(cfg, log, k, k);
    forall c | c in t.calls && t.calls[c].b == r.b && r.at - t.calls[c].at < cfg.window
      ensures t.calls[c].a in Callers(AddCaller(StateAt(cfg, log, k).cache, r.b, r.a, r.at, cfg.window), r.b, r.at)
    {
      RowIsLogged(cfg, log, k, c);
      CallersCoverWindow(cfg, log, k, c);
    }
  }

  lemma RegistrationKeepsPartition(cfg: Config, log: seq<Event>, k: nat)
    requires ValidConfig(cfg) && k < |log| && OnClock(log) && log[k].Register?
    requires Partitioned(StateAt(cfg, log, k).tables, k)
    ensures Partitioned(Registered(cfg, StateAt(cfg, log, k), k, log[k].r).0.tables, k + 1)
  {
    if k in StateAt(cfg, log, k).tables.calls {
      RowIsLogged(cfg, log, k, k);
    } else if Accepted(cfg, log, k) {
      RegistrationIsCovered(cfg, log, k);
      RegisteredKeepsPartition(cfg, StateAt(cfg, log, k), k, log[k].r);
    }
  }

  lemma PartitionStep(cfg: Config, log: seq<Event>, k: nat)
    requires ValidConfig(cfg) && k < |log| && OnClock(log)
    requires Partitioned(StateAt(cfg, log, k).tables, k)
    ensures Partitioned(Step(cfg, StateAt(cfg, log, k), k, log[k]).tables, k + 1)
  {
    match log[k]
    case Register(_) => RegistrationKeepsPartition(cfg, log, k);
    case Cleanup(before, _) => CleanupKeepsPartition(StateAt(cfg, log, k).tables, k, before);
    case Blacklist(_, _, _) =>
  }

  lemma {:induction false} PartitionedThroughout(all: seq<Store>, n: nat)
    requires n < |all| && all[0] == EMPTY
    requires forall k :: 0 <= k < n && Partitioned(all[k].tables, k) ==> Partitioned(all[k + 1].tables, k + 1)
    ensures Partitioned(all[n].tables, n)
  {
    if n == 0 {
    } else {
      PartitionedThroughout(all, n - 1);
    }
  }

  /** Sequential registrations, cleanups and blacklistings: the alerts partition the flagged calls. */
  lemma AlertsPartitionCalls(cfg: Config, log: seq<Event>, n: nat)
    requires ValidConfig(cfg) && n <= |log| && OnClock(log)
    ensures Partitioned(StateAt(cfg, log, n).tables, n)
  {
    var all := States(cfg, log);
    forall k | 0 <= k < n && Partitioned(all[k].tables, k) ensures Partitioned(all[k + 1].tables, k + 1) {
      PartitionStep(cfg, log, k);
    }
    PartitionedThroughout(all, n);
  }

  lemma ListedOnce(t: Tables, x: nat, y: nat)
    requires ListedAreFlagged(t) && x in t.alerts && y in t.alerts && x != y
    ensures t.alerts[x].callIds !! t.alerts[y].callIds
  {
    forall c | c in t.alerts[x].callIds ensures c !in t.alerts[y].callIds {
      assert FlaggedFor(t, c, x);
    }
  }

  /** Different alerts never share a call. */
  lemma AlertsAreDisjoint(cfg: Config, log: seq<Event>, n: nat, x: nat, y: nat)
    requires ValidConfig(cfg) && n <= |log| && OnClock(log)
    requires var alerts := StateAt(cfg, log, n).tables.alerts; x in alerts && y in alerts && x != y
    ensures var alerts := StateAt(cfg, log, n).tables.alerts; alerts[x].callIds !! alerts[y].callIds
  {
    AlertsPartitionCalls(cfg, log, n);
    ListedOnce(StateAt(cfg, log, n).tables, x, y);
  }
}

/** What the blacklist and the two tables hold after any sequential log, said of the log. */
module DetectionTables {
  import opened Basics
  import opened ExpiringSets
  import opened DetectionStores
  import opened RegistrationSteps
  import EvidenceProtocol
  import opened DetectionLog
  import opened DetectionTheorems

  // ---------- the blacklist ----------

  predicate Lists(e: Event, ip: Ip) {
    e.Blacklist? && e.ip == ip
  }

  /** Event `j` is the latest listing of the address before event `n`. */
  ghost predicate LatestListing(log: seq<Event>, ip: Ip, n: nat, j: nat)
    requires n <= |log|
  {
    j < n && Lists(log[j], ip) && forall i :: j < i < n ==> !Lists(log[i], ip)
  }

  /** The latest listing is permanent or has not run out. */
  ghost predicate StillListed(log: seq<Event>, ip: Ip, n: nat, now: int)
    requires n <= |log|
  {
    exists j: nat :: LatestListing(log, ip, n, j) && (log[j].ttl.None? || now < log[j].at + log[j].ttl.value)
  }

  lemma BlacklistStep(cfg: Config, s: Store, id: nat, e: Event, ip: Ip, now: int)
    requires ValidConfig(cfg)
    ensures Blacklisted(Step(cfg, s, id, e).cache, ip, now) <==>
              if Lists(e, ip) then e.ttl.None? || now < e.at + e.ttl.value else Blacklisted(s.cache, ip, now)
  {
  }

  lemma ListingStep(log: seq<Event>, ip: Ip, n: nat, now: int)
    requires n < |log|
    ensures StillListed(log, ip, n + 1, now) <==>
              if Lists(log[n], ip) then log[n].ttl.None? || now < log[n].at + log[n].ttl.value
              else StillListed(log, ip, n, now)
  {
    if Lists(log[n], ip) {
      assert LatestListing(log, ip, n + 1, n);
    } else {
      assert forall j: nat :: LatestListing(log, ip, n + 1, j) <==> LatestListing(log, ip, n, j);
    }
  }

  /** An address is blocked exactly while its latest listing is permanent or has not run out. */
  lemma {:induction false} BlockedExactly(cfg: Config, log: seq<Event>, n: nat, ip: Ip, now: int)
    requires ValidConfig(cfg) && n <= |log|
    ensures Blacklisted(StateAt(cfg, log, n).cache, ip, now) <==> StillListed(log, ip, n, now)
  {
    if n == 0 {
    } else {
      BlockedExactly(cfg, log, n - 1, ip, now);
      BlacklistStep(cfg, StateAt(cfg, log, n - 1), n - 1, log[n - 1], ip, now);
      ListingStep(log, ip, n - 1, now);
    }
  }

  // ---------- the alerts ----------

  /** Registration `x` was answered with an alert. */
  predicate Alerts(cfg: Config, log: seq<Event>, x: nat)
    requires ValidConfig(cfg) && x < |log|
  {
    log[x].Register? && ReplyAt(cfg, log, x).status == Alerted
  }

  /** From one table to the next only alert `k` is new, if it is raised. */
  ghost predicate NextAlerts(t: Tables, t': Tables, k: nat, raised: bool) {
    k !in t.alerts ==>
      forall x: nat ::
        && (x in t'.alerts <==> x in t.alerts || (x == k && raised))
        && (x in t.alerts && x in t'.alerts ==> t'.alerts[x] == t.alerts[x])
  }

  lemma AlertsStep(cfg: Config, log: seq<Event>, k: nat)
    requires ValidConfig(cfg) && k < |log|
    ensures NextAlerts(StateAt(cfg, log, k).tables, Step(cfg, StateAt(cfg, log, k), k, log[k]).tables, k,
                       Alerts(cfg, log, k))
  {
  }

  lemma {:induction false} AlertsThroughout(tables: seq<Tables>, raised: seq<bool>, n: nat, x: nat)
    requires n <= |raised| && |tables| == |raised| + 1 && tables[0].alerts == map[]
    requires forall k :: 0 <= k < n ==> NextAlerts(tables[k], tables[k + 1], k, raised[k])
    ensures x in tables[n].alerts <==> x < n && raised[x]
    ensures forall m :: x < m <= n && x in tables[m].alerts ==>
              x in tables[n].alerts && tables[m].alerts[x] == tables[n].alerts[x]
  {
    if n == 0 {
    } else {
      AlertsThroughout(tables, raised, n - 1, x);
      AlertsThroughout(tables, raised, n - 1, n - 1);
      assert NextAlerts(tables[n - 1], tables[n - 1 + 1], n - 1, raised[n - 1]);
    }
  }

  function TablesOf(cfg: Config, log: seq<Event>): (all: seq<Tables>)
    requires ValidConfig(cfg)
    ensures |all| == |log| + 1 && forall k :: 0 <= k <= |log| ==> all[k] == StateAt(cfg, log, k).tables
  {
    seq(|log| + 1, k requires 0 <= k <= |log| => StateAt(cfg, log, k).tables)
  }

  function Raised(cfg: Config, log: seq<Event>): (all: seq<bool>)
    requires ValidConfig(cfg)
    ensures |all| == |log| && forall k :: 0 <= k < |log| ==> all[k] == Alerts(cfg, log, k)
  {
    seq(|log|, k requires 0 <= k < |log| => Alerts(cfg, log, k))
  }

  /** The alerts of a log are those of the registrations answered with one, and stay as they were raised. */
  lemma AlertExistsExactly(cfg: Config, log: seq<Event>, n: nat, x: nat)
    requires ValidConfig(cfg) && n <= |log|
    ensures x in StateAt(cfg, log, n).tables.alerts <==> x < n && Alerts(cfg, log, x)
    ensures forall m :: x < m <= n && x in StateAt(cfg, log, m).tables.alerts ==>
              && x in StateAt(cfg, log, n).tables.alerts
              && StateAt(cfg, log, m).tables.alerts[x] == StateAt(cfg, log, n).tables.alerts[x]
  {
    var tables, raised := TablesOf(cfg, log), Raised(cfg, log);
    forall k | 0 <= k < n ensures NextAlerts(tables[k], tables[k + 1], k, raised[k]) {
      AlertsStep(cfg, log, k);
    }
    AlertsThroughout(tables, raised, n, x);
    forall m | x < m <= n && x in StateAt(cfg, log, m).tables.alerts
      ensures x in tables[n].alerts && StateAt(cfg, log, m).tables.alerts[x] == tables[n].alerts[x]
    {
      assert x in tables[m].alerts;
    }
  }

  // ---------- the calls ----------

  /** An alert raised before event `n` lists the call. */
  ghost predicate Listed(cfg: Config, log: seq<Event>, c: nat, n: nat)
    requires ValidConfig(cfg) && n <= |log|
  {
    exists x: nat :: ListsCall(StateAt(cfg, log, n).tables, x, c)
  }

  predicate ListsCall(t: Tables, x: nat, c: nat) {
    x in t.alerts && c in t.alerts[x].callIds
  }

  /** A cleanup between the call and event `n` found it old and in no alert. */
  ghost predicate CleanedUp(cfg: Config, log: seq<Event>, c: nat, n: nat)
    requires ValidConfig(cfg) && c < n <= |log| && log[c].Register?
  {
    exists j :: c < j < n && TakesCall(cfg, log, c, j)
  }

  ghost predicate TakesCall(cfg: Config, log: seq<Event>, c: nat, j: nat)
    requires ValidConfig(cfg) && c < j < |log| && log[c].Register?
  {
    log[j].Cleanup? && log[c].r.at < log[j].before && !Listed(cfg, log, c, j)
  }

  /** A stored call is flagged exactly when an alert lists it, and names that alert. */
  lemma FlaggedExactly(cfg: Config, log: seq<Event>, n: nat, c: nat)
    requires ValidConfig(cfg) && n <= |log| && OnClock(log) && c in StateAt(cfg, log, n).tables.calls
    ensures var t := StateAt(cfg, log, n).tables;
      && (t.calls[c].flagged <==> Listed(cfg, log, c, n))
      && forall x: nat :: t.calls[c].alertId == Some(x) <==> ListsCall(t, x, c)
  {
    var t := StateAt(cfg, log, n).tables;
    AlertsPartitionCalls(cfg, log, n);
    RowIsLogged(cfg, log, n, c);
    forall x: nat ensures t.calls[c].alertId == Some(x) <==> ListsCall(t, x, c) {
      if ListsCall(t, x, c) {
        assert FlaggedFor(t, c, x);
      }
    }
    if t.calls[c].flagged {
      assert EvidenceProtocol.HasEvidence(t, c);
      assert ListsCall(t, t.calls[c].alertId.value, c);
    }
  }

  lemma StoredStep(cfg: Config, s: Store, id: nat, e: Event, c: nat)
    requires ValidConfig(cfg) && id !in s.tables.calls
    ensures c in Step(cfg, s, id, e).tables.calls <==>
      match e
      case Register(r) => c in s.tables.calls || (c == id && !Blacklisted(s.cache, r.ip, r.at))
      case Cleanup(before, _) =>
        c in s.tables.calls && (s.tables.calls[c].flagged || s.tables.calls[c].at >= before)
      case Blacklist(_, _, _) => c in s.tables.calls
  {
    if e.Register? {
      RegisteredRows(cfg, s, id, e.r, c);
    }
  }

  /** The calls an event takes away. */
  ghost function Taken(cfg: Config, log: seq<Event>, j: nat): set<nat>
    requires ValidConfig(cfg) && j < |log|
  {
    set c | 0 <= c < j && log[c].Register? && TakesCall(cfg, log, c, j)
  }

  /** What is stored after an event. */
  function Stored(before: set<nat>, k: nat, accepted: bool, taken: set<nat>): set<nat> {
    before - taken + (if accepted then {k} else {})
  }

  lemma StaysStored(cfg: Config, log: seq<Event>, k: nat, c: nat)
    requires ValidConfig(cfg) && k < |log| && OnClock(log) && k !in StateAt(cfg, log, k).tables.calls
    ensures c in Step(cfg, StateAt(cfg, log, k), k, log[k]).tables.calls.Keys <==>
              c in Stored(StateAt(cfg, log, k).tables.calls.Keys, k, Accepted(cfg, log, k), Taken(cfg, log, k))
  {
    StoredStep(cfg, StateAt(cfg, log, k), k, log[k], c);
    if c in StateAt(cfg, log, k).tables.calls {
      RowIsLogged(cfg, log, k, c);
      FlaggedExactly(cfg, log, k, c);
    }
  }

  lemma StoredNext(cfg: Config, log: seq<Event>, k: nat)
    requires ValidConfig(cfg) && k < |log| && OnClock(log)
    ensures Step(cfg, StateAt(cfg, log, k), k, log[k]).tables.calls.Keys ==
            Stored(StateAt(cfg, log, k).tables.calls.Keys, k, Accepted(cfg, log, k), Taken(cfg, log, k))
  {
    if k in StateAt(cfg, log, k).tables.calls {
      RowIsLogged(cfg, log, k, k);
    }
    forall c: nat
      ensures c in Step(cfg, StateAt(cfg, log, k), k, log[k]).tables.calls.Keys <==>
                c in Stored(StateAt(cfg, log, k).tables.calls.Keys, k, Accepted(cfg, log, k), Taken(cfg, log, k))
    {
      StaysStored(cfg, log, k, c);
    }
  }

  lemma {:induction false} StoredThroughout(stored: seq<set<nat>>, accepted: seq<bool>, taken: seq<set<nat>>, n: nat,
                                            c: nat)
    requires n <= |accepted| == |taken| && |stored| == |taken| + 1 && stored[0] == {}
    requires forall k :: 0 <= k < n ==> stored[k + 1] == Stored(stored[k], k, accepted[k], taken[k])
    ensures c in stored[n] <==> c < n && accepted[c] && forall j :: c < j < n ==> c !in taken[j]
  {
    if n == 0 {
    } else {
      StoredThroughout(stored, accepted, taken, n - 1, c);
      assert stored[n - 1 + 1] == Stored(stored[n - 1], n - 1, accepted[n - 1], taken[n - 1]);
    }
  }

  ghost function StoredAt(cfg: Config, log: seq<Event>): (all: seq<set<nat>>)
    requires ValidConfig(cfg)
    ensures |all| == |log| + 1 && forall k :: 0 <= k <= |log| ==> all[k] == StateAt(cfg, log, k).tables.calls.Keys
  {
    seq(|log| + 1, k requires 0 <= k <= |log| => StateAt(cfg, log, k).tables.calls.Keys)
  }

  function AcceptedAt(cfg: Config, log: seq<Event>): (all: seq<bool>)
    requires ValidConfig(cfg)
    ensures |all| == |log| && forall k :: 0 <= k < |log| ==> all[k] == Accepted(cfg, log, k)
  {
    seq(|log|, k requires 0 <= k < |log| => Accepted(cfg, log, k))
  }

  ghost function TakenAt(cfg: Config, log: seq<Event>): (all: seq<set<nat>>)
    requires ValidConfig(cfg)
    ensures |all| == |log| && forall k :: 0 <= k < |log| ==> all[k] == Taken(cfg, log, k)
  {
    seq(|log|, k requires 0 <= k < |log| => Taken(cfg, log, k))
  }

  /**
    A call is stored exactly when it was accepted and no later cleanup has found it
    older than its cutoff and in no alert.
  */
  lemma StoredExactly(cfg: Config, log: seq<Event>, n: nat, c: nat)
    requires ValidConfig(cfg) && n <= |log| && OnClock(log)
    ensures c in StateAt(cfg, log, n).tables.calls <==>
              c < n && Accepted(cfg, log, c) && !CleanedUp(cfg, log, c, n)
  {
    var stored, accepted, taken := StoredAt(cfg, log), AcceptedAt(cfg, log), TakenAt(cfg, log);
    forall k | 0 <= k < n ensures stored[k + 1] == Stored(stored[k], k, accepted[k], taken[k]) {
      StoredNext(cfg, log, k);
    }
    StoredThroughout(stored, accepted, taken, n, c);
    if c < n && log[c].Register? {
      CleanedIsTaken(cfg, log, c, n);
    }
  }

  lemma CleanedIsTaken(cfg: Config, log: seq<Event>, c: nat, n: nat)
    requires ValidConfig(cfg) && c < n <= |log| && log[c].Register?
    ensures CleanedUp(cfg, log, c, n) <==> exists j :: c < j < n && c in TakenAt(cfg, log)[j]
  {
    var taken := TakenAt(cfg, log);
    forall j | c < j < n ensures c in taken[j] <==> TakesCall(cfg, log, c, j) {
    }
  }

  // ---------- what an alert holds ----------

  /** The calls that registration `x` may list: of its number, in its closed window, kept, and in no earlier alert. */
  ghost predicate Listable(cfg: Config, log: seq<Event>, x: nat, c: nat)
    requires ValidConfig(cfg) && x < |log| && log[x].Register?
  {
    && c <= x && Accepted(cfg, log, c) && log[c].r.b == log[x].r.b
    && log[x].r.at - cfg.window <= log[c].r.at <= log[x].r.at
    && (c < x ==> !CleanedUp(cfg, log, c, x) && !Listed(cfg, log, c, x))
  }

  lemma RegisteredLists(cfg: Config, s: Store, id: nat, r: Registration, c: nat)
    requires ValidConfig(cfg) && id !in s.tables.alerts && id !in s.tables.calls
    requires Registered(cfg, s, id, r).1.status == Alerted
    ensures var t, alerts := s.tables, Registered(cfg, s, id, r).0.tables.alerts;
      && id in alerts
      && (c in alerts[id].callIds <==>
            || c == id
            || (c in t.calls && t.calls[c].b == r.b && !t.calls[c].flagged
                && r.at - cfg.window <= t.calls[c].at <= r.at))
  {
  }

  lemma RegisteredFields(cfg: Config, s: Store, id: nat, r: Registration)
    requires ValidConfig(cfg) && id !in s.tables.alerts && Registered(cfg, s, id, r).1.status == Alerted
    ensures var alerts := Registered(cfg, s, id, r).0.tables.alerts;
      && id in alerts
      && alerts[id].b == r.b && alerts[id].sourceIp == r.ip && alerts[id].score == 1.0
      && alerts[id].windowEnd == r.at && alerts[id].windowStart == r.at - cfg.window
      && alerts[id].aNumbers == Callers(AddCaller(s.cache, r.b, r.a, r.at, cfg.window), r.b, r.at)
  {
    ScoreIsShare(|Callers(AddCaller(s.cache, r.b, r.a, r.at, cfg.window), r.b, r.at)|, cfg.threshold);
  }

  lemma AlertNamesBurst(cfg: Config, log: seq<Event>, x: nat)
    requires ValidConfig(cfg) && x < |log| && Alerts(cfg, log, x)
    ensures Accepted(cfg, log, x) && History(cfg, log, log[x].r.b, x + 1) != []
    ensures var r := log[x].r;
      Callers(AddCaller(StateAt(cfg, log, x).cache, r.b, r.a, r.at, cfg.window), r.b, r.at) ==
      BurstCallers(cfg, History(cfg, log, r.b, x + 1))
  {
    var r := log[x].r;
    CacheRefinesHistory(cfg, log, r.b, x);
    SetOfAppend(History(cfg, log, r.b, x), Add(r.a, r.at), cfg.window);
    BurstIsLive(cfg, History(cfg, log, r.b, x + 1));
  }

  ghost predicate HoldsExactly(cfg: Config, log: seq<Event>, x: nat, alert: AlertRow)
    requires ValidConfig(cfg) && x < |log| && log[x].Register?
  {
    var r, calls := log[x].r, History(cfg, log, log[x].r.b, x + 1);
    && alert.b == r.b && alert.sourceIp == r.ip && alert.score == 1.0
    && alert.windowEnd == r.at && alert.windowStart == r.at - cfg.window
    && calls != [] && alert.aNumbers == BurstCallers(cfg, calls)
    && forall c: nat :: c in alert.callIds <==> Listable(cfg, log, x, c)
  }

  lemma AlertWhenRaised(cfg: Config, log: seq<Event>, x: nat)
    requires ValidConfig(cfg) && x < |log| && OnClock(log) && Alerts(cfg, log, x)
    ensures var alerts := Registered(cfg, StateAt(cfg, log, x), x, log[x].r).0.tables.alerts;
      Accepted(cfg, log, x) && x in alerts && HoldsExactly(cfg, log, x, alerts[x])
  {
    var s, r := StateAt(cfg, log, x), log[x].r;
    AlertExistsExactly(cfg, log, x, x);
    StoredExactly(cfg, log, x, x);
    RegisteredFields(cfg, s, x, r);
    AlertNamesBurst(cfg, log, x);
    var alert := Registered(cfg, s, x, r).0.tables.alerts[x];
    forall c: nat ensures c in alert.callIds <==> Listable(cfg, log, x, c) {
      ListableExactly(cfg, log, x, c);
    }
  }

  lemma ListableExactly(cfg: Config, log: seq<Event>, x: nat, c: nat)
    requires ValidConfig(cfg) && x < |log| && OnClock(log) && Alerts(cfg, log, x)
    requires x !in StateAt(cfg, log, x).tables.alerts && x !in StateAt(cfg, log, x).tables.calls
    ensures var alerts := Registered(cfg, StateAt(cfg, log, x), x, log[x].r).0.tables.alerts;
      x in alerts && (c in alerts[x].callIds <==> Listable(cfg, log, x, c))
  {
    var s := StateAt(cfg, log, x);
    RegisteredLists(cfg, s, x, log[x].r, c);
    StoredExactly(cfg, log, x, c);
    if c in s.tables.calls {
      RowIsLogged(cfg, log, x, c);
      FlaggedExactly(cfg, log, x, c);
      assert log[c].r.at == Clock(log[c]) <= Clock(log[x]) == log[x].r.at;
    }
  }

  /** The alert when it was raised is the alert at any later time. */
  lemma FirstAlert(cfg: Config, log: seq<Event>, n: nat, x: nat) returns (alert: AlertRow)
    requires ValidConfig(cfg) && n <= |log| && OnClock(log) && x in StateAt(cfg, log, n).tables.alerts
    ensures x < n && Accepted(cfg, log, x) && alert == StateAt(cfg, log, n).tables.alerts[x]
    ensures HoldsExactly(cfg, log, x, alert)
  {
    AlertExistsExactly(cfg, log, n, x);
    var alerts := Registered(cfg, StateAt(cfg, log, x), x, log[x].r).0.tables.alerts;
    assert alerts == StateAt(cfg, log, x + 1).tables.alerts;
    AlertWhenRaised(cfg, log, x);
    alert := alerts[x];
  }

  /**
    Every alert of every log, field by field: it is of the registration that was
    answered with it, names the callers of its number's burst, and lists exactly
    the calls of the number in the window that were kept and in no alert yet.
  */
  lemma AlertHoldsExactly(cfg: Config, log: seq<Event>, n: nat, x: nat)
    requires ValidConfig(cfg) && n <= |log| && OnClock(log) && x in StateAt(cfg, log, n).tables.alerts
    ensures x < n && Accepted(cfg, log, x) && HoldsExactly(cfg, log, x, StateAt(cfg, log, n).tables.alerts[x])
  {
    var alert := FirstAlert(cfg, log, n, x);
  }
}

/** The adapters and the service, changing their stores in place. */
module DetectionEngine {
  import opened Basics
  import opened ExpiringSets
  import opened DetectionStores
  import opened RegistrationSteps

  class DragonflyCache {
    var windows: map<Msisdn, TtlSet<Msisdn>>
    var cooldowns: map<Msisdn, int>
    var blacklist: map<Ip, Option<int>>

    function View(): Cache
      reads this
    {
      Cache(windows, cooldowns, blacklist)
    }

    constructor ()
      ensures View() == EMPTY.cache
    {
      windows, cooldowns, blacklist := map[], map[], map[];
    }

    method AddCallerToWindow(b: Msisdn, a: Msisdn, seconds: int, now: int)
      modifies this
      ensures View() == AddCaller(old(View()), b, a, now, seconds)
    {
      var members := {};
      if b in windows && now < windows[b].deadline {
        members := windows[b].members;
      }
      members := members + {a};
      windows := windows[b := TtlSet(members, now + seconds)];
    }

    method GetDistinctCallers(b: Msisdn, now: int) returns (callers: set<Msisdn>)
      ensures callers == Callers(View(), b, now)
    {
      callers := if b in windows && now < windows[b].deadline then windows[b].members else {};
    }

    method GetDistinctCallerCount(b: Msisdn, now: int) returns (n: nat)
      ensures n == |Callers(View(), b, now)|
    {
      var callers := GetDistinctCallers(b, now);
      n := |callers|;
    }

    method IsInCooldown(b: Msisdn, now: int) returns (cooling: bool)
      ensures cooling == InCooldown(View(), b, now)
    {
      cooling := b in cooldowns && now < cooldowns[b];
    }

    method PutCooldown(b: Msisdn, seconds: int, now: int)
      modifies this
      ensures View() == SetCooldown(old(View()), b, now, seconds)
    {
      cooldowns := cooldowns[b := now + seconds];
    }

    method IsIpBlacklisted(ip: Ip, now: int) returns (listed: bool)
      ensures listed == Blacklisted(View(), ip, now)
    {
      listed := ip in blacklist && (blacklist[ip].None? || now < blacklist[ip].value);
    }

    method BlacklistIp(ip: Ip, ttl: Option<int>, now: int)
      modifies this
      ensures View() == AddToBlacklist(old(View()), ip, now, ttl)
    {
      match ttl
      case Some(seconds) => blacklist := blacklist[ip := Some(now + seconds)];
      case None => blacklist := blacklist[ip := None];
    }
  }

  class YugabyteRepository {
    var calls: map<nat, CallRow>
    var alerts: map<nat, AlertRow>

    function View(): Tables
      reads this
    {
      Tables(calls, alerts)
    }

    constructor ()
      ensures View() == EMPTY.tables
    {
      calls, alerts := map[], map[];
    }

    method Save(id: nat, row: CallRow)
      modifies this`calls
      ensures View() == SaveCall(old(View()), id, row)
      ensures calls.Keys == old(calls.Keys) + {id}
      ensures forall c :: c in old(calls) && c != id ==> calls[c] == old(calls)[c]
      ensures id !in old(calls) ==> calls[id] == row
      ensures id in old(calls) ==> var was := old(calls)[id];
        calls[id] == CallRow(was.a, was.b, was.ip, was.at, row.flagged, row.alertId)
    {
      if id in calls {
        calls := calls[id := calls[id].(flagged := row.flagged, alertId := row.alertId)];
      } else {
        calls := calls[id := row];
      }
    }

    /** The unflagged calls to `b` in the window, latest first, each once. */
    method FindCallsInWindow(b: Msisdn, from: int, to: int) returns (ids: seq<nat>)
      ensures forall c :: c in ids <==>
        c in calls && calls[c].b == b && from <= calls[c].at <= to && !calls[c].flagged
      ensures (set i | i in ids) == CallsInWindow(View(), b, from, to)
      ensures |ids| == |CallsInWindow(View(), b, from, to)|
      ensures forall i, j :: 0 <= i < j < |ids| ==>
        ids[i] in calls && ids[j] in calls && calls[ids[i]].at >= calls[ids[j]].at
    {
      var found := CallsInWindow(View(), b, from, to);
      var rest := found;
      ids := [];
      while rest != {}
        invariant rest <= found && |ids| + |rest| == |found|
        invariant forall i :: 0 <= i < |ids| ==> ids[i] in found - rest
        invariant forall c :: c in found - rest ==> c in ids
        invariant forall i, c :: 0 <= i < |ids| && c in rest ==> calls[ids[i]].at >= calls[c].at
        invariant forall i, j :: 0 <= i < j < |ids| ==> calls[ids[i]].at >= calls[ids[j]].at
      {
        var latest := Latest(rest);
        ids := ids + [latest];
        rest := rest - {latest};
      }
      assert (set i | i in ids) == found;
    }

    method Latest(rows: set<nat>) returns (latest: nat)
      requires rows != {} && rows <= calls.Keys
      ensures latest in rows && forall c :: c in rows ==> calls[c].at <= calls[latest].at
    {
      latest :| latest in rows;
      var rest := rows - {latest};
      while rest != {}
        invariant rest <= rows && latest in rows
        invariant forall c :: c in rows - rest ==> calls[c].at <= calls[latest].at
      {
        var c :| c in rest;
        if calls[c].at > calls[latest].at {
          latest := c;
        }
        rest := rest - {c};
      }
    }

    method MarkAsFraud(ids: set<nat>, alert: nat) returns (affected: nat)
      modifies this`calls
      ensures View() == FlagAsFraud(old(View()), ids, alert)
      ensures affected == |ids * old(calls).Keys|
    {
      affected := |ids * calls.Keys|;
      calls := map c | c in calls ::
        if c in ids then calls[c].(flagged := true, alertId := Some(alert)) else calls[c];
    }

    method DeleteOldCalls(before: int) returns (affected: nat)
      modifies this`calls
      ensures View() == CleanupOldCalls(old(View()), before)
      ensures |calls| + affected == |old(calls)|
    {
      var old_ := set c | c in calls && !calls[c].flagged && calls[c].at < before;
      affected := |old_|;
      ghost var keys := calls.Keys;
      calls := map c | c in calls && (calls[c].flagged || calls[c].at >= before) :: calls[c];
      assert keys == calls.Keys + old_ && calls.Keys !! old_;
    }

    method SaveAlertRow(id: nat, row: AlertRow)
      modifies this`alerts
      ensures View() == SaveAlert(old(View()), id, row)
      ensures alerts.Keys == old(alerts.Keys) + {id}
      ensures forall x :: x in old(alerts) && x != id ==> alerts[x] == old(alerts)[x]
      ensures id !in old(alerts) ==> alerts[id] == row
      ensures id in old(alerts) ==> var was := old(alerts)[id];
        alerts[id] ==
        AlertRow(was.b, row.aNumbers, row.callIds, was.sourceIp, was.score, was.windowStart, was.windowEnd)
    {
      if id in alerts {
        alerts := alerts[id := alerts[id].(aNumbers := row.aNumbers, callIds := row.callIds)];
      } else {
        alerts := alerts[id := row];
      }
    }
  }

  class DetectionService {
    const cfg: Config
    const cache: DragonflyCache
    const repo: YugabyteRepository

    constructor (cfg: Config, cache: DragonflyCache, repo: YugabyteRepository)
      ensures this.cfg == cfg && this.cache == cache && this.repo == repo
    {
      this.cfg, this.cache, this.repo := cfg, cache, repo;
    }

    function Stores(): Store
      reads cache, repo
    {
      Store(cache.View(), repo.View())
    }

    /** The error result of a registration that stops early, the reply of one that is done. */
    ghost predicate Ends(s: Store, phase: Phase, result: Option<Reply>)
      reads cache, repo
    {
      Stores() == s && result == (if phase.Done? then Some(phase.reply) else None)
    }

    /**
      Registers call `id`; the operation after the first `survives` ones fails
      and ends the registration with an error.
    */
    method RegisterCall(id: nat, r: Registration, survives: nat) returns (result: Option<Reply>)
      requires ValidConfig(cfg)
      modifies cache, repo
      ensures var (s, phase) := Exec(cfg, old(Stores()), id, r, Ready, survives); Ends(s, phase, result)
    {
      if survives == 0 {
        return None;
      }
      ExecStep(cfg, Stores(), id, r, Ready, survives);
      var listed := cache.IsIpBlacklisted(r.ip, r.at);
      if listed {
        return Some(Reply(Blocked, 0));
      }
      if survives == 1 {
        return None;
      }
      ExecStep(cfg, Stores(), id, r, Screened, survives - 1);
      cache.AddCallerToWindow(r.b, r.a, cfg.window, r.at);
      result := StoreCall(id, r, survives - 2);
    }

    /** `register_call` from the caller count on. */
    method StoreCall(id: nat, r: Registration, survives: nat) returns (result: Option<Reply>)
      requires ValidConfig(cfg)
      modifies cache, repo
      ensures var (s, phase) := Exec(cfg, old(Stores()), id, r, Added, survives); Ends(s, phase, result)
    {
      if survives == 0 {
        return None;
      }
      ExecStep(cfg, Stores(), id, r, Added, survives);
      var n := cache.GetDistinctCallerCount(r.b, r.at);
      if survives == 1 {
        return None;
      }
      ExecStep(cfg, Stores(), id, r, Counted(n), survives - 1);
      repo.Save(id, NewRow(r));
      if n < cfg.threshold {
        return Some(Reply(Processed, n));
      }
      if survives == 2 {
        return None;
      }
      ExecStep(cfg, Stores(), id, r, Suspect(n), survives - 2);
      var cooling := cache.IsInCooldown(r.b, r.at);
      if cooling {
        return Some(Reply(Cooldown, n));
      }
      result := CreateAlert(id, r, n, survives - 3);
    }

    /** `create_alert`, up to the alert's contents. */
    method CreateAlert(id: nat, r: Registration, n: nat, survives: nat) returns (result: Option<Reply>)
      requires ValidConfig(cfg)
      modifies cache, repo
      ensures var (s, phase) := Exec(cfg, old(Stores()), id, r, Alarming(n), survives); Ends(s, phase, result)
    {
      var windowStart := r.at - cfg.window;
      if survives == 0 {
        return None;
      }
      ExecStep(cfg, Stores(), id, r, Alarming(n), survives);
      var aNumbers := cache.GetDistinctCallers(r.b, r.at);
      if survives == 1 {
        return None;
      }
      ExecStep(cfg, Stores(), id, r, GotCallers(n, aNumbers, r.at), survives - 1);
      var found := repo.FindCallsInWindow(r.b, windowStart, r.at);
      var ids := set i | i in found;
      assert ids == CallsInWindow(repo.View(), r.b, windowStart, r.at);
      result := PersistAlert(id, r, n, aNumbers, ids, survives - 2);
    }

    /** `create_alert` from the saving of the alert on, and the cooldown after it. */
    method PersistAlert(id: nat, r: Registration, n: nat, aNumbers: set<Msisdn>, ids: set<nat>, survives: nat)
      returns (result: Option<Reply>)
      requires ValidConfig(cfg)
      modifies cache, repo
      ensures var (s, phase) := Exec(cfg, old(Stores()), id, r, GotCalls(n, aNumbers, r.at, ids), survives);
        Ends(s, phase, result)
    {
      ExecPersist(cfg, Stores(), id, r, n, aNumbers, ids, survives);
      if survives == 0 {
        return None;
      }
      repo.SaveAlertRow(id, NewAlert(cfg, r, n, aNumbers, r.at, ids));
      if survives == 1 {
        return None;
      }
      var _ := repo.MarkAsFraud(ids, id);
      if survives == 2 {
        return None;
      }
      cache.PutCooldown(r.b, cfg.cooldown, r.at);
      return Some(Reply(Alerted, n));
    }
  }

  /** The inline handler: the window and the threshold, and nothing else. */
  method HandleEvent(cache: DragonflyCache, cfg: Config, b: Msisdn, a: Msisdn, now: int)
    returns (alert: bool, count: nat)
    modifies cache
    ensures cache.View() == AddCaller(old(cache.View()), b, a, now, cfg.window)
    ensures count == |Callers(cache.View(), b, now)| && (alert <==> count >= cfg.threshold)
  {
    cache.AddCallerToWindow(b, a, cfg.window, now);
    count := cache.GetDistinctCallerCount(b, now);
    alert := count >= cfg.threshold;
  }
}
