/**
  What interleaved registrations can do to the alerts of one number, and when
  they cannot: the calls of an alert are read before they are flagged, and the
  cooldown is checked before it is set.  A registration that stops between two of
  its operations stays in the phase it stopped in.
*/
module AlertRaces {
  import opened DetectionStores
  import opened RegistrationSteps
  import opened EvidenceProtocol

  /** The calls have been read and not yet flagged. */
  predicate Reading(p: Phase) {
    p.GotCalls? || p.AlertSaved?
  }

  /** No two registrations of one number are between reading their calls and flagging them. */
  ghost predicate ReadersApart(w: World) {
    forall x, y :: x in w.jobs && y in w.jobs && x != y && Reading(w.jobs[x].phase) && Reading(w.jobs[y].phase) ==>
      w.jobs[x].r.b != w.jobs[y].r.b
  }

  /** Different alerts share no call. */
  ghost predicate Disjoint(t: Tables) {
    forall x, y :: x in t.alerts && y in t.alerts && x != y ==> t.alerts[x].callIds !! t.alerts[y].callIds
  }

  // ---------- the calls of concurrent alerts ----------

  /** The call has been stored, for the same number. */
  ghost predicate CallFor(w: World, c: nat, b: Msisdn) {
    c in w.jobs && !BeforeCallSaved(w.jobs[c].phase) && w.jobs[c].r.b == b
  }

  function ReadIds(p: Phase): set<nat> {
    match p
    case GotCalls(_, _, _, ids) => ids
    case AlertSaved(_, ids) => ids
    case _ => {}
  }

  ghost predicate RowsBelong(w: World) {
    forall c :: c in w.store.tables.calls ==> CallFor(w, c, w.store.tables.calls[c].b)
  }

  ghost predicate ReadsBelong(w: World) {
    forall x, c :: x in w.jobs && c in ReadIds(w.jobs[x].phase) ==> CallFor(w, c, w.jobs[x].r.b)
  }

  ghost predicate AlertsBelong(w: World) {
    forall x :: x in w.store.tables.alerts ==>
      x in w.jobs && forall c :: c in w.store.tables.alerts[x].callIds ==> CallFor(w, c, w.jobs[x].r.b)
  }

  /** Once an alert's flags are written, each of its calls that is still stored is flagged. */
  ghost predicate FlagsWritten(w: World) {
    forall x, c ::
      (x in w.store.tables.alerts && x in w.jobs && !w.jobs[x].phase.AlertSaved?
       && c in w.store.tables.alerts[x].callIds && c in w.store.tables.calls) ==> w.store.tables.calls[c].flagged
  }

  ghost predicate Belong(w: World) {
    RowsBelong(w) && ReadsBelong(w) && AlertsBelong(w)
  }

  /** A stored call stays one: phases only go forward. */
  lemma CallsStayStored(cfg: Config, w: World, act: Action)
    requires ValidConfig(cfg) && Enabled(w, act)
    ensures forall c, b :: CallFor(w, c, b) ==> CallFor(Next(cfg, w, act), c, b)
  {
  }

  lemma RowsStayBelonging(cfg: Config, w: World, act: Action)
    requires ValidConfig(cfg) && Enabled(w, act) && Inv(w) && RowsBelong(w)
    ensures RowsBelong(Next(cfg, w, act))
  {
    CallsStayStored(cfg, w, act);
  }

  lemma ReadsStayBelonging(cfg: Config, w: World, act: Action)
    requires ValidConfig(cfg) && Enabled(w, act) && Inv(w) && Belong(w)
    ensures ReadsBelong(Next(cfg, w, act))
  {
    var w' := Next(cfg, w, act);
    CallsStayStored(cfg, w, act);
    forall x, c | x in w'.jobs && c in ReadIds(w'.jobs[x].phase) ensures CallFor(w', c, w'.jobs[x].r.b) {
      if act.Proceed? && act.id == x && w.jobs[x].phase.GotCallers? {
        assert c in w.store.tables.calls;
      } else {
        assert c in ReadIds(w.jobs[x].phase);
      }
    }
  }

  lemma AlertsStayBelonging(cfg: Config, w: World, act: Action)
    requires ValidConfig(cfg) && Enabled(w, act) && Inv(w) && Belong(w)
    ensures AlertsBelong(Next(cfg, w, act))
  {
    CallsStayStored(cfg, w, act);
  }

  lemma FlagsStayWritten(cfg: Config, w: World, act: Action)
    requires ValidConfig(cfg) && Enabled(w, act) && Inv(w) && Belong(w) && FlagsWritten(w)
    ensures FlagsWritten(Next(cfg, w, act))
  {
  }

  /** In every reachable world, however the registrations interleaved and wherever they stopped. */
  lemma {:induction false} FlagsAlwaysWritten(cfg: Config, worlds: seq<World>, acts: seq<Action>, n: nat)
    requires ValidConfig(cfg) && IsRun(cfg, worlds, acts) && n < |worlds|
    ensures Inv(worlds[n]) && Belong(worlds[n]) && FlagsWritten(worlds[n])
  {
    EvidenceAlways(cfg, worlds, acts, n);
    if n == 0 {
    } else {
      FlagsAlwaysWritten(cfg, worlds, acts, n - 1);
      FlagsStep(cfg, worlds[n - 1], acts[n - 1]);
    }
  }

  lemma FlagsStep(cfg: Config, w: World, act: Action)
    requires ValidConfig(cfg) && Enabled(w, act) && Inv(w) && Belong(w) && FlagsWritten(w)
    ensures Belong(Next(cfg, w, act)) && FlagsWritten(Next(cfg, w, act))
  {
    RowsStayBelonging(cfg, w, act);
    ReadsStayBelonging(cfg, w, act);
    AlertsStayBelonging(cfg, w, act);
    FlagsStayWritten(cfg, w, act);
  }

  predicate Reads(w: World, act: Action, y: nat) {
    act.Proceed? && act.id == y && y in w.jobs && w.jobs[y].phase.GotCallers?
  }

  /** The calls that registration `y` is about to read: those of its number, stored, unflagged and in its window. */
  function Readable(cfg: Config, w: World, y: nat): set<nat>
    requires y in w.jobs && w.jobs[y].phase.GotCallers?
  {
    var to := w.jobs[y].phase.to;
    CallsInWindow(w.store.tables, w.jobs[y].r.b, to - cfg.window, to)
  }

  /** Registration `x` has read its calls. */
  predicate HasRead(w: World, x: nat) {
    x in w.jobs && (Reading(w.jobs[x].phase) || x in w.store.tables.alerts)
  }

  /** The calls it read, in the registration or in its alert. */
  function ClaimOf(w: World, x: nat): set<nat>
    requires HasRead(w, x)
  {
    if Reading(w.jobs[x].phase) then ReadIds(w.jobs[x].phase) else w.store.tables.alerts[x].callIds
  }

  lemma ClaimIsAlert(w: World, x: nat)
    requires Inv(w) && HasRead(w, x) && x in w.store.tables.alerts
    ensures ClaimOf(w, x) == w.store.tables.alerts[x].callIds
  {
    assert JobAgrees(w.store.tables, x, w.jobs[x]);
  }

  lemma ClaimStays(cfg: Config, w: World, act: Action, x: nat)
    requires ValidConfig(cfg) && Enabled(w, act) && Inv(w) && HasRead(w, x)
    ensures HasRead(Next(cfg, w, act), x) && ClaimOf(Next(cfg, w, act), x) == ClaimOf(w, x)
    ensures !Reads(w, act, x)
  {
    assert JobAgrees(w.store.tables, x, w.jobs[x]);
  }

  lemma OnlyReadingClaims(cfg: Config, w: World, act: Action, y: nat)
    requires ValidConfig(cfg) && Enabled(w, act) && Inv(w) && !HasRead(w, y)
    ensures HasRead(Next(cfg, w, act), y) <==> Reads(w, act, y)
    ensures Reads(w, act, y) ==> ClaimOf(Next(cfg, w, act), y) == Readable(cfg, w, y)
  {
    if y in w.jobs {
      assert JobAgrees(w.store.tables, y, w.jobs[y]);
    }
  }

  /**
    Registration `y` reads its calls while `x`, of the same number, has read its
    own and not flagged them, and one of those is still stored, unflagged and in
    the window of `y`.
  */
  ghost predicate Meets(cfg: Config, w: World, act: Action, y: nat, x: nat) {
    && Reads(w, act, y)
    && x in w.jobs && x != y && Reading(w.jobs[x].phase) && w.jobs[x].r.b == w.jobs[y].r.b
    && exists c :: c in ReadIds(w.jobs[x].phase) && c in Readable(cfg, w, y)
  }

  /** In every reachable world: what a registration reads meets the calls of an earlier reader exactly then. */
  lemma ReadMeetsExactly(cfg: Config, w: World, act: Action, y: nat, x: nat)
    requires ValidConfig(cfg) && Enabled(w, act) && Inv(w) && Belong(w) && FlagsWritten(w)
    requires Reads(w, act, y) && x != y && HasRead(w, x)
    ensures !(Readable(cfg, w, y) !! ClaimOf(w, x)) <==> Meets(cfg, w, act, y, x)
  {
    if c :| c in Readable(cfg, w, y) && c in ClaimOf(w, x) {
      assert CallFor(w, c, w.jobs[y].r.b);
      assert CallFor(w, c, w.jobs[x].r.b);
      assert Reading(w.jobs[x].phase);
    }
  }

  /** Within the first `n` actions one of the two has met the other. */
  ghost predicate Met(cfg: Config, worlds: seq<World>, acts: seq<Action>, n: nat, x: nat, y: nat)
    requires n <= |acts| < |worlds|
  {
    exists j :: 0 <= j < n && (Meets(cfg, worlds[j], acts[j], y, x) || Meets(cfg, worlds[j], acts[j], x, y))
  }

  ghost predicate MeetEither(cfg: Config, w: World, act: Action, x: nat, y: nat) {
    Meets(cfg, w, act, y, x) || Meets(cfg, w, act, x, y)
  }

  lemma MetStep(cfg: Config, worlds: seq<World>, acts: seq<Action>, n: nat, x: nat, y: nat)
    requires n < |acts| < |worlds|
    ensures Met(cfg, worlds, acts, n + 1, x, y) <==>
              Met(cfg, worlds, acts, n, x, y) || MeetEither(cfg, worlds[n], acts[n], x, y)
  {
  }

  ghost predicate Shares(w: World, x: nat, y: nat) {
    HasRead(w, x) && HasRead(w, y) && !(ClaimOf(w, x) !! ClaimOf(w, y))
  }

  lemma SharesStep(cfg: Config, w: World, act: Action, x: nat, y: nat)
    requires ValidConfig(cfg) && Enabled(w, act) && Inv(w) && Belong(w) && FlagsWritten(w) && x != y
    ensures Shares(Next(cfg, w, act), x, y) <==> Shares(w, x, y) || MeetEither(cfg, w, act, x, y)
  {
    if HasRead(w, x) {
      ClaimStays(cfg, w, act, x);
    } else {
      OnlyReadingClaims(cfg, w, act, x);
    }
    if HasRead(w, y) {
      ClaimStays(cfg, w, act, y);
    } else {
      OnlyReadingClaims(cfg, w, act, y);
    }
    if Reads(w, act, y) && HasRead(w, x) {
      ReadMeetsExactly(cfg, w, act, y, x);
    } else if Reads(w, act, x) && HasRead(w, y) {
      ReadMeetsExactly(cfg, w, act, x, y);
    }
  }

  lemma {:induction false} SharesExactly(cfg: Config, worlds: seq<World>, acts: seq<Action>, n: nat, x: nat, y: nat)
    requires ValidConfig(cfg) && IsRun(cfg, worlds, acts) && n <= |acts| && x != y
    ensures Shares(worlds[n], x, y) <==> Met(cfg, worlds, acts, n, x, y)
  {
    if n == 0 {
    } else {
      SharesExactly(cfg, worlds, acts, n - 1, x, y);
      FlagsAlwaysWritten(cfg, worlds, acts, n - 1);
      SharesStep(cfg, worlds[n - 1], acts[n - 1], x, y);
      MetStep(cfg, worlds, acts, n - 1, x, y);
    }
  }

  /**
    In every run, however registrations, early exits, cleanups and blacklistings
    interleave: two alerts share a call if and only if one of their registrations
    met the other.
  */
  lemma AlertsShareExactly(cfg: Config, worlds: seq<World>, acts: seq<Action>, n: nat, x: nat, y: nat)
    requires ValidConfig(cfg) && IsRun(cfg, worlds, acts) && n <= |acts| && x != y
    requires x in worlds[n].store.tables.alerts && y in worlds[n].store.tables.alerts
    ensures !(worlds[n].store.tables.alerts[x].callIds !! worlds[n].store.tables.alerts[y].callIds) <==>
              Met(cfg, worlds, acts, n, x, y)
  {
    FlagsAlwaysWritten(cfg, worlds, acts, n);
    SharesExactly(cfg, worlds, acts, n, x, y);
    ClaimIsAlert(worlds[n], x);
    ClaimIsAlert(worlds[n], y);
  }

  /** So all alerts of a run are disjoint if and only if no two of their registrations have met. */
  lemma DisjointExactly(cfg: Config, worlds: seq<World>, acts: seq<Action>, n: nat)
    requires ValidConfig(cfg) && IsRun(cfg, worlds, acts) && n <= |acts|
    ensures var alerts := worlds[n].store.tables.alerts;
      Disjoint(worlds[n].store.tables) <==>
      forall x, y :: x in alerts && y in alerts && x != y ==> !Met(cfg, worlds, acts, n, x, y)
  {
    var alerts := worlds[n].store.tables.alerts;
    forall x, y | x in alerts && y in alerts && x != y
      ensures alerts[x].callIds !! alerts[y].callIds <==> !Met(cfg, worlds, acts, n, x, y)
    {
      AlertsShareExactly(cfg, worlds, acts, n, x, y);
    }
  }

  /** In particular when no two registrations of one number are between reading their calls and flagging them. */
  lemma DisjointWhenReadersApart(cfg: Config, worlds: seq<World>, acts: seq<Action>, n: nat)
    requires ValidConfig(cfg) && IsRun(cfg, worlds, acts) && n <= |acts|
    requires forall i :: 0 <= i <= n ==> ReadersApart(worlds[i])
    ensures Disjoint(worlds[n].store.tables)
  {
    forall j, x, y | 0 <= j < n && x != y ensures !Meets(cfg, worlds[j], acts[j], y, x) {
      MeetingReaders(cfg, worlds[j], acts[j], y, x);
      assert worlds[j + 1] == Next(cfg, worlds[j], acts[j]) && ReadersApart(worlds[j + 1]);
    }
    DisjointExactly(cfg, worlds, acts, n);
  }

  lemma MeetingReaders(cfg: Config, w: World, act: Action, y: nat, x: nat)
    requires ValidConfig(cfg) && Enabled(w, act)
    ensures Meets(cfg, w, act, y, x) ==> !ReadersApart(Next(cfg, w, act))
  {
    if Meets(cfg, w, act, y, x) {
      var w' := Next(cfg, w, act);
      assert w'.jobs[x] == w.jobs[x] && w'.jobs[y].r == w.jobs[y].r && Reading(w'.jobs[y].phase);
    }
  }

  // ---------- what a concurrent alert holds ----------

  /** Each stored row tells of its registration. */
  ghost predicate RowsTell(w: World) {
    forall c :: c in w.store.tables.calls ==> c in w.jobs && SameCall(w.store.tables.calls[c], w.jobs[c].r)
  }

  /** The threshold has been reached and the alert is not saved yet. */
  predicate Suspected(p: Phase) {
    p.Suspect? || p.Alarming? || p.GotCallers? || p.GotCalls?
  }

  ghost predicate CountsReached(cfg: Config, w: World) {
    forall x :: x in w.jobs && Suspected(w.jobs[x].phase) ==> w.jobs[x].phase.n >= cfg.threshold
  }

  /** Each alert tells of its registration, with the full score and a window of the configured length. */
  ghost predicate AlertsTell(cfg: Config, w: World) {
    forall x :: x in w.store.tables.alerts ==> x in w.jobs && Tells(cfg, w.store.tables.alerts[x], w.jobs[x].r)
  }

  predicate Tells(cfg: Config, alert: AlertRow, r: Registration) {
    alert.b == r.b && alert.sourceIp == r.ip && alert.score == 1.0 && alert.windowStart == alert.windowEnd - cfg.window
  }

  /** A flagged call names an alert that has written its flags. */
  ghost predicate FlagsNamed(w: World) {
    forall c :: c in w.store.tables.calls && w.store.tables.calls[c].flagged ==>
      var x := w.store.tables.calls[c].alertId;
      x.Some? && x.value in w.jobs && (w.jobs[x.value].phase.Flagged? || w.jobs[x.value].phase.Done?)
  }

  lemma RowsStayTold(cfg: Config, w: World, act: Action)
    requires ValidConfig(cfg) && Enabled(w, act) && Inv(w) && RowsTell(w)
    ensures RowsTell(Next(cfg, w, act))
  {
    if act.Proceed? {
      assert JobAgrees(w.store.tables, act.id, w.jobs[act.id]);
    }
  }

  lemma FlagsStayNamed(cfg: Config, w: World, act: Action)
    requires ValidConfig(cfg) && Enabled(w, act) && Inv(w) && FlagsNamed(w)
    ensures FlagsNamed(Next(cfg, w, act))
  {
    if act.Proceed? {
      assert JobAgrees(w.store.tables, act.id, w.jobs[act.id]);
    }
  }

  lemma CountsStayReached(cfg: Config, w: World, act: Action)
    requires ValidConfig(cfg) && Enabled(w, act) && CountsReached(cfg, w)
    ensures CountsReached(cfg, Next(cfg, w, act))
  {
  }

  lemma AlertsStayTold(cfg: Config, w: World, act: Action)
    requires ValidConfig(cfg) && Enabled(w, act) && Inv(w) && CountsReached(cfg, w) && AlertsTell(cfg, w)
    ensures AlertsTell(cfg, Next(cfg, w, act))
  {
    if act.Proceed? && w.jobs[act.id].phase.GotCalls? {
      assert JobAgrees(w.store.tables, act.id, w.jobs[act.id]);
      ScoreIsShare(w.jobs[act.id].phase.n, cfg.threshold);
    }
  }

  lemma StaysTold(cfg: Config, w: World, act: Action)
    requires ValidConfig(cfg) && Enabled(w, act) && Inv(w) && Told(cfg, w)
    ensures Told(cfg, Next(cfg, w, act))
  {
    RowsStayTold(cfg, w, act);
    FlagsStayNamed(cfg, w, act);
    CountsStayReached(cfg, w, act);
    AlertsStayTold(cfg, w, act);
  }

  ghost predicate Told(cfg: Config, w: World) {
    RowsTell(w) && FlagsNamed(w) && CountsReached(cfg, w) && AlertsTell(cfg, w)
  }

  lemma {:induction false} AlwaysTold(cfg: Config, worlds: seq<World>, acts: seq<Action>, n: nat)
    requires ValidConfig(cfg) && IsRun(cfg, worlds, acts) && n <= |acts|
    ensures Told(cfg, worlds[n])
  {
    if n == 0 {
    } else {
      AlwaysTold(cfg, worlds, acts, n - 1);
      EvidenceAlways(cfg, worlds, acts, n - 1);
      StaysTold(cfg, worlds[n - 1], acts[n - 1]);
    }
  }

  /** In every reachable world a stored call is flagged exactly when an alert that has written its flags lists it. */
  lemma FlaggedExactly(cfg: Config, worlds: seq<World>, acts: seq<Action>, n: nat, c: nat)
    requires ValidConfig(cfg) && IsRun(cfg, worlds, acts) && n <= |acts| && c in worlds[n].store.tables.calls
    ensures worlds[n].store.tables.calls[c].flagged <==> exists x: nat :: HasFlagged(worlds[n], x, c)
  {
    var w := worlds[n];
    FlagsAlwaysWritten(cfg, worlds, acts, n);
    AlwaysTold(cfg, worlds, acts, n);
    if w.store.tables.calls[c].flagged {
      assert HasEvidence(w.store.tables, c);
      assert HasFlagged(w, w.store.tables.calls[c].alertId.value, c);
    }
  }

  predicate HasFlagged(w: World, x: nat, c: nat) {
    && x in w.jobs && (w.jobs[x].phase.Flagged? || w.jobs[x].phase.Done?)
    && x in w.store.tables.alerts && c in w.store.tables.alerts[x].callIds
  }

  /** The end of the window of a registration that has read its calls. */
  function ReadEnd(w: World, x: nat): int
    requires HasRead(w, x)
  {
    if x in w.store.tables.alerts then w.store.tables.alerts[x].windowEnd
    else if w.jobs[x].phase.GotCalls? then w.jobs[x].phase.to else 0
  }

  /** Registration `x` is reading these calls, for a window with this end. */
  ghost predicate IsReading(cfg: Config, w: World, act: Action, x: nat, claim: set<nat>, end: int) {
    Reads(w, act, x) && claim == Readable(cfg, w, x) && end == w.jobs[x].phase.to
  }

  lemma ReadStep(cfg: Config, w: World, act: Action, x: nat)
    requires ValidConfig(cfg) && Enabled(w, act) && Inv(w) && HasRead(Next(cfg, w, act), x)
    ensures var w' := Next(cfg, w, act);
      if HasRead(w, x) then ClaimOf(w', x) == ClaimOf(w, x) && ReadEnd(w', x) == ReadEnd(w, x)
      else IsReading(cfg, w, act, x, ClaimOf(w', x), ReadEnd(w', x))
  {
    if x in w.jobs {
      assert JobAgrees(w.store.tables, x, w.jobs[x]);
    }
    if HasRead(w, x) {
      ClaimStays(cfg, w, act, x);
    } else {
      OnlyReadingClaims(cfg, w, act, x);
    }
  }

  lemma {:induction false} ReadMoment(cfg: Config, worlds: seq<World>, acts: seq<Action>, n: nat, x: nat)
    returns (j: nat)
    requires ValidConfig(cfg) && IsRun(cfg, worlds, acts) && n <= |acts| && HasRead(worlds[n], x)
    ensures j < n && IsReading(cfg, worlds[j], acts[j], x, ClaimOf(worlds[n], x), ReadEnd(worlds[n], x))
  {
    assert n > 0;
    EvidenceAlways(cfg, worlds, acts, n - 1);
    ReadStep(cfg, worlds[n - 1], acts[n - 1], x);
    if HasRead(worlds[n - 1], x) {
      j := ReadMoment(cfg, worlds, acts, n - 1, x);
    } else {
      j := n - 1;
    }
  }

  /** The callers have been read. */
  predicate HasNames(w: World, x: nat) {
    x in w.jobs && (w.jobs[x].phase.GotCallers? || w.jobs[x].phase.GotCalls? || x in w.store.tables.alerts)
  }

  function NamesOf(w: World, x: nat): (set<Msisdn>, int)
    requires HasNames(w, x)
  {
    if x in w.store.tables.alerts then (w.store.tables.alerts[x].aNumbers, w.store.tables.alerts[x].windowEnd)
    else (w.jobs[x].phase.aNumbers, w.jobs[x].phase.to)
  }

  /** Registration `x` is about to read its callers. */
  predicate ReadsNames(w: World, act: Action, x: nat) {
    act.Proceed? && act.id == x && x in w.jobs && w.jobs[x].phase.Alarming?
  }

  lemma NamesStep(cfg: Config, w: World, act: Action, x: nat)
    requires ValidConfig(cfg) && Enabled(w, act) && Inv(w)
    ensures HasNames(Next(cfg, w, act), x) <==> HasNames(w, x) || ReadsNames(w, act, x)
    ensures HasNames(w, x) ==> NamesOf(Next(cfg, w, act), x) == NamesOf(w, x)
    ensures !HasNames(w, x) && ReadsNames(w, act, x) ==>
              NamesOf(Next(cfg, w, act), x) == (Callers(w.store.cache, w.jobs[x].r.b, act.now), act.now)
  {
    if x in w.jobs {
      assert JobAgrees(w.store.tables, x, w.jobs[x]);
    }
  }

  lemma {:induction false} NamesMoment(cfg: Config, worlds: seq<World>, acts: seq<Action>, n: nat, x: nat)
    returns (i: nat)
    requires ValidConfig(cfg) && IsRun(cfg, worlds, acts) && n <= |acts| && HasNames(worlds[n], x)
    ensures i < n && ReadsNames(worlds[i], acts[i], x)
    ensures NamesOf(worlds[n], x) == (Callers(worlds[i].store.cache, worlds[i].jobs[x].r.b, acts[i].now), acts[i].now)
  {
    assert n > 0;
    EvidenceAlways(cfg, worlds, acts, n - 1);
    NamesStep(cfg, worlds[n - 1], acts[n - 1], x);
    if HasNames(worlds[n - 1], x) {
      i := NamesMoment(cfg, worlds, acts, n - 1, x);
    } else {
      i := n - 1;
    }
  }

  /** The call is stored and unflagged, of the number, and made in the closed window that ends at `to`. */
  ghost predicate InWindow(cfg: Config, w: World, c: nat, b: Msisdn, to: int) {
    && c in w.store.tables.calls && !w.store.tables.calls[c].flagged
    && c in w.jobs && w.jobs[c].r.b == b && to - cfg.window <= w.jobs[c].r.at <= to
  }

  lemma {:induction false} RegistrationStays(cfg: Config, worlds: seq<World>, acts: seq<Action>, m: nat, n: nat, x: nat)
    requires ValidConfig(cfg) && IsRun(cfg, worlds, acts) && m <= n <= |acts| && x in worlds[m].jobs
    ensures x in worlds[n].jobs && worlds[n].jobs[x].r == worlds[m].jobs[x].r
    decreases n
  {
    if m == n {
    } else {
      RegistrationStays(cfg, worlds, acts, m, n - 1, x);
      assert worlds[n] == Next(cfg, worlds[n - 1], acts[n - 1]);
    }
  }

  /**
    In every run, field by field: an alert is of its registration, names the live
    callers when they were read, ends its window then, and lists exactly the calls
    of its number in that window that were stored and unflagged when they were read.
  */
  lemma AlertReadsExactly(cfg: Config, worlds: seq<World>, acts: seq<Action>, n: nat, x: nat)
    returns (i: nat, j: nat)
    requires ValidConfig(cfg) && IsRun(cfg, worlds, acts) && n <= |acts| && x in worlds[n].store.tables.alerts
    ensures i < n && ReadsNames(worlds[i], acts[i], x) && j < n && Reads(worlds[j], acts[j], x)
    ensures x in worlds[n].jobs
    ensures var alert, r, to := worlds[n].store.tables.alerts[x], worlds[n].jobs[x].r, acts[i].now;
      && Tells(cfg, alert, r) && alert.windowEnd == to
      && alert.aNumbers == Callers(worlds[i].store.cache, r.b, to)
      && forall c: nat :: c in alert.callIds <==> InWindow(cfg, worlds[j], c, r.b, to)
  {
    FlagsAlwaysWritten(cfg, worlds, acts, n);
    AlwaysTold(cfg, worlds, acts, n);
    i := NamesMoment(cfg, worlds, acts, n, x);
    RegistrationStays(cfg, worlds, acts, i, n, x);
    j := ReadMoment(cfg, worlds, acts, n, x);
    RegistrationStays(cfg, worlds, acts, j, n, x);
    ClaimIsAlert(worlds[n], x);
    AlwaysTold(cfg, worlds, acts, j);
    ReadableExactly(cfg, worlds[j], x);
  }

  lemma ReadableExactly(cfg: Config, w: World, x: nat)
    requires ValidConfig(cfg) && RowsTell(w) && x in w.jobs && w.jobs[x].phase.GotCallers?
    ensures forall c: nat :: c in Readable(cfg, w, x) <==> InWindow(cfg, w, c, w.jobs[x].r.b, w.jobs[x].phase.to)
  {
  }
}

/** When concurrent registrations of one number alert within a cooldown of each other. */
module CooldownRaces {
  import opened Basics
  import opened AlertRaces
  import opened DetectionStores
  import opened RegistrationSteps
  import opened EvidenceProtocol

  /** The cooldown has been checked and not yet set. */
  predicate Alarmed(p: Phase) {
    p.Alarming? || p.GotCallers? || p.GotCalls? || p.AlertSaved? || p.Flagged?
  }

  /** No two registrations of one number are between checking the cooldown and setting it. */
  ghost predicate AlarmsApart(w: World) {
    forall x, y :: x in w.jobs && y in w.jobs && x != y && Alarmed(w.jobs[x].phase) && Alarmed(w.jobs[y].phase) ==>
      w.jobs[x].r.b != w.jobs[y].r.b
  }

  /** The clock after an action. */
  function Tick(act: Action, clock: int): int {
    if act.Proceed? then act.now else clock
  }

  function ClockAt(acts: seq<Action>, start: int, n: nat): int
    requires n <= |acts|
  {
    if n == 0 then start else Tick(acts[n - 1], ClockAt(acts, start, n - 1))
  }

  /** The operations read a clock that begins no earlier than `start` and never goes back. */
  ghost predicate OnTime(acts: seq<Action>, start: int) {
    forall i :: 0 <= i < |acts| ==> ClockAt(acts, start, i) <= ClockAt(acts, start, i + 1)
  }

  predicate Sets(w: World, act: Action, b: Msisdn) {
    act.Proceed? && act.id in w.jobs && w.jobs[act.id].phase.Flagged? && w.jobs[act.id].r.b == b
  }

  // ---------- the check ----------

  /** Registration `y` checks the cooldown of its number. */
  predicate Checks(w: World, act: Action, y: nat) {
    act.Proceed? && act.id == y && y in w.jobs && w.jobs[y].phase.Suspect?
  }

  /** And passes: it goes on to raise an alert. */
  predicate Passes(cfg: Config, w: World, act: Action, y: nat)
    requires ValidConfig(cfg)
  {
    Checks(w, act, y) && Next(cfg, w, act).jobs[y].phase.Alarming?
  }

  /** Within the first `n` actions a registration of the number set its cooldown less than a cooldown before `now`. */
  ghost predicate SetSince(cfg: Config, worlds: seq<World>, acts: seq<Action>, n: nat, b: Msisdn, now: int)
    requires n <= |acts| < |worlds|
  {
    exists k :: 0 <= k < n && Sets(worlds[k], acts[k], b) && now < acts[k].now + cfg.cooldown
  }

  ghost predicate Bounded(cfg: Config, w: World, clock: int) {
    forall b :: b in w.store.cache.cooldowns ==> w.store.cache.cooldowns[b] <= clock + cfg.cooldown
  }

  lemma CooldownStep(cfg: Config, w: World, act: Action, clock: int, b: Msisdn, now: int)
    requires ValidConfig(cfg) && Enabled(w, act) && Bounded(cfg, w, clock) && clock <= Tick(act, clock) <= now
    ensures Bounded(cfg, Next(cfg, w, act), Tick(act, clock))
    ensures InCooldown(Next(cfg, w, act).store.cache, b, now) <==>
              InCooldown(w.store.cache, b, now) || (Sets(w, act, b) && now < act.now + cfg.cooldown)
  {
  }

  lemma SetSinceStep(cfg: Config, worlds: seq<World>, acts: seq<Action>, n: nat, b: Msisdn, now: int)
    requires n < |acts| < |worlds|
    ensures SetSince(cfg, worlds, acts, n + 1, b, now) <==>
      SetSince(cfg, worlds, acts, n, b, now) || (Sets(worlds[n], acts[n], b) && now < acts[n].now + cfg.cooldown)
  {
  }

  /** The cooldown key of a number is live exactly when some registration set it less than a cooldown ago. */
  lemma {:induction false} CooldownLiveExactly(cfg: Config, worlds: seq<World>, acts: seq<Action>, start: int, n: nat,
                                               b: Msisdn, now: int)
    requires ValidConfig(cfg) && IsRun(cfg, worlds, acts) && n <= |acts| && OnTime(acts, start)
    requires ClockAt(acts, start, n) <= now
    ensures Bounded(cfg, worlds[n], ClockAt(acts, start, n))
    ensures InCooldown(worlds[n].store.cache, b, now) <==> SetSince(cfg, worlds, acts, n, b, now)
  {
    if n == 0 {
    } else {
      var clock := ClockAt(acts, start, n - 1);
      assert clock <= ClockAt(acts, start, (n - 1) + 1) == Tick(acts[n - 1], clock);
      CooldownLiveExactly(cfg, worlds, acts, start, n - 1, b, now);
      CooldownStep(cfg, worlds[n - 1], acts[n - 1], clock, b, now);
      SetSinceStep(cfg, worlds, acts, n - 1, b, now);
    }
  }

  /**
    In every run a registration that checks the cooldown goes on to alert if and
    only if no registration of its number set the cooldown less than a cooldown
    ago, whatever others are about to do.
  */
  lemma PassesExactly(cfg: Config, worlds: seq<World>, acts: seq<Action>, start: int, j: nat, y: nat)
    requires ValidConfig(cfg) && IsRun(cfg, worlds, acts) && j < |acts| && OnTime(acts, start)
    requires Checks(worlds[j], acts[j], y)
    ensures Passes(cfg, worlds[j], acts[j], y) <==>
              !SetSince(cfg, worlds, acts, j, worlds[j].jobs[y].r.b, acts[j].now)
  {
    assert ClockAt(acts, start, j) <= ClockAt(acts, start, j + 1) == acts[j].now;
    CooldownLiveExactly(cfg, worlds, acts, start, j, worlds[j].jobs[y].r.b, acts[j].now);
  }

  // ---------- the alerts ----------

  /** Registration `x` has passed the check. */
  predicate PastCheck(w: World, x: nat) {
    x in w.jobs && (Alarmed(w.jobs[x].phase) || x in w.store.tables.alerts)
  }

  /** The end of its window, once its callers are read. */
  function EndOf(w: World, x: nat): Option<int>
    requires PastCheck(w, x)
  {
    if x in w.store.tables.alerts then Some(w.store.tables.alerts[x].windowEnd)
    else
      match w.jobs[x].phase
      case GotCallers(_, _, to) => Some(to)
      case GotCalls(_, _, to, _) => Some(to)
      case _ => None
  }

  /** Nothing about the end is known yet, or it is `t` or later. */
  ghost predicate EndsFrom(w: World, x: nat, t: int) {
    PastCheck(w, x) && (EndOf(w, x).None? || EndOf(w, x).value >= t)
  }

  lemma EndStays(cfg: Config, w: World, act: Action, x: nat)
    requires ValidConfig(cfg) && Enabled(w, act) && Inv(w) && PastCheck(w, x)
    ensures PastCheck(Next(cfg, w, act), x)
    ensures EndOf(w, x).Some? ==> EndOf(Next(cfg, w, act), x) == EndOf(w, x)
    ensures EndOf(w, x).None? && EndOf(Next(cfg, w, act), x).Some? ==>
              act.Proceed? && EndOf(Next(cfg, w, act), x) == Some(act.now)
  {
    assert JobAgrees(w.store.tables, x, w.jobs[x]);
  }

  lemma OnlyPassingPasses(cfg: Config, w: World, act: Action, x: nat)
    requires ValidConfig(cfg) && Enabled(w, act) && Inv(w) && !PastCheck(w, x)
    ensures PastCheck(Next(cfg, w, act), x) <==> Passes(cfg, w, act, x)
  {
    if x in w.jobs {
      assert JobAgrees(w.store.tables, x, w.jobs[x]);
    }
  }

  /** An alert's registration is past its saving; when it is done it has left a cooldown. */
  ghost predicate Settled(cfg: Config, w: World, x: nat, clock: int) {
    PastCheck(w, x) ==>
      && (EndOf(w, x).Some? ==> EndOf(w, x).value <= clock)
      && (!Alarmed(w.jobs[x].phase) ==>
            && x in w.store.tables.alerts
            && CoolUntil(w, w.jobs[x].r.b, w.store.tables.alerts[x].windowEnd + cfg.cooldown))
  }

  ghost predicate CoolUntil(w: World, b: Msisdn, deadline: int) {
    b in w.store.cache.cooldowns && w.store.cache.cooldowns[b] >= deadline
  }

  lemma SettledStays(cfg: Config, w: World, act: Action, x: nat, clock: int)
    requires ValidConfig(cfg) && Enabled(w, act) && Inv(w) && Settled(cfg, w, x, clock) && clock <= Tick(act, clock)
    ensures Settled(cfg, Next(cfg, w, act), x, Tick(act, clock))
  {
    if x in w.jobs {
      assert JobAgrees(w.store.tables, x, w.jobs[x]);
    }
    if PastCheck(w, x) {
      EndStays(cfg, w, act, x);
    } else {
      OnlyPassingPasses(cfg, w, act, x);
    }
  }

  lemma {:induction false} AlwaysSettled(cfg: Config, worlds: seq<World>, acts: seq<Action>, start: int, n: nat, x: nat)
    requires ValidConfig(cfg) && IsRun(cfg, worlds, acts) && n <= |acts| && OnTime(acts, start)
    ensures Settled(cfg, worlds[n], x, ClockAt(acts, start, n))
  {
    if n == 0 {
    } else {
      var clock := ClockAt(acts, start, n - 1);
      assert clock <= ClockAt(acts, start, (n - 1) + 1) == Tick(acts[n - 1], clock);
      AlwaysSettled(cfg, worlds, acts, start, n - 1, x);
      EvidenceAlways(cfg, worlds, acts, n - 1);
      SettledStays(cfg, worlds[n - 1], acts[n - 1], x, clock);
    }
  }

  lemma {:induction false} ClockGrows(acts: seq<Action>, start: int, m: nat, n: nat)
    requires m <= n <= |acts| && OnTime(acts, start)
    ensures ClockAt(acts, start, m) <= ClockAt(acts, start, n)
    decreases n
  {
    if m == n {
    } else {
      ClockGrows(acts, start, m, n - 1);
      assert ClockAt(acts, start, n - 1) <= ClockAt(acts, start, (n - 1) + 1);
    }
  }

  /** An end once known stays, and one not known at event `m` comes later. */
  lemma {:induction false} EndFollows(cfg: Config, worlds: seq<World>, acts: seq<Action>, start: int, m: nat, n: nat,
                                      x: nat)
    requires ValidConfig(cfg) && IsRun(cfg, worlds, acts) && m <= n <= |acts| && OnTime(acts, start)
    requires PastCheck(worlds[m], x)
    ensures PastCheck(worlds[n], x)
    ensures EndOf(worlds[m], x).Some? ==> EndOf(worlds[n], x) == EndOf(worlds[m], x)
    ensures EndOf(worlds[m], x).None? ==> EndsFrom(worlds[n], x, ClockAt(acts, start, m))
    decreases n
  {
    if m == n {
    } else {
      EndFollows(cfg, worlds, acts, start, m, n - 1, x);
      EvidenceAlways(cfg, worlds, acts, n - 1);
      EndStays(cfg, worlds[n - 1], acts[n - 1], x);
      ClockGrows(acts, start, m, n);
    }
  }

  /**
    At event `j` registration `y` passes the check after `x`, of the same number,
    has; both have raised their alerts by event `n`.
  */
  ghost predicate PassesAfter(cfg: Config, worlds: seq<World>, acts: seq<Action>, n: nat, x: nat, y: nat, j: nat)
    requires ValidConfig(cfg) && n <= |acts| < |worlds|
  {
    && j < n && x != y && Passes(cfg, worlds[j], acts[j], y)
    && PastCheck(worlds[j], x) && worlds[j].jobs[x].r.b == worlds[j].jobs[y].r.b
    && x in worlds[n].store.tables.alerts && y in worlds[n].store.tables.alerts
  }

  /** `x` has not set its cooldown yet, and its window is still open or ended less than a cooldown before `now`. */
  ghost predicate Unsettled(cfg: Config, w: World, x: nat, now: int)
    requires PastCheck(w, x)
  {
    Alarmed(w.jobs[x].phase) && (EndOf(w, x).None? || now < EndOf(w, x).value + cfg.cooldown)
  }

  /**
    A later check comes less than a cooldown after the end of an alert's window,
    or before it, exactly when the alert's registration is unsettled at the check.
  */
  lemma WithinCooldownExactly(cfg: Config, worlds: seq<World>, acts: seq<Action>, start: int, n: nat,
                              x: nat, y: nat, j: nat)
    requires ValidConfig(cfg) && IsRun(cfg, worlds, acts) && n <= |acts| && OnTime(acts, start)
    requires PassesAfter(cfg, worlds, acts, n, x, y, j)
    ensures acts[j].now < worlds[n].store.tables.alerts[x].windowEnd + cfg.cooldown <==>
              Unsettled(cfg, worlds[j], x, acts[j].now)
  {
    var now := acts[j].now;
    assert worlds[j + 1] == Next(cfg, worlds[j], acts[j]) && ClockAt(acts, start, j + 1) == now;
    EvidenceAlways(cfg, worlds, acts, j);
    AlwaysSettled(cfg, worlds, acts, start, j, x);
    EndFollows(cfg, worlds, acts, start, j, n, x);
    EndStays(cfg, worlds[j], acts[j], x);
    EndFollows(cfg, worlds, acts, start, j + 1, n, x);
  }

  /** Of two alerts of one number one's registration passed the check after the other's. */
  lemma {:induction false} OnePassesAfter(cfg: Config, worlds: seq<World>, acts: seq<Action>, n: nat, x: nat, y: nat)
    returns (j: nat)
    requires ValidConfig(cfg) && IsRun(cfg, worlds, acts) && n <= |acts| && x != y
    requires PastCheck(worlds[n], x) && PastCheck(worlds[n], y)
    ensures j < n
    ensures || (Passes(cfg, worlds[j], acts[j], y) && PastCheck(worlds[j], x))
            || (Passes(cfg, worlds[j], acts[j], x) && PastCheck(worlds[j], y))
  {
    assert n > 0;
    EvidenceAlways(cfg, worlds, acts, n - 1);
    if PastCheck(worlds[n - 1], x) && PastCheck(worlds[n - 1], y) {
      j := OnePassesAfter(cfg, worlds, acts, n - 1, x, y);
    } else {
      j := n - 1;
      if !PastCheck(worlds[j], x) {
        OnlyPassingPasses(cfg, worlds[j], acts[j], x);
      }
      if !PastCheck(worlds[j], y) {
        OnlyPassingPasses(cfg, worlds[j], acts[j], y);
      }
    }
  }

  ghost predicate Apart(cfg: Config, p: int, q: int) {
    p - q >= cfg.cooldown || q - p >= cfg.cooldown
  }

  /** The alerts of one number have windows that end at least a cooldown apart. */
  ghost predicate Spaced(cfg: Config, w: World) {
    forall x, y :: x in w.store.tables.alerts && y in w.store.tables.alerts && x != y ==>
      w.store.tables.alerts[x].b == w.store.tables.alerts[y].b ==>
        Apart(cfg, w.store.tables.alerts[x].windowEnd, w.store.tables.alerts[y].windowEnd)
  }

  /** Every later check comes a cooldown after the alerts of its number. */
  ghost predicate ChecksSpaced(cfg: Config, worlds: seq<World>, acts: seq<Action>, n: nat)
    requires ValidConfig(cfg) && n <= |acts| < |worlds|
  {
    forall x: nat, y: nat, j: nat :: PassesAfter(cfg, worlds, acts, n, x, y, j) ==>
      acts[j].now >= worlds[n].store.tables.alerts[x].windowEnd + cfg.cooldown
  }

  /**
    In every run the checks of alerts come a cooldown after the earlier alerts of
    their number if and only if none is passed while the registration of such an
    alert is unsettled.
  */
  lemma ChecksSpacedExactly(cfg: Config, worlds: seq<World>, acts: seq<Action>, start: int, n: nat)
    requires ValidConfig(cfg) && IsRun(cfg, worlds, acts) && n <= |acts| && OnTime(acts, start)
    ensures ChecksSpaced(cfg, worlds, acts, n) <==>
      forall x: nat, y: nat, j: nat :: PassesAfter(cfg, worlds, acts, n, x, y, j) ==>
        !Unsettled(cfg, worlds[j], x, acts[j].now)
  {
    forall x: nat, y: nat, j: nat | PassesAfter(cfg, worlds, acts, n, x, y, j)
      ensures acts[j].now >= worlds[n].store.tables.alerts[x].windowEnd + cfg.cooldown <==>
                !Unsettled(cfg, worlds[j], x, acts[j].now)
    {
      WithinCooldownExactly(cfg, worlds, acts, start, n, x, y, j);
    }
  }

  /** A check comes before the end of its own alert's window. */
  lemma CheckBeforeEnd(cfg: Config, worlds: seq<World>, acts: seq<Action>, start: int, n: nat, y: nat, j: nat)
    requires ValidConfig(cfg) && IsRun(cfg, worlds, acts) && j < n <= |acts| && OnTime(acts, start)
    requires Passes(cfg, worlds[j], acts[j], y) && y in worlds[n].store.tables.alerts
    ensures acts[j].now <= worlds[n].store.tables.alerts[y].windowEnd
  {
    assert worlds[j + 1] == Next(cfg, worlds[j], acts[j]) && ClockAt(acts, start, j + 1) == acts[j].now;
    EvidenceAlways(cfg, worlds, acts, j);
    assert JobAgrees(worlds[j].store.tables, y, worlds[j].jobs[y]);
    EndFollows(cfg, worlds, acts, start, j + 1, n, y);
  }

  /** Then the alerts of one number have windows that end a cooldown apart. */
  lemma SpacedWhenChecksAre(cfg: Config, worlds: seq<World>, acts: seq<Action>, start: int, n: nat)
    requires ValidConfig(cfg) && IsRun(cfg, worlds, acts) && n <= |acts| && OnTime(acts, start)
    requires ChecksSpaced(cfg, worlds, acts, n)
    ensures Spaced(cfg, worlds[n])
  {
    var w := worlds[n];
    AlwaysTold(cfg, worlds, acts, n);
    forall x, y | x in w.store.tables.alerts && y in w.store.tables.alerts && x != y
                  && w.store.tables.alerts[x].b == w.store.tables.alerts[y].b
      ensures Apart(cfg, w.store.tables.alerts[x].windowEnd, w.store.tables.alerts[y].windowEnd)
    {
      var j := OnePassesAfter(cfg, worlds, acts, n, x, y);
      RegistrationStays(cfg, worlds, acts, j, n, x);
      RegistrationStays(cfg, worlds, acts, j, n, y);
      if Passes(cfg, worlds[j], acts[j], y) && PastCheck(worlds[j], x) {
        assert PassesAfter(cfg, worlds, acts, n, x, y, j);
        CheckBeforeEnd(cfg, worlds, acts, start, n, y, j);
      } else {
        assert PassesAfter(cfg, worlds, acts, n, y, x, j);
        CheckBeforeEnd(cfg, worlds, acts, start, n, x, j);
      }
    }
  }

  /** In particular when no two registrations of one number are between checking the cooldown and setting it. */
  lemma SpacedWhenAlarmsApart(cfg: Config, worlds: seq<World>, acts: seq<Action>, start: int, n: nat)
    requires ValidConfig(cfg) && IsRun(cfg, worlds, acts) && n <= |acts| && OnTime(acts, start)
    requires forall i :: 0 <= i <= n ==> AlarmsApart(worlds[i])
    ensures Spaced(cfg, worlds[n])
  {
    forall x: nat, y: nat, j: nat | PassesAfter(cfg, worlds, acts, n, x, y, j)
      ensures !Unsettled(cfg, worlds[j], x, acts[j].now)
    {
      assert worlds[j + 1] == Next(cfg, worlds[j], acts[j]) && AlarmsApart(worlds[j + 1]);
      assert worlds[j + 1].jobs[x] == worlds[j].jobs[x] && Alarmed(worlds[j + 1].jobs[y].phase);
    }
    ChecksSpacedExactly(cfg, worlds, acts, start, n);
    SpacedWhenChecksAre(cfg, worlds, acts, start, n);
  }
}

/** Runs in which alerts of one number share calls and come within a cooldown of each other. */
module RaceRuns {
  import opened ExpiringSets
  import opened DetectionStores
  import opened RegistrationSteps
  import opened EvidenceProtocol

  lemma Extend(cfg: Config, worlds: seq<World>, acts: seq<Action>, act: Action)
    returns (longer: seq<World>, all: seq<Action>)
    requires ValidConfig(cfg) && IsRun(cfg, worlds, acts) && Enabled(worlds[|acts|], act)
    ensures IsRun(cfg, longer, all) && all == acts + [act]
    ensures longer[|all|] == Next(cfg, worlds[|acts|], act)
  {
    longer, all := worlds + [Next(cfg, worlds[|acts|], act)], acts + [act];
    forall i | 0 <= i < |all| ensures Enabled(longer[i], all[i]) && longer[i + 1] == Next(cfg, longer[i], all[i]) {
      if i < |acts| {
        assert longer[i] == worlds[i] && longer[i + 1] == worlds[i + 1] && all[i] == acts[i];
      }
    }
  }

  /** Between two worlds only registration `x` has gone on. */
  ghost predicate OnlyMoved(w: World, w': World, x: nat) {
    && w'.jobs.Keys == w.jobs.Keys + {x}
    && forall z :: z in w.jobs && z != x ==> w'.jobs[z] == w.jobs[z]
  }

  /** The callers counted after one more call. */
  function Counting(cfg: Config, w: World, r: Registration): set<Msisdn> {
    Callers(AddCaller(w.store.cache, r.b, r.a, r.at, cfg.window), r.b, r.at)
  }

  /** A new call is stored; it is suspect when the threshold is reached, and processed otherwise. */
  lemma RunToVerdict(cfg: Config, worlds: seq<World>, acts: seq<Action>, x: nat, r: Registration)
    returns (longer: seq<World>, all: seq<Action>)
    requires ValidConfig(cfg) && IsRun(cfg, worlds, acts)
    requires var w := worlds[|acts|]; x !in w.jobs && x !in w.store.tables.calls && w.store.cache.blacklist == map[]
    ensures IsRun(cfg, longer, all)
    ensures var w, w' := worlds[|acts|], longer[|all|];
      && OnlyMoved(w, w', x) && w'.jobs[x].r == r
      && (if |Counting(cfg, w, r)| >= cfg.threshold then w'.jobs[x].phase.Suspect? else w'.jobs[x].phase.Done?)
      && w'.store.tables == Tables(w.store.tables.calls[x := NewRow(r)], w.store.tables.alerts)
      && w'.store.cache == AddCaller(w.store.cache, r.b, r.a, r.at, cfg.window)
  {
    longer, all := Extend(cfg, worlds, acts, Arrive(x, r));
    longer, all := Extend(cfg, longer, all, Proceed(x, r.at));
    longer, all := Extend(cfg, longer, all, Proceed(x, r.at));
    longer, all := Extend(cfg, longer, all, Proceed(x, r.at));
    longer, all := Extend(cfg, longer, all, Proceed(x, r.at));
  }

  function Named(names: seq<Msisdn>): set<Msisdn> {
    set i | 0 <= i < |names| :: names[i]
  }

  /** So many callers have called `b` at time zero and been processed. */
  ghost predicate Quiet(w: World, b: Msisdn, names: seq<Msisdn>) {
    && (forall z :: z in w.jobs <==> 0 <= z < |names|)
    && (forall z :: z in w.jobs ==> w.jobs[z].phase.Done?)
    && (forall z :: z in w.store.tables.calls ==> z < |names|)
    && w.store.tables.alerts == map[]
    && w.store.cache.cooldowns == map[] && w.store.cache.blacklist == map[]
    && Callers(w.store.cache, b, 0) == Named(names)
  }

  lemma NamedGrows(names: seq<Msisdn>, a: Msisdn)
    ensures Named(names + [a]) == Named(names) + {a}
  {
    assert (names + [a])[|names|] == a;
    forall i | 0 <= i < |names| ensures names[i] in Named(names + [a]) {
      assert (names + [a])[i] == names[i];
    }
  }

  /** The next caller is counted with the earlier ones. */
  lemma NextIsCounted(cfg: Config, w: World, b: Msisdn, ip: Ip, init: seq<Msisdn>, a: Msisdn)
    requires ValidConfig(cfg) && Distinct(init + [a]) && Callers(w.store.cache, b, 0) == Named(init)
    ensures Counting(cfg, w, Registration(a, b, ip, 0)) == Named(init + [a])
    ensures |Named(init + [a])| == |init| + 1
  {
    NamedGrows(init, a);
    DistinctCount(init + [a]);
  }

  /** Fewer distinct callers than the threshold raise nothing. */
  lemma {:induction false} RunQuietly(cfg: Config, b: Msisdn, ip: Ip, names: seq<Msisdn>)
    returns (worlds: seq<World>, acts: seq<Action>)
    requires ValidConfig(cfg) && Distinct(names) && |names| < cfg.threshold
    ensures IsRun(cfg, worlds, acts) && Quiet(worlds[|acts|], b, names)
  {
    if names == [] {
      return [World(EMPTY, map[])], [];
    } else {
      var init, a := names[..|names| - 1], names[|names| - 1];
      assert names == init + [a];
      worlds, acts := RunQuietly(cfg, b, ip, init);
      worlds, acts := RunOneMore(cfg, worlds, acts, b, ip, init, a);
    }
  }

  lemma RunOneMore(cfg: Config, worlds: seq<World>, acts: seq<Action>, b: Msisdn, ip: Ip, init: seq<Msisdn>, a: Msisdn)
    returns (longer: seq<World>, all: seq<Action>)
    requires ValidConfig(cfg) && Distinct(init + [a]) && |init| + 1 < cfg.threshold
    requires IsRun(cfg, worlds, acts) && Quiet(worlds[|acts|], b, init)
    ensures IsRun(cfg, longer, all) && Quiet(longer[|all|], b, init + [a])
  {
    NextIsCounted(cfg, worlds[|acts|], b, ip, init, a);
    longer, all := RunToVerdict(cfg, worlds, acts, |init|, Registration(a, b, ip, 0));
  }

  /** A suspect call outside a cooldown saves an alert with the unflagged calls of its window. */
  lemma RunToAlert(cfg: Config, worlds: seq<World>, acts: seq<Action>, x: nat)
    returns (longer: seq<World>, all: seq<Action>)
    requires ValidConfig(cfg) && IsRun(cfg, worlds, acts)
    requires var w := worlds[|acts|];
      && x in w.jobs && w.jobs[x].phase.Suspect? && x !in w.store.tables.alerts
      && !InCooldown(w.store.cache, w.jobs[x].r.b, w.jobs[x].r.at)
    ensures IsRun(cfg, longer, all)
    ensures var w, w' := worlds[|acts|], longer[|all|];
      var r := w.jobs[x].r;
      && OnlyMoved(w, w', x) && w'.jobs[x].r == r && w'.jobs[x].phase.AlertSaved?
      && w'.store.cache == w.store.cache && w'.store.tables.calls == w.store.tables.calls
      && w'.store.tables.alerts.Keys == w.store.tables.alerts.Keys + {x}
      && (forall z :: z in w.store.tables.alerts ==> w'.store.tables.alerts[z] == w.store.tables.alerts[z])
      && w'.store.tables.alerts[x].windowEnd == r.at && w'.store.tables.alerts[x].b == r.b
      && w'.store.tables.alerts[x].callIds == CallsInWindow(w.store.tables, r.b, r.at - cfg.window, r.at)
  {
    var at := worlds[|acts|].jobs[x].r.at;
    longer, all := Extend(cfg, worlds, acts, Proceed(x, at));
    longer, all := Extend(cfg, longer, all, Proceed(x, at));
    longer, all := Extend(cfg, longer, all, Proceed(x, at));
    longer, all := Extend(cfg, longer, all, Proceed(x, at));
  }

  /** Then it flags them, sets the cooldown and reports the alert. */
  lemma RunToReply(cfg: Config, worlds: seq<World>, acts: seq<Action>, x: nat)
    returns (longer: seq<World>, all: seq<Action>)
    requires ValidConfig(cfg) && IsRun(cfg, worlds, acts)
    requires var w := worlds[|acts|]; x in w.jobs && w.jobs[x].phase.AlertSaved?
    ensures IsRun(cfg, longer, all)
    ensures var w, w' := worlds[|acts|], longer[|all|];
      && OnlyMoved(w, w', x) && w'.jobs[x].r == w.jobs[x].r
      && w'.jobs[x].phase.Done? && w'.jobs[x].phase.reply.status == Alerted
      && w'.store.tables.alerts == w.store.tables.alerts
  {
    var at := worlds[|acts|].jobs[x].r.at;
    longer, all := Extend(cfg, worlds, acts, Proceed(x, at));
    longer, all := Extend(cfg, longer, all, Proceed(x, at));
  }

  ghost predicate Replied(w: World, x: nat, b: Msisdn) {
    && x in w.jobs && w.jobs[x].phase.Done? && w.jobs[x].phase.reply.status == Alerted && w.jobs[x].r.b == b
  }

  /** Both alerts list call `c`. */
  ghost predicate Share(t: Tables, x: nat, y: nat, c: nat) {
    x in t.alerts && y in t.alerts && c in t.alerts[x].callIds && c in t.alerts[y].callIds
  }

  /** As many callers as the threshold, and the last of them twice at once: both of its calls are suspect. */
  lemma RunToTwoSuspects(cfg: Config, b: Msisdn, ip: Ip, names: seq<Msisdn>)
    returns (worlds: seq<World>, acts: seq<Action>)
    requires ValidConfig(cfg) && Distinct(names) && |names| == cfg.threshold
    ensures IsRun(cfg, worlds, acts)
    ensures var w, x, y := worlds[|acts|], |names| - 1, |names|;
      && Suspected(w, x, b) && Suspected(w, y, b)
      && w.store.tables.alerts == map[] && w.store.cache.cooldowns == map[]
      && Unflagged(w, x, b)
  {
    var k := |names| - 1;
    var r := Registration(names[k], b, ip, 0);
    worlds, acts := RunToSuspect(cfg, b, ip, names);
    var w := worlds[|acts|];
    assert Counting(cfg, w, r) == Named(names);
    DistinctCount(names);
    worlds, acts := RunToVerdict(cfg, worlds, acts, k + 1, r);
  }

  ghost predicate Suspected(w: World, x: nat, b: Msisdn) {
    x in w.jobs && w.jobs[x].phase.Suspect? && w.jobs[x].r.b == b && w.jobs[x].r.at == 0
  }

  ghost predicate Unflagged(w: World, c: nat, b: Msisdn) {
    && c in w.store.tables.calls && !w.store.tables.calls[c].flagged
    && w.store.tables.calls[c].b == b && w.store.tables.calls[c].at == 0
  }

  lemma RunToSuspect(cfg: Config, b: Msisdn, ip: Ip, names: seq<Msisdn>)
    returns (worlds: seq<World>, acts: seq<Action>)
    requires ValidConfig(cfg) && Distinct(names) && |names| == cfg.threshold
    ensures IsRun(cfg, worlds, acts)
    ensures var w, x := worlds[|acts|], |names| - 1;
      && (forall z :: z in w.jobs <==> 0 <= z < |names|)
      && (forall z :: z in w.jobs && z != x ==> w.jobs[z].phase.Done?)
      && (forall z :: z in w.store.tables.calls ==> z < |names|)
      && Suspected(w, x, b) && Unflagged(w, x, b)
      && w.store.tables.alerts == map[] && w.store.cache.cooldowns == map[] && w.store.cache.blacklist == map[]
      && Callers(w.store.cache, b, 0) == Named(names)
  {
    var k := |names| - 1;
    var init := names[..k];
    assert names == init + [names[k]];
    worlds, acts := RunQuietly(cfg, b, ip, init);
    NextIsCounted(cfg, worlds[|acts|], b, ip, init, names[k]);
    worlds, acts := RunToVerdict(cfg, worlds, acts, k, Registration(names[k], b, ip, 0));
  }

  /**
    For every threshold: two registrations of one number that interleave both
    report an alert at one time, and the alerts share a call.
  */
  lemma OverlapAlertsTwice(cfg: Config, b: Msisdn, ip: Ip, names: seq<Msisdn>)
    returns (worlds: seq<World>, acts: seq<Action>)
    requires ValidConfig(cfg) && Distinct(names) && |names| == cfg.threshold
    ensures IsRun(cfg, worlds, acts)
    ensures var w, x, y := worlds[|acts|], |names| - 1, |names|;
      && Replied(w, x, b) && Replied(w, y, b)
      && Share(w.store.tables, x, y, x)
      && w.store.tables.alerts[x].windowEnd == w.store.tables.alerts[y].windowEnd
  {
    var x, y := |names| - 1, |names|;
    worlds, acts := RunToTwoSuspects(cfg, b, ip, names);
    worlds, acts := RunToAlert(cfg, worlds, acts, x);
    worlds, acts := RunToAlert(cfg, worlds, acts, y);
    worlds, acts := RunToReply(cfg, worlds, acts, x);
    worlds, acts := RunToReply(cfg, worlds, acts, y);
  }

  /**
    For every threshold: a registration that stops between its alert and its
    flags lets the next one, with nothing else under way, list its call again.
  */
  lemma ExitSharesCalls(cfg: Config, b: Msisdn, ip: Ip, names: seq<Msisdn>)
    returns (worlds: seq<World>, acts: seq<Action>)
    requires ValidConfig(cfg) && Distinct(names) && |names| == cfg.threshold
    ensures IsRun(cfg, worlds, acts)
    ensures var w, x, y := worlds[|acts|], |names| - 1, |names|;
      && x in w.jobs && w.jobs[x].phase.AlertSaved? && Replied(w, y, b)
      && (forall z :: z in w.jobs && z != x ==> w.jobs[z].phase.Done?)
      && Share(w.store.tables, x, y, x)
  {
    var x, y := |names| - 1, |names|;
    var r := Registration(names[x], b, ip, 0);
    worlds, acts := RunToSuspect(cfg, b, ip, names);
    worlds, acts := RunToAlert(cfg, worlds, acts, x);
    assert Counting(cfg, worlds[|acts|], r) == Named(names);
    DistinctCount(names);
    worlds, acts := RunToVerdict(cfg, worlds, acts, y, r);
    worlds, acts := RunToAlert(cfg, worlds, acts, y);
    worlds, acts := RunToReply(cfg, worlds, acts, y);
  }
}
