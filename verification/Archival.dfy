/**
  Hot tables and the cold archive.

  A job copies the old rows of a table into two objects of the archive, the
  packed data and its metadata, and then deletes the rows.  The job may stop
  between any two writes, and other jobs, restores, expiries and inserts may
  run between them.
*/
module ColdStorage {
  import opened Basics

  datatype Key = Key(table: string, id: nat)

  datatype Row = Row(date: int, payload: string)

  datatype Record = Record(id: nat, row: Row)

  type Rows = map<Key, Row>

  datatype ObjectKey = ObjectKey(table: string, partition: string, archive: string)

  /** What a data object may hold: the compressed form of some records, or bytes that unpack to nothing. */
  datatype Blob = Packed(records: seq<Record>) | Garbage(bytes: seq<nat>)

  /** A digest without collisions. */
  datatype Digest = Digest(of: Blob)

  datatype Metadata = Metadata(
    objectKey: ObjectKey,
    recordCount: nat,
    digest: Digest,
    createdAt: int,
    retentionUntil: int)

  datatype Store = Store(hot: Rows, data: map<ObjectKey, Blob>, meta: map<string, Metadata>)

  datatype Settings = Settings(chunkSize: nat, retentionYears: int)

  datatype Job = Job(id: string, table: string, partition: string, cutoff: int, records: seq<Record>, at: int)

  const YEAR: int := 365 * 86400

  predicate IsDue(hot: Rows, table: string, cutoff: int, k: Key) {
    k in hot && k.table == table && hot[k].date < cutoff
  }

  function Due(hot: Rows, table: string, cutoff: int): set<Key> {
    set k | k in hot && IsDue(hot, table, cutoff, k)
  }

  function Keys(table: string, records: seq<Record>): set<Key> {
    set r <- records :: Key(table, r.id)
  }

  ghost predicate Genuine(hot: Rows, table: string, cutoff: int, answer: seq<Record>) {
    forall i :: 0 <= i < |answer| ==>
      IsDue(hot, table, cutoff, Key(table, answer[i].id)) && hot[Key(table, answer[i].id)] == answer[i].row
  }

  ghost predicate Ordered(answer: seq<Record>) {
    forall i, j :: 0 <= i < j < |answer| ==>
      answer[i].id != answer[j].id && answer[i].row.date <= answer[j].row.date
  }

  ghost predicate NoneOlder(hot: Rows, left: set<Key>, answer: seq<Record>)
    requires left <= hot.Keys
  {
    forall k, i :: 0 <= i < |answer| && k in left ==> answer[i].row.date <= hot[k].date
  }

  /** What the limited query may answer: the oldest rows before the cutoff, in order; ties are the database's choice. */
  ghost predicate IsAnswer(hot: Rows, table: string, cutoff: int, limit: nat, answer: seq<Record>) {
    && Genuine(hot, table, cutoff, answer)
    && Ordered(answer)
    && |answer| == Min(|Due(hot, table, cutoff)|, limit)
    && NoneOlder(hot, Due(hot, table, cutoff) - Keys(table, answer), answer)
  }

  function ObjectKeyOf(job: Job): ObjectKey {
    ObjectKey(job.table, job.partition, job.id)
  }

  function MetadataOf(cfg: Settings, job: Job): Metadata {
    Metadata(ObjectKeyOf(job), |job.records|, Digest(Packed(job.records)), job.at, job.at + cfg.retentionYears * YEAR)
  }

  function PutData(s: Store, job: Job): Store {
    s.(data := s.data[ObjectKeyOf(job) := Packed(job.records)])
  }

  function PutMeta(cfg: Settings, s: Store, job: Job): Store {
    s.(meta := s.meta[job.id := MetadataOf(cfg, job)])
  }

  /** The deletion has no limit and does not look at what was archived. */
  function DeleteHot(s: Store, job: Job): Store {
    s.(hot := s.hot - Due(s.hot, job.table, job.cutoff))
  }

  /** An archive can be restored when both objects are there, the digest matches and the data unpacks. */
  predicate Restorable(s: Store, archive: string) {
    && archive in s.meta
    && s.meta[archive].objectKey in s.data
    && s.meta[archive].digest == Digest(s.data[s.meta[archive].objectKey])
    && s.data[s.meta[archive].objectKey].Packed?
  }

  function RecordsOf(s: Store, archive: string): seq<Record>
    requires Restorable(s, archive)
  {
    s.data[s.meta[archive].objectKey].records
  }

  /** Insertion with conflicts ignored. */
  function InsertAll(hot: Rows, table: string, records: seq<Record>): Rows {
    if records == [] then hot
    else
      var before, last := InsertAll(hot, table, records[..|records| - 1]), records[|records| - 1];
      if Key(table, last.id) in before then before else before[Key(table, last.id) := last.row]
  }

  /** The fate of a write: done, refused, or done with the answer lost. */
  datatype Reply = Done | Refused | Unanswered

  /** The first of the insertions to fail, or their number. */
  function FirstFailure(fails: nat -> bool, n: nat): (k: nat)
    ensures k <= n && (k < n ==> fails(k)) && forall i :: 0 <= i < k ==> !fails(i)
  {
    if n == 0 then 0
    else
      var k := FirstFailure(fails, n - 1);
      if k < n - 1 || fails(n - 1) then k else n
  }

  /**
    Insertions in one transaction, some of which may fail: the first failure
    ends the transaction, so that later ones fail as well and the commit keeps
    none; the commit itself may be refused.  The count is of those before the
    first failure.
  */
  function InsertedUnder(hot: Rows, table: string, records: seq<Record>, fails: nat -> bool, commit: Reply): (Rows, int)
  {
    var k := FirstFailure(fails, |records|);
    (if k == |records| && commit != Refused then InsertAll(hot, table, records) else hot,
     |InsertAll(hot, table, records[..k])| - |hot|)
  }

  function Restored(s: Store, archive: string): Store
    requires Restorable(s, archive)
  {
    s.(hot := InsertAll(s.hot, s.meta[archive].objectKey.table, RecordsOf(s, archive)))
  }

  /** The store after the first `reached` steps of a job: the query, the data, the metadata, the deletion. */
  function StoreAfter(cfg: Settings, s: Store, job: Job, reached: nat): Store {
    if reached <= 1 then s
    else if reached == 2 then PutData(s, job)
    else if reached == 3 then PutMeta(cfg, PutData(s, job), job)
    else DeleteHot(PutMeta(cfg, PutData(s, job), job), job)
  }

  predicate Expired(s: Store, archive: string, now: int) {
    archive in s.meta && now > s.meta[archive].retentionUntil
  }

  function PurgeData(s: Store, archive: string): Store
    requires archive in s.meta
  {
    s.(data := s.data - {s.meta[archive].objectKey})
  }

  function PurgeMeta(s: Store, archive: string): Store {
    s.(meta := s.meta - {archive})
  }

  /** The archive holds the row, in a form that a restore would accept. */
  predicate Archived(s: Store, archive: string, k: Key, row: Row) {
    && Restorable(s, archive)
    && s.meta[archive].objectKey.table == k.table
    && Record(k.id, row) in RecordsOf(s, archive)
  }
}

/** What the query and the insertion loop compute. */
module ColdStorageTheorems {
  import opened Basics
  import opened ColdStorage

  lemma {:induction false} DistinctKeys(table: string, records: seq<Record>)
    requires forall i, j :: 0 <= i < j < |records| ==> records[i].id != records[j].id
    ensures |Keys(table, records)| == |records|
  {
    if records == [] {
    } else {
      var init, last := records[..|records| - 1], records[|records| - 1];
      DistinctKeys(table, init);
      assert records == init + [last];
      assert Keys(table, records) == Keys(table, init) + {Key(table, last.id)};
      assert Key(table, last.id) !in Keys(table, init);
    }
  }

  /** The query leaves out max(0, n - limit) of the n rows before the cutoff. */
  lemma AnswerLeavesOut(hot: Rows, table: string, cutoff: int, limit: nat, answer: seq<Record>)
    requires IsAnswer(hot, table, cutoff, limit, answer)
    ensures var due, keys := Due(hot, table, cutoff), Keys(table, answer);
      keys <= due && |due - keys| == Max(0, |due| - limit) && (keys == due <==> |due| <= limit)
  {
    var due, keys := Due(hot, table, cutoff), Keys(table, answer);
    forall k | k in keys ensures k in due {
      var r :| r in answer && k == Key(table, r.id);
      assert IsDue(hot, table, cutoff, k);
    }
    DistinctKeys(table, answer);
    SubsetSize(keys, due);
    if keys == due {
      assert due - keys == {};
    }
  }

  /**
    An answer, said row by row: rows of the table before the cutoff, as they
    stand, oldest first; one is left out only when the limit is reached, and none
    of those left out is older than one answered.
  */
  lemma AnswerIsOldest(hot: Rows, table: string, cutoff: int, limit: nat, answer: seq<Record>, k: Key)
    requires IsAnswer(hot, table, cutoff, limit, answer)
    ensures |answer| <= limit
    ensures forall i :: 0 <= i < |answer| ==>
      Key(table, answer[i].id) in hot && hot[Key(table, answer[i].id)] == answer[i].row && answer[i].row.date < cutoff
    ensures forall i, j :: 0 <= i < j < |answer| ==> answer[i].row.date <= answer[j].row.date
    ensures k in hot && k.table == table && hot[k].date < cutoff && (forall r :: r in answer ==> r.id != k.id) ==>
      |answer| == limit && forall i :: 0 <= i < |answer| ==> answer[i].row.date <= hot[k].date
  {
    var due, keys := Due(hot, table, cutoff), Keys(table, answer);
    AnswerLeavesOut(hot, table, cutoff, limit, answer);
    if k in hot && k.table == table && hot[k].date < cutoff && (forall r :: r in answer ==> r.id != k.id) {
      assert k in due && k !in keys;
    }
  }

  /** Whatever the table holds, some answer exists. */
  lemma {:induction false} AnswerExists(hot: Rows, table: string, cutoff: int, limit: nat) returns (answer: seq<Record>)
    ensures IsAnswer(hot, table, cutoff, limit, answer)
  {
    if limit == 0 {
      return [];
    }
    var shorter := AnswerExists(hot, table, cutoff, limit - 1);
    var due, keys := Due(hot, table, cutoff), Keys(table, shorter);
    AnswerLeavesOut(hot, table, cutoff, limit - 1, shorter);
    if |due| < limit {
      return shorter;
    }
    var k := OldestOf(hot, due - keys);
    answer := shorter + [Record(k.id, hot[k])];
    NextOldest(hot, table, cutoff, shorter, k);
  }

  lemma NextOldest(hot: Rows, table: string, cutoff: int, answer: seq<Record>, k: Key)
    requires Genuine(hot, table, cutoff, answer) && Ordered(answer)
    requires k in Due(hot, table, cutoff) - Keys(table, answer)
    requires NoneOlder(hot, Due(hot, table, cutoff) - Keys(table, answer), answer)
    requires forall k' :: k' in Due(hot, table, cutoff) - Keys(table, answer) ==> hot[k].date <= hot[k'].date
    ensures var longer := answer + [Record(k.id, hot[k])];
      && Genuine(hot, table, cutoff, longer) && Ordered(longer)
      && NoneOlder(hot, Due(hot, table, cutoff) - Keys(table, longer), longer)
  {
    var longer := answer + [Record(k.id, hot[k])];
    assert Key(table, k.id) == k;
    forall i | 0 <= i < |answer| ensures answer[i].id != k.id && answer[i].row.date <= hot[k].date {
      assert Key(table, answer[i].id) in Keys(table, answer);
    }
    assert Keys(table, longer) == Keys(table, answer) + {k} by {
      assert longer == answer + [longer[|answer|]];
    }
  }

  lemma {:induction false} OldestOf(hot: Rows, keys: set<Key>) returns (k: Key)
    requires keys != {} && keys <= hot.Keys
    ensures k in keys && forall k' :: k' in keys ==> hot[k].date <= hot[k'].date
  {
    k :| k in keys;
    if keys == {k} {
    } else {
      var other := OldestOf(hot, keys - {k});
      assert forall k' :: k' in keys ==> k' == k || k' in keys - {k};
      if hot[other].date < hot[k].date {
        k := other;
      }
    }
  }

  /** Rows that are there stay as they are, and every record finds a row under its key. */
  lemma {:induction false} InsertAllKeeps(hot: Rows, table: string, records: seq<Record>)
    ensures var after := InsertAll(hot, table, records);
      && after.Keys == hot.Keys + Keys(table, records)
      && (forall k :: k in hot ==> after[k] == hot[k])
      && (forall k :: k in after && k !in hot ==> Record(k.id, after[k]) in records && k.table == table)
  {
    if records == [] {
    } else {
      var init, last := records[..|records| - 1], records[|records| - 1];
      InsertAllKeeps(hot, table, init);
      assert records == init + [last];
      assert Keys(table, records) == Keys(table, init) + {Key(table, last.id)};
    }
  }

  /** The restore's count is the number of archived keys that were absent. */
  lemma InsertedAreTheAbsent(hot: Rows, table: string, records: seq<Record>)
    ensures |InsertAll(hot, table, records)| - |hot| == |Keys(table, records) - hot.Keys|
  {
    InsertAllKeeps(hot, table, records);
    var after := InsertAll(hot, table, records);
    SubsetSize(hot.Keys, after.Keys);
    assert after.Keys - hot.Keys == Keys(table, records) - hot.Keys;
  }

  lemma NothingMissing(keys: set<Key>, there: set<Key>)
    ensures |keys - there| == 0 <==> keys <= there
  {
    assert keys <= there ==> keys - there == {};
    assert forall k :: k in keys ==> k in keys - there || k in there;
  }

  lemma CountOf(hot: Rows, table: string, upTo: seq<Record>, committed: bool)
    ensures var inserted := InsertAll(hot, table, upTo);
      var after, count := if committed then inserted else hot, |inserted| - |hot|;
      && count == |Keys(table, upTo) - hot.Keys|
      && (count == |after| - |hot| <==> committed || Keys(table, upTo) <= hot.Keys)
  {
    InsertedAreTheAbsent(hot, table, upTo);
    NothingMissing(Keys(table, upTo), hot.Keys);
  }

  /** The count is what is kept exactly when nothing fails, or nothing was missing before the first failure. */
  lemma CountIsKeptExactly(hot: Rows, table: string, records: seq<Record>, fails: nat -> bool, commit: Reply)
    ensures var (after, count) := InsertedUnder(hot, table, records, fails, commit);
      var k := FirstFailure(fails, |records|);
      && count == |Keys(table, records[..k]) - hot.Keys|
      && (count == |after| - |hot| <==>
            (k == |records| && commit != Refused) || Keys(table, records[..k]) <= hot.Keys)
  {
    var k := FirstFailure(fails, |records|);
    assert records[..|records|] == records;
    CountOf(hot, table, records[..k], k == |records| && commit != Refused);
  }

  /** Inserting rows that are all there does nothing. */
  lemma {:induction false} InsertAllPresent(hot: Rows, table: string, records: seq<Record>)
    requires Keys(table, records) <= hot.Keys
    ensures InsertAll(hot, table, records) == hot
  {
    if records == [] {
    } else {
      var init, last := records[..|records| - 1], records[|records| - 1];
      assert records == init + [last];
      assert Keys(table, records) == Keys(table, init) + {Key(table, last.id)};
      InsertAllPresent(hot, table, init);
    }
  }

  /**
    A job stopped after any of its steps, object by object and row by row: the
    deletion takes exactly the table's rows before the cutoff.
  */
  lemma JobDoesExactly(cfg: Settings, s: Store, job: Job, reached: nat, k: Key)
    ensures var after := StoreAfter(cfg, s, job, reached);
      var o := ObjectKey(job.table, job.partition, job.id);
      && (k in after.hot <==> k in s.hot && !(reached >= 4 && k.table == job.table && s.hot[k].date < job.cutoff))
      && (k in after.hot ==> after.hot[k] == s.hot[k])
      && after.data == (if reached >= 2 then s.data[o := Packed(job.records)] else s.data)
      && after.meta == (if reached < 3 then s.meta else
           s.meta[job.id := Metadata(o, |job.records|, Digest(Packed(job.records)), job.at,
                                     job.at + cfg.retentionYears * 365 * 86400)])
  {
  }

  /** An archive whose data were altered is not restored. */
  lemma AlteredIsRefused(s: Store, archive: string, blob: Blob)
    requires Restorable(s, archive)
    ensures var o := s.meta[archive].objectKey;
      Restorable(s.(data := s.data[o := blob]), archive) <==> blob == s.data[o]
  {
  }

  /** Restoring twice is restoring once, and a restore changes nothing but missing rows. */
  lemma RestoreIsIdempotent(s: Store, archive: string)
    requires Restorable(s, archive)
    ensures Restorable(Restored(s, archive), archive)
    ensures Restored(Restored(s, archive), archive) == Restored(s, archive)
    ensures forall k :: k in s.hot ==> k in Restored(s, archive).hot && Restored(s, archive).hot[k] == s.hot[k]
  {
    var table, records := s.meta[archive].objectKey.table, RecordsOf(s, archive);
    InsertAllKeeps(s.hot, table, records);
    InsertAllPresent(Restored(s, archive).hot, table, records);
  }
}

/**
  Any number of jobs, restores, expiries, inserts and crashes, one write at a
  time.  `ledger` remembers every row ever inserted, `begun` every job with the
  time it ran and the rows it copied, and `purged` the rows that
  were not in the hot table when the removal of an archive holding them began
  after its retention, and have not been restored since; nothing reads them.
*/
module ArchivalProtocol {
  import opened ColdStorage

  datatype Phase = Selected | DataPut | Uploaded

  datatype Progress = Progress(job: Job, phase: Phase)

  datatype World = World(
    store: Store,
    jobs: map<string, Progress>,
    begun: map<string, Job>,
    ledger: Rows,
    purged: set<Key>)

  datatype Action =
    | Insert(key: Key, row: Row)
    | Select(begun: Job)
    | PutDataOf(job: string)
    | PutMetaOf(job: string)
    | DeleteOf(job: string)
    | Abandon(job: string)
    | Restore(archive: string)
    | PurgeDataOf(archive: string, now: int)
    | PurgeMetaOf(archive: string, now: int)

  predicate InPhase(w: World, job: string, phase: Phase) {
    job in w.jobs && w.jobs[job].phase == phase
  }

  ghost predicate Enabled(cfg: Settings, w: World, a: Action) {
    match a
    case Insert(key, _) => key !in w.ledger
    case Select(job) =>
      && job.id !in w.begun && job.records != []
      && IsAnswer(w.store.hot, job.table, job.cutoff, cfg.chunkSize, job.records)
    case PutDataOf(job) => InPhase(w, job, Selected)
    case PutMetaOf(job) => InPhase(w, job, DataPut)
    case DeleteOf(job) => InPhase(w, job, Uploaded)
    case Abandon(job) => job in w.jobs
    case Restore(archive) => Restorable(w.store, archive)
    case PurgeDataOf(archive, now) => Expired(w.store, archive, now)
    case PurgeMetaOf(archive, now) => Expired(w.store, archive, now)
  }

  function HeldBy(s: Store, archive: string): set<Key> {
    if Restorable(s, archive) then Keys(s.meta[archive].objectKey.table, RecordsOf(s, archive)) else {}
  }

  function AtPhase(w: World, job: string, phase: Phase): map<string, Progress>
    requires job in w.jobs
  {
    w.jobs[job := w.jobs[job].(phase := phase)]
  }

  ghost function Act(cfg: Settings, w: World, a: Action): World
    requires Enabled(cfg, w, a)
  {
    match a
    case Insert(key, row) =>
      w.(store := w.store.(hot := w.store.hot[key := row]), ledger := w.ledger[key := row])
    case Select(job) => w.(jobs := w.jobs[job.id := Progress(job, Selected)], begun := w.begun[job.id := job])
    case PutDataOf(job) => w.(store := PutData(w.store, w.jobs[job].job), jobs := AtPhase(w, job, DataPut))
    case PutMetaOf(job) => w.(store := PutMeta(cfg, w.store, w.jobs[job].job), jobs := AtPhase(w, job, Uploaded))
    case DeleteOf(job) => w.(store := DeleteHot(w.store, w.jobs[job].job), jobs := w.jobs - {job})
    case Abandon(job) => w.(jobs := w.jobs - {job})
    case Restore(archive) =>
      w.(store := Restored(w.store, archive), purged := w.purged - HeldBy(w.store, archive))
    case PurgeDataOf(archive, _) => w.(store := PurgeData(w.store, archive), purged := GivenUp(w, archive))
    case PurgeMetaOf(archive, _) => w.(store := PurgeMeta(w.store, archive), purged := GivenUp(w, archive))
  }

  /** What retention has taken once the removal of the archive begins: its rows, save those that are live. */
  function GivenUp(w: World, archive: string): set<Key> {
    w.purged + (HeldBy(w.store, archive) - w.store.hot.Keys)
  }

  /** The world after the first actions of a run, each enabled where it happens. */
  ghost predicate IsRun(cfg: Settings, worlds: seq<World>, actions: seq<Action>) {
    && |worlds| == |actions| + 1
    && forall i :: 0 <= i < |actions| ==>
         Enabled(cfg, worlds[i], actions[i]) && worlds[i + 1] == Act(cfg, worlds[i], actions[i])
  }

  /** Nothing archived yet, no job under way. */
  predicate IsInitial(w: World) {
    && w.store.data == map[] && w.store.meta == map[] && w.jobs == map[] && w.begun == map[]
    && w.ledger == w.store.hot && w.purged == {}
  }

  /** Some archive holds the row, with both of its objects intact. */
  ghost predicate Held(w: World, k: Key)
    requires k in w.ledger
  {
    exists x :: Archived(w.store, x, k, w.ledger[k])
  }

  /** An archive's removal takes no row that the job is about to delete, unless the job or another archive holds it. */
  ghost predicate Dispensable(w: World, archive: string, job: Job) {
    forall k :: k in HeldBy(w.store, archive) * Due(w.store.hot, job.table, job.cutoff) && k in w.ledger ==>
      k in Keys(job.table, job.records) || exists y :: y != archive && Archived(w.store, y, k, w.ledger[k])
  }

  /**
    The proviso: a query meets no more rows than it may return; no row is
    inserted behind a running job; and no archive is removed that a running job
    has just made, or that holds restored rows the job is about to delete.
  */
  ghost predicate Considerate(cfg: Settings, w: World, a: Action) {
    match a
    case Insert(key, row) =>
      forall x :: x in w.jobs ==> !(key.table == w.jobs[x].job.table && row.date < w.jobs[x].job.cutoff)
    case Select(job) => |Due(w.store.hot, job.table, job.cutoff)| <= cfg.chunkSize
    case PurgeDataOf(archive, _) => PurgesConsiderately(w, archive)
    case PurgeMetaOf(archive, _) => PurgesConsiderately(w, archive)
    case _ => true
  }

  ghost predicate PurgesConsiderately(w: World, archive: string) {
    archive !in w.jobs && forall x :: x in w.jobs ==> Dispensable(w, archive, w.jobs[x].job)
  }

  /** The row is in an archive with both of its objects intact, or retention has taken it. */
  ghost predicate Safe(w: World, k: Key)
    requires k in w.ledger
  {
    k in w.purged || Held(w, k)
  }

  /** What retention has taken was a row once and is not live. */
  ghost predicate Gone(w: World) {
    w.purged <= w.ledger.Keys && w.purged !! w.store.hot.Keys
  }

  /** No row is in neither store. */
  ghost predicate Conserved(w: World) {
    forall k :: k in w.ledger ==> k in w.store.hot || Safe(w, k)
  }

  ghost predicate Logged(w: World, table: string, records: seq<Record>) {
    forall r :: r in records ==> Key(table, r.id) in w.ledger && w.ledger[Key(table, r.id)] == r.row
  }

  ghost predicate HotIsLogged(w: World) {
    forall k :: k in w.store.hot ==> k in w.ledger && w.ledger[k] == w.store.hot[k]
  }

  ghost predicate DataAreLogged(w: World) {
    forall o :: o in w.store.data && w.store.data[o].Packed? ==> Logged(w, o.table, w.store.data[o].records)
  }

  ghost predicate JobsAreLogged(w: World) {
    forall x :: x in w.jobs ==> Logged(w, w.jobs[x].job.table, w.jobs[x].job.records)
  }

  /** Every copy of a row is the row that was inserted. */
  ghost predicate Faithful(w: World) {
    HotIsLogged(w) && DataAreLogged(w) && JobsAreLogged(w)
  }

  /** Archives are named after the job that made them, and no two jobs share a name. */
  ghost predicate Named(w: World) {
    && (forall x :: x in w.store.meta ==> w.store.meta[x].objectKey.archive == x && x in w.begun)
    && (forall x :: x in w.jobs ==> w.jobs[x].job.id == x && x in w.begun)
    && (forall x :: x in w.jobs && w.jobs[x].phase != Uploaded ==> x !in w.store.meta)
  }

  /** What a job has written is still there until its metadata makes an archive of it. */
  ghost predicate Secured(w: World) {
    && (forall x :: InPhase(w, x, DataPut) ==>
          ObjectKeyOf(w.jobs[x].job) in w.store.data
          && w.store.data[ObjectKeyOf(w.jobs[x].job)] == Packed(w.jobs[x].job.records))
    && (forall x :: InPhase(w, x, Uploaded) ==> HoldsAll(w, x, w.jobs[x].job))
  }

  /** The archive holds every row the job copied. */
  ghost predicate HoldsAll(w: World, archive: string, job: Job) {
    forall k :: k in Keys(job.table, job.records) ==> k in w.ledger && Archived(w.store, archive, k, w.ledger[k])
  }

  /** Every row a job is going to delete has been copied by it or is safe already. */
  ghost predicate Covered(w: World) {
    forall x :: x in w.jobs ==> CoversDue(w, w.jobs[x].job)
  }

  ghost predicate CoversDue(w: World, job: Job) {
    forall k :: k in Due(w.store.hot, job.table, job.cutoff) ==>
      k in Keys(job.table, job.records) || (k in w.ledger && Safe(w, k))
  }

  /** What every run keeps, considerate or not. */
  ghost predicate Basic(w: World) {
    Faithful(w) && Named(w) && Gone(w)
  }

  ghost predicate Inv(w: World) {
    Basic(w) && Conserved(w) && Secured(w) && Covered(w)
  }
}

module ArchivalTheorems {
  import opened Basics
  import opened ColdStorage
  import opened ColdStorageTheorems
  import opened ArchivalProtocol

  lemma AnswerIsLogged(cfg: Settings, w: World, job: Job)
    requires Enabled(cfg, w, Select(job)) && Faithful(w)
    ensures Logged(w, job.table, job.records)
  {
    forall r | r in job.records
      ensures Key(job.table, r.id) in w.ledger && w.ledger[Key(job.table, r.id)] == r.row
    {
      assert IsDue(w.store.hot, job.table, job.cutoff, Key(job.table, r.id));
    }
  }

  lemma HotStaysLogged(cfg: Settings, w: World, a: Action)
    requires Enabled(cfg, w, a) && Faithful(w)
    ensures HotIsLogged(Act(cfg, w, a))
  {
    if a.Restore? {
      var o := w.store.meta[a.archive].objectKey;
      assert Logged(w, o.table, w.store.data[o].records);
      InsertAllKeeps(w.store.hot, o.table, RecordsOf(w.store, a.archive));
    }
  }

  lemma LogGrows(cfg: Settings, w: World, a: Action, table: string, records: seq<Record>)
    requires Enabled(cfg, w, a) && Logged(w, table, records)
    ensures Logged(Act(cfg, w, a), table, records)
  {
  }

  lemma DataStayLogged(cfg: Settings, w: World, a: Action)
    requires Enabled(cfg, w, a) && Faithful(w)
    ensures DataAreLogged(Act(cfg, w, a))
  {
    var w' := Act(cfg, w, a);
    forall o | o in w'.store.data && w'.store.data[o].Packed? ensures Logged(w', o.table, w'.store.data[o].records) {
      if a.PutDataOf? && o == ObjectKeyOf(w.jobs[a.job].job) {
        LogGrows(cfg, w, a, o.table, w.jobs[a.job].job.records);
      } else {
        LogGrows(cfg, w, a, o.table, w.store.data[o].records);
      }
    }
  }

  lemma JobsStayLogged(cfg: Settings, w: World, a: Action)
    requires Enabled(cfg, w, a) && Faithful(w)
    ensures JobsAreLogged(Act(cfg, w, a))
  {
    if a.Select? {
      AnswerIsLogged(cfg, w, a.begun);
    }
  }

  lemma FaithfulStays(cfg: Settings, w: World, a: Action)
    requires Enabled(cfg, w, a) && Faithful(w)
    ensures Faithful(Act(cfg, w, a))
  {
    HotStaysLogged(cfg, w, a);
    DataStayLogged(cfg, w, a);
    JobsStayLogged(cfg, w, a);
  }

  lemma NamedStays(cfg: Settings, w: World, a: Action)
    requires Enabled(cfg, w, a) && Named(w)
    ensures Named(Act(cfg, w, a))
  {
  }

  /** The held rows of an archive are rows of the ledger, as they were. */
  lemma HeldAreLogged(w: World, x: string, k: Key)
    requires Faithful(w) && Restorable(w.store, x) && k in HeldBy(w.store, x)
    ensures k in w.ledger && Archived(w.store, x, k, w.ledger[k])
  {
    var o := w.store.meta[x].objectKey;
    assert Logged(w, o.table, w.store.data[o].records);
    var r :| r in RecordsOf(w.store, x) && k == Key(o.table, r.id);
  }

  lemma ArchivedIsHeldBy(s: Store, x: string, k: Key, row: Row)
    requires Archived(s, x, k, row)
    ensures k in HeldBy(s, x)
  {
    assert k == Key(s.meta[x].objectKey.table, Record(k.id, row).id);
  }

  lemma RestoreKeepsGone(w: World, x: string)
    requires Gone(w) && Restorable(w.store, x)
    ensures w.purged - HeldBy(w.store, x) !! Restored(w.store, x).hot.Keys
  {
    InsertAllKeeps(w.store.hot, w.store.meta[x].objectKey.table, RecordsOf(w.store, x));
  }

  lemma GoneStays(cfg: Settings, w: World, a: Action)
    requires Enabled(cfg, w, a) && Faithful(w) && Gone(w)
    ensures Gone(Act(cfg, w, a))
  {
    if a.Restore? {
      RestoreKeepsGone(w, a.archive);
    } else if a.PurgeDataOf? || a.PurgeMetaOf? {
      forall k | k in HeldBy(w.store, a.archive) ensures k in w.ledger {
        HeldAreLogged(w, a.archive, k);
      }
    }
  }

  lemma BasicStays(cfg: Settings, w: World, a: Action)
    requires Enabled(cfg, w, a) && Basic(w)
    ensures Basic(Act(cfg, w, a))
  {
    FaithfulStays(cfg, w, a);
    NamedStays(cfg, w, a);
    GoneStays(cfg, w, a);
  }

  predicate Purges(a: Action, x: string) {
    (a.PurgeDataOf? || a.PurgeMetaOf?) && a.archive == x
  }

  /** An archive that may be restored stays so until its removal begins. */
  lemma ArchivedStays(cfg: Settings, w: World, a: Action, x: string, k: Key, row: Row)
    requires Enabled(cfg, w, a) && Named(w)
    requires Archived(w.store, x, k, row) && !Purges(a, x)
    ensures Archived(Act(cfg, w, a).store, x, k, row)
  {
  }

  /** The removal of an archive that held the row begins while the row is live. */
  predicate TakesLive(w: World, a: Action, k: Key) {
    (a.PurgeDataOf? || a.PurgeMetaOf?) && k in HeldBy(w.store, a.archive) && k in w.store.hot
  }

  lemma SafeStays(cfg: Settings, w: World, a: Action, k: Key)
    requires Enabled(cfg, w, a) && Basic(w) && k in w.ledger && Safe(w, k) && !TakesLive(w, a, k)
    ensures k in Act(cfg, w, a).ledger && Safe(Act(cfg, w, a), k)
  {
    var w' := Act(cfg, w, a);
    if k in w.purged {
      if a.Restore? && k in HeldBy(w.store, a.archive) {
        HeldAreLogged(w, a.archive, k);
        ArchivedStays(cfg, w, a, a.archive, k, w.ledger[k]);
      }
    } else {
      var x :| Archived(w.store, x, k, w.ledger[k]);
      ArchivedIsHeldBy(w.store, x, k, w.ledger[k]);
      if !Purges(a, x) {
        ArchivedStays(cfg, w, a, x, k, w.ledger[k]);
      }
    }
  }

  /** The metadata completes the archive. */
  lemma UploadSecures(cfg: Settings, w: World, x: string)
    requires InPhase(w, x, DataPut) && Faithful(w) && Named(w) && Secured(w)
    ensures HoldsAll(Act(cfg, w, PutMetaOf(x)), x, w.jobs[x].job)
  {
    var w', job := Act(cfg, w, PutMetaOf(x)), w.jobs[x].job;
    forall k | k in Keys(job.table, job.records)
      ensures k in w'.ledger && Archived(w'.store, x, k, w'.ledger[k])
    {
      var r :| r in job.records && k == Key(job.table, r.id);
    }
  }

  lemma HoldsAllStays(cfg: Settings, w: World, a: Action, x: string, job: Job)
    requires Enabled(cfg, w, a) && Named(w) && HoldsAll(w, x, job) && !Purges(a, x)
    ensures HoldsAll(Act(cfg, w, a), x, job)
  {
    var w' := Act(cfg, w, a);
    forall k | k in Keys(job.table, job.records)
      ensures k in w'.ledger && Archived(w'.store, x, k, w'.ledger[k])
    {
      ArchivedStays(cfg, w, a, x, k, w.ledger[k]);
    }
  }

  /** What a job has written stays until it is done, unless its own archive is removed. */
  lemma SecuredStays(cfg: Settings, w: World, a: Action)
    requires Enabled(cfg, w, a) && Basic(w) && Secured(w)
    requires forall x :: x in w.jobs ==> !Purges(a, x)
    ensures Secured(Act(cfg, w, a))
  {
    var w' := Act(cfg, w, a);
    forall x | InPhase(w', x, DataPut)
      ensures ObjectKeyOf(w'.jobs[x].job) in w'.store.data
      ensures w'.store.data[ObjectKeyOf(w'.jobs[x].job)] == Packed(w'.jobs[x].job.records)
    {
    }
    forall x | InPhase(w', x, Uploaded) ensures HoldsAll(w', x, w'.jobs[x].job) {
      if a == PutMetaOf(x) {
        UploadSecures(cfg, w, x);
      } else {
        HoldsAllStays(cfg, w, a, x, w.jobs[x].job);
      }
    }
  }

  /** A row that becomes live is one that an archive has just been restored from. */
  lemma RestoredAreHeld(cfg: Settings, w: World, x: string, k: Key)
    requires Restorable(w.store, x) && Basic(w)
    requires k in Restored(w.store, x).hot && k !in w.store.hot
    ensures k in w.ledger && Safe(Act(cfg, w, Restore(x)), k)
  {
    var table, records := w.store.meta[x].objectKey.table, RecordsOf(w.store, x);
    InsertAllKeeps(w.store.hot, table, records);
    assert k in HeldBy(w.store, x);
    HeldAreLogged(w, x, k);
    ArchivedStays(cfg, w, Restore(x), x, k, w.ledger[k]);
  }

  /** Rows inserted behind its back, or live again and then given up, can undo what a job covers; nothing else. */
  lemma CoversDueStays(cfg: Settings, w: World, a: Action, job: Job)
    requires Enabled(cfg, w, a) && Basic(w) && CoversDue(w, job)
    requires a.Insert? ==> !(a.key.table == job.table && a.row.date < job.cutoff)
    requires a.PurgeDataOf? || a.PurgeMetaOf? ==> Dispensable(w, a.archive, job)
    ensures CoversDue(Act(cfg, w, a), job)
  {
    var w' := Act(cfg, w, a);
    forall k | k in Due(w'.store.hot, job.table, job.cutoff) && k !in Keys(job.table, job.records)
      ensures k in w'.ledger && Safe(w', k)
    {
      if k in w.store.hot {
        if a.Restore? {
          InsertAllKeeps(w.store.hot, w.store.meta[a.archive].objectKey.table, RecordsOf(w.store, a.archive));
        }
        DueStaysSafe(cfg, w, a, job, k);
      } else if a.Restore? {
        RestoredAreHeld(cfg, w, a.archive, k);
      }
    }
  }

  lemma DueStaysSafe(cfg: Settings, w: World, a: Action, job: Job, k: Key)
    requires Enabled(cfg, w, a) && Basic(w) && CoversDue(w, job)
    requires k in Due(w.store.hot, job.table, job.cutoff) && k !in Keys(job.table, job.records)
    requires a.PurgeDataOf? || a.PurgeMetaOf? ==> Dispensable(w, a.archive, job)
    ensures k in Act(cfg, w, a).ledger && Safe(Act(cfg, w, a), k)
  {
    if TakesLive(w, a, k) {
      var y :| y != a.archive && Archived(w.store, y, k, w.ledger[k]);
      ArchivedStays(cfg, w, a, y, k, w.ledger[k]);
    } else {
      SafeStays(cfg, w, a, k);
    }
  }

  lemma CoveredStays(cfg: Settings, w: World, a: Action)
    requires Enabled(cfg, w, a) && Considerate(cfg, w, a) && Basic(w) && Covered(w)
    ensures Covered(Act(cfg, w, a))
  {
    var w' := Act(cfg, w, a);
    forall x | x in w'.jobs ensures CoversDue(w', w'.jobs[x].job) {
      var job := w'.jobs[x].job;
      if x in w.jobs {
        assert w.jobs[x].job == job;
        CoversDueStays(cfg, w, a, job);
      } else {
        AnswerLeavesOut(w.store.hot, job.table, job.cutoff, cfg.chunkSize, job.records);
      }
    }
  }

  /** A deletion takes only rows that some archive holds; other actions take none. */
  ghost predicate SparesUnheld(w: World, a: Action) {
    a.DeleteOf? && a.job in w.jobs ==>
      var job := w.jobs[a.job].job;
      forall k :: k in Due(w.store.hot, job.table, job.cutoff) ==> k in w.ledger && Held(w, k)
  }

  /** The only action that can lose a row is the deletion of one that no archive holds. */
  lemma ConservedStaysExactly(cfg: Settings, w: World, a: Action)
    requires Enabled(cfg, w, a) && Basic(w) && Conserved(w)
    ensures Conserved(Act(cfg, w, a)) <==> SparesUnheld(w, a)
  {
    if a.DeleteOf? {
      DeletionConserves(cfg, w, a.job);
    } else {
      var w' := Act(cfg, w, a);
      forall k | k in w'.ledger ensures k in w'.store.hot || Safe(w', k) {
        if k in w.store.hot {
          if a.Restore? {
            InsertAllKeeps(w.store.hot, w.store.meta[a.archive].objectKey.table, RecordsOf(w.store, a.archive));
          }
        } else if k in w.ledger {
          SafeStays(cfg, w, a, k);
        }
      }
    }
  }

  lemma DeletionKeepsHeld(cfg: Settings, w: World, x: string, k: Key)
    requires InPhase(w, x, Uploaded) && k in w.ledger
    ensures Held(Act(cfg, w, DeleteOf(x)), k) <==> Held(w, k)
  {
    var w' := Act(cfg, w, DeleteOf(x));
    assert forall y :: Archived(w'.store, y, k, w.ledger[k]) <==> Archived(w.store, y, k, w.ledger[k]);
  }

  lemma DeletionConserves(cfg: Settings, w: World, x: string)
    requires InPhase(w, x, Uploaded) && Basic(w) && Conserved(w)
    ensures Conserved(Act(cfg, w, DeleteOf(x))) <==> SparesUnheld(w, DeleteOf(x))
  {
    var w', job := Act(cfg, w, DeleteOf(x)), w.jobs[x].job;
    forall k | k in w.ledger ensures Safe(w', k) <==> Safe(w, k) {
      DeletionKeepsHeld(cfg, w, x, k);
    }
    forall k | k in Due(w.store.hot, job.table, job.cutoff)
      ensures k in w.ledger && k !in w'.store.hot && (Safe(w', k) <==> Held(w, k))
    {
    }
  }

  lemma {:induction false} BasicAlways(cfg: Settings, worlds: seq<World>, actions: seq<Action>, n: nat)
    requires IsRun(cfg, worlds, actions) && IsInitial(worlds[0]) && n <= |actions|
    ensures Basic(worlds[n])
  {
    if n == 0 {
    } else {
      BasicAlways(cfg, worlds, actions, n - 1);
      BasicStays(cfg, worlds[n - 1], actions[n - 1]);
    }
  }

  /**
    In every run, with no proviso: the rows are conserved at every write if and
    only if every deletion meets only rows that some archive holds at that moment.
  */
  lemma {:induction false} ConservedExactly(cfg: Settings, worlds: seq<World>, actions: seq<Action>, n: nat)
    requires IsRun(cfg, worlds, actions) && IsInitial(worlds[0]) && n <= |actions|
    ensures (forall i :: 0 <= i <= n ==> Conserved(worlds[i])) <==>
              (forall i :: 0 <= i < n ==> SparesUnheld(worlds[i], actions[i]))
  {
    if n == 0 {
    } else {
      ConservedExactly(cfg, worlds, actions, n - 1);
      if Conserved(worlds[n - 1]) {
        BasicAlways(cfg, worlds, actions, n - 1);
        ConservedStaysExactly(cfg, worlds[n - 1], actions[n - 1]);
        assert worlds[n] == Act(cfg, worlds[n - 1], actions[n - 1]);
      }
      assert (forall i :: 0 <= i < n ==> SparesUnheld(worlds[i], actions[i])) ==>
          SparesUnheld(worlds[n - 1], actions[n - 1]);
    }
  }

  /** A job that covers what it deletes deletes only held rows. */
  lemma CoveredDeletionSpares(w: World, a: Action)
    requires Basic(w) && Secured(w) && Covered(w) && (a.DeleteOf? ==> InPhase(w, a.job, Uploaded))
    ensures SparesUnheld(w, a)
  {
    if a.DeleteOf? {
      var job := w.jobs[a.job].job;
      assert CoversDue(w, job) && HoldsAll(w, a.job, job);
    }
  }

  lemma InvStays(cfg: Settings, w: World, a: Action)
    requires Enabled(cfg, w, a) && Considerate(cfg, w, a) && Inv(w)
    ensures Inv(Act(cfg, w, a))
  {
    BasicStays(cfg, w, a);
    SecuredStays(cfg, w, a);
    CoveredStays(cfg, w, a);
    CoveredDeletionSpares(w, a);
    ConservedStaysExactly(cfg, w, a);
  }

  lemma {:induction false} InvAlways(cfg: Settings, worlds: seq<World>, actions: seq<Action>, n: nat)
    requires IsRun(cfg, worlds, actions) && IsInitial(worlds[0]) && n <= |actions|
    requires forall i :: 0 <= i < n ==> Considerate(cfg, worlds[i], actions[i])
    ensures Inv(worlds[n])
  {
    if n == 0 {
    } else {
      InvAlways(cfg, worlds, actions, n - 1);
      InvStays(cfg, worlds[n - 1], actions[n - 1]);
    }
  }

  /**
    Conservation: at every write of every run that respects the proviso, a row
    ever inserted is in the hot table unchanged, or in an archive a restore
    would accept, or in one that was removed after its retention.
  */
  lemma NoRowIsEverLost(cfg: Settings, worlds: seq<World>, actions: seq<Action>, n: nat, k: Key)
    requires IsRun(cfg, worlds, actions) && IsInitial(worlds[0]) && n <= |actions|
    requires forall i :: 0 <= i < n ==> Considerate(cfg, worlds[i], actions[i])
    requires k in worlds[n].ledger
    ensures var w := worlds[n];
      || (k in w.store.hot && w.store.hot[k] == w.ledger[k])
      || (exists x :: Archived(w.store, x, k, w.ledger[k]))
      || k in w.purged
  {
    InvAlways(cfg, worlds, actions, n);
  }

  /** The metadata of a job's archive: its place, what it copied, when it ran, and until when that must be kept. */
  predicate Describes(cfg: Settings, m: Metadata, x: string, job: Job) {
    && m.objectKey == ObjectKey(job.table, job.partition, x)
    && m.recordCount == |job.records| && m.digest == Digest(Packed(job.records))
    && m.createdAt == job.at && m.retentionUntil == job.at + cfg.retentionYears * 365 * 86400
  }

  ghost predicate MetaTell(cfg: Settings, w: World) {
    forall x :: x in w.store.meta ==> x in w.begun && Describes(cfg, w.store.meta[x], x, w.begun[x])
  }

  ghost predicate DataTell(w: World) {
    forall o :: o in w.store.data ==>
      && o.archive in w.begun
      && var job := w.begun[o.archive];
         o == ObjectKey(job.table, job.partition, o.archive) && w.store.data[o] == Packed(job.records)
  }

  ghost predicate JobsTell(w: World) {
    forall x :: x in w.jobs ==> x in w.begun && w.jobs[x].job == w.begun[x] && w.begun[x].id == x
  }

  lemma MetaStayTold(cfg: Settings, w: World, a: Action)
    requires Enabled(cfg, w, a) && MetaTell(cfg, w) && JobsTell(w)
    ensures MetaTell(cfg, Act(cfg, w, a)) && JobsTell(Act(cfg, w, a))
  {
  }

  lemma DataStayTold(cfg: Settings, w: World, a: Action)
    requires Enabled(cfg, w, a) && DataTell(w) && JobsTell(w)
    ensures DataTell(Act(cfg, w, a))
  {
  }

  /** In every run each archive tells of the job that made it: its metadata, and the records in its data. */
  lemma {:induction false} ArchivesTellTheirJobs(cfg: Settings, worlds: seq<World>, actions: seq<Action>, n: nat)
    requires IsRun(cfg, worlds, actions) && IsInitial(worlds[0]) && n <= |actions|
    ensures MetaTell(cfg, worlds[n]) && DataTell(worlds[n]) && JobsTell(worlds[n])
  {
    if n == 0 {
    } else {
      ArchivesTellTheirJobs(cfg, worlds, actions, n - 1);
      MetaStayTold(cfg, worlds[n - 1], actions[n - 1]);
      DataStayTold(cfg, worlds[n - 1], actions[n - 1]);
    }
  }

  /** The action begins the removal of the archive of a job that copied the row, after that job's years are over. */
  ghost predicate PurgesInTime(cfg: Settings, w: World, a: Action, k: Key) {
    && (a.PurgeDataOf? || a.PurgeMetaOf?)
    && a.archive in w.begun
    && var job := w.begun[a.archive];
       k in Keys(job.table, job.records) && a.now > job.at + cfg.retentionYears * 365 * 86400
  }

  lemma PurgedInTime(cfg: Settings, w: World, a: Action, k: Key)
    requires Enabled(cfg, w, a) && MetaTell(cfg, w) && DataTell(w)
    requires k in Act(cfg, w, a).purged && k !in w.purged
    ensures PurgesInTime(cfg, w, a, k)
  {
    assert k in HeldBy(w.store, a.archive);
  }

  /** A row leaves the archive only after the years counted from the job that copied it. */
  lemma {:induction false} NothingIsPurgedEarly(cfg: Settings, worlds: seq<World>, actions: seq<Action>, n: nat, k: Key)
    requires IsRun(cfg, worlds, actions) && IsInitial(worlds[0]) && n <= |actions|
    requires k in worlds[n].purged
    ensures exists i :: 0 <= i < n && PurgesInTime(cfg, worlds[i], actions[i], k)
  {
    assert n > 0;
    if k in worlds[n - 1].purged {
      NothingIsPurgedEarly(cfg, worlds, actions, n - 1, k);
    } else {
      ArchivesTellTheirJobs(cfg, worlds, actions, n - 1);
      PurgedInTime(cfg, worlds[n - 1], actions[n - 1], k);
      assert PurgesInTime(cfg, worlds[n - 1], actions[n - 1], k);
    }
  }

  /** The removal of an archive's objects begins only after the years counted from the job that made it. */
  lemma RemovalIsInTime(cfg: Settings, worlds: seq<World>, actions: seq<Action>, i: nat)
    requires IsRun(cfg, worlds, actions) && IsInitial(worlds[0]) && i < |actions|
    requires actions[i].PurgeDataOf? || actions[i].PurgeMetaOf?
    ensures actions[i].archive in worlds[i].begun
    ensures actions[i].now > worlds[i].begun[actions[i].archive].at + cfg.retentionYears * 365 * 86400
  {
    ArchivesTellTheirJobs(cfg, worlds, actions, i);
  }

  /** The rows that are in neither store. */
  ghost function Lost(w: World): set<Key> {
    set k | k in w.ledger && k !in w.store.hot && !Safe(w, k)
  }

  /**
    Without the proviso: a deletion loses exactly the rows before its cutoff that
    no archive holds, whether they exceeded the query's limit, came after the
    query, or were restored behind it from an archive that is gone again.
  */
  lemma DeletionLosesExactly(cfg: Settings, w: World, x: string)
    requires InPhase(w, x, Uploaded) && Basic(w)
    ensures var job := w.jobs[x].job;
      Lost(Act(cfg, w, DeleteOf(x))) ==
      Lost(w) + set k | k in Due(w.store.hot, job.table, job.cutoff) && !Held(w, k)
  {
    var w' := Act(cfg, w, DeleteOf(x));
    forall k | k in w.ledger ensures Safe(w', k) <==> Safe(w, k) {
      DeletionKeepsHeld(cfg, w, x, k);
    }
  }

  /**
    So a row restored behind a running job is lost when the only archive that
    holds it is removed before the job deletes.
  */
  lemma RemovalBehindAJobLoses(cfg: Settings, w: World, x: string, archive: string, now: int, k: Key)
    requires InPhase(w, x, Uploaded) && Basic(w) && Expired(w.store, archive, now)
    requires k in Due(w.store.hot, w.jobs[x].job.table, w.jobs[x].job.cutoff)
    requires forall y :: Archived(w.store, y, k, w.ledger[k]) ==> y == archive
    ensures k in Lost(Act(cfg, Act(cfg, w, PurgeDataOf(archive, now)), DeleteOf(x)))
  {
    var w1 := Act(cfg, w, PurgeDataOf(archive, now));
    BasicStays(cfg, w, PurgeDataOf(archive, now));
    DeletionLosesExactly(cfg, w1, x);
    assert !Archived(w1.store, archive, k, w.ledger[k]);
    forall y | y != archive ensures !Archived(w1.store, y, k, w.ledger[k]) {
      assert !Archived(w.store, y, k, w.ledger[k]);
    }
  }

  ghost function Steps(job: Job): seq<Action> {
    [Select(job), PutDataOf(job.id), PutMetaOf(job.id), DeleteOf(job.id)]
  }

  /** The worlds of a job that nothing interrupts. */
  ghost function Worlds(cfg: Settings, w: World, job: Job): seq<World>
    requires Enabled(cfg, w, Select(job))
  {
    var w1 := Act(cfg, w, Select(job));
    var w2 := Act(cfg, w1, PutDataOf(job.id));
    var w3 := Act(cfg, w2, PutMetaOf(job.id));
    [w, w1, w2, w3, Act(cfg, w3, DeleteOf(job.id))]
  }

  /** Its writes are those of the sequential job. */
  lemma JobIsARun(cfg: Settings, w: World, job: Job, reached: nat)
    requires Enabled(cfg, w, Select(job)) && reached <= 4
    ensures IsRun(cfg, Worlds(cfg, w, job), Steps(job))
    ensures Worlds(cfg, w, job)[reached].store == StoreAfter(cfg, w.store, job, reached)
  {
    var worlds, steps := Worlds(cfg, w, job), Steps(job);
    forall i | 0 <= i < |steps|
      ensures Enabled(cfg, worlds[i], steps[i]) && worlds[i + 1] == Act(cfg, worlds[i], steps[i])
    {
      assert i == 0 || i == 1 || i == 2 || i == 3;
    }
  }

  /** An uninterrupted job loses exactly the rows its query left out, unless an older archive holds them. */
  lemma JobLosesExactly(cfg: Settings, w: World, job: Job)
    requires Enabled(cfg, w, Select(job)) && Basic(w)
    ensures Lost(Worlds(cfg, w, job)[4]) ==
      Lost(w) + set k | k in Due(w.store.hot, job.table, job.cutoff) - Keys(job.table, job.records) && !Held(w, k)
  {
    var worlds := Worlds(cfg, w, job);
    var w3 := worlds[3];
    JobKeepsBasic(cfg, w, job);
    DeletionLosesExactly(cfg, w3, job.id);
    forall k | k in w.ledger ensures Held(w3, k) <==> Held(w, k) || CopiedBy(job, k, w.ledger[k]) {
      UploadAddsOne(cfg, w, job, k);
    }
    forall k | k in w.ledger && CopiedBy(job, k, w.ledger[k]) ensures k in w.store.hot {
      assert Record(k.id, w.ledger[k]) in job.records;
      assert IsDue(w.store.hot, job.table, job.cutoff, Key(job.table, k.id));
    }
    forall k | k in Due(w.store.hot, job.table, job.cutoff)
      ensures CopiedBy(job, k, w.ledger[k]) <==> k in Keys(job.table, job.records)
    {
      CopiesAreOfDue(w, job, cfg.chunkSize, k);
    }
    assert Lost(w3) == Lost(w);
  }

  lemma CopiesAreOfDue(w: World, job: Job, limit: nat, k: Key)
    requires Basic(w) && IsAnswer(w.store.hot, job.table, job.cutoff, limit, job.records)
    requires k in Due(w.store.hot, job.table, job.cutoff)
    ensures CopiedBy(job, k, w.ledger[k]) <==> k in Keys(job.table, job.records)
  {
    if k in Keys(job.table, job.records) {
      var r :| r in job.records && k == Key(job.table, r.id);
      var i :| 0 <= i < |job.records| && job.records[i] == r;
      assert w.store.hot[Key(job.table, job.records[i].id)] == job.records[i].row;
      assert r == Record(k.id, w.ledger[k]);
    }
    if CopiedBy(job, k, w.ledger[k]) {
      assert k == Key(job.table, Record(k.id, w.ledger[k]).id);
    }
  }

  predicate CopiedBy(job: Job, k: Key, row: Row) {
    k.table == job.table && Record(k.id, row) in job.records
  }

  lemma JobKeepsBasic(cfg: Settings, w: World, job: Job)
    requires Enabled(cfg, w, Select(job)) && Basic(w)
    ensures Basic(Worlds(cfg, w, job)[3])
  {
    BasicStays(cfg, w, Select(job));
    BasicStays(cfg, Worlds(cfg, w, job)[1], PutDataOf(job.id));
    BasicStays(cfg, Worlds(cfg, w, job)[2], PutMetaOf(job.id));
  }

  /** The upload adds one archive, with the job's records, and leaves the others as they were. */
  lemma UploadAdds(cfg: Settings, s: Store, job: Job, y: string, k: Key, row: Row)
    requires job.id !in s.meta && forall x :: x in s.meta ==> s.meta[x].objectKey.archive == x
    ensures Archived(PutMeta(cfg, PutData(s, job), job), y, k, row) <==>
              if y == job.id then CopiedBy(job, k, row) else Archived(s, y, k, row)
  {
  }

  lemma UploadAddsOne(cfg: Settings, w: World, job: Job, k: Key)
    requires Enabled(cfg, w, Select(job)) && Named(w) && k in w.ledger
    ensures var w3 := Worlds(cfg, w, job)[3];
      Held(w3, k) <==> Held(w, k) || CopiedBy(job, k, w.ledger[k])
  {
    var after, row := PutMeta(cfg, PutData(w.store, job), job), w.ledger[k];
    assert Worlds(cfg, w, job)[3].store == after;
    forall y ensures Archived(after, y, k, row) <==>
                       if y == job.id then CopiedBy(job, k, row) else Archived(w.store, y, k, row)
    {
      UploadAdds(cfg, w.store, job, y, k, row);
    }
    if y :| Archived(w.store, y, k, row) {
      assert Archived(after, y, k, row);
    }
    if CopiedBy(job, k, row) {
      assert Archived(after, job.id, k, row);
    }
  }

  /**
    So when no old row has been archived before, a completed job leaves exactly
    max(0, n - chunkSize) of its n rows in neither store, and it conserves
    the table if and only if n is at most the chunk size.
  */
  lemma ConservedExactlyWithinChunk(cfg: Settings, w: World, job: Job)
    requires Enabled(cfg, w, Select(job)) && Basic(w) && Conserved(w)
    requires forall k :: k in Due(w.store.hot, job.table, job.cutoff) ==> !Held(w, k)
    ensures var n, w4 := |Due(w.store.hot, job.table, job.cutoff)|, Worlds(cfg, w, job)[4];
      && |Lost(w4)| == Max(0, n - cfg.chunkSize)
      && (Conserved(w4) <==> n <= cfg.chunkSize)
  {
    var due, keys, w4 := Due(w.store.hot, job.table, job.cutoff), Keys(job.table, job.records), Worlds(cfg, w, job)[4];
    ConservedMeansNoneLost(w);
    ConservedMeansNoneLost(w4);
    assert Lost(w4) == due - keys by {
      JobLosesExactly(cfg, w, job);
    }
    AnswerLeavesOut(w.store.hot, job.table, job.cutoff, cfg.chunkSize, job.records);
  }

  /** Two old rows and a chunk of one: the second row is in neither store afterwards. */
  lemma TwoRowsChunkOfOne() returns (w: World, job: Job)
    ensures var cfg := Settings(1, 7);
      && IsInitial(w) && Enabled(cfg, w, Select(job))
      && |Due(w.store.hot, job.table, job.cutoff)| == 2
      && |Lost(Worlds(cfg, w, job)[4])| == 1
  {
    var first, second := Key("acm_alerts", 1), Key("acm_alerts", 2);
    var hot := map[first := Row(0, ""), second := Row(1, "")];
    w := World(Store(hot, map[], map[]), map[], map[], hot, {});
    var records := AnswerExists(hot, "acm_alerts", 10, 1);
    job := Job("archive", "acm_alerts", "2024-01", 10, records, 0);
    assert Due(hot, "acm_alerts", 10) == {first, second};
    ConservedExactlyWithinChunk(Settings(1, 7), w, job);
  }

  lemma ConservedMeansNoneLost(w: World)
    ensures Conserved(w) <==> Lost(w) == {}
  {
    if Lost(w) == {} {
      forall k | k in w.ledger ensures k in w.store.hot || Safe(w, k) {
        assert k !in Lost(w);
      }
    }
  }

  /**
    Once both objects are written the archive reads back: its metadata are
    found, match its data, and the data unpack to the job's records.
  */
  lemma UploadIsReadBack(cfg: Settings, s: Store, job: Job, x: string)
    requires forall y :: y in s.meta ==> s.meta[y].objectKey.archive == y
    ensures var after := PutMeta(cfg, PutData(s, job), job);
      && Restorable(after, job.id) && RecordsOf(after, job.id) == job.records
      && after.meta[job.id].recordCount == |job.records|
      && (x != job.id && Restorable(s, x) ==> Restorable(after, x) && RecordsOf(after, x) == RecordsOf(s, x))
  {
  }

  /** Within the chunk size, archiving and then restoring gives the table back, row for row. */
  lemma ArchiveThenRestore(cfg: Settings, s: Store, job: Job)
    requires IsAnswer(s.hot, job.table, job.cutoff, cfg.chunkSize, job.records)
    requires |Due(s.hot, job.table, job.cutoff)| <= cfg.chunkSize
    ensures var archived := StoreAfter(cfg, s, job, 4);
      && Restorable(archived, job.id)
      && Restored(archived, job.id).hot == s.hot
  {
    AnswerLeavesOut(s.hot, job.table, job.cutoff, cfg.chunkSize, job.records);
    InsertBack(s.hot, job.table, job.cutoff, job.records);
  }

  lemma InsertBack(hot: Rows, table: string, cutoff: int, records: seq<Record>)
    requires Genuine(hot, table, cutoff, records)
    requires Keys(table, records) == Due(hot, table, cutoff)
    ensures InsertAll(hot - Due(hot, table, cutoff), table, records) == hot
  {
    var rest := hot - Due(hot, table, cutoff);
    var back := InsertAll(rest, table, records);
    InsertAllKeeps(rest, table, records);
    forall k | k in back && k !in rest ensures back[k] == hot[k] {
      var i :| 0 <= i < |records| && records[i] == Record(k.id, back[k]);
      assert k == Key(table, records[i].id);
    }
  }
}

/** A run in which every action but one respects the proviso, and a row is in neither store at its end. */
module ArchivalRuns {
  import opened ColdStorage
  import opened ArchivalProtocol
  import opened ArchivalTheorems

  const TABLE := "acm_alerts"
  const OLD := Row(0, "")
  const FIRST := Key(TABLE, 1)
  const SECOND := Key(TABLE, 2)

  function JobFor(id: string, n: nat): Job {
    Job(id, TABLE, "2024-01", 10, [Record(n, OLD)], 0)
  }

  ghost predicate IsConsiderateRun(cfg: Settings, worlds: seq<World>, actions: seq<Action>) {
    && IsRun(cfg, worlds, actions) && IsInitial(worlds[0])
    && forall i :: 0 <= i < |actions| ==> Considerate(cfg, worlds[i], actions[i])
  }

  /** The run goes on with one more action, which may be inconsiderate. */
  lemma Extend(cfg: Settings, worlds: seq<World>, actions: seq<Action>, a: Action)
    returns (longer: seq<World>, all: seq<Action>)
    requires IsRun(cfg, worlds, actions) && Enabled(cfg, worlds[|actions|], a)
    ensures IsRun(cfg, longer, all) && all == actions + [a]
    ensures longer == worlds + [Act(cfg, worlds[|actions|], a)]
  {
    longer, all := worlds + [Act(cfg, worlds[|actions|], a)], actions + [a];
    forall i | 0 <= i < |all| ensures Enabled(cfg, longer[i], all[i]) && longer[i + 1] == Act(cfg, longer[i], all[i]) {
      if i < |actions| {
        assert longer[i + 1] == worlds[i + 1] && longer[i] == worlds[i] && all[i] == actions[i];
      }
    }
  }

  lemma ExtendConsiderately(cfg: Settings, worlds: seq<World>, actions: seq<Action>, a: Action)
    returns (longer: seq<World>, all: seq<Action>)
    requires IsConsiderateRun(cfg, worlds, actions)
    requires Enabled(cfg, worlds[|actions|], a) && Considerate(cfg, worlds[|actions|], a)
    ensures IsConsiderateRun(cfg, longer, all) && longer[|all|] == Act(cfg, worlds[|actions|], a)
  {
    longer, all := Extend(cfg, worlds, actions, a);
    forall i | 0 <= i < |all| ensures Considerate(cfg, longer[i], all[i]) {
      if i < |actions| {
        assert longer[i] == worlds[i] && all[i] == actions[i];
      }
    }
  }

  /** One due row, and a query that answers it. */
  lemma OneDue(hot: Rows, n: nat, limit: nat)
    requires hot == map[Key(TABLE, n) := OLD] && limit >= 1
    ensures IsAnswer(hot, TABLE, 10, limit, [Record(n, OLD)])
    ensures |Due(hot, TABLE, 10)| == 1
  {
    assert Due(hot, TABLE, 10) == {Key(TABLE, n)};
    assert [Record(n, OLD)][0] in [Record(n, OLD)];
    assert Key(TABLE, n) in Keys(TABLE, [Record(n, OLD)]);
  }

  /** The first row is archived. */
  lemma RunToArchived(cfg: Settings) returns (worlds: seq<World>, actions: seq<Action>)
    requires cfg.chunkSize >= 1
    ensures IsConsiderateRun(cfg, worlds, actions)
    ensures var job := JobFor("a", 1);
      var store := Store(map[], map[ObjectKeyOf(job) := Packed(job.records)], map["a" := MetadataOf(cfg, job)]);
      worlds[|actions|] == World(store, map[], map["a" := job], map[FIRST := OLD], {})
  {
    var hot := map[FIRST := OLD];
    var w, job := World(Store(hot, map[], map[]), map[], map[], hot, {}), JobFor("a", 1);
    OneDue(hot, 1, cfg.chunkSize);
    worlds, actions := Worlds(cfg, w, job), Steps(job);
    JobIsARun(cfg, w, job, 4);
    assert Due(hot, TABLE, 10) == {FIRST};
  }

  /** A second row comes, a job selects it, and the first row is restored behind it. */
  lemma RunToRestored(cfg: Settings) returns (worlds: seq<World>, actions: seq<Action>)
    requires cfg.chunkSize >= 1
    ensures IsConsiderateRun(cfg, worlds, actions)
    ensures var a, b := JobFor("a", 1), JobFor("b", 2);
      var hot := map[FIRST := OLD, SECOND := OLD];
      var store := Store(hot, map[ObjectKeyOf(a) := Packed(a.records)], map["a" := MetadataOf(cfg, a)]);
      worlds[|actions|] == World(store, map["b" := Progress(b, Selected)], map["a" := a, "b" := b], hot, {})
  {
    worlds, actions := RunToArchived(cfg);
    worlds, actions := ExtendConsiderately(cfg, worlds, actions, Insert(SECOND, OLD));
    OneDue(map[SECOND := OLD], 2, cfg.chunkSize);
    worlds, actions := ExtendConsiderately(cfg, worlds, actions, Select(JobFor("b", 2)));
    var w := worlds[|actions|];
    RestoredFirst(w.store);
    worlds, actions := ExtendConsiderately(cfg, worlds, actions, Restore("a"));
  }

  lemma RestoredFirst(s: Store)
    requires Restorable(s, "a") && s.meta["a"].objectKey.table == TABLE && RecordsOf(s, "a") == [Record(1, OLD)]
    requires s.hot == map[SECOND := OLD]
    ensures Restored(s, "a").hot == map[FIRST := OLD, SECOND := OLD]
  {
    var records := [Record(1, OLD)];
    assert records[..0] == [];
    assert InsertAll(s.hot, TABLE, []) == s.hot;
  }

  /** The job archives the second row and is about to delete both. */
  lemma RunToUploaded(cfg: Settings) returns (worlds: seq<World>, actions: seq<Action>)
    requires cfg.chunkSize >= 1
    ensures IsConsiderateRun(cfg, worlds, actions)
    ensures var w, a, b := worlds[|actions|], JobFor("a", 1), JobFor("b", 2);
      && InPhase(w, "b", Uploaded) && w.jobs["b"].job == b
      && w.ledger == w.store.hot == map[FIRST := OLD, SECOND := OLD]
      && w.store.meta == map["a" := MetadataOf(cfg, a), "b" := MetadataOf(cfg, b)]
      && w.store.data == map[ObjectKeyOf(a) := Packed(a.records), ObjectKeyOf(b) := Packed(b.records)]
  {
    worlds, actions := RunToRestored(cfg);
    worlds, actions := ExtendConsiderately(cfg, worlds, actions, PutDataOf("b"));
    worlds, actions := ExtendConsiderately(cfg, worlds, actions, PutMetaOf("b"));
  }

  /**
    Then retention removes the first archive: that one action is inconsiderate,
    and the deletion leaves the first row, which was live, in neither store.
  */
  lemma RestoredThenLost(cfg: Settings) returns (worlds: seq<World>, actions: seq<Action>)
    requires cfg.chunkSize >= 1
    ensures IsRun(cfg, worlds, actions) && IsInitial(worlds[0]) && |actions| >= 2
    ensures forall i :: 0 <= i < |actions| && i != |actions| - 2 ==> Considerate(cfg, worlds[i], actions[i])
    ensures FIRST in worlds[|actions| - 2].store.hot && FIRST in Lost(worlds[|actions|])
  {
    worlds, actions := RunToUploaded(cfg);
    var w, n, late := worlds[|actions|], |actions|, cfg.retentionYears * YEAR + 1;
    BasicAlways(cfg, worlds, actions, n);
    OnlyFirstArchive(cfg, w);
    RemovalBehindAJobLoses(cfg, w, "b", "a", late, FIRST);
    var worlds1, actions1 := Extend(cfg, worlds, actions, PurgeDataOf("a", late));
    var worlds2, actions2 := Extend(cfg, worlds1, actions1, DeleteOf("b"));
    forall i | 0 <= i < n ensures Considerate(cfg, worlds2[i], actions2[i]) {
      assert worlds2[i] == worlds[i] && actions2[i] == actions[i];
    }
    return worlds2, actions2;
  }

  lemma OnlyFirstArchive(cfg: Settings, w: World)
    requires var a, b := JobFor("a", 1), JobFor("b", 2);
      && w.store.meta == map["a" := MetadataOf(cfg, a), "b" := MetadataOf(cfg, b)]
      && w.store.data == map[ObjectKeyOf(a) := Packed(a.records), ObjectKeyOf(b) := Packed(b.records)]
    ensures forall y :: Archived(w.store, y, FIRST, OLD) ==> y == "a"
  {
  }
}

/** The removal of archives past their retention, object by object. */
module RetentionSweep {
  import opened Basics
  import opened ColdStorage

  datatype Replies = Replies(data: Reply, meta: Reply)

  /** The data goes first, and the metadata only when that is known to have worked. */
  function Removed(s: Store, archive: string, r: Replies): Store
    requires archive in s.meta
  {
    RemovedObjects(s, s.meta[archive].objectKey, archive, r)
  }

  function RemovedObjects(s: Store, o: ObjectKey, archive: string, r: Replies): Store {
    var s1 := if r.data == Refused then s else s.(data := s.data - {o});
    if r.data != Done || r.meta == Refused then s1 else s1.(meta := s1.meta - {archive})
  }

  /** The metadata found for the objects listed, in order; an object without readable metadata is skipped. */
  function Listed(s: Store, listing: seq<ObjectKey>, unreadable: set<ObjectKey>): seq<Metadata> {
    if listing == [] then []
    else
      var rest, o := Listed(s, listing[..|listing| - 1], unreadable), listing[|listing| - 1];
      if o.archive in s.meta && o !in unreadable then rest + [s.meta[o.archive]] else rest
  }

  function Sweep(s: Store, archives: seq<Metadata>, now: int, replies: string -> Replies): (r: (Store, nat)) {
    if archives == [] then (s, 0)
    else
      var (before, n) := Sweep(s, archives[..|archives| - 1], now, replies);
      var m := archives[|archives| - 1];
      var r := replies(m.objectKey.archive);
      if now > m.retentionUntil
      then (RemovedObjects(before, m.objectKey, m.objectKey.archive, r), if r == Replies(Done, Done) then n + 1 else n)
      else (before, n)
  }

  /** One table after another; each listing is taken when its table's turn comes. */
  function SweepTables(s: Store, listings: seq<seq<ObjectKey>>, unreadable: set<ObjectKey>, now: int,
                       replies: string -> Replies): (Store, nat)
  {
    if listings == [] then (s, 0)
    else
      var (before, n) := SweepTables(s, listings[..|listings| - 1], unreadable, now, replies);
      var (after, k) := Sweep(before, Listed(before, listings[|listings| - 1], unreadable), now, replies);
      (after, n + k)
  }

  /** Each archive's metadata are filed under its own name. */
  ghost predicate Filed(s: Store) {
    forall x :: x in s.meta ==> s.meta[x].objectKey.archive == x
  }

  /** All metadata listed are those of archives in the store. */
  ghost predicate AllFrom(s: Store, archives: seq<Metadata>) {
    forall m :: m in archives ==> m.objectKey.archive in s.meta && s.meta[m.objectKey.archive] == m
  }

  lemma {:induction false} ListedAreFiled(s: Store, listing: seq<ObjectKey>, unreadable: set<ObjectKey>)
    requires Filed(s)
    ensures AllFrom(s, Listed(s, listing, unreadable))
  {
    if listing == [] {
    } else {
      ListedAreFiled(s, listing[..|listing| - 1], unreadable);
    }
  }

  /** A sweep touches nothing but archives past their retention. */
  ghost predicate Spares(s: Store, after: Store, now: int) {
    && after.hot == s.hot
    && (forall x :: x in after.meta ==> x in s.meta && after.meta[x] == s.meta[x])
    && (forall o :: o in after.data ==> o in s.data && after.data[o] == s.data[o])
    && (forall x :: x in s.meta && !Expired(s, x, now) ==> x in after.meta)
    && (forall o :: o in s.data && o !in after.data ==>
          o.archive in s.meta && s.meta[o.archive].objectKey == o && Expired(s, o.archive, now))
  }

  /** So does the removal of one more of them. */
  lemma RemovalSpares(s: Store, before: Store, m: Metadata, now: int, r: Replies)
    requires Spares(s, before, now)
    requires m.objectKey.archive in s.meta && s.meta[m.objectKey.archive] == m && now > m.retentionUntil
    ensures Spares(s, RemovedObjects(before, m.objectKey, m.objectKey.archive, r), now)
  {
  }

  lemma {:induction false} SweepSpares(s: Store, archives: seq<Metadata>, now: int, replies: string -> Replies)
    requires AllFrom(s, archives)
    ensures Spares(s, Sweep(s, archives, now, replies).0, now)
  {
    if archives == [] {
    } else {
      var init, m := archives[..|archives| - 1], archives[|archives| - 1];
      assert m in archives;
      SweepSpares(s, init, now, replies);
      if now > m.retentionUntil {
        RemovalSpares(s, Sweep(s, init, now, replies).0, m, now, replies(m.objectKey.archive));
      }
    }
  }

  lemma SparesTwice(a: Store, b: Store, c: Store, now: int)
    requires Spares(a, b, now) && Spares(b, c, now)
    ensures Spares(a, c, now)
  {
  }

  /** No archive is deleted early, and data that never got their metadata are never deleted at all. */
  lemma {:induction false} SweepTablesSpares(s: Store, listings: seq<seq<ObjectKey>>, unreadable: set<ObjectKey>,
                                             now: int,
                                             replies: string -> Replies)
    requires Filed(s)
    ensures Spares(s, SweepTables(s, listings, unreadable, now, replies).0, now)
    ensures Filed(SweepTables(s, listings, unreadable, now, replies).0)
  {
    if listings == [] {
    } else {
      var init, last := listings[..|listings| - 1], listings[|listings| - 1];
      SweepTablesSpares(s, init, unreadable, now, replies);
      var before := SweepTables(s, init, unreadable, now, replies).0;
      ListedAreFiled(before, last, unreadable);
      SweepSpares(before, Listed(before, last, unreadable), now, replies);
      SparesTwice(s, before, SweepTables(s, listings, unreadable, now, replies).0, now);
    }
  }

  /** So whatever could be restored and has years to go can still be restored, with the same records. */
  lemma UnexpiredStayRestorable(s: Store, listings: seq<seq<ObjectKey>>, unreadable: set<ObjectKey>, now: int,
                                replies: string -> Replies, x: string)
    requires Filed(s) && Restorable(s, x) && !Expired(s, x, now)
    ensures var after := SweepTables(s, listings, unreadable, now, replies).0;
      Restorable(after, x) && RecordsOf(after, x) == RecordsOf(s, x)
  {
    SweepTablesSpares(s, listings, unreadable, now, replies);
  }

  /** The removal is the protocol's two steps, cut short anywhere: once it has begun the archive cannot be restored. */
  lemma RemovalStartsWithData(s: Store, x: string, r: Replies)
    requires x in s.meta
    ensures var after := Removed(s, x, r);
      && (r.data == Refused ==> after == s)
      && (r.data != Refused ==>
            !Restorable(after, x) && (after == PurgeData(s, x) || after == PurgeMeta(PurgeData(s, x), x)))
      && (x !in after.meta <==> r.data == Done && r.meta != Refused)
  {
  }

  lemma RemovalCountsOne(s: Store, o: ObjectKey, archive: string, r: Replies)
    requires archive in s.meta && r.meta != Unanswered
    ensures var after := RemovedObjects(s, o, archive, r);
      && |s.meta| - |after.meta| == (if r == Replies(Done, Done) then 1 else 0)
      && s.meta.Keys - {archive} <= after.meta.Keys <= s.meta.Keys
  {
    var after := RemovedObjects(s, o, archive, r);
    if r == Replies(Done, Done) {
      SubsetSize({archive}, s.meta.Keys);
      assert after.meta.Keys == s.meta.Keys - {archive};
    }
  }

  function Names(archives: seq<Metadata>): set<string> {
    set m <- archives :: m.objectKey.archive
  }

  ghost predicate NoneTwice(archives: seq<Metadata>) {
    forall i, j :: 0 <= i < j < |archives| ==> archives[i].objectKey.archive != archives[j].objectKey.archive
  }

  lemma NamesGrow(init: seq<Metadata>, m: Metadata)
    requires NoneTwice(init + [m])
    ensures Names(init + [m]) == Names(init) + {m.objectKey.archive} && NoneTwice(init)
    ensures m.objectKey.archive !in Names(init)
  {
    assert (init + [m])[|init|] == m;
    forall i | 0 <= i < |init| ensures init[i].objectKey.archive != m.objectKey.archive {
      assert (init + [m])[i] == init[i];
    }
    forall i, j | 0 <= i < j < |init| ensures init[i].objectKey.archive != init[j].objectKey.archive {
      assert (init + [m])[i] == init[i] && (init + [m])[j] == init[j];
    }
  }

  lemma {:induction false} SweepCounts(s: Store, archives: seq<Metadata>, now: int, replies: string -> Replies)
    requires Names(archives) <= s.meta.Keys && NoneTwice(archives)
    requires forall x :: replies(x).meta != Unanswered
    ensures var (after, n) := Sweep(s, archives, now, replies);
      n == |s.meta| - |after.meta| && s.meta.Keys - Names(archives) <= after.meta.Keys <= s.meta.Keys
  {
    if archives == [] {
    } else {
      var init, m := archives[..|archives| - 1], archives[|archives| - 1];
      assert archives == init + [m];
      NamesGrow(init, m);
      SweepCounts(s, init, now, replies);
      var before := Sweep(s, init, now, replies).0;
      RemovalCountsOne(before, m.objectKey, m.objectKey.archive, replies(m.objectKey.archive));
    }
  }

  // ---------- exactly what a sweep removes ----------

  predicate DataGoes(x: string, retentionUntil: int, now: int, replies: string -> Replies) {
    now > retentionUntil && replies(x).data != Refused
  }

  predicate MetaGoes(x: string, retentionUntil: int, now: int, replies: string -> Replies) {
    now > retentionUntil && replies(x).data == Done && replies(x).meta != Refused
  }

  /** Listed, with readable metadata. */
  predicate IsListed(listing: seq<ObjectKey>, unreadable: set<ObjectKey>, x: string) {
    exists o :: o in listing && o !in unreadable && o.archive == x
  }

  lemma {:induction false} ListedExactly(s: Store, listing: seq<ObjectKey>, unreadable: set<ObjectKey>, m: Metadata)
    requires Filed(s)
    ensures m in Listed(s, listing, unreadable) <==>
      var x := m.objectKey.archive; x in s.meta && s.meta[x] == m && IsListed(listing, unreadable, x)
  {
    if listing == [] {
    } else {
      var init, last := listing[..|listing| - 1], listing[|listing| - 1];
      assert listing == init + [last];
      ListedExactly(s, init, unreadable, m);
      assert IsListed(listing, unreadable, m.objectKey.archive) <==>
        IsListed(init, unreadable, m.objectKey.archive) || (last !in unreadable && last.archive == m.objectKey.archive);
    }
  }

  lemma {:induction false} SweepRemoves(s: Store, archives: seq<Metadata>, now: int, replies: string -> Replies,
                                        m: Metadata)
    requires Filed(s) && AllFrom(s, archives)
    requires m.objectKey.archive in s.meta && s.meta[m.objectKey.archive] == m
    ensures var after, x := Sweep(s, archives, now, replies).0, m.objectKey.archive;
      && (x !in after.meta <==> m in archives && MetaGoes(x, m.retentionUntil, now, replies))
      && (m.objectKey in s.data ==>
            (m.objectKey !in after.data <==> m in archives && DataGoes(x, m.retentionUntil, now, replies)))
  {
    if archives == [] {
    } else {
      var init, last := archives[..|archives| - 1], archives[|archives| - 1];
      assert archives == init + [last] && last in archives;
      SweepRemoves(s, init, now, replies, m);
      assert last.objectKey.archive == m.objectKey.archive ==> last == m;
    }
  }

  lemma LastTableRemoves(s: Store, before: Store, listing: seq<ObjectKey>, unreadable: set<ObjectKey>, now: int,
                         replies: string -> Replies, x: string)
    requires Filed(s) && Filed(before) && Spares(s, before, now) && x in before.meta
    ensures var after, m := Sweep(before, Listed(before, listing, unreadable), now, replies).0, s.meta[x];
      && (x !in after.meta <==> IsListed(listing, unreadable, x) && MetaGoes(x, m.retentionUntil, now, replies))
      && (m.objectKey in before.data ==>
            (m.objectKey !in after.data <==>
               IsListed(listing, unreadable, x) && DataGoes(x, m.retentionUntil, now, replies)))
  {
    ListedAreFiled(before, listing, unreadable);
    ListedExactly(before, listing, unreadable, s.meta[x]);
    SweepRemoves(before, Listed(before, listing, unreadable), now, replies, s.meta[x]);
  }

  predicate IsListedIn(listings: seq<seq<ObjectKey>>, unreadable: set<ObjectKey>, x: string) {
    exists t :: 0 <= t < |listings| && IsListed(listings[t], unreadable, x)
  }

  /**
    Over all tables: an archive's data go if and only if it is listed with
    readable metadata, is past its retention, and the removal is not refused; its
    metadata go if and only if moreover the removal of the data is confirmed and
    their own is not refused.
  */
  lemma {:induction false} SweepRemovesExactly(s: Store, listings: seq<seq<ObjectKey>>, unreadable: set<ObjectKey>,
                                               now: int,
                                               replies: string -> Replies, x: string)
    requires Filed(s) && x in s.meta
    ensures var after, m := SweepTables(s, listings, unreadable, now, replies).0, s.meta[x];
      && (x !in after.meta <==> IsListedIn(listings, unreadable, x) && MetaGoes(x, m.retentionUntil, now, replies))
      && (m.objectKey in s.data ==>
            (m.objectKey !in after.data <==>
               IsListedIn(listings, unreadable, x) && DataGoes(x, m.retentionUntil, now, replies)))
  {
    if listings == [] {
    } else {
      var init, last := listings[..|listings| - 1], listings[|listings| - 1];
      var before := SweepTables(s, init, unreadable, now, replies).0;
      assert IsListedIn(listings, unreadable, x) <==>
               IsListedIn(init, unreadable, x) || IsListed(last, unreadable, x) by {
        assert listings == init + [last];
        assert forall t :: 0 <= t < |init| ==> listings[t] == init[t];
      }
      SweepRemovesExactly(s, init, unreadable, now, replies, x);
      SweepTablesSpares(s, init, unreadable, now, replies);
      ListedAreFiled(before, last, unreadable);
      SweepSpares(before, Listed(before, last, unreadable), now, replies);
      if x in before.meta {
        LastTableRemoves(s, before, last, unreadable, now, replies, x);
      }
    }
  }

  /**
    So data never go when their metadata were never written, and a data object
    goes only with the metadata that name it.
  */
  lemma OrphansStayExactly(s: Store, listings: seq<seq<ObjectKey>>, unreadable: set<ObjectKey>, now: int,
                           replies: string -> Replies, o: ObjectKey)
    requires Filed(s) && o in s.data
    ensures o !in SweepTables(s, listings, unreadable, now, replies).0.data <==>
      && o.archive in s.meta && s.meta[o.archive].objectKey == o
      && IsListedIn(listings, unreadable, o.archive)
      && DataGoes(o.archive, s.meta[o.archive].retentionUntil, now, replies)
  {
    SweepTablesSpares(s, listings, unreadable, now, replies);
    if o.archive in s.meta {
      SweepRemovesExactly(s, listings, unreadable, now, replies, o.archive);
    }
  }

  /** What happens to the archive, seen from one of its archives: a sweep over all tables, or another archive's job. */
  datatype Round =
    | Swept(listings: seq<seq<ObjectKey>>, unreadable: set<ObjectKey>, now: int, replies: string -> Replies)
    | Added(cfg: Settings, job: Job, reached: nat)

  function AfterRound(s: Store, r: Round): Store {
    match r
    case Swept(listings, unreadable, now, replies) => SweepTables(s, listings, unreadable, now, replies).0
    case Added(cfg, job, reached) => StoreAfter(cfg, s, job, reached)
  }

  /** Listings hold the keys of data objects; metadata are found only through them. */
  ghost predicate ListsData(s: Store, listings: seq<seq<ObjectKey>>) {
    forall t, o :: 0 <= t < |listings| && o in listings[t] ==> o in s.data
  }

  /** The archive's metadata are there and no data object bears its name. */
  ghost predicate Stranded(s: Store, x: string) {
    x in s.meta && forall o :: o in s.data ==> o.archive != x
  }

  lemma StrandedIsUnlisted(s: Store, listings: seq<seq<ObjectKey>>, unreadable: set<ObjectKey>, x: string)
    requires ListsData(s, listings) && Stranded(s, x)
    ensures !IsListedIn(listings, unreadable, x)
  {
  }

  /**
    A sweep strands an archive's metadata exactly when it takes the data and
    not the metadata: the archive is past its retention, and the answer to the
    first deletion was lost or the second was refused.
  */
  lemma StrandedExactly(s: Store, listings: seq<seq<ObjectKey>>, unreadable: set<ObjectKey>, now: int,
                        replies: string -> Replies, x: string)
    requires Filed(s) && ListsData(s, listings) && x in s.meta
    requires forall o :: o in s.data && o.archive == x ==> o == s.meta[x].objectKey
    ensures Stranded(SweepTables(s, listings, unreadable, now, replies).0, x) <==>
      || Stranded(s, x)
      || (&& IsListedIn(listings, unreadable, x) && now > s.meta[x].retentionUntil
          && (replies(x).data == Unanswered || replies(x) == Replies(Done, Refused)))
  {
    SweepTablesSpares(s, listings, unreadable, now, replies);
    SweepRemovesExactly(s, listings, unreadable, now, replies, x);
    if Stranded(s, x) {
      StrandedIsUnlisted(s, listings, unreadable, x);
    }
  }

  lemma StrandedStays(s: Store, r: Round, x: string)
    requires Filed(s) && Stranded(s, x)
    requires if r.Swept? then ListsData(s, r.listings) else r.job.id != x
    ensures var after := AfterRound(s, r);
      Filed(after) && Stranded(after, x) && after.meta[x] == s.meta[x]
  {
    if r.Swept? {
      StrandedIsUnlisted(s, r.listings, r.unreadable, x);
      SweepTablesSpares(s, r.listings, r.unreadable, r.now, r.replies);
      SweepRemovesExactly(s, r.listings, r.unreadable, r.now, r.replies, x);
    }
  }

  /** Stranded metadata are never listed again, so no later sweep removes them, however long their retention is over. */
  lemma {:induction false} StrandedForever(stores: seq<Store>, rounds: seq<Round>, n: nat, x: string)
    requires |stores| == |rounds| + 1 && n <= |rounds| && Filed(stores[0]) && Stranded(stores[0], x)
    requires forall i :: 0 <= i < |rounds| ==>
      && stores[i + 1] == AfterRound(stores[i], rounds[i])
      && (if rounds[i].Swept? then ListsData(stores[i], rounds[i].listings) else rounds[i].job.id != x)
    ensures Filed(stores[n]) && Stranded(stores[n], x) && stores[n].meta[x] == stores[0].meta[x]
  {
    if n == 0 {
    } else {
      StrandedForever(stores, rounds, n - 1, x);
      StrandedStays(stores[n - 1], rounds[n - 1], x);
    }
  }

  ghost predicate EachOnce(listing: seq<ObjectKey>) {
    forall i, j :: 0 <= i < j < |listing| ==> listing[i].archive != listing[j].archive
  }

  lemma {:induction false} ListedOnce(s: Store, listing: seq<ObjectKey>, unreadable: set<ObjectKey>)
    requires Filed(s) && EachOnce(listing)
    ensures var archives := Listed(s, listing, unreadable);
      && NoneTwice(archives) && Names(archives) <= s.meta.Keys
      && (forall x :: x in Names(archives) ==> exists o :: o in listing && o.archive == x)
  {
    if listing == [] {
    } else {
      var init, last := listing[..|listing| - 1], listing[|listing| - 1];
      ListedOnce(s, init, unreadable);
      var before, archives := Listed(s, init, unreadable), Listed(s, listing, unreadable);
      assert listing == init + [last];
      if archives != before {
        var m := s.meta[last.archive];
        assert archives == before + [m];
        assert Names(archives) == Names(before) + {last.archive};
        forall i | 0 <= i < |before| ensures before[i].objectKey.archive != last.archive {
          assert before[i].objectKey.archive in Names(before);
        }
      }
    }
  }

  lemma {:induction false} CountIsWhatIsGone(s: Store, listings: seq<seq<ObjectKey>>, unreadable: set<ObjectKey>,
                                             now: int,
                                             replies: string -> Replies)
    requires Filed(s) && (forall t :: 0 <= t < |listings| ==> EachOnce(listings[t]))
    requires forall x :: replies(x).meta != Unanswered
    ensures var (after, n) := SweepTables(s, listings, unreadable, now, replies); n == |s.meta| - |after.meta|
  {
    if listings == [] {
    } else {
      var init, last := listings[..|listings| - 1], listings[|listings| - 1];
      var before := SweepTables(s, init, unreadable, now, replies).0;
      CountIsWhatIsGone(s, init, unreadable, now, replies);
      SweepTablesSpares(s, init, unreadable, now, replies);
      assert last == listings[|listings| - 1];
      ListedOnce(before, last, unreadable);
      SweepCounts(before, Listed(before, last, unreadable), now, replies);
    }
  }

  /** The archives whose metadata a sweep removes. */
  function Leaving(s: Store, listings: seq<seq<ObjectKey>>, unreadable: set<ObjectKey>, now: int,
                   replies: string -> Replies): set<string>
  {
    set x | x in s.meta && IsListedIn(listings, unreadable, x) && MetaGoes(x, s.meta[x].retentionUntil, now, replies)
  }

  lemma LeavingAreGone(s: Store, listings: seq<seq<ObjectKey>>, unreadable: set<ObjectKey>, now: int,
                       replies: string -> Replies)
    requires Filed(s)
    ensures var after := SweepTables(s, listings, unreadable, now, replies).0;
      after.meta.Keys == s.meta.Keys - Leaving(s, listings, unreadable, now, replies)
  {
    SweepTablesSpares(s, listings, unreadable, now, replies);
    forall x | x in s.meta
      ensures x in Leaving(s, listings, unreadable, now, replies) <==>
                x !in SweepTables(s, listings, unreadable, now, replies).0.meta
    {
      SweepRemovesExactly(s, listings, unreadable, now, replies, x);
    }
  }

  /**
    When no answer is lost and no listing repeats an archive, the total returned
    is the number of archives whose metadata go.
  */
  lemma TotalIsExact(s: Store, listings: seq<seq<ObjectKey>>, unreadable: set<ObjectKey>, now: int,
                     replies: string -> Replies)
    requires Filed(s) && (forall t :: 0 <= t < |listings| ==> EachOnce(listings[t]))
    requires forall x :: replies(x).meta != Unanswered
    ensures SweepTables(s, listings, unreadable, now, replies).1 == |Leaving(s, listings, unreadable, now, replies)|
  {
    CountIsWhatIsGone(s, listings, unreadable, now, replies);
    LeavingAreGone(s, listings, unreadable, now, replies);
    SubsetSize(Leaving(s, listings, unreadable, now, replies), s.meta.Keys);
  }
}

/** The service, rewriting the hot rows and the objects in place. */
module DataArchival {
  import opened Basics
  import opened ColdStorage
  import opened RetentionSweep

  class StorageClient {
    var data: map<ObjectKey, Blob>
    var meta: map<string, Metadata>

    constructor ()
      ensures data == map[] && meta == map[]
    {
      data, meta := map[], map[];
    }

    /** The metadata are written only when the data are known to be. */
    method UploadArchive(blob: Blob, m: Metadata, r: Replies) returns (ok: bool)
      modifies this
      ensures ok <==> r == Replies(Done, Done)
      ensures data == if r.data == Refused then old(data) else old(data)[m.objectKey := blob]
      ensures meta ==
        if r.data != Done || r.meta == Refused then old(meta) else old(meta)[m.objectKey.archive := m]
    {
      if r.data != Refused {
        data := data[m.objectKey := blob];
      }
      if r.data != Done {
        return false;
      }
      if r.meta != Refused {
        meta := meta[m.objectKey.archive := m];
      }
      return r.meta == Done;
    }

    method DownloadArchive(o: ObjectKey, readable: bool) returns (blob: Option<Blob>)
      ensures blob == if readable && o in data then Some(data[o]) else None
    {
      return if readable && o in data then Some(data[o]) else None;
    }

    method GetMetadata(archive: string, readable: bool) returns (m: Option<Metadata>)
      ensures m == if readable && archive in meta then Some(meta[archive]) else None
    {
      return if readable && archive in meta then Some(meta[archive]) else None;
    }

    method DeleteArchive(o: ObjectKey, archive: string, r: Replies) returns (ok: bool)
      modifies this
      ensures ok <==> r == Replies(Done, Done)
      ensures Store(map[], data, meta) == RemovedObjects(Store(map[], old(data), old(meta)), o, archive, r)
    {
      if r.data != Refused {
        data := data - {o};
      }
      if r.data != Done {
        return false;
      }
      if r.meta != Refused {
        meta := meta - {archive};
      }
      return r.meta == Done;
    }
  }

  /** How far a job gets, by the fate of its writes. */
  function Reached(upload: Replies, delete: Reply): nat {
    if upload.data == Refused then 1
    else if upload.data == Unanswered || upload.meta == Refused then 2
    else if upload.meta == Unanswered || delete == Refused then 3
    else 4
  }

  class ArchivalService {
    const cfg: Settings
    const storage: StorageClient
    var hot: Rows

    function Contents(): Store
      reads this, storage
    {
      Store(hot, storage.data, storage.meta)
    }

    constructor (cfg: Settings, hot: Rows)
      ensures fresh(storage) && this.cfg == cfg && Contents() == Store(hot, map[], map[])
    {
      this.cfg := cfg;
      this.hot := hot;
      storage := new StorageClient();
    }

    /**
      `records` is the database's answer to the limited query; nothing is
      reported unless every write was confirmed.
    */
    method ArchiveTable(table: string, partition: string, cutoff: int, records: seq<Record>, id: string, now: int,
                        upload: Replies, delete: Reply)
      returns (result: Option<Metadata>)
      requires IsAnswer(hot, table, cutoff, cfg.chunkSize, records)
      modifies this, storage
      ensures var job := Job(id, table, partition, cutoff, records, now);
        && Contents() == old(if records == [] then Contents()
                             else StoreAfter(cfg, Contents(), job, Reached(upload, delete)))
        && (records != [] ==>
              var o := ObjectKey(table, partition, id);
              && storage.data == (if upload.data == Refused then old(storage.data)
                                  else old(storage.data)[o := Packed(records)])
              && (id in storage.meta <==> id in old(storage.meta) || (upload.data == Done && upload.meta != Refused))
              && forall k :: k in hot <==>
                   k in old(hot) && !(upload == Replies(Done, Done) && delete != Refused
                                      && k.table == table && old(hot)[k].date < cutoff))
        && result == if records != [] && upload == Replies(Done, Done) && delete == Done
                     then Some(Metadata(ObjectKey(table, partition, id), |records|, Digest(Packed(records)), now,
                                        now + cfg.retentionYears * 365 * 86400))
                     else None
    {
      if records == [] {
        return None;
      }
      var blob := Packed(records);
      var m := Metadata(ObjectKey(table, partition, id), |records|, Digest(blob), now, now + cfg.retentionYears * YEAR);
      var success := storage.UploadArchive(blob, m, upload);
      if !success {
        return None;
      }
      if delete != Refused {
        hot := hot - Due(hot, table, cutoff);
      }
      return if delete == Done then Some(m) else None;
    }

    /**
      A failed insertion is passed over, but it has ended the transaction.
      Without records nothing is sent; a commit that is not confirmed raises.
    */
    method InsertRestoredRecords(table: string, records: seq<Record>, fails: nat -> bool, commit: Reply)
      returns (inserted: Option<nat>)
      modifies this`hot
      ensures hot == InsertedUnder(old(hot), table, records, fails, commit).0
      ensures inserted.Some? <==> records == [] || commit == Done
      ensures inserted.Some? ==> inserted.value == InsertedUnder(old(hot), table, records, fails, commit).1
    {
      if records == [] {
        return Some(0);
      }
      var count := 0;
      var transaction, aborted := hot, false;
      for i := 0 to |records|
        invariant aborted <==> FirstFailure(fails, i) < i
        invariant hot == old(hot)
        invariant transaction == InsertAll(hot, table, records[..FirstFailure(fails, i)])
        invariant count == |transaction| - |hot|
      {
        if aborted || fails(i) {
          aborted := true;
        } else {
          assert records[..i + 1][..i] == records[..i];
          if Key(table, records[i].id) !in transaction {
            transaction := transaction[Key(table, records[i].id) := records[i].row];
            count := count + 1;
          }
        }
      }
      assert records[..|records|] == records;
      if !aborted && commit != Refused {
        hot := transaction;
      }
      return if commit == Done then Some(count) else None;
    }

    /**
      Anything missing, unreadable, altered or not unpacking gives no result and
      changes nothing; an unconfirmed commit gives none whatever it has done.
    */
    method RestoreArchive(archive: string, metaReadable: bool, dataReadable: bool, fails: nat -> bool, commit: Reply)
      returns (result: Option<seq<Record>>)
      modifies this`hot
      ensures var s := old(Contents());
        var readable :=
          && metaReadable && dataReadable && archive in s.meta
          && var m := s.meta[archive];
             m.objectKey in s.data && s.data[m.objectKey].Packed? && m.digest == Digest(s.data[m.objectKey]);
        && (result.Some? <==> readable && (commit == Done || RecordsOf(s, archive) == []))
        && (result.Some? ==> result.value == RecordsOf(s, archive))
        && Contents() ==
             if readable && commit != Refused && FirstFailure(fails, |RecordsOf(s, archive)|) == |RecordsOf(s, archive)|
             then Restored(s, archive) else s
    {
      var m := storage.GetMetadata(archive, metaReadable);
      if m.None? {
        return None;
      }
      var blob := storage.DownloadArchive(m.value.objectKey, dataReadable);
      if blob.None? {
        return None;
      }
      if Digest(blob.value) != m.value.digest {
        return None;
      }
      if !blob.value.Packed? {
        return None;
      }
      var records := blob.value.records;
      var restored := InsertRestoredRecords(m.value.objectKey.table, records, fails, commit);
      return if restored.Some? then Some(records) else None;
    }

    method ListArchivesForTable(listing: seq<ObjectKey>, unreadable: set<ObjectKey>) returns (archives: seq<Metadata>)
      ensures archives == Listed(Contents(), listing, unreadable)
    {
      archives := [];
      for i := 0 to |listing|
        invariant archives == Listed(Contents(), listing[..i], unreadable)
      {
        assert listing[..i + 1][..i] == listing[..i];
        var m := storage.GetMetadata(listing[i].archive, listing[i] !in unreadable);
        if m.Some? {
          archives := archives + [m.value];
        }
      }
      assert listing[..|listing|] == listing;
    }

    /** The inner loop, over the archives of one table. */
    method DeleteExpired(archives: seq<Metadata>, now: int, replies: string -> Replies) returns (deleted: nat)
      modifies storage
      ensures (Contents(), deleted) == Sweep(old(Contents()), archives, now, replies)
    {
      deleted := 0;
      for i := 0 to |archives|
        invariant (Contents(), deleted) == Sweep(old(Contents()), archives[..i], now, replies)
      {
        assert archives[..i + 1][..i] == archives[..i];
        var m := archives[i];
        if now > m.retentionUntil {
          var success := storage.DeleteArchive(m.objectKey, m.objectKey.archive, replies(m.objectKey.archive));
          if success {
            deleted := deleted + 1;
          }
        }
      }
      assert archives[..|archives|] == archives;
    }

    /** `listings` holds, for each table, the object keys that the storage lists when its turn comes. */
    method DeleteExpiredArchives(listings: seq<seq<ObjectKey>>, unreadable: set<ObjectKey>, now: int,
                                 replies: string -> Replies)
      returns (deleted: nat)
      modifies storage
      ensures (Contents(), deleted) == SweepTables(old(Contents()), listings, unreadable, now, replies)
    {
      deleted := 0;
      for t := 0 to |listings|
        invariant (Contents(), deleted) == SweepTables(old(Contents()), listings[..t], unreadable, now, replies)
      {
        assert listings[..t + 1][..t] == listings[..t];
        var archives := ListArchivesForTable(listings[t], unreadable);
        var more := DeleteExpired(archives, now, replies);
        deleted := deleted + more;
      }
      assert listings[..|listings|] == listings;
    }
  }
}
