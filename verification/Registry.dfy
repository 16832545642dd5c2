/**
  The model registry: an index file and, per model, a metadata file and model
  files.  An operation is the list of its writes; each write replaces one file
  as a whole, and the process may die before any of them and start again from
  the saved index.
*/
module RegistryWrites {
  import opened Basics

  datatype Status = Candidate | Champion | Archived | Other(text: string)

  datatype Metadata = Metadata(status: Status, deployedAt: Option<string>, replacedBy: Option<string>, details: string)

  datatype Entry = Entry(status: Status, deployedAt: Option<string>)

  datatype Index = Index(entries: map<string, Entry>, champion: Option<string>)

  /** `models` are the directories in which `model.*` finds a file, `dirs` those that were made and not removed. */
  datatype Registry = Registry(index: Index, files: map<string, Metadata>, models: set<string>, dirs: set<string>)

  const EMPTY: Registry := Registry(Index(map[], None), map[], {}, {})

  datatype Write =
    | MakeDir(id: string)
    | CopyModel(id: string, suffix: string)
    | WriteMetadata(id: string, metadata: Metadata)
    | SaveEntry(id: string, entry: Entry)
    | SaveChampion(id: string)
    | SaveRemoval(id: string)
    | RemoveModel(id: string)
    | RemoveMetadata(id: string)
    | RemoveDir(id: string)

  /** A model file without a suffix is copied under a name that `model.*` does not match. */
  function Apply(r: Registry, w: Write): Registry {
    match w
    case MakeDir(id) => r.(dirs := r.dirs + {id})
    case CopyModel(id, suffix) => if suffix == "" then r else r.(models := r.models + {id})
    case WriteMetadata(id, metadata) => r.(files := r.files[id := metadata])
    case SaveEntry(id, entry) => r.(index := r.index.(entries := r.index.entries[id := entry]))
    case SaveChampion(id) => r.(index := r.index.(champion := Some(id)))
    case SaveRemoval(id) => r.(index := r.index.(entries := r.index.entries - {id}))
    case RemoveModel(id) => r.(models := r.models - {id})
    case RemoveMetadata(id) => r.(files := r.files - {id})
    case RemoveDir(id) => r.(dirs := r.dirs - {id})
  }

  function ApplyAll(r: Registry, writes: seq<Write>): Registry
    decreases writes
  {
    if writes == [] then r else ApplyAll(Apply(r, writes[0]), writes[1..])
  }

  datatype Operation =
    | Register(id: string, metadata: Metadata, suffix: string)
    | Update(id: string, metadata: Metadata)
    | Promote(id: string, now: string)
    | Archive(id: string)
    | Delete(id: string, metadataFirst: bool)

  /** A directory is there when it was made, or holds something. */
  predicate HasDir(r: Registry, id: string) {
    id in r.dirs || id in r.files || id in r.models
  }

  /** The deployment time stays in the index when the new metadata have none, or an empty one. */
  function EntryAfter(e: Entry, m: Metadata): Entry {
    Entry(m.status, if m.deployedAt.Some? && m.deployedAt.value != "" then m.deployedAt else e.deployedAt)
  }

  /** Without its directory a model's metadata cannot be written. */
  function UpdateWrites(r: Registry, id: string, m: Metadata): seq<Write> {
    if id !in r.index.entries || !HasDir(r, id) then []
    else [WriteMetadata(id, m), SaveEntry(id, EntryAfter(r.index.entries[id], m))]
  }

  function ArchiveOldWrites(r: Registry, id: string): seq<Write> {
    var previous := r.index.champion;
    if previous.Some? && previous.value in r.files
    then UpdateWrites(r, previous.value, r.files[previous.value].(status := Archived, replacedBy := Some(id)))
    else []
  }

  function CrownWrites(r: Registry, id: string, now: string): seq<Write> {
    if id !in r.files then []
    else UpdateWrites(r, id, r.files[id].(status := Champion, deployedAt := Some(now))) + [SaveChampion(id)]
  }

  function PromoteWrites(r: Registry, id: string, now: string): seq<Write> {
    if id !in r.index.entries then []
    else ArchiveOldWrites(r, id) + CrownWrites(ApplyAll(r, ArchiveOldWrites(r, id)), id, now)
  }

  /** The removal of a directory takes its files in no promised order. */
  function DeleteWrites(r: Registry, id: string, metadataFirst: bool): seq<Write> {
    if id !in r.index.entries || r.index.champion == Some(id) then []
    else if !HasDir(r, id) then [SaveRemoval(id)]
    else if metadataFirst then [RemoveMetadata(id), RemoveModel(id), RemoveDir(id), SaveRemoval(id)]
    else [RemoveModel(id), RemoveMetadata(id), RemoveDir(id), SaveRemoval(id)]
  }

  function Writes(r: Registry, op: Operation): seq<Write> {
    match op
    case Register(id, m, suffix) =>
      [MakeDir(id), CopyModel(id, suffix), WriteMetadata(id, m), SaveEntry(id, Entry(m.status, None))]
    case Update(id, m) => UpdateWrites(r, id, m)
    case Promote(id, now) => PromoteWrites(r, id, now)
    case Archive(id) => if id in r.files then UpdateWrites(r, id, r.files[id].(status := Archived)) else []
    case Delete(id, metadataFirst) => DeleteWrites(r, id, metadataFirst)
  }

  /** The registry when the process dies after the given number of writes, or completes. */
  function After(r: Registry, op: Operation, survived: nat): Registry {
    ApplyAll(r, Writes(r, op)[..Min(survived, |Writes(r, op)|)])
  }

  function Completed(r: Registry, op: Operation): Registry {
    ApplyAll(r, Writes(r, op))
  }

  datatype Attempt = Attempt(op: Operation, survived: nat)

  /** The registries between the operations of a run that begins with an empty one. */
  ghost predicate IsRun(states: seq<Registry>, attempts: seq<Attempt>) {
    && |states| == |attempts| + 1
    && states[0] == EMPTY
    && forall i :: 0 <= i < |attempts| ==> states[i + 1] == After(states[i], attempts[i].op, attempts[i].survived)
  }

  /** Clients leave the status "champion" to promotions. */
  predicate ClientWrites(op: Operation) {
    (op.Register? || op.Update?) ==> op.metadata.status != Champion
  }

  predicate HasModelPath(r: Registry, id: string) {
    id in r.index.entries && id in r.models
  }

  function GetChampion(r: Registry): Option<string> {
    if r.index.champion.Some? && HasModelPath(r, r.index.champion.value) then r.index.champion else None
  }
}

module RegistryTheorems {
  import opened Basics
  import opened RegistryWrites

  lemma {:induction false} ApplyAppend(r: Registry, a: seq<Write>, b: seq<Write>)
    ensures ApplyAll(r, a + b) == ApplyAll(ApplyAll(r, a), b)
    decreases a
  {
    if a == [] {
      assert a + b == b;
    } else {
      assert (a + b)[1..] == a[1..] + b;
      ApplyAppend(Apply(r, a[0]), a[1..], b);
    }
  }

  lemma ApplyOne(r: Registry, w: Write)
    ensures ApplyAll(r, [w]) == Apply(r, w)
  {
    assert [w][1..] == [];
  }

  lemma ApplyTwo(r: Registry, v: Write, w: Write)
    ensures ApplyAll(r, [v, w]) == Apply(Apply(r, v), w)
  {
    assert [v, w][1..] == [w];
    ApplyOne(Apply(r, v), w);
  }

  lemma ApplyThree(r: Registry, u: Write, v: Write, w: Write)
    ensures ApplyAll(r, [u, v, w]) == Apply(Apply(Apply(r, u), v), w)
  {
    assert [u, v, w][1..] == [v, w];
    ApplyTwo(Apply(r, u), v, w);
  }

  lemma ApplyFour(r: Registry, u: Write, v: Write, w: Write, z: Write)
    ensures ApplyAll(r, [u, v, w, z]) == Apply(Apply(Apply(Apply(r, u), v), w), z)
  {
    assert [u, v, w, z][1..] == [v, w, z];
    ApplyThree(Apply(r, u), v, w, z);
  }

  lemma FourPrefixes(r: Registry, t: Write, u: Write, v: Write, w: Write)
    ensures ApplyAll(r, [t, u, v, w][..0]) == r
    ensures ApplyAll(r, [t, u, v, w][..1]) == Apply(r, t)
    ensures ApplyAll(r, [t, u, v, w][..2]) == Apply(Apply(r, t), u)
    ensures ApplyAll(r, [t, u, v, w][..3]) == Apply(Apply(Apply(r, t), u), v)
    ensures ApplyAll(r, [t, u, v, w][..4]) == ApplyAll(r, [t, u, v, w]) == Apply(Apply(Apply(Apply(r, t), u), v), w)
  {
    assert [t, u, v, w][..0] == [] && [t, u, v, w][..1] == [t] && [t, u, v, w][..2] == [t, u];
    assert [t, u, v, w][..3] == [t, u, v] && [t, u, v, w][..4] == [t, u, v, w];
    ApplyOne(r, t);
    ApplyTwo(r, t, u);
    ApplyThree(r, t, u, v);
    ApplyFour(r, t, u, v, w);
  }

  // ---- The champion of the index

  /** The champion of the index is in the index and has its metadata. */
  ghost predicate NotDangling(r: Registry) {
    r.index.champion.Some? ==> r.index.champion.value in r.index.entries && r.index.champion.value in r.files
  }

  /** The champion, if there is one, can be served. */
  ghost predicate Served(r: Registry) {
    r.index.champion.Some? ==> GetChampion(r) == r.index.champion
  }

  predicate Adds(w: Write) {
    w.MakeDir? || w.CopyModel? || w.WriteMetadata? || w.SaveEntry?
  }

  predicate Removes(w: Write) {
    w.RemoveModel? || w.RemoveMetadata? || w.RemoveDir? || w.SaveRemoval?
  }

  lemma UpdatesAdd(r: Registry, id: string, m: Metadata)
    ensures forall w :: w in UpdateWrites(r, id, m) ==> Adds(w) && w.id == id && !w.CopyModel?
  {
  }

  lemma ArchiveShape(r: Registry, id: string)
    ensures forall w :: w in ArchiveOldWrites(r, id) ==>
              Adds(w) && !Marks(w) && !w.CopyModel? && r.index.champion == Some(w.id)
  {
  }

  lemma CrownShape(r: Registry, id: string, now: string)
    ensures var ws := CrownWrites(r, id, now);
      ws == [] || (id in r.files && ws[|ws| - 1] == SaveChampion(id)
                   && forall w :: w in ws[..|ws| - 1] ==> Adds(w) && w.id == id && !w.CopyModel?)
  {
    if id in r.files {
      var m := r.files[id].(status := Champion, deployedAt := Some(now));
      var ws := UpdateWrites(r, id, m);
      assert (ws + [SaveChampion(id)])[..|ws|] == ws;
      UpdatesAdd(r, id, m);
    }
  }

  lemma {:induction false} AddingGrows(r: Registry, writes: seq<Write>)
    requires forall w :: w in writes ==> Adds(w)
    ensures var after := ApplyAll(r, writes);
      && after.index.champion == r.index.champion
      && r.index.entries.Keys <= after.index.entries.Keys
      && r.files.Keys <= after.files.Keys
      && r.models <= after.models
    decreases writes
  {
    if writes == [] {
    } else {
      assert Adds(writes[0]);
      AddingGrows(Apply(r, writes[0]), writes[1..]);
    }
  }

  lemma {:induction false} RemovingSpares(r: Registry, writes: seq<Write>, id: string)
    requires forall w :: w in writes ==> Removes(w) && w.id == id
    ensures var after := ApplyAll(r, writes);
      && after.index.champion == r.index.champion
      && r.index.entries.Keys - {id} <= after.index.entries.Keys
      && r.files.Keys - {id} <= after.files.Keys
      && r.models - {id} <= after.models
    decreases writes
  {
    if writes == [] {
    } else {
      assert Removes(writes[0]) && writes[0].id == id;
      RemovingSpares(Apply(r, writes[0]), writes[1..], id);
    }
  }

  /** The index names the same champion, with all that it had. */
  ghost predicate KeepsChampion(r: Registry, after: Registry) {
    && after.index.champion == r.index.champion
    && (r.index.champion.Some? ==>
          var c := r.index.champion.value;
          && (c in r.index.entries ==> c in after.index.entries)
          && (c in r.files ==> c in after.files)
          && (c in r.models ==> c in after.models))
  }

  /** The index names a new champion, a model that was registered and has its metadata. */
  ghost predicate NamesChampion(r: Registry, after: Registry, id: string) {
    && after.index.champion == Some(id)
    && id in r.index.entries && id in after.index.entries && id in after.files
    && (id in r.models ==> id in after.models)
  }

  lemma MidwayAdding(r: Registry, writes: seq<Write>)
    requires forall w :: w in writes ==> Adds(w)
    ensures KeepsChampion(r, ApplyAll(r, writes))
  {
    AddingGrows(r, writes);
  }

  lemma MidwayDelete(r: Registry, id: string, metadataFirst: bool, j: nat)
    requires j <= |DeleteWrites(r, id, metadataFirst)|
    ensures KeepsChampion(r, ApplyAll(r, DeleteWrites(r, id, metadataFirst)[..j]))
  {
    RemovingSpares(r, DeleteWrites(r, id, metadataFirst)[..j], id);
  }

  lemma PromotePrefix(r: Registry, id: string, now: string, j: nat) returns (first: seq<Write>, second: seq<Write>)
    requires id in r.index.entries && j <= |PromoteWrites(r, id, now)|
    ensures first == ArchiveOldWrites(r, id) && second == CrownWrites(ApplyAll(r, first), id, now)
    ensures |PromoteWrites(r, id, now)| == |first| + |second|
    ensures ApplyAll(r, PromoteWrites(r, id, now)[..j]) ==
      if j <= |first| then ApplyAll(r, first[..j]) else ApplyAll(ApplyAll(r, first), second[..j - |first|])
  {
    first := ArchiveOldWrites(r, id);
    second := CrownWrites(ApplyAll(r, first), id, now);
    ApplyPrefix(r, PromoteWrites(r, id, now), first, second, j);
  }

  lemma ApplyPrefix(r: Registry, writes: seq<Write>, first: seq<Write>, second: seq<Write>, j: nat)
    requires writes == first + second && j <= |writes|
    ensures ApplyAll(r, writes[..j]) ==
      if j <= |first| then ApplyAll(r, first[..j]) else ApplyAll(ApplyAll(r, first), second[..j - |first|])
  {
    if j <= |first| {
      assert writes[..j] == first[..j];
    } else {
      assert writes[..j] == first + second[..j - |first|];
      ApplyAppend(r, first, second[..j - |first|]);
    }
  }

  /** The three writes that crown a model, and what each leaves. */
  lemma CrownPrefixes(r: Registry, id: string, now: string) returns (v: Write, w: Write)
    requires id in r.index.entries && id in r.files
    ensures v == WriteMetadata(id, r.files[id].(status := Champion, deployedAt := Some(now)))
    ensures w.SaveEntry? && w.id == id && w.entry.status == Champion
    ensures var ws := CrownWrites(r, id, now);
      && |ws| == 3 && ws[..3] == ws && ApplyAll(r, ws[..0]) == r
      && ApplyAll(r, ws[..1]) == Apply(r, v)
      && ApplyAll(r, ws[..2]) == Apply(Apply(r, v), w)
      && ApplyAll(r, ws) == Apply(Apply(Apply(r, v), w), SaveChampion(id))
  {
    var m := r.files[id].(status := Champion, deployedAt := Some(now));
    v, w := WriteMetadata(id, m), SaveEntry(id, EntryAfter(r.index.entries[id], m));
    var ws := CrownWrites(r, id, now);
    assert ws == [v, w, SaveChampion(id)];
    assert ws[..1] == [v] && ws[..2] == [v, w];
    ApplyOne(r, v);
    ApplyTwo(r, v, w);
    ApplyThree(r, v, w, SaveChampion(id));
  }

  lemma CrownNames(r: Registry, id: string, now: string, j: nat)
    requires id in r.index.entries && j <= |CrownWrites(r, id, now)|
    ensures var ws, after := CrownWrites(r, id, now), ApplyAll(r, CrownWrites(r, id, now)[..j]);
      && after.models == r.models
      && (if 0 < j == |ws| then NamesChampion(r, after, id) else KeepsChampion(r, after))
  {
    if id in r.files {
      var v, w := CrownPrefixes(r, id, now);
      assert j == 0 || j == 1 || j == 2 || j == 3;
    }
  }

  lemma MidwayPromote(r: Registry, id: string, now: string, j: nat)
    requires j <= |PromoteWrites(r, id, now)|
    ensures var after := ApplyAll(r, PromoteWrites(r, id, now)[..j]);
      KeepsChampion(r, after) || NamesChampion(r, after, id)
  {
    if id in r.index.entries {
      var first, second := PromotePrefix(r, id, now, j);
      ArchiveShape(r, id);
      MidwayAdding(r, first[..Min(j, |first|)]);
      AddingGrows(r, first);
      if j > |first| {
        assert first[..|first|] == first;
        CrownNames(ApplyAll(r, first), id, now, j - |first|);
        SameModels(r, first);
      }
    }
  }

  /** What any number of an operation's writes does to the champion. */
  lemma Midway(r: Registry, op: Operation, j: nat)
    requires j <= |Writes(r, op)|
    ensures var after := ApplyAll(r, Writes(r, op)[..j]);
      KeepsChampion(r, after) || (op.Promote? && NamesChampion(r, after, op.id))
  {
    match op
    case Promote(id, now) => MidwayPromote(r, id, now, j);
    case Delete(id, metadataFirst) => MidwayDelete(r, id, metadataFirst, j);
    case _ => MidwayAdding(r, Writes(r, op)[..j]);
  }

  lemma StepKeepsChampion(r: Registry, a: Attempt)
    requires NotDangling(r)
    ensures NotDangling(After(r, a.op, a.survived))
    ensures r.index.champion.Some? ==> After(r, a.op, a.survived).index.champion.Some?
  {
    Midway(r, a.op, Min(a.survived, |Writes(r, a.op)|));
  }

  /** A champion named by the index is never dangling, whatever operations ran and wherever they died. */
  lemma {:induction false} NeverDangling(states: seq<Registry>, attempts: seq<Attempt>, n: nat)
    requires IsRun(states, attempts) && n <= |attempts|
    ensures NotDangling(states[n])
  {
    if n == 0 {
    } else {
      NeverDangling(states, attempts, n - 1);
      StepKeepsChampion(states[n - 1], attempts[n - 1]);
    }
  }

  /** Whatever happens later, a registry that has a champion goes on having one. */
  lemma {:induction false} ChampionRemains(states: seq<Registry>, attempts: seq<Attempt>, n: nat, k: nat)
    requires IsRun(states, attempts) && n <= k <= |attempts| && states[n].index.champion.Some?
    ensures states[k].index.champion.Some?
  {
    if n == k {
    } else {
      ChampionRemains(states, attempts, n, k - 1);
      NeverDangling(states, attempts, k - 1);
      StepKeepsChampion(states[k - 1], attempts[k - 1]);
    }
  }

  /** A promotion is of a model whose path the registry knows. */
  predicate PathKnown(r: Registry, op: Operation) {
    op.Promote? ==> HasModelPath(r, op.id)
  }

  lemma StepKeepsServing(r: Registry, a: Attempt)
    requires Served(r) && PathKnown(r, a.op)
    ensures Served(After(r, a.op, a.survived))
  {
    Midway(r, a.op, Min(a.survived, |Writes(r, a.op)|));
  }

  /** Then a registry that has a champion serves it, whatever operations ran and wherever they died. */
  lemma {:induction false} ChampionIsServed(states: seq<Registry>, attempts: seq<Attempt>, n: nat)
    requires IsRun(states, attempts) && n <= |attempts|
    requires forall i :: 0 <= i < n ==> PathKnown(states[i], attempts[i].op)
    ensures Served(states[n])
  {
    if n == 0 {
    } else {
      ChampionIsServed(states, attempts, n - 1);
      StepKeepsServing(states[n - 1], attempts[n - 1]);
    }
  }

  /** A promotion that succeeds is served exactly when the path was known before it. */
  lemma PromotionServesExactly(r: Registry, id: string, now: string)
    requires id in r.index.entries && id in r.files
    ensures var after := Completed(r, Promote(id, now));
      && after.index.champion == Some(id)
      && (GetChampion(after) == Some(id) <==> HasModelPath(r, id))
      && (GetChampion(after).None? <==> !HasModelPath(r, id))
  {
    var ws := PromoteWrites(r, id, now);
    var first, second := PromotePrefix(r, id, now, |ws|);
    var r1 := ApplyAll(r, first);
    assert ws[..|ws|] == ws;
    ArchiveShape(r, id);
    AddingGrows(r, first);
    SameModels(r, first);
    CrownNames(r1, id, now, |ws| - |first|);
  }

  lemma {:induction false} SameModels(r: Registry, writes: seq<Write>)
    requires forall w :: w in writes ==> !w.CopyModel? && !w.RemoveModel?
    ensures ApplyAll(r, writes).models == r.models
    decreases writes
  {
    if writes == [] {
    } else {
      assert writes[0] in writes;
      SameModels(Apply(r, writes[0]), writes[1..]);
    }
  }

  // ---- Who is marked champion

  function ChampionFiles(r: Registry): set<string> {
    set x | x in r.files && r.files[x].status == Champion
  }

  function ChampionEntries(r: Registry): set<string> {
    set x | x in r.index.entries && r.index.entries[x].status == Champion
  }

  function Marked(r: Registry): set<string> {
    ChampionFiles(r) + ChampionEntries(r)
  }

  /** Only the champion of the index carries the mark. */
  ghost predicate Crowned(r: Registry) {
    forall x :: x in Marked(r) ==> r.index.champion == Some(x)
  }

  lemma CrownedMarks(r: Registry)
    requires Crowned(r)
    ensures ChampionFiles(r) <= Old(r) && ChampionEntries(r) <= Old(r)
  {
    forall x | x in ChampionFiles(r) + ChampionEntries(r) ensures x in Old(r) {
      assert x in Marked(r);
    }
  }

  predicate Marks(w: Write) {
    (w.WriteMetadata? && w.metadata.status == Champion) || (w.SaveEntry? && w.entry.status == Champion)
  }

  lemma {:induction false} UnmarkedWrites(r: Registry, writes: seq<Write>)
    requires forall w :: w in writes ==> !Marks(w)
    ensures ChampionFiles(ApplyAll(r, writes)) <= ChampionFiles(r)
    ensures ChampionEntries(ApplyAll(r, writes)) <= ChampionEntries(r)
    decreases writes
  {
    if writes == [] {
    } else {
      assert !Marks(writes[0]);
      UnmarkedWrites(Apply(r, writes[0]), writes[1..]);
    }
  }

  lemma ClientOperationsMarkNothing(r: Registry, op: Operation)
    requires ClientWrites(op) && !op.Promote?
    ensures forall w :: w in Writes(r, op) ==> !Marks(w)
  {
  }

  /** Archiving the old champion takes the mark from it and gives none. */
  lemma ArchiveOldUnmarks(r: Registry, id: string)
    requires NotDangling(r)
    ensures var first := ArchiveOldWrites(r, id);
      var after := ApplyAll(r, first);
      && (forall w :: w in first ==> !Marks(w) && Adds(w))
      && ChampionFiles(after) == ChampionFiles(r) - Old(r)
      && ChampionEntries(after) == ChampionEntries(r) - Old(r)
      && after.index.champion == r.index.champion
      && after.files.Keys == r.files.Keys && after.index.entries.Keys == r.index.entries.Keys
  {
    if r.index.champion.Some? {
      var c := r.index.champion.value;
      var m := r.files[c].(status := Archived, replacedBy := Some(id));
      ApplyTwo(r, WriteMetadata(c, m), SaveEntry(c, EntryAfter(r.index.entries[c], m)));
    }
  }

  function Old(r: Registry): set<string> {
    if r.index.champion.Some? then {r.index.champion.value} else {}
  }

  /** A promotion that completes moves the mark, and leaves alone those of models it does not know as champion. */
  lemma PromotionMoves(r: Registry, id: string, now: string)
    requires NotDangling(r) && id in r.index.entries && id in r.files
    ensures var after := Completed(r, Promote(id, now));
      && after.index.champion == Some(id)
      && ChampionFiles(after) == ChampionFiles(r) - Old(r) + {id}
      && ChampionEntries(after) == ChampionEntries(r) - Old(r) + {id}
  {
    var first := ArchiveOldWrites(r, id);
    var r1 := ApplyAll(r, first);
    ArchiveOldUnmarks(r, id);
    ApplyAppend(r, first, CrownWrites(r1, id, now));
    CrownMarks(r1, id, now);
  }

  lemma CrownedBy(r: Registry, v: Write, w: Write)
    requires v.WriteMetadata? && w.SaveEntry? && v.id == w.id
    requires v.metadata.status == Champion && w.entry.status == Champion
    ensures var after := Apply(Apply(Apply(r, v), w), SaveChampion(v.id));
      && after.index.champion == Some(v.id)
      && ChampionFiles(after) == ChampionFiles(r) + {v.id}
      && ChampionEntries(after) == ChampionEntries(r) + {v.id}
  {
    var after := Apply(Apply(Apply(r, v), w), SaveChampion(v.id));
    assert after.files == r.files[v.id := v.metadata];
    assert after.index.entries == r.index.entries[v.id := w.entry];
  }

  lemma CrownMarks(r: Registry, id: string, now: string)
    requires id in r.index.entries && id in r.files
    ensures var after := ApplyAll(r, CrownWrites(r, id, now));
      && after.index.champion == Some(id)
      && ChampionFiles(after) == ChampionFiles(r) + {id}
      && ChampionEntries(after) == ChampionEntries(r) + {id}
  {
    var v, w := CrownPrefixes(r, id, now);
    CrownedBy(r, v, w);
  }

  /** It leaves at most one champion file if and only if no third model was marked. */
  lemma PromotionKeepsOneExactly(r: Registry, id: string, now: string)
    requires NotDangling(r) && id in r.index.entries && id in r.files
    ensures |ChampionFiles(Completed(r, Promote(id, now)))| <= 1 <==> ChampionFiles(r) <= Old(r) + {id}
  {
    var after := ChampionFiles(Completed(r, Promote(id, now)));
    PromotionMoves(r, id, now);
    if |after| <= 1 {
      AtMostOne(after, id);
    }
    if ChampionFiles(r) <= Old(r) + {id} {
      SubsetSize(after, {id});
    }
  }

  lemma AtMostOne<T>(s: set<T>, x: T)
    requires |s| <= 1 && x in s
    ensures s == {x}
  {
    assert s == {x} + (s - {x});
    assert |s - {x}| == 0;
  }

  /** The process dies after the new champion's metadata are written and before the index names it. */
  ghost predicate TornAt(r: Registry, id: string, now: string, survived: nat) {
    id in r.index.entries && |ArchiveOldWrites(r, id)| < survived < |PromoteWrites(r, id, now)|
  }

  ghost predicate Torn(r: Registry, a: Attempt) {
    a.op.Promote? && TornAt(r, a.op.id, a.op.now, a.survived)
  }

  /** No client write marks a champion and no promotion is torn. */
  ghost predicate Orderly(states: seq<Registry>, attempts: seq<Attempt>)
    requires |states| == |attempts| + 1
  {
    forall i :: 0 <= i < |attempts| ==> ClientWrites(attempts[i].op) && !Torn(states[i], attempts[i])
  }

  /**
    Through every write of an operation at most one file is marked champion, and
    only a torn promotion is caught at it.
  */
  lemma MidwayCrowned(r: Registry, op: Operation, j: nat)
    requires NotDangling(r) && Crowned(r) && ClientWrites(op) && j <= |Writes(r, op)|
    ensures var after := ApplyAll(r, Writes(r, op)[..j]);
      && |ChampionFiles(after)| <= 1
      && (!Torn(r, Attempt(op, j)) ==> Crowned(after))
  {
    if op.Promote? {
      PromotionCrowned(r, op.id, op.now, j);
    } else {
      ClientOperationsMarkNothing(r, op);
      Midway(r, op, j);
      UnmarkedCrowned(r, Writes(r, op)[..j]);
    }
  }

  lemma UnmarkedCrowned(r: Registry, writes: seq<Write>)
    requires Crowned(r) && forall w :: w in writes ==> !Marks(w)
    requires ApplyAll(r, writes).index.champion == r.index.champion
    ensures Crowned(ApplyAll(r, writes)) && |ChampionFiles(ApplyAll(r, writes))| <= 1
  {
    UnmarkedWrites(r, writes);
    CrownedMarks(r);
    SubsetSize(ChampionFiles(ApplyAll(r, writes)), Old(r));
  }

  lemma PromotionCrowned(r: Registry, id: string, now: string, j: nat)
    requires NotDangling(r) && Crowned(r) && j <= |PromoteWrites(r, id, now)|
    ensures var after := ApplyAll(r, PromoteWrites(r, id, now)[..j]);
      && |ChampionFiles(after)| <= 1
      && (!TornAt(r, id, now, j) ==> Crowned(after))
  {
    if id !in r.index.entries {
      UnmarkedCrowned(r, []);
    } else {
      var first, second := PromotePrefix(r, id, now, j);
      if j <= |first| {
        ArchivingCrowned(r, id, j);
      } else {
        CrowningCrowned(r, id, now, j - |first|);
      }
    }
  }

  lemma ArchivingCrowned(r: Registry, id: string, j: nat)
    requires NotDangling(r) && Crowned(r) && j <= |ArchiveOldWrites(r, id)|
    ensures var after := ApplyAll(r, ArchiveOldWrites(r, id)[..j]); Crowned(after) && |ChampionFiles(after)| <= 1
  {
    var writes := ArchiveOldWrites(r, id)[..j];
    ArchiveOldUnmarks(r, id);
    AddingGrows(r, writes);
    UnmarkedCrowned(r, writes);
  }

  lemma CrowningCrowned(r: Registry, id: string, now: string, j: nat)
    requires NotDangling(r) && Crowned(r) && id in r.index.entries
    requires var r1 := ApplyAll(r, ArchiveOldWrites(r, id)); j <= |CrownWrites(r1, id, now)|
    ensures var r1 := ApplyAll(r, ArchiveOldWrites(r, id));
      var second := CrownWrites(r1, id, now);
      var after := ApplyAll(r1, second[..j]);
      && |ChampionFiles(after)| <= 1
      && (j == |second| ==> Crowned(after))
  {
    var r1 := ApplyAll(r, ArchiveOldWrites(r, id));
    var second := CrownWrites(r1, id, now);
    ArchiveOldUnmarks(r, id);
    CrownedMarks(r);
    CrownMarksOnly(r1, id, now, j);
    SubsetSize(ChampionFiles(ApplyAll(r1, second[..j])), {id});
    if j == |second| {
      assert second[..j] == second;
      CrowningFinished(r1, id, now);
    }
  }

  lemma CrowningFinished(r: Registry, id: string, now: string)
    requires id in r.index.entries && Marked(r) == {}
    ensures Crowned(ApplyAll(r, CrownWrites(r, id, now)))
  {
    if id in r.files {
      CrownMarks(r, id, now);
    }
  }

  lemma CrownMarksOnly(r: Registry, id: string, now: string, j: nat)
    requires j <= |CrownWrites(r, id, now)|
    ensures var after := ApplyAll(r, CrownWrites(r, id, now)[..j]);
      ChampionFiles(after) <= ChampionFiles(r) + {id}
  {
    MarksOnly(r, CrownWrites(r, id, now)[..j], id);
  }

  lemma {:induction false} MarksOnly(r: Registry, writes: seq<Write>, id: string)
    requires forall w :: w in writes ==> w.id == id
    ensures ChampionFiles(ApplyAll(r, writes)) <= ChampionFiles(r) + {id}
    decreases writes
  {
    if writes == [] {
    } else {
      assert writes[0].id == id;
      MarksOnly(Apply(r, writes[0]), writes[1..], id);
    }
  }

  lemma StepKeepsCrown(r: Registry, a: Attempt)
    requires NotDangling(r) && Crowned(r) && ClientWrites(a.op)
    ensures |ChampionFiles(After(r, a.op, a.survived))| <= 1
    ensures !Torn(r, a) ==> Crowned(After(r, a.op, a.survived))
  {
    var j := Min(a.survived, |Writes(r, a.op)|);
    MidwayCrowned(r, a.op, j);
  }

  lemma {:induction false} CrownedAlways(states: seq<Registry>, attempts: seq<Attempt>, n: nat)
    requires IsRun(states, attempts) && n <= |attempts| && Orderly(states, attempts)
    ensures Crowned(states[n])
  {
    if n == 0 {
    } else {
      CrownedAlways(states, attempts, n - 1);
      NeverDangling(states, attempts, n - 1);
      StepKeepsCrown(states[n - 1], attempts[n - 1]);
    }
  }

  /**
    In every run without a torn promotion whatever says "champion", in a file or
    in the index, is the champion the index names, after every operation and
    every crash; and at every write of one more operation, even of a promotion
    that is about to be torn, at most one metadata file says so.
  */
  lemma OneChampionAlways(states: seq<Registry>, attempts: seq<Attempt>, n: nat, op: Operation, j: nat)
    requires IsRun(states, attempts) && n <= |attempts| && Orderly(states, attempts) && ClientWrites(op)
    ensures Crowned(states[n])
    ensures |ChampionFiles(After(states[n], op, j))| <= 1
  {
    CrownedAlways(states, attempts, n);
    NeverDangling(states, attempts, n);
    StepKeepsCrown(states[n], Attempt(op, j));
  }

  /** A torn promotion has marked its model in its file, and the index still names the old champion. */
  lemma TornMarks(r: Registry, a: Attempt)
    requires NotDangling(r) && Crowned(r) && Torn(r, a)
    ensures var after := After(r, a.op, a.survived);
      && after.index.champion == r.index.champion
      && after.index.entries.Keys == r.index.entries.Keys && after.files.Keys == r.files.Keys
      && ChampionFiles(after) == {a.op.id}
  {
    var id, now := a.op.id, a.op.now;
    var first, second := PromotePrefix(r, id, now, a.survived);
    ArchiveOldUnmarks(r, id);
    CrownedMarks(r);
    CrowningBegun(ApplyAll(r, first), id, now, a.survived - |first|);
  }

  lemma CrowningBegun(r: Registry, id: string, now: string, j: nat)
    requires id in r.index.entries && 0 < j < |CrownWrites(r, id, now)|
    ensures var after := ApplyAll(r, CrownWrites(r, id, now)[..j]);
      && after.index.champion == r.index.champion
      && after.index.entries.Keys == r.index.entries.Keys && after.files.Keys == r.files.Keys
      && ChampionFiles(after) == ChampionFiles(r) + {id}
  {
    var v, w := CrownPrefixes(r, id, now);
    MarkedBy(r, v, w);
    assert j == 1 || j == 2;
  }

  lemma MarkedBy(r: Registry, v: Write, w: Write)
    requires v.WriteMetadata? && w.SaveEntry? && v.metadata.status == Champion
    requires v.id in r.files && w.id in r.index.entries
    ensures ChampionFiles(Apply(r, v)) == ChampionFiles(r) + {v.id} == ChampionFiles(Apply(Apply(r, v), w))
    ensures Apply(r, v).files.Keys == r.files.Keys
    ensures Apply(Apply(r, v), w).index.entries.Keys == r.index.entries.Keys
  {
  }

  /**
    After a torn promotion of a model that was not the champion, completing one
    of any other model leaves both marked.
  */
  lemma TornThenAnother(r: Registry, a: Attempt, id: string, now: string)
    requires NotDangling(r) && Crowned(r) && Torn(r, a) && r.index.champion != Some(a.op.id)
    requires id != a.op.id && id in r.index.entries && id in r.files
    ensures ChampionFiles(Completed(After(r, a.op, a.survived), Promote(id, now))) == {a.op.id, id}
  {
    TornMarks(r, a);
    PromotionMoves(After(r, a.op, a.survived), id, now);
  }

  /** Completing the same promotion instead repairs the registry. */
  lemma TornThenAgain(r: Registry, a: Attempt, now: string)
    requires NotDangling(r) && Crowned(r) && Torn(r, a)
    ensures ChampionFiles(Completed(After(r, a.op, a.survived), Promote(a.op.id, now))) == {a.op.id}
  {
    TornMarks(r, a);
    TornIsOfAKnownModel(r, a);
    PromotionMoves(After(r, a.op, a.survived), a.op.id, now);
  }

  lemma TornIsOfAKnownModel(r: Registry, a: Attempt)
    requires NotDangling(r) && Crowned(r) && Torn(r, a)
    ensures a.op.id in r.files
  {
    TornMarks(r, a);
    assert a.op.id in ChampionFiles(After(r, a.op, a.survived));
  }

  lemma RegisterDoes(r: Registry, id: string, m: Metadata, suffix: string)
    ensures After(r, Register(id, m, suffix), 4) ==
      Registry(r.index.(entries := r.index.entries[id := Entry(m.status, None)]), r.files[id := m],
               if suffix == "" then r.models else r.models + {id}, r.dirs + {id})
  {
    var ws := Writes(r, Register(id, m, suffix));
    assert ws[..4] == ws;
    ApplyFour(r, MakeDir(id), CopyModel(id, suffix), WriteMetadata(id, m), SaveEntry(id, Entry(m.status, None)));
  }

  lemma FirstPromotion(r: Registry, id: string, now: string)
    requires r.index.champion == None && id in r.index.entries && id in r.files
    ensures ArchiveOldWrites(r, id) == [] && |PromoteWrites(r, id, now)| == 3
    ensures Torn(r, Attempt(Promote(id, now), 1))
  {
    var first, second := PromotePrefix(r, id, now, 0);
  }

  function TwoModels(b: Metadata, c: Metadata): Registry {
    After(After(EMPTY, Register("b", b, ".json"), 4), Register("c", c, ".json"), 4)
  }

  lemma TwoModelsRegistered(b: Metadata, c: Metadata)
    requires b.status == Candidate && c.status == Candidate
    ensures var r := TwoModels(b, c);
      && r.index.champion == None && Marked(r) == {} && r.index.entries.Keys == r.files.Keys == {"b", "c"}
  {
    RegisterDoes(EMPTY, "b", b, ".json");
    RegisterDoes(After(EMPTY, Register("b", b, ".json"), 4), "c", c, ".json");
  }

  lemma TwoChampionFiles(r: Registry, x: string, y: string)
    requires r.index.champion == None && Marked(r) == {} && x != y
    requires {x, y} <= r.index.entries.Keys && {x, y} <= r.files.Keys
    ensures ChampionFiles(After(After(r, Promote(x, "noon"), 1), Promote(y, "night"), 3)) == {x, y}
  {
    var torn := Attempt(Promote(x, "noon"), 1);
    FirstPromotion(r, x, "noon");
    TornMarks(r, torn);
    TornThenAnother(r, torn, y, "night");
    var r1 := After(r, torn.op, 1);
    FirstPromotion(r1, y, "night");
    AfterAll(r1, Promote(y, "night"), 3);
  }

  lemma Extend(states: seq<Registry>, attempts: seq<Attempt>, a: Attempt)
    returns (longer: seq<Registry>, all: seq<Attempt>)
    requires IsRun(states, attempts)
    ensures IsRun(longer, all) && all == attempts + [a]
    ensures longer[|all|] == After(states[|attempts|], a.op, a.survived)
  {
    longer, all := states + [After(states[|attempts|], a.op, a.survived)], attempts + [a];
    forall i | 0 <= i < |all| ensures longer[i + 1] == After(longer[i], all[i].op, all[i].survived) {
      if i < |attempts| {
        assert longer[i + 1] == states[i + 1] && longer[i] == states[i] && all[i] == attempts[i];
      }
    }
  }

  lemma RunOfTwoModels(b: Metadata, c: Metadata) returns (states: seq<Registry>, attempts: seq<Attempt>)
    requires b.status == Candidate && c.status == Candidate
    ensures IsRun(states, attempts) && states[|attempts|] == TwoModels(b, c)
    ensures forall a :: a in attempts ==> ClientWrites(a.op)
  {
    states, attempts := Extend([EMPTY], [], Attempt(Register("b", b, ".json"), 4));
    states, attempts := Extend(states, attempts, Attempt(Register("c", c, ".json"), 4));
  }

  /** Two models, a promotion of one that dies after its metadata, a promotion of the other: two champion files. */
  lemma TwoChampions(b: Metadata, c: Metadata) returns (states: seq<Registry>, attempts: seq<Attempt>)
    requires b.status == Candidate && c.status == Candidate
    ensures IsRun(states, attempts) && forall a :: a in attempts ==> ClientWrites(a.op)
    ensures ChampionFiles(states[|attempts|]) == {"b", "c"}
  {
    states, attempts := RunOfTwoModels(b, c);
    var r := states[|attempts|];
    assert ChampionFiles(After(After(r, Promote("b", "noon"), 1), Promote("c", "night"), 3)) == {"b", "c"} by {
      TwoModelsRegistered(b, c);
      TwoChampionFiles(r, "b", "c");
    }
    states, attempts := Extend(states, attempts, Attempt(Promote("b", "noon"), 1));
    states, attempts := Extend(states, attempts, Attempt(Promote("c", "night"), 3));
  }

  lemma HalfDeleted(m: Metadata)
    ensures var r := After(After(EMPTY, Register("a", m, ".json"), 4), Delete("a", false), 1);
      && r.index.champion == None && "a" in r.index.entries && "a" in r.files && r.models == {}
  {
    var r1 := After(EMPTY, Register("a", m, ".json"), 4);
    RegisterDoes(EMPTY, "a", m, ".json");
    assert DeleteWrites(r1, "a", false)[..1] == [RemoveModel("a")];
    ApplyOne(r1, RemoveModel("a"));
  }

  /** A deletion that dies after the model file, then a promotion: a champion that cannot be served. */
  lemma UnservedChampion(m: Metadata) returns (states: seq<Registry>, attempts: seq<Attempt>)
    ensures IsRun(states, attempts)
    ensures states[|attempts|].index.champion == Some("a") && GetChampion(states[|attempts|]) == None
  {
    attempts := [Attempt(Register("a", m, ".json"), 4), Attempt(Delete("a", false), 1),
                 Attempt(Promote("a", "noon"), 3)];
    var r1 := After(EMPTY, Register("a", m, ".json"), 4);
    var r2 := After(r1, Delete("a", false), 1);
    states := [EMPTY, r1, r2, After(r2, Promote("a", "noon"), 3)];
    HalfDeleted(m);
    FirstPromotion(r2, "a", "noon");
    PromotionServesExactly(r2, "a", "noon");
    AfterAll(r2, Promote("a", "noon"), 3);
  }

  // ---- Whether the champion of the index carries the mark

  lemma ArchivingBegun(r: Registry, id: string, j: nat)
    requires NotDangling(r) && 0 < j <= |ArchiveOldWrites(r, id)|
    ensures ChampionFiles(ApplyAll(r, ArchiveOldWrites(r, id)[..j])) == ChampionFiles(r) - Old(r)
    ensures ApplyAll(r, ArchiveOldWrites(r, id)[..j]).index.champion == r.index.champion
  {
    var first := ArchiveOldWrites(r, id);
    if j == |first| {
      assert first[..j] == first;
      ArchiveOldUnmarks(r, id);
    } else {
      assert first[..j] == [first[0]];
      ApplyOne(r, first[0]);
    }
  }

  /**
    At every write of a promotion, the last included: the mark leaves the old
    champion with the first write and reaches the new one with the third, or
    with the first when there is no champion yet; other marks stay.
  */
  lemma PromotionMarksAtEveryWrite(r: Registry, id: string, now: string, j: nat)
    requires NotDangling(r) && j <= |PromoteWrites(r, id, now)|
    ensures var marked := ChampionFiles(ApplyAll(r, PromoteWrites(r, id, now)[..j]));
      marked == if j == 0 then ChampionFiles(r)
                else if j <= |ArchiveOldWrites(r, id)| then ChampionFiles(r) - Old(r)
                else ChampionFiles(r) - Old(r) + {id}
  {
    if j > 0 {
      var first, second := PromotePrefix(r, id, now, j);
      if j <= |first| {
        ArchivingBegun(r, id, j);
      } else {
        CrowningMarks(r, id, now, j - |first|);
      }
    }
  }

  lemma CrowningMarks(r: Registry, id: string, now: string, j: nat)
    requires NotDangling(r) && id in r.index.entries
    requires 0 < j <= |CrownWrites(ApplyAll(r, ArchiveOldWrites(r, id)), id, now)|
    ensures var r1 := ApplyAll(r, ArchiveOldWrites(r, id));
      var second := CrownWrites(r1, id, now);
      var after := ApplyAll(r1, second[..j]);
      && id in r.files
      && ChampionFiles(after) == ChampionFiles(r) - Old(r) + {id}
      && after.index.champion == if j == |second| then Some(id) else r.index.champion
  {
    var r1 := ApplyAll(r, ArchiveOldWrites(r, id));
    var second := CrownWrites(r1, id, now);
    ArchiveOldUnmarks(r, id);
    if j == |second| {
      assert second[..j] == second;
      CrownMarks(r1, id, now);
    } else {
      CrowningBegun(r1, id, now, j);
    }
  }

  /**
    So at most one file is marked at every write of a promotion, wherever it
    dies, if and only if that is so before it and, unless it fails for want of
    the model's metadata, no third model is marked.
  */
  lemma PromotionKeepsOneAtEveryWriteExactly(r: Registry, id: string, now: string)
    requires NotDangling(r) && id in r.index.entries
    ensures (forall j: nat :: |ChampionFiles(After(r, Promote(id, now), j))| <= 1) <==>
              |ChampionFiles(r)| <= 1 && (id in r.files ==> ChampionFiles(r) <= Old(r) + {id})
  {
    if |ChampionFiles(r)| <= 1 && (id in r.files ==> ChampionFiles(r) <= Old(r) + {id}) {
      forall j: nat ensures |ChampionFiles(After(r, Promote(id, now), j))| <= 1 {
        KeepsOneAfter(r, id, now, j);
      }
    } else {
      var all := |PromoteWrites(r, id, now)|;
      AfterAll(r, Promote(id, now), all);
      AfterNone(r, Promote(id, now));
      assert |ChampionFiles(After(r, Promote(id, now), 0))| <= 1 ==> id in r.files;
      if id in r.files {
        PromotionKeepsOneExactly(r, id, now);
        assert |ChampionFiles(After(r, Promote(id, now), all))| <= 1 <==> ChampionFiles(r) <= Old(r) + {id};
      }
    }
  }

  lemma AfterNone(r: Registry, op: Operation)
    ensures After(r, op, 0) == r
  {
    assert Writes(r, op)[..0] == [];
  }

  lemma KeepsOneAfter(r: Registry, id: string, now: string, j: nat)
    requires NotDangling(r) && id in r.index.entries
    requires |ChampionFiles(r)| <= 1 && (id in r.files ==> ChampionFiles(r) <= Old(r) + {id})
    ensures |ChampionFiles(After(r, Promote(id, now), j))| <= 1
  {
    var k := Min(j, |PromoteWrites(r, id, now)|);
    PromotionMarksAtEveryWrite(r, id, now, k);
    if k > |ArchiveOldWrites(r, id)| {
      ArchiveOldUnmarks(r, id);
      SubsetSize(ChampionFiles(After(r, Promote(id, now), j)), {id});
    } else {
      SubsetSize(ChampionFiles(After(r, Promote(id, now), j)), ChampionFiles(r));
    }
  }

  /** The champion of the index, if there is one, is marked in its metadata. */
  ghost predicate Enthroned(r: Registry) {
    Old(r) <= ChampionFiles(r)
  }

  /**
    Writes that leave the index with a champion that is not marked: those that
    give it another status, and those of a promotion from the archiving of the
    old champion until the new one is marked and named, which they never are
    when the new one has no metadata.
  */
  predicate Unseats(r: Registry, op: Operation, j: nat) {
    r.index.champion.Some? &&
      var c := r.index.champion.value;
      match op
      case Register(id, _, _) => id == c && j >= 3
      case Update(id, _) => id == c && j >= 1
      case Archive(id) => id == c && j >= 1
      case Promote(id, _) =>
        id in r.index.entries && j >= 1 && (id !in r.files || j < (if id == c then 3 else 5))
      case Delete(_, _) => false
  }

  lemma {:induction false} OthersKeepTheMark(r: Registry, writes: seq<Write>, c: string)
    requires forall w :: w in writes ==> w.id != c
    ensures c in ChampionFiles(ApplyAll(r, writes)) <==> c in ChampionFiles(r)
    decreases writes
  {
    if writes == [] {
    } else {
      assert writes[0].id != c;
      OthersKeepTheMark(Apply(r, writes[0]), writes[1..], c);
    }
  }

  lemma EnthronedAtEveryWriteExactly(r: Registry, op: Operation, j: nat)
    requires NotDangling(r) && Enthroned(r) && ClientWrites(op) && j <= |Writes(r, op)|
    ensures Enthroned(ApplyAll(r, Writes(r, op)[..j])) <==> !Unseats(r, op, j)
  {
    if op.Promote? {
      PromotionSeatsExactly(r, op.id, op.now, j);
    } else {
      Midway(r, op, j);
      if r.index.champion == Some(op.id) {
        OwnWritesUnseat(r, op, j);
      } else if r.index.champion.Some? {
        OtherWritesSpare(r, op, j);
      }
    }
  }

  lemma OtherWritesSpare(r: Registry, op: Operation, j: nat)
    requires r.index.champion.Some? && !op.Promote? && op.id != r.index.champion.value && j <= |Writes(r, op)|
    ensures r.index.champion.value in ChampionFiles(ApplyAll(r, Writes(r, op)[..j])) <==>
              r.index.champion.value in ChampionFiles(r)
  {
    WritesAreOf(r, op);
    OthersKeepTheMark(r, Writes(r, op)[..j], r.index.champion.value);
  }

  lemma OwnWritesUnseat(r: Registry, op: Operation, j: nat)
    requires NotDangling(r) && Enthroned(r) && ClientWrites(op) && j <= |Writes(r, op)|
    requires !op.Promote? && r.index.champion == Some(op.id)
    ensures op.id in ChampionFiles(ApplyAll(r, Writes(r, op)[..j])) <==> !Unseats(r, op, j)
  {
    match op
    case Register(id, m, suffix) => RegisteringUnseats(r, id, m, suffix, j);
    case Update(id, m) => UpdatingUnseats(r, id, m, j);
    case Archive(id) => UpdatingUnseats(r, id, r.files[id].(status := Archived), j);
    case Delete(_, _) => AfterNone(r, op);
  }

  lemma RegisteringUnseats(r: Registry, id: string, m: Metadata, suffix: string, j: nat)
    requires id in ChampionFiles(r) && m.status != Champion && j <= 4
    ensures id in ChampionFiles(ApplyAll(r, Writes(r, Register(id, m, suffix))[..j])) <==> j < 3
  {
    FourPrefixes(r, MakeDir(id), CopyModel(id, suffix), WriteMetadata(id, m), SaveEntry(id, Entry(m.status, None)));
    assert j == 0 || j == 1 || j == 2 || j == 3 || j == 4;
  }

  lemma UpdatingUnseats(r: Registry, id: string, m: Metadata, j: nat)
    requires id in ChampionFiles(r) && m.status != Champion && j <= |UpdateWrites(r, id, m)|
    ensures id in ChampionFiles(ApplyAll(r, UpdateWrites(r, id, m)[..j])) <==> j < 1
  {
    if j > 0 {
      var v, w := WriteMetadata(id, m), SaveEntry(id, EntryAfter(r.index.entries[id], m));
      if j == 1 {
        assert [v, w][..j] == [v];
        ApplyOne(r, v);
      } else {
        assert [v, w][..j] == [v, w];
        ApplyTwo(r, v, w);
      }
    }
  }

  lemma PromotionSeatsExactly(r: Registry, id: string, now: string, j: nat)
    requires NotDangling(r) && Enthroned(r) && j <= |PromoteWrites(r, id, now)|
    ensures Enthroned(ApplyAll(r, PromoteWrites(r, id, now)[..j])) <==> !Unseats(r, Promote(id, now), j)
  {
    if j > 0 {
      var first, second := PromotePrefix(r, id, now, j);
      PromotionMarksAtEveryWrite(r, id, now, j);
      PromotionLength(r, id, now);
      if j <= |first| {
        ArchivingBegun(r, id, j);
      } else {
        CrowningMarks(r, id, now, j - |first|);
      }
    }
  }

  lemma PromotionLength(r: Registry, id: string, now: string)
    requires NotDangling(r) && id in r.index.entries
    ensures |ArchiveOldWrites(r, id)| == if r.index.champion.Some? then 2 else 0
    ensures |PromoteWrites(r, id, now)| == |ArchiveOldWrites(r, id)| + (if id in r.files then 3 else 0)
  {
    ArchiveOldUnmarks(r, id);
  }

  /**
    In every run, crashes included: the champion of the index is marked after
    every operation if and only if none of them unseats it.
  */
  lemma {:induction false} EnthronedExactly(states: seq<Registry>, attempts: seq<Attempt>, n: nat)
    requires IsRun(states, attempts) && n <= |attempts|
    requires forall i :: 0 <= i < n ==> ClientWrites(attempts[i].op)
    ensures (forall i :: 0 <= i <= n ==> Enthroned(states[i])) <==>
              (forall i :: 0 <= i < n ==> !UnseatsAt(states[i], attempts[i]))
  {
    if n == 0 {
    } else {
      EnthronedExactly(states, attempts, n - 1);
      if Enthroned(states[n - 1]) {
        NeverDangling(states, attempts, n - 1);
        var op := attempts[n - 1].op;
        EnthronedAtEveryWriteExactly(states[n - 1], op, Min(attempts[n - 1].survived, |Writes(states[n - 1], op)|));
        assert Enthroned(states[n]) <==> !UnseatsAt(states[n - 1], attempts[n - 1]);
      }
    }
  }

  predicate UnseatsAt(r: Registry, a: Attempt) {
    Unseats(r, a.op, Min(a.survived, |Writes(r, a.op)|))
  }

  /** In particular a promotion that fails for want of metadata has already taken the mark from the serving champion. */
  lemma FailedPromotionUnseats(r: Registry, id: string, now: string)
    requires NotDangling(r) && r.index.champion.Some? && id in r.index.entries && id !in r.files
    ensures var after := Completed(r, Promote(id, now));
      after.index.champion == r.index.champion && !Enthroned(after)
  {
    var ws, first := PromoteWrites(r, id, now), ArchiveOldWrites(r, id);
    PromotionLength(r, id, now);
    assert first[..|first|] == first && ws == first;
    ArchivingBegun(r, id, |first|);
  }

  // ---- What each operation makes of the files and the index

  /** A deployment time is recorded in the index unless there is none, or an empty one. */
  function Stamp(deployedAt: Option<string>, before: Option<string>): Option<string> {
    if deployedAt.Some? && deployedAt.value != "" then deployedAt else before
  }

  /** The registry with this metadata file, and the index entry telling its status and deployment time. */
  function With(r: Registry, id: string, m: Metadata): Registry
    requires id in r.index.entries
  {
    var entry := Entry(m.status, Stamp(m.deployedAt, r.index.entries[id].deployedAt));
    r.(files := r.files[id := m], index := r.index.(entries := r.index.entries[id := entry]))
  }

  lemma UpdateIs(r: Registry, id: string, m: Metadata)
    requires id in r.index.entries && HasDir(r, id)
    ensures ApplyAll(r, UpdateWrites(r, id, m)) == With(r, id, m)
  {
    ApplyTwo(r, WriteMetadata(id, m), SaveEntry(id, EntryAfter(r.index.entries[id], m)));
  }

  /** An update writes the metadata, and its status into the index; nothing without an entry or a directory. */
  lemma UpdateDoes(r: Registry, id: string, m: Metadata)
    ensures Completed(r, Update(id, m)) ==
      if id in r.index.entries && (id in r.dirs || id in r.files || id in r.models) then With(r, id, m) else r
  {
    if id in r.index.entries && HasDir(r, id) {
      UpdateIs(r, id, m);
    }
  }

  /** An archival gives the model the status "archived" and keeps the rest of its metadata. */
  lemma ArchiveDoes(r: Registry, id: string)
    ensures Completed(r, Archive(id)) ==
      if id in r.index.entries && id in r.files then
        var f := r.files[id]; With(r, id, Metadata(Archived, f.deployedAt, f.replacedBy, f.details))
      else r
  {
    if id in r.index.entries && id in r.files {
      UpdateIs(r, id, r.files[id].(status := Archived));
    }
  }

  /** The registry once the champion, if there is one, is archived in favour of `id`. */
  function Retired(r: Registry, id: string): Registry
    requires NotDangling(r)
  {
    if r.index.champion.None? then r
    else
      var c := r.index.champion.value;
      var f := r.files[c];
      With(r, c, Metadata(Archived, f.deployedAt, Some(id), f.details))
  }

  lemma RetiredIs(r: Registry, id: string)
    requires NotDangling(r)
    ensures ApplyAll(r, ArchiveOldWrites(r, id)) == Retired(r, id)
  {
    if r.index.champion.Some? {
      var c := r.index.champion.value;
      UpdateIs(r, c, r.files[c].(status := Archived, replacedBy := Some(id)));
    }
  }

  lemma CrownIs(r: Registry, id: string, now: string)
    requires id in r.index.entries && id in r.files
    ensures ApplyAll(r, CrownWrites(r, id, now)) ==
      var crowned := With(r, id, Metadata(Champion, Some(now), r.files[id].replacedBy, r.files[id].details));
      crowned.(index := crowned.index.(champion := Some(id)))
  {
    var m := r.files[id].(status := Champion, deployedAt := Some(now));
    UpdateIs(r, id, m);
    ApplyAppend(r, UpdateWrites(r, id, m), [SaveChampion(id)]);
    ApplyOne(ApplyAll(r, UpdateWrites(r, id, m)), SaveChampion(id));
  }

  /** What a promotion of `id` makes of the file of model `x`. */
  function PromotedFile(r: Registry, id: string, now: string, x: string): Metadata
    requires x in r.files
  {
    var f := r.files[x];
    var replacedBy := if r.index.champion == Some(x) then Some(id) else f.replacedBy;
    if x == id then Metadata(Champion, Some(now), replacedBy, f.details)
    else if r.index.champion == Some(x) then Metadata(Archived, f.deployedAt, replacedBy, f.details)
    else f
  }

  /** And of its entry in the index. */
  function PromotedEntry(r: Registry, id: string, now: string, x: string): Entry
    requires x in r.index.entries && (r.index.champion == Some(x) ==> x in r.files)
  {
    var e := r.index.entries[x];
    var retired := if r.index.champion == Some(x) then Stamp(r.files[x].deployedAt, e.deployedAt) else e.deployedAt;
    if x == id then Entry(Champion, Stamp(Some(now), retired))
    else if r.index.champion == Some(x) then Entry(Archived, retired)
    else e
  }

  /**
    A completed promotion, file by file and entry by entry: the old champion is
    archived, says by whom it was replaced, and keeps its deployment time; the new
    one is champion from now on; the rest of both, and every other model, is kept.
  */
  lemma PromoteDoes(r: Registry, id: string, now: string)
    requires NotDangling(r) && id in r.index.entries && id in r.files
    ensures var after := Completed(r, Promote(id, now));
      && after.index.champion == Some(id) && after.models == r.models && after.dirs == r.dirs
      && after.files.Keys == r.files.Keys && after.index.entries.Keys == r.index.entries.Keys
      && (forall x :: x in r.files ==> after.files[x] == PromotedFile(r, id, now, x))
      && (forall x :: x in r.index.entries ==> after.index.entries[x] == PromotedEntry(r, id, now, x))
  {
    var first := ArchiveOldWrites(r, id);
    RetiredIs(r, id);
    CrownIs(Retired(r, id), id, now);
    ApplyAppend(r, first, CrownWrites(Retired(r, id), id, now));
  }

  /** One that fails for want of metadata has still archived the old champion, which the index goes on naming. */
  lemma FailedPromotionDoes(r: Registry, id: string, now: string)
    requires NotDangling(r) && id in r.index.entries && id !in r.files
    ensures Completed(r, Promote(id, now)) == Retired(r, id)
  {
    RetiredIs(r, id);
    ApplyAppend(r, ArchiveOldWrites(r, id), []);
  }

  /** A registration, whatever was there before under the name. */
  lemma RegistrationDoes(r: Registry, id: string, m: Metadata, suffix: string)
    ensures Completed(r, Register(id, m, suffix)) ==
      Registry(Index(r.index.entries[id := Entry(m.status, None)], r.index.champion), r.files[id := m],
               if suffix == "" then r.models else r.models + {id}, r.dirs + {id})
  {
    RegisterDoes(r, id, m, suffix);
    AfterAll(r, Register(id, m, suffix), 4);
  }

  /** A deletion removes the model everywhere; an unknown model and the champion are left alone. */
  lemma DeletionDoes(r: Registry, id: string, metadataFirst: bool)
    ensures Completed(r, Delete(id, metadataFirst)) ==
      if id in r.index.entries && r.index.champion != Some(id) then
        Registry(Index(r.index.entries - {id}, r.index.champion), r.files - {id}, r.models - {id}, r.dirs - {id})
      else r
  {
    if id in r.index.entries && r.index.champion != Some(id) {
      DeleteDoes(r, id, metadataFirst);
    }
  }

  // ---- Index and metadata files

  /** The models whose index entry and metadata file tell different stories. */
  function Disagreeing(r: Registry): set<string> {
    set x | x in r.index.entries.Keys + r.files.Keys &&
      !(x in r.index.entries && x in r.files && r.index.entries[x].status == r.files[x].status)
  }

  lemma UpdateAgrees(r: Registry, id: string, m: Metadata)
    requires id in r.index.entries && HasDir(r, id)
    ensures Disagreeing(ApplyAll(r, UpdateWrites(r, id, m))) == Disagreeing(r) - {id}
  {
    ApplyTwo(r, WriteMetadata(id, m), SaveEntry(id, EntryAfter(r.index.entries[id], m)));
  }

  lemma CrownAgrees(r: Registry, id: string, now: string)
    requires id in r.index.entries
    ensures Disagreeing(ApplyAll(r, CrownWrites(r, id, now))) <= Disagreeing(r)
  {
    if id in r.files {
      var m := r.files[id].(status := Champion, deployedAt := Some(now));
      var first := UpdateWrites(r, id, m);
      UpdateAgrees(r, id, m);
      ApplyAppend(r, first, [SaveChampion(id)]);
      ApplyOne(ApplyAll(r, first), SaveChampion(id));
    }
  }

  /** A completed operation leaves no disagreement that was not there before. */
  lemma CompletedAgrees(r: Registry, op: Operation)
    ensures Disagreeing(Completed(r, op)) <= Disagreeing(r)
  {
    match op
    case Register(id, m, suffix) =>
      ApplyFour(r, MakeDir(id), CopyModel(id, suffix), WriteMetadata(id, m), SaveEntry(id, Entry(m.status, None)));
    case Update(id, m) =>
      if id in r.index.entries && HasDir(r, id) {
        UpdateAgrees(r, id, m);
      }
    case Promote(id, now) =>
      if id in r.index.entries {
        PromoteAgrees(r, id, now);
      }
    case Archive(id) =>
      if id in r.files && id in r.index.entries {
        UpdateAgrees(r, id, r.files[id].(status := Archived));
      }
    case Delete(id, metadataFirst) =>
      if id in r.index.entries && r.index.champion != Some(id) {
        DeleteAgrees(r, id, metadataFirst);
      }
  }

  lemma PromoteAgrees(r: Registry, id: string, now: string)
    requires id in r.index.entries
    ensures Disagreeing(Completed(r, Promote(id, now))) <= Disagreeing(r)
  {
    var first := ArchiveOldWrites(r, id);
    var r1 := ApplyAll(r, first);
    if r.index.champion.Some? && r.index.champion.value in r.files && r.index.champion.value in r.index.entries {
      var c := r.index.champion.value;
      UpdateAgrees(r, c, r.files[c].(status := Archived, replacedBy := Some(id)));
    }
    AddingGrows(r, first);
    ApplyAppend(r, first, CrownWrites(r1, id, now));
    CrownAgrees(r1, id, now);
  }

  lemma DeleteDoes(r: Registry, id: string, metadataFirst: bool)
    requires id in r.index.entries && r.index.champion != Some(id)
    ensures Completed(r, Delete(id, metadataFirst)) ==
      Registry(Index(r.index.entries - {id}, r.index.champion), r.files - {id}, r.models - {id}, r.dirs - {id})
  {
    if !HasDir(r, id) {
      ApplyOne(r, SaveRemoval(id));
      assert r.files - {id} == r.files && r.models - {id} == r.models && r.dirs - {id} == r.dirs;
    } else if metadataFirst {
      ApplyFour(r, RemoveMetadata(id), RemoveModel(id), RemoveDir(id), SaveRemoval(id));
    } else {
      ApplyFour(r, RemoveModel(id), RemoveMetadata(id), RemoveDir(id), SaveRemoval(id));
    }
  }

  lemma DeleteAgrees(r: Registry, id: string, metadataFirst: bool)
    requires id in r.index.entries && r.index.champion != Some(id)
    ensures Disagreeing(Completed(r, Delete(id, metadataFirst))) == Disagreeing(r) - {id}
  {
    DeleteDoes(r, id, metadataFirst);
  }

  /** A crash can leave at most the models its operation was writing in disagreement. */
  lemma WriteDisturbs(r: Registry, w: Write)
    ensures Disagreeing(Apply(r, w)) <= Disagreeing(r) + {w.id}
  {
  }

  lemma {:induction false} WritesDisturb(r: Registry, writes: seq<Write>)
    ensures Disagreeing(ApplyAll(r, writes)) <= Disagreeing(r) + set w <- writes :: w.id
    decreases writes
  {
    if writes == [] {
    } else {
      WriteDisturbs(r, writes[0]);
      WritesDisturb(Apply(r, writes[0]), writes[1..]);
      assert forall w :: w in writes[1..] ==> w in writes;
      assert writes[0] in writes;
    }
  }

  lemma WritesAreOf(r: Registry, op: Operation)
    ensures forall w :: w in Writes(r, op) ==> w.id == op.id || (op.Promote? && r.index.champion == Some(w.id))
  {
    if op.Promote? {
      ArchiveShape(r, op.id);
      var r1 := ApplyAll(r, ArchiveOldWrites(r, op.id));
      var second := CrownWrites(r1, op.id, op.now);
      CrownShape(r1, op.id, op.now);
      assert second != [] ==> second == second[..|second| - 1] + [SaveChampion(op.id)];
    }
  }

  lemma CrashDisturbs(r: Registry, op: Operation, survived: nat)
    ensures Disagreeing(After(r, op, survived)) <= Disagreeing(r) + {op.id} + (if op.Promote? then Old(r) else {})
  {
    var ws := Writes(r, op);
    WritesAreOf(r, op);
    WritesDisturb(r, ws[..Min(survived, |ws|)]);
    assert forall w :: w in ws[..Min(survived, |ws|)] ==> w in ws;
  }

  lemma AfterAll(r: Registry, op: Operation, survived: nat)
    requires survived >= |Writes(r, op)|
    ensures After(r, op, survived) == Completed(r, op)
  {
    assert Writes(r, op)[..|Writes(r, op)|] == Writes(r, op);
  }

  ghost predicate Agrees(r: Registry) {
    Disagreeing(r) == {}
  }

  ghost predicate Completes(r: Registry, a: Attempt) {
    a.survived >= |Writes(r, a.op)|
  }

  lemma CompletedKeepsAgreement(r: Registry, a: Attempt)
    requires Completes(r, a) && Agrees(r)
    ensures Agrees(After(r, a.op, a.survived))
  {
    AfterAll(r, a.op, a.survived);
    CompletedAgrees(r, a.op);
  }

  /** Without crashes index and metadata always agree, model by model and status by status. */
  lemma {:induction false} IndexAgrees(states: seq<Registry>, attempts: seq<Attempt>, n: nat)
    requires IsRun(states, attempts) && n <= |attempts|
    requires forall i :: 0 <= i < n ==> Completes(states[i], attempts[i])
    ensures Agrees(states[n])
  {
    if n == 0 {
    } else {
      IndexAgrees(states, attempts, n - 1);
      CompletedKeepsAgreement(states[n - 1], attempts[n - 1]);
    }
  }

  // ---- The directories

  /** Every model of the index has its directory. */
  ghost predicate Housed(r: Registry) {
    forall x :: x in r.index.entries ==> x in r.dirs
  }

  /** A deletion dies after removing the directory and before the index forgets the model. */
  predicate Halved(r: Registry, a: Attempt) {
    a.op.Delete? && a.survived == 3 && |Writes(r, a.op)| == 4
  }

  lemma {:induction false} HousedKept(r: Registry, writes: seq<Write>)
    requires Housed(r)
    requires forall w :: w in writes ==> !w.RemoveDir? && (w.SaveEntry? ==> w.id in r.dirs)
    ensures Housed(ApplyAll(r, writes))
    decreases writes
  {
    if writes == [] {
    } else {
      assert writes[0] in writes;
      HousedKept(Apply(r, writes[0]), writes[1..]);
    }
  }

  lemma RegisterHoused(r: Registry, id: string, m: Metadata, suffix: string, j: nat)
    requires Housed(r) && j <= 4
    ensures Housed(ApplyAll(r, Writes(r, Register(id, m, suffix))[..j]))
  {
    var ws := Writes(r, Register(id, m, suffix));
    if j > 0 {
      assert ws[..j][1..] == ws[1..j] && ws[..j][0] == MakeDir(id);
      HousedKept(Apply(r, MakeDir(id)), ws[1..j]);
    }
  }

  lemma DeleteHoused(r: Registry, id: string, metadataFirst: bool, j: nat)
    requires Housed(r) && j <= |DeleteWrites(r, id, metadataFirst)|
    ensures Housed(ApplyAll(r, DeleteWrites(r, id, metadataFirst)[..j])) <==>
              !(j == 3 && |DeleteWrites(r, id, metadataFirst)| == 4)
  {
    var ws := DeleteWrites(r, id, metadataFirst);
    if j <= 2 {
      HousedKept(r, ws[..j]);
    } else {
      assert ws == [ws[0], ws[1], RemoveDir(id), SaveRemoval(id)];
      FourPrefixes(r, ws[0], ws[1], ws[2], ws[3]);
    }
  }

  /**
    An operation leaves some model of the index without its directory exactly
    when it is a deletion that dies in between.
  */
  lemma StaysHousedExactly(r: Registry, a: Attempt)
    requires Housed(r)
    ensures Housed(After(r, a.op, a.survived)) <==> !Halved(r, a)
  {
    var ws := Writes(r, a.op);
    var j := Min(a.survived, |ws|);
    match a.op
    case Register(id, m, suffix) => RegisterHoused(r, id, m, suffix, j);
    case Delete(id, metadataFirst) => DeleteHoused(r, id, metadataFirst, j);
    case Update(id, m) => HousedKept(r, ws[..j]);
    case Archive(id) => HousedKept(r, ws[..j]);
    case Promote(id, now) => PromoteHoused(r, id, now, j);
  }

  lemma ArchivingHoused(r: Registry, id: string, j: nat)
    requires Housed(r) && j <= |ArchiveOldWrites(r, id)|
    ensures Housed(ApplyAll(r, ArchiveOldWrites(r, id)[..j]))
  {
    HousedKept(r, ArchiveOldWrites(r, id)[..j]);
  }

  lemma CrowningHoused(r: Registry, id: string, now: string, j: nat)
    requires Housed(r) && id in r.index.entries && j <= |CrownWrites(r, id, now)|
    ensures Housed(ApplyAll(r, CrownWrites(r, id, now)[..j]))
  {
    HousedKept(r, CrownWrites(r, id, now)[..j]);
  }

  lemma PromoteHoused(r: Registry, id: string, now: string, j: nat)
    requires Housed(r) && j <= |PromoteWrites(r, id, now)|
    ensures Housed(ApplyAll(r, PromoteWrites(r, id, now)[..j]))
  {
    if id !in r.index.entries {
      HousedKept(r, []);
    } else {
      var first, second := PromotePrefix(r, id, now, j);
      ArchivingHoused(r, id, Min(j, |first|));
      if j > |first| {
        assert first[..|first|] == first;
        ArchiveShape(r, id);
        AddingGrows(r, first);
        CrowningHoused(ApplyAll(r, first), id, now, j - |first|);
      }
    }
  }

  /** So in a run without such a deletion no update of a known model raises, wherever operations died. */
  lemma {:induction false} UpdatesNeverRaise(states: seq<Registry>, attempts: seq<Attempt>, n: nat)
    requires IsRun(states, attempts) && n <= |attempts|
    requires forall i :: 0 <= i < n ==> !Halved(states[i], attempts[i])
    ensures Housed(states[n])
  {
    if n == 0 {
    } else {
      UpdatesNeverRaise(states, attempts, n - 1);
      StaysHousedExactly(states[n - 1], attempts[n - 1]);
    }
  }

  // ---- The metadata and the model files

  /** Every model of the index has its metadata. */
  ghost predicate Filed(r: Registry) {
    r.index.entries.Keys <= r.files.Keys
  }

  /** Every model of the index has its model file. */
  ghost predicate Stocked(r: Registry) {
    r.index.entries.Keys <= r.models
  }

  /** A deletion dies after removing the metadata and before the index forgets the model. */
  predicate LosesMetadata(r: Registry, op: Operation, j: nat) {
    op.Delete? && |Writes(r, op)| == 4 && (if op.metadataFirst then 1 else 2) <= j < 4
  }

  /** The same of the model file; or a registration completes that has copied none, its file having no suffix. */
  predicate LosesModel(r: Registry, op: Operation, j: nat) {
    || (op.Delete? && |Writes(r, op)| == 4 && (if op.metadataFirst then 2 else 1) <= j < 4)
    || (op.Register? && op.suffix == "" && op.id !in r.models && j == 4)
  }

  lemma {:induction false} KnownKept(r: Registry, writes: seq<Write>)
    requires forall w :: w in writes ==>
      w.WriteMetadata? || w.SaveChampion? || (w.SaveEntry? && w.id in r.index.entries)
    ensures var after := ApplyAll(r, writes);
      after.index.entries.Keys == r.index.entries.Keys && r.files.Keys <= after.files.Keys && after.models == r.models
    decreases writes
  {
    if writes == [] {
    } else {
      assert writes[0] in writes;
      KnownKept(Apply(r, writes[0]), writes[1..]);
    }
  }

  lemma KnownWrites(r: Registry, op: Operation, j: nat)
    requires (op.Update? || op.Archive? || op.Promote?) && j <= |Writes(r, op)|
    ensures var after := ApplyAll(r, Writes(r, op)[..j]);
      after.index.entries.Keys == r.index.entries.Keys && r.files.Keys <= after.files.Keys && after.models == r.models
  {
    var ws := Writes(r, op);
    if op.Promote? && op.id in r.index.entries {
      var first, second := PromotePrefix(r, op.id, op.now, j);
      AddingGrows(r, first);
      ArchiveKnown(r, op.id);
      CrownKnown(ApplyAll(r, first), op.id, op.now);
      assert ws == first + second;
    }
    assert forall w :: w in ws[..j] ==> w in ws;
    KnownKept(r, ws[..j]);
  }

  lemma ArchiveKnown(r: Registry, id: string)
    ensures forall w :: w in ArchiveOldWrites(r, id) ==>
      w.WriteMetadata? || (w.SaveEntry? && w.id in r.index.entries)
    ensures ApplyAll(r, ArchiveOldWrites(r, id)).index.entries.Keys == r.index.entries.Keys
  {
    KnownKept(r, ArchiveOldWrites(r, id));
  }

  lemma CrownKnown(r: Registry, id: string, now: string)
    requires id in r.index.entries
    ensures forall w :: w in CrownWrites(r, id, now) ==>
      w.WriteMetadata? || w.SaveChampion? || (w.SaveEntry? && w.id == id)
  {
  }

  lemma TreeAtWrite(r: Registry, id: string, metadataFirst: bool, j: nat)
    requires j <= 4 == |DeleteWrites(r, id, metadataFirst)|
    ensures var after := ApplyAll(r, DeleteWrites(r, id, metadataFirst)[..j]);
      && id in r.index.entries
      && after.index.entries == (if j == 4 then r.index.entries - {id} else r.index.entries)
      && after.files == (if j >= (if metadataFirst then 1 else 2) then r.files - {id} else r.files)
      && after.models == (if j >= (if metadataFirst then 2 else 1) then r.models - {id} else r.models)
  {
    if metadataFirst {
      FourPrefixes(r, RemoveMetadata(id), RemoveModel(id), RemoveDir(id), SaveRemoval(id));
    } else {
      FourPrefixes(r, RemoveModel(id), RemoveMetadata(id), RemoveDir(id), SaveRemoval(id));
    }
    assert j == 0 || j == 1 || j == 2 || j == 3 || j == 4;
  }

  lemma DeletionAtWrite(r: Registry, id: string, metadataFirst: bool, j: nat)
    requires |DeleteWrites(r, id, metadataFirst)| != 4 && j <= |DeleteWrites(r, id, metadataFirst)|
    ensures var after := ApplyAll(r, DeleteWrites(r, id, metadataFirst)[..j]);
      && after.files == r.files && after.models == r.models
      && after.index.entries == (if j == 1 then r.index.entries - {id} else r.index.entries)
  {
    var ws := DeleteWrites(r, id, metadataFirst);
    if j == 1 {
      assert ws[..1] == ws;
      ApplyOne(r, ws[0]);
    } else {
      assert ws[..0] == [];
    }
  }

  lemma RegistrationAtWrite(r: Registry, id: string, m: Metadata, suffix: string, j: nat)
    requires j <= 4
    ensures var after := ApplyAll(r, Writes(r, Register(id, m, suffix))[..j]);
      && after.models == (if j >= 2 && suffix != "" then r.models + {id} else r.models)
      && after.files.Keys == (if j >= 3 then r.files.Keys + {id} else r.files.Keys)
      && after.index.entries.Keys == (if j == 4 then r.index.entries.Keys + {id} else r.index.entries.Keys)
  {
    FourPrefixes(r, MakeDir(id), CopyModel(id, suffix), WriteMetadata(id, m), SaveEntry(id, Entry(m.status, None)));
    assert j == 0 || j == 1 || j == 2 || j == 3 || j == 4;
  }

  /**
    At every write of every operation: the models of the index keep their metadata
    and their model files except exactly while a deletion is torn, or when a
    registration had no model file to copy under a name that is found.
  */
  lemma StaysWholeExactly(r: Registry, op: Operation, j: nat)
    requires j <= |Writes(r, op)|
    ensures Filed(r) ==> (Filed(ApplyAll(r, Writes(r, op)[..j])) <==> !LosesMetadata(r, op, j))
    ensures Stocked(r) ==> (Stocked(ApplyAll(r, Writes(r, op)[..j])) <==> !LosesModel(r, op, j))
  {
    match op
    case Register(id, m, suffix) => RegistrationAtWrite(r, id, m, suffix, j);
    case Delete(id, metadataFirst) =>
      if |DeleteWrites(r, id, metadataFirst)| == 4 {
        TreeAtWrite(r, id, metadataFirst, j);
      } else {
        DeletionAtWrite(r, id, metadataFirst, j);
      }
    case _ => KnownWrites(r, op, j);
  }

  /** A promotion stopped after some writes, by its two halves. */
  lemma PromoteSplits(r: Registry, id: string, now: string, left: nat)
    requires id in r.index.entries
    ensures var first := ArchiveOldWrites(r, id);
      var r1 := ApplyAll(r, first);
      var second := CrownWrites(r1, id, now);
      && |Writes(r, Promote(id, now))| == |first| + |second|
      && After(r, Promote(id, now), left) ==
           (if left < |first| then ApplyAll(r, first[..left])
            else ApplyAll(r1, second[..Min(left - |first|, |second|)]))
      && id in r1.index.entries && r1.files.Keys == r.files.Keys && first[..|first|] == first
  {
    var first, second := PromotePrefix(r, id, now, Min(left, |PromoteWrites(r, id, now)|));
    ArchiveShape(r, id);
    AddingGrows(r, first);
    ArchiveOldFiles(r, id);
  }

  /** Archiving the old champion adds no metadata file and removes none. */
  lemma ArchiveOldFiles(r: Registry, id: string)
    ensures ApplyAll(r, ArchiveOldWrites(r, id)).files.Keys == r.files.Keys
  {
    var previous := r.index.champion;
    if previous.Some? && previous.value in r.files && previous.value in r.index.entries {
      var m := r.files[previous.value].(status := Archived, replacedBy := Some(id));
      var e := EntryAfter(r.index.entries[previous.value], m);
      ApplyTwo(r, WriteMetadata(previous.value, m), SaveEntry(previous.value, e));
    }
  }
}

/** The registry, rewriting its index and files in place. */
module ModelRegistries {
  import opened Basics
  import opened RegistryWrites
  import opened RegistryTheorems

  /** A call that died reported nothing; one that raised has told its caller so. */
  datatype Outcome = Returned(ok: bool) | Raised | Died

  class ModelRegistry {
    /** The index in memory, and the index file. */
    var index: Index
    var saved: Index
    var files: map<string, Metadata>
    var models: set<string>
    var dirs: set<string>
    /** The writes that the process survives; at the next one it dies and starts again from the index file. */
    var left: nat

    function View(): Registry
      reads this
    {
      Registry(saved, files, models, dirs)
    }

    predicate Valid()
      reads this
    {
      index == saved
    }

    constructor (left: nat)
      ensures Valid() && View() == EMPTY && this.left == left
    {
      index, saved := EMPTY.index, EMPTY.index;
      files, models, dirs := map[], {}, {};
      this.left := left;
    }

    method LoadIndex()
      modifies this`index
      ensures index == saved
    {
      index := saved;
    }

    method SaveIndex() returns (alive: bool)
      modifies this`index, this`saved, this`left
      ensures alive <==> old(left) > 0
      ensures Valid() && saved == (if alive then old(index) else old(saved))
      ensures left == if alive then old(left) - 1 else 0
    {
      if left == 0 {
        LoadIndex();
        return false;
      }
      left := left - 1;
      saved := index;
      return true;
    }

    /** One write below the model directories, of any kind but the index. */
    method Touch(w: Write) returns (alive: bool)
      requires !w.SaveEntry? && !w.SaveChampion? && !w.SaveRemoval?
      modifies this`index, this`files, this`models, this`dirs, this`left
      ensures alive <==> old(left) > 0
      ensures View() == if alive then Apply(old(View()), w) else old(View())
      ensures index == if alive then old(index) else saved
      ensures left == if alive then old(left) - 1 else 0
    {
      if left == 0 {
        LoadIndex();
        return false;
      }
      left := left - 1;
      match w {
        case MakeDir(id) => dirs := dirs + {id};
        case CopyModel(id, suffix) =>
          if suffix != "" {
            models := models + {id};
          }
        case WriteMetadata(id, m) => files := files[id := m];
        case RemoveModel(id) => models := models - {id};
        case RemoveMetadata(id) => files := files - {id};
        case RemoveDir(id) => dirs := dirs - {id};
      }
      return true;
    }

    /** Nothing is written for an unknown model, nor when its directory is gone, where opening the file raises. */
    method UpdateMetadata(id: string, m: Metadata) returns (outcome: Outcome)
      requires Valid()
      modifies this
      ensures Valid() && View() == After(old(View()), Update(id, m), old(left))
      ensures var ws := UpdateWrites(old(View()), id, m);
        && outcome == old(if id !in saved.entries then Returned(false) else if !HasDir(View(), id) then Raised
                          else if left >= 2 then Returned(true) else Died)
        && left == if outcome == Died then 0 else old(left) - |ws|
    {
      if id !in index.entries {
        return Returned(false);
      }
      if id !in dirs && id !in files && id !in models {
        return Raised;
      }
      ghost var r := View();
      ghost var v, w := WriteMetadata(id, m), SaveEntry(id, EntryAfter(r.index.entries[id], m));
      assert UpdateWrites(r, id, m) == [v, w];
      assert [v, w][..1] == [v] && [v, w][..2] == [v, w] && [v, w][..0] == [];
      ApplyOne(r, v);
      ApplyTwo(r, v, w);
      var alive := Touch(WriteMetadata(id, m));
      if !alive {
        return Died;
      }
      index := index.(entries := index.entries[id := EntryAfter(index.entries[id], m)]);
      alive := SaveIndex();
      return if alive then Returned(true) else Died;
    }

    method RegisterModel(id: string, m: Metadata, suffix: string) returns (outcome: Outcome)
      requires Valid()
      modifies this
      ensures Valid() && View() == After(old(View()), Register(id, m, suffix), old(left))
      ensures outcome == if old(left) >= 4 then Returned(true) else Died
    {
      ghost var r := View();
      ghost var t, u, v, w :=
        MakeDir(id), CopyModel(id, suffix), WriteMetadata(id, m), SaveEntry(id, Entry(m.status, None));
      FourPrefixes(r, t, u, v, w);
      var alive := Touch(MakeDir(id));
      if alive {
        alive := Touch(CopyModel(id, suffix));
      }
      if alive {
        alive := Touch(WriteMetadata(id, m));
      }
      if alive {
        index := index.(entries := index.entries[id := Entry(m.status, None)]);
        alive := SaveIndex();
      }
      return if alive then Returned(true) else Died;
    }

    method PromoteToChampion(id: string, now: string) returns (outcome: Outcome)
      requires Valid()
      modifies this
      ensures Valid() && View() == After(old(View()), Promote(id, now), old(left))
      ensures outcome == old(if left < |Writes(View(), Promote(id, now))| then Died
                             else Returned(id in View().index.entries && id in View().files))
      ensures outcome == Returned(true) ==> index.champion == Some(id)
    {
      if id !in index.entries {
        return Returned(false);
      }
      ghost var r := View();
      PromoteSplits(r, id, now, left);
      outcome := ArchiveOld(id);
      if outcome == Died {
        return;
      }
      assert View() == ApplyAll(r, ArchiveOldWrites(r, id));
      outcome := Crown(id, now);
    }

    /** The first half: the old champion's metadata, when it has any, say that it is archived. */
    method ArchiveOld(id: string) returns (outcome: Outcome)
      requires Valid()
      modifies this
      ensures Valid()
      ensures var first := ArchiveOldWrites(old(View()), id);
        && View() == ApplyAll(old(View()), first[..Min(old(left), |first|)])
        && (outcome == Died <==> old(left) < |first|)
        && left == if outcome == Died then 0 else old(left) - |first|
    {
      outcome := Returned(true);
      var previous := index.champion;
      if previous.Some? && previous.value in files {
        outcome :=
          UpdateMetadata(previous.value, files[previous.value].(status := Archived, replacedBy := Some(id)));
      }
    }

    /** The second half of a promotion, once the old champion is archived. */
    method Crown(id: string, now: string) returns (outcome: Outcome)
      requires Valid() && id in index.entries
      modifies this
      ensures Valid()
      ensures var ws := CrownWrites(old(View()), id, now);
        && View() == ApplyAll(old(View()), ws[..Min(old(left), |ws|)])
        && outcome == (if old(left) < |ws| then Died else Returned(old(id in files)))
        && (outcome == Returned(true) ==> index.champion == Some(id))
    {
      if id !in files {
        return Returned(false);
      }
      ghost var r1 := View();
      var m := files[id].(status := Champion, deployedAt := Some(now));
      ghost var ws := UpdateWrites(r1, id, m);
      ApplyPrefix(r1, ws + [SaveChampion(id)], ws, [SaveChampion(id)], Min(left, 3));
      assert ws[..|ws|] == ws && [SaveChampion(id)][..1] == [SaveChampion(id)];
      assert (ws + [SaveChampion(id)])[..2] == ws;
      outcome := UpdateMetadata(id, m);
      if outcome == Died {
        return;
      }
      ApplyOne(View(), SaveChampion(id));
      index := index.(champion := Some(id));
      var alive := SaveIndex();
      return if alive then Returned(true) else Died;
    }

    method ArchiveModel(id: string) returns (outcome: Outcome)
      requires Valid()
      modifies this
      ensures Valid() && View() == After(old(View()), Archive(id), old(left))
      ensures outcome == old(if left < |Writes(View(), Archive(id))| then Died
                             else Returned(id in View().files && id in View().index.entries))
    {
      if id !in files {
        return Returned(false);
      }
      outcome := UpdateMetadata(id, files[id].(status := Archived));
    }

    /** The champion is never deleted. */
    method DeleteModel(id: string, metadataFirst: bool) returns (outcome: Outcome)
      requires Valid()
      modifies this
      ensures Valid() && View() == After(old(View()), Delete(id, metadataFirst), old(left))
      ensures outcome == old(if left < |Writes(View(), Delete(id, metadataFirst))| then Died
                             else Returned(id in View().index.entries && View().index.champion != Some(id)))
    {
      if id !in index.entries {
        return Returned(false);
      }
      if index.champion == Some(id) {
        return Returned(false);
      }
      ghost var r := View();
      var alive := true;
      if id in dirs || id in files || id in models {
        alive := RemoveTree(id, metadataFirst);
        ghost var ws := DeleteWrites(r, id, metadataFirst);
        assert |ws| == 4 && ws[..4] == ws;
      } else {
        ApplyOne(r, SaveRemoval(id));
        assert [SaveRemoval(id)][..1] == [SaveRemoval(id)] && [SaveRemoval(id)][..0] == [];
      }
      if !alive {
        return Died;
      }
      index := index.(entries := index.entries - {id});
      alive := SaveIndex();
      return if alive then Returned(true) else Died;
    }

    /** The directory goes last, its files in either order. */
    method RemoveTree(id: string, metadataFirst: bool) returns (alive: bool)
      requires Valid() && id in index.entries && index.champion != Some(id) && HasDir(View(), id)
      modifies this`index, this`files, this`models, this`dirs, this`left
      ensures Valid()
      ensures alive <==> old(left) >= 3
      ensures View() == ApplyAll(old(View()), DeleteWrites(old(View()), id, metadataFirst)[..Min(old(left), 3)])
      ensures left == if alive then old(left) - 3 else 0
      ensures var r := old(View());
        ApplyAll(r, DeleteWrites(r, id, metadataFirst)) ==
        Apply(ApplyAll(r, DeleteWrites(r, id, metadataFirst)[..3]), SaveRemoval(id))
    {
      ghost var r := View();
      ghost var u, v := if metadataFirst then RemoveMetadata(id) else RemoveModel(id),
                        if metadataFirst then RemoveModel(id) else RemoveMetadata(id);
      assert DeleteWrites(r, id, metadataFirst) == [u, v, RemoveDir(id), SaveRemoval(id)];
      FourPrefixes(r, u, v, RemoveDir(id), SaveRemoval(id));
      if metadataFirst {
        alive := Touch(RemoveMetadata(id));
        if alive {
          alive := Touch(RemoveModel(id));
        }
      } else {
        alive := Touch(RemoveModel(id));
        if alive {
          alive := Touch(RemoveMetadata(id));
        }
      }
      if alive {
        alive := Touch(RemoveDir(id));
      }
    }

    method GetModelPath(id: string) returns (found: bool)
      requires Valid()
      ensures found == HasModelPath(View(), id)
      ensures found <==> id in saved.entries && id in models
    {
      if id !in index.entries {
        return false;
      }
      return id in models;
    }

    method FindChampion() returns (champion: Option<string>)
      requires Valid()
      ensures champion == GetChampion(View())
      ensures champion.Some? <==>
        saved.champion.Some? && saved.champion.value in saved.entries && saved.champion.value in models
      ensures champion.Some? ==> champion == saved.champion
    {
      if index.champion.None? {
        return None;
      }
      var found := GetModelPath(index.champion.value);
      return if found then index.champion else None;
    }
  }
}
