/**
  The two calls-per-minute counters on one log of calls.  Times are counted in
  nanoseconds, the resolution of the in-memory counter; the cache's counter only
  sees whole seconds.
*/
module CallRates {
  import opened Basics

  const SECOND: int := 1_000_000_000
  const MINUTE: int := 60 * SECOND

  datatype Event =
    | Record(a: string, b: string, at: int)
    | Cleanup(at: int)

  ghost predicate OnClock(log: seq<Event>) {
    forall i, j :: 0 <= i < j < |log| ==> log[i].at <= log[j].at
  }

  /** The event is a call of `a` after `cutoff`. */
  predicate CallsIn(e: Event, a: string, cutoff: int) {
    e.Record? && e.a == a && e.at > cutoff
  }

  /** The logged calls of `a` after `cutoff`. */
  function CallsAfter(log: seq<Event>, n: nat, a: string, cutoff: int): set<nat>
    requires n <= |log|
  {
    set k: nat | k < n && CallsIn(log[k], a, cutoff)
  }

  // ---------- the in-memory window ----------

  datatype Memory = Memory(timestamps: map<string, seq<int>>, destinations: map<string, set<string>>)

  function Retain(s: seq<int>, cutoff: int): seq<int> {
    if s == [] then [] else
      var init, last := Retain(s[..|s| - 1], cutoff), s[|s| - 1];
      if last > cutoff then init + [last] else init
  }

  function Timestamps(m: Memory, a: string): seq<int> {
    if a in m.timestamps then m.timestamps[a] else []
  }

  function Destinations(m: Memory, a: string): set<string> {
    if a in m.destinations then m.destinations[a] else {}
  }

  function Recorded(m: Memory, a: string, b: string, now: int): Memory {
    Memory(m.timestamps[a := Retain(Timestamps(m, a), now - MINUTE) + [now]],
           m.destinations[a := Destinations(m, a) + {b}])
  }

  function Cleaned(m: Memory, size: int, now: int): Memory {
    m.(timestamps := map a | a in m.timestamps && Retain(m.timestamps[a], now - size) != [] ::
         Retain(m.timestamps[a], now - size))
  }

  /** What `record_call` returns: the length, cast to 32 bits. */
  function Cpm(m: Memory, a: string): nat {
    |Timestamps(m, a)| % 0x1_0000_0000
  }

  function Happened(size: int, m: Memory, e: Event): Memory {
    match e
    case Record(a, b, at) => Recorded(m, a, b, at)
    case Cleanup(at) => Cleaned(m, size, at)
  }

  function MemoryAt(size: int, log: seq<Event>, n: nat): Memory
    requires n <= |log|
  {
    if n == 0 then Memory(map[], map[]) else Happened(size, MemoryAt(size, log, n - 1), log[n - 1])
  }

  // ---------- the cache's sorted set ----------

  /** A sorted set whose members are their own scores, with the key's time to live. */
  datatype ScoreSet = ScoreSet(seconds: set<int>, deadline: int)

  function Sec(at: int): int {
    at / SECOND
  }

  function AliveSeconds(z: Option<ScoreSet>, now: int): set<int> {
    if z.Some? && now < z.value.deadline then z.value.seconds else {}
  }

  /** ZADD, ZREMRANGEBYSCORE up to the cutoff, EXPIRE. */
  function Scored(z: Option<ScoreSet>, now: int): ScoreSet {
    var added := AliveSeconds(z, now) + {Sec(now)};
    ScoreSet((set s | s in added && s > Sec(now) - 60), now + 300 * SECOND)
  }

  /** ZCOUNT from the cutoff on. */
  function CountFrom(z: ScoreSet, cutoff: int): nat {
    |set s | s in z.seconds && s >= cutoff|
  }

  function ScoresAt(log: seq<Event>, n: nat, a: string): Option<ScoreSet>
    requires n <= |log|
  {
    if n == 0 then None
    else if log[n - 1].Record? && log[n - 1].a == a then Some(Scored(ScoresAt(log, n - 1, a), log[n - 1].at))
    else ScoresAt(log, n - 1, a)
  }

  /** The seconds after `cutoff` that hold a logged call of `a`. */
  function SecondsAfter(log: seq<Event>, n: nat, a: string, cutoff: int): set<int>
    requires n <= |log|
  {
    set k | 0 <= k < n && log[k].Record? && log[k].a == a && Sec(log[k].at) > cutoff :: Sec(log[k].at)
  }
}

module CallRateTheorems {
  import opened Basics
  import opened CallRates

  lemma {:induction false} RetainTwice(s: seq<int>, c: int, d: int)
    requires c <= d
    ensures Retain(Retain(s, c), d) == Retain(s, d)
  {
    if s == [] {
    } else {
      var init, last := s[..|s| - 1], s[|s| - 1];
      RetainTwice(init, c, d);
      RetainAppend(Retain(init, c), last, d);
    }
  }

  lemma RetainAppend(s: seq<int>, x: int, d: int)
    ensures Retain(s + [x], d) == Retain(s, d) + (if x > d then [x] else [])
  {
    assert (s + [x])[..|s|] == s;
  }

  lemma RecordedTimestamps(m: Memory, a': string, b: string, at: int, a: string, cutoff: int)
    requires cutoff >= at - MINUTE
    ensures Retain(Timestamps(Recorded(m, a', b, at), a), cutoff) ==
      Retain(Timestamps(m, a), cutoff) + (if a' == a && at > cutoff then [at] else [])
  {
    if a' == a {
      RetainAppend(Retain(Timestamps(m, a), at - MINUTE), at, cutoff);
      RetainTwice(Timestamps(m, a), at - MINUTE, cutoff);
    }
  }

  lemma RetainedStep(size: int, m: Memory, e: Event, a: string, cutoff: int)
    requires size >= MINUTE && cutoff >= e.at - MINUTE
    ensures |Retain(Timestamps(Happened(size, m, e), a), cutoff)|
         == |Retain(Timestamps(m, a), cutoff)| + if CallsIn(e, a, cutoff) then 1 else 0
  {
    match e
    case Record(a', b, at) => RecordedTimestamps(m, a', b, at, a, cutoff);
    case Cleanup(at) =>
      CleanedTimestamps(m, size, at, a);
      RetainTwice(Timestamps(m, a), at - size, cutoff);
  }

  /** The timestamps kept after `cutoff`. */
  function Kept(size: int, log: seq<Event>, n: nat, a: string, cutoff: int): nat
    requires n <= |log|
  {
    |Retain(Timestamps(MemoryAt(size, log, n), a), cutoff)|
  }

  lemma KeptStep(size: int, log: seq<Event>, k: nat, a: string, cutoff: int)
    requires size >= MINUTE && k < |log| && cutoff >= log[k].at - MINUTE
    ensures Kept(size, log, k + 1, a, cutoff)
         == Kept(size, log, k, a, cutoff) + if CallsIn(log[k], a, cutoff) then 1 else 0
  {
    RetainedStep(size, MemoryAt(size, log, k), log[k], a, cutoff);
  }

  lemma CallsAfterStep(log: seq<Event>, n: nat, a: string, cutoff: int)
    requires 0 < n <= |log|
    ensures CallsAfter(log, n, a, cutoff) ==
      CallsAfter(log, n - 1, a, cutoff) + if CallsIn(log[n - 1], a, cutoff) then {n - 1} else {}
    ensures n - 1 !in CallsAfter(log, n - 1, a, cutoff)
  {
  }

  /** Whatever cleanups removed was already too old to count. */
  lemma {:induction false} TimestampsCountCalls(size: int, log: seq<Event>, n: nat, a: string, cutoff: int)
    requires size >= MINUTE && OnClock(log) && n <= |log|
    requires n > 0 ==> cutoff >= log[n - 1].at - MINUTE
    ensures Kept(size, log, n, a, cutoff) == |CallsAfter(log, n, a, cutoff)|
  {
    if n == 0 {
    } else {
      TimestampsCountCalls(size, log, n - 1, a, cutoff);
      KeptStep(size, log, n - 1, a, cutoff);
      CallsAfterStep(log, n, a, cutoff);
    }
  }

  lemma CleanedTimestamps(m: Memory, size: int, now: int, a: string)
    ensures Timestamps(Cleaned(m, size, now), a) == Retain(Timestamps(m, a), now - size)
  {
  }

  /** The count a `record_call` returns is the caller's logged calls of the last minute, itself included. */
  ghost predicate CountsLastMinute(size: int, log: seq<Event>, k: nat)
    requires k < |log| && log[k].Record?
  {
    |Timestamps(MemoryAt(size, log, k + 1), log[k].a)| == |CallsAfter(log, k + 1, log[k].a, log[k].at - MINUTE)|
  }

  lemma CleanupIsInvisible(size: int, log: seq<Event>, k: nat)
    requires size >= MINUTE && OnClock(log) && k < |log| && log[k].Record?
    ensures CountsLastMinute(size, log, k)
  {
    var a, at := log[k].a, log[k].at;
    var before := Timestamps(MemoryAt(size, log, k), a);
    TimestampsCountCalls(size, log, k + 1, a, at - MINUTE);
    RetainAppend(Retain(before, at - MINUTE), at, at - MINUTE);
    RetainTwice(before, at - MINUTE, at - MINUTE);
  }

  /** A shorter window lets a cleanup forget a call of the last minute. */
  lemma ShortWindowMiscounts(size: int, a: string, b: string)
    requires 0 <= size < MINUTE
    ensures var log := [Record(a, b, 0), Cleanup(size), Record(a, b, size)];
      OnClock(log) && !CountsLastMinute(size, log, 2)
  {
    var log := [Record(a, b, 0), Cleanup(size), Record(a, b, size)];
    var m1 := MemoryAt(size, log, 1);
    assert MemoryAt(size, log, 0) == Memory(map[], map[]);
    assert m1 == Recorded(MemoryAt(size, log, 0), a, b, 0);
    assert Timestamps(m1, a) == [0];
    CleanedTimestamps(m1, size, size, a);
    assert Timestamps(MemoryAt(size, log, 2), a) == [];
    assert Timestamps(MemoryAt(size, log, 3), a) == [size];
    assert {0, 2} <= CallsAfter(log, 3, a, size - MINUTE);
    assert CallsAfter(log, 3, a, size - MINUTE) == {0, 2};
  }

  /** Cleanups are invisible in every run exactly when the window is at least a minute. */
  lemma CleanupIsInvisibleExactly(size: int)
    requires size >= 0
    ensures (forall log: seq<Event>, k: nat ::
               OnClock(log) && k < |log| && log[k].Record? ==> CountsLastMinute(size, log, k))
            <==> size >= MINUTE
  {
    if size >= MINUTE {
      forall log: seq<Event>, k: nat | OnClock(log) && k < |log| && log[k].Record?
        ensures CountsLastMinute(size, log, k)
      {
        CleanupIsInvisible(size, log, k);
      }
    } else {
      ShortWindowMiscounts(size, "", "");
    }
  }

  // ---------- what a window of any size keeps ----------

  /** Event `e` removes a timestamp of `a`: a call of the same caller after a minute, or a cleanup after the window. */
  predicate Drops(size: int, e: Event, a: string, at: int) {
    match e
    case Record(a', _, now) => a' == a && at <= now - MINUTE
    case Cleanup(now) => at <= now - size
  }

  /** The calls of `a` that no later event has dropped. */
  ghost function Survivors(size: int, log: seq<Event>, n: nat, a: string): set<nat>
    requires n <= |log|
  {
    set k: nat | k < n && log[k].Record? && log[k].a == a
                 && forall j :: k < j < n ==> !Drops(size, log[j], a, log[k].at)
  }

  ghost function SurvivorsAfter(size: int, log: seq<Event>, n: nat, a: string, cutoff: int): set<nat>
    requires n <= |log|
  {
    set k | k in Survivors(size, log, n, a) && log[k].at > cutoff
  }

  lemma {:induction false} RetainBoth(s: seq<int>, c: int, d: int)
    ensures Retain(Retain(s, c), d) == Retain(s, Max(c, d))
  {
    if s == [] {
    } else {
      var init, last := s[..|s| - 1], s[|s| - 1];
      RetainBoth(init, c, d);
      RetainAppend(Retain(init, c), last, d);
    }
  }

  /** Up to what age event `e` drops the timestamps of `a`. */
  function DropsUpTo(size: int, e: Event, a: string): Option<int> {
    match e
    case Record(a', _, now) => if a' == a then Some(now - MINUTE) else None
    case Cleanup(now) => Some(now - size)
  }

  lemma HappenedTimestamps(size: int, m: Memory, e: Event, a: string)
    ensures var up := DropsUpTo(size, e, a);
      Timestamps(Happened(size, m, e), a) ==
      (if up.Some? then Retain(Timestamps(m, a), up.value) else Timestamps(m, a))
        + (if e.Record? && e.a == a then [e.at] else [])
  {
  }

  lemma SurvivorsStep(size: int, log: seq<Event>, n: nat, a: string, cutoff: int)
    requires n < |log|
    ensures var up, own := DropsUpTo(size, log[n], a), log[n].Record? && log[n].a == a;
      && SurvivorsAfter(size, log, n + 1, a, cutoff) ==
         SurvivorsAfter(size, log, n, a, if up.Some? then Max(up.value, cutoff) else cutoff)
           + (if own && log[n].at > cutoff then {n} else {})
      && Survivors(size, log, n + 1, a) ==
         (if up.Some? then SurvivorsAfter(size, log, n, a, up.value) else Survivors(size, log, n, a))
           + (if own then {n} else {})
    ensures n !in Survivors(size, log, n, a)
  {
  }

  lemma RetainedNext(size: int, m: Memory, e: Event, a: string, cutoff: int)
    ensures var up := DropsUpTo(size, e, a);
      |Retain(Timestamps(Happened(size, m, e), a), cutoff)| ==
      |Retain(Timestamps(m, a), if up.Some? then Max(up.value, cutoff) else cutoff)|
        + (if e.Record? && e.a == a && e.at > cutoff then 1 else 0)
  {
    var up := DropsUpTo(size, e, a);
    var before := if up.Some? then Retain(Timestamps(m, a), up.value) else Timestamps(m, a);
    HappenedTimestamps(size, m, e, a);
    if up.Some? {
      RetainBoth(Timestamps(m, a), up.value, cutoff);
    }
    if e.Record? && e.a == a {
      RetainAppend(before, e.at, cutoff);
    } else {
      assert before + [] == before;
    }
  }

  function CutoffBefore(size: int, e: Event, a: string, cutoff: int): int {
    var up := DropsUpTo(size, e, a); if up.Some? then Max(up.value, cutoff) else cutoff
  }

  lemma KeptNext(size: int, log: seq<Event>, k: nat, a: string, cutoff: int)
    requires k < |log|
    ensures Kept(size, log, k + 1, a, cutoff) ==
      Kept(size, log, k, a, CutoffBefore(size, log[k], a, cutoff)) + (if CallsIn(log[k], a, cutoff) then 1 else 0)
  {
    RetainedNext(size, MemoryAt(size, log, k), log[k], a, cutoff);
  }

  lemma SurvivorsNext(size: int, log: seq<Event>, k: nat, a: string, cutoff: int)
    requires k < |log|
    ensures |SurvivorsAfter(size, log, k + 1, a, cutoff)| ==
      |SurvivorsAfter(size, log, k, a, CutoffBefore(size, log[k], a, cutoff))|
        + (if CallsIn(log[k], a, cutoff) then 1 else 0)
  {
    SurvivorsStep(size, log, k, a, cutoff);
  }

  lemma {:induction false} KeptAreSurvivors(size: int, log: seq<Event>, n: nat, a: string, cutoff: int)
    requires n <= |log|
    ensures Kept(size, log, n, a, cutoff) == |SurvivorsAfter(size, log, n, a, cutoff)|
  {
    if n == 0 {
    } else {
      KeptAreSurvivors(size, log, n - 1, a, CutoffBefore(size, log[n - 1], a, cutoff));
      KeptNext(size, log, n - 1, a, cutoff);
      SurvivorsNext(size, log, n - 1, a, cutoff);
    }
  }

  /** The timestamps kept for a caller are as many as its surviving calls. */
  ghost predicate KeepsSurvivors(size: int, log: seq<Event>, n: nat, a: string)
    requires n <= |log|
  {
    |Timestamps(MemoryAt(size, log, n), a)| == |Survivors(size, log, n, a)|
  }

  lemma KeepsSurvivorsNext(size: int, log: seq<Event>, k: nat, a: string)
    requires k < |log| && KeepsSurvivors(size, log, k, a)
    ensures KeepsSurvivors(size, log, k + 1, a)
  {
    var up := DropsUpTo(size, log[k], a);
    if up.Some? {
      KeptAreSurvivors(size, log, k, a, up.value);
    }
    HappenedTimestamps(size, MemoryAt(size, log, k), log[k], a);
    SurvivorsStep(size, log, k, a, 0);
  }

  /**
    For a window of any size, on any log: the timestamps kept for a caller are as
    many as its calls that no later call of its own and no cleanup has dropped.
  */
  lemma {:induction false} KeptExactly(size: int, log: seq<Event>, n: nat, a: string)
    requires n <= |log|
    ensures KeepsSurvivors(size, log, n, a)
  {
    if n == 0 {
    } else {
      KeptExactly(size, log, n - 1, a);
      KeepsSurvivorsNext(size, log, n - 1, a);
    }
  }

  lemma EntriesNext(size: int, m: Memory, e: Event, a: string)
    requires a in m.timestamps <==> Timestamps(m, a) != []
    ensures a in Happened(size, m, e).timestamps <==> Timestamps(Happened(size, m, e), a) != []
  {
  }

  /** And a caller without any has no entry. */
  lemma {:induction false} EntriesExactly(size: int, log: seq<Event>, n: nat, a: string)
    requires n <= |log|
    ensures a in MemoryAt(size, log, n).timestamps <==> Timestamps(MemoryAt(size, log, n), a) != []
  {
    if n == 0 {
    } else {
      EntriesExactly(size, log, n - 1, a);
      EntriesNext(size, MemoryAt(size, log, n - 1), log[n - 1], a);
    }
  }

  /** Destinations are never forgotten: the count is over the whole log, not the window. */
  lemma {:induction false} DestinationsAreAllEver(size: int, log: seq<Event>, n: nat, a: string)
    requires n <= |log|
    ensures Destinations(MemoryAt(size, log, n), a)
         == set k | 0 <= k < n && log[k].Record? && log[k].a == a :: log[k].b
  {
    if n == 0 {
    } else {
      DestinationsAreAllEver(size, log, n - 1, a);
    }
  }

  /** The destinations called after `cutoff`. */
  function DestinationsAfter(log: seq<Event>, n: nat, a: string, cutoff: int): set<string>
    requires n <= |log|
  {
    set k | 0 <= k < n && CallsIn(log[k], a, cutoff) :: log[k].b
  }

  ghost predicate CalledAgain(log: seq<Event>, n: nat, a: string, cutoff: int, b: string)
    requires n <= |log|
  {
    exists k :: 0 <= k < n && CallsIn(log[k], a, cutoff) && log[k].b == b
  }

  /** The count is that of a window exactly when every destination ever called has been called within it. */
  lemma DestinationsAreRecentExactly(size: int, log: seq<Event>, n: nat, a: string, cutoff: int)
    requires n <= |log|
    ensures var counted := Destinations(MemoryAt(size, log, n), a);
      && |DestinationsAfter(log, n, a, cutoff)| <= |counted|
      && (|counted| == |DestinationsAfter(log, n, a, cutoff)| <==>
            forall k :: 0 <= k < n && log[k].Record? && log[k].a == a ==> CalledAgain(log, n, a, cutoff, log[k].b))
  {
    var counted, recent := Destinations(MemoryAt(size, log, n), a), DestinationsAfter(log, n, a, cutoff);
    DestinationsAreAllEver(size, log, n, a);
    SubsetSize(recent, counted);
    forall k | 0 <= k < n && log[k].Record? && log[k].a == a
      ensures log[k].b in counted && (log[k].b in recent <==> CalledAgain(log, n, a, cutoff, log[k].b))
    {
    }
  }

  // ---------- the cache's counter ----------

  /** What the sorted set holds, its time to live aside, are the seconds that can still count. */
  ghost predicate ScoresAgree(log: seq<Event>, n: nat, a: string, z: Option<ScoreSet>, cutoff: int)
    requires n <= |log|
  {
    SecondsAfter(log, n, a, cutoff) == (if z.None? then {} else set s | s in z.value.seconds && s > cutoff)
    && (z.Some? ==> forall s :: s in z.value.seconds ==> s <= Sec(z.value.deadline) - 300)
  }

  lemma SecondsAfterStep(log: seq<Event>, n: nat, a: string, cutoff: int)
    requires 0 < n <= |log|
    ensures var e := log[n - 1];
      SecondsAfter(log, n, a, cutoff) == SecondsAfter(log, n - 1, a, cutoff)
        + (if e.Record? && e.a == a && Sec(e.at) > cutoff then {Sec(e.at)} else {})
  {
  }

  lemma ScoredStep(z: Option<ScoreSet>, now: int, cutoff: int)
    requires cutoff >= Sec(now) - 60
    requires z.Some? ==> forall s :: s in z.value.seconds ==> s <= Sec(z.value.deadline) - 300 && s <= Sec(now)
    ensures var held := if z.None? then {} else set s | s in z.value.seconds && s > cutoff;
      (set s | s in Scored(z, now).seconds && s > cutoff) == held + (if Sec(now) > cutoff then {Sec(now)} else {})
    ensures forall s :: s in Scored(z, now).seconds ==> s <= Sec(Scored(z, now).deadline) - 300
  {
    assert Sec(now + 300 * SECOND) == Sec(now) + 300;
    if z.Some? && now >= z.value.deadline {
      assert Sec(now) >= Sec(z.value.deadline);
    }
  }

  lemma {:induction false} ScoresFollowLog(log: seq<Event>, n: nat, a: string, cutoff: int)
    requires OnClock(log) && n <= |log|
    requires n > 0 ==> cutoff >= Sec(log[n - 1].at) - 60
    ensures ScoresAgree(log, n, a, ScoresAt(log, n, a), cutoff)
    ensures n > 0 && ScoresAt(log, n, a).Some? ==>
              forall s :: s in ScoresAt(log, n, a).value.seconds ==> s <= Sec(log[n - 1].at)
  {
    if n == 0 {
    } else {
      var at := log[n - 1].at;
      if n > 1 {
        SecIsMonotone(log[n - 2].at, at);
      }
      ScoresFollowLog(log, n - 1, a, cutoff);
      SecondsAfterStep(log, n, a, cutoff);
      if log[n - 1].Record? && log[n - 1].a == a {
        ScoredStep(ScoresAt(log, n - 1, a), at, cutoff);
      }
    }
  }

  lemma SecIsMonotone(x: int, y: int)
    requires x <= y
    ensures Sec(x) <= Sec(y)
  {
  }

  /**
    The cache's count is the number of distinct seconds of the last sixty that
    hold a call; the time to live never shows.
  */
  lemma ScoresCountSeconds(log: seq<Event>, k: nat)
    requires OnClock(log) && k < |log| && log[k].Record?
    ensures var cutoff := Sec(log[k].at) - 60;
      CountFrom(ScoresAt(log, k + 1, log[k].a).value, cutoff) == |SecondsAfter(log, k + 1, log[k].a, cutoff)| <= 60
  {
    var a, cutoff := log[k].a, Sec(log[k].at) - 60;
    ScoresFollowLog(log, k + 1, a, cutoff);
    var z := ScoresAt(log, k + 1, a).value;
    assert (set s | s in z.seconds && s >= cutoff) == (set s | s in z.seconds && s > cutoff);
    RangeCount(SecondsAfter(log, k + 1, a, cutoff), cutoff, 60);
  }

  lemma {:induction false} RangeCount(s: set<int>, low: int, width: nat)
    requires forall x :: x in s ==> low < x <= low + width
    ensures |s| <= width
  {
    if width == 0 {
      forall x ensures x !in s {
      }
      assert s == {};
    } else {
      RangeCount(s - {low + width}, low, width - 1);
    }
  }

  // ---------- the two counters compared ----------

  ghost predicate SeparateSeconds(log: seq<Event>, s: set<nat>)
    requires forall k :: k in s ==> k < |log|
  {
    forall i, j :: i in s && j in s && i != j ==> Sec(log[i].at) != Sec(log[j].at)
  }

  /** No call falls in the second `cutoff` or before. */
  ghost predicate LaterSeconds(log: seq<Event>, s: set<nat>, cutoff: int)
    requires forall k :: k in s ==> k < |log|
  {
    forall i :: i in s ==> Sec(log[i].at) > cutoff
  }

  lemma {:induction false} SecondsOfCalls(log: seq<Event>, s: set<nat>)
    requires forall k :: k in s ==> k < |log|
    ensures var seconds := set k | k in s :: Sec(log[k].at);
      |seconds| <= |s| && (|seconds| == |s| <==> SeparateSeconds(log, s))
    decreases s
  {
    if s == {} {
    } else {
      var x :| x in s;
      var rest := s - {x};
      SecondsOfCalls(log, rest);
      var seconds := set k | k in rest :: Sec(log[k].at);
      assert (set k | k in s :: Sec(log[k].at)) == seconds + {Sec(log[x].at)};
      if Sec(log[x].at) in seconds {
        var y :| y in rest && Sec(log[y].at) == Sec(log[x].at);
        assert !SeparateSeconds(log, s);
      } else {
        assert SeparateSeconds(log, s) <==> SeparateSeconds(log, rest);
      }
    }
  }

  lemma LaterSecondIsWithinMinute(x: int, now: int)
    requires Sec(x) > Sec(now) - 60
    ensures x > now - MINUTE
  {
  }

  /** The calls of the last minute whose second can still count. */
  ghost function Countable(log: seq<Event>, k: nat): set<nat>
    requires k < |log| && log[k].Record?
  {
    set i | i in CallsAfter(log, k + 1, log[k].a, log[k].at - MINUTE) && Sec(log[i].at) > Sec(log[k].at) - 60
  }

  lemma CountedSeconds(log: seq<Event>, k: nat)
    requires k < |log| && log[k].Record?
    ensures SecondsAfter(log, k + 1, log[k].a, Sec(log[k].at) - 60) == set i | i in Countable(log, k) :: Sec(log[i].at)
  {
    forall i | 0 <= i < k + 1 && Sec(log[i].at) > Sec(log[k].at) - 60 && log[i].Record? && log[i].a == log[k].a
      ensures i in Countable(log, k)
    {
      LaterSecondIsWithinMinute(log[i].at, log[k].at);
    }
  }

  /**
    On one log the cache never counts more than the in-memory window, and as much
    exactly when no two calls of the last minute share a second and none of them
    falls in the second that began sixty seconds before the present one.
  */
  lemma CacheCountsNoMore(log: seq<Event>, k: nat)
    requires k < |log| && log[k].Record?
    ensures var a, at := log[k].a, log[k].at;
      var seconds, calls := SecondsAfter(log, k + 1, a, Sec(at) - 60), CallsAfter(log, k + 1, a, at - MINUTE);
      && |seconds| <= |calls|
      && (|seconds| == |calls| <==>
            SeparateSeconds(log, calls) && LaterSeconds(log, calls, Sec(at) - 60))
  {
    var calls := CallsAfter(log, k + 1, log[k].a, log[k].at - MINUTE);
    CountedSeconds(log, k);
    SecondsOfCalls(log, Countable(log, k));
    SubsetSize(Countable(log, k), calls);
  }

  lemma MemoryReturns(size: int, log: seq<Event>, k: nat)
    requires size >= MINUTE && OnClock(log) && k < |log| && log[k].Record?
    ensures Cpm(MemoryAt(size, log, k + 1), log[k].a) ==
            |CallsAfter(log, k + 1, log[k].a, log[k].at - MINUTE)| % 0x1_0000_0000
  {
    CleanupIsInvisible(size, log, k);
  }

  lemma WrapCompares(calls: nat, cache: nat, same: bool)
    requires cache <= calls && (cache == calls <==> same)
    ensures calls < 0x1_0000_0000 ==>
      cache <= calls % 0x1_0000_0000 && (cache == calls % 0x1_0000_0000 <==> same)
  {
  }

  lemma CacheReturns(log: seq<Event>, k: nat)
    requires OnClock(log) && k < |log| && log[k].Record?
    ensures var a, at := log[k].a, log[k].at;
      var calls := CallsAfter(log, k + 1, a, at - MINUTE);
      var cache := CountFrom(ScoresAt(log, k + 1, a).value, Sec(at) - 60);
      && cache <= |calls|
      && (cache == |calls| <==> SeparateSeconds(log, calls) && LaterSeconds(log, calls, Sec(at) - 60))
  {
    ScoresCountSeconds(log, k);
    CacheCountsNoMore(log, k);
  }

  /**
    So for what the two `record_call`s return on one log: below 2^32 calls a
    minute the cache's answer is never above the memory's, and equals it under
    the same condition.
  */
  lemma CountersCompared(size: int, log: seq<Event>, k: nat)
    requires size >= MINUTE && OnClock(log) && k < |log| && log[k].Record?
    ensures var a, at := log[k].a, log[k].at;
      var calls := CallsAfter(log, k + 1, a, at - MINUTE);
      var memory := Cpm(MemoryAt(size, log, k + 1), a);
      var cache := CountFrom(ScoresAt(log, k + 1, a).value, Sec(at) - 60);
      && memory == |calls| % 0x1_0000_0000
      && (|calls| < 0x1_0000_0000 ==>
            && cache <= memory
            && (cache == memory <==>
                  SeparateSeconds(log, calls) && LaterSeconds(log, calls, Sec(at) - 60)))
  {
    var a, at := log[k].a, log[k].at;
    var calls := CallsAfter(log, k + 1, a, at - MINUTE);
    MemoryReturns(size, log, k);
    CacheReturns(log, k);
    WrapCompares(|calls|, CountFrom(ScoresAt(log, k + 1, a).value, Sec(at) - 60),
                 SeparateSeconds(log, calls) && LaterSeconds(log, calls, Sec(at) - 60));
  }

  /** However many calls share one second, the cache counts one. */
  lemma SameSecondCountsOnce(log: seq<Event>, k: nat)
    requires OnClock(log) && k < |log| && log[k].Record?
    requires forall i :: 0 <= i <= k && log[i].Record? && log[i].a == log[k].a ==> Sec(log[i].at) == Sec(log[k].at)
    ensures CountFrom(ScoresAt(log, k + 1, log[k].a).value, Sec(log[k].at) - 60) == 1
  {
    ScoresCountSeconds(log, k);
    assert SecondsAfter(log, k + 1, log[k].a, Sec(log[k].at) - 60) == {Sec(log[k].at)};
  }
}

/** The two counters, changing their maps in place. */
module RateCounters {
  import opened Basics
  import opened ExpiringSets
  import opened CallRates

  class SlidingWindow {
    var callTimestamps: map<string, seq<int>>
    var uniqueDestinations: map<string, set<string>>
    const windowSizeSecs: nat

    function View(): Memory
      reads this
    {
      Memory(callTimestamps, uniqueDestinations)
    }

    constructor (windowSizeSecs: nat)
      ensures View() == Memory(map[], map[]) && this.windowSizeSecs == windowSizeSecs
    {
      this.windowSizeSecs := windowSizeSecs;
      callTimestamps, uniqueDestinations := map[], map[];
    }

    method RecordCall(a: string, b: string, now: int) returns (cpm: nat)
      modifies this
      ensures View() == Recorded(old(View()), a, b, now)
      ensures cpm == Cpm(View(), a)
    {
      var cutoff := now - MINUTE;
      var entry := [];
      if a in callTimestamps {
        entry := callTimestamps[a];
      }
      entry := Retain(entry, cutoff) + [now];
      callTimestamps := callTimestamps[a := entry];
      cpm := |entry| % 0x1_0000_0000;
      var seen := {};
      if a in uniqueDestinations {
        seen := uniqueDestinations[a];
      }
      uniqueDestinations := uniqueDestinations[a := seen + {b}];
    }

    method GetUniqueDestinations(a: string) returns (n: nat)
      ensures n == |Destinations(View(), a)|
    {
      n := if a in uniqueDestinations then |uniqueDestinations[a]| else 0;
    }

    method CleanUp(now: int)
      modifies this
      ensures View() == Cleaned(old(View()), windowSizeSecs * SECOND, now)
    {
      var cutoff := now - windowSizeSecs * SECOND;
      callTimestamps := map a | a in callTimestamps && Retain(callTimestamps[a], cutoff) != [] ::
        Retain(callTimestamps[a], cutoff);
    }
  }

  /** The connection works, fails before the pipeline takes effect, or fails after it, in its answer or in the count. */
  datatype Link = Up | Down | LostAfterwards

  class CacheManager {
    var callScores: map<string, ScoreSet>
    var destinations: map<string, TtlSet<string>>

    function Scores(a: string): Option<ScoreSet>
      reads this
    {
      if a in callScores then Some(callScores[a]) else None
    }

    function Called(a: string): Option<TtlSet<string>>
      reads this
    {
      if a in destinations then Some(destinations[a]) else None
    }

    constructor ()
      ensures callScores == map[] && destinations == map[]
    {
      callScores, destinations := map[], map[];
    }

    /** An error reports no count; the pipeline may have taken effect all the same, but never in part. */
    method RecordCall(a: string, b: string, now: int, link: Link) returns (cpm: Option<nat>)
      modifies this
      ensures link == Down ==> callScores == old(callScores) && destinations == old(destinations)
      ensures link != Down ==> (Scores(a) == Some(Scored(old(Scores(a)), now))
                                && Called(a) == Some(AddTo(old(Called(a)), b, now, 300 * SECOND)))
      ensures link != Down ==> Scores(a).value.deadline == Called(a).value.deadline == now + 300 * SECOND
      ensures forall o :: o != a ==> Scores(o) == old(Scores(o)) && Called(o) == old(Called(o))
      ensures cpm.Some? <==> link == Up
      ensures cpm.Some? ==> Scores(a).Some? && cpm.value == CountFrom(Scores(a).value, Sec(now) - 60)
    {
      if link == Down {
        return None;
      }
      var second := Sec(now);
      var scores := if a in callScores && now < callScores[a].deadline then callScores[a].seconds else {};
      scores := scores + {second};
      var cutoff := second - 60;
      scores := set s | s in scores && s > cutoff;
      callScores := callScores[a := ScoreSet(scores, now + 300 * SECOND)];
      var called := if a in destinations && now < destinations[a].deadline then destinations[a].members else {};
      destinations := destinations[a := TtlSet(called + {b}, now + 300 * SECOND)];
      if link == LostAfterwards {
        return None;
      }
      return Some(|set s | s in scores && s >= cutoff|);
    }
  }
}
