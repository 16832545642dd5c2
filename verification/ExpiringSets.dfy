/**
  A set under a key whose time to live is renewed by every addition, as the
  SADD and EXPIRE pair of the caches does it.  It is absent from its deadline on.
  The set is not a sliding window: it holds a burst, the longest run of latest
  additions with no gap as long as the time to live.
*/
module ExpiringSets {
  import opened Basics

  datatype Add<T> = Add(item: T, at: int)

  datatype TtlSet<T(==)> = TtlSet(members: set<T>, deadline: int)

  function Live<T>(s: Option<TtlSet<T>>, now: int): set<T> {
    if s.Some? && now < s.value.deadline then s.value.members else {}
  }

  function AddTo<T>(s: Option<TtlSet<T>>, item: T, now: int, ttl: int): TtlSet<T> {
    TtlSet(Live(s, now) + {item}, now + ttl)
  }

  /** What is stored under the key after these additions. */
  function SetOf<T>(adds: seq<Add<T>>, ttl: int): Option<TtlSet<T>> {
    if adds == [] then None else
      var last := adds[|adds| - 1];
      Some(AddTo(SetOf(adds[..|adds| - 1], ttl), last.item, last.at, ttl))
  }

  lemma SetOfAppend<T>(adds: seq<Add<T>>, x: Add<T>, ttl: int)
    ensures SetOf(adds + [x], ttl) == Some(AddTo(SetOf(adds, ttl), x.item, x.at, ttl))
  {
    assert (adds + [x])[..|adds|] == adds;
  }

  ghost predicate Ordered<T>(adds: seq<Add<T>>) {
    forall i, j :: 0 <= i < j < |adds| ==> adds[i].at <= adds[j].at
  }

  function Gap<T>(adds: seq<Add<T>>, k: nat): int
    requires 0 < k < |adds|
  {
    adds[k].at - adds[k - 1].at
  }

  /** From position `j` on no gap reaches the time to live, and no longer suffix has this. */
  ghost predicate IsBurst<T>(adds: seq<Add<T>>, ttl: int, j: nat) {
    && j < |adds|
    && (forall k :: j < k < |adds| ==> Gap(adds, k) < ttl)
    && (j > 0 ==> Gap(adds, j) >= ttl)
  }

  function BurstStart<T>(adds: seq<Add<T>>, ttl: int): (j: nat)
    requires adds != []
    ensures IsBurst(adds, ttl, j)
  {
    var n := |adds| - 1;
    if n == 0 || Gap(adds, n) >= ttl then n else
      var j := BurstStart(adds[..n], ttl);
      assert forall k :: 0 < k < n ==> Gap(adds[..n], k) == Gap(adds, k);
      j
  }

  lemma BurstIsUnique<T>(adds: seq<Add<T>>, ttl: int, i: nat, j: nat)
    requires IsBurst(adds, ttl, i) && IsBurst(adds, ttl, j)
    ensures i == j
  {
  }

  function Items<T>(adds: seq<Add<T>>, j: nat): set<T> {
    set k | j <= k < |adds| :: adds[k].item
  }

  /** The items added less than `ttl` ago. */
  function Recent<T>(adds: seq<Add<T>>, ttl: int, now: int): set<T> {
    set k | 0 <= k < |adds| && now - adds[k].at < ttl :: adds[k].item
  }

  lemma {:induction false} BurstTheorem<T>(adds: seq<Add<T>>, ttl: int, j: nat)
    requires IsBurst(adds, ttl, j)
    ensures SetOf(adds, ttl) == Some(TtlSet(Items(adds, j), adds[|adds| - 1].at + ttl))
  {
    var n := |adds| - 1;
    var init := adds[..n];
    if j < n {
      forall k | 0 < k < n ensures Gap(init, k) == Gap(adds, k) {
      }
      BurstTheorem(init, ttl, j);
      assert Gap(adds, n) < ttl;
      assert Items(adds, j) == Items(init, j) + {adds[n].item};
    } else {
      if n > 0 {
        BurstTheorem(init, ttl, BurstStart(init, ttl));
        assert Gap(adds, n) >= ttl;
      }
      NewBurst(adds, ttl);
    }
  }

  /** An addition that finds the key absent starts over. */
  lemma NewBurst<T>(adds: seq<Add<T>>, ttl: int)
    requires adds != []
    requires var n := |adds| - 1; Live(SetOf(adds[..n], ttl), adds[n].at) == {}
    ensures SetOf(adds, ttl) == Some(TtlSet(Items(adds, |adds| - 1), adds[|adds| - 1].at + ttl))
  {
    var n := |adds| - 1;
    assert Items(adds, n) == {adds[n].item};
    assert AddTo(SetOf(adds[..n], ttl), adds[n].item, adds[n].at, ttl).members == {adds[n].item};
  }

  /** No addition of the last `ttl` is missed. */
  lemma WindowIsHeld<T>(adds: seq<Add<T>>, ttl: int, now: int)
    requires Ordered(adds) && (adds != [] ==> adds[|adds| - 1].at <= now)
    ensures Recent(adds, ttl, now) <= Live(SetOf(adds, ttl), now)
  {
    if adds != [] {
      var j := BurstStart(adds, ttl);
      BurstTheorem(adds, ttl, j);
      forall k | 0 <= k < j ensures now - adds[k].at >= ttl {
        assert adds[k].at <= adds[j - 1].at <= adds[j].at - ttl;
        assert adds[j].at <= adds[|adds| - 1].at;
      }
      forall k | 0 <= k < |adds| && now - adds[k].at < ttl ensures adds[k].item in Live(SetOf(adds, ttl), now) {
        assert adds[k].item in Items(adds, j);
        assert adds[k].at <= adds[|adds| - 1].at;
      }
    }
  }

  /** The stored set is the true window whenever the whole burst is younger than `ttl`, and whenever it is empty. */
  lemma WindowIsExact<T>(adds: seq<Add<T>>, ttl: int, now: int)
    requires Ordered(adds) && adds != [] && adds[|adds| - 1].at <= now
    requires now - adds[BurstStart(adds, ttl)].at < ttl || now - adds[|adds| - 1].at >= ttl
    ensures Live(SetOf(adds, ttl), now) == Recent(adds, ttl, now)
  {
    WindowIsHeld(adds, ttl, now);
    BurstTheorem(adds, ttl, BurstStart(adds, ttl));
  }

  /** The item of addition `k` has been added again, or only now, less than `ttl` ago. */
  ghost predicate Renewed<T(!new)>(adds: seq<Add<T>>, ttl: int, now: int, k: nat)
    requires k < |adds|
  {
    exists m :: k <= m < |adds| && adds[m].item == adds[k].item && now - adds[m].at < ttl
  }

  /**
    The set is the true window exactly when nothing is left of the burst, or
    every item of the burst has been added again within the window.
  */
  lemma WindowIsExactWhenRenewed<T(!new)>(adds: seq<Add<T>>, ttl: int, now: int)
    requires adds != [] && Ordered(adds) && adds[|adds| - 1].at <= now
    ensures Live(SetOf(adds, ttl), now) == Recent(adds, ttl, now) <==>
      now - adds[|adds| - 1].at >= ttl || forall k :: BurstStart(adds, ttl) <= k < |adds| ==> Renewed(adds, ttl, now, k)
  {
    var n, j := |adds| - 1, BurstStart(adds, ttl);
    WindowIsHeld(adds, ttl, now);
    BurstTheorem(adds, ttl, j);
    if now - adds[n].at >= ttl {
      assert Recent(adds, ttl, now) == {};
    } else {
      assert Live(SetOf(adds, ttl), now) == Items(adds, j);
      RenewedAreRecent(adds, ttl, now, j);
    }
  }

  lemma RenewedAreRecent<T(!new)>(adds: seq<Add<T>>, ttl: int, now: int, j: nat)
    requires Ordered(adds) && Recent(adds, ttl, now) <= Items(adds, j)
    ensures Items(adds, j) == Recent(adds, ttl, now) <==> forall k :: j <= k < |adds| ==> Renewed(adds, ttl, now, k)
  {
    forall k | j <= k < |adds| ensures adds[k].item in Recent(adds, ttl, now) <==> Renewed(adds, ttl, now, k) {
      if adds[k].item in Recent(adds, ttl, now) {
        var m :| 0 <= m < |adds| && now - adds[m].at < ttl && adds[m].item == adds[k].item;
        if m < k {
          assert adds[m].at <= adds[k].at;
          assert k <= k < |adds| && now - adds[k].at < ttl;
        }
      }
    }
    if forall k :: j <= k < |adds| ==> Renewed(adds, ttl, now, k) {
      forall x | x in Items(adds, j) ensures x in Recent(adds, ttl, now) {
        var k :| j <= k < |adds| && adds[k].item == x;
        assert Renewed(adds, ttl, now, k);
      }
    } else {
      var k :| j <= k < |adds| && !Renewed(adds, ttl, now, k);
      assert adds[k].item in Items(adds, j);
    }
  }

  ghost predicate Distinct<T(!new)>(names: seq<T>) {
    forall i, j :: 0 <= i < j < |names| ==> names[i] != names[j]
  }

  /** One addition just before each deadline. */
  function Drip<T>(names: seq<T>, ttl: int): seq<Add<T>> {
    seq(|names|, k requires 0 <= k < |names| => Add(names[k], k * (ttl - 1)))
  }

  lemma {:induction false} DistinctCount<T(!new)>(names: seq<T>)
    requires Distinct(names)
    ensures |set k | 0 <= k < |names| :: names[k]| == |names|
  {
    if names == [] {
    } else {
      var init, last := names[..|names| - 1], names[|names| - 1];
      DistinctCount(init);
      assert (set k | 0 <= k < |names| :: names[k]) == (set k | 0 <= k < |init| :: init[k]) + {last};
    }
  }

  lemma DripIsOneBurst<T(!new)>(names: seq<T>, ttl: int)
    requires names != [] && ttl >= 1 && Distinct(names)
    ensures IsBurst(Drip(names, ttl), ttl, 0)
    ensures |Items(Drip(names, ttl), 0)| == |names|
  {
    var adds := Drip(names, ttl);
    forall k | 0 < k < |adds| ensures Gap(adds, k) < ttl {
      DripDistance(k, k - 1, ttl - 1);
    }
    DistinctCount(names);
    forall k | 0 <= k < |names| ensures adds[k].item == names[k] && names[k] in Items(adds, 0) {
      assert adds[k].item in Items(adds, 0);
    }
    assert Items(adds, 0) == set k | 0 <= k < |names| :: names[k];
  }

  lemma DripDistance(m: nat, k: nat, t: int)
    requires k <= m && t >= 0
    ensures m * t - k * t == (m - k) * t
    ensures m == k + 1 ==> m * t - k * t == t
    ensures t >= 1 ==> (m * t - k * t < t + 1 <==> k >= m - 1)
  {
    if m - k >= 2 && t >= 1 {
      assert (m - k) * t >= 2 * t;
    }
  }

  lemma DripWindow<T(!new)>(names: seq<T>, ttl: int)
    requires |names| >= 2 && ttl >= 2
    ensures var m := |names| - 1;
      Recent(Drip(names, ttl), ttl, m * (ttl - 1)) == {names[m - 1], names[m]}
  {
    var adds, m := Drip(names, ttl), |names| - 1;
    forall k | 0 <= k < |adds| ensures m * (ttl - 1) - adds[k].at < ttl <==> k >= m - 1 {
      DripDistance(m, k, ttl - 1);
    }
    assert adds[m - 1].item == names[m - 1] && adds[m].item == names[m];
  }

  /**
    A drip is counted whole although only its last two callers share a window:
    every count is reached by runs that no true sliding window would report.
  */
  lemma DripIsCountedWhole<T(!new)>(names: seq<T>, ttl: int)
    requires |names| >= 2 && ttl >= 2 && Distinct(names)
    ensures var m := |names| - 1;
      var now := m * (ttl - 1);
      && Drip(names, ttl)[m].at == now
      && |Live(SetOf(Drip(names, ttl), ttl), now)| == |names|
      && Recent(Drip(names, ttl), ttl, now) == {names[m - 1], names[m]}
  {
    DripIsOneBurst(names, ttl);
    BurstTheorem(Drip(names, ttl), ttl, 0);
    DripWindow(names, ttl);
  }
}
