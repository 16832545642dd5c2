/** Numbers in the form of ITU-T E.164, clause 6, and the carriers their prefixes belong to. */
module Numbering {
  import opened Basics

  predicate IsDigit(c: char) {
    '0' <= c <= '9'
  }

  predicate Kept(c: char) {
    IsDigit(c) || c == '+'
  }

  function Clean(s: string): string {
    if s == "" then "" else (if Kept(s[0]) then [s[0]] else "") + Clean(s[1..])
  }

  function Normalize(msisdn: string): string {
    var cleaned := Clean(msisdn);
    if "+234" <= cleaned then cleaned
    else if "234" <= cleaned then "+" + cleaned
    else if "0" <= cleaned then "+234" + cleaned[1..]
    else "+234" + cleaned
  }

  ghost predicate AllKept(s: string) {
    forall c :: c in s ==> Kept(c)
  }

  ghost predicate AllDigits(s: string) {
    forall c :: c in s ==> IsDigit(c)
  }

  lemma {:induction false} CleanKeepsExactly(s: string)
    ensures AllKept(Clean(s))
    ensures AllKept(s) ==> Clean(s) == s
  {
    if s == "" {
    } else {
      CleanKeepsExactly(s[1..]);
      if AllKept(s) {
        assert s == [s[0]] + s[1..];
      }
    }
  }

  lemma NormalShape(s: string)
    ensures "+234" <= Normalize(s) && AllKept(Normalize(s))
  {
    CleanKeepsExactly(s);
  }

  /** On all strings, well formed or not. */
  lemma NormalizeIsIdempotent(s: string)
    ensures Normalize(Normalize(s)) == Normalize(s)
  {
    NormalShape(s);
    CleanKeepsExactly(Normalize(s));
  }

  lemma NationalForm(r: string)
    requires AllDigits(r)
    ensures Normalize("0" + r) == "+234" + r
  {
    var s := "0" + r;
    CleanKeepsExactly(s);
    assert s[0] == '0' && s[1..] == r;
  }

  lemma InternationalGainsPlus(s: string)
    requires AllKept(s) && "234" <= s
    ensures Normalize(s) == "+" + s
  {
    CleanKeepsExactly(s);
    assert s[0] == '2';
  }

  lemma InternationalForm(r: string)
    requires AllDigits(r)
    ensures Normalize("234" + r) == "+234" + r
  {
    InternationalGainsPlus("234" + r);
    assert "+" + ("234" + r) == "+234" + r;
  }

  /** The national, the bare international and the full form of a number are one number. */
  lemma FormsCoincide(r: string)
    requires AllDigits(r)
    ensures Normalize("0" + r) == Normalize("234" + r) == Normalize("+234" + r) == "+234" + r
  {
    NationalForm(r);
    InternationalForm(r);
    CleanKeepsExactly("+234" + r);
  }

  /** Without any prefix they are too, exactly when the digits do not look like one of the other forms. */
  lemma BareFormCoincidesExactly(r: string)
    requires AllDigits(r)
    ensures Normalize(r) == "+234" + r <==> !("234" <= r) && !("0" <= r)
  {
    CleanKeepsExactly(r);
    if r != "" {
      assert IsDigit(r[0]);
    }
    if "234" <= r {
      assert |Normalize(r)| == |r| + 1;
    } else if "0" <= r {
      assert |Normalize(r)| == |r| + 3;
    }
  }

  datatype Carrier = Mtn | Airtel | Glo | NineMobile

  const MTN: seq<string> := [
    "+234703", "+234706", "+234803", "+234806", "+234810", "+234813",
    "+234814", "+234816", "+234903", "+234906", "+234913", "+234916"]
  const AIRTEL: seq<string> := [
    "+234701", "+234708", "+234802", "+234808", "+234812",
    "+234901", "+234902", "+234904", "+234907", "+234912"]
  const GLO: seq<string> := [
    "+234705", "+234805", "+234807", "+234811", "+234815", "+234905", "+234915"]
  const NINE_MOBILE: seq<string> := [
    "+234809", "+234817", "+234818", "+234908", "+234909"]

  function Prefixes(c: Carrier): seq<string> {
    match c
    case Mtn => MTN
    case Airtel => AIRTEL
    case Glo => GLO
    case NineMobile => NINE_MOBILE
  }

  function Name(c: Carrier): string {
    match c
    case Mtn => "MTN"
    case Airtel => "Airtel"
    case Glo => "Glo"
    case NineMobile => "9mobile"
  }

  function RoutingNumber(c: Carrier): string {
    match c
    case Mtn => "D013"
    case Airtel => "D018"
    case Glo => "D015"
    case NineMobile => "D019"
  }

  predicate Serves(c: Carrier, number: string) {
    exists p :: p in Prefixes(c) && p <= number
  }

  function LocalForm(number: string): string {
    if "0" <= number then "+234" + number[1..] else number
  }

  function IsNigerianMobile(number: string): bool {
    var n := LocalForm(number);
    Serves(Mtn, n) || Serves(Airtel, n) || Serves(Glo, n) || Serves(NineMobile, n)
  }

  /** The first carrier of the list that serves the number. */
  function FirstServing(order: seq<Carrier>, number: string): Option<Carrier> {
    if order == [] then None
    else if Serves(order[0], number) then Some(order[0])
    else FirstServing(order[1..], number)
  }

  function DefaultOperator(number: string): Option<Carrier> {
    FirstServing([Mtn, Airtel, Glo, NineMobile], LocalForm(number))
  }

  /** The block of a seven-character prefix: its last three digits. */
  predicate Block(p: string, hundreds: char, tens: char, units: set<char>) {
    |p| == 7 && p[4] == hundreds && p[5] == tens && p[6] in units
  }

  predicate InBlocks(c: Carrier, p: string) {
    match c
    case Mtn =>
      || Block(p, '7', '0', {'3', '6'}) || Block(p, '8', '0', {'3', '6'}) || Block(p, '8', '1', {'0', '3', '4', '6'})
      || Block(p, '9', '0', {'3', '6'}) || Block(p, '9', '1', {'3', '6'})
    case Airtel =>
      || Block(p, '7', '0', {'1', '8'}) || Block(p, '8', '0', {'2', '8'}) || Block(p, '8', '1', {'2'})
      || Block(p, '9', '0', {'1', '2', '4', '7'}) || Block(p, '9', '1', {'2'})
    case Glo =>
      || Block(p, '7', '0', {'5'}) || Block(p, '8', '0', {'5', '7'}) || Block(p, '8', '1', {'1', '5'})
      || Block(p, '9', '0', {'5'}) || Block(p, '9', '1', {'5'})
    case NineMobile =>
      Block(p, '8', '0', {'9'}) || Block(p, '8', '1', {'7', '8'}) || Block(p, '9', '0', {'8', '9'})
  }

  lemma MtnBlocks(p: string)
    requires p in MTN
    ensures InBlocks(Mtn, p)
  {
  }

  lemma AirtelBlocks(p: string)
    requires p in AIRTEL
    ensures InBlocks(Airtel, p)
  {
  }

  lemma GloBlocks(p: string)
    requires p in GLO
    ensures InBlocks(Glo, p)
  {
  }

  lemma NineMobileBlocks(p: string)
    requires p in NINE_MOBILE
    ensures InBlocks(NineMobile, p)
  {
  }

  lemma PrefixBlocks(c: Carrier, p: string)
    requires p in Prefixes(c)
    ensures InBlocks(c, p) && |p| == 7
  {
    match c
    case Mtn => MtnBlocks(p);
    case Airtel => AirtelBlocks(p);
    case Glo => GloBlocks(p);
    case NineMobile => NineMobileBlocks(p);
  }

  lemma BlocksAreDisjoint(c: Carrier, d: Carrier, p: string)
    requires InBlocks(c, p) && InBlocks(d, p)
    ensures c == d
  {
  }

  /** No number starts with prefixes of two carriers. */
  lemma OneCarrierServes(c: Carrier, d: Carrier, number: string)
    requires Serves(c, number) && Serves(d, number)
    ensures c == d
  {
    var p :| p in Prefixes(c) && p <= number;
    var q :| q in Prefixes(d) && q <= number;
    PrefixBlocks(c, p);
    PrefixBlocks(d, q);
    assert p == number[..7] == q;
    BlocksAreDisjoint(c, d, p);
  }

  /** So the order the tables are tried in does not matter. */
  lemma {:induction false} OrderIsIrrelevant(order: seq<Carrier>, number: string, c: Carrier)
    requires c in order
    ensures FirstServing(order, number) == Some(c) <==> Serves(c, number)
  {
    if Serves(order[0], number) {
      if Serves(c, number) {
        OneCarrierServes(order[0], c, number);
      }
    } else {
      if c != order[0] {
        OrderIsIrrelevant(order[1..], number, c);
      } else if FirstServing(order[1..], number) == Some(c) {
        FirstServingServes(order[1..], number);
      }
    }
  }

  lemma {:induction false} FirstServingServes(order: seq<Carrier>, number: string)
    requires FirstServing(order, number).Some?
    ensures Serves(FirstServing(order, number).value, number)
  {
    if Serves(order[0], number) {
    } else {
      FirstServingServes(order[1..], number);
    }
  }

  /** Mobile numbers are exactly those with a default operator. */
  lemma MobileHasOperator(number: string)
    ensures IsNigerianMobile(number) <==> DefaultOperator(number).Some?
    ensures DefaultOperator(number).Some? ==> Serves(DefaultOperator(number).value, LocalForm(number))
  {
    var order := [Mtn, Airtel, Glo, NineMobile];
    var n := LocalForm(number);
    OrderIsIrrelevant(order, n, Mtn);
    OrderIsIrrelevant(order, n, Airtel);
    OrderIsIrrelevant(order, n, Glo);
    OrderIsIrrelevant(order, n, NineMobile);
    if DefaultOperator(number).Some? {
      FirstServingServes(order, n);
    }
  }

  /** The library reads the national and the international form of a number alike. */
  lemma NationalFormHasOperator(r: string)
    ensures DefaultOperator("0" + r) == DefaultOperator("+234" + r)
    ensures IsNigerianMobile("0" + r) == IsNigerianMobile("+234" + r)
  {
    var national, full := "0" + r, "+234" + r;
    assert national[0] == '0' && national[1..] == r && full[0] == '+';
    assert LocalForm(national) == full == LocalForm(full);
  }
}

/**
  The three-level lookup of ported numbers: two caches in front of the master
  dataset.  The second cache may fail on reading and on writing, and both may
  lose entries at any time.
*/
module MnpLookups {
  import opened Basics
  import opened Numbering

  datatype Record = Record(msisdn: string, network: string, routing: string, ported: bool, original: Option<string>)

  type Dataset = map<string, Record>

  datatype Caches = Caches(l1: Dataset, l2: Dataset)

  datatype Faults = Faults(l2Get: bool, l2Set: bool, l3: bool)

  datatype Level = L1 | L2 | L3 | Miss

  datatype Found =
    | Hit(level: Level, record: Record)
    | NotFound
    | Unreadable

  datatype Response = Response(msisdn: string, record: Option<Record>, ported: bool, level: Level)

  datatype CacheStats = CacheStats(l1: nat, l2: nat, l3: nat, misses: nat)

  // The lookup handler's own prefixes, written out a second time beside the library's tables.

  const ROUTED_MTN: seq<string> := [
    "+234703", "+234706", "+234803", "+234806", "+234810", "+234813",
    "+234814", "+234816", "+234903", "+234906", "+234913", "+234916"]
  const ROUTED_AIRTEL: seq<string> := [
    "+234701", "+234708", "+234802", "+234808", "+234812",
    "+234901", "+234902", "+234904", "+234907", "+234912"]
  const ROUTED_GLO: seq<string> := [
    "+234705", "+234805", "+234807", "+234811", "+234815", "+234905", "+234915"]
  const ROUTED_NINE_MOBILE: seq<string> := [
    "+234809", "+234817", "+234818", "+234908", "+234909"]

  predicate StartsWithAny(s: string, prefixes: seq<string>) {
    exists p :: p in prefixes && p <= s
  }

  /** The handler's network names and routing numbers, tried in its order. */
  function Route(prefix: string): Option<(string, string)> {
    if StartsWithAny(prefix, ROUTED_MTN) then Some(("MTN", "D013"))
    else if StartsWithAny(prefix, ROUTED_AIRTEL) then Some(("Airtel", "D018"))
    else if StartsWithAny(prefix, ROUTED_GLO) then Some(("Glo", "D015"))
    else if StartsWithAny(prefix, ROUTED_NINE_MOBILE) then Some(("9mobile", "D019"))
    else None
  }

  function DefaultRouting(msisdn: string): Option<Record> {
    var n := Normalize(msisdn);
    if |n| < 7 then None else
      var route := Route(n[..7]);
      if route.None? then None
      else Some(Record(n, route.value.0, route.value.1, false, Some(route.value.0)))
  }

  /** What a lookup of the number should say, the caches aside. */
  function Answer(l3: Dataset, msisdn: string): Option<Record> {
    var key := Normalize(msisdn);
    if key in l3 then Some(l3[key]) else DefaultRouting(key)
  }

  /** L1, then L2 filling L1, then L3 filling both. */
  function Find(c: Caches, l3: Dataset, key: string, f: Faults): (Caches, Found) {
    if key in c.l1 then (c, Hit(L1, c.l1[key]))
    else if !f.l2Get && key in c.l2 then (c.(l1 := c.l1[key := c.l2[key]]), Hit(L2, c.l2[key]))
    else if f.l3 then (c, Unreadable)
    else if key in l3 then
      (Caches(c.l1[key := l3[key]], if f.l2Set then c.l2 else c.l2[key := l3[key]]), Hit(L3, l3[key]))
    else (c, NotFound)
  }

  function Lookup(c: Caches, l3: Dataset, msisdn: string, f: Faults): (Caches, Option<Response>) {
    var key := Normalize(msisdn);
    var (c', found) := Find(c, l3, key, f);
    (c', match found
         case Hit(level, record) => Some(Response(key, Some(record), true, level))
         case NotFound => Some(Response(key, DefaultRouting(key), false, Miss))
         case Unreadable => None)
  }

  /** The environment of one element of a batch: entries lost before it, and the faults it meets. */
  datatype Env = Env(faults: Faults, lostL1: set<string>, lostL2: set<string>)

  /** All that the batch loop uses of one element: its normal form and what it falls back on. */
  datatype Item = Item(key: string, fallback: Option<Record>, env: Env)

  datatype Batch = Batch(caches: Caches, results: map<string, Option<Record>>, stats: CacheStats)

  function Evicted(c: Caches, lostL1: set<string>, lostL2: set<string>): Caches {
    Caches(c.l1 - lostL1, c.l2 - lostL2)
  }

  function Count(s: CacheStats, level: Level): CacheStats {
    match level
    case L1 => s.(l1 := s.l1 + 1)
    case L2 => s.(l2 := s.l2 + 1)
    case L3 => s.(l3 := s.l3 + 1)
    case Miss => s.(misses := s.misses + 1)
  }

  /** The default of an element is computed from the number as sent, not from its normal form. */
  function ItemOf(msisdn: string, env: Env): Item {
    Item(Normalize(msisdn), DefaultRouting(msisdn), env)
  }

  function Items(msisdns: seq<string>, envs: seq<Env>): seq<Item>
    requires |msisdns| == |envs|
  {
    seq(|msisdns|, i requires 0 <= i < |msisdns| => ItemOf(msisdns[i], envs[i]))
  }

  /** One element: an unreadable dataset counts as a miss. */
  function Next(b: Batch, l3: Dataset, item: Item): Batch {
    var (c', found) := Find(Evicted(b.caches, item.env.lostL1, item.env.lostL2), l3, item.key, item.env.faults);
    match found
    case Hit(level, record) => Batch(c', b.results[item.key := Some(record)], Count(b.stats, level))
    case _ => Batch(c', b.results[item.key := item.fallback], Count(b.stats, Miss))
  }

  function Bulk(c: Caches, l3: Dataset, items: seq<Item>): Batch {
    if items == [] then Batch(c, map[], CacheStats(0, 0, 0, 0))
    else Next(Bulk(c, l3, items[..|items| - 1]), l3, items[|items| - 1])
  }

  datatype Operation =
    | Single(msisdn: string, faults: Faults)
    | Many(msisdns: seq<string>, envs: seq<Env>)
    | Evict(lostL1: set<string>, lostL2: set<string>)

  predicate WellFormed(op: Operation) {
    op.Many? ==> |op.msisdns| == |op.envs|
  }

  function CachesAfter(c: Caches, l3: Dataset, op: Operation): Caches
    requires WellFormed(op)
  {
    match op
    case Single(m, f) => Lookup(c, l3, m, f).0
    case Many(ms, envs) => if |ms| > 1000 then c else Bulk(c, l3, Items(ms, envs)).caches
    case Evict(lostL1, lostL2) => Evicted(c, lostL1, lostL2)
  }

  function CachesAt(l3: Dataset, ops: seq<Operation>, n: nat): Caches
    requires n <= |ops| && forall i :: 0 <= i < |ops| ==> WellFormed(ops[i])
  {
    if n == 0 then Caches(map[], map[]) else CachesAfter(CachesAt(l3, ops, n - 1), l3, ops[n - 1])
  }
}

module MnpTheorems {
  import opened Basics
  import opened Numbering
  import opened MnpLookups

  ghost predicate SubMap(m: Dataset, n: Dataset) {
    forall k :: k in m ==> k in n && m[k] == n[k]
  }

  /** Neither cache ever holds anything the dataset does not. */
  ghost predicate Coherent(c: Caches, l3: Dataset) {
    SubMap(c.l1, l3) && SubMap(c.l2, l3)
  }

  function RoutedPrefixes(c: Carrier): seq<string> {
    match c
    case Mtn => ROUTED_MTN
    case Airtel => ROUTED_AIRTEL
    case Glo => ROUTED_GLO
    case NineMobile => ROUTED_NINE_MOBILE
  }

  /** Table by table, the handler and the library list the same prefixes. */
  lemma HandlerCoversTables(c: Carrier, p: string)
    ensures p in RoutedPrefixes(c) <==> p in Prefixes(c)
  {
    match c
    case Mtn => assert ROUTED_MTN == MTN;
    case Airtel => assert ROUTED_AIRTEL == AIRTEL;
    case Glo => assert ROUTED_GLO == GLO;
    case NineMobile => assert ROUTED_NINE_MOBILE == NINE_MOBILE;
  }

  /** So the handler, looking at the first seven characters, finds a carrier where the library does. */
  lemma RouteOfPrefix(n: string, c: Carrier)
    requires |n| >= 7
    ensures StartsWithAny(n[..7], RoutedPrefixes(c)) <==> Serves(c, n)
  {
    if Serves(c, n) {
      var p :| p in Prefixes(c) && p <= n;
      PrefixBlocks(c, p);
      HandlerCoversTables(c, p);
      assert p <= n[..7];
    }
    if StartsWithAny(n[..7], RoutedPrefixes(c)) {
      var p :| p in RoutedPrefixes(c) && p <= n[..7];
      HandlerCoversTables(c, p);
      assert p <= n;
    }
  }

  lemma RouteIsFirstServing(n: string)
    requires |n| >= 7
    ensures Route(n[..7]) ==
      if Serves(Mtn, n) then Some(("MTN", "D013")) else if Serves(Airtel, n) then Some(("Airtel", "D018"))
      else if Serves(Glo, n) then Some(("Glo", "D015"))
      else if Serves(NineMobile, n) then Some(("9mobile", "D019")) else None
  {
    RouteOfPrefix(n, Mtn);
    RouteOfPrefix(n, Airtel);
    RouteOfPrefix(n, Glo);
    RouteOfPrefix(n, NineMobile);
  }

  /** The handler names the operator the library does, with that operator's routing number. */
  lemma RoutingNamesOperator(msisdn: string)
    ensures var routing, operator := DefaultRouting(msisdn), DefaultOperator(Normalize(msisdn));
      && (routing.Some? <==> operator.Some?)
      && (routing.Some? ==>
            routing.value.network == Name(operator.value) && routing.value.routing == RoutingNumber(operator.value)
            && routing.value.original == Some(Name(operator.value))
            && routing.value.msisdn == Normalize(msisdn) && !routing.value.ported)
  {
    var n := Normalize(msisdn);
    NormalShape(msisdn);
    assert n[0] == '+' && LocalForm(n) == n;
    if |n| >= 7 {
      RouteIsFirstServing(n);
    } else {
      ShortNumbersUnserved(n, Mtn);
      ShortNumbersUnserved(n, Airtel);
      ShortNumbersUnserved(n, Glo);
      ShortNumbersUnserved(n, NineMobile);
    }
    FirstOfFour(n);
  }

  lemma ShortNumbersUnserved(n: string, c: Carrier)
    requires |n| < 7
    ensures !Serves(c, n)
  {
    forall p | p in Prefixes(c) ensures !(p <= n) {
      PrefixBlocks(c, p);
    }
  }

  lemma FirstOfFour(n: string)
    ensures FirstServing([Mtn, Airtel, Glo, NineMobile], n) ==
      if Serves(Mtn, n) then Some(Mtn) else if Serves(Airtel, n) then Some(Airtel)
      else if Serves(Glo, n) then Some(Glo) else if Serves(NineMobile, n) then Some(NineMobile) else None
  {
    FirstOf(Mtn, [Airtel, Glo, NineMobile], n);
    FirstOf(Airtel, [Glo, NineMobile], n);
    FirstOf(Glo, [NineMobile], n);
    FirstOf(NineMobile, [], n);
    assert [Mtn] + [Airtel, Glo, NineMobile] == [Mtn, Airtel, Glo, NineMobile];
    assert [Airtel] + [Glo, NineMobile] == [Airtel, Glo, NineMobile];
    assert [Glo] + [NineMobile] == [Glo, NineMobile];
    assert [NineMobile] + [] == [NineMobile];
  }

  lemma FirstOf(c: Carrier, rest: seq<Carrier>, n: string)
    ensures FirstServing([c] + rest, n) == if Serves(c, n) then Some(c) else FirstServing(rest, n)
  {
    assert ([c] + rest)[1..] == rest;
  }

  /** The dataset cannot be read and no cache holds the number: where a single lookup reports an error. */
  predicate Unhelped(c: Caches, key: string, f: Faults) {
    f.l3 && key !in c.l1 && (f.l2Get || key !in c.l2)
  }

  lemma FindIsTransparent(c: Caches, l3: Dataset, key: string, f: Faults)
    requires Coherent(c, l3)
    ensures var (c', found) := Find(c, l3, key, f);
      && Coherent(c', l3)
      && (found.Hit? ==> key in l3 && found.record == l3[key])
      && (found.NotFound? ==> key !in l3)
      && (found.Unreadable? <==> Unhelped(c, key, f))
  {
  }

  /**
    A lookup that answers says what the dataset says; it fails only when the
    dataset cannot be read and no cache helps.
  */
  lemma LookupIsTransparent(c: Caches, l3: Dataset, msisdn: string, f: Faults)
    requires Coherent(c, l3)
    ensures var (c', response) := Lookup(c, l3, msisdn, f);
      var key := Normalize(msisdn);
      && Coherent(c', l3)
      && (response.None? <==> Unhelped(c, key, f))
      && (response.Some? ==>
            response.value.record == Answer(l3, msisdn) && (response.value.ported <==> key in l3)
            && response.value.msisdn == key && (response.value.level == Miss <==> key !in l3))
  {
    FindIsTransparent(c, l3, Normalize(msisdn), f);
  }

  /** The first level that holds the number and can be read. */
  function FirstLevel(c: Caches, l3: Dataset, key: string, f: Faults): Level {
    if key in c.l1 then L1
    else if !f.l2Get && key in c.l2 then L2
    else if !f.l3 && key in l3 then L3
    else Miss
  }

  /**
    Each answer comes from the first level that holds the number and can be read,
    and says so; what it found below L1 it leaves in L1, what it found below L2
    also in L2 if that can be written, and nothing else changes.
  */
  lemma LookupAnswersFromFirst(c: Caches, l3: Dataset, msisdn: string, f: Faults)
    requires !Unhelped(c, Normalize(msisdn), f)
    ensures var (c', response) := Lookup(c, l3, msisdn, f);
      var key := Normalize(msisdn);
      var level := FirstLevel(c, l3, key, f);
      && response.Some? && response.value.level == level && (response.value.ported <==> level != Miss)
      && (level == L1 ==> response.value.record == Some(c.l1[key]))
      && (level == L2 ==> response.value.record == Some(c.l2[key]))
      && (level == L3 ==> response.value.record == Some(l3[key]))
      && c'.l1.Keys == c.l1.Keys + (if level == Miss then {} else {key})
      && c'.l2.Keys == c.l2.Keys + (if level == L3 && !f.l2Set then {key} else {})
      && (forall k :: k in c.l1 ==> c'.l1[k] == c.l1[k])
      && (forall k :: k in c.l2 && !(k == key && level == L3 && !f.l2Set) ==> c'.l2[k] == c.l2[k])
      && (level != Miss ==> Some(c'.l1[key]) == response.value.record)
      && (level == L3 && !f.l2Set ==> Some(c'.l2[key]) == response.value.record)
  {
  }

  /**
    After an answer from L3 the next lookup that finds L1 evicted is answered from
    L2, unless L2 cannot be read then, or could not be written and had nothing.
  */
  lemma LookupFillsL2(c: Caches, l3: Dataset, msisdn: string, f: Faults, again: string, g: Faults)
    requires Coherent(c, l3) && Normalize(again) == Normalize(msisdn) && !g.l3
    requires FirstLevel(c, l3, Normalize(msisdn), f) == L3
    ensures var key, c' := Normalize(msisdn), Lookup(c, l3, msisdn, f).0;
      var second := Lookup(Evicted(c', {key}, {}), l3, again, g).1;
      && second.Some? && second.value.record == Some(l3[key])
      && second.value.level == if g.l2Get || (f.l2Set && key !in c.l2) then L3 else L2
  {
  }

  /** A second lookup of any form of the number is answered from L1. */
  lemma LookupFillsL1(c: Caches, l3: Dataset, msisdn: string, f: Faults, again: string, g: Faults)
    requires Coherent(c, l3) && Normalize(again) == Normalize(msisdn)
    requires var r := Lookup(c, l3, msisdn, f).1; r.Some? && r.value.ported
    ensures var first := Lookup(c, l3, msisdn, f);
      Lookup(first.0, l3, again, g) == (first.0, Some(first.1.value.(level := L1)))
  {
  }

  lemma BulkGrows(c: Caches, l3: Dataset, items: seq<Item>, i: nat)
    requires i < |items|
    ensures Bulk(c, l3, items[..i + 1]) == Next(Bulk(c, l3, items[..i]), l3, items[i])
  {
    assert items[..i + 1][..i] == items[..i];
  }

  function Total(s: CacheStats): nat {
    s.l1 + s.l2 + s.l3 + s.misses
  }

  function ItemAnswer(l3: Dataset, item: Item): Option<Record> {
    if item.key in l3 then Some(l3[item.key]) else item.fallback
  }

  lemma NextIsTransparent(b: Batch, l3: Dataset, item: Item)
    requires Coherent(b.caches, l3)
    ensures var b' := Next(b, l3, item);
      && Coherent(b'.caches, l3)
      && Total(b'.stats) == Total(b.stats) + 1
      && b'.results.Keys == b.results.Keys + {item.key}
      && b'.results - {item.key} == b.results - {item.key}
      && b'.results[item.key] ==
           if Unhelped(Evicted(b.caches, item.env.lostL1, item.env.lostL2), item.key, item.env.faults)
           then item.fallback else ItemAnswer(l3, item)
  {
    FindIsTransparent(Evicted(b.caches, item.env.lostL1, item.env.lostL2), l3, item.key, item.env.faults);
  }

  /** A batch keeps the caches coherent and counts every element once, duplicates and failures included. */
  lemma {:induction false} BulkCounts(c: Caches, l3: Dataset, items: seq<Item>)
    requires Coherent(c, l3)
    ensures Coherent(Bulk(c, l3, items).caches, l3) && Total(Bulk(c, l3, items).stats) == |items|
  {
    if items == [] {
    } else {
      BulkCounts(c, l3, items[..|items| - 1]);
      NextIsTransparent(Bulk(c, l3, items[..|items| - 1]), l3, items[|items| - 1]);
    }
  }

  /** The result map has an entry for each number sent, and no other. */
  lemma {:induction false} BulkAnswersExactlyTheRequest(c: Caches, l3: Dataset, items: seq<Item>)
    requires Coherent(c, l3)
    ensures Bulk(c, l3, items).results.Keys == (set item <- items :: item.key)
  {
    if items == [] {
    } else {
      var init, last := items[..|items| - 1], items[|items| - 1];
      BulkAnswersExactlyTheRequest(c, l3, init);
      BulkCounts(c, l3, init);
      var before := Bulk(c, l3, init);
      NextIsTransparent(before, l3, last);
      assert Bulk(c, l3, items) == Next(before, l3, last);
      assert items == init + [last];
      assert (set item <- items :: item.key) == (set item <- init :: item.key) + {last.key};
    }
  }

  /** The last position of the number of element `i`. */
  function LastOf(items: seq<Item>, i: nat): (last: nat)
    requires i < |items|
    ensures i <= last < |items| && items[last].key == items[i].key
    ensures forall j :: last < j < |items| ==> items[j].key != items[i].key
  {
    if items[|items| - 1].key == items[i].key then |items| - 1 else LastOf(items[..|items| - 1], i)
  }

  /** The caches that element `i` of a batch meets. */
  function CachesMet(c: Caches, l3: Dataset, items: seq<Item>, i: nat): Caches
    requires i < |items|
  {
    Evicted(Bulk(c, l3, items[..i]).caches, items[i].env.lostL1, items[i].env.lostL2)
  }

  /** A batch leaves the caches as single lookups of its elements would, each in its place. */
  lemma BulkWalksAsSingles(c: Caches, l3: Dataset, msisdns: seq<string>, envs: seq<Env>, i: nat)
    requires i < |msisdns| == |envs|
    ensures var items := Items(msisdns, envs);
      Bulk(c, l3, items[..i + 1]).caches == Lookup(CachesMet(c, l3, items, i), l3, msisdns[i], envs[i].faults).0
  {
    BulkGrows(c, l3, Items(msisdns, envs), i);
  }

  /** The level that answers element `i` of a batch, from the caches it meets. */
  function LevelMet(c: Caches, l3: Dataset, items: seq<Item>, i: nat): Level
    requires i < |items|
  {
    FirstLevel(CachesMet(c, l3, items, i), l3, items[i].key, items[i].env.faults)
  }

  function AnsweredFrom(c: Caches, l3: Dataset, items: seq<Item>, level: Level): seq<bool> {
    seq(|items|, i requires 0 <= i < |items| => LevelMet(c, l3, items, i) == level)
  }

  function Counter(s: CacheStats, level: Level): nat {
    match level
    case L1 => s.l1
    case L2 => s.l2
    case L3 => s.l3
    case Miss => s.misses
  }

  lemma NextCounts(c: Caches, l3: Dataset, items: seq<Item>, i: nat, level: Level)
    requires i < |items|
    ensures Counter(Bulk(c, l3, items[..i + 1]).stats, level) ==
            Counter(Bulk(c, l3, items[..i]).stats, level) + if LevelMet(c, l3, items, i) == level then 1 else 0
  {
    BulkGrows(c, l3, items, i);
  }

  function Counters(c: Caches, l3: Dataset, items: seq<Item>, level: Level): seq<nat> {
    seq(|items| + 1, i requires 0 <= i <= |items| => Counter(Bulk(c, l3, items[..i]).stats, level))
  }

  lemma CountersEnd(c: Caches, l3: Dataset, items: seq<Item>, level: Level)
    ensures Counters(c, l3, items, level)[0] == 0
    ensures Counters(c, l3, items, level)[|items|] == Counter(Bulk(c, l3, items).stats, level)
  {
    assert items[..|items|] == items && items[..0] == [];
  }

  lemma CountersStep(c: Caches, l3: Dataset, items: seq<Item>, k: nat, level: Level)
    requires k < |items|
    ensures Counters(c, l3, items, level)[k + 1] ==
            Counters(c, l3, items, level)[k] + if AnsweredFrom(c, l3, items, level)[k] then 1 else 0
  {
    NextCounts(c, l3, items, k, level);
  }

  lemma CounterIsExact(c: Caches, l3: Dataset, items: seq<Item>, level: Level)
    ensures Counter(Bulk(c, l3, items).stats, level) == |Marked(AnsweredFrom(c, l3, items, level), 0, |items|)|
  {
    var flags, totals := AnsweredFrom(c, l3, items, level), Counters(c, l3, items, level);
    forall k | 0 <= k < |items| ensures totals[k + 1] == totals[k] + if flags[k] then 1 else 0 {
      CountersStep(c, l3, items, k, level);
    }
    CountSteps(flags, totals, 0, |items|);
    CountersEnd(c, l3, items, level);
  }

  /** The elements of a batch that this level answers. */
  ghost function AnsweredBy(c: Caches, l3: Dataset, items: seq<Item>, level: Level): set<nat> {
    set i: nat | i < |items| && LevelMet(c, l3, items, i) == level
  }

  /** Each counter is the number of elements that found their number first at its level, and misses are the rest. */
  lemma BulkCountsByLevel(c: Caches, l3: Dataset, items: seq<Item>)
    ensures var stats := Bulk(c, l3, items).stats;
      && stats.l1 == |AnsweredBy(c, l3, items, L1)|
      && stats.l2 == |AnsweredBy(c, l3, items, L2)|
      && stats.l3 == |AnsweredBy(c, l3, items, L3)|
      && stats.misses == |AnsweredBy(c, l3, items, Miss)|
  {
    AnsweredAreMarked(c, l3, items, L1);
    AnsweredAreMarked(c, l3, items, L2);
    AnsweredAreMarked(c, l3, items, L3);
    AnsweredAreMarked(c, l3, items, Miss);
  }

  lemma AnsweredAreMarked(c: Caches, l3: Dataset, items: seq<Item>, level: Level)
    ensures Counter(Bulk(c, l3, items).stats, level) == |AnsweredBy(c, l3, items, level)|
  {
    CounterIsExact(c, l3, items, level);
    assert AnsweredBy(c, l3, items, level) == Marked(AnsweredFrom(c, l3, items, level), 0, |items|);
  }

  /** What the last element of a number met decides the number's answer. */
  lemma {:induction false} LastDecides(c: Caches, l3: Dataset, items: seq<Item>, i: nat, last: nat)
    requires i < |items| && Coherent(c, l3) && last < |items| && items[last].key == items[i].key
    requires forall j :: last < j < |items| ==> items[j].key != items[i].key
    ensures var results, key := Bulk(c, l3, items).results, items[i].key;
      && key in results
      && results[key] ==
           if Unhelped(CachesMet(c, l3, items, last), key, items[last].env.faults) then items[last].fallback
           else ItemAnswer(l3, items[last])
  {
    var init, end := items[..|items| - 1], items[|items| - 1];
    BulkCounts(c, l3, init);
    NextIsTransparent(Bulk(c, l3, init), l3, end);
    if last == |items| - 1 {
    } else {
      LastDecides(c, l3, init, last, last);
      assert init[..last] == items[..last];
      KeptBeside(Bulk(c, l3, init).results, Bulk(c, l3, items).results, end.key, items[i].key);
    }
  }

  lemma KeptBeside<V>(m: map<string, V>, m': map<string, V>, key: string, k: string)
    requires m - {key} == m' - {key} && k != key && k in m
    ensures k in m' && m'[k] == m[k]
  {
    assert k in m - {key} && (m - {key})[k] == m[k];
    assert (m' - {key})[k] == m'[k];
  }

  lemma DefaultOfNormalForm(msisdn: string)
    ensures DefaultRouting(Normalize(msisdn)) == DefaultRouting(msisdn)
  {
    NormalizeIsIdempotent(msisdn);
  }

  lemma ItemAnswersNumber(l3: Dataset, msisdns: seq<string>, envs: seq<Env>, i: nat, j: nat)
    requires i < |msisdns| == |envs| && j < |msisdns|
    requires Items(msisdns, envs)[j].key == Items(msisdns, envs)[i].key
    ensures Items(msisdns, envs)[j].fallback == DefaultRouting(msisdns[i])
    ensures ItemAnswer(l3, Items(msisdns, envs)[j]) == Answer(l3, msisdns[i])
  {
    assert Items(msisdns, envs)[j] == ItemOf(msisdns[j], envs[j]);
    assert Items(msisdns, envs)[i] == ItemOf(msisdns[i], envs[i]);
    DefaultOfNormalForm(msisdns[i]);
    DefaultOfNormalForm(msisdns[j]);
  }

  /**
    In any batch, under any faults and evictions, a number gets what the dataset
    or its default says, unless the last element of that number met an unreadable
    dataset that no cache helped with, where it gets the default.
  */
  lemma BulkAnswers(c: Caches, l3: Dataset, msisdns: seq<string>, envs: seq<Env>, i: nat)
    requires i < |msisdns| == |envs| && Coherent(c, l3)
    ensures var items, key := Items(msisdns, envs), Normalize(msisdns[i]);
      var last, results := LastOf(items, i), Bulk(c, l3, items).results;
      && key in results
      && results[key] ==
           if Unhelped(CachesMet(c, l3, items, last), key, envs[last].faults) then DefaultRouting(msisdns[i])
           else Answer(l3, msisdns[i])
  {
    var items := Items(msisdns, envs);
    var last := LastOf(items, i);
    LastDecides(c, l3, items, i, last);
    ItemAnswersNumber(l3, msisdns, envs, i, last);
    assert items[last] == ItemOf(msisdns[last], envs[last]) && items[i] == ItemOf(msisdns[i], envs[i]);
  }

  /** With the dataset readable for the number itself it gets its answer, whatever happens to the rest of the batch. */
  lemma BulkIsTransparent(c: Caches, l3: Dataset, msisdns: seq<string>, envs: seq<Env>, i: nat)
    requires i < |msisdns| == |envs| && Coherent(c, l3)
    requires !envs[LastOf(Items(msisdns, envs), i)].faults.l3
    ensures var results := Bulk(c, l3, Items(msisdns, envs)).results;
      Normalize(msisdns[i]) in results && results[Normalize(msisdns[i])] == Answer(l3, msisdns[i])
  {
    BulkAnswers(c, l3, msisdns, envs, i);
  }

  /** So it agrees with single lookups, from any caches and under any other faults. */
  lemma BulkAgreesWithSingle(c: Caches, d: Caches, l3: Dataset, msisdns: seq<string>, envs: seq<Env>, i: nat, f: Faults)
    requires i < |msisdns| == |envs| && Coherent(c, l3) && Coherent(d, l3)
    requires !envs[LastOf(Items(msisdns, envs), i)].faults.l3 && !f.l3
    ensures var single, results := Lookup(d, l3, msisdns[i], f).1, Bulk(c, l3, Items(msisdns, envs)).results;
      && single.Some?
      && single.value.msisdn in results && results[single.value.msisdn] == single.value.record
  {
    BulkIsTransparent(c, l3, msisdns, envs, i);
    LookupIsTransparent(d, l3, msisdns[i], f);
  }

  /**
    And in every case a batch answers what a single lookup would have answered
    in the place of the number's last element, except that it answers the
    default where that lookup would have reported an error.
  */
  lemma BulkHidesFailure(c: Caches, l3: Dataset, msisdns: seq<string>, envs: seq<Env>, i: nat)
    requires i < |msisdns| == |envs| && Coherent(c, l3)
    ensures var items := Items(msisdns, envs);
      var last, results := LastOf(items, i), Bulk(c, l3, items).results;
      var single := Lookup(CachesMet(c, l3, items, last), l3, msisdns[i], envs[last].faults).1;
      && Normalize(msisdns[i]) in results
      && results[Normalize(msisdns[i])] == (if single.Some? then single.value.record else DefaultRouting(msisdns[i]))
  {
    var items := Items(msisdns, envs);
    var last := LastOf(items, i);
    BulkAnswers(c, l3, msisdns, envs, i);
    BulkCounts(c, l3, items[..last]);
    LookupIsTransparent(CachesMet(c, l3, items, last), l3, msisdns[i], envs[last].faults);
  }

  lemma OperationStaysCoherent(c: Caches, after: Caches, l3: Dataset, op: Operation)
    requires WellFormed(op) && Coherent(c, l3) && after == CachesAfter(c, l3, op)
    ensures Coherent(after, l3)
  {
    match op
    case Single(m, f) => LookupIsTransparent(c, l3, m, f);
    case Many(ms, envs) => BulkCounts(c, l3, Items(ms, envs));
    case Evict(_, _) =>
  }

  /** Over any run of single lookups, batches and evictions the caches stay coherent. */
  lemma {:induction false} CachesStayCoherent(l3: Dataset, ops: seq<Operation>, n: nat)
    requires n <= |ops| && forall i :: 0 <= i < |ops| ==> WellFormed(ops[i])
    ensures Coherent(CachesAt(l3, ops, n), l3)
  {
    if n == 0 {
    } else {
      CachesStayCoherent(l3, ops, n - 1);
      OperationStaysCoherent(CachesAt(l3, ops, n - 1), CachesAt(l3, ops, n), l3, ops[n - 1]);
    }
  }

  /** So after any such run, with the dataset readable, a lookup answers what the dataset or the default says. */
  lemma EveryRunIsTransparent(l3: Dataset, ops: seq<Operation>, n: nat, msisdn: string, f: Faults)
    requires n <= |ops| && forall i :: 0 <= i < |ops| ==> WellFormed(ops[i])
    ensures var response := Lookup(CachesAt(l3, ops, n), l3, msisdn, f).1;
      && (!f.l3 ==> response.Some?)
      && (response.Some? ==> response.value.record == Answer(l3, msisdn))
  {
    CachesStayCoherent(l3, ops, n);
    LookupIsTransparent(CachesAt(l3, ops, n), l3, msisdn, f);
  }
}

/** The handlers, filling the caches, the result map and the counters in place. */
module MnpService {
  import opened Basics
  import opened Numbering
  import opened MnpLookups
  import opened MnpTheorems

  class MnpHandlers {
    const l3: Dataset
    var l1: Dataset
    var l2: Dataset

    function View(): Caches
      reads this
    {
      Caches(l1, l2)
    }

    ghost predicate Valid()
      reads this
    {
      Coherent(View(), l3)
    }

    constructor (l3: Dataset)
      ensures Valid() && this.l3 == l3 && View() == Caches(map[], map[])
    {
      this.l3 := l3;
      l1, l2 := map[], map[];
    }

    method Forget(lostL1: set<string>, lostL2: set<string>)
      requires Valid()
      modifies this
      ensures Valid() && View() == Evicted(old(View()), lostL1, lostL2)
    {
      l1, l2 := l1 - lostL1, l2 - lostL2;
    }

    method LookupMsisdn(msisdn: string, f: Faults) returns (response: Option<Response>)
      requires Valid()
      modifies this
      ensures Valid() && (View(), response) == Lookup(old(View()), l3, msisdn, f)
      ensures response.Some? ==> response.value.record == Answer(l3, msisdn)
    {
      LookupIsTransparent(View(), l3, msisdn, f);
      var normalized := Normalize(msisdn);
      if normalized in l1 {
        return Some(Response(normalized, Some(l1[normalized]), true, L1));
      }
      if !f.l2Get && normalized in l2 {
        var record := l2[normalized];
        l1 := l1[normalized := record];
        return Some(Response(normalized, Some(record), true, L2));
      }
      if f.l3 {
        return None;
      }
      if normalized in l3 {
        var record := l3[normalized];
        l1 := l1[normalized := record];
        if !f.l2Set {
          l2 := l2[normalized := record];
        }
        return Some(Response(normalized, Some(record), true, L3));
      }
      return Some(Response(normalized, DefaultRouting(normalized), false, Miss));
    }

    /** One iteration of the batch loop. */
    method LookupNext(msisdn: string, env: Env, found: map<string, Option<Record>>, counted: CacheStats)
      returns (results: map<string, Option<Record>>, stats: CacheStats)
      modifies this
      ensures Batch(View(), results, stats) == Next(Batch(old(View()), found, counted), l3, ItemOf(msisdn, env))
    {
      results, stats := found, counted;
      l1, l2 := l1 - env.lostL1, l2 - env.lostL2;
      var normalized := Normalize(msisdn);
      if normalized in l1 {
        results := results[normalized := Some(l1[normalized])];
        stats := stats.(l1 := stats.l1 + 1);
        return;
      }
      if !env.faults.l2Get && normalized in l2 {
        var record := l2[normalized];
        l1 := l1[normalized := record];
        results := results[normalized := Some(record)];
        stats := stats.(l2 := stats.l2 + 1);
        return;
      }
      if !env.faults.l3 && normalized in l3 {
        var record := l3[normalized];
        l1 := l1[normalized := record];
        if !env.faults.l2Set {
          l2 := l2[normalized := record];
        }
        results := results[normalized := Some(record)];
        stats := stats.(l3 := stats.l3 + 1);
        return;
      }
      results := results[normalized := DefaultRouting(msisdn)];
      stats := stats.(misses := stats.misses + 1);
    }

    /** More than a thousand numbers are refused and change nothing. */
    method LookupMnpBulk(msisdns: seq<string>, envs: seq<Env>)
      returns (results: Option<map<string, Option<Record>>>, stats: CacheStats)
      requires Valid() && |msisdns| == |envs|
      modifies this
      ensures Valid()
      ensures results.Some? <==> |msisdns| <= 1000
      ensures results.None? ==> View() == old(View())
      ensures results.Some? ==> (Batch(View(), results.value, stats) == Bulk(old(View()), l3, Items(msisdns, envs)))
      ensures results.Some? ==> Total(stats) == |msisdns|
      ensures results.Some? ==>
        var items := Items(msisdns, envs);
        && stats.l1 == |AnsweredBy(old(View()), l3, items, L1)|
        && stats.l2 == |AnsweredBy(old(View()), l3, items, L2)|
        && stats.l3 == |AnsweredBy(old(View()), l3, items, L3)|
        && stats.misses == |AnsweredBy(old(View()), l3, items, Miss)|
    {
      stats := CacheStats(0, 0, 0, 0);
      if |msisdns| > 1000 {
        return None, stats;
      }
      ghost var before, items := View(), Items(msisdns, envs);
      var found: map<string, Option<Record>> := map[];
      for i := 0 to |msisdns|
        invariant Batch(View(), found, stats) == Bulk(before, l3, items[..i])
      {
        BulkGrows(before, l3, items, i);
        found, stats := LookupNext(msisdns[i], envs[i], found, stats);
      }
      assert items[..|msisdns|] == items;
      BulkCounts(before, l3, items);
      BulkCountsByLevel(before, l3, items);
      results := Some(found);
    }
  }
}
