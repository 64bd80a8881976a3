/** The optional value used for settings entries, the reset cursor and the
    archive entry a reset may return. */
module Options {
  datatype Option<T> = None | Some(value: T) {
    /** `d.get(key, default)` once the entry has been looked up. */
    function GetOr(default: T): T {
      match this
      case Some(v) => v
      case None => default
    }
  }
}

/** Per-user counters and ledgers: the `{user_id: count}` and
    `{user_id: amount}` dictionaries of the Knecht cog. User ids are the
    canonical strings the loader coerces every key to. */
module Counters {

  type UserId = string

  /** A dictionary from user id to a count or an amount. */
  type Counter = map<UserId, int>

  /** `m.get(u, 0)`. */
  function Get(m: Counter, u: UserId): int {
    if u in m then m[u] else 0
  }

  /** `m[u] = m.get(u, 0) + k`: the entry of `u` rises by `k`, the entry is
      created when it was missing, and no other entry changes. */
  function Bump(m: Counter, u: UserId, k: int): (r: Counter)
    ensures r.Keys == m.Keys + {u}
    ensures Get(r, u) == Get(m, u) + k
    ensures forall v :: v != u ==> Get(r, v) == Get(m, v)
    ensures forall v :: v in m && v != u ==> r[v] == m[v]
  {
    m[u := Get(m, u) + k]
  }

  /** The lifetime fold of a daily counter: every user of either counter, with
      the two amounts added. */
  function Merge(into: Counter, from: Counter): (r: Counter)
    ensures r.Keys == into.Keys + from.Keys
    ensures forall u :: Get(r, u) == Get(into, u) + Get(from, u)
  {
    map u | u in into.Keys + from.Keys :: Get(into, u) + Get(from, u)
  }

  /** Folding a counter of non-negative amounts into another one never lowers
      any entry of the target. */
  lemma MergeNeverLowers(into: Counter, from: Counter)
    requires forall u :: u in from ==> from[u] >= 0
    ensures forall u :: Get(Merge(into, from), u) >= Get(into, u)
  {
    forall u ensures Get(Merge(into, from), u) >= Get(into, u) {
      assert Get(from, u) >= 0;
    }
  }

  /** The loop of src/cogs/knecht.py:495-498 (and 500-502 for profit): one
      pass over the daily entries, each added into the lifetime entry, which
      is created at 0 when missing. Dictionary iteration order does not
      matter to the result, so the entries are taken in any order. */
  method MergeInto(into: Counter, from: Counter) returns (r: Counter)
    ensures r == Merge(into, from)
  {
    r := into;
    var pending := from.Keys;
    ghost var done: set<UserId> := {};
    while pending != {}
      invariant done == from.Keys - pending && pending <= from.Keys
      invariant r.Keys == into.Keys + done
      invariant forall u :: u in r ==> r[u] == Get(into, u) + (if u in done then from[u] else 0)
      decreases pending
    {
      var u :| u in pending;
      var before := if u in r then r[u] else 0;
      r := r[u := before + from[u]];
      pending := pending - {u};
      done := done + {u};
    }
    assert done == from.Keys;
    MergeIs(into, from, r);
  }

  /** A counter that holds every user of `into` and `from`, each with the sum
      of the two entries, is their merge. */
  lemma MergeIs(into: Counter, from: Counter, r: Counter)
    requires r.Keys == into.Keys + from.Keys
    requires forall u :: u in r ==> r[u] == Get(into, u) + Get(from, u)
    ensures r == Merge(into, from)
  {
  }

  /** The four work categories of `daily_work` and `lifetime_work`. */
  datatype Category = Placed | Fixes | Containers | Hafenevents

  /** The order in which the reset walks the categories. */
  const CATEGORIES: seq<Category> := [Placed, Fixes, Containers, Hafenevents]

  /** A `{"placed": {...}, "fixes": {...}, "containers": {...},
      "hafenevents": {...}}` dictionary; the loader always builds all four
      keys, so a record with four counters holds it. */
  datatype Work = Work(placed: Counter, fixes: Counter, containers: Counter, hafenevents: Counter)
  {
    /** `work[category]`. */
    function Of(c: Category): Counter {
      match c
      case Placed => placed
      case Fixes => fixes
      case Containers => containers
      case Hafenevents => hafenevents
    }

    /** `work[category] = m`: only that category changes. */
    function With(c: Category, m: Counter): (w: Work)
      ensures w.Of(c) == m
      ensures forall d :: d != c ==> w.Of(d) == Of(d)
    {
      match c
      case Placed => this.(placed := m)
      case Fixes => this.(fixes := m)
      case Containers => this.(containers := m)
      case Hafenevents => this.(hafenevents := m)
    }

    /** `work[category][u] = work[category].get(u, 0) + 1`. */
    function Count(c: Category, u: UserId): (w: Work)
      ensures Get(w.Of(c), u) == Get(Of(c), u) + 1
      ensures forall v :: v != u ==> Get(w.Of(c), v) == Get(Of(c), v)
      ensures forall d :: d != c ==> w.Of(d) == Of(d)
    {
      With(c, Bump(Of(c), u, 1))
    }

    /** Some category holds at least one entry (a non-empty dictionary is
        truthy in Python, whatever its values). */
    predicate Any() {
      placed != map[] || fixes != map[] || containers != map[] || hafenevents != map[]
    }
  }

  /** `{"placed": {}, "fixes": {}, "containers": {}, "hafenevents": {}}`. */
  const EMPTY_WORK: Work := Work(map[], map[], map[], map[])

  /** The lifetime fold of daily work, category by category. */
  function MergeWork(life: Work, daily: Work): Work {
    Work(Merge(life.placed, daily.placed), Merge(life.fixes, daily.fixes),
         Merge(life.containers, daily.containers), Merge(life.hafenevents, daily.hafenevents))
  }

  /** Every category of the fold is the merge of that category. */
  lemma MergeWorkOf(life: Work, daily: Work, c: Category)
    ensures MergeWork(life, daily).Of(c) == Merge(life.Of(c), daily.Of(c))
  {
  }

  /** The category loop of src/cogs/knecht.py:494-498: each category of the
      daily work is merged into the same category of lifetime work, in the
      order of CATEGORIES. */
  method MergeWorkInto(life: Work, daily: Work) returns (r: Work)
    ensures r == MergeWork(life, daily)
  {
    r := life;
    for k := 0 to |CATEGORIES|
      invariant forall i :: 0 <= i < k ==> r.Of(CATEGORIES[i]) == Merge(life.Of(CATEGORIES[i]), daily.Of(CATEGORIES[i]))
      invariant forall i :: k <= i < |CATEGORIES| ==> r.Of(CATEGORIES[i]) == life.Of(CATEGORIES[i])
    {
      var c := CATEGORIES[k];
      var merged := MergeInto(r.Of(c), daily.Of(c));
      r := r.With(c, merged);
    }
    MergeWorkAll(life, daily, r);
  }

  /** A work record whose every category is the merge of the two records'
      categories is their fold. */
  lemma MergeWorkAll(life: Work, daily: Work, r: Work)
    requires forall i :: 0 <= i < |CATEGORIES| ==> r.Of(CATEGORIES[i]) == Merge(life.Of(CATEGORIES[i]), daily.Of(CATEGORIES[i]))
    ensures r == MergeWork(life, daily)
  {
    assert r.Of(CATEGORIES[0]) == r.placed;
    assert r.Of(CATEGORIES[1]) == r.fixes;
    assert r.Of(CATEGORIES[2]) == r.containers;
    assert r.Of(CATEGORIES[3]) == r.hafenevents;
  }
}
