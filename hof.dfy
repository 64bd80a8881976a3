/** The hall of fame (src/utils/hof.py): the mechanics values it holds for
    the cog and the daily leaderboard it builds from the cog's dictionaries. */
module HallOfFame {
  import opened Options
  import opened Counters

  /** The entries of the mechanics dictionary the cog reads; a key missing
      from the dictionary is None. */
  datatype Mechanics = Mechanics(batteryValue: Option<int>, wertvollerContainer: Option<int>, hafendrop: Option<int>)
  {
    /** `mechanics.get("battery_value", 50000)` (src/cogs/knecht.py:378). */
    function BatteryValue(): int { batteryValue.GetOr(50000) }

    /** `mechanics.get("wertvoller_container", 90000)` (src/cogs/knecht.py:188). */
    function ContainerValue(): int { wertvollerContainer.GetOr(90000) }

    /** `mechanics.get("hafendrop", 24000)` (src/cogs/knecht.py:206). */
    function HafendropValue(): int { hafendrop.GetOr(24000) }
  }

  /** The built-in mechanics used when the file is missing
      (src/utils/hof.py:8-11): none of the three keys the cog reads. */
  const DEFAULT_MECHANICS: Mechanics := Mechanics(None, None, None)

  /** The `details` dictionary of a leaderboard entry. */
  datatype Details = Details(placed: int, fixes: int, containers: int, hafenevents: int, batteries: int)

  /** A `(user_id, total_value, details)` tuple. */
  datatype Entry = Entry(uid: UserId, totalValue: int, details: Details)

  /** Every user with an entry in any work category, the profit ledger or
      the battery counter. */
  function Users(work: Work, profit: Counter, batteries: Counter): set<UserId> {
    work.placed.Keys + work.fixes.Keys + work.containers.Keys + work.hafenevents.Keys
    + profit.Keys + batteries.Keys
  }

  /** The entry of one user: the realized profit as it stands in the ledger,
      and that user's counts, 0 where a dictionary has no entry. */
  function EntryFor(u: UserId, work: Work, profit: Counter, batteries: Counter): Entry {
    Entry(u, Get(profit, u),
          Details(Get(work.placed, u), Get(work.fixes, u), Get(work.containers, u),
                  Get(work.hafenevents, u), Get(batteries, u)))
  }

  /** Non-increasing by total value. */
  predicate SortedByValue(board: seq<Entry>) {
    forall i, j :: 0 <= i < j < |board| ==> board[i].totalValue >= board[j].totalValue
  }

  /** Inserting into a list sorted by value, after every entry that is worth
      at least as much, so equal values keep their order. */
  function InsertByValue(sorted: seq<Entry>, e: Entry): seq<Entry> {
    if sorted == [] then [e]
    else if sorted[0].totalValue >= e.totalValue then [sorted[0]] + InsertByValue(sorted[1..], e)
    else [e] + sorted
  }

  /** Insertion keeps the list sorted and adds exactly the one entry. */
  lemma {:induction false} InsertByValueSorts(sorted: seq<Entry>, e: Entry)
    requires SortedByValue(sorted)
    ensures SortedByValue(InsertByValue(sorted, e))
    ensures multiset(InsertByValue(sorted, e)) == multiset(sorted) + multiset{e}
  {
    if sorted != [] {
      var h := sorted[0];
      var tail := sorted[1..];
      assert sorted == [h] + tail;
      if h.totalValue >= e.totalValue {
        var rest := InsertByValue(tail, e);
        InsertByValueSorts(tail, e);
        forall j | 0 <= j < |tail| ensures h.totalValue >= tail[j].totalValue {
          assert tail[j] == sorted[j + 1];
        }
        BoundedByHead(h, tail, e, rest);
        SortedCons(h, rest);
      }
    }
  }

  /** A bound on every entry of `xs` and on `e` bounds every entry of a
      permutation of `xs` with `e` added. */
  lemma BoundedByHead(h: Entry, xs: seq<Entry>, e: Entry, ys: seq<Entry>)
    requires forall j :: 0 <= j < |xs| ==> h.totalValue >= xs[j].totalValue
    requires h.totalValue >= e.totalValue
    requires multiset(ys) == multiset(xs) + multiset{e}
    ensures forall j :: 0 <= j < |ys| ==> h.totalValue >= ys[j].totalValue
  {
    forall j | 0 <= j < |ys| ensures h.totalValue >= ys[j].totalValue {
      assert ys[j] in multiset(ys);
      if ys[j] != e {
        assert ys[j] in multiset(xs);
      }
    }
  }

  lemma SortedCons(h: Entry, rest: seq<Entry>)
    requires SortedByValue(rest)
    requires forall j :: 0 <= j < |rest| ==> h.totalValue >= rest[j].totalValue
    ensures SortedByValue([h] + rest)
  {
    var r := [h] + rest;
    forall i, j | 0 <= i < j < |r| ensures r[i].totalValue >= r[j].totalValue {
      if i > 0 {
        assert r[i] == rest[i - 1] && r[j] == rest[j - 1];
      } else {
        assert r[j] == rest[j - 1];
      }
    }
  }

  /** `list.sort(key=total_value, reverse=True)`: the same entries, ordered
      by value from the highest down. */
  method SortByValue(entries: seq<Entry>) returns (sorted: seq<Entry>)
    ensures SortedByValue(sorted)
    ensures multiset(sorted) == multiset(entries)
  {
    sorted := [];
    for k := 0 to |entries|
      invariant SortedByValue(sorted)
      invariant multiset(sorted) == multiset(entries[..k])
    {
      assert entries[..k + 1] == entries[..k] + [entries[k]];
      InsertByValueSorts(sorted, entries[k]);
      sorted := InsertByValue(sorted, entries[k]);
    }
    assert entries[..|entries|] == entries;
  }

  /** The entries of the users `us`, one per user. */
  function EntriesOf(us: set<UserId>, work: Work, profit: Counter, batteries: Counter): set<Entry> {
    set u | u in us :: EntryFor(u, work, profit, batteries)
  }

  /** `get_leaderboard(daily_work, daily_profit, daily_batteries)`
      (src/utils/hof.py:23-55): the entries of all users of the six
      dictionaries, each exactly once and nothing else, sorted by value from
      the highest down. The inputs are values and stay as they were. */
  method GetLeaderboard(work: Work, profit: Counter, batteries: Counter) returns (board: seq<Entry>)
    ensures multiset(board) == multiset(EntriesOf(Users(work, profit, batteries), work, profit, batteries))
    ensures SortedByValue(board)
  {
    var users: set<UserId> := {};
    users := users + work.placed.Keys;
    users := users + work.fixes.Keys;
    users := users + work.containers.Keys;
    users := users + work.hafenevents.Keys;
    users := users + profit.Keys;
    users := users + batteries.Keys;
    assert users == Users(work, profit, batteries);
    var entries := CollectEntries(users, work, profit, batteries);
    board := SortByValue(entries);
  }

  /** src/utils/hof.py:39-51: one entry per user, in the set's iteration
      order, which is left open. */
  method CollectEntries(users: set<UserId>, work: Work, profit: Counter, batteries: Counter)
    returns (entries: seq<Entry>)
    ensures multiset(entries) == multiset(EntriesOf(users, work, profit, batteries))
  {
    entries := [];
    var pending := users;
    while pending != {}
      invariant pending <= users
      invariant multiset(entries) == multiset(EntriesOf(users - pending, work, profit, batteries))
      decreases pending
    {
      var uid :| uid in pending;
      var val := Get(profit, uid);
      var details := Details(Get(work.placed, uid), Get(work.fixes, uid), Get(work.containers, uid),
                             Get(work.hafenevents, uid), Get(batteries, uid));
      EntriesOfGrows(users - pending, uid, work, profit, batteries);
      assert users - (pending - {uid}) == (users - pending) + {uid};
      entries := entries + [Entry(uid, val, details)];
      pending := pending - {uid};
    }
  }

  /** Adding a user adds that user's entry, which was not there yet. */
  lemma EntriesOfGrows(done: set<UserId>, uid: UserId, work: Work, profit: Counter, batteries: Counter)
    requires uid !in done
    ensures multiset(EntriesOf(done + {uid}, work, profit, batteries))
            == multiset(EntriesOf(done, work, profit, batteries)) + multiset{EntryFor(uid, work, profit, batteries)}
  {
    var e := EntryFor(uid, work, profit, batteries);
    assert EntriesOf(done + {uid}, work, profit, batteries) == EntriesOf(done, work, profit, batteries) + {e};
    assert e !in EntriesOf(done, work, profit, batteries);
  }

  /** What a board holding exactly the users' entries means entry by entry:
      every entry belongs to one of the users and carries that user's ledger
      profit and counts, and every user has exactly one entry. */
  lemma BoardEntries(board: seq<Entry>, work: Work, profit: Counter, batteries: Counter)
    requires multiset(board) == multiset(EntriesOf(Users(work, profit, batteries), work, profit, batteries))
    ensures forall i :: 0 <= i < |board| ==>
              board[i].uid in Users(work, profit, batteries)
              && board[i] == EntryFor(board[i].uid, work, profit, batteries)
    ensures forall u :: u in Users(work, profit, batteries) ==>
              multiset(board)[EntryFor(u, work, profit, batteries)] == 1
    ensures |board| == |Users(work, profit, batteries)|
  {
    var users := Users(work, profit, batteries);
    var es := EntriesOf(users, work, profit, batteries);
    forall i | 0 <= i < |board|
      ensures board[i].uid in users && board[i] == EntryFor(board[i].uid, work, profit, batteries)
    {
      assert board[i] in multiset(board);
      assert board[i] in es;
    }
    EntriesOfSize(users, work, profit, batteries);
    assert |board| == |multiset(board)|;
  }

  /** Different users have different entries. */
  lemma {:induction false} EntriesOfSize(us: set<UserId>, work: Work, profit: Counter, batteries: Counter)
    ensures |EntriesOf(us, work, profit, batteries)| == |us|
    decreases us
  {
    if us != {} {
      var u :| u in us;
      EntriesOfSize(us - {u}, work, profit, batteries);
      assert EntriesOf(us, work, profit, batteries)
             == EntriesOf(us - {u}, work, profit, batteries) + {EntryFor(u, work, profit, batteries)};
    }
  }
}
