/** The payout made when a panel is collected (src/cogs/knecht.py:373-387):
    the battery value is split over everyone in the panel's log, in
    proportion to how many of its entries are theirs, each share truncated
    toward zero, and each positive share is credited to that user's daily
    profit. */
module Payout {
  import opened Clock
  import opened Counters
  import opened Panels

  /** The user of each log entry, in log order. */
  function Ids(log: seq<Interaction>): (ids: seq<UserId>)
    ensures |ids| == |log|
    ensures forall i :: 0 <= i < |log| ==> ids[i] == log[i].user
  {
    seq(|log|, i requires 0 <= i < |log| => log[i].user)
  }

  /** How often `u` occurs in `s`. */
  function Occ(s: seq<UserId>, u: UserId): nat {
    if s == [] then 0 else Occ(s[..|s| - 1], u) + (if s[|s| - 1] == u then 1 else 0)
  }

  predicate Distinct(s: seq<UserId>) {
    forall i, j :: 0 <= i < j < |s| ==> s[i] != s[j]
  }

  /** The users of `s` in order of first occurrence: the key order of the
      `user_counts` dictionary built from the log. */
  function Dedup(s: seq<UserId>): (d: seq<UserId>)
    ensures Distinct(d)
    ensures forall x :: x in d <==> x in s
  {
    if s == [] then []
    else
      var d := Dedup(s[..|s| - 1]);
      if s[|s| - 1] in d then d else d + [s[|s| - 1]]
  }

  /** `int((count / total) * battery_val)`, computed exactly. */
  function Share(count: int, total: int, battery: int): int
    requires total > 0
  {
    TruncDiv(count * battery, total)
  }

  /** The share of `u` in a log whose users are `ids`. */
  function ShareOf(ids: seq<UserId>, u: UserId, battery: int): int
    requires |ids| > 0
  {
    Share(Occ(ids, u), |ids|, battery)
  }

  /** What `u` is actually credited: the share when it is positive, else
      nothing. */
  function Credit(ids: seq<UserId>, u: UserId, battery: int): nat
    requires |ids| > 0
  {
    var share := ShareOf(ids, u, battery);
    if share > 0 then share else 0
  }

  /** Crediting `u` with their share of `ids`, when it is positive. */
  function CreditOne(p: Counter, u: UserId, ids: seq<UserId>, battery: int): Counter
    requires |ids| > 0
  {
    var share := ShareOf(ids, u, battery);
    if share > 0 then p[u := Get(p, u) + share] else p
  }

  /** Crediting the users `us` in order, each with their share of `ids`. */
  function CreditAll(profit: Counter, us: seq<UserId>, ids: seq<UserId>, battery: int): Counter
    requires |ids| > 0
  {
    if us == [] then profit
    else CreditOne(CreditAll(profit, us[..|us| - 1], ids, battery), us[|us| - 1], ids, battery)
  }

  lemma CreditAllSnoc(profit: Counter, us: seq<UserId>, u: UserId, ids: seq<UserId>, battery: int)
    requires |ids| > 0
    ensures CreditAll(profit, us + [u], ids, battery) == CreditOne(CreditAll(profit, us, ids, battery), u, ids, battery)
  {
    assert (us + [u])[..|us|] == us;
  }

  lemma CreditAllNext(profit: Counter, us: seq<UserId>, j: nat, ids: seq<UserId>, battery: int)
    requires |ids| > 0 && j < |us|
    ensures CreditAll(profit, us[..j + 1], ids, battery) == CreditOne(CreditAll(profit, us[..j], ids, battery), us[j], ids, battery)
  {
    assert us[..j + 1] == us[..j] + [us[j]];
    CreditAllSnoc(profit, us[..j], us[j], ids, battery);
  }

  /** The daily profit after a panel with this log has been collected. A log
      without entries pays nothing (the `total_interactions > 0` guard). */
  function PayoutOf(profit: Counter, log: seq<Interaction>, battery: int): Counter {
    if |log| == 0 then profit else CreditAll(profit, Dedup(Ids(log)), Ids(log), battery)
  }

  /** The total of what the users `us` are credited. */
  function SumCredit(us: seq<UserId>, ids: seq<UserId>, battery: int): int
    requires |ids| > 0
  {
    if us == [] then 0 else SumCredit(us[..|us| - 1], ids, battery) + Credit(ids, us[|us| - 1], battery)
  }

  /** The total number of entries of `ids` that belong to the users `us`. */
  function SumOcc(us: seq<UserId>, ids: seq<UserId>): nat {
    if us == [] then 0 else SumOcc(us[..|us| - 1], ids) + Occ(ids, us[|us| - 1])
  }

  // ---------------------------------------------------------------------
  // The ledger after a payout.

  /** Crediting distinct users raises each one's entry by their credit and
      nobody else's; it creates an entry only for a user whose share is
      positive. */
  lemma {:induction false} CreditAllAt(profit: Counter, us: seq<UserId>, ids: seq<UserId>, battery: int)
    requires |ids| > 0 && Distinct(us)
    ensures forall u :: Get(CreditAll(profit, us, ids, battery), u)
                        == Get(profit, u) + (if u in us then Credit(ids, u, battery) else 0)
    ensures forall u :: u in CreditAll(profit, us, ids, battery)
                        <==> u in profit || (u in us && ShareOf(ids, u, battery) > 0)
  {
    if us != [] {
      var init := us[..|us| - 1];
      assert Distinct(init);
      CreditAllAt(profit, init, ids, battery);
      var last := us[|us| - 1];
      assert last !in init;
      assert forall u :: u in us <==> u in init || u == last;
    }
  }

  /** The payout of a collected panel: every contributor's daily profit rises
      by their credit, nobody else's changes, and a contributor whose share is
      0 gets no entry. */
  lemma PayoutAt(profit: Counter, log: seq<Interaction>, battery: int, u: UserId)
    requires |log| > 0
    ensures Get(PayoutOf(profit, log, battery), u)
            == Get(profit, u) + (if u in Ids(log) then Credit(Ids(log), u, battery) else 0)
    ensures u in PayoutOf(profit, log, battery)
            <==> u in profit || (u in Ids(log) && ShareOf(Ids(log), u, battery) > 0)
  {
    CreditAllAt(profit, Dedup(Ids(log)), Ids(log), battery);
  }

  // ---------------------------------------------------------------------
  // The rounding loss is bounded.

  lemma OccSnoc(s: seq<UserId>, x: UserId, u: UserId)
    ensures Occ(s + [x], u) == Occ(s, u) + (if x == u then 1 else 0)
  {
    assert (s + [x])[..|s|] == s;
  }

  /** In a sequence without repetitions a user occurs once or not at all. */
  lemma {:induction false} OccDistinct(us: seq<UserId>, x: UserId)
    requires Distinct(us)
    ensures Occ(us, x) == if x in us then 1 else 0
  {
    if us != [] {
      var init := us[..|us| - 1];
      assert Distinct(init);
      OccDistinct(init, x);
      assert us == init + [us[|us| - 1]];
      assert us[|us| - 1] !in init;
    }
  }

  lemma {:induction false} SumOccSnoc(us: seq<UserId>, s: seq<UserId>, x: UserId)
    ensures SumOcc(us, s + [x]) == SumOcc(us, s) + Occ(us, x)
  {
    if us != [] {
      SumOccSnoc(us[..|us| - 1], s, x);
      OccSnoc(s, x, us[|us| - 1]);
    }
  }

  /** Every entry belongs to exactly one contributor. */
  lemma {:induction false} SumOccDedup(s: seq<UserId>)
    ensures SumOcc(Dedup(s), s) == |s|
  {
    if s != [] {
      var init, x := s[..|s| - 1], s[|s| - 1];
      assert s == init + [x];
      SumOccDedup(init);
      var d := Dedup(init);
      SumOccSnoc(d, init, x);
      OccDistinct(d, x);
      if x !in d {
        assert Dedup(s) == d + [x];
        assert (d + [x])[..|d|] == d;
        OccSnoc(init, x, x);
        assert x !in init;
        assert Occ(init, x) == 0 by { OccAbsent(init, x); }
      }
    }
  }

  lemma {:induction false} OccAbsent(s: seq<UserId>, x: UserId)
    requires x !in s
    ensures Occ(s, x) == 0
  {
    if s != [] {
      assert s[..|s| - 1] <= s;
      OccAbsent(s[..|s| - 1], x);
    }
  }

  /** With a non-negative battery value, `t` times the credits of `us` lies
      within `t * |us|` below `battery` times their entries, `t` being the
      length of the log. */
  lemma {:induction false} CreditBracket(us: seq<UserId>, ids: seq<UserId>, battery: int)
    requires |ids| > 0 && battery >= 0
    ensures |ids| * SumCredit(us, ids, battery) <= battery * SumOcc(us, ids)
    ensures us == [] || battery * SumOcc(us, ids) < |ids| * SumCredit(us, ids, battery) + |ids| * |us|
  {
    if us != [] {
      var init, u := us[..|us| - 1], us[|us| - 1];
      CreditBracket(init, ids, battery);
      var t, o := |ids|, Occ(ids, u);
      var q := TruncDiv(o * battery, t);
      TruncDivBounds(o * battery, t);
      assert Credit(ids, u, battery) == q;
      BracketStep(t, battery, SumCredit(init, ids, battery), SumOcc(init, ids), |init|, q, o);
    }
  }

  /** One step of the bracket: adding a user whose truncated share is `q`
      of `o` entries. */
  lemma BracketStep(t: int, v: int, s0: int, n0: int, m0: int, q: int, o: int)
    requires t > 0 && m0 >= 0
    requires t * s0 <= v * n0
    requires v * n0 < t * s0 + t * m0 || (s0 == 0 && n0 == 0 && m0 == 0)
    requires q * t <= o * v < q * t + t
    ensures t * (s0 + q) <= v * (n0 + o)
    ensures v * (n0 + o) < t * (s0 + q) + t * (m0 + 1)
  {
    Distribute(t, s0, q);
    Distribute(v, n0, o);
    Distribute(t, m0, 1);
    assert q * t == t * q && o * v == v * o;
  }

  lemma Distribute(a: int, b: int, c: int)
    ensures a * (b + c) == a * b + a * c
  {
  }

  /** The last step of the bound: from the bracket over all contributors to
      the bound on the credits. */
  lemma CancelBracket(t: int, s: int, v: int, n: int, m: int)
    requires t > 0 && n == t && m > 0
    requires t * s <= v * n
    requires v * n < t * s + t * m
    ensures s <= v && v - s < m
  {
    assert v * n == t * v;
    if s > v {
      Distribute(t, v, s - v);
      MoreThanOnce(t, s - v);
    }
    Distribute(t, s, m);
    if v - s >= m {
      Distribute(t, s + m, v - s - m);
      assert t * v == t * (s + m) + t * (v - s - m);
      NonNegativeProduct(t, v - s - m);
    }
  }

  lemma MoreThanOnce(t: int, k: int)
    requires t > 0 && k >= 1
    ensures t * k >= t
  {
  }

  lemma NonNegativeProduct(t: int, k: int)
    requires t > 0 && k >= 0
    ensures t * k >= 0
  {
  }

  /** The shares credited for a collected panel never add up to more than
      the battery value, and the shortfall left by truncation is smaller than
      the number of distinct contributors. */
  lemma PayoutBounded(log: seq<Interaction>, battery: int)
    requires |log| > 0 && battery >= 0
    ensures var ids := Ids(log);
            0 <= battery - SumCredit(Dedup(ids), ids, battery) < |Dedup(ids)|
  {
    var ids := Ids(log);
    var d := Dedup(ids);
    CreditBracket(d, ids, battery);
    SumOccDedup(ids);
    assert ids[0] in d;
    CancelBracket(|ids|, SumCredit(d, ids, battery), battery, SumOcc(d, ids), |d|);
  }

  /** A battery value of 0 or less credits nobody anything. */
  lemma NonPositiveBatteryPaysNothing(profit: Counter, log: seq<Interaction>, battery: int)
    requires |log| > 0 && battery <= 0
    ensures PayoutOf(profit, log, battery) == profit
  {
    var ids := Ids(log);
    forall u | u in ids ensures ShareOf(ids, u, battery) <= 0 {
      NonPositiveShare(Occ(ids, u), |ids|, battery);
    }
    NoShareNoCredit(profit, Dedup(ids), ids, battery);
  }

  lemma {:induction false} NoShareNoCredit(profit: Counter, us: seq<UserId>, ids: seq<UserId>, battery: int)
    requires |ids| > 0
    requires forall u :: u in us ==> ShareOf(ids, u, battery) <= 0
    ensures CreditAll(profit, us, ids, battery) == profit
  {
    if us != [] {
      assert us[|us| - 1] in us;
      NoShareNoCredit(profit, us[..|us| - 1], ids, battery);
    }
  }

  lemma NonPositiveShare(o: nat, t: int, battery: int)
    requires t > 0 && battery <= 0
    ensures Share(o, t, battery) <= 0
  {
    assert o * battery <= 0;
    TruncDivBounds(o * battery, t);
  }

  /** Interactions `[place by A, fix by B, fix by B]` and a battery value of
      300 pay A 100 and B 200. */
  lemma ThirdsOfThreeHundred()
    ensures PayoutOf(map[], [Interaction("A", Place, 0), Interaction("B", Fix, 1), Interaction("B", Fix, 2)], 300)
            == map["A" := 100, "B" := 200]
  {
    var log := [Interaction("A", Place, 0), Interaction("B", Fix, 1), Interaction("B", Fix, 2)];
    assert Ids(log) == ["A", "B", "B"];
    CountsOfABB();
    CreditsOfABB();
  }

  lemma CreditsOfABB()
    requires Occ(["A", "B", "B"], "A") == 1 && Occ(["A", "B", "B"], "B") == 2
    ensures CreditAll(map[], ["A", "B"], ["A", "B", "B"], 300) == map["A" := 100, "B" := 200]
  {
    var ids: seq<UserId> := ["A", "B", "B"];
    assert ["A", "B"][..1] == ["A"];
    assert ShareOf(ids, "A", 300) == 100;
    assert ShareOf(ids, "B", 300) == 200;
    assert CreditAll(map[], ["A"], ids, 300) == map["A" := 100];
  }

  lemma CountsOfABB()
    ensures Dedup(["A", "B", "B"]) == ["A", "B"]
    ensures Occ(["A", "B", "B"], "A") == 1 && Occ(["A", "B", "B"], "B") == 2
  {
    var ids: seq<UserId> := ["A", "B", "B"];
    assert ids[..2] == ["A", "B"];
    assert ["A", "B"][..1] == ["A"];
    assert ["A"][..0] == [];
    assert Dedup(["A"]) == ["A"];
    assert Dedup(["A", "B"]) == ["A", "B"];
    assert Occ(["A"], "A") == 1 && Occ(["A"], "B") == 0;
    assert Occ(["A", "B"], "A") == 1 && Occ(["A", "B"], "B") == 1;
  }

  // ---------------------------------------------------------------------
  // The loops of the payout.

  /** One entry of the counting loop: the next user joins the order when it
      is new and its count rises by one. */
  lemma CountStep(ids: seq<UserId>, k: nat, order: seq<UserId>, counts: map<UserId, int>)
    requires k < |ids|
    requires order == Dedup(ids[..k])
    requires forall u :: u in counts <==> u in order
    requires forall u :: u in counts ==> counts[u] == Occ(ids[..k], u)
    ensures (if ids[k] in counts then order else order + [ids[k]]) == Dedup(ids[..k + 1])
    ensures var c := counts[ids[k] := (if ids[k] in counts then counts[ids[k]] else 0) + 1];
            forall u :: u in c ==> c[u] == Occ(ids[..k + 1], u)
  {
    var prefix := ids[..k];
    assert ids[..k + 1] == prefix + [ids[k]];
    assert (prefix + [ids[k]])[..k] == prefix;
    if ids[k] !in counts {
      OccAbsent(prefix, ids[k]);
    }
    forall u ensures Occ(prefix + [ids[k]], u) == Occ(prefix, u) + (if ids[k] == u then 1 else 0) {
      OccSnoc(prefix, ids[k], u);
    }
  }

  /** src/cogs/knecht.py:379-382: count the entries per user into a
      dictionary; its keys, in insertion order, are the users in order of
      first occurrence. */
  method CountEntries(log: seq<Interaction>) returns (order: seq<UserId>, counts: map<UserId, int>)
    ensures order == Dedup(Ids(log))
    ensures forall u :: u in counts <==> u in order
    ensures forall u :: u in counts ==> counts[u] == Occ(Ids(log), u)
  {
    var ids := Ids(log);
    order := [];
    counts := map[];
    for k := 0 to |ids|
      invariant order == Dedup(ids[..k])
      invariant forall u :: u in counts <==> u in order
      invariant forall u :: u in counts ==> counts[u] == Occ(ids[..k], u)
    {
      var uid := ids[k];
      CountStep(ids, k, order, counts);
      if uid !in counts {
        order := order + [uid];
      }
      counts := counts[uid := (if uid in counts then counts[uid] else 0) + 1];
    }
    assert ids[..|ids|] == ids;
  }

  /** src/cogs/knecht.py:374-387: split the battery value over the entries of
      the collected panel's log and credit each positive share. */
  method SettleCollection(profit: Counter, log: seq<Interaction>, battery: int) returns (r: Counter)
    ensures r == PayoutOf(profit, log, battery)
  {
    r := profit;
    var total := |log|;
    if total > 0 {
      var order, counts := CountEntries(log);
      r := CreditShares(profit, order, counts, total, Ids(log), battery);
    }
  }

  /** src/cogs/knecht.py:384-387: each counted user, in key order, is
      credited with their share when it is positive. */
  method CreditShares(profit: Counter, order: seq<UserId>, counts: map<UserId, int>, total: int,
                      ghost ids: seq<UserId>, battery: int) returns (r: Counter)
    requires total == |ids| > 0
    requires forall u :: u in order ==> u in counts && counts[u] == Occ(ids, u)
    ensures r == CreditAll(profit, order, ids, battery)
  {
    r := profit;
    for j := 0 to |order|
      invariant r == CreditAll(profit, order[..j], ids, battery)
    {
      var uid := order[j];
      var share := Share(counts[uid], total, battery);
      if share > 0 {
        r := r[uid := Get(r, uid) + share];
      }
      CreditAllNext(profit, order, j, ids, battery);
    }
    assert order[..|order|] == order;
  }
}
