/** The state of the Knecht cog as a value, and what each of its operations
    does to it (src/cogs/knecht.py). The class `Knecht.KnechtCog` holds the
    same state in fields and is proved to follow these definitions; the
    lemmas here state what the definitions promise. */
module KnechtSpec {
  import opened Options
  import opened Clock
  import opened Counters
  import opened Panels
  import opened Payout

  /** One `history` entry: the day that was closed, tagged with the cursor it
      had (None standing for "Unknown"), and its daily dictionaries. */
  datatype Archive = Archive(date: Option<Day>, work: Work, profit: Counter, batteries: Counter)

  /** The fields of src/cogs/knecht.py:43-65 that the engine reads and writes. */
  datatype Store = Store(
    active: seq<Panel>,
    dailyWork: Work,
    dailyProfit: Counter,
    dailyBatteries: Counter,
    lifetimeWork: Work,
    lifetimeProfit: Counter,
    history: seq<Archive>,
    lastResetDate: Option<Day>)

  /** The state of a freshly constructed cog (src/cogs/knecht.py:43-65). */
  const INITIAL: Store := Store([], EMPTY_WORK, map[], map[], EMPTY_WORK, map[], [], None)

  // ---------------------------------------------------------------------
  // Daily reset (src/cogs/knecht.py:455-525)
  // ---------------------------------------------------------------------

  /** The day had activity worth archiving: some work category or the profit
      ledger holds an entry. Batteries alone do not count. */
  predicate HasActivity(s: Store) {
    s.dailyWork.Any() || s.dailyProfit != map[]
  }

  /** The archive entry a reset returns. */
  function ArchiveOf(s: Store): Option<Archive> {
    if HasActivity(s) then Some(Archive(s.lastResetDate, s.dailyWork, s.dailyProfit, s.dailyBatteries))
    else None
  }

  /** `reset_daily_stats(new_date)`: archive the day when it had activity,
      fold daily work and profit into lifetime, clear the daily dictionaries
      and the active panels, and move the cursor to `newDate`. */
  function ResetDaily(s: Store, newDate: Day): Store {
    Store([], EMPTY_WORK, map[], map[],
          MergeWork(s.lifetimeWork, s.dailyWork),
          Merge(s.lifetimeProfit, s.dailyProfit),
          if HasActivity(s) then s.history + [Archive(s.lastResetDate, s.dailyWork, s.dailyProfit, s.dailyBatteries)]
          else s.history,
          Some(newDate))
  }

  /** A store with the fields of a reset is that reset. */
  lemma ResetDailyIs(s: Store, newDate: Day, r: Store)
    requires r.active == [] && r.dailyWork == EMPTY_WORK && r.dailyProfit == map[] && r.dailyBatteries == map[]
    requires r.lifetimeWork == MergeWork(s.lifetimeWork, s.dailyWork)
    requires r.lifetimeProfit == Merge(s.lifetimeProfit, s.dailyProfit)
    requires r.history == if HasActivity(s) then s.history + [Archive(s.lastResetDate, s.dailyWork, s.dailyProfit, s.dailyBatteries)]
                          else s.history
    requires r.lastResetDate == Some(newDate)
    ensures r == ResetDaily(s, newDate)
  {
  }

  /** The cursor is not at the business date of `now`. */
  predicate ResetDue(s: Store, now: Instant) {
    s.lastResetDate != Some(BusinessDate(now))
  }

  /** The state after `check_daily_reset()` at `now`. */
  function AfterReset(s: Store, now: Instant): Store {
    if ResetDue(s, now) then ResetDaily(s, BusinessDate(now)) else s
  }

  /** What `check_daily_reset()` returns at `now`. */
  function ResetResult(s: Store, now: Instant): Option<Archive> {
    if ResetDue(s, now) then ArchiveOf(s) else None
  }

  /** A reset moves the day into lifetime without losing or inventing any
      amount: per user and category, lifetime plus daily is the same before
      and after; the daily side is empty afterwards, the panels are gone, the
      cursor is the new date, and the history grows by the archive of the
      old day (tagged with the old cursor) exactly when the day had work or
      profit. */
  lemma ResetConserves(s: Store, newDate: Day)
    ensures var r := ResetDaily(s, newDate);
            && (forall c, u :: Get(r.lifetimeWork.Of(c), u) + Get(r.dailyWork.Of(c), u)
                               == Get(s.lifetimeWork.Of(c), u) + Get(s.dailyWork.Of(c), u))
            && (forall u :: Get(r.lifetimeProfit, u) + Get(r.dailyProfit, u)
                            == Get(s.lifetimeProfit, u) + Get(s.dailyProfit, u))
            && (forall c :: r.dailyWork.Of(c) == map[])
            && r.dailyProfit == map[] && r.dailyBatteries == map[] && r.active == []
            && r.lastResetDate == Some(newDate)
            && (HasActivity(s) <==> |r.history| == |s.history| + 1)
            && (!HasActivity(s) ==> r.history == s.history)
            && (HasActivity(s) ==> r.history == s.history + [Archive(s.lastResetDate, s.dailyWork, s.dailyProfit, s.dailyBatteries)])
  {
    var r := ResetDaily(s, newDate);
    forall c, u ensures Get(r.lifetimeWork.Of(c), u) + Get(r.dailyWork.Of(c), u)
                        == Get(s.lifetimeWork.Of(c), u) + Get(s.dailyWork.Of(c), u)
    {
      MergeWorkOf(s.lifetimeWork, s.dailyWork, c);
      assert Get(r.dailyWork.Of(c), u) == 0;
    }
  }

  /** Once the check has run, a second check within the same business date
      changes nothing and returns no archive. */
  lemma ResetIdempotent(s: Store, now: Instant, later: Instant)
    requires BusinessDate(later) == BusinessDate(now)
    ensures AfterReset(AfterReset(s, now), later) == AfterReset(s, now)
    ensures ResetResult(AfterReset(s, now), later) == None
  {
  }

  /** A check does a reset exactly when the cursor differs from the business
      date, and afterwards the cursor is that business date. */
  lemma ResetMovesCursor(s: Store, now: Instant)
    ensures AfterReset(s, now).lastResetDate == Some(BusinessDate(now))
    ensures AfterReset(s, now) != s <==> ResetDue(s, now)
  {
    if ResetDue(s, now) {
      assert AfterReset(s, now).lastResetDate != s.lastResetDate;
    }
  }

  /** Checks at 03:59 and at 04:01 of calendar day `d + 1`, with the cursor
      at business date `d`: the first does nothing, the second archives the
      active day under the previous date `d`. */
  lemma ChecksAroundFour(s: Store, d: Day)
    requires s.lastResetDate == Some(d) && HasActivity(s)
    ensures var early := (d + 1) * DAY + 3 * HOUR + 59 * MINUTE;
            var late := (d + 1) * DAY + 4 * HOUR + MINUTE;
            && AfterReset(s, early) == s && ResetResult(s, early) == None
            && ResetResult(AfterReset(s, early), late)
               == Some(Archive(Some(d), s.dailyWork, s.dailyProfit, s.dailyBatteries))
            && AfterReset(AfterReset(s, early), late).lastResetDate == Some(d + 1)
  {
    var early := (d + 1) * DAY + 3 * HOUR + 59 * MINUTE;
    var late := (d + 1) * DAY + 4 * HOUR + MINUTE;
    BusinessDateIs(early, d);
    BusinessDateIs(late, d + 1);
  }

  /** A manual reset without a date sets the cursor to the calendar date of
      `now` (src/cogs/knecht.py:519-522). Before 04:00 that is one day past
      the business date, so the next check resets the store once more. */
  lemma ManualResetBeforeFourResetsAgain(s: Store, now: Instant)
    requires HourOf(now) < RESET_HOUR
    ensures ResetDue(ResetDaily(s, CalendarDay(now)), now)
    ensures AfterReset(ResetDaily(s, CalendarDay(now)), now).lastResetDate == Some(CalendarDay(now) - 1)
  {
  }

  // ---------------------------------------------------------------------
  // Place (src/cogs/knecht.py:222-253)
  // ---------------------------------------------------------------------

  /** The panel `process_place` creates: its log is one `place` entry. */
  function NewPanel(user: UserId, id: PanelId, now: Instant, liveDuration: int): (p: Panel)
    ensures p.interactions == [Interaction(user, Place, now)]
    ensures p.id == id && p.placedBy == user && p.placedAt == now && p.remainingMinutes == liveDuration
    ensures WellFormed(p) && LoggedBy(p, now)
    ensures !Due(p, liveDuration, now) <==> liveDuration >= 1
  {
    var p := Panel(id, user, now, liveDuration, [Interaction(user, Place, now)]);
    NoDelayAtPlacement(p, now, liveDuration);
    p
  }

  lemma NoDelayAtPlacement(p: Panel, now: Instant, liveDuration: int)
    requires p.placedAt == now
    ensures StateAt(p, liveDuration, now).expiry == now + liveDuration * MINUTE
  {
    assert MissedWindows(p.interactions, FirstCheckpoint(p.placedAt), now) == 0;
  }

  /** The panel is appended first and the reset check runs after it, then the
      user's `placed` count rises. */
  function PlaceStore(s: Store, user: UserId, id: PanelId, now: Instant, liveDuration: int): Store {
    var s1 := s.(active := s.active + [NewPanel(user, id, now, liveDuration)]);
    var s2 := AfterReset(s1, now);
    s2.(dailyWork := s2.dailyWork.Count(Placed, user))
  }

  /** Placing keeps the new panel, at the end of the active list, exactly when
      no reset fires; a reset fired by the placement discards it together with
      every other panel. The user's `placed` count rises by one either way;
      no other count, ledger, lifetime total or history entry changes beyond
      what the reset check itself does. */
  lemma PlaceOutcome(s: Store, user: UserId, id: PanelId, now: Instant, liveDuration: int)
    ensures var r := PlaceStore(s, user, id, now, liveDuration);
            var p := NewPanel(user, id, now, liveDuration);
            && (!ResetDue(s, now) <==> r.active == s.active + [p])
            && (ResetDue(s, now) <==> r.active == [])
            && Get(r.dailyWork.placed, user) == Get(AfterReset(s, now).dailyWork.placed, user) + 1
            && (forall c, v :: v != user || c != Placed ==> Get(r.dailyWork.Of(c), v) == Get(AfterReset(s, now).dailyWork.Of(c), v))
            && r.dailyProfit == AfterReset(s, now).dailyProfit
            && r.dailyBatteries == AfterReset(s, now).dailyBatteries
            && r.lifetimeWork == AfterReset(s, now).lifetimeWork
            && r.lifetimeProfit == AfterReset(s, now).lifetimeProfit
            && r.history == AfterReset(s, now).history
            && r.lastResetDate == Some(BusinessDate(now))
  {
    var p := NewPanel(user, id, now, liveDuration);
    var s1 := s.(active := s.active + [p]);
    assert ResetDue(s1, now) == ResetDue(s, now);
    if !ResetDue(s, now) {
      assert s.active + [p] != [];
    } else {
      assert s.active + [p] != [];
      assert |s.active + [p]| != |s.active|;
    }
  }

  // ---------------------------------------------------------------------
  // Fix (src/cogs/knecht.py:312-405)
  // ---------------------------------------------------------------------

  /** The duplicate-fix guard of the current maintenance window of `now`:
      from hh:30:00.000000 to hh:59:59.999999. */
  function GuardStart(now: Instant): Instant { HourFloor(now) + WINDOW_OPEN }
  function GuardEnd(now: Instant): Instant { HourFloor(now) + HOUR - 1 }

  /** A panel is eligible for `user` at `now` when it is ready for collection,
      or it is the second half of the hour and the user has not fixed it in
      this window yet. */
  predicate Eligible(p: Panel, user: UserId, liveDuration: int, now: Instant) {
    || Due(p, liveDuration, now)
    || (MinuteOf(now) >= 30 && !FixedByWithin(p.interactions, user, GuardStart(now), GuardEnd(now)))
  }

  /** The first pass on one panel: an eligible panel gets one `fix` entry by
      `user` stamped `now`; any other panel is left as it is. */
  function Maintain(p: Panel, user: UserId, liveDuration: int, now: Instant): Panel {
    if Eligible(p, user, liveDuration, now)
    then p.(interactions := p.interactions + [Interaction(user, Fix, now)])
    else p
  }

  /** The first pass over the active list. */
  function MaintainAll(ps: seq<Panel>, user: UserId, liveDuration: int, now: Instant): (r: seq<Panel>)
    ensures |r| == |ps|
    ensures forall i :: 0 <= i < |ps| ==> r[i] == Maintain(ps[i], user, liveDuration, now)
  {
    seq(|ps|, i requires 0 <= i < |ps| => Maintain(ps[i], user, liveDuration, now))
  }

  /** `eligible_count`. */
  function EligibleCount(ps: seq<Panel>, user: UserId, liveDuration: int, now: Instant): nat {
    if ps == [] then 0
    else EligibleCount(ps[..|ps| - 1], user, liveDuration, now)
         + (if Eligible(ps[|ps| - 1], user, liveDuration, now) then 1 else 0)
  }

  /** The number of panels ready for collection: `collected_count`. */
  function DueCount(ps: seq<Panel>, liveDuration: int, now: Instant): nat {
    if ps == [] then 0
    else DueCount(ps[..|ps| - 1], liveDuration, now) + (if Due(ps[|ps| - 1], liveDuration, now) then 1 else 0)
  }

  /** The panels not ready for collection, in their order. */
  function Pending(ps: seq<Panel>, liveDuration: int, now: Instant): seq<Panel> {
    if ps == [] then []
    else Pending(ps[..|ps| - 1], liveDuration, now)
         + (if Due(ps[|ps| - 1], liveDuration, now) then [] else [ps[|ps| - 1]])
  }

  /** The panels ready for collection, in their order. */
  function Ready(ps: seq<Panel>, liveDuration: int, now: Instant): seq<Panel> {
    if ps == [] then []
    else Ready(ps[..|ps| - 1], liveDuration, now)
         + (if Due(ps[|ps| - 1], liveDuration, now) then [ps[|ps| - 1]] else [])
  }

  /** The daily profit after paying out the logs of `ps`, one panel after
      the other in their order. */
  function PayAll(profit: Counter, ps: seq<Panel>, battery: int): Counter {
    if ps == [] then profit
    else PayoutOf(PayAll(profit, ps[..|ps| - 1], battery), ps[|ps| - 1].interactions, battery)
  }

  /** The second pass's test: the panel is ready and its last entry is a
      `fix` by the acting user. */
  predicate IsCollected(p: Panel, user: UserId, liveDuration: int, now: Instant) {
    && Due(p, liveDuration, now)
    && |p.interactions| > 0
    && p.interactions[|p.interactions| - 1].user == user
    && p.interactions[|p.interactions| - 1].action == Fix
  }

  /** The outcome of the second pass: the panels kept, and the daily profit
      after paying out every collected panel. */
  datatype Settlement = Settlement(survivors: seq<Panel>, profit: Counter)

  /** The second pass (src/cogs/knecht.py:358-389), panel by panel in order. */
  function Settle(ps: seq<Panel>, user: UserId, liveDuration: int, now: Instant, profit: Counter, battery: int): Settlement {
    if ps == [] then Settlement([], profit)
    else
      var st := Settle(ps[..|ps| - 1], user, liveDuration, now, profit, battery);
      var p := ps[|ps| - 1];
      if IsCollected(p, user, liveDuration, now)
      then Settlement(st.survivors, PayoutOf(st.profit, p.interactions, battery))
      else Settlement(st.survivors + [p], st.profit)
  }

  /** What `process_fix` returns. */
  datatype FixCounts = FixCounts(eligible: nat, collected: nat)

  function FixCountsOf(s: Store, user: UserId, now: Instant, liveDuration: int): FixCounts {
    var ps := AfterReset(s, now).active;
    FixCounts(EligibleCount(ps, user, liveDuration, now), DueCount(ps, liveDuration, now))
  }

  /** The state after `process_fix(user)` at `now`. */
  function FixStore(s: Store, user: UserId, now: Instant, liveDuration: int, battery: int): Store {
    var s1 := AfterReset(s, now);
    var counts := FixCountsOf(s, user, now, liveDuration);
    var st := Settle(MaintainAll(s1.active, user, liveDuration, now), user, liveDuration, now, s1.dailyProfit, battery);
    s1.(active := st.survivors,
        dailyProfit := st.profit,
        dailyBatteries := if counts.collected > 0 then Bump(s1.dailyBatteries, user, counts.collected) else s1.dailyBatteries,
        dailyWork := if counts.eligible > 0 then s1.dailyWork.Count(Fixes, user) else s1.dailyWork)
  }

  /** The first pass does not change any panel's state: the entry it adds is
      stamped `now` and so lies in no window that has ended. */
  lemma MaintainKeepsState(p: Panel, user: UserId, liveDuration: int, now: Instant)
    ensures StateAt(Maintain(p, user, liveDuration, now), liveDuration, now) == StateAt(p, liveDuration, now)
    ensures Due(Maintain(p, user, liveDuration, now), liveDuration, now) == Due(p, liveDuration, now)
  {
    if Eligible(p, user, liveDuration, now) {
      StateIgnoresFixAtNow(p, user, liveDuration, now);
    }
  }

  /** A well-formed panel whose log lies before `now` stays so through the
      first pass. */
  lemma MaintainKeepsWellFormed(p: Panel, user: UserId, liveDuration: int, now: Instant)
    requires WellFormed(p) && LoggedBy(p, now)
    ensures WellFormed(Maintain(p, user, liveDuration, now)) && LoggedBy(Maintain(p, user, liveDuration, now), now)
  {
  }

  /** Eligible panels get exactly one fix entry by the user, stamped `now`,
      and every other panel's log is unchanged; nothing but the log changes. */
  lemma MaintainAppendsOne(p: Panel, user: UserId, liveDuration: int, now: Instant)
    ensures var q := Maintain(p, user, liveDuration, now);
            && q.(interactions := p.interactions) == p
            && (Eligible(p, user, liveDuration, now) <==> |q.interactions| == |p.interactions| + 1)
            && q.interactions[..|p.interactions|] == p.interactions
            && (Eligible(p, user, liveDuration, now) ==> q.interactions[|p.interactions|] == Interaction(user, Fix, now))
  {
    var q := Maintain(p, user, liveDuration, now);
    if Eligible(p, user, liveDuration, now) {
      assert q.interactions[..|p.interactions|] == p.interactions;
    }
  }

  /** A panel ready for collection is always eligible, so the counts satisfy
      collected <= eligible. */
  lemma {:induction false} DueCountBelowEligible(ps: seq<Panel>, user: UserId, liveDuration: int, now: Instant)
    ensures DueCount(ps, liveDuration, now) <= EligibleCount(ps, user, liveDuration, now) <= |ps|
  {
    if ps != [] {
      DueCountBelowEligible(ps[..|ps| - 1], user, liveDuration, now);
    }
  }

  /** After the first pass every ready panel ends with the user's fix, so the
      second pass collects exactly the ready panels. */
  lemma MaintainedIsCollected(p: Panel, user: UserId, liveDuration: int, now: Instant)
    ensures var q := Maintain(p, user, liveDuration, now);
            IsCollected(q, user, liveDuration, now) <==> Due(p, liveDuration, now)
  {
    MaintainKeepsState(p, user, liveDuration, now);
  }

  /** The panel log after the first pass, when ready, is never empty: the
      second pass's look at the last entry is always defined. */
  lemma MaintainedDueHasEntries(p: Panel, user: UserId, liveDuration: int, now: Instant)
    requires Due(p, liveDuration, now)
    ensures |Maintain(p, user, liveDuration, now).interactions| > 0
  {
  }

  /** The second pass over first-pass output keeps exactly the panels that were
      not ready, in their order, each as the first pass left it, and the
      number it removes is the number that were ready. */
  lemma {:induction false} SettleAfterMaintain(ps: seq<Panel>, user: UserId, liveDuration: int, now: Instant, profit: Counter, battery: int)
    ensures var st := Settle(MaintainAll(ps, user, liveDuration, now), user, liveDuration, now, profit, battery);
            && st.survivors == MaintainAll(Pending(ps, liveDuration, now), user, liveDuration, now)
            && |st.survivors| + DueCount(ps, liveDuration, now) == |ps|
  {
    if ps != [] {
      var init := ps[..|ps| - 1];
      var p := ps[|ps| - 1];
      var ms := MaintainAll(ps, user, liveDuration, now);
      assert ms[..|ms| - 1] == MaintainAll(init, user, liveDuration, now);
      SettleAfterMaintain(init, user, liveDuration, now, profit, battery);
      MaintainedIsCollected(p, user, liveDuration, now);
      var pend := Pending(init, liveDuration, now);
      if !Due(p, liveDuration, now) {
        assert MaintainAll(pend + [p], user, liveDuration, now)
               == MaintainAll(pend, user, liveDuration, now) + [Maintain(p, user, liveDuration, now)];
      }
    }
  }

  /** The second pass over first-pass output pays out exactly the ready
      panels, in their order, each with the log the first pass left it
      (which ends with the user's fix). */
  lemma {:induction false} SettlePaysReady(ps: seq<Panel>, user: UserId, liveDuration: int, now: Instant, profit: Counter, battery: int)
    ensures Settle(MaintainAll(ps, user, liveDuration, now), user, liveDuration, now, profit, battery).profit
            == PayAll(profit, MaintainAll(Ready(ps, liveDuration, now), user, liveDuration, now), battery)
  {
    if ps != [] {
      var init := ps[..|ps| - 1];
      var p := ps[|ps| - 1];
      assert init + [p] == ps;
      SettlePaysReady(init, user, liveDuration, now, profit, battery);
      MaintainAllSnoc(init, p, user, liveDuration, now);
      MaintainedIsCollected(p, user, liveDuration, now);
      SettleSnoc(MaintainAll(init, user, liveDuration, now), Maintain(p, user, liveDuration, now), user, liveDuration, now, profit, battery);
      var ready := Ready(init, liveDuration, now);
      var q := Maintain(p, user, liveDuration, now);
      var mi := MaintainAll(init, user, liveDuration, now);
      assert MaintainAll(ps, user, liveDuration, now) == mi + [q];
      var st := Settle(mi, user, liveDuration, now, profit, battery);
      if Due(p, liveDuration, now) {
        assert Ready(ps, liveDuration, now) == ready + [p];
        MaintainAllSnoc(ready, p, user, liveDuration, now);
        PayAllSnoc(profit, MaintainAll(ready, user, liveDuration, now), q, battery);
        assert Settle(mi + [q], user, liveDuration, now, profit, battery).profit == PayoutOf(st.profit, q.interactions, battery);
      } else {
        assert Ready(ps, liveDuration, now) == ready;
        assert Settle(mi + [q], user, liveDuration, now, profit, battery).profit == st.profit;
      }
    }
  }

  lemma MaintainAllSnoc(ps: seq<Panel>, p: Panel, user: UserId, liveDuration: int, now: Instant)
    ensures MaintainAll(ps + [p], user, liveDuration, now) == MaintainAll(ps, user, liveDuration, now) + [Maintain(p, user, liveDuration, now)]
  {
  }

  lemma SettleSnoc(qs: seq<Panel>, q: Panel, user: UserId, liveDuration: int, now: Instant, profit: Counter, battery: int)
    ensures var st := Settle(qs, user, liveDuration, now, profit, battery);
            Settle(qs + [q], user, liveDuration, now, profit, battery).profit
            == if IsCollected(q, user, liveDuration, now) then PayoutOf(st.profit, q.interactions, battery) else st.profit
  {
    assert (qs + [q])[..|qs|] == qs;
  }

  lemma PayAllSnoc(profit: Counter, qs: seq<Panel>, q: Panel, battery: int)
    ensures PayAll(profit, qs + [q], battery) == PayoutOf(PayAll(profit, qs, battery), q.interactions, battery)
  {
    assert (qs + [q])[..|qs|] == qs;
  }

  /** `eligible_count` is 0 exactly when no panel of the list is eligible. */
  lemma {:induction false} NoneEligible(ps: seq<Panel>, user: UserId, liveDuration: int, now: Instant)
    ensures EligibleCount(ps, user, liveDuration, now) == 0
            <==> forall i :: 0 <= i < |ps| ==> !Eligible(ps[i], user, liveDuration, now)
  {
    if ps != [] {
      var init := ps[..|ps| - 1];
      NoneEligible(init, user, liveDuration, now);
      assert forall i :: 0 <= i < |init| ==> init[i] == ps[i];
    }
  }

  /** No panel eligible: nothing is ready either, and the second pass keeps
      every panel. */
  lemma NothingEligibleKeepsAll(ps: seq<Panel>, user: UserId, liveDuration: int, now: Instant, profit: Counter, battery: int)
    requires forall i :: 0 <= i < |ps| ==> !Eligible(ps[i], user, liveDuration, now)
    ensures MaintainAll(ps, user, liveDuration, now) == ps
    ensures DueCount(ps, liveDuration, now) == 0
    ensures Settle(ps, user, liveDuration, now, profit, battery) == Settlement(ps, profit)
  {
    forall i | 0 <= i < |ps|
      ensures Maintain(ps[i], user, liveDuration, now) == ps[i]
      ensures !Due(ps[i], liveDuration, now) && !IsCollected(ps[i], user, liveDuration, now)
    {
      NotEligibleUntouched(ps[i], user, liveDuration, now);
    }
    NothingDue(ps, liveDuration, now);
    NothingCollected(ps, user, liveDuration, now, profit, battery);
  }

  /** With no panel ready, `collected_count` is 0. */
  lemma {:induction false} NothingDue(ps: seq<Panel>, liveDuration: int, now: Instant)
    requires forall i :: 0 <= i < |ps| ==> !Due(ps[i], liveDuration, now)
    ensures DueCount(ps, liveDuration, now) == 0
  {
    if ps != [] {
      var init := ps[..|ps| - 1];
      assert forall i :: 0 <= i < |init| ==> init[i] == ps[i];
      NothingDue(init, liveDuration, now);
    }
  }

  /** With no panel collected, the second pass keeps every panel and pays
      nothing out. */
  lemma {:induction false} NothingCollected(ps: seq<Panel>, user: UserId, liveDuration: int, now: Instant, profit: Counter, battery: int)
    requires forall i :: 0 <= i < |ps| ==> !IsCollected(ps[i], user, liveDuration, now)
    ensures Settle(ps, user, liveDuration, now, profit, battery) == Settlement(ps, profit)
  {
    if ps != [] {
      var init := ps[..|ps| - 1];
      var p := ps[|ps| - 1];
      assert init + [p] == ps;
      assert forall i :: 0 <= i < |init| ==> init[i] == ps[i];
      NothingCollected(init, user, liveDuration, now, profit, battery);
    }
  }

  /** A panel that is not eligible is neither touched by the first pass nor
      collected by the second. */
  lemma NotEligibleUntouched(p: Panel, user: UserId, liveDuration: int, now: Instant)
    requires !Eligible(p, user, liveDuration, now)
    ensures Maintain(p, user, liveDuration, now) == p
    ensures !Due(p, liveDuration, now) && !IsCollected(p, user, liveDuration, now)
  {
  }

  /** A fix call in which no panel is eligible changes nothing beyond the
      reset check at its start, and reports zero panels. */
  lemma FixWithNothingEligible(s: Store, user: UserId, now: Instant, liveDuration: int, battery: int)
    requires FixCountsOf(s, user, now, liveDuration).eligible == 0
    ensures FixStore(s, user, now, liveDuration, battery) == AfterReset(s, now)
    ensures FixCountsOf(s, user, now, liveDuration) == FixCounts(0, 0)
  {
    var s1 := AfterReset(s, now);
    NoneEligible(s1.active, user, liveDuration, now);
    NothingEligibleKeepsAll(s1.active, user, liveDuration, now, s1.dailyProfit, battery);
  }

  /** What a fix call does to the counters and the panel list: the panels
      that were ready are removed and counted, the survivors keep their
      order, the user's batteries rise by the number collected, the user's
      fixes rise by one when anything was eligible (once per call, not per
      panel), the daily profit is that of paying out the ready panels in
      order, and no other user's work or batteries change. */
  lemma FixOutcome(s: Store, user: UserId, now: Instant, liveDuration: int, battery: int)
    ensures var s1 := AfterReset(s, now);
            var r := FixStore(s, user, now, liveDuration, battery);
            var n := FixCountsOf(s, user, now, liveDuration);
            && r.active == MaintainAll(Pending(s1.active, liveDuration, now), user, liveDuration, now)
            && n.collected == |s1.active| - |r.active|
            && n.collected <= n.eligible <= |s1.active|
            && Get(r.dailyBatteries, user) == Get(s1.dailyBatteries, user) + n.collected
            && Get(r.dailyWork.fixes, user) == Get(s1.dailyWork.fixes, user) + (if n.eligible > 0 then 1 else 0)
            && (forall v :: v != user ==> Get(r.dailyBatteries, v) == Get(s1.dailyBatteries, v))
            && (forall c, v :: v != user || c != Fixes ==> Get(r.dailyWork.Of(c), v) == Get(s1.dailyWork.Of(c), v))
            && r.lifetimeWork == s1.lifetimeWork && r.lifetimeProfit == s1.lifetimeProfit
            && r.dailyProfit == PayAll(s1.dailyProfit, MaintainAll(Ready(s1.active, liveDuration, now), user, liveDuration, now), battery)
            && r.history == s1.history && r.lastResetDate == Some(BusinessDate(now))
  {
    var s1 := AfterReset(s, now);
    SettleAfterMaintain(s1.active, user, liveDuration, now, s1.dailyProfit, battery);
    SettlePaysReady(s1.active, user, liveDuration, now, s1.dailyProfit, battery);
    DueCountBelowEligible(s1.active, user, liveDuration, now);
    ResetMovesCursor(s, now);
  }

  /** Scenario: in the second half of an hour a user fixes two panels that are
      neither ready nor fixed by them in this window; both are eligible,
      none is collected, and the user's fix count rises by one. */
  lemma TwoPanelsMaintained(s: Store, user: UserId, now: Instant, liveDuration: int, battery: int)
    requires !ResetDue(s, now) && |s.active| == 2 && MinuteOf(now) >= 45
    requires forall i :: 0 <= i < 2 ==> !Due(s.active[i], liveDuration, now)
    requires forall i :: 0 <= i < 2 ==> !FixedByWithin(s.active[i].interactions, user, GuardStart(now), GuardEnd(now))
    ensures FixCountsOf(s, user, now, liveDuration) == FixCounts(2, 0)
    ensures Get(FixStore(s, user, now, liveDuration, battery).dailyWork.fixes, user) == Get(s.dailyWork.fixes, user) + 1
    ensures |FixStore(s, user, now, liveDuration, battery).active| == 2
  {
    forall i | 0 <= i < |s.active| ensures Eligible(s.active[i], user, liveDuration, now) {
    }
    AllEligibleNoneDue(s.active, user, liveDuration, now);
    FixOutcome(s, user, now, liveDuration, battery);
  }

  /** Counting over a list in which every panel is eligible and none is
      ready. */
  lemma {:induction false} AllEligibleNoneDue(ps: seq<Panel>, user: UserId, liveDuration: int, now: Instant)
    requires forall i :: 0 <= i < |ps| ==> Eligible(ps[i], user, liveDuration, now)
    requires forall i :: 0 <= i < |ps| ==> !Due(ps[i], liveDuration, now)
    ensures EligibleCount(ps, user, liveDuration, now) == |ps|
    ensures DueCount(ps, liveDuration, now) == 0
  {
    if ps != [] {
      AllEligibleNoneDue(ps[..|ps| - 1], user, liveDuration, now);
    }
  }

  /** With a non-negative battery value the payouts of a fix call never lower
      any user's daily profit. */
  lemma {:induction false} SettleNeverLowersProfit(ps: seq<Panel>, user: UserId, liveDuration: int, now: Instant, profit: Counter, battery: int)
    requires battery >= 0
    ensures forall u :: Get(Settle(ps, user, liveDuration, now, profit, battery).profit, u) >= Get(profit, u)
  {
    if ps != [] {
      var init := ps[..|ps| - 1];
      var p := ps[|ps| - 1];
      SettleNeverLowersProfit(init, user, liveDuration, now, profit, battery);
      var st := Settle(init, user, liveDuration, now, profit, battery);
      if IsCollected(p, user, liveDuration, now) {
        forall u ensures Get(PayoutOf(st.profit, p.interactions, battery), u) >= Get(st.profit, u) {
          PayoutAt(st.profit, p.interactions, battery, u);
        }
      }
    }
  }

  /** The payouts of a fix call credit only contributors: a user with no
      entry in any of the panels keeps the profit they had. */
  lemma {:induction false} SettleOnlyPaysContributors(ps: seq<Panel>, user: UserId, liveDuration: int, now: Instant, profit: Counter, battery: int, v: UserId)
    requires forall i :: 0 <= i < |ps| ==> v !in Ids(ps[i].interactions)
    ensures Get(Settle(ps, user, liveDuration, now, profit, battery).profit, v) == Get(profit, v)
  {
    if ps != [] {
      var init := ps[..|ps| - 1];
      var p := ps[|ps| - 1];
      assert forall i :: 0 <= i < |init| ==> init[i] == ps[i];
      SettleOnlyPaysContributors(init, user, liveDuration, now, profit, battery, v);
      var st := Settle(init, user, liveDuration, now, profit, battery);
      if IsCollected(p, user, liveDuration, now) {
        PayoutAt(st.profit, p.interactions, battery, v);
      }
    }
  }

  // ---------------------------------------------------------------------
  // Flat-value counters (src/cogs/knecht.py:184-217)
  // ---------------------------------------------------------------------

  /** A container or hafenevent log: after the reset check, one more in the
      category and `value` more profit for the user. */
  function FlatStore(s: Store, user: UserId, now: Instant, c: Category, value: int): Store {
    var s1 := AfterReset(s, now);
    s1.(dailyWork := s1.dailyWork.Count(c, user), dailyProfit := Bump(s1.dailyProfit, user, value))
  }

  /** A flat-value log adds exactly one to the user's count of that category
      and exactly `value` to the user's profit; nothing else of the day
      changes and the panels stay. */
  lemma FlatOutcome(s: Store, user: UserId, now: Instant, c: Category, value: int)
    ensures var s1 := AfterReset(s, now);
            var r := FlatStore(s, user, now, c, value);
            && Get(r.dailyWork.Of(c), user) == Get(s1.dailyWork.Of(c), user) + 1
            && Get(r.dailyProfit, user) == Get(s1.dailyProfit, user) + value
            && (forall d, v :: d != c || v != user ==> Get(r.dailyWork.Of(d), v) == Get(s1.dailyWork.Of(d), v))
            && (forall v :: v != user ==> Get(r.dailyProfit, v) == Get(s1.dailyProfit, v))
            && r.active == s1.active && r.dailyBatteries == s1.dailyBatteries
            && HasActivity(r)
  {
    var r := FlatStore(s, user, now, c, value);
    assert user in r.dailyWork.Of(c);
  }
}
