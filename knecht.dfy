/** The Knecht cog (src/cogs/knecht.py:36-525): the store of panels, daily
    and lifetime counters, the history of closed days and the reset cursor,
    with the operations behind its buttons. Each operation takes the
    current time `now` as a parameter and is proved to leave the store as
    the matching definition of KnechtSpec says. */
module Knecht {
  import opened Options
  import opened Clock
  import opened Counters
  import opened Panels
  import opened Payout
  import opened KnechtSpec
  import opened HallOfFame

  class KnechtCog {
    var activePanels: seq<Panel>
    var dailyWork: Work
    var dailyProfit: Counter
    var dailyBatteries: Counter
    var lifetimeWork: Work
    var lifetimeProfit: Counter
    var history: seq<Archive>
    var lastResetDate: Option<Day>

    /** `settings["panel_liveduration"]`, when the settings have it. */
    var liveDurationSetting: Option<int>

    /** The hall of fame's mechanics dictionary (`self.hof.mechanics`). */
    var mechanics: Mechanics

    /** The store as a value. */
    function Snapshot(): Store
      reads this
    {
      Store(activePanels, dailyWork, dailyProfit, dailyBatteries,
            lifetimeWork, lifetimeProfit, history, lastResetDate)
    }

    /** `settings.get("panel_liveduration", 60)`, read at every use. */
    function LiveDuration(): int
      reads this
    {
      liveDurationSetting.GetOr(DEFAULT_LIVE_DURATION)
    }

    /** src/cogs/knecht.py:37-77, with the settings and the mechanics already
        loaded: an empty store with no reset cursor. */
    constructor (liveDurationSetting: Option<int>, mechanics: Mechanics)
      ensures Snapshot() == INITIAL
      ensures this.liveDurationSetting == liveDurationSetting && this.mechanics == mechanics
    {
      activePanels := [];
      dailyWork := EMPTY_WORK;
      dailyProfit := map[];
      dailyBatteries := map[];
      lifetimeWork := EMPTY_WORK;
      lifetimeProfit := map[];
      history := [];
      lastResetDate := None;
      this.liveDurationSetting := liveDurationSetting;
      this.mechanics := mechanics;
    }

    /** Writes the fields of the store. The operations compute their new
        dictionaries and lists first and write them here at the end; the
        source writes them one after the other, and nothing it does in
        between reads a field already written. */
    method Commit(s: Store)
      modifies this
      ensures Snapshot() == s
      ensures liveDurationSetting == old(liveDurationSetting) && mechanics == old(mechanics)
    {
      activePanels := s.active;
      dailyWork := s.dailyWork;
      dailyProfit := s.dailyProfit;
      dailyBatteries := s.dailyBatteries;
      lifetimeWork := s.lifetimeWork;
      lifetimeProfit := s.lifetimeProfit;
      history := s.history;
      lastResetDate := s.lastResetDate;
    }

    /** `calculate_panel_state(panel)` (src/cogs/knecht.py:271-310): walk the
        checkpoints from the top of the hour after the placement, add the
        penalty for every window that has ended without a fix, and derive
        the expiry and the remaining whole minutes. */
    method CalculatePanelState(panel: Panel, now: Instant) returns (state: PanelState)
      ensures state == StateAt(panel, LiveDuration(), now)
    {
      var liveduration := LiveDuration();
      var totalDelay := 0;
      var checkTime := HourFloor(panel.placedAt) + HOUR;
      ghost var first := checkTime;
      while checkTime < now
        invariant totalDelay + PENALTY * MissedWindows(panel.interactions, checkTime, now)
                  == PENALTY * MissedWindows(panel.interactions, first, now)
        decreases now - checkTime
      {
        var windowStart := checkTime + WINDOW_OPEN;
        var windowEnd := checkTime + WINDOW_CLOSE;
        if windowStart > now {
          break;
        }
        var isFixed := HasFixWithin(panel.interactions, windowStart, windowEnd);
        if !isFixed {
          if now > windowEnd {
            totalDelay := totalDelay + PENALTY;
          }
        }
        checkTime := checkTime + HOUR;
      }
      var finish := panel.placedAt + (liveduration + totalDelay) * MINUTE;
      state := PanelState(WholeMinutes(finish - now), totalDelay, finish);
    }

    /** `reset_daily_stats(new_date)` (src/cogs/knecht.py:470-525). Without a
        date the cursor falls back to the calendar date of `now`. */
    method ResetDailyStats(newDate: Option<Day>, now: Instant) returns (archive: Option<Archive>)
      modifies this
      ensures Snapshot() == ResetDaily(old(Snapshot()), newDate.GetOr(CalendarDay(now)))
      ensures archive == ArchiveOf(old(Snapshot()))
      ensures liveDurationSetting == old(liveDurationSetting) && mechanics == old(mechanics)
    {
      ghost var before := Snapshot();
      archive := None;
      var hasActivity := dailyWork.placed != map[] || dailyWork.fixes != map[]
                         || dailyWork.containers != map[] || dailyWork.hafenevents != map[]
                         || dailyProfit != map[];
      var newHistory := history;
      if hasActivity {
        var entry := Archive(lastResetDate, dailyWork, dailyProfit, dailyBatteries);
        newHistory := newHistory + [entry];
        archive := Some(entry);
      }
      var newLifetimeWork := MergeWorkInto(lifetimeWork, dailyWork);
      var newLifetimeProfit := MergeInto(lifetimeProfit, dailyProfit);
      var cursor := if newDate.Some? then newDate else Some(CalendarDay(now));
      ResetDailyIs(before, newDate.GetOr(CalendarDay(now)),
                   Store([], EMPTY_WORK, map[], map[], newLifetimeWork, newLifetimeProfit, newHistory, cursor));

      Commit(Store([], EMPTY_WORK, map[], map[], newLifetimeWork, newLifetimeProfit, newHistory, cursor));
    }

    /** `check_daily_reset()` (src/cogs/knecht.py:455-468): reset when the
        cursor is not at the business date of `now`, and return the archive
        entry of that reset. */
    method CheckDailyReset(now: Instant) returns (archive: Option<Archive>)
      modifies this
      ensures Snapshot() == AfterReset(old(Snapshot()), now)
      ensures archive == ResetResult(old(Snapshot()), now)
      ensures liveDurationSetting == old(liveDurationSetting) && mechanics == old(mechanics)
    {
      var target := if HourOf(now) >= RESET_HOUR then CalendarDay(now) else CalendarDay(now) - 1;
      if lastResetDate != Some(target) {
        archive := ResetDailyStats(Some(target), now);
      } else {
        archive := None;
      }
    }

    /** `process_place(user)` (src/cogs/knecht.py:222-253). The new panel is
        appended before the reset check, so a reset at this point discards
        it. The id is the fresh one the caller drew. */
    method ProcessPlace(user: UserId, id: PanelId, now: Instant) returns (panel: Panel)
      modifies this
      ensures panel == NewPanel(user, id, now, old(LiveDuration()))
      ensures Snapshot() == PlaceStore(old(Snapshot()), user, id, now, old(LiveDuration()))
      ensures liveDurationSetting == old(liveDurationSetting) && mechanics == old(mechanics)
    {
      var liveduration := LiveDuration();
      panel := Panel(id, user, now, liveduration, []);
      panel := panel.(interactions := panel.interactions + [Interaction(user, Place, now)]);
      activePanels := activePanels + [panel];
      var _ := CheckDailyReset(now);
      dailyWork := dailyWork.Count(Placed, user);
    }

    /** The first pass of `process_fix` (src/cogs/knecht.py:322-357): every
        eligible panel gets one `fix` entry stamped `now`; the eligible
        panels and, among them, the ready ones are counted. */
    method MaintainPanels(panels: seq<Panel>, user: UserId, now: Instant)
      returns (maintained: seq<Panel>, eligibleCount: nat, collectedCount: nat)
      ensures maintained == MaintainAll(panels, user, LiveDuration(), now)
      ensures eligibleCount == EligibleCount(panels, user, LiveDuration(), now)
      ensures collectedCount == DueCount(panels, LiveDuration(), now)
    {
      ghost var liveduration := LiveDuration();
      var isMaintenanceWindow := MinuteOf(now) >= 30;
      maintained := panels;
      eligibleCount := 0;
      collectedCount := 0;
      for k := 0 to |panels|
        invariant |maintained| == |panels|
        invariant forall i :: 0 <= i < k ==> maintained[i] == Maintain(panels[i], user, liveduration, now)
        invariant forall i :: k <= i < |panels| ==> maintained[i] == panels[i]
        invariant eligibleCount == EligibleCount(panels[..k], user, liveduration, now)
        invariant collectedCount == DueCount(panels[..k], liveduration, now)
      {
        var panel := maintained[k];
        var state := CalculatePanelState(panel, now);
        var remaining := state.remainingMinutes;
        var isEligible := false;
        if remaining <= 0 {
          isEligible := true;
        } else if isMaintenanceWindow {
          var windowStart := HourFloor(now) + WINDOW_OPEN;
          var windowEnd := HourFloor(now) + HOUR - 1;
          var alreadyFixed := HasFixByWithin(panel.interactions, user, windowStart, windowEnd);
          if !alreadyFixed {
            isEligible := true;
          }
        }
        assert isEligible == Eligible(panel, user, liveduration, now);
        if isEligible {
          eligibleCount := eligibleCount + 1;
          maintained := maintained[k := panel.(interactions := panel.interactions + [Interaction(user, Fix, now)])];
          if remaining <= 0 {
            collectedCount := collectedCount + 1;
          }
        }
        assert panels[..k + 1][..k] == panels[..k];
      }
      assert panels[..|panels|] == panels;
    }

    /** The second pass of `process_fix` (src/cogs/knecht.py:358-389): a
        ready panel whose last entry is a `fix` by the user is collected and
        paid out, every other panel is kept in order. A ready panel must
        have a log, since its last entry is read. */
    method SettlePanels(panels: seq<Panel>, user: UserId, now: Instant, profit: Counter)
      returns (survivors: seq<Panel>, newProfit: Counter)
      requires forall i :: 0 <= i < |panels| && Due(panels[i], LiveDuration(), now) ==> |panels[i].interactions| > 0
      ensures Settlement(survivors, newProfit)
              == Settle(panels, user, LiveDuration(), now, profit, mechanics.BatteryValue())
    {
      ghost var liveduration := LiveDuration();
      survivors := [];
      newProfit := profit;
      for k := 0 to |panels|
        invariant Settlement(survivors, newProfit)
                  == Settle(panels[..k], user, liveduration, now, profit, mechanics.BatteryValue())
      {
        var panel := panels[k];
        var state := CalculatePanelState(panel, now);
        var isCollected := false;
        if state.remainingMinutes <= 0 {
          var last := panel.interactions[|panel.interactions| - 1];
          if last.user == user && last.action == Fix {
            isCollected := true;
          }
        }
        assert isCollected == IsCollected(panel, user, liveduration, now);
        if !isCollected {
          survivors := survivors + [panel];
        } else {
          var batteryValue := mechanics.BatteryValue();
          newProfit := SettleCollection(newProfit, panel.interactions, batteryValue);
        }
        assert panels[..k + 1][..k] == panels[..k];
      }
      assert panels[..|panels|] == panels;
    }

    /** `process_fix(user)` (src/cogs/knecht.py:312-405): the reset check,
        the two passes, then the battery count of the user rises by the
        number collected and the user's fix count by one if anything was
        eligible. */
    method ProcessFix(user: UserId, now: Instant) returns (eligibleCount: nat, collectedCount: nat)
      modifies this
      ensures Snapshot() == FixStore(old(Snapshot()), user, now, old(LiveDuration()), old(mechanics.BatteryValue()))
      ensures FixCounts(eligibleCount, collectedCount) == FixCountsOf(old(Snapshot()), user, now, old(LiveDuration()))
      ensures liveDurationSetting == old(liveDurationSetting) && mechanics == old(mechanics)
    {
      var _ := CheckDailyReset(now);
      var maintained;
      maintained, eligibleCount, collectedCount := MaintainPanels(activePanels, user, now);
      forall i | 0 <= i < |maintained| && Due(maintained[i], LiveDuration(), now)
        ensures |maintained[i].interactions| > 0
      {
        MaintainKeepsState(activePanels[i], user, LiveDuration(), now);
      }
      var survivors, newProfit := SettlePanels(maintained, user, now, dailyProfit);
      var batteries := dailyBatteries;
      if collectedCount > 0 {
        batteries := Bump(batteries, user, collectedCount);
      }
      var work := dailyWork;
      if eligibleCount > 0 {
        work := work.Count(Fixes, user);
      }
      Commit(Snapshot().(active := survivors, dailyProfit := newProfit, dailyBatteries := batteries, dailyWork := work));
    }

    /** `handle_container_interaction` (src/cogs/knecht.py:184-199) without
        the reply: the reset check, one more container and the container
        value more profit for the user. */
    method LogContainer(user: UserId, now: Instant)
      modifies this
      ensures Snapshot() == FlatStore(old(Snapshot()), user, now, Containers, old(mechanics.ContainerValue()))
      ensures liveDurationSetting == old(liveDurationSetting) && mechanics == old(mechanics)
    {
      var _ := CheckDailyReset(now);
      var value := mechanics.ContainerValue();
      var work := dailyWork.Count(Containers, user);
      var profit := Bump(dailyProfit, user, value);
      Commit(Snapshot().(dailyWork := work, dailyProfit := profit));
    }

    /** `handle_hafenevent_interaction` (src/cogs/knecht.py:202-217) without
        the reply: the reset check, one more hafenevent and the hafendrop
        value more profit for the user. */
    method LogHafenevent(user: UserId, now: Instant)
      modifies this
      ensures Snapshot() == FlatStore(old(Snapshot()), user, now, Hafenevents, old(mechanics.HafendropValue()))
      ensures liveDurationSetting == old(liveDurationSetting) && mechanics == old(mechanics)
    {
      var _ := CheckDailyReset(now);
      var value := mechanics.HafendropValue();
      var work := dailyWork.Count(Hafenevents, user);
      var profit := Bump(dailyProfit, user, value);
      Commit(Snapshot().(dailyWork := work, dailyProfit := profit));
    }
  }
}
