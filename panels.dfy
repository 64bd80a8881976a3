/** A panel, its interaction log, and the state the Knecht cog derives from
    the log at a given instant (`calculate_panel_state`,
    src/cogs/knecht.py:271-310). */
module Panels {
  import opened Clock
  import opened Counters

  datatype Action = Place | Fix

  /** One `{"user_id", "action", "timestamp"}` entry of a panel's log. */
  datatype Interaction = Interaction(user: UserId, action: Action, at: Instant)

  /** The opaque hexadecimal id a panel gets when it is placed. */
  type PanelId = string

  /** A panel dictionary. `remainingMinutes` is the live duration copied at
      placement; the state calculation never reads it. */
  datatype Panel = Panel(
    id: PanelId,
    placedBy: UserId,
    placedAt: Instant,
    remainingMinutes: int,
    interactions: seq<Interaction>)

  /** What `calculate_panel_state` returns. */
  datatype PanelState = PanelState(remainingMinutes: int, totalDelay: int, expiry: Instant)

  /** The maintenance window of a checkpoint (the top of an hour) runs from
      30:00 to 59:59 past it, both ends included. */
  const WINDOW_OPEN: int := 30 * MINUTE
  const WINDOW_CLOSE: int := 59 * MINUTE + 59 * SECOND

  /** Minutes of delay a missed window adds. */
  const PENALTY: int := 60

  /** The live duration used when the settings have no entry for it. */
  const DEFAULT_LIVE_DURATION: int := 60

  /** The first checkpoint: the top of the hour after the placement. */
  function FirstCheckpoint(placedAt: Instant): (c: Instant)
    ensures c % HOUR == 0
    ensures placedAt < c <= placedAt + HOUR
  {
    HourFloor(placedAt) + HOUR
  }

  /** Some `fix` entry of the log is stamped within `[lo, hi]`. */
  predicate FixedWithin(log: seq<Interaction>, lo: Instant, hi: Instant) {
    exists i :: 0 <= i < |log| && log[i].action == Fix && lo <= log[i].at <= hi
  }

  /** Some `fix` entry of `user` is stamped within `[lo, hi]`. */
  predicate FixedByWithin(log: seq<Interaction>, user: UserId, lo: Instant, hi: Instant) {
    exists i :: 0 <= i < |log| && log[i].action == Fix && log[i].user == user && lo <= log[i].at <= hi
  }

  /** The instants at which the log records a fix. */
  function FixTimes(log: seq<Interaction>): set<Instant> {
    set i | 0 <= i < |log| && log[i].action == Fix :: log[i].at
  }

  /** The number of maintenance windows, from the window of checkpoint `c`
      onwards, that ended before `now` with no fix stamped inside them. */
  function MissedWindows(log: seq<Interaction>, c: Instant, now: Instant): nat
    decreases now - c
  {
    if now <= c + WINDOW_CLOSE then 0
    else (if FixedWithin(log, c + WINDOW_OPEN, c + WINDOW_CLOSE) then 0 else 1)
         + MissedWindows(log, c + HOUR, now)
  }

  /** The number of maintenance windows, from the window of checkpoint `c`
      onwards, that ended before `now`, fixed or not. */
  function EndedWindows(c: Instant, now: Instant): nat
    decreases now - c
  {
    if now <= c + WINDOW_CLOSE then 0 else 1 + EndedWindows(c + HOUR, now)
  }

  /** `total_delay`: 60 minutes per missed window since the placement. */
  function TotalDelay(p: Panel, now: Instant): (d: int)
    ensures d >= 0 && d % PENALTY == 0
  {
    PENALTY * MissedWindows(p.interactions, FirstCheckpoint(p.placedAt), now)
  }

  /** The state of a panel at `now` under the live duration read from the
      settings at that moment. The panel is due for collection (at most 0
      minutes remaining) exactly when less than one minute is left before its
      expiry, because the minutes are truncated toward zero. */
  function StateAt(p: Panel, liveDuration: int, now: Instant): (s: PanelState)
    ensures s.totalDelay == TotalDelay(p, now)
    ensures s.expiry == p.placedAt + (liveDuration + s.totalDelay) * MINUTE
    ensures s.remainingMinutes <= 0 <==> s.expiry - now < MINUTE
    ensures s.remainingMinutes == WholeMinutes(s.expiry - now)
  {
    var delay := TotalDelay(p, now);
    var expiry := p.placedAt + (liveDuration + delay) * MINUTE;
    PanelState(WholeMinutes(expiry - now), delay, expiry)
  }

  /** The panel is due for collection at `now`. */
  predicate Due(p: Panel, liveDuration: int, now: Instant) {
    StateAt(p, liveDuration, now).remainingMinutes <= 0
  }

  /** The shape every panel the engine creates keeps: its log starts with the
      `place` entry of its creator at its placement time, every later entry is
      a `fix`, and the timestamps never decrease. */
  predicate WellFormed(p: Panel) {
    && |p.interactions| > 0
    && p.interactions[0] == Interaction(p.placedBy, Place, p.placedAt)
    && (forall i :: 0 < i < |p.interactions| ==> p.interactions[i].action == Fix)
    && (forall i, j :: 0 <= i < j < |p.interactions| ==> p.interactions[i].at <= p.interactions[j].at)
  }

  /** No entry of the log is later than `t`. */
  predicate LoggedBy(p: Panel, t: Instant) {
    forall i :: 0 <= i < |p.interactions| ==> p.interactions[i].at <= t
  }

  // ---------------------------------------------------------------------
  // The loops of the state calculation over a panel's log.

  /** The inner loop of src/cogs/knecht.py:289-295: is some `fix` entry
      stamped within `[lo, hi]`? */
  method HasFixWithin(log: seq<Interaction>, lo: Instant, hi: Instant) returns (fixed: bool)
    ensures fixed <==> FixedWithin(log, lo, hi)
  {
    fixed := false;
    var k := 0;
    while k < |log|
      invariant 0 <= k <= |log|
      invariant !FixedWithin(log[..k], lo, hi)
    {
      var i := log[k];
      if i.action == Fix && lo <= i.at <= hi {
        fixed := true;
        return;
      }
      assert log[..k + 1] == log[..k] + [i];
      k := k + 1;
    }
    assert log[..k] == log;
  }

  /** The duplicate-fix guard of src/cogs/knecht.py:333-342: has `user`
      already fixed within `[lo, hi]`? */
  method HasFixByWithin(log: seq<Interaction>, user: UserId, lo: Instant, hi: Instant)
    returns (fixed: bool)
    ensures fixed <==> FixedByWithin(log, user, lo, hi)
  {
    fixed := false;
    var k := 0;
    while k < |log|
      invariant 0 <= k <= |log|
      invariant !FixedByWithin(log[..k], user, lo, hi)
    {
      var i := log[k];
      if i.action == Fix && i.user == user && lo <= i.at <= hi {
        fixed := true;
        return;
      }
      assert log[..k + 1] == log[..k] + [i];
      k := k + 1;
    }
    assert log[..k] == log;
  }

  // ---------------------------------------------------------------------
  // Properties of the delay.

  /** Whether a window counts as fixed depends only on the instants of the
      log's fixes: not on `place` entries, nor on who fixed, nor on how many
      fixes fall into the window. */
  lemma FixedWithinByTimes(log: seq<Interaction>, lo: Instant, hi: Instant)
    ensures FixedWithin(log, lo, hi) <==> exists t :: t in FixTimes(log) && lo <= t <= hi
  {
    if FixedWithin(log, lo, hi) {
      var i :| 0 <= i < |log| && log[i].action == Fix && lo <= log[i].at <= hi;
      assert log[i].at in FixTimes(log);
    }
  }

  /** The delay is a function of the fix instants of the log alone. */
  lemma {:induction false} MissedBySameFixTimes(log1: seq<Interaction>, log2: seq<Interaction>, c: Instant, now: Instant)
    requires FixTimes(log1) == FixTimes(log2)
    ensures MissedWindows(log1, c, now) == MissedWindows(log2, c, now)
    decreases now - c
  {
    if now > c + WINDOW_CLOSE {
      FixedWithinByTimes(log1, c + WINDOW_OPEN, c + WINDOW_CLOSE);
      FixedWithinByTimes(log2, c + WINDOW_OPEN, c + WINDOW_CLOSE);
      MissedBySameFixTimes(log1, log2, c + HOUR, now);
    }
  }

  /** Appending an entry adds its instant to the fix instants when it is a
      `fix`, and changes nothing otherwise. */
  lemma FixTimesAppend(log: seq<Interaction>, e: Interaction)
    ensures FixTimes(log + [e]) == FixTimes(log) + (if e.action == Fix then {e.at} else {})
  {
    var log' := log + [e];
    forall t | t in FixTimes(log')
      ensures t in FixTimes(log) + (if e.action == Fix then {e.at} else {})
    {
      var i :| 0 <= i < |log'| && log'[i].action == Fix && log'[i].at == t;
      if i < |log| {
        assert log[i] == log'[i];
      }
    }
    forall t | t in FixTimes(log) ensures t in FixTimes(log') {
      var i :| 0 <= i < |log| && log[i].action == Fix && log[i].at == t;
      assert log'[i] == log[i];
    }
    if e.action == Fix {
      assert log'[|log|] == e;
    }
  }

  /** A `place` entry never satisfies a window. */
  lemma PlaceEntryIsIgnored(log: seq<Interaction>, e: Interaction, c: Instant, now: Instant)
    requires e.action == Place
    ensures MissedWindows(log + [e], c, now) == MissedWindows(log, c, now)
  {
    FixTimesAppend(log, e);
    MissedBySameFixTimes(log + [e], log, c, now);
  }

  /** A fix stamped at or after `now` lies in no window that has ended by
      `now`, so it leaves the delay at `now` unchanged. In particular the fix a
      fix call appends does not change the state it computes next. */
  lemma {:induction false} LateFixIsIgnored(log: seq<Interaction>, e: Interaction, c: Instant, now: Instant)
    requires e.at >= now
    ensures MissedWindows(log + [e], c, now) == MissedWindows(log, c, now)
    decreases now - c
  {
    if now > c + WINDOW_CLOSE {
      FixTimesAppend(log, e);
      FixedWithinByTimes(log, c + WINDOW_OPEN, c + WINDOW_CLOSE);
      FixedWithinByTimes(log + [e], c + WINDOW_OPEN, c + WINDOW_CLOSE);
      LateFixIsIgnored(log, e, c + HOUR, now);
    }
  }

  /** Recording one more fix never raises the delay. */
  lemma {:induction false} FixNeverRaisesDelay(log: seq<Interaction>, e: Interaction, c: Instant, now: Instant)
    ensures MissedWindows(log + [e], c, now) <= MissedWindows(log, c, now)
    decreases now - c
  {
    if now > c + WINDOW_CLOSE {
      FixTimesAppend(log, e);
      FixedWithinByTimes(log, c + WINDOW_OPEN, c + WINDOW_CLOSE);
      FixedWithinByTimes(log + [e], c + WINDOW_OPEN, c + WINDOW_CLOSE);
      FixNeverRaisesDelay(log, e, c + HOUR, now);
    }
  }

  /** A fix inside a window that has ended saves that window's penalty: with
      the fix the count is one less than without it, when the window was
      missed before. */
  lemma FixInWindowSavesPenalty(log: seq<Interaction>, e: Interaction, c: Instant, now: Instant)
    requires e.action == Fix && c + WINDOW_OPEN <= e.at <= c + WINDOW_CLOSE < now
    requires !FixedWithin(log, c + WINDOW_OPEN, c + WINDOW_CLOSE)
    ensures MissedWindows(log + [e], c, now) + 1 <= MissedWindows(log, c, now)
  {
    assert (log + [e])[|log|] == e;
    FixNeverRaisesDelay(log, e, c + HOUR, now);
  }

  /** As `now` advances over the same log the delay never decreases. */
  lemma {:induction false} DelayMonotone(log: seq<Interaction>, c: Instant, now1: Instant, now2: Instant)
    requires now1 <= now2
    ensures MissedWindows(log, c, now1) <= MissedWindows(log, c, now2)
    decreases now2 - c
  {
    if now1 > c + WINDOW_CLOSE {
      DelayMonotone(log, c + HOUR, now1, now2);
    }
  }

  /** Every missed window has ended, and with no fix in the log every ended
      window is missed. */
  lemma {:induction false} MissedAmongEnded(log: seq<Interaction>, c: Instant, now: Instant)
    ensures MissedWindows(log, c, now) <= EndedWindows(c, now)
    ensures FixTimes(log) == {} ==> MissedWindows(log, c, now) == EndedWindows(c, now)
    decreases now - c
  {
    if now > c + WINDOW_CLOSE {
      FixedWithinByTimes(log, c + WINDOW_OPEN, c + WINDOW_CLOSE);
      MissedAmongEnded(log, c + HOUR, now);
    }
  }

  /** The number of windows that have ended by `now`, counted from checkpoint
      `c`, in closed form: one per whole hour since the first window closed. */
  lemma {:induction false} EndedWindowsCount(c: Instant, now: Instant)
    ensures EndedWindows(c, now) == if now <= c + WINDOW_CLOSE then 0 else (now - c - WINDOW_CLOSE - 1) / HOUR + 1
    decreases now - c
  {
    if now > c + WINDOW_CLOSE {
      EndedWindowsCount(c + HOUR, now);
      var k := now - c - WINDOW_CLOSE - 1;
      assert k >= 0;
      if k < HOUR {
        assert now <= c + HOUR + WINDOW_CLOSE;
      } else {
        assert (k - HOUR) / HOUR == k / HOUR - 1;
      }
    }
  }

  /** Window `k`, counted from 0 at checkpoint `c`, holds no fix. */
  predicate Unfixed(log: seq<Interaction>, c: Instant, k: nat) {
    !FixedWithin(log, c + k * HOUR + WINDOW_OPEN, c + k * HOUR + WINDOW_CLOSE)
  }

  /** The numbers below `n` of the windows that hold no fix. */
  function UnfixedWindows(log: seq<Interaction>, c: Instant, n: nat): set<nat> {
    set k: nat | k < n && Unfixed(log, c, k)
  }

  /** Window `j` from checkpoint `c` has ended by `now` exactly when `j` is
      below the number of ended windows. */
  lemma EndedBefore(c: Instant, now: Instant, j: nat)
    ensures j < EndedWindows(c, now) <==> c + j * HOUR + WINDOW_CLOSE < now
  {
    EndedWindowsCount(c, now);
    if now > c + WINDOW_CLOSE {
      var m := now - c - WINDOW_CLOSE - 1;
      DivBounds(m, HOUR);
      if j <= m / HOUR {
        assert j * HOUR <= (m / HOUR) * HOUR;
      } else {
        assert j * HOUR >= (m / HOUR) * HOUR + HOUR;
      }
    }
  }

  /** The walk over the first `j` ended windows has counted exactly the
      unfixed ones among them. */
  lemma {:induction false} MissedSplit(log: seq<Interaction>, c: Instant, now: Instant, j: nat)
    requires j <= EndedWindows(c, now)
    ensures MissedWindows(log, c, now) == |UnfixedWindows(log, c, j)| + MissedWindows(log, c + j * HOUR, now)
    decreases j
  {
    if j == 0 {
      assert UnfixedWindows(log, c, 0) == {};
    } else {
      MissedSplit(log, c, now, j - 1);
      EndedBefore(c, now, j - 1);
      var b := c + (j - 1) * HOUR;
      assert c + j * HOUR == b + HOUR;
      assert UnfixedWindows(log, c, j)
             == UnfixedWindows(log, c, j - 1) + (if Unfixed(log, c, j - 1) then {j - 1} else {});
      assert j - 1 !in UnfixedWindows(log, c, j - 1);
    }
  }

  /** `total_delay` is 60 minutes times the number of windows, from the first
      checkpoint on, that have ended by `now` and hold no fix. */
  lemma DelayCountsUnfixedWindows(p: Panel, now: Instant)
    ensures var c := FirstCheckpoint(p.placedAt);
            TotalDelay(p, now) == PENALTY * |UnfixedWindows(p.interactions, c, EndedWindows(c, now))|
  {
    var c := FirstCheckpoint(p.placedAt);
    var n := EndedWindows(c, now);
    MissedSplit(p.interactions, c, now, n);
    EndedBefore(c, now, n);
  }

  /** The fix a fix call appends at `now` leaves the whole state at `now`
      unchanged, whoever made it. */
  lemma StateIgnoresFixAtNow(p: Panel, user: UserId, liveDuration: int, now: Instant)
    ensures StateAt(p.(interactions := p.interactions + [Interaction(user, Fix, now)]), liveDuration, now)
         == StateAt(p, liveDuration, now)
  {
    LateFixIsIgnored(p.interactions, Interaction(user, Fix, now), FirstCheckpoint(p.placedAt), now);
  }

  /** A panel placed at 10:05 with a live duration of 60 minutes and never
      fixed has missed the 11:30-11:59 window by 12:00: its delay is 60
      minutes, it expires at 12:05 and has 5 minutes left. */
  lemma NeverFixedPanelAtNoon(user: UserId, id: PanelId)
    ensures var p := Panel(id, user, 10 * HOUR + 5 * MINUTE, 60,
                           [Interaction(user, Place, 10 * HOUR + 5 * MINUTE)]);
            StateAt(p, 60, 12 * HOUR) == PanelState(5, 60, 12 * HOUR + 5 * MINUTE)
  {
    var log := [Interaction(user, Place, 10 * HOUR + 5 * MINUTE)];
    assert !FixedWithin(log, 11 * HOUR + WINDOW_OPEN, 11 * HOUR + WINDOW_CLOSE);
    assert MissedWindows(log, 12 * HOUR, 12 * HOUR) == 0;
    assert MissedWindows(log, 11 * HOUR, 12 * HOUR) == 1;
  }
}
