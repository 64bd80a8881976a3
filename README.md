# Knecht panel engine

A model in Dafny of the panel lifecycle engine of the `Knecht` cog of a
Discord bot, and of the daily leaderboard its hall of fame builds.

Players place *panels*. A panel runs for a live duration (60 minutes unless
the settings say otherwise). From the hour after the one it was placed in
on, every hour has a maintenance window from hh:30:00 to hh:59:59: a panel
placed at 10:05 is first judged on the window 11:30:00 to 11:59:59. Each
window that ends without a `fix` entry in the panel's log delays the panel
by 60 minutes. A player's fix
press works in two passes:

- The first pass puts a `fix` entry on every panel that is eligible. A panel
  is eligible when it is ready for collection, or when it is the second half
  of the hour and this player has not fixed it in this window yet.
- The second pass collects the ready panels. It pays each one's battery
  value out to its contributors, in proportion to their entries in the
  panel's log.

Container and hafenevent logs work differently: each adds a fixed value to
the player's profit. A business day runs from 04:00 to 04:00. At the first
operation of a new business day the daily work and profit are folded into
the lifetime totals, and the daily counters and the active panels are
cleared. The old day is archived in the history only when some work
category or the profit ledger holds an entry; batteries alone do not make
an archive.
The leaderboard lists every player of the day once, with their profit and
their counts, from the highest profit down.

The model is imperative where the source is. It has these parts:

- The class `Knecht.KnechtCog` holds the cog's fields. Every mutating
  operation (`ResetDailyStats`, `CheckDailyReset`, `ProcessPlace`,
  `ProcessFix`, `LogContainer`, `LogHafenevent`) is a method that changes
  those fields. Each is proved to leave the store as a definition in
  `KnechtSpec` prescribes, and it leaves the settings untouched.
- Three methods of the class change no field; they are the loops of the
  source, proved against functions. `CalculatePanelState` computes
  `Panels.StateAt`. `MaintainPanels` computes `KnechtSpec.MaintainAll` and
  the two counts. `SettlePanels` computes `KnechtSpec.Settle`.
- The definitions in `KnechtSpec` work on the value `KnechtSpec.Store`.
  Lemmas about them state what each operation promises.
- The panel state calculation's checkpoint loop is the method
  `Knecht.KnechtCog.CalculatePanelState`. `Panels` holds the recursive
  definition it is proved against (`Panels.MissedWindows`), the loops that
  scan a panel's log for a fix, and the lemmas about the delay.
- The payout (`Payout`) holds the counting and crediting loops and the
  functions they are proved against.
- The leaderboard (`HallOfFame.GetLeaderboard`) is a loop over a set,
  followed by a sort.

Time is an integer number of microseconds of local wall-clock time in the
bot's one time zone (`Clock`). Hour, minute and date are derived from it by
division. Every operation takes the current instant `now` as a parameter.
Source timestamps keep microseconds, and the guards compare them at that
precision. The window the state calculation checks ends at 59:59.000000, but
the duplicate-fix guard's window ends at 59:59.999999. In seconds these two
bounds could not be told apart.

The first pass's duplicate-fix guard is per player
(src/cogs/knecht.py:332-345). A player who already fixed a panel in the
current window is not eligible for it again, while other players still are.

`reset_daily_stats()` called without a date sets the cursor to the calendar
date of `now`, not to its business date (src/cogs/knecht.py:518-522).
Before 04:00 that makes the next check reset the store again
(`KnechtSpec.ManualResetBeforeFourResetsAgain`).

## Definitions

The definitions the contracts below are stated in terms of, with the source
each one models:

- `Counters.Get`: a user's entry of a counter, 0 when missing, as `m.get(uid, 0)` (src/cogs/knecht.py:382, 387, 399).
- `Counters.MergeWork`: the fold of the four daily work categories into lifetime work (src/cogs/knecht.py:494-498).
- `Clock.TruncDiv`: `int()` of a quotient, truncating toward zero (src/cogs/knecht.py:305-307).
- `Panels.MissedWindows`: the checkpoint walk, one window per hour from the first checkpoint, counting the windows that ended unfixed (src/cogs/knecht.py:282-301).
- `Panels.StateAt`, `Panels.Due`: the panel's state at `now`, and readiness for collection as `remaining_minutes <= 0` (src/cogs/knecht.py:303-310, 329, 365).
- `Payout.Share`, `Payout.ShareOf`: a user's share `int(count / total * battery)` (src/cogs/knecht.py:385).
- `Payout.Credit`, `Payout.CreditAll`: crediting the positive shares (src/cogs/knecht.py:384-387).
- `Payout.PayoutOf`: the profit ledger after collecting one panel (src/cogs/knecht.py:374-387).
- `KnechtSpec.ResetDue`, `KnechtSpec.AfterReset`: `check_daily_reset` and the state it leaves (src/cogs/knecht.py:455-468).
- `KnechtSpec.ResetResult`: what `check_daily_reset` returns, the archive of a reset that fired or nothing (src/cogs/knecht.py:465-468).
- `KnechtSpec.ResetDaily`, `KnechtSpec.ArchiveOf`, `KnechtSpec.HasActivity`: `reset_daily_stats` (src/cogs/knecht.py:470-525).
- `KnechtSpec.NewPanel`, `KnechtSpec.PlaceStore`: `process_place` (src/cogs/knecht.py:222-253).
- `KnechtSpec.GuardStart`, `KnechtSpec.GuardEnd`: the duplicate-fix guard's window of `now`, from hh:30:00.000000 to hh:59:59.999999 (src/cogs/knecht.py:334-335).
- `KnechtSpec.Eligible`: the first pass's eligibility test (src/cogs/knecht.py:328-346).
- `KnechtSpec.Maintain`, `KnechtSpec.MaintainAll`: the first pass's fix entry (src/cogs/knecht.py:347-354).
- `KnechtSpec.EligibleCount`, `KnechtSpec.DueCount`: `eligible_count` and `collected_count` (src/cogs/knecht.py:329-357).
- `KnechtSpec.IsCollected`: the second pass's test (src/cogs/knecht.py:364-368).
- `KnechtSpec.Settle`: the second pass (src/cogs/knecht.py:359-389).
- `KnechtSpec.Pending`, `KnechtSpec.Ready`: the panels not ready and ready for collection, in order (src/cogs/knecht.py:359-371).
- `KnechtSpec.PayAll`: paying out a list of panels one after the other (src/cogs/knecht.py:359-389).
- `KnechtSpec.FixCountsOf`, `KnechtSpec.FixStore`: `process_fix` (src/cogs/knecht.py:312-405).
- `KnechtSpec.FlatStore`: `log_container` and `log_hafenevent` (src/cogs/knecht.py:184-217).
- `HallOfFame.Mechanics.BatteryValue`, `ContainerValue`, `HafendropValue`: the mechanics values with their defaults 50000, 90000 and 24000 (src/cogs/knecht.py:378, 188, 206).
- `HallOfFame.Users`, `HallOfFame.EntryFor`: the users of the day and one leaderboard entry (src/utils/hof.py:31-51).
- `HallOfFame.InsertByValue`: one step of the sort by value, highest first (src/utils/hof.py:54).
- `Knecht.KnechtCog.LiveDuration`: the `panel_liveduration` setting, 60 by default (src/cogs/knecht.py:277).

## Model

| member | source | states |
|---|---|---|
| Clock.HourFloor | src/cogs/knecht.py:280 | the top of the hour of an instant is a whole hour at most that instant and less than an hour before it |
| Clock.MinuteOf | src/cogs/knecht.py:322 | the minute is in 0..59 and the instant lies in that minute past its hour |
| Clock.HourOf | src/cogs/knecht.py:460 | the hour is in 0..23 and the instant lies in that hour of its calendar day |
| Clock.CalendarDay | src/cogs/knecht.py:461 | the calendar date is the day whose 24 hours contain the instant |
| Clock.BusinessDate | src/cogs/knecht.py:460-463 | business date `d` holds exactly the instants from 04:00 of day `d` up to, excluding, 04:00 of day `d + 1` |
| Clock.BusinessDateIs | src/cogs/knecht.py:460-463 | conversely, every instant in that span has business date `d` |
| Clock.TruncDivBounds | src/cogs/knecht.py:307 | `int()` of an exact quotient is the number of whole divisors on the dividend's side of zero (truncation toward zero, not floor) |
| Clock.WholeMinutes | src/cogs/knecht.py:304-307 | the remaining minutes are the whole minutes of the duration, rounded toward zero, and they are at most 0 exactly when less than one minute is left |
| Counters.Bump | src/cogs/knecht.py:391-394 | adding to one user's entry creates it if missing, raises it by the amount and leaves every other entry as it was |
| Counters.Merge | src/cogs/knecht.py:494-502 | folding one counter into another keeps the union of the keys, and each user's value is the sum of the two |
| Counters.MergeNeverLowers | src/cogs/knecht.py:500-502 | folding in non-negative amounts never lowers any user's total |
| Counters.MergeInto | src/cogs/knecht.py:500-502 | the loop over the daily profit computes the fold of the daily ledger into the lifetime ledger |
| Counters.MergeIs | src/cogs/knecht.py:495-498 | a counter with the right keys and the summed values is the fold |
| Counters.Work.With | src/cogs/knecht.py:494-498 | replacing one category's counter changes that category and no other |
| Counters.Work.Count | src/cogs/knecht.py:250 | counting one event raises that user's count in that category by one and changes nothing else |
| Counters.MergeWorkOf | src/cogs/knecht.py:494-498 | folding the daily work into lifetime folds each category's counter separately |
| Counters.MergeWorkInto | src/cogs/knecht.py:494-498 | the loop over the four categories computes that fold |
| Counters.MergeWorkAll | src/cogs/knecht.py:494-498 | a work record whose four categories are folded is the fold |
| Panels.FirstCheckpoint | src/cogs/knecht.py:280 | the first checkpoint is the top of the hour that follows the placement, at most one hour after it |
| Panels.TotalDelay | src/cogs/knecht.py:278-301 | the delay is a non-negative multiple of 60 minutes: 60 per window that ended before `now` with no fix in it |
| Panels.StateAt | src/cogs/knecht.py:303-308 | expiry is the placement plus live duration plus delay; the remaining minutes are the truncated minutes to expiry; the panel is due exactly when less than a minute is left |
| Panels.HasFixWithin | src/cogs/knecht.py:289-295 | the inner loop answers yes exactly when some `fix` entry is stamped inside the window |
| Panels.HasFixByWithin | src/cogs/knecht.py:333-342 | the guard loop answers yes exactly when this user has a `fix` entry inside the window |
| Panels.FixedWithinByTimes | src/cogs/knecht.py:290-294 | a window counts as fixed exactly when one of the log's fix instants lies in it |
| Panels.MissedBySameFixTimes | src/cogs/knecht.py:290-299 | the delay depends on the log only through its set of fix instants: who fixed and in what order does not matter |
| Panels.FixTimesAppend | src/cogs/knecht.py:350-354 | appending an entry adds its instant to the fix instants exactly when it is a fix |
| Panels.PlaceEntryIsIgnored | src/cogs/knecht.py:291 | a `place` entry never saves a window |
| Panels.LateFixIsIgnored | src/cogs/knecht.py:293-299 | a fix stamped at or after `now` changes no missed-window count at `now` |
| Panels.FixNeverRaisesDelay | src/cogs/knecht.py:297-299 | adding an entry to the log never raises the number of missed windows |
| Panels.FixInWindowSavesPenalty | src/cogs/knecht.py:293-299 | a fix inside an ended, unfixed window lowers the missed count by at least one |
| Panels.DelayMonotone | src/cogs/knecht.py:282-301 | as `now` advances over the same log the delay never decreases |
| Panels.MissedAmongEnded | src/cogs/knecht.py:297-299 | no more windows are missed than have ended, and a log without fixes misses every ended window |
| Panels.EndedWindowsCount | src/cogs/knecht.py:282-299 | the number of windows that ended before `now` in closed form: none until the first window closes, then one more per hour |
| Panels.EndedBefore | src/cogs/knecht.py:282-299 | window `j` after the first checkpoint has closed before `now` exactly when `j` is below the count of ended windows |
| Panels.MissedSplit | src/cogs/knecht.py:282-301 | after `j` ended windows the checkpoint walk has added one for each of them that holds no fix, and nothing else |
| Panels.DelayCountsUnfixedWindows | src/cogs/knecht.py:278-301 | `total_delay` is 60 times the number of windows, from the hour after placement on, that closed before `now` and hold no `fix` entry |
| Panels.StateIgnoresFixAtNow | src/cogs/knecht.py:350-361 | the `fix` entry the first pass stamps at `now` does not change the panel's state at `now`, so the second pass sees the state the first pass saw |
| Panels.NeverFixedPanelAtNoon | src/cogs/knecht.py:271-310 | a panel placed at 10:05 and never fixed has, at 12:00, 60 minutes of delay, expiry 12:05 and 5 minutes left |
| Payout.Ids | src/cogs/knecht.py:380-381 | the user ids of the log, entry by entry |
| Payout.Dedup | src/cogs/knecht.py:379-384 | the counted users are distinct and exactly the users who appear in the log |
| Payout.CreditAllSnoc | src/cogs/knecht.py:384-387 | crediting one more user at the end acts on the ledger credited so far |
| Payout.CreditAllNext | src/cogs/knecht.py:384-387 | the same step in terms of the i-th counted user |
| Payout.CreditAllAt | src/cogs/knecht.py:384-387 | crediting distinct users raises each one's profit by their credit and nobody else's, and creates a key only where the share is positive |
| Payout.PayoutAt | src/cogs/knecht.py:374-387 | after collecting a panel each user's profit is the old profit plus their positive share, and a share of 0 creates no key |
| Payout.OccSnoc | src/cogs/knecht.py:380-382 | counting one more entry raises only that user's count, by one |
| Payout.OccDistinct | src/cogs/knecht.py:384 | in a list of distinct users each occurs once |
| Payout.SumOccSnoc | src/cogs/knecht.py:380-382 | one more entry raises the summed counts by that entry's count among the users |
| Payout.SumOccDedup | src/cogs/knecht.py:384-385 | the per-user counts add up to the number of entries in the log |
| Payout.OccAbsent | src/cogs/knecht.py:382 | a user who is not in the log has count 0 |
| Payout.CreditBracket | src/cogs/knecht.py:385 | the truncated shares of the counted users bracket their exact proportional total from below, within one per user |
| Payout.PayoutBounded | src/cogs/knecht.py:384-387 | one collection pays out at most the battery value, and falls short of it by less than the number of distinct contributors |
| Payout.NonPositiveBatteryPaysNothing | src/cogs/knecht.py:385-387 | with a battery value of 0 or less nobody is credited and the ledger stays as it was |
| Payout.NoShareNoCredit | src/cogs/knecht.py:386-387 | users whose shares are not positive leave the ledger unchanged |
| Payout.NonPositiveShare | src/cogs/knecht.py:385 | the share of a non-positive battery value is never positive |
| Payout.ThirdsOfThreeHundred | src/cogs/knecht.py:374-387 | a panel placed by A and fixed twice by B, worth 300, pays A 100 and B 200 |
| Payout.CountsOfABB | src/cogs/knecht.py:379-382 | the counts of the log A, B, B are A once, B twice, in that key order |
| Payout.CreditsOfABB | src/cogs/knecht.py:384-387 | crediting those counts out of 300 gives A 100 and B 200 |
| Payout.CountStep | src/cogs/knecht.py:380-382 | one iteration of the counting loop keeps the key order and the counts correct |
| Payout.CountEntries | src/cogs/knecht.py:379-382 | the counting loop yields the users in first-occurrence order, a key for each of them and no other, and each user's number of entries |
| Payout.CreditShares | src/cogs/knecht.py:384-387 | the crediting loop over the counted users computes the payout |
| Payout.SettleCollection | src/cogs/knecht.py:374-387 | the payout of one collected panel: the ledger as the payout definition prescribes, unchanged for an empty log |
| KnechtSpec.ResetDailyIs | src/cogs/knecht.py:470-525 | a store with the fields the reset writes is the reset store |
| KnechtSpec.ResetConserves | src/cogs/knecht.py:476-519 | a reset moves every amount from daily to lifetime without loss; it empties the daily maps and the panels, sets the cursor, and archives the old day under the old cursor exactly when the day had work or profit |
| KnechtSpec.ResetIdempotent | src/cogs/knecht.py:455-468 | a second check within the same business date changes nothing and returns no archive |
| KnechtSpec.ResetMovesCursor | src/cogs/knecht.py:455-468 | after a check the cursor is the business date of `now`, and the check changed the store exactly when the cursor was elsewhere |
| KnechtSpec.ChecksAroundFour | src/cogs/knecht.py:455-468 | a check at 03:59 does nothing; a check at 04:01 archives the day under the previous date and moves the cursor on by one day |
| KnechtSpec.ManualResetBeforeFourResetsAgain | src/cogs/knecht.py:518-522 | a reset without a date before 04:00 leaves a cursor one day ahead, so the next check resets again and sets the cursor back |
| KnechtSpec.NewPanel | src/cogs/knecht.py:228-243 | the new panel carries the given id, creator, placement time and live duration, its log is the one `place` entry of its creator at `now`, and it is not yet due exactly when the live duration is at least one minute |
| KnechtSpec.NoDelayAtPlacement | src/cogs/knecht.py:303 | at the moment of placement the expiry is the placement time plus the live duration |
| KnechtSpec.PlaceOutcome | src/cogs/knecht.py:245-250 | the new panel ends the active list exactly when no reset fired, and a reset leaves no panel at all; the user's `placed` count rises by one; every other count, the profit, the batteries, the lifetime totals and the history are those the reset check leaves |
| KnechtSpec.MaintainAll | src/cogs/knecht.py:324-357 | the first pass keeps the list's length and treats each panel on its own |
| KnechtSpec.MaintainKeepsState | src/cogs/knecht.py:350-354 | the first pass changes no panel's state or readiness at `now` |
| KnechtSpec.MaintainKeepsWellFormed | src/cogs/knecht.py:350-354 | a panel whose log starts with its `place` entry, then holds only fixes in time order, keeps that shape |
| KnechtSpec.MaintainAppendsOne | src/cogs/knecht.py:347-354 | an eligible panel gets exactly one entry, a `fix` by the user stamped `now`; other panels are unchanged, and nothing but the log changes |
| KnechtSpec.DueCountBelowEligible | src/cogs/knecht.py:329-357 | every ready panel is eligible, so the number collected is at most the number eligible, which is at most the number of panels |
| KnechtSpec.MaintainedIsCollected | src/cogs/knecht.py:364-368 | after the first pass the second pass collects a panel exactly when it is ready |
| KnechtSpec.MaintainedDueHasEntries | src/cogs/knecht.py:366 | a ready panel's log is not empty when the second pass reads its last entry |
| KnechtSpec.SettlePaysReady | src/cogs/knecht.py:359-389 | the second pass pays out exactly the panels that were ready, in their order, each with the log the first pass left it |
| KnechtSpec.SettleAfterMaintain | src/cogs/knecht.py:359-389 | the second pass keeps exactly the panels that were not ready, in their order, and removes as many as were ready |
| KnechtSpec.NoneEligible | src/cogs/knecht.py:328-348 | `eligible_count` is 0 exactly when no panel of the list is eligible |
| KnechtSpec.NotEligibleUntouched | src/cogs/knecht.py:328-371 | a panel that is not eligible gets no entry, is not ready and is not collected |
| KnechtSpec.NothingEligibleKeepsAll | src/cogs/knecht.py:324-389 | with nothing eligible, nothing is ready and both passes leave the panels and the profit as they were |
| KnechtSpec.NothingDue | src/cogs/knecht.py:329-357 | with no panel ready, `collected_count` is 0 |
| KnechtSpec.NothingCollected | src/cogs/knecht.py:359-389 | when the second pass collects no panel it keeps every panel in order and pays nothing out |
| KnechtSpec.FixWithNothingEligible | src/cogs/knecht.py:391-405 | a fix call with nothing eligible returns (0, 0) and changes nothing beyond the reset check |
| KnechtSpec.FixOutcome | src/cogs/knecht.py:312-405 | a fix call removes and counts the ready panels and keeps the rest in order; the user's batteries rise by the number collected and their fixes by one when anything was eligible; the daily profit is that of paying out the ready panels in order; nothing else changes in work, batteries or lifetime |
| KnechtSpec.TwoPanelsMaintained | src/cogs/knecht.py:322-357 | at minute 45, two running panels the user has not fixed this window are both maintained, none is collected, and the user's fixes rise by one |
| KnechtSpec.AllEligibleNoneDue | src/cogs/knecht.py:324-357 | when every panel is eligible and none is ready, all are counted eligible and none collected |
| KnechtSpec.SettleNeverLowersProfit | src/cogs/knecht.py:384-387 | with a non-negative battery value the payouts never lower anyone's daily profit |
| KnechtSpec.SettleOnlyPaysContributors | src/cogs/knecht.py:374-387 | the payouts credit only contributors: a user with no entry in any panel's log keeps their profit |
| KnechtSpec.FlatOutcome | src/cogs/knecht.py:184-217 | a container or hafenevent adds one to the user's count in its category and the fixed value to their profit; nothing else of the day changes and the day then counts as active |
| HallOfFame.InsertByValueSorts | src/utils/hof.py:54 | inserting into a list sorted by value keeps it sorted and adds exactly that entry |
| HallOfFame.BoundedByHead | src/utils/hof.py:54 | a bound on a list and on one more entry bounds any permutation of the two |
| HallOfFame.SortedCons | src/utils/hof.py:54 | an entry worth at least every entry of a sorted list can head it |
| HallOfFame.SortByValue | src/utils/hof.py:54 | the sorted list is non-increasing by value and is a permutation of the input |
| HallOfFame.CollectEntries | src/utils/hof.py:39-51 | the loop yields one entry per user, whatever order the set is walked in |
| HallOfFame.EntriesOfGrows | src/utils/hof.py:40-51 | adding a user adds exactly that user's entry |
| HallOfFame.EntriesOfSize | src/utils/hof.py:40-51 | different users get different entries |
| HallOfFame.GetLeaderboard | src/utils/hof.py:23-55 | the board holds exactly the entries of the users of the six maps, each once, sorted by value from the highest down |
| HallOfFame.BoardEntries | src/utils/hof.py:31-51 | every entry belongs to a user of the six maps and carries that user's profit (read, not recomputed) and counts, 0 where missing; each user has exactly one entry |
| Knecht.KnechtCog.constructor | src/cogs/knecht.py:37-77 | a new cog has no panels, empty daily and lifetime maps, no history and no reset cursor |
| Knecht.KnechtCog.Commit | src/cogs/knecht.py:503-522 | writing a store sets every engine field to it and leaves the settings and mechanics untouched |
| Knecht.KnechtCog.CalculatePanelState | src/cogs/knecht.py:271-310 | the checkpoint loop computes the panel's state at `now` as defined above |
| Knecht.KnechtCog.ResetDailyStats | src/cogs/knecht.py:470-525 | the store becomes the reset store for the given date, or for the calendar date of `now` when none is given, and the returned archive is that of the old day |
| Knecht.KnechtCog.CheckDailyReset | src/cogs/knecht.py:455-468 | the store is reset to the business date of `now` exactly when the cursor is elsewhere, and the returned archive says what was closed |
| Knecht.KnechtCog.ProcessPlace | src/cogs/knecht.py:222-253 | returns the new panel and leaves the store as placing prescribes |
| Knecht.KnechtCog.MaintainPanels | src/cogs/knecht.py:322-357 | the first-pass loop yields the maintained list, the eligible count and the collected count |
| Knecht.KnechtCog.SettlePanels | src/cogs/knecht.py:359-389 | the second-pass loop yields the survivors and the profit after all payouts |
| Knecht.KnechtCog.ProcessFix | src/cogs/knecht.py:312-405 | returns the two counts and leaves the store as a fix call prescribes |
| Knecht.KnechtCog.LogContainer | src/cogs/knecht.py:184-199 | leaves the store as a container log prescribes, with the container value from the mechanics (90000 by default) |
| Knecht.KnechtCog.LogHafenevent | src/cogs/knecht.py:202-217 | leaves the store as a hafenevent log prescribes, with the hafendrop value from the mechanics (24000 by default) |

## Left out

- Discord plumbing is not modelled: views, buttons, slash commands, message and embed text, `update_tracking_message`, the status report and error replies. It is user interface and network I/O.
- Persistence is not modelled: `load_stats`, `save_stats`, the migration from the older data file, `load_settings` and `load_mechanics`. The loaded settings and mechanics are parameters of the constructor (`KnechtCog.liveDurationSetting`, `KnechtCog.mechanics`). User ids are strings throughout, as the `str(k)` coercion at load time makes them.
- The time-zone lookup and daylight-saving changes are not modelled. Time runs in one fixed local zone, and `replace(minute=…)` is arithmetic on the instant.
- The panel id from `uuid.uuid4()` is the parameter `id`.
- `datetime.now()` is the parameter `now`. The source reads the clock again inside each state calculation and inside the reset check; the model uses one `now` for a whole call.
- The floating-point arithmetic is exact in the model. The share `int(count / total * battery)` is exact truncated division, and the remaining minutes divide exact microseconds. The floating-point source can differ by 1 in rare rounding cases.
- Payout.ShareOf: the share is stated for exact arithmetic only; see the previous line.
- Clock.WholeMinutes: the minutes are exact whole minutes of an exact microsecond count, while the source divides the float `total_seconds()` by 60, which can differ by 1 when the quotient is within rounding of a whole number.
- Panels.StateAt: the remaining minutes are stated for exact arithmetic only, as for `Clock.WholeMinutes`.
- `tracking_data["fixed_this_hour"]`, `tracking_message_id` and `placed_by_name` are not modelled. They are for display only.
- The source stores `placed_by` as the platform's integer id and the log's `user_id` as its string. The model uses the string for both, and nothing in the engine compares the two.
- The source's `process_place` returns the very dictionary it put in the active list. The model returns a value, so that aliasing is not captured; no caller of the engine mutates the returned panel.
- The methods write the cog's fields at the end of each operation, through `Knecht.KnechtCog.Commit`, rather than one by one. Nothing reads the fields in between.
- `reset_daily_stats` tests its date argument for truthiness. The model's `None`/`Some` stands for it, so an empty-string date is not a separate case.
- HallOfFame.SortByValue: the source's sort is stable; the model's insertion keeps equal values in order, but no contract states stability.
- A history entry whose date is "Unknown" is `Archive(None, …)`.
- The polling task and its debounce (src/cogs/tasks.py), the older entry point main.py, the legacy counter cog src/cogs/panels.py, src/utils/traffic.py, src/utils/permissions.py and the tests are not part of this model.
