/** The pomodoro timer: selected minutes, remaining seconds, a running flag
    and a start instant, with the daily tomato counts it keeps. Every
    operation takes the clock reading `now` (milliseconds) as a parameter. */
module Pomodoro {
  import opened Wrappers
  import Format

  /** The preset a tomato is counted for, and the initial selection. */
  const TomatoMinutes: int := 25

  /** The most tomato icons shown before a "+n" badge. */
  const MaxIcons: int := 8

  /** Days a daily count is kept. */
  const KeepDays: int := 30

  /** The seconds left at `now` of a run of `selected` minutes started at
      `startedAt`: the whole elapsed seconds taken off, never below zero. */
  function Remaining(selected: int, startedAt: int, now: int): (r: int)
    ensures r >= 0
    ensures r > 0 ==> r + (now - startedAt) / 1000 == selected * 60
    ensures r == 0 ==> (now - startedAt) / 1000 >= selected * 60
  {
    if selected * 60 - (now - startedAt) / 1000 > 0 then selected * 60 - (now - startedAt) / 1000 else 0
  }

  /** The start instant that puts a run of `selected` minutes at `seconds`
      left at `now`: starting and then pausing at the same instant leaves
      the seconds as they were (none, for a negative count). */
  function StartTime(selected: int, seconds: int, now: int): (r: int)
    ensures Remaining(selected, r, now) == if seconds >= 0 then seconds else 0
  {
    var r := now - (selected * 60 - seconds) * 1000;
    assert (now - r) / 1000 == selected * 60 - seconds;
    r
  }

  /** The remaining seconds never grow as time passes. */
  lemma RemainingNeverGrows(selected: int, startedAt: int, now: int, later: int)
    requires now <= later
    ensures Remaining(selected, startedAt, later) <= Remaining(selected, startedAt, now)
  {
    assert (now - startedAt) / 1000 <= (later - startedAt) / 1000;
  }

  /** A run is over once its selected minutes have elapsed. */
  lemma RemainingReachesZero(selected: int, startedAt: int, now: int)
    requires now - startedAt >= selected * 60 * 1000
    ensures Remaining(selected, startedAt, now) == 0
  {
  }

  /** The UTC calendar day of an instant: `toISOString().split('T')[0]`,
      as a day number. */
  function UtcDay(now: int): int {
    now / Format.DayMs
  }

  /** The daily counts left after dropping the days whose midnight lies
      more than `KeepDays` days before `now`. */
  function Pruned(data: map<int, int>, now: int): (r: map<int, int>)
    ensures forall k :: k in r <==> k in data && k * Format.DayMs >= now - KeepDays * Format.DayMs
    ensures forall k :: k in r ==> r[k] == data[k]
  {
    map k | k in data && k * Format.DayMs >= now - KeepDays * Format.DayMs :: data[k]
  }

  /** Saving today's count keeps it: today is never pruned. */
  lemma SavedTodaySurvives(data: map<int, int>, count: int, now: int)
    ensures UtcDay(now) in Pruned(data[UtcDay(now) := count], now)
    ensures Pruned(data[UtcDay(now) := count], now)[UtcDay(now)] == count
  {
    assert UtcDay(now) * Format.DayMs > now - Format.DayMs;
  }

  /** Saving today's count over a pruned map is saving it over the whole
      map: the days pruned first would be pruned again. */
  lemma PrunedResave(data: map<int, int>, count: int, now: int)
    ensures Pruned(Pruned(data, now)[UtcDay(now) := count], now) == Pruned(data[UtcDay(now) := count], now)
  {
    assert UtcDay(now) * Format.DayMs > now - Format.DayMs;
  }

  /** Pruning twice at the same instant prunes nothing more. */
  lemma PrunedIdempotent(data: map<int, int>, now: int)
    ensures Pruned(Pruned(data, now), now) == Pruned(data, now)
  {
  }

  /** What `updateTomatoDisplay` shows: nothing, or the icons (each marked
      whether it is the newly earned one) and an optional "+n" badge. */
  datatype TomatoView = Hidden | Shown(icons: seq<bool>, badge: Option<int>)

  /** `updateTomatoDisplay(isNew)` for a daily count: hidden for zero;
      otherwise up to `MaxIcons` icons, the last one marked new when asked,
      and a badge with the tomatoes beyond the icons. */
  method TomatoIcons(count: int, isNew: bool) returns (v: TomatoView)
    ensures v.Hidden? <==> count == 0
    ensures v.Shown? ==> |v.icons| == (if count < 0 then 0 else if count < MaxIcons then count else MaxIcons)
    ensures v.Shown? ==> forall i :: 0 <= i < |v.icons| ==> (v.icons[i] <==> isNew && i == |v.icons| - 1)
    ensures v.Shown? ==> (v.badge.Some? <==> count > MaxIcons)
    ensures v.Shown? && count > 0 ==> |v.icons| + v.badge.GetOr(0) == count
  {
    if count == 0 {
      return Hidden;
    }
    var iconsToShow := if count < MaxIcons then count else MaxIcons;
    var icons: seq<bool> := [];
    var i := 0;
    while i < iconsToShow
      invariant 0 <= i <= (if iconsToShow < 0 then 0 else iconsToShow)
      invariant |icons| == i
      invariant forall j :: 0 <= j < i ==> (icons[j] <==> isNew && j == iconsToShow - 1)
    {
      icons := icons + [isNew && i == iconsToShow - 1];
      i := i + 1;
    }
    var badge := if count > MaxIcons then Some(count - MaxIcons) else None;
    return Shown(icons, badge);
  }

  /** The state `savePomodoroState` writes. */
  datatype SavedTimer = SavedTimer(selectedMinutes: int, running: bool, startedAt: Option<int>,
                                   pausedSecondsRemaining: Option<int>)

  /** The deletion loop of `saveDailyTomatoes`: every day whose midnight is
      before the cut-off is deleted, every other day kept as it was. */
  method PruneDays(data: map<int, int>, now: int) returns (kept: map<int, int>)
    ensures kept == Pruned(data, now)
  {
    var cutoff := now - KeepDays * Format.DayMs;
    var keys := data.Keys;
    kept := data;
    while |keys| > 0
      invariant keys <= data.Keys
      invariant forall j :: j in kept <==> j in data && (j in keys || j * Format.DayMs >= cutoff)
      invariant forall j :: j in kept ==> kept[j] == data[j]
      decreases |keys|
    {
      HasMember(keys);
      var k :| k in keys;
      if k * Format.DayMs < cutoff {
        kept := kept - {k};
      }
      keys := keys - {k};
    }
    assert forall k :: k in kept <==> k in Pruned(data, now);
  }

  /** A non-empty set of days has a member. */
  lemma HasMember(keys: set<int>)
    requires |keys| > 0
    ensures exists k :: k in keys
  {
    if forall k :: k !in keys {
      assert false;
    }
  }

  /** The timer and the stored daily tomato counts (keyed by UTC day). */
  class Timer {
    var seconds: int
    var running: bool
    var selectedMinutes: int
    /** `None` stands for `null`. */
    var startedAt: Option<int>
    var daily: map<int, int>

    /** A run is timed only while running, and a running timer has a start. */
    ghost predicate Valid()
      reads this
    {
      running <==> startedAt.Some?
    }

    /** The start instant is set and truthy: `if (pomodoroStartedAt)`. */
    predicate Started()
      reads this
    {
      startedAt.Some? && startedAt.value != 0
    }

    /** The initial timer: 25 minutes, stopped, over the stored counts. */
    constructor (stored: map<int, int>)
      ensures seconds == TomatoMinutes * 60 && !running && selectedMinutes == TomatoMinutes
      ensures startedAt.None? && daily == stored
      ensures Valid()
    {
      seconds := TomatoMinutes * 60;
      running := false;
      selectedMinutes := TomatoMinutes;
      startedAt := None;
      daily := stored;
    }

    /** `loadDailyTomatoes()`: today's count, 0 when none is stored. */
    function TodayCount(now: int): int
      reads this
    {
      if UtcDay(now) in daily then daily[UtcDay(now)] else 0
    }

    /** `savePomodoroState()`: the paused seconds are stored exactly when
        the timer is not running. */
    function SavedState(): (r: SavedTimer)
      reads this
      ensures r.pausedSecondsRemaining.None? <==> running
      ensures r.pausedSecondsRemaining.Some? ==> r.pausedSecondsRemaining.value == seconds
      ensures r.selectedMinutes == selectedMinutes && r.running == running && r.startedAt == startedAt
    {
      SavedTimer(selectedMinutes, running, startedAt, if running then None else Some(seconds))
    }

    /** `setPomodoroTime(minutes)`: select a preset and stop. */
    method SetTime(minutes: int)
      modifies this
      ensures selectedMinutes == minutes && seconds == minutes * 60
      ensures !running && startedAt.None? && daily == old(daily)
      ensures Valid()
    {
      selectedMinutes := minutes;
      seconds := minutes * 60;
      running := false;
      startedAt := None;
    }

    /** `resetPomodoro()`: back to the full selected duration, stopped. */
    method Reset()
      modifies this
      ensures seconds == selectedMinutes * 60 && !running && startedAt.None?
      ensures selectedMinutes == old(selectedMinutes) && daily == old(daily)
      ensures Valid()
    {
      running := false;
      startedAt := None;
      seconds := selectedMinutes * 60;
    }

    /** `togglePomodoro()`: pausing records the remaining seconds; starting
        refills an exhausted timer and back-dates the start so that the
        remaining seconds are the current ones. */
    method Toggle(now: int)
      modifies this
      ensures selectedMinutes == old(selectedMinutes) && daily == old(daily)
      ensures running == !old(running)
      ensures old(running) ==> startedAt.None?
      ensures old(running) ==>
        seconds == (if old(Started()) then Remaining(selectedMinutes, old(startedAt).value, now) else old(seconds))
      ensures !old(running) ==> seconds == (if old(seconds) <= 0 then selectedMinutes * 60 else old(seconds))
      ensures !old(running) ==> startedAt == Some(StartTime(selectedMinutes, seconds, now))
      ensures Valid()
    {
      if running {
        if Started() {
          seconds := Remaining(selectedMinutes, startedAt.value, now);
        }
        running := false;
        startedAt := None;
      } else {
        if seconds <= 0 {
          seconds := selectedMinutes * 60;
        }
        startedAt := Some(StartTime(selectedMinutes, seconds, now));
        running := true;
      }
    }

    /** `saveDailyTomatoes(count)`: store today's count, then delete every
        day older than the cut-off. */
    method SaveDailyTomatoes(count: int, now: int)
      modifies this
      ensures daily == Pruned(old(daily)[UtcDay(now) := count], now)
      ensures seconds == old(seconds) && running == old(running)
      ensures selectedMinutes == old(selectedMinutes) && startedAt == old(startedAt)
    {
      daily := PruneDays(daily[UtcDay(now) := count], now);
    }

    /** `incrementTomato()`: today's count goes up by one. */
    method IncrementTomato(now: int)
      modifies this
      ensures daily == Pruned(old(daily)[UtcDay(now) := old(TodayCount(now)) + 1], now)
      ensures TodayCount(now) == old(TodayCount(now)) + 1
      ensures seconds == old(seconds) && running == old(running)
      ensures selectedMinutes == old(selectedMinutes) && startedAt == old(startedAt)
    {
      var count := TodayCount(now) + 1;
      SaveDailyTomatoes(count, now);
      SavedTodaySurvives(old(daily), count, now);
    }

    /** `pomodoroComplete()`: a tomato is earned only by a 25-minute run. */
    method Complete(now: int)
      modifies this
      ensures TodayCount(now) == old(TodayCount(now)) + (if selectedMinutes == TomatoMinutes then 1 else 0)
      ensures selectedMinutes == TomatoMinutes ==> daily == Pruned(old(daily)[UtcDay(now) := old(TodayCount(now)) + 1], now)
      ensures selectedMinutes != TomatoMinutes ==> daily == old(daily)
      ensures seconds == old(seconds) && running == old(running)
      ensures selectedMinutes == old(selectedMinutes) && startedAt == old(startedAt)
    {
      if selectedMinutes == TomatoMinutes {
        IncrementTomato(now);
      }
    }

    /** One run of the interval callback: recompute the remaining seconds
        from the start; on reaching zero stop and complete. */
    method Tick(now: int) returns (completed: bool)
      modifies this
      ensures seconds == (if old(Started()) then Remaining(selectedMinutes, old(startedAt).value, now) else old(seconds))
      ensures completed <==> seconds <= 0
      ensures completed ==> !running && startedAt.None?
      ensures !completed ==> running == old(running) && startedAt == old(startedAt) && daily == old(daily)
      ensures completed ==> TodayCount(now) == old(TodayCount(now)) + (if selectedMinutes == TomatoMinutes then 1 else 0)
      ensures completed ==> daily == (if selectedMinutes == TomatoMinutes
        then Pruned(old(daily)[UtcDay(now) := old(TodayCount(now)) + 1], now) else old(daily))
      ensures selectedMinutes == old(selectedMinutes)
      ensures old(Valid()) ==> Valid()
    {
      if Started() {
        seconds := Remaining(selectedMinutes, startedAt.value, now);
      }
      completed := seconds <= 0;
      if completed {
        running := false;
        startedAt := None;
        Complete(now);
      }
    }

    /** `loadPomodoroState()` as written: a run that expired while the page
        was closed counts its tomato twice, once directly and once more in
        `pomodoroComplete`. */
    method LoadStateAsWritten(state: Option<SavedTimer>, now: int)
      modifies this
      ensures state.None? ==> (seconds == old(seconds) && running == old(running)
        && selectedMinutes == old(selectedMinutes) && startedAt == old(startedAt) && daily == old(daily))
      ensures state.Some? ==> selectedMinutes == LoadedMinutes(state.value)
      ensures state.Some? && Resumes(state.value, now) ==>
        running && startedAt == state.value.startedAt && daily == old(daily)
        && seconds == Remaining(selectedMinutes, state.value.startedAt.value, now)
      ensures state.Some? && Expired(state.value, now) && selectedMinutes == TomatoMinutes ==>
        TodayCount(now) == old(TodayCount(now)) + 2
        && daily == Pruned(old(daily)[UtcDay(now) := old(TodayCount(now)) + 2], now)
      ensures state.Some? && Expired(state.value, now) && selectedMinutes != TomatoMinutes ==>
        daily == old(daily)
      ensures state.Some? && Expired(state.value, now) ==>
        seconds == selectedMinutes * 60 && !running && startedAt.None?
      ensures state.Some? && !Resumes(state.value, now) && !Expired(state.value, now) ==>
        daily == old(daily) && startedAt == old(startedAt)
        && (state.value.pausedSecondsRemaining.Some? ==> !running && seconds == state.value.pausedSecondsRemaining.value)
        && (state.value.pausedSecondsRemaining.None? ==> running == old(running) && seconds == old(seconds))
      ensures old(!running && startedAt.None?) ==> Valid()
    {
      if state.None? {
        return;
      }
      var s := state.value;
      selectedMinutes := LoadedMinutes(s);
      if s.running && s.startedAt.Some? && s.startedAt.value != 0 {
        seconds := Remaining(selectedMinutes, s.startedAt.value, now);
        if seconds > 0 {
          startedAt := s.startedAt;
          running := true;
        } else {
          if selectedMinutes == TomatoMinutes {
            ghost var before, count := daily, TodayCount(now);
            IncrementTomato(now);
            PrunedResave(before[UtcDay(now) := count + 1], count + 2, now);
            assert before[UtcDay(now) := count + 1][UtcDay(now) := count + 2] == before[UtcDay(now) := count + 2];
          }
          Complete(now);
          seconds := selectedMinutes * 60;
          running := false;
          startedAt := None;
        }
      } else if s.pausedSecondsRemaining.Some? {
        seconds := s.pausedSecondsRemaining.value;
        running := false;
      }
    }

    /** `loadPomodoroState()` with the expired run's tomato counted once:
        resume a run still going, finish one that expired, or restore the
        paused seconds. */
    method LoadState(state: Option<SavedTimer>, now: int)
      modifies this
      ensures state.None? ==> (seconds == old(seconds) && running == old(running)
        && selectedMinutes == old(selectedMinutes) && startedAt == old(startedAt) && daily == old(daily))
      ensures state.Some? ==> selectedMinutes == LoadedMinutes(state.value)
      ensures state.Some? && Resumes(state.value, now) ==>
        running && startedAt == state.value.startedAt && daily == old(daily)
        && seconds == Remaining(selectedMinutes, state.value.startedAt.value, now)
      ensures state.Some? && Expired(state.value, now) ==>
        seconds == selectedMinutes * 60 && !running && startedAt.None?
        && TodayCount(now) == old(TodayCount(now)) + (if selectedMinutes == TomatoMinutes then 1 else 0)
        && daily == (if selectedMinutes == TomatoMinutes
          then Pruned(old(daily)[UtcDay(now) := old(TodayCount(now)) + 1], now) else old(daily))
      ensures state.Some? && !Resumes(state.value, now) && !Expired(state.value, now) ==>
        daily == old(daily) && startedAt == old(startedAt)
        && (state.value.pausedSecondsRemaining.Some? ==> !running && seconds == state.value.pausedSecondsRemaining.value)
        && (state.value.pausedSecondsRemaining.None? ==> running == old(running) && seconds == old(seconds))
      ensures old(!running && startedAt.None?) ==> Valid()
    {
      if state.None? {
        return;
      }
      var s := state.value;
      selectedMinutes := LoadedMinutes(s);
      if s.running && s.startedAt.Some? && s.startedAt.value != 0 {
        seconds := Remaining(selectedMinutes, s.startedAt.value, now);
        if seconds > 0 {
          startedAt := s.startedAt;
          running := true;
        } else {
          Complete(now);
          seconds := selectedMinutes * 60;
          running := false;
          startedAt := None;
        }
      } else if s.pausedSecondsRemaining.Some? {
        seconds := s.pausedSecondsRemaining.value;
        running := false;
      }
    }
  }

  /** The selection a loaded state uses: `selectedMinutes || 25`. */
  function LoadedMinutes(s: SavedTimer): int {
    if s.selectedMinutes == 0 then TomatoMinutes else s.selectedMinutes
  }

  /** A saved run that is still going at `now`. */
  predicate Resumes(s: SavedTimer, now: int) {
    s.running && s.startedAt.Some? && s.startedAt.value != 0
    && Remaining(LoadedMinutes(s), s.startedAt.value, now) > 0
  }

  /** A saved run whose time ran out before `now`. */
  predicate Expired(s: SavedTimer, now: int) {
    s.running && s.startedAt.Some? && s.startedAt.value != 0
    && Remaining(LoadedMinutes(s), s.startedAt.value, now) == 0
  }

  /** Reloading the page after a 25-minute run has expired: as written the
      day gains two tomatoes, corrected it gains one. */
  method ExpiredReload(stored: map<int, int>, startedAt: int, now: int) returns (asWritten: int, corrected: int)
    requires startedAt != 0 && now - startedAt >= TomatoMinutes * 60 * 1000
    ensures asWritten == 2 && corrected == 1
  {
    var saved := SavedTimer(TomatoMinutes, true, Some(startedAt), None);
    RemainingReachesZero(TomatoMinutes, startedAt, now);
    assert Expired(saved, now);
    var a := new Timer(stored);
    var before := a.TodayCount(now);
    a.LoadStateAsWritten(Some(saved), now);
    asWritten := a.TodayCount(now) - before;
    var b := new Timer(stored);
    before := b.TodayCount(now);
    b.LoadState(Some(saved), now);
    corrected := b.TodayCount(now) - before;
  }
}
