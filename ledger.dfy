/**
 * The timing ledger (data/orm.py, class `DB`). Each SQLite table is a
 * field: a map keyed by the table's unique key, or, for the violation log,
 * a sequence in insertion order. `datetime.now()` is passed in as the
 * `today` date or the `stamp` timestamp of the call.
 */
module Ledger {
  import opened Wrappers
  import opened Numerals

  type Date = string
  type Stamp = string

  /** The limit, in minutes, given to a newly classified game. */
  const DefaultTimeLimit: int := 60
  const DefaultNotifyLimit: int := 0
  /** The global limit when none is stored. */
  const DefaultGlobalTimingLimit: int := 60
  const GlobalTimingLimitKey: string := "global_timing_limit"

  /** A row of `is_game`. */
  datatype Classification = Classification(isGame: bool, userMarked: bool)

  /** A row of `timing_settings`: the limit in minutes and the notify limit. */
  datatype TimingSetting = TimingSetting(maxTime: int, notifyLimit: int)

  /** A row of `violations`; its `reason` column holds `ReasonText(reason)`. */
  datatype Violation = Violation(exe: string, stamp: Stamp, reason: Reason)

  /** The one kind of reason the ledger writes: the limit and the duration, both in minutes. */
  datatype Reason = Exceeded(maxTime: int, minutes: int)

  /** A tuple `(exe_name, current_duration, max_time)` returned by the violation check. */
  datatype Listed = Listed(exe: string, duration: int, maxTime: int)

  /** The `ValueError`s the ledger raises. */
  datatype LedgerError = NotClassifiedAsGame(exe: string) | NotAnInteger(text: string)

  // ---- specification functions over the tables ----

  function TimingOrZero(timings: map<(string, Date), int>, exe: string, day: Date): int {
    if (exe, day) in timings then timings[(exe, day)] else 0
  }

  predicate IsGameIn(isGame: map<string, Classification>, exe: string) {
    exe in isGame && isGame[exe].isGame
  }

  /** The timings after `populate_data_today`: a zero row for today for every game lacking one. */
  function Populated(timings: map<(string, Date), int>, isGame: map<string, Classification>, today: Date): (r: map<(string, Date), int>)
    ensures forall k :: k in r <==> k in timings || (k.1 == today && IsGameIn(isGame, k.0))
    ensures forall k :: k in timings ==> r[k] == timings[k]
    ensures forall k :: k in r && k !in timings ==> r[k] == 0
  {
    map k | k in timings.Keys + (set n | n in isGame && isGame[n].isGame :: (n, today)) ::
      if k in timings then timings[k] else 0
  }

  /** Every time-limit setting belongs to a name classified as a game. */
  predicate SettingsOnlyForGames(isGame: map<string, Classification>, timingSettings: map<string, TimingSetting>) {
    forall n :: n in timingSettings ==> IsGameIn(isGame, n)
  }

  /**
   * The limits after `upsert_is_game`: a game keeps its limit or gets the
   * default one, a non-game has none, every other name is untouched.
   */
  function Upserted(ts: map<string, TimingSetting>, exe: string, game: bool): (r: map<string, TimingSetting>)
    ensures exe in r <==> game
    ensures game && exe in ts ==> r[exe] == ts[exe]
    ensures game && exe !in ts ==> r[exe] == TimingSetting(DefaultTimeLimit, DefaultNotifyLimit)
    ensures forall n :: n != exe ==> (n in r <==> n in ts) && (n in ts ==> r[n] == ts[n])
  {
    if !game then ts - {exe}
    else if exe in ts then ts
    else ts[exe := TimingSetting(DefaultTimeLimit, DefaultNotifyLimit)]
  }

  /** `SELECT COUNT(*) FROM violations WHERE exe_name = ?`. */
  function CountFor(log: seq<Violation>, exe: string): (n: nat)
    ensures n <= |log|
  {
    if log == [] then 0
    else CountFor(log[..|log| - 1], exe) + (if log[|log| - 1].exe == exe then 1 else 0)
  }

  lemma {:induction false} CountForAppend(log: seq<Violation>, more: seq<Violation>, exe: string)
    ensures CountFor(log + more, exe) == CountFor(log, exe) + CountFor(more, exe)
    decreases |more|
  {
    if more == [] {
      assert log + more == log;
    } else {
      assert (log + more)[..|log + more| - 1] == log + more[..|more| - 1];
      CountForAppend(log, more[..|more| - 1], exe);
    }
  }

  /** The sum of `m` over `keys`, in no particular order. */
  ghost function SumOver<K>(m: map<K, int>, keys: set<K>): int
    requires keys <= m.Keys
    decreases keys
  {
    if keys == {} then 0
    else
      var k :| k in keys;
      m[k] + SumOver(m, keys - {k})
  }

  /** The sum does not depend on which key is taken first. */
  lemma {:induction false} SumOverRemove<K>(m: map<K, int>, keys: set<K>, k: K)
    requires keys <= m.Keys && k in keys
    ensures SumOver(m, keys) == m[k] + SumOver(m, keys - {k})
    decreases keys
  {
    var j :| j in keys && SumOver(m, keys) == m[j] + SumOver(m, keys - {j});
    if j != k {
      SumOverRemove(m, keys - {j}, k);
      SumOverRemove(m, keys - {k}, j);
      assert keys - {j} - {k} == keys - {k} - {j};
    }
  }

  /** The `timings` keys dated `day`. */
  function KeysOn(timings: map<(string, Date), int>, day: Date): set<(string, Date)> {
    set k | k in timings && k.1 == day
  }

  /** `SELECT SUM(duration) FROM timings WHERE date = ?`: `NULL` when no row matches. */
  ghost function TotalOn(timings: map<(string, Date), int>, day: Date): Option<int> {
    if KeysOn(timings, day) == {} then None else Some(SumOver(timings, KeysOn(timings, day)))
  }

  /** `int(value)` of the stored global limit, 60 when none is stored. */
  function GlobalLimitOf(settings: map<string, string>): (r: Result<int, LedgerError>)
  {
    if GlobalTimingLimitKey !in settings then Success(DefaultGlobalTimingLimit)
    else
      match ParseInt(settings[GlobalTimingLimitKey])
      case Some(v) => Success(v)
      case None => Failure(NotAnInteger(settings[GlobalTimingLimitKey]))
  }

  /** A limit stored by `update_global_timing_settings` is read back unchanged. */
  lemma GlobalLimitRoundTrip(settings: map<string, string>, limit: int)
    ensures GlobalLimitOf(settings[GlobalTimingLimitKey := IntToDecimal(limit)]) == Success(limit)
  {
    ParseIntToDecimal(limit);
  }

  /** The time-limit condition: both values above 0.1 and the duration beyond the limit in seconds. */
  predicate Exceeds(duration: int, maxTime: int) {
    (maxTime as real) > 0.1 && (duration as real) > 0.1 && duration > maxTime * 60
  }

  /** On integers the 0.1 guards mean: a limit of at least one minute, and a duration beyond it. */
  lemma ExceedsOnIntegers(duration: int, maxTime: int)
    ensures Exceeds(duration, maxTime) <==> maxTime >= 1 && duration > maxTime * 60
  {
  }

  /**
   * What the violation check lists for one timing setting: a name already
   * in the log that is not running is listed with duration 0; any other
   * name is listed with today's duration when it exceeds its limit.
   */
  function VerdictFor(exe: string, maxTime: int, flagged: bool, running: bool, duration: int): (r: Option<Listed>)
    ensures r.Some? ==> r.value.exe == exe && r.value.maxTime == maxTime
  {
    if flagged && !running then Some(Listed(exe, 0, maxTime))
    else if Exceeds(duration, maxTime) then Some(Listed(exe, duration, maxTime))
    else None
  }

  predicate Flagged(log: seq<Violation>, exe: string) {
    exists i :: 0 <= i < |log| && log[i].exe == exe
  }

  lemma {:induction false} FlaggedIffCounted(log: seq<Violation>, exe: string)
    ensures Flagged(log, exe) <==> CountFor(log, exe) > 0
  {
    if log != [] {
      var init := log[..|log| - 1];
      FlaggedIffCounted(init, exe);
      if Flagged(init, exe) {
        var i :| 0 <= i < |init| && init[i].exe == exe;
        assert log[i] == init[i];
      }
      if Flagged(log, exe) && log[|log| - 1].exe != exe {
        var i :| 0 <= i < |log| && log[i].exe == exe;
        assert init[i] == log[i];
      }
    }
  }

  /** The text stored in the `reason` column. */
  function ReasonText(r: Reason): string {
    ReasonHead + IntToDecimal(r.maxTime) + ReasonMiddle + IntToDecimal(r.minutes) + ReasonTail
  }

  const ReasonHead: string := "Exceeded time limit of "
  const ReasonMiddle: string := " minutes. Current duration: "
  const ReasonTail: string := " minutes."

  /** The violation row logged for one listed tuple at `stamp`; `//` is floor division. */
  function RowOf(l: Listed, stamp: Stamp): Violation {
    Violation(l.exe, stamp, Exceeded(l.maxTime, l.duration / 60))
  }

  /** The rows appended for the listed tuples, in the same order. */
  function RowsFor(listed: seq<Listed>, stamp: Stamp): (rows: seq<Violation>)
    ensures |rows| == |listed|
  {
    if listed == [] then []
    else RowsFor(listed[..|listed| - 1], stamp) + [RowOf(listed[|listed| - 1], stamp)]
  }

  /** Row `i` records tuple `i`: its name, the call's timestamp and its limit and duration in minutes. */
  lemma {:induction false} RowsForAt(listed: seq<Listed>, stamp: Stamp, i: nat)
    requires i < |listed|
    ensures RowsFor(listed, stamp)[i] == RowOf(listed[i], stamp)
  {
    var init := listed[..|listed| - 1];
    if i < |init| {
      RowsForAt(init, stamp, i);
    }
  }

  function ListedCount(listed: seq<Listed>, exe: string): nat {
    if listed == [] then 0
    else ListedCount(listed[..|listed| - 1], exe) + (if listed[|listed| - 1].exe == exe then 1 else 0)
  }

  /** Each listed tuple adds exactly one row for its name. */
  lemma {:induction false} RowsCount(listed: seq<Listed>, stamp: Stamp, exe: string)
    ensures CountFor(RowsFor(listed, stamp), exe) == ListedCount(listed, exe)
  {
    if listed != [] {
      var init := listed[..|listed| - 1];
      RowsCount(init, stamp, exe);
      var rows := RowsFor(listed, stamp);
      assert rows[..|rows| - 1] == RowsFor(init, stamp);
    }
  }

  /** A name listed at most once is counted once in the log after the check, or not at all. */
  lemma ViolationCountRises(log: seq<Violation>, listed: seq<Listed>, stamp: Stamp, exe: string)
    ensures CountFor(log + RowsFor(listed, stamp), exe) == CountFor(log, exe) + ListedCount(listed, exe)
  {
    CountForAppend(log, RowsFor(listed, stamp), exe);
    RowsCount(listed, stamp, exe);
  }

  lemma {:induction false} ListedCountOfDistinct(listed: seq<Listed>, exe: string)
    requires forall i, j :: 0 <= i < j < |listed| ==> listed[i].exe != listed[j].exe
    ensures ListedCount(listed, exe) == (if exists i :: 0 <= i < |listed| && listed[i].exe == exe then 1 else 0)
  {
    if listed != [] {
      var init := listed[..|listed| - 1];
      ListedCountOfDistinct(init, exe);
      if exists i :: 0 <= i < |init| && init[i].exe == exe {
        var i :| 0 <= i < |init| && init[i].exe == exe;
        assert listed[i] == init[i];
      }
      if exists i :: 0 <= i < |listed| && listed[i].exe == exe {
        var i :| 0 <= i < |listed| && listed[i].exe == exe;
        if i < |init| {
          assert init[i] == listed[i];
        }
      }
    }
  }

  class DB {
    var isGame: map<string, Classification>
    var timings: map<(string, Date), int>
    var dailyUsage: map<Date, int>
    var timingSettings: map<string, TimingSetting>
    var violations: seq<Violation>
    var settings: map<string, string>
    var populated: map<Date, bool>

    /** The domain invariant: settings exist only for games. */
    predicate Valid()
      reads this
    {
      SettingsOnlyForGames(isGame, timingSettings)
    }

    /** `_ensure_db` on a fresh database: every table empty. */
    constructor()
      ensures isGame == map[] && timings == map[] && dailyUsage == map[] && timingSettings == map[]
      ensures violations == [] && settings == map[] && populated == map[]
      ensures Valid()
    {
      isGame, timings, dailyUsage, timingSettings := map[], map[], map[], map[];
      violations, settings, populated := [], map[], map[];
    }

    /**
     * `upsert_is_game`: records the classification; a game gets the
     * default limit unless it already has one, a non-game loses its limit.
     */
    method UpsertIsGame(exe: string, game: bool, userMarked: bool)
      modifies this
      ensures isGame == old(isGame)[exe := Classification(game, userMarked)]
      ensures timingSettings == Upserted(old(timingSettings), exe, game)
      ensures timings == old(timings) && dailyUsage == old(dailyUsage) && violations == old(violations)
      ensures settings == old(settings) && populated == old(populated)
      ensures old(Valid()) ==> Valid()
    {
      isGame := isGame[exe := Classification(game, userMarked)];
      if game {
        if exe !in timingSettings {
          timingSettings := timingSettings[exe := TimingSetting(DefaultTimeLimit, DefaultNotifyLimit)];
        }
      } else {
        timingSettings := timingSettings - {exe};
      }
    }

    /** `get_game_names`: the names classified as games, in unspecified order. */
    method GetGameNames() returns (names: seq<string>)
      ensures forall n :: n in names <==> IsGameIn(isGame, n)
      ensures forall i, j :: 0 <= i < j < |names| ==> names[i] != names[j]
    {
      names := [];
      var remaining := isGame.Keys;
      while remaining != {}
        invariant remaining <= isGame.Keys
        invariant forall n :: n in names <==> n in isGame.Keys - remaining && IsGameIn(isGame, n)
        invariant forall i :: 0 <= i < |names| ==> names[i] !in remaining
        invariant forall i, j :: 0 <= i < j < |names| ==> names[i] != names[j]
        decreases remaining
      {
        var n :| n in remaining;
        if isGame[n].isGame {
          names := names + [n];
        }
        remaining := remaining - {n};
      }
    }

    /** `get_all_classified_processes`: every classified name, in unspecified order. */
    method GetAllClassifiedProcesses() returns (names: seq<string>)
      ensures forall n :: n in names <==> n in isGame
      ensures forall i, j :: 0 <= i < j < |names| ==> names[i] != names[j]
    {
      names := [];
      var remaining := isGame.Keys;
      while remaining != {}
        invariant remaining <= isGame.Keys
        invariant forall n :: n in names <==> n in isGame.Keys - remaining
        invariant forall i :: 0 <= i < |names| ==> names[i] !in remaining
        invariant forall i, j :: 0 <= i < j < |names| ==> names[i] != names[j]
        decreases remaining
      {
        var n :| n in remaining;
        names := names + [n];
        remaining := remaining - {n};
      }
    }

    /** `get_is_game`: false for a name with no record. */
    method GetIsGame(exe: string) returns (b: bool)
      ensures b <==> IsGameIn(isGame, exe)
    {
      b := exe in isGame && isGame[exe].isGame;
    }

    /** `get_is_present`. */
    method GetIsPresent(exe: string) returns (b: bool)
      ensures b <==> exe in isGame
    {
      b := exe in isGame;
    }

    /** `update_timing_by_duration`: adds to today's row and to today's total, absent rows counting as 0. */
    method UpdateTimingByDuration(exe: string, today: Date, duration: int)
      modifies this
      ensures timings == old(timings)[(exe, today) := TimingOrZero(old(timings), exe, today) + duration]
      ensures dailyUsage == old(dailyUsage)[today := (if today in old(dailyUsage) then old(dailyUsage)[today] else 0) + duration]
      ensures isGame == old(isGame) && timingSettings == old(timingSettings) && violations == old(violations)
      ensures settings == old(settings) && populated == old(populated)
    {
      timings := timings[(exe, today) := TimingOrZero(timings, exe, today) + duration];
      var total := if today in dailyUsage then dailyUsage[today] else 0;
      dailyUsage := dailyUsage[today := total + duration];
    }

    /** `update_timing_to_a_specific_value`: overwrites today's row and the whole day's total. */
    method UpdateTimingToSpecificValue(exe: string, today: Date, value: int)
      modifies this
      ensures timings == old(timings)[(exe, today) := value]
      ensures dailyUsage == old(dailyUsage)[today := value]
      ensures isGame == old(isGame) && timingSettings == old(timingSettings) && violations == old(violations)
      ensures settings == old(settings) && populated == old(populated)
    {
      timings := timings[(exe, today) := value];
      dailyUsage := dailyUsage[today := value];
    }

    /** `get_timing_for_exe`: 0 when today has no row for the name. */
    method GetTimingForExe(exe: string, today: Date) returns (d: int)
      ensures (exe, today) in timings ==> d == timings[(exe, today)]
      ensures (exe, today) !in timings ==> d == 0
    {
      d := TimingOrZero(timings, exe, today);
    }

    /** `get_timing_today` as the dictionary its caller builds: name to today's duration. */
    method GetTimingToday(today: Date) returns (rows: map<string, int>)
      ensures forall n :: n in rows <==> (n, today) in timings
      ensures forall n :: n in rows ==> rows[n] == timings[(n, today)]
    {
      rows := map[];
      var remaining := timings.Keys;
      while remaining != {}
        invariant remaining <= timings.Keys
        invariant forall n :: n in rows <==> (n, today) in timings.Keys - remaining
        invariant forall n :: n in rows ==> rows[n] == timings[(n, today)]
        decreases remaining
      {
        var k :| k in remaining;
        if k.1 == today {
          rows := rows[k.0 := timings[k]];
        }
        remaining := remaining - {k};
      }
    }

    /** `get_total_time_today`: the sum of today's durations, `None` when today has no row. */
    method GetTotalTimeToday(today: Date) returns (total: Option<int>)
      ensures total == TotalOn(timings, today)
    {
      var sum := 0;
      var any := false;
      ghost var done: set<(string, Date)> := {};
      var remaining := timings.Keys;
      while remaining != {}
        invariant remaining <= timings.Keys
        invariant done == KeysOn(timings, today) - remaining
        invariant sum == SumOver(timings, done)
        invariant any <==> done != {}
        decreases remaining
      {
        var k :| k in remaining;
        if k.1 == today {
          SumOverRemove(timings, done + {k}, k);
          assert done + {k} - {k} == done;
          sum := sum + timings[k];
          done := done + {k};
          any := true;
        }
        remaining := remaining - {k};
      }
      assert done == KeysOn(timings, today);
      total := if any then Some(sum) else None;
    }

    /** `get_settings`. */
    method GetSettings(key: string, default: Option<string>) returns (value: Option<string>)
      ensures key in settings ==> value == Some(settings[key])
      ensures key !in settings ==> value == default
    {
      value := if key in settings then Some(settings[key]) else default;
    }

    /** `set_settings`. */
    method SetSettings(key: string, value: string)
      modifies this
      ensures settings == old(settings)[key := value]
      ensures isGame == old(isGame) && timings == old(timings) && dailyUsage == old(dailyUsage)
      ensures timingSettings == old(timingSettings) && violations == old(violations) && populated == old(populated)
    {
      settings := settings[key := value];
    }

    /** `update_global_timing_settings`: the limit is stored as text in the `settings` table. */
    method UpdateGlobalTimingSettings(limit: int)
      modifies this
      ensures settings == old(settings)[GlobalTimingLimitKey := IntToDecimal(limit)]
      ensures isGame == old(isGame) && timings == old(timings) && dailyUsage == old(dailyUsage)
      ensures timingSettings == old(timingSettings) && violations == old(violations) && populated == old(populated)
    {
      settings := settings[GlobalTimingLimitKey := IntToDecimal(limit)];
    }

    /** `get_global_timing_limit`: 60 when unset, a `ValueError` when the stored text is not an integer. */
    method GetGlobalTimingLimit() returns (r: Result<int, LedgerError>)
      ensures r == GlobalLimitOf(settings)
      ensures GlobalTimingLimitKey !in settings ==> r == Success(DefaultGlobalTimingLimit)
    {
      if GlobalTimingLimitKey in settings {
        var text := settings[GlobalTimingLimitKey];
        var v := ParseInt(text);
        if v.Some? {
          r := Success(v.value);
        } else {
          r := Failure(NotAnInteger(text));
        }
      } else {
        r := Success(DefaultGlobalTimingLimit);
      }
    }

    /**
     * `update_timing_settings`: a `ValueError` unless the name is
     * classified as a game; otherwise its limit is replaced.
     */
    method UpdateTimingSettings(exe: string, maxTime: int, notifyLimit: int) returns (error: Option<LedgerError>)
      modifies this
      ensures !IsGameIn(old(isGame), exe) ==> error == Some(NotClassifiedAsGame(exe)) && timingSettings == old(timingSettings)
      ensures IsGameIn(old(isGame), exe) ==>
        error == None && timingSettings == old(timingSettings)[exe := TimingSetting(maxTime, notifyLimit)]
      ensures isGame == old(isGame) && timings == old(timings) && dailyUsage == old(dailyUsage)
      ensures violations == old(violations) && settings == old(settings) && populated == old(populated)
      ensures old(Valid()) ==> Valid()
    {
      if !(exe in isGame && isGame[exe].isGame) {
        return Some(NotClassifiedAsGame(exe));
      }
      timingSettings := timingSettings[exe := TimingSetting(maxTime, notifyLimit)];
      error := None;
    }

    /** `refresh_time_limit_list`: every game without a limit gets the default one. */
    method RefreshTimeLimitList()
      modifies this
      ensures forall n :: n in timingSettings <==> n in old(timingSettings) || IsGameIn(isGame, n)
      ensures forall n :: n in old(timingSettings) ==> timingSettings[n] == old(timingSettings)[n]
      ensures forall n :: n in timingSettings && n !in old(timingSettings) ==>
        timingSettings[n] == TimingSetting(DefaultTimeLimit, DefaultNotifyLimit)
      ensures isGame == old(isGame) && timings == old(timings) && dailyUsage == old(dailyUsage)
      ensures violations == old(violations) && settings == old(settings) && populated == old(populated)
      ensures old(Valid()) ==> Valid()
    {
      var games := GetGameNames();
      for i := 0 to |games|
        invariant forall n :: n in timingSettings <==> n in old(timingSettings) || n in games[..i]
        invariant forall n :: n in old(timingSettings) ==> timingSettings[n] == old(timingSettings)[n]
        invariant forall n :: n in timingSettings && n !in old(timingSettings) ==>
          timingSettings[n] == TimingSetting(DefaultTimeLimit, DefaultNotifyLimit)
        invariant isGame == old(isGame) && timings == old(timings) && dailyUsage == old(dailyUsage)
        invariant violations == old(violations) && settings == old(settings) && populated == old(populated)
      {
        if games[i] !in timingSettings {
          timingSettings := timingSettings[games[i] := TimingSetting(DefaultTimeLimit, DefaultNotifyLimit)];
        }
      }
      assert games[..|games|] == games;
    }

    /**
     * The first loop of `get_games_with_time_violations`: one pass over the
     * timing settings, in unspecified order, against the log as it was.
     */
    method ListViolations(running: set<string>, today: Date) returns (listed: seq<Listed>)
      ensures forall l :: l in listed <==>
        l.exe in timingSettings
        && VerdictFor(l.exe, timingSettings[l.exe].maxTime, Flagged(violations, l.exe), l.exe in running,
                      TimingOrZero(timings, l.exe, today)) == Some(l)
      ensures forall i, j :: 0 <= i < j < |listed| ==> listed[i].exe != listed[j].exe
    {
      var durations := GetTimingToday(today);
      var flagged: set<string> := set i | 0 <= i < |violations| :: violations[i].exe;
      var seen: set<string> := {};
      listed := [];
      var remaining := timingSettings.Keys;
      while remaining != {}
        invariant remaining <= timingSettings.Keys
        invariant forall l :: l in listed <==>
          l.exe in timingSettings.Keys - remaining
          && VerdictFor(l.exe, timingSettings[l.exe].maxTime, Flagged(violations, l.exe), l.exe in running,
                        TimingOrZero(timings, l.exe, today)) == Some(l)
        invariant forall i :: 0 <= i < |listed| ==> listed[i].exe !in remaining
        invariant forall i, j :: 0 <= i < j < |listed| ==> listed[i].exe != listed[j].exe
        invariant seen <= timingSettings.Keys - remaining
        decreases remaining
      {
        var exe :| exe in remaining;
        var maxTime := timingSettings[exe].maxTime;
        assert exe in flagged <==> Flagged(violations, exe);
        ghost var verdict := VerdictFor(exe, maxTime, Flagged(violations, exe), exe in running,
                                        TimingOrZero(timings, exe, today));
        if exe in flagged && exe !in running {
          if exe !in seen {
            listed := listed + [Listed(exe, 0, maxTime)];
          } else {
            assert false;
          }
          seen := seen + {exe};
        } else {
          var duration := if exe in durations then durations[exe] else 0;
          if Exceeds(duration, maxTime) {
            listed := listed + [Listed(exe, duration, maxTime)];
          }
        }
        remaining := remaining - {exe};
      }
    }

    /**
     * `get_games_with_time_violations`: lists the over-limit settings and
     * appends one violation row per listed tuple.
     */
    method GetGamesWithTimeViolations(running: set<string>, today: Date, stamp: Stamp) returns (listed: seq<Listed>)
      modifies this
      ensures forall l :: l in listed <==>
        l.exe in timingSettings
        && VerdictFor(l.exe, timingSettings[l.exe].maxTime, Flagged(old(violations), l.exe), l.exe in running,
                      TimingOrZero(timings, l.exe, today)) == Some(l)
      ensures forall i, j :: 0 <= i < j < |listed| ==> listed[i].exe != listed[j].exe
      ensures violations == old(violations) + RowsFor(listed, stamp)
      ensures isGame == old(isGame) && timings == old(timings) && dailyUsage == old(dailyUsage)
      ensures timingSettings == old(timingSettings) && settings == old(settings) && populated == old(populated)
    {
      listed := ListViolations(running, today);
      AddViolations(listed, stamp);
    }

    /** The second loop of `get_games_with_time_violations`: one violation row per listed tuple, in order. */
    method AddViolations(listed: seq<Listed>, stamp: Stamp)
      modifies this
      ensures violations == old(violations) + RowsFor(listed, stamp)
      ensures isGame == old(isGame) && timings == old(timings) && dailyUsage == old(dailyUsage)
      ensures timingSettings == old(timingSettings) && settings == old(settings) && populated == old(populated)
    {
      for i := 0 to |listed|
        invariant violations == old(violations) + RowsFor(listed[..i], stamp)
        invariant isGame == old(isGame) && timings == old(timings) && dailyUsage == old(dailyUsage)
        invariant timingSettings == old(timingSettings) && settings == old(settings) && populated == old(populated)
      {
        assert listed[..i + 1][..i] == listed[..i];
        violations := violations + [RowOf(listed[i], stamp)];
      }
      assert listed[..|listed|] == listed;
    }

    /** `get_violation_count_for_exe`. */
    method GetViolationCountForExe(exe: string) returns (count: nat)
      ensures count == CountFor(violations, exe)
    {
      count := 0;
      for i := 0 to |violations|
        invariant count == CountFor(violations[..i], exe)
      {
        assert violations[..i + 1][..i] == violations[..i];
        if violations[i].exe == exe {
          count := count + 1;
        }
      }
      assert violations[..|violations|] == violations;
    }

    /** `get_is_data_populated_today`: false when today has no marker. */
    method GetIsDataPopulatedToday(today: Date) returns (b: bool)
      ensures b <==> today in populated && populated[today]
    {
      b := today in populated && populated[today];
    }

    /**
     * `populate_data_today`: a zero row for today for every game lacking
     * one, an empty violation log, and today marked populated.
     */
    method PopulateDataToday(today: Date)
      modifies this
      ensures timings == Populated(old(timings), isGame, today)
      ensures violations == []
      ensures populated == old(populated)[today := true]
      ensures isGame == old(isGame) && dailyUsage == old(dailyUsage) && timingSettings == old(timingSettings)
      ensures settings == old(settings)
    {
      var games := GetGameNames();
      for i := 0 to |games|
        invariant forall k :: k in timings <==> k in old(timings) || (k.1 == today && k.0 in games[..i])
        invariant forall k :: k in old(timings) ==> timings[k] == old(timings)[k]
        invariant forall k :: k in timings && k !in old(timings) ==> timings[k] == 0
        invariant isGame == old(isGame) && dailyUsage == old(dailyUsage) && timingSettings == old(timingSettings)
        invariant settings == old(settings) && populated == old(populated)
      {
        if (games[i], today) !in timings {
          timings := timings[(games[i], today) := 0];
        }
      }
      assert games[..|games|] == games;
      assert timings == Populated(old(timings), isGame, today);
      violations := [];
      populated := populated[today := true];
    }
  }
}
