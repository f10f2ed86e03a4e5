/**
 * The older tracker (tracker/main.py, class `Tracker`): one tick of its
 * accounting loop, whose rule credits a game with the larger of "the
 * accumulated value plus `SLEEP_TIME`" and "the whole time since the
 * cached process started", and one pass of its violation handler. The
 * snapshot, the clock reading `now`, the process table and the listed
 * violations are inputs; the ledger stands in for its database package.
 */
module LegacyTracker {
  import opened Wrappers
  import opened Ledger
  import T = Tracker
  import GC = GameClassifier

  /**
   * One entry of the legacy snapshot: `attrs` is `None` when `name()` or
   * `create_time()` raised, and `lookupFails` says that `is_game` raised.
   * The whole tick shares one clock reading, so an entry carries none.
   */
  datatype Proc = Proc(pid: int, attrs: Option<T.Attrs>, lookupFails: bool)

  /** The entry takes part in the tick: readable, looked up without error, and a game by the ledger. */
  predicate Counts(isGame: map<string, Classification>, p: Proc) {
    p.attrs.Some? && !p.lookupFails && p.attrs.value.name != "" && IsGameIn(isGame, p.attrs.value.name)
  }

  /** `{exe.pid for exe in exes}`. */
  function LivePids(ps: seq<Proc>): set<int> {
    set i | 0 <= i < |ps| :: ps[i].pid
  }

  /** The legacy credit: the accumulated value plus `SLEEP_TIME`, or the elapsed time when that is larger. */
  function Credited(prior: int, elapsed: int): (r: int)
    ensures r >= prior + T.SleepTime && r >= elapsed
    ensures r == prior + T.SleepTime || r == elapsed
  {
    if elapsed > prior + T.SleepTime then elapsed else prior + T.SleepTime
  }

  /**
   * One entry of the legacy pass. A game pid seen for the first time is
   * cached; when its name has no time today, today's value is set to the
   * time since the process started and the entry adds nothing to the
   * accumulator. Every other game entry is credited by `Credited`, with the
   * elapsed time measured from the cached creation time.
   */
  function Step(isGame: map<string, Classification>, today: Date, now: real, s: T.PassState, p: Proc): T.PassState {
    if !Counts(isGame, p) then s
    else
      var a := p.attrs.value;
      if p.pid !in s.cache && TimingOrZero(s.timings, a.name, today) == 0 then
        var backfill := T.Trunc(now - a.createTime);
        s.(cache := s.cache[p.pid := a], timings := s.timings[(a.name, today) := backfill],
           dailyUsage := s.dailyUsage[today := backfill])
      else
        var cache := if p.pid in s.cache then s.cache else s.cache[p.pid := a];
        var elapsed := T.Trunc(now - cache[p.pid].createTime);
        s.(cache := cache, acc := s.acc[a.name := Credited(T.AccOf(s.acc, a.name), elapsed)])
  }

  /** The legacy pass over the snapshot, entry by entry in order. */
  function RunLegacy(isGame: map<string, Classification>, today: Date, now: real, s: T.PassState, ps: seq<Proc>): T.PassState
    decreases |ps|
  {
    if ps == [] then s
    else Step(isGame, today, now, RunLegacy(isGame, today, now, s, ps[..|ps| - 1]), ps[|ps| - 1])
  }

  /** Running the pass over a snapshot is running it over a prefix and then over the rest. */
  lemma {:induction false} RunLegacySplit(isGame: map<string, Classification>, today: Date, now: real, s: T.PassState, ps: seq<Proc>, k: nat)
    requires k <= |ps|
    ensures RunLegacy(isGame, today, now, s, ps) == RunLegacy(isGame, today, now, RunLegacy(isGame, today, now, s, ps[..k]), ps[k..])
    decreases |ps|
  {
    if k < |ps| {
      var init := ps[..|ps| - 1];
      RunLegacySplit(isGame, today, now, s, init, k);
      assert init[..k] == ps[..k];
      assert ps[k..][..|ps[k..]| - 1] == init[k..];
    } else {
      assert ps[..k] == ps;
    }
  }

  /**
   * Every accumulated value is at least `SLEEP_TIME`, so each flushed
   * delta adds at least that much.
   */
  lemma {:induction false} LegacyAccFloor(isGame: map<string, Classification>, today: Date, now: real, s: T.PassState, ps: seq<Proc>)
    requires forall n :: n in s.acc ==> s.acc[n] >= T.SleepTime
    ensures forall n :: n in RunLegacy(isGame, today, now, s, ps).acc ==> RunLegacy(isGame, today, now, s, ps).acc[n] >= T.SleepTime
  {
    if ps != [] {
      LegacyAccFloor(isGame, today, now, s, ps[..|ps| - 1]);
    }
  }

  /**
   * The pass only adds: an accumulated value never shrinks, a cached entry
   * is never replaced or dropped.
   */
  lemma {:induction false} LegacyGrows(isGame: map<string, Classification>, today: Date, now: real, s: T.PassState, ps: seq<Proc>, name: string, pid: int)
    ensures T.AccOf(s.acc, name) <= T.AccOf(RunLegacy(isGame, today, now, s, ps).acc, name)
    ensures name in s.acc ==> name in RunLegacy(isGame, today, now, s, ps).acc
    ensures pid in s.cache ==>
      pid in RunLegacy(isGame, today, now, s, ps).cache && RunLegacy(isGame, today, now, s, ps).cache[pid] == s.cache[pid]
  {
    if ps != [] {
      LegacyGrows(isGame, today, now, s, ps[..|ps| - 1], name, pid);
    }
  }

  /**
   * An entry that is credited (its pid was cached, or its name already had
   * time today) leaves its name accumulated with at least what it had plus
   * `SLEEP_TIME`, and at least the time since its cached creation time, at
   * the end of the pass.
   */
  lemma LegacyCreditCovers(isGame: map<string, Classification>, today: Date, now: real, s: T.PassState, ps: seq<Proc>, k: nat)
    requires k < |ps| && Counts(isGame, ps[k])
    requires var before := RunLegacy(isGame, today, now, s, ps[..k]);
      ps[k].pid in before.cache || TimingOrZero(before.timings, ps[k].attrs.value.name, today) != 0
    ensures var before := RunLegacy(isGame, today, now, s, ps[..k]);
      var after := RunLegacy(isGame, today, now, s, ps);
      var name := ps[k].attrs.value.name;
      name in after.acc && ps[k].pid in after.cache
      && after.acc[name] >= T.AccOf(before.acc, name) + T.SleepTime
      && after.acc[name] >= T.Trunc(now - after.cache[ps[k].pid].createTime)
  {
    var name := ps[k].attrs.value.name;
    var pid := ps[k].pid;
    var before := RunLegacy(isGame, today, now, s, ps[..k]);
    assert ps[..k + 1][..k] == ps[..k];
    var mid := RunLegacy(isGame, today, now, s, ps[..k + 1]);
    assert mid == Step(isGame, today, now, before, ps[k]);
    assert mid.acc[name] >= T.AccOf(before.acc, name) + T.SleepTime;
    assert mid.acc[name] >= T.Trunc(now - mid.cache[pid].createTime);
    RunLegacySplit(isGame, today, now, s, ps, k + 1);
    LegacyGrows(isGame, today, now, mid, ps[k + 1..], name, pid);
  }

  /** The cache after the pass: the earlier pids and those of the game entries. */
  lemma {:induction false} LegacyCacheKeys(isGame: map<string, Classification>, today: Date, now: real, s: T.PassState, ps: seq<Proc>, pid: int)
    ensures pid in RunLegacy(isGame, today, now, s, ps).cache <==>
      pid in s.cache || exists i :: 0 <= i < |ps| && Counts(isGame, ps[i]) && ps[i].pid == pid
  {
    if ps != [] {
      var init := ps[..|ps| - 1];
      LegacyCacheKeys(isGame, today, now, s, init, pid);
      if exists i :: 0 <= i < |init| && Counts(isGame, init[i]) && init[i].pid == pid {
        var i :| 0 <= i < |init| && Counts(isGame, init[i]) && init[i].pid == pid;
        assert ps[i] == init[i];
      }
      if exists i :: 0 <= i < |ps| && Counts(isGame, ps[i]) && ps[i].pid == pid {
        var i :| 0 <= i < |ps| && Counts(isGame, ps[i]) && ps[i].pid == pid;
        if i < |init| {
          assert init[i] == ps[i];
        }
      }
    }
  }

  /** The listed tuples `(game, max_time, notify_limit)` as the handler reads them: the limit is compared. */
  function LegacyTargets(violations: seq<(string, int, int)>): (ts: seq<T.Target>)
    ensures |ts| == |violations|
    ensures forall i :: 0 <= i < |violations| ==> ts[i] == T.Target(violations[i].0, violations[i].1)
  {
    seq(|violations|, i requires 0 <= i < |violations| => T.Target(violations[i].0, violations[i].1))
  }

  /**
   * A game the legacy handler warns about is running, below the violation
   * limit and at or over its own maximum time: the older handler compares
   * against the limit itself.
   */
  lemma LegacyWarnMeansOverLimit(violations: seq<(string, int, int)>, procs: seq<T.ProcessRow>, timings: map<(string, Date), int>,
                                 log: seq<Violation>, today: Date, k: nat)
    requires k < |violations|
    ensures T.Warn(violations[k].0, violations[k].1) in T.Enforcement(LegacyTargets(violations), procs, timings, log, today) <==>
      T.IsRunning(procs, violations[k].0) && CountFor(log, violations[k].0) < T.ViolationCountLimit
      && TimingOrZero(timings, violations[k].0, today) >= violations[k].1
  {
    var ts := LegacyTargets(violations);
    assert ts[k] == T.Target(violations[k].0, violations[k].1);
    T.WarnIff(ts, procs, timings, log, today, violations[k].0, violations[k].1);
  }

  /** The older tracker: the ledger and the pid cache its accounting loop keeps between ticks. */
  class LegacyTracker {
    const db: DB
    var cache: map<int, T.Attrs>

    /** `__init__` with the loop's `game_process_cache = {}`. */
    constructor(ledger: DB)
      ensures db == ledger && cache == map[]
    {
      db := ledger;
      cache := map[];
    }

    /** The per-entry loop of `update_game_timings`, as `RunLegacy` specifies, with one reading `now`. */
    method LegacyPass(exes: seq<Proc>, now: real, today: Date) returns (updated: map<string, int>)
      modifies this, db
      ensures T.PassState(cache, updated, db.timings, db.dailyUsage)
        == RunLegacy(db.isGame, today, now, T.PassState(old(cache), map[], old(db.timings), old(db.dailyUsage)), exes)
      ensures db.isGame == old(db.isGame) && db.timingSettings == old(db.timingSettings) && db.violations == old(db.violations)
      ensures db.settings == old(db.settings) && db.populated == old(db.populated)
    {
      updated := map[];
      for i := 0 to |exes|
        invariant T.PassState(cache, updated, db.timings, db.dailyUsage)
          == RunLegacy(db.isGame, today, now, T.PassState(old(cache), map[], old(db.timings), old(db.dailyUsage)), exes[..i])
        invariant db.isGame == old(db.isGame) && db.timingSettings == old(db.timingSettings) && db.violations == old(db.violations)
        invariant db.settings == old(db.settings) && db.populated == old(db.populated)
      {
        assert exes[..i + 1][..i] == exes[..i];
        updated := LegacyVisit(exes[i], now, today, updated);
      }
      assert exes[..|exes|] == exes;
    }

    /** The body of the per-entry loop for one entry, as `Step` specifies. */
    method LegacyVisit(e: Proc, now: real, today: Date, acc: map<string, int>) returns (updated: map<string, int>)
      modifies this, db
      ensures T.PassState(cache, updated, db.timings, db.dailyUsage)
        == Step(db.isGame, today, now, T.PassState(old(cache), acc, old(db.timings), old(db.dailyUsage)), e)
      ensures db.isGame == old(db.isGame) && db.timingSettings == old(db.timingSettings) && db.violations == old(db.violations)
      ensures db.settings == old(db.settings) && db.populated == old(db.populated)
    {
      updated := acc;
      if e.attrs.None? {
        return;
      }
      var a := e.attrs.value;
      if e.lookupFails {
        return;
      }
      var game := GC.IsGame(db, GC.Process(a.name));
      if !game.value {
        return;
      }
      if e.pid !in cache {
        cache := cache[e.pid := a];
        var existing := db.GetTimingForExe(a.name, today);
        if existing == 0 {
          db.UpdateTimingToSpecificValue(a.name, today, T.Trunc(now - a.createTime));
          return;
        }
      }
      var updatedTime := T.AccOf(updated, a.name) + T.SleepTime;
      if e.pid in cache {
        var elapsed := T.Trunc(now - cache[e.pid].createTime);
        if elapsed > updatedTime {
          updatedTime := elapsed;
        }
      }
      updated := updated[a.name := updatedTime];
    }

    /**
     * One iteration of the legacy `update_game_timings`: the pass, one
     * additive update per accumulated name (the order the map yields them
     * is returned), and the cache pruned to the live pids.
     */
    method UpdateGameTimingsTick(exes: seq<Proc>, now: real, today: Date) returns (flushed: seq<string>)
      modifies this, db
      ensures var mid := RunLegacy(old(db.isGame), today, now, T.PassState(old(cache), map[], old(db.timings), old(db.dailyUsage)), exes);
        (forall n :: n in flushed <==> n in mid.acc)
        && db.timings == T.Flushed(mid.timings, mid.acc, flushed, today)
        && db.dailyUsage == T.FlushedDays(mid.dailyUsage, mid.acc, flushed, today)
        && cache == T.Pruned(mid.cache, LivePids(exes))
      ensures forall i, j :: 0 <= i < j < |flushed| ==> flushed[i] != flushed[j]
      ensures db.isGame == old(db.isGame) && db.timingSettings == old(db.timingSettings) && db.violations == old(db.violations)
      ensures db.settings == old(db.settings) && db.populated == old(db.populated)
    {
      var updated := LegacyPass(exes, now, today);
      flushed := T.FlushUpdates(db, updated, today);
      cache := T.Pruned(cache, LivePids(exes));
    }

    /**
     * One pass of the legacy `check_and_handle_timing_violations` over the
     * listed tuples: a running game is warned about, or killed with a
     * notice, as `Tracker.Enforcement` specifies with the limit compared.
     */
    method CheckAndHandleTimingViolations(violations: seq<(string, int, int)>, procs: seq<T.ProcessRow>, today: Date)
      returns (events: seq<T.Event>)
      ensures events == T.Enforcement(LegacyTargets(violations), procs, db.timings, db.violations, today)
    {
      events := T.HandleTargets(db, LegacyTargets(violations), procs, today);
    }
  }
}
