/**
 * The activity tracker (activity/tracker.py, class `Tracker`): one tick of
 * the accounting loop `update_game_timings`, one pass of the violation
 * handler `check_and_handle_timing_violations`, the daily bootstrap and the
 * seen-set filter of `classify_new_processes`. The process snapshot, the
 * process table and every `time.time()` reading are inputs; the threads,
 * their sleeps and the notifications' message boxes are not modelled
 * (a notification or a kill is an emitted event).
 */
module Tracker {
  import opened Wrappers
  import opened Ledger
  import GC = GameClassifier

  /** `SLEEP_TIME`: seconds between two accounting ticks. */
  const SleepTime: int := 2
  /** `VIOLATION_COUNT_LIMIT`: logged violations after which a game is killed. */
  const ViolationCountLimit: nat := 3

  /** Python's `int()` on a float: truncation toward zero. */
  function Trunc(x: real): (n: int)
    ensures 0.0 <= x ==> 0 <= n && n as real <= x < n as real + 1.0
    ensures x < 0.0 ==> n <= 0 && n as real - 1.0 < x <= n as real
  {
    if x >= 0.0 then x.Floor else -((-x).Floor)
  }

  // ---- the accounting pass (`_get_updated_games`) ----

  /** A process's name and creation time, as read from the process and as cached by pid. */
  datatype Attrs = Attrs(name: string, createTime: real)

  /**
   * One entry of the de-duplicated snapshot as the accounting pass reads
   * it: `attrs` is `None` when `name()` or `create_time()` raised,
   * `lookupFails` says that `is_game` raised, and `clock` is the
   * `time.time()` read for this entry.
   */
  datatype Entry = Entry(pid: int, attrs: Option<Attrs>, lookupFails: bool, clock: real)

  /** The entry takes part in the tick: readable, looked up without error, and a game by the ledger. */
  predicate Counts(isGame: map<string, Classification>, e: Entry) {
    e.attrs.Some? && !e.lookupFails && e.attrs.value.name != "" && IsGameIn(isGame, e.attrs.value.name)
  }

  /** The pids of the snapshot, whether readable or not. */
  function LivePids(es: seq<Entry>): set<int> {
    set i | 0 <= i < |es| :: es[i].pid
  }

  /** What a pass has built so far: the pid cache, the per-name accumulator and the two timing tables. */
  datatype PassState = PassState(
    cache: map<int, Attrs>,
    acc: map<string, int>,
    timings: map<(string, Date), int>,
    dailyUsage: map<Date, int>)

  /** `defaultdict(int)` lookup. */
  function AccOf(acc: map<string, int>, name: string): int {
    if name in acc then acc[name] else 0
  }

  /** `updated_games[name] += delta`, done only for a positive delta. */
  function Credit(s: PassState, name: string, delta: int): PassState {
    if delta > 0 then s.(acc := s.acc[name := AccOf(s.acc, name) + delta]) else s
  }

  /**
   * One entry of the pass. A game pid seen for the first time is cached;
   * when its name has no time today, today's value is set to the time since
   * the process started and the entry adds nothing to the accumulator.
   * Every other game entry credits the tick's length to its name.
   */
  function EntryStep(isGame: map<string, Classification>, today: Date, delta: int, s: PassState, e: Entry): PassState {
    if !Counts(isGame, e) then s
    else if e.pid in s.cache then Credit(s, e.attrs.value.name, delta)
    else
      var a := e.attrs.value;
      var cached := s.(cache := s.cache[e.pid := a]);
      if TimingOrZero(s.timings, a.name, today) == 0 then
        var backfill := Trunc(e.clock - a.createTime);
        cached.(timings := s.timings[(a.name, today) := backfill], dailyUsage := s.dailyUsage[today := backfill])
      else Credit(cached, a.name, delta)
  }

  /** The pass over the snapshot, entry by entry in order. */
  function RunPass(isGame: map<string, Classification>, today: Date, delta: int, s: PassState, es: seq<Entry>): PassState
    decreases |es|
  {
    if es == [] then s
    else EntryStep(isGame, today, delta, RunPass(isGame, today, delta, s, es[..|es| - 1]), es[|es| - 1])
  }

  /** A snapshot none of whose entries is a readable game changes nothing at all. */
  lemma {:induction false} RunPassInert(isGame: map<string, Classification>, today: Date, delta: int, s: PassState, es: seq<Entry>)
    requires forall i :: 0 <= i < |es| ==> !Counts(isGame, es[i])
    ensures RunPass(isGame, today, delta, s, es) == s
  {
    if es != [] {
      RunPassInert(isGame, today, delta, s, es[..|es| - 1]);
    }
  }

  /**
   * The cache after the pass: the earlier pids and those of the game
   * entries; an earlier entry is never replaced, and a new one holds the
   * name and creation time of an entry with that pid.
   */
  lemma {:induction false} PassCacheAt(isGame: map<string, Classification>, today: Date, delta: int, s: PassState, es: seq<Entry>, pid: int)
    ensures pid in RunPass(isGame, today, delta, s, es).cache <==> pid in s.cache || SeenAsGame(isGame, es, pid)
    ensures pid in s.cache ==> RunPass(isGame, today, delta, s, es).cache[pid] == s.cache[pid]
    ensures pid in RunPass(isGame, today, delta, s, es).cache && pid !in s.cache ==>
      SeenWith(isGame, es, pid, RunPass(isGame, today, delta, s, es).cache[pid])
  {
    if es != [] {
      var init := es[..|es| - 1];
      PassCacheAt(isGame, today, delta, s, init, pid);
      SeenSnoc(isGame, es, pid);
      var after := RunPass(isGame, today, delta, s, es);
      if pid in after.cache {
        SeenWithSnoc(isGame, es, pid, after.cache[pid]);
      }
    }
  }

  /** Some game entry of `es` has this pid. */
  predicate SeenAsGame(isGame: map<string, Classification>, es: seq<Entry>, pid: int) {
    exists i :: 0 <= i < |es| && Counts(isGame, es[i]) && es[i].pid == pid
  }

  /** Some game entry of `es` has this pid and these attributes. */
  predicate SeenWith(isGame: map<string, Classification>, es: seq<Entry>, pid: int, a: Attrs) {
    exists i :: 0 <= i < |es| && Counts(isGame, es[i]) && es[i].pid == pid && es[i].attrs.value == a
  }

  lemma SeenSnoc(isGame: map<string, Classification>, es: seq<Entry>, pid: int)
    requires es != []
    ensures SeenAsGame(isGame, es, pid) <==>
      SeenAsGame(isGame, es[..|es| - 1], pid) || (Counts(isGame, es[|es| - 1]) && es[|es| - 1].pid == pid)
  {
    var init := es[..|es| - 1];
    if SeenAsGame(isGame, init, pid) {
      var i :| 0 <= i < |init| && Counts(isGame, init[i]) && init[i].pid == pid;
      assert es[i] == init[i];
    }
    if SeenAsGame(isGame, es, pid) {
      var i :| 0 <= i < |es| && Counts(isGame, es[i]) && es[i].pid == pid;
      if i < |init| {
        assert init[i] == es[i];
      }
    }
  }

  lemma SeenWithSnoc(isGame: map<string, Classification>, es: seq<Entry>, pid: int, a: Attrs)
    requires es != []
    ensures SeenWith(isGame, es, pid, a) <==>
      SeenWith(isGame, es[..|es| - 1], pid, a)
      || (Counts(isGame, es[|es| - 1]) && es[|es| - 1].pid == pid && es[|es| - 1].attrs.value == a)
  {
    var init := es[..|es| - 1];
    if SeenWith(isGame, init, pid, a) {
      var i :| 0 <= i < |init| && Counts(isGame, init[i]) && init[i].pid == pid && init[i].attrs.value == a;
      assert es[i] == init[i];
    }
    if SeenWith(isGame, es, pid, a) {
      var i :| 0 <= i < |es| && Counts(isGame, es[i]) && es[i].pid == pid && es[i].attrs.value == a;
      if i < |init| {
        assert init[i] == es[i];
      }
    }
  }

  /**
   * The value cached for a pid is the name and creation time of the first
   * game entry with that pid.
   */
  lemma {:induction false} PassCacheFirst(isGame: map<string, Classification>, today: Date, delta: int, s: PassState, es: seq<Entry>, k: nat)
    requires k < |es| && Counts(isGame, es[k]) && es[k].pid !in s.cache
    requires forall j :: 0 <= j < k ==> !(Counts(isGame, es[j]) && es[j].pid == es[k].pid)
    ensures es[k].pid in RunPass(isGame, today, delta, s, es).cache
    ensures RunPass(isGame, today, delta, s, es).cache[es[k].pid] == es[k].attrs.value
  {
    var init := es[..|es| - 1];
    var pid := es[k].pid;
    if k < |es| - 1 {
      assert forall j :: 0 <= j < k ==> init[j] == es[j];
      PassCacheFirst(isGame, today, delta, s, init, k);
    } else {
      PassCacheAt(isGame, today, delta, s, init, pid);
      assert forall j :: 0 <= j < |init| ==> init[j] == es[j];
    }
  }

  /**
   * The accumulator after the pass: it only grows, never with a
   * non-positive tick length, and a new name is that of a game entry.
   */
  lemma {:induction false} PassAccAt(isGame: map<string, Classification>, today: Date, delta: int, s: PassState, es: seq<Entry>, name: string)
    ensures delta <= 0 ==> RunPass(isGame, today, delta, s, es).acc == s.acc
    ensures AccOf(s.acc, name) <= AccOf(RunPass(isGame, today, delta, s, es).acc, name)
    ensures name in RunPass(isGame, today, delta, s, es).acc && name !in s.acc ==>
      exists i :: 0 <= i < |es| && Counts(isGame, es[i]) && es[i].attrs.value.name == name
  {
    if es != [] {
      var init := es[..|es| - 1];
      PassAccAt(isGame, today, delta, s, init, name);
      if exists i :: 0 <= i < |init| && Counts(isGame, init[i]) && init[i].attrs.value.name == name {
        var i :| 0 <= i < |init| && Counts(isGame, init[i]) && init[i].attrs.value.name == name;
        assert es[i] == init[i];
      }
    }
  }

  /**
   * A game pid seen for the first time whose name has no time today is
   * backfilled with the time since the process started and credits nothing.
   */
  lemma BackfillStep(isGame: map<string, Classification>, today: Date, delta: int, s: PassState, e: Entry)
    requires Counts(isGame, e) && e.pid !in s.cache
    requires TimingOrZero(s.timings, e.attrs.value.name, today) == 0
    ensures EntryStep(isGame, today, delta, s, e).acc == s.acc
    ensures EntryStep(isGame, today, delta, s, e).timings
      == s.timings[(e.attrs.value.name, today) := Trunc(e.clock - e.attrs.value.createTime)]
    ensures EntryStep(isGame, today, delta, s, e).dailyUsage
      == s.dailyUsage[today := Trunc(e.clock - e.attrs.value.createTime)]
  {
  }

  /** Any other game entry leaves the timing tables alone and credits the tick's length, when positive. */
  lemma CreditStep(isGame: map<string, Classification>, today: Date, delta: int, s: PassState, e: Entry)
    requires Counts(isGame, e)
    requires e.pid in s.cache || TimingOrZero(s.timings, e.attrs.value.name, today) != 0
    ensures EntryStep(isGame, today, delta, s, e).timings == s.timings
    ensures EntryStep(isGame, today, delta, s, e).dailyUsage == s.dailyUsage
    ensures delta > 0 ==>
      EntryStep(isGame, today, delta, s, e).acc == s.acc[e.attrs.value.name := AccOf(s.acc, e.attrs.value.name) + delta]
    ensures delta <= 0 ==> EntryStep(isGame, today, delta, s, e).acc == s.acc
  {
  }

  /** Adding one more key to a sum adds its value. */
  lemma SumOverAdd(m: map<string, int>, keys: set<string>, k: string)
    requires keys <= m.Keys && k in m && k !in keys
    ensures SumOver(m, keys + {k}) == SumOver(m, keys) + m[k]
  {
    SumOverRemove(m, keys + {k}, k);
    assert keys + {k} - {k} == keys;
  }

  /** The day's total before a flush; an absent row counts as 0. */
  function DayTotal(dailyUsage: map<Date, int>, day: Date): int {
    if day in dailyUsage then dailyUsage[day] else 0
  }

  /** The clean-up: the cache keeps exactly the entries whose pid is in the snapshot. */
  function Pruned(cache: map<int, Attrs>, live: set<int>): (r: map<int, Attrs>)
    ensures forall pid :: pid in r <==> pid in cache && pid in live
    ensures forall pid :: pid in r ==> r[pid] == cache[pid]
  {
    map pid | pid in cache && pid in live :: cache[pid]
  }

  /** The order in which the accumulated names are flushed: each exactly once, in no particular order. */
  method KeyOrder(updated: map<string, int>) returns (order: seq<string>)
    ensures forall i, j :: 0 <= i < j < |order| ==> order[i] != order[j]
    ensures forall n :: n in order <==> n in updated
  {
    order := [];
    var remaining := updated.Keys;
    while remaining != {}
      invariant remaining <= updated.Keys
      invariant forall n :: n in order <==> n in updated.Keys - remaining
      invariant forall i, j :: 0 <= i < j < |order| ==> order[i] != order[j]
      invariant forall i :: 0 <= i < |order| ==> order[i] !in remaining
      decreases remaining
    {
      var n :| n in remaining;
      order := order + [n];
      remaining := remaining - {n};
    }
  }

  /** The timings after flushing `order`: one additive update per name, in order. */
  function Flushed(t0: map<(string, Date), int>, updated: map<string, int>, order: seq<string>, today: Date): map<(string, Date), int>
    requires forall i :: 0 <= i < |order| ==> order[i] in updated
  {
    if order == [] then t0
    else
      var prior := Flushed(t0, updated, order[..|order| - 1], today);
      var n := order[|order| - 1];
      prior[(n, today) := TimingOrZero(prior, n, today) + updated[n]]
  }

  /** The daily totals after flushing `order`: each update adds to today's total. */
  function FlushedDays(u0: map<Date, int>, updated: map<string, int>, order: seq<string>, today: Date): map<Date, int>
    requires forall i :: 0 <= i < |order| ==> order[i] in updated
  {
    if order == [] then u0
    else
      var prior := FlushedDays(u0, updated, order[..|order| - 1], today);
      prior[today := DayTotal(prior, today) + updated[order[|order| - 1]]]
  }

  /**
   * The meaning of a flush over distinct names: each flushed name's row for
   * today gained exactly its value once, other rows are untouched, and no
   * other row appeared.
   */
  lemma {:induction false} FlushedAt(t0: map<(string, Date), int>, updated: map<string, int>, order: seq<string>, today: Date, k: (string, Date))
    requires forall i :: 0 <= i < |order| ==> order[i] in updated
    requires forall i, j :: 0 <= i < j < |order| ==> order[i] != order[j]
    ensures k in Flushed(t0, updated, order, today) <==> k in t0 || (k.1 == today && k.0 in order)
    ensures k.1 == today && k.0 in order ==> Flushed(t0, updated, order, today)[k] == TimingOrZero(t0, k.0, today) + updated[k.0]
    ensures k in t0 && !(k.1 == today && k.0 in order) ==> Flushed(t0, updated, order, today)[k] == t0[k]
  {
    if order != [] {
      var init := order[..|order| - 1];
      FlushedAt(t0, updated, init, today, k);
      if k.0 == order[|order| - 1] {
        assert k.0 !in init;
      }
    }
  }

  /** The names a flush order covers. */
  function NameSet(order: seq<string>): set<string> {
    set i | 0 <= i < |order| :: order[i]
  }

  /** The accumulated values of `order`, added in order. */
  function SumSeq(updated: map<string, int>, order: seq<string>): int
    requires forall i :: 0 <= i < |order| ==> order[i] in updated
  {
    if order == [] then 0 else SumSeq(updated, order[..|order| - 1]) + updated[order[|order| - 1]]
  }

  /** Over distinct names the order of addition does not matter: it is the sum over the set. */
  lemma {:induction false} SumSeqIsSumOver(updated: map<string, int>, order: seq<string>)
    requires forall i :: 0 <= i < |order| ==> order[i] in updated
    requires forall i, j :: 0 <= i < j < |order| ==> order[i] != order[j]
    ensures NameSet(order) <= updated.Keys
    ensures SumSeq(updated, order) == SumOver(updated, NameSet(order))
  {
    if order == [] {
      assert NameSet(order) == {};
    } else {
      var init := order[..|order| - 1];
      var n := order[|order| - 1];
      SumSeqIsSumOver(updated, init);
      assert NameSet(order) == NameSet(init) + {n};
      assert n !in NameSet(init);
      SumOverAdd(updated, NameSet(init), n);
    }
  }

  /** A flush adds the sum of the flushed values to today's total, and writes it only when something is flushed. */
  lemma {:induction false} FlushedDaysTotal(u0: map<Date, int>, updated: map<string, int>, order: seq<string>, today: Date)
    requires forall i :: 0 <= i < |order| ==> order[i] in updated
    ensures order == [] ==> FlushedDays(u0, updated, order, today) == u0
    ensures order != [] ==> FlushedDays(u0, updated, order, today) == u0[today := DayTotal(u0, today) + SumSeq(updated, order)]
  {
    if order != [] {
      var init := order[..|order| - 1];
      var n := order[|order| - 1];
      FlushedDaysTotal(u0, updated, init, today);
      if init != [] {
        var before := DayTotal(u0, today) + SumSeq(updated, init);
        assert u0[today := before][today := before + updated[n]] == u0[today := before + updated[n]];
      }
    }
  }

  /** The flush: one additive ledger update per accumulated name, in the order the map yields them. */
  method FlushUpdates(db: DB, updated: map<string, int>, today: Date) returns (order: seq<string>)
    modifies db
    ensures forall i, j :: 0 <= i < j < |order| ==> order[i] != order[j]
    ensures forall n :: n in order <==> n in updated
    ensures db.timings == Flushed(old(db.timings), updated, order, today)
    ensures db.dailyUsage == FlushedDays(old(db.dailyUsage), updated, order, today)
    ensures db.isGame == old(db.isGame) && db.timingSettings == old(db.timingSettings) && db.violations == old(db.violations)
    ensures db.settings == old(db.settings) && db.populated == old(db.populated)
  {
    order := KeyOrder(updated);
    FlushInOrder(db, updated, order, today);
  }

  /** `for name, duration in updated_games.items(): update_timing_by_duration(name, duration)`, in `order`. */
  method FlushInOrder(db: DB, updated: map<string, int>, order: seq<string>, today: Date)
    requires forall i :: 0 <= i < |order| ==> order[i] in updated
    modifies db
    ensures db.timings == Flushed(old(db.timings), updated, order, today)
    ensures db.dailyUsage == FlushedDays(old(db.dailyUsage), updated, order, today)
    ensures db.isGame == old(db.isGame) && db.timingSettings == old(db.timingSettings) && db.violations == old(db.violations)
    ensures db.settings == old(db.settings) && db.populated == old(db.populated)
  {
    for i := 0 to |order|
      invariant db.timings == Flushed(old(db.timings), updated, order[..i], today)
      invariant db.dailyUsage == FlushedDays(old(db.dailyUsage), updated, order[..i], today)
      invariant db.isGame == old(db.isGame) && db.timingSettings == old(db.timingSettings) && db.violations == old(db.violations)
      invariant db.settings == old(db.settings) && db.populated == old(db.populated)
    {
      assert order[..i + 1][..i] == order[..i];
      db.UpdateTimingByDuration(order[i], today, updated[order[i]]);
    }
    assert order[..|order|] == order;
  }

  // ---- the violation handler (`check_and_handle_timing_violations`) ----

  /** What the handler does for one running listed game. */
  datatype Action = Ignore | WarnUser | KillGame

  /**
   * The handler's branch: a warning while the count is under the limit and
   * the time has reached the compared field, otherwise a kill once the
   * count has reached the limit.
   */
  function Decide(currentTime: int, field: int, count: nat): Action {
    if currentTime >= field && count < ViolationCountLimit then WarnUser
    else if count >= ViolationCountLimit then KillGame
    else Ignore
  }

  /** The three outcomes, each as a condition on the inputs. */
  lemma DecideCases(currentTime: int, field: int, count: nat)
    ensures Decide(currentTime, field, count) == KillGame <==> count >= ViolationCountLimit
    ensures Decide(currentTime, field, count) == WarnUser <==> count < ViolationCountLimit && currentTime >= field
    ensures Decide(currentTime, field, count) == Ignore <==> count < ViolationCountLimit && currentTime < field
  {
  }

  /** Once a count leads to a kill, every larger count does too, whatever the times. */
  lemma DecideEscalates(t1: int, f1: int, c1: nat, t2: int, f2: int, c2: nat)
    requires c1 <= c2 && Decide(t1, f1, c1) == KillGame
    ensures Decide(t2, f2, c2) == KillGame
  {
  }

  /**
   * A name listed in a violation check whose log already held two rows for
   * it is counted at the limit right after that check: its third listing
   * leads to a kill.
   */
  lemma ThirdListingKills(log: seq<Violation>, listed: seq<Listed>, stamp: Stamp, k: nat, currentTime: int, field: int)
    requires forall i, j :: 0 <= i < j < |listed| ==> listed[i].exe != listed[j].exe
    requires k < |listed| && CountFor(log, listed[k].exe) >= ViolationCountLimit - 1
    ensures CountFor(log + RowsFor(listed, stamp), listed[k].exe) == CountFor(log, listed[k].exe) + 1
    ensures Decide(currentTime, field, CountFor(log + RowsFor(listed, stamp), listed[k].exe)) == KillGame
  {
    ViolationCountRises(log, listed, stamp, listed[k].exe);
    ListedCountOfDistinct(listed, listed[k].exe);
  }

  /**
   * The handler compares today's time with the listed tuple's second field,
   * which is the ledger's duration, not the limit: with a non-negative time
   * a listed game is never ignored.
   */
  lemma ListedNeverIgnored(exe: string, maxTime: int, flagged: bool, running: bool, duration: int, count: nat)
    requires duration >= 0
    requires VerdictFor(exe, maxTime, flagged, running, duration).Some?
    ensures Decide(duration, VerdictFor(exe, maxTime, flagged, running, duration).value.duration, count) != Ignore
  {
  }

  /** A row of the process table: `psutil.process_iter(["name"])`. */
  datatype ProcessRow = ProcessRow(pid: int, name: string)

  /** What the handler emits: a warning box, a `kill()` of one process, a kill notice. */
  datatype Event = Warn(game: string, limit: int) | Kill(pid: int) | KillNotice(game: string)

  /** The names of the de-duplicated snapshot, empty names left out (`running_exe_names`). */
  function RunningNames(unique: seq<ProcessRow>): set<string> {
    set i | 0 <= i < |unique| && unique[i].name != "" :: unique[i].name
  }

  /** `game in running_games`: some row of the process table has that name. */
  predicate IsRunning(procs: seq<ProcessRow>, game: string) {
    exists i :: 0 <= i < |procs| && procs[i].name == game
  }

  /** One `kill()` per process of the table with that name, in table order. */
  function KillsOf(procs: seq<ProcessRow>, game: string): (ks: seq<Event>)
    ensures |ks| <= |procs|
    ensures forall k :: k in ks ==> k.Kill? && exists i :: 0 <= i < |procs| && procs[i] == ProcessRow(k.pid, game)
    ensures forall i :: 0 <= i < |procs| && procs[i].name == game ==> Kill(procs[i].pid) in ks
  {
    if procs == [] then []
    else
      var init := procs[..|procs| - 1];
      var last := procs[|procs| - 1];
      var ks := KillsOf(init, game);
      assert forall i :: 0 <= i < |init| ==> init[i] == procs[i];
      ks + (if last.name == game then [Kill(last.pid)] else [])
  }

  /** A listed game and the value its time is compared with. */
  datatype Target = Target(game: string, field: int)

  /** The targets as the handler destructures the ledger's tuples: the compared field is the listed duration. */
  function ActivityTargets(listed: seq<Listed>): (ts: seq<Target>)
    ensures |ts| == |listed|
    ensures forall i :: 0 <= i < |listed| ==> ts[i] == Target(listed[i].exe, listed[i].duration)
  {
    seq(|listed|, i requires 0 <= i < |listed| => Target(listed[i].exe, listed[i].duration))
  }

  /** The events for one target, with the time and the count read from the ledger as it is now. */
  function EventsFor(t: Target, procs: seq<ProcessRow>, timings: map<(string, Date), int>, log: seq<Violation>, today: Date): seq<Event> {
    if !IsRunning(procs, t.game) then []
    else
      match Decide(TimingOrZero(timings, t.game, today), t.field, CountFor(log, t.game))
      case Ignore => []
      case WarnUser => [Warn(t.game, t.field)]
      case KillGame => KillsOf(procs, t.game) + [KillNotice(t.game)]
  }

  /** The events of one handler pass, target by target in order. */
  function Enforcement(ts: seq<Target>, procs: seq<ProcessRow>, timings: map<(string, Date), int>, log: seq<Violation>, today: Date): seq<Event>
    decreases |ts|
  {
    if ts == [] then []
    else Enforcement(ts[..|ts| - 1], procs, timings, log, today) + EventsFor(ts[|ts| - 1], procs, timings, log, today)
  }

  /** The targets' names. */
  function GamesOf(ts: seq<Target>): set<string> {
    set i | 0 <= i < |ts| :: ts[i].game
  }

  lemma GamesOfSnoc(ts: seq<Target>, t: Target)
    ensures GamesOf(ts + [t]) == GamesOf(ts) + {t.game}
  {
    var ts' := ts + [t];
    forall g | g in GamesOf(ts') ensures g in GamesOf(ts) + {t.game} {
      var i :| 0 <= i < |ts'| && ts'[i].game == g;
      if i < |ts| {
        assert ts[i] == ts'[i];
      }
    }
    forall g | g in GamesOf(ts) ensures g in GamesOf(ts') {
      var i :| 0 <= i < |ts| && ts[i].game == g;
      assert ts'[i] == ts[i];
    }
    assert ts'[|ts|] == t;
  }

  /** One target's kill notice: sent exactly when the target runs and is counted at the limit. */
  lemma EventsForKillNotice(t: Target, procs: seq<ProcessRow>, timings: map<(string, Date), int>, log: seq<Violation>, today: Date, game: string)
    ensures KillNotice(game) in EventsFor(t, procs, timings, log, today) <==>
      t.game == game && IsRunning(procs, game) && CountFor(log, game) >= ViolationCountLimit
  {
    assert KillNotice(game) !in KillsOf(procs, t.game);
  }

  /** One target's warning: sent exactly when it runs, is under the limit and its time has reached its field. */
  lemma EventsForWarn(t: Target, procs: seq<ProcessRow>, timings: map<(string, Date), int>, log: seq<Violation>, today: Date, game: string, field: int)
    ensures Warn(game, field) in EventsFor(t, procs, timings, log, today) <==>
      t == Target(game, field) && IsRunning(procs, game)
      && CountFor(log, game) < ViolationCountLimit && TimingOrZero(timings, game, today) >= field
  {
    assert Warn(game, field) !in KillsOf(procs, t.game);
  }

  /** One target's kills: only processes with its name, and only at the limit. */
  lemma EventsForKill(t: Target, procs: seq<ProcessRow>, timings: map<(string, Date), int>, log: seq<Violation>, today: Date, pid: int)
    requires Kill(pid) in EventsFor(t, procs, timings, log, today)
    ensures CountFor(log, t.game) >= ViolationCountLimit
    ensures exists i :: 0 <= i < |procs| && procs[i] == ProcessRow(pid, t.game)
  {
    assert Kill(pid) in KillsOf(procs, t.game);
  }

  /** A kill notice is sent for a name exactly when it is a running target counted at the limit. */
  lemma {:induction false} KillNoticeIff(ts: seq<Target>, procs: seq<ProcessRow>, timings: map<(string, Date), int>, log: seq<Violation>, today: Date, game: string)
    ensures KillNotice(game) in Enforcement(ts, procs, timings, log, today) <==>
      game in GamesOf(ts) && IsRunning(procs, game) && CountFor(log, game) >= ViolationCountLimit
  {
    if ts != [] {
      var init := ts[..|ts| - 1];
      var t := ts[|ts| - 1];
      assert ts == init + [t];
      KillNoticeIff(init, procs, timings, log, today, game);
      GamesOfSnoc(init, t);
      EventsForKillNotice(t, procs, timings, log, today, game);
    }
  }

  /** A warning is sent for a target exactly when it runs, is under the limit and its time has reached its field. */
  lemma {:induction false} WarnIff(ts: seq<Target>, procs: seq<ProcessRow>, timings: map<(string, Date), int>, log: seq<Violation>, today: Date, game: string, field: int)
    ensures Warn(game, field) in Enforcement(ts, procs, timings, log, today) <==>
      Target(game, field) in ts && IsRunning(procs, game)
      && CountFor(log, game) < ViolationCountLimit && TimingOrZero(timings, game, today) >= field
  {
    if ts != [] {
      var init := ts[..|ts| - 1];
      var t := ts[|ts| - 1];
      assert ts == init + [t];
      WarnIff(init, procs, timings, log, today, game, field);
      EventsForWarn(t, procs, timings, log, today, game, field);
    }
  }

  /** Only a process whose name is a target counted at the limit is ever killed. */
  lemma {:induction false} KillOnlyAtLimit(ts: seq<Target>, procs: seq<ProcessRow>, timings: map<(string, Date), int>, log: seq<Violation>, today: Date, pid: int)
    requires Kill(pid) in Enforcement(ts, procs, timings, log, today)
    ensures exists i, j ::
      0 <= i < |procs| && 0 <= j < |ts| && procs[i].pid == pid && ts[j].game == procs[i].name
      && CountFor(log, procs[i].name) >= ViolationCountLimit
  {
    var init := ts[..|ts| - 1];
    var t := ts[|ts| - 1];
    if Kill(pid) in Enforcement(init, procs, timings, log, today) {
      KillOnlyAtLimit(init, procs, timings, log, today, pid);
      var i, j :| 0 <= i < |procs| && 0 <= j < |init| && procs[i].pid == pid && init[j].game == procs[i].name
        && CountFor(log, procs[i].name) >= ViolationCountLimit;
      assert ts[j] == init[j];
    } else {
      EventsForKill(t, procs, timings, log, today, pid);
      var i :| 0 <= i < |procs| && procs[i] == ProcessRow(pid, t.game);
      assert ts[|ts| - 1] == t;
    }
  }

  /**
   * The second half of `check_and_handle_timing_violations`: each running
   * target is warned about or killed, with its time and its count read from
   * the ledger as it now is.
   */
  method HandleTargets(db: DB, targets: seq<Target>, procs: seq<ProcessRow>, today: Date) returns (events: seq<Event>)
    ensures events == Enforcement(targets, procs, db.timings, db.violations, today)
  {
    events := [];
    for i := 0 to |targets|
      invariant events == Enforcement(targets[..i], procs, db.timings, db.violations, today)
    {
      assert targets[..i + 1][..i] == targets[..i];
      var game := targets[i].game;
      var field := targets[i].field;
      if IsRunning(procs, game) {
        var currentTime := db.GetTimingForExe(game, today);
        var count := db.GetViolationCountForExe(game);
        if currentTime >= field && count < ViolationCountLimit {
          events := events + [Warn(game, field)];
        } else if count >= ViolationCountLimit {
          events := events + KillsOf(procs, game) + [KillNotice(game)];
        }
      }
    }
    assert targets[..|targets|] == targets;
  }

  // ---- the seen-set filter (`classify_new_processes`) ----

  /** `new_exes`: the snapshot's candidates whose name has not been seen, in order. */
  function NewExes(exes: seq<GC.Candidate>, seen: set<string>): (r: seq<GC.Candidate>)
    ensures |r| <= |exes|
    ensures forall i :: 0 <= i < |r| ==> r[i].name.Some? && r[i].name.value !in seen
    ensures forall c :: c in r <==> c in exes && c.name.Some? && c.name.value !in seen
  {
    if exes == [] then []
    else
      var rest := NewExes(exes[1..], seen);
      assert forall c :: c in exes <==> c == exes[0] || c in exes[1..];
      if exes[0].name.Some? && exes[0].name.value !in seen then [exes[0]] + rest else rest
  }

  /** The names of a list of candidates. */
  function NamesOf(cs: seq<GC.Candidate>): set<string> {
    set i | 0 <= i < |cs| && cs[i].name.Some? :: cs[i].name.value
  }

  /**
   * Classifying a batch adds only names of the batch, so a seen set holding
   * every classified name still does once the batch's names are added.
   */
  lemma ClassifiedWithinBatch(isGame: map<string, Classification>, batch: seq<GC.Candidate>)
    ensures GC.Classified(isGame, GC.Processed(batch)).Keys <= isGame.Keys + NamesOf(batch)
  {
    var ps := GC.Processed(batch);
    forall n | n in GC.Classified(isGame, ps)
      ensures n in isGame.Keys + NamesOf(batch)
    {
      GC.ClassifiedNames(isGame, ps, n);
      if n !in isGame {
        var i :| 0 <= i < |ps| && ps[i].name == Some(n);
        assert batch[i] == ps[i];
      }
    }
  }

  /**
   * The tracker's own state: the seen set of the classifying thread, and the
   * pid cache and previous tick of the accounting thread (locals of their
   * loops in Python, kept across iterations).
   */
  class Tracker {
    const db: DB
    var seen: set<string>
    var cache: map<int, Attrs>
    var previousTick: real

    /** Every classified name has been seen, so the classifying thread never offers it again. */
    predicate Valid()
      reads this, db
    {
      db.isGame.Keys <= seen
    }

    /** `__init__`: the seen set is seeded with every classified name; `startTick` is the accounting loop's first `time.time()`. */
    constructor(ledger: DB, startTick: real)
      ensures db == ledger && seen == ledger.isGame.Keys && cache == map[] && previousTick == startTick
      ensures Valid()
    {
      var names := ledger.GetAllClassifiedProcesses();
      db := ledger;
      seen := set i | 0 <= i < |names| :: names[i];
      cache := map[];
      previousTick := startTick;
      new;
      assert forall n :: n in seen <==> n in names;
    }

    /** `_handle_first_run_today` (also the first step of `start`): populate today iff it is not marked. */
    method HandleFirstRunToday(today: Date)
      modifies db
      ensures var marked := today in old(db.populated) && old(db.populated)[today];
        && db.timings == (if marked then old(db.timings) else Populated(old(db.timings), db.isGame, today))
        && db.violations == (if marked then old(db.violations) else [])
      ensures db.populated == old(db.populated)[today := true]
      ensures db.isGame == old(db.isGame) && db.dailyUsage == old(db.dailyUsage)
      ensures db.timingSettings == old(db.timingSettings) && db.settings == old(db.settings)
    {
      var populated := db.GetIsDataPopulatedToday(today);
      if !populated {
        db.PopulateDataToday(today);
      }
    }

    /**
     * `_get_updated_games`: one pass over the snapshot, as `RunPass`
     * specifies, with the tick length `int(current_tick - previous_tick)`.
     */
    method GetUpdatedGames(exes: seq<Entry>, currentTick: real, today: Date) returns (updated: map<string, int>)
      modifies this, db
      ensures PassState(cache, updated, db.timings, db.dailyUsage)
        == RunPass(db.isGame, today, Trunc(currentTick - previousTick),
                   PassState(old(cache), map[], old(db.timings), old(db.dailyUsage)), exes)
      ensures db.isGame == old(db.isGame) && db.timingSettings == old(db.timingSettings) && db.violations == old(db.violations)
      ensures db.settings == old(db.settings) && db.populated == old(db.populated)
      ensures seen == old(seen) && previousTick == old(previousTick)
    {
      updated := map[];
      var delta := Trunc(currentTick - previousTick);
      for i := 0 to |exes|
        invariant PassState(cache, updated, db.timings, db.dailyUsage)
          == RunPass(db.isGame, today, delta, PassState(old(cache), map[], old(db.timings), old(db.dailyUsage)), exes[..i])
        invariant db.isGame == old(db.isGame) && db.timingSettings == old(db.timingSettings) && db.violations == old(db.violations)
        invariant db.settings == old(db.settings) && db.populated == old(db.populated)
        invariant seen == old(seen) && previousTick == old(previousTick)
      {
        assert exes[..i + 1][..i] == exes[..i];
        updated := Visit(exes[i], delta, today, updated);
      }
      assert exes[..|exes|] == exes;
    }

    /** The body of the per-entry loop of `_get_updated_games` for one entry, as `EntryStep` specifies. */
    method Visit(e: Entry, delta: int, today: Date, acc: map<string, int>) returns (updated: map<string, int>)
      modifies this, db
      ensures PassState(cache, updated, db.timings, db.dailyUsage)
        == EntryStep(db.isGame, today, delta, PassState(old(cache), acc, old(db.timings), old(db.dailyUsage)), e)
      ensures db.isGame == old(db.isGame) && db.timingSettings == old(db.timingSettings) && db.violations == old(db.violations)
      ensures db.settings == old(db.settings) && db.populated == old(db.populated)
      ensures seen == old(seen) && previousTick == old(previousTick)
    {
      updated := acc;
      if e.attrs.None? {
        return;
      }
      var a := e.attrs.value;
      if e.lookupFails {
        return;
      }
      var game := GC.IsGame(db, GC.Process(a.name));
      if !game.value {
        return;
      }
      if e.pid !in cache {
        cache := cache[e.pid := a];
        var existing := db.GetTimingForExe(a.name, today);
        if existing == 0 {
          db.UpdateTimingToSpecificValue(a.name, today, Trunc(e.clock - a.createTime));
          return;
        }
      }
      if delta > 0 {
        updated := updated[a.name := AccOf(updated, a.name) + delta];
      }
    }

    /**
     * One iteration of `update_game_timings`: bootstrap today, run the pass,
     * flush one additive update per accumulated name (the order the map
     * yields them is returned), prune the cache and remember the tick's end.
     */
    method UpdateGameTimingsTick(exes: seq<Entry>, currentTick: real, tickEnd: real, today: Date) returns (flushed: seq<string>)
      modifies this, db
      ensures var marked := today in old(db.populated) && old(db.populated)[today];
        var booted := if marked then old(db.timings) else Populated(old(db.timings), old(db.isGame), today);
        var mid := RunPass(old(db.isGame), today, Trunc(currentTick - old(previousTick)),
                           PassState(old(cache), map[], booted, old(db.dailyUsage)), exes);
        && (forall n :: n in flushed <==> n in mid.acc)
        && (forall i :: 0 <= i < |flushed| ==> flushed[i] in mid.acc)
        && db.timings == Flushed(mid.timings, mid.acc, flushed, today)
        && db.dailyUsage == FlushedDays(mid.dailyUsage, mid.acc, flushed, today)
        && cache == Pruned(mid.cache, LivePids(exes))
        && db.violations == (if marked then old(db.violations) else [])
      ensures forall i, j :: 0 <= i < j < |flushed| ==> flushed[i] != flushed[j]
      ensures db.populated == old(db.populated)[today := true]
      ensures previousTick == tickEnd && seen == old(seen)
      ensures db.isGame == old(db.isGame) && db.timingSettings == old(db.timingSettings) && db.settings == old(db.settings)
      ensures forall pid :: pid in cache <==>
        pid in LivePids(exes) && (pid in old(cache) || exists i :: 0 <= i < |exes| && Counts(db.isGame, exes[i]) && exes[i].pid == pid)
      ensures forall pid :: pid in cache && pid in old(cache) ==> cache[pid] == old(cache)[pid]
      ensures old(Valid()) ==> Valid()
    {
      HandleFirstRunToday(today);
      ghost var cache0 := cache;
      ghost var s0 := PassState(cache, map[], db.timings, db.dailyUsage);
      ghost var delta := Trunc(currentTick - previousTick);
      var updated := GetUpdatedGames(exes, currentTick, today);
      ghost var cache1 := cache;
      forall pid
        ensures pid in cache1 <==> pid in cache0 || exists i :: 0 <= i < |exes| && Counts(db.isGame, exes[i]) && exes[i].pid == pid
        ensures pid in cache0 ==> cache1[pid] == cache0[pid]
      {
        PassCacheAt(db.isGame, today, delta, s0, exes, pid);
      }
      flushed := FlushUpdates(db, updated, today);
      cache := Pruned(cache, LivePids(exes));
      previousTick := tickEnd;
    }

    /**
     * One pass of `check_and_handle_timing_violations`: the ledger lists
     * (and logs) the violations with the snapshot's names as the running
     * set; then the listed games are handled against the appended log.
     */
    method CheckAndHandleTimingViolations(unique: seq<ProcessRow>, procs: seq<ProcessRow>, today: Date, stamp: Stamp)
      returns (listed: seq<Listed>, events: seq<Event>)
      modifies db
      ensures forall l :: l in listed <==>
        l.exe in db.timingSettings
        && VerdictFor(l.exe, db.timingSettings[l.exe].maxTime, Flagged(old(db.violations), l.exe),
                      l.exe in RunningNames(unique), TimingOrZero(db.timings, l.exe, today)) == Some(l)
      ensures forall i, j :: 0 <= i < j < |listed| ==> listed[i].exe != listed[j].exe
      ensures db.violations == old(db.violations) + RowsFor(listed, stamp)
      ensures events == Enforcement(ActivityTargets(listed), procs, db.timings, db.violations, today)
      ensures db.isGame == old(db.isGame) && db.timings == old(db.timings) && db.dailyUsage == old(db.dailyUsage)
      ensures db.timingSettings == old(db.timingSettings) && db.settings == old(db.settings) && db.populated == old(db.populated)
    {
      listed := db.GetGamesWithTimeViolations(RunningNames(unique), today, stamp);
      events := HandleTargets(db, ActivityTargets(listed), procs, today);
    }

    /**
     * One pass of `classify_new_processes`: the candidates with unseen
     * names go to the classifier and are then all added to the seen set.
     * A name that cannot be read raises before anything is classified.
     */
    method ClassifyNewProcesses(exes: seq<GC.Candidate>) returns (classified: seq<GC.Candidate>)
      modifies this, db
      ensures (exists i :: 0 <= i < |exes| && exes[i].name.None?) ==> classified == []
      ensures (forall i :: 0 <= i < |exes| ==> exes[i].name.Some?) ==> classified == NewExes(exes, old(seen))
      ensures seen == old(seen) + NamesOf(classified)
      ensures db.isGame == GC.Classified(old(db.isGame), GC.Processed(classified))
      ensures db.timingSettings == GC.SettingsAfter(old(db.isGame), old(db.timingSettings), GC.Processed(classified))
      ensures db.timings == old(db.timings) && db.dailyUsage == old(db.dailyUsage) && db.violations == old(db.violations)
      ensures db.settings == old(db.settings) && db.populated == old(db.populated)
      ensures cache == old(cache) && previousTick == old(previousTick)
      ensures old(Valid()) ==> Valid()
    {
      if exists i :: 0 <= i < |exes| && exes[i].name.None? {
        classified := [];
        assert GC.Processed(classified) == [];
        return;
      }
      classified := ClassifyUnseen(exes);
    }

    /** The part of `classify_new_processes` after every name has been read. */
    method ClassifyUnseen(exes: seq<GC.Candidate>) returns (classified: seq<GC.Candidate>)
      modifies this, db
      ensures classified == NewExes(exes, old(seen))
      ensures seen == old(seen) + NamesOf(classified)
      ensures db.isGame == GC.Classified(old(db.isGame), GC.Processed(classified))
      ensures db.timingSettings == GC.SettingsAfter(old(db.isGame), old(db.timingSettings), GC.Processed(classified))
      ensures db.timings == old(db.timings) && db.dailyUsage == old(db.dailyUsage) && db.violations == old(db.violations)
      ensures db.settings == old(db.settings) && db.populated == old(db.populated)
      ensures cache == old(cache) && previousTick == old(previousTick)
      ensures old(Valid()) ==> Valid()
    {
      classified := NewExes(exes, seen);
      if classified != [] {
        assert GC.BatchOf(Some(classified), exes) == classified;
        var _ := GC.Classify(db, Some(classified), exes);
        seen := seen + NamesOf(classified);
      } else {
        assert GC.Processed(classified) == [];
      }
      ClassifiedWithinBatch(old(db.isGame), classified);
    }
  }
}
