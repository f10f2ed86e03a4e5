/**
 * The runtime heuristic classifier (activity/classifier/heuristic_classify.py).
 * Everything the classifier asks the operating system — the CPU sample, the
 * resident memory, the executable path, the GPU performance counters, the
 * top-level windows and the monitors — is an input value here.
 */
module Heuristic {
  import opened Wrappers
  import opened Text
  import opened Numerals

  /** Process names short-circuited to "non-game" with score 0. */
  const ExcludedProcesses: set<string> := {"chrome.exe", "teams.exe", "explorer.exe", "discord.exe", "steam.exe"}

  /** A score at or above this labels the process a game. */
  const ScoreThreshold: real := 3.0

  /** The number of logical CPUs the usage figure is divided by. */
  type CpuCount = n: nat | n >= 1 witness 1

  /** A top-level window: its owner, visibility, title and rectangle. */
  datatype Window = Window(ownerPid: int, visible: bool, title: string, left: int, top: int, right: int, bottom: int)

  datatype Monitor = Monitor(width: int, height: int)

  /** One GPU engine counter: its instance name and utilization percentage. */
  datatype GpuCounter = GpuCounter(name: string, utilization: real)

  /** What the scorer reads about one process. */
  datatype Probe = Probe(pid: int, cpuPercent: real, cpuCount: CpuCount, rssBytes: nat, exe: string)

  /** A process that disappeared or refused access while being scored is `Gone`. */
  datatype Sample = Live(probe: Probe) | Gone

  /** The measured signals the points are awarded for. */
  datatype Reading = Reading(cpu: real, gpu: real, memMb: real, exe: string, fullscreen: bool)

  // ---- the points ----

  function CpuPoints(cpu: real): real {
    if cpu > 15.0 then 1.5 else if cpu > 5.0 then 0.5 else 0.0
  }

  function GpuPoints(gpu: real): real {
    if gpu > 50.0 then 1.5 else 0.0
  }

  function MemPoints(mb: real): real {
    if mb > 700.0 then 1.5 else if mb > 300.0 then 0.5 else 0.0
  }

  predicate HasGamePath(exe: string) {
    Contains(exe, "games") || Contains(exe, "steamapps") || Contains(exe, "epic")
  }

  function PathPoints(exe: string): real {
    if HasGamePath(exe) then 1.0 else 0.0
  }

  function FullscreenPoints(fullscreen: bool): real {
    if fullscreen then 1.0 else 0.0
  }

  /** The heuristic score: one weighted term per signal. */
  function Points(r: Reading): (score: real)
    ensures 0.0 <= score <= 6.5
  {
    CpuPoints(r.cpu) + GpuPoints(r.gpu) + MemPoints(r.memMb) + PathPoints(r.exe) + FullscreenPoints(r.fullscreen)
  }

  function Label(score: real): (verdict: string)
    ensures verdict == "game" || verdict == "non-game"
  {
    if score >= ScoreThreshold then "game" else "non-game"
  }

  lemma LabelIsThreshold(score: real)
    ensures Label(score) == "game" <==> score >= ScoreThreshold
  {
  }

  /** How many of the five signals award points. */
  function SignalsFired(r: Reading): (n: nat)
    ensures n <= 5
  {
    (if r.cpu > 5.0 then 1 else 0) + (if r.gpu > 50.0 then 1 else 0) + (if r.memMb > 300.0 then 1 else 0)
    + (if HasGamePath(r.exe) then 1 else 0) + (if r.fullscreen then 1 else 0)
  }

  /** No single signal reaches the threshold: a game needs at least two of them. */
  lemma GameNeedsTwoSignals(r: Reading)
    requires Label(Points(r)) == "game"
    ensures SignalsFired(r) >= 2
  {
    LabelIsThreshold(Points(r));
  }

  /** Stronger signals never lower the score. */
  lemma PointsMonotone(r: Reading, s: Reading)
    requires r.cpu <= s.cpu && r.gpu <= s.gpu && r.memMb <= s.memMb
    requires HasGamePath(r.exe) ==> HasGamePath(s.exe)
    requires r.fullscreen ==> s.fullscreen
    ensures Points(r) <= Points(s)
  {
  }

  /** Every signal firing at its strongest: 6.5 points, a game. */
  lemma AllSignalsScore(r: Reading)
    requires r.cpu > 15.0 && r.gpu > 50.0 && r.memMb > 700.0 && HasGamePath(r.exe) && r.fullscreen
    ensures Points(r) == 6.5 && Label(Points(r)) == "game"
  {
  }

  /** Moderate CPU alone: 0.5 points, not a game. */
  lemma ModerateCpuAlone(r: Reading)
    requires 5.0 < r.cpu <= 15.0 && r.gpu <= 50.0 && r.memMb <= 300.0 && !HasGamePath(r.exe) && !r.fullscreen
    ensures Points(r) == 0.5 && Label(Points(r)) == "non-game"
  {
  }

  // ---- the GPU counters ----

  /**
   * The process id in a counter name: the text after the last `pid_`, up
   * to the next `_`, read as an integer; `None` when it is not one.
   */
  function GpuPid(name: string): Option<int> {
    var afterPid := Split(name, "pid_");
    ParseInt(Split(afterPid[|afterPid| - 1], "_")[0])
  }

  lemma {:induction false} SplitUnmatched(t: string, sep: string)
    requires |sep| > 0 && !Contains(t, sep)
    ensures Split(t, sep) == [t]
    decreases |t|
  {
    if |t| >= |sep| {
      assert !OccursAt(t, sep, 0);
      assert t[..|sep|] == t[0..0 + |sep|];
      assert !Contains(t[1..], sep) by {
        forall i | 0 <= i <= |t[1..]| - |sep| ensures !OccursAt(t[1..], sep, i) {
          assert !OccursAt(t, sep, i + 1);
          assert t[1..][i..i + |sep|] == t[i + 1..i + 1 + |sep|];
        }
      }
      SplitUnmatched(t[1..], sep);
      assert [t[0]] + t[1..] == t;
    }
  }

  lemma NoPidAfterDigits(d: string, rest: string)
    requires AllDigits(d) && !Contains(rest, "pid_")
    ensures !Contains(d + "_" + rest, "pid_")
  {
    var t := d + "_" + rest;
    forall i | 0 <= i <= |t| - 4 ensures !OccursAt(t, "pid_", i) {
      if i < |d| {
        assert t[i] == d[i] && IsDigit(d[i]);
        assert t[i..i + 4][0] == t[i];
      } else if i == |d| {
        assert t[i..i + 4][0] == '_';
      } else {
        assert t[i..i + 4] == rest[i - |d| - 1..i - |d| + 3];
        assert !OccursAt(rest, "pid_", i - |d| - 1);
      }
    }
  }

  lemma PidPiece(tail: string)
    requires !Contains(tail, "pid_")
    ensures var parts := Split("pid_" + tail, "pid_"); parts[|parts| - 1] == tail
  {
    var name := "pid_" + tail;
    assert name[..4] == "pid_" && name[4..] == tail;
    SplitUnmatched(tail, "pid_");
  }

  lemma DigitsPiece(d: string, rest: string)
    requires AllDigits(d)
    ensures Split(d + "_" + rest, "_")[0] == d
  {
    assert '_' !in d by {
      forall i | 0 <= i < |d| ensures d[i] != '_' { assert IsDigit(d[i]); }
    }
    SplitFirst(d, '_', rest);
    assert d + "_" + rest == d + ['_'] + rest;
  }

  lemma GpuPidOfPieces(name: string, tail: string, d: string)
    requires var parts := Split(name, "pid_"); parts[|parts| - 1] == tail
    requires Split(tail, "_")[0] == d
    ensures GpuPid(name) == ParseInt(d)
  {
  }

  /** A counter named `pid_<n>_<rest>` is attributed to process `n`. */
  lemma GpuPidOfName(n: nat, rest: string)
    requires !Contains(rest, "pid_")
    ensures GpuPid("pid_" + NatToDecimal(n) + "_" + rest) == Some(n)
  {
    var d := NatToDecimal(n);
    var tail := d + "_" + rest;
    assert "pid_" + NatToDecimal(n) + "_" + rest == "pid_" + tail;
    NoPidAfterDigits(d, rest);
    PidPiece(tail);
    DigitsPiece(d, rest);
    GpuPidOfPieces("pid_" + tail, tail, d);
    ParseIntToDecimal(n);
  }

  /** `usage[pid] = usage.get(pid, 0.0) + utilization` for a named process; nothing otherwise. */
  function Accrue(usage: map<int, real>, pid: Option<int>, utilization: real): map<int, real> {
    match pid
    case None => usage
    case Some(p) => usage[p := (if p in usage then usage[p] else 0.0) + utilization]
  }

  /** The usage dictionary the counter loop builds. */
  function UsageMap(counters: seq<GpuCounter>): map<int, real>
  {
    if counters == [] then map[]
    else
      var c := counters[|counters| - 1];
      Accrue(UsageMap(counters[..|counters| - 1]), GpuPid(c.name), c.utilization)
  }

  /** The reference sum: the utilization of every counter attributed to `pid`. */
  function UsageFor(counters: seq<GpuCounter>, pid: int): real {
    if counters == [] then 0.0
    else
      var c := counters[|counters| - 1];
      UsageFor(counters[..|counters| - 1], pid) + (if GpuPid(c.name) == Some(pid) then c.utilization else 0.0)
  }

  /** The pid each counter's name parses to, in counter order. */
  function ParsedPids(counters: seq<GpuCounter>): (ps: seq<Option<int>>)
    ensures |ps| == |counters|
  {
    if counters == [] then []
    else ParsedPids(counters[..|counters| - 1]) + [GpuPid(counters[|counters| - 1].name)]
  }

  lemma {:induction false} ParsedPidsAt(counters: seq<GpuCounter>, i: nat)
    requires i < |counters|
    ensures ParsedPids(counters)[i] == GpuPid(counters[i].name)
  {
    var init := counters[..|counters| - 1];
    if i < |init| {
      ParsedPidsAt(init, i);
      assert init[i] == counters[i];
    }
  }

  lemma AccrueAt(usage: map<int, real>, attributed: Option<int>, utilization: real, pid: int)
    ensures pid in Accrue(usage, attributed, utilization) <==> pid in usage || attributed == Some(pid)
    ensures pid in Accrue(usage, attributed, utilization) ==>
      Accrue(usage, attributed, utilization)[pid]
      == (if pid in usage then usage[pid] else 0.0) + (if attributed == Some(pid) then utilization else 0.0)
  {
  }

  /** A process id is a key exactly when some counter names it, and maps to those counters' total. */
  lemma {:induction false} UsageMapSums(counters: seq<GpuCounter>, pid: int)
    ensures pid in UsageMap(counters) <==> Some(pid) in ParsedPids(counters)
    ensures pid in UsageMap(counters) ==> UsageMap(counters)[pid] == UsageFor(counters, pid)
    ensures pid !in UsageMap(counters) ==> UsageFor(counters, pid) == 0.0
  {
    if counters != [] {
      var init, c := counters[..|counters| - 1], counters[|counters| - 1];
      UsageMapSums(init, pid);
      AccrueAt(UsageMap(init), GpuPid(c.name), c.utilization, pid);
    }
  }

  lemma UsageMapStep(cs: seq<GpuCounter>, i: nat)
    requires i < |cs|
    ensures UsageMap(cs[..i + 1]) == Accrue(UsageMap(cs[..i]), GpuPid(cs[i].name), cs[i].utilization)
  {
    assert cs[..i + 1][..i] == cs[..i];
  }

  /**
   * `_get_gpu_usage_percent`: `None` stands for a failing counter query,
   * which yields the empty dictionary.
   */
  method GpuUsagePercent(counters: Option<seq<GpuCounter>>) returns (usage: map<int, real>)
    ensures counters.None? ==> usage == map[]
    ensures counters.Some? ==> usage == UsageMap(counters.value)
  {
    usage := map[];
    if counters.Some? {
      var cs := counters.value;
      for i := 0 to |cs|
        invariant usage == UsageMap(cs[..i])
      {
        UsageMapStep(cs, i);
        // the `int(pid_part)` failure skips the counter
        usage := Accrue(usage, GpuPid(cs[i].name), cs[i].utilization);
      }
      assert cs[..|cs|] == cs;
    }
  }

  // ---- the fullscreen signal ----

  /** Both sides of the window within 50 pixels of the monitor's. */
  predicate Covers(w: Window, m: Monitor) {
    var width, height := w.right - w.left, w.bottom - w.top;
    -50 < width - m.width < 50 && -50 < height - m.height < 50
  }

  predicate FullscreenOn(w: Window, monitors: seq<Monitor>) {
    w.visible && exists i :: 0 <= i < |monitors| && Covers(w, monitors[i])
  }

  /** The windows the enumeration callback keeps: visible and titled. */
  function TopWindowsOf(ws: seq<Window>): (r: seq<Window>)
    ensures forall i :: 0 <= i < |r| ==> r[i] in ws && r[i].visible && r[i].title != ""
  {
    if ws == [] then []
    else TopWindowsOf(ws[..|ws| - 1]) + (if ws[|ws| - 1].visible && ws[|ws| - 1].title != "" then [ws[|ws| - 1]] else [])
  }

  lemma {:induction false} TopWindowsComplete(ws: seq<Window>, k: int)
    requires 0 <= k < |ws| && ws[k].visible && ws[k].title != ""
    ensures ws[k] in TopWindowsOf(ws)
  {
    if k < |ws| - 1 {
      TopWindowsComplete(ws[..|ws| - 1], k);
    }
  }

  /** `_get_top_windows`: the callback appends each visible, titled window. */
  method TopWindows(ws: seq<Window>) returns (windows: seq<Window>)
    ensures windows == TopWindowsOf(ws)
  {
    windows := [];
    for i := 0 to |ws|
      invariant windows == TopWindowsOf(ws[..i])
    {
      assert ws[..i + 1][..i] == ws[..i];
      if ws[i].visible && ws[i].title != "" {
        windows := windows + [ws[i]];
      }
    }
    assert ws[..|ws|] == ws;
  }

  /** `_is_fullscreen`: visible, and the size of some monitor. */
  method IsFullscreen(w: Window, monitors: seq<Monitor>) returns (b: bool)
    ensures b <==> FullscreenOn(w, monitors)
  {
    if !w.visible {
      return false;
    }
    for i := 0 to |monitors|
      invariant forall j :: 0 <= j < i ==> !Covers(w, monitors[j])
    {
      if Covers(w, monitors[i]) {
        return true;
      }
    }
    return false;
  }

  /** The process owns a visible, titled window the size of a monitor. */
  predicate OwnsFullscreen(pid: int, ws: seq<Window>, monitors: seq<Monitor>) {
    exists w :: w in TopWindowsOf(ws) && w.ownerPid == pid && FullscreenOn(w, monitors)
  }

  /** `_check_fullscreen`. */
  method CheckFullscreen(pid: int, ws: seq<Window>, monitors: seq<Monitor>) returns (b: bool)
    ensures b <==> OwnsFullscreen(pid, ws, monitors)
  {
    var windows := TopWindows(ws);
    for i := 0 to |windows|
      invariant forall j :: 0 <= j < i ==> !(windows[j].ownerPid == pid && FullscreenOn(windows[j], monitors))
    {
      var full := IsFullscreen(windows[i], monitors);
      if windows[i].ownerPid == pid && full {
        return true;
      }
    }
    return false;
  }

  // ---- the classifier ----

  /** Usage above 100% is spread over several cores: divide by the core count. */
  function NormalizedCpu(cpu: real, cores: CpuCount): (r: real)
    ensures cpu <= 100.0 ==> r == cpu
    ensures cpu > 100.0 ==> r * (cores as real) == cpu
  {
    if cpu > 100.0 then cpu / (cores as real) else cpu
  }

  /** The signals measured for a live process. */
  function Measure(p: Probe, usage: map<int, real>, ws: seq<Window>, monitors: seq<Monitor>): Reading {
    Reading(NormalizedCpu(p.cpuPercent, p.cpuCount),
            if p.pid in usage then usage[p.pid] else 0.0,
            (p.rssBytes as real) / 1048576.0,
            Lower(p.exe),
            OwnsFullscreen(p.pid, ws, monitors))
  }

  /** The score `_heuristic_process_score` returns. */
  function ScoreOf(sample: Sample, counters: Option<seq<GpuCounter>>, ws: seq<Window>, monitors: seq<Monitor>): (score: real)
    ensures 0.0 <= score <= 6.5
    ensures sample.Gone? ==> score == 0.0
  {
    match sample
    case Gone => 0.0
    case Live(p) =>
      var usage := if counters.Some? then UsageMap(counters.value) else map[];
      Points(Measure(p, usage, ws, monitors))
  }

  /** `_heuristic_process_score`: a vanished or protected process scores 0. */
  method HeuristicProcessScore(sample: Sample, counters: Option<seq<GpuCounter>>, ws: seq<Window>, monitors: seq<Monitor>)
    returns (score: real)
    ensures score == ScoreOf(sample, counters, ws, monitors)
  {
    var usage := GpuUsagePercent(counters);
    if sample.Gone? {
      return 0.0;
    }
    var p := sample.probe;
    var cpu := NormalizedCpu(p.cpuPercent, p.cpuCount);
    var gpu := if p.pid in usage then usage[p.pid] else 0.0;
    var mem := (p.rssBytes as real) / 1048576.0;
    var exe := Lower(p.exe);
    var fullscreen := CheckFullscreen(p.pid, ws, monitors);
    score := Points(Reading(cpu, gpu, mem, exe, fullscreen));
  }

  /**
   * `classify_process`: an excluded name (compared lower-cased) is a
   * non-game with score 0; otherwise the label follows the score.
   */
  method ClassifyProcess(name: string, excluded: set<string>, sample: Sample, counters: Option<seq<GpuCounter>>,
                         ws: seq<Window>, monitors: seq<Monitor>)
    returns (verdict: string, score: real)
    ensures Lower(name) in excluded ==> verdict == "non-game" && score == 0.0
    ensures Lower(name) !in excluded ==> score == ScoreOf(sample, counters, ws, monitors)
    ensures verdict == "game" <==> Lower(name) !in excluded && score >= ScoreThreshold
  {
    if Lower(name) in excluded {
      return "non-game", 0.0;
    }
    score := HeuristicProcessScore(sample, counters, ws, monitors);
    verdict := Label(score);
  }
}
