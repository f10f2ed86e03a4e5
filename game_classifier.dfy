/**
 * The games classifier (activity/classifier/game_classifier.py): name
 * normalisation, the best-match search over the similarity matcher's
 * results, the similarity label, the ledger lookup `is_game`, and the batch
 * `classify` in which the heuristic verdict decides what is stored.
 */
module GameClassifier {
  import opened Wrappers
  import opened Text
  import opened Ledger
  import H = Heuristic

  /** Substrings of a cleaned name that hint at a game. */
  const GameKeywords: seq<string> := ["game", "steam", "crack", "repack", "gog", "epic", "valve", "launcher"]

  /** A top score at or above this is a similarity match. */
  const MatchThreshold: real := 0.75

  // ---- normalisation ----

  /** `re.sub(r"[_\-\.]", " ", name.lower().replace(".exe", ""))`. */
  function CleanName(exeName: string): (r: string)
    ensures |r| == |RemoveAll(Lower(exeName), ".exe")|
    ensures forall i :: 0 <= i < |r| ==> r[i] != '_' && r[i] != '-' && r[i] != '.'
  {
    ReplaceChar(ReplaceChar(ReplaceChar(RemoveAll(Lower(exeName), ".exe"), '_', ' '), '-', ' '), '.', ' ')
  }

  lemma LowerOfLower(s: string)
    requires HasNoUpper(s)
    ensures Lower(s) == s
  {
  }

  /** Cleaning a cleaned name changes nothing. */
  lemma CleanNameIdempotent(exeName: string)
    ensures CleanName(CleanName(exeName)) == CleanName(exeName)
  {
    var c := CleanName(exeName);
    var lowered := Lower(exeName);
    LowerIsLower(exeName);
    var bare := RemoveAll(lowered, ".exe");
    assert HasNoUpper(bare) by {
      forall i | 0 <= i < |bare| ensures !('A' <= bare[i] <= 'Z') {
        var j :| 0 <= j < |lowered| && lowered[j] == bare[i];
      }
    }
    assert HasNoUpper(c);
    LowerOfLower(c);
    RemoveAllAbsent(c, ".exe");
  }

  // ---- best match ----

  /** One result of the similarity matcher: a reference title and its score. */
  datatype MatchResult = MatchResult(title: string, score: real)

  /** Result `i` scores above 0, above every earlier result and at least every later one. */
  predicate FirstBest(results: seq<MatchResult>, i: int) {
    0 <= i < |results| && results[i].score > 0.0
    && (forall j :: 0 <= j < i ==> results[j].score < results[i].score)
    && (forall j :: i < j < |results| ==> results[j].score <= results[i].score)
  }

  /** What the top-match loop leaves in `top_match` and `top_score`. */
  predicate IsTop(results: seq<MatchResult>, top: Option<string>, topScore: real) {
    if forall i :: 0 <= i < |results| ==> results[i].score <= 0.0 then top == None && topScore == 0.0
    else exists i :: 0 <= i < |results| && FirstBest(results, i) && top == Some(results[i].title) && topScore == results[i].score
  }

  /** The top-match loop: a strictly greater score replaces the current best. */
  method TopMatch(results: seq<MatchResult>) returns (top: Option<string>, topScore: real)
    ensures IsTop(results, top, topScore)
  {
    top, topScore := None, 0.0;
    ghost var best := -1;
    for k := 0 to |results|
      invariant -1 <= best < k
      invariant best == -1 ==> top == None && topScore == 0.0 && forall j :: 0 <= j < k ==> results[j].score <= 0.0
      invariant best >= 0 ==> top == Some(results[best].title) && topScore == results[best].score && topScore > 0.0
      invariant best >= 0 ==> forall j :: 0 <= j < best ==> results[j].score < topScore
      invariant best >= 0 ==> forall j :: best < j < k ==> results[j].score <= topScore
    {
      if results[k].score > topScore {
        top, topScore := Some(results[k].title), results[k].score;
        best := k;
      }
    }
    if best >= 0 {
      assert FirstBest(results, best);
    }
  }

  /** At most one result is the first best, so the loop's outcome is determined. */
  lemma TopIsUnique(results: seq<MatchResult>, t1: Option<string>, s1: real, t2: Option<string>, s2: real)
    requires IsTop(results, t1, s1) && IsTop(results, t2, s2)
    ensures t1 == t2 && s1 == s2
  {
    if !forall i :: 0 <= i < |results| ==> results[i].score <= 0.0 {
      var i :| 0 <= i < |results| && FirstBest(results, i) && t1 == Some(results[i].title) && s1 == results[i].score;
      var j :| 0 <= j < |results| && FirstBest(results, j) && t2 == Some(results[j].title) && s2 == results[j].score;
      assert results[i].score <= results[j].score && results[j].score <= results[i].score;
      assert i == j;
    }
  }

  // ---- similarity label ----

  datatype SimilarityKind = Match | KeywordHint | Unknown

  /** The tuple `(result, match, score)` of `is_similar_game`; the score is not rounded here. */
  datatype Similarity = Similarity(kind: SimilarityKind, title: Option<string>, score: real)

  predicate HasGameKeyword(clean: string) {
    exists k :: 0 <= k < |GameKeywords| && Contains(clean, GameKeywords[k])
  }

  function KindOf(topScore: real, clean: string): (kind: SimilarityKind)
    ensures kind == Match <==> topScore >= MatchThreshold
    ensures kind == KeywordHint <==> topScore < MatchThreshold && HasGameKeyword(clean)
  {
    if topScore >= MatchThreshold then Match
    else if HasGameKeyword(clean) then KeywordHint
    else Unknown
  }

  /**
   * `is_similar_game`: `results` is what the matcher returns for the
   * cleaned name. The title is reported only for a match.
   */
  method IsSimilarGame(exeName: string, results: seq<MatchResult>) returns (s: Similarity)
    ensures exists top :: IsTop(results, top, s.score) && s.title == (if s.kind == Match then top else None)
    ensures s.kind == KindOf(s.score, CleanName(exeName))
  {
    var clean := CleanName(exeName);
    var top, topScore := TopMatch(results);
    if topScore >= MatchThreshold {
      return Similarity(Match, top, topScore);
    }
    var hinted := false;
    for k := 0 to |GameKeywords|
      invariant hinted <==> exists j :: 0 <= j < k && Contains(clean, GameKeywords[j])
    {
      if Contains(clean, GameKeywords[k]) {
        hinted := true;
      }
    }
    if hinted {
      s := Similarity(KeywordHint, None, topScore);
    } else {
      s := Similarity(Unknown, None, topScore);
    }
  }

  // ---- is_game ----

  /** The argument of `is_game`: something that is not a process, or a process and its name. */
  datatype ProcessArg = NotAProcess | Process(name: string)

  datatype ClassifierError = InvalidProcess

  /** `is_game`: a `ValueError` for a non-process, false for an empty name, else the ledger flag. */
  method IsGame(db: DB, p: ProcessArg) returns (r: Result<bool, ClassifierError>)
    ensures p.NotAProcess? ==> r == Failure(InvalidProcess)
    ensures p.Process? && p.name == "" ==> r == Success(false)
    ensures p.Process? && p.name != "" ==> r == Success(IsGameIn(db.isGame, p.name))
  {
    if p.NotAProcess? {
      return Failure(InvalidProcess);
    }
    if p.name == "" {
      return Success(false);
    }
    var b := db.GetIsGame(p.name);
    r := Success(b);
  }

  // ---- classify ----

  /**
   * One executable handed to `classify`: its name (`None` when `name()`
   * raises), the matcher's results for it, and the heuristic's inputs.
   */
  datatype Candidate = Candidate(
    name: Option<string>,
    matches: seq<MatchResult>,
    sample: H.Sample,
    counters: Option<seq<H.GpuCounter>>,
    windows: seq<H.Window>,
    monitors: seq<H.Monitor>)

  /** The heuristic classifier's verdict on a candidate called `name`. */
  predicate HeuristicSaysGame(c: Candidate, name: string) {
    Lower(name) !in H.ExcludedProcesses && H.ScoreOf(c.sample, c.counters, c.windows, c.monitors) >= H.ScoreThreshold
  }

  /** How a batch ends: all done, or `sys.exit(1)` at the candidate with this index. */
  datatype Outcome = Completed | Aborted(at: nat)

  /** An empty or missing list means the full process list. */
  function BatchOf(exes: Option<seq<Candidate>>, everything: seq<Candidate>): seq<Candidate> {
    if exes.None? || |exes.value| == 0 then everything else exes.value
  }

  /** The candidates handled before the first whose name cannot be read. */
  function Processed(batch: seq<Candidate>): (ps: seq<Candidate>)
    ensures |ps| <= |batch|
    ensures forall i :: 0 <= i < |ps| ==> ps[i] == batch[i] && ps[i].name.Some?
  {
    if batch == [] || batch[0].name.None? then [] else [batch[0]] + Processed(batch[1..])
  }

  lemma {:induction false} ProcessedPrefix(batch: seq<Candidate>, i: nat)
    requires i <= |batch|
    requires forall j :: 0 <= j < i ==> batch[j].name.Some?
    requires i == |batch| || batch[i].name.None?
    ensures Processed(batch) == batch[..i]
  {
    if i > 0 {
      ProcessedPrefix(batch[1..], i - 1);
      assert batch[..i] == [batch[0]] + batch[1..][..i - 1];
    }
  }

  /** The `is_game` table after the handled candidates: a new name gets the heuristic verdict, not user-marked. */
  function Classified(isGame: map<string, Classification>, ps: seq<Candidate>): map<string, Classification>
    requires forall i :: 0 <= i < |ps| ==> ps[i].name.Some?
  {
    if ps == [] then isGame
    else
      var prior := Classified(isGame, ps[..|ps| - 1]);
      var c := ps[|ps| - 1];
      var n := c.name.value;
      if n in prior then prior else prior[n := Classification(HeuristicSaysGame(c, n), false)]
  }

  /** A name classified before the batch keeps its record: it is skipped with no write. */
  lemma {:induction false} ClassifiedKeepsPresent(isGame: map<string, Classification>, ps: seq<Candidate>, n: string)
    requires forall i :: 0 <= i < |ps| ==> ps[i].name.Some?
    requires n in isGame
    ensures n in Classified(isGame, ps) && Classified(isGame, ps)[n] == isGame[n]
  {
    if ps != [] {
      ClassifiedKeepsPresent(isGame, ps[..|ps| - 1], n);
    }
  }

  /** The names afterwards: the earlier ones and those of the handled candidates. */
  lemma {:induction false} ClassifiedNames(isGame: map<string, Classification>, ps: seq<Candidate>, n: string)
    requires forall i :: 0 <= i < |ps| ==> ps[i].name.Some?
    ensures n in Classified(isGame, ps) <==> n in isGame || exists i :: 0 <= i < |ps| && ps[i].name == Some(n)
  {
    if ps != [] {
      var init := ps[..|ps| - 1];
      ClassifiedNames(isGame, init, n);
      if exists i :: 0 <= i < |init| && init[i].name == Some(n) {
        var i :| 0 <= i < |init| && init[i].name == Some(n);
        assert ps[i] == init[i];
      }
      if exists i :: 0 <= i < |ps| && ps[i].name == Some(n) {
        var i :| 0 <= i < |ps| && ps[i].name == Some(n);
        if i < |init| {
          assert init[i] == ps[i];
        }
      }
    }
  }

  /**
   * A new name is stored with the heuristic verdict on its first candidate,
   * whatever the similarity step said, and never as user-marked.
   */
  lemma {:induction false} ClassifiedFirstDecides(isGame: map<string, Classification>, ps: seq<Candidate>, k: nat)
    requires forall i :: 0 <= i < |ps| ==> ps[i].name.Some?
    requires k < |ps| && ps[k].name.value !in isGame
    requires forall j :: 0 <= j < k ==> ps[j].name != ps[k].name
    ensures ps[k].name.value in Classified(isGame, ps)
    ensures Classified(isGame, ps)[ps[k].name.value] == Classification(HeuristicSaysGame(ps[k], ps[k].name.value), false)
  {
    var init := ps[..|ps| - 1];
    var n := ps[k].name.value;
    if k < |ps| - 1 {
      assert forall j :: 0 <= j < k ==> init[j] == ps[j];
      ClassifiedFirstDecides(isGame, init, k);
    } else {
      ClassifiedNames(isGame, init, n);
      assert forall i :: 0 <= i < |init| ==> init[i] == ps[i];
    }
  }

  /** The limits table after the handled candidates: each new name's upsert, in order. */
  function SettingsAfter(isGame: map<string, Classification>, ts: map<string, TimingSetting>, ps: seq<Candidate>): map<string, TimingSetting>
    requires forall i :: 0 <= i < |ps| ==> ps[i].name.Some?
  {
    if ps == [] then ts
    else
      var init := ps[..|ps| - 1];
      var prior := SettingsAfter(isGame, ts, init);
      var c := ps[|ps| - 1];
      var n := c.name.value;
      if n in Classified(isGame, init) then prior else Upserted(prior, n, HeuristicSaysGame(c, n))
  }

  /**
   * What `classify` does to the limits: a name known before the batch keeps
   * its limit (or its lack of one); a name the batch classifies has a limit
   * exactly when it was stored as a game; any other name is untouched.
   */
  lemma {:induction false} SettingsAfterAt(isGame: map<string, Classification>, ts: map<string, TimingSetting>, ps: seq<Candidate>, n: string)
    requires forall i :: 0 <= i < |ps| ==> ps[i].name.Some?
    ensures n !in Classified(isGame, ps) || n in isGame ==>
      (n in SettingsAfter(isGame, ts, ps) <==> n in ts) && (n in ts ==> SettingsAfter(isGame, ts, ps)[n] == ts[n])
    ensures n in Classified(isGame, ps) && n !in isGame ==>
      (n in SettingsAfter(isGame, ts, ps) <==> Classified(isGame, ps)[n].isGame)
  {
    if ps != [] {
      var init := ps[..|ps| - 1];
      SettingsAfterAt(isGame, ts, init, n);
      if n in isGame {
        ClassifiedKeepsPresent(isGame, init, n);
      }
    }
  }

  /** `classify` keeps the invariant that only games have limits. */
  lemma {:induction false} SettingsAfterValid(isGame: map<string, Classification>, ts: map<string, TimingSetting>, ps: seq<Candidate>)
    requires forall i :: 0 <= i < |ps| ==> ps[i].name.Some?
    requires SettingsOnlyForGames(isGame, ts)
    ensures SettingsOnlyForGames(Classified(isGame, ps), SettingsAfter(isGame, ts, ps))
  {
    if ps != [] {
      SettingsAfterValid(isGame, ts, ps[..|ps| - 1]);
    }
  }

  /** The body of `classify` for one candidate with a readable name. */
  method ClassifyOne(db: DB, c: Candidate, name: string)
    modifies db
    ensures db.isGame == if name in old(db.isGame) then old(db.isGame)
                         else old(db.isGame)[name := Classification(HeuristicSaysGame(c, name), false)]
    ensures db.timingSettings == if name in old(db.isGame) then old(db.timingSettings)
                                 else Upserted(old(db.timingSettings), name, HeuristicSaysGame(c, name))
    ensures db.timings == old(db.timings) && db.dailyUsage == old(db.dailyUsage) && db.violations == old(db.violations)
    ensures db.settings == old(db.settings) && db.populated == old(db.populated)
  {
    var present := db.GetIsPresent(name);
    if present {
      return;
    }
    var similarity := IsSimilarGame(name, c.matches);
    var game := similarity.kind == Match;
    var verdict, score := H.ClassifyProcess(name, H.ExcludedProcesses, c.sample, c.counters, c.windows, c.monitors);
    // the heuristic verdict replaces the similarity result
    if verdict == "game" {
      game := true;
    } else {
      game := false;
    }
    assert game == HeuristicSaysGame(c, name);
    db.UpsertIsGame(name, game, false);
  }

  /**
   * `classify`: for each candidate in order, skip a name already in the
   * ledger; otherwise score it and upsert `is_game` as the heuristic says,
   * with `user_marked = 0`. An unreadable name aborts the rest of the batch.
   */
  method Classify(db: DB, exes: Option<seq<Candidate>>, everything: seq<Candidate>) returns (outcome: Outcome)
    modifies db
    ensures db.isGame == Classified(old(db.isGame), Processed(BatchOf(exes, everything)))
    ensures db.timingSettings == SettingsAfter(old(db.isGame), old(db.timingSettings), Processed(BatchOf(exes, everything)))
    ensures outcome == (if |Processed(BatchOf(exes, everything))| == |BatchOf(exes, everything)| then Completed
                        else Aborted(|Processed(BatchOf(exes, everything))|))
    ensures db.timings == old(db.timings) && db.dailyUsage == old(db.dailyUsage) && db.violations == old(db.violations)
    ensures db.settings == old(db.settings) && db.populated == old(db.populated)
  {
    var batch := BatchOf(exes, everything);
    for i := 0 to |batch|
      invariant forall j :: 0 <= j < i ==> batch[j].name.Some?
      invariant db.isGame == Classified(old(db.isGame), batch[..i])
      invariant db.timingSettings == SettingsAfter(old(db.isGame), old(db.timingSettings), batch[..i])
      invariant db.timings == old(db.timings) && db.dailyUsage == old(db.dailyUsage) && db.violations == old(db.violations)
      invariant db.settings == old(db.settings) && db.populated == old(db.populated)
    {
      assert batch[..i + 1][..i] == batch[..i];
      var c := batch[i];
      if c.name.None? {
        ProcessedPrefix(batch, i);
        return Aborted(i);
      }
      ClassifyOne(db, c, c.name.value);
    }
    ProcessedPrefix(batch, |batch|);
    assert batch[..|batch|] == batch;
    outcome := Completed;
  }
}
