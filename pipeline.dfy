/**
  `main` (script.py:112-135): for every problem number in turn, look the
  problem up, fetch its C++ snippet, ask for a completion, save it, and, after
  a save of a problem other than the last, pause. What the three services answer is an input of the
  model; what the loop does is recorded as a log of saves and pauses.
 */
module Pipeline {
  import opened Wrappers
  import opened PyStr
  import opened Catalog
  import opened Snippets
  import opened Completion
  import opened Persistence

  /** `PROBLEM_NUMBERS` */
  const ProblemNumbers: seq<int> :=
    [118, 136, 191, 773, 509, 2109, 3396, 2290, 2924, 268, 1550, 3342, 1455, 2554,
     215, 2900, 258, 852, 1760, 75, 24, 21, 2097, 1975, 2257, 169, 2825, 100]

  /** The prefix `main` rejects a completion by. */
  const ErrorPrefix := "// OpenAI API error"

  /**
    What the outside world answers while one problem is processed: the catalog
    listing, the `question` object of the GraphQL reply, and what the completion
    call did.
   */
  datatype Upstream = Upstream(catalog: seq<CatalogEntry>, question: Option<Question>, reply: Reply)

  /** One iteration's problem number and the answers it gets. */
  datatype Request = Request(number: int, upstream: Upstream)

  /** The arguments of one `save_solution` call. */
  datatype SaveCall = SaveCall(number: int, title: string, code: string, difficulty: string)

  /** What the loop does that outlives it: a save, or a ten-second pause. */
  datatype Event = Saved(call: SaveCall) | Paused

  /** What every save passes: a known difficulty and a completion that is neither blank nor the error text. */
  predicate ValidCall(c: SaveCall) {
    IsDifficultyName(c.difficulty) && Strip(c.code) != [] && !StartsWith(c.code, ErrorPrefix)
  }

  /** The three guards of one iteration: the save it ends in, or `None` for a `continue`. */
  function ProcessItem(n: int, u: Upstream): (r: Option<SaveCall>)
    ensures Lookup(u.catalog, n).None? ==> r.None?
    ensures SelectSnippet(u.question).Skipped? ==> r.None?
    ensures u.reply.Raised? ==> r.None?
    ensures r.Some? ==> ValidCall(r.value) && r.value.number == n
                        && r.value.code == GenerateSolution(u.reply)
                        && Lookup(u.catalog, n).Some?
                        && r.value.title == Lookup(u.catalog, n).value.title
                        && r.value.difficulty == Lookup(u.catalog, n).value.difficulty
                        && SelectSnippet(u.question).Selected?
                        && SelectSnippet(u.question).content != []
  {
    match Lookup(u.catalog, n)
    case None => None
    case Some(meta) =>
      if meta.slug == [] then None
      else
        match SelectSnippet(u.question)
        case Skipped(_) => None
        case Selected(snippet, content) =>
          if snippet == [] || content == [] then None
          else
            var solution := GenerateSolution(u.reply);
            if Strip(solution) == [] || StartsWith(solution, ErrorPrefix) then None
            else Some(SaveCall(n, meta.title, solution, meta.difficulty))
  }

  /** The first guard: a problem not found, or found with an empty slug, is skipped. */
  lemma SkipsUnknownProblem(n: int, u: Upstream)
    requires Lookup(u.catalog, n).None? || Lookup(u.catalog, n).value.slug == []
    ensures ProcessItem(n, u).None?
  {
  }

  /** The second guard: no usable snippet, or no content, means a skip, whatever the catalog said. */
  lemma SkipsMissingSnippet(n: int, u: Upstream)
    requires SelectSnippet(u.question).Skipped? || SelectSnippet(u.question).code == [] || SelectSnippet(u.question).content == []
    ensures ProcessItem(n, u).None?
  {
  }

  /** The third guard: a blank completion or one starting with the error text means a skip. */
  lemma SkipsBadCompletion(n: int, u: Upstream)
    requires Strip(GenerateSolution(u.reply)) == [] || StartsWith(GenerateSolution(u.reply), ErrorPrefix)
    ensures ProcessItem(n, u).None?
  {
  }

  /** Past the three guards, the problem is saved with the catalog's title and difficulty and the completion. */
  lemma SavesWhenGuardsPass(n: int, u: Upstream)
    requires Lookup(u.catalog, n).Some? && Lookup(u.catalog, n).value.slug != []
    requires SelectSnippet(u.question).Selected? && SelectSnippet(u.question).content != []
    requires Strip(GenerateSolution(u.reply)) != [] && !StartsWith(GenerateSolution(u.reply), ErrorPrefix)
    ensures ProcessItem(n, u) == Some(SaveCall(n, Lookup(u.catalog, n).value.title, GenerateSolution(u.reply),
                                               Lookup(u.catalog, n).value.difficulty))
  {
  }

  /**
    A found problem with a slug, a C++ snippet and content, whose completion
    comes back fenced as "```cpp", is saved with the code between the fences,
    stripped, under the catalog's title and difficulty.
   */
  lemma SavesFencedReply(n: int, catalog: seq<CatalogEntry>, q: Question, inner: string)
    requires Lookup(catalog, n).Some? && Lookup(catalog, n).value.slug != []
    requires SelectSnippet(Some(q)).Selected? && SelectSnippet(Some(q)).content != []
    requires Strip(inner) != [] && !StartsWith(Strip(inner), ErrorPrefix)
    ensures ProcessItem(n, Upstream(catalog, Some(q), Returned(OpenCpp + "\n" + inner + "\n" + Fence)))
            == Some(SaveCall(n, Lookup(catalog, n).value.title, Strip(inner), Lookup(catalog, n).value.difficulty))
  {
    FencedCppReply(inner);
    StripIdempotent(inner);
  }

  /** What each iteration ends in, request by request. */
  function Outcomes(items: seq<Request>): (r: seq<Option<SaveCall>>)
    ensures |r| == |items|
    ensures forall i :: 0 <= i < |items| ==> r[i] == ProcessItem(items[i].number, items[i].upstream)
  {
    seq(|items|, i requires 0 <= i < |items| => ProcessItem(items[i].number, items[i].upstream))
  }

  /** What one iteration adds to the log: nothing, a save, or a save and then a pause unless it is the last. */
  function StepEvents(outcome: Option<SaveCall>, last: bool): seq<Event> {
    match outcome
    case None => []
    case Some(call) => [Saved(call)] + (if last then [] else [Paused])
  }

  /** The log after the first `k` of the iterations whose outcomes are `outcomes`. */
  function LogUpTo(outcomes: seq<Option<SaveCall>>, k: nat): seq<Event>
    requires k <= |outcomes|
  {
    if k == 0 then []
    else LogUpTo(outcomes, k - 1) + StepEvents(outcomes[k - 1], k == |outcomes|)
  }

  /** The log of the whole loop. */
  function RunLog(items: seq<Request>): seq<Event> {
    LogUpTo(Outcomes(items), |items|)
  }

  /**
    The loop of `main`, over any list of requests; the script runs it on
    requests whose numbers are `ProblemNumbers`.
   */
  method ProcessAll(items: seq<Request>) returns (log: seq<Event>)
    ensures log == RunLog(items)
  {
    ghost var outcomes := Outcomes(items);
    log := [];
    for i := 0 to |items|
      invariant log == LogUpTo(outcomes, i)
    {
      var n := items[i].number;
      var u := items[i].upstream;
      assert LogUpTo(outcomes, i + 1) == LogUpTo(outcomes, i) + StepEvents(ProcessItem(n, u), i == |items| - 1);
      var meta := GetSlugTitleDifficulty(u.catalog, n);
      if meta.None? || meta.value.slug == [] {
        SkipsUnknownProblem(n, u);
        continue;
      }
      var selection := SelectSnippet(u.question);
      if selection.Skipped? || selection.code == [] || selection.content == [] {
        SkipsMissingSnippet(n, u);
        continue;
      }
      var solution := GenerateSolution(u.reply);
      if Strip(solution) == [] || StartsWith(solution, ErrorPrefix) {
        SkipsBadCompletion(n, u);
        continue;
      }
      var call := SaveCall(n, meta.value.title, solution, meta.value.difficulty);
      SavesWhenGuardsPass(n, u);
      StepEventsOfSave(call, i == |items| - 1);
      log := log + [Saved(call)];
      if i < |items| - 1 {
        log := log + [Paused];
      }
    }
  }

  lemma StepEventsOfSave(call: SaveCall, last: bool)
    ensures forall log: seq<Event> :: log + StepEvents(Some(call), last)
              == if last then log + [Saved(call)] else log + [Saved(call)] + [Paused]
  {
    forall log: seq<Event> ensures log + StepEvents(Some(call), last)
              == if last then log + [Saved(call)] else log + [Saved(call)] + [Paused]
    {
      if last {
        assert StepEvents(Some(call), last) == [Saved(call)];
      } else {
        assert log + ([Saved(call)] + [Paused]) == log + [Saved(call)] + [Paused];
      }
    }
  }

  /** The saves of a log, in order. */
  function Saves(log: seq<Event>): seq<SaveCall> {
    if log == [] then []
    else Saves(log[..|log| - 1]) + (if log[|log| - 1].Saved? then [log[|log| - 1].call] else [])
  }

  /** The number of pauses in a log. */
  function Pauses(log: seq<Event>): nat {
    if log == [] then 0
    else Pauses(log[..|log| - 1]) + (if log[|log| - 1].Paused? then 1 else 0)
  }

  function OptionToSeq(o: Option<SaveCall>): seq<SaveCall> {
    match o
    case None => []
    case Some(call) => [call]
  }

  /** Reference definition: the calls of the outcomes that are saves, in order. */
  function SavedCalls(outcomes: seq<Option<SaveCall>>): (r: seq<SaveCall>)
    ensures |r| <= |outcomes|
  {
    if outcomes == [] then []
    else SavedCalls(outcomes[..|outcomes| - 1]) + OptionToSeq(outcomes[|outcomes| - 1])
  }

  lemma {:induction false} SavesConcat(a: seq<Event>, b: seq<Event>)
    ensures Saves(a + b) == Saves(a) + Saves(b)
    decreases |b|
  {
    if b == [] {
      assert a + b == a;
    } else {
      var b' := b[..|b| - 1];
      assert (a + b)[..|a + b| - 1] == a + b';
      SavesConcat(a, b');
    }
  }

  lemma {:induction false} PausesConcat(a: seq<Event>, b: seq<Event>)
    ensures Pauses(a + b) == Pauses(a) + Pauses(b)
    decreases |b|
  {
    if b == [] {
      assert a + b == a;
    } else {
      var b' := b[..|b| - 1];
      assert (a + b)[..|a + b| - 1] == a + b';
      PausesConcat(a, b');
    }
  }

  lemma StepEventsCounts(outcome: Option<SaveCall>, last: bool)
    ensures Saves(StepEvents(outcome, last)) == OptionToSeq(outcome)
    ensures Pauses(StepEvents(outcome, last)) == if last then 0 else |OptionToSeq(outcome)|
  {
    var events := StepEvents(outcome, last);
    if |events| == 2 {
      assert events[..1] == [events[0]] && events[..1][..0] == [];
      assert Saves(events[..1]) == [events[0].call];
      assert Pauses(events[..1]) == 0;
    } else if |events| == 1 {
      assert events[..0] == [];
    }
  }

  /** The log's saves are exactly the reference list of saves, in the order of the requests. */
  lemma {:induction false} LogSavesUpTo(outcomes: seq<Option<SaveCall>>, k: nat)
    requires k <= |outcomes|
    ensures Saves(LogUpTo(outcomes, k)) == SavedCalls(outcomes[..k])
  {
    if k > 0 {
      LogSavesUpTo(outcomes, k - 1);
      SavesConcat(LogUpTo(outcomes, k - 1), StepEvents(outcomes[k - 1], k == |outcomes|));
      StepEventsCounts(outcomes[k - 1], k == |outcomes|);
      assert outcomes[..k][..k - 1] == outcomes[..k - 1];
    }
  }

  lemma LogSaves(items: seq<Request>)
    ensures Saves(RunLog(items)) == SavedCalls(Outcomes(items))
  {
    var outcomes := Outcomes(items);
    LogSavesUpTo(outcomes, |outcomes|);
    assert outcomes[..|outcomes|] == outcomes;
  }

  lemma {:induction false} PausesUpTo(outcomes: seq<Option<SaveCall>>, k: nat)
    requires k < |outcomes|
    ensures Pauses(LogUpTo(outcomes, k)) == |Saves(LogUpTo(outcomes, k))|
  {
    if k > 0 {
      PausesUpTo(outcomes, k - 1);
      SavesConcat(LogUpTo(outcomes, k - 1), StepEvents(outcomes[k - 1], false));
      PausesConcat(LogUpTo(outcomes, k - 1), StepEvents(outcomes[k - 1], false));
      StepEventsCounts(outcomes[k - 1], false);
    }
  }

  /**
    The script sleeps once after every save except a save of the last problem:
    the pauses number the saves, less one when the last problem was saved.
   */
  lemma PauseAfterEverySaveButLast(items: seq<Request>)
    requires items != []
    ensures Pauses(RunLog(items))
            == |Saves(RunLog(items))| - |OptionToSeq(ProcessItem(items[|items| - 1].number, items[|items| - 1].upstream))|
  {
    var outcomes := Outcomes(items);
    var k := |items| - 1;
    PausesUpTo(outcomes, k);
    SavesConcat(LogUpTo(outcomes, k), StepEvents(outcomes[k], true));
    PausesConcat(LogUpTo(outcomes, k), StepEvents(outcomes[k], true));
    StepEventsCounts(outcomes[k], true);
  }

  /** Every pause comes right after a save. */
  predicate PausesFollowSaves(log: seq<Event>) {
    forall j :: 0 <= j < |log| && log[j].Paused? ==> j > 0 && log[j - 1].Saved?
  }

  lemma {:induction false} PausesFollowSavesUpTo(outcomes: seq<Option<SaveCall>>, k: nat)
    requires k <= |outcomes|
    ensures PausesFollowSaves(LogUpTo(outcomes, k))
  {
    if k > 0 {
      PausesFollowSavesUpTo(outcomes, k - 1);
      var prev, events := LogUpTo(outcomes, k - 1), StepEvents(outcomes[k - 1], k == |outcomes|);
      var log := prev + events;
      forall j | 0 <= j < |log| && log[j].Paused?
        ensures j > 0 && log[j - 1].Saved?
      {
        if j < |prev| {
          assert prev[j] == log[j];
        } else {
          assert events[j - |prev|] == log[j];
          assert j - |prev| == 1 && events[0].Saved?;
        }
      }
    }
  }

  /** Every save that is not the log's last event is followed by a pause. */
  predicate SavesFollowedByPauses(log: seq<Event>) {
    forall j :: 0 <= j < |log| - 1 && log[j].Saved? ==> log[j + 1].Paused?
  }

  /** Before the last iteration, the log is empty or ends in a pause. */
  predicate EndsPaused(log: seq<Event>) {
    log == [] || log[|log| - 1].Paused?
  }

  lemma {:induction false} SavesFollowedUpTo(outcomes: seq<Option<SaveCall>>, k: nat)
    requires k <= |outcomes|
    ensures SavesFollowedByPauses(LogUpTo(outcomes, k))
    ensures k < |outcomes| ==> EndsPaused(LogUpTo(outcomes, k))
  {
    if k > 0 {
      SavesFollowedUpTo(outcomes, k - 1);
      var prev, events := LogUpTo(outcomes, k - 1), StepEvents(outcomes[k - 1], k == |outcomes|);
      var log := prev + events;
      assert LogUpTo(outcomes, k) == log;
      forall j | 0 <= j < |log| - 1 && log[j].Saved?
        ensures log[j + 1].Paused?
      {
        if j < |prev| {
          assert prev[j] == log[j];
          if j + 1 < |prev| {
            assert prev[j + 1] == log[j + 1];
          }
        } else {
          assert events[j - |prev|] == log[j] && events[j + 1 - |prev|] == log[j + 1];
        }
      }
      if k < |outcomes| && events != [] {
        assert log[|log| - 1] == events[|events| - 1] == Paused;
      }
    }
  }

  /** The log ends in a save exactly when the last iteration saved. */
  lemma EndsSavedUpTo(outcomes: seq<Option<SaveCall>>)
    requires outcomes != []
    ensures var log := LogUpTo(outcomes, |outcomes|);
            outcomes[|outcomes| - 1].Some? <==> log != [] && log[|log| - 1].Saved?
  {
    var k := |outcomes| - 1;
    SavesFollowedUpTo(outcomes, k);
    var prev, events := LogUpTo(outcomes, k), StepEvents(outcomes[k], true);
    assert LogUpTo(outcomes, |outcomes|) == prev + events;
    if events != [] {
      assert (prev + events)[|prev + events| - 1] == events[0];
    }
  }

  /**
    In the log of a whole run, every save but the log's last event is followed
    by a pause, and the log ends in a save exactly when the last problem was saved.
   */
  lemma RunSavesThenPause(items: seq<Request>)
    ensures SavesFollowedByPauses(RunLog(items))
    ensures items != [] ==>
              (ProcessItem(items[|items| - 1].number, items[|items| - 1].upstream).Some?
               <==> RunLog(items) != [] && RunLog(items)[|RunLog(items)| - 1].Saved?)
  {
    var outcomes := Outcomes(items);
    SavesFollowedUpTo(outcomes, |items|);
    if items != [] {
      EndsSavedUpTo(outcomes);
    }
  }

  /** In the log of a whole run, no pause happens before a save, and none twice in a row. */
  lemma RunPausesFollowSaves(items: seq<Request>)
    ensures PausesFollowSaves(RunLog(items))
  {
    PausesFollowSavesUpTo(Outcomes(items), |items|);
  }

  /** The problem numbers of the requests. */
  function Numbers(items: seq<Request>): (r: seq<int>)
    ensures |r| == |items| && forall i :: 0 <= i < |items| ==> r[i] == items[i].number
  {
    seq(|items|, i requires 0 <= i < |items| => items[i].number)
  }

  predicate Distinct(xs: seq<int>) {
    forall i, j :: 0 <= i < j < |xs| ==> xs[i] != xs[j]
  }

  /** Where each number stands in `ProblemNumbers`, and -1 for any other number. */
  function ProblemPosition(n: int): int {
    match n
    case 118 => 0
    case 136 => 1
    case 191 => 2
    case 773 => 3
    case 509 => 4
    case 2109 => 5
    case 3396 => 6
    case 2290 => 7
    case 2924 => 8
    case 268 => 9
    case 1550 => 10
    case 3342 => 11
    case 1455 => 12
    case 2554 => 13
    case 215 => 14
    case 2900 => 15
    case 258 => 16
    case 852 => 17
    case 1760 => 18
    case 75 => 19
    case 24 => 20
    case 21 => 21
    case 2097 => 22
    case 1975 => 23
    case 2257 => 24
    case 169 => 25
    case 2825 => 26
    case 100 => 27
    case _ => -1
  }

  /** Distinct positions give distinct numbers when every number knows its own position. */
  lemma DistinctByPosition(xs: seq<int>)
    requires forall i :: 0 <= i < |xs| ==> ProblemPosition(xs[i]) == i
    ensures Distinct(xs)
  {
  }

  /** The script's list names each problem once. */
  lemma ProblemNumbersDistinct()
    ensures Distinct(ProblemNumbers)
  {
    DistinctByPosition(ProblemNumbers);
  }

  /** Each save is for its own request's number and has a known difficulty. */
  predicate SavesMatch(outcomes: seq<Option<SaveCall>>, numbers: seq<int>) {
    |outcomes| == |numbers|
    && forall i :: 0 <= i < |outcomes| && outcomes[i].Some? ==>
         outcomes[i].value.number == numbers[i] && IsDifficultyName(outcomes[i].value.difficulty)
  }

  lemma OutcomesMatch(items: seq<Request>)
    ensures SavesMatch(Outcomes(items), Numbers(items))
  {
  }

  /** Every save is for one of the requested numbers and has a known difficulty. */
  lemma {:induction false} SavedCallsFromRequests(outcomes: seq<Option<SaveCall>>, numbers: seq<int>)
    requires SavesMatch(outcomes, numbers)
    ensures forall j :: 0 <= j < |SavedCalls(outcomes)| ==>
              SavedCalls(outcomes)[j].number in numbers && IsDifficultyName(SavedCalls(outcomes)[j].difficulty)
  {
    if outcomes != [] {
      var k := |outcomes| - 1;
      var init, initNumbers := outcomes[..k], numbers[..k];
      SavedCallsFromRequests(init, initNumbers);
      var prev, calls := SavedCalls(init), SavedCalls(outcomes);
      forall j | 0 <= j < |calls| ensures calls[j].number in numbers && IsDifficultyName(calls[j].difficulty) {
        if j < |prev| {
          assert calls[j] == prev[j];
          assert forall x :: x in initNumbers ==> x in numbers;
        } else {
          assert calls[j] == outcomes[k].value;
          assert numbers[k] == calls[j].number;
        }
      }
    }
  }

  /** With distinct numbers requested, no two saves are for the same number. */
  lemma {:induction false} SavedNumbersDistinct(outcomes: seq<Option<SaveCall>>, numbers: seq<int>)
    requires SavesMatch(outcomes, numbers) && Distinct(numbers)
    ensures forall i, j :: 0 <= i < j < |SavedCalls(outcomes)| ==> SavedCalls(outcomes)[i].number != SavedCalls(outcomes)[j].number
  {
    if outcomes != [] {
      var k := |outcomes| - 1;
      var init, initNumbers := outcomes[..k], numbers[..k];
      SavedNumbersDistinct(init, initNumbers);
      SavedCallsFromRequests(init, initNumbers);
      var prev, calls := SavedCalls(init), SavedCalls(outcomes);
      forall i, j | 0 <= i < j < |calls| ensures calls[i].number != calls[j].number {
        if j < |prev| {
          assert calls[i] == prev[i] && calls[j] == prev[j];
        } else {
          assert calls[i] == prev[i] && calls[j] == outcomes[k].value;
          assert calls[j].number == numbers[k];
          assert numbers[k] !in initNumbers;
        }
      }
    }
  }

  /** Where a save writes, and what. */
  function WriteOf(c: SaveCall): WrittenFile {
    SaveSolution(c.number, c.title, c.code, c.difficulty)
  }

  /** The writes of a sequence of saves, in order. */
  function Writes(calls: seq<SaveCall>): (ws: seq<WrittenFile>)
    ensures |ws| == |calls| && forall i :: 0 <= i < |calls| ==> ws[i] == WriteOf(calls[i])
  {
    seq(|calls|, i requires 0 <= i < |calls| => WriteOf(calls[i]))
  }

  /** No two writes go to the same path. */
  predicate DistinctPaths(ws: seq<WrittenFile>) {
    forall i, j :: 0 <= i < j < |ws| ==> ws[i].path != ws[j].path
  }

  /** Saves for different numbers with known difficulties never write the same file. */
  lemma SavedPathsDistinct(calls: seq<SaveCall>)
    requires forall j :: 0 <= j < |calls| ==> IsDifficultyName(calls[j].difficulty)
    requires forall i, j :: 0 <= i < j < |calls| ==> calls[i].number != calls[j].number
    ensures DistinctPaths(Writes(calls))
  {
    var ws := Writes(calls);
    forall i, j | 0 <= i < j < |calls| ensures ws[i].path != ws[j].path {
      PathsDiffer(calls[i], calls[j]);
    }
  }

  lemma PathsDiffer(a: SaveCall, b: SaveCall)
    requires IsDifficultyName(a.difficulty) && IsDifficultyName(b.difficulty)
    requires a.number != b.number
    ensures WriteOf(a).path != WriteOf(b).path
  {
    DifficultyNameHasNoSeparator(a.difficulty);
    DifficultyNameHasNoSeparator(b.difficulty);
    if SolutionPath(a.number, a.title, a.difficulty) == SolutionPath(b.number, b.title, b.difficulty) {
      SolutionPathInjective(a.number, a.title, a.difficulty, b.number, b.title, b.difficulty);
    }
  }

  /** The tree after the writes, one after the other. */
  function ApplySaves(t: FileTree, ws: seq<WrittenFile>): FileTree {
    if ws == [] then t else Persist(ApplySaves(t, ws[..|ws| - 1]), ws[|ws| - 1])
  }

  /** The text each written path ends up with: the last write to a path wins. */
  function Written(ws: seq<WrittenFile>): map<string, string> {
    if ws == [] then map[]
    else Written(ws[..|ws| - 1])[ws[|ws| - 1].path := ws[|ws| - 1].content]
  }

  /** The directories the writes create. */
  function CreatedDirs(ws: seq<WrittenFile>): set<string> {
    if ws == [] then {}
    else CreatedDirs(ws[..|ws| - 1]) + {SaveDir, ws[|ws| - 1].dir}
  }

  /** The saves add their directories and override the files they write; nothing else changes. */
  lemma {:induction false} ApplySavesOverrides(t: FileTree, ws: seq<WrittenFile>)
    ensures ApplySaves(t, ws) == FileTree(t.dirs + CreatedDirs(ws), t.files + Written(ws))
  {
    if ws == [] {
      assert t.files + map[] == t.files;
    } else {
      var init, w := ws[..|ws| - 1], ws[|ws| - 1];
      ApplySavesOverrides(t, init);
      MergeThenUpdate(t.files, Written(init), w.path, w.content);
      assert t.dirs + CreatedDirs(init) + {SaveDir, w.dir} == t.dirs + (CreatedDirs(init) + {SaveDir, w.dir});
    }
  }

  /**
    Re-running the saves of a run on the tree it left, with the same answers,
    leaves the tree as it was: the files are overwritten with the same text.
   */
  lemma RerunIsIdempotent(t: FileTree, ws: seq<WrittenFile>)
    ensures ApplySaves(ApplySaves(t, ws), ws) == ApplySaves(t, ws)
  {
    var once := ApplySaves(t, ws);
    ApplySavesOverrides(t, ws);
    ApplySavesOverrides(once, ws);
    assert once.files + Written(ws) == once.files;
    assert once.dirs + CreatedDirs(ws) == once.dirs;
  }

  /**
    When no two saves share a path, each saved file ends up holding its own
    header and code, and every other file keeps its text.
   */
  lemma {:induction false} ApplySavesFiles(t: FileTree, ws: seq<WrittenFile>)
    requires DistinctPaths(ws)
    ensures forall j :: 0 <= j < |ws| ==> ws[j].path in ApplySaves(t, ws).files
                                          && ApplySaves(t, ws).files[ws[j].path] == ws[j].content
    ensures forall p :: p in t.files && (forall j :: 0 <= j < |ws| ==> p != ws[j].path)
                        ==> p in ApplySaves(t, ws).files && ApplySaves(t, ws).files[p] == t.files[p]
  {
    if ws != [] {
      var init := ws[..|ws| - 1];
      ApplySavesFiles(t, init);
      forall p | p in t.files && (forall j :: 0 <= j < |ws| ==> p != ws[j].path)
        ensures forall j :: 0 <= j < |init| ==> p != init[j].path
      {
        assert forall j :: 0 <= j < |init| ==> init[j] == ws[j];
      }
      forall j | 0 <= j < |ws| - 1
        ensures ws[j].path != ws[|ws| - 1].path
                && ws[j].path in ApplySaves(t, init).files
                && ApplySaves(t, init).files[ws[j].path] == ws[j].content
      {
        assert init[j] == ws[j];
      }
    }
  }

  /**
    A run over requests with distinct numbers: the saves in the log follow the
    order of the requests, each number is saved at most once, and each saved
    file holds that problem's header and code when the loop ends.
   */
  lemma RunWrites(items: seq<Request>, t: FileTree)
    requires Distinct(Numbers(items))
    ensures var calls := Saves(RunLog(items));
            && calls == SavedCalls(Outcomes(items))
            && (forall i, j :: 0 <= i < j < |calls| ==> calls[i].number != calls[j].number)
            && forall j :: 0 <= j < |calls| ==> WriteOf(calls[j]).path in ApplySaves(t, Writes(calls)).files
                                                && ApplySaves(t, Writes(calls)).files[WriteOf(calls[j]).path] == WriteOf(calls[j]).content
  {
    var outcomes, numbers := Outcomes(items), Numbers(items);
    LogSaves(items);
    OutcomesMatch(items);
    SavedCallsFromRequests(outcomes, numbers);
    SavedNumbersDistinct(outcomes, numbers);
    var calls := SavedCalls(outcomes);
    SavedPathsDistinct(calls);
    ApplySavesFiles(t, Writes(calls));
  }

  /** The script's own run: its problem list has no repeats, so no solution file is written twice. */
  lemma ScriptRun(items: seq<Request>)
    requires Numbers(items) == ProblemNumbers
    ensures var calls := Saves(RunLog(items));
            forall i, j :: 0 <= i < j < |calls| ==> WriteOf(calls[i]).path != WriteOf(calls[j]).path
  {
    ProblemNumbersDistinct();
    var outcomes := Outcomes(items);
    LogSaves(items);
    OutcomesMatch(items);
    SavedCallsFromRequests(outcomes, Numbers(items));
    SavedNumbersDistinct(outcomes, Numbers(items));
    var calls := SavedCalls(outcomes);
    SavedPathsDistinct(calls);
    assert DistinctPaths(Writes(calls));
  }
}
