/** Running a list of page steps in batches (frameSequenceDirect of
    browser-legacy-automation-service.ts): preflight, batching, retries and result indexes. */
module FrameSequence {
  import opened Text
  import opened Rows

  /** `enter` says that the key, with white space and case removed, is Enter. */
  datatype Action =
    | Index | Click | Fill | Select | Press(enter: bool) | WaitFor(timeoutMs: Option<nat>) | ExtractText | Assert

  datatype PageStep = PageStep(action: Action, framePath: seq<Str>, detail: Str)

  datatype Entry = Entry(index: nat, step: PageStep)

  datatype Batch = Batch(entries: seq<Entry>, framePath: seq<Str>, navigationLikely: bool, navigationTarget: Option<Str>)

  predicate Isolated(s: PageStep) {
    s.action.Click? || (s.action.Press? && s.action.enter)
  }

  predicate ReadOnly(s: PageStep) {
    s.action.WaitFor? || s.action.Assert? || s.action.ExtractText? || s.action.Index?
  }

  // ---------------------------------------------------------------- batches

  function Entries(steps: seq<PageStep>): (r: seq<Entry>)
    ensures |r| == |steps|
    ensures forall i | 0 <= i < |steps| :: r[i] == Entry(i, steps[i])
  {
    seq(|steps|, i requires 0 <= i < |steps| => Entry(i, steps[i]))
  }

  /** Two neighbours that may not share an evaluation. */
  predicate Apart(a: Entry, b: Entry) {
    Isolated(a.step) || Isolated(b.step) || a.step.framePath != b.step.framePath
  }

  predicate Together(entries: seq<Entry>) {
    entries != [] && forall i | 1 <= i < |entries| :: !Apart(entries[i - 1], entries[i])
  }

  function Concat(groups: seq<seq<Entry>>): seq<Entry> {
    if groups == [] then [] else Concat(Front(groups)) + Last(groups)
  }

  /** A cut of the steps, in order, exactly where neighbours have to be apart: groups are as
      large as they can be. */
  ghost predicate Grouping(entries: seq<Entry>, groups: seq<seq<Entry>>) {
    && Concat(groups) == entries
    && (forall i | 0 <= i < |groups| :: Together(groups[i]))
    && (forall i | 1 <= i < |groups| :: CutAt(groups, i))
  }

  predicate CutAt(groups: seq<seq<Entry>>, i: nat)
    requires 1 <= i < |groups|
  {
    groups[i - 1] != [] && groups[i] != [] && Apart(Last(groups[i - 1]), groups[i][0])
  }

  lemma ConcatAppend(groups: seq<seq<Entry>>, g: seq<Entry>)
    ensures Concat(groups + [g]) == Concat(groups) + g
  {
    assert Front(groups + [g]) == groups;
  }

  lemma GroupingFront(entries: seq<Entry>, groups: seq<seq<Entry>>)
    requires Grouping(entries, groups) && groups != []
    ensures |Last(groups)| <= |entries| && Grouping(entries[..|entries| - |Last(groups)|], Front(groups))
    ensures entries[|entries| - |Last(groups)|..] == Last(groups)
    ensures |groups| > 1 ==> |Last(groups)| < |entries| && Last(groups) != [] && Apart(entries[|entries| - |Last(groups)| - 1], Last(groups)[0])
  {
    var front := Concat(Front(groups));
    assert entries == front + Last(groups);
    assert entries[..|front|] == front;
    if |groups| > 1 {
      var g := groups[|groups| - 2];
      assert Last(Front(groups)) == g && Together(g);
      assert front == Concat(Front(Front(groups))) + g;
      assert entries[|front| - 1] == Last(g);
      assert CutAt(groups, |groups| - 1);
    }
    forall i | 1 <= i < |groups| - 1 ensures CutAt(Front(groups), i) { assert CutAt(groups, i); }
  }

  /** There is only one such cut. */
  lemma {:induction false} GroupingUnique(entries: seq<Entry>, a: seq<seq<Entry>>, b: seq<seq<Entry>>)
    requires Grouping(entries, a) && Grouping(entries, b)
    ensures a == b
    decreases |entries|
  {
    if a == [] || b == [] {
      NoEmptyGroups(entries, a);
      NoEmptyGroups(entries, b);
    } else {
      GroupingFront(entries, a);
      GroupingFront(entries, b);
      LastIsAsLong(entries, a, b);
      LastIsAsLong(entries, b, a);
      GroupingUnique(entries[..|entries| - |Last(a)|], Front(a), Front(b));
      assert a == Front(a) + [Last(a)] && b == Front(b) + [Last(b)];
    }
  }

  lemma NoEmptyGroups(entries: seq<Entry>, a: seq<seq<Entry>>)
    requires Grouping(entries, a)
    ensures a == [] <==> entries == []
  {
    if a != [] {
      assert Together(a[|a| - 1]);
    }
  }

  lemma LastIsAsLong(entries: seq<Entry>, a: seq<seq<Entry>>, b: seq<seq<Entry>>)
    requires Grouping(entries, a) && Grouping(entries, b) && a != [] && b != []
    ensures |Last(b)| <= |Last(a)|
  {
    GroupingFront(entries, a);
    GroupingFront(entries, b);
    LastTogether(entries, b);
    if |a| == 1 { assert Concat(Front(a)) == [] && entries == Last(a); }
    assert |a| > 1 ==> entries[|entries| - |Last(a)|..][0] == Last(a)[0];
  }

  lemma LastTogether(entries: seq<Entry>, groups: seq<seq<Entry>>)
    requires Grouping(entries, groups) && groups != []
    ensures |Last(groups)| <= |entries|
    ensures forall j {:trigger entries[j]} | |entries| - |Last(groups)| < j < |entries| :: !Apart(entries[j - 1], entries[j])
  {
    GroupingFront(entries, groups);
    var g, start := Last(groups), |entries| - |Last(groups)|;
    assert Together(groups[|groups| - 1]);
    forall j | start < j < |entries| ensures !Apart(entries[j - 1], entries[j]) {
      assert entries[j] == g[j - start] && entries[j - 1] == g[j - start - 1];
    }
  }

  /** The entries of each batch. */
  function Groups(batches: seq<Batch>): (r: seq<seq<Entry>>)
    ensures |r| == |batches|
    ensures forall i | 0 <= i < |batches| :: r[i] == batches[i].entries
  {
    seq(|batches|, i requires 0 <= i < |batches| => batches[i].entries)
  }

  /** What a preflight found out about an isolated step. */
  datatype Likely = Likely(indexes: set<nat>, targets: map<nat, Str>)

  predicate FrameOf(b: Batch) {
    && b.entries != []
    && (forall e | e in b.entries :: e.step.framePath == b.framePath)
  }

  ghost predicate Described(b: Batch, likely: Likely) {
    && FrameOf(b)
    && (b.navigationLikely <==> b.entries[0].index in likely.indexes)
    && b.navigationTarget == (if b.entries[0].index in likely.targets then Some(likely.targets[b.entries[0].index]) else None)
  }

  lemma AppendGroup(entries: seq<Entry>, groups: seq<seq<Entry>>, e: Entry)
    requires Grouping(entries, groups)
    requires groups != [] ==> Last(groups) != [] && Apart(Last(Last(groups)), e)
    ensures Grouping(entries + [e], groups + [[e]])
  {
    ConcatAppend(groups, [e]);
    var after := groups + [[e]];
    forall i | 1 <= i < |after| ensures CutAt(after, i) {
      assert i < |groups| ==> CutAt(groups, i);
    }
  }

  lemma ExtendGroup(entries: seq<Entry>, groups: seq<seq<Entry>>, e: Entry)
    requires Grouping(entries, groups) && groups != [] && Last(groups) != [] && !Apart(Last(Last(groups)), e)
    ensures Grouping(entries + [e], Front(groups) + [Last(groups) + [e]])
  {
    var longer := Last(groups) + [e];
    ConcatAppend(Front(groups), longer);
    assert Concat(Front(groups)) + longer == entries + [e];
    assert Together(groups[|groups| - 1]);
    var after := Front(groups) + [longer];
    forall i | 1 <= i < |after| ensures CutAt(after, i) {
      assert CutAt(groups, i);
    }
  }

  /** The batches of the first steps. */
  ghost predicate Built(steps: seq<PageStep>, n: nat, batches: seq<Batch>, likely: Likely)
    requires n <= |steps|
  {
    && Grouping(Entries(steps)[..n], Groups(batches))
    && (forall b | b in batches :: Described(b, likely))
  }

  predicate Joins(b: Batch, step: PageStep) {
    !Isolated(step) && b.entries != [] && !b.navigationLikely && !Isolated(Last(b.entries).step) && b.framePath == step.framePath
  }

  lemma JoinBuilt(steps: seq<PageStep>, n: nat, batches: seq<Batch>, likely: Likely)
    requires n < |steps| && Built(steps, n, batches, likely) && batches != [] && Joins(Last(batches), steps[n])
    ensures var b := Last(batches);
            Built(steps, n + 1, Front(batches) + [b.(entries := b.entries + [Entry(n, steps[n])])], likely)
  {
    var b, e, groups := Last(batches), Entry(n, steps[n]), Groups(batches);
    LastEntry(Entries(steps)[..n], groups, batches);
    assert Described(b, likely) && Last(b.entries) in b.entries;
    ExtendGroup(Entries(steps)[..n], groups, e);
    assert Entries(steps)[..n + 1] == Entries(steps)[..n] + [e];
    var after := Front(batches) + [b.(entries := b.entries + [e])];
    assert Groups(after) == Front(groups) + [Last(groups) + [e]];
    assert Described(Last(after), likely);
  }

  lemma AppendBuilt(steps: seq<PageStep>, n: nat, batches: seq<Batch>, likely: Likely, b: Batch)
    requires n < |steps| && Built(steps, n, batches, likely)
    requires forall i | i in likely.indexes :: i < |steps| && Isolated(steps[i])
    requires batches == [] || !Joins(Last(batches), steps[n])
    requires b.entries == [Entry(n, steps[n])] && Described(b, likely)
    ensures Built(steps, n + 1, batches + [b], likely)
  {
    AppendApart(steps, n, batches, likely);
    AppendGroup(Entries(steps)[..n], Groups(batches), Entry(n, steps[n]));
    assert Entries(steps)[..n + 1] == Entries(steps)[..n] + [Entry(n, steps[n])];
    assert Groups(batches + [b]) == Groups(batches) + [[Entry(n, steps[n])]];
  }

  lemma AppendApart(steps: seq<PageStep>, n: nat, batches: seq<Batch>, likely: Likely)
    requires n < |steps| && Built(steps, n, batches, likely)
    requires forall i | i in likely.indexes :: i < |steps| && Isolated(steps[i])
    requires batches == [] || !Joins(Last(batches), steps[n])
    ensures var groups := Groups(batches);
            groups != [] ==> Last(groups) != [] && Apart(Last(Last(groups)), Entry(n, steps[n]))
  {
    if batches != [] {
      LastEntry(Entries(steps)[..n], Groups(batches), batches);
      BatchesApart(steps, n, batches, likely);
    }
  }

  method BuildBatches(steps: seq<PageStep>, likely: Likely) returns (batches: seq<Batch>)
    requires forall i | i in likely.indexes :: i < |steps| && Isolated(steps[i])
    ensures Built(steps, |steps|, batches, likely)
  {
    batches := [];
    var index := 0;
    while index < |steps|
      invariant 0 <= index <= |steps|
      invariant Built(steps, index, batches, likely)
    {
      var step := steps[index];
      if batches != [] && Joins(Last(batches), step) {
        var previous := Last(batches);
        JoinBuilt(steps, index, batches, likely);
        batches := Front(batches) + [previous.(entries := previous.entries + [Entry(index, step)])];
      } else {
        var target := if index in likely.targets then Some(likely.targets[index]) else None;
        var batch := Batch([Entry(index, step)], step.framePath, index in likely.indexes, target);
        AppendBuilt(steps, index, batches, likely, batch);
        batches := batches + [batch];
      }
      index := index + 1;
    }
  }

  lemma LastEntry(entries: seq<Entry>, groups: seq<seq<Entry>>, batches: seq<Batch>)
    requires Grouping(entries, groups) && groups == Groups(batches) && batches != []
    ensures Last(groups) != [] && entries != [] && Last(Last(groups)) == Last(entries)
    ensures Last(groups) == Last(batches).entries
  {
    assert Together(groups[|groups| - 1]);
    assert entries == Concat(Front(groups)) + Last(groups);
  }

  lemma BatchesApart(steps: seq<PageStep>, index: nat, batches: seq<Batch>, likely: Likely)
    requires index < |steps| && batches != [] && Grouping(Entries(steps)[..index], Groups(batches))
    requires forall i | i in likely.indexes :: i < |steps| && Isolated(steps[i])
    requires forall b | b in batches :: Described(b, likely)
    requires var b := Last(batches);
             b.entries != [] && (Isolated(steps[index]) || b.navigationLikely || Isolated(Last(b.entries).step) || b.framePath != steps[index].framePath)
    ensures Groups(batches) != [] && Last(Groups(batches)) != [] && Apart(Last(Last(Groups(batches))), Entry(index, steps[index]))
  {
    var b := Last(batches);
    assert b in batches && Described(b, likely);
    var groups := Groups(batches);
    assert Last(groups) == b.entries;
    LastEntry(Entries(steps)[..index], groups, batches);
    assert Last(b.entries) in b.entries;
    if b.navigationLikely && |b.entries| > 1 {
      assert Together(groups[|groups| - 1]);
      assert !Apart(b.entries[0], b.entries[1]);
      FirstIsStep(steps, index, groups);
    } else if b.navigationLikely {
      FirstIsStep(steps, index, groups);
    }
  }

  lemma FirstIsStep(steps: seq<PageStep>, index: nat, groups: seq<seq<Entry>>)
    requires index <= |steps| && Grouping(Entries(steps)[..index], groups) && groups != [] && Last(groups) != []
    ensures var e := Last(groups)[0];
            e.index < |steps| && e.step == steps[e.index]
  {
    var entries := Entries(steps)[..index];
    assert entries == Concat(Front(groups)) + Last(groups);
    var k := |Concat(Front(groups))|;
    assert entries[k] == Last(groups)[0];
  }

  /** Clicks and Enter presses are always alone. */
  lemma IsolatedAreAlone(entries: seq<Entry>, groups: seq<seq<Entry>>, g: seq<Entry>, i: nat)
    requires Grouping(entries, groups) && g in groups && i < |g|
    requires g[i].step.action == Click || g[i].step.action == Press(true)
    ensures |g| == 1
  {
    var k :| 0 <= k < |groups| && groups[k] == g;
    assert Together(groups[k]);
    if |g| > 1 {
      assert i > 0 ==> Apart(g[i - 1], g[i]);
      assert i == 0 ==> Apart(g[0], g[1]);
    }
  }

  // ---------------------------------------------------------------- the page

  /** A failed evaluation. `frameUnavailable`: its code is FRAME_NOT_FOUND or FRAME_NOT_READY.
      `contextLost`: its message says that the frame's context went away. */
  datatype EvalError = EvalError(appError: bool, frameUnavailable: bool, contextLost: bool, code: Str) {
    predicate Transient() {
      contextLost
    }

    /** Only the code counts for an error of the application itself. */
    predicate FrameMissing() {
      if appError then frameUnavailable else frameUnavailable || contextLost
    }
  }

  datatype Preflight = Fine(navigationLikely: bool, target: Option<Str>) | PreflightThrew(error: EvalError)

  datatype Answer = Answered(items: seq<Str>) | Threw(error: EvalError)

  /** What was asked of the page, in order; a batch is named by its place. */
  datatype Call = PreflightOf(step: nat) | ResolveTarget(batch: nat) | BeginWait(batch: nat) | Evaluate(batch: nat) | AwaitNavigation(batch: nat)

  /** The page, the abort signal and the clock: every answer is arbitrary, the clock only moves
      forward, and a delay takes at least as long as it says. */
  class Driver {
    const preflights: nat -> Preflight
    const answers: nat -> Answer
    const navigations: nat -> Option<EvalError>
    const aborted: nat -> bool
    const pauses: nat -> nat
    var log: seq<Call>
    var now: int
    var asked: nat
    var checked: nat
    var navigated: nat

    constructor (preflights: nat -> Preflight, answers: nat -> Answer, navigations: nat -> Option<EvalError>,
      aborted: nat -> bool, pauses: nat -> nat, now: int)
      ensures log == [] && this.now == now && asked == 0
      ensures this.preflights == preflights && this.answers == answers && this.navigations == navigations
    {
      this.preflights, this.answers, this.navigations := preflights, answers, navigations;
      this.aborted, this.pauses, this.now := aborted, pauses, now;
      log, asked, checked, navigated := [], 0, 0, 0;
    }

    method PreflightStep(step: nat) returns (r: Preflight)
      modifies `log, `now, `asked
      ensures log == old(log) + [PreflightOf(step)] && now >= old(now)
      ensures r == preflights(old(asked)) && asked == old(asked) + 1
    {
      log := log + [PreflightOf(step)];
      now := now + pauses(|log|);
      r := preflights(asked);
      asked := asked + 1;
    }

    method EvaluateBatch(batch: nat) returns (r: Answer)
      modifies `log, `now, `asked
      ensures log == old(log) + [Evaluate(batch)] && now >= old(now)
      ensures r == answers(old(asked)) && asked == old(asked) + 1
    {
      log := log + [Evaluate(batch)];
      now := now + pauses(|log|);
      r := answers(asked);
      asked := asked + 1;
    }

    method Active() returns (ok: bool)
      modifies `checked
    {
      ok := !aborted(checked);
      checked := checked + 1;
    }

    /** Resolving, starting or awaiting a navigation; it does not run a step. */
    method Navigation(call: Call) returns (error: Option<EvalError>)
      modifies `log, `now, `navigated
      ensures log == old(log) + [call] && now >= old(now)
      ensures error == navigations(old(navigated)) && navigated == old(navigated) + 1
    {
      log := log + [call];
      error := navigations(navigated);
      now := now + pauses(navigated);
      navigated := navigated + 1;
    }

    method Delay(ms: nat) returns (ok: bool)
      modifies `now, `checked
      ensures now >= old(now) + ms
    {
      now := now + ms + pauses(checked);
      ok := Active();
    }
  }

  // ---------------------------------------------------------------- preflight

  datatype SequenceError =
    | Cancelled
    | NavigationTimeout
    | StateNotReached(completed: seq<nat>)
    | Failed(error: EvalError, completed: seq<nat>)
    | UnexpectedStepCount
    | NothingRan

  /** Only an error of the application itself is given the completed steps; any other is passed on
      as it is. */
  function FailedAfter(error: EvalError, completed: seq<nat>): SequenceError {
    Failed(error, if error.appError then completed else [])
  }

  /** The completed steps an error tells the caller about. */
  function Reported(e: SequenceError): seq<nat> {
    match e
    case StateNotReached(completed) => completed
    case Failed(_, completed) => completed
    case _ => []
  }

  /** One call per isolated step, in order. */
  function PreflightCalls(steps: seq<PageStep>): seq<Call> {
    if steps == [] then []
    else PreflightCalls(Front(steps)) + if Isolated(Last(steps)) then [PreflightOf(|steps| - 1)] else []
  }

  /** The answer to the preflight of step i, if it has one, the first having number `base`. */
  function PreflightAnswer(preflights: nat -> Preflight, base: nat, steps: seq<PageStep>, i: nat): Option<Preflight>
    requires i < |steps|
  {
    if steps[i].action == Click || steps[i].action == Press(true) then Some(preflights(base + |PreflightCalls(steps[..i])|)) else None
  }

  /** Step i may navigate, as its own preflight said, and to the target that named. */
  predicate LearntAt(preflights: nat -> Preflight, base: nat, steps: seq<PageStep>, likely: Likely, i: nat)
    requires i < |steps|
  {
    var a := PreflightAnswer(preflights, base, steps, i);
    var navigates := a.Some? && a.value.Fine? && a.value.navigationLikely;
    && (i in likely.indexes <==> navigates)
    && (i in likely.targets <==> navigates && a.value.target.Some? && a.value.target.value != [])
    && (i in likely.targets ==> likely.targets[i] == a.value.target.value)
  }

  ghost predicate Learnt(preflights: nat -> Preflight, base: nat, steps: seq<PageStep>, likely: Likely) {
    && (forall i | i in likely.indexes || i in likely.targets :: i < |steps|)
    && forall i | 0 <= i < |steps| :: LearntAt(preflights, base, steps, likely, i)
  }

  lemma LearnMore(preflights: nat -> Preflight, base: nat, steps: seq<PageStep>, n: nat, before: Likely, after: Likely)
    requires n < |steps| && Learnt(preflights, base, steps[..n], before)
    requires LearntAt(preflights, base, steps[..n + 1], after, n)
    requires forall i | i != n :: (i in after.indexes <==> i in before.indexes) && (i in after.targets <==> i in before.targets)
    requires forall i | i != n && i in before.targets :: after.targets[i] == before.targets[i]
    ensures Learnt(preflights, base, steps[..n + 1], after)
  {
    var all := steps[..n + 1];
    forall i | 0 <= i < n ensures LearntAt(preflights, base, all, after, i) {
      assert LearntAt(preflights, base, steps[..n], before, i);
      assert all[..i] == steps[..n][..i];
    }
  }

  lemma LikelyAreIsolated(preflights: nat -> Preflight, base: nat, steps: seq<PageStep>, likely: Likely)
    requires Learnt(preflights, base, steps, likely)
    ensures forall i | i in likely.indexes :: i < |steps| && Isolated(steps[i])
  {
    forall i | i in likely.indexes ensures Isolated(steps[i]) {
      assert LearntAt(preflights, base, steps, likely, i);
    }
  }

  method PreflightAll(driver: Driver, steps: seq<PageStep>) returns (r: Result<Likely, SequenceError>, ghost done: nat)
    modifies driver`log, driver`now, driver`asked
    ensures done <= |steps| && driver.log == old(driver.log) + PreflightCalls(steps[..done])
    ensures r.Success? ==> done == |steps| && Learnt(driver.preflights, old(driver.asked), steps, r.value)
    ensures r.Success? ==> driver.asked == old(driver.asked) + |PreflightCalls(steps)|
    ensures r.Failure? ==> r.error.Failed? && Reported(r.error) == []
    ensures driver.now >= old(driver.now)
  {
    var likely := Likely({}, map[]);
    var index := 0;
    while index < |steps|
      invariant 0 <= index <= |steps|
      invariant driver.log == old(driver.log) + PreflightCalls(steps[..index])
      invariant Learnt(driver.preflights, old(driver.asked), steps[..index], likely)
      invariant driver.asked == old(driver.asked) + |PreflightCalls(steps[..index])|
      invariant driver.now >= old(driver.now)
    {
      assert Front(steps[..index + 1]) == steps[..index] && Last(steps[..index + 1]) == steps[index];
      ghost var before := likely;
      if Isolated(steps[index]) {
        var preflight := driver.PreflightStep(index);
        if preflight.PreflightThrew? { return Failure(Failed(preflight.error, [])), index + 1; }
        if preflight.navigationLikely {
          likely := likely.(indexes := likely.indexes + {index});
          if preflight.target.Some? && preflight.target.value != [] {
            likely := likely.(targets := likely.targets[index := preflight.target.value]);
          }
        }
      }
      LearnMore(driver.preflights, old(driver.asked), steps, index, before, likely);
      index := index + 1;
    }
    assert steps[..index] == steps;
    return Success(likely), index;
  }

  // ---------------------------------------------------------------- one batch

  predicate WaitsOnly(b: Batch) {
    forall e | e in b.entries :: e.step.action.WaitFor?
  }

  predicate ReadsOnly(b: Batch) {
    forall e | e in b.entries :: ReadOnly(e.step)
  }

  function WaitLimit(entries: seq<Entry>, remaining: int): int {
    if entries == [] then remaining
    else
      var rest := WaitLimit(Front(entries), remaining);
      var step := Last(entries).step;
      var limit := if step.action.WaitFor? then (if step.action.timeoutMs.Some? then step.action.timeoutMs.value else 10000) else rest;
      if limit < rest then limit else rest
  }

  function Least(a: int, b: int): int {
    if a < b then a else b
  }

  predicate Changes(a: Action) {
    match a
    case Click => true
    case Fill => true
    case Select => true
    case Press(_) => true
    case _ => false
  }

  /** How often a batch may be evaluated: once if any step changes the page, twice if every
      step only reads, and until its deadline if every step waits. */
  predicate AttemptsAllowed(b: Batch, attempts: nat) {
    && ((exists e | e in b.entries :: Changes(e.step.action)) ==> attempts <= 1)
    && ((exists e | e in b.entries :: !e.step.action.WaitFor?) ==> attempts <= 2)
  }

  /** The frame is gone: an error of the application says so by its code, any other by its code or
      its message. */
  predicate SaysFrameMissing(e: EvalError) {
    e.frameUnavailable || (!e.appError && e.contextLost)
  }

  method EvaluateWithRetries(driver: Driver, batch: Batch, ordinal: nat, waitDeadline: int, completed: seq<nat>)
    returns (r: Result<seq<Str>, SequenceError>, attempts: nat)
    modifies driver`log, driver`now, driver`asked, driver`checked
    ensures driver.log == old(driver.log) + Repeat(Evaluate(ordinal), attempts) && driver.now >= old(driver.now)
    ensures attempts >= 1 && AttemptsAllowed(batch, attempts) && driver.asked == old(driver.asked) + attempts
    ensures r.Success? ==> driver.answers(driver.asked - 1) == Answered(r.value)
    ensures forall k | old(driver.asked) <= k < driver.asked - 1 :: driver.answers(k).Threw?
    ensures r.Failure? ==> r.error.StateNotReached? || r.error.Failed? || r.error.Cancelled?
    ensures r.Failure? && r.error.Failed? ==>
      && driver.answers(driver.asked - 1) == Threw(r.error.error)
      && r.error.completed == if r.error.error.appError then completed else []
    ensures r.Failure? && r.error.StateNotReached? ==>
      && r.error.completed == completed && driver.now >= waitDeadline && (forall e | e in batch.entries :: e.step.action.WaitFor?)
      && driver.answers(driver.asked - 1).Threw? && SaysFrameMissing(driver.answers(driver.asked - 1).error)
    ensures r.Failure? && r.error.Failed? && (forall e | e in batch.entries :: e.step.action.WaitFor?) ==>
      !SaysFrameMissing(r.error.error)
    ensures r.Failure? && r.error.Failed? && (forall e | e in batch.entries :: !Changes(e.step.action)) && r.error.error.contextLost ==>
      attempts >= 2
  {
    attempts := 0;
    while true
      invariant driver.log == old(driver.log) + Repeat(Evaluate(ordinal), attempts) && driver.now >= old(driver.now)
      invariant AttemptsAllowed(batch, attempts + 1) && driver.asked == old(driver.asked) + attempts
      invariant forall k | old(driver.asked) <= k < driver.asked :: driver.answers(k).Threw?
      decreases if attempts < 2 then 2 - attempts else 0, waitDeadline - driver.now
    {
      var answer := driver.EvaluateBatch(ordinal);
      assert Repeat(Evaluate(ordinal), attempts) + [Evaluate(ordinal)] == Repeat(Evaluate(ordinal), attempts + 1);
      attempts := attempts + 1;
      if answer.Answered? { return Success(answer.items), attempts; }
      var error := answer.error;
      var retryMissingWaitFrame := WaitsOnly(batch) && error.FrameMissing();
      if retryMissingWaitFrame && driver.now >= waitDeadline {
        return Failure(StateNotReached(completed)), attempts;
      }
      var retryTransientRead := attempts - 1 < 1 && ReadsOnly(batch) && error.Transient();
      if !retryMissingWaitFrame && !retryTransientRead {
        return Failure(FailedAfter(error, completed)), attempts;
      }
      var active := driver.Delay(25);
      if !active { return Failure(Cancelled), attempts; }
    }
  }

  function Indexes(entries: seq<Entry>): seq<nat> {
    seq(|entries|, i requires 0 <= i < |entries| => entries[i].index)
  }

  /** All that is asked of the page for one batch: when it may navigate, the wait is begun before
      its steps run, and awaited after them. */
  function CallsFor(b: Batch, ordinal: nat, attempts: nat): seq<Call> {
    if b.navigationLikely then
      [ResolveTarget(ordinal), BeginWait(ordinal)] + Repeat(Evaluate(ordinal), attempts) + [AwaitNavigation(ordinal)]
    else Repeat(Evaluate(ordinal), attempts)
  }

  /** What a wait step allows itself, 10 seconds unless it says otherwise. */
  predicate WaitedEnough(b: Batch, since: int, now: int) {
    exists e | e in b.entries && e.step.action.WaitFor? ::
      now >= since + if e.step.action.timeoutMs == None then 10000 else e.step.action.timeoutMs.value
  }

  lemma {:induction false} LimitIsSomeWait(entries: seq<Entry>, remaining: int)
    ensures var limit := WaitLimit(entries, remaining);
            && limit <= remaining
            && (limit == remaining
                || exists e | e in entries && e.step.action.WaitFor? ::
                     limit == if e.step.action.timeoutMs == None then 10000 else e.step.action.timeoutMs.value)
    ensures forall e | e in entries && e.step.action.WaitFor? ::
      WaitLimit(entries, remaining) <= if e.step.action.timeoutMs == None then 10000 else e.step.action.timeoutMs.value
  {
    if entries != [] {
      FrontLast(entries);
      LimitIsSomeWait(Front(entries), remaining);
    }
  }

  lemma CallsPrefixes(b: Batch, ordinal: nat, attempts: nat)
    ensures IsPrefix([], CallsFor(b, ordinal, attempts))
    ensures b.navigationLikely ==>
      && IsPrefix([ResolveTarget(ordinal)], CallsFor(b, ordinal, attempts))
      && IsPrefix([ResolveTarget(ordinal), BeginWait(ordinal)], CallsFor(b, ordinal, attempts))
    ensures IsPrefix(CallsBefore(b, ordinal) + Repeat(Evaluate(ordinal), attempts), CallsFor(b, ordinal, attempts))
  {
    var calls := CallsFor(b, ordinal, attempts);
    if b.navigationLikely {
      assert calls[..1] == [ResolveTarget(ordinal)];
      assert calls[..2] == [ResolveTarget(ordinal), BeginWait(ordinal)];
      assert calls[..2 + attempts] == CallsBefore(b, ordinal) + Repeat(Evaluate(ordinal), attempts);
    } else {
      assert calls[..attempts] == [] + Repeat(Evaluate(ordinal), attempts);
    }
  }

  function CallsBefore(b: Batch, ordinal: nat): seq<Call> {
    if b.navigationLikely then [ResolveTarget(ordinal), BeginWait(ordinal)] else []
  }

  /** For a batch that may navigate: where to, and the wait for it, before any step runs. */
  method BeginNavigation(driver: Driver, batch: Batch, ordinal: nat) returns (error: Option<SequenceError>, ghost calls: seq<Call>)
    modifies driver`log, driver`now, driver`navigated
    ensures driver.log == old(driver.log) + calls && driver.now >= old(driver.now)
    ensures IsPrefix(calls, CallsFor(batch, ordinal, 0))
    ensures error.None? ==> calls == CallsBefore(batch, ordinal)
    ensures error.Some? ==> error.value.Failed? && error.value.completed == []
  {
    CallsPrefixes(batch, ordinal, 0);
    calls := [];
    if batch.navigationLikely {
      var unresolved := driver.Navigation(ResolveTarget(ordinal));
      calls := [ResolveTarget(ordinal)];
      if unresolved.Some? { return Some(Failed(unresolved.value, [])), calls; }
      var notStarted := driver.Navigation(BeginWait(ordinal));
      calls := calls + [BeginWait(ordinal)];
      if notStarted.Some? { return Some(Failed(notStarted.value, [])), calls; }
    }
    error := None;
  }

  /** The deadline for waiting: that of the whole list, or the least any wait step allows. */
  method WaitDeadline(driver: Driver, batch: Batch, deadline: int, remaining: int) returns (waitDeadline: int)
    requires driver.now + remaining >= deadline
    ensures WaitsOnly(batch) ==> waitDeadline >= deadline || WaitedEnough(batch, driver.now, waitDeadline)
  {
    waitDeadline := driver.now;
    if WaitsOnly(batch) { waitDeadline := Least(deadline, driver.now + WaitLimit(batch.entries, remaining)); }
    LimitIsSomeWait(batch.entries, remaining);
  }

  method RunBatch(driver: Driver, batch: Batch, ordinal: nat, deadline: int, completed: seq<nat>)
    returns (r: Result<seq<Str>, SequenceError>, attempts: nat, ghost calls: seq<Call>)
    modifies driver`log, driver`now, driver`asked, driver`checked, driver`navigated
    ensures driver.log == old(driver.log) + calls && IsPrefix(calls, CallsFor(batch, ordinal, attempts))
    ensures AttemptsAllowed(batch, attempts) && driver.asked == old(driver.asked) + attempts
    ensures r.Success? ==> calls == CallsFor(batch, ordinal, attempts)
    ensures r.Success? ==> attempts >= 1 && |r.value| == |batch.entries| && old(driver.now) < deadline
    ensures r.Success? ==> driver.answers(driver.asked - 1) == Answered(r.value)
    ensures r.Failure? && r.error.NavigationTimeout? ==> attempts == 0 && driver.now >= old(driver.now) >= deadline
    ensures r.Failure? && r.error.UnexpectedStepCount? ==> attempts >= 1
    ensures r.Failure? && r.error.StateNotReached? ==> driver.now >= deadline || WaitedEnough(batch, old(driver.now), driver.now)
    ensures r.Failure? ==> Reported(r.error) in {[], completed, completed + Indexes(batch.entries)}
    ensures r.Failure? && r.error.Failed? ==>
      if r.error.error.appError && attempts > 0 then Reported(r.error) in {completed, completed + Indexes(batch.entries)}
      else Reported(r.error) == []
  {
    attempts, calls := 0, [];
    CallsPrefixes(batch, ordinal, 0);
    var active := driver.Active();
    if !active { return Failure(Cancelled), 0, []; }
    var remaining := deadline - driver.now;
    if remaining <= 0 { return Failure(NavigationTimeout), 0, []; }
    var error;
    error, calls := BeginNavigation(driver, batch, ordinal);
    if error.Some? { return Failure(error.value), 0, calls; }
    var waitDeadline := WaitDeadline(driver, batch, deadline, remaining);
    r, attempts := EvaluateWithRetries(driver, batch, ordinal, waitDeadline, completed);
    calls := calls + Repeat(Evaluate(ordinal), attempts);
    CallsPrefixes(batch, ordinal, attempts);
    if r.Failure? { return; }
    if batch.navigationLikely {
      var lost := driver.Navigation(AwaitNavigation(ordinal));
      calls := calls + [AwaitNavigation(ordinal)];
      if lost.Some? { return Failure(FailedAfter(lost.value, completed + Indexes(batch.entries))), attempts, calls; }
    }
    if |r.value| != |batch.entries| { return Failure(UnexpectedStepCount), attempts, calls; }
  }

  // ---------------------------------------------------------------- the whole list

  datatype StepResult = StepResult(index: nat, framePath: seq<Str>, item: Str)

  /** The calls for the first batches in order, each evaluated as often as `runs` says. */
  function SequenceCalls(batches: seq<Batch>, runs: seq<nat>): seq<Call>
    requires |runs| <= |batches|
  {
    if runs == [] then [] else SequenceCalls(batches, Front(runs)) + CallsFor(batches[|runs| - 1], |runs| - 1, Last(runs))
  }

  function Sum(runs: seq<nat>): nat {
    if runs == [] then 0 else Sum(Front(runs)) + Last(runs)
  }

  ghost predicate RunsAllowed(batches: seq<Batch>, runs: seq<nat>) {
    |runs| <= |batches| && forall i | 0 <= i < |runs| :: AttemptsAllowed(batches[i], runs[i])
  }

  /** Result i is that of step i, in the frame of step i. */
  ghost predicate InOrder(steps: seq<PageStep>, results: seq<StepResult>) {
    |results| <= |steps| && forall i | 0 <= i < |results| :: results[i].index == i && results[i].framePath == steps[i].framePath
  }

  lemma {:induction false} ConcatPrefix(groups: seq<seq<Entry>>, k: nat)
    requires k < |groups|
    ensures IsPrefix(Concat(groups[..k]) + groups[k], Concat(groups))
    ensures k + 1 == |groups| ==> Concat(groups[..k]) + groups[k] == Concat(groups)
    decreases |groups|
  {
    if k == |groups| - 1 {
      assert groups[..k] == Front(groups);
    } else {
      ConcatPrefix(Front(groups), k);
      assert Front(groups)[..k] == groups[..k];
    }
  }

  predicate EntryLiesAt(steps: seq<PageStep>, b: Batch, start: nat, j: nat)
    requires start + |b.entries| <= |steps| && j < |b.entries|
  {
    b.entries[j] == Entry(start + j, steps[start + j]) && steps[start + j].framePath == b.framePath
  }

  ghost predicate LiesAt(steps: seq<PageStep>, b: Batch, start: nat) {
    start + |b.entries| <= |steps| && forall j | 0 <= j < |b.entries| :: EntryLiesAt(steps, b, start, j)
  }

  /** Where the entries of batch k lie among the steps. */
  lemma BatchEntries(steps: seq<PageStep>, batches: seq<Batch>, k: nat)
    requires k < |batches| && Grouping(Entries(steps), Groups(batches)) && (forall b | b in batches :: FrameOf(b))
    ensures var start := |Concat(Groups(batches)[..k])|;
            && LiesAt(steps, batches[k], start)
            && |Concat(Groups(batches)[..k + 1])| == start + |batches[k].entries|
            && (k + 1 == |batches| ==> start + |batches[k].entries| == |steps|)
  {
    var groups := Groups(batches);
    var start := |Concat(groups[..k])|;
    ConcatPrefix(groups, k);
    assert Front(groups[..k + 1]) == groups[..k] && Last(groups[..k + 1]) == groups[k];
    var both := Concat(groups[..k]) + groups[k];
    forall j | 0 <= j < |batches[k].entries| ensures EntryLiesAt(steps, batches[k], start, j) {
      assert both[start + j] == Entries(steps)[start + j];
      assert batches[k] in batches && batches[k].entries[j] in batches[k].entries;
    }
  }

  method CollectResults(batch: Batch, items: seq<Str>, results: seq<StepResult>, ghost steps: seq<PageStep>) returns (r: seq<StepResult>)
    requires |items| == |batch.entries| && InOrder(steps, results) && LiesAt(steps, batch, |results|)
    ensures InOrder(steps, r) && |r| == |results| + |items|
    ensures r[..|results|] == results && forall j | 0 <= j < |items| :: r[|results| + j].item == items[j]
  {
    r := results;
    var localIndex := 0;
    while localIndex < |batch.entries|
      invariant 0 <= localIndex <= |batch.entries|
      invariant InOrder(steps, r) && |r| == |results| + localIndex
      invariant r[..|results|] == results && forall j | 0 <= j < localIndex :: r[|results| + j].item == items[j]
    {
      assert EntryLiesAt(steps, batch, |results|, localIndex);
      r := r + [StepResult(batch.entries[localIndex].index, batch.framePath, items[localIndex])];
      localIndex := localIndex + 1;
    }
  }

  lemma AppendCalls(batches: seq<Batch>, runs: seq<nat>, attempts: nat)
    requires |runs| < |batches|
    ensures Sum(runs + [attempts]) == Sum(runs) + attempts
    ensures SequenceCalls(batches, runs + [attempts]) == SequenceCalls(batches, runs) + CallsFor(batches[|runs|], |runs|, attempts)
  {
    assert Front(runs + [attempts]) == runs;
  }

  lemma AppendAllowed(batches: seq<Batch>, runs: seq<nat>, attempts: nat)
    requires RunsAllowed(batches, runs) && |runs| < |batches| && AttemptsAllowed(batches[|runs|], attempts)
    ensures RunsAllowed(batches, runs + [attempts])
  {
    var all := runs + [attempts];
    forall i | 0 <= i < |all| ensures AttemptsAllowed(batches[i], all[i]) {
      assert i < |runs| ==> all[i] == runs[i];
    }
  }

  lemma PrefixBehind(a: seq<Call>, b: seq<Call>, c: seq<Call>)
    requires IsPrefix(b, c)
    ensures IsPrefix(a + b, a + c) && IsPrefix(a, a + b)
  {
    assert (a + c)[..|a + b|] == a + c[..|b|];
    assert (a + b)[..|a|] == a;
  }

  /** The results from `start` on are, one by one, what the page answered last for the batch;
      `after` evaluations had been asked for by then. */
  ghost predicate BatchAnswered(answers: nat -> Answer, after: nat, b: Batch, results: seq<StepResult>, start: nat) {
    && start + |b.entries| <= |results| && after >= 1 && answers(after - 1).Answered?
    && |answers(after - 1).items| == |b.entries|
    && forall i | start <= i < start + |b.entries| :: results[i].item == answers(after - 1).items[i - start]
  }

  /** Each batch has the items of its own last answer. */
  ghost predicate AllAnswered(answers: nat -> Answer, base: nat, batches: seq<Batch>, runs: seq<nat>, results: seq<StepResult>)
    requires |runs| <= |batches|
  {
    runs == [] ||
    (&& AllAnswered(answers, base, batches, Front(runs), results)
     && BatchAnswered(answers, base + Sum(runs), batches[|runs| - 1], results, |Concat(Groups(batches)[..|runs| - 1])|))
  }

  lemma AnsweredOn(answers: nat -> Answer, base: nat, batches: seq<Batch>, runs: seq<nat>, results: seq<StepResult>, attempts: nat,
    after: seq<StepResult>)
    requires |runs| < |batches| && AllAnswered(answers, base, batches, runs, results) && IsPrefix(results, after)
    requires BatchAnswered(answers, base + Sum(runs) + attempts, batches[|runs|], after, |Concat(Groups(batches)[..|runs|])|)
    ensures AllAnswered(answers, base, batches, runs + [attempts], after)
  {
    assert Front(runs + [attempts]) == runs;
    AllAnsweredStays(answers, base, batches, runs, results, after);
  }

  lemma {:induction false} AllAnsweredStays(answers: nat -> Answer, base: nat, batches: seq<Batch>, runs: seq<nat>, results: seq<StepResult>,
    after: seq<StepResult>)
    requires |runs| <= |batches| && AllAnswered(answers, base, batches, runs, results) && IsPrefix(results, after)
    ensures AllAnswered(answers, base, batches, runs, after)
  {
    if runs != [] {
      AllAnsweredStays(answers, base, batches, Front(runs), results, after);
      AnsweredStays(answers, base + Sum(runs), batches[|runs| - 1], results, |Concat(Groups(batches)[..|runs| - 1])|, after);
    }
  }

  lemma AnsweredStays(answers: nat -> Answer, n: nat, b: Batch, results: seq<StepResult>, start: nat, after: seq<StepResult>)
    requires BatchAnswered(answers, n, b, results, start) && IsPrefix(results, after)
    ensures BatchAnswered(answers, n, b, after, start)
  {
    assert forall i | 0 <= i < |results| :: after[i] == results[i];
  }

  predicate CountsUp(indexes: seq<nat>) {
    forall i | 0 <= i < |indexes| :: indexes[i] == i
  }

  lemma CountsOn(steps: seq<PageStep>, b: Batch, completed: seq<nat>)
    requires CountsUp(completed) && LiesAt(steps, b, |completed|)
    ensures CountsUp(completed + Indexes(b.entries))
  {
    var all := completed + Indexes(b.entries);
    forall i | |completed| <= i < |all| ensures all[i] == i {
      assert EntryLiesAt(steps, b, |completed|, i - |completed|);
    }
  }

  /** An error of the application itself, once its batch was evaluated, reports all steps before the
      batch, or those of the batch too; any other error reports none. */
  predicate ReportsProgress(batches: seq<Batch>, runs: seq<nat>, e: SequenceError)
    requires e.Failed? && 0 < |runs| <= |batches|
  {
    if e.error.appError && Last(runs) > 0 then
      |Reported(e)| in {|Concat(Groups(batches)[..|runs| - 1])|, |Concat(Groups(batches)[..|runs|])|}
    else Reported(e) == []
  }

  /** What is known of the first batches: how often each was evaluated, and their results. */
  ghost predicate Ran(steps: seq<PageStep>, batches: seq<Batch>, answers: nat -> Answer, base: nat, runs: seq<nat>, results: seq<StepResult>) {
    && RunsAllowed(batches, runs) && (forall n | n in runs :: n >= 1)
    && InOrder(steps, results) && |results| == |Concat(Groups(batches)[..|runs|])|
    && AllAnswered(answers, base, batches, runs, results)
  }

  /** One batch more. */
  method RunOne(driver: Driver, steps: seq<PageStep>, batches: seq<Batch>, k: nat, deadline: int, results: seq<StepResult>,
    ghost base: nat, ghost runs: seq<nat>)
    returns (error: Option<SequenceError>, after: seq<StepResult>, attempts: nat, ghost calls: seq<Call>)
    requires k == |runs| < |batches| && Grouping(Entries(steps), Groups(batches)) && (forall b | b in batches :: FrameOf(b))
    requires Ran(steps, batches, driver.answers, base, runs, results) && driver.asked == base + Sum(runs)
    modifies driver`log, driver`now, driver`asked, driver`checked, driver`navigated
    ensures driver.log == old(driver.log) + calls && driver.asked == old(driver.asked) + attempts
    ensures RunsAllowed(batches, runs + [attempts]) && IsPrefix(calls, CallsFor(batches[k], k, attempts))
    ensures error.None? ==>
      && attempts >= 1 && calls == CallsFor(batches[k], k, attempts)
      && Ran(steps, batches, driver.answers, base, runs + [attempts], after)
      && (k + 1 == |batches| ==> |after| == |steps|)
    ensures error.Some? ==> CountsUp(Reported(error.value))
    ensures error.Some? && error.value.Failed? ==> ReportsProgress(batches, runs + [attempts], error.value)
    ensures error.Some? && error.value.NavigationTimeout? ==> driver.now >= deadline
  {
    BatchEntries(steps, batches, k);
    var completed := seq(|results|, i requires 0 <= i < |results| => results[i].index);
    var one;
    one, attempts, calls := RunBatch(driver, batches[k], k, deadline, completed);
    AppendAllowed(batches, runs, attempts);
    if one.Failure? {
      CountsOn(steps, batches[k], completed);
      ProgressOf(batches, runs, attempts, one.error, completed);
      return Some(one.error), results, attempts, calls;
    }
    after := CollectResults(batches[k], one.value, results, steps);
    RanOn(steps, batches, driver.answers, base, runs, results, attempts, one.value, after);
    error := None;
  }

  lemma RanOn(steps: seq<PageStep>, batches: seq<Batch>, answers: nat -> Answer, base: nat, runs: seq<nat>, results: seq<StepResult>,
    attempts: nat, items: seq<Str>, after: seq<StepResult>)
    requires |runs| < |batches| && Ran(steps, batches, answers, base, runs, results) && RunsAllowed(batches, runs + [attempts])
    requires attempts >= 1 && answers(base + Sum(runs) + attempts - 1) == Answered(items)
    requires |Concat(Groups(batches)[..|runs| + 1])| == |results| + |batches[|runs|].entries|
    requires InOrder(steps, after) && |after| == |results| + |items| && |items| == |batches[|runs|].entries|
    requires after[..|results|] == results && forall j | 0 <= j < |items| :: after[|results| + j].item == items[j]
    ensures Ran(steps, batches, answers, base, runs + [attempts], after)
  {
    AnsweredNow(answers, base + Sum(runs) + attempts, batches[|runs|], items, results, after);
    AnsweredOn(answers, base, batches, runs, results, attempts, after);
  }

  lemma ProgressOf(batches: seq<Batch>, runs: seq<nat>, attempts: nat, e: SequenceError, completed: seq<nat>)
    requires |runs| < |batches| && |completed| == |Concat(Groups(batches)[..|runs|])|
    requires |Concat(Groups(batches)[..|runs| + 1])| == |completed| + |batches[|runs|].entries|
    requires e.Failed? ==>
      if e.error.appError && attempts > 0 then Reported(e) in {completed, completed + Indexes(batches[|runs|].entries)}
      else Reported(e) == []
    ensures e.Failed? ==> ReportsProgress(batches, runs + [attempts], e)
  {
  }

  lemma AnsweredNow(answers: nat -> Answer, after: nat, b: Batch, items: seq<Str>, results: seq<StepResult>, all: seq<StepResult>)
    requires after >= 1 && answers(after - 1) == Answered(items) && |items| == |b.entries|
    requires |all| == |results| + |items| && forall j | 0 <= j < |items| :: all[|results| + j].item == items[j]
    ensures BatchAnswered(answers, after, b, all, |results|)
  {
    forall i | |results| <= i < |results| + |b.entries| ensures all[i].item == answers(after - 1).items[i - |results|] {
      assert all[|results| + (i - |results|)].item == items[i - |results|];
    }
  }

  /** Runs the batches one after another; an error reports the steps 0 to k as completed. */
  method RunBatches(driver: Driver, steps: seq<PageStep>, batches: seq<Batch>, deadline: int)
    returns (r: Result<seq<StepResult>, SequenceError>, retries: nat, ghost runs: seq<nat>, ghost calls: seq<Call>)
    requires Grouping(Entries(steps), Groups(batches)) && (forall b | b in batches :: FrameOf(b))
    modifies driver
    ensures RunsAllowed(batches, runs) && driver.log == old(driver.log) + calls && IsPrefix(calls, SequenceCalls(batches, runs))
    ensures r.Success? ==> |runs| == |batches| && calls == SequenceCalls(batches, runs) && |r.value| == |steps|
    ensures r.Success? ==> Ran(steps, batches, driver.answers, old(driver.asked), runs, r.value)
    ensures r.Success? ==> retries + |batches| == Sum(runs)
    ensures r.Failure? ==> CountsUp(Reported(r.error)) && runs != [] && IsPrefix(SequenceCalls(batches, Front(runs)), calls)
    ensures r.Failure? && r.error.Failed? ==> ReportsProgress(batches, runs, r.error)
    ensures r.Failure? && r.error.NavigationTimeout? ==> driver.now >= deadline
  {
    var results: seq<StepResult> := [];
    runs, retries, calls := [], 0, [];
    var k := 0;
    NoEmptyGroups(Entries(steps), Groups(batches));
    while k < |batches|
      invariant 0 <= k == |runs| <= |batches|
      invariant driver.log == old(driver.log) + calls && calls == SequenceCalls(batches, runs)
      invariant driver.asked == old(driver.asked) + Sum(runs)
      invariant Ran(steps, batches, driver.answers, old(driver.asked), runs, results)
      invariant k == |batches| ==> |results| == |steps|
      invariant retries + k == Sum(runs)
    {
      var error, attempts;
      ghost var asked, before := [], calls;
      error, results, attempts, asked := RunOne(driver, steps, batches, k, deadline, results, old(driver.asked), runs);
      AppendCalls(batches, runs, attempts);
      PrefixBehind(before, asked, CallsFor(batches[k], k, attempts));
      Regroup(old(driver.log), before, asked);
      assert Front(runs + [attempts]) == runs;
      runs, calls := runs + [attempts], before + asked;
      if error.Some? { return Failure(error.value), retries, runs, calls; }
      retries := retries + attempts - 1;
      k := k + 1;
    }
    r := Success(results);
  }

  /** Cuts the steps into batches and runs them. */
  method RunAll(driver: Driver, steps: seq<PageStep>, learnt: Likely, deadline: int)
    returns (r: Result<seq<StepResult>, SequenceError>, retries: nat, ghost batches: seq<Batch>, ghost runs: seq<nat>, ghost calls: seq<Call>)
    requires forall i | i in learnt.indexes :: i < |steps| && Isolated(steps[i])
    modifies driver
    ensures driver.log == old(driver.log) + calls && Built(steps, |steps|, batches, learnt) && RunsAllowed(batches, runs)
    ensures if runs == [] then calls == [] else IsPrefix(calls, SequenceCalls(batches, runs)) && IsPrefix(SequenceCalls(batches, Front(runs)), calls)
    ensures r.Success? ==> steps != [] && |runs| == |batches| > 0 && calls == SequenceCalls(batches, runs)
    ensures r.Success? ==> |r.value| == |steps| && retries + |batches| == Sum(runs)
    ensures r.Success? ==> Ran(steps, batches, driver.answers, old(driver.asked), runs, r.value)
    ensures r.Failure? ==> CountsUp(Reported(r.error)) && (runs == [] <==> steps == [])
    ensures r.Failure? && r.error.Failed? ==> runs != [] && ReportsProgress(batches, runs, r.error)
    ensures r.Failure? && r.error.NavigationTimeout? ==> driver.now >= deadline
  {
    var built := BuildBatches(steps, learnt);
    BuiltIsGrouping(steps, built, learnt);
    batches := built;
    r, retries, runs, calls := RunBatches(driver, steps, built, deadline);
    if r.Success? && built == [] {
      r := Failure(NothingRan);
    }
    if runs != [] { AllCalls(built, runs); }
  }

  /** No step runs before every isolated step passed its preflight; then the batches run in
      order, a batch that changes the page at most once; the results are those of steps 0 to
      n - 1, each with the item the page answered for it. */
  method FrameSequenceDirect(driver: Driver, steps: seq<PageStep>, timeoutMs: Option<int>)
    returns (r: Result<seq<StepResult>, SequenceError>, retries: nat, ghost preflighted: nat, ghost learnt: Likely,
      ghost batches: seq<Batch>, ghost runs: seq<nat>, ghost calls: seq<Call>)
    modifies driver
    ensures preflighted <= |steps|
    ensures driver.log == old(driver.log) + PreflightCalls(steps[..preflighted]) + calls
    ensures runs == [] ==> calls == []
    ensures runs != [] ==> preflighted == |steps| && Learnt(driver.preflights, old(driver.asked), steps, learnt)
    ensures runs != [] ==> Built(steps, |steps|, batches, learnt) && RunsAllowed(batches, runs)
    ensures runs != [] ==>
      IsPrefix(calls, SequenceCalls(batches, runs)) && IsPrefix(SequenceCalls(batches, Front(runs)), calls)
    ensures r.Success? ==> steps != [] && |runs| == |batches| > 0 && calls == SequenceCalls(batches, runs)
    ensures r.Success? ==> |r.value| == |steps| && retries + |batches| == Sum(runs)
    ensures r.Success? ==>
      Ran(steps, batches, driver.answers, old(driver.asked) + |PreflightCalls(steps)|, runs, r.value)
    ensures r.Failure? ==> CountsUp(Reported(r.error))
    ensures r.Failure? && r.error.Failed? ==>
      if runs == [] then Reported(r.error) == [] else ReportsProgress(batches, runs, r.error)
    ensures r.Failure? && r.error.NavigationTimeout? ==>
      driver.now >= old(driver.now) + match timeoutMs case None => 60000 case Some(ms) => if ms < 1 then 1 else ms
  {
    var wait := if timeoutMs.Some? then timeoutMs.value else 60000;
    var deadline := driver.now + (if wait < 1 then 1 else wait);
    retries, learnt, batches, runs, calls := 0, Likely({}, map[]), [], [], [];
    var likely: Result<Likely, SequenceError>;
    likely, preflighted := PreflightAll(driver, steps);
    if likely.Failure? { return Failure(likely.error), 0, preflighted, learnt, [], [], []; }
    learnt := likely.value;
    LikelyAreIsolated(driver.preflights, old(driver.asked), steps, learnt);
    assert steps[..preflighted] == steps;
    r, retries, batches, runs, calls := RunAll(driver, steps, likely.value, deadline);
  }

  lemma AllCalls(batches: seq<Batch>, runs: seq<nat>)
    requires runs != [] && |runs| <= |batches|
    ensures IsPrefix(SequenceCalls(batches, Front(runs)), SequenceCalls(batches, runs))
  {
  }

  lemma BuiltIsGrouping(steps: seq<PageStep>, batches: seq<Batch>, likely: Likely)
    requires Built(steps, |steps|, batches, likely)
    ensures Grouping(Entries(steps), Groups(batches)) && (forall b | b in batches :: FrameOf(b)) && (batches == [] <==> steps == [])
  {
    assert Entries(steps)[..|steps|] == Entries(steps);
    forall b | b in batches ensures FrameOf(b) { assert Described(b, likely); }
    NoEmptyGroups(Entries(steps), Groups(batches));
  }
}
