/** The per-key operation queue with bounded slots (browser-operation-queue.ts), as the
    event loop interleaves it: every stretch between two awaits is one step. */
module OperationQueue {
  import opened Text

  /** Where a call of `run` stands. Waiting: its turn is not there yet. Granted: the turn
      came, the slot test is next. Parked: in the waiter list. Resumed: taken off the list,
      the slot test is to be repeated. Rejected: aborted, the catch block is next. HasSlot:
      counted in `active`, the task is next. Released: its turn is resolved. */
  datatype Phase = Waiting | Granted | Parked | Resumed | Rejected | HasSlot | Running | Released

  /** `previous` is the run whose promise was the key's tail, if there was one. */
  datatype Run = Run(key: string, previous: Option<nat>, phase: Phase, signal: bool, aborted: bool)

  /** Runs are numbered in enqueue order. `cleanups` are the runs whose tail removal waits
      for their promise. */
  datatype State = State(
    maxConcurrency: nat,
    runs: seq<Run>,
    tails: map<string, nat>,
    slotWaiters: seq<nat>,
    active: int,
    queued: int,
    cleanups: set<nat>)

  datatype Event =
    | Enqueue(key: string, signal: bool, aborted: bool)
    | TurnComes(id: nat)
    | TestSlot(id: nat)
    | Abort(id: nat)
    | CatchBlock(id: nat)
    | Start(id: nat, expired: bool)
    | TaskSettles(id: nat)
    | Cleanup(id: nat)

  function Initial(maxConcurrency: nat): State {
    State(maxConcurrency, [], map[], [], 0, 0, {})
  }

  /** The promise the run waits for: its predecessor's turn was released and the
      predecessor's own wait was over. */
  predicate PreviousResolved(runs: seq<Run>, id: nat)
    requires id < |runs|
    decreases id
  {
    match runs[id].previous
    case None => true
    case Some(p) => p < id && runs[p].phase == Released && PreviousResolved(runs, p)
  }

  predicate CurrentResolved(runs: seq<Run>, id: nat)
    requires id < |runs|
  {
    runs[id].phase == Released && PreviousResolved(runs, id)
  }

  predicate Enabled(s: State, e: Event) {
    match e
    case Enqueue(_, signal, aborted) => aborted ==> signal
    case TurnComes(id) => id < |s.runs| && s.runs[id].phase == Waiting && PreviousResolved(s.runs, id)
    case TestSlot(id) => id < |s.runs| && (s.runs[id].phase == Granted || s.runs[id].phase == Resumed)
    case Abort(id) => id < |s.runs| && s.runs[id].signal && !s.runs[id].aborted
    case CatchBlock(id) => id < |s.runs| && s.runs[id].phase == Rejected
    case Start(id, _) => id < |s.runs| && s.runs[id].phase == HasSlot
    case TaskSettles(id) => id < |s.runs| && s.runs[id].phase == Running
    case Cleanup(id) => id in s.cleanups && id < |s.runs| && CurrentResolved(s.runs, id)
  }

  function SetPhase(runs: seq<Run>, id: nat, phase: Phase): (r: seq<Run>)
    requires id < |runs|
    ensures |r| == |runs| && r[id] == runs[id].(phase := phase)
    ensures forall i | 0 <= i < |runs| && i != id :: r[i] == runs[i]
  {
    runs[id := runs[id].(phase := phase)]
  }

  function Remove(waiters: seq<nat>, id: nat): seq<nat> {
    if waiters == [] then []
    else if waiters[0] == id then waiters[1..]
    else [waiters[0]] + Remove(waiters[1..], id)
  }

  /** Resolves the run's turn and arranges for its tail to go once its promise resolves. */
  function ReleaseTurn(s: State, id: nat): State
    requires id < |s.runs|
  {
    var key := s.runs[id].key;
    s.(runs := SetPhase(s.runs, id, Released),
       cleanups := if key in s.tails && s.tails[key] == id then s.cleanups + {id} else s.cleanups)
  }

  function ReleaseSlot(s: State): State {
    var s' := s.(active := if s.active - 1 > 0 then s.active - 1 else 0);
    if s.slotWaiters == [] then s'
    else
      var w := s.slotWaiters[0];
      s'.(slotWaiters := s.slotWaiters[1..],
          runs := if w < |s.runs| then SetPhase(s.runs, w, Resumed) else s.runs)
  }

  function Next(s: State, e: Event): State
    requires Enabled(s, e)
  {
    match e
    case Enqueue(key, signal, aborted) =>
      var previous := if key in s.tails then Some(s.tails[key]) else None;
      s.(runs := s.runs + [Run(key, previous, if aborted then Rejected else Waiting, signal, aborted)],
         tails := s.tails[key := |s.runs|], queued := s.queued + 1)
    case TurnComes(id) => s.(runs := SetPhase(s.runs, id, Granted))
    case TestSlot(id) =>
      if s.active < s.maxConcurrency then s.(active := s.active + 1, runs := SetPhase(s.runs, id, HasSlot))
      else if s.runs[id].aborted then s.(runs := SetPhase(s.runs, id, Rejected))
      else s.(runs := SetPhase(s.runs, id, Parked), slotWaiters := s.slotWaiters + [id])
    case Abort(id) =>
      var r := s.runs[id].(aborted := true);
      if r.phase == Waiting then s.(runs := s.runs[id := r.(phase := Rejected)])
      else if r.phase == Parked then
        s.(runs := s.runs[id := r.(phase := Rejected)], slotWaiters := Remove(s.slotWaiters, id))
      else s.(runs := s.runs[id := r])
    case CatchBlock(id) => ReleaseTurn(s.(queued := s.queued - 1), id)
    case Start(id, expired) =>
      var s' := s.(queued := s.queued - 1);
      if s.runs[id].aborted || expired then Settled(s', id) else s'.(runs := SetPhase(s.runs, id, Running))
    case TaskSettles(id) => Settled(s, id)
    case Cleanup(id) =>
      var key := s.runs[id].key;
      var s' := s.(cleanups := s.cleanups - {id});
      if key in s.tails && s.tails[key] == id then s'.(tails := s.tails - {key}) else s'
  }

  /** The finally block: the slot first, then the turn, then the tail. */
  function Settled(s: State, id: nat): State
    requires id < |s.runs|
  {
    ReleaseTurn(ReleaseSlot(s), id)
  }

  // ---------------------------------------------------------------- slots

  const HOLDING := {HasSlot, Running}
  const QUEUED := {Waiting, Granted, Parked, Resumed, Rejected, HasSlot}
  const RECHECKING := {Resumed}

  function Count(runs: seq<Run>, phases: set<Phase>): nat {
    if runs == [] then 0 else (if runs[0].phase in phases then 1 else 0) + Count(runs[1..], phases)
  }

  lemma {:induction false} CountUpdate(runs: seq<Run>, id: nat, r: Run, phases: set<Phase>)
    requires id < |runs|
    ensures Count(runs[id := r], phases)
         == Count(runs, phases) - (if runs[id].phase in phases then 1 else 0) + (if r.phase in phases then 1 else 0)
  {
    var u := runs[id := r];
    if id == 0 {
      assert u[1..] == runs[1..];
    } else {
      assert u[1..] == runs[1..][id - 1 := r];
      CountUpdate(runs[1..], id - 1, r, phases);
    }
  }

  lemma {:induction false} CountAppend(runs: seq<Run>, r: Run, phases: set<Phase>)
    ensures Count(runs + [r], phases) == Count(runs, phases) + (if r.phase in phases then 1 else 0)
  {
    if runs == [] {
      assert runs + [r] == [r];
      assert Count([r][1..], phases) == 0;
    } else {
      assert (runs + [r])[1..] == runs[1..] + [r];
      CountAppend(runs[1..], r, phases);
    }
  }

  lemma {:induction false} CountPositive(runs: seq<Run>, id: nat, phases: set<Phase>)
    requires id < |runs| && runs[id].phase in phases
    ensures Count(runs, phases) > 0
  {
    if id > 0 { CountPositive(runs[1..], id - 1, phases); }
  }

  lemma {:induction false} CountWitness(runs: seq<Run>, phases: set<Phase>) returns (id: nat)
    requires Count(runs, phases) > 0
    ensures id < |runs| && runs[id].phase in phases
  {
    if runs[0].phase in phases {
      id := 0;
    } else {
      id := CountWitness(runs[1..], phases);
      id := id + 1;
    }
  }

  /** The waiter list holds exactly the parked runs, each once. */
  ghost predicate WaitersOk(s: State) {
    && (forall i, j | 0 <= i < j < |s.slotWaiters| :: s.slotWaiters[i] != s.slotWaiters[j])
    && (forall w | w in s.slotWaiters :: w < |s.runs| && s.runs[w].phase == Parked)
    && (forall id | 0 <= id < |s.runs| && s.runs[id].phase == Parked :: id in s.slotWaiters)
  }

  /** `active` counts the slot holders and stays within the bound, `queued` counts the runs
      still queued, and whoever is parked has enough holders and re-testing runs ahead of it
      that a release is still to come. */
  ghost predicate SlotsOk(s: State) {
    && s.active == Count(s.runs, HOLDING) <= s.maxConcurrency
    && s.queued == Count(s.runs, QUEUED)
    && (s.slotWaiters != [] ==> s.active + Count(s.runs, RECHECKING) >= s.maxConcurrency)
    && WaitersOk(s)
  }

  lemma {:induction false} RemoveMembers(waiters: seq<nat>, id: nat)
    requires forall i, j | 0 <= i < j < |waiters| :: waiters[i] != waiters[j]
    ensures forall w :: w in Remove(waiters, id) <==> w in waiters && w != id
  {
    if waiters != [] {
      assert waiters == [waiters[0]] + waiters[1..];
      assert waiters[0] !in waiters[1..];
      RemoveMembers(waiters[1..], id);
    }
  }

  lemma {:induction false} RemoveKeeps(waiters: seq<nat>, id: nat)
    requires forall i, j | 0 <= i < j < |waiters| :: waiters[i] != waiters[j]
    ensures var r := Remove(waiters, id);
            && (forall i, j | 0 <= i < j < |r| :: r[i] != r[j])
            && (forall w | w in r :: w in waiters && w != id)
            && (forall w | w in waiters && w != id :: w in r)
  {
    RemoveMembers(waiters, id);
    if waiters != [] && waiters[0] != id {
      var head, tail := waiters[0], waiters[1..];
      RemoveKeeps(tail, id);
      RemoveMembers(tail, id);
      assert forall j | 0 <= j < |tail| :: tail[j] != head;
      HeadApart(head, Remove(tail, id));
    }
  }

  lemma HeadApart(head: nat, rest: seq<nat>)
    requires head !in rest && forall i, j | 0 <= i < j < |rest| :: rest[i] != rest[j]
    ensures var r := [head] + rest; forall i, j | 0 <= i < j < |r| :: r[i] != r[j]
  {
    var r := [head] + rest;
    assert forall j | 0 < j < |r| :: r[j] == rest[j - 1] && r[j] in rest;
  }

  function Bit(b: bool): nat {
    if b then 1 else 0
  }

  /** One run changes its phase and no counter but its own moves. */
  lemma PhaseCounts(runs: seq<Run>, id: nat, r: Run)
    requires id < |runs|
    ensures var before, after := runs[id].phase, r.phase;
            && Count(runs[id := r], HOLDING) == Count(runs, HOLDING) - Bit(before in HOLDING) + Bit(after in HOLDING)
            && Count(runs[id := r], QUEUED) == Count(runs, QUEUED) - Bit(before in QUEUED) + Bit(after in QUEUED)
            && Count(runs[id := r], RECHECKING) == Count(runs, RECHECKING) - Bit(before in RECHECKING) + Bit(after in RECHECKING)
  {
    CountUpdate(runs, id, r, HOLDING);
    CountUpdate(runs, id, r, QUEUED);
    CountUpdate(runs, id, r, RECHECKING);
  }

  /** Waking the first waiter takes it off the list and leaves the others parked. */
  lemma WakeKeepsWaiters(s: State, id: nat)
    requires WaitersOk(s) && id < |s.runs| && s.runs[id].phase in HOLDING
    ensures WaitersOk(Settled(s, id))
  {
    var s' := Settled(s, id);
    if s.slotWaiters != [] {
      var w := s.slotWaiters[0];
      assert s.slotWaiters == [w] + s.slotWaiters[1..];
      assert w in s.slotWaiters && w != id;
      assert s'.slotWaiters == s.slotWaiters[1..];
      assert forall j | 0 <= j < |s'.slotWaiters| :: s'.slotWaiters[j] == s.slotWaiters[j + 1];
      forall v | v in s'.slotWaiters ensures v < |s'.runs| && s'.runs[v].phase == Parked {
        assert v in s.slotWaiters && v != w;
      }
      forall k | 0 <= k < |s'.runs| && s'.runs[k].phase == Parked ensures k in s'.slotWaiters {
        assert k != w && k in s.slotWaiters;
      }
    }
  }

  /** Releasing a slot held by `id`: the clamp at zero does not bite, and the wakeup goes
      to the first waiter. */
  lemma SettleKeepsSlots(s: State, id: nat)
    requires WaitersOk(s) && id < |s.runs| && s.runs[id].phase in HOLDING
    requires s.active == Count(s.runs, HOLDING) <= s.maxConcurrency
    requires s.queued == Count(s.runs, QUEUED) - Bit(s.runs[id].phase == HasSlot)
    requires s.slotWaiters != [] ==> s.active + Count(s.runs, RECHECKING) >= s.maxConcurrency
    ensures SlotsOk(Settled(s, id))
    ensures Settled(s, id).active == s.active - 1
  {
    CountPositive(s.runs, id, HOLDING);
    WakeKeepsWaiters(s, id);
    var s' := Settled(s, id);
    if s.slotWaiters == [] {
      PhaseCounts(s.runs, id, s.runs[id].(phase := Released));
    } else {
      var w := s.slotWaiters[0];
      assert w in s.slotWaiters && w != id;
      var runs := SetPhase(s.runs, w, Resumed);
      PhaseCounts(s.runs, w, s.runs[w].(phase := Resumed));
      PhaseCounts(runs, id, runs[id].(phase := Released));
      assert s'.runs == SetPhase(runs, id, Released);
    }
  }

  lemma TestSlotKeepsSlots(s: State, id: nat)
    requires SlotsOk(s) && Enabled(s, TestSlot(id))
    ensures SlotsOk(Next(s, TestSlot(id)))
  {
    if s.active < s.maxConcurrency {
      PhaseCounts(s.runs, id, s.runs[id].(phase := HasSlot));
    } else if s.runs[id].aborted {
      PhaseCounts(s.runs, id, s.runs[id].(phase := Rejected));
    } else {
      PhaseCounts(s.runs, id, s.runs[id].(phase := Parked));
    }
  }

  lemma AbortKeepsSlots(s: State, id: nat)
    requires SlotsOk(s) && Enabled(s, Abort(id))
    ensures SlotsOk(Next(s, Abort(id)))
  {
    var r := s.runs[id].(aborted := true);
    PhaseCounts(s.runs, id, r);
    PhaseCounts(s.runs, id, r.(phase := Rejected));
    RemoveKeeps(s.slotWaiters, id);
  }

  lemma EnqueueKeepsSlots(s: State, key: string, signal: bool, aborted: bool)
    requires SlotsOk(s) && Enabled(s, Enqueue(key, signal, aborted))
    ensures SlotsOk(Next(s, Enqueue(key, signal, aborted)))
  {
    var s' := Next(s, Enqueue(key, signal, aborted));
    var r := s'.runs[|s.runs|];
    CountAppend(s.runs, r, HOLDING);
    CountAppend(s.runs, r, QUEUED);
    CountAppend(s.runs, r, RECHECKING);
  }

  lemma StartKeepsSlots(s: State, id: nat, expired: bool)
    requires SlotsOk(s) && Enabled(s, Start(id, expired))
    ensures SlotsOk(Next(s, Start(id, expired)))
  {
    PhaseCounts(s.runs, id, s.runs[id].(phase := Running));
    if s.runs[id].aborted || expired {
      SettleKeepsSlots(s.(queued := s.queued - 1), id);
    }
  }

  lemma StepKeepsSlots(s: State, e: Event)
    requires SlotsOk(s) && Enabled(s, e)
    ensures SlotsOk(Next(s, e))
  {
    match e
    case Enqueue(key, signal, aborted) => EnqueueKeepsSlots(s, key, signal, aborted);
    case TurnComes(id) => PhaseCounts(s.runs, id, s.runs[id].(phase := Granted));
    case TestSlot(id) => TestSlotKeepsSlots(s, id);
    case Abort(id) => AbortKeepsSlots(s, id);
    case CatchBlock(id) => PhaseCounts(s.runs, id, s.runs[id].(phase := Released));
    case Start(id, expired) => StartKeepsSlots(s, id, expired);
    case TaskSettles(id) => SettleKeepsSlots(s, id);
    case Cleanup(_) =>
  }

  // ---------------------------------------------------------------- turns

  predicate InTurn(p: Phase) {
    p == Granted || p == Parked || p == Resumed || p == HasSlot || p == Running
  }

  /** Each run waits for the nearest earlier run of its key; it waits for nothing only if
      all of those had been released. */
  ghost predicate Linked(runs: seq<Run>) {
    forall i | 0 <= i < |runs| ::
      match runs[i].previous
      case Some(p) => p < i && runs[p].key == runs[i].key && forall j | p < j < i :: runs[j].key != runs[i].key
      case None => forall j | 0 <= j < i && runs[j].key == runs[i].key :: runs[j].phase == Released
  }

  ghost predicate TailsOk(s: State) {
    && (forall key | key in s.tails ::
          && s.tails[key] < |s.runs| && s.runs[s.tails[key]].key == key
          && (forall j | s.tails[key] < j < |s.runs| :: s.runs[j].key != key)
          && (s.runs[s.tails[key]].phase == Released ==> s.tails[key] in s.cleanups))
    && (forall i | 0 <= i < |s.runs| && s.runs[i].key !in s.tails :: s.runs[i].phase == Released)
  }

  ghost predicate TurnsOk(s: State) {
    && Linked(s.runs)
    && (forall i | 0 <= i < |s.runs| && InTurn(s.runs[i].phase) :: PreviousResolved(s.runs, i))
    && TailsOk(s)
  }

  ghost predicate Inv(s: State) {
    SlotsOk(s) && TurnsOk(s)
  }

  /** When a run's wait is over, every earlier run of its key has been released. */
  lemma {:induction false} EarlierReleased(runs: seq<Run>, id: nat)
    requires Linked(runs) && id < |runs| && PreviousResolved(runs, id)
    ensures forall j | 0 <= j < id && runs[j].key == runs[id].key :: runs[j].phase == Released
    decreases id
  {
    match runs[id].previous
    case None =>
    case Some(p) => EarlierReleased(runs, p);
  }

  /** Phases move on, keys and links stay, and a released turn stays released. */
  ghost predicate MovesOn(runs: seq<Run>, later: seq<Run>) {
    && |runs| <= |later|
    && forall i | 0 <= i < |runs| ::
         && later[i].key == runs[i].key && later[i].previous == runs[i].previous
         && (runs[i].phase == Released ==> later[i].phase == Released)
  }

  lemma {:induction false} ResolvedStays(runs: seq<Run>, later: seq<Run>, id: nat)
    requires MovesOn(runs, later) && id < |runs| && PreviousResolved(runs, id)
    ensures PreviousResolved(later, id)
    decreases id
  {
    match runs[id].previous
    case None =>
    case Some(p) => ResolvedStays(runs, later, p);
  }

  /** Turn order survives any step that only moves phases on. */
  lemma PhasesKeepTurns(s: State, s': State)
    requires TurnsOk(s) && MovesOn(s.runs, s'.runs) && |s'.runs| == |s.runs|
    requires s'.tails == s.tails && s.cleanups <= s'.cleanups
    requires forall i | 0 <= i < |s.runs| && InTurn(s'.runs[i].phase) :: PreviousResolved(s.runs, i)
    requires forall i | 0 <= i < |s.runs| && s'.runs[i].phase == Released && s.runs[i].phase != Released ::
               s.runs[i].key in s.tails && s.tails[s.runs[i].key] == i ==> i in s'.cleanups
    ensures TurnsOk(s')
  {
    forall i | 0 <= i < |s.runs| && InTurn(s'.runs[i].phase) ensures PreviousResolved(s'.runs, i) {
      ResolvedStays(s.runs, s'.runs, i);
    }
  }

  lemma EnqueueKeepsTurns(s: State, key: string, signal: bool, aborted: bool)
    requires TurnsOk(s) && Enabled(s, Enqueue(key, signal, aborted))
    ensures TurnsOk(Next(s, Enqueue(key, signal, aborted)))
  {
    var s' := Next(s, Enqueue(key, signal, aborted));
    forall i | 0 <= i < |s'.runs| && InTurn(s'.runs[i].phase) ensures PreviousResolved(s'.runs, i) {
      ResolvedStays(s.runs, s'.runs, i);
    }
  }

  lemma CleanupKeepsTurns(s: State, id: nat)
    requires TurnsOk(s) && Enabled(s, Cleanup(id))
    ensures TurnsOk(Next(s, Cleanup(id)))
  {
    EarlierReleased(s.runs, id);
    CleanupKeepsTails(s, id);
  }

  lemma CleanupKeepsTails(s: State, id: nat)
    requires TailsOk(s) && Enabled(s, Cleanup(id))
    requires forall j | 0 <= j < id && s.runs[j].key == s.runs[id].key :: s.runs[j].phase == Released
    ensures TailsOk(Next(s, Cleanup(id)))
  {
    var s' := Next(s, Cleanup(id));
    forall i | 0 <= i < |s'.runs| && s'.runs[i].key !in s'.tails ensures s'.runs[i].phase == Released {
      if s.runs[i].key in s.tails {
        assert s.tails[s.runs[id].key] == id && s.runs[i].key == s.runs[id].key;
      }
    }
  }

  /** What the finally block does to the runs: its own is released, the first waiter is
      resumed, nothing else moves. */
  lemma SettledRuns(s: State, id: nat)
    requires WaitersOk(s) && id < |s.runs| && s.runs[id].phase != Parked
    ensures var s' := Settled(s, id);
            && |s'.runs| == |s.runs| && s'.tails == s.tails && s.cleanups <= s'.cleanups
            && s'.runs[id] == s.runs[id].(phase := Released)
            && (s.runs[id].key in s.tails && s.tails[s.runs[id].key] == id ==> id in s'.cleanups)
            && forall i | 0 <= i < |s.runs| && i != id ::
                 s'.runs[i] == s.runs[i] || (s.runs[i].phase == Parked && s'.runs[i] == s.runs[i].(phase := Resumed))
  {
    if s.slotWaiters != [] {
      var w := s.slotWaiters[0];
      assert w in s.slotWaiters;
      assert w < |s.runs| && s.runs[w].phase == Parked;
    }
  }

  lemma SettleKeepsTurns(s: State, s0: State, id: nat)
    requires TurnsOk(s) && WaitersOk(s) && id < |s.runs| && InTurn(s.runs[id].phase) && s.runs[id].phase != Parked
    requires s0 == s || s0 == s.(queued := s.queued - 1)
    ensures TurnsOk(Settled(s0, id)) && MovesOn(s.runs, Settled(s0, id).runs)
  {
    SettledRuns(s0, id);
    var s' := Settled(s0, id);
    SettledMovesOn(s, s', id);
    PhasesKeepTurns(s, s');
  }

  lemma SettledMovesOn(s: State, s': State, id: nat)
    requires id < |s.runs| && |s'.runs| == |s.runs| && s'.runs[id] == s.runs[id].(phase := Released)
    requires forall i | 0 <= i < |s.runs| && i != id ::
               s'.runs[i] == s.runs[i] || (s.runs[i].phase == Parked && s'.runs[i] == s.runs[i].(phase := Resumed))
    ensures MovesOn(s.runs, s'.runs)
  {
  }

  lemma TestSlotKeepsTurns(s: State, id: nat)
    requires TurnsOk(s) && Enabled(s, TestSlot(id))
    ensures TurnsOk(Next(s, TestSlot(id))) && MovesOn(s.runs, Next(s, TestSlot(id)).runs)
  {
    PhasesKeepTurns(s, Next(s, TestSlot(id)));
  }

  lemma AbortKeepsTurns(s: State, id: nat)
    requires TurnsOk(s) && Enabled(s, Abort(id))
    ensures TurnsOk(Next(s, Abort(id))) && MovesOn(s.runs, Next(s, Abort(id)).runs)
  {
    PhasesKeepTurns(s, Next(s, Abort(id)));
  }

  lemma CatchKeepsTurns(s: State, id: nat)
    requires TurnsOk(s) && Enabled(s, CatchBlock(id))
    ensures TurnsOk(Next(s, CatchBlock(id))) && MovesOn(s.runs, Next(s, CatchBlock(id)).runs)
  {
    PhasesKeepTurns(s, Next(s, CatchBlock(id)));
  }

  lemma GrantKeepsTurns(s: State, id: nat)
    requires TurnsOk(s) && Enabled(s, TurnComes(id))
    ensures TurnsOk(Next(s, TurnComes(id))) && MovesOn(s.runs, Next(s, TurnComes(id)).runs)
  {
    PhasesKeepTurns(s, Next(s, TurnComes(id)));
  }

  lemma CallKeepsTurns(s: State, id: nat)
    requires TurnsOk(s) && id < |s.runs| && s.runs[id].phase == HasSlot
    ensures var s' := s.(queued := s.queued - 1, runs := SetPhase(s.runs, id, Running));
            TurnsOk(s') && MovesOn(s.runs, s'.runs)
  {
    PhasesKeepTurns(s, s.(queued := s.queued - 1, runs := SetPhase(s.runs, id, Running)));
  }

  lemma StartKeepsTurns(s: State, id: nat, expired: bool)
    requires TurnsOk(s) && WaitersOk(s) && Enabled(s, Start(id, expired))
    ensures TurnsOk(Next(s, Start(id, expired))) && MovesOn(s.runs, Next(s, Start(id, expired)).runs)
  {
    var s0 := s.(queued := s.queued - 1);
    if s.runs[id].aborted || expired {
      SettleKeepsTurns(s, s0, id);
      assert Next(s, Start(id, expired)) == Settled(s0, id);
    } else {
      CallKeepsTurns(s, id);
      assert Next(s, Start(id, expired)) == s.(queued := s.queued - 1, runs := SetPhase(s.runs, id, Running));
    }
  }

  lemma StepKeepsTurns(s: State, e: Event)
    requires SlotsOk(s) && TurnsOk(s) && Enabled(s, e)
    ensures TurnsOk(Next(s, e))
    ensures MovesOn(s.runs, Next(s, e).runs)
  {
    match e
    case Enqueue(key, signal, aborted) => EnqueueKeepsTurns(s, key, signal, aborted);
    case TurnComes(id) => GrantKeepsTurns(s, id);
    case TestSlot(id) => TestSlotKeepsTurns(s, id);
    case Abort(id) => AbortKeepsTurns(s, id);
    case CatchBlock(id) => CatchKeepsTurns(s, id);
    case Start(id, expired) => StartKeepsTurns(s, id, expired);
    case TaskSettles(id) => SettleKeepsTurns(s, s, id);
    case Cleanup(id) => CleanupKeepsTurns(s, id);
  }

  lemma StepKeepsInv(s: State, e: Event)
    requires Inv(s) && Enabled(s, e)
    ensures Inv(Next(s, e)) && MovesOn(s.runs, Next(s, e).runs)
  {
    StepKeepsSlots(s, e);
    StepKeepsTurns(s, e);
  }

  // ---------------------------------------------------------------- runs

  /** Every event is possible when its time comes. */
  predicate Legal(from: State, events: seq<Event>)
    decreases |events|
  {
    events == [] || (Enabled(from, events[0]) && Legal(Next(from, events[0]), events[1..]))
  }

  function After(from: State, events: seq<Event>): State
    requires Legal(from, events)
    decreases |events|
  {
    if events == [] then from else After(Next(from, events[0]), events[1..])
  }

  lemma {:induction false} KeepsInv(from: State, events: seq<Event>)
    requires Inv(from) && Legal(from, events)
    ensures Inv(After(from, events)) && After(from, events).maxConcurrency == from.maxConcurrency
    ensures MovesOn(from.runs, After(from, events).runs)
    decreases |events|
  {
    if events != [] {
      StepKeepsInv(from, events[0]);
      KeepsInv(Next(from, events[0]), events[1..]);
    }
  }

  /** Every interleaving of enqueues, turns, aborts, timeouts and releases keeps the slot and
      the turn invariants. */
  lemma Reachable(maxConcurrency: nat, events: seq<Event>)
    requires Legal(Initial(maxConcurrency), events)
    ensures Inv(After(Initial(maxConcurrency), events))
    ensures After(Initial(maxConcurrency), events).active <= maxConcurrency
  {
    KeepsInv(Initial(maxConcurrency), events);
  }

  /** Two runs of one key are never past their turns together: while a later one is, the
      earlier one is done for good. */
  lemma OneTurnPerKey(s: State, i: nat, j: nat)
    requires Inv(s) && i < j < |s.runs| && s.runs[i].key == s.runs[j].key && InTurn(s.runs[j].phase)
    ensures s.runs[i].phase == Released
  {
    EarlierReleased(s.runs, j);
  }

  /** A key without a tail has no unreleased run, so its next run may go at once. */
  lemma AbsentKeyIsIdle(s: State, id: nat)
    requires Inv(s) && id < |s.runs| && s.runs[id].key !in s.tails
    ensures s.runs[id].phase == Released && CurrentResolved(s.runs, id)
  {
    IdleResolved(s, id);
  }

  lemma {:induction false} IdleResolved(s: State, id: nat)
    requires Inv(s) && id < |s.runs| && s.runs[id].key !in s.tails
    ensures PreviousResolved(s.runs, id)
    decreases id
  {
    match s.runs[id].previous
    case None =>
    case Some(p) => IdleResolved(s, p);
  }

  /** Whether the event calls a task. */
  predicate Calls(s: State, e: Event)
    requires Enabled(s, e)
  {
    e.Start? && !s.runs[e.id].aborted && !e.expired
  }

  /** The runs whose task is called, in the order the calls happen. */
  function Started(from: State, events: seq<Event>): seq<nat>
    requires Legal(from, events)
    decreases |events|
  {
    if events == [] then []
    else (if Calls(from, events[0]) then [events[0].id] else []) + Started(Next(from, events[0]), events[1..])
  }

  /** Running leads only to Released, which leads nowhere. */
  lemma StartedOnce(s: State, e: Event, id: nat)
    requires Inv(s) && Enabled(s, e) && id < |s.runs|
    ensures id < |Next(s, e).runs|
    ensures var next := Next(s, e).runs[id].phase;
            && (s.runs[id].phase == Released ==> next == Released)
            && (s.runs[id].phase == Running ==> next == Running || next == Released)
  {
    match e
    case Start(i, expired) => StartMoves(s, i, expired, id);
    case TaskSettles(i) => SettledRuns(s, i);
    case Enqueue(_, _, _) =>
    case TurnComes(_) =>
    case TestSlot(_) =>
    case Abort(_) =>
    case CatchBlock(_) =>
    case Cleanup(_) =>
  }

  lemma StartMoves(s: State, i: nat, expired: bool, id: nat)
    requires Inv(s) && Enabled(s, Start(i, expired)) && id < |s.runs|
    ensures id < |Next(s, Start(i, expired)).runs|
    ensures var next := Next(s, Start(i, expired)).runs[id].phase;
            && (s.runs[id].phase == Released ==> next == Released)
            && (s.runs[id].phase == Running ==> next == Running || next == Released)
  {
    SettledRuns(s.(queued := s.queued - 1), i);
  }

  lemma CallRuns(s: State, e: Event)
    requires Enabled(s, e) && Calls(s, e)
    ensures s.runs[e.id].phase == HasSlot
    ensures |Next(s, e).runs| == |s.runs| && Next(s, e).runs[e.id] == s.runs[e.id].(phase := Running)
  {
  }

  lemma {:induction false} StartsLieAhead(from: State, events: seq<Event>, id: nat)
    requires Inv(from) && Legal(from, events) && id in Started(from, events)
    ensures id < |After(from, events).runs|
    ensures id < |from.runs| ==> from.runs[id].phase != Running && from.runs[id].phase != Released
    decreases |events|
  {
    var e := events[0];
    var next := Next(from, e);
    StepKeepsInv(from, e);
    KeepsInv(next, events[1..]);
    if id in Started(next, events[1..]) {
      StartsLieAhead(next, events[1..], id);
      if id < |from.runs| { StartedOnce(from, e, id); }
    } else {
      assert Calls(from, e) && id == e.id;
      CallRuns(from, e);
    }
  }

  /** A call and any later call for the same key. */
  lemma FirstStartIsEarliest(from: State, events: seq<Event>, id: nat)
    requires Inv(from) && Legal(from, events) && events != [] && Calls(from, events[0])
    requires id in Started(Next(from, events[0]), events[1..])
    ensures var first, runs := events[0].id, After(from, events).runs;
            first < |runs| && id < |runs| && (runs[first].key == runs[id].key ==> first < id)
  {
    var e := events[0];
    var next := Next(from, e);
    CallRuns(from, e);
    StepKeepsInv(from, e);
    StartsLieAhead(next, events[1..], id);
    KeepsInv(next, events[1..]);
    if id <= e.id && next.runs[id].key == next.runs[e.id].key {
      if id < e.id { OneTurnPerKey(next, id, e.id); }
    }
  }

  predicate InOrder(runs: seq<Run>, i: nat, j: nat) {
    i < |runs| && j < |runs| && (runs[i].key == runs[j].key ==> i < j)
  }

  /** Each call comes before every later one of its key, in enqueue order. */
  ghost predicate OrderedLog(runs: seq<Run>, log: seq<nat>) {
    log == [] || ((forall id | id in log[1..] :: InOrder(runs, log[0], id)) && OrderedLog(runs, log[1..]))
  }

  lemma {:induction false} StartsAreOrdered(from: State, events: seq<Event>)
    requires Inv(from) && Legal(from, events)
    ensures OrderedLog(After(from, events).runs, Started(from, events))
    decreases |events|
  {
    if events != [] {
      var e := events[0];
      var next := Next(from, e);
      var rest := Started(next, events[1..]);
      StepKeepsInv(from, e);
      StartsAreOrdered(next, events[1..]);
      if Calls(from, e) {
        var log := [e.id] + rest;
        assert log[1..] == rest;
        forall id | id in rest ensures InOrder(After(from, events).runs, e.id, id) {
          FirstStartIsEarliest(from, events, id);
        }
      } else {
        assert [] + rest == rest;
      }
    }
  }

  lemma {:induction false} OrderedAt(runs: seq<Run>, log: seq<nat>, a: nat, b: nat)
    requires OrderedLog(runs, log) && a < b < |log|
    ensures InOrder(runs, log[a], log[b])
  {
    if a == 0 {
      assert log[b] == log[1..][b - 1];
    } else {
      OrderedAt(runs, log[1..], a - 1, b - 1);
    }
  }

  /** Tasks of one key are called in enqueue order, and none twice, in every interleaving:
      aborted and timed-out runs drop out without letting a later one overtake. */
  lemma StartsInEnqueueOrder(maxConcurrency: nat, events: seq<Event>, a: nat, b: nat)
    requires Legal(Initial(maxConcurrency), events) && a < b < |Started(Initial(maxConcurrency), events)|
    ensures var log, runs := Started(Initial(maxConcurrency), events), After(Initial(maxConcurrency), events).runs;
            && log[a] < |runs| && log[b] < |runs|
            && (runs[log[a]].key == runs[log[b]].key ==> log[a] < log[b])
  {
    StartsAreOrdered(Initial(maxConcurrency), events);
    OrderedAt(After(Initial(maxConcurrency), events).runs, Started(Initial(maxConcurrency), events), a, b);
  }

  // ---------------------------------------------------------------- wakeups and progress

  /** No wakeup is lost: when nobody is about to test again for a slot, a parked run means
      that every slot is held. */
  lemma ParkedMeansFull(s: State, id: nat)
    requires Inv(s) && id < |s.runs| && s.runs[id].phase == Parked
    requires forall i | 0 <= i < |s.runs| :: s.runs[i].phase != Resumed
    ensures s.active == s.maxConcurrency == Count(s.runs, HOLDING)
  {
    if Count(s.runs, RECHECKING) > 0 {
      var w := CountWitness(s.runs, RECHECKING);
    }
  }

  /** The queue never gets stuck: while some run is not released, one of the steps that
      need no abort and no new call can happen. */
  lemma Progress(s: State, id: nat) returns (e: Event)
    requires Inv(s) && s.maxConcurrency > 0 && id < |s.runs| && s.runs[id].phase != Released
    ensures Enabled(s, e) && !e.Enqueue? && !e.Abort? && !e.Cleanup?
  {
    var i := FirstUnreleased(s, id);
    match s.runs[i].phase
    case Waiting => e := TurnComes(i);
    case Granted => e := TestSlot(i);
    case Resumed => e := TestSlot(i);
    case Rejected => e := CatchBlock(i);
    case HasSlot => e := Start(i, false);
    case Running => e := TaskSettles(i);
    case Parked =>
      assert i in s.slotWaiters;
      e := SomebodyAhead(s);
  }

  /** A parked run has a slot holder or a re-testing run ahead of it. */
  lemma SomebodyAhead(s: State) returns (e: Event)
    requires SlotsOk(s) && s.maxConcurrency > 0 && s.slotWaiters != []
    ensures Enabled(s, e) && !e.Enqueue? && !e.Abort? && !e.Cleanup?
  {
    if Count(s.runs, RECHECKING) > 0 {
      var w := CountWitness(s.runs, RECHECKING);
      e := TestSlot(w);
    } else {
      var w := CountWitness(s.runs, HOLDING);
      e := if s.runs[w].phase == HasSlot then Start(w, false) else TaskSettles(w);
    }
  }

  lemma {:induction false} FirstUnreleased(s: State, id: nat) returns (i: nat)
    requires Inv(s) && id < |s.runs| && s.runs[id].phase != Released
    ensures i < |s.runs| && s.runs[i].phase != Released && PreviousResolved(s.runs, i)
    decreases id
  {
    if PreviousResolved(s.runs, id) {
      i := id;
    } else {
      i := UnreleasedBehind(s, id);
    }
  }

  lemma {:induction false} UnreleasedBehind(s: State, id: nat) returns (i: nat)
    requires Inv(s) && id < |s.runs| && !PreviousResolved(s.runs, id)
    ensures i < id && s.runs[i].phase != Released && PreviousResolved(s.runs, i)
    decreases id
  {
    var p := s.runs[id].previous.value;
    if PreviousResolved(s.runs, p) {
      i := p;
    } else {
      i := UnreleasedBehind(s, p);
    }
  }

  /** Once every run is released and the tail removals have happened, nothing is left
      behind: no tail, no waiter, no slot taken, nothing counted as queued. */
  lemma Drained(s: State)
    requires Inv(s) && forall i | 0 <= i < |s.runs| :: s.runs[i].phase == Released
    requires forall i | i in s.cleanups :: !Enabled(s, Cleanup(i))
    ensures s.tails == map[] && s.slotWaiters == [] && s.active == 0 && s.queued == 0
  {
    if s.tails != map[] {
      var key :| key in s.tails;
      AllResolved(s, s.tails[key]);
      assert Enabled(s, Cleanup(s.tails[key]));
    }
    HeadIsIn(s.slotWaiters);
    if s.active > 0 { var w := CountWitness(s.runs, HOLDING); }
    if s.queued > 0 { var w := CountWitness(s.runs, QUEUED); }
  }

  // ---------------------------------------------------------------- every run ends

  /** What is left to do for a run: more than any chain of its own steps takes, with one to
      spare for the waiter it wakes and one for its cleanup. */
  function Left(r: Run): nat {
    var phase := match r.phase
                 case Waiting => 6
                 case Granted => 5
                 case Resumed => 5
                 case Parked => 4
                 case HasSlot => 4
                 case Running => 3
                 case Rejected => 2
                 case Released => 0;
    phase + if r.signal && !r.aborted then 1 else 0
  }

  function AllLeft(runs: seq<Run>): nat {
    if runs == [] then 0 else Left(runs[0]) + AllLeft(runs[1..])
  }

  function Measure(s: State): nat {
    AllLeft(s.runs) + |s.cleanups|
  }

  lemma {:induction false} LeftUpdate(runs: seq<Run>, id: nat, r: Run)
    requires id < |runs|
    ensures AllLeft(runs[id := r]) + Left(runs[id]) == AllLeft(runs) + Left(r)
  {
    var u := runs[id := r];
    if id == 0 {
      assert u[1..] == runs[1..];
    } else {
      LeftUpdate(runs[1..], id - 1, r);
      assert u[1..] == runs[1..][id - 1 := r];
    }
  }

  lemma {:induction false} LeftAppend(runs: seq<Run>, r: Run)
    ensures AllLeft(runs + [r]) == AllLeft(runs) + Left(r)
  {
    if runs == [] {
      assert runs + [r] == [r];
    } else {
      assert (runs + [r])[1..] == runs[1..] + [r];
      LeftAppend(runs[1..], r);
    }
  }

  lemma ReleaseTurnLeaves(s: State, id: nat)
    requires id < |s.runs| && Left(s.runs[id]) >= Left(s.runs[id].(phase := Released))
    ensures Measure(ReleaseTurn(s, id)) + Left(s.runs[id]) <= Measure(s) + Left(s.runs[id].(phase := Released)) + 1
  {
    LeftUpdate(s.runs, id, s.runs[id].(phase := Released));
  }

  lemma ReleaseSlotLeaves(s: State, id: nat)
    requires WaitersOk(s) && id < |s.runs| && s.runs[id].phase in HOLDING
    ensures Measure(ReleaseSlot(s)) <= Measure(s) + 1
    ensures ReleaseSlot(s).runs[id] == s.runs[id] && |ReleaseSlot(s).runs| == |s.runs|
  {
    if s.slotWaiters != [] {
      var w := s.slotWaiters[0];
      assert w in s.slotWaiters;
      LeftUpdate(s.runs, w, s.runs[w].(phase := Resumed));
    }
  }

  lemma SettledLeaves(s: State, id: nat)
    requires WaitersOk(s) && id < |s.runs| && s.runs[id].phase in HOLDING
    ensures Measure(Settled(s, id)) < Measure(s)
  {
    ReleaseSlotLeaves(s, id);
    ReleaseTurnLeaves(ReleaseSlot(s), id);
  }

  lemma StartLeaves(s: State, id: nat, expired: bool)
    requires WaitersOk(s) && Enabled(s, Start(id, expired))
    ensures Measure(Next(s, Start(id, expired))) < Measure(s)
  {
    SettledLeaves(s.(queued := s.queued - 1), id);
    LeftUpdate(s.runs, id, s.runs[id].(phase := Running));
  }

  lemma TestSlotLeaves(s: State, id: nat)
    requires Enabled(s, TestSlot(id))
    ensures Measure(Next(s, TestSlot(id))) < Measure(s)
  {
    LeftUpdate(s.runs, id, s.runs[id].(phase := HasSlot));
    LeftUpdate(s.runs, id, s.runs[id].(phase := Rejected));
    LeftUpdate(s.runs, id, s.runs[id].(phase := Parked));
  }

  lemma AbortLeaves(s: State, id: nat)
    requires Enabled(s, Abort(id))
    ensures Measure(Next(s, Abort(id))) < Measure(s)
  {
    LeftUpdate(s.runs, id, s.runs[id].(aborted := true));
    LeftUpdate(s.runs, id, s.runs[id].(aborted := true, phase := Rejected));
  }

  /** Every step but a new call leaves less to do, and a new call brings at most seven. */
  lemma StepLeavesLess(s: State, e: Event)
    requires Inv(s) && Enabled(s, e)
    ensures if e.Enqueue? then Measure(Next(s, e)) <= Measure(s) + 7 else Measure(Next(s, e)) < Measure(s)
  {
    match e
    case Enqueue(key, signal, aborted) => LeftAppend(s.runs, Next(s, e).runs[|s.runs|]);
    case TurnComes(id) => LeftUpdate(s.runs, id, s.runs[id].(phase := Granted));
    case TestSlot(id) => TestSlotLeaves(s, id);
    case Abort(id) => AbortLeaves(s, id);
    case CatchBlock(id) => ReleaseTurnLeaves(s.(queued := s.queued - 1), id);
    case Start(id, expired) => StartLeaves(s, id, expired);
    case TaskSettles(id) => SettledLeaves(s, id);
    case Cleanup(id) =>
  }

  function Calling(events: seq<Event>): nat {
    if events == [] then 0 else (if events[0].Enqueue? then 1 else 0) + Calling(events[1..])
  }

  lemma {:induction false} StepsAreBounded(from: State, events: seq<Event>)
    requires Inv(from) && Legal(from, events)
    ensures |events| + Measure(After(from, events)) <= Measure(from) + 8 * Calling(events)
    decreases |events|
  {
    if events != [] {
      StepKeepsInv(from, events[0]);
      StepLeavesLess(from, events[0]);
      StepsAreBounded(Next(from, events[0]), events[1..]);
    }
  }

  /** No schedule goes on for ever: a run of the queue takes at most eight steps for each call,
      parking, waking, aborts and cleanups included. */
  lemma EightStepsPerCall(maxConcurrency: nat, events: seq<Event>)
    requires Legal(Initial(maxConcurrency), events)
    ensures |events| <= 8 * Calling(events)
  {
    StepsAreBounded(Initial(maxConcurrency), events);
  }

  /** So every run is released in the end: when no step but a new call or an abort is possible
      any more, all are, and the queue is empty. */
  lemma StuckMeansDone(s: State)
    requires Inv(s) && s.maxConcurrency > 0
    requires forall e | Enabled(s, e) :: e.Enqueue? || e.Abort?
    ensures forall i | 0 <= i < |s.runs| :: s.runs[i].phase == Released
    ensures s.tails == map[] && s.slotWaiters == [] && s.active == 0 && s.queued == 0
  {
    forall i | 0 <= i < |s.runs| ensures s.runs[i].phase == Released {
      if s.runs[i].phase != Released {
        var e := Progress(s, i);
      }
    }
    Drained(s);
  }

  /** Nobody waits for a turn or a slot with an abort already delivered. */
  ghost predicate NoAbortedWaits(s: State) {
    forall i | 0 <= i < |s.runs| && s.runs[i].aborted :: s.runs[i].phase !in {Waiting, Parked}
  }

  lemma StepKeepsNoAbortedWaits(s: State, e: Event)
    requires Inv(s) && NoAbortedWaits(s) && Enabled(s, e)
    ensures NoAbortedWaits(Next(s, e))
  {
    match e
    case Start(id, _) => SettledHasNoAbortedWaits(s.(queued := s.queued - 1), id);
    case TaskSettles(id) => SettledHasNoAbortedWaits(s, id);
    case _ =>
  }

  lemma SettledHasNoAbortedWaits(s: State, id: nat)
    requires NoAbortedWaits(s) && id < |s.runs|
    ensures NoAbortedWaits(Settled(s, id))
  {
  }

  /** Over every run from an empty queue, calls made with an aborted signal included. */
  lemma {:induction false} AbortedNeverWait(from: State, events: seq<Event>)
    requires Inv(from) && NoAbortedWaits(from) && Legal(from, events)
    ensures NoAbortedWaits(After(from, events))
    decreases |events|
  {
    if events != [] {
      StepKeepsInv(from, events[0]);
      StepKeepsNoAbortedWaits(from, events[0]);
      AbortedNeverWait(Next(from, events[0]), events[1..]);
    }
  }

  // ---------------------------------------------------------------- who is woken

  /** Parked earlier: it stands further in front. */
  ghost predicate Ahead(waiters: seq<nat>, a: nat, b: nat) {
    exists i, j | 0 <= i < j < |waiters| :: waiters[i] == a && waiters[j] == b
  }

  lemma {:induction false} RemoveIsSplit(waiters: seq<nat>, id: nat, k: nat)
    requires k < |waiters| && waiters[k] == id && forall i | 0 <= i < k :: waiters[i] != id
    ensures Remove(waiters, id) == waiters[..k] + waiters[k + 1..]
  {
    if k > 0 {
      RemoveIsSplit(waiters[1..], id, k - 1);
      SplitHead(waiters, k);
    }
  }

  lemma SplitHead(waiters: seq<nat>, k: nat)
    requires 0 < k < |waiters|
    ensures waiters[..k] + waiters[k + 1..] == [waiters[0]] + (waiters[1..][..k - 1] + waiters[1..][k..])
  {
  }

  lemma {:induction false} RemoveNothing(waiters: seq<nat>, id: nat)
    requires id !in waiters
    ensures Remove(waiters, id) == waiters
  {
    if waiters != [] { RemoveNothing(waiters[1..], id); }
  }

  lemma {:induction false} FirstPlace(waiters: seq<nat>, id: nat) returns (k: nat)
    requires id in waiters
    ensures k < |waiters| && waiters[k] == id && forall i | 0 <= i < k :: waiters[i] != id
  {
    if waiters[0] == id {
      k := 0;
    } else {
      k := FirstPlace(waiters[1..], id);
      k := k + 1;
    }
  }

  lemma RemoveKeepsAhead(waiters: seq<nat>, id: nat, a: nat, b: nat)
    requires Ahead(waiters, a, b) && id != a && id != b
    ensures Ahead(Remove(waiters, id), a, b)
  {
    if id in waiters {
      var k := FirstPlace(waiters, id);
      RemoveIsSplit(waiters, id, k);
      var i, j :| 0 <= i < j < |waiters| && waiters[i] == a && waiters[j] == b;
      var r := Remove(waiters, id);
      var i', j' := if i < k then i else i - 1, if j < k then j else j - 1;
      assert i' < j' && r[i'] == a && r[j'] == b;
    } else {
      RemoveNothing(waiters, id);
    }
  }

  lemma TailKeepsAhead(waiters: seq<nat>, a: nat, b: nat)
    requires Ahead(waiters, a, b) && waiters[0] != a
    ensures Ahead(waiters[1..], a, b)
  {
    var i, j :| 0 <= i < j < |waiters| && waiters[i] == a && waiters[j] == b;
    assert waiters[1..][i - 1] == a && waiters[1..][j - 1] == b;
  }

  lemma AppendKeepsAhead(waiters: seq<nat>, id: nat, a: nat, b: nat)
    requires Ahead(waiters, a, b)
    ensures Ahead(waiters + [id], a, b)
  {
    var i, j :| 0 <= i < j < |waiters| && waiters[i] == a && waiters[j] == b;
    assert (waiters + [id])[i] == a && (waiters + [id])[j] == b;
  }

  /** Gone from the list by an abort, never woken. */
  predicate GaveUp(r: Run) {
    r.aborted && (r.phase == Rejected || r.phase == Released)
  }

  /** While the one in front stays parked, the one behind stays behind it or gives up. */
  lemma AheadStep(s: State, e: Event, a: nat, b: nat)
    requires Inv(s) && Enabled(s, e) && Ahead(s.slotWaiters, a, b)
    ensures var t := Next(s, e);
            && a < |t.runs| && b < |t.runs|
            && (t.runs[a].phase == Parked ==> Ahead(t.slotWaiters, a, b) || GaveUp(t.runs[b]))
  {
    var i, j :| 0 <= i < j < |s.slotWaiters| && s.slotWaiters[i] == a && s.slotWaiters[j] == b;
    assert a in s.slotWaiters && b in s.slotWaiters;
    match e
    case TestSlot(id) => AppendKeepsAhead(s.slotWaiters, id, a, b);
    case Abort(id) => if id != a && id != b { RemoveKeepsAhead(s.slotWaiters, id, a, b); }
    case Start(id, _) => if s.slotWaiters[0] != a { TailKeepsAhead(s.slotWaiters, a, b); }
    case TaskSettles(id) => if s.slotWaiters[0] != a { TailKeepsAhead(s.slotWaiters, a, b); }
    case _ =>
  }

  lemma GaveUpStays(s: State, e: Event, b: nat)
    requires Inv(s) && Enabled(s, e) && b < |s.runs| && GaveUp(s.runs[b])
    ensures b < |Next(s, e).runs| && GaveUp(Next(s, e).runs[b])
  {
    match e
    case Start(id, _) => SettledKeepsOthers(s.(queued := s.queued - 1), id, b);
    case TaskSettles(id) => SettledKeepsOthers(s, id, b);
    case _ =>
  }

  lemma SettledKeepsOthers(s: State, id: nat, b: nat)
    requires WaitersOk(s) && id < |s.runs| && b < |s.runs| && b != id && s.runs[b].phase != Parked
    ensures |Settled(s, id).runs| == |s.runs| && Settled(s, id).runs[b] == s.runs[b]
  {
    HeadIsIn(s.slotWaiters);
  }

  /** The run is parked after every event. */
  predicate StaysParked(from: State, events: seq<Event>, a: nat)
    requires Legal(from, events)
    decreases |events|
  {
    && a < |from.runs| && from.runs[a].phase == Parked
    && (events != [] ==> StaysParked(Next(from, events[0]), events[1..], a))
  }

  /** Waiters are woken in the order they parked: as long as one is parked, none that parked after
      it is woken; it can only give up. */
  lemma {:induction false} WokenInOrder(from: State, events: seq<Event>, a: nat, b: nat)
    requires Inv(from) && Legal(from, events) && StaysParked(from, events, a)
    requires Ahead(from.slotWaiters, a, b) || (b < |from.runs| && GaveUp(from.runs[b]))
    ensures var t := After(from, events);
            b < |t.runs| && ((t.runs[b].phase == Parked && Ahead(t.slotWaiters, a, b)) || GaveUp(t.runs[b]))
    decreases |events|
  {
    if Ahead(from.slotWaiters, a, b) {
      assert b in from.slotWaiters;
    }
    if events != [] {
      StepKeepsInv(from, events[0]);
      if Ahead(from.slotWaiters, a, b) {
        AheadStep(from, events[0], a, b);
      } else {
        GaveUpStays(from, events[0], b);
      }
      WokenInOrder(Next(from, events[0]), events[1..], a, b);
    }
  }

  predicate Releases(s: State, e: Event)
    requires Enabled(s, e)
  {
    e.TaskSettles? || (e.Start? && (e.expired || s.runs[e.id].aborted))
  }

  function PhaseOf(s: State, id: nat): Option<Phase> {
    if id < |s.runs| then Some(s.runs[id].phase) else None
  }

  /** A release wakes the waiter that parked first, and no other. */
  lemma ReleaseWakesFirst(s: State, e: Event)
    requires Inv(s) && Enabled(s, e) && Releases(s, e) && s.slotWaiters != []
    ensures var t := Next(s, e);
            && t.slotWaiters == s.slotWaiters[1..] && PhaseOf(t, s.slotWaiters[0]) == Some(Resumed)
            && forall w | w in s.slotWaiters[1..] :: PhaseOf(t, w) == Some(Parked)
  {
    SettledWakesFirst(if e.Start? then s.(queued := s.queued - 1) else s, e.id);
  }

  lemma SettledWakesFirst(s: State, id: nat)
    requires WaitersOk(s) && id < |s.runs| && s.runs[id].phase != Parked && s.slotWaiters != []
    ensures var t := Settled(s, id);
            && t.slotWaiters == s.slotWaiters[1..] && PhaseOf(t, s.slotWaiters[0]) == Some(Resumed)
            && forall w | w in s.slotWaiters[1..] :: PhaseOf(t, w) == Some(Parked)
  {
    var first := s.slotWaiters[0];
    assert first in s.slotWaiters;
    forall w | w in s.slotWaiters[1..] ensures PhaseOf(Settled(s, id), w) == Some(Parked) {
      var k :| 0 <= k < |s.slotWaiters| - 1 && s.slotWaiters[1..][k] == w;
      assert s.slotWaiters[k + 1] == w && w in s.slotWaiters;
      assert w != first && w != id;
    }
  }

  /** Nothing else wakes anybody: a waiter stays parked or is taken out by its own abort. */
  lemma OnlyReleasesWake(s: State, e: Event, w: nat)
    requires Inv(s) && Enabled(s, e) && !Releases(s, e) && w in s.slotWaiters
    ensures PhaseOf(Next(s, e), w) == Some(if e == Abort(w) then Rejected else Parked)
  {
  }

  /** Who parks, parks behind everybody who is parked. */
  lemma ParksBehind(s: State, id: nat)
    requires Inv(s) && Enabled(s, TestSlot(id))
    ensures var t := Next(s, TestSlot(id));
            PhaseOf(t, id) == Some(Parked) <==> s.active >= s.maxConcurrency && !s.runs[id].aborted
    ensures var t := Next(s, TestSlot(id));
            t.slotWaiters == if PhaseOf(t, id) == Some(Parked) then s.slotWaiters + [id] else s.slotWaiters
  {
  }

  lemma HeadIsIn(l: seq<nat>)
    ensures l == [] || l[0] in l
  {
  }

  lemma {:induction false} AllResolved(s: State, id: nat)
    requires Inv(s) && id < |s.runs| && forall i | 0 <= i < |s.runs| :: s.runs[i].phase == Released
    ensures PreviousResolved(s.runs, id)
    decreases id
  {
    match s.runs[id].previous
    case None =>
    case Some(p) => AllResolved(s, p);
  }

  // ---------------------------------------------------------------- the queue object

  /** The object's fields, with the suspended calls of `run` and the pending tail removals
      that the event loop keeps for it. Each method is what runs between two awaits. */
  class BrowserOperationQueue {
    const maxConcurrency: nat
    var tails: map<string, nat>
    var slotWaiters: seq<nat>
    var active: int
    var queued: int
    var runs: seq<Run>
    var cleanups: set<nat>

    ghost function View(): State
      reads this
    {
      State(maxConcurrency, runs, tails, slotWaiters, active, queued, cleanups)
    }

    constructor (maxConcurrency: nat)
      ensures this.maxConcurrency == maxConcurrency && View() == Initial(maxConcurrency)
    {
      this.maxConcurrency := maxConcurrency;
      tails, slotWaiters, active, queued, runs, cleanups := map[], [], 0, 0, [], {};
    }

    method EnqueueRun(key: string, signal: bool, aborted: bool) returns (id: nat)
      requires Enabled(View(), Enqueue(key, signal, aborted))
      modifies this
      ensures View() == Next(old(View()), Enqueue(key, signal, aborted)) && id == |old(runs)|
    {
      id := |runs|;
      var previous := if key in tails then Some(tails[key]) else None;
      tails := tails[key := id];
      queued := queued + 1;
      runs := runs + [Run(key, previous, if aborted then Rejected else Waiting, signal, aborted)];
    }

    method TurnGranted(id: nat)
      requires Enabled(View(), TurnComes(id))
      modifies this`runs
      ensures View() == Next(old(View()), TurnComes(id))
    {
      runs := SetPhase(runs, id, Granted);
    }

    /** One pass of the slot loop: take a slot, or park, or give up if already aborted. */
    method AcquireSlotPass(id: nat)
      requires Enabled(View(), TestSlot(id))
      modifies this`runs, this`active, this`slotWaiters
      ensures View() == Next(old(View()), TestSlot(id))
    {
      if active >= maxConcurrency {
        if runs[id].aborted {
          runs := SetPhase(runs, id, Rejected);
        } else {
          slotWaiters := slotWaiters + [id];
          runs := SetPhase(runs, id, Parked);
        }
        return;
      }
      active := active + 1;
      runs := SetPhase(runs, id, HasSlot);
    }

    method OnAbort(id: nat)
      requires Enabled(View(), Abort(id))
      modifies this`runs, this`slotWaiters
      ensures View() == Next(old(View()), Abort(id))
    {
      var r := runs[id].(aborted := true);
      if r.phase == Parked {
        var index := IndexOf(slotWaiters, id);
        RemoveAt(slotWaiters, id, index);
        if index < |slotWaiters| {
          slotWaiters := slotWaiters[..index] + slotWaiters[index + 1..];
        }
        r := r.(phase := Rejected);
      } else if r.phase == Waiting {
        r := r.(phase := Rejected);
      }
      runs := runs[id := r];
    }

    method ReleaseSlotAndWake()
      modifies this`runs, this`active, this`slotWaiters
      ensures View() == ReleaseSlot(old(View()))
    {
      active := if active - 1 > 0 then active - 1 else 0;
      if slotWaiters != [] {
        var waiter := slotWaiters[0];
        slotWaiters := slotWaiters[1..];
        if waiter < |runs| {
          runs := SetPhase(runs, waiter, Resumed);
        }
      }
    }

    method ReleaseTurnAndTail(id: nat)
      requires id < |runs|
      modifies this`runs, this`cleanups
      ensures View() == ReleaseTurn(old(View()), id)
    {
      var key := runs[id].key;
      runs := SetPhase(runs, id, Released);
      if key in tails && tails[key] == id {
        cleanups := cleanups + {id};
      }
    }

    method CatchQueued(id: nat)
      requires Enabled(View(), CatchBlock(id))
      modifies this`runs, this`queued, this`cleanups
      ensures View() == Next(old(View()), CatchBlock(id))
    {
      queued := queued - 1;
      ReleaseTurnAndTail(id);
    }

    /** Past the waits: refuses an aborted or expired run, otherwise the task is called. */
    method StartTask(id: nat, expired: bool) returns (called: bool)
      requires Enabled(View(), Start(id, expired))
      modifies this`runs, this`active, this`slotWaiters, this`queued, this`cleanups
      ensures View() == Next(old(View()), Start(id, expired))
      ensures called <==> !(old(runs)[id].aborted || expired)
    {
      queued := queued - 1;
      if runs[id].aborted || expired {
        ReleaseSlotAndWake();
        ReleaseTurnAndTail(id);
        return false;
      }
      runs := SetPhase(runs, id, Running);
      return true;
    }

    method TaskSettled(id: nat)
      requires Enabled(View(), TaskSettles(id))
      modifies this`runs, this`active, this`slotWaiters, this`cleanups
      ensures View() == Next(old(View()), TaskSettles(id))
    {
      ReleaseSlotAndWake();
      ReleaseTurnAndTail(id);
    }

    method CleanupTail(id: nat)
      requires Enabled(View(), Cleanup(id))
      modifies this`tails, this`cleanups
      ensures View() == Next(old(View()), Cleanup(id))
    {
      cleanups := cleanups - {id};
      var key := runs[id].key;
      if key in tails && tails[key] == id {
        tails := tails - {key};
      }
    }
  }

  method IndexOf(waiters: seq<nat>, id: nat) returns (index: nat)
    ensures index <= |waiters| && id !in waiters[..index] && (index < |waiters| ==> waiters[index] == id)
  {
    index := 0;
    while index < |waiters| && waiters[index] != id
      invariant index <= |waiters| && id !in waiters[..index]
    {
      index := index + 1;
    }
  }

  lemma {:induction false} RemoveAt(waiters: seq<nat>, id: nat, index: nat)
    requires index <= |waiters| && id !in waiters[..index] && (index < |waiters| ==> waiters[index] == id)
    ensures Remove(waiters, id) == if index < |waiters| then waiters[..index] + waiters[index + 1..] else waiters
  {
    if waiters != [] && index > 0 {
      assert waiters[0] in waiters[..index];
      assert waiters[..index] == [waiters[0]] + waiters[1..][..index - 1];
      RemoveAt(waiters[1..], id, index - 1);
    }
  }
}
