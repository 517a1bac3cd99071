/** Browser tasks, their tabs and their leases (browser-task-registry.ts). */
module TaskRegistry {
  import opened Text
  import opened Rows
  import opened SessionRegistry

  /** A lease as its holder sees it: `released` is the flag of its release function. */
  datatype Lease = Lease(taskId: Str, released: bool)

  /** `leases` is every lease ever handed out, in order; its index is what the holder keeps. */
  datatype State = State(
    tasks: map<Str, Task>,
    taskByTab: map<Str, Str>,
    activeLeases: map<Str, nat>,
    leases: seq<Lease>)

  datatype TaskError = TaskNotFound | TaskOwnershipMismatch | TaskExpired | TaskSuspended | TaskScopeRequired

  datatype Outcome = Done(taskId: Str) | Nothing | Refused(error: TaskError)

  datatype Step = Step(state: State, outcome: Outcome)

  datatype Event =
    | ResolveForOpen(given: Option<Str>, owner: Str, newId: Str)
    | ResolveScoped(given: Option<Str>, owner: Str, includeFinished: bool)
    | Create(newId: Str, owner: Str)
    | AssertTabAccess(tabId: Str, owner: Str)
    | AttachTab(taskId: Str, tabId: Str, owner: Str)
    | AttachExistingTab(taskId: Str, tabId: Str)
    | DetachTab(tabId: Str)
    | AcquireForTask(taskId: Str, owner: Str)
    | AcquireForTab(tabId: Str, owner: Str)
    | Release(lease: nat)
    | BeginFinish(taskId: Str, owner: Str)
    | CompleteFinish(taskId: Str)
    | BeginExpiration(taskId: Str)
    | RestoreAfterFailedFinalization(taskId: Str)
    | MarkExpired(taskId: Str)

  // ---------------------------------------------------------------- operations

  predicate Accessible(s: TaskState) {
    s.Active? || s.Suspended?
  }

  function Touched(k: Task, now: int, ttl: int): Task {
    k.(lastActivityAt := now, expiresAt := now + ttl)
  }

  function SetTask(s: State, id: Str, k: Task): State {
    s.(tasks := s.tasks[id := k])
  }

  function Touch(s: State, id: Str, now: int, ttl: int): State
    requires id in s.tasks
  {
    SetTask(s, id, Touched(s.tasks[id], now, ttl))
  }

  function Resume(s: State, id: Str, now: int, ttl: int): State
    requires id in s.tasks
  {
    SetTask(s, id, Touched(s.tasks[id].(state := Active), now, ttl))
  }

  function RequireOwned(s: State, id: Str, owner: Str, includeFinished: bool, resume: bool, now: int, ttl: int): Step {
    if id !in s.tasks then Step(s, Refused(TaskNotFound))
    else
      var k := s.tasks[id];
      if k.owner != owner then Step(s, Refused(TaskOwnershipMismatch))
      else if k.state.Expired? then Step(s, Refused(TaskExpired))
      else if k.state.Finished? && !includeFinished then Step(s, Refused(TaskNotFound))
      else if k.state.Finishing? then Step(s, Refused(TaskSuspended))
      else if resume && k.state.Suspended? then Step(Resume(s, id, now, ttl), Done(id))
      else Step(s, Done(id))
  }

  function Owned(s: State, owner: Str, includeFinished: bool): set<Str> {
    set id | id in s.tasks && s.tasks[id].owner == owner
             && (Accessible(s.tasks[id].state) || (includeFinished && s.tasks[id].state.Finished?))
  }

  function Only(ids: set<Str>): (id: Str)
    requires |ids| == 1
    ensures ids == {id}
  {
    OnlyOne(ids);
    var id :| id in ids;
    id
  }

  lemma OnlyOne(ids: set<Str>)
    requires |ids| == 1
    ensures forall a, b | a in ids && b in ids :: a == b
  {
    forall a, b | a in ids && b in ids ensures a == b {
      if a != b {
        assert {a, b} <= ids;
        SubsetSize({a, b}, ids);
      }
    }
  }

  lemma {:induction false} SubsetSize(a: set<Str>, b: set<Str>)
    requires a <= b
    ensures |a| <= |b|
  {
    if a != {} {
      var x :| x in a;
      SubsetSize(a - {x}, b - {x});
    }
  }

  function NewTask(s: State, id: Str, owner: Str, now: int, ttl: int): State {
    SetTask(s, id, Task(owner, Active, [], now, now, now + ttl))
  }

  /** The id a caller gave; an empty one counts as none. */
  predicate Given(id: Option<Str>) {
    id.Some? && id.value != []
  }

  function Resolve(s: State, e: Event, now: int, ttl: int): Step
    requires e.ResolveForOpen? || e.ResolveScoped?
  {
    var includeFinished := e.ResolveScoped? && e.includeFinished;
    if Given(e.given) then RequireOwned(s, e.given.value, e.owner, includeFinished, true, now, ttl)
    else
      var owned := Owned(s, e.owner, includeFinished);
      if |owned| == 0 then
        if e.ResolveForOpen? then Step(NewTask(s, e.newId, e.owner, now, ttl), Done(e.newId))
        else Step(s, Refused(TaskNotFound))
      else if |owned| > 1 then Step(s, Refused(TaskScopeRequired))
      else
        var id := Only(owned);
        if Accessible(s.tasks[id].state) then Step(Resume(s, id, now, ttl), Done(id)) else Step(s, Done(id))
  }

  function TabAccess(s: State, tabId: Str, owner: Str, now: int, ttl: int): Step {
    if tabId !in s.taskByTab then Step(s, Refused(TaskNotFound))
    else RequireOwned(s, s.taskByTab[tabId], owner, false, true, now, ttl)
  }

  function Link(s: State, id: Str, tabId: Str): State
    requires id in s.tasks
  {
    var k := s.tasks[id];
    State(s.tasks[id := if tabId in k.tabIds then k else k.(tabIds := k.tabIds + [tabId])], s.taskByTab[tabId := id],
      s.activeLeases, s.leases)
  }

  predicate Taken(s: State, id: Str, tabId: Str) {
    tabId in s.taskByTab && s.taskByTab[tabId] != id
  }

  function Attach(s: State, id: Str, tabId: Str, owner: Str, now: int, ttl: int): Step {
    var r := RequireOwned(s, id, owner, false, true, now, ttl);
    if r.outcome.Refused? then r
    else if Taken(r.state, id, tabId) then Step(r.state, Refused(TaskOwnershipMismatch))
    else Step(Touch(Link(r.state, id, tabId), id, now, ttl), Done(id))
  }

  function AttachExisting(s: State, id: Str, tabId: Str): Step {
    if id !in s.tasks then Step(s, Refused(TaskNotFound))
    else if Taken(s, id, tabId) then Step(s, Refused(TaskOwnershipMismatch))
    else Step(Link(s, id, tabId), Done(id))
  }

  function Without(ids: seq<Str>, id: Str): (r: seq<Str>)
    ensures forall x :: x in r <==> x in ids && x != id
    ensures UniqueIds(ids) ==> UniqueIds(r)
  {
    if ids == [] then []
    else (
      FrontLast(ids);
      var r := Without(Front(ids), id);
      if Last(ids) == id then r else (
        assert Front(r + [Last(ids)]) == r;
        r + [Last(ids)]
      )
    )
  }

  function Detach(s: State, tabId: Str, now: int, ttl: int): Step {
    if tabId !in s.taskByTab then Step(s, Nothing)
    else
      var id := s.taskByTab[tabId];
      var t := s.(taskByTab := s.taskByTab - {tabId});
      if id !in s.tasks then Step(t, Nothing)
      else
        var k := s.tasks[id];
        Step(SetTask(t, id, Touched(k.(tabIds := Without(k.tabIds, tabId)), now, ttl)), Done(id))
  }

  function LeaseCount(s: State, id: Str): nat {
    if id in s.activeLeases then s.activeLeases[id] else 0
  }

  function Acquire(s: State, id: Str, owner: Str, now: int, ttl: int): Step {
    var r := RequireOwned(s, id, owner, false, true, now, ttl);
    if r.outcome.Refused? then r
    else
      var t := r.state;
      Step(Touch(t.(activeLeases := t.activeLeases[id := LeaseCount(t, id) + 1], leases := t.leases + [Lease(id, false)]), id, now, ttl),
        Done(id))
  }

  function AcquireByTab(s: State, tabId: Str, owner: Str, now: int, ttl: int): Step {
    var r := TabAccess(s, tabId, owner, now, ttl);
    if r.outcome.Refused? then r else Acquire(r.state, r.outcome.taskId, owner, now, ttl)
  }

  /** What is left of the count, never below zero; a task without an entry counts one. */
  function Remaining(s: State, id: Str): nat {
    var n := if id in s.activeLeases then s.activeLeases[id] else 1;
    if n < 1 then 0 else n - 1
  }

  function ReleaseLease(s: State, lease: nat, now: int, ttl: int): Step {
    if lease >= |s.leases| || s.leases[lease].released then Step(s, Nothing)
    else
      var id := s.leases[lease].taskId;
      var left := Remaining(s, id);
      var t := s.(
        leases := s.leases[lease := Lease(id, true)],
        activeLeases := if left == 0 then s.activeLeases - {id} else s.activeLeases[id := left]);
      Step(if id in s.tasks && Accessible(s.tasks[id].state) then Touch(t, id, now, ttl) else t, Done(id))
  }

  function StartFinish(s: State, id: Str, owner: Str, now: int): Step {
    var r := RequireOwned(s, id, owner, true, false, now, 0);
    if r.outcome.Refused? || s.tasks[id].state.Finished? then r
    else Step(SetTask(s, id, s.tasks[id].(state := Finishing, lastActivityAt := now)), Done(id))
  }

  function RemoveAll(m: map<Str, Str>, ids: seq<Str>): (r: map<Str, Str>)
    ensures r == m - (set x | x in ids)
  {
    if ids == [] then m
    else (
      FrontLast(ids);
      RemoveAll(m, Front(ids)) - {Last(ids)}
    )
  }

  function EndTask(s: State, id: Str, state: TaskState, now: int): Step {
    if id !in s.tasks then Step(s, Refused(TaskNotFound))
    else
      var k := s.tasks[id];
      Step(State(s.tasks[id := k.(state := state, tabIds := [], lastActivityAt := now, expiresAt := now)],
             RemoveAll(s.taskByTab, k.tabIds), s.activeLeases, s.leases), Done(id))
  }

  predicate Expirable(s: State, id: Str, now: int) {
    id in s.tasks && Accessible(s.tasks[id].state) && LeaseCount(s, id) == 0 && s.tasks[id].expiresAt <= now
  }

  function StartExpiration(s: State, id: Str, now: int): Step {
    if Expirable(s, id, now) then Step(SetTask(s, id, s.tasks[id].(state := Finishing)), Done(id)) else Step(s, Nothing)
  }

  function Restore(s: State, id: Str, now: int, ttl: int): Step {
    if id in s.tasks && s.tasks[id].state.Finishing? then Step(Resume(s, id, now, ttl), Done(id)) else Step(s, Nothing)
  }

  function Apply(s: State, e: Event, now: int, ttl: int): Step {
    match e
    case ResolveForOpen(_, _, _) => Resolve(s, e, now, ttl)
    case ResolveScoped(_, _, _) => Resolve(s, e, now, ttl)
    case Create(newId, owner) => Step(NewTask(s, newId, owner, now, ttl), Done(newId))
    case AssertTabAccess(tabId, owner) => TabAccess(s, tabId, owner, now, ttl)
    case AttachTab(id, tabId, owner) => Attach(s, id, tabId, owner, now, ttl)
    case AttachExistingTab(id, tabId) => AttachExisting(s, id, tabId)
    case DetachTab(tabId) => Detach(s, tabId, now, ttl)
    case AcquireForTask(id, owner) => Acquire(s, id, owner, now, ttl)
    case AcquireForTab(tabId, owner) => AcquireByTab(s, tabId, owner, now, ttl)
    case Release(lease) => ReleaseLease(s, lease, now, ttl)
    case BeginFinish(id, owner) => StartFinish(s, id, owner, now)
    case CompleteFinish(id) => EndTask(s, id, Finished, now)
    case BeginExpiration(id) => StartExpiration(s, id, now)
    case RestoreAfterFailedFinalization(id) => Restore(s, id, now, ttl)
    case MarkExpired(id) => EndTask(s, id, Expired, now)
  }

  /** A new task gets an id that is not in use. */
  predicate Fresh(s: State, e: Event) {
    (e.ResolveForOpen? || e.Create?) ==> e.newId !in s.tasks
  }

  // ---------------------------------------------------------------- invariants

  predicate Points(s: State, tabId: Str, id: Str) {
    tabId in s.taskByTab && s.taskByTab[tabId] == id
  }

  predicate Lists(s: State, tabId: Str, id: Str) {
    id in s.tasks && tabId in s.tasks[id].tabIds
  }

  /** `taskByTab` and the tab lists are inverse to each other. */
  ghost predicate Inverse(s: State) {
    && (forall tabId, id :: Points(s, tabId, id) <==> Lists(s, tabId, id))
    && (forall id | id in s.tasks :: UniqueIds(s.tasks[id].tabIds))
  }

  function Outstanding(leases: seq<Lease>, id: Str): nat {
    if leases == [] then 0
    else Outstanding(Front(leases), id) + if Last(leases).taskId == id && !Last(leases).released then 1 else 0
  }

  /** The count of a task is the number of its leases still held, and no entry is zero. */
  ghost predicate Counted(s: State) {
    && (forall id :: LeaseCount(s, id) == Outstanding(s.leases, id))
    && (forall id | id in s.activeLeases :: s.activeLeases[id] > 0)
  }

  ghost predicate Inv(s: State) {
    Inverse(s) && Counted(s)
  }

  ghost predicate TerminalHoldNothing(s: State) {
    forall id | id in s.tasks && Terminal(s.tasks[id].state) :: s.tasks[id].tabIds == []
  }

  // ---------------------------------------------------------------- quiet steps

  function TabIds(s: State, id: Str): seq<Str> {
    if id in s.tasks then s.tasks[id].tabIds else []
  }

  /** Nothing but states and times of tasks changed, no task ended or came back, and a task
      that appeared is active and empty. */
  ghost predicate Quiet(s: State, t: State) {
    && t.taskByTab == s.taskByTab && t.activeLeases == s.activeLeases && t.leases == s.leases
    && (forall id :: TabIds(t, id) == TabIds(s, id))
    && (forall id | id in s.tasks :: id in t.tasks && SameOwner(s.tasks[id], t.tasks[id]))
    && (forall id | id in t.tasks && id !in s.tasks :: !Terminal(t.tasks[id].state))
  }

  predicate SameOwner(k: Task, l: Task) {
    l.owner == k.owner && (Terminal(k.state) || Terminal(l.state) ==> l.state == k.state)
  }

  lemma QuietSet(s: State, id: Str, k: Task)
    requires id in s.tasks && k.tabIds == s.tasks[id].tabIds && SameOwner(s.tasks[id], k)
    ensures Quiet(s, SetTask(s, id, k))
  {
  }

  lemma QuietNew(s: State, id: Str, k: Task)
    requires id !in s.tasks && k.tabIds == [] && !Terminal(k.state)
    ensures Quiet(s, SetTask(s, id, k))
  {
  }

  lemma QuietKeepsInverse(s: State, t: State)
    requires Quiet(s, t) && Inverse(s)
    ensures Inverse(t)
  {
    forall tabId, id ensures Points(t, tabId, id) <==> Lists(t, tabId, id) {
      assert Points(s, tabId, id) <==> Lists(s, tabId, id);
      assert TabIds(t, id) == TabIds(s, id);
    }
    forall id | id in t.tasks ensures UniqueIds(t.tasks[id].tabIds) {
      assert TabIds(t, id) == TabIds(s, id);
    }
  }

  /** Who gets through: the owner, with a task that is neither expired nor finishing, nor
      finished unless that is asked for. */
  ghost predicate Granted(s: State, id: Str, owner: Str, includeFinished: bool) {
    && id in s.tasks && s.tasks[id].owner == owner
    && (Accessible(s.tasks[id].state) || (includeFinished && s.tasks[id].state.Finished?))
  }

  lemma QuietRequire(s: State, id: Str, owner: Str, includeFinished: bool, resume: bool, now: int, ttl: int)
    ensures var r := RequireOwned(s, id, owner, includeFinished, resume, now, ttl);
            && Quiet(s, r.state)
            && (r.outcome == Done(id) <==> Granted(s, id, owner, includeFinished))
            && (r.outcome.Refused? || r.outcome == Done(id))
            && (Granted(s, id, owner, false) && resume ==> id in r.state.tasks && r.state.tasks[id].state.Active?)
  {
    if id in s.tasks && s.tasks[id].state.Suspended? {
      QuietSet(s, id, Touched(s.tasks[id].(state := Active), now, ttl));
    }
  }

  lemma QuietResolve(s: State, e: Event, now: int, ttl: int)
    requires (e.ResolveForOpen? || e.ResolveScoped?) && Fresh(s, e)
    ensures Quiet(s, Resolve(s, e, now, ttl).state)
  {
    var includeFinished := e.ResolveScoped? && e.includeFinished;
    if Given(e.given) {
      QuietRequire(s, e.given.value, e.owner, includeFinished, true, now, ttl);
    } else {
      var owned := Owned(s, e.owner, includeFinished);
      if |owned| == 0 && e.ResolveForOpen? {
        QuietNew(s, e.newId, Task(e.owner, Active, [], now, now, now + ttl));
      } else if |owned| == 1 {
        var id := Only(owned);
        assert id in owned;
        if Accessible(s.tasks[id].state) { QuietSet(s, id, Touched(s.tasks[id].(state := Active), now, ttl)); }
      }
    }
  }

  // ---------------------------------------------------------------- the index

  lemma LinkKeepsInverse(s: State, id: Str, tabId: Str)
    requires Inverse(s) && id in s.tasks && !Taken(s, id, tabId)
    ensures Inverse(Link(s, id, tabId))
  {
    var t := Link(s, id, tabId);
    var ids := s.tasks[id].tabIds;
    forall x, y ensures Points(t, x, y) <==> Lists(t, x, y) {
      assert Points(s, x, y) <==> Lists(s, x, y);
      assert x == tabId ==> (Points(s, x, y) ==> y == id);
    }
    forall y | y in t.tasks ensures UniqueIds(t.tasks[y].tabIds) {
      assert Front(ids + [tabId]) == ids;
      assert y != id ==> t.tasks[y] == s.tasks[y];
    }
  }

  lemma DetachKeepsInverse(s: State, tabId: Str, now: int, ttl: int)
    requires Inverse(s)
    ensures Inverse(Detach(s, tabId, now, ttl).state)
  {
    var t := Detach(s, tabId, now, ttl).state;
    if tabId in s.taskByTab {
      assert Points(s, tabId, s.taskByTab[tabId]);
    }
    forall x, y ensures Points(t, x, y) <==> Lists(t, x, y) {
      assert Points(s, x, y) <==> Lists(s, x, y);
      assert Points(s, tabId, y) <==> Lists(s, tabId, y);
    }
  }

  lemma CloseKeepsInverse(s: State, id: Str, state: TaskState, now: int)
    requires Inverse(s)
    ensures Inverse(EndTask(s, id, state, now).state)
  {
    var t := EndTask(s, id, state, now).state;
    forall x, y ensures Points(t, x, y) <==> Lists(t, x, y) {
      assert Points(s, x, y) <==> Lists(s, x, y);
      assert Points(s, x, id) <==> Lists(s, x, id);
    }
  }

  // ---------------------------------------------------------------- the leases

  lemma OutstandingAppend(leases: seq<Lease>, x: Lease, id: Str)
    ensures Outstanding(leases + [x], id) == Outstanding(leases, id) + if x.taskId == id && !x.released then 1 else 0
  {
    assert Front(leases + [x]) == leases;
  }

  lemma {:induction false} OutstandingReleased(leases: seq<Lease>, i: nat, id: Str)
    requires i < |leases| && !leases[i].released
    ensures Outstanding(leases[i := Lease(leases[i].taskId, true)], id) + (if leases[i].taskId == id then 1 else 0)
         == Outstanding(leases, id)
  {
    var after := leases[i := Lease(leases[i].taskId, true)];
    if i == |leases| - 1 {
      assert Front(after) == Front(leases);
    } else {
      OutstandingReleased(Front(leases), i, id);
      assert Front(after) == Front(leases)[i := Lease(leases[i].taskId, true)];
    }
  }

  lemma AcquireKeepsCounted(s: State, id: Str, owner: Str, now: int, ttl: int)
    requires Counted(s)
    ensures Counted(Acquire(s, id, owner, now, ttl).state)
  {
    QuietRequire(s, id, owner, false, true, now, ttl);
    var t := Acquire(s, id, owner, now, ttl).state;
    forall x ensures LeaseCount(t, x) == Outstanding(t.leases, x) {
      assert LeaseCount(s, x) == Outstanding(s.leases, x);
      OutstandingAppend(s.leases, Lease(id, false), x);
    }
  }

  lemma ReleaseKeepsCounted(s: State, lease: nat, now: int, ttl: int)
    requires Counted(s)
    ensures Counted(ReleaseLease(s, lease, now, ttl).state)
  {
    if lease < |s.leases| && !s.leases[lease].released {
      var t := ReleaseLease(s, lease, now, ttl).state;
      var id := s.leases[lease].taskId;
      assert LeaseCount(s, id) == Outstanding(s.leases, id);
      forall x ensures LeaseCount(t, x) == Outstanding(t.leases, x) {
        assert LeaseCount(s, x) == Outstanding(s.leases, x);
        OutstandingReleased(s.leases, lease, x);
        OutstandingReleased(s.leases, lease, id);
      }
    }
  }

  // ---------------------------------------------------------------- every step

  /** The steps that leave tabs and leases alone. */
  predicate IsQuiet(e: Event) {
    e.ResolveForOpen? || e.ResolveScoped? || e.Create? || e.AssertTabAccess? || e.BeginFinish? || e.BeginExpiration?
    || e.RestoreAfterFailedFinalization?
  }

  lemma QuietSteps(s: State, e: Event, now: int, ttl: int)
    requires Fresh(s, e)
    requires IsQuiet(e)
    ensures Quiet(s, Apply(s, e, now, ttl).state)
  {
    match e
    case ResolveForOpen(_, _, _) => QuietResolve(s, e, now, ttl);
    case ResolveScoped(_, _, _) => QuietResolve(s, e, now, ttl);
    case Create(newId, owner) => QuietNew(s, newId, Task(owner, Active, [], now, now, now + ttl));
    case AssertTabAccess(tabId, owner) =>
      if tabId in s.taskByTab { QuietRequire(s, s.taskByTab[tabId], owner, false, true, now, ttl); }
    case BeginFinish(id, owner) =>
      QuietRequire(s, id, owner, true, false, now, 0);
      if Granted(s, id, owner, false) { QuietSet(s, id, s.tasks[id].(state := Finishing, lastActivityAt := now)); }
    case BeginExpiration(id) =>
      if Expirable(s, id, now) { QuietSet(s, id, s.tasks[id].(state := Finishing)); }
    case RestoreAfterFailedFinalization(id) =>
      if id in s.tasks && s.tasks[id].state.Finishing? {
        QuietSet(s, id, Touched(s.tasks[id].(state := Active), now, ttl));
      }
  }

  lemma TouchIsQuiet(s: State, id: Str, now: int, ttl: int)
    requires id in s.tasks
    ensures Quiet(s, Touch(s, id, now, ttl))
  {
    QuietSet(s, id, Touched(s.tasks[id], now, ttl));
  }

  lemma LeasesDoNotMatter(s: State, t: State)
    requires t.tasks == s.tasks && t.taskByTab == s.taskByTab && Inverse(s)
    ensures Inverse(t)
  {
    forall tabId, id ensures Points(t, tabId, id) <==> Lists(t, tabId, id) {
      assert Points(s, tabId, id) <==> Lists(s, tabId, id);
    }
  }

  lemma AcquireKeepsInverse(s: State, id: Str, owner: Str, now: int, ttl: int)
    requires Inverse(s)
    ensures Inverse(Acquire(s, id, owner, now, ttl).state)
  {
    var r := RequireOwned(s, id, owner, false, true, now, ttl);
    QuietRequire(s, id, owner, false, true, now, ttl);
    QuietKeepsInverse(s, r.state);
    if r.outcome.Done? {
      var t := r.state.(activeLeases := r.state.activeLeases[id := LeaseCount(r.state, id) + 1],
        leases := r.state.leases + [Lease(id, false)]);
      LeasesDoNotMatter(r.state, t);
      TouchIsQuiet(t, id, now, ttl);
      QuietKeepsInverse(t, Touch(t, id, now, ttl));
    }
  }

  lemma ReleaseKeepsInverse(s: State, lease: nat, now: int, ttl: int)
    requires Inverse(s)
    ensures Inverse(ReleaseLease(s, lease, now, ttl).state)
  {
    if lease < |s.leases| && !s.leases[lease].released {
      var id, r := s.leases[lease].taskId, ReleaseLease(s, lease, now, ttl).state;
      var t := s.(leases := r.leases, activeLeases := r.activeLeases);
      LeasesDoNotMatter(s, t);
      if id in s.tasks && Accessible(s.tasks[id].state) {
        TouchIsQuiet(t, id, now, ttl);
        QuietKeepsInverse(t, Touch(t, id, now, ttl));
      }
    }
  }

  lemma AttachKeepsInverse(s: State, id: Str, tabId: Str, owner: Str, now: int, ttl: int)
    requires Inverse(s)
    ensures Inverse(Attach(s, id, tabId, owner, now, ttl).state)
  {
    var r := RequireOwned(s, id, owner, false, true, now, ttl);
    QuietRequire(s, id, owner, false, true, now, ttl);
    QuietKeepsInverse(s, r.state);
    if r.outcome.Done? && !Taken(r.state, id, tabId) {
      var t := Link(r.state, id, tabId);
      LinkKeepsInverse(r.state, id, tabId);
      TouchIsQuiet(t, id, now, ttl);
      QuietKeepsInverse(t, Touch(t, id, now, ttl));
    }
  }

  lemma StepKeepsInverse(s: State, e: Event, now: int, ttl: int)
    requires Inverse(s) && Fresh(s, e)
    ensures Inverse(Apply(s, e, now, ttl).state)
  {
    if IsQuiet(e) {
      QuietSteps(s, e, now, ttl);
      QuietKeepsInverse(s, Apply(s, e, now, ttl).state);
    } else {
      match e
      case AttachTab(id, tabId, owner) => AttachKeepsInverse(s, id, tabId, owner, now, ttl);
      case AttachExistingTab(id, tabId) =>
        if id in s.tasks && !Taken(s, id, tabId) { LinkKeepsInverse(s, id, tabId); }
      case DetachTab(tabId) => DetachKeepsInverse(s, tabId, now, ttl);
      case AcquireForTask(id, owner) => AcquireKeepsInverse(s, id, owner, now, ttl);
      case AcquireForTab(tabId, owner) =>
        if tabId in s.taskByTab {
          var id := s.taskByTab[tabId];
          var r := RequireOwned(s, id, owner, false, true, now, ttl);
          QuietRequire(s, id, owner, false, true, now, ttl);
          QuietKeepsInverse(s, r.state);
          AcquireKeepsInverse(r.state, id, owner, now, ttl);
        }
      case Release(lease) => ReleaseKeepsInverse(s, lease, now, ttl);
      case CompleteFinish(id) => CloseKeepsInverse(s, id, Finished, now);
      case MarkExpired(id) => CloseKeepsInverse(s, id, Expired, now);
    }
  }

  lemma SameLeasesCounted(s: State, t: State)
    requires Counted(s) && t.activeLeases == s.activeLeases && t.leases == s.leases
    ensures Counted(t)
  {
    forall id ensures LeaseCount(t, id) == Outstanding(t.leases, id) {
      assert LeaseCount(s, id) == Outstanding(s.leases, id);
    }
  }

  lemma StepKeepsCounted(s: State, e: Event, now: int, ttl: int)
    requires Counted(s) && Fresh(s, e)
    ensures Counted(Apply(s, e, now, ttl).state)
  {
    if IsQuiet(e) {
      QuietSteps(s, e, now, ttl);
      SameLeasesCounted(s, Apply(s, e, now, ttl).state);
    } else {
      match e
      case AttachTab(id, tabId, owner) =>
        QuietRequire(s, id, owner, false, true, now, ttl);
        SameLeasesCounted(s, Apply(s, e, now, ttl).state);
      case AttachExistingTab(_, _) => SameLeasesCounted(s, Apply(s, e, now, ttl).state);
      case DetachTab(_) => SameLeasesCounted(s, Apply(s, e, now, ttl).state);
      case AcquireForTask(id, owner) => AcquireKeepsCounted(s, id, owner, now, ttl);
      case AcquireForTab(tabId, owner) =>
        if tabId in s.taskByTab {
          var id := s.taskByTab[tabId];
          var r := RequireOwned(s, id, owner, false, true, now, ttl);
          QuietRequire(s, id, owner, false, true, now, ttl);
          SameLeasesCounted(s, r.state);
          AcquireKeepsCounted(r.state, id, owner, now, ttl);
        }
      case Release(lease) => ReleaseKeepsCounted(s, lease, now, ttl);
      case CompleteFinish(_) => SameLeasesCounted(s, Apply(s, e, now, ttl).state);
      case MarkExpired(_) => SameLeasesCounted(s, Apply(s, e, now, ttl).state);
    }
  }

  // ---------------------------------------------------------------- over is over

  /** No task goes away or changes hands, and one that is over stays over. */
  ghost predicate StaysOver(s: State, t: State) {
    forall id | id in s.tasks ::
      id in t.tasks && t.tasks[id].owner == s.tasks[id].owner && (Terminal(s.tasks[id].state) ==> Terminal(t.tasks[id].state))
  }

  lemma StepStaysOver(s: State, e: Event, now: int, ttl: int)
    requires Fresh(s, e)
    ensures StaysOver(s, Apply(s, e, now, ttl).state)
  {
    if IsQuiet(e) {
      QuietSteps(s, e, now, ttl);
    } else {
      match e
      case AttachTab(id, tabId, owner) => QuietRequire(s, id, owner, false, true, now, ttl);
      case AcquireForTask(id, owner) => AcquireStaysOver(s, id, owner, now, ttl);
      case AcquireForTab(tabId, owner) =>
        if tabId in s.taskByTab {
          var id := s.taskByTab[tabId];
          QuietRequire(s, id, owner, false, true, now, ttl);
          AcquireStaysOver(RequireOwned(s, id, owner, false, true, now, ttl).state, id, owner, now, ttl);
        }
      case _ =>
    }
  }

  lemma AcquireStaysOver(s: State, id: Str, owner: Str, now: int, ttl: int)
    ensures StaysOver(s, Acquire(s, id, owner, now, ttl).state)
  {
    QuietRequire(s, id, owner, false, true, now, ttl);
  }

  /** A task that is over is never handed out for use again. */
  lemma OverIsRefused(s: State, e: Event, now: int, ttl: int, id: Str)
    requires id in s.tasks && s.tasks[id].state in {Finished, Expired} && Inverse(s) && Fresh(s, e)
    requires e.AttachTab? || e.AcquireForTask? || e.AcquireForTab? || e.AssertTabAccess? || e.ResolveForOpen?
    ensures Apply(s, e, now, ttl).outcome != Done(id)
  {
    match e
    case AttachTab(t, tabId, owner) => QuietRequire(s, t, owner, false, true, now, ttl);
    case AcquireForTask(t, owner) => QuietRequire(s, t, owner, false, true, now, ttl);
    case AssertTabAccess(tabId, owner) =>
      if tabId in s.taskByTab { QuietRequire(s, s.taskByTab[tabId], owner, false, true, now, ttl); }
    case AcquireForTab(tabId, owner) =>
      if tabId in s.taskByTab {
        var t := s.taskByTab[tabId];
        QuietRequire(s, t, owner, false, true, now, ttl);
        var r := RequireOwned(s, t, owner, false, true, now, ttl);
        QuietRequire(r.state, t, owner, false, true, now, ttl);
      }
    case ResolveForOpen(given, owner, newId) =>
      if Given(given) {
        QuietRequire(s, given.value, owner, false, true, now, ttl);
      } else if |Owned(s, owner, false)| == 1 {
        var o := Only(Owned(s, owner, false));
        assert o in Owned(s, owner, false);
      }
  }

  /** The one way a task that is over gets a tab: attachExistingTab does not look at its
      state. */
  predicate AttachesToOver(s: State, e: Event) {
    e.AttachExistingTab? && e.taskId in s.tasks && s.tasks[e.taskId].state in {Finished, Expired}
    && (e.tabId !in s.taskByTab || s.taskByTab[e.tabId] == e.taskId)
  }

  lemma QuietHoldsNothing(s: State, t: State)
    requires Quiet(s, t) && TerminalHoldNothing(s)
    ensures TerminalHoldNothing(t)
  {
    forall id | id in t.tasks && Terminal(t.tasks[id].state) ensures t.tasks[id].tabIds == [] {
      assert id in s.tasks ==> SameOwner(s.tasks[id], t.tasks[id]);
      assert TabIds(t, id) == TabIds(s, id);
    }
  }

  /** Tasks that are over hold no tabs: a step breaks that exactly when it attaches an existing
      tab to one of them. */
  lemma OverHoldNothingExactlyUnless(s: State, e: Event, now: int, ttl: int)
    requires Inverse(s) && TerminalHoldNothing(s) && Fresh(s, e)
    ensures TerminalHoldNothing(Apply(s, e, now, ttl).state) <==> !AttachesToOver(s, e)
  {
    var t := Apply(s, e, now, ttl).state;
    if IsQuiet(e) {
      QuietSteps(s, e, now, ttl);
      QuietHoldsNothing(s, t);
    } else {
      match e
      case AttachTab(id, tabId, owner) =>
        QuietRequire(s, id, owner, false, true, now, ttl);
        QuietHoldsNothing(s, RequireOwned(s, id, owner, false, true, now, ttl).state);
      case AttachExistingTab(id, tabId) =>
        if AttachesToOver(s, e) { assert tabId in t.tasks[id].tabIds; }
      case AcquireForTask(id, owner) =>
        QuietRequire(s, id, owner, false, true, now, ttl);
        QuietHoldsNothing(s, RequireOwned(s, id, owner, false, true, now, ttl).state);
      case AcquireForTab(tabId, owner) =>
        if tabId in s.taskByTab {
          var id := s.taskByTab[tabId];
          var r := RequireOwned(s, id, owner, false, true, now, ttl);
          QuietRequire(s, id, owner, false, true, now, ttl);
          QuietHoldsNothing(s, r.state);
          QuietRequire(r.state, id, owner, false, true, now, ttl);
          QuietHoldsNothing(r.state, RequireOwned(r.state, id, owner, false, true, now, ttl).state);
        }
      case _ =>
    }
  }

  // ---------------------------------------------------------------- the reaper

  /** Taken by the reaper or ended: out of reach and held by nobody. */
  ghost predicate Reaped(s: State, id: Str) {
    id in s.tasks && !Accessible(s.tasks[id].state) && Outstanding(s.leases, id) == 0
  }

  /** The reaper takes only a task that is past its time and that no lease holds. */
  lemma ReaperSparesLeased(s: State, id: Str, now: int, ttl: int)
    requires Counted(s)
    ensures Apply(s, BeginExpiration(id), now, ttl).outcome == Done(id) <==>
      id in s.tasks && s.tasks[id].state in {Active, Suspended} && s.tasks[id].expiresAt <= now && Outstanding(s.leases, id) == 0
    ensures Apply(s, BeginExpiration(id), now, ttl).outcome == Done(id) ==> Reaped(Apply(s, BeginExpiration(id), now, ttl).state, id)
  {
    assert LeaseCount(s, id) == Outstanding(s.leases, id);
  }

  /** From then on nobody can take a lease on it or use it, until its finalization fails and
      it is restored. */
  lemma ReapedStaysReaped(s: State, e: Event, now: int, ttl: int, id: Str)
    requires Reaped(s, id) && Fresh(s, e) && e != RestoreAfterFailedFinalization(id)
    ensures Reaped(Apply(s, e, now, ttl).state, id)
  {
    match e
    case ResolveForOpen(given, owner, newId) => ReapedIsNotResolved(s, e, now, ttl, id);
    case ResolveScoped(given, owner, includeFinished) => ReapedIsNotResolved(s, e, now, ttl, id);
    case AcquireForTask(t, owner) => ReapedIsNotLeased(s, t, owner, now, ttl, id);
    case AcquireForTab(tabId, owner) =>
      if tabId in s.taskByTab {
        var r := RequireOwned(s, s.taskByTab[tabId], owner, false, true, now, ttl);
        ReapedIsNotLeased(r.state, s.taskByTab[tabId], owner, now, ttl, id);
      }
    case Release(lease) => ReapedIsNotReleased(s, lease, now, ttl, id);
    case _ =>
  }

  lemma ReapedIsNotResolved(s: State, e: Event, now: int, ttl: int, id: Str)
    requires Reaped(s, id) && Fresh(s, e) && (e.ResolveForOpen? || e.ResolveScoped?)
    ensures Reaped(Resolve(s, e, now, ttl).state, id)
  {
    var includeFinished := e.ResolveScoped? && e.includeFinished;
    if !Given(e.given) && |Owned(s, e.owner, includeFinished)| == 1 {
      var o := Only(Owned(s, e.owner, includeFinished));
      assert o in Owned(s, e.owner, includeFinished);
    }
  }

  lemma ReapedIsNotLeased(s: State, t: Str, owner: Str, now: int, ttl: int, id: Str)
    requires Reaped(s, id)
    ensures Reaped(Acquire(s, t, owner, now, ttl).state, id)
  {
    OutstandingAppend(s.leases, Lease(t, false), id);
  }

  lemma ReapedIsNotReleased(s: State, lease: nat, now: int, ttl: int, id: Str)
    requires Reaped(s, id)
    ensures Reaped(ReleaseLease(s, lease, now, ttl).state, id)
  {
    if lease < |s.leases| && !s.leases[lease].released {
      OutstandingReleased(s.leases, lease, id);
    }
  }

  // ---------------------------------------------------------------- runs

  function AddTabs(m: map<Str, Str>, ids: seq<Str>, id: Str): (r: map<Str, Str>)
    ensures forall x :: x in r <==> x in m || x in ids
    ensures forall x | x in r :: r[x] == if x in m then m[x] else id
  {
    if ids == [] then m
    else (
      FrontLast(ids);
      var r := AddTabs(m, Front(ids), id);
      if Last(ids) in r then r else r[Last(ids) := id]
    )
  }

  /** What the constructor builds: a later task replaces an earlier one with its id, a tab goes
      to the first task that lists it. */
  function Initial(rows: seq<Row<Task>>): State {
    if rows == [] then State(map[], map[], map[], [])
    else
      var s := Initial(Front(rows));
      s.(tasks := s.tasks[Last(rows).id := Last(rows).v], taskByTab := AddTabs(s.taskByTab, Last(rows).v.tabIds, Last(rows).id))
  }

  lemma {:induction false} InitialTasks(rows: seq<Row<Task>>)
    requires Unique(rows)
    ensures Initial(rows).tasks.Keys == Ids(rows)
    ensures forall k | k in rows :: k.id in Initial(rows).tasks && Initial(rows).tasks[k.id] == k.v
  {
    if rows != [] {
      FrontLast(rows);
      InitialTasks(Front(rows));
    }
  }

  /** A recovered registry starts in a state where the index is exact, nothing is leased and
      tasks that are over hold nothing. */
  lemma {:induction false} InitialInverse(rows: seq<Row<Task>>, tabs: seq<Row<OwnedTab>>)
    requires Unique(rows) && forall k | k in rows :: OwnsItsTabs(k, tabs)
    ensures Inverse(Initial(rows))
  {
    if rows != [] {
      FrontLast(rows);
      var s, last := Initial(Front(rows)), Last(rows);
      var t := Initial(rows);
      InitialInverse(Front(rows), tabs);
      InitialTasks(Front(rows));
      InitialTasks(rows);
      assert last in rows && OwnsItsTabs(last, tabs);
      forall x, id ensures Points(t, x, id) <==> Lists(t, x, id) {
        assert Points(s, x, id) <==> Lists(s, x, id);
        if x in s.taskByTab { OwnerIsOne(rows, tabs, s, x); }
      }
    }
  }

  lemma OwnerIsOne(rows: seq<Row<Task>>, tabs: seq<Row<OwnedTab>>, s: State, x: Str)
    requires rows != [] && Unique(rows) && s == Initial(Front(rows)) && Inverse(s) && x in s.taskByTab
    requires forall k | k in rows :: OwnsItsTabs(k, tabs)
    ensures x !in Last(rows).v.tabIds && s.taskByTab[x] in s.tasks && s.taskByTab[x] != Last(rows).id
  {
    FrontLast(rows);
    InitialTasks(Front(rows));
    var id := s.taskByTab[x];
    assert Points(s, x, id) && Lists(s, x, id);
    var k := Row(id, Find(Front(rows), id).value);
    assert k in rows && OwnsItsTabs(k, tabs) && OwnedBy(Find(tabs, x), id);
    assert OwnsItsTabs(Last(rows), tabs);
    assert !OwnedBy(Find(tabs, x), Last(rows).id);
  }

  lemma {:induction false} InitialCounted(rows: seq<Row<Task>>)
    ensures Initial(rows).leases == [] && Initial(rows).activeLeases == map[] && Counted(Initial(rows))
  {
    if rows != [] { InitialCounted(Front(rows)); }
  }

  lemma RecoveredStart(d: V6)
    requires ConsistentV6(d)
    ensures Inv(Initial(d.tasks)) && TerminalHoldNothing(Initial(d.tasks))
  {
    InitialInverse(d.tasks, d.tabs);
    InitialCounted(d.tasks);
    InitialTasks(d.tasks);
    forall id | id in Initial(d.tasks).tasks && Terminal(Initial(d.tasks).tasks[id].state)
      ensures Initial(d.tasks).tasks[id].tabIds == []
    {
      var k := Row(id, Find(d.tasks, id).value);
      assert k in d.tasks && OwnsItsTabs(k, d.tabs);
    }
  }

  datatype Timed = Timed(event: Event, now: int)

  function Run(s: State, events: seq<Timed>, ttl: int): State {
    if events == [] then s
    else Apply(Run(s, Front(events), ttl), Last(events).event, Last(events).now, ttl).state
  }

  ghost predicate FreshRun(s: State, events: seq<Timed>, ttl: int) {
    events == [] || (FreshRun(s, Front(events), ttl) && Fresh(Run(s, Front(events), ttl), Last(events).event))
  }

  /** Over all runs the index stays exact and the counts stay right, and tasks that are over
      stay over. */
  lemma {:induction false} RunKeepsInv(s: State, events: seq<Timed>, ttl: int)
    requires Inv(s) && FreshRun(s, events, ttl)
    ensures Inv(Run(s, events, ttl)) && StaysOver(s, Run(s, events, ttl))
  {
    if events != [] {
      RunKeepsInv(s, Front(events), ttl);
      var before, e := Run(s, Front(events), ttl), Last(events);
      StepKeepsInverse(before, e.event, e.now, ttl);
      StepKeepsCounted(before, e.event, e.now, ttl);
      StepStaysOver(before, e.event, e.now, ttl);
    }
  }

  /** After every prefix of the run, tasks that are over hold nothing. */
  ghost predicate AlwaysHoldNothing(s: State, events: seq<Timed>, ttl: int) {
    TerminalHoldNothing(Run(s, events, ttl)) && (events == [] || AlwaysHoldNothing(s, Front(events), ttl))
  }

  /** No step of the run attaches an existing tab to a task that is over. */
  predicate NeverAttachesToOver(s: State, events: seq<Timed>, ttl: int) {
    || events == []
    || (NeverAttachesToOver(s, Front(events), ttl) && !AttachesToOver(Run(s, Front(events), ttl), Last(events).event))
  }

  /** Over whole runs: tasks that are over hold nothing all the way exactly when no step
      attaches an existing tab to one of them. */
  lemma {:induction false} RunHoldsNothingExactlyUnless(s: State, events: seq<Timed>, ttl: int)
    requires Inv(s) && TerminalHoldNothing(s) && FreshRun(s, events, ttl)
    ensures AlwaysHoldNothing(s, events, ttl) <==> NeverAttachesToOver(s, events, ttl)
  {
    if events != [] {
      RunHoldsNothingExactlyUnless(s, Front(events), ttl);
      RunKeepsInv(s, Front(events), ttl);
      if AlwaysHoldNothing(s, Front(events), ttl) {
        OverHoldNothingExactlyUnless(Run(s, Front(events), ttl), Last(events).event, Last(events).now, ttl);
      }
    }
  }

  /** A registry started from recovered tasks. */
  lemma RecoveredRunHoldsNothing(d: V6, events: seq<Timed>, ttl: int)
    requires ConsistentV6(d) && FreshRun(Initial(d.tasks), events, ttl)
    ensures AlwaysHoldNothing(Initial(d.tasks), events, ttl) <==> NeverAttachesToOver(Initial(d.tasks), events, ttl)
  {
    RecoveredStart(d);
    RunHoldsNothingExactlyUnless(Initial(d.tasks), events, ttl);
  }

  /** Create a task, finish it, attach a tab: the finished task holds it. */
  lemma FinishedTaskGetsTabExample(id: Str, tabId: Str, owner: Str, now: int, ttl: int)
    ensures var events := [Timed(Create(id, owner), now), Timed(CompleteFinish(id), now), Timed(AttachExistingTab(id, tabId), now)];
            && FreshRun(Initial([]), events, ttl)
            && var s := Run(Initial([]), events, ttl);
               id in s.tasks && s.tasks[id].state == Finished && s.tasks[id].tabIds == [tabId] && !TerminalHoldNothing(s)
  {
    var e1, e2, e3 := Timed(Create(id, owner), now), Timed(CompleteFinish(id), now), Timed(AttachExistingTab(id, tabId), now);
    var s0 := Initial([]);
    RunSnoc(s0, [], e1, ttl);
    RunSnoc(s0, [e1], e2, ttl);
    RunSnoc(s0, [e1, e2], e3, ttl);
    assert [] + [e1] == [e1] && [e1] + [e2] == [e1, e2] && [e1, e2] + [e3] == [e1, e2, e3];
    var s := Run(s0, [e1, e2, e3], ttl);
    assert id in s.tasks && s.tasks[id].tabIds == [tabId];
  }

  lemma RunSnoc(s: State, events: seq<Timed>, e: Timed, ttl: int)
    ensures Run(s, events + [e], ttl) == Apply(Run(s, events, ttl), e.event, e.now, ttl).state
    ensures FreshRun(s, events + [e], ttl) <==> FreshRun(s, events, ttl) && Fresh(Run(s, events, ttl), e.event)
  {
    assert Front(events + [e]) == events;
  }

  // ---------------------------------------------------------------- what a caller is told

  /** What the owner of `owner` is told about a task: nothing to find, not theirs, or by its state. */
  function Verdict(s: State, id: Str, owner: Str): Outcome {
    if id !in s.tasks then Refused(TaskNotFound)
    else if s.tasks[id].owner != owner then Refused(TaskOwnershipMismatch)
    else match s.tasks[id].state
      case Active => Done(id)
      case Suspended => Done(id)
      case Finishing => Refused(TaskSuspended)
      case Finished => Refused(TaskNotFound)
      case Expired => Refused(TaskExpired)
  }

  /** Leasing, accessing and attaching are answered by the verdict on the task; a tab leads to its
      own task, and one that another task holds is refused. */
  lemma AnsweredByVerdict(s: State, id: Str, tabId: Str, owner: Str, now: int, ttl: int)
    ensures Apply(s, AcquireForTask(id, owner), now, ttl).outcome == Verdict(s, id, owner)
    ensures tabId in s.taskByTab ==>
      && Apply(s, AssertTabAccess(tabId, owner), now, ttl).outcome == Verdict(s, s.taskByTab[tabId], owner)
      && Apply(s, AcquireForTab(tabId, owner), now, ttl).outcome == Verdict(s, s.taskByTab[tabId], owner)
    ensures tabId !in s.taskByTab ==>
      && Apply(s, AssertTabAccess(tabId, owner), now, ttl).outcome == Refused(TaskNotFound)
      && Apply(s, AcquireForTab(tabId, owner), now, ttl).outcome == Refused(TaskNotFound)
    ensures Apply(s, AttachTab(id, tabId, owner), now, ttl).outcome ==
      if Verdict(s, id, owner) == Done(id) && tabId in s.taskByTab && s.taskByTab[tabId] != id then Refused(TaskOwnershipMismatch)
      else Verdict(s, id, owner)
  {
    if tabId in s.taskByTab { TabAnswered(s, tabId, owner, now, ttl); }
  }

  lemma TabAnswered(s: State, tabId: Str, owner: Str, now: int, ttl: int)
    requires tabId in s.taskByTab
    ensures Apply(s, AcquireForTab(tabId, owner), now, ttl).outcome == Verdict(s, s.taskByTab[tabId], owner)
  {
    var id := s.taskByTab[tabId];
    QuietRequire(s, id, owner, false, true, now, ttl);
    var r := RequireOwned(s, id, owner, false, true, now, ttl);
    QuietRequire(r.state, id, owner, false, true, now, ttl);
  }

  predicate Mine(s: State, owner: Str, id: Str) {
    id in s.tasks && s.tasks[id].owner == owner && s.tasks[id].state in {Active, Suspended}
  }

  /** Opening without an id: a new task when the caller has none that can be used, the one there
      is, active from now on, or a request to say which. An empty id counts as none. */
  lemma OpenedExactlyWhen(s: State, owner: Str, newId: Str, now: int, ttl: int)
    ensures Apply(s, ResolveForOpen(Some([]), owner, newId), now, ttl) == Apply(s, ResolveForOpen(None, owner, newId), now, ttl)
    ensures var r := Apply(s, ResolveForOpen(None, owner, newId), now, ttl);
            && ((forall id :: !Mine(s, owner, id)) ==>
                  r == Step(s.(tasks := s.tasks[newId := Task(owner, Active, [], now, now, now + ttl)]), Done(newId)))
            && (forall id | Mine(s, owner, id) && (forall other :: Mine(s, owner, other) ==> other == id) ::
                  && r.outcome == Done(id)
                  && r.state == s.(tasks := s.tasks[id := s.tasks[id].(state := Active, lastActivityAt := now, expiresAt := now + ttl)]))
            && (forall a, b | Mine(s, owner, a) && Mine(s, owner, b) && a != b :: r == Step(s, Refused(TaskScopeRequired)))
  {
    var owned := Owned(s, owner, false);
    assert forall id :: id in owned <==> Mine(s, owner, id);
    if |owned| == 1 {
      var id := Only(owned);
      assert id in owned && forall other | other in owned :: other == id;
    }
    forall id | Mine(s, owner, id) && (forall other :: Mine(s, owner, other) ==> other == id) ensures |owned| == 1 {
      assert owned == {id};
    }
    forall a, b | Mine(s, owner, a) && Mine(s, owner, b) && a != b ensures |owned| > 1 {
      assert {a, b} <= owned;
      SubsetSize({a, b}, owned);
    }
  }

  /** Finishing starts for an active or suspended task of the owner, which keeps its time and its
      tabs; a finished one is handed back as it is. */
  lemma FinishedExactlyWhen(s: State, id: Str, owner: Str, now: int, ttl: int)
    ensures var r := Apply(s, BeginFinish(id, owner), now, ttl);
            if Mine(s, owner, id) then
              r == Step(s.(tasks := s.tasks[id := s.tasks[id].(state := Finishing, lastActivityAt := now)]), Done(id))
            else if id in s.tasks && s.tasks[id].owner == owner && s.tasks[id].state == Finished then r == Step(s, Done(id))
            else r == Step(s, Verdict(s, id, owner))
  {
  }

  // ---------------------------------------------------------------- how long a task lives

  /** Operations that always count as a use of the task they succeed on. */
  predicate Uses(e: Event) {
    match e
    case Create(_, _) => true
    case AttachTab(_, _, _) => true
    case DetachTab(_) => true
    case AcquireForTask(_, _) => true
    case AcquireForTab(_, _) => true
    case RestoreAfterFailedFinalization(_) => true
    case _ => false
  }

  /** A use that succeeds gives the task the whole time to live again, and so does the release
      of a lease while the task is active or suspended. */
  lemma UseExtends(s: State, e: Event, now: int, ttl: int)
    requires Apply(s, e, now, ttl).outcome.Done?
    requires Uses(e) || (e.Release? && s.leases[e.lease].taskId in s.tasks && s.tasks[s.leases[e.lease].taskId].state in {Active, Suspended})
    ensures var r := Apply(s, e, now, ttl); var id := r.outcome.taskId;
            id in r.state.tasks && r.state.tasks[id].expiresAt == now + ttl && r.state.tasks[id].lastActivityAt == now
  {
    match e
    case AttachTab(id, _, owner) => QuietRequire(s, id, owner, false, true, now, ttl);
    case AcquireForTask(id, owner) => QuietRequire(s, id, owner, false, true, now, ttl);
    case AcquireForTab(tabId, owner) => TabUseExtends(s, tabId, owner, now, ttl);
    case _ =>
  }

  lemma TabUseExtends(s: State, tabId: Str, owner: Str, now: int, ttl: int)
    requires AcquireByTab(s, tabId, owner, now, ttl).outcome.Done?
    ensures var r := AcquireByTab(s, tabId, owner, now, ttl); var id := r.outcome.taskId;
            id in r.state.tasks && r.state.tasks[id].expiresAt == now + ttl && r.state.tasks[id].lastActivityAt == now
  {
    var r := TabAccess(s, tabId, owner, now, ttl);
    QuietRequire(r.state, r.outcome.taskId, owner, false, true, now, ttl);
  }

  /** So the reaper leaves it alone for that long. */
  lemma UsedIsSpared(s: State, e: Event, now: int, ttl: int, later: int)
    requires Apply(s, e, now, ttl).outcome.Done? && later < now + ttl
    requires Uses(e) || (e.Release? && s.leases[e.lease].taskId in s.tasks && s.tasks[s.leases[e.lease].taskId].state in {Active, Suspended})
    ensures var r := Apply(s, e, now, ttl);
            Apply(r.state, BeginExpiration(r.outcome.taskId), later, ttl) == Step(r.state, Nothing)
  {
    UseExtends(s, e, now, ttl);
  }

  /** The caller names the task, by its id or by a tab of it. */
  predicate NamesTask(e: Event) {
    e.AssertTabAccess? || ((e.ResolveForOpen? || e.ResolveScoped?) && Given(e.given))
  }

  /** Opening or accessing a task does not always count as a use: an active one that the caller
      names keeps the time it had. */
  lemma OpenedIsSparedExactlyWhen(s: State, e: Event, id: Str, now: int, ttl: int)
    requires e.AssertTabAccess? || e.ResolveForOpen? || e.ResolveScoped?
    requires Fresh(s, e) && Apply(s, e, now, ttl).outcome == Done(id) && id in s.tasks && s.tasks[id].state in {Active, Suspended}
    ensures var t := Apply(s, e, now, ttl).state;
            (forall later | later < now + ttl :: Apply(t, BeginExpiration(id), later, ttl).outcome == Nothing) <==>
              LeaseCount(s, id) > 0 || s.tasks[id].state == Suspended || !NamesTask(e) || s.tasks[id].expiresAt >= now + ttl
  {
    var t := Apply(s, e, now, ttl).state;
    OpenedTime(s, e, id, now, ttl);
    assert Apply(t, BeginExpiration(id), now + ttl - 1, ttl).outcome == Nothing <==>
      LeaseCount(t, id) > 0 || t.tasks[id].expiresAt > now + ttl - 1;
  }

  lemma OpenedTime(s: State, e: Event, id: Str, now: int, ttl: int)
    requires e.AssertTabAccess? || e.ResolveForOpen? || e.ResolveScoped?
    requires Fresh(s, e) && Apply(s, e, now, ttl).outcome == Done(id) && id in s.tasks && s.tasks[id].state in {Active, Suspended}
    ensures var t := Apply(s, e, now, ttl).state;
            && id in t.tasks && t.tasks[id].state == Active && LeaseCount(t, id) == LeaseCount(s, id)
            && t.tasks[id].expiresAt ==
                 if s.tasks[id].state == Suspended || !NamesTask(e) then now + ttl else s.tasks[id].expiresAt
  {
    if !NamesTask(e) {
      var owned := Owned(s, e.owner, e.ResolveScoped? && e.includeFinished);
      if |owned| == 1 { assert Only(owned) in owned; }
    }
  }

  lemma OneTask(row: Row<Task>)
    ensures Initial([row]).tasks == map[row.id := row.v] && Initial([row]).activeLeases == map[]
  {
    assert Front([row]) == [];
  }

  /** Opened by its id one tick before its time is up, it is taken by the reaper at that time. */
  lemma OpenedTaskExpiresExample(id: Str, owner: Str, ttl: int)
    requires id != [] && ttl > 1
    ensures var s := Initial([Row(id, Task(owner, Active, [], 0, 0, 100))]);
            var r := Apply(s, ResolveForOpen(Some(id), owner, [0] + id), 99, ttl);
            r.outcome == Done(id) && Apply(r.state, BeginExpiration(id), 100, ttl).outcome == Done(id)
  {
    var row := Row(id, Task(owner, Active, [], 0, 0, 100));
    OneTask(row);
  }

  /** Between the reaper's start and a restore, nobody holds or can use the task, whatever
      else happens. */
  lemma {:induction false} RunStaysReaped(s: State, events: seq<Timed>, ttl: int, id: Str)
    requires Reaped(s, id) && FreshRun(s, events, ttl)
    requires forall e | e in events :: e.event != RestoreAfterFailedFinalization(id)
    ensures Reaped(Run(s, events, ttl), id)
  {
    if events != [] {
      FrontLast(events);
      RunStaysReaped(s, Front(events), ttl, id);
      ReapedStaysReaped(Run(s, Front(events), ttl), Last(events).event, Last(events).now, ttl, id);
    }
  }

  // ---------------------------------------------------------------- the class

  class BrowserTaskRegistry {
    const ttlMs: int
    var tasks: map<Str, Task>
    var taskByTab: map<Str, Str>
    var activeLeases: map<Str, nat>
    /** The leases handed out; their `released` flags live in the release functions. */
    var leases: seq<Lease>

    ghost function View(): State
      reads this
    {
      State(tasks, taskByTab, activeLeases, leases)
    }

    constructor (initialTasks: seq<Row<Task>>, ttlMs: int)
      ensures View() == Initial(initialTasks) && this.ttlMs == ttlMs
    {
      this.ttlMs := ttlMs;
      tasks, taskByTab, activeLeases, leases := map[], map[], map[], [];
      new;
      var i := 0;
      while i < |initialTasks|
        invariant 0 <= i <= |initialTasks|
        invariant View() == Initial(initialTasks[..i])
      {
        var task := initialTasks[i];
        assert Front(initialTasks[..i + 1]) == initialTasks[..i] && Last(initialTasks[..i + 1]) == task;
        tasks := tasks[task.id := task.v];
        IndexTabs(task.id, task.v.tabIds);
        i := i + 1;
      }
      assert initialTasks[..i] == initialTasks;
    }

    method IndexTabs(id: Str, ids: seq<Str>)
      modifies `taskByTab
      ensures taskByTab == AddTabs(old(taskByTab), ids, id)
    {
      var j := 0;
      while j < |ids|
        invariant 0 <= j <= |ids|
        invariant taskByTab == AddTabs(old(taskByTab), ids[..j], id)
      {
        assert Front(ids[..j + 1]) == ids[..j] && Last(ids[..j + 1]) == ids[j];
        if ids[j] !in taskByTab {
          taskByTab := taskByTab[ids[j] := id];
        }
        j := j + 1;
      }
      assert ids[..j] == ids;
    }

    method TouchTask(id: Str, now: int)
      requires id in tasks
      modifies `tasks
      ensures View() == Touch(old(View()), id, now, ttlMs)
    {
      tasks := tasks[id := tasks[id].(lastActivityAt := now, expiresAt := now + ttlMs)];
    }

    method ResumeTask(id: Str, now: int)
      requires id in tasks
      modifies `tasks
      ensures View() == Resume(old(View()), id, now, ttlMs)
    {
      tasks := tasks[id := tasks[id].(state := Active)];
      TouchTask(id, now);
    }

    method RequireOwnedTask(id: Str, owner: Str, includeFinished: bool, resumeSuspended: bool, now: int) returns (r: Outcome)
      modifies `tasks
      ensures Step(View(), r) == RequireOwned(old(View()), id, owner, includeFinished, resumeSuspended, now, ttlMs)
    {
      if id !in tasks { return Refused(TaskNotFound); }
      var task := tasks[id];
      if task.owner != owner { return Refused(TaskOwnershipMismatch); }
      if task.state.Expired? { return Refused(TaskExpired); }
      if task.state.Finished? && !includeFinished { return Refused(TaskNotFound); }
      if task.state.Finishing? { return Refused(TaskSuspended); }
      if resumeSuspended && task.state.Suspended? {
        ResumeTask(id, now);
      }
      return Done(id);
    }

    method CreateTask(newId: Str, owner: Str, now: int) returns (r: Outcome)
      modifies `tasks
      ensures Step(View(), r) == Apply(old(View()), Create(newId, owner), now, ttlMs)
    {
      tasks := tasks[newId := Task(owner, Active, [], now, now, now + ttlMs)];
      r := Done(newId);
    }

    method OpenResolved(given: Option<Str>, owner: Str, newId: Str, now: int) returns (r: Outcome)
      modifies `tasks
      ensures Step(View(), r) == Apply(old(View()), ResolveForOpen(given, owner, newId), now, ttlMs)
    {
      if Given(given) {
        r := RequireOwnedTask(given.value, owner, false, true, now);
        return;
      }
      var accessible := set id | id in tasks && tasks[id].owner == owner && Accessible(tasks[id].state);
      assert accessible == Owned(View(), owner, false);
      if |accessible| == 0 {
        r := CreateTask(newId, owner, now);
      } else if |accessible| > 1 {
        r := Refused(TaskScopeRequired);
      } else {
        var id := Only(accessible);
        assert id in accessible;
        ResumeTask(id, now);
        r := Done(id);
      }
    }

    method ScopedResolved(given: Option<Str>, owner: Str, includeFinished: bool, now: int) returns (r: Outcome)
      modifies `tasks
      ensures Step(View(), r) == Apply(old(View()), ResolveScoped(given, owner, includeFinished), now, ttlMs)
    {
      if Given(given) {
        r := RequireOwnedTask(given.value, owner, includeFinished, true, now);
        return;
      }
      var accessible := set id | id in tasks && tasks[id].owner == owner
                                 && (Accessible(tasks[id].state) || (includeFinished && tasks[id].state.Finished?));
      assert accessible == Owned(View(), owner, includeFinished);
      if |accessible| == 0 { return Refused(TaskNotFound); }
      if |accessible| > 1 { return Refused(TaskScopeRequired); }
      var id := Only(accessible);
      assert id in accessible;
      if Accessible(tasks[id].state) {
        ResumeTask(id, now);
      }
      r := Done(id);
    }

    method TabAccessed(tabId: Str, owner: Str, now: int) returns (r: Outcome)
      modifies `tasks
      ensures Step(View(), r) == Apply(old(View()), AssertTabAccess(tabId, owner), now, ttlMs)
    {
      if tabId !in taskByTab { return Refused(TaskNotFound); }
      r := RequireOwnedTask(taskByTab[tabId], owner, false, true, now);
    }

    method AcquireTab(tabId: Str, owner: Str, now: int) returns (r: Outcome)
      modifies `tasks, `activeLeases, `leases
      ensures Step(View(), r) == Apply(old(View()), AcquireForTab(tabId, owner), now, ttlMs)
    {
      r := TabAccessed(tabId, owner, now);
      if r.Refused? { return; }
      if tabId in taskByTab { QuietRequire(old(View()), taskByTab[tabId], owner, false, true, now, ttlMs); }
      var lease;
      r, lease := Acquire(r.taskId, owner, now);
    }

    method Attach(id: Str, tabId: Str, owner: Str, now: int) returns (r: Outcome)
      modifies `tasks, `taskByTab
      ensures Step(View(), r) == Apply(old(View()), AttachTab(id, tabId, owner), now, ttlMs)
    {
      QuietRequire(View(), id, owner, false, true, now, ttlMs);
      r := RequireOwnedTask(id, owner, false, true, now);
      if r.Refused? { return; }
      if tabId in taskByTab && taskByTab[tabId] != id { return Refused(TaskOwnershipMismatch); }
      if tabId !in tasks[id].tabIds {
        tasks := tasks[id := tasks[id].(tabIds := tasks[id].tabIds + [tabId])];
      }
      taskByTab := taskByTab[tabId := id];
      TouchTask(id, now);
    }

    method AttachKnown(id: Str, tabId: Str) returns (r: Outcome)
      modifies `tasks, `taskByTab
      ensures Step(View(), r) == Apply(old(View()), AttachExistingTab(id, tabId), 0, ttlMs)
    {
      if id !in tasks { return Refused(TaskNotFound); }
      if tabId in taskByTab && taskByTab[tabId] != id { return Refused(TaskOwnershipMismatch); }
      if tabId !in tasks[id].tabIds {
        tasks := tasks[id := tasks[id].(tabIds := tasks[id].tabIds + [tabId])];
      }
      taskByTab := taskByTab[tabId := id];
      r := Done(id);
    }

    method Detach(tabId: Str, now: int) returns (r: Outcome)
      modifies `tasks, `taskByTab
      ensures Step(View(), r) == Apply(old(View()), DetachTab(tabId), now, ttlMs)
    {
      if tabId !in taskByTab { return Nothing; }
      var id := taskByTab[tabId];
      taskByTab := taskByTab - {tabId};
      if id !in tasks { return Nothing; }
      tasks := tasks[id := tasks[id].(tabIds := Without(tasks[id].tabIds, tabId))];
      TouchTask(id, now);
      r := Done(id);
    }

    method Acquire(id: Str, owner: Str, now: int) returns (r: Outcome, lease: nat)
      modifies `tasks, `activeLeases, `leases
      ensures Step(View(), r) == Apply(old(View()), AcquireForTask(id, owner), now, ttlMs)
      ensures r.Done? ==> lease == |old(leases)| && leases == old(leases) + [Lease(id, false)]
    {
      QuietRequire(View(), id, owner, false, true, now, ttlMs);
      lease := |leases|;
      r := RequireOwnedTask(id, owner, false, true, now);
      if r.Refused? { return; }
      activeLeases := activeLeases[id := (if id in activeLeases then activeLeases[id] else 0) + 1];
      leases := leases + [Lease(id, false)];
      TouchTask(id, now);
    }

    method ReleaseOne(lease: nat, now: int) returns (r: Outcome)
      modifies `tasks, `activeLeases, `leases
      ensures Step(View(), r) == Apply(old(View()), Release(lease), now, ttlMs)
    {
      if lease >= |leases| || leases[lease].released { return Nothing; }
      var id := leases[lease].taskId;
      leases := leases[lease := Lease(id, true)];
      var count := if id in activeLeases then activeLeases[id] else 1;
      var remaining := if count < 1 then 0 else count - 1;
      activeLeases := if remaining == 0 then activeLeases - {id} else activeLeases[id := remaining];
      if id in tasks && Accessible(tasks[id].state) {
        TouchTask(id, now);
      }
      r := Done(id);
    }

    method Finish(id: Str, owner: Str, now: int) returns (r: Outcome)
      modifies `tasks
      ensures Step(View(), r) == Apply(old(View()), BeginFinish(id, owner), now, ttlMs)
    {
      r := RequireOwnedTask(id, owner, true, false, now);
      if r.Refused? || tasks[id].state.Finished? { return; }
      tasks := tasks[id := tasks[id].(state := Finishing, lastActivityAt := now)];
    }

    /** completeFinish and markExpired differ in the state they leave. */
    method End(id: Str, state: TaskState, now: int) returns (r: Outcome)
      modifies `tasks, `taskByTab
      ensures Step(View(), r) == EndTask(old(View()), id, state, now)
    {
      if id !in tasks { return Refused(TaskNotFound); }
      var task := tasks[id];
      var ids := task.tabIds;
      var i := 0;
      while i < |ids|
        modifies `taskByTab
        invariant 0 <= i <= |ids|
        invariant taskByTab == RemoveAll(old(taskByTab), ids[..i])
      {
        assert Front(ids[..i + 1]) == ids[..i] && Last(ids[..i + 1]) == ids[i];
        taskByTab := taskByTab - {ids[i]};
        i := i + 1;
      }
      assert ids[..i] == ids;
      tasks := tasks[id := task.(state := state, tabIds := [], lastActivityAt := now, expiresAt := now)];
      r := Done(id);
    }

    method Expire(id: Str, now: int) returns (r: Outcome)
      modifies `tasks
      ensures Step(View(), r) == Apply(old(View()), BeginExpiration(id), now, ttlMs)
    {
      if id !in tasks || !Accessible(tasks[id].state) { return Nothing; }
      if id in activeLeases && activeLeases[id] > 0 { return Nothing; }
      if tasks[id].expiresAt > now { return Nothing; }
      tasks := tasks[id := tasks[id].(state := Finishing)];
      r := Done(id);
    }

    method RestoreFailed(id: Str, now: int) returns (r: Outcome)
      modifies `tasks
      ensures Step(View(), r) == Apply(old(View()), RestoreAfterFailedFinalization(id), now, ttlMs)
    {
      if id !in tasks || !tasks[id].state.Finishing? { return Nothing; }
      ResumeTask(id, now);
      r := Done(id);
    }

    /** What the reaper looks at is exactly what it may take. */
    function ExpiredCandidates(now: int): (ids: set<Str>)
      reads this
      ensures forall id :: id in ids <==> StartExpiration(View(), id, now).outcome == Done(id)
    {
      set id | id in tasks && Accessible(tasks[id].state)
               && (if id in activeLeases then activeLeases[id] else 0) == 0 && tasks[id].expiresAt <= now
    }
  }
}
