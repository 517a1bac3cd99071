/** Recovery of the stored browser registry (session-registry.ts): repair to a relationally
    consistent state. */
module SessionRegistry {
  import opened Text
  import opened Rows

  datatype SessionState = Starting | Connected | Disconnected | Failed

  /** `lastUsedAt` is the place of the timestamp in the order localeCompare gives. `rest` is
      every field the recovery only copies. */
  datatype Session = Session(state: SessionState, createdAt: int, lastUsedAt: int, rest: Str)

  datatype Tab = Tab(sessionId: Str, remoteTabId: Str, remoteIndex: nat, rest: Str)

  datatype Binding = Binding(sessionId: Str, remoteTabId: Str, remoteIndex: nat, rest: Str)

  datatype Lifecycle = TaskScoped | Persistent | External

  datatype OwnedTab = OwnedTab(tab: Tab, taskId: Str, lifecycle: Lifecycle)

  datatype TaskState = Active | Suspended | Finishing | Finished | Expired

  datatype Task = Task(owner: Str, state: TaskState, tabIds: seq<Str>, createdAt: int, lastActivityAt: int, expiresAt: int)

  datatype V4 = V4(sessions: seq<Row<Session>>, tabs: seq<Row<Tab>>, bindings: seq<Row<Binding>>)

  datatype V6 = V6(sessions: seq<Row<Session>>, tasks: seq<Row<Task>>, tabs: seq<Row<OwnedTab>>, bindings: seq<Row<Binding>>)

  datatype RegistryError = Inconsistent | InvalidTask

  // ---------------------------------------------------------------- the relational checks

  predicate Agrees(t: Tab, b: Option<Binding>) {
    b.Some? && b.value.sessionId == t.sessionId && b.value.remoteTabId == t.remoteTabId && b.value.remoteIndex == t.remoteIndex
  }

  predicate Bound(t: Row<Tab>, sessions: seq<Row<Session>>, bindings: seq<Row<Binding>>) {
    Find(sessions, t.v.sessionId).Some? && Agrees(t.v, Find(bindings, t.id))
  }

  predicate ConsistentV4(d: V4) {
    && |d.sessions| <= 100 && |d.tabs| <= 500 && |d.bindings| <= 500
    && Unique(d.sessions) && Unique(d.tabs) && Unique(d.bindings)
    && (forall t | t in d.tabs :: Bound(t, d.sessions, d.bindings))
    && (forall b | b in d.bindings :: b.id in Ids(d.tabs))
  }

  predicate Terminal(s: TaskState) {
    s.Finished? || s.Expired?
  }

  predicate UniqueIds(ids: seq<Str>) {
    ids == [] || (UniqueIds(Front(ids)) && Last(ids) !in Front(ids))
  }

  predicate Placed(t: Row<OwnedTab>, d: V6) {
    && Find(d.sessions, t.v.tab.sessionId).Some?
    && Agrees(t.v.tab, Find(d.bindings, t.id))
    && var task := Find(d.tasks, t.v.taskId);
       task.Some? && t.id in task.value.tabIds && !Terminal(task.value.state)
  }

  predicate OwnsItsTabs(k: Row<Task>, tabs: seq<Row<OwnedTab>>) {
    && UniqueIds(k.v.tabIds)
    && (Terminal(k.v.state) ==> k.v.tabIds == [])
    && forall id | id in k.v.tabIds :: OwnedBy(Find(tabs, id), k.id)
  }

  predicate OwnedBy(t: Option<OwnedTab>, taskId: Str) {
    t.Some? && t.value.taskId == taskId
  }

  predicate WithinLimits(d: V6) {
    |d.sessions| <= 100 && |d.tasks| <= 500 && |d.tabs| <= 500 && |d.bindings| <= 500
  }

  predicate ConsistentV6(d: V6) {
    && WithinLimits(d)
    && Unique(d.sessions) && Unique(d.tasks) && Unique(d.tabs) && Unique(d.bindings)
    && (forall t | t in d.tabs :: Placed(t, d))
    && (forall k | k in d.tasks :: OwnsItsTabs(k, d.tabs))
    && (forall b | b in d.bindings :: b.id in Ids(d.tabs))
  }

  // ---------------------------------------------------------------- version 4

  /** Stable sort, latest use first. */
  function Insert(x: Row<Session>, sorted: seq<Row<Session>>): (r: seq<Row<Session>>)
    ensures |r| == |sorted| + 1
    ensures forall y :: y in r <==> y == x || y in sorted
  {
    if sorted == [] || sorted[0].v.lastUsedAt <= x.v.lastUsedAt then [x] + sorted
    else [sorted[0]] + Insert(x, sorted[1..])
  }

  function SortByUse(s: seq<Row<Session>>): (r: seq<Row<Session>>)
    ensures |r| == |s|
    ensures forall y :: y in r <==> y in s
  {
    if s == [] then [] else Insert(s[0], SortByUse(s[1..]))
  }

  predicate Sorted(s: seq<Row<Session>>) {
    forall i, j | 0 <= i < j < |s| :: s[i].v.lastUsedAt >= s[j].v.lastUsedAt
  }

  function Rest(s: SessionState): SessionState {
    if s.Starting? || s.Connected? then Disconnected else s
  }

  /** Nothing is connected after a restart. */
  function Disconnect(s: seq<Row<Session>>): (r: seq<Row<Session>>)
    ensures |r| == |s| && Ids(r) == Ids(s)
    ensures Unique(s) ==> Unique(r)
    ensures forall i | 0 <= i < |s| :: r[i] == s[i].(v := s[i].v.(state := Rest(s[i].v.state)))
  {
    if s == [] then []
    else (
      var x := Last(s);
      var r := Disconnect(Front(s));
      assert Front(r + [x.(v := x.v.(state := Rest(x.v.state)))]) == r;
      r + [x.(v := x.v.(state := Rest(x.v.state)))]
    )
  }

  function BoundTabs(tabs: seq<Row<Tab>>, sessions: seq<Row<Session>>, bindings: seq<Row<Binding>>): (r: seq<Row<Tab>>)
    ensures |r| <= |tabs| && Ids(r) <= Ids(tabs)
    ensures Unique(tabs) ==> Unique(r)
    ensures forall t :: t in r <==> t in tabs && Bound(t, sessions, bindings)
    ensures (forall t | t in tabs :: Bound(t, sessions, bindings)) ==> r == tabs
  {
    if tabs == [] then []
    else (
      FrontLast(tabs);
      var r := BoundTabs(Front(tabs), sessions, bindings);
      if Bound(Last(tabs), sessions, bindings) then assert Front(r + [Last(tabs)]) == r; r + [Last(tabs)] else r
    )
  }

  function SessionIds(tabs: seq<Row<Tab>>): (ids: set<Str>)
    ensures forall t | t in tabs :: t.v.sessionId in ids
  {
    if tabs == [] then {}
    else (
      FrontLast(tabs);
      SessionIds(Front(tabs)) + {Last(tabs).v.sessionId}
    )
  }

  /** A session stays if a tab uses it or it was stored as disconnected. */
  predicate Retained(id: Str, used: set<Str>, stored: seq<Row<Session>>) {
    || id in used
    || var before := Find(stored, id);
       before.Some? && before.value.state.Disconnected?
  }

  function RetainedSessions(sessions: seq<Row<Session>>, used: set<Str>, stored: seq<Row<Session>>): (r: seq<Row<Session>>)
    ensures |r| <= |sessions| && Ids(r) <= Ids(sessions)
    ensures Unique(sessions) ==> Unique(r)
    ensures forall s :: s in r <==> s in sessions && Retained(s.id, used, stored)
    ensures (forall s | s in sessions :: Retained(s.id, used, stored)) ==> r == sessions
  {
    if sessions == [] then []
    else (
      FrontLast(sessions);
      var r := RetainedSessions(Front(sessions), used, stored);
      if Retained(Last(sessions).id, used, stored) then assert Front(r + [Last(sessions)]) == r; r + [Last(sessions)] else r
    )
  }

  function TabsOf(tabs: seq<Row<Tab>>, sessionIds: set<Str>): (r: seq<Row<Tab>>)
    ensures |r| <= |tabs|
    ensures (forall t | t in tabs :: t.v.sessionId in sessionIds) ==> r == tabs
  {
    if tabs == [] then []
    else (
      FrontLast(tabs);
      var r := TabsOf(Front(tabs), sessionIds);
      if Last(tabs).v.sessionId in sessionIds then r + [Last(tabs)] else r
    )
  }

  predicate Wanted(b: Row<Binding>, tabIds: set<Str>, sessionIds: set<Str>) {
    b.id in tabIds && b.v.sessionId in sessionIds
  }

  function BindingsOf(bindings: seq<Row<Binding>>, tabIds: set<Str>, sessionIds: set<Str>): (r: seq<Row<Binding>>)
    ensures |r| <= |bindings| && Ids(r) <= Ids(bindings)
    ensures Unique(bindings) ==> Unique(r)
    ensures forall b :: b in r <==> b in bindings && Wanted(b, tabIds, sessionIds)
    ensures (forall b | b in bindings :: Wanted(b, tabIds, sessionIds)) ==> r == bindings
  {
    if bindings == [] then []
    else (
      FrontLast(bindings);
      var r := BindingsOf(Front(bindings), tabIds, sessionIds);
      if Wanted(Last(bindings), tabIds, sessionIds) then assert Front(r + [Last(bindings)]) == r; r + [Last(bindings)] else r
    )
  }

  /** The repaired value, before it is checked. */
  function RepairV4(d: V4): V4 {
    var sessions := Disconnect(Dedup(SortByUse(d.sessions)));
    var bindings := Dedup(d.bindings);
    var tabs := BoundTabs(Dedup(d.tabs), sessions, bindings);
    var retained := RetainedSessions(sessions, SessionIds(tabs), d.sessions);
    V4(retained, TabsOf(tabs, Ids(retained)), BindingsOf(bindings, Ids(tabs), Ids(retained)))
  }

  function RecoverV4(d: V4): Result<V4, RegistryError> {
    var r := RepairV4(d);
    if ConsistentV4(r) then Success(r) else Failure(Inconsistent)
  }

  ghost predicate ShapedV4(d: V4) {
    |d.sessions| <= 100 && |d.tabs| <= 500 && |d.bindings| <= 500
  }

  lemma {:induction false} UsedSession(tabs: seq<Row<Tab>>, id: Str)
    requires id in SessionIds(tabs)
    ensures exists t | t in tabs :: t.v.sessionId == id
  {
    FrontLast(tabs);
    if Last(tabs).v.sessionId != id { UsedSession(Front(tabs), id); }
  }

  lemma SortIds(s: seq<Row<Session>>)
    ensures Ids(SortByUse(s)) == Ids(s)
  {
    forall id ensures id in Ids(SortByUse(s)) <==> id in Ids(s) {
      if id in Ids(s) { assert Row(id, Find(s, id).value) in SortByUse(s); }
      if id in Ids(SortByUse(s)) { assert Row(id, Find(SortByUse(s), id).value) in s; }
    }
  }

  lemma KeptSession(sessions: seq<Row<Session>>, used: set<Str>, stored: seq<Row<Session>>, id: Str)
    requires Unique(sessions) && id in used && Find(sessions, id).Some?
    ensures Find(RetainedSessions(sessions, used, stored), id).Some?
  {
    var s := Row(id, Find(sessions, id).value);
    assert Retained(s.id, used, stored);
    FindUnique(RetainedSessions(sessions, used, stored), s);
  }

  lemma KeptBinding(bindings: seq<Row<Binding>>, tabIds: set<Str>, sessionIds: set<Str>, t: Row<Tab>)
    requires Unique(bindings) && t.id in tabIds && t.v.sessionId in sessionIds && Agrees(t.v, Find(bindings, t.id))
    ensures Agrees(t.v, Find(BindingsOf(bindings, tabIds, sessionIds), t.id))
  {
    var b := Row(t.id, Find(bindings, t.id).value);
    assert Wanted(b, tabIds, sessionIds);
    FindUnique(BindingsOf(bindings, tabIds, sessionIds), b);
  }

  lemma RepairedAreBound(sessions: seq<Row<Session>>, tabs: seq<Row<Tab>>, bindings: seq<Row<Binding>>, stored: seq<Row<Session>>)
    requires Unique(sessions) && Unique(bindings) && forall t | t in tabs :: Bound(t, sessions, bindings)
    ensures var retained := RetainedSessions(sessions, SessionIds(tabs), stored);
            && (forall t | t in tabs :: t.v.sessionId in Ids(retained))
            && (forall t | t in tabs :: Bound(t, retained, BindingsOf(bindings, Ids(tabs), Ids(retained))))
  {
    var used := SessionIds(tabs);
    var retained := RetainedSessions(sessions, used, stored);
    forall t | t in tabs
      ensures t.v.sessionId in Ids(retained) && Bound(t, retained, BindingsOf(bindings, Ids(tabs), Ids(retained)))
    {
      assert Bound(t, sessions, bindings);
      KeptSession(sessions, used, stored, t.v.sessionId);
      KeptBinding(bindings, Ids(tabs), Ids(retained), t);
    }
  }

  lemma Assembled(sessions: seq<Row<Session>>, tabs: seq<Row<Tab>>, bindings: seq<Row<Binding>>, stored: seq<Row<Session>>)
    requires |sessions| <= 100 && |tabs| <= 500 && |bindings| <= 500
    requires Unique(sessions) && Unique(tabs) && Unique(bindings)
    requires forall t | t in tabs :: Bound(t, sessions, bindings)
    ensures var retained := RetainedSessions(sessions, SessionIds(tabs), stored);
            ConsistentV4(V4(retained, TabsOf(tabs, Ids(retained)), BindingsOf(bindings, Ids(tabs), Ids(retained))))
  {
    RepairedAreBound(sessions, tabs, bindings, stored);
  }

  lemma NoneIsConnected(stored: seq<Row<Session>>, used: set<Str>, original: seq<Row<Session>>)
    ensures forall s | s in RetainedSessions(Disconnect(stored), used, original) :: Rest(s.v.state) == s.v.state
  {
    forall s | s in RetainedSessions(Disconnect(stored), used, original) ensures Rest(s.v.state) == s.v.state {
      var row := SleptFrom(stored, s);
    }
  }

  /** Whatever is stored, the repair of version 4 satisfies the check, so it never throws. */
  lemma RecoverV4Succeeds(d: V4)
    requires ShapedV4(d)
    ensures RecoverV4(d) == Success(RepairV4(d))
    ensures forall s | s in RepairV4(d).sessions :: !s.v.state.Starting? && !s.v.state.Connected?
  {
    var sessions := Disconnect(Dedup(SortByUse(d.sessions)));
    var bindings := Dedup(d.bindings);
    var tabs := BoundTabs(Dedup(d.tabs), sessions, bindings);
    Assembled(sessions, tabs, bindings, d.sessions);
    NoneIsConnected(Dedup(SortByUse(d.sessions)), SessionIds(tabs), d.sessions);
  }

  predicate SamePage(t: Tab, b: Option<Binding>) {
    match b
    case None => false
    case Some(Binding(sessionId, remoteTabId, remoteIndex, _)) =>
      t.sessionId == sessionId && t.remoteTabId == remoteTabId && t.remoteIndex == remoteIndex
  }

  /** The first stored with its id, with a stored session, and of the same page as the first stored
      binding with its id. */
  predicate FirstAndBound(d: V4, t: Row<Tab>) {
    t in Dedup(d.tabs) && t.v.sessionId in Ids(d.sessions) && SamePage(t.v, Find(Dedup(d.bindings), t.id))
  }

  /** A tab stays exactly when it is the first stored with its id, its session is stored, and
      the first stored binding with its id agrees with it. */
  lemma RepairKeepsTabs(d: V4, t: Row<Tab>)
    requires ShapedV4(d)
    ensures t in RepairV4(d).tabs <==> FirstAndBound(d, t)
  {
    SortIds(d.sessions);
    RecoverV4Succeeds(d);
    RepairedTabs(d);
  }

  lemma RepairedTabs(d: V4)
    ensures var sessions := Disconnect(Dedup(SortByUse(d.sessions)));
            RepairV4(d).tabs == BoundTabs(Dedup(d.tabs), sessions, Dedup(d.bindings))
  {
    var sessions := Disconnect(Dedup(SortByUse(d.sessions)));
    var tabs := BoundTabs(Dedup(d.tabs), sessions, Dedup(d.bindings));
    var retained := RetainedSessions(sessions, SessionIds(tabs), d.sessions);
    forall t | t in tabs ensures t.v.sessionId in Ids(retained) {
      var s := Row(t.v.sessionId, Find(sessions, t.v.sessionId).value);
      assert Retained(s.id, SessionIds(tabs), d.sessions) && s in retained;
    }
  }

  /** A binding stays exactly when it is the first stored with its id and its tab stays. */
  lemma RepairKeepsBindings(d: V4, b: Row<Binding>)
    requires ShapedV4(d)
    ensures b in RepairV4(d).bindings <==> b in Dedup(d.bindings) && b.id in Ids(RepairV4(d).tabs)
  {
    var r := RepairV4(d);
    RecoverV4Succeeds(d);
    if b in Dedup(d.bindings) && b.id in Ids(r.tabs) {
      var t := Row(b.id, Find(r.tabs, b.id).value);
      assert t in r.tabs && Bound(t, r.sessions, r.bindings);
      var kept := Row(t.id, Find(r.bindings, t.id).value);
      assert kept in r.bindings;
      FindUnique(Dedup(d.bindings), kept);
      FindUnique(Dedup(d.bindings), b);
    }
  }

  /** Of the rows with its id, this one was used last, and is the first stored of those. */
  predicate UsedLast(stored: seq<Row<Session>>, i: nat)
    requires i < |stored|
  {
    forall j | 0 <= j < |stored| && stored[j].id == stored[i].id ::
      stored[j].v.lastUsedAt <= stored[i].v.lastUsedAt && (j < i ==> stored[j].v.lastUsedAt < stored[i].v.lastUsedAt)
  }

  /** Everything is copied, but nothing is starting or connected any more. */
  predicate LaidToSleep(before: Session, after: Session) {
    && after.createdAt == before.createdAt && after.lastUsedAt == before.lastUsedAt && after.rest == before.rest
    && after.state == if before.state == Failed then Failed else Disconnected
  }

  /** The first row with an id. */
  function FirstWith(rows: seq<Row<Session>>, id: Str): Option<Row<Session>> {
    if rows == [] then None else if rows[0].id == id then Some(rows[0]) else FirstWith(rows[1..], id)
  }

  lemma {:induction false} FirstWithFront(rows: seq<Row<Session>>, id: Str)
    requires rows != []
    ensures FirstWith(rows, id) ==
      if FirstWith(Front(rows), id).Some? then FirstWith(Front(rows), id)
      else if Last(rows).id == id then Some(Last(rows)) else None
  {
    if |rows| > 1 {
      FirstWithFront(rows[1..], id);
      assert Front(rows)[1..] == Front(rows[1..]);
    }
  }

  lemma {:induction false} DedupHasFirst(rows: seq<Row<Session>>, r: Row<Session>)
    requires r in Dedup(rows)
    ensures FirstWith(rows, r.id) == Some(r)
  {
    FrontLast(rows);
    FirstWithFront(rows, r.id);
    if r in Dedup(Front(rows)) {
      DedupHasFirst(Front(rows), r);
    } else {
      NoFirst(Front(rows), r.id);
    }
  }

  lemma {:induction false} NoFirst(rows: seq<Row<Session>>, id: Str)
    requires id !in Ids(rows)
    ensures FirstWith(rows, id).None?
  {
    if rows != [] {
      FrontLast(rows);
      FirstWithFront(rows, id);
      NoFirst(Front(rows), id);
    }
  }

  lemma {:induction false} FirstInserted(x: Row<Session>, sorted: seq<Row<Session>>, id: Str)
    requires Sorted(sorted)
    ensures FirstWith(Insert(x, sorted), id) ==
      var f := FirstWith(sorted, id);
      if x.id == id && (f.None? || f.value.v.lastUsedAt <= x.v.lastUsedAt) then Some(x) else f
  {
    var r := Insert(x, sorted);
    if sorted == [] || sorted[0].v.lastUsedAt <= x.v.lastUsedAt {
      assert r[1..] == sorted;
      FirstIsMember(sorted, id);
    } else {
      assert r[1..] == Insert(x, sorted[1..]);
      FirstInserted(x, sorted[1..], id);
    }
  }

  lemma {:induction false} FirstIsMember(rows: seq<Row<Session>>, id: Str)
    ensures FirstWith(rows, id).Some? ==> FirstWith(rows, id).value in rows && FirstWith(rows, id).value.id == id
  {
    if rows != [] { FirstIsMember(rows[1..], id); }
  }

  /** The first of the sorted rows with an id is the one that was used last. */
  lemma {:induction false} FirstSortedUsedLast(stored: seq<Row<Session>>, id: Str) returns (i: nat)
    requires FirstWith(SortByUse(stored), id).Some?
    ensures i < |stored| && stored[i] == FirstWith(SortByUse(stored), id).value && stored[i].id == id && UsedLast(stored, i)
  {
    var x, rest := stored[0], stored[1..];
    SortIsSorted(rest);
    FirstInserted(x, SortByUse(rest), id);
    var f := FirstWith(SortByUse(rest), id);
    if f.None? {
      i := 0;
      NoneSorted(rest, id);
      assert forall j | 1 <= j < |stored| :: stored[j] == rest[j - 1];
    } else {
      var k := FirstSortedUsedLast(rest, id);
      assert rest[k].id == id && forall j | 1 <= j < |stored| :: stored[j] == rest[j - 1];
      i := if x.id == id && f.value.v.lastUsedAt <= x.v.lastUsedAt then 0 else k + 1;
    }
  }

  lemma NoneSorted(rows: seq<Row<Session>>, id: Str)
    requires FirstWith(SortByUse(rows), id).None?
    ensures forall r | r in rows :: r.id != id
  {
    forall r | r in rows ensures r.id != id {
      if r.id == id { MemberHasFirst(SortByUse(rows), r); }
    }
  }

  lemma {:induction false} MemberHasFirst(rows: seq<Row<Session>>, r: Row<Session>)
    requires r in rows
    ensures FirstWith(rows, r.id).Some?
  {
    if rows[0].id != r.id { MemberHasFirst(rows[1..], r); }
  }

  /** A session row that stays is the one used last of those stored with its id, the first
      stored of those, laid to sleep. */
  lemma RepairKeepsLatestSession(d: V4, s: Row<Session>) returns (i: nat)
    requires s in RepairV4(d).sessions
    ensures i < |d.sessions| && d.sessions[i].id == s.id && UsedLast(d.sessions, i) && LaidToSleep(d.sessions[i].v, s.v)
  {
    i := SleptRowUsedLast(d.sessions, s);
  }

  lemma SleptRowUsedLast(stored: seq<Row<Session>>, s: Row<Session>) returns (i: nat)
    requires s in Disconnect(Dedup(SortByUse(stored)))
    ensures i < |stored| && stored[i].id == s.id && UsedLast(stored, i) && LaidToSleep(stored[i].v, s.v)
  {
    var row := SleptFrom(Dedup(SortByUse(stored)), s);
    DedupHasFirst(SortByUse(stored), row);
    i := FirstSortedUsedLast(stored, row.id);
  }

  predicate StoredDisconnected(stored: seq<Row<Session>>, id: Str) {
    var before := Find(stored, id);
    before.Some? && before.value.state.Disconnected?
  }

  /** A session id survives exactly when a tab that stays uses it or the last row stored with
      it says disconnected. */
  lemma RepairKeepsSessions(d: V4, id: Str)
    ensures id in Ids(RepairV4(d).sessions) <==>
      && id in Ids(d.sessions)
      && ((exists t | t in RepairV4(d).tabs :: t.v.sessionId == id) || StoredDisconnected(d.sessions, id))
  {
    var sessions := Disconnect(Dedup(SortByUse(d.sessions)));
    var tabs := RepairV4(d).tabs;
    SortIds(d.sessions);
    RepairedTabs(d);
    RetainedIds(sessions, SessionIds(tabs), d.sessions, id);
    UsedIds(tabs, id);
  }

  lemma UsedIds(tabs: seq<Row<Tab>>, id: Str)
    ensures id in SessionIds(tabs) <==> exists t | t in tabs :: t.v.sessionId == id
  {
    if id in SessionIds(tabs) { UsedSession(tabs, id); }
  }

  lemma RetainedIds(sessions: seq<Row<Session>>, used: set<Str>, stored: seq<Row<Session>>, id: Str)
    ensures id in Ids(RetainedSessions(sessions, used, stored)) <==> id in Ids(sessions) && (id in used || StoredDisconnected(stored, id))
  {
    if id in Ids(sessions) {
      var s := Row(id, Find(sessions, id).value);
      assert Retained(id, used, stored) ==> s in RetainedSessions(sessions, used, stored);
    }
    if id in Ids(RetainedSessions(sessions, used, stored)) {
      assert Row(id, Find(RetainedSessions(sessions, used, stored), id).value) in RetainedSessions(sessions, used, stored);
    }
  }

  lemma {:induction false} SortIsSorted(s: seq<Row<Session>>)
    ensures Sorted(SortByUse(s))
  {
    if s != [] {
      SortIsSorted(s[1..]);
      InsertKeepsSorted(s[0], SortByUse(s[1..]));
    }
  }

  lemma {:induction false} InsertKeepsSorted(x: Row<Session>, sorted: seq<Row<Session>>)
    requires Sorted(sorted)
    ensures Sorted(Insert(x, sorted))
  {
    if sorted == [] || sorted[0].v.lastUsedAt <= x.v.lastUsedAt {
    } else {
      InsertKeepsSorted(x, sorted[1..]);
      var r := Insert(x, sorted[1..]);
      forall j | 0 <= j < |r| ensures r[j].v.lastUsedAt <= sorted[0].v.lastUsedAt {
        assert r[j] in r;
      }
    }
  }

  // ---------------------------------------------------------------- version 6

  function Strip(tabs: seq<Row<OwnedTab>>): (r: seq<Row<Tab>>)
    ensures |r| == |tabs| && Ids(r) == Ids(tabs)
    ensures Unique(tabs) ==> Unique(r)
    ensures forall i | 0 <= i < |tabs| :: r[i] == Row(tabs[i].id, tabs[i].v.tab)
  {
    if tabs == [] then []
    else (
      var x := Row(Last(tabs).id, Last(tabs).v.tab);
      var r := Strip(Front(tabs));
      assert Front(r + [x]) == r;
      r + [x]
    )
  }

  function KeepIds(ids: seq<Str>, kept: set<Str>): (r: seq<Str>)
    ensures |r| <= |ids|
    ensures forall id :: id in r <==> id in ids && id in kept
    ensures (forall id | id in ids :: id in kept) ==> r == ids
  {
    if ids == [] then []
    else (
      FrontLast(ids);
      var r := KeepIds(Front(ids), kept);
      if Last(ids) in kept then r + [Last(ids)] else r
    )
  }

  function Suspend(s: TaskState): TaskState {
    if s.Active? || s.Finishing? then Suspended else s
  }

  function RestTask(k: Task, kept: set<Str>): Task {
    k.(state := Suspend(k.state), tabIds := if Terminal(k.state) then [] else KeepIds(k.tabIds, kept))
  }

  function RestRow(k: Row<Task>, kept: set<Str>): Row<Task> {
    Row(k.id, RestTask(k.v, kept))
  }

  lemma {:induction false} SameIds<T, U>(a: seq<Row<T>>, b: seq<Row<U>>)
    requires |a| == |b| && forall i | 0 <= i < |a| :: b[i].id == a[i].id
    ensures Ids(a) == Ids(b) && (Unique(a) <==> Unique(b))
  {
    if a != [] { SameIds(Front(a), Front(b)); }
  }

  function RestTasks(tasks: seq<Row<Task>>, kept: set<Str>): (r: seq<Row<Task>>)
    ensures |r| == |tasks| && Ids(r) == Ids(tasks)
    ensures Unique(tasks) ==> Unique(r)
    ensures forall i | 0 <= i < |tasks| :: r[i] == RestRow(tasks[i], kept)
  {
    var r := seq(|tasks|, i requires 0 <= i < |tasks| => RestRow(tasks[i], kept));
    SameIds(tasks, r);
    r
  }

  predicate Restorable(tasks: seq<Row<Task>>, id: Str) {
    var k := Find(tasks, id);
    k.Some? && (k.value.state.Active? || k.value.state.Suspended?)
  }

  /** The tab's task and lifecycle come from the last stored row with its id. */
  function Own(t: Row<Tab>, stored: seq<Row<OwnedTab>>, tasks: seq<Row<Task>>): Option<OwnedTab> {
    var o := Find(stored, t.id);
    if o.Some? && Restorable(tasks, o.value.taskId) then Some(OwnedTab(t.v, o.value.taskId, o.value.lifecycle)) else None
  }

  function OwnTabs(tabs: seq<Row<Tab>>, stored: seq<Row<OwnedTab>>, tasks: seq<Row<Task>>): (r: seq<Row<OwnedTab>>)
    ensures |r| <= |tabs| && Ids(r) <= Ids(tabs)
    ensures Unique(tabs) ==> Unique(r)
    ensures forall t :: t in r <==> Row(t.id, t.v.tab) in tabs && Own(Row(t.id, t.v.tab), stored, tasks) == Some(t.v)
  {
    if tabs == [] then []
    else (
      FrontLast(tabs);
      var r := OwnTabs(Front(tabs), stored, tasks);
      var o := Own(Last(tabs), stored, tasks);
      if o.Some? then (
        var x := Row(Last(tabs).id, o.value);
        assert Front(r + [x]) == r;
        r + [x]
      ) else r
    )
  }

  function PruneRow(k: Row<Task>, kept: set<Str>): Row<Task> {
    Row(k.id, k.v.(tabIds := KeepIds(k.v.tabIds, kept)))
  }

  function PruneTasks(tasks: seq<Row<Task>>, kept: set<Str>): (r: seq<Row<Task>>)
    ensures |r| == |tasks| && Ids(r) == Ids(tasks)
    ensures Unique(tasks) ==> Unique(r)
    ensures forall i | 0 <= i < |tasks| :: r[i] == PruneRow(tasks[i], kept)
  {
    var r := seq(|tasks|, i requires 0 <= i < |tasks| => PruneRow(tasks[i], kept));
    SameIds(tasks, r);
    r
  }

  function BindingsIn(bindings: seq<Row<Binding>>, kept: set<Str>): (r: seq<Row<Binding>>)
    ensures |r| <= |bindings| && Ids(r) <= Ids(bindings)
    ensures Unique(bindings) ==> Unique(r)
    ensures forall b :: b in r <==> b in bindings && b.id in kept
    ensures (forall b | b in bindings :: b.id in kept) ==> r == bindings
  {
    if bindings == [] then []
    else (
      FrontLast(bindings);
      var r := BindingsIn(Front(bindings), kept);
      if Last(bindings).id in kept then assert Front(r + [Last(bindings)]) == r; r + [Last(bindings)] else r
    )
  }

  function StripV6(d: V6): V4 {
    V4(d.sessions, Strip(d.tabs), d.bindings)
  }

  /** The tabs that survive both repairs. */
  function Survivors(d: V6): seq<Row<OwnedTab>> {
    var r := RepairV4(StripV6(d));
    OwnTabs(r.tabs, d.tabs, RestTasks(Dedup(d.tasks), Ids(r.tabs)))
  }

  function RepairV6(d: V6): V6 {
    var r := RepairV4(StripV6(d));
    var tasks := RestTasks(Dedup(d.tasks), Ids(r.tabs));
    var tabs := OwnTabs(r.tabs, d.tabs, tasks);
    V6(r.sessions, PruneTasks(tasks, Ids(tabs)), tabs, BindingsIn(r.bindings, Ids(tabs)))
  }

  function RecoverV6(d: V6): Result<V6, RegistryError> {
    var _ :- RecoverV4(StripV6(d));
    var r := RepairV6(d);
    if ConsistentV6(r) then Success(r) else Failure(Inconsistent)
  }

  // ---------------------------------------------------------------- what a saved registry comes back as

  lemma SavedStripIsConsistent(d: V6)
    requires ConsistentV6(d)
    ensures ConsistentV4(StripV6(d))
  {
    var r := StripV6(d);
    forall t | t in r.tabs ensures Bound(t, r.sessions, r.bindings) {
      var i :| 0 <= i < |r.tabs| && r.tabs[i] == t;
      assert d.tabs[i] in d.tabs && Placed(d.tabs[i], d);
    }
  }

  lemma ConsistentKeepsAll(d: V4)
    requires ConsistentV4(d)
    ensures RepairV4(d).tabs == d.tabs && RepairV4(d).bindings == d.bindings
  {
    var sessions := Disconnect(Dedup(SortByUse(d.sessions)));
    SortIds(d.sessions);
    DedupUnique(d.tabs);
    DedupUnique(d.bindings);
    forall t | t in d.tabs ensures Bound(t, sessions, d.bindings) {
      assert Bound(t, d.sessions, d.bindings);
    }
    RepairedTabs(d);
    RecoverV4Succeeds(d);
    var r := RepairV4(d);
    forall b | b in d.bindings ensures Wanted(b, Ids(r.tabs), Ids(r.sessions)) {
      RepairKeepsBindings(d, b);
    }
  }

  lemma {:induction false} OwnTabsKeepsAll(tabs: seq<Row<OwnedTab>>, stored: seq<Row<OwnedTab>>, tasks: seq<Row<Task>>)
    requires forall t | t in tabs :: Find(stored, t.id) == Some(t.v) && Restorable(tasks, t.v.taskId)
    ensures OwnTabs(Strip(tabs), stored, tasks) == tabs
  {
    if tabs != [] {
      FrontLast(tabs);
      OwnTabsKeepsAll(Front(tabs), stored, tasks);
      assert Front(Strip(tabs)) == Strip(Front(tabs));
    }
  }

  /** `b` is `a` with active and finishing tasks suspended. */
  ghost predicate TasksRested(a: seq<Row<Task>>, b: seq<Row<Task>>) {
    |a| == |b| && forall i | 0 <= i < |a| :: b[i] == Row(a[i].id, a[i].v.(state := Suspend(a[i].v.state)))
  }

  /** What becomes of a task: a finished one stays finished, an expired one expired, and any
      other is suspended. */
  predicate LaidToRest(before: Task, after: Task) {
    && after.owner == before.owner && after.createdAt == before.createdAt
    && after.lastActivityAt == before.lastActivityAt && after.expiresAt == before.expiresAt
    && after.state == (match before.state case Finished => Finished case Expired => Expired case _ => Suspended)
  }

  predicate LaidToRestAt(before: seq<Row<Task>>, after: seq<Row<Task>>, i: nat)
    requires i < |before| == |after|
  {
    after[i].id == before[i].id && LaidToRest(before[i].v, after[i].v)
  }

  ghost predicate AllLaidToRest(before: seq<Row<Task>>, after: seq<Row<Task>>) {
    |after| == |before| && forall i | 0 <= i < |before| :: LaidToRestAt(before, after, i)
  }

  ghost predicate SameTabIds(before: seq<Row<Task>>, after: seq<Row<Task>>) {
    |after| == |before| && forall i | 0 <= i < |before| :: after[i].v.tabIds == before[i].v.tabIds
  }

  lemma RestedIsLaidToRest(before: seq<Row<Task>>, after: seq<Row<Task>>)
    requires TasksRested(before, after)
    ensures AllLaidToRest(before, after) && SameTabIds(before, after)
  {
  }

  lemma FindRested(a: seq<Row<Task>>, kept: set<Str>, id: Str)
    requires Find(a, id).Some? && Unique(a)
    ensures Find(RestTasks(a, kept), id) == Some(RestTask(Find(a, id).value, kept))
  {
    var k := Row(id, Find(a, id).value);
    var i :| 0 <= i < |a| && a[i] == k;
    assert RestTasks(a, kept)[i] in RestTasks(a, kept);
    FindUnique(RestTasks(a, kept), RestTasks(a, kept)[i]);
  }

  lemma SavedTabIsRestorable(d: V6, kept: set<Str>, t: Row<OwnedTab>)
    requires ConsistentV6(d) && t in d.tabs
    ensures Find(d.tabs, t.id) == Some(t.v) && Restorable(RestTasks(d.tasks, kept), t.v.taskId)
  {
    FindUnique(d.tabs, t);
    assert Placed(t, d);
    FindRested(d.tasks, kept, t.v.taskId);
  }

  lemma SavedTabsAreOwned(d: V6, kept: set<Str>)
    requires ConsistentV6(d)
    ensures OwnTabs(Strip(d.tabs), d.tabs, RestTasks(d.tasks, kept)) == d.tabs
  {
    forall t | t in d.tabs ensures Find(d.tabs, t.id) == Some(t.v) && Restorable(RestTasks(d.tasks, kept), t.v.taskId) {
      SavedTabIsRestorable(d, kept, t);
    }
    OwnTabsKeepsAll(d.tabs, d.tabs, RestTasks(d.tasks, kept));
  }

  lemma SavedTaskIsRested(d: V6, k: Row<Task>)
    requires ConsistentV6(d) && k in d.tasks
    ensures var rested := RestTask(k.v, Ids(d.tabs));
            rested.(tabIds := KeepIds(rested.tabIds, Ids(d.tabs))) == k.v.(state := Suspend(k.v.state))
  {
    assert OwnsItsTabs(k, d.tabs);
    forall id | id in k.v.tabIds ensures id in Ids(d.tabs) {
      assert OwnedBy(Find(d.tabs, id), k.id);
    }
  }

  lemma SavedTasksAreRested(d: V6)
    requires ConsistentV6(d)
    ensures TasksRested(d.tasks, PruneTasks(RestTasks(d.tasks, Ids(d.tabs)), Ids(d.tabs)))
  {
    forall i | 0 <= i < |d.tasks| ensures var kept := Ids(d.tabs);
      PruneTasks(RestTasks(d.tasks, kept), kept)[i] == Row(d.tasks[i].id, d.tasks[i].v.(state := Suspend(d.tasks[i].v.state)))
    {
      SavedTaskIsRested(d, d.tasks[i]);
    }
  }

  /** What a saved registry is repaired to. */
  lemma SavedRepair(d: V6)
    requires ConsistentV6(d)
    ensures RepairV6(d).tabs == d.tabs == Survivors(d) && RepairV6(d).bindings == d.bindings
    ensures TasksRested(d.tasks, RepairV6(d).tasks) && Unique(RepairV6(d).tasks)
  {
    SavedStripIsConsistent(d);
    ConsistentKeepsAll(StripV6(d));
    DedupUnique(d.tasks);
    SavedTabsAreOwned(d, Ids(d.tabs));
    SavedTasksAreRested(d);
  }

  lemma RestedTaskFound(a: seq<Row<Task>>, b: seq<Row<Task>>, id: Str)
    requires TasksRested(a, b) && Unique(b) && Find(a, id).Some?
    ensures Find(b, id) == Some(Find(a, id).value.(state := Suspend(Find(a, id).value.state)))
  {
    var k := Row(id, Find(a, id).value);
    var i :| 0 <= i < |a| && a[i] == k;
    FindUnique(b, b[i]);
  }

  lemma StrippedTabIsBound(tabs: seq<Row<OwnedTab>>, sessions: seq<Row<Session>>, bindings: seq<Row<Binding>>, t: Row<OwnedTab>)
    requires t in tabs && forall s | s in Strip(tabs) :: Bound(s, sessions, bindings)
    ensures Bound(Row(t.id, t.v.tab), sessions, bindings)
  {
    var j :| 0 <= j < |tabs| && tabs[j] == t;
    assert Strip(tabs)[j] in Strip(tabs);
  }

  lemma RestedTabIsPlaced(d: V6, r: V6, t: Row<OwnedTab>)
    requires Placed(t, d) && Bound(Row(t.id, t.v.tab), r.sessions, r.bindings)
    requires TasksRested(d.tasks, r.tasks) && Unique(r.tasks)
    ensures Placed(t, r)
  {
    RestedTaskFound(d.tasks, r.tasks, t.v.taskId);
  }

  lemma RestedTaskOwns(d: V6, tasks: seq<Row<Task>>, k: Row<Task>)
    requires ConsistentV6(d) && TasksRested(d.tasks, tasks) && k in tasks
    ensures OwnsItsTabs(k, d.tabs) && !k.v.state.Active? && !k.v.state.Finishing?
  {
    var i :| 0 <= i < |tasks| && tasks[i] == k;
    assert d.tasks[i] in d.tasks && OwnsItsTabs(d.tasks[i], d.tabs);
  }

  lemma RestedIsConsistent(d: V6, r: V6)
    requires ConsistentV6(d) && ConsistentV4(StripV6(r))
    requires r.tabs == d.tabs && r.bindings == d.bindings && TasksRested(d.tasks, r.tasks) && Unique(r.tasks)
    ensures ConsistentV6(r)
  {
    forall t | t in r.tabs ensures Placed(t, r) {
      StrippedTabIsBound(r.tabs, r.sessions, r.bindings, t);
      RestedTabIsPlaced(d, r, t);
    }
    forall k | k in r.tasks ensures OwnsItsTabs(k, r.tabs) { RestedTaskOwns(d, r.tasks, k); }
  }

  lemma SavedRepairIsConsistent(d: V6)
    requires ConsistentV6(d)
    ensures ConsistentV6(RepairV6(d))
    ensures forall s | s in RepairV6(d).sessions :: !s.v.state.Starting? && !s.v.state.Connected?
  {
    var r := RepairV6(d);
    SavedRepair(d);
    SavedStripIsConsistent(d);
    ConsistentKeepsAll(StripV6(d));
    RecoverV4Succeeds(StripV6(d));
    assert StripV6(r) == RepairV4(StripV6(d));
    RestedIsConsistent(d, r);
  }

  /** The first half of the recovery never throws. */
  lemma OnlyTheLastCheckFails(d: V6)
    requires ShapedV4(StripV6(d))
    ensures RecoverV6(d) == if ConsistentV6(RepairV6(d)) then Success(RepairV6(d)) else Failure(Inconsistent)
  {
    RecoverV4Succeeds(StripV6(d));
  }

  /** A saved registry comes back with the same tabs and bindings, and the same tasks apart
      from their state; nothing is connected, no task is active or finishing, and the sessions
      left are those a tab uses or that were saved as disconnected. */
  lemma SavedIsRestored(d: V6)
    requires ConsistentV6(d)
    ensures RecoverV6(d) == Success(RepairV6(d))
    ensures var r := RepairV6(d);
            && ConsistentV6(r)
            && r.tabs == d.tabs && r.bindings == d.bindings
            && AllLaidToRest(d.tasks, r.tasks) && SameTabIds(d.tasks, r.tasks)
            && (forall s | s in r.sessions :: !s.v.state.Starting? && !s.v.state.Connected?)
    ensures forall id :: id in Ids(RepairV6(d).sessions) <==>
      id in Ids(d.sessions) && ((exists t | t in d.tabs :: t.v.tab.sessionId == id) || StoredDisconnected(d.sessions, id))
  {
    SavedRepairIsConsistent(d);
    SavedRepair(d);
    RestedIsLaidToRest(d.tasks, RepairV6(d).tasks);
    OnlyTheLastCheckFails(d);
    forall id ensures id in Ids(RepairV6(d).sessions) <==>
      id in Ids(d.sessions) && ((exists t | t in d.tabs :: t.v.tab.sessionId == id) || StoredDisconnected(d.sessions, id))
    {
      SavedSessions(d, id);
    }
  }

  lemma SavedSessions(d: V6, id: Str)
    requires ConsistentV6(d)
    ensures id in Ids(RepairV4(StripV6(d)).sessions) <==>
      id in Ids(d.sessions) && ((exists t | t in d.tabs :: t.v.tab.sessionId == id) || StoredDisconnected(d.sessions, id))
  {
    SavedStripIsConsistent(d);
    ConsistentKeepsAll(StripV6(d));
    RepairKeepsSessions(StripV6(d), id);
    StripUses(d.tabs, id);
  }

  lemma StripUses(tabs: seq<Row<OwnedTab>>, id: Str)
    ensures (exists t | t in Strip(tabs) :: t.v.sessionId == id) <==> exists t | t in tabs :: t.v.tab.sessionId == id
  {
    if t :| t in Strip(tabs) && t.v.sessionId == id {
      var i :| 0 <= i < |tabs| && Strip(tabs)[i] == t;
      assert tabs[i] in tabs;
    }
    if t :| t in tabs && t.v.tab.sessionId == id {
      var i :| 0 <= i < |tabs| && tabs[i] == t;
      assert Strip(tabs)[i] in Strip(tabs);
    }
  }

  // ---------------------------------------------------------------- repaired sessions

  lemma {:induction false} SortedSorts(s: seq<Row<Session>>)
    requires Sorted(s)
    ensures SortByUse(s) == s
  {
    if s != [] {
      SortedSorts(s[1..]);
      assert s == [s[0]] + s[1..];
    }
  }

  lemma SortedAppend(s: seq<Row<Session>>, x: Row<Session>)
    requires Sorted(s) && forall y | y in s :: y.v.lastUsedAt >= x.v.lastUsedAt
    ensures Sorted(s + [x])
  {
  }

  lemma SortedFront(s: seq<Row<Session>>)
    requires s != [] && Sorted(s)
    ensures Sorted(Front(s)) && forall y | y in Front(s) :: y.v.lastUsedAt >= Last(s).v.lastUsedAt
  {
  }

  lemma {:induction false} DedupSorted(s: seq<Row<Session>>)
    requires Sorted(s)
    ensures Sorted(Dedup(s))
  {
    if s != [] {
      SortedFront(s);
      DedupSorted(Front(s));
      SortedAppend(Dedup(Front(s)), Last(s));
    }
  }

  lemma {:induction false} RetainedSorted(s: seq<Row<Session>>, used: set<Str>, stored: seq<Row<Session>>)
    requires Sorted(s)
    ensures Sorted(RetainedSessions(s, used, stored))
  {
    if s != [] {
      SortedFront(s);
      RetainedSorted(Front(s), used, stored);
      SortedAppend(RetainedSessions(Front(s), used, stored), Last(s));
    }
  }

  /** Sorting, deduplicating and disconnecting a repaired list of sessions changes nothing. */
  lemma RepairedSessionsStay(stored: seq<Row<Session>>, used: set<Str>)
    ensures var r := RetainedSessions(Disconnect(Dedup(SortByUse(stored))), used, stored);
            Unique(r) && Disconnect(Dedup(SortByUse(r))) == r
  {
    var slept := Disconnect(Dedup(SortByUse(stored)));
    var r := RetainedSessions(slept, used, stored);
    SortIsSorted(stored);
    DedupSorted(SortByUse(stored));
    RetainedSorted(slept, used, stored);
    SortedSorts(r);
    DedupUnique(r);
    NoneIsConnected(Dedup(SortByUse(stored)), used, stored);
    RestedSessions(r);
  }

  lemma RestedSessions(r: seq<Row<Session>>)
    requires forall s | s in r :: Rest(s.v.state) == s.v.state
    ensures Disconnect(r) == r
  {
    forall i | 0 <= i < |r| ensures Disconnect(r)[i] == r[i] {
      assert r[i] in r;
    }
  }

  lemma SleptFrom(rows: seq<Row<Session>>, s: Row<Session>) returns (row: Row<Session>)
    requires s in Disconnect(rows)
    ensures row in rows && s == Row(row.id, row.v.(state := Rest(row.v.state)))
  {
    var k :| 0 <= k < |rows| && Disconnect(rows)[k] == s;
    row := rows[k];
  }

  lemma ConsistentSessions(d: V4)
    requires ConsistentV4(d)
    ensures RepairV4(d).sessions == RetainedSessions(Disconnect(Dedup(SortByUse(d.sessions))), SessionIds(d.tabs), d.sessions)
  {
    ConsistentKeepsAll(d);
    RepairedTabs(d);
  }

  // ---------------------------------------------------------------- arbitrary storage

  function Occurs(ids: seq<Str>, id: Str): (n: nat)
    ensures n > 0 <==> id in ids
  {
    if ids == [] then 0
    else (
      FrontLast(ids);
      Occurs(Front(ids), id) + if Last(ids) == id then 1 else 0
    )
  }

  lemma {:induction false} KeptOnce(ids: seq<Str>, kept: set<Str>)
    ensures UniqueIds(KeepIds(ids, kept)) <==> forall id | id in kept :: Occurs(ids, id) <= 1
  {
    if ids != [] {
      FrontLast(ids);
      var x, r := Last(ids), KeepIds(Front(ids), kept);
      KeptOnce(Front(ids), kept);
      assert Front(r + [x]) == r;
      assert forall id :: Occurs(ids, id) == Occurs(Front(ids), id) + if x == id then 1 else 0;
    }
  }

  lemma {:induction false} KeepTwice(ids: seq<Str>, wide: set<Str>, narrow: set<Str>)
    requires narrow <= wide
    ensures KeepIds(KeepIds(ids, wide), narrow) == KeepIds(ids, narrow)
  {
    if ids != [] {
      KeepTwice(Front(ids), wide, narrow);
      var r := KeepIds(Front(ids), wide);
      assert Front(r + [Last(ids)]) == r;
    }
  }

  lemma PrunedTask(k: Task, wide: set<Str>, narrow: set<Str>)
    requires narrow <= wide
    ensures RestTask(k, wide).(tabIds := KeepIds(RestTask(k, wide).tabIds, narrow)) == RestTask(k, narrow)
  {
    KeepTwice(k.tabIds, wide, narrow);
  }

  lemma PrunedIsRested(tasks: seq<Row<Task>>, wide: set<Str>, narrow: set<Str>)
    requires narrow <= wide
    ensures PruneTasks(RestTasks(tasks, wide), narrow) == RestTasks(tasks, narrow)
  {
    var pruned := PruneTasks(RestTasks(tasks, wide), narrow);
    forall i | 0 <= i < |tasks| ensures pruned[i] == RestTasks(tasks, narrow)[i] {
      PrunedTask(tasks[i].v, wide, narrow);
    }
  }

  /** Among the surviving tabs, a task that is not over lists each of its own once and no
      other. */
  ghost predicate ListsSurvivors(k: Row<Task>, tabs: seq<Row<OwnedTab>>) {
    k.v.state == Finished || k.v.state == Expired || forall t | t in tabs :: Occurs(k.v.tabIds, t.id) == if t.v.taskId == k.id then 1 else 0
  }

  ghost predicate TaskListsAgree(d: V6) {
    forall k | k in Dedup(d.tasks) :: ListsSurvivors(k, Survivors(d))
  }

  /** Whether task k lists tab t as often as it should: once its own, never another's. */
  predicate ListsRightly(k: Row<Task>, t: Row<OwnedTab>) {
    Occurs(k.v.tabIds, t.id) == if t.v.taskId == k.id then 1 else 0
  }

  /** What the check of `save` demands, over pairs of rows: no tab hangs in the air, and the tab
      lists of the tasks are the tabs' own tasks turned round. */
  ghost predicate WellKept(d: V6) {
    && |d.sessions| <= 100 && |d.tasks| <= 500 && |d.tabs| <= 500 && |d.bindings| <= 500
    && Unique(d.sessions) && Unique(d.tasks) && Unique(d.tabs) && Unique(d.bindings)
    && (forall t | t in d.tabs :: t.v.tab.sessionId in Ids(d.sessions) && SamePage(t.v.tab, Find(d.bindings, t.id)))
    && (forall b | b in d.bindings :: b.id in Ids(d.tabs))
    && (forall t | t in d.tabs :: NotOver(Find(d.tasks, t.v.taskId)))
    && (forall k, t | k in d.tasks && t in d.tabs :: ListsRightly(k, t))
    && (forall k, id | k in d.tasks && id in k.v.tabIds :: id in Ids(d.tabs))
  }

  lemma {:induction false} UniqueOccurs(ids: seq<Str>, id: Str)
    requires UniqueIds(ids)
    ensures Occurs(ids, id) <= 1
  {
    if ids != [] { UniqueOccurs(Front(ids), id); }
  }

  lemma {:induction false} OccursUnique(ids: seq<Str>)
    requires forall id :: Occurs(ids, id) <= 1
    ensures UniqueIds(ids)
  {
    if ids != [] {
      forall id ensures Occurs(Front(ids), id) <= 1 { assert Occurs(ids, id) <= 1; }
      OccursUnique(Front(ids));
      assert Occurs(ids, Last(ids)) <= 1;
    }
  }

  lemma TabOf(tabs: seq<Row<OwnedTab>>, id: Str)
    requires Unique(tabs)
    ensures id in Ids(tabs) ==> Row(id, Find(tabs, id).value) in tabs
    ensures forall t | t in tabs && t.id == id :: Find(tabs, id) == Some(t.v)
  {
    forall t | t in tabs && t.id == id ensures Find(tabs, id) == Some(t.v) { FindUnique(tabs, t); }
  }

  lemma OwnsRightly(d: V6, k: Row<Task>)
    requires WellKept(d) && k in d.tasks
    ensures OwnsItsTabs(k, d.tabs)
  {
    forall id ensures Occurs(k.v.tabIds, id) <= 1 && (id in k.v.tabIds ==> OwnedBy(Find(d.tabs, id), k.id)) {
      TabOf(d.tabs, id);
      if id in k.v.tabIds { assert ListsRightly(k, Row(id, Find(d.tabs, id).value)); }
    }
    OccursUnique(k.v.tabIds);
    if k.v.tabIds != [] {
      var id := k.v.tabIds[0];
      TabOf(d.tabs, id);
      var t := Row(id, Find(d.tabs, id).value);
      assert ListsRightly(k, t) && NotOver(Find(d.tasks, t.v.taskId));
      FindUnique(d.tasks, k);
    }
  }

  lemma PlacedRightly(d: V6, t: Row<OwnedTab>)
    requires WellKept(d) && t in d.tabs
    ensures Placed(t, d)
  {
    var k := Row(t.v.taskId, Find(d.tasks, t.v.taskId).value);
    assert ListsRightly(k, t);
  }

  lemma ListedRightly(d: V6, k: Row<Task>, t: Row<OwnedTab>)
    requires ConsistentV6(d) && k in d.tasks && t in d.tabs
    ensures ListsRightly(k, t)
  {
    assert OwnsItsTabs(k, d.tabs) && Placed(t, d);
    UniqueOccurs(k.v.tabIds, t.id);
    FindUnique(d.tabs, t);
    FindUnique(d.tasks, k);
  }

  lemma ConsistentExactlyWhen(d: V6)
    ensures ConsistentV6(d) <==> WellKept(d)
  {
    if WellKept(d) {
      forall t | t in d.tabs ensures Placed(t, d) { PlacedRightly(d, t); }
      forall k | k in d.tasks ensures OwnsItsTabs(k, d.tabs) { OwnsRightly(d, k); }
    }
    if ConsistentV6(d) {
      forall k, t | k in d.tasks && t in d.tabs ensures ListsRightly(k, t) { ListedRightly(d, k, t); }
      forall t | t in d.tabs ensures t.v.tab.sessionId in Ids(d.sessions) && SamePage(t.v.tab, Find(d.bindings, t.id))
        && NotOver(Find(d.tasks, t.v.taskId))
      {
        assert Placed(t, d);
      }
      forall k, id | k in d.tasks && id in k.v.tabIds ensures id in Ids(d.tabs) {
        assert OwnsItsTabs(k, d.tabs) && OwnedBy(Find(d.tabs, id), k.id);
      }
    }
  }

  lemma TaskPart(k: Row<Task>, tabs: seq<Row<OwnedTab>>)
    requires Unique(tabs)
    ensures OwnsItsTabs(Row(k.id, RestTask(k.v, Ids(tabs))), tabs) <==>
      (Terminal(k.v.state)
       || forall t | t in tabs :: Occurs(k.v.tabIds, t.id) <= 1 && (t.v.taskId != k.id ==> Occurs(k.v.tabIds, t.id) == 0))
  {
    var rested := RestTask(k.v, Ids(tabs));
    if !Terminal(k.v.state) {
      KeptOnce(k.v.tabIds, Ids(tabs));
      forall id | id in Ids(tabs) ensures exists t | t in tabs :: t.id == id {
        assert Row(id, Find(tabs, id).value) in tabs;
      }
      forall t | t in tabs ensures Find(tabs, t.id) == Some(t.v) { FindUnique(tabs, t); }
      assert forall id :: id in rested.tabIds <==> id in k.v.tabIds && id in Ids(tabs);
      if OwnsItsTabs(Row(k.id, rested), tabs) {
        forall t | t in tabs && t.v.taskId != k.id ensures Occurs(k.v.tabIds, t.id) == 0 {
          assert t.id in rested.tabIds ==> OwnedBy(Find(tabs, t.id), k.id);
        }
      }
    }
  }

  lemma TabPart(tasks: seq<Row<Task>>, tabs: seq<Row<OwnedTab>>, t: Row<OwnedTab>)
    requires Unique(tasks) && t in tabs && Find(tasks, t.v.taskId).Some? && !Terminal(Find(tasks, t.v.taskId).value.state)
    ensures var k := Find(RestTasks(tasks, Ids(tabs)), t.v.taskId);
            && k.Some? && !Terminal(k.value.state)
            && (t.id in k.value.tabIds <==> Occurs(Find(tasks, t.v.taskId).value.tabIds, t.id) >= 1)
  {
    FindRested(tasks, Ids(tabs), t.v.taskId);
  }

  lemma SurvivorIsRestorable(d: V6, t: Row<OwnedTab>)
    requires t in Survivors(d)
    ensures var k := Find(Dedup(d.tasks), t.v.taskId);
            k.Some? && !Terminal(k.value.state)
  {
    var r := RepairV4(StripV6(d));
    var rested := RestTasks(Dedup(d.tasks), Ids(r.tabs));
    assert Restorable(rested, t.v.taskId);
    RestorableBefore(Dedup(d.tasks), Ids(r.tabs), t.v.taskId);
  }

  lemma RestorableBefore(tasks: seq<Row<Task>>, kept: set<Str>, id: Str)
    requires Unique(tasks) && Restorable(RestTasks(tasks, kept), id)
    ensures Find(tasks, id).Some? && !Terminal(Find(tasks, id).value.state)
  {
    FindRested(tasks, kept, id);
  }

  /** The parts of the check that do not look at the task lists never fail. */
  lemma SurvivorsAreBound(d: V6)
    requires ShapedV4(StripV6(d))
    ensures var r := RepairV6(d);
            && Unique(r.sessions) && Unique(r.tabs) && Unique(r.bindings) && |r.sessions| <= 100 && |r.tabs| <= 500 && |r.bindings| <= 500
            && (forall t | t in r.tabs :: Bound(Row(t.id, t.v.tab), r.sessions, r.bindings))
            && (forall b | b in r.bindings :: b.id in Ids(r.tabs))
  {
    var v4 := RepairV4(StripV6(d));
    RecoverV4Succeeds(StripV6(d));
    SurvivorsOf(v4, Survivors(d));
  }

  lemma SurvivorsOf(v4: V4, tabs: seq<Row<OwnedTab>>)
    requires ConsistentV4(v4) && forall t | t in tabs :: Row(t.id, t.v.tab) in v4.tabs
    ensures forall t | t in tabs :: Bound(Row(t.id, t.v.tab), v4.sessions, BindingsIn(v4.bindings, Ids(tabs)))
  {
    forall t | t in tabs ensures Bound(Row(t.id, t.v.tab), v4.sessions, BindingsIn(v4.bindings, Ids(tabs))) {
      assert Bound(Row(t.id, t.v.tab), v4.sessions, v4.bindings);
      var b := Row(t.id, Find(v4.bindings, t.id).value);
      FindUnique(BindingsIn(v4.bindings, Ids(tabs)), b);
    }
  }

  lemma ListedTabIsPlaced(r: V6, tasks: seq<Row<Task>>, t: Row<OwnedTab>)
    requires Unique(tasks) && r.tasks == RestTasks(tasks, Ids(r.tabs)) && t in r.tabs
    requires Bound(Row(t.id, t.v.tab), r.sessions, r.bindings)
    requires Find(tasks, t.v.taskId).Some? && !Terminal(Find(tasks, t.v.taskId).value.state)
    requires forall k | k in tasks :: ListsSurvivors(k, r.tabs)
    ensures Placed(t, r)
  {
    TabPart(tasks, r.tabs, t);
    assert ListsSurvivors(Row(t.v.taskId, Find(tasks, t.v.taskId).value), r.tabs);
  }

  lemma ListingTaskOwns(tasks: seq<Row<Task>>, tabs: seq<Row<OwnedTab>>, k: Row<Task>)
    requires Unique(tabs) && k in RestTasks(tasks, Ids(tabs)) && forall j | j in tasks :: ListsSurvivors(j, tabs)
    ensures OwnsItsTabs(k, tabs)
  {
    var i :| 0 <= i < |tasks| && RestTasks(tasks, Ids(tabs))[i] == k;
    assert ListsSurvivors(tasks[i], tabs);
    ListingRowOwns(tasks[i], tabs);
  }

  lemma ListingRowOwns(k: Row<Task>, tabs: seq<Row<OwnedTab>>)
    requires Unique(tabs) && ListsSurvivors(k, tabs)
    ensures OwnsItsTabs(RestRow(k, Ids(tabs)), tabs)
  {
    TaskPart(k, tabs);
  }

  lemma ListsSuffice(r: V6, tasks: seq<Row<Task>>)
    requires WithinLimits(r) && Unique(tasks) && r.tasks == RestTasks(tasks, Ids(r.tabs))
    requires Unique(r.sessions) && Unique(r.tabs) && Unique(r.bindings)
    requires forall t | t in r.tabs :: Bound(Row(t.id, t.v.tab), r.sessions, r.bindings)
    requires forall b | b in r.bindings :: b.id in Ids(r.tabs)
    requires forall t | t in r.tabs :: Find(tasks, t.v.taskId).Some? && !Terminal(Find(tasks, t.v.taskId).value.state)
    requires forall k | k in tasks :: ListsSurvivors(k, r.tabs)
    ensures ConsistentV6(r)
  {
    forall t | t in r.tabs ensures Placed(t, r) { ListedTabIsPlaced(r, tasks, t); }
    forall k | k in r.tasks ensures OwnsItsTabs(k, r.tabs) { ListingTaskOwns(tasks, r.tabs, k); }
  }

  lemma ConsistentLists(r: V6, tasks: seq<Row<Task>>, k: Row<Task>)
    requires ConsistentV6(r) && Unique(tasks) && r.tasks == RestTasks(tasks, Ids(r.tabs)) && k in tasks
    ensures ListsSurvivors(k, r.tabs)
  {
    var i :| 0 <= i < |tasks| && tasks[i] == k;
    assert r.tasks[i] in r.tasks && OwnsItsTabs(r.tasks[i], r.tabs);
    TaskPart(k, r.tabs);
    if !Terminal(k.v.state) {
      forall t | t in r.tabs && t.v.taskId == k.id ensures Occurs(k.v.tabIds, t.id) == 1 {
        assert Placed(t, r);
        FindUnique(tasks, k);
        TabPart(tasks, r.tabs, t);
      }
    }
  }

  /** From arbitrary storage, the first row of every task comes back laid to rest, with those of
      its tabs that survive if it is not over. */
  lemma RecoveredTasks(d: V6)
    ensures var before, after := Dedup(d.tasks), RepairV6(d).tasks;
            && AllLaidToRest(before, after)
            && forall i | 0 <= i < |before| :: TabsThatSurvive(before[i].v, after[i].v, Survivors(d))
  {
    RepairedTasks(d);
    RestTasksLaidToRest(Dedup(d.tasks), Survivors(d));
  }

  ghost predicate TabsThatSurvive(before: Task, after: Task, tabs: seq<Row<OwnedTab>>) {
    forall id :: id in after.tabIds <==>
      before.state != Finished && before.state != Expired && id in before.tabIds && id in Ids(tabs)
  }

  lemma RestTasksLaidToRest(tasks: seq<Row<Task>>, tabs: seq<Row<OwnedTab>>)
    ensures var after := RestTasks(tasks, Ids(tabs));
            AllLaidToRest(tasks, after) && forall i | 0 <= i < |tasks| :: TabsThatSurvive(tasks[i].v, after[i].v, tabs)
  {
    var after := RestTasks(tasks, Ids(tabs));
    forall i | 0 <= i < |tasks| ensures LaidToRestAt(tasks, after, i) && TabsThatSurvive(tasks[i].v, after[i].v, tabs) {
      RestRowLaidToRest(tasks[i], tabs);
    }
  }

  lemma RestRowLaidToRest(k: Row<Task>, tabs: seq<Row<OwnedTab>>)
    ensures var after := RestRow(k, Ids(tabs));
            after.id == k.id && LaidToRest(k.v, after.v) && TabsThatSurvive(k.v, after.v, tabs)
  {
  }

  lemma RepairedTasks(d: V6)
    ensures RepairV6(d).tasks == RestTasks(Dedup(d.tasks), Ids(Survivors(d)))
  {
    var r := RepairV4(StripV6(d));
    PrunedIsRested(Dedup(d.tasks), Ids(r.tabs), Ids(Survivors(d)));
  }

  /** Storage of the right shape is recovered exactly when the stored task lists agree with
      the surviving tabs; otherwise the last check throws. */
  lemma RecoversExactlyWhen(d: V6)
    requires WithinLimits(d)
    ensures RecoverV6(d) == if TaskListsAgree(d) then Success(RepairV6(d)) else Failure(Inconsistent)
    ensures TaskListsAgree(d) <==> ConsistentV6(RepairV6(d))
  {
    var r := RepairV6(d);
    OnlyTheLastCheckFails(d);
    SurvivorsAreBound(d);
    RepairedTasks(d);
    forall t | t in r.tabs ensures Find(Dedup(d.tasks), t.v.taskId).Some? && !Terminal(Find(Dedup(d.tasks), t.v.taskId).value.state) {
      SurvivorIsRestorable(d, t);
    }
    if ConsistentV6(r) {
      forall k | k in Dedup(d.tasks) ensures ListsSurvivors(k, r.tabs) { ConsistentLists(r, Dedup(d.tasks), k); }
    }
    if TaskListsAgree(d) { ListsSuffice(r, Dedup(d.tasks)); }
  }

  // ---------------------------------------------------------------- recovering twice

  /** Of the rows stored with the id, the latest used says failed. */
  predicate LatestFailed(stored: seq<Row<Session>>, id: Str) {
    var latest := Find(Dedup(SortByUse(stored)), id);
    latest.Some? && latest.value.state.Failed?
  }

  ghost predicate UsedBy(tabs: seq<Row<OwnedTab>>, id: Str) {
    exists t | t in tabs :: t.v.tab.sessionId == id
  }

  /** Every session that stays is used by a surviving tab or has not failed. */
  ghost predicate SessionsSettle(d: V6) {
    forall id | Stays(StripV6(d), id) :: UsedBy(Survivors(d), id) || !LatestFailed(d.sessions, id)
  }

  lemma RestedAlready(tasks: seq<Row<Task>>, kept: set<Str>, again: seq<Row<Task>>)
    requires TasksRested(RestTasks(tasks, kept), again)
    ensures again == RestTasks(tasks, kept)
  {
  }

  lemma FailedRow(stored: seq<Row<Session>>, s: Row<Session>)
    requires s in Disconnect(Dedup(SortByUse(stored)))
    ensures s.v.state.Disconnected? <==> !LatestFailed(stored, s.id)
  {
    var row := SleptFrom(Dedup(SortByUse(stored)), s);
    FindUnique(Dedup(SortByUse(stored)), row);
  }

  lemma RetainedAgain(sessions: seq<Row<Session>>, used: set<Str>)
    requires Unique(sessions)
    ensures RetainedSessions(sessions, used, sessions) == sessions <==>
              forall s | s in sessions :: s.id in used || s.v.state.Disconnected?
  {
    forall s | s in sessions ensures Retained(s.id, used, sessions) <==> s.id in used || s.v.state.Disconnected? {
      FindUnique(sessions, s);
    }
    if RetainedSessions(sessions, used, sessions) == sessions {
      forall s | s in sessions ensures Retained(s.id, used, sessions) {
        assert s in RetainedSessions(sessions, used, sessions);
      }
    }
  }

  lemma SessionsAgain(d: V6)
    requires WithinLimits(d) && ConsistentV6(RepairV6(d))
    ensures RepairV4(StripV6(RepairV6(d))).sessions == RepairV6(d).sessions <==>
              forall s | s in RepairV6(d).sessions :: UsedBy(Survivors(d), s.id) || !LatestFailed(d.sessions, s.id)
  {
    var r := RepairV6(d);
    var used := SessionIds(Strip(r.tabs));
    SavedStripIsConsistent(r);
    ConsistentSessions(StripV6(r));
    RepairedSessionsStay(d.sessions, SessionIds(RepairedTabsOf(d)));
    RetainedAgain(r.sessions, used);
    forall s | s in r.sessions
      ensures s.id in used <==> UsedBy(Survivors(d), s.id)
      ensures s.v.state.Disconnected? <==> !LatestFailed(d.sessions, s.id)
    {
      UsedIds(Strip(r.tabs), s.id);
      StripUses(r.tabs, s.id);
      FailedRow(d.sessions, s);
    }
  }

  /** The tabs the first repair keeps, before their tasks are looked at. */
  function RepairedTabsOf(d: V6): seq<Row<Tab>> {
    BoundTabs(Dedup(Strip(d.tabs)), Disconnect(Dedup(SortByUse(d.sessions))), Dedup(d.bindings))
  }

  lemma SettleRows(d: V6)
    requires WithinLimits(d)
    ensures SessionsSettle(d) <==>
              forall s | s in RepairV6(d).sessions :: UsedBy(Survivors(d), s.id) || !LatestFailed(d.sessions, s.id)
  {
    var sessions := RepairV4(StripV6(d)).sessions;
    forall id ensures Stays(StripV6(d), id) <==> id in Ids(sessions) { StaysExactlyWhen(StripV6(d), id); }
    forall id | id in Ids(sessions) ensures exists s | s in sessions :: s.id == id {
      assert Row(id, Find(sessions, id).value) in sessions;
    }
  }

  /** Storage that recovers is recovered for good exactly when every session that stays is used
      by a surviving tab or has not failed; recovering twice is always enough. */
  lemma RecoversForGoodExactlyWhen(d: V6)
    requires WithinLimits(d) && RecoverV6(d).Success?
    ensures RecoverV6(RepairV6(d)).Success?
    ensures RecoverV6(RepairV6(d)) == RecoverV6(d) <==> SessionsSettle(d)
    ensures RecoverV6(RepairV6(d)) == Success(RepairV6(RepairV6(d)))
    ensures RecoverV6(RepairV6(RepairV6(d))) == RecoverV6(RepairV6(d))
  {
    RecoversExactlyWhen(d);
    SecondRecovery(d);
    RecoverIsIdempotent(RepairV6(d));
  }

  lemma SecondRecovery(d: V6)
    requires WithinLimits(d) && ConsistentV6(RepairV6(d))
    ensures RecoverV6(RepairV6(d)) == Success(RepairV6(RepairV6(d)))
    ensures RepairV6(RepairV6(d)) == RepairV6(d) <==> SessionsSettle(d)
  {
    var r := RepairV6(d);
    SavedIsRestored(r);
    SavedRepair(r);
    RepairedTasks(d);
    RestedAlready(Dedup(d.tasks), Ids(Survivors(d)), RepairV6(r).tasks);
    SessionsAgain(d);
    SettleRows(d);
  }

  /** What passes the check of `save` settles. */
  lemma SavedSettle(d: V6)
    requires ConsistentV6(d)
    ensures SessionsSettle(d)
  {
    SavedRepair(d);
    forall id | Stays(StripV6(d), id) ensures UsedBy(Survivors(d), id) || !LatestFailed(d.sessions, id) {
      StaysExactlyWhen(StripV6(d), id);
      SavedSessions(d, id);
      if StoredDisconnected(d.sessions, id) { LatestIsLast(d.sessions, id); }
    }
  }

  lemma LatestIsLast(stored: seq<Row<Session>>, id: Str)
    requires Unique(stored)
    ensures Find(Dedup(SortByUse(stored)), id) == Find(stored, id)
  {
    SortIds(stored);
    if id in Ids(stored) {
      var row := Row(id, Find(Dedup(SortByUse(stored)), id).value);
      FindUnique(stored, row);
    }
  }

  /** Recovering what was recovered from a saved registry changes nothing. */
  lemma RecoverIsIdempotent(d: V6)
    requires ConsistentV6(d)
    ensures RecoverV6(RepairV6(d)) == Success(RepairV6(d))
  {
    SavedIsRestored(d);
    SavedSettle(d);
    SecondRecovery(d);
  }

  const FAILED_ROW: Row<Session> := Row([1], Session(Failed, 0, 5, []))
  const EARLIER_ROW: Row<Session> := Row([1], Session(Disconnected, 0, 3, []))

  /** The last row says disconnected, the latest used one says failed: the session is kept by the
      first recovery and dropped by the second. */
  lemma FailedSessionExample()
    ensures var d := V6([FAILED_ROW, EARLIER_ROW], [], [], []);
            && WithinLimits(d) && RecoverV6(d).Success? && RecoverV6(RepairV6(d)) != RecoverV6(d)
            && [1] in Ids(RepairV6(d).sessions) && [1] !in Ids(RepairV6(RepairV6(d)).sessions)
  {
    var d := V6([FAILED_ROW, EARLIER_ROW], [], [], []);
    NothingSurvives(d);
    RecoversExactlyWhen(d);
    TwoRows();
    FailedSessionGoes(d, [1]);
  }

  /** A session that stays unused and failed is gone after the second recovery. */
  lemma FailedSessionGoes(d: V6, id: Str)
    requires WithinLimits(d) && RecoverV6(d).Success?
    requires Stays(StripV6(d), id) && !UsedBy(Survivors(d), id) && LatestFailed(d.sessions, id)
    ensures id in Ids(RepairV6(d).sessions) && id !in Ids(RepairV6(RepairV6(d)).sessions)
    ensures RecoverV6(RepairV6(d)) != RecoverV6(d)
  {
    RecoversExactlyWhen(d);
    RecoversForGoodExactlyWhen(d);
    StaysExactlyWhen(StripV6(d), id);
    SavedSessions(RepairV6(d), id);
    RetainedIsSlept(d.sessions, SessionIds(RepairedTabsOf(d)), id);
  }

  lemma NothingSurvives(d: V6)
    requires d.tasks == [] && d.tabs == []
    ensures Survivors(d) == [] && TaskListsAgree(d)
  {
    assert Dedup(d.tasks) == [] && StripV6(d).tabs == [];
    RepairedTabs(StripV6(d));
  }

  lemma TwoRows()
    ensures var stored := [FAILED_ROW, EARLIER_ROW];
            LatestFailed(stored, [1]) && StoredDisconnected(stored, [1]) && [1] in Ids(stored)
  {
    var stored := [FAILED_ROW, EARLIER_ROW];
    SingleRow(FAILED_ROW);
    assert stored[1..] == [EARLIER_ROW] && [EARLIER_ROW][1..] == [];
    assert SortByUse(stored) == stored && Front(stored) == [FAILED_ROW];
    assert Dedup(stored) == [FAILED_ROW];
  }

  /** A session of the repaired list is stored there as failed if its latest row was. */
  lemma RetainedIsSlept(stored: seq<Row<Session>>, used: set<Str>, id: Str)
    requires LatestFailed(stored, id)
    ensures !StoredDisconnected(RetainedSessions(Disconnect(Dedup(SortByUse(stored))), used, stored), id)
  {
    var r := RetainedSessions(Disconnect(Dedup(SortByUse(stored))), used, stored);
    if Find(r, id).Some? { FailedRow(stored, Row(id, Find(r, id).value)); }
  }

  const STRAY_TAB: Row<OwnedTab> := Row([3], OwnedTab(Tab([1], [4], 0, []), [2], TaskScoped))
  const IDLE_TASK: Row<Task> := Row([2], Task([], Active, [], 0, 0, 0))

  const STRAY := V6([Row([1], Session(Connected, 0, 0, []))], [IDLE_TASK], [STRAY_TAB], [Row([3], Binding([1], [4], 0, []))])

  lemma SingleRow<T>(r: Row<T>)
    ensures Unique([r]) && Ids([r]) == {r.id} && Find([r], r.id) == Some(r.v) && Dedup([r]) == [r]
  {
    assert Front([r]) == [];
  }

  lemma StrayIsBound()
    ensures ConsistentV4(StripV6(STRAY)) && StripV6(STRAY).tabs == [Row([3], STRAY_TAB.v.tab)]
  {
    assert StripV6(STRAY).tabs == [Row([3], STRAY_TAB.v.tab)];
    SingleRow(STRAY.sessions[0]);
    SingleRow(StripV6(STRAY).tabs[0]);
    SingleRow(STRAY.bindings[0]);
  }

  lemma StraySurvives()
    ensures STRAY_TAB in Survivors(STRAY)
  {
    StrayIsBound();
    ConsistentKeepsAll(StripV6(STRAY));
    SingleRow(IDLE_TASK);
    SingleRow(STRAY_TAB);
    var kept := Ids(StripV6(STRAY).tabs);
    FindRested([IDLE_TASK], kept, IDLE_TASK.id);
    assert Own(Row([3], STRAY_TAB.v.tab), STRAY.tabs, RestTasks([IDLE_TASK], kept)) == Some(STRAY_TAB.v);
  }

  /** A tab whose task does not list it passes the storage schema and makes the recovery
      throw. */
  lemma StrayTabExample()
    ensures WithinLimits(STRAY) && RecoverV6(STRAY) == Failure(Inconsistent)
  {
    RecoversExactlyWhen(STRAY);
    StraySurvives();
    SingleRow(IDLE_TASK);
    IdleListsNothing(Survivors(STRAY));
  }

  lemma IdleListsNothing(tabs: seq<Row<OwnedTab>>)
    requires STRAY_TAB in tabs
    ensures !ListsSurvivors(IDLE_TASK, tabs)
  {
    assert Occurs(IDLE_TASK.v.tabIds, STRAY_TAB.id) == 0;
  }

  /** A tab survives when it is the first stored with its id, its session is stored, the first
      stored binding agrees, and the task named by the last row with its id is not over. */
  lemma SurvivesExactlyWhen(d: V6, t: Row<OwnedTab>)
    requires WithinLimits(d)
    ensures t in Survivors(d) <==>
      && FirstAndBound(StripV6(d), Row(t.id, t.v.tab))
      && NamedByLast(t, d.tabs)
      && NotOver(Find(Dedup(d.tasks), t.v.taskId))
  {
    SurvivorsMembers(d, t);
    RepairKeepsTabs(StripV6(d), Row(t.id, t.v.tab));
    OwnedExactlyWhen(t, d.tabs, Dedup(d.tasks), Ids(RepairV4(StripV6(d)).tabs));
  }

  lemma SurvivorsMembers(d: V6, t: Row<OwnedTab>)
    ensures var r := RepairV4(StripV6(d));
            t in Survivors(d) <==>
              && Row(t.id, t.v.tab) in r.tabs
              && Own(Row(t.id, t.v.tab), d.tabs, RestTasks(Dedup(d.tasks), Ids(r.tabs))) == Some(t.v)
  {
  }

  predicate NotOver(k: Option<Task>) {
    k.Some? && k.value.state != Finished && k.value.state != Expired
  }

  lemma OwnedExactlyWhen(t: Row<OwnedTab>, stored: seq<Row<OwnedTab>>, tasks: seq<Row<Task>>, kept: set<Str>)
    requires Unique(tasks)
    ensures Own(Row(t.id, t.v.tab), stored, RestTasks(tasks, kept)) == Some(t.v) <==>
      NamedByLast(t, stored) && NotOver(Find(tasks, t.v.taskId))
  {
    if Find(tasks, t.v.taskId).Some? {
      FindRested(tasks, kept, t.v.taskId);
    }
  }

  predicate NamedByLast(t: Row<OwnedTab>, stored: seq<Row<OwnedTab>>) {
    var o := Find(stored, t.id);
    o.Some? && o.value.taskId == t.v.taskId && o.value.lifecycle == t.v.lifecycle
  }

  // ---------------------------------------------------------------- older versions

  /** A version 5 task is closed, whatever it was doing. */
  function Close(k: Task): Task {
    k.(state := if k.state.Finished? then Finished else Expired,
       tabIds := [],
       expiresAt := if Terminal(k.state) then k.expiresAt else k.lastActivityAt)
  }

  /** A finished task stays finished and any other expires; one that was not over expires with
      its last activity. */
  predicate ClosedFrom(before: Task, after: Task) {
    && after.owner == before.owner && after.createdAt == before.createdAt && after.lastActivityAt == before.lastActivityAt
    && after.tabIds == []
    && match before.state
       case Finished => after.state == Finished && after.expiresAt == before.expiresAt
       case Expired => after.state == Expired && after.expiresAt == before.expiresAt
       case _ => after.state == Expired && after.expiresAt == before.lastActivityAt
  }

  predicate ClosedAt(before: seq<Row<Task>>, after: seq<Row<Task>>, i: nat)
    requires i < |before| == |after|
  {
    after[i].id == before[i].id && ClosedFrom(before[i].v, after[i].v)
  }

  ghost predicate AllClosed(before: seq<Row<Task>>, after: seq<Row<Task>>) {
    |after| == |before| && forall i | 0 <= i < |before| :: ClosedAt(before, after, i)
  }

  lemma CloseAllCloses(tasks: seq<Row<Task>>)
    ensures AllClosed(tasks, CloseAll(tasks))
  {
    forall i | 0 <= i < |tasks| ensures ClosedAt(tasks, CloseAll(tasks), i) {
      assert CloseAll(tasks)[i] == Row(tasks[i].id, Close(tasks[i].v));
    }
  }

  /** The task a session of version 4 leaves behind. */
  function Leftover(s: Row<Session>): Row<Task> {
    Row(TASK_PREFIX + s.id, Task(UNCLAIMED, Expired, [], s.v.createdAt, s.v.lastUsedAt, s.v.lastUsedAt))
  }

  function Leftovers(sessions: seq<Row<Session>>): seq<Row<Task>> {
    seq(|sessions|, i requires 0 <= i < |sessions| => Leftover(sessions[i]))
  }

  function CloseAll(tasks: seq<Row<Task>>): (r: seq<Row<Task>>)
    ensures |r| == |tasks| && Ids(r) == Ids(tasks)
    ensures Unique(tasks) ==> Unique(r)
    ensures forall i | 0 <= i < |tasks| :: r[i] == Row(tasks[i].id, Close(tasks[i].v))
  {
    if tasks == [] then []
    else (
      var x := Row(Last(tasks).id, Close(Last(tasks).v));
      var r := CloseAll(Front(tasks));
      assert Front(r + [x]) == r;
      r + [x]
    )
  }

  function MigrateV5(d: V6): Result<V6, RegistryError> {
    var recovered :- RecoverV4(StripV6(d));
    var r := V6(recovered.sessions, CloseAll(Dedup(d.tasks)), [], []);
    if ConsistentV6(r) then Success(r) else Failure(Inconsistent)
  }

  /** Version 5 storage always migrates: the sessions are repaired, every task is over and
      there is no tab left. */
  lemma MigrateV5Succeeds(d: V6)
    requires WithinLimits(d)
    ensures MigrateV5(d) == Success(V6(RepairV4(StripV6(d)).sessions, CloseAll(Dedup(d.tasks)), [], []))
    ensures ConsistentV6(MigrateV5(d).value)
    ensures AllClosed(Dedup(d.tasks), MigrateV5(d).value.tasks)
  {
    RecoverV4Succeeds(StripV6(d));
    ClosedIsConsistent(RepairV4(StripV6(d)), Dedup(d.tasks));
    CloseAllCloses(Dedup(d.tasks));
  }

  lemma ClosedIsConsistent(v4: V4, tasks: seq<Row<Task>>)
    requires ConsistentV4(v4) && Unique(tasks) && |tasks| <= 500
    ensures ConsistentV6(V6(v4.sessions, CloseAll(tasks), [], []))
  {
    ClosedAreOver(tasks);
  }

  lemma ClosedAreOver(tasks: seq<Row<Task>>)
    ensures forall k | k in CloseAll(tasks) :: Terminal(k.v.state) && k.v.tabIds == [] && OwnsItsTabs(k, [])
  {
    forall k | k in CloseAll(tasks) ensures Terminal(k.v.state) && k.v.tabIds == [] && OwnsItsTabs(k, []) {
      var i :| 0 <= i < |tasks| && CloseAll(tasks)[i] == k;
      ClosedOwns(k.id, tasks[i].v);
    }
  }

  lemma ClosedOwns(id: Str, k: Task)
    ensures Terminal(Close(k).state) && Close(k).tabIds == [] && OwnsItsTabs(Row(id, Close(k)), [])
  {
  }

  /** "task-" */
  const TASK_PREFIX: Str := [0x74, 0x61, 0x73, 0x6B, 0x2D]

  /** "legacy-unclaimed" */
  const UNCLAIMED: Str :=
    [0x6C, 0x65, 0x67, 0x61, 0x63, 0x79, 0x2D, 0x75, 0x6E, 0x63, 0x6C, 0x61, 0x69, 0x6D, 0x65, 0x64]

  const TASK_TTL := 600000

  predicate ValidTaskId(id: Str) {
    1 <= |id| <= 128
  }

  function TabIdsOf(tabs: seq<Row<Tab>>, sessionId: Str): (r: seq<Str>)
    ensures |r| <= |tabs|
  {
    if tabs == [] then []
    else
      var r := TabIdsOf(Front(tabs), sessionId);
      if Last(tabs).v.sessionId == sessionId then r + [Last(tabs).id] else r
  }

  /** One task per session; the schema refuses an id that is too long. */
  function TasksFor(sessions: seq<Row<Session>>, tabs: seq<Row<Tab>>, now: int): (r: Result<seq<Row<Task>>, RegistryError>)
    ensures r.Success? ==> |r.value| == |sessions|
    ensures r.Success? ==> forall i | 0 <= i < |sessions| :: r.value[i].id == TASK_PREFIX + sessions[i].id
    ensures r.Success? <==> forall s | s in sessions :: ValidTaskId(TASK_PREFIX + s.id)
  {
    if sessions == [] then Success([])
    else (
      FrontLast(sessions);
      var before :- TasksFor(Front(sessions), tabs, now);
      var s := Last(sessions);
      var id := TASK_PREFIX + s.id;
      if ValidTaskId(id) then
        Success(before + [Row(id, Task(UNCLAIMED, Suspended, TabIdsOf(tabs, s.id), s.v.createdAt, s.v.lastUsedAt, now + TASK_TTL))])
      else Failure(InvalidTask)
    )
  }

  function Adopt(tabs: seq<Row<Tab>>): (r: seq<Row<OwnedTab>>)
    ensures |r| == |tabs|
    ensures Strip(r) == tabs
  {
    if tabs == [] then []
    else (
      var x := Row(Last(tabs).id, OwnedTab(Last(tabs).v, TASK_PREFIX + Last(tabs).v.sessionId, TaskScoped));
      var r := Adopt(Front(tabs));
      assert Front(r + [x]) == r;
      FrontLast(tabs);
      r + [x]
    )
  }

  function MigrateV4(d: V4, now: int): Result<V6, RegistryError> {
    var recovered :- RecoverV4(d);
    var tasks :- TasksFor(recovered.sessions, recovered.tabs, now);
    MigrateV5(V6(recovered.sessions, tasks, Adopt(recovered.tabs), recovered.bindings))
  }

  /** A stored session that stays: the first stored tab of some id names it and agrees with the
      first stored binding of that id, or its last row says disconnected. */
  ghost predicate Stays(d: V4, id: Str) {
    id in Ids(d.sessions) && ((exists t :: FirstAndBound(d, t) && t.v.sessionId == id) || StoredDisconnected(d.sessions, id))
  }

  lemma StaysExactlyWhen(d: V4, id: Str)
    requires ShapedV4(d)
    ensures id in Ids(RepairV4(d).sessions) <==> Stays(d, id)
  {
    RepairKeepsSessions(d, id);
    forall t ensures t in RepairV4(d).tabs <==> FirstAndBound(d, t) {
      RepairKeepsTabs(d, t);
    }
  }

  lemma TaskIdsFit(sessions: seq<Row<Session>>)
    ensures (forall s | s in sessions :: ValidTaskId(TASK_PREFIX + s.id)) <==> forall id | id in Ids(sessions) :: |id| <= 123
  {
    forall id | id in Ids(sessions) ensures exists s | s in sessions :: s.id == id {
      assert Row(id, Find(sessions, id).value) in sessions;
    }
    assert forall s | s in sessions :: ValidTaskId(TASK_PREFIX + s.id) <==> |s.id| <= 123;
  }

  /** Version 4 storage migrates exactly when every stored session id that stays has at most
      123 characters, so that the task id made from it fits the schema. */
  lemma MigrateV4ExactlyWhen(d: V4, now: int)
    requires ShapedV4(d)
    ensures MigrateV4(d, now).Success? <==> forall id | Stays(d, id) :: |id| <= 123
    ensures MigrateV4(d, now).Success? ==>
      var r := MigrateV4(d, now).value;
      && ConsistentV6(r) && r.tabs == [] && r.bindings == []
      && (forall id | Stays(d, id) :: TASK_PREFIX + id in Ids(r.tasks))
      && r.tasks == Leftovers(RepairV4(d).sessions)
  {
    var v4 := RepairV4(d);
    MigrateV4Repaired(d, now);
    TaskIdsFit(v4.sessions);
    forall id ensures id in Ids(v4.sessions) <==> Stays(d, id) { StaysExactlyWhen(d, id); }
    forall id | id in Ids(v4.sessions) ensures Row(id, Find(v4.sessions, id).value) in v4.sessions { }
  }

  lemma MigrateV4Repaired(d: V4, now: int)
    requires ShapedV4(d)
    ensures MigrateV4(d, now).Success? <==> forall s | s in RepairV4(d).sessions :: ValidTaskId(TASK_PREFIX + s.id)
    ensures MigrateV4(d, now).Success? ==>
      var r := MigrateV4(d, now).value;
      && ConsistentV6(r) && r.tabs == [] && r.bindings == []
      && (forall s | s in RepairV4(d).sessions :: TASK_PREFIX + s.id in Ids(r.tasks))
      && r.tasks == Leftovers(RepairV4(d).sessions)
  {
    RecoverV4Succeeds(d);
    MigrateConsistent(RepairV4(d), now);
  }

  lemma MigrateConsistent(v4: V4, now: int)
    requires ConsistentV4(v4)
    ensures var tasks := TasksFor(v4.sessions, v4.tabs, now);
            tasks.Success? ==>
              var r := MigrateV5(V6(v4.sessions, tasks.value, Adopt(v4.tabs), v4.bindings));
              && r.Success? && ConsistentV6(r.value) && r.value.tabs == [] && r.value.bindings == []
              && (forall s | s in v4.sessions :: TASK_PREFIX + s.id in Ids(r.value.tasks))
              && r.value.tasks == Leftovers(v4.sessions)
  {
    var tasks := TasksFor(v4.sessions, v4.tabs, now);
    if tasks.Success? {
      MigratedTasks(V6(v4.sessions, tasks.value, Adopt(v4.tabs), v4.bindings));
      PrefixedIds(v4.sessions, tasks.value);
      ClosedLeftovers(v4.sessions, v4.tabs, now);
    }
  }

  lemma MigratedTasks(d: V6)
    requires WithinLimits(d)
    ensures var r := MigrateV5(d);
            && r.Success? && ConsistentV6(r.value) && r.value.tabs == [] && r.value.bindings == []
            && r.value.tasks == CloseAll(Dedup(d.tasks)) && Ids(r.value.tasks) == Ids(d.tasks)
  {
    MigrateV5Succeeds(d);
  }

  lemma {:induction false} TasksForFields(sessions: seq<Row<Session>>, tabs: seq<Row<Tab>>, now: int, i: nat)
    requires i < |sessions| && TasksFor(sessions, tabs, now).Success?
    ensures var k, s := TasksFor(sessions, tabs, now).value[i], sessions[i];
            k.v.owner == UNCLAIMED && k.v.state == Suspended && k.v.createdAt == s.v.createdAt && k.v.lastActivityAt == s.v.lastUsedAt
  {
    if i < |sessions| - 1 { TasksForFields(Front(sessions), tabs, now, i); }
  }

  lemma ClosedLeftover(s: Row<Session>, k: Row<Task>)
    requires k.id == TASK_PREFIX + s.id && k.v.owner == UNCLAIMED && k.v.state == Suspended
    requires k.v.createdAt == s.v.createdAt && k.v.lastActivityAt == s.v.lastUsedAt
    ensures Row(k.id, Close(k.v)) == Leftover(s)
  {
  }

  lemma {:induction false} PrefixedUnique(sessions: seq<Row<Session>>, tasks: seq<Row<Task>>)
    requires |tasks| == |sessions| && forall i | 0 <= i < |sessions| :: tasks[i].id == TASK_PREFIX + sessions[i].id
    requires Unique(sessions)
    ensures Unique(tasks)
  {
    if tasks != [] {
      PrefixedUnique(Front(sessions), Front(tasks));
      if Last(tasks).id in Ids(Front(tasks)) {
        var k := Row(Last(tasks).id, Find(Front(tasks), Last(tasks).id).value);
        var i :| 0 <= i < |tasks| - 1 && tasks[i] == k;
        assert Front(sessions)[i] in Front(sessions);
        SamePrefix(sessions[i].id, Last(sessions).id);
      }
    }
  }

  lemma SamePrefix(a: Str, b: Str)
    requires TASK_PREFIX + a == TASK_PREFIX + b
    ensures a == b
  {
    assert (TASK_PREFIX + a)[|TASK_PREFIX|..] == a && (TASK_PREFIX + b)[|TASK_PREFIX|..] == b;
  }

  lemma ClosedLeftovers(sessions: seq<Row<Session>>, tabs: seq<Row<Tab>>, now: int)
    requires TasksFor(sessions, tabs, now).Success? && Unique(sessions)
    ensures CloseAll(Dedup(TasksFor(sessions, tabs, now).value)) == Leftovers(sessions)
  {
    var tasks := TasksFor(sessions, tabs, now).value;
    PrefixedUnique(sessions, tasks);
    DedupUnique(tasks);
    forall i | 0 <= i < |sessions| ensures CloseAll(tasks)[i] == Leftovers(sessions)[i] {
      TasksForFields(sessions, tabs, now, i);
      ClosedLeftover(sessions[i], tasks[i]);
    }
  }

  lemma PrefixedIds(sessions: seq<Row<Session>>, tasks: seq<Row<Task>>)
    requires |tasks| == |sessions| && forall i | 0 <= i < |sessions| :: tasks[i].id == TASK_PREFIX + sessions[i].id
    ensures forall s | s in sessions :: TASK_PREFIX + s.id in Ids(tasks)
  {
    forall s | s in sessions ensures TASK_PREFIX + s.id in Ids(tasks) {
      var i :| 0 <= i < |sessions| && sessions[i] == s;
      assert tasks[i] in tasks;
    }
  }

  /** One disconnected session whose id the schema of sessions allows, and no migration. */
  lemma LongSessionIdExample(now: int)
    ensures var d := V4([Row(Repeat(0x61, 124), Session(Disconnected, 0, 0, []))], [], []);
            ShapedV4(d) && |d.sessions[0].id| <= 128 && MigrateV4(d, now).Failure?
  {
    var row: Row<Session> := Row(Repeat(0x61, 124), Session(Disconnected, 0, 0, []));
    var d := V4([row], [], []);
    SingleRow(row);
    assert Stays(d, row.id);
    MigrateV4ExactlyWhen(d, now);
  }
}
