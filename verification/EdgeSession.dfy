/** The edge connector session (mcp-session.ts, connector-handover.ts): connector
    hand-over, contract rollout and in-flight relays, one event handler at a time. */
module EdgeSession {
  import opened Text
  import opened ContractRollout

  const V3 := 3
  const LEGACY := 2

  /** What a connector reports about itself. `startedAt` is None when the timestamp does
      not parse; `instance` stands for the instance id's place in the collation order. */
  datatype Runtime = Runtime(startedAt: Option<int>, instance: int, generation: int, revision: string)

  datatype Attachment = Attachment(
    ready: bool,
    protocol: int,
    compatible: bool,
    disconnectRecorded: bool,
    runtime: Option<Runtime>)

  /** `open` is readyState OPEN; `gone` holds once the close event was delivered. */
  datatype Socket = Socket(id: nat, open: bool, gone: bool, attachment: Attachment)

  // ---------------------------------------------------------------- preference

  predicate PreferredRuntime(candidate: Option<Runtime>, current: Option<Runtime>) {
    var c := if candidate.Some? then candidate.value.startedAt else None;
    var d := if current.Some? then current.value.startedAt else None;
    if c.Some? && d.Some? then
      if c.value != d.value then c.value > d.value
      else if candidate.value.instance == current.value.instance then candidate.value.generation > current.value.generation
      else candidate.value.instance > current.value.instance
    else c.Some? && d.None?
  }

  predicate PreferredAttachment(candidate: Attachment, current: Attachment) {
    candidate.protocol == V3 && current.protocol == V3 && PreferredRuntime(candidate.runtime, current.runtime)
  }

  function PreferredProtocol(v3Ready: bool, legacyReady: bool): Option<int> {
    if v3Ready then Some(V3) else if legacyReady then Some(LEGACY) else None
  }

  // ---------------------------------------------------------------- selection

  datatype Query = Query(protocol: Option<int>, requireCompatible: bool, revision: Option<string>)

  predicate Qualifies(s: Socket, q: Query) {
    var a := s.attachment;
    && a.ready
    && (q.protocol.Some? ==> a.protocol == q.protocol.value)
    && (q.requireCompatible && a.protocol != LEGACY ==> a.compatible)
    && (q.revision.Some? && a.protocol != LEGACY ==> a.runtime.Some? && a.runtime.value.revision == q.revision.value)
    && s.open
  }

  function Better(best: Option<Socket>, s: Socket, q: Query): Option<Socket> {
    if !Qualifies(s, q) then best
    else if best.None? || PreferredAttachment(s.attachment, best.value.attachment) then Some(s)
    else best
  }

  function SelectFrom(sockets: seq<Socket>, q: Query, best: Option<Socket>): Option<Socket> {
    if sockets == [] then best else SelectFrom(sockets[1..], q, Better(best, sockets[0], q))
  }

  function Select(sockets: seq<Socket>, q: Query): Option<Socket> {
    SelectFrom(sockets, q, None)
  }

  /** Started at a known time, as every runtime the protocol parser accepts is. */
  predicate Timed(s: Socket) {
    s.attachment.runtime.Some? && s.attachment.runtime.value.startedAt.Some?
  }

  /** Started later, or at the same time with a greater instance id, or as the same instance with
      at least the same generation. */
  predicate AtLeast(a: Runtime, b: Runtime) {
    && a.startedAt.Some? && b.startedAt.Some?
    && (|| a.startedAt.value > b.startedAt.value
        || (a.startedAt.value == b.startedAt.value && a.instance > b.instance)
        || (a.startedAt.value == b.startedAt.value && a.instance == b.instance && a.generation >= b.generation))
  }

  lemma NotPreferredIsLess(a: Runtime, b: Runtime)
    requires a.startedAt.Some? && b.startedAt.Some?
    ensures !PreferredRuntime(Some(b), Some(a)) <==> AtLeast(a, b)
  {
  }

  /** The outcome every scan order agrees on: it qualifies and is at least any that does. */
  ghost predicate Greatest(sockets: seq<Socket>, q: Query, r: Option<Socket>) {
    match r
    case None => forall s | s in sockets :: !Qualifies(s, q)
    case Some(best) =>
      && best in sockets && Qualifies(best, q) && Timed(best)
      && forall s | s in sockets && Qualifies(s, q) ::
           Timed(s) && AtLeast(best.attachment.runtime.value, s.attachment.runtime.value)
  }

  ghost predicate DistinctIdentities(sockets: seq<Socket>, q: Query) {
    forall s, t | s in sockets && t in sockets && Qualifies(s, q) && Qualifies(t, q) && Timed(s) && Timed(t) && s != t ::
      var a, b := s.attachment.runtime.value, t.attachment.runtime.value;
      (a.startedAt, a.instance, a.generation) != (b.startedAt, b.instance, b.generation)
  }

  lemma {:induction false} SelectFromKeeps(sockets: seq<Socket>, q: Query, best: Option<Socket>)
    requires q.protocol == Some(V3)
    requires best.Some? ==> best.value.attachment.protocol == V3 && Timed(best.value)
    requires forall s | s in sockets && Qualifies(s, q) :: Timed(s)
    ensures var r := SelectFrom(sockets, q, best);
            && (r.None? <==> best.None? && forall s | s in sockets :: !Qualifies(s, q))
            && (r.Some? ==>
                  && (r == best || (r.value in sockets && Qualifies(r.value, q)))
                  && Timed(r.value) && r.value.attachment.protocol == V3
                  && (best.Some? ==> !PreferredAttachment(best.value.attachment, r.value.attachment))
                  && forall s | s in sockets && Qualifies(s, q) :: !PreferredAttachment(s.attachment, r.value.attachment))
  {
    if sockets != [] {
      SelectFromKeeps(sockets[1..], q, Better(best, sockets[0], q));
    }
  }

  /** The scan returns a socket that nothing eligible beats. */
  lemma SelectIsGreatest(sockets: seq<Socket>, q: Query)
    requires q.protocol == Some(V3)
    requires forall s | s in sockets && Qualifies(s, q) :: Timed(s)
    ensures Greatest(sockets, q, Select(sockets, q))
  {
    SelectFromKeeps(sockets, q, None);
    var r := Select(sockets, q);
    forall s | r.Some? && s in sockets && Qualifies(s, q)
      ensures AtLeast(r.value.attachment.runtime.value, s.attachment.runtime.value)
    {
      NotPreferredIsLess(r.value.attachment.runtime.value, s.attachment.runtime.value);
    }
  }

  /** With distinct identities the result does not depend on the order in which the
      runtime lists the sockets. */
  lemma SelectIgnoresOrder(sockets: seq<Socket>, other: seq<Socket>, q: Query)
    requires q.protocol == Some(V3)
    requires forall s :: s in sockets <==> s in other
    requires forall s | s in sockets && Qualifies(s, q) :: Timed(s)
    requires DistinctIdentities(sockets, q)
    ensures Select(sockets, q) == Select(other, q)
  {
    SelectIsGreatest(sockets, q);
    SelectIsGreatest(other, q);
  }

  // ---------------------------------------------------------------- session state

  datatype Answer = Replied | ReplyTooLarge | TimedOut | ClientGone | ConnectorLost | SendFailed

  datatype Pending = Pending(request: nat, connector: nat)
  datatype Answered = Answered(request: nat, answer: Answer)

  /** `sockets`, `stored`, `catalogs` and `cutoverStored` survive a restart; the rest is
      the memory of one instance. `chosen` holds the legacy requests whose body is still being
      read, each with the connector chosen for it. `timers` and `hooks` are the armed timeouts
      and the registered abort listeners. `accepted` and `answers` record what the instance
      took on and what it answered. */
  datatype State = State(
    build: string,
    sockets: seq<Socket>,
    stored: Option<Rollout>,
    catalogs: set<string>,
    cutoverStored: bool,
    cutover: bool,
    rollout: Rollout,
    activeCatalog: Option<string>,
    chosen: map<nat, nat>,
    pending: seq<Pending>,
    timers: set<nat>,
    hooks: set<nat>,
    accepted: seq<nat>,
    answers: seq<Answered>)

  datatype UpgradeRequest = AskV3 | AskNothing | AskOther

  datatype Event =
    | Restart(build: string, observed: Option<string>, now: int)
    | Upgrade(asked: UpgradeRequest)
    | Ready(socket: nat, runtime: Option<Runtime>)
    | Closing(socket: nat)
    | Closed(socket: nat)
    | Errored(socket: nat)
    | PromoteContract(expectedActive: string, expectedCandidate: string, now: int)
    | RollbackContract(expectedActive: string, expectedPrevious: string, now: int)
    | Relay(request: nat, sendFails: bool)
    | LegacyChosen(request: nat)
    | LegacyRegistered(request: nat, sendFails: bool)
    | LegacyGivenUp(request: nat)
    | Reply(socket: nat, request: nat, tooLarge: bool)
    | Timeout(request: nat)
    | ClientAbort(request: nat)

  function Expected(protocol: int, active: string): Query {
    Query(Some(protocol), true, if protocol == LEGACY then None else Some(active))
  }

  function ExecutionConnector(s: State): Option<Socket> {
    Select(s.sockets, Expected(V3, s.rollout.active))
  }

  function ConnectorForRevision(s: State, revision: string): Option<Socket> {
    Select(s.sockets, Query(Some(V3), false, Some(revision)))
  }

  function PreferredExecutionConnector(s: State): Option<Socket> {
    var v3 := ExecutionConnector(s);
    var legacy := Select(s.sockets, Expected(LEGACY, s.rollout.active));
    var protocol := PreferredProtocol(v3.Some?, legacy.Some?);
    if protocol == Some(V3) then v3 else if protocol == Some(LEGACY) then legacy else None
  }

  function RevisionOf(s: Option<Socket>): Option<string> {
    if s.Some? && s.value.attachment.runtime.Some? then Some(s.value.attachment.runtime.value.revision) else None
  }

  function Flag(a: Attachment, rollout: Rollout): bool {
    a.protocol == LEGACY || Compatible(if a.runtime.Some? then Some(a.runtime.value.revision) else None, rollout)
  }

  function Refreshed(sockets: seq<Socket>, rollout: Rollout): seq<Socket> {
    seq(|sockets|, i requires 0 <= i < |sockets| =>
      sockets[i].(attachment := sockets[i].attachment.(compatible := Flag(sockets[i].attachment, rollout))))
  }

  function Booted(s: State, build: string, observed: Option<string>, now: int): State {
    var catalogs := s.catalogs + {build};
    var rollout := Reconcile(s.stored, observed, build, now).0;
    State(build, s.sockets, Some(rollout), catalogs, s.cutoverStored, false, rollout,
          if rollout.active in catalogs then Some(rollout.active) else None,
          map[], [], {}, {}, [], [])
  }

  function Promoted(s: State, expectedActive: string, expectedCandidate: string, now: int): State {
    var ready := RevisionOf(ConnectorForRevision(s, expectedCandidate));
    match Promote(s.rollout, expectedActive, expectedCandidate, ready, s.build, now)
    case Failure(_) => s
    case Success(change) => Adopted(s, change)
  }

  function RolledBack(s: State, expectedActive: string, expectedPrevious: string, now: int): State {
    var ready := RevisionOf(ConnectorForRevision(s, expectedPrevious));
    match Rollback(s.rollout, expectedActive, expectedPrevious, ready, s.build, now)
    case Failure(_) => s
    case Success(change) => Adopted(s, change)
  }

  /** Takes a rollout change over: nothing happens when its catalog snapshot is missing. */
  function Adopted(s: State, change: Change): State {
    if !change.already && change.state.active !in s.catalogs then s
    else
      var s' := if change.already then s
                else s.(stored := Some(change.state), rollout := change.state, activeCatalog := Some(change.state.active));
      s'.(sockets := Refreshed(s'.sockets, s'.rollout))
  }

  function SetAttachment(s: State, socket: nat, a: Attachment): State
    requires socket < |s.sockets|
  {
    s.(sockets := s.sockets[socket := s.sockets[socket].(attachment := a)])
  }

  function MadeReady(s: State, socket: nat, runtime: Option<Runtime>): State
    requires socket < |s.sockets|
  {
    var protocol := s.sockets[socket].attachment.protocol;
    var a := Attachment(true, protocol, false, false, runtime);
    var s' := SetAttachment(s, socket, a.(compatible := Flag(a, s.rollout)));
    if protocol == V3 then s'.(cutover := true, cutoverStored := true) else s'
  }

  function Without(pending: seq<Pending>, request: nat): seq<Pending> {
    if pending == [] then []
    else if pending[0].request == request then Without(pending[1..], request)
    else [pending[0]] + Without(pending[1..], request)
  }

  function NamedBy(pending: seq<Pending>, connector: nat): seq<Pending> {
    if pending == [] then []
    else if pending[0].connector == connector then [pending[0]] + NamedBy(pending[1..], connector)
    else NamedBy(pending[1..], connector)
  }

  function NotNamedBy(pending: seq<Pending>, connector: nat): (r: seq<Pending>)
    ensures forall p | p in r :: p in pending && p.connector != connector
  {
    if pending == [] then []
    else if pending[0].connector == connector then NotNamedBy(pending[1..], connector)
    else [pending[0]] + NotNamedBy(pending[1..], connector)
  }

  function Requests(pending: seq<Pending>): set<nat> {
    set p | p in pending :: p.request
  }

  function Lost(pending: seq<Pending>): seq<Answered> {
    if pending == [] then [] else [Answered(pending[0].request, ConnectorLost)] + Lost(pending[1..])
  }

  /** The pending entry leaves the map together with its timer and its abort hook. */
  function Finished(s: State, request: nat, answer: Answer): State {
    if request !in Requests(s.pending) then s
    else s.(pending := Without(s.pending, request),
            timers := s.timers - {request}, hooks := s.hooks - {request},
            answers := s.answers + [Answered(request, answer)])
  }

  function FailedFor(s: State, connector: nat): State {
    var lost := NamedBy(s.pending, connector);
    s.(pending := NotNamedBy(s.pending, connector),
       timers := s.timers - Requests(lost), hooks := s.hooks - Requests(lost),
       answers := s.answers + Lost(lost))
  }

  function Disconnected(s: State, socket: nat): State
    requires socket < |s.sockets|
  {
    var a := s.sockets[socket].attachment;
    if a.disconnectRecorded then s
    else SetAttachment(s, socket, a.(ready := false, disconnectRecorded := true))
  }

  function Relayed(s: State, request: nat, connector: nat, sendFails: bool): State {
    if sendFails then
      s.(accepted := s.accepted + [request], answers := s.answers + [Answered(request, SendFailed)])
    else
      s.(accepted := s.accepted + [request], pending := s.pending + [Pending(request, connector)],
         timers := s.timers + {request}, hooks := s.hooks + {request})
  }

  /** The body of a legacy request was read, or is not going to be. */
  function Resumed(s: State, request: nat): State {
    s.(chosen := s.chosen - {request})
  }

  function Upgraded(s: State, request: UpgradeRequest): State {
    var s' := if s.cutover || s.cutoverStored then s.(cutover := true) else s;
    var protocol := match request
                    case AskV3 => Some(V3)
                    case AskOther => None
                    case AskNothing => if s'.cutover then None else Some(LEGACY);
    if protocol.None? then s'
    else s'.(sockets := s'.sockets + [Socket(|s'.sockets|, true, false, Attachment(false, protocol.value, false, false, None))])
  }

  /** What the platform and the protocol parser guarantee about an event. */
  predicate Enabled(s: State, e: Event) {
    match e
    case Restart(build, _, _) => IsRevision(build)
    case Ready(i, runtime) =>
      && i < |s.sockets| && !s.sockets[i].gone
      && (runtime.Some? ==> s.sockets[i].attachment.protocol == V3 && runtime.value.startedAt.Some? && IsRevision(runtime.value.revision))
    case Closing(i) => i < |s.sockets|
    case Closed(i) => i < |s.sockets|
    case Errored(i) => i < |s.sockets|
    case Relay(request, _) => request !in s.accepted && request !in s.chosen
    case LegacyChosen(request) =>
      && request !in s.accepted && request !in s.chosen
      && var c := PreferredExecutionConnector(s);
         c.Some? && c.value.attachment.protocol == LEGACY
    case LegacyRegistered(request, _) => request in s.chosen
    case LegacyGivenUp(request) => request in s.chosen
    case Reply(i, _, _) => i < |s.sockets| && !s.sockets[i].gone
    case Timeout(request) => request in s.timers
    case ClientAbort(request) => request in s.hooks
    case _ => true
  }

  function Next(s: State, e: Event): State
    requires Enabled(s, e)
  {
    match e
    case Restart(build, observed, now) => Booted(s, build, observed, now)
    case Upgrade(asked) => Upgraded(s, asked)
    case Ready(i, runtime) => MadeReady(s, i, runtime)
    case Closing(i) => s.(sockets := s.sockets[i := s.sockets[i].(open := false)])
    case Closed(i) =>
      var s' := s.(sockets := s.sockets[i := s.sockets[i].(open := false, gone := true)]);
      FailedFor(Disconnected(s', i), i)
    case Errored(i) => FailedFor(Disconnected(s, i), i)
    case PromoteContract(active, candidate, now) => Promoted(s, active, candidate, now)
    case RollbackContract(active, previous, now) => RolledBack(s, active, previous, now)
    case Relay(request, sendFails) =>
      var connector := ExecutionConnector(s);
      if connector.None? then s else Relayed(s, request, connector.value.id, sendFails)
    case LegacyChosen(request) => s.(chosen := s.chosen[request := PreferredExecutionConnector(s).value.id])
    case LegacyRegistered(request, sendFails) => Relayed(Resumed(s, request), request, s.chosen[request], sendFails)
    case LegacyGivenUp(request) => Resumed(s, request)
    case Reply(_, request, tooLarge) => Finished(s, request, if tooLarge then ReplyTooLarge else Replied)
    case Timeout(request) => Finished(s, request, TimedOut)
    case ClientAbort(request) => Finished(s, request, ClientGone)
  }

  // ---------------------------------------------------------------- invariant

  function PendingCount(pending: seq<Pending>, id: nat): nat {
    if pending == [] then 0 else (if pending[0].request == id then 1 else 0) + PendingCount(pending[1..], id)
  }

  function AnswerCount(answers: seq<Answered>, id: nat): nat {
    if answers == [] then 0 else (if answers[0].request == id then 1 else 0) + AnswerCount(answers[1..], id)
  }

  function AcceptedCount(accepted: seq<nat>, id: nat): nat {
    if accepted == [] then 0 else (if accepted[0] == id then 1 else 0) + AcceptedCount(accepted[1..], id)
  }

  predicate GoodSocket(t: Socket, active: string) {
    var a := t.attachment;
    && (a.protocol == V3 || a.protocol == LEGACY)
    && (a.runtime.Some? ==> a.protocol == V3 && a.runtime.value.startedAt.Some? && IsRevision(a.runtime.value.revision))
    && (a.ready && a.runtime.Some? && a.runtime.value.revision == active ==> a.compatible)
    && (a.disconnectRecorded ==> !a.ready)
    && (t.gone ==> !t.open && !a.ready)
  }

  ghost predicate ConnectorsOk(s: State) {
    && IsRevision(s.build) && s.build in s.catalogs
    && WellFormed(s.rollout) && s.stored == Some(s.rollout)
    && s.activeCatalog == (if s.rollout.active in s.catalogs then Some(s.rollout.active) else None)
    && (s.cutover ==> s.cutoverStored)
    && forall i | 0 <= i < |s.sockets| :: s.sockets[i].id == i && GoodSocket(s.sockets[i], s.rollout.active)
  }

  /** Each request taken on is pending or answered, once; and exactly the pending ones
      have a timer armed and an abort hook registered. */
  ghost predicate RelaysOk(s: State) {
    && (forall id :: PendingCount(s.pending, id) + AnswerCount(s.answers, id) == AcceptedCount(s.accepted, id) <= 1)
    && |s.pending| + |s.answers| == |s.accepted|
    && (forall id :: id in s.timers <==> PendingCount(s.pending, id) == 1)
    && s.hooks == s.timers
    && forall p | p in s.pending :: Named(s, p.connector)
  }

  /** Only a legacy connector can be named when it is gone. */
  predicate Named(s: State, i: nat) {
    i < |s.sockets| && (s.sockets[i].gone ==> s.sockets[i].attachment.protocol == LEGACY)
  }

  /** What is being read was chosen for a legacy connector and is not yet taken on. */
  ghost predicate ChosenOk(s: State) {
    forall r | r in s.chosen ::
      r !in s.accepted && s.chosen[r] < |s.sockets| && s.sockets[s.chosen[r]].attachment.protocol == LEGACY
  }

  ghost predicate Inv(s: State) {
    ConnectorsOk(s) && RelaysOk(s) && ChosenOk(s)
  }

  // ---------------------------------------------------------------- connectors

  lemma BootKeepsConnectors(s: State, build: string, observed: Option<string>, now: int)
    requires IsRevision(build)
    requires ConnectorsOk(s) || s.sockets == []
    ensures Inv(Booted(s, build, observed, now))
    ensures ConnectorsOk(s) ==> Booted(s, build, observed, now).rollout.active == s.rollout.active
  {
    ReconcileWellFormed(s.stored, observed, build, now);
  }

  lemma RefreshGood(sockets: seq<Socket>, before: string, rollout: Rollout)
    requires WellFormed(rollout)
    requires forall i | 0 <= i < |sockets| :: sockets[i].id == i && GoodSocket(sockets[i], before)
    ensures var r := Refreshed(sockets, rollout);
            && |r| == |sockets|
            && forall i | 0 <= i < |r| ::
                 && r[i].id == i && GoodSocket(r[i], rollout.active)
                 && r[i].open == sockets[i].open && r[i].gone == sockets[i].gone
                 && r[i].attachment.(compatible := sockets[i].attachment.compatible) == sockets[i].attachment
  {
  }

  lemma AdoptKeepsConnectors(s: State, change: Change)
    requires ConnectorsOk(s) && WellFormed(change.state) && (change.already ==> change.state == s.rollout)
    ensures ConnectorsOk(Adopted(s, change))
  {
    var rollout := if change.already then s.rollout else change.state;
    RefreshGood(s.sockets, s.rollout.active, rollout);
  }

  lemma PromoteKeepsConnectors(s: State, active: string, candidate: string, now: int)
    requires ConnectorsOk(s)
    ensures ConnectorsOk(Promoted(s, active, candidate, now))
  {
    var ready := RevisionOf(ConnectorForRevision(s, candidate));
    PromoteWellFormed(s.rollout, active, candidate, ready, s.build, now);
    var r := Promote(s.rollout, active, candidate, ready, s.build, now);
    if r.Success? { AdoptKeepsConnectors(s, r.value); }
  }

  lemma RollbackKeepsConnectors(s: State, active: string, previous: string, now: int)
    requires ConnectorsOk(s)
    ensures ConnectorsOk(RolledBack(s, active, previous, now))
  {
    var ready := RevisionOf(ConnectorForRevision(s, previous));
    RollbackWellFormed(s.rollout, active, previous, ready, s.build, now);
    var r := Rollback(s.rollout, active, previous, ready, s.build, now);
    if r.Success? { AdoptKeepsConnectors(s, r.value); }
  }

  lemma UpgradeKeepsConnectors(s: State, asked: UpgradeRequest)
    requires ConnectorsOk(s)
    ensures ConnectorsOk(Upgraded(s, asked))
    ensures IsPrefix(s.sockets, Upgraded(s, asked).sockets)
  {
  }

  /** Replacing one socket by another good one. */
  lemma SocketKeepsConnectors(s: State, s': State, i: nat, t: Socket)
    requires ConnectorsOk(s) && i < |s.sockets|
    requires t.id == i && GoodSocket(t, s.rollout.active)
    requires s'.sockets == s.sockets[i := t]
    requires s'.build == s.build && s'.catalogs == s.catalogs && s'.rollout == s.rollout && s'.stored == s.stored
    requires s'.activeCatalog == s.activeCatalog && (s'.cutover ==> s'.cutoverStored)
    ensures ConnectorsOk(s')
  {
  }

  lemma ReadyKeepsConnectors(s: State, i: nat, runtime: Option<Runtime>)
    requires ConnectorsOk(s) && Enabled(s, Ready(i, runtime))
    ensures ConnectorsOk(MadeReady(s, i, runtime))
  {
    var s' := MadeReady(s, i, runtime);
    SocketKeepsConnectors(s, s', i, s'.sockets[i]);
  }

  lemma DisconnectKeepsConnectors(s: State, i: nat)
    requires ConnectorsOk(s) && i < |s.sockets|
    ensures ConnectorsOk(FailedFor(Disconnected(s, i), i))
  {
    var s' := FailedFor(Disconnected(s, i), i);
    SocketKeepsConnectors(s, s', i, s'.sockets[i]);
  }

  lemma CloseKeepsConnectors(s: State, i: nat)
    requires ConnectorsOk(s) && i < |s.sockets|
    ensures ConnectorsOk(Next(s, Closed(i)))
  {
    var s' := Next(s, Closed(i));
    SocketKeepsConnectors(s, s', i, s'.sockets[i]);
  }

  /** What a relay step leaves alone. */
  predicate SameConnectors(s: State, s': State) {
    && s'.build == s.build && s'.sockets == s.sockets && s'.stored == s.stored && s'.catalogs == s.catalogs
    && s'.cutoverStored == s.cutoverStored && s'.cutover == s.cutover && s'.rollout == s.rollout
    && s'.activeCatalog == s.activeCatalog
  }

  lemma RelaySteps(s: State, e: Event)
    requires Enabled(s, e)
    requires e.Relay? || e.LegacyChosen? || e.LegacyRegistered? || e.LegacyGivenUp? || e.Reply? || e.Timeout? || e.ClientAbort?
    ensures SameConnectors(s, Next(s, e))
  {
  }

  lemma StepKeepsConnectors(s: State, e: Event)
    requires ConnectorsOk(s) && Enabled(s, e)
    ensures ConnectorsOk(Next(s, e))
  {
    match e
    case Restart(build, observed, now) => BootKeepsConnectors(s, build, observed, now);
    case PromoteContract(active, candidate, now) => PromoteKeepsConnectors(s, active, candidate, now);
    case RollbackContract(active, previous, now) => RollbackKeepsConnectors(s, active, previous, now);
    case Upgrade(asked) => UpgradeKeepsConnectors(s, asked);
    case Ready(i, runtime) => ReadyKeepsConnectors(s, i, runtime);
    case Closing(i) => SocketKeepsConnectors(s, Next(s, e), i, s.sockets[i].(open := false));
    case Closed(i) => CloseKeepsConnectors(s, i);
    case Errored(i) => DisconnectKeepsConnectors(s, i);
    case _ => RelaySteps(s, e);
  }

  // ---------------------------------------------------------------- relays

  lemma {:induction false} WithoutCounts(pending: seq<Pending>, request: nat, id: nat)
    ensures PendingCount(Without(pending, request), id) == if id == request then 0 else PendingCount(pending, id)
    ensures |Without(pending, request)| == |pending| - PendingCount(pending, request)
    ensures forall p | p in Without(pending, request) :: p in pending
  {
    if pending != [] { WithoutCounts(pending[1..], request, id); }
  }

  lemma {:induction false} NamedByCounts(pending: seq<Pending>, connector: nat, id: nat)
    ensures PendingCount(NamedBy(pending, connector), id) + PendingCount(NotNamedBy(pending, connector), id)
         == PendingCount(pending, id)
    ensures |NamedBy(pending, connector)| + |NotNamedBy(pending, connector)| == |pending|
  {
    if pending != [] { NamedByCounts(pending[1..], connector, id); }
  }

  /** One turn of the loop over the pending entries. */
  lemma NamedByHead(pending: seq<Pending>, i: nat, connector: nat)
    requires i < |pending|
    ensures var p, rest := pending[i], pending[i + 1..];
            if p.connector == connector then
              && Lost(NamedBy(pending[i..], connector)) == [Answered(p.request, ConnectorLost)] + Lost(NamedBy(rest, connector))
              && Requests(NamedBy(pending[i..], connector)) == {p.request} + Requests(NamedBy(rest, connector))
              && NotNamedBy(pending[i..], connector) == NotNamedBy(rest, connector)
            else
              && NamedBy(pending[i..], connector) == NamedBy(rest, connector)
              && NotNamedBy(pending[i..], connector) == [p] + NotNamedBy(rest, connector)
  {
    var p, rest := pending[i], pending[i + 1..];
    assert pending[i..][0] == p && pending[i..][1..] == rest;
    var tail := NamedBy(rest, connector);
    assert ([p] + tail)[1..] == tail;
    assert Requests([p] + tail) == {p.request} + Requests(tail);
  }

  lemma MovesAcross<T>(a: seq<T>, x: T, b: seq<T>)
    ensures a + ([x] + b) == (a + [x]) + b
  {
  }

  lemma RemoveRegroup(a: set<nat>, x: nat, b: set<nat>)
    ensures a - ({x} + b) == (a - {x}) - b
  {
  }

  lemma {:induction false} LostCounts(pending: seq<Pending>, id: nat)
    ensures AnswerCount(Lost(pending), id) == PendingCount(pending, id) && |Lost(pending)| == |pending|
  {
    if pending != [] { LostCounts(pending[1..], id); }
  }

  lemma {:induction false} AnswersAppend(a: seq<Answered>, b: seq<Answered>, id: nat)
    ensures AnswerCount(a + b, id) == AnswerCount(a, id) + AnswerCount(b, id)
  {
    if a == [] {
      assert a + b == b;
    } else {
      assert (a + b)[1..] == a[1..] + b;
      AnswersAppend(a[1..], b, id);
    }
  }

  lemma {:induction false} PendingAppend(a: seq<Pending>, b: seq<Pending>, id: nat)
    ensures PendingCount(a + b, id) == PendingCount(a, id) + PendingCount(b, id)
  {
    if a == [] {
      assert a + b == b;
    } else {
      assert (a + b)[1..] == a[1..] + b;
      PendingAppend(a[1..], b, id);
    }
  }

  lemma {:induction false} AcceptedAppend(a: seq<nat>, last: nat, id: nat)
    ensures AcceptedCount(a + [last], id) == AcceptedCount(a, id) + (if id == last then 1 else 0)
  {
    if a != [] {
      assert (a + [last])[1..] == a[1..] + [last];
      AcceptedAppend(a[1..], last, id);
    }
  }

  lemma {:induction false} AcceptedMember(a: seq<nat>, id: nat)
    ensures AcceptedCount(a, id) > 0 <==> id in a
  {
    if a != [] { AcceptedMember(a[1..], id); }
  }

  lemma {:induction false} PendingMember(pending: seq<Pending>, id: nat)
    ensures PendingCount(pending, id) > 0 <==> id in Requests(pending)
  {
    if pending != [] {
      PendingMember(pending[1..], id);
      assert Requests(pending) == {pending[0].request} + Requests(pending[1..]);
    }
  }

  lemma FinishKeepsRelays(s: State, id: nat, answer: Answer)
    requires RelaysOk(s)
    ensures RelaysOk(Finished(s, id, answer))
    ensures id !in Requests(Finished(s, id, answer).pending) && id !in Finished(s, id, answer).timers
  {
    PendingMember(s.pending, id);
    if id in Requests(s.pending) {
      var s' := Finished(s, id, answer);
      forall other
        ensures PendingCount(s'.pending, other) == if other == id then 0 else PendingCount(s.pending, other)
        ensures AnswerCount(s'.answers, other) == AnswerCount(s.answers, other) + if other == id then 1 else 0
      {
        WithoutCounts(s.pending, id, other);
        AnswersAppend(s.answers, [Answered(id, answer)], other);
      }
      WithoutCounts(s.pending, id, id);
      PendingMember(s'.pending, id);
    }
  }

  lemma FailKeepsRelays(s: State, connector: nat)
    requires RelaysOk(s)
    ensures RelaysOk(FailedFor(s, connector))
    ensures forall p | p in FailedFor(s, connector).pending :: p.connector != connector
  {
    var lost := NamedBy(s.pending, connector);
    var s' := FailedFor(s, connector);
    forall id
      ensures PendingCount(s'.pending, id) + PendingCount(lost, id) == PendingCount(s.pending, id)
      ensures AnswerCount(s'.answers, id) == AnswerCount(s.answers, id) + PendingCount(lost, id)
      ensures PendingCount(lost, id) > 0 <==> id in Requests(lost)
    {
      FailCounts(s, connector, id);
    }
    NamedByCounts(s.pending, connector, 0);
    LostCounts(lost, 0);
    forall p | p in s'.pending ensures Named(s', p.connector) { assert Named(s, p.connector); }
  }

  lemma FailCounts(s: State, connector: nat, id: nat)
    ensures var lost, s' := NamedBy(s.pending, connector), FailedFor(s, connector);
            && PendingCount(s'.pending, id) + PendingCount(lost, id) == PendingCount(s.pending, id)
            && AnswerCount(s'.answers, id) == AnswerCount(s.answers, id) + PendingCount(lost, id)
            && (PendingCount(lost, id) > 0 <==> id in Requests(lost))
  {
    var lost := NamedBy(s.pending, connector);
    NamedByCounts(s.pending, connector, id);
    LostCounts(lost, id);
    AnswersAppend(s.answers, Lost(lost), id);
    PendingMember(lost, id);
  }

  lemma RelayKeepsRelays(s: State, id: nat, connector: nat, sendFails: bool)
    requires RelaysOk(s) && id !in s.accepted && Named(s, connector)
    ensures RelaysOk(Relayed(s, id, connector, sendFails))
  {
    var s' := Relayed(s, id, connector, sendFails);
    AcceptedMember(s.accepted, id);
    forall other
      ensures AcceptedCount(s'.accepted, other) == AcceptedCount(s.accepted, other) + if other == id then 1 else 0
      ensures sendFails ==> AnswerCount(s'.answers, other) == AnswerCount(s.answers, other) + if other == id then 1 else 0
      ensures !sendFails ==> PendingCount(s'.pending, other) == PendingCount(s.pending, other) + if other == id then 1 else 0
    {
      AcceptedAppend(s.accepted, id, other);
      AnswersAppend(s.answers, [Answered(id, SendFailed)], other);
      PendingAppend(s.pending, [Pending(id, connector)], other);
    }
    forall p | p in s'.pending ensures Named(s', p.connector) {
      assert p in s.pending ==> Named(s, p.connector);
    }
  }

  lemma SelectedIsOpen(s: State, q: Query)
    requires ConnectorsOk(s)
    ensures Select(s.sockets, q).Some? ==>
              var r := Select(s.sockets, q).value;
              r.id < |s.sockets| && s.sockets[r.id] == r && Qualifies(r, q) && !r.gone
  {
    SelectFromMember(s.sockets, q, None);
  }

  lemma {:induction false} SelectFromMember(sockets: seq<Socket>, q: Query, best: Option<Socket>)
    ensures var r := SelectFrom(sockets, q, best);
            r == best || (r.Some? && r.value in sockets && Qualifies(r.value, q))
  {
    if sockets != [] {
      SelectFromMember(sockets[1..], q, Better(best, sockets[0], q));
    }
  }

  /** What a connector step leaves alone. */
  predicate SameRelays(s: State, s': State) {
    && s'.chosen == s.chosen && s'.pending == s.pending && s'.timers == s.timers && s'.hooks == s.hooks
    && s'.accepted == s.accepted && s'.answers == s.answers
    && |s.sockets| <= |s'.sockets|
    && forall i | 0 <= i < |s.sockets| ::
         s'.sockets[i].gone == s.sockets[i].gone && s'.sockets[i].attachment.protocol == s.sockets[i].attachment.protocol
  }

  lemma ConnectorSteps(s: State, e: Event)
    requires ConnectorsOk(s) && Enabled(s, e)
    requires e.Upgrade? || e.Ready? || e.Closing? || e.PromoteContract? || e.RollbackContract?
    ensures SameRelays(s, Next(s, e))
  {
    match e
    case PromoteContract(active, candidate, now) => AdoptedSockets(s, Promoted(s, active, candidate, now));
    case RollbackContract(active, previous, now) => AdoptedSockets(s, RolledBack(s, active, previous, now));
    case Upgrade(asked) => UpgradeKeepsConnectors(s, asked);
    case _ =>
  }

  lemma AdoptedSockets(s: State, s': State)
    requires s' == s || exists change :: s' == Adopted(s, change)
    ensures SameRelays(s, s')
  {
  }

  lemma CloseKeepsRelays(s: State, i: nat)
    requires Inv(s) && i < |s.sockets|
    ensures RelaysOk(Next(s, Closed(i)))
  {
    FailKeepsRelays(s, i);
    var f := FailedFor(s, i);
    var n := Next(s, Closed(i));
    assert n.pending == f.pending && n.timers == f.timers && n.hooks == f.hooks;
    assert n.accepted == f.accepted && n.answers == f.answers;
    forall p | p in n.pending ensures Named(n, p.connector) { assert p in f.pending && Named(s, p.connector); }
  }

  lemma ErrorKeepsRelays(s: State, i: nat)
    requires Inv(s) && i < |s.sockets|
    ensures RelaysOk(Next(s, Errored(i)))
  {
    FailKeepsRelays(Disconnected(s, i), i);
  }

  lemma StepKeepsRelays(s: State, e: Event)
    requires Inv(s) && Enabled(s, e)
    ensures RelaysOk(Next(s, e))
  {
    match e
    case Restart(build, observed, now) => BootKeepsConnectors(s, build, observed, now);
    case Closed(i) => CloseKeepsRelays(s, i);
    case Errored(i) => ErrorKeepsRelays(s, i);
    case Relay(id, sendFails) =>
      SelectedIsOpen(s, Expected(V3, s.rollout.active));
      var connector := ExecutionConnector(s);
      if connector.Some? { RelayKeepsRelays(s, id, connector.value.id, sendFails); }
    case LegacyChosen(_) =>
    case LegacyRegistered(id, sendFails) => RelayKeepsRelays(Resumed(s, id), id, s.chosen[id], sendFails);
    case LegacyGivenUp(_) =>
    case Reply(_, id, tooLarge) => FinishKeepsRelays(s, id, if tooLarge then ReplyTooLarge else Replied);
    case Timeout(id) => FinishKeepsRelays(s, id, TimedOut);
    case ClientAbort(id) => FinishKeepsRelays(s, id, ClientGone);
    case _ => ConnectorSteps(s, e);
  }

  lemma StepKeepsChosen(s: State, e: Event)
    requires Inv(s) && Enabled(s, e)
    ensures ChosenOk(Next(s, e))
  {
    match e
    case Restart(_, _, _) =>
    case LegacyChosen(_) =>
      SelectedIsOpen(s, Expected(V3, s.rollout.active));
      SelectedIsOpen(s, Expected(LEGACY, s.rollout.active));
    case Closed(_) =>
    case Errored(_) =>
    case Upgrade(_) => ConnectorSteps(s, e);
    case Ready(_, _) => ConnectorSteps(s, e);
    case Closing(_) => ConnectorSteps(s, e);
    case PromoteContract(_, _, _) => ConnectorSteps(s, e);
    case RollbackContract(_, _, _) => ConnectorSteps(s, e);
    case _ => RelaySteps(s, e);
  }

  // ---------------------------------------------------------------- runs

  /** `s` is where the event list leads from `from`. */
  ghost predicate Run(from: State, events: seq<Event>, s: State)
    decreases |events|
  {
    if events == [] then s == from
    else Enabled(from, events[0]) && Run(Next(from, events[0]), events[1..], s)
  }

  /** A first boot over any storage, before any connector. */
  ghost predicate FirstBoot(s: State) {
    exists storage: State, build, observed, now ::
      storage.sockets == [] && IsRevision(build) && s == Booted(storage, build, observed, now)
  }

  lemma StepKeepsInv(s: State, e: Event)
    requires Inv(s) && Enabled(s, e)
    ensures Inv(Next(s, e))
  {
    StepKeepsConnectors(s, e);
    StepKeepsRelays(s, e);
    StepKeepsChosen(s, e);
  }

  lemma {:induction false} RunKeepsInv(from: State, events: seq<Event>, s: State)
    requires Inv(from) && Run(from, events, s)
    ensures Inv(s)
    decreases |events|
  {
    if events != [] {
      StepKeepsInv(from, events[0]);
      RunKeepsInv(Next(from, events[0]), events[1..], s);
    }
  }

  /** Every state any run reaches, restarts on other builds included, is consistent: the
      rollout record in memory is well formed and is the stored one, no ready connector on
      the active revision is flagged incompatible, and the relay accounts balance. */
  lemma Reachable(first: State, events: seq<Event>, s: State)
    requires FirstBoot(first) && Run(first, events, s)
    ensures Inv(s)
  {
    var storage: State, build, observed, now :|
      storage.sockets == [] && IsRevision(build) && first == Booted(storage, build, observed, now);
    BootKeepsConnectors(storage, build, observed, now);
    RunKeepsInv(first, events, s);
  }

  /** An open connector that is ready to run the active contract, whatever its cached
      flag says. */
  predicate Live(t: Socket, active: string) {
    && t.open && t.attachment.ready && t.attachment.protocol == V3
    && t.attachment.runtime.Some? && t.attachment.runtime.value.revision == active
  }

  ghost predicate DistinctLive(sockets: seq<Socket>, active: string) {
    forall t, u | t in sockets && u in sockets && Live(t, active) && Live(u, active) && t != u ::
      var a, b := t.attachment.runtime.value, u.attachment.runtime.value;
      (a.startedAt, a.instance, a.generation) != (b.startedAt, b.instance, b.generation)
  }

  /** In every consistent state, v3 execution goes to the greatest live connector on the
      active revision; none is hidden by its cached flag, and with distinct identities any
      listing of the same sockets gives the same one. */
  lemma ExecutionGoesToGreatestLive(s: State, listing: seq<Socket>)
    requires Inv(s)
    requires forall t :: t in listing <==> t in s.sockets
    ensures var r := ExecutionConnector(s);
            && (r.None? <==> forall t | t in s.sockets :: !Live(t, s.rollout.active))
            && (r.Some? ==>
                  && r.value in s.sockets && Live(r.value, s.rollout.active)
                  && forall t | t in s.sockets && Live(t, s.rollout.active) ::
                       AtLeast(r.value.attachment.runtime.value, t.attachment.runtime.value))
            && (DistinctLive(s.sockets, s.rollout.active) ==>
                  Select(listing, Expected(V3, s.rollout.active)) == r)
  {
    var q := Expected(V3, s.rollout.active);
    assert forall t | t in s.sockets :: GoodSocket(t, s.rollout.active);
    assert forall t | t in s.sockets :: Qualifies(t, q) <==> Live(t, s.rollout.active);
    assert forall t | t in s.sockets && Qualifies(t, q) :: Timed(t);
    SelectIsGreatest(s.sockets, q);
    if DistinctLive(s.sockets, s.rollout.active) {
      assert DistinctIdentities(s.sockets, q);
      SelectIgnoresOrder(s.sockets, listing, q);
    }
  }

  predicate ReadyLegacy(t: Socket) {
    t.open && t.attachment.ready && t.attachment.protocol == LEGACY
  }

  /** What execution prefers: the greatest live v3 connector on the active revision; without
      one, the first open ready legacy connector in listing order; otherwise none. */
  ghost predicate PrefersExecution(sockets: seq<Socket>, active: string, r: Option<Socket>) {
    if exists t | t in sockets :: Live(t, active) then
      && r.Some? && r.value in sockets && Live(r.value, active)
      && forall t | t in sockets && Live(t, active) :: AtLeast(r.value.attachment.runtime.value, t.attachment.runtime.value)
    else if exists t | t in sockets :: ReadyLegacy(t) then
      exists k | 0 <= k < |sockets| ::
        r == Some(sockets[k]) && ReadyLegacy(sockets[k]) && forall j | 0 <= j < k :: !ReadyLegacy(sockets[j])
    else r.None?
  }

  lemma {:induction false} LegacyKeepsBest(sockets: seq<Socket>, q: Query, best: Socket)
    requires best.attachment.protocol == LEGACY
    ensures SelectFrom(sockets, q, Some(best)) == Some(best)
  {
    if sockets != [] { LegacyKeepsBest(sockets[1..], q, best); }
  }

  lemma {:induction false} LegacyTakesFirst(sockets: seq<Socket>, active: string)
    ensures var r := Select(sockets, Expected(LEGACY, active));
            && (r.None? ==> forall t | t in sockets :: !ReadyLegacy(t))
            && (r.Some? ==> exists k | 0 <= k < |sockets| ::
                  r == Some(sockets[k]) && ReadyLegacy(sockets[k]) && forall j | 0 <= j < k :: !ReadyLegacy(sockets[j]))
  {
    var q := Expected(LEGACY, active);
    if sockets != [] {
      assert Qualifies(sockets[0], q) <==> ReadyLegacy(sockets[0]);
      if ReadyLegacy(sockets[0]) {
        LegacyKeepsBest(sockets[1..], q, sockets[0]);
      } else {
        LegacyTakesFirst(sockets[1..], active);
        var r := Select(sockets[1..], q);
        if r.Some? {
          var k :| 0 <= k < |sockets| - 1 && r == Some(sockets[1..][k]) && ReadyLegacy(sockets[1..][k])
                   && forall j | 0 <= j < k :: !ReadyLegacy(sockets[1..][j]);
          assert sockets[k + 1] == sockets[1..][k];
          assert forall j | 1 <= j < k + 1 :: sockets[j] == sockets[1..][j - 1];
        }
      }
    }
  }

  lemma ExecutionPrefersV3(s: State)
    requires Inv(s)
    ensures PrefersExecution(s.sockets, s.rollout.active, PreferredExecutionConnector(s))
  {
    ExecutionGoesToGreatestLive(s, s.sockets);
    LegacyTakesFirst(s.sockets, s.rollout.active);
  }

  /** A request is taken on exactly when some v3 connector is live on the active revision, and
      goes to the greatest. */
  lemma RelayGoesToGreatestLive(s: State, id: nat)
    requires Inv(s) && Enabled(s, Relay(id, false))
    ensures var s' := Next(s, Relay(id, false));
            if exists t | t in s.sockets :: Live(t, s.rollout.active) then
              && s'.pending != [] && s'.pending[..|s'.pending| - 1] == s.pending
              && var p := s'.pending[|s'.pending| - 1];
                 p.request == id && p.connector < |s.sockets| && Live(s.sockets[p.connector], s.rollout.active)
                 && forall t | t in s.sockets && Live(t, s.rollout.active) ::
                      AtLeast(s.sockets[p.connector].attachment.runtime.value, t.attachment.runtime.value)
            else s' == s
  {
    ExecutionGoesToGreatestLive(s, s.sockets);
    SelectedIsOpen(s, Expected(V3, s.rollout.active));
  }

  /** A legacy request is tied to the first open ready legacy connector, and only when no v3
      connector is live. */
  lemma LegacyGoesToFirst(s: State, id: nat)
    requires Inv(s) && Enabled(s, LegacyChosen(id))
    ensures var k := Next(s, LegacyChosen(id)).chosen[id];
            && k < |s.sockets| && ReadyLegacy(s.sockets[k]) && (forall j | 0 <= j < k :: !ReadyLegacy(s.sockets[j]))
            && forall t | t in s.sockets :: !Live(t, s.rollout.active)
  {
    ExecutionPrefersV3(s);
    var k :| 0 <= k < |s.sockets| && PreferredExecutionConnector(s) == Some(s.sockets[k])
             && ReadyLegacy(s.sockets[k]) && forall j | 0 <= j < k :: !ReadyLegacy(s.sockets[j]);
  }

  lemma {:induction false} RefreshKeepsSelection(sockets: seq<Socket>, rollout: Rollout, best: Option<Socket>, best': Option<Socket>)
    requires IsRevision(rollout.active)
    requires best.None? <==> best'.None?
    requires best.Some? ==> best'.value.id == best.value.id && best'.value.attachment.protocol == best.value.attachment.protocol
                            && best'.value.attachment.runtime == best.value.attachment.runtime
    ensures var before := SelectFrom(sockets, Query(Some(V3), false, Some(rollout.active)), best);
            var after := SelectFrom(Refreshed(sockets, rollout), Expected(V3, rollout.active), best');
            && (before.None? <==> after.None?)
            && (before.Some? ==> after.value.id == before.value.id
                                 && after.value.attachment.runtime == before.value.attachment.runtime)
  {
    if sockets != [] {
      var q, q' := Query(Some(V3), false, Some(rollout.active)), Expected(V3, rollout.active);
      var r := Refreshed(sockets, rollout);
      assert r[1..] == Refreshed(sockets[1..], rollout);
      assert Qualifies(sockets[0], q) <==> Qualifies(r[0], q');
      RefreshKeepsSelection(sockets[1..], rollout, Better(best, sockets[0], q), Better(best', r[0], q'));
    }
  }

  /** A change that takes effect leaves, in the same step, the very connector that was
      ready for the new active revision selected for execution. */
  lemma FreshChangeIsSelectable(s: State, change: Change, ready: Option<Socket>)
    requires ConnectorsOk(s) && WellFormed(change.state) && !change.already && change.state.active in s.catalogs
    requires ready == ConnectorForRevision(s, change.state.active) && ready.Some?
    ensures var s' := Adopted(s, change);
            && s'.rollout == change.state && s'.stored == Some(change.state)
            && s'.activeCatalog == Some(change.state.active)
            && ExecutionConnector(s').Some? && ExecutionConnector(s').value.id == ready.value.id
  {
    RefreshKeepsSelection(s.sockets, change.state, None, None);
  }

  /** The active contract only ever moves by a promotion to this build's own revision or by a
      rollback to the recorded previous one, and always onto a revision for which a connector
      is selectable at once. Restarts never move it, and a promotion never finds its catalog
      missing. */
  lemma ActiveMovesOntoReadyConnector(s: State, e: Event)
    requires Inv(s) && Enabled(s, e)
    ensures var s' := Next(s, e);
            s'.rollout.active != s.rollout.active ==>
              && ExecutionConnector(s').Some?
              && Live(ExecutionConnector(s').value, s'.rollout.active)
              && (e.PromoteContract? || e.RollbackContract?)
              && (e.PromoteContract? ==> s'.rollout.active == s.build && s'.rollout.previous == Some(s.rollout.active))
              && (e.RollbackContract? ==> Some(s'.rollout.active) == s.rollout.previous && s'.rollout.candidate == Some(s.build))
  {
    StepKeepsInv(s, e);
    ExecutionGoesToGreatestLive(Next(s, e), Next(s, e).sockets);
    match e
    case PromoteContract(active, candidate, now) => PromotionMoves(s, active, candidate, now);
    case RollbackContract(active, previous, now) => RollbackMoves(s, active, previous, now);
    case _ => OthersDoNotMove(s, e);
  }

  lemma PromotionMoves(s: State, active: string, candidate: string, now: int)
    requires ConnectorsOk(s)
    ensures var s' := Promoted(s, active, candidate, now);
            s'.rollout.active != s.rollout.active ==>
              ExecutionConnector(s').Some? && s'.rollout.active == s.build && s'.rollout.previous == Some(s.rollout.active)
  {
    var connector := ConnectorForRevision(s, candidate);
    var ready := RevisionOf(connector);
    PromoteWellFormed(s.rollout, active, candidate, ready, s.build, now);
    var r := Promote(s.rollout, active, candidate, ready, s.build, now);
    if r.Success? && !r.value.already { FreshChangeIsSelectable(s, r.value, connector); }
  }

  lemma RollbackMoves(s: State, active: string, previous: string, now: int)
    requires ConnectorsOk(s)
    ensures var s' := RolledBack(s, active, previous, now);
            s'.rollout.active != s.rollout.active ==>
              ExecutionConnector(s').Some? && Some(s'.rollout.active) == s.rollout.previous && s'.rollout.candidate == Some(s.build)
  {
    var connector := ConnectorForRevision(s, previous);
    var ready := RevisionOf(connector);
    RollbackWellFormed(s.rollout, active, previous, ready, s.build, now);
    var r := Rollback(s.rollout, active, previous, ready, s.build, now);
    if r.Success? && !r.value.already && r.value.state.active in s.catalogs { FreshChangeIsSelectable(s, r.value, connector); }
  }

  lemma OthersDoNotMove(s: State, e: Event)
    requires Inv(s) && Enabled(s, e) && !e.PromoteContract? && !e.RollbackContract?
    ensures Next(s, e).rollout.active == s.rollout.active
  {
    match e
    case Restart(build, observed, now) => BootKeepsConnectors(s, build, observed, now);
    case Upgrade(asked) =>
    case Ready(i, runtime) =>
    case Closing(i) =>
    case Closed(i) =>
    case Errored(i) =>
    case _ => RelaySteps(s, e);
  }

  lemma ReadyExactlyWhen(s: State, revision: string)
    requires ConnectorsOk(s)
    ensures RevisionOf(ConnectorForRevision(s, revision)) == Some(revision) <==> exists t | t in s.sockets :: Live(t, revision)
  {
    var q := Query(Some(V3), false, Some(revision));
    assert forall t | t in s.sockets :: GoodSocket(t, s.rollout.active);
    assert forall t | t in s.sockets :: Qualifies(t, q) <==> Live(t, revision);
    SelectIsGreatest(s.sockets, q);
  }

  /** A promotion moves the active contract exactly when it names the recorded active one and this
      build's, prepared as the candidate, and a connector is open and ready for it. */
  lemma PromotionMovesExactlyWhen(s: State, active: string, candidate: string, now: int)
    requires Inv(s)
    ensures Promoted(s, active, candidate, now).rollout.active != s.rollout.active <==>
              && active == s.rollout.active && candidate == s.build && s.rollout.candidate == Some(s.build)
              && exists t | t in s.sockets :: Live(t, s.build)
  {
    ReadyExactlyWhen(s, candidate);
    PromoteExactlyWhen(s.rollout, active, candidate, RevisionOf(ConnectorForRevision(s, candidate)), s.build, now);
  }

  /** A rollback does exactly when it names this build's, which is active, and the recorded
      previous one, whose catalog is stored, and a connector is open and ready for that. */
  lemma RollbackMovesExactlyWhen(s: State, active: string, previous: string, now: int)
    requires Inv(s)
    ensures RolledBack(s, active, previous, now).rollout.active != s.rollout.active <==>
              && active == s.rollout.active == s.build && s.rollout.previous == Some(previous) && previous in s.catalogs
              && exists t | t in s.sockets :: Live(t, previous)
  {
    ReadyExactlyWhen(s, previous);
    RollbackExactlyWhen(s.rollout, active, previous, RevisionOf(ConnectorForRevision(s, previous)), s.build, now);
  }

  /** A promotion the rollout record accepts takes effect: its catalog is always there. */
  lemma PromotionTakesEffect(s: State, active: string, candidate: string, now: int)
    requires Inv(s)
    requires Promote(s.rollout, active, candidate, RevisionOf(ConnectorForRevision(s, candidate)), s.build, now).Success?
    ensures Promoted(s, active, candidate, now).rollout.active == candidate == s.build
  {
    var ready := RevisionOf(ConnectorForRevision(s, candidate));
    PromoteWellFormed(s.rollout, active, candidate, ready, s.build, now);
  }

  // ---------------------------------------------------------------- relay accounts

  function AnswersTo(s: State, id: nat): nat {
    AnswerCount(s.answers, id)
  }

  /** In every consistent state a request taken on is either still pending, with timer and
      abort hook in place and no answer yet, or answered once, with both released; nothing
      else is pending or answered; and the totals agree. */
  lemma AnsweredExactlyOnce(s: State, id: nat)
    requires Inv(s)
    ensures id in s.accepted ==>
              if id in Requests(s.pending) then AnswersTo(s, id) == 0 && id in s.timers && id in s.hooks
              else AnswersTo(s, id) == 1 && id !in s.timers && id !in s.hooks
    ensures id !in s.accepted ==> id !in Requests(s.pending) && AnswersTo(s, id) == 0
    ensures |s.accepted| == |s.pending| + |s.answers|
  {
    AcceptedMember(s.accepted, id);
    PendingMember(s.pending, id);
  }

  /** Why a request is answered the way it is. */
  predicate Deserved(s: State, e: Event, a: Answered) {
    match e
    case Reply(_, request, tooLarge) => a == Answered(request, if tooLarge then ReplyTooLarge else Replied)
    case Timeout(request) => a == Answered(request, TimedOut)
    case ClientAbort(request) => a == Answered(request, ClientGone)
    case Relay(request, sendFails) => sendFails && a == Answered(request, SendFailed)
    case LegacyRegistered(request, sendFails) => sendFails && a == Answered(request, SendFailed)
    case Closed(i) => a.answer == ConnectorLost && Pending(a.request, i) in s.pending
    case Errored(i) => a.answer == ConnectorLost && Pending(a.request, i) in s.pending
    case _ => false
  }

  lemma {:induction false} LostDeserve(pending: seq<Pending>, connector: nat, a: Answered)
    requires a in Lost(NamedBy(pending, connector))
    ensures a.answer == ConnectorLost && Pending(a.request, connector) in pending
  {
    if pending[0].connector != connector || a != Answered(pending[0].request, ConnectorLost) {
      LostDeserve(pending[1..], connector, a);
    }
  }

  /** Every answer an event adds is one it gives reason for. */
  lemma AnswersAreDeserved(s: State, e: Event)
    requires ConnectorsOk(s) && Enabled(s, e) && !e.Restart?
    ensures IsPrefix(s.answers, Next(s, e).answers)
    ensures forall a | a in Next(s, e).answers[|s.answers|..] :: Deserved(s, e, a)
  {
    match e
    case Closed(i) => forall a | a in Lost(NamedBy(s.pending, i)) ensures Deserved(s, e, a) { LostDeserve(s.pending, i, a); }
    case Errored(i) => forall a | a in Lost(NamedBy(s.pending, i)) ensures Deserved(s, e, a) { LostDeserve(s.pending, i, a); }
    case Upgrade(_) => ConnectorSteps(s, e);
    case Ready(_, _) => ConnectorSteps(s, e);
    case Closing(_) => ConnectorSteps(s, e);
    case PromoteContract(_, _, _) => ConnectorSteps(s, e);
    case RollbackContract(_, _, _) => ConnectorSteps(s, e);
    case _ =>
  }

  /** What stays so for a connector that is not ready: nothing pending names it, and nothing is
      chosen for it, but requests that were chosen for it before. */
  ghost predicate Hushed(s: State, i: nat, before: set<nat>) {
    && i < |s.sockets| && !s.sockets[i].attachment.ready
    && (forall p | p in s.pending && p.connector == i :: p.request in before)
    && forall r | r in s.chosen && s.chosen[r] == i :: r in before
  }

  lemma StaysHushed(s: State, e: Event, i: nat, before: set<nat>)
    requires Inv(s) && Enabled(s, e) && Hushed(s, i, before) && !(e.Ready? && e.socket == i)
    ensures Hushed(Next(s, e), i, before)
  {
    if e.Relay? || e.LegacyChosen? || e.LegacyRegistered? || e.LegacyGivenUp? {
      RelayStaysHushed(s, e, i, before);
    } else if e.Reply? || e.Timeout? || e.ClientAbort? {
      FinishStaysHushed(s, e.request, Next(s, e), i, before);
    } else {
      ConnectorStaysHushed(s, e, i, before);
    }
  }

  lemma RelayStaysHushed(s: State, e: Event, i: nat, before: set<nat>)
    requires Inv(s) && Enabled(s, e) && Hushed(s, i, before)
    requires e.Relay? || e.LegacyChosen? || e.LegacyRegistered? || e.LegacyGivenUp?
    ensures Hushed(Next(s, e), i, before)
  {
    SelectedIsOpen(s, Expected(V3, s.rollout.active));
    SelectedIsOpen(s, Expected(LEGACY, s.rollout.active));
  }

  lemma FinishStaysHushed(s: State, id: nat, s': State, i: nat, before: set<nat>)
    requires Hushed(s, i, before) && s'.sockets == s.sockets && s'.chosen == s.chosen
    requires s'.pending == s.pending || s'.pending == Without(s.pending, id)
    ensures Hushed(s', i, before)
  {
    WithoutCounts(s.pending, id, id);
  }

  lemma ConnectorStaysHushed(s: State, e: Event, i: nat, before: set<nat>)
    requires Inv(s) && Enabled(s, e) && Hushed(s, i, before) && !(e.Ready? && e.socket == i)
    requires e.Restart? || e.Upgrade? || e.Ready? || e.Closing? || e.Closed? || e.Errored? || e.PromoteContract? || e.RollbackContract?
    ensures Hushed(Next(s, e), i, before)
  {
    match e
    case PromoteContract(active, candidate, now) => AdoptedReady(s, Promoted(s, active, candidate, now));
    case RollbackContract(active, previous, now) => AdoptedReady(s, RolledBack(s, active, previous, now));
    case _ =>
  }

  lemma AdoptedReady(s: State, s': State)
    requires s' == s || exists change :: s' == Adopted(s, change)
    ensures SameRelays(s, s') && forall i | 0 <= i < |s.sockets| :: s'.sockets[i].attachment.ready == s.sockets[i].attachment.ready
  {
  }

  lemma {:induction false} RunStaysHushed(from: State, events: seq<Event>, s: State, i: nat, before: set<nat>)
    requires Inv(from) && Run(from, events, s) && Hushed(from, i, before)
    requires from.sockets[i].gone || forall e | e in events :: !(e.Ready? && e.socket == i)
    ensures Hushed(s, i, before)
    decreases |events|
  {
    if events != [] {
      StepKeepsInv(from, events[0]);
      StaysHushed(from, events[0], i, before);
      if from.sockets[i].gone { StaysGone(from, events[0], i); }
      RunStaysHushed(Next(from, events[0]), events[1..], s, i, before);
    }
  }

  lemma StaysGone(s: State, e: Event, i: nat)
    requires Inv(s) && Enabled(s, e) && i < |s.sockets|
    ensures var s' := Next(s, e);
            && i < |s'.sockets| && s'.sockets[i].attachment.protocol == s.sockets[i].attachment.protocol
            && (s'.sockets[i].gone <==> s.sockets[i].gone || e == Closed(i))
  {
    match e
    case Restart(_, _, _) =>
    case Closed(_) =>
    case Errored(_) =>
    case Upgrade(_) => ConnectorSteps(s, e);
    case Ready(_, _) => ConnectorSteps(s, e);
    case Closing(_) => ConnectorSteps(s, e);
    case PromoteContract(_, _, _) => ConnectorSteps(s, e);
    case RollbackContract(_, _, _) => ConnectorSteps(s, e);
    case _ => RelaySteps(s, e);
  }

  function ChosenFor(s: State, i: nat): set<nat> {
    set r | r in s.chosen && s.chosen[r] == i
  }

  lemma FailureHushes(s: State, e: Event, i: nat)
    requires Inv(s) && i < |s.sockets| && (e == Errored(i) || e == Closed(i))
    ensures Hushed(Next(s, e), i, ChosenFor(s, i))
    ensures s.sockets[i].attachment.protocol == V3 ==> ChosenFor(s, i) == {}
  {
    StepKeepsInv(s, e);
  }

  /** Until it is ready again, a connector that failed is named by no pending relay but legacy
      ones that had been chosen for it before; by none if it speaks v3. */
  lemma NoRelayNamesFailedConnector(s: State, i: nat, events: seq<Event>, later: State)
    requires Inv(s) && i < |s.sockets|
    requires Run(Next(s, Errored(i)), events, later) && forall e | e in events :: !(e.Ready? && e.socket == i)
    ensures forall p | p in later.pending && p.connector == i :: p.request in ChosenFor(s, i)
    ensures s.sockets[i].attachment.protocol == V3 ==> forall p | p in later.pending :: p.connector != i
  {
    StepKeepsInv(s, Errored(i));
    FailureHushes(s, Errored(i), i);
    RunStaysHushed(Next(s, Errored(i)), events, later, i, ChosenFor(s, i));
  }

  /** A connector that closed is named by no pending relay, then and ever after, but by legacy
      ones that had been chosen for it before; by none if it speaks v3. */
  lemma NoRelayOutlivesItsConnector(s: State, i: nat, events: seq<Event>, later: State)
    requires Inv(s) && i < |s.sockets|
    requires Run(Next(s, Closed(i)), events, later)
    ensures forall p | p in later.pending && p.connector == i :: p.request in ChosenFor(s, i)
    ensures s.sockets[i].attachment.protocol == V3 ==> forall p | p in later.pending :: p.connector != i
  {
    StepKeepsInv(s, Closed(i));
    FailureHushes(s, Closed(i), i);
    RunStaysHushed(Next(s, Closed(i)), events, later, i, ChosenFor(s, i));
  }

  predicate NoRestart(events: seq<Event>) {
    forall e | e in events :: !e.Restart?
  }

  /** In the run, by the instance that is up at its end, the request was registered on a
      connector that had closed while its body was being read, and the send did not throw. */
  predicate RegisteredLate(from: State, events: seq<Event>, p: Pending)
    decreases |events|
  {
    events != [] && Enabled(from, events[0])
    && (RegisteredLate(Next(from, events[0]), events[1..], p)
        || (&& events[0] == LegacyRegistered(p.request, false) && from.chosen[p.request] == p.connector
            && p.connector < |from.sockets| && from.sockets[p.connector].gone && NoRestart(events[1..])))
  }

  /** Pending when the run began, on a connector that had closed by then. */
  predicate LeftOver(from: State, events: seq<Event>, p: Pending) {
    p in from.pending && p.connector < |from.sockets| && from.sockets[p.connector].gone && NoRestart(events)
  }

  lemma NoRestartTail(events: seq<Event>)
    requires events != []
    ensures NoRestart(events) <==> !events[0].Restart? && NoRestart(events[1..])
  {
    assert events == [events[0]] + events[1..];
  }

  /** An answered request is not taken on again by the same instance. */
  lemma {:induction false} AnsweredStays(from: State, events: seq<Event>, s: State, id: nat)
    requires Inv(from) && Run(from, events, s) && NoRestart(events)
    requires id in from.accepted && id !in Requests(from.pending)
    ensures id !in Requests(s.pending)
    decreases |events|
  {
    if events != [] {
      var e := events[0];
      NoRestartTail(events);
      StepKeepsInv(from, e);
      StaysAnswered(from, e, id);
      AnsweredStays(Next(from, e), events[1..], s, id);
    }
  }

  lemma StaysAnswered(s: State, e: Event, id: nat)
    requires Inv(s) && Enabled(s, e) && !e.Restart? && id in s.accepted && id !in Requests(s.pending)
    ensures id in Next(s, e).accepted && id !in Requests(Next(s, e).pending)
  {
    match e
    case Reply(_, other, _) => WithoutCounts(s.pending, other, id);
    case Timeout(other) => WithoutCounts(s.pending, other, id);
    case ClientAbort(other) => WithoutCounts(s.pending, other, id);
    case PromoteContract(active, candidate, now) => AdoptedSockets(s, Promoted(s, active, candidate, now));
    case RollbackContract(active, previous, now) => AdoptedSockets(s, RolledBack(s, active, previous, now));
    case _ =>
  }

  /** How a request comes to be pending on a connector that is gone: it was so before, or this
      step registers it late. */
  lemma LateStep(s: State, e: Event, p: Pending)
    requires Inv(s) && Enabled(s, e) && !e.Restart? && p in Next(s, e).pending
    ensures p.connector < |s.sockets| <= |Next(s, e).sockets|
    ensures var s' := Next(s, e);
            s'.sockets[p.connector].gone <==>
              || (p in s.pending && s.sockets[p.connector].gone)
              || (e == LegacyRegistered(p.request, false) && s.chosen[p.request] == p.connector && s.sockets[p.connector].gone)
  {
    StepKeepsInv(s, e);
    PendingStep(s, e, p);
    StaysGone(s, e, p.connector);
    match e
    case Relay(_, _) => SelectedIsOpen(s, Expected(V3, s.rollout.active));
    case Closed(_) => FailKeepsRelays(s, p.connector);
    case _ =>
  }

  lemma PendingStep(s: State, e: Event, p: Pending)
    requires Inv(s) && Enabled(s, e) && !e.Restart? && p in Next(s, e).pending
    ensures p.connector < |s.sockets|
    ensures || p in s.pending
            || (e == LegacyRegistered(p.request, false) && s.chosen[p.request] == p.connector)
            || (e == Relay(p.request, false) && ExecutionConnector(s).Some? && ExecutionConnector(s).value.id == p.connector)
    ensures e == LegacyRegistered(p.request, false) || e == Relay(p.request, false) ==> p !in s.pending
  {
    SelectedIsOpen(s, Expected(V3, s.rollout.active));
    AnsweredExactlyOnce(s, p.request);
    match e
    case Reply(_, id, _) => WithoutCounts(s.pending, id, id);
    case Timeout(id) => WithoutCounts(s.pending, id, id);
    case ClientAbort(id) => WithoutCounts(s.pending, id, id);
    case PromoteContract(active, candidate, now) => AdoptedSockets(s, Promoted(s, active, candidate, now));
    case RollbackContract(active, previous, now) => AdoptedSockets(s, RolledBack(s, active, previous, now));
    case _ =>
  }

  lemma {:induction false} NamesGoneExactlyWhen(from: State, events: seq<Event>, s: State, p: Pending)
    requires Inv(from) && Run(from, events, s) && p in s.pending
    ensures p.connector < |s.sockets|
    ensures s.sockets[p.connector].gone <==> LeftOver(from, events, p) || RegisteredLate(from, events, p)
    decreases |events|
  {
    if events != [] {
      var e := events[0];
      var t := Next(from, e);
      StepKeepsInv(from, e);
      NamesGoneExactlyWhen(t, events[1..], s, p);
      NoRestartTail(events);
      if !e.Restart? && NoRestart(events[1..]) {
        if p in t.pending {
          LateStep(from, e, p);
        } else {
          NotLateUnlessPending(from, e, events[1..], s, p);
        }
      }
    }
  }

  lemma NotLateUnlessPending(from: State, e: Event, events: seq<Event>, s: State, p: Pending)
    requires Inv(from) && Enabled(from, e) && !e.Restart? && Run(Next(from, e), events, s) && NoRestart(events)
    requires p in s.pending && p !in Next(from, e).pending
    ensures p !in from.pending
    ensures e == LegacyRegistered(p.request, false) ==> from.chosen[p.request] != p.connector
  {
    if p in from.pending {
      StepKeepsInv(from, e);
      LeavesForGood(from, e, p);
      AnsweredStays(Next(from, e), events, s, p.request);
    }
  }

  lemma LeavesForGood(s: State, e: Event, p: Pending)
    requires Inv(s) && Enabled(s, e) && !e.Restart? && p in s.pending && p !in Next(s, e).pending
    ensures p.request in Next(s, e).accepted && p.request !in Requests(Next(s, e).pending)
  {
    AnsweredExactlyOnce(s, p.request);
    StaysAccepted(s, e, p.request);
    if p.request in Requests(Next(s, e).pending) {
      var q :| q in Next(s, e).pending && q.request == p.request;
      PendingStep(s, e, q);
      OnePending(s.pending, p, q);
    }
  }

  lemma {:induction false} OnePending(pending: seq<Pending>, p: Pending, q: Pending)
    requires p in pending && q in pending && p.request == q.request && PendingCount(pending, p.request) <= 1
    ensures p == q
  {
    PendingMember(pending[1..], p.request);
    assert pending == [pending[0]] + pending[1..];
    if pending[0].request != p.request { OnePending(pending[1..], p, q); }
  }

  lemma StaysAccepted(s: State, e: Event, id: nat)
    requires ConnectorsOk(s) && Enabled(s, e) && !e.Restart? && id in s.accepted
    ensures id in Next(s, e).accepted
  {
    match e
    case Upgrade(_) => ConnectorSteps(s, e);
    case Ready(_, _) => ConnectorSteps(s, e);
    case Closing(_) => ConnectorSteps(s, e);
    case PromoteContract(_, _, _) => ConnectorSteps(s, e);
    case RollbackContract(_, _, _) => ConnectorSteps(s, e);
    case _ =>
  }

  /** In any run from a first boot, a pending request names a connector that is gone exactly when
      it was registered late; then it is a legacy one, and its timer is still armed. */
  lemma OutlivesExactlyWhenRegisteredLate(first: State, events: seq<Event>, s: State, p: Pending)
    requires FirstBoot(first) && Run(first, events, s) && p in s.pending
    ensures p.connector < |s.sockets|
    ensures s.sockets[p.connector].gone <==> RegisteredLate(first, events, p)
    ensures RegisteredLate(first, events, p) ==> s.sockets[p.connector].attachment.protocol == LEGACY && p.request in s.timers
  {
    assert Run(first, [], first);
    Reachable(first, [], first);
    Reachable(first, events, s);
    NamesGoneExactlyWhen(first, events, s, p);
    AnsweredExactlyOnce(s, p.request);
  }

  /** Replies are matched by request alone: whichever live connector sends one, the pending
      relay it names is the one that is answered. */
  lemma ReplyIgnoresConnector(s: State, i: nat, j: nat, id: nat, tooLarge: bool)
    requires Inv(s) && Enabled(s, Reply(i, id, tooLarge)) && Enabled(s, Reply(j, id, tooLarge))
    ensures Next(s, Reply(i, id, tooLarge)) == Next(s, Reply(j, id, tooLarge))
    ensures id in Requests(s.pending) ==> AnswersTo(Next(s, Reply(j, id, tooLarge)), id) == 1
  {
    StepKeepsInv(s, Reply(j, id, tooLarge));
    FinishKeepsRelays(s, id, if tooLarge then ReplyTooLarge else Replied);
    AnsweredExactlyOnce(Next(s, Reply(j, id, tooLarge)), id);
    AnsweredExactlyOnce(s, id);
  }

  /** So the replies that answer a pending relay are all from the connector it was sent to
      exactly when no other connection is left. */
  lemma ReplyIsOwnExactlyWhenAlone(s: State, p: Pending)
    requires Inv(s) && p in s.pending
    ensures (forall i: nat, tooLarge | Enabled(s, Reply(i, p.request, tooLarge)) :: i == p.connector) <==>
            (forall i | 0 <= i < |s.sockets| && !s.sockets[i].gone :: i == p.connector)
    ensures forall i: nat, tooLarge | Enabled(s, Reply(i, p.request, tooLarge)) ::
              AnswersTo(s, p.request) == 0 && AnswersTo(Next(s, Reply(i, p.request, tooLarge)), p.request) == 1
  {
    forall i: nat, tooLarge | Enabled(s, Reply(i, p.request, tooLarge))
      ensures AnswersTo(s, p.request) == 0 && AnswersTo(Next(s, Reply(i, p.request, tooLarge)), p.request) == 1
    {
      AnsweredExactlyOnce(s, p.request);
      ReplyIgnoresConnector(s, i, i, p.request, tooLarge);
    }
    forall i | 0 <= i < |s.sockets| && !s.sockets[i].gone ensures Enabled(s, Reply(i, p.request, false)) {
    }
  }

  lemma Unfolds(from: State, e: Event, events: seq<Event>, s: State)
    requires Enabled(from, e) && Run(Next(from, e), events, s)
    ensures Run(from, [e] + events, s)
  {
    assert ([e] + events)[1..] == events;
  }

  /** A first boot before any cutover: a legacy connector is chosen, closes while the body is
      being read, and the request is registered on it all the same. */
  lemma LateRegistrationExample(first: State, id: nat) returns (events: seq<Event>, s: State)
    requires FirstBoot(first) && !first.cutoverStored
    ensures Run(first, events, s) && RegisteredLate(first, events, Pending(id, 0))
    ensures s.pending == [Pending(id, 0)] && |s.sockets| == 1 && s.sockets[0].gone && id in s.timers
  {
    assert Run(first, [], first);
    Reachable(first, [], first);
    assert first.sockets == [] && first.accepted == [] && first.pending == [] && first.chosen == map[];
    var s1 := Next(first, Upgrade(AskNothing));
    assert |s1.sockets| == 1 && s1.sockets[0].attachment.protocol == LEGACY;
    StepKeepsInv(first, Upgrade(AskNothing));
    var s2 := Next(s1, Ready(0, None));
    StepKeepsInv(s1, Ready(0, None));
    events, s := ClosesWhileRead(s2, id);
    events := Preceded(s1, Ready(0, None), events, s, Pending(id, 0));
    events := Preceded(first, Upgrade(AskNothing), events, s, Pending(id, 0));
  }

  lemma OnlyLegacyIsPreferred(s: State)
    requires Inv(s) && |s.sockets| == 1 && ReadyLegacy(s.sockets[0])
    ensures PreferredExecutionConnector(s) == Some(s.sockets[0])
  {
    ExecutionPrefersV3(s);
    assert s.sockets == [s.sockets[0]];
  }

  lemma ClosesWhileRead(s: State, id: nat) returns (events: seq<Event>, end: State)
    requires Inv(s) && |s.sockets| == 1 && ReadyLegacy(s.sockets[0])
    requires s.accepted == [] && s.pending == [] && s.chosen == map[]
    ensures Run(s, events, end) && RegisteredLate(s, events, Pending(id, 0))
    ensures end.pending == [Pending(id, 0)] && |end.sockets| == 1 && end.sockets[0].gone && id in end.timers
  {
    OnlyLegacyIsPreferred(s);
    var s1 := Next(s, LegacyChosen(id));
    StepKeepsInv(s, LegacyChosen(id));
    assert s1.chosen == map[id := 0];
    var s2 := Next(s1, Closed(0));
    assert s2.pending == [] && s2.chosen == map[id := 0] && |s2.sockets| == 1 && s2.sockets[0].gone;
    events := [LegacyRegistered(id, false)];
    end := Next(s2, events[0]);
    assert Run(end, [], end) && Run(s2, [events[0]] + [], end);
    assert RegisteredLate(s2, events, Pending(id, 0));
    events := Preceded(s1, Closed(0), events, end, Pending(id, 0));
    events := Preceded(s, LegacyChosen(id), events, end, Pending(id, 0));
  }

  lemma Preceded(from: State, e: Event, events: seq<Event>, s: State, p: Pending) returns (all: seq<Event>)
    requires Enabled(from, e) && Run(Next(from, e), events, s) && RegisteredLate(Next(from, e), events, p)
    ensures Run(from, all, s) && RegisteredLate(from, all, p)
  {
    all := [e] + events;
    Unfolds(from, e, events, s);
    assert all[1..] == events;
  }

  /** Two connectors come up and a request goes to one of them. */
  lemma TwoConnectors(first: State, id: nat) returns (events: seq<Event>, s: State)
    requires Inv(first) && first.sockets == [] && id !in first.accepted && id !in first.chosen
    ensures Run(first, events, s) && |s.sockets| == 2 && !s.sockets[0].gone && !s.sockets[1].gone
    ensures exists p | p in s.pending :: p.request == id
  {
    var s1 := Next(first, Upgrade(AskV3));
    var s2 := Next(s1, Upgrade(AskV3));
    StepKeepsInv(first, Upgrade(AskV3));
    StepKeepsInv(s1, Upgrade(AskV3));
    events, s := BothReady(s2, id);
    Unfolds(s1, Upgrade(AskV3), events, s);
    events := [Upgrade(AskV3)] + events;
    Unfolds(first, Upgrade(AskV3), events, s);
    events := [Upgrade(AskV3)] + events;
  }

  predicate Connected(t: Socket) {
    t.open && !t.gone && t.attachment.protocol == V3
  }

  lemma BothReady(s: State, id: nat) returns (events: seq<Event>, end: State)
    requires Inv(s) && |s.sockets| == 2 && Connected(s.sockets[0]) && Connected(s.sockets[1])
    requires id !in s.accepted && id !in s.chosen
    ensures Run(s, events, end) && |end.sockets| == 2 && !end.sockets[0].gone && !end.sockets[1].gone
    ensures exists p | p in end.pending :: p.request == id
  {
    var ready := Some(Runtime(Some(0), 0, 0, s.rollout.active));
    var s1 := Next(s, Ready(0, ready));
    var s2 := Next(s1, Ready(1, ready));
    StepKeepsInv(s, Ready(0, ready));
    StepKeepsInv(s1, Ready(1, ready));
    end := SentToOne(s2, id);
    events := [Relay(id, false)];
    Unfolds(s1, Ready(1, ready), events, end);
    events := [Ready(1, ready)] + events;
    Unfolds(s, Ready(0, ready), events, end);
    events := [Ready(0, ready)] + events;
  }

  lemma SentToOne(s: State, id: nat) returns (end: State)
    requires Inv(s) && s.sockets != [] && Live(s.sockets[0], s.rollout.active) && id !in s.accepted && id !in s.chosen
    ensures Run(s, [Relay(id, false)], end) && end.sockets == s.sockets
    ensures exists p | p in end.pending :: p.request == id
  {
    ExecutionGoesToGreatestLive(s, s.sockets);
    assert s.sockets[0] in s.sockets;
    end := Next(s, Relay(id, false));
    assert end.pending == s.pending + [Pending(id, ExecutionConnector(s).value.id)];
    assert Pending(id, ExecutionConnector(s).value.id) in end.pending;
    Unfolds(s, Relay(id, false), [], end);
  }

  /** From every first boot a state is reached in which a request sent to one connector is
      answered by the other. */
  lemma ForeignReplyExample(first: State, id: nat) returns (events: seq<Event>, s: State, p: Pending, other: nat)
    requires FirstBoot(first)
    ensures Run(first, events, s) && p in s.pending && p.request == id && other != p.connector
    ensures Enabled(s, Reply(other, id, false)) && AnswersTo(s, id) == 0 && AnswersTo(Next(s, Reply(other, id, false)), id) == 1
  {
    assert Run(first, [], first);
    Reachable(first, [], first);
    assert first.sockets == [] && first.accepted == [] && first.chosen == map[];
    events, s := TwoConnectors(first, id);
    RunKeepsInv(first, events, s);
    p :| p in s.pending && p.request == id;
    other := if p.connector == 0 then 1 else 0;
    ReplyIsOwnExactlyWhenAlone(s, p);
  }

  // ---------------------------------------------------------------- accounts across restarts

  predicate Legal(from: State, events: seq<Event>)
    decreases |events|
  {
    events == [] || (Enabled(from, events[0]) && Legal(Next(from, events[0]), events[1..]))
  }

  datatype Account = Account(accepted: nat, answered: nat, lost: nat)

  /** The account of a request over a whole run: a restart closes the books of one instance,
      and what was pending then is lost. */
  function Ledger(from: State, events: seq<Event>, id: nat): Account
    requires Legal(from, events)
    decreases |events|
  {
    if events == [] then Account(AcceptedCount(from.accepted, id), AnswerCount(from.answers, id), 0)
    else
      var rest := Ledger(Next(from, events[0]), events[1..], id);
      if events[0].Restart? then
        Account(rest.accepted + AcceptedCount(from.accepted, id), rest.answered + AnswerCount(from.answers, id),
          rest.lost + PendingCount(from.pending, id))
      else rest
  }

  lemma {:induction false} RunIsLegal(from: State, events: seq<Event>, s: State)
    requires Run(from, events, s)
    ensures Legal(from, events)
    decreases |events|
  {
    if events != [] { RunIsLegal(Next(from, events[0]), events[1..], s); }
  }

  /** Over a whole run, restarts included, every request taken on is answered, pending now, or
      was pending at a restart: accepted = answered + lost + pending. */
  lemma {:induction false} AccountsAcrossRestarts(from: State, events: seq<Event>, s: State, id: nat)
    requires Inv(from) && Run(from, events, s)
    ensures Legal(from, events)
    ensures var a := Ledger(from, events, id);
            a.accepted == a.answered + a.lost + PendingCount(s.pending, id)
    decreases |events|
  {
    RunIsLegal(from, events, s);
    if events != [] {
      StepKeepsInv(from, events[0]);
      AccountsAcrossRestarts(Next(from, events[0]), events[1..], s, id);
    }
  }

  /** A connection is admitted exactly when it asks for v3, or asks for nothing before cutover;
      it is open and not ready, and speaks v3 exactly when it asked for it. */
  lemma AdmittedExactlyWhen(s: State, asked: UpgradeRequest)
    requires Inv(s)
    ensures var s' := Next(s, Upgrade(asked));
            if asked == AskV3 || (asked == AskNothing && !s.cutoverStored) then
              && |s'.sockets| == |s.sockets| + 1 && s'.sockets[..|s.sockets|] == s.sockets
              && var t := s'.sockets[|s.sockets|];
                 t.open && !t.gone && t.attachment == Attachment(false, if asked == AskV3 then 3 else 2, false, false, None)
            else s'.sockets == s.sockets
  {
  }

  /** A ready message sets the flag exactly for a legacy connector and for one that reports the
      active or the candidate revision; cutover is stored exactly by a v3 one. */
  lemma FlaggedExactlyWhen(s: State, i: nat, runtime: Option<Runtime>)
    requires Inv(s) && Enabled(s, Ready(i, runtime))
    ensures var s' := Next(s, Ready(i, runtime)); var a := s'.sockets[i].attachment;
            && a.ready && a.runtime == runtime && !a.disconnectRecorded && a.protocol == s.sockets[i].attachment.protocol
            && (a.compatible <==>
                  a.protocol == 2 ||
                  (runtime != None && (runtime.value.revision == s.rollout.active || Some(runtime.value.revision) == s.rollout.candidate)))
            && (s'.cutoverStored <==> s.cutoverStored || a.protocol == 3) && (s'.cutover <==> s.cutover || a.protocol == 3)
  {
  }

  /** Once a v3 connector has been ready, no run, across any restart, admits another legacy
      connection. */
  lemma {:induction false} CutoverIsFinal(from: State, events: seq<Event>, s: State)
    requires Inv(from) && from.cutoverStored && Run(from, events, s)
    ensures s.cutoverStored
    ensures forall i | |from.sockets| <= i < |s.sockets| :: s.sockets[i].attachment.protocol == V3
    ensures |from.sockets| <= |s.sockets|
    ensures forall i | 0 <= i < |from.sockets| :: s.sockets[i].attachment.protocol == from.sockets[i].attachment.protocol
    decreases |events|
  {
    if events != [] {
      var e := events[0];
      StepKeepsInv(from, e);
      CutoverStep(from, e);
      CutoverIsFinal(Next(from, e), events[1..], s);
    }
  }

  lemma CutoverStep(s: State, e: Event)
    requires Inv(s) && s.cutoverStored && Enabled(s, e)
    ensures var s' := Next(s, e);
            && s'.cutoverStored && |s.sockets| <= |s'.sockets|
            && (forall i | |s.sockets| <= i < |s'.sockets| :: s'.sockets[i].attachment.protocol == V3)
            && forall i | 0 <= i < |s.sockets| :: s'.sockets[i].attachment.protocol == s.sockets[i].attachment.protocol
  {
    match e
    case Restart(_, _, _) =>
    case Upgrade(_) =>
    case Ready(_, _) =>
    case Closing(_) =>
    case Closed(_) =>
    case Errored(_) =>
    case PromoteContract(active, candidate, now) => AdoptedProtocols(s, Promoted(s, active, candidate, now));
    case RollbackContract(active, previous, now) => AdoptedProtocols(s, RolledBack(s, active, previous, now));
    case _ => RelaySteps(s, e);
  }

  lemma AdoptedProtocols(s: State, s': State)
    requires s' == s || exists change :: s' == Adopted(s, change)
    ensures s'.cutoverStored == s.cutoverStored && |s'.sockets| == |s.sockets|
    ensures forall i | 0 <= i < |s.sockets| :: s'.sockets[i].attachment.protocol == s.sockets[i].attachment.protocol
  {
  }

  // ---------------------------------------------------------------- the Durable Object

  /** Durable storage and the hibernating sockets. */
  class DurableContext {
    var sockets: seq<Socket>
    var stored: Option<Rollout>
    var catalogs: set<string>
    var cutoverStored: bool

    constructor (stored: Option<Rollout>, catalogs: set<string>)
      ensures this.sockets == [] && this.stored == stored && this.catalogs == catalogs && !this.cutoverStored
    {
      this.sockets, this.stored, this.catalogs, this.cutoverStored := [], stored, catalogs, false;
    }
  }

  ghost function OnlyStorage(ctx: DurableContext): State
    reads ctx
  {
    State("", ctx.sockets, ctx.stored, ctx.catalogs, ctx.cutoverStored, false,
          Rollout("", None, None, None, None), None, map[], [], {}, {}, [], [])
  }

  class McpSession {
    const ctx: DurableContext
    const build: string
    var rollout: Rollout
    var activeCatalog: Option<string>
    var cutover: bool
    var pending: seq<Pending>
    var timers: set<nat>
    var hooks: set<nat>
    /** What the suspended legacy requests hold in their local variables. */
    ghost var chosen: map<nat, nat>
    ghost var accepted: seq<nat>
    ghost var answers: seq<Answered>

    ghost function View(): State
      reads this, ctx
    {
      State(build, ctx.sockets, ctx.stored, ctx.catalogs, ctx.cutoverStored, cutover, rollout, activeCatalog,
            chosen, pending, timers, hooks, accepted, answers)
    }

    constructor (ctx: DurableContext, build: string, observed: Option<string>, now: int)
      requires IsRevision(build)
      modifies ctx
      ensures this.ctx == ctx && this.build == build
      ensures View() == Booted(old(OnlyStorage(ctx)), build, observed, now)
    {
      this.ctx, this.build, this.cutover := ctx, build, false;
      this.chosen, this.pending, this.timers, this.hooks, this.accepted, this.answers := map[], [], {}, {}, [], [];
      var (reconciled, changed) := Reconcile(ctx.stored, observed, build, now);
      this.rollout := reconciled;
      this.activeCatalog := if reconciled.active in ctx.catalogs + {build} then Some(reconciled.active) else None;
      new;
      ctx.catalogs := ctx.catalogs + {build};
      if changed {
        ctx.stored := Some(reconciled);
      }
    }

    method SelectReadyConnector(q: Query) returns (selected: Option<Socket>)
      ensures selected == Select(ctx.sockets, q)
    {
      selected := None;
      for i := 0 to |ctx.sockets|
        invariant SelectFrom(ctx.sockets[i..], q, selected) == Select(ctx.sockets, q)
      {
        var socket := ctx.sockets[i];
        assert ctx.sockets[i..][1..] == ctx.sockets[i + 1..];
        if Qualifies(socket, q) && (selected.None? || PreferredAttachment(socket.attachment, selected.value.attachment)) {
          selected := Some(socket);
        }
      }
    }

    method GetPreferredExecutionReadyConnector() returns (selected: Option<Socket>)
      ensures selected == PreferredExecutionConnector(View())
      ensures Inv(View()) ==> PrefersExecution(ctx.sockets, rollout.active, selected)
    {
      var v3 := SelectReadyConnector(Expected(V3, rollout.active));
      var legacy := SelectReadyConnector(Expected(LEGACY, rollout.active));
      var protocol := PreferredProtocol(v3.Some?, legacy.Some?);
      selected := if protocol == Some(V3) then v3 else if protocol == Some(LEGACY) then legacy else None;
      if Inv(View()) { ExecutionPrefersV3(View()); }
    }

    method RefreshOpenConnectorContractCompatibility()
      modifies ctx
      ensures View() == old(View()).(sockets := Refreshed(old(ctx.sockets), rollout))
    {
      for i := 0 to |ctx.sockets|
        invariant |ctx.sockets| == |old(ctx.sockets)|
        invariant ctx.sockets[i..] == old(ctx.sockets)[i..]
        invariant ctx.sockets[..i] == Refreshed(old(ctx.sockets), rollout)[..i]
        invariant View() == old(View()).(sockets := ctx.sockets)
      {
        var a := ctx.sockets[i].attachment;
        ctx.sockets := ctx.sockets[i := ctx.sockets[i].(attachment := a.(compatible := Flag(a, rollout)))];
      }
    }

    method HandleConnectorUpgrade(asked: UpgradeRequest) returns (accepted: bool)
      modifies this`cutover, ctx
      ensures View() == Next(old(View()), Upgrade(asked))
      ensures accepted <==> |ctx.sockets| == |old(ctx.sockets)| + 1
    {
      if cutover || ctx.cutoverStored {
        cutover := true;
      }
      var protocol := match asked
                      case AskV3 => Some(V3)
                      case AskOther => None
                      case AskNothing => if cutover then None else Some(LEGACY);
      if protocol.None? {
        return false;
      }
      ctx.sockets := ctx.sockets + [Socket(|ctx.sockets|, true, false, Attachment(false, protocol.value, false, false, None))];
      return true;
    }

    method ConnectorReady(i: nat, runtime: Option<Runtime>)
      requires Enabled(View(), Ready(i, runtime))
      modifies this`cutover, ctx
      ensures View() == Next(old(View()), Ready(i, runtime))
    {
      var protocol := ctx.sockets[i].attachment.protocol;
      var attachment := Attachment(true, protocol, false, false, runtime);
      attachment := attachment.(compatible := Flag(attachment, rollout));
      ctx.sockets := ctx.sockets[i := ctx.sockets[i].(attachment := attachment)];
      if protocol == V3 {
        cutover := true;
        ctx.cutoverStored := true;
      }
    }

    method RecordConnectorDisconnect(i: nat)
      requires i < |ctx.sockets|
      modifies ctx
      ensures View() == Disconnected(old(View()), i)
    {
      var attachment := ctx.sockets[i].attachment;
      if attachment.disconnectRecorded {
        return;
      }
      ctx.sockets := ctx.sockets[i := ctx.sockets[i].(attachment := attachment.(ready := false, disconnectRecorded := true))];
    }

    method FailPendingRequestsForConnector(connector: nat)
      modifies this`pending, this`timers, this`hooks, this`answers
      ensures View() == FailedFor(old(View()), connector)
    {
      var entries := pending;
      var kept: seq<Pending> := [];
      ghost var lost := NamedBy(entries, connector);
      for i := 0 to |entries|
        invariant kept + NotNamedBy(entries[i..], connector) == NotNamedBy(entries, connector)
        invariant answers + Lost(NamedBy(entries[i..], connector)) == old(answers) + Lost(lost)
        invariant timers - Requests(NamedBy(entries[i..], connector)) == old(timers) - Requests(lost)
        invariant hooks - Requests(NamedBy(entries[i..], connector)) == old(hooks) - Requests(lost)
      {
        var entry := entries[i];
        NamedByHead(entries, i, connector);
        if entry.connector != connector {
          MovesAcross(kept, entry, NotNamedBy(entries[i + 1..], connector));
          kept := kept + [entry];
        } else {
          var answered := Answered(entry.request, ConnectorLost);
          ghost var rest := NamedBy(entries[i + 1..], connector);
          MovesAcross(answers, answered, Lost(rest));
          RemoveRegroup(timers, entry.request, Requests(rest));
          RemoveRegroup(hooks, entry.request, Requests(rest));
          timers := timers - {entry.request};
          hooks := hooks - {entry.request};
          answers := answers + [answered];
        }
      }
      assert entries[|entries|..] == [];
      pending := kept;
    }

    method WebSocketClose(i: nat)
      requires i < |ctx.sockets|
      modifies this`pending, this`timers, this`hooks, this`answers, ctx
      ensures View() == Next(old(View()), Closed(i))
    {
      ctx.sockets := ctx.sockets[i := ctx.sockets[i].(open := false, gone := true)];
      RecordConnectorDisconnect(i);
      FailPendingRequestsForConnector(i);
    }

    method WebSocketError(i: nat)
      requires i < |ctx.sockets|
      modifies this`pending, this`timers, this`hooks, this`answers, ctx
      ensures View() == Next(old(View()), Errored(i))
    {
      RecordConnectorDisconnect(i);
      FailPendingRequestsForConnector(i);
    }

    method PromoteContractRollout(expectedActive: string, expectedCandidate: string, now: int) returns (status: int)
      modifies this`rollout, this`activeCatalog, ctx
      ensures View() == Next(old(View()), PromoteContract(expectedActive, expectedCandidate, now))
      ensures status == 200 ==> rollout.active == expectedCandidate
      ensures status != 200 ==> View() == old(View())
    {
      var connector := SelectReadyConnector(Query(Some(V3), false, Some(expectedCandidate)));
      var promotion := Promote(rollout, expectedActive, expectedCandidate, RevisionOf(connector), build, now);
      if promotion.Failure? {
        return 409;
      }
      if !promotion.value.already {
        if promotion.value.state.active !in ctx.catalogs {
          return 503;
        }
        ctx.stored := Some(promotion.value.state);
        rollout := promotion.value.state;
        activeCatalog := Some(promotion.value.state.active);
      }
      RefreshOpenConnectorContractCompatibility();
      return 200;
    }

    method RollbackContractRollout(expectedActive: string, expectedPrevious: string, now: int) returns (status: int)
      modifies this`rollout, this`activeCatalog, ctx
      ensures View() == Next(old(View()), RollbackContract(expectedActive, expectedPrevious, now))
      ensures status == 200 ==> rollout.active == expectedPrevious
      ensures status != 200 ==> View() == old(View())
    {
      var connector := SelectReadyConnector(Query(Some(V3), false, Some(expectedPrevious)));
      var rollback := Rollback(rollout, expectedActive, expectedPrevious, RevisionOf(connector), build, now);
      if rollback.Failure? {
        return 409;
      }
      if !rollback.value.already {
        if rollback.value.state.active !in ctx.catalogs {
          return 503;
        }
        ctx.stored := Some(rollback.value.state);
        rollout := rollback.value.state;
        activeCatalog := Some(rollback.value.state.active);
      }
      RefreshOpenConnectorContractCompatibility();
      return 200;
    }

    /** Registers the relay, then sends; a send that throws takes the entry out again. */
    method Dispatch(request: nat, connector: nat, sendFails: bool)
      requires forall p | p in pending :: p.request != request
      requires request !in timers && request !in hooks
      modifies this`pending, this`timers, this`hooks, this`accepted, this`answers
      ensures View() == Relayed(old(View()), request, connector, sendFails)
    {
      accepted := accepted + [request];
      timers := timers + {request};
      hooks := hooks + {request};
      pending := pending + [Pending(request, connector)];
      if sendFails {
        timers := timers - {request};
        hooks := hooks - {request};
        assert pending[..|pending| - 1] == old(pending);
        pending := pending[..|pending| - 1];
        answers := answers + [Answered(request, SendFailed)];
      }
    }

    method RelayAuthenticatedRequest(request: nat, sendFails: bool)
      requires Inv(View()) && Enabled(View(), Relay(request, sendFails))
      modifies this`pending, this`timers, this`hooks, this`accepted, this`answers
      ensures View() == Next(old(View()), Relay(request, sendFails))
    {
      var connector := SelectReadyConnector(Expected(V3, rollout.active));
      if connector.None? {
        return;
      }
      AnsweredExactlyOnce(View(), request);
      PendingMember(pending, request);
      assert forall p | p in pending :: p.request in Requests(pending);
      Dispatch(request, connector.value.id, sendFails);
    }

    /** A legacy request up to its await: the connector is chosen before the body is read. */
    method RelayLegacyRequest(request: nat) returns (connector: nat)
      requires Enabled(View(), LegacyChosen(request))
      modifies this`chosen
      ensures View() == Next(old(View()), LegacyChosen(request)) && chosen[request] == connector
    {
      var selected := GetPreferredExecutionReadyConnector();
      connector := selected.value.id;
      chosen := chosen[request := connector];
    }

    /** The rest of it, with the body read; nobody looks at the connector again. */
    method LegacyBodyRead(request: nat, connector: nat, tooLarge: bool, sendFails: bool)
      requires Inv(View()) && request in chosen && chosen[request] == connector
      modifies this`chosen, this`pending, this`timers, this`hooks, this`accepted, this`answers
      ensures View() == Next(old(View()), if tooLarge then LegacyGivenUp(request) else LegacyRegistered(request, sendFails))
    {
      AnsweredExactlyOnce(View(), request);
      assert forall p | p in pending :: p.request in Requests(pending);
      PendingMember(pending, request);
      chosen := chosen - {request};
      if tooLarge { return; }
      Dispatch(request, connector, sendFails);
    }

    /** Reply, timeout and client abort all end a relay this way. */
    method Finish(request: nat, answer: Answer) returns (found: bool)
      modifies this`pending, this`timers, this`hooks, this`answers
      ensures View() == Finished(old(View()), request, answer)
      ensures found <==> request in Requests(old(pending))
    {
      found := exists i | 0 <= i < |pending| :: pending[i].request == request;
      if !found {
        return;
      }
      var kept: seq<Pending> := [];
      for i := 0 to |pending|
        invariant kept + Without(pending[i..], request) == Without(pending, request)
      {
        assert pending[i..][0] == pending[i] && pending[i..][1..] == pending[i + 1..];
        if pending[i].request != request {
          kept := kept + [pending[i]];
        }
      }
      assert pending[|pending|..] == [];
      pending := kept;
      timers := timers - {request};
      hooks := hooks - {request};
      answers := answers + [Answered(request, answer)];
    }
  }
}
