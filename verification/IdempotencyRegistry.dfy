/** Running an operation at most once per key (browser-idempotency-registry.ts). */
module IdempotencyRegistry {
  import opened Text

  /** An operation that was started. `settledAt` is when it succeeded or failed, `droppedAt` the
      clock reading at which pruning let go of its entry. */
  datatype Op = Op(key: Option<Str>, fingerprint: Str, startedAt: int, settledAt: Option<int>, droppedAt: Option<int>)

  /** `expiresAt` is None for infinity; `op` names the promise that callers share. */
  datatype Entry = Entry(fingerprint: Str, expiresAt: Option<int>, settled: bool, op: nat)

  datatype State = State(
    entries: map<Str, Entry>,
    hits: nat,
    misses: nat,
    conflicts: nat,
    evictions: nat,
    expirations: nat,
    ops: seq<Op>)

  datatype Config = Config(ttlMs: nat, maxEntries: nat)

  /** What the caller gets: an operation started for it, one it joins, or an error. */
  datatype Answer = Started(op: nat) | Joined(op: nat) | KeyConflict | LimitExceeded

  datatype Step = Step(state: State, answer: Answer)

  datatype Event = Run(key: Option<Str>, fingerprint: Str) | Settle(op: nat) | Snapshot

  // ---------------------------------------------------------------- operations

  predicate IsExpired(e: Entry, now: int) {
    e.settled && e.expiresAt.Some? && e.expiresAt.value <= now
  }

  function ExpiredKeys(entries: map<Str, Entry>, now: int): set<Str> {
    set k | k in entries && IsExpired(entries[k], now)
  }

  predicate Drops(entries: map<Str, Entry>, now: int, o: Op, i: nat) {
    o.key.Some? && o.key.value in entries && entries[o.key.value].op == i && IsExpired(entries[o.key.value], now)
  }

  function Dropped(entries: map<Str, Entry>, ops: seq<Op>, now: int): (r: seq<Op>)
    ensures |r| == |ops|
    ensures forall i | 0 <= i < |ops| :: r[i] == if Drops(entries, now, ops[i], i) then ops[i].(droppedAt := Some(now)) else ops[i]
  {
    seq(|ops|, i requires 0 <= i < |ops| => if Drops(entries, now, ops[i], i) then ops[i].(droppedAt := Some(now)) else ops[i])
  }

  function Pruned(s: State, now: int): State {
    var dead := ExpiredKeys(s.entries, now);
    s.(entries := s.entries - dead, expirations := s.expirations + |dead|, ops := Dropped(s.entries, s.ops, now))
  }

  function Initial(): State {
    State(map[], 0, 0, 0, 0, 0, [])
  }

  function Begun(key: Option<Str>, fingerprint: Str, now: int): Op {
    Op(key, fingerprint, now, None, None)
  }

  function WithMiss(p: State, key: Str, fingerprint: Str, now: int): State {
    p.(misses := p.misses + 1,
       entries := p.entries[key := Entry(fingerprint, None, false, |p.ops|)],
       ops := p.ops + [Begun(Some(key), fingerprint, now)])
  }

  function RunKeyed(c: Config, s: State, key: Str, fingerprint: Str, now: int): Step {
    var p := Pruned(s, now);
    if key in p.entries then
      if p.entries[key].fingerprint != fingerprint then Step(p.(conflicts := p.conflicts + 1), KeyConflict)
      else Step(p.(hits := p.hits + 1), Joined(p.entries[key].op))
    else if |p.entries| >= c.maxEntries then Step(p, LimitExceeded)
    else
      Step(WithMiss(p, key, fingerprint, now), Started(|p.ops|))
  }

  function RunOne(c: Config, s: State, key: Option<Str>, fingerprint: Str, now: int): Step {
    if key.None? || key.value == [] then
      Step(s.(ops := s.ops + [Begun(None, fingerprint, now)]), Started(|s.ops|))
    else RunKeyed(c, s, key.value, fingerprint, now)
  }

  /** The entry of an operation, if it is still there, starts to expire. */
  function SettleOne(c: Config, s: State, op: nat, now: int): State
    requires op < |s.ops|
  {
    var o := s.ops[op];
    var entries :=
      if o.key.Some? && o.key.value in s.entries && s.entries[o.key.value].op == op then
        s.entries[o.key.value := s.entries[o.key.value].(settled := true, expiresAt := Some(now + c.ttlMs))]
      else s.entries;
    s.(entries := entries, ops := s.ops[op := o.(settledAt := Some(now))])
  }

  /** Only an operation that runs can settle; the clock may read anything. */
  predicate Enabled(s: State, e: Event) {
    e.Settle? ==> e.op < |s.ops| && s.ops[e.op].settledAt.None?
  }

  function Next(c: Config, s: State, e: Event, now: int): State
    requires Enabled(s, e)
  {
    match e
    case Run(key, fingerprint) => RunOne(c, s, key, fingerprint, now).state
    case Settle(op) => SettleOne(c, s, op, now)
    case Snapshot => Pruned(s, now)
  }

  // ---------------------------------------------------------------- what holds in every state

  /** Unsettled, or settled less than the time to live ago. */
  predicate Live(c: Config, o: Op, now: int) {
    o.settledAt.None? || o.settledAt.value + c.ttlMs > now
  }

  predicate EntryMatches(c: Config, s: State, key: Str)
    requires key in s.entries
  {
    var e := s.entries[key];
    && e.op < |s.ops|
    && var o := s.ops[e.op];
       && o.key == Some(key) && o.fingerprint == e.fingerprint && o.droppedAt.None?
       && e.settled == o.settledAt.Some?
       && e.expiresAt == (if o.settledAt.Some? then Some(o.settledAt.value + c.ttlMs) else None)
  }

  predicate Held(s: State, i: nat)
    requires i < |s.ops|
  {
    s.ops[i].key.Some? && s.ops[i].key.value in s.entries && s.entries[s.ops[i].key.value].op == i
  }

  predicate HeldUnlessDropped(s: State, i: nat)
    requires i < |s.ops|
  {
    s.ops[i].key.Some? && s.ops[i].droppedAt.None? ==> Held(s, i)
  }

  /** Let go only at a clock reading past its time to live. */
  predicate DroppedLate(c: Config, o: Op) {
    o.droppedAt.Some? ==> o.settledAt.Some? && o.settledAt.value + c.ttlMs <= o.droppedAt.value
  }

  /** The second start came only after the first had been let go. */
  predicate Apart(a: Op, b: Op) {
    a.key.Some? && a.key == b.key ==> a.droppedAt.Some?
  }

  ghost predicate Entries(c: Config, s: State) {
    forall k | k in s.entries :: EntryMatches(c, s, k)
  }

  ghost predicate AllHeld(s: State) {
    forall i | 0 <= i < |s.ops| :: HeldUnlessDropped(s, i)
  }

  predicate AllDroppedLate(c: Config, ops: seq<Op>) {
    forall i | 0 <= i < |ops| :: DroppedLate(c, ops[i])
  }

  ghost predicate AllApart(ops: seq<Op>) {
    forall i, j | 0 <= i < j < |ops| :: Apart(ops[i], ops[j])
  }

  /** Entries are the misses that have not expired, never more than allowed; nothing is ever
      evicted. */
  predicate Counters(c: Config, s: State) {
    |s.entries| + s.expirations == s.misses && |s.entries| <= c.maxEntries && s.evictions == 0
  }

  ghost predicate Inv(c: Config, s: State) {
    Entries(c, s) && AllHeld(s) && AllDroppedLate(c, s.ops) && AllApart(s.ops) && Counters(c, s)
  }

  lemma RemoveSize(m: map<Str, Entry>, dead: set<Str>)
    requires dead <= m.Keys
    ensures |m - dead| + |dead| == |m|
  {
    assert (m - dead).Keys == m.Keys - dead;
    assert |m - dead| == |(m - dead).Keys|;
  }

  lemma PrunedKeepsEntry(c: Config, s: State, now: int, k: Str)
    requires Entries(c, s) && k in Pruned(s, now).entries
    ensures EntryMatches(c, Pruned(s, now), k)
  {
    assert EntryMatches(c, s, k);
  }

  lemma PrunedKeepsHeld(c: Config, s: State, now: int, i: nat)
    requires Entries(c, s) && i < |s.ops| && HeldUnlessDropped(s, i)
    ensures HeldUnlessDropped(Pruned(s, now), i)
  {
  }

  lemma PrunedKeepsOps(c: Config, s: State, now: int)
    requires Entries(c, s) && AllDroppedLate(c, s.ops) && AllApart(s.ops)
    ensures AllDroppedLate(c, Pruned(s, now).ops) && AllApart(Pruned(s, now).ops)
  {
    var after := Pruned(s, now).ops;
    forall i | 0 <= i < |after| ensures DroppedLate(c, after[i]) {
      assert DroppedLate(c, s.ops[i]);
      var o := s.ops[i];
      if o.key.Some? && o.key.value in s.entries { assert EntryMatches(c, s, o.key.value); }
    }
    forall i, j | 0 <= i < j < |after| ensures Apart(after[i], after[j]) { assert Apart(s.ops[i], s.ops[j]); }
  }

  lemma PrunedKeepsInv(c: Config, s: State, now: int)
    requires Inv(c, s)
    ensures Inv(c, Pruned(s, now))
  {
    var t := Pruned(s, now);
    forall k | k in t.entries ensures EntryMatches(c, t, k) { PrunedKeepsEntry(c, s, now, k); }
    forall i | 0 <= i < |t.ops| ensures HeldUnlessDropped(t, i) { PrunedKeepsHeld(c, s, now, i); }
    PrunedKeepsOps(c, s, now);
    RemoveSize(s.entries, ExpiredKeys(s.entries, now));
  }

  lemma AppendOp(c: Config, ops: seq<Op>, o: Op)
    requires AllDroppedLate(c, ops) && AllApart(ops) && o.droppedAt.None?
    requires forall i | 0 <= i < |ops| :: Apart(ops[i], o)
    ensures AllDroppedLate(c, ops + [o]) && AllApart(ops + [o])
  {
  }

  lemma MissKeepsMaps(c: Config, p: State, key: Str, fingerprint: Str, now: int)
    requires Entries(c, p) && AllHeld(p) && key !in p.entries
    ensures Entries(c, WithMiss(p, key, fingerprint, now)) && AllHeld(WithMiss(p, key, fingerprint, now))
  {
    var t := WithMiss(p, key, fingerprint, now);
    forall k | k in t.entries ensures EntryMatches(c, t, k) {
      assert k != key ==> k in p.entries && EntryMatches(c, p, k);
    }
    forall i | 0 <= i < |t.ops| ensures HeldUnlessDropped(t, i) {
      assert i < |p.ops| ==> HeldUnlessDropped(p, i);
    }
  }

  lemma StartKeepsInv(c: Config, p: State, key: Str, fingerprint: Str, now: int)
    requires Inv(c, p) && key !in p.entries && |p.entries| < c.maxEntries
    ensures Inv(c, WithMiss(p, key, fingerprint, now))
  {
    var o := Begun(Some(key), fingerprint, now);
    assert p.entries[key := Entry(fingerprint, None, false, |p.ops|)].Keys == p.entries.Keys + {key};
    MissKeepsMaps(c, p, key, fingerprint, now);
    forall i | 0 <= i < |p.ops| ensures Apart(p.ops[i], o) { assert HeldUnlessDropped(p, i); }
    AppendOp(c, p.ops, o);
  }

  lemma DirectKeepsInv(c: Config, s: State, fingerprint: Str, now: int)
    requires Inv(c, s)
    ensures Inv(c, s.(ops := s.ops + [Begun(None, fingerprint, now)]))
  {
    var o := Begun(None, fingerprint, now);
    var t := s.(ops := s.ops + [o]);
    forall k | k in t.entries ensures EntryMatches(c, t, k) { assert EntryMatches(c, s, k); }
    forall i | 0 <= i < |t.ops| ensures HeldUnlessDropped(t, i) {
      assert i < |s.ops| ==> HeldUnlessDropped(s, i);
    }
    AppendOp(c, s.ops, o);
  }

  lemma SettleKeepsMaps(c: Config, s: State, op: nat, now: int)
    requires Entries(c, s) && AllHeld(s) && Enabled(s, Settle(op))
    ensures Entries(c, SettleOne(c, s, op, now)) && AllHeld(SettleOne(c, s, op, now))
  {
    var t := SettleOne(c, s, op, now);
    assert HeldUnlessDropped(s, op);
    forall k | k in t.entries ensures EntryMatches(c, t, k) { assert EntryMatches(c, s, k); }
    forall i | 0 <= i < |t.ops| ensures HeldUnlessDropped(t, i) { assert HeldUnlessDropped(s, i); }
  }

  lemma SettleKeepsOps(c: Config, ops: seq<Op>, op: nat, now: int)
    requires AllDroppedLate(c, ops) && AllApart(ops) && op < |ops| && ops[op].settledAt.None?
    ensures var after := ops[op := ops[op].(settledAt := Some(now))];
            AllDroppedLate(c, after) && AllApart(after)
  {
    var after := ops[op := ops[op].(settledAt := Some(now))];
    forall i | 0 <= i < |after| ensures DroppedLate(c, after[i]) { assert DroppedLate(c, ops[i]); }
    forall i, j | 0 <= i < j < |after| ensures Apart(after[i], after[j]) { assert Apart(ops[i], ops[j]); }
  }

  lemma SettleKeepsInv(c: Config, s: State, op: nat, now: int)
    requires Inv(c, s) && Enabled(s, Settle(op))
    ensures Inv(c, SettleOne(c, s, op, now))
  {
    assert SettleOne(c, s, op, now).entries.Keys == s.entries.Keys;
    assert |SettleOne(c, s, op, now).entries| == |s.entries|;
    SettleKeepsMaps(c, s, op, now);
    SettleKeepsOps(c, s.ops, op, now);
  }

  lemma CountersDoNotMatter(c: Config, s: State, t: State)
    requires Inv(c, s) && t == s.(hits := t.hits, conflicts := t.conflicts)
    ensures Inv(c, t)
  {
    forall k | k in t.entries ensures EntryMatches(c, t, k) { assert EntryMatches(c, s, k); }
    forall i | 0 <= i < |t.ops| ensures HeldUnlessDropped(t, i) { assert HeldUnlessDropped(s, i); }
  }

  lemma AfterPruning(c: Config, p: State, key: Str, fingerprint: Str, now: int, t: State)
    requires Inv(c, p)
    requires t == p.(hits := t.hits, conflicts := t.conflicts)
             || (key !in p.entries && |p.entries| < c.maxEntries && t == WithMiss(p, key, fingerprint, now))
    ensures Inv(c, t)
  {
    if t == p.(hits := t.hits, conflicts := t.conflicts) {
      CountersDoNotMatter(c, p, t);
    } else {
      StartKeepsInv(c, p, key, fingerprint, now);
    }
  }

  lemma RunKeepsInv(c: Config, s: State, key: Str, fingerprint: Str, now: int)
    requires Inv(c, s)
    ensures Inv(c, RunKeyed(c, s, key, fingerprint, now).state)
  {
    PrunedKeepsInv(c, s, now);
    AfterPruning(c, Pruned(s, now), key, fingerprint, now, RunKeyed(c, s, key, fingerprint, now).state);
  }

  lemma StepKeepsInv(c: Config, s: State, e: Event, now: int)
    requires Inv(c, s) && Enabled(s, e)
    ensures Inv(c, Next(c, s, e, now))
  {
    match e
    case Run(key, fingerprint) =>
      if key.None? || key.value == [] {
        DirectKeepsInv(c, s, fingerprint, now);
      } else {
        RunKeepsInv(c, s, key.value, fingerprint, now);
      }
    case Settle(op) => SettleKeepsInv(c, s, op, now);
    case Snapshot => PrunedKeepsInv(c, s, now);
  }

  // ---------------------------------------------------------------- runs

  datatype Timed = Timed(event: Event, now: int)

  ghost predicate Reaches(c: Config, s: State, events: seq<Timed>, t: State)
    decreases |events|
  {
    if events == [] then s == t
    else Enabled(s, events[0].event) && Reaches(c, Next(c, s, events[0].event, events[0].now), events[1..], t)
  }

  lemma {:induction false} Reachable(c: Config, s: State, events: seq<Timed>, t: State)
    requires Inv(c, s) && Reaches(c, s, events, t)
    ensures Inv(c, t)
    decreases |events|
  {
    if events != [] {
      StepKeepsInv(c, s, events[0].event, events[0].now);
      Reachable(c, Next(c, s, events[0].event, events[0].now), events[1..], t);
    }
  }

  /** Over any run, whatever the clock does, an operation of a key is started a second time only
      after the first has settled and some call has since read a clock past its time to live;
      entries are misses less expirations, within the limit; nothing is evicted. */
  lemma AtMostOnce(c: Config, events: seq<Timed>, t: State, i: nat, j: nat)
    requires Reaches(c, Initial(), events, t)
    requires i < j < |t.ops| && t.ops[i].key.Some? && t.ops[i].key == t.ops[j].key
    ensures t.ops[i].settledAt.Some? && t.ops[i].droppedAt.Some?
    ensures t.ops[i].settledAt.value + c.ttlMs <= t.ops[i].droppedAt.value
    ensures |t.entries| + t.expirations == t.misses && |t.entries| <= c.maxEntries && t.evictions == 0
  {
    assert Inv(c, Initial());
    Reachable(c, Initial(), events, t);
    assert Apart(t.ops[i], t.ops[j]) && DroppedLate(c, t.ops[i]);
  }

  // ---------------------------------------------------------------- clocks

  function TimesOf(events: seq<Timed>): seq<int> {
    seq(|events|, i requires 0 <= i < |events| => events[i].now)
  }

  /** A reading past the time to live of an earlier one is followed by a reading within it. The
      first reading does not matter, because nothing has settled by then. */
  predicate Harmful(times: seq<int>, ttl: nat, p: nat, q: nat, r: nat) {
    1 <= p < q < r < |times| && times[p] + ttl <= times[q] && times[r] < times[p] + ttl
  }

  ghost predicate Harmless(times: seq<int>, ttl: nat) {
    forall p, q, r :: !Harmful(times, ttl, p, q, r)
  }

  /** Every start of a key comes at least the time to live after each earlier operation of that
      key settled. */
  ghost predicate Spaced(c: Config, ops: seq<Op>) {
    forall i, j | 0 <= i < j < |ops| :: SpacedPair(c, ops[i], ops[j])
  }

  predicate SpacedPair(c: Config, a: Op, b: Op) {
    a.key.Some? && a.key == b.key ==> a.settledAt.Some? && a.settledAt.value + c.ttlMs <= b.startedAt
  }

  ghost predicate AlwaysSpaced(c: Config, times: seq<int>) {
    forall events, t | TimesOf(events) == times && Reaches(c, Initial(), events, t) :: Spaced(c, t.ops)
  }

  // ---------------------------------------------------------------- where a second start comes from

  predicate SettledAt(times: seq<int>, o: Op, p: nat) {
    1 <= p < |times| && o.settledAt == Some(times[p])
  }

  predicate LetGoAt(times: seq<int>, o: Op, p: nat, q: nat) {
    SettledAt(times, o, p) && p < q < |times| && o.droppedAt == Some(times[q])
  }

  predicate StartedAgain(times: seq<int>, a: Op, b: Op, p: nat, q: nat, r: nat) {
    LetGoAt(times, a, p, q) && q <= r < |times| && b.startedAt == times[r]
  }

  ghost predicate TracedOp(times: seq<int>, o: Op) {
    && (o.settledAt.Some? ==> exists p :: SettledAt(times, o, p))
    && (o.droppedAt.Some? ==> exists p, q :: LetGoAt(times, o, p, q))
  }

  ghost predicate TracedPair(times: seq<int>, a: Op, b: Op) {
    a.key.Some? && a.key == b.key ==> exists p, q, r :: StartedAgain(times, a, b, p, q, r)
  }

  /** Settling, letting go and starting again were read off the clock in this order. */
  ghost predicate Traced(times: seq<int>, ops: seq<Op>) {
    && (ops != [] ==> times != [])
    && (forall i | 0 <= i < |ops| :: TracedOp(times, ops[i]))
    && forall i, j | 0 <= i < j < |ops| :: TracedPair(times, ops[i], ops[j])
  }

  lemma LaterOp(times: seq<int>, now: int, o: Op)
    requires TracedOp(times, o)
    ensures TracedOp(times + [now], o)
  {
    if o.settledAt.Some? {
      var p :| SettledAt(times, o, p);
      assert SettledAt(times + [now], o, p);
    }
    if o.droppedAt.Some? {
      var p, q :| LetGoAt(times, o, p, q);
      assert LetGoAt(times + [now], o, p, q);
    }
  }

  lemma LaterPair(times: seq<int>, now: int, a: Op, b: Op)
    requires TracedPair(times, a, b)
    ensures TracedPair(times + [now], a, b)
  {
    if a.key.Some? && a.key == b.key {
      var p, q, r :| StartedAgain(times, a, b, p, q, r);
      assert StartedAgain(times + [now], a, b, p, q, r);
    }
  }

  lemma LaterTraced(times: seq<int>, now: int, ops: seq<Op>)
    requires Traced(times, ops)
    ensures Traced(times + [now], ops)
  {
    forall i | 0 <= i < |ops| ensures TracedOp(times + [now], ops[i]) { LaterOp(times, now, ops[i]); }
    forall i, j | 0 <= i < j < |ops| ensures TracedPair(times + [now], ops[i], ops[j]) { LaterPair(times, now, ops[i], ops[j]); }
  }

  lemma PrunedOpTraced(c: Config, s: State, times: seq<int>, now: int, i: nat)
    requires Entries(c, s) && i < |s.ops| && TracedOp(times, s.ops[i])
    ensures TracedOp(times + [now], Pruned(s, now).ops[i])
  {
    var o, o' := s.ops[i], Pruned(s, now).ops[i];
    LaterOp(times, now, o);
    if Drops(s.entries, now, o, i) {
      assert EntryMatches(c, s, o.key.value);
      var p :| SettledAt(times, o, p);
      assert SettledAt(times + [now], o', p) && LetGoAt(times + [now], o', p, |times|);
    }
  }

  lemma PrunedPairTraced(c: Config, s: State, times: seq<int>, now: int, i: nat, j: nat)
    requires Entries(c, s) && i < j < |s.ops| && Apart(s.ops[i], s.ops[j]) && TracedPair(times, s.ops[i], s.ops[j])
    ensures TracedPair(times + [now], Pruned(s, now).ops[i], Pruned(s, now).ops[j])
  {
    var a, b := s.ops[i], s.ops[j];
    if a.key.Some? && a.key == b.key {
      assert a.key.value in s.entries ==> EntryMatches(c, s, a.key.value);
      var p, q, r :| StartedAgain(times, a, b, p, q, r);
      assert StartedAgain(times + [now], Pruned(s, now).ops[i], Pruned(s, now).ops[j], p, q, r);
    }
  }

  lemma PrunedTraced(c: Config, s: State, times: seq<int>, now: int)
    requires Inv(c, s) && Traced(times, s.ops)
    ensures Traced(times + [now], Pruned(s, now).ops)
  {
    var after := Pruned(s, now).ops;
    forall i | 0 <= i < |after| ensures TracedOp(times + [now], after[i]) { PrunedOpTraced(c, s, times, now, i); }
    forall i, j | 0 <= i < j < |after| ensures TracedPair(times + [now], after[i], after[j]) {
      assert Apart(s.ops[i], s.ops[j]);
      PrunedPairTraced(c, s, times, now, i, j);
    }
  }

  lemma AppendTraced(times: seq<int>, now: int, ops: seq<Op>, key: Option<Str>, fingerprint: Str)
    requires Traced(times + [now], ops) && forall i | 0 <= i < |ops| :: Apart(ops[i], Begun(key, fingerprint, now))
    ensures Traced(times + [now], ops + [Begun(key, fingerprint, now)])
  {
    var b := Begun(key, fingerprint, now);
    var after := ops + [b];
    forall i | 0 <= i < |ops| ensures TracedPair(times + [now], ops[i], b) {
      assert Apart(ops[i], b);
      NewStart(times, now, ops[i], b);
    }
    forall i, j | 0 <= i < j < |after| ensures TracedPair(times + [now], after[i], after[j]) {
      assert after[i] == ops[i];
      if j < |ops| {
        assert after[j] == ops[j] && TracedPair(times + [now], ops[i], ops[j]);
      } else {
        assert after[j] == b;
      }
    }
  }

  lemma NewStart(times: seq<int>, now: int, a: Op, b: Op)
    requires TracedOp(times + [now], a) && Apart(a, b) && b.startedAt == now
    ensures TracedPair(times + [now], a, b)
  {
    if a.key.Some? && a.key == b.key {
      var p, q :| LetGoAt(times + [now], a, p, q);
      assert StartedAgain(times + [now], a, b, p, q, |times|);
    }
  }

  lemma SettleTraced(c: Config, ops: seq<Op>, times: seq<int>, op: nat, now: int)
    requires AllDroppedLate(c, ops) && AllApart(ops) && Traced(times, ops) && op < |ops| && ops[op].settledAt.None?
    ensures Traced(times + [now], ops[op := ops[op].(settledAt := Some(now))])
  {
    var after := ops[op := ops[op].(settledAt := Some(now))];
    assert DroppedLate(c, ops[op]);
    LaterTraced(times, now, ops);
    forall i | 0 <= i < |after| ensures TracedOp(times + [now], after[i]) {
      assert TracedOp(times + [now], ops[i]);
      assert i == op ==> SettledAt(times + [now], after[i], |times|);
    }
    forall i, j | 0 <= i < j < |after| ensures TracedPair(times + [now], after[i], after[j]) {
      assert TracedPair(times + [now], ops[i], ops[j]) && Apart(ops[i], ops[j]);
      if i != op && ops[i].key.Some? && ops[i].key == ops[j].key {
        var p, q, r :| StartedAgain(times + [now], ops[i], ops[j], p, q, r);
        assert StartedAgain(times + [now], after[i], after[j], p, q, r);
      }
    }
  }

  lemma RunTraced(c: Config, s: State, key: Str, fingerprint: Str, times: seq<int>, now: int)
    requires Inv(c, s) && Traced(times, s.ops)
    ensures Traced(times + [now], RunKeyed(c, s, key, fingerprint, now).state.ops)
  {
    var p := Pruned(s, now);
    PrunedKeepsInv(c, s, now);
    PrunedTraced(c, s, times, now);
    if key !in p.entries && |p.entries| < c.maxEntries {
      forall i | 0 <= i < |p.ops| ensures Apart(p.ops[i], Begun(Some(key), fingerprint, now)) { assert HeldUnlessDropped(p, i); }
      AppendTraced(times, now, p.ops, Some(key), fingerprint);
    }
  }

  lemma StepTraced(c: Config, s: State, e: Event, times: seq<int>, now: int)
    requires Inv(c, s) && Enabled(s, e) && Traced(times, s.ops)
    ensures Traced(times + [now], Next(c, s, e, now).ops)
  {
    match e
    case Run(key, fingerprint) =>
      if key.None? || key.value == [] {
        LaterTraced(times, now, s.ops);
        AppendTraced(times, now, s.ops, None, fingerprint);
      } else {
        RunTraced(c, s, key.value, fingerprint, times, now);
      }
    case Settle(op) => SettleTraced(c, s.ops, times, op, now);
    case Snapshot => PrunedTraced(c, s, times, now);
  }

  lemma TimesFollow(times: seq<int>, events: seq<Timed>)
    requires events != []
    ensures times + TimesOf(events) == times + [events[0].now] + TimesOf(events[1..])
  {
  }

  lemma {:induction false} RunIsTraced(c: Config, s: State, times: seq<int>, events: seq<Timed>, t: State)
    requires Inv(c, s) && Traced(times, s.ops) && Reaches(c, s, events, t)
    ensures Inv(c, t) && Traced(times + TimesOf(events), t.ops)
    decreases |events|
  {
    if events == [] {
      assert times + TimesOf(events) == times;
    } else {
      var e := events[0];
      StepKeepsInv(c, s, e.event, e.now);
      StepTraced(c, s, e.event, times, e.now);
      RunIsTraced(c, Next(c, s, e.event, e.now), times + [e.now], events[1..], t);
      TimesFollow(times, events);
    }
  }

  lemma HarmlessSpaces(c: Config, events: seq<Timed>, t: State, i: nat, j: nat)
    requires Reaches(c, Initial(), events, t) && Harmless(TimesOf(events), c.ttlMs) && i < j < |t.ops|
    ensures SpacedPair(c, t.ops[i], t.ops[j])
  {
    assert Inv(c, Initial());
    RunIsTraced(c, Initial(), [], events, t);
    assert [] + TimesOf(events) == TimesOf(events);
    assert TracedPair(TimesOf(events), t.ops[i], t.ops[j]) && DroppedLate(c, t.ops[i]);
    TracedIsSpaced(c, TimesOf(events), t.ops[i], t.ops[j]);
  }

  lemma TracedIsSpaced(c: Config, times: seq<int>, a: Op, b: Op)
    requires Harmless(times, c.ttlMs) && TracedPair(times, a, b) && DroppedLate(c, a)
    ensures SpacedPair(c, a, b)
  {
    if a.key.Some? && a.key == b.key {
      var p, q, r :| StartedAgain(times, a, b, p, q, r);
      assert !Harmful(times, c.ttlMs, p, q, r);
    }
  }

  // ---------------------------------------------------------------- the run that is not spaced

  /** Start, settle at place p, start again at place r; snapshots everywhere else. */
  function Script(key: Str, fingerprint: Str, times: seq<int>, p: nat, r: nat): seq<Timed> {
    seq(|times|, i requires 0 <= i < |times| =>
      Timed(if i == 0 || i == r then Run(Some(key), fingerprint) else if i == p then Settle(0) else Snapshot, times[i]))
  }

  predicate SettledOnce(o: Op, key: Str, time: int) {
    o.key == Some(key) && o.settledAt == Some(time)
  }

  /** The state before the event at place i. */
  predicate Phase(c: Config, key: Str, fingerprint: Str, times: seq<int>, p: nat, q: nat, r: nat, i: nat, s: State)
    requires Harmful(times, c.ttlMs, p, q, r) && i <= |times|
  {
    if i == 0 then s == Initial()
    else if i <= p then
      s.ops == [Begun(Some(key), fingerprint, times[0])] && s.entries == map[key := Entry(fingerprint, None, false, 0)]
    else if i <= r then
      && |s.ops| == 1 && SettledOnce(s.ops[0], key, times[p])
      && (s.entries == map[] || (i <= q && s.entries == map[key := Entry(fingerprint, Some(times[p] + c.ttlMs), true, 0)]))
    else |s.ops| == 2 && SettledOnce(s.ops[0], key, times[p]) && s.ops[1].key == Some(key) && s.ops[1].startedAt == times[r]
  }

  lemma PrunedEmpty(s: State, now: int)
    requires s.entries == map[]
    ensures Pruned(s, now).entries == map[] && Pruned(s, now).ops == s.ops
  {
    assert ExpiredKeys(s.entries, now) == {};
    assert Pruned(s, now).ops == s.ops;
  }

  lemma PrunedOne(s: State, key: Str, e: Entry, now: int)
    requires s.entries == map[key := e]
    ensures Pruned(s, now).entries == if IsExpired(e, now) then map[] else s.entries
    ensures !IsExpired(e, now) ==> Pruned(s, now).ops == s.ops
  {
    assert ExpiredKeys(s.entries, now) == if IsExpired(e, now) then {key} else {};
  }

  lemma PhaseStep(c: Config, key: Str, fingerprint: Str, times: seq<int>, p: nat, q: nat, r: nat, i: nat, s: State)
    requires c.maxEntries > 0 && key != [] && Harmful(times, c.ttlMs, p, q, r) && i < |times|
    requires Phase(c, key, fingerprint, times, p, q, r, i, s)
    ensures var e := Script(key, fingerprint, times, p, r)[i];
            Enabled(s, e.event) && Phase(c, key, fingerprint, times, p, q, r, i + 1, Next(c, s, e.event, e.now))
  {
    if i == 0 {
      StartsEmpty(c, s, key, fingerprint, times[0]);
    } else if i < p {
      PrunedOne(s, key, s.entries[key], times[i]);
    } else if i == p {
      SettlesOne(c, s, key, fingerprint, times[i]);
    } else if i < r {
      SnapshotOne(c, s, key, times[p], times[i]);
    } else if i == r {
      StartsEmpty(c, s, key, fingerprint, times[r]);
    }
  }

  lemma StartsEmpty(c: Config, s: State, key: Str, fingerprint: Str, now: int)
    requires c.maxEntries > 0 && key != [] && s.entries == map[]
    ensures var t := Next(c, s, Run(Some(key), fingerprint), now);
            && t.ops == s.ops + [Begun(Some(key), fingerprint, now)]
            && t.entries == map[key := Entry(fingerprint, None, false, |s.ops|)]
  {
    PrunedEmpty(s, now);
  }

  lemma SettlesOne(c: Config, s: State, key: Str, fingerprint: Str, now: int)
    requires |s.ops| == 1 && s.ops[0].key == Some(key) && s.entries == map[key := Entry(fingerprint, None, false, 0)]
    ensures var t := SettleOne(c, s, 0, now);
            && |t.ops| == 1 && SettledOnce(t.ops[0], key, now)
            && t.entries == map[key := Entry(fingerprint, Some(now + c.ttlMs), true, 0)]
  {
  }

  lemma SnapshotOne(c: Config, s: State, key: Str, settled: int, now: int)
    requires |s.ops| == 1 && SettledOnce(s.ops[0], key, settled)
    requires s.entries == map[] || (key in s.entries && s.entries == map[key := s.entries[key]])
    ensures |Pruned(s, now).ops| == 1 && SettledOnce(Pruned(s, now).ops[0], key, settled)
    ensures s.entries == map[] ==> Pruned(s, now).entries == map[]
    ensures key in s.entries ==> Pruned(s, now).entries == if IsExpired(s.entries[key], now) then map[] else s.entries
  {
    if s.entries == map[] {
      PrunedEmpty(s, now);
    } else {
      PrunedOne(s, key, s.entries[key], now);
    }
  }

  lemma {:induction false} ScriptRuns(c: Config, key: Str, fingerprint: Str, times: seq<int>, p: nat, q: nat, r: nat, i: nat, s: State)
    returns (t: State)
    requires c.maxEntries > 0 && key != [] && Harmful(times, c.ttlMs, p, q, r) && i <= |times|
    requires Phase(c, key, fingerprint, times, p, q, r, i, s)
    ensures Reaches(c, s, Script(key, fingerprint, times, p, r)[i..], t)
    ensures Phase(c, key, fingerprint, times, p, q, r, |times|, t)
    decreases |times| - i
  {
    var events := Script(key, fingerprint, times, p, r);
    if i == |times| {
      t := s;
    } else {
      PhaseStep(c, key, fingerprint, times, p, q, r, i, s);
      t := ScriptRuns(c, key, fingerprint, times, p, q, r, i + 1, Next(c, s, events[i].event, events[i].now));
      assert events[i..][0] == events[i] && events[i..][1..] == events[i + 1..];
    }
  }

  lemma HarmfulBreaks(c: Config, times: seq<int>, p: nat, q: nat, r: nat)
    requires c.maxEntries > 0 && Harmful(times, c.ttlMs, p, q, r)
    ensures !AlwaysSpaced(c, times)
  {
    var key: Str := [0x6B];
    var events := Script(key, [], times, p, r);
    var t := ScriptRuns(c, key, [], times, p, q, r, 0, Initial());
    assert events[0..] == events && TimesOf(events) == times;
    assert !SpacedPair(c, t.ops[0], t.ops[1]);
  }

  lemma HarmlessKeeps(c: Config, times: seq<int>)
    requires Harmless(times, c.ttlMs)
    ensures AlwaysSpaced(c, times)
  {
    forall events, t | TimesOf(events) == times && Reaches(c, Initial(), events, t) ensures Spaced(c, t.ops) {
      forall i, j | 0 <= i < j < |t.ops| ensures SpacedPair(c, t.ops[i], t.ops[j]) { HarmlessSpaces(c, events, t, i, j); }
    }
  }

  lemma NothingKeptIsSpaced(c: Config, times: seq<int>)
    requires c.maxEntries == 0
    ensures AlwaysSpaced(c, times)
  {
    forall events, t | TimesOf(events) == times && Reaches(c, Initial(), events, t) ensures Spaced(c, t.ops) {
      NothingKept(c, Initial(), events, t);
    }
  }

  /** Over given clock readings, every run keeps second starts of a key the time to live apart
      exactly when the readings are harmless, or nothing can be kept at all. */
  lemma SpacedExactlyWhen(c: Config, times: seq<int>)
    ensures AlwaysSpaced(c, times) <==> c.maxEntries == 0 || Harmless(times, c.ttlMs)
  {
    if c.maxEntries == 0 {
      NothingKeptIsSpaced(c, times);
    } else if Harmless(times, c.ttlMs) {
      HarmlessKeeps(c, times);
    } else {
      var p, q, r :| Harmful(times, c.ttlMs, p, q, r);
      HarmfulBreaks(c, times, p, q, r);
    }
  }

  lemma {:induction false} NothingKept(c: Config, s: State, events: seq<Timed>, t: State)
    requires c.maxEntries == 0 && Reaches(c, s, events, t) && forall o | o in s.ops :: o.key.None?
    ensures forall o | o in t.ops :: o.key.None?
    decreases |events|
  {
    if events != [] {
      var next := Next(c, s, events[0].event, events[0].now);
      forall o | o in next.ops ensures o.key.None? {
        assert forall i | 0 <= i < |s.ops| :: s.ops[i] in s.ops;
      }
      NothingKept(c, next, events[1..], t);
    }
  }

  /** In particular with a clock that never goes back. */
  lemma AtMostOncePerTtl(c: Config, events: seq<Timed>, t: State, i: nat, j: nat)
    requires Reaches(c, Initial(), events, t) && forall m, n | 0 <= m < n < |events| :: events[m].now <= events[n].now
    requires i < j < |t.ops| && t.ops[i].key.Some? && t.ops[i].key == t.ops[j].key
    ensures t.ops[i].settledAt.Some? && t.ops[i].settledAt.value + c.ttlMs <= t.ops[j].startedAt
  {
    HarmlessSpaces(c, events, t, i, j);
  }

  /** With one that does, it need not: settled at 100 with 50 to live, let go at 200, started
      again at 120. */
  lemma ClockBackExample(key: Str, fingerprint: Str)
    requires key != []
    ensures var c := Config(50, 1);
            var events := [Timed(Run(Some(key), fingerprint), 0), Timed(Settle(0), 100), Timed(Snapshot, 200), Timed(Run(Some(key), fingerprint), 120)];
            exists t :: Reaches(c, Initial(), events, t) && |t.ops| == 2 && t.ops[0].key == t.ops[1].key == Some(key)
                        && t.ops[0].settledAt == Some(100) && t.ops[1].startedAt == 120
  {
    var times := [0, 100, 200, 120];
    var events := [Timed(Run(Some(key), fingerprint), 0), Timed(Settle(0), 100), Timed(Snapshot, 200), Timed(Run(Some(key), fingerprint), 120)];
    var t := ScriptRuns(Config(50, 1), key, fingerprint, times, 1, 2, 3, 0, Initial());
    assert Script(key, fingerprint, times, 1, 3)[0..] == events;
  }

  // ---------------------------------------------------------------- what a caller is told

  /** Not yet let go, and not expired by this reading of the clock. */
  predicate LiveFor(c: Config, s: State, key: Str, now: int, i: nat) {
    i < |s.ops| && s.ops[i].key == Some(key) && s.ops[i].droppedAt.None? && Live(c, s.ops[i], now)
  }

  lemma HeldExactlyWhileLive(c: Config, s: State, key: Str, now: int, i: nat)
    requires Inv(c, s)
    ensures LiveFor(c, s, key, now, i) <==> key in Pruned(s, now).entries && Pruned(s, now).entries[key].op == i
  {
    if LiveFor(c, s, key, now, i) {
      assert HeldUnlessDropped(s, i) && Held(s, i);
      EntryExpiry(c, s, key, now);
    }
    if key in s.entries { EntryExpiry(c, s, key, now); }
  }

  lemma EntryExpiry(c: Config, s: State, key: Str, now: int)
    requires Entries(c, s) && key in s.entries
    ensures LiveFor(c, s, key, now, s.entries[key].op) <==> !IsExpired(s.entries[key], now)
    ensures key in Pruned(s, now).entries <==> !IsExpired(s.entries[key], now)
  {
    assert EntryMatches(c, s, key);
  }

  /** A caller joins the one live operation of its key, whose outcome it shares, is refused if
      that operation has another fingerprint, and starts one exactly when none is live and there
      is room. */
  lemma AnswerExactlyWhen(c: Config, s: State, key: Str, fingerprint: Str, now: int)
    requires Inv(c, s) && key != []
    ensures var answer := RunOne(c, s, Some(key), fingerprint, now).answer;
            && (forall i: nat :: answer == Joined(i) <==> LiveFor(c, s, key, now, i) && s.ops[i].fingerprint == fingerprint)
            && (answer.KeyConflict? <==> exists i: nat :: LiveFor(c, s, key, now, i) && s.ops[i].fingerprint != fingerprint)
            && (answer.Started? || answer.LimitExceeded? <==> forall i: nat :: !LiveFor(c, s, key, now, i))
            && (answer.Started? ==> answer.op == |s.ops| && |Pruned(s, now).entries| < c.maxEntries)
            && (answer.LimitExceeded? ==> |Pruned(s, now).entries| == c.maxEntries)
  {
    PrunedKeepsInv(c, s, now);
    var p := Pruned(s, now);
    forall i: nat ensures LiveFor(c, s, key, now, i) <==> key in p.entries && p.entries[key].op == i {
      HeldExactlyWhileLive(c, s, key, now, i);
    }
    if key in p.entries {
      assert EntryMatches(c, s, key);
      assert LiveFor(c, s, key, now, p.entries[key].op);
    }
  }

  /** Each keyed call is counted once, by its answer. */
  lemma CountedByAnswer(c: Config, s: State, key: Str, fingerprint: Str, now: int)
    requires key != []
    ensures var r := RunOne(c, s, Some(key), fingerprint, now); var t := r.state;
            match r.answer
            case Joined(_) => (t.hits, t.misses, t.conflicts) == (s.hits + 1, s.misses, s.conflicts)
            case Started(_) => (t.hits, t.misses, t.conflicts) == (s.hits, s.misses + 1, s.conflicts)
            case KeyConflict => (t.hits, t.misses, t.conflicts) == (s.hits, s.misses, s.conflicts + 1)
            case LimitExceeded => (t.hits, t.misses, t.conflicts) == (s.hits, s.misses, s.conflicts)
  {
  }

  // ---------------------------------------------------------------- the class

  class BrowserIdempotencyRegistry {
    const config: Config
    var entries: map<Str, Entry>
    var hits: nat
    var misses: nat
    var conflicts: nat
    var evictions: nat
    var expirations: nat
    /** Every operation that was started. */
    ghost var ops: seq<Op>
    var started: nat

    ghost predicate Valid()
      reads this
    {
      started == |ops|
    }

    ghost function View(): State
      reads this
    {
      State(entries, hits, misses, conflicts, evictions, expirations, ops)
    }

    constructor (config: Config)
      ensures Valid() && View() == Initial() && this.config == config
    {
      this.config := config;
      entries, hits, misses, conflicts, evictions, expirations := map[], 0, 0, 0, 0, 0;
      ops, started := [], 0;
    }

    /** Goes through the map and deletes what has expired. */
    method Prune(now: int)
      requires Valid()
      modifies `entries, `expirations, `ops
      ensures Valid() && View() == Pruned(old(View()), now)
    {
      var keys := entries.Keys;
      ghost var dead: set<Str> := {};
      while keys != {}
        modifies `entries, `expirations
        invariant keys <= old(entries).Keys
        invariant dead == set k | k in ExpiredKeys(old(entries), now) && k !in keys
        invariant entries == old(entries) - dead
        invariant expirations == old(expirations) + |dead|
        decreases |keys|
      {
        var key :| key in keys;
        keys := keys - {key};
        assert entries[key] == old(entries)[key];
        if IsExpired(entries[key], now) {
          entries := entries - {key};
          expirations := expirations + 1;
          dead := dead + {key};
        }
      }
      assert dead == ExpiredKeys(old(entries), now);
      ops := Dropped(old(entries), ops, now);
    }

    method EnsureCapacity() returns (ok: bool)
      ensures ok <==> |entries| < config.maxEntries
    {
      ok := |entries| < config.maxEntries;
    }

    method RunOperation(key: Option<Str>, fingerprint: Str, now: int) returns (answer: Answer)
      requires Valid()
      modifies this
      ensures Valid() && Step(View(), answer) == RunOne(config, old(View()), key, fingerprint, now)
    {
      if key.None? || key.value == [] {
        answer := Started(started);
        ops, started := ops + [Begun(None, fingerprint, now)], started + 1;
        return;
      }
      Prune(now);
      if key.value in entries {
        var existing := entries[key.value];
        if existing.fingerprint != fingerprint {
          conflicts := conflicts + 1;
          return KeyConflict;
        }
        hits := hits + 1;
        return Joined(existing.op);
      }
      var room := EnsureCapacity();
      if !room { return LimitExceeded; }
      misses := misses + 1;
      entries := entries[key.value := Entry(fingerprint, None, false, started)];
      answer := Started(started);
      ops, started := ops + [Begun(key, fingerprint, now)], started + 1;
    }

    /** The operation settles: its entry, which the callback still knows, starts to expire. */
    method OnSettled(key: Option<Str>, op: nat, now: int)
      requires Valid() && op < |ops| && ops[op].key == key
      modifies `entries, `ops
      ensures Valid() && View() == SettleOne(config, old(View()), op, now)
    {
      if key.Some? && key.value in entries && entries[key.value].op == op {
        entries := entries[key.value := entries[key.value].(settled := true, expiresAt := Some(now + config.ttlMs))];
      }
      ops := ops[op := ops[op].(settledAt := Some(now))];
    }

    method TakeSnapshot(now: int) returns (size: nat)
      requires Valid()
      modifies `entries, `expirations, `ops
      ensures Valid() && View() == Pruned(old(View()), now) && size == |entries|
    {
      Prune(now);
      size := |entries|;
    }
  }
}
