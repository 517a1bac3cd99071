/** The contract rollout record (contract-compatibility.ts): which catalog revision
    the edge runs, which one is being prepared, and how the two change places. */
module ContractRollout {
  import opened Text

  /** A catalog revision is 64 lower-case hexadecimal digits. */
  predicate IsRevision(s: string) {
    |s| == 64 && forall i | 0 <= i < 64 :: '0' <= s[i] <= '9' || 'a' <= s[i] <= 'f'
  }

  datatype Rollout = Rollout(
    active: string,
    candidate: Option<string>,
    previous: Option<string>,
    preparedAt: Option<int>,
    promotedAt: Option<int>)

  /** The check a stored record has to pass. */
  predicate WellFormed(s: Rollout) {
    && IsRevision(s.active)
    && (s.candidate.Some? ==> IsRevision(s.candidate.value) && s.candidate.value != s.active)
    && (s.previous.Some? ==> IsRevision(s.previous.value) && s.previous.value != s.active)
  }

  /** `current` is None when storage holds nothing shaped like a rollout record;
      `build` is the revision compiled into the running code. */
  function Reconcile(current: Option<Rollout>, observed: Option<string>, build: string, now: int): (Rollout, bool) {
    if current.Some? && WellFormed(current.value) then
      if current.value.candidate.Some? || current.value.active == build then (current.value, false)
      else (current.value.(candidate := Some(build), preparedAt := Some(now)), true)
    else if observed.Some? && IsRevision(observed.value) && observed.value != build then
      (Rollout(observed.value, Some(build), None, Some(now), None), true)
    else
      (Rollout(build, None, None, None, None), true)
  }

  predicate ExpectedPrepared(s: Rollout, build: string) {
    s.active == build || s.candidate == Some(build)
  }

  /** `revision` is the connector's own catalog revision, if it reported one. */
  predicate Compatible(revision: Option<string>, s: Rollout) {
    revision.Some? && IsRevision(revision.value) && (revision.value == s.active || revision == s.candidate)
  }

  datatype Refusal =
    | BuildContractMismatch
    | ActiveContractMismatch
    | CandidateContractMismatch
    | CandidateNotReady
    | PreviousContractMismatch
    | PreviousNotReady

  /** The state after a change, and whether it had been made before. */
  datatype Change = Change(state: Rollout, already: bool)

  function Promote(s: Rollout, expectedActive: string, expectedCandidate: string,
                   readyRevision: Option<string>, build: string, now: int): Result<Change, Refusal> {
    if expectedCandidate != build then Failure(BuildContractMismatch)
    else if s.active == expectedCandidate && s.candidate.None? then Success(Change(s, true))
    else if s.active != expectedActive then Failure(ActiveContractMismatch)
    else if s.candidate != Some(expectedCandidate) then Failure(CandidateContractMismatch)
    else if readyRevision != Some(expectedCandidate) then Failure(CandidateNotReady)
    else Success(Change(Rollout(expectedCandidate, None, Some(s.active), None, Some(now)), false))
  }

  function Rollback(s: Rollout, expectedActive: string, expectedPrevious: string,
                    readyRevision: Option<string>, build: string, now: int): Result<Change, Refusal> {
    if expectedActive != build then Failure(BuildContractMismatch)
    else if s.active == expectedPrevious && s.candidate == Some(expectedActive) then Success(Change(s, true))
    else if s.active != expectedActive then Failure(ActiveContractMismatch)
    else if s.previous != Some(expectedPrevious) then Failure(PreviousContractMismatch)
    else if readyRevision != Some(expectedPrevious) then Failure(PreviousNotReady)
    else Success(Change(Rollout(expectedPrevious, Some(expectedActive), None, Some(now), None), false))
  }

  lemma RevisionExactlyWhen(s: string)
    ensures IsRevision(s) <==> |s| == 64 && forall c | c in s :: c in "0123456789abcdef"
  {
    assert forall c: char :: c in "0123456789abcdef" <==> '0' <= c <= '9' || 'a' <= c <= 'f';
    if forall c | c in s :: c in "0123456789abcdef" {
      assert forall i | 0 <= i < |s| :: s[i] in s;
    }
  }

  /** Whatever storage and telemetry hold, the reconciled record is well formed, and a
      record that was well formed keeps what it runs and where it came from. */
  lemma ReconcileWellFormed(current: Option<Rollout>, observed: Option<string>, build: string, now: int)
    requires IsRevision(build)
    ensures WellFormed(Reconcile(current, observed, build, now).0)
    ensures current.Some? && WellFormed(current.value) ==>
              var s := Reconcile(current, observed, build, now).0;
              s.active == current.value.active && s.previous == current.value.previous
    ensures !(current.Some? && WellFormed(current.value)) ==>
              var s := Reconcile(current, observed, build, now).0;
              && s.active == (if observed.Some? && IsRevision(observed.value) then observed.value else build)
              && s.previous.None?
    ensures var (s, changed) := Reconcile(current, observed, build, now);
            changed <==> current != Some(s)
  {
  }

  /** Booting twice on the same build writes at most once. */
  lemma ReconcileIdempotent(current: Option<Rollout>, observed: Option<string>, observed': Option<string>,
                            build: string, now: int, now': int)
    requires IsRevision(build)
    ensures var s := Reconcile(current, observed, build, now).0;
            Reconcile(Some(s), observed', build, now') == (s, false)
  {
  }

  /** The record already names a candidate that another build put there. */
  predicate StaleCandidate(current: Option<Rollout>, build: string) {
    && current.Some? && WellFormed(current.value)
    && current.value.active != build
    && current.value.candidate.Some? && current.value.candidate.value != build
  }

  /** After a boot the build's own revision is running or prepared, except exactly when
      an older build's candidate is still on record. */
  lemma PreparedUnlessStale(current: Option<Rollout>, observed: Option<string>, build: string, now: int)
    requires IsRevision(build)
    ensures ExpectedPrepared(Reconcile(current, observed, build, now).0, build) <==> !StaleCandidate(current, build)
  {
  }

  const OLD_BUILD := seq(64, _ => 'a')
  const MIDDLE_BUILD := seq(64, _ => 'b')
  const NEW_BUILD := seq(64, _ => 'c')

  /** A boot that leaves the new build neither running nor prepared. */
  lemma StaleCandidateExample(now: int)
    ensures var current := Some(Rollout(OLD_BUILD, Some(MIDDLE_BUILD), None, None, None));
            && StaleCandidate(current, NEW_BUILD)
            && !ExpectedPrepared(Reconcile(current, None, NEW_BUILD, now).0, NEW_BUILD)
  {
    assert OLD_BUILD[0] == 'a' && MIDDLE_BUILD[0] == 'b' && NEW_BUILD[0] == 'c';
  }

  /** A promotion goes through for the first time exactly when the caller names the active contract
      on record and this build's, which is the candidate on record, and a connector is ready for
      it; it is a repetition exactly when this build's is active with no candidate. */
  lemma PromoteExactlyWhen(s: Rollout, expectedActive: string, expectedCandidate: string,
                           readyRevision: Option<string>, build: string, now: int)
    requires WellFormed(s)
    ensures var r := Promote(s, expectedActive, expectedCandidate, readyRevision, build, now);
            && (r == Success(Change(Rollout(build, None, Some(s.active), None, Some(now)), false)) <==>
                  && expectedActive == s.active && expectedCandidate == build
                  && s.candidate == Some(build) && readyRevision == Some(build))
            && (r == Success(Change(s, true)) <==> expectedCandidate == s.active == build && s.candidate.None?)
            && (r.Success? ==> r.value.already ==> r.value.state == s)
            && (r.Success? ==> !r.value.already ==> r.value.state.active == build != s.active)
  {
  }

  /** A rollback goes through for the first time exactly when the caller names this build's
      contract, which is active, and the previous one on record, and a connector is ready for
      that; it is a repetition exactly when that one is active again and this build's the candidate. */
  lemma RollbackExactlyWhen(s: Rollout, expectedActive: string, expectedPrevious: string,
                            readyRevision: Option<string>, build: string, now: int)
    requires WellFormed(s)
    ensures var r := Rollback(s, expectedActive, expectedPrevious, readyRevision, build, now);
            && (r == Success(Change(Rollout(expectedPrevious, Some(build), None, Some(now), None), false)) <==>
                  && expectedActive == s.active == build
                  && s.previous == Some(expectedPrevious) && readyRevision == Some(expectedPrevious))
            && (r == Success(Change(s, true)) <==>
                  expectedActive == build && s.active == expectedPrevious && s.candidate == Some(build))
            && (r.Success? ==> r.value.already ==> r.value.state == s)
            && (r.Success? ==> !r.value.already ==> s.active == build && s.previous == Some(r.value.state.active))
  {
  }

  lemma PromoteWellFormed(s: Rollout, expectedActive: string, expectedCandidate: string,
                          readyRevision: Option<string>, build: string, now: int)
    requires WellFormed(s)
    ensures var r := Promote(s, expectedActive, expectedCandidate, readyRevision, build, now);
            r.Success? ==> WellFormed(r.value.state) && r.value.state.active == build
                           && (r.value.already ==> r.value.state == s)
                           && (!r.value.already ==> r.value.state.previous == Some(s.active))
  {
  }

  lemma RollbackWellFormed(s: Rollout, expectedActive: string, expectedPrevious: string,
                           readyRevision: Option<string>, build: string, now: int)
    requires WellFormed(s)
    ensures var r := Rollback(s, expectedActive, expectedPrevious, readyRevision, build, now);
            r.Success? ==> WellFormed(r.value.state) && r.value.state.candidate == Some(build)
                           && (r.value.already ==> r.value.state == s)
                           && (!r.value.already ==> Some(r.value.state.active) == s.previous)
  {
  }

  /** Repeating a promotion or a rollback that went through changes nothing and reports
      so, whether or not the connector is still there. */
  lemma RetriesAreNoOps(s: Rollout, expectedActive: string, other: string, ready: Option<string>,
                        ready': Option<string>, build: string, now: int, now': int)
    requires WellFormed(s)
    ensures var p := Promote(s, expectedActive, other, ready, build, now);
            p.Success? ==> Promote(p.value.state, expectedActive, other, ready', build, now') == Success(Change(p.value.state, true))
    ensures var r := Rollback(s, expectedActive, other, ready, build, now);
            r.Success? ==> Rollback(r.value.state, expectedActive, other, ready', build, now') == Success(Change(r.value.state, true))
  {
  }

  /** Promote, roll back, promote again: the same revision runs, with the same one to go
      back to, and the rollback had restored the one that ran before. */
  lemma PromoteRollbackPromote(s: Rollout, build: string, now1: int, now2: int, now3: int)
    requires WellFormed(s) && s.candidate == Some(build)
    ensures var p := Promote(s, s.active, build, Some(build), build, now1);
            && p.Success? && !p.value.already
            && var r := Rollback(p.value.state, build, s.active, Some(s.active), build, now2);
            && r.Success? && !r.value.already && r.value.state.active == s.active && r.value.state.candidate == s.candidate
            && var q := Promote(r.value.state, s.active, build, Some(build), build, now3);
            && q.Success? && !q.value.already
            && q.value.state.active == p.value.state.active && q.value.state.previous == p.value.state.previous
  {
  }
}
