/** Idempotency keys: a request is processed once per (user, key), and whoever
  repeats it is answered with the saved response.

  Callers interleave freely. The insert of a key row waits for another open
  transaction holding the same key and is a no-op where the row is committed;
  rows written in a transaction show to others only after its commit. */
module Idempotency {
  import opened Wrappers

  type Id = int

  datatype Response = Response(status: nat, headers: seq<(string, seq<bv8>)>, body: seq<bv8>)

  datatype Key = Key(user: Id, idempotencyKey: string)

  datatype Phase =
    | Arrived
    /** Inserted the key row, and owns the open transaction. */
    | Processing
    /** Wrote the response into its own, still uncommitted row. */
    | ResponseWritten(response: Response)
    | Committed(response: Response)
    | RolledBack
    /** The insert was a no-op. */
    | Repeated
    | Answered(response: Response)
    /** The saved response the caller was promised was not there. */
    | ResponseMissing

  datatype Caller = Caller(key: Key, phase: Phase)

  datatype Commitment = Commitment(key: Key, caller: Id, response: Response)

  datatype State = State(
    /** The committed rows; the response column is null until it is saved. */
    rows: map<Key, Option<Response>>,
    /** The rows inserted by transactions that are still open. */
    openRows: map<Key, Id>,
    callers: map<Id, Caller>,
    commits: seq<Commitment>)

  datatype Step =
    | Arrive(caller: Id, key: Key)
    | Insert(caller: Id)
    | WriteResponse(caller: Id, response: Response)
    | Commit(caller: Id)
    | RollBack(caller: Id)
    | FetchSaved(caller: Id)

  predicate Open(phase: Phase) {
    phase.Processing? || phase.ResponseWritten?
  }

  predicate Enabled(s: State, step: Step) {
    if step.Arrive? then step.caller !in s.callers
    else
      && step.caller in s.callers
      && var caller := s.callers[step.caller];
      match step
      case Arrive(_, _) => true
      case Insert(_) => caller.phase == Arrived && caller.key !in s.openRows
      case WriteResponse(_, _) => caller.phase == Processing
      case Commit(_) => caller.phase.ResponseWritten?
      case RollBack(_) => Open(caller.phase)
      case FetchSaved(_) => caller.phase == Repeated
  }

  function Entered(s: State, id: Id, phase: Phase): State
    requires id in s.callers
  {
    s.(callers := s.callers[id := s.callers[id].(phase := phase)])
  }

  function Apply(s: State, step: Step): State
    requires Enabled(s, step)
  {
    match step
    case Arrive(id, key) => s.(callers := s.callers[id := Caller(key, Arrived)])
    case Insert(id) =>
      var key := s.callers[id].key;
      if key in s.rows then Entered(s, id, Repeated)
      else Entered(s.(openRows := s.openRows[key := id]), id, Processing)
    case WriteResponse(id, response) => Entered(s, id, ResponseWritten(response))
    case Commit(id) =>
      var key, response := s.callers[id].key, s.callers[id].phase.response;
      Entered(s.(rows := s.rows[key := Some(response)],
                 openRows := s.openRows - {key},
                 commits := s.commits + [Commitment(key, id, response)]),
              id, Committed(response))
    case RollBack(id) => Entered(s.(openRows := s.openRows - {s.callers[id].key}), id, RolledBack)
    case FetchSaved(id) =>
      var key := s.callers[id].key;
      if key in s.rows && s.rows[key].Some? then Entered(s, id, Answered(s.rows[key].value))
      else Entered(s, id, ResponseMissing)
  }

  const INITIAL: State := State(map[], map[], map[], [])

  ghost predicate IsRun(states: seq<State>, steps: seq<Step>) {
    && |states| == |steps| + 1
    && states[0] == INITIAL
    && forall i {:trigger steps[i]} :: 0 <= i < |steps| ==> Follows(states[i], steps[i], states[i + 1])
  }

  ghost predicate Follows(s: State, step: Step, s': State) {
    Enabled(s, step) && s' == Apply(s, step)
  }

  // ---------------------------------------------------------------------------
  // the invariant
  // ---------------------------------------------------------------------------

  /** The committed rows are exactly the commitments, one row per commitment. */
  ghost predicate RowsAreCommitments(s: State) {
    && (forall i :: 0 <= i < |s.commits| ==>
          s.commits[i].key in s.rows && s.rows[s.commits[i].key] == Some(s.commits[i].response))
    && (forall key :: key in s.rows ==> s.rows[key].Some?)
    && (forall i, j :: 0 <= i < j < |s.commits| ==> s.commits[i].key != s.commits[j].key)
  }

  ghost predicate CallerFits(s: State, id: Id)
    requires id in s.callers
  {
    var key := s.callers[id].key;
    match s.callers[id].phase
    case Arrived => true
    case Processing => key in s.openRows && s.openRows[key] == id
    case ResponseWritten(_) => key in s.openRows && s.openRows[key] == id
    case Committed(response) => key in s.rows && s.rows[key] == Some(response)
    case RolledBack => true
    case Repeated => key in s.rows
    case Answered(response) => key in s.rows && s.rows[key] == Some(response)
    case ResponseMissing => false
  }

  ghost predicate Inv(s: State) {
    && RowsAreCommitments(s)
    && (forall id :: id in s.callers ==> CallerFits(s, id))
    && (forall key :: key in s.openRows ==>
          key !in s.rows && s.openRows[key] in s.callers && s.callers[s.openRows[key]].key == key)
  }

  lemma StepKeepsInv(s: State, step: Step)
    requires Inv(s) && Enabled(s, step)
    ensures Inv(Apply(s, step))
  {
    var s' := Apply(s, step);
    if step.caller in s.callers {
      assert CallerFits(s, step.caller);
    }
    forall id | id in s'.callers ensures CallerFits(s', id) {
      if id in s.callers {
        assert CallerFits(s, id);
      }
    }
  }

  lemma {:induction false} RunKeepsInv(states: seq<State>, steps: seq<Step>, n: nat)
    requires IsRun(states, steps) && n < |states|
    ensures Inv(states[n])
  {
    if n > 0 {
      RunKeepsInv(states, steps, n - 1);
      assert Follows(states[n - 1], steps[n - 1], states[n]);
      StepKeepsInv(states[n - 1], steps[n - 1]);
    }
  }

  // ---------------------------------------------------------------------------
  // exactly once
  // ---------------------------------------------------------------------------

  /** At most one processing transaction commits per key. */
  lemma CommitsAtMostOnce(states: seq<State>, steps: seq<Step>, n: nat, i: nat, j: nat)
    requires IsRun(states, steps) && n < |states|
    requires i < |states[n].commits| && j < |states[n].commits| && states[n].commits[i].key == states[n].commits[j].key
    ensures i == j
  {
    RunKeepsInv(states, steps, n);
  }

  /** Never are two transactions processing the same key. */
  lemma ProcessingIsExclusive(states: seq<State>, steps: seq<Step>, n: nat, a: Id, b: Id)
    requires IsRun(states, steps) && n < |states|
    requires a in states[n].callers && b in states[n].callers && states[n].callers[a].key == states[n].callers[b].key
    requires states[n].callers[a].phase.Processing? || states[n].callers[a].phase.ResponseWritten?
    requires states[n].callers[b].phase.Processing? || states[n].callers[b].phase.ResponseWritten?
    ensures a == b
  {
    RunKeepsInv(states, steps, n);
    assert CallerFits(states[n], a) && CallerFits(states[n], b);
  }

  lemma {:induction false} CommitsArePermanent(states: seq<State>, steps: seq<Step>, m: nat, n: nat)
    requires IsRun(states, steps) && m <= n < |states|
    ensures states[m].commits <= states[n].commits
  {
    if m < n {
      CommitsArePermanent(states, steps, m, n - 1);
      assert Follows(states[n - 1], steps[n - 1], states[n]);
    }
  }

  /** Everybody who is answered, at whatever time, gets the response of the one commit. */
  lemma AnswersAreTheCommittedResponse(states: seq<State>, steps: seq<Step>, m: nat, n: nat, i: nat, id: Id)
    requires IsRun(states, steps) && m < |states| && n < |states|
    requires i < |states[m].commits|
    requires id in states[n].callers && states[n].callers[id].key == states[m].commits[i].key
    requires states[n].callers[id].phase.Answered? || states[n].callers[id].phase.Committed?
    ensures states[n].callers[id].phase.response == states[m].commits[i].response
  {
    var last := if m < n then n else m;
    RunKeepsInv(states, steps, n);
    RunKeepsInv(states, steps, last);
    CommitsArePermanent(states, steps, m, last);
    PhasesArePermanent(states, steps, n, last, id);
    assert CallerFits(states[last], id);
    assert states[last].commits[i] == states[m].commits[i];
  }

  lemma {:induction false} PhasesArePermanent(states: seq<State>, steps: seq<Step>, m: nat, n: nat, id: Id)
    requires IsRun(states, steps) && m <= n < |states|
    requires id in states[m].callers
    requires states[m].callers[id].phase.Answered? || states[m].callers[id].phase.Committed?
    ensures id in states[n].callers && states[n].callers[id] == states[m].callers[id]
  {
    if m < n {
      PhasesArePermanent(states, steps, m, n - 1, id);
      assert Follows(states[n - 1], steps[n - 1], states[n]);
    }
  }

  /** "We expected a saved response" never happens, and an answer always rests on a commit. */
  lemma SavedResponseIsThere(states: seq<State>, steps: seq<Step>, n: nat, id: Id)
    requires IsRun(states, steps) && n < |states| && id in states[n].callers
    ensures !states[n].callers[id].phase.ResponseMissing?
    ensures states[n].callers[id].phase.Answered? ==>
              exists i :: 0 <= i < |states[n].commits| && states[n].commits[i].key == states[n].callers[id].key
                          && states[n].commits[i].response == states[n].callers[id].phase.response
  {
    RunKeepsInv(states, steps, n);
    RowsComeFromCommits(states, steps, n);
    assert CallerFits(states[n], id);
  }

  lemma {:induction false} RowsComeFromCommits(states: seq<State>, steps: seq<Step>, n: nat)
    requires IsRun(states, steps) && n < |states|
    ensures forall key :: key in states[n].rows ==>
              exists i :: 0 <= i < |states[n].commits| && states[n].commits[i].key == key
                          && states[n].rows[key] == Some(states[n].commits[i].response)
  {
    if n > 0 {
      RowsComeFromCommits(states, steps, n - 1);
      var s, s' := states[n - 1], states[n];
      RunKeepsInv(states, steps, n - 1);
      assert Follows(s, steps[n - 1], s');
      forall key | key in s'.rows
        ensures exists i :: 0 <= i < |s'.commits| && s'.commits[i].key == key
                            && s'.rows[key] == Some(s'.commits[i].response)
      {
        if key in s.rows && s'.rows[key] == s.rows[key] {
          var i :| 0 <= i < |s.commits| && s.commits[i].key == key && s.rows[key] == Some(s.commits[i].response);
          assert s'.commits[i] == s.commits[i];
        } else {
          assert s'.commits[|s.commits|].key == key;
        }
      }
    }
  }

  // ---------------------------------------------------------------------------
  // what is answered, and that it can be
  // ---------------------------------------------------------------------------

  /** The response was handed over for saving by the caller, in some step before `n`. */
  ghost predicate WasWritten(steps: seq<Step>, n: nat, caller: Id, response: Response)
    requires n <= |steps|
  {
    exists k :: 0 <= k < n && steps[k] == WriteResponse(caller, response)
  }

  lemma {:induction false} ResponsesWereWritten(states: seq<State>, steps: seq<Step>, n: nat)
    requires IsRun(states, steps) && n < |states|
    ensures forall id :: id in states[n].callers && states[n].callers[id].phase.ResponseWritten? ==>
              WasWritten(steps, n, id, states[n].callers[id].phase.response)
    ensures forall i :: 0 <= i < |states[n].commits| ==>
              WasWritten(steps, n, states[n].commits[i].caller, states[n].commits[i].response)
  {
    if n > 0 {
      ResponsesWereWritten(states, steps, n - 1);
      var s, step, s' := states[n - 1], steps[n - 1], states[n];
      assert Follows(s, step, s');
      forall id, response | WasWritten(steps, n - 1, id, response) ensures WasWritten(steps, n, id, response) {
        var k :| 0 <= k < n - 1 && steps[k] == WriteResponse(id, response);
      }
      forall id | id in s'.callers && s'.callers[id].phase.ResponseWritten?
        ensures WasWritten(steps, n, id, s'.callers[id].phase.response)
      {
        if step.WriteResponse? && step.caller == id {
          assert steps[n - 1] == WriteResponse(id, s'.callers[id].phase.response);
        } else {
          assert WasWritten(steps, n - 1, id, s.callers[id].phase.response);
        }
      }
      forall i | 0 <= i < |s'.commits| ensures WasWritten(steps, n, s'.commits[i].caller, s'.commits[i].response) {
        if i < |s.commits| {
          assert WasWritten(steps, n - 1, s.commits[i].caller, s.commits[i].response);
        } else {
          assert WasWritten(steps, n - 1, step.caller, s.callers[step.caller].phase.response);
        }
      }
    }
  }

  /** What is committed, and so what every later caller is answered, is what the processing caller handed over. */
  lemma CommittedWasWritten(states: seq<State>, steps: seq<Step>, n: nat, i: nat)
    requires IsRun(states, steps) && n < |states| && i < |states[n].commits|
    ensures var commit := states[n].commits[i];
            exists k :: 0 <= k < n && steps[k] == WriteResponse(commit.caller, commit.response)
  {
    ResponsesWereWritten(states, steps, n);
    assert WasWritten(steps, n, states[n].commits[i].caller, states[n].commits[i].response);
  }

  /** A rollback leaves nothing behind: the key is neither taken nor processed. */
  lemma RollBackFreesKey(states: seq<State>, steps: seq<Step>, n: nat, id: Id)
    requires IsRun(states, steps) && n < |steps| && steps[n] == RollBack(id)
    ensures id in states[n].callers
    ensures states[n].callers[id].key !in states[n + 1].openRows && states[n].callers[id].key !in states[n + 1].rows
  {
    RunKeepsInv(states, steps, n);
    assert Follows(states[n], steps[n], states[n + 1]);
    assert CallerFits(states[n], id);
  }

  lemma Stepped(states: seq<State>, steps: seq<Step>, step: Step)
    returns (states': seq<State>, steps': seq<Step>)
    requires IsRun(states, steps) && Enabled(states[|steps|], step)
    ensures IsRun(states', steps') && |steps'| == |steps| + 1
    ensures states'[|steps'|] == Apply(states[|steps|], step)
  {
    states', steps' := states + [Apply(states[|steps|], step)], steps + [step];
    forall i {:trigger steps'[i]} | 0 <= i < |steps'| ensures Follows(states'[i], steps'[i], states'[i + 1]) {
      if i < |steps| {
        assert Follows(states[i], steps[i], states[i + 1]);
      }
    }
  }

  /** Whatever has happened before: where the key is free, a new caller processes the request and saves its response,
    and the next one is answered with it. */
  lemma FreeKeyIsProcessed(states: seq<State>, steps: seq<Step>, key: Key, first: Id, second: Id, response: Response)
    returns (states': seq<State>, steps': seq<Step>)
    requires IsRun(states, steps) && first != second
    requires var s := states[|steps|];
             key !in s.rows && key !in s.openRows && first !in s.callers && second !in s.callers
    ensures IsRun(states', steps')
    ensures var s, s' := states[|steps|], states'[|steps'|];
            && s'.rows == s.rows[key := Some(response)]
            && s'.commits == s.commits + [Commitment(key, first, response)]
            && first in s'.callers && s'.callers[first] == Caller(key, Committed(response))
            && second in s'.callers && s'.callers[second] == Caller(key, Answered(response))
  {
    states', steps' := Stepped(states, steps, Arrive(first, key));
    states', steps' := Stepped(states', steps', Insert(first));
    states', steps' := Stepped(states', steps', WriteResponse(first, response));
    states', steps' := Stepped(states', steps', Commit(first));
    states', steps' := Stepped(states', steps', Arrive(second, key));
    states', steps' := Stepped(states', steps', Insert(second));
    states', steps' := Stepped(states', steps', FetchSaved(second));
  }
}
