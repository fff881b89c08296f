/** Replay protection: the nonce table and the timestamp window.

  A request is checked against the window when it arrives and spends its nonce
  later, in a separate statement, so any number of other statements and any
  amount of time may lie in between. The window is checked by the server's clock,
  nonces expire by the database's. Both run in microseconds and never go back; what
  they show has nothing to do with each other. */
module Nonces {
  type Id = int

  const SECOND: int := 1_000_000

  datatype Key = Key(node: Id, nonce: string)

  datatype Phase = Checked | Swept | Accepted | Refused

  /** A signed request on its way through verification. `checkedAt` is the server's
    clock at the timestamp check. */
  datatype Inbound = Inbound(key: Key, timestamp: int, checkedAt: int, phase: Phase)

  /** `insertedAt` and `acceptedAt` are the server's and the database's clock at the insert. */
  datatype Acceptance = Acceptance(key: Key, timestamp: int, checkedAt: int, insertedAt: int, acceptedAt: int)

  datatype State = State(
    server: int,
    database: int,
    /** When each remembered nonce expires. */
    nonces: map<Key, int>,
    inbound: map<Id, Inbound>,
    log: seq<Acceptance>)

  datatype Step =
    | Wait(server: nat, database: nat)
    | Arrive(id: Id, key: Key, timestamp: int)
    | DeleteExpired(id: Id)
    | InsertNonce(id: Id)

  function Seconds(clock: int): int {
    clock / SECOND
  }

  predicate InWindow(now: int, timestamp: int, ttl: nat) {
    timestamp - ttl <= now <= timestamp + ttl
  }

  predicate Enabled(s: State, ttl: nat, step: Step) {
    match step
    case Wait(_, _) => true
    case Arrive(id, _, timestamp) => id !in s.inbound && InWindow(Seconds(s.server), timestamp, ttl)
    case DeleteExpired(id) => id in s.inbound && s.inbound[id].phase == Checked
    case InsertNonce(id) => id in s.inbound && s.inbound[id].phase == Swept
  }

  function Entered(s: State, id: Id, phase: Phase): State
    requires id in s.inbound
  {
    s.(inbound := s.inbound[id := s.inbound[id].(phase := phase)])
  }

  function Apply(s: State, ttl: nat, step: Step): State
    requires Enabled(s, ttl, step)
  {
    match step
    case Wait(server, database) => s.(server := s.server + server, database := s.database + database)
    case Arrive(id, key, timestamp) => s.(inbound := s.inbound[id := Inbound(key, timestamp, s.server, Checked)])
    case DeleteExpired(id) =>
      Entered(s.(nonces := map k | k in s.nonces && s.nonces[k] > s.database :: s.nonces[k]), id, Swept)
    case InsertNonce(id) =>
      var request := s.inbound[id];
      if request.key.nonce == "" || request.key in s.nonces then Entered(s, id, Refused)
      else
        Entered(s.(nonces := s.nonces[request.key := s.database + ttl * SECOND],
                   log := s.log + [Acceptance(request.key, request.timestamp, request.checkedAt,
                                              s.server, s.database)]),
                id, Accepted)
  }

  ghost predicate IsRun(states: seq<State>, ttl: nat, steps: seq<Step>) {
    && |states| == |steps| + 1
    && states[0].nonces == map[] && states[0].inbound == map[] && states[0].log == []
    && forall i {:trigger steps[i]} :: 0 <= i < |steps| ==> Follows(states[i], ttl, steps[i], states[i + 1])
  }

  ghost predicate Follows(s: State, ttl: nat, step: Step, s': State) {
    Enabled(s, ttl, step) && s' == Apply(s, ttl, step)
  }

  // ---------------------------------------------------------------------------
  // separation
  // ---------------------------------------------------------------------------

  /** An acceptance is either a full TTL old, or its nonce is still remembered. */
  ghost predicate Remembered(s: State, ttl: nat, a: Acceptance) {
    || a.acceptedAt + ttl * SECOND <= s.database
    || (a.key in s.nonces && s.nonces[a.key] >= a.acceptedAt + ttl * SECOND)
  }

  ghost predicate Separated(log: seq<Acceptance>, ttl: nat) {
    forall i, j :: 0 <= i < j < |log| && log[i].key == log[j].key ==>
                     log[j].acceptedAt >= log[i].acceptedAt + ttl * SECOND
  }

  ghost predicate WasInWindow(a: Acceptance, ttl: nat) {
    InWindow(Seconds(a.checkedAt), a.timestamp, ttl)
  }

  ghost predicate Inv(s: State, ttl: nat) {
    && (forall i :: 0 <= i < |s.log| ==> Remembered(s, ttl, s.log[i]) && WasInWindow(s.log[i], ttl))
    && Separated(s.log, ttl)
    && (forall id :: id in s.inbound ==> InWindow(Seconds(s.inbound[id].checkedAt), s.inbound[id].timestamp, ttl))
  }

  lemma StepKeepsInv(s: State, ttl: nat, step: Step)
    requires Inv(s, ttl) && Enabled(s, ttl, step)
    ensures Inv(Apply(s, ttl, step), ttl)
  {
    var s' := Apply(s, ttl, step);
    forall i | 0 <= i < |s'.log| ensures Remembered(s', ttl, s'.log[i]) && WasInWindow(s'.log[i], ttl) {
      if i < |s.log| {
        assert Remembered(s, ttl, s.log[i]);
      }
    }
    forall i, j | 0 <= i < j < |s'.log| && s'.log[i].key == s'.log[j].key
      ensures s'.log[j].acceptedAt >= s'.log[i].acceptedAt + ttl * SECOND
    {
      if j == |s.log| {
        assert Remembered(s, ttl, s.log[i]);
      }
    }
  }

  lemma {:induction false} RunKeepsInv(states: seq<State>, ttl: nat, steps: seq<Step>, n: nat)
    requires IsRun(states, ttl, steps) && n < |states|
    ensures Inv(states[n], ttl)
  {
    if n > 0 {
      RunKeepsInv(states, ttl, steps, n - 1);
      assert Follows(states[n - 1], ttl, steps[n - 1], states[n]);
      StepKeepsInv(states[n - 1], ttl, steps[n - 1]);
    }
  }

  /** Two acceptances of the same nonce from the same node are at least the TTL apart. */
  lemma NonceSeparation(states: seq<State>, ttl: nat, steps: seq<Step>, n: nat, i: nat, j: nat)
    requires IsRun(states, ttl, steps) && n < |states|
    requires i < j < |states[n].log| && states[n].log[i].key == states[n].log[j].key
    ensures states[n].log[j].acceptedAt >= states[n].log[i].acceptedAt + ttl * SECOND
  {
    RunKeepsInv(states, ttl, steps, n);
  }

  // ---------------------------------------------------------------------------
  // replays
  // ---------------------------------------------------------------------------

  /** How many seconds the request was held up between the timestamp check and the nonce insert. */
  function Held(a: Acceptance): int {
    Seconds(a.insertedAt) - Seconds(a.checkedAt)
  }

  /** How many seconds the database's clock was ahead of the server's. */
  function Ahead(a: Acceptance): int {
    Seconds(a.acceptedAt) - Seconds(a.insertedAt)
  }

  /** For the same signed request to be accepted a second time, the time it was held up and the lead
    of the database's clock together must reach the age the request had when first accepted. */
  lemma ReplayNeedsDelay(states: seq<State>, ttl: nat, steps: seq<Step>, n: nat, i: nat, j: nat)
    requires IsRun(states, ttl, steps) && n < |states| && i < j < |states[n].log|
    requires states[n].log[i].key == states[n].log[j].key && states[n].log[i].timestamp == states[n].log[j].timestamp
    ensures var first, second := states[n].log[i], states[n].log[j];
            Held(second) + Ahead(second) >= Seconds(first.acceptedAt) - first.timestamp
  {
    RunKeepsInv(states, ttl, steps, n);
    var first, second := states[n].log[i], states[n].log[j];
    assert WasInWindow(second, ttl);
    SecondsShift(first.acceptedAt, ttl, second.acceptedAt);
  }

  lemma SecondsShift(a: int, ttl: nat, b: int)
    requires b >= a + ttl * SECOND
    ensures Seconds(b) >= Seconds(a) + ttl
  {
  }

  /** So where check and insert fall into the same second and the database's clock is ahead by no
    more than `skew` seconds, a request stamped earlier than that before the second in which it
    was accepted is never accepted again. */
  lemma NoReplayWithinASecond(states: seq<State>, ttl: nat, steps: seq<Step>, n: nat, i: nat, j: nat, skew: int)
    requires IsRun(states, ttl, steps) && n < |states| && i < j < |states[n].log|
    requires states[n].log[i].key == states[n].log[j].key && states[n].log[i].timestamp == states[n].log[j].timestamp
    requires Held(states[n].log[j]) == 0 && Ahead(states[n].log[j]) <= skew
    ensures states[n].log[i].timestamp >= Seconds(states[n].log[i].acceptedAt) - skew
  {
    ReplayNeedsDelay(states, ttl, steps, n, i, j);
  }

  /** The bound is exact. Take any request accepted at once within its window, the clocks being what they
    may: a copy is accepted again after any delay that reaches the request's age, be it a time that the
    copy is held up or a lead that the database's clock has gained. */
  lemma DelayAllowsReplay(key: Key, timestamp: int, ttl: nat, checkedAt: int, acceptedAt: int, held: nat, ahead: int)
    requires key.nonce != "" && InWindow(Seconds(checkedAt), timestamp, ttl)
    requires held + ahead >= Seconds(acceptedAt) - timestamp
    ensures exists states, steps, n ::
              ReplayIn(states, ttl, steps, n, key, timestamp, checkedAt, acceptedAt, held, ahead)
  {
    var latest := (timestamp + ttl) * SECOND;
    var second := if checkedAt >= latest then checkedAt else latest;
    var due, at := acceptedAt + ttl * SECOND, (timestamp + ttl + held + ahead) * SECOND;
    var again := if due >= at then due else at;
    SecondsOfChoice(checkedAt, timestamp, ttl);
    SecondsOfDue(acceptedAt, ttl, timestamp + ttl + held + ahead);
    var s0 := State(checkedAt, acceptedAt, map[], map[], []);
    var states, steps := Accepting([s0], ttl, [], 1, key, timestamp, 0, 0);
    states, steps := Stepped(states, ttl, steps, Wait(second - checkedAt, 0));
    states, steps := Accepting(states, ttl, steps, 2, key, timestamp, held * SECOND, again - acceptedAt);
    var log := states[|steps|].log;
    assert log[1] == Acceptance(key, timestamp, second, second + held * SECOND, again);
    assert ReplayIn(states, ttl, steps, |steps|, key, timestamp, checkedAt, acceptedAt, held, ahead);
  }

  /** One more step of a run. */
  lemma Stepped(states: seq<State>, ttl: nat, steps: seq<Step>, step: Step)
    returns (states': seq<State>, steps': seq<Step>)
    requires IsRun(states, ttl, steps) && Enabled(states[|steps|], ttl, step)
    ensures IsRun(states', ttl, steps') && |steps'| == |steps| + 1
    ensures states'[|steps'|] == Apply(states[|steps|], ttl, step)
  {
    states', steps' := states + [Apply(states[|steps|], ttl, step)], steps + [step];
    forall i | 0 <= i < |steps'| ensures Follows(states'[i], ttl, steps'[i], states'[i + 1]) {
      if i < |steps| {
        assert Follows(states[i], ttl, steps[i], states[i + 1]);
      }
    }
  }

  /** A request arrives and is accepted once the clocks have moved on. */
  lemma Accepting(states: seq<State>, ttl: nat, steps: seq<Step>, id: Id, key: Key, timestamp: int,
                  server: nat, database: nat)
    returns (states': seq<State>, steps': seq<Step>)
    requires IsRun(states, ttl, steps)
    requires var s := states[|steps|];
             && id !in s.inbound && key.nonce != "" && InWindow(Seconds(s.server), timestamp, ttl)
             && (key in s.nonces ==> s.nonces[key] <= s.database + database)
    ensures IsRun(states', ttl, steps')
    ensures var s, s' := states[|steps|], states'[|steps'|];
            && s'.server == s.server + server && s'.database == s.database + database
            && s'.inbound.Keys == s.inbound.Keys + {id}
            && s'.log == s.log + [Acceptance(key, timestamp, s.server, s'.server, s'.database)]
            && key in s'.nonces && s'.nonces[key] == s'.database + ttl * SECOND
  {
    states', steps' := Stepped(states, ttl, steps, Arrive(id, key, timestamp));
    states', steps' := Stepped(states', ttl, steps', Wait(server, database));
    states', steps' := Stepped(states', ttl, steps', DeleteExpired(id));
    states', steps' := Stepped(states', ttl, steps', InsertNonce(id));
  }

  /** The request is accepted twice: at once at `acceptedAt`, and again with the given delay. */
  ghost predicate ReplayIn(states: seq<State>, ttl: nat, steps: seq<Step>, n: nat, key: Key, timestamp: int,
                           checkedAt: int, acceptedAt: int, held: nat, ahead: int)
  {
    && IsRun(states, ttl, steps) && n < |states| && |states[n].log| == 2
    && states[n].log[0] == Acceptance(key, timestamp, checkedAt, checkedAt, acceptedAt)
    && states[n].log[1].key == key && states[n].log[1].timestamp == timestamp
    && Held(states[n].log[1]) == held && Ahead(states[n].log[1]) == ahead
  }

  lemma SecondsOfChoice(checkedAt: int, timestamp: int, ttl: nat)
    requires InWindow(Seconds(checkedAt), timestamp, ttl)
    ensures var latest := (timestamp + ttl) * SECOND;
            Seconds(if checkedAt >= latest then checkedAt else latest) == timestamp + ttl
  {
  }

  lemma SecondsOfDue(acceptedAt: int, ttl: nat, second: int)
    requires second >= Seconds(acceptedAt) + ttl
    ensures var due := acceptedAt + ttl * SECOND;
            Seconds(if due >= second * SECOND then due else second * SECOND) == second
  {
  }
}
