/** Pairings running side by side between any number of nodes.

  The acceptance of a pairing is a transaction that holds the row of its code from
  the moment it spends it; the two sides of a pairing commit at different times, and
  either may never happen. */
module PairingRuns {
  import opened Wrappers
  import opened Signatures
  import opened Pairing

  datatype Phase =
    | Asked
    /** The accepting transaction has spent the code and is still open. */
    | Consuming(consumedAt: int)
    | Answered(answer: Answer)
    | Finished
    | Failed

  datatype Exchange = Exchange(accepter: Id, remoteUrl: string, remoteLaboratory: Id, offer: Offer, phase: Phase)

  datatype CodeKey = CodeKey(node: Id, code: string)

  datatype State = State(
    clock: int,
    nodes: map<Id, NodeState>,
    exchanges: map<Id, Exchange>,
    codeLocks: map<CodeKey, Id>,
    /** The codes spent by committed acceptances, in order. */
    spent: seq<CodeKey>)

  datatype Step =
    | Wait(duration: nat)
    | AddNode(node: Id)
    | IssueCode(key: CodeKey, laboratory: Id, expiresAt: int)
    | Revoke(node: Id, trust: TrustKey)
    | Ask(x: Id, accepter: Id, remoteUrl: string, remoteLaboratory: Id, offer: Offer)
    | Consume(x: Id)
    | CommitAcceptance(x: Id)
    | RollBackAcceptance(x: Id)
    | Finish(x: Id)
    | Abandon(x: Id)

  function KeyOf(e: Exchange): CodeKey {
    CodeKey(e.accepter, e.offer.code)
  }

  predicate Enabled(s: State, step: Step) {
    match step
    case Wait(_) => true
    case AddNode(node) => node !in s.nodes
    case IssueCode(key, _, expiresAt) =>
      key.node in s.nodes && key.code !in s.nodes[key.node].codes && expiresAt > s.clock
    case Revoke(node, trust) => node in s.nodes && trust in s.nodes[node].trusts
    case Ask(x, accepter, _, _, offer) =>
      x !in s.exchanges && accepter in s.nodes && offer.requesterNode in s.nodes && ValidPin(offer.tlsPin)
    case Consume(x) => x in s.exchanges && s.exchanges[x].phase == Asked && KeyOf(s.exchanges[x]) !in s.codeLocks
    case CommitAcceptance(x) => Open(s, x)
    case RollBackAcceptance(x) => Open(s, x)
    case Finish(x) =>
      x in s.exchanges && s.exchanges[x].phase.Answered? && s.exchanges[x].offer.requesterNode in s.nodes
    case Abandon(x) => x in s.exchanges && (s.exchanges[x].phase == Asked || s.exchanges[x].phase.Answered?)
  }

  predicate Open(s: State, x: Id) {
    && x in s.exchanges && s.exchanges[x].phase.Consuming?
    && s.exchanges[x].accepter in s.nodes
    && s.exchanges[x].offer.code in s.nodes[s.exchanges[x].accepter].codes
  }

  function Entered(s: State, x: Id, phase: Phase): State
    requires x in s.exchanges
  {
    s.(exchanges := s.exchanges[x := s.exchanges[x].(phase := phase)])
  }

  function Released(s: State, x: Id): State
    requires x in s.exchanges
  {
    s.(codeLocks := s.codeLocks - {KeyOf(s.exchanges[x])})
  }

  function WithNode(s: State, id: Id, n: NodeState): State {
    s.(nodes := s.nodes[id := n])
  }

  function Apply(s: State, step: Step): State
    requires Enabled(s, step)
  {
    match step
    case Wait(duration) => s.(clock := s.clock + duration)
    case AddNode(node) => WithNode(s, node, NodeState(node, map[], map[], map[]))
    case IssueCode(key, laboratory, expiresAt) =>
      var n := s.nodes[key.node];
      WithNode(s, key.node, n.(codes := n.codes[key.code := Code(laboratory, expiresAt, None)]))
    case Revoke(node, trust) =>
      var n := s.nodes[node];
      WithNode(s, node, n.(trusts := n.trusts[trust := Revoked]))
    case Ask(x, accepter, remoteUrl, remoteLaboratory, offer) =>
      s.(exchanges := s.exchanges[x := Exchange(accepter, remoteUrl, remoteLaboratory, offer, Asked)])
    case Consume(x) =>
      var e := s.exchanges[x];
      if e.accepter !in s.nodes || BlankSecret(e.offer.secret)
         || !Consumable(s.nodes[e.accepter].codes, e.offer.code, s.clock) then Entered(s, x, Failed)
      else Entered(s.(codeLocks := s.codeLocks[KeyOf(e) := x]), x, Consuming(s.clock))
    case CommitAcceptance(x) =>
      var e := s.exchanges[x];
      var n := s.nodes[e.accepter];
      var registered := Registered(Spent(n, e.offer.code, e.phase.consumedAt), e.offer);
      if registered.Failure? then Entered(Released(s, x), x, Failed)
      else
        Entered(Released(WithNode(s.(spent := s.spent + [KeyOf(e)]), e.accepter, registered.value), x), x,
                Answered(AnswerTo(n, e.offer)))
    case RollBackAcceptance(x) => Entered(Released(s, x), x, Failed)
    case Finish(x) =>
      var e := s.exchanges[x];
      var established := Established(s.nodes[e.offer.requesterNode], e.remoteUrl, e.remoteLaboratory, e.offer,
                                     e.phase.answer);
      if established.Failure? then Entered(s, x, Failed)
      else Entered(WithNode(s, e.offer.requesterNode, established.value), x, Finished)
    case Abandon(x) => Entered(s, x, Failed)
  }

  ghost predicate IsRun(states: seq<State>, steps: seq<Step>) {
    && |states| == |steps| + 1
    && states[0].nodes == map[] && states[0].exchanges == map[] && states[0].codeLocks == map[] && states[0].spent == []
    && forall i {:trigger steps[i]} :: 0 <= i < |steps| ==> Follows(states[i], steps[i], states[i + 1])
  }

  ghost predicate Follows(s: State, step: Step, s': State) {
    Enabled(s, step) && s' == Apply(s, step)
  }

  // ---------------------------------------------------------------------------
  // every code is spent once
  // ---------------------------------------------------------------------------

  predicate Unspent(s: State, key: CodeKey) {
    && key.node in s.nodes && key.code in s.nodes[key.node].codes
    && s.nodes[key.node].codes[key.code].consumedAt.None?
  }

  predicate IsSpent(s: State, key: CodeKey) {
    && key.node in s.nodes && key.code in s.nodes[key.node].codes
    && s.nodes[key.node].codes[key.code].consumedAt.Some?
  }

  /** An open acceptance holds the row of its code, which nobody else can have spent. */
  ghost predicate OpenHoldsCode(s: State, x: Id)
    requires x in s.exchanges
  {
    var e := s.exchanges[x];
    e.phase.Consuming? ==> KeyOf(e) in s.codeLocks && s.codeLocks[KeyOf(e)] == x && Unspent(s, KeyOf(e))
  }

  /** What a node has answered is true of the code it was asked with. */
  ghost predicate AnswerFits(s: State, x: Id)
    requires x in s.exchanges
  {
    var e := s.exchanges[x];
    e.phase.Answered? ==> e.phase.answer.node == e.accepter && e.phase.answer.keyVersion == 1
  }

  ghost predicate SpentOnce(s: State) {
    && (forall i :: 0 <= i < |s.spent| ==> IsSpent(s, s.spent[i]))
    && (forall i, j :: 0 <= i < j < |s.spent| ==> s.spent[i] != s.spent[j])
  }

  ghost predicate NodesAreNamed(s: State) {
    && (forall id :: id in s.nodes ==> s.nodes[id].id == id)
    && (forall x :: x in s.exchanges ==>
          s.exchanges[x].accepter in s.nodes && s.exchanges[x].offer.requesterNode in s.nodes)
  }

  ghost predicate Inv(s: State) {
    && NodesAreNamed(s)
    && (forall x :: x in s.exchanges ==> OpenHoldsCode(s, x) && AnswerFits(s, x))
    && SpentOnce(s)
  }

  lemma StepKeepsNames(s: State, step: Step)
    requires NodesAreNamed(s) && Enabled(s, step)
    ensures NodesAreNamed(Apply(s, step))
  {
  }

  lemma StepKeepsLocks(s: State, step: Step, x: Id)
    requires Inv(s) && Enabled(s, step) && x in s.exchanges
    ensures OpenHoldsCode(Apply(s, step), x)
  {
    assert OpenHoldsCode(s, x);
    if step.CommitAcceptance? || step.RollBackAcceptance? {
      assert OpenHoldsCode(s, step.x);
    }
  }

  lemma StepKeepsAnswers(s: State, step: Step, x: Id)
    requires Inv(s) && Enabled(s, step) && x in s.exchanges
    ensures AnswerFits(Apply(s, step), x)
  {
    assert AnswerFits(s, x);
  }

  lemma StepKeepsExchanges(s: State, step: Step)
    requires Inv(s) && Enabled(s, step)
    ensures var s' := Apply(s, step); forall x :: x in s'.exchanges ==> OpenHoldsCode(s', x) && AnswerFits(s', x)
  {
    var s' := Apply(s, step);
    forall x | x in s'.exchanges ensures OpenHoldsCode(s', x) && AnswerFits(s', x) {
      if x in s.exchanges {
        StepKeepsLocks(s, step, x);
        StepKeepsAnswers(s, step, x);
      }
    }
  }

  lemma StepKeepsSpentOnce(s: State, step: Step)
    requires Inv(s) && Enabled(s, step)
    ensures SpentOnce(Apply(s, step))
  {
    var s' := Apply(s, step);
    if step.CommitAcceptance? {
      assert OpenHoldsCode(s, step.x);
    }
    forall i | 0 <= i < |s'.spent| ensures IsSpent(s', s'.spent[i]) {
      if i < |s.spent| {
        assert IsSpent(s, s.spent[i]);
      }
    }
  }

  lemma {:induction false} RunKeepsInv(states: seq<State>, steps: seq<Step>, n: nat)
    requires IsRun(states, steps) && n < |states|
    ensures Inv(states[n])
  {
    if n > 0 {
      RunKeepsInv(states, steps, n - 1);
      assert Follows(states[n - 1], steps[n - 1], states[n]);
      StepKeepsNames(states[n - 1], steps[n - 1]);
      StepKeepsExchanges(states[n - 1], steps[n - 1]);
      StepKeepsSpentOnce(states[n - 1], steps[n - 1]);
    }
  }

  /** However acceptances interleave, roll back or fail, no code is spent by two of them. */
  lemma CodesAreSpentOnce(states: seq<State>, steps: seq<Step>, n: nat, i: nat, j: nat)
    requires IsRun(states, steps) && n < |states| && i < |states[n].spent| && j < |states[n].spent|
    requires states[n].spent[i] == states[n].spent[j]
    ensures i == j
  {
    RunKeepsInv(states, steps, n);
  }

  /** A code that is spent was spent before it expired, and so is one that is being spent. */
  ghost predicate InTime(s: State) {
    && (forall id, code :: id in s.nodes && code in s.nodes[id].codes ==> SpentInTime(s.nodes[id].codes[code]))
    && (forall x :: x in s.exchanges ==> ConsumedInTime(s, s.exchanges[x]))
  }

  predicate SpentInTime(row: Code) {
    row.consumedAt.Some? ==> row.consumedAt.value < row.expiresAt
  }

  predicate ConsumedInTime(s: State, e: Exchange) {
    e.phase.Consuming? ==>
      && e.accepter in s.nodes && e.offer.code in s.nodes[e.accepter].codes
      && e.phase.consumedAt < s.nodes[e.accepter].codes[e.offer.code].expiresAt
  }

  lemma StepKeepsInTime(s: State, step: Step)
    requires Inv(s) && InTime(s) && Enabled(s, step)
    ensures InTime(Apply(s, step))
  {
    var s' := Apply(s, step);
    CodesStayInTime(s, step);
    forall x | x in s'.exchanges ensures ConsumedInTime(s', s'.exchanges[x]) {
      if x in s.exchanges {
        assert ConsumedInTime(s, s.exchanges[x]);
      }
    }
  }

  lemma CodesStayInTime(s: State, step: Step)
    requires Inv(s) && InTime(s) && Enabled(s, step)
    ensures var s' := Apply(s, step);
            forall id, code :: id in s'.nodes && code in s'.nodes[id].codes ==> SpentInTime(s'.nodes[id].codes[code])
  {
    var s' := Apply(s, step);
    if step.CommitAcceptance? {
      assert ConsumedInTime(s, s.exchanges[step.x]);
    }
    forall id, code | id in s'.nodes && code in s'.nodes[id].codes ensures SpentInTime(s'.nodes[id].codes[code]) {
      if id in s.nodes && code in s.nodes[id].codes {
        assert SpentInTime(s.nodes[id].codes[code]);
      }
    }
  }

  lemma {:induction false} RunKeepsInTime(states: seq<State>, steps: seq<Step>, n: nat)
    requires IsRun(states, steps) && n < |states|
    ensures InTime(states[n])
  {
    if n > 0 {
      RunKeepsInTime(states, steps, n - 1);
      RunKeepsInv(states, steps, n - 1);
      assert Follows(states[n - 1], steps[n - 1], states[n]);
      StepKeepsInTime(states[n - 1], steps[n - 1]);
    }
  }

  /** In every run, every code that an acceptance spent was spent before it expired. */
  lemma CodesAreSpentInTime(states: seq<State>, steps: seq<Step>, n: nat, i: nat)
    requires IsRun(states, steps) && n < |states| && i < |states[n].spent|
    ensures var key := states[n].spent[i];
            && key.node in states[n].nodes && key.code in states[n].nodes[key.node].codes
            && var row := states[n].nodes[key.node].codes[key.code];
            row.consumedAt.Some? && row.consumedAt.value < row.expiresAt
  {
    RunKeepsInv(states, steps, n);
    RunKeepsInTime(states, steps, n);
    assert IsSpent(states[n], states[n].spent[i]);
  }

  // ---------------------------------------------------------------------------
  // base URLs
  // ---------------------------------------------------------------------------

  ghost predicate AllRowsFit(s: State) {
    forall id :: id in s.nodes ==> RowsFit(s.nodes[id].remotes)
  }

  lemma StepKeepsRows(s: State, step: Step)
    requires AllRowsFit(s) && Enabled(s, step)
    ensures AllRowsFit(Apply(s, step))
  {
    match step
    case CommitAcceptance(x) =>
      var e := s.exchanges[x];
      assert RowsFit(s.nodes[e.accepter].remotes);
      UpsertKeepsRows(s.nodes[e.accepter].remotes, e.offer.requesterNode, e.offer.requesterUrl, e.offer.secret, None,
                      1);
    case Finish(x) =>
      var e, answer := s.exchanges[x], s.exchanges[x].phase.answer;
      var pin := if answer.tlsPin.Some? then answer.tlsPin else e.offer.tlsPin;
      assert RowsFit(s.nodes[e.offer.requesterNode].remotes);
      UpsertKeepsRows(s.nodes[e.offer.requesterNode].remotes, answer.node, e.remoteUrl, e.offer.secret, pin,
                      answer.keyVersion);
    case _ =>
  }

  /** In every reachable state no node knows two others under one base URL. */
  lemma {:induction false} BaseUrlsAreUnique(states: seq<State>, steps: seq<Step>, n: nat)
    requires IsRun(states, steps) && n < |states|
    ensures AllRowsFit(states[n])
  {
    if n > 0 {
      BaseUrlsAreUnique(states, steps, n - 1);
      assert Follows(states[n - 1], steps[n - 1], states[n]);
      StepKeepsRows(states[n - 1], steps[n - 1]);
    }
  }

  // ---------------------------------------------------------------------------
  // an acceptance that nothing comes in between
  // ---------------------------------------------------------------------------

  /** Run in one go, the steps of an acceptance do what the acceptance does as one transaction: it goes through
    exactly if that succeeds, with the same tables, and leaves all tables alone otherwise. */
  lemma AcceptanceInOneGo(s: State, x: Id)
    requires Enabled(s, Consume(x)) && s.exchanges[x].accepter in s.nodes
    ensures var e := s.exchanges[x];
            var n, consumed := s.nodes[e.accepter], Apply(s, Consume(x));
            var alone := Accepted(n, e.offer, s.clock);
            && consumed.nodes == s.nodes
            && (alone.Success? ==>
                  && Open(consumed, x) && e.offer.code in n.codes
                  && Apply(consumed, CommitAcceptance(x)).nodes == s.nodes[e.accepter := alone.value]
                  && Apply(consumed, CommitAcceptance(x)).exchanges[x].phase == Answered(AnswerTo(n, e.offer))
                  && Apply(consumed, CommitAcceptance(x)).spent == s.spent + [CodeKey(e.accepter, e.offer.code)])
            && (alone.Failure? ==>
                  || consumed.exchanges[x].phase == Failed
                  || (Open(consumed, x) && Apply(consumed, CommitAcceptance(x)).nodes == s.nodes
                      && Apply(consumed, CommitAcceptance(x)).exchanges[x].phase == Failed))
  {
  }
}
