/** When two nodes agree, told from the steps of a run alone.

  Every completed half of a pairing overwrites one row, the one a node keeps of the
  other, and activates one trust. So what counts is who wrote each row last, and
  whether each trust was revoked after it was last activated. */
module PairingAgreement {
  import opened Wrappers
  import opened Signatures
  import opened Pairing
  import opened PairingRuns

  /** The step is the half of a pairing that succeeds in writing the row `node` keeps of `other`. */
  predicate Writes(s: State, step: Step, node: Id, other: Id) {
    Enabled(s, step) &&
    match step
    case CommitAcceptance(x) =>
      && s.exchanges[x].accepter == node && s.exchanges[x].offer.requesterNode == other
      && Apply(s, step).exchanges[x].phase.Answered?
    case Finish(x) =>
      && s.exchanges[x].offer.requesterNode == node && s.exchanges[x].accepter == other
      && Apply(s, step).exchanges[x].phase == Finished
    case _ => false
  }

  /** ... and in activating this trust of `node`. */
  predicate Activates(s: State, step: Step, node: Id, trust: TrustKey) {
    Writes(s, step, node, trust.remoteNode) &&
    match step
    case CommitAcceptance(x) =>
      && trust.laboratory == s.nodes[node].codes[s.exchanges[x].offer.code].laboratory
      && trust.remoteLaboratory == s.exchanges[x].offer.requesterLaboratory
    case Finish(x) =>
      && trust.laboratory == s.exchanges[x].offer.requesterLaboratory
      && trust.remoteLaboratory == s.exchanges[x].remoteLaboratory
    case _ => false
  }

  ghost function LastWriter(states: seq<State>, steps: seq<Step>, node: Id, other: Id, n: nat): Option<Id>
    requires n <= |steps| && n <= |states|
  {
    if n == 0 then None
    else if Writes(states[n - 1], steps[n - 1], node, other) then Some(steps[n - 1].x)
    else LastWriter(states, steps, node, other, n - 1)
  }

  ghost predicate TrustOn(states: seq<State>, steps: seq<Step>, node: Id, trust: TrustKey, n: nat)
    requires n <= |steps| && n <= |states|
  {
    if n == 0 then false
    else if Activates(states[n - 1], steps[n - 1], node, trust) then true
    else if steps[n - 1] == Revoke(node, trust) then false
    else TrustOn(states, steps, node, trust, n - 1)
  }

  // ---------------------------------------------------------------------------
  // rows and trusts are what the last step made of them
  // ---------------------------------------------------------------------------

  ghost predicate RowIsFrom(s: State, node: Id, other: Id, writer: Option<Id>) {
    match writer
    case None => node in s.nodes ==> other !in s.nodes[node].remotes
    case Some(x) =>
      && x in s.exchanges && node in s.nodes && other in s.nodes[node].remotes
      && var row := s.nodes[node].remotes[other];
      && row.secret == s.exchanges[x].offer.secret && row.status == Active && row.keyVersion == 1
  }

  lemma AcceptanceWritesRow(s: State, x: Id, node: Id, other: Id, writer: Option<Id>)
    requires Inv(s) && Enabled(s, CommitAcceptance(x)) && RowIsFrom(s, node, other, writer)
    ensures RowIsFrom(Apply(s, CommitAcceptance(x)), node, other,
                      if Writes(s, CommitAcceptance(x), node, other) then Some(x) else writer)
  {
  }

  lemma FinishWritesRow(s: State, x: Id, node: Id, other: Id, writer: Option<Id>)
    requires Inv(s) && Enabled(s, Finish(x)) && RowIsFrom(s, node, other, writer)
    ensures RowIsFrom(Apply(s, Finish(x)), node, other, if Writes(s, Finish(x), node, other) then Some(x) else writer)
  {
    assert AnswerFits(s, x);
  }

  lemma StepWritesRow(s: State, step: Step, node: Id, other: Id, writer: Option<Id>)
    requires Inv(s) && Enabled(s, step) && RowIsFrom(s, node, other, writer)
    ensures RowIsFrom(Apply(s, step), node, other, if Writes(s, step, node, other) then Some(step.x) else writer)
  {
    match step
    case CommitAcceptance(x) => AcceptanceWritesRow(s, x, node, other, writer);
    case Finish(x) => FinishWritesRow(s, x, node, other, writer);
    case _ =>
  }

  lemma {:induction false} RowIsFromLastWriter(states: seq<State>, steps: seq<Step>, node: Id, other: Id, n: nat)
    requires IsRun(states, steps) && n < |states|
    ensures RowIsFrom(states[n], node, other, LastWriter(states, steps, node, other, n))
  {
    if n > 0 {
      RowIsFromLastWriter(states, steps, node, other, n - 1);
      RunKeepsInv(states, steps, n - 1);
      assert Follows(states[n - 1], steps[n - 1], states[n]);
      StepWritesRow(states[n - 1], steps[n - 1], node, other, LastWriter(states, steps, node, other, n - 1));
    }
  }

  predicate HasTrust(s: State, node: Id, trust: TrustKey) {
    node in s.nodes && trust in s.nodes[node].trusts && s.nodes[node].trusts[trust] == Active
  }

  lemma StepSwitchesTrust(s: State, step: Step, node: Id, trust: TrustKey)
    requires Inv(s) && Enabled(s, step)
    ensures HasTrust(Apply(s, step), node, trust) <==>
            Activates(s, step, node, trust) || (step != Revoke(node, trust) && HasTrust(s, node, trust))
  {
    if step.Finish? {
      assert AnswerFits(s, step.x);
    }
  }

  lemma {:induction false} TrustIsAsSwitched(states: seq<State>, steps: seq<Step>, node: Id, trust: TrustKey, n: nat)
    requires IsRun(states, steps) && n < |states|
    ensures HasTrust(states[n], node, trust) <==> TrustOn(states, steps, node, trust, n)
  {
    if n > 0 {
      TrustIsAsSwitched(states, steps, node, trust, n - 1);
      RunKeepsInv(states, steps, n - 1);
      assert Follows(states[n - 1], steps[n - 1], states[n]);
      StepSwitchesTrust(states[n - 1], steps[n - 1], node, trust);
    }
  }

  // ---------------------------------------------------------------------------
  // the exact condition
  // ---------------------------------------------------------------------------

  /** The two rows were last written by exchanges that offered the same secret. */
  ghost predicate SameSecret(s: State, a: Option<Id>, b: Option<Id>) {
    && a.Some? && a.value in s.exchanges && b.Some? && b.value in s.exchanges
    && s.exchanges[a.value].offer.secret == s.exchanges[b.value].offer.secret
  }

  /** One side of a pairing stands exactly if its row was last written under that secret and its trust is on. */
  lemma SideStandsExactly(states: seq<State>, steps: seq<Step>, n: nat, node: Id, laboratory: Id, other: Id,
                          otherLaboratory: Id, secret: string)
    requires IsRun(states, steps) && n < |states| && node in states[n].nodes
    ensures var writer := LastWriter(states, steps, node, other, n);
            Stands(states[n].nodes[node], laboratory, other, otherLaboratory, secret, 1) <==>
            && writer.Some? && writer.value in states[n].exchanges
            && states[n].exchanges[writer.value].offer.secret == secret
            && TrustOn(states, steps, node, TrustKey(laboratory, other, otherLaboratory), n)
  {
    RowIsFromLastWriter(states, steps, node, other, n);
    TrustIsAsSwitched(states, steps, node, TrustKey(laboratory, other, otherLaboratory), n);
  }

  /** Two nodes agree exactly if each one's row of the other was last written under the same secret,
    and each one's trust was activated and not revoked since. In any run, whatever overlaps. */
  lemma AgreementIsExact(states: seq<State>, steps: seq<Step>, n: nat, a: Id, la: Id, b: Id, lb: Id)
    requires IsRun(states, steps) && n < |states| && a in states[n].nodes && b in states[n].nodes
    ensures Agree(states[n].nodes[a], la, states[n].nodes[b], lb) <==>
            && SameSecret(states[n], LastWriter(states, steps, a, b, n), LastWriter(states, steps, b, a, n))
            && TrustOn(states, steps, a, TrustKey(la, b, lb), n)
            && TrustOn(states, steps, b, TrustKey(lb, a, la), n)
  {
    RunKeepsInv(states, steps, n);
    RowIsFromLastWriter(states, steps, a, b, n);
    RowIsFromLastWriter(states, steps, b, a, n);
    TrustIsAsSwitched(states, steps, a, TrustKey(la, b, lb), n);
    TrustIsAsSwitched(states, steps, b, TrustKey(lb, a, la), n);
    var mine, theirs := states[n].nodes[a], states[n].nodes[b];
    if SameSecret(states[n], LastWriter(states, steps, a, b, n), LastWriter(states, steps, b, a, n))
       && HasTrust(states[n], a, TrustKey(la, b, lb)) && HasTrust(states[n], b, TrustKey(lb, a, la)) {
      assert Stands(mine, la, b, lb, mine.remotes[b].secret, 1) && Stands(theirs, lb, a, la, mine.remotes[b].secret, 1);
    }
  }

  /** Secrets are drawn at random: no two exchanges offer the same. */
  ghost predicate DistinctSecrets(s: State) {
    forall x, y :: x in s.exchanges && y in s.exchanges && SecretsMatch(s.exchanges[x], s.exchanges[y]) ==> x == y
  }

  predicate SecretsMatch(a: Exchange, b: Exchange) {
    a.offer.secret == b.offer.secret
  }

  /** With distinct secrets: the two rows must have been written last by one and the same exchange. */
  lemma AgreementHasOneWriter(states: seq<State>, steps: seq<Step>, n: nat, a: Id, la: Id, b: Id, lb: Id)
    requires IsRun(states, steps) && n < |states| && a in states[n].nodes && b in states[n].nodes
    requires DistinctSecrets(states[n])
    ensures Agree(states[n].nodes[a], la, states[n].nodes[b], lb) <==>
            && LastWriter(states, steps, a, b, n).Some?
            && LastWriter(states, steps, a, b, n) == LastWriter(states, steps, b, a, n)
            && TrustOn(states, steps, a, TrustKey(la, b, lb), n)
            && TrustOn(states, steps, b, TrustKey(lb, a, la), n)
  {
    AgreementIsExact(states, steps, n, a, la, b, lb);
    RowIsFromLastWriter(states, steps, a, b, n);
    RowIsFromLastWriter(states, steps, b, a, n);
    var x := LastWriter(states, steps, a, b, n);
    if x.Some? && x.value in states[n].exchanges {
      SecretTellsWriter(states[n], x.value, LastWriter(states, steps, b, a, n));
    }
  }

  // ---------------------------------------------------------------------------
  // a completed pairing, and what comes in between
  // ---------------------------------------------------------------------------

  predicate SameTerms(a: Exchange, b: Exchange) {
    && a.accepter == b.accepter && a.remoteUrl == b.remoteUrl
    && a.remoteLaboratory == b.remoteLaboratory && a.offer == b.offer
  }

  lemma StepKeepsTerms(s: State, step: Step, x: Id)
    requires Enabled(s, step) && x in s.exchanges
    ensures x in Apply(s, step).exchanges && SameTerms(Apply(s, step).exchanges[x], s.exchanges[x])
    ensures Over(s.exchanges[x].phase) ==> Apply(s, step).exchanges[x].phase == s.exchanges[x].phase
    ensures s.exchanges[x].phase.Answered? ==>
              var after := Apply(s, step).exchanges[x].phase;
              after == s.exchanges[x].phase || Over(after)
    ensures s.exchanges[x].phase.Answered? && step != Finish(x) ==> Apply(s, step).exchanges[x].phase != Finished
  {
  }

  predicate Over(phase: Phase) {
    phase == Failed || phase == Finished
  }

  /** From `m` to `n` the exchange keeps its terms; an answer it has it keeps until it is over, and
    then it stays over. */
  lemma {:induction false} TermsArePermanent(states: seq<State>, steps: seq<Step>, x: Id, m: nat, n: nat)
    requires IsRun(states, steps) && m <= n < |states| && x in states[m].exchanges
    ensures x in states[n].exchanges && SameTerms(states[m].exchanges[x], states[n].exchanges[x])
    ensures var phase, after := states[m].exchanges[x].phase, states[n].exchanges[x].phase;
            && (Over(phase) ==> after == phase)
            && (phase.Answered? ==> after == phase || Over(after))
  {
    if m < n {
      TermsArePermanent(states, steps, x, m, n - 1);
      assert Follows(states[n - 1], steps[n - 1], states[n]);
      StepKeepsTerms(states[n - 1], steps[n - 1], x);
    }
  }

  /** The trust that the accepting side of an exchange grants, once the exchange is completed. */
  function AcceptersTrust(e: Exchange): TrustKey {
    TrustKey(e.remoteLaboratory, e.offer.requesterNode, e.offer.requesterLaboratory)
  }

  function RequestersTrust(e: Exchange): TrustKey {
    TrustKey(e.offer.requesterLaboratory, e.accepter, e.remoteLaboratory)
  }

  /** Both sides hold what the exchange was about. */
  ghost predicate BothSidesStand(s: State, x: Id) {
    && x in s.exchanges
    && var e := s.exchanges[x];
    && e.accepter in s.nodes && e.offer.requesterNode in s.nodes
    && Stands(s.nodes[e.accepter], e.remoteLaboratory, e.offer.requesterNode, e.offer.requesterLaboratory,
              e.offer.secret, 1)
    && Stands(s.nodes[e.offer.requesterNode], e.offer.requesterLaboratory, e.accepter, e.remoteLaboratory,
              e.offer.secret, 1)
  }

  /** Exchange `x` is accepted by step `i` and completed by step `j`. */
  ghost predicate Completed(states: seq<State>, steps: seq<Step>, x: Id, i: nat, j: nat) {
    && i < j < |steps| && |states| == |steps| + 1
    && steps[i] == CommitAcceptance(x) && steps[j] == Finish(x)
    && x in states[j + 1].exchanges && states[j + 1].exchanges[x].phase == Finished
  }

  lemma CompletedWrites(states: seq<State>, steps: seq<Step>, x: Id, i: nat, j: nat)
    requires IsRun(states, steps) && Completed(states, steps, x, i, j)
    ensures x in states[i].exchanges && x in states[j].exchanges
    ensures SameTerms(states[i].exchanges[x], states[j + 1].exchanges[x])
    ensures var e := states[j + 1].exchanges[x];
            && Activates(states[i], steps[i], e.accepter, AcceptersTrust(e))
            && Activates(states[j], steps[j], e.offer.requesterNode, RequestersTrust(e))
  {
    assert Follows(states[i], steps[i], states[i + 1]) && Follows(states[j], steps[j], states[j + 1]);
    RunKeepsInv(states, steps, j);
    assert AnswerFits(states[j], x);
    StepKeepsTerms(states[i], steps[i], x);
    TermsArePermanent(states, steps, x, i + 1, j);
    StepKeepsTerms(states[j], steps[j], x);
  }

  // ---------------------------------------------------------------------------
  // from one write on
  // ---------------------------------------------------------------------------

  /** From step `m` up to `n`, nobody but `x` writes the row. */
  ghost predicate NoForeignWrite(states: seq<State>, steps: seq<Step>, x: Id, node: Id, other: Id, m: nat, n: nat)
    requires n <= |steps| && n <= |states|
  {
    forall k {:trigger steps[k]} :: m <= k < n && Writes(states[k], steps[k], node, other) ==> steps[k].x == x
  }

  ghost predicate NoOwnWrite(states: seq<State>, steps: seq<Step>, x: Id, node: Id, other: Id, m: nat, n: nat)
    requires n <= |steps| && n <= |states|
  {
    forall k {:trigger steps[k]} :: m <= k < n && Writes(states[k], steps[k], node, other) ==> steps[k].x != x
  }

  ghost predicate NoRevocation(steps: seq<Step>, node: Id, trust: TrustKey, m: nat, n: nat)
    requires n <= |steps|
  {
    forall k :: m <= k < n ==> steps[k] != Revoke(node, trust)
  }

  lemma {:induction false} WriterStays(states: seq<State>, steps: seq<Step>, x: Id, node: Id, other: Id, m: nat, n: nat)
    requires m <= n <= |steps| && n <= |states|
    requires LastWriter(states, steps, node, other, m) == Some(x) && NoForeignWrite(states, steps, x, node, other, m, n)
    ensures LastWriter(states, steps, node, other, n) == Some(x)
  {
    if m < n {
      WriterStays(states, steps, x, node, other, m, n - 1);
    }
  }

  lemma {:induction false} WriterIsGone(states: seq<State>, steps: seq<Step>, x: Id, node: Id, other: Id, m: nat,
                                       n: nat)
    requires m <= n <= |steps| && n <= |states|
    requires LastWriter(states, steps, node, other, m) != Some(x) && NoOwnWrite(states, steps, x, node, other, m, n)
    ensures LastWriter(states, steps, node, other, n) != Some(x)
  {
    if m < n {
      WriterIsGone(states, steps, x, node, other, m, n - 1);
    }
  }

  lemma {:induction false} TrustStays(states: seq<State>, steps: seq<Step>, node: Id, trust: TrustKey, m: nat, n: nat)
    requires m <= n <= |steps| && n <= |states|
    requires TrustOn(states, steps, node, trust, m) && NoRevocation(steps, node, trust, m, n)
    ensures TrustOn(states, steps, node, trust, n)
  {
    if m < n {
      TrustStays(states, steps, node, trust, m, n - 1);
    }
  }

  lemma {:induction false} TrustIsGone(states: seq<State>, steps: seq<Step>, x: Id, node: Id, trust: TrustKey, m: nat,
                                       n: nat)
    requires m <= n <= |steps| && n <= |states|
    requires !TrustOn(states, steps, node, trust, m)
    requires NoForeignWrite(states, steps, x, node, trust.remoteNode, m, n)
    requires NoOwnWrite(states, steps, x, node, trust.remoteNode, m, n)
    ensures !TrustOn(states, steps, node, trust, n)
  {
    if m < n {
      TrustIsGone(states, steps, x, node, trust, m, n - 1);
    }
  }

  /** A side that `x` writes once, by step `m`: afterwards it is still that of `x` exactly if nobody has
    written over it, and the trust has not been revoked. */
  lemma SideLasts(states: seq<State>, steps: seq<Step>, x: Id, node: Id, trust: TrustKey, m: nat, n: nat)
    requires m < n <= |steps| && n <= |states|
    requires Activates(states[m], steps[m], node, trust) && steps[m].x == x
    requires NoOwnWrite(states, steps, x, node, trust.remoteNode, m + 1, n)
    ensures (&& LastWriter(states, steps, node, trust.remoteNode, n) == Some(x)
             && TrustOn(states, steps, node, trust, n)) <==>
            && NoForeignWrite(states, steps, x, node, trust.remoteNode, m + 1, n)
            && NoRevocation(steps, node, trust, m + 1, n)
  {
    if !NoForeignWrite(states, steps, x, node, trust.remoteNode, m + 1, n) {
      var k {:trigger steps[k]} :| m + 1 <= k < n && Writes(states[k], steps[k], node, trust.remoteNode)
                                    && steps[k].x != x;
      WriterIsGone(states, steps, x, node, trust.remoteNode, k + 1, n);
    } else {
      WriterStays(states, steps, x, node, trust.remoteNode, m + 1, n);
      if NoRevocation(steps, node, trust, m + 1, n) {
        TrustStays(states, steps, node, trust, m + 1, n);
      } else {
        var k :| m + 1 <= k < n && steps[k] == Revoke(node, trust);
        TrustIsGone(states, steps, x, node, trust, k + 1, n);
      }
    }
  }

  /** Nothing comes in between: from its acceptance on, no other exchange writes the accepter's row and
    nobody revokes the accepter's trust; from its completion on, the same for the requester. */
  ghost predicate Undisturbed(states: seq<State>, steps: seq<Step>, x: Id, i: nat, j: nat, n: nat)
    requires n < |states| && n <= |steps| && x in states[n].exchanges
  {
    var e := states[n].exchanges[x];
    var requester := e.offer.requesterNode;
    && NoForeignWrite(states, steps, x, e.accepter, requester, i + 1, n)
    && NoRevocation(steps, e.accepter, AcceptersTrust(e), i + 1, n)
    && NoForeignWrite(states, steps, x, requester, e.accepter, j + 1, n)
    && NoRevocation(steps, requester, RequestersTrust(e), j + 1, n)
  }

  /** An exchange between two different nodes writes each of the two rows once. */
  lemma WritesOnce(states: seq<State>, steps: seq<Step>, x: Id, i: nat, j: nat, n: nat)
    requires IsRun(states, steps) && Completed(states, steps, x, i, j) && j < n < |states|
    requires x in states[n].exchanges && states[n].exchanges[x].accepter != states[n].exchanges[x].offer.requesterNode
    ensures var e := states[n].exchanges[x];
            && NoOwnWrite(states, steps, x, e.accepter, e.offer.requesterNode, i + 1, n)
            && NoOwnWrite(states, steps, x, e.offer.requesterNode, e.accepter, j + 1, n)
  {
    var e := states[n].exchanges[x];
    CompletedWrites(states, steps, x, i, j);
    assert Follows(states[i], steps[i], states[i + 1]);
    TermsArePermanent(states, steps, x, i, i + 1);
    forall k {:trigger steps[k]} | i + 1 <= k < n && Writes(states[k], steps[k], e.accepter, e.offer.requesterNode)
      ensures steps[k].x != x
    {
      TermsArePermanent(states, steps, x, i + 1, k);
      TermsArePermanent(states, steps, x, k, n);
    }
    forall k {:trigger steps[k]} | j + 1 <= k < n && Writes(states[k], steps[k], e.offer.requesterNode, e.accepter)
      ensures steps[k].x != x
    {
      TermsArePermanent(states, steps, x, j + 1, k);
      TermsArePermanent(states, steps, x, k, n);
    }
  }

  lemma SecretTellsWriter(s: State, x: Id, writer: Option<Id>)
    requires DistinctSecrets(s) && x in s.exchanges
    ensures (&& writer.Some? && writer.value in s.exchanges
             && s.exchanges[writer.value].offer.secret == s.exchanges[x].offer.secret) <==> writer == Some(x)
  {
    if writer.Some? {
      var w: Id := writer.value;
      assert w in s.exchanges && SecretsMatch(s.exchanges[w], s.exchanges[x]) ==> w == x;
    }
  }

  /** When a completed pairing holds, in terms of who was last. */
  lemma BothSidesAreLast(states: seq<State>, steps: seq<Step>, x: Id, n: nat)
    requires IsRun(states, steps) && n < |states| && x in states[n].exchanges && DistinctSecrets(states[n])
    ensures var e := states[n].exchanges[x];
            BothSidesStand(states[n], x) <==>
            && LastWriter(states, steps, e.accepter, e.offer.requesterNode, n) == Some(x)
            && TrustOn(states, steps, e.accepter, AcceptersTrust(e), n)
            && LastWriter(states, steps, e.offer.requesterNode, e.accepter, n) == Some(x)
            && TrustOn(states, steps, e.offer.requesterNode, RequestersTrust(e), n)
  {
    var e := states[n].exchanges[x];
    RunKeepsInv(states, steps, n);
    SecretTellsWriter(states[n], x, LastWriter(states, steps, e.accepter, e.offer.requesterNode, n));
    SecretTellsWriter(states[n], x, LastWriter(states, steps, e.offer.requesterNode, e.accepter, n));
    SideStandsExactly(states, steps, n, e.accepter, e.remoteLaboratory, e.offer.requesterNode,
                      e.offer.requesterLaboratory, e.offer.secret);
    SideStandsExactly(states, steps, n, e.offer.requesterNode, e.offer.requesterLaboratory, e.accepter,
                      e.remoteLaboratory, e.offer.secret);
  }

  /** After a pairing of two nodes is completed, both hold what it was about exactly if nothing that
    counts came in between. */
  lemma CompletedPairingStandsExactly(states: seq<State>, steps: seq<Step>, x: Id, i: nat, j: nat, n: nat)
    requires IsRun(states, steps) && Completed(states, steps, x, i, j) && j < n < |states|
    requires DistinctSecrets(states[n])
    requires states[j + 1].exchanges[x].accepter != states[j + 1].exchanges[x].offer.requesterNode
    ensures x in states[n].exchanges
    ensures BothSidesStand(states[n], x) <==> Undisturbed(states, steps, x, i, j, n)
  {
    TermsArePermanent(states, steps, x, j + 1, n);
    var e := states[n].exchanges[x];
    CompletedWrites(states, steps, x, i, j);
    WritesOnce(states, steps, x, i, j, n);
    BothSidesAreLast(states, steps, x, n);
    SideLasts(states, steps, x, e.accepter, AcceptersTrust(e), i, n);
    SideLasts(states, steps, x, e.offer.requesterNode, RequestersTrust(e), j, n);
  }

  /** So a pairing that nothing disturbs leaves both nodes in agreement, whatever earlier ones left behind. */
  lemma CompletedPairingAgrees(states: seq<State>, steps: seq<Step>, x: Id, i: nat, j: nat, n: nat)
    requires IsRun(states, steps) && Completed(states, steps, x, i, j) && j < n < |states|
    requires x in states[n].exchanges && Undisturbed(states, steps, x, i, j, n)
    ensures var e := states[n].exchanges[x];
            && e.offer.requesterNode in states[n].nodes && e.accepter in states[n].nodes
            && Agree(states[n].nodes[e.offer.requesterNode], e.offer.requesterLaboratory,
                     states[n].nodes[e.accepter], e.remoteLaboratory)
  {
    TermsArePermanent(states, steps, x, j + 1, n);
    var e := states[n].exchanges[x];
    CompletedWrites(states, steps, x, i, j);
    WriterStays(states, steps, x, e.accepter, e.offer.requesterNode, i + 1, n);
    WriterStays(states, steps, x, e.offer.requesterNode, e.accepter, j + 1, n);
    TrustStays(states, steps, e.accepter, AcceptersTrust(e), i + 1, n);
    TrustStays(states, steps, e.offer.requesterNode, RequestersTrust(e), j + 1, n);
    RunKeepsInv(states, steps, n);
    AgreementIsExact(states, steps, n, e.offer.requesterNode, e.offer.requesterLaboratory, e.accepter,
                     e.remoteLaboratory);
  }
}
