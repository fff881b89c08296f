/** Two pairings of the same two nodes, one overlapping the other: run by run. */
module PairingOverlap {
  import opened Wrappers
  import opened Signatures
  import opened Pairing
  import opened PairingRuns

  const REQUESTER: Id := 1
  const ACCEPTER: Id := 2
  const HOME: Id := 10
  const AWAY: Id := 20

  function OfferOf(code: string, secret: string): Offer {
    Offer(code, REQUESTER, "https://requester", HOME, secret, None)
  }

  function ExchangeOf(code: string, secret: string, phase: Phase): Exchange {
    Exchange(ACCEPTER, "https://accepter", AWAY, OfferOf(code, secret), phase)
  }

  const ANSWER: Answer := Answer(ACCEPTER, AWAY, None, 1)

  lemma Stepped(states: seq<State>, steps: seq<Step>, step: Step)
    returns (states': seq<State>, steps': seq<Step>)
    requires IsRun(states, steps) && Enabled(states[|steps|], step)
    ensures IsRun(states', steps') && |steps'| == |steps| + 1
    ensures states'[|steps'|] == Apply(states[|steps|], step)
  {
    states', steps' := states + [Apply(states[|steps|], step)], steps + [step];
    forall i {:trigger steps'[i]} | 0 <= i < |steps'| ensures Follows(states'[i], steps'[i], states'[i + 1]) {
      if i < |steps| {
        assert Follows(states[i], steps[i], states[i + 1]);
      }
    }
  }

  /** The two nodes exist, and know nobody but each other. */
  ghost predicate Ready(s: State) {
    && REQUESTER in s.nodes && ACCEPTER in s.nodes
    && s.nodes[REQUESTER].id == REQUESTER && s.nodes[ACCEPTER].id == ACCEPTER
    && s.nodes[REQUESTER].remotes.Keys <= {ACCEPTER} && s.nodes[ACCEPTER].remotes.Keys <= {REQUESTER}
    && s.codeLocks == map[] && s.clock == 0
  }

  /** A pairing gets as far as its answer. */
  lemma Accept(states: seq<State>, steps: seq<Step>, x: Id, code: string, secret: string)
    returns (states': seq<State>, steps': seq<Step>)
    requires IsRun(states, steps) && Ready(states[|steps|]) && !BlankSecret(secret) && secret != ""
    requires x !in states[|steps|].exchanges && code !in states[|steps|].nodes[ACCEPTER].codes
    ensures IsRun(states', steps') && Ready(states'[|steps'|])
    ensures var s, s' := states[|steps|], states'[|steps'|];
            && s'.exchanges == s.exchanges[x := ExchangeOf(code, secret, Answered(ANSWER))]
            && s'.nodes[REQUESTER] == s.nodes[REQUESTER]
            && s'.nodes[ACCEPTER].codes.Keys == s.nodes[ACCEPTER].codes.Keys + {code}
            && Stands(s'.nodes[ACCEPTER], AWAY, REQUESTER, HOME, secret, 1)
  {
    states', steps' := Stepped(states, steps, IssueCode(CodeKey(ACCEPTER, code), AWAY, 1));
    states', steps' := Stepped(states', steps', Ask(x, ACCEPTER, "https://accepter", AWAY, OfferOf(code, secret)));
    states', steps' := Stepped(states', steps', Consume(x));
    states', steps' := Stepped(states', steps', CommitAcceptance(x));
  }

  /** ... and is completed. */
  lemma Complete(states: seq<State>, steps: seq<Step>, x: Id, code: string, secret: string)
    returns (states': seq<State>, steps': seq<Step>)
    requires IsRun(states, steps) && Ready(states[|steps|]) && secret != ""
    requires x in states[|steps|].exchanges
    requires states[|steps|].exchanges[x] == ExchangeOf(code, secret, Answered(ANSWER))
    ensures IsRun(states', steps') && Ready(states'[|steps'|])
    ensures var s, s' := states[|steps|], states'[|steps'|];
            && s'.exchanges == s.exchanges[x := ExchangeOf(code, secret, Finished)]
            && s'.nodes[ACCEPTER] == s.nodes[ACCEPTER]
            && Stands(s'.nodes[REQUESTER], HOME, ACCEPTER, AWAY, secret, 1)
  {
    states', steps' := Stepped(states, steps, Finish(x));
  }

  /** Both pairings have completed. */
  predicate BothDone(s: State) {
    && s.exchanges == map[1 := ExchangeOf("a", "first", Finished), 2 := ExchangeOf("b", "second", Finished)]
    && REQUESTER in s.nodes && ACCEPTER in s.nodes
  }

  lemma BothAnswered() returns (states: seq<State>, steps: seq<Step>)
    ensures IsRun(states, steps) && Ready(states[|steps|])
    ensures var s := states[|steps|];
            && s.exchanges == map[1 := ExchangeOf("a", "first", Answered(ANSWER)),
                                  2 := ExchangeOf("b", "second", Answered(ANSWER))]
            && Stands(s.nodes[ACCEPTER], AWAY, REQUESTER, HOME, "second", 1)
  {
    states, steps := [State(0, map[], map[], map[], [])], [];
    states, steps := Stepped(states, steps, AddNode(REQUESTER));
    states, steps := Stepped(states, steps, AddNode(ACCEPTER));
    states, steps := Accept(states, steps, 1, "a", "first");
    states, steps := Accept(states, steps, 2, "b", "second");
  }

  /** Accepted first, then second; completed second, then first: the nodes hold different secrets. */
  lemma OverlappingPairingsDisagree() returns (states: seq<State>, steps: seq<Step>)
    ensures IsRun(states, steps) && BothDone(states[|steps|])
    ensures forall la, lb :: !Agree(states[|steps|].nodes[REQUESTER], la, states[|steps|].nodes[ACCEPTER], lb)
  {
    states, steps := BothAnswered();
    states, steps := Complete(states, steps, 2, "b", "second");
    states, steps := Complete(states, steps, 1, "a", "first");
  }

  /** Completed in the order in which they were accepted, they overlap no less, and the nodes agree. */
  lemma OverlappingPairingsAgree() returns (states: seq<State>, steps: seq<Step>)
    ensures IsRun(states, steps) && BothDone(states[|steps|])
    ensures Agree(states[|steps|].nodes[REQUESTER], HOME, states[|steps|].nodes[ACCEPTER], AWAY)
  {
    states, steps := BothAnswered();
    states, steps := Complete(states, steps, 1, "a", "first");
    states, steps := Complete(states, steps, 2, "b", "second");
  }
}
