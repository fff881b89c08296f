/** Borrow requests under row locks.

  Creating, deciding and cancelling a request are transactions that lock rows,
  read, check and commit; here their steps interleave freely with each other and
  with outside changes to items. Writes of a transaction show at its commit, and
  a transaction may be rolled back at any point before it. */
module BorrowProtocol {
  import opened Wrappers

  type Id = int

  datatype ItemStatus = Available | Reserved | Borrowed | Retired | Lost | Consumed

  datatype RequestStatus = Pending | Approved | Rejected | Cancelled

  datatype Item = Item(laboratory: Id, status: ItemStatus)

  datatype Request = Request(
    laboratory: Id,
    item: Id,
    requester: Option<Id>,
    link: Option<Id>,
    status: RequestStatus,
    reviewedAt: Option<int>)

  datatype Role = Root | SuperAdmin | LabAdmin | Guest | RegularUser

  datatype Actor = Actor(user: Id, role: Role, laboratory: Option<Id>)

  // ---------------------------------------------------------------------------
  // who may act
  // ---------------------------------------------------------------------------

  predicate MayRequest(actor: Actor, laboratory: Id) {
    actor.role == Guest && actor.laboratory == Some(laboratory)
  }

  predicate MayResolve(actor: Actor, laboratory: Id) {
    (actor.role == LabAdmin || actor.role == RegularUser) && actor.laboratory == Some(laboratory)
  }

  predicate CancellableBy(row: Request, actor: Actor, link: Option<Id>) {
    (link.Some? && row.link == link) || row.requester == Some(actor.user)
  }

  // ---------------------------------------------------------------------------
  // states and steps
  // ---------------------------------------------------------------------------

  datatype Call =
    | Create(actor: Actor, laboratory: Id, item: Id, link: Option<Id>, newId: Id)
    | Resolve(actor: Actor, laboratory: Id, request: Id, decision: RequestStatus, now: int)
    | Cancel(actor: Actor, laboratory: Id, request: Id, link: Option<Id>)

  /** `Working`: taking locks. `ItemChecked`: a create that has read its item.
    `Ready`: every check passed, only the writes and the commit are left. */
  datatype Phase = Working | ItemChecked | Ready

  datatype Transaction = Transaction(call: Call, phase: Phase)

  datatype Event =
    | RequestCreated(request: Id, item: Id)
    | RequestDecided(request: Id, item: Id, decision: RequestStatus)
    | RequestCancelled(request: Id, item: Id)
    | ItemChangedOutside(item: Id, status: ItemStatus)

  datatype State = State(
    items: map<Id, Item>,
    requests: map<Id, Request>,
    itemLocks: map<Id, Id>,
    requestLocks: map<Id, Id>,
    running: map<Id, Transaction>,
    log: seq<Event>)

  datatype Step =
    | Begin(tx: Id, call: Call)
    | LockItem(tx: Id)
    | LockRequest(tx: Id)
    | CheckItem(tx: Id)
    | CheckNoPending(tx: Id)
    | CheckDecision(tx: Id)
    | CheckCancellation(tx: Id)
    | Commit(tx: Id)
    | RollBack(tx: Id)
    | ChangeItem(item: Id, status: ItemStatus)
    | AddItem(item: Id, row: Item)
    /** An account or a link is deleted elsewhere: what referred to it is cleared. */
    | ClearRequester(request: Id)
    | ClearLink(request: Id)

  /** Steps that no borrow transaction takes. */
  predicate Outside(step: Step) {
    step.ChangeItem? || step.AddItem? || step.ClearRequester? || step.ClearLink?
  }

  /** The item row a transaction locks, once it can be named. */
  function TargetItem(s: State, call: Call): Option<Id> {
    match call
    case Create(_, _, item, _, _) => Some(item)
    case Resolve(_, laboratory, request, _, _) => ItemBehind(s, laboratory, request)
    case Cancel(_, laboratory, request, _) => ItemBehind(s, laboratory, request)
  }

  function ItemBehind(s: State, laboratory: Id, request: Id): Option<Id> {
    if request in s.requests && s.requests[request].laboratory == laboratory then Some(s.requests[request].item)
    else None
  }

  predicate HoldsItem(s: State, tx: Id, item: Id) {
    item in s.itemLocks && s.itemLocks[item] == tx
  }

  predicate HoldsRequest(s: State, tx: Id, request: Id) {
    request in s.requestLocks && s.requestLocks[request] == tx
  }

  predicate PendingFor(s: State, item: Id) {
    exists r :: r in s.requests && s.requests[r].item == item && s.requests[r].status == Pending
  }

  /** What the joined, locking read of a request and its item has delivered. */
  predicate HoldsBoth(s: State, tx: Id, laboratory: Id, request: Id) {
    && request in s.requests && s.requests[request].laboratory == laboratory
    && s.requests[request].item in s.items
    && HoldsRequest(s, tx, request)
    && HoldsItem(s, tx, s.requests[request].item)
  }

  /** Ids of new requests are drawn so that nobody else has them. */
  predicate FreshFor(s: State, call: Call) {
    call.Create? ==>
      && call.newId !in s.requests
      && forall tx :: tx in s.running && s.running[tx].call.Create? ==> s.running[tx].call.newId != call.newId
  }

  predicate MayBegin(call: Call) {
    match call
    case Create(_, _, _, _, _) => true
    case Resolve(actor, laboratory, _, decision, _) =>
      MayResolve(actor, laboratory) && (decision == Approved || decision == Rejected)
    case Cancel(actor, laboratory, _, _) => MayRequest(actor, laboratory)
  }

  predicate Enabled(s: State, step: Step) {
    match step
    case Begin(tx, call) => tx !in s.running && MayBegin(call) && FreshFor(s, call)
    case LockItem(tx) =>
      && tx in s.running && s.running[tx].phase == Working
      && TargetItem(s, s.running[tx].call).Some?
      && TargetItem(s, s.running[tx].call).value in s.items
      && TargetItem(s, s.running[tx].call).value !in s.itemLocks
    case LockRequest(tx) =>
      && tx in s.running && s.running[tx].phase == Working && !s.running[tx].call.Create?
      && s.running[tx].call.request in s.requests
      && s.running[tx].call.request !in s.requestLocks
    case CheckItem(tx) =>
      && tx in s.running && s.running[tx].phase == Working && s.running[tx].call.Create?
      && var call := s.running[tx].call;
      && HoldsItem(s, tx, call.item) && call.item in s.items
      && s.items[call.item].laboratory == call.laboratory
      && MayRequest(call.actor, call.laboratory)
      && s.items[call.item].status == Available
    case CheckNoPending(tx) =>
      && tx in s.running && s.running[tx].phase == ItemChecked && s.running[tx].call.Create?
      && !PendingFor(s, s.running[tx].call.item)
    case CheckDecision(tx) =>
      && tx in s.running && s.running[tx].phase == Working && s.running[tx].call.Resolve?
      && var call := s.running[tx].call;
      && HoldsBoth(s, tx, call.laboratory, call.request)
      && s.requests[call.request].status == Pending
      && (call.decision == Approved ==> s.items[s.requests[call.request].item].status == Available)
    case CheckCancellation(tx) =>
      && tx in s.running && s.running[tx].phase == Working && s.running[tx].call.Cancel?
      && var call := s.running[tx].call;
      && HoldsBoth(s, tx, call.laboratory, call.request)
      && CancellableBy(s.requests[call.request], call.actor, call.link)
      && s.requests[call.request].status == Pending
    case Commit(tx) => tx in s.running && s.running[tx].phase == Ready
    case RollBack(tx) => tx in s.running
    case ChangeItem(item, _) => item in s.items && item !in s.itemLocks
    case AddItem(item, _) => item !in s.items
    case ClearRequester(request) => request in s.requests && request !in s.requestLocks
    case ClearLink(request) => request in s.requests && request !in s.requestLocks
  }

  /** Ends a transaction: its locks are released. */
  function Ended(s: State, tx: Id): State {
    s.(running := s.running - {tx},
       itemLocks := map i | i in s.itemLocks && s.itemLocks[i] != tx :: s.itemLocks[i],
       requestLocks := map r | r in s.requestLocks && s.requestLocks[r] != tx :: s.requestLocks[r])
  }

  /** The rows a transaction leaves behind. */
  function Written(s: State, call: Call): State {
    match call
    case Create(actor, laboratory, item, link, newId) =>
      s.(requests := s.requests[newId := Request(laboratory, item, Some(actor.user), link, Pending, None)],
         log := s.log + [RequestCreated(newId, item)])
    case Resolve(_, _, request, decision, now) =>
      if request !in s.requests || s.requests[request].item !in s.items then s
      else
        var row := s.requests[request];
        s.(items := if decision == Approved then s.items[row.item := s.items[row.item].(status := Borrowed)]
                    else s.items,
           requests := s.requests[request := row.(status := decision, reviewedAt := Some(now))],
           log := s.log + [RequestDecided(request, row.item, decision)])
    case Cancel(_, _, request, _) =>
      if request !in s.requests then s
      else
        var row := s.requests[request];
        s.(requests := s.requests[request := row.(status := Cancelled)],
           log := s.log + [RequestCancelled(request, row.item)])
  }

  function Entered(s: State, tx: Id, phase: Phase): State
    requires tx in s.running
  {
    s.(running := s.running[tx := s.running[tx].(phase := phase)])
  }

  function Apply(s: State, step: Step): State
    requires Enabled(s, step)
  {
    match step
    case Begin(tx, call) => s.(running := s.running[tx := Transaction(call, Working)])
    case LockItem(tx) => s.(itemLocks := s.itemLocks[TargetItem(s, s.running[tx].call).value := tx])
    case LockRequest(tx) => s.(requestLocks := s.requestLocks[s.running[tx].call.request := tx])
    case CheckItem(tx) => Entered(s, tx, ItemChecked)
    case CheckNoPending(tx) => Entered(s, tx, Ready)
    case CheckDecision(tx) => Entered(s, tx, Ready)
    case CheckCancellation(tx) => Entered(s, tx, Ready)
    case Commit(tx) => Ended(Written(s, s.running[tx].call), tx)
    case RollBack(tx) => Ended(s, tx)
    case ChangeItem(item, status) =>
      s.(items := s.items[item := s.items[item].(status := status)], log := s.log + [ItemChangedOutside(item, status)])
    case AddItem(item, row) => s.(items := s.items[item := row])
    case ClearRequester(request) => s.(requests := s.requests[request := s.requests[request].(requester := None)])
    case ClearLink(request) => s.(requests := s.requests[request := s.requests[request].(link := None)])
  }

  const INITIAL: State := State(map[], map[], map[], map[], map[], [])

  /** `states` is a run of the protocol: any interleaving of enabled steps. */
  ghost predicate IsRun(states: seq<State>, steps: seq<Step>) {
    && |states| == |steps| + 1
    && states[0] == INITIAL
    && forall i {:trigger steps[i]} :: 0 <= i < |steps| ==> Follows(states[i], steps[i], states[i + 1])
  }

  ghost predicate Follows(s: State, step: Step, s': State) {
    Enabled(s, step) && s' == Apply(s, step)
  }

  // ---------------------------------------------------------------------------
  // the invariant
  // ---------------------------------------------------------------------------

  predicate BothPending(a: Request, b: Request) {
    a.status == Pending && b.status == Pending && a.item == b.item
  }

  ghost predicate AtMostOnePending(s: State) {
    forall a, b :: a in s.requests && b in s.requests && BothPending(s.requests[a], s.requests[b]) ==> a == b
  }

  ghost predicate ReviewedIffDecided(s: State) {
    forall r :: r in s.requests ==>
                  (s.requests[r].reviewedAt.Some? <==>
                     s.requests[r].status == Approved || s.requests[r].status == Rejected)
  }

  /** What a running transaction knows, protected by the locks it holds. */
  ghost predicate Protected(s: State, tx: Id)
    requires tx in s.running
  {
    var call := s.running[tx].call;
    match s.running[tx].phase
    case Working => true
    case ItemChecked =>
      && call.Create? && MayRequest(call.actor, call.laboratory)
      && HoldsItem(s, tx, call.item) && ItemOpen(s, call.item, call.laboratory)
    case Ready =>
      match call
      case Create(actor, laboratory, item, _, _) =>
        && MayRequest(actor, laboratory)
        && HoldsItem(s, tx, item) && ItemOpen(s, item, laboratory) && !PendingFor(s, item)
      case Resolve(_, laboratory, request, decision, _) =>
        && HoldsBoth(s, tx, laboratory, request) && s.requests[request].status == Pending
        && (decision == Approved || decision == Rejected)
        && (decision == Approved ==> s.items[s.requests[request].item].status == Available)
      case Cancel(actor, laboratory, request, link) =>
        && HoldsBoth(s, tx, laboratory, request) && s.requests[request].status == Pending
        && CancellableBy(s.requests[request], actor, link)
  }

  ghost predicate ItemOpen(s: State, item: Id, laboratory: Id) {
    item in s.items && s.items[item].status == Available && s.items[item].laboratory == laboratory
  }

  ghost predicate AllProtected(s: State) {
    forall tx :: tx in s.running ==> Protected(s, tx)
  }

  ghost predicate DecisionsAreDecisions(s: State) {
    forall tx :: tx in s.running ==> MayBegin(s.running[tx].call)
  }

  predicate SameNewId(a: Call, b: Call) {
    a.Create? && b.Create? && a.newId == b.newId
  }

  ghost predicate NewIdsAreFresh(s: State) {
    && (forall tx :: tx in s.running && s.running[tx].call.Create? ==> s.running[tx].call.newId !in s.requests)
    && (forall a, b :: a in s.running && b in s.running && SameNewId(s.running[a].call, s.running[b].call) ==> a == b)
  }

  predicate ApprovalOf(e: Event, item: Id) {
    e.RequestDecided? && e.item == item && e.decision == Approved
  }

  predicate ReopeningOf(e: Event, item: Id) {
    e == ItemChangedOutside(item, Available)
  }

  /** Since the approval at `i`, the item has been made available again from outside. */
  ghost predicate ReopenedSince(log: seq<Event>, i: nat, item: Id) {
    exists k :: i < k < |log| && ReopeningOf(log[k], item)
  }

  /** An approved item stays unavailable until it is reopened. */
  ghost predicate ApprovalsHold(s: State) {
    forall i, item :: 0 <= i < |s.log| && ApprovalOf(s.log[i], item) ==>
                        item in s.items && (s.items[item].status != Available || ReopenedSince(s.log, i, item))
  }

  /** Between two approvals of an item there is always a reopening. */
  ghost predicate ApprovalsSeparated(log: seq<Event>) {
    forall i, j, item :: 0 <= i < j < |log| && ApprovalOf(log[i], item) && ApprovalOf(log[j], item) ==>
                           exists k :: i < k < j && ReopeningOf(log[k], item)
  }

  ghost predicate Inv(s: State) {
    && AllProtected(s)
    && DecisionsAreDecisions(s)
    && NewIdsAreFresh(s)
    && AtMostOnePending(s)
    && ReviewedIffDecided(s)
    && ApprovalsHold(s)
    && ApprovalsSeparated(s.log)
  }

  // ---------------------------------------------------------------------------
  // locks protect what a transaction has read
  // ---------------------------------------------------------------------------

  /** Nothing `tx` has locked changes from `s` to `s'`. */
  ghost predicate Undisturbed(s: State, s': State, tx: Id) {
    && (forall i :: HoldsItem(s, tx, i) ==> HoldsItem(s', tx, i))
    && (forall r :: HoldsRequest(s, tx, r) ==> HoldsRequest(s', tx, r))
    && (forall i :: HoldsItem(s, tx, i) && i in s.items ==> i in s'.items && s'.items[i] == s.items[i])
    && (forall r :: HoldsRequest(s, tx, r) && r in s.requests ==> r in s'.requests && s'.requests[r] == s.requests[r])
    && (forall i :: HoldsItem(s, tx, i) && !PendingFor(s, i) ==> !PendingFor(s', i))
  }

  lemma ProtectionFrame(s: State, s': State, tx: Id)
    requires tx in s.running && tx in s'.running && s'.running[tx] == s.running[tx]
    requires Protected(s, tx) && Undisturbed(s, s', tx)
    ensures Protected(s', tx)
  {
  }

  /** Rolling a transaction back disturbs no other. */
  lemma EndingDisturbsNobody(s: State, tx: Id, other: Id)
    requires other != tx
    ensures Undisturbed(s, Ended(s, tx), other)
  {
  }

  /** What a transaction writes is locked by it, so no other transaction has read it. */
  lemma WritingDisturbsNobody(s: State, tx: Id, other: Id)
    requires Inv(s) && tx in s.running && s.running[tx].phase == Ready && other != tx
    ensures Undisturbed(s, Written(s, s.running[tx].call), other)
  {
    assert Protected(s, tx);
    var call := s.running[tx].call;
    var s' := Written(s, call);
    forall i | HoldsItem(s, other, i) && !PendingFor(s, i) ensures !PendingFor(s', i) {
      WritingFilesOnlyOwn(s, call, i);
    }
  }

  /** Only a create makes an item pending, and only the item it names. */
  lemma WritingFilesOnlyOwn(s: State, call: Call, i: Id)
    requires MayBegin(call)
    ensures PendingFor(Written(s, call), i) ==> PendingFor(s, i) || (call.Create? && call.item == i)
  {
    var s' := Written(s, call);
    if PendingFor(s', i) {
      var r :| r in s'.requests && s'.requests[r].item == i && s'.requests[r].status == Pending;
      if r in s.requests && s.requests[r] == s'.requests[r] {
        assert PendingFor(s, i);
      }
    }
  }

  lemma UndisturbedTrans(s: State, s1: State, s2: State, tx: Id)
    requires Undisturbed(s, s1, tx) && Undisturbed(s1, s2, tx)
    ensures Undisturbed(s, s2, tx)
  {
  }

  /** No step disturbs a transaction other than its own. */
  lemma StepDisturbsNobody(s: State, step: Step, other: Id)
    requires Inv(s) && Enabled(s, step)
    requires !Outside(step) ==> step.tx != other
    ensures Undisturbed(s, Apply(s, step), other)
  {
    match step
    case Commit(tx) =>
      var written := Written(s, s.running[tx].call);
      WritingDisturbsNobody(s, tx, other);
      EndingDisturbsNobody(written, tx, other);
      UndisturbedTrans(s, written, Apply(s, step), other);
    case RollBack(tx) => EndingDisturbsNobody(s, tx, other);
    case _ =>
  }

  lemma OwnStepProtects(s: State, step: Step)
    requires Inv(s) && Enabled(s, step) && !Outside(step)
    requires step.tx in Apply(s, step).running
    ensures Protected(Apply(s, step), step.tx)
  {
    if step.tx in s.running {
      assert Protected(s, step.tx) && MayBegin(s.running[step.tx].call);
    }
  }

  lemma StepKeepsProtection(s: State, step: Step)
    requires Inv(s) && Enabled(s, step)
    ensures AllProtected(Apply(s, step))
  {
    var s' := Apply(s, step);
    forall tx | tx in s'.running ensures Protected(s', tx) {
      if !Outside(step) && step.tx == tx {
        OwnStepProtects(s, step);
      } else {
        assert s'.running[tx] == s.running[tx] && Protected(s, tx);
        StepDisturbsNobody(s, step, tx);
        ProtectionFrame(s, s', tx);
      }
    }
  }

  lemma StepKeepsFreshIds(s: State, step: Step)
    requires Inv(s) && Enabled(s, step)
    ensures NewIdsAreFresh(Apply(s, step)) && DecisionsAreDecisions(Apply(s, step))
  {
    var s' := Apply(s, step);
    if step.Commit? {
      assert Protected(s, step.tx);
      forall tx | tx in s'.running && s'.running[tx].call.Create? ensures s'.running[tx].call.newId !in s'.requests {
        assert !SameNewId(s.running[tx].call, s.running[step.tx].call);
      }
    }
  }

  // ---------------------------------------------------------------------------
  // requests
  // ---------------------------------------------------------------------------

  /** The same request, up to whom it refers to as its requester. */
  predicate SameButRequester(a: Request, b: Request) {
    a.(requester := None, link := None) == b.(requester := None, link := None)
  }

  /** How one step may change the request table. */
  ghost predicate RequestsEvolve(s: State, s': State) {
    && (forall r :: r in s.requests ==> r in s'.requests)
    && (forall r :: r in s.requests && !SameButRequester(s'.requests[r], s.requests[r]) ==>
          && s.requests[r].status == Pending && s'.requests[r].status != Pending
          && s'.requests[r].item == s.requests[r].item)
  }

  lemma StepEvolvesRequests(s: State, step: Step)
    requires Inv(s) && Enabled(s, step)
    ensures RequestsEvolve(s, Apply(s, step)) && ReviewedIffDecided(Apply(s, step))
  {
    if step.Commit? {
      assert Protected(s, step.tx) && MayBegin(s.running[step.tx].call);
    }
  }

  /** Lock, then check, then insert: a second pending request for an item cannot appear. */
  lemma StepKeepsOnePending(s: State, step: Step)
    requires Inv(s) && Enabled(s, step)
    ensures AtMostOnePending(Apply(s, step))
  {
    var s' := Apply(s, step);
    StepEvolvesRequests(s, step);
    if step.Commit? {
      assert Protected(s, step.tx);
    }
    forall a, b | a in s'.requests && b in s'.requests && a != b ensures !BothPending(s'.requests[a], s'.requests[b]) {
      if a in s.requests && b in s.requests {
        assert !BothPending(s.requests[a], s.requests[b]);
      } else {
        var old' := if a in s.requests then a else b;
        assert old' in s.requests ==> s'.requests[old'] == s.requests[old'];
      }
    }
  }

  // ---------------------------------------------------------------------------
  // approvals
  // ---------------------------------------------------------------------------

  /** What a step may do to items and log: at most one event, and an item changes
    only with the event that says so. */
  ghost predicate ItemsFollowLog(s: State, s': State) {
    && (s'.log == s.log || (|s'.log| == |s.log| + 1 && s'.log[..|s.log|] == s.log))
    && (forall i :: i in s.items ==> i in s'.items)
    && (forall i :: i in s.items && s.items[i].status != Available && s'.items[i].status == Available ==>
          |s'.log| == |s.log| + 1 && ReopeningOf(s'.log[|s.log|], i))
    && (forall i :: |s'.log| == |s.log| + 1 && ApprovalOf(s'.log[|s.log|], i) ==>
          i in s.items && s.items[i].status == Available && s'.items[i].status == Borrowed)
  }

  lemma StepFollowsLog(s: State, step: Step)
    requires Inv(s) && Enabled(s, step)
    ensures ItemsFollowLog(s, Apply(s, step))
  {
    if step.Commit? {
      assert Protected(s, step.tx);
    }
  }

  lemma LogKeepsApprovals(s: State, s': State)
    requires ApprovalsHold(s) && ItemsFollowLog(s, s')
    ensures ApprovalsHold(s')
  {
    forall i, item | 0 <= i < |s'.log| && ApprovalOf(s'.log[i], item)
      ensures item in s'.items && (s'.items[item].status != Available || ReopenedSince(s'.log, i, item))
    {
      if i < |s.log| {
        assert ApprovalOf(s.log[i], item);
        if ReopenedSince(s.log, i, item) {
          var k :| i < k < |s.log| && ReopeningOf(s.log[k], item);
          assert ReopeningOf(s'.log[k], item);
        }
      }
    }
  }

  lemma LogKeepsSeparation(s: State, s': State)
    requires ApprovalsHold(s) && ApprovalsSeparated(s.log) && ItemsFollowLog(s, s')
    ensures ApprovalsSeparated(s'.log)
  {
    forall i, j, item | 0 <= i < j < |s'.log| && ApprovalOf(s'.log[i], item) && ApprovalOf(s'.log[j], item)
      ensures exists k :: i < k < j && ReopeningOf(s'.log[k], item)
    {
      assert ApprovalOf(s.log[i], item);
      if j < |s.log| {
        assert ApprovalOf(s.log[j], item);
        var k :| i < k < j && ReopeningOf(s.log[k], item);
        assert ReopeningOf(s'.log[k], item);
      } else {
        var k :| i < k < |s.log| && ReopeningOf(s.log[k], item);
        assert ReopeningOf(s'.log[k], item);
      }
    }
  }

  // ---------------------------------------------------------------------------
  // every run
  // ---------------------------------------------------------------------------

  lemma StepKeepsInv(s: State, step: Step)
    requires Inv(s) && Enabled(s, step)
    ensures Inv(Apply(s, step))
  {
    StepKeepsProtection(s, step);
    StepKeepsFreshIds(s, step);
    StepEvolvesRequests(s, step);
    StepKeepsOnePending(s, step);
    StepFollowsLog(s, step);
    LogKeepsApprovals(s, Apply(s, step));
    LogKeepsSeparation(s, Apply(s, step));
  }

  lemma {:induction false} RunKeepsInv(states: seq<State>, steps: seq<Step>, n: nat)
    requires IsRun(states, steps) && n < |states|
    ensures Inv(states[n])
  {
    if n > 0 {
      RunKeepsInv(states, steps, n - 1);
      assert Follows(states[n - 1], steps[n - 1], states[n]);
      StepKeepsInv(states[n - 1], steps[n - 1]);
    }
  }

  /** In every reachable state an item has at most one pending request. */
  lemma OnePendingPerItem(states: seq<State>, steps: seq<Step>, n: nat, a: Id, b: Id)
    requires IsRun(states, steps) && n < |states|
    requires a in states[n].requests && b in states[n].requests
    requires BothPending(states[n].requests[a], states[n].requests[b])
    ensures a == b
  {
    RunKeepsInv(states, steps, n);
  }

  /** In every reachable state exactly the approved and rejected requests carry a review time. */
  lemma ReviewTimesMarkDecisions(states: seq<State>, steps: seq<Step>, n: nat, r: Id)
    requires IsRun(states, steps) && n < |states| && r in states[n].requests
    ensures var row := states[n].requests[r];
            row.reviewedAt.Some? <==> row.status == Approved || row.status == Rejected
  {
    RunKeepsInv(states, steps, n);
  }

  /** A request that has left pending stays, and never changes again, except that the requester or the
    link it refers to may be deleted. */
  lemma {:induction false} DecidedIsFinal(states: seq<State>, steps: seq<Step>, m: nat, n: nat, r: Id)
    requires IsRun(states, steps) && m <= n < |states|
    requires r in states[m].requests && states[m].requests[r].status != Pending
    ensures r in states[n].requests && SameButRequester(states[n].requests[r], states[m].requests[r])
  {
    if m < n {
      DecidedIsFinal(states, steps, m, n - 1, r);
      RunKeepsInv(states, steps, n - 1);
      assert Follows(states[n - 1], steps[n - 1], states[n]);
      StepEvolvesRequests(states[n - 1], steps[n - 1]);
    }
  }

  /** The step in which a request becomes approved finds its item available, leaves it
    borrowed and logs the approval. */
  lemma ApprovalBorrows(states: seq<State>, steps: seq<Step>, n: nat, r: Id)
    requires IsRun(states, steps) && n < |steps|
    requires r in states[n + 1].requests && states[n + 1].requests[r].status == Approved
    requires r in states[n].requests ==> states[n].requests[r].status != Approved
    ensures var item := states[n + 1].requests[r].item;
            && item in states[n].items && states[n].items[item].status == Available
            && item in states[n + 1].items && states[n + 1].items[item].status == Borrowed
            && states[n + 1].log == states[n].log + [RequestDecided(r, item, Approved)]
  {
    RunKeepsInv(states, steps, n);
    assert Follows(states[n], steps[n], states[n + 1]);
    if steps[n].Commit? {
      assert Protected(states[n], steps[n].tx);
    }
  }

  /** Two approvals of an item are separated by an outside change that made it available again. */
  lemma ApprovalsAreSeparated(states: seq<State>, steps: seq<Step>, n: nat, i: nat, j: nat, item: Id)
    requires IsRun(states, steps) && n < |states|
    requires i < j < |states[n].log| && ApprovalOf(states[n].log[i], item) && ApprovalOf(states[n].log[j], item)
    ensures exists k :: i < k < j && ReopeningOf(states[n].log[k], item)
  {
    RunKeepsInv(states, steps, n);
  }

  /** Cancelling never touches an item, and neither does filing or rejecting. */
  lemma OnlyApprovalsTouchItems(states: seq<State>, steps: seq<Step>, n: nat, item: Id)
    requires IsRun(states, steps) && n < |steps| && item in states[n].items
    requires item in states[n + 1].items ==> states[n + 1].items[item] != states[n].items[item]
    ensures item in states[n + 1].items
    ensures || steps[n].ChangeItem?
            || (|states[n + 1].log| > |states[n].log| && ApprovalOf(states[n + 1].log[|states[n].log|], item))
  {
    RunKeepsInv(states, steps, n);
    assert Follows(states[n], steps[n], states[n + 1]);
    if steps[n].Commit? {
      assert Protected(states[n], steps[n].tx);
    }
  }

  // ---------------------------------------------------------------------------
  // what a commit means, and who committed it
  // ---------------------------------------------------------------------------

  /** A request is only filed by a guest of the laboratory, for an available item of it that nobody else has asked
    for, and says who asked, and by which link. */
  lemma CreateMeans(states: seq<State>, steps: seq<Step>, n: nat, tx: Id)
    requires IsRun(states, steps) && n < |steps| && steps[n] == Commit(tx)
    requires tx in states[n].running && states[n].running[tx].call.Create?
    ensures var s, s', call := states[n], states[n + 1], states[n].running[tx].call;
            && call.actor.role == Guest && call.actor.laboratory == Some(call.laboratory)
            && call.item in s.items && s.items[call.item] == Item(call.laboratory, Available)
            && (forall r :: r in s.requests && s.requests[r].item == call.item ==> s.requests[r].status != Pending)
            && call.newId !in s.requests && s'.items == s.items
            && s'.requests == s.requests[call.newId :=
                 Request(call.laboratory, call.item, Some(call.actor.user), call.link, Pending, None)]
  {
    RunKeepsInv(states, steps, n);
    assert Follows(states[n], steps[n], states[n + 1]);
    assert Protected(states[n], tx);
  }

  /** A request is only decided, to be approved or rejected, by an administrator or user of its laboratory, and
    while it is pending. An approval lends out the item, which was available. */
  lemma ResolveMeans(states: seq<State>, steps: seq<Step>, n: nat, tx: Id)
    requires IsRun(states, steps) && n < |steps| && steps[n] == Commit(tx)
    requires tx in states[n].running && states[n].running[tx].call.Resolve?
    ensures var s, s', call := states[n], states[n + 1], states[n].running[tx].call;
            && (call.actor.role == LabAdmin || call.actor.role == RegularUser)
            && call.request in s.requests && s.requests[call.request].status == Pending
            && call.actor.laboratory == Some(s.requests[call.request].laboratory)
            && (call.decision == Approved || call.decision == Rejected)
            && s'.requests == s.requests[call.request :=
                 s.requests[call.request].(status := call.decision, reviewedAt := Some(call.now))]
            && var item := s.requests[call.request].item;
            && item in s.items && (call.decision == Approved ==> s.items[item].status == Available)
            && s'.items == if call.decision == Approved then s.items[item := s.items[item].(status := Borrowed)]
                           else s.items
  {
    RunKeepsInv(states, steps, n);
    assert Follows(states[n], steps[n], states[n + 1]);
    assert Protected(states[n], tx) && MayBegin(states[n].running[tx].call);
  }

  /** A request is only cancelled while it is pending, by a guest of its laboratory who filed it, or who comes by
    the link under which it was filed. */
  lemma CancelMeans(states: seq<State>, steps: seq<Step>, n: nat, tx: Id)
    requires IsRun(states, steps) && n < |steps| && steps[n] == Commit(tx)
    requires tx in states[n].running && states[n].running[tx].call.Cancel?
    ensures var s, s', call := states[n], states[n + 1], states[n].running[tx].call;
            && call.actor.role == Guest
            && call.request in s.requests && s.requests[call.request].status == Pending
            && call.actor.laboratory == Some(s.requests[call.request].laboratory)
            && (s.requests[call.request].requester == Some(call.actor.user)
                || (call.link != None && s.requests[call.request].link == call.link))
            && s'.items == s.items
            && s'.requests == s.requests[call.request := s.requests[call.request].(status := Cancelled)]
  {
    RunKeepsInv(states, steps, n);
    assert Follows(states[n], steps[n], states[n + 1]);
    assert Protected(states[n], tx) && MayBegin(states[n].running[tx].call);
  }

  // ---------------------------------------------------------------------------
  // what goes through
  // ---------------------------------------------------------------------------

  lemma Stepped(states: seq<State>, steps: seq<Step>, step: Step)
    returns (states': seq<State>, steps': seq<Step>)
    requires IsRun(states, steps) && Enabled(states[|steps|], step)
    ensures IsRun(states', steps') && |steps'| == |steps| + 1
    ensures states'[|steps'|] == Apply(states[|steps|], step)
  {
    states', steps' := states + [Apply(states[|steps|], step)], steps + [step];
    forall i {:trigger steps'[i]} | 0 <= i < |steps'| ensures Follows(states'[i], steps'[i], states'[i + 1]) {
      if i < |steps| {
        assert Follows(states[i], steps[i], states[i + 1]);
      }
    }
  }

  /** Whatever has happened before: a guest of the laboratory can file a request for an item of it that is
    available, unlocked and not asked for. */
  lemma CreateGoesThrough(states: seq<State>, steps: seq<Step>, tx: Id, actor: Actor, laboratory: Id, item: Id,
                          link: Option<Id>, newId: Id)
    returns (states': seq<State>, steps': seq<Step>)
    requires IsRun(states, steps)
    requires var s := states[|steps|];
             && tx !in s.running && newId !in s.requests
             && (forall o :: o in s.running && s.running[o].call.Create? ==> s.running[o].call.newId != newId)
             && item in s.items && s.items[item] == Item(laboratory, Available) && item !in s.itemLocks
             && (forall r :: r in s.requests && s.requests[r].item == item ==> s.requests[r].status != Pending)
    requires actor.role == Guest && actor.laboratory == Some(laboratory)
    ensures IsRun(states', steps')
    ensures states'[|steps'|].requests == states[|steps|].requests[newId :=
              Request(laboratory, item, Some(actor.user), link, Pending, None)]
  {
    states', steps' := Stepped(states, steps, Begin(tx, Create(actor, laboratory, item, link, newId)));
    states', steps' := Stepped(states', steps', LockItem(tx));
    states', steps' := Stepped(states', steps', CheckItem(tx));
    states', steps' := Stepped(states', steps', CheckNoPending(tx));
    states', steps' := Stepped(states', steps', Commit(tx));
  }

  /** An administrator or user of the laboratory can decide a pending, unlocked request as they like, only that an
    approval needs the item to be available. */
  lemma ResolveGoesThrough(states: seq<State>, steps: seq<Step>, tx: Id, actor: Actor, request: Id,
                           decision: RequestStatus, now: int)
    returns (states': seq<State>, steps': seq<Step>)
    requires IsRun(states, steps)
    requires var s := states[|steps|];
             && tx !in s.running && request in s.requests && request !in s.requestLocks
             && s.requests[request].status == Pending
             && s.requests[request].item in s.items && s.requests[request].item !in s.itemLocks
             && (decision == Approved ==> s.items[s.requests[request].item].status == Available)
             && (actor.role == LabAdmin || actor.role == RegularUser)
             && actor.laboratory == Some(s.requests[request].laboratory)
    requires decision == Approved || decision == Rejected
    ensures IsRun(states', steps')
    ensures states'[|steps'|].requests == states[|steps|].requests[request :=
              states[|steps|].requests[request].(status := decision, reviewedAt := Some(now))]
  {
    var laboratory := states[|steps|].requests[request].laboratory;
    states', steps' := Stepped(states, steps, Begin(tx, Resolve(actor, laboratory, request, decision, now)));
    states', steps' := Stepped(states', steps', LockRequest(tx));
    states', steps' := Stepped(states', steps', LockItem(tx));
    states', steps' := Stepped(states', steps', CheckDecision(tx));
    states', steps' := Stepped(states', steps', Commit(tx));
  }

  /** A guest of the laboratory can cancel a pending, unlocked request that they filed, or that was filed under
    the link they come by. */
  lemma CancelGoesThrough(states: seq<State>, steps: seq<Step>, tx: Id, actor: Actor, request: Id, link: Option<Id>)
    returns (states': seq<State>, steps': seq<Step>)
    requires IsRun(states, steps)
    requires var s := states[|steps|];
             && tx !in s.running && request in s.requests && request !in s.requestLocks
             && s.requests[request].status == Pending
             && s.requests[request].item in s.items && s.requests[request].item !in s.itemLocks
             && actor.role == Guest && actor.laboratory == Some(s.requests[request].laboratory)
             && (s.requests[request].requester == Some(actor.user)
                 || (link != None && s.requests[request].link == link))
    ensures IsRun(states', steps')
    ensures states'[|steps'|].requests == states[|steps|].requests[request :=
              states[|steps|].requests[request].(status := Cancelled)]
  {
    var laboratory := states[|steps|].requests[request].laboratory;
    states', steps' := Stepped(states, steps, Begin(tx, Cancel(actor, laboratory, request, link)));
    states', steps' := Stepped(states', steps', LockRequest(tx));
    states', steps' := Stepped(states', steps', LockItem(tx));
    states', steps' := Stepped(states', steps', CheckCancellation(tx));
    states', steps' := Stepped(states', steps', Commit(tx));
  }
}
