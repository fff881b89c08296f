/** Guest links: the local identities under which users of other nodes act here.

  A link names one remote user in one laboratory and points at a local guest account.
  A visitor seen for the first time gets a shadow account; an administrator may merge
  the link onto another guest. */
module GuestLinks {
  import opened Wrappers
  import BorrowProtocol

  type Id = int

  /** The text of a uuid. */
  type Uuid = s: string | |s| == 36 witness "00000000-0000-0000-0000-000000000000"

  datatype Account = Account(username: string, role: BorrowProtocol.Role, laboratory: Option<Id>, isShadow: bool)

  datatype LinkKey = LinkKey(laboratory: Id, node: Uuid, remoteLaboratory: Uuid, remoteUser: Uuid)

  datatype Link = Link(key: LinkKey, username: string, userType: string, guest: Id)

  /** A verified inbound request, as far as links go. */
  datatype Visit = Visit(key: LinkKey, username: string, userType: string)

  /** Who a visitor is here. */
  datatype Identity = Identity(link: Id, guest: Id)

  datatype GuestError = Validation | Conflict | NotFound

  datatype Tables = Tables(
    accounts: map<Id, Account>,
    links: map<Id, Link>,
    requests: map<Id, BorrowProtocol.Request>)

  // ---------------------------------------------------------------------------
  // statements
  // ---------------------------------------------------------------------------

  predicate RowAllowed(visit: Visit) {
    visit.username != "" && (visit.userType == "lab_admin" || visit.userType == "user")
  }

  predicate LinkedAs(links: map<Id, Link>, key: LinkKey, link: Id) {
    link in links && links[link].key == key
  }

  predicate Linked(links: map<Id, Link>, key: LinkKey) {
    exists link :: link in links && LinkedAs(links, key, link)
  }

  predicate Referenced(links: map<Id, Link>, guest: Id) {
    exists link :: link in links && links[link].guest == guest
  }

  predicate UsernameTaken(accounts: map<Id, Account>, username: string) {
    exists id :: id in accounts && accounts[id].username == username
  }

  function ShadowUsername(key: LinkKey): string {
    "fed_" + key.node[..8] + "_" + key.remoteUser[..8]
  }

  function Shadow(key: LinkKey): Account {
    Account(ShadowUsername(key), BorrowProtocol.Guest, Some(key.laboratory), true)
  }

  function Refreshed(links: map<Id, Link>, link: Id, visit: Visit): map<Id, Link>
    requires link in links
  {
    links[link := links[link].(username := visit.username, userType := visit.userType)]
  }

  /** Deleting an account takes its links along and clears what refers to either. */
  function WithoutAccount(s: Tables, id: Id): Tables {
    var links := map l | l in s.links && s.links[l].guest != id :: s.links[l];
    Tables(s.accounts - {id}, links, map r | r in s.requests :: Cleared(s.requests[r], id, links))
  }

  function Cleared(row: BorrowProtocol.Request, id: Id, links: map<Id, Link>): BorrowProtocol.Request {
    row.(requester := if row.requester == Some(id) then None else row.requester,
         link := if row.link.Some? && row.link.value !in links then None else row.link)
  }

  function WithoutShadow(s: Tables, id: Id): Tables {
    if id in s.accounts && s.accounts[id].isShadow then WithoutAccount(s, id) else s
  }

  // ---------------------------------------------------------------------------
  // what the transactions do
  // ---------------------------------------------------------------------------

  /** A visitor who is known already; None if nobody is linked under this key. */
  ghost predicate Touches(s: Tables, visit: Visit, link: Id, s': Tables) {
    LinkedAs(s.links, visit.key, link) && RowAllowed(visit) && s' == s.(links := Refreshed(s.links, link, visit))
  }

  /** A first visit: a shadow account under a new id, and a link to it. */
  function Welcomed(s: Tables, visit: Visit, newUser: Id, newLink: Id): Tables {
    s.(accounts := s.accounts[newUser := Shadow(visit.key)],
       links := s.links[newLink := Link(visit.key, visit.username, visit.userType, newUser)])
  }

  predicate MayBecomeGuest(s: Tables, laboratory: Id, target: Id) {
    target in s.accounts && GuestOf(s.accounts[target], laboratory)
  }

  predicate GuestOf(account: Account, laboratory: Id) {
    account.role == BorrowProtocol.Guest && account.laboratory == Some(laboratory)
  }

  predicate LinkOf(s: Tables, laboratory: Id, link: Id) {
    link in s.links && s.links[link].key.laboratory == laboratory
  }

  function Merged(s: Tables, link: Id, target: Id): Tables
    requires link in s.links
  {
    var s' := s.(links := s.links[link := s.links[link].(guest := target)]);
    if Referenced(s'.links, s.links[link].guest) then s' else WithoutShadow(s', s.links[link].guest)
  }

  // ---------------------------------------------------------------------------
  // the invariant
  // ---------------------------------------------------------------------------

  ghost predicate OneLinkPerKey(s: Tables) {
    forall a, b :: a in s.links && b in s.links && s.links[a].key == s.links[b].key ==> a == b
  }

  ghost predicate GuestsExist(s: Tables) {
    forall l :: l in s.links ==> s.links[l].guest in s.accounts
  }

  ghost predicate NoOrphans(s: Tables) {
    forall u :: u in s.accounts && s.accounts[u].isShadow ==> Referenced(s.links, u)
  }

  ghost predicate RequestsRefer(s: Tables) {
    forall r :: r in s.requests ==>
                  && (s.requests[r].link.Some? ==> s.requests[r].link.value in s.links)
                  && (s.requests[r].requester.Some? ==> s.requests[r].requester.value in s.accounts)
  }

  ghost predicate Consistent(s: Tables) {
    && OneLinkPerKey(s) && GuestsExist(s) && NoOrphans(s) && RequestsRefer(s)
  }

  /** What may change between two states: links keep their keys, accounts that are not shadows stay
    as they are, and requests keep their links. */
  ghost predicate Evolves(s: Tables, s': Tables) {
    && (forall l :: l in s.links ==> KeepsKey(s, s', l))
    && (forall u :: u in s.accounts && !s.accounts[u].isShadow ==> KeepsAccount(s, s', u))
    && (forall r :: r in s.requests ==> KeepsFiling(s, s', r))
  }

  predicate KeepsKey(s: Tables, s': Tables, link: Id)
    requires link in s.links
  {
    link in s'.links && s'.links[link].key == s.links[link].key
  }

  predicate KeepsAccount(s: Tables, s': Tables, id: Id)
    requires id in s.accounts
  {
    id in s'.accounts && s'.accounts[id] == s.accounts[id]
  }

  predicate KeepsFiling(s: Tables, s': Tables, request: Id)
    requires request in s.requests
  {
    && request in s'.requests && s'.requests[request].link == s.requests[request].link
    && s'.requests[request].laboratory == s.requests[request].laboratory
  }

  lemma TouchKeepsConsistency(s: Tables, visit: Visit, link: Id, s': Tables)
    requires Consistent(s) && Touches(s, visit, link, s')
    ensures Consistent(s') && Evolves(s, s')
  {
    forall u | u in s'.accounts && s'.accounts[u].isShadow ensures Referenced(s'.links, u) {
      var l :| l in s.links && s.links[l].guest == u;
      assert s'.links[l].guest == u;
    }
  }

  lemma WelcomeKeepsConsistency(s: Tables, visit: Visit, newUser: Id, newLink: Id)
    requires Consistent(s) && newUser !in s.accounts && newLink !in s.links && !Linked(s.links, visit.key)
    ensures Consistent(Welcomed(s, visit, newUser, newLink)) && Evolves(s, Welcomed(s, visit, newUser, newLink))
  {
    var s' := Welcomed(s, visit, newUser, newLink);
    forall l | l in s.links ensures s.links[l].key != visit.key {
      assert !LinkedAs(s.links, visit.key, l);
    }
    forall u | u in s'.accounts && s'.accounts[u].isShadow ensures Referenced(s'.links, u) {
      if u == newUser {
        assert s'.links[newLink].guest == u;
      } else {
        var l :| l in s.links && s.links[l].guest == u;
        assert s'.links[l].guest == u;
      }
    }
  }

  /** A shadow nobody points at goes alone: no link is lost with it. */
  lemma DroppingAShadow(s: Tables, id: Id)
    requires OneLinkPerKey(s) && GuestsExist(s) && RequestsRefer(s)
    requires !Referenced(s.links, id)
    requires forall u :: u in s.accounts && s.accounts[u].isShadow && u != id ==> Referenced(s.links, u)
    ensures Consistent(WithoutShadow(s, id)) && Evolves(s, WithoutShadow(s, id))
    ensures WithoutShadow(s, id).links == s.links
  {
    forall l | l in s.links ensures s.links[l].guest != id {
    }
    assert WithoutShadow(s, id).links == s.links;
  }

  lemma MergeKeepsConsistency(s: Tables, laboratory: Id, link: Id, target: Id)
    requires Consistent(s) && LinkOf(s, laboratory, link) && MayBecomeGuest(s, laboratory, target)
    ensures Consistent(Merged(s, link, target)) && Evolves(s, Merged(s, link, target))
    ensures link in Merged(s, link, target).links && Merged(s, link, target).links[link].guest == target
  {
    var s' := s.(links := s.links[link := s.links[link].(guest := target)]);
    var was := s.links[link].guest;
    forall u | u in s'.accounts && s'.accounts[u].isShadow && u != was ensures Referenced(s'.links, u) {
      var l :| l in s.links && s.links[l].guest == u;
      assert s'.links[l].guest == u;
    }
    if !Referenced(s'.links, was) {
      DroppingAShadow(s', was);
    }
  }

  // ---------------------------------------------------------------------------
  // what visits and merges come to
  // ---------------------------------------------------------------------------

  /** Two visitors get the same shadow name exactly if their nodes and their own ids start with the same eight
    characters. */
  lemma ShadowNamesAgree(a: LinkKey, b: LinkKey)
    ensures ShadowUsername(a) == ShadowUsername(b) <==>
            a.node[..8] == b.node[..8] && a.remoteUser[..8] == b.remoteUser[..8]
    ensures ShadowUsername(a) == "fed_" + a.node[..8] + "_" + a.remoteUser[..8]
  {
    var x, y := ShadowUsername(a), ShadowUsername(b);
    assert x[4..12] == a.node[..8] && y[4..12] == b.node[..8];
    assert x[13..] == a.remoteUser[..8] && y[13..] == b.remoteUser[..8];
  }

  /** A visitor who is known gets name and kind refreshed, and nothing else happens. */
  lemma TouchMeans(s: Tables, visit: Visit, link: Id, s': Tables)
    requires Touches(s, visit, link, s')
    ensures link in s.links && s.links[link].key == visit.key && visit.username != ""
    ensures visit.userType == "lab_admin" || visit.userType == "user"
    ensures s'.accounts == s.accounts && s'.requests == s.requests && s'.links.Keys == s.links.Keys
    ensures s'.links[link] == Link(visit.key, visit.username, visit.userType, s.links[link].guest)
    ensures forall l :: l in s.links && l != link ==> s'.links[l] == s.links[l]
  {
  }

  /** A new visitor gets a shadow account, a guest of the laboratory, and a link to it. */
  lemma WelcomeMeans(s: Tables, visit: Visit, newUser: Id, newLink: Id)
    requires newUser !in s.accounts && newLink !in s.links
    ensures var s', key := Welcomed(s, visit, newUser, newLink), visit.key;
            && s'.requests == s.requests
            && s'.accounts == s.accounts[newUser := Account("fed_" + key.node[..8] + "_" + key.remoteUser[..8],
                                                            BorrowProtocol.Guest, Some(key.laboratory), true)]
            && s'.links == s.links[newLink := Link(key, visit.username, visit.userType, newUser)]
  {
  }

  /** A merge points the link at the target, and deletes the account it left exactly if that is a shadow that no
    link points at any more. Only requests of that account are touched, and only what they say of it. */
  lemma MergeMeans(s: Tables, link: Id, target: Id)
    requires Consistent(s) && link in s.links && target in s.accounts
    ensures var s', was := Merged(s, link, target), s.links[link].guest;
            && s'.links == s.links[link := s.links[link].(guest := target)]
            && (forall u :: u in s'.accounts <==>
                  u in s.accounts && !(u == was && u != target && s.accounts[u].isShadow
                                       && forall l :: l in s.links && l != link ==> s.links[l].guest != u))
            && (forall u :: u in s'.accounts ==> s'.accounts[u] == s.accounts[u])
            && s'.requests.Keys == s.requests.Keys
            && (forall r :: r in s.requests ==>
                  s'.requests[r] == if s.requests[r].requester == Some(was) && was !in s'.accounts
                                    then s.requests[r].(requester := None) else s.requests[r])
  {
    var t := s.(links := s.links[link := s.links[link].(guest := target)]);
    var was := s.links[link].guest;
    if Referenced(t.links, was) {
      var l :| l in t.links && t.links[l].guest == was;
      assert l == link || s.links[l].guest == was;
    } else {
      forall l | l in t.links ensures t.links[l].guest != was {
      }
      assert t.links[link].guest == target;
      forall l | l in s.links && l != link ensures s.links[l].guest != was {
        assert t.links[l] == s.links[l];
      }
      assert WithoutShadow(t, was).links == t.links;
    }
  }

  /** All accounts are shadows of the visitors that are linked. */
  ghost predicate OnlyShadows(s: Tables) {
    && (forall l :: l in s.links ==> ShadowOf(s, l, s.links[l].guest))
    && (forall u {:trigger ShadowOfSome(s, u)} :: u in s.accounts ==> ShadowOfSome(s, u))
  }

  predicate ShadowOfSome(s: Tables, id: Id) {
    exists l :: l in s.links && ShadowOf(s, l, id)
  }

  predicate ShadowOf(s: Tables, link: Id, id: Id)
    requires link in s.links
  {
    s.links[link].guest == id && id in s.accounts && s.accounts[id].username == ShadowUsername(s.links[link].key)
  }

  predicate SamePrefixes(a: LinkKey, b: LinkKey) {
    a.node[..8] == b.node[..8] && a.remoteUser[..8] == b.remoteUser[..8]
  }

  /** Where all accounts are shadows of linked visitors, the name of a new one is free exactly if no linked
    visitor shares both prefixes with them. */
  lemma NameIsFreeExactly(s: Tables, visit: Visit)
    requires OnlyShadows(s)
    ensures !UsernameTaken(s.accounts, ShadowUsername(visit.key)) <==>
            forall l :: l in s.links ==> !SamePrefixes(s.links[l].key, visit.key)
  {
    forall l | l in s.links && SamePrefixes(s.links[l].key, visit.key)
      ensures UsernameTaken(s.accounts, ShadowUsername(visit.key))
    {
      assert ShadowOf(s, l, s.links[l].guest);
      ShadowNamesAgree(s.links[l].key, visit.key);
    }
    forall u | u in s.accounts && s.accounts[u].username == ShadowUsername(visit.key)
      ensures exists l :: l in s.links && SamePrefixes(s.links[l].key, visit.key)
    {
      assert ShadowOfSome(s, u);
      var l :| l in s.links && ShadowOf(s, l, u);
      ShadowNamesAgree(s.links[l].key, visit.key);
    }
  }

  // ---------------------------------------------------------------------------
  // the tables, changed in place
  // ---------------------------------------------------------------------------

  class Guests {
    var accounts: map<Id, Account>
    var links: map<Id, Link>
    var requests: map<Id, BorrowProtocol.Request>

    function State(): Tables
      reads this
    {
      Tables(accounts, links, requests)
    }

    method TouchGuestLink(visit: Visit) returns (r: Result<Option<Identity>, GuestError>)
      modifies this`links
      ensures r.Failure? ==> r.error == Validation && links == old(links)
      ensures r.Failure? <==> old(Linked(links, visit.key)) && !RowAllowed(visit)
      ensures r.Success? && r.value.None? ==> links == old(links) && !Linked(links, visit.key)
      ensures r.Success? && r.value.Some? ==>
                && Touches(old(State()), visit, r.value.value.link, State())
                && r.value.value.guest == links[r.value.value.link].guest
    {
      if !Linked(links, visit.key) {
        return Success(None);
      }
      if !RowAllowed(visit) {
        return Failure(Validation);
      }
      var link :| link in links && LinkedAs(links, visit.key, link);
      links := Refreshed(links, link, visit);
      r := Success(Some(Identity(link, links[link].guest)));
    }

    /** The transaction of a visitor who was not linked a moment ago. Meanwhile
      somebody else may have linked them; that link stands, and the new account goes. */
    method StoreGuestLink(visit: Visit, newUser: Id, newLink: Id) returns (r: Result<Identity, GuestError>)
      requires Consistent(State()) && newUser !in accounts && newLink !in links
      modifies this`accounts, this`links, this`requests
      ensures Consistent(State()) && Evolves(old(State()), State())
      ensures r.Success? <==> !UsernameTaken(old(accounts), ShadowUsername(visit.key)) && RowAllowed(visit)
      ensures r.Failure? ==> State() == old(State())
      ensures r.Failure? ==>
                r.error == if UsernameTaken(old(accounts), ShadowUsername(visit.key)) then Conflict else Validation
      ensures r.Success? ==> LinkedAs(links, visit.key, r.value.link) && links[r.value.link].guest == r.value.guest
      ensures r.Success? && !old(Linked(links, visit.key)) ==>
                r.value == Identity(newLink, newUser) && State() == Welcomed(old(State()), visit, newUser, newLink)
      ensures r.Success? && old(Linked(links, visit.key)) ==> Touches(old(State()), visit, r.value.link, State())
    {
      ghost var before := State();
      if UsernameTaken(accounts, ShadowUsername(visit.key)) {
        return Failure(Conflict);
      }
      if !RowAllowed(visit) {
        return Failure(Validation);
      }
      accounts := accounts[newUser := Shadow(visit.key)];
      var link := newLink;
      if Linked(links, visit.key) {
        link :| link in links && LinkedAs(links, visit.key, link);
        links := Refreshed(links, link, visit);
        TouchKeepsConsistency(before, visit, link, before.(links := links));
      } else {
        links := links[newLink := Link(visit.key, visit.username, visit.userType, newUser)];
        WelcomeKeepsConsistency(before, visit, newUser, newLink);
      }
      r := Success(Identity(link, links[link].guest));
      if r.value.guest != newUser {
        DropNewShadow(before.(links := links), newUser);
      }
    }

    /** Takes back an account that was inserted and not used. */
    method DropNewShadow(ghost before: Tables, newUser: Id)
      requires Consistent(before) && newUser !in before.accounts
      requires newUser in accounts && accounts[newUser].isShadow
      requires State() == before.(accounts := before.accounts[newUser := accounts[newUser]])
      modifies this`accounts, this`links, this`requests
      ensures State() == before
    {
      forall l | l in links ensures links[l].guest != newUser {
        assert links[l].guest in before.accounts;
      }
      DeleteShadowGuest(newUser);
      assert links == before.links;
      forall r | r in before.requests ensures requests[r] == before.requests[r] {
      }
      assert accounts == before.accounts;
    }

    method DeleteShadowGuest(id: Id)
      modifies this`accounts, this`links, this`requests
      ensures State() == WithoutShadow(old(State()), id)
    {
      if id in accounts && accounts[id].isShadow {
        var kept := map l | l in links && links[l].guest != id :: links[l];
        accounts, links, requests := accounts - {id}, kept, map r | r in requests :: Cleared(requests[r], id, kept);
      }
    }

    /** The identity a visitor acts under. */
    method UpsertGuestLink(visit: Visit, newUser: Id, newLink: Id) returns (r: Result<Identity, GuestError>)
      requires Consistent(State()) && newUser !in accounts && newLink !in links
      modifies this`accounts, this`links, this`requests
      ensures Consistent(State()) && Evolves(old(State()), State())
      ensures r.Success? <==>
              && RowAllowed(visit)
              && (old(Linked(links, visit.key)) || !UsernameTaken(old(accounts), ShadowUsername(visit.key)))
      ensures r.Failure? ==> State() == old(State())
      ensures r.Success? ==> LinkedAs(links, visit.key, r.value.link) && links[r.value.link].guest == r.value.guest
      ensures r.Success? && old(Linked(links, visit.key)) ==> Touches(old(State()), visit, r.value.link, State())
      ensures r.Success? && !old(Linked(links, visit.key)) ==>
                State() == Welcomed(old(State()), visit, newUser, newLink)
    {
      ghost var before := State();
      var touched := TouchGuestLink(visit);
      if touched.Failure? {
        return Failure(touched.error);
      }
      if touched.value.Some? {
        TouchKeepsConsistency(before, visit, touched.value.value.link, State());
        return Success(touched.value.value);
      }
      r := StoreGuestLink(visit, newUser, newLink);
    }

    /** Points a link at another guest of its laboratory. */
    method MergeGuestLink(laboratory: Id, link: Id, target: Id) returns (r: Result<(), GuestError>)
      requires Consistent(State())
      modifies this`accounts, this`links, this`requests
      ensures Consistent(State()) && Evolves(old(State()), State())
      ensures r.Success? <==> MayBecomeGuest(old(State()), laboratory, target) && LinkOf(old(State()), laboratory, link)
      ensures r.Success? ==> State() == Merged(old(State()), link, target)
      ensures r.Success? ==> link in links && links[link].guest == target
      ensures r.Failure? ==> State() == old(State())
      ensures r.Failure? ==>
                r.error == if MayBecomeGuest(old(State()), laboratory, target) then NotFound else Validation
    {
      if !MayBecomeGuest(State(), laboratory, target) {
        return Failure(Validation);
      }
      if !LinkOf(State(), laboratory, link) {
        return Failure(NotFound);
      }
      MergeKeepsConsistency(State(), laboratory, link, target);
      var was := links[link].guest;
      MergeGuestLinkUser(link, was, target);
      r := Success(());
    }

    method MergeGuestLinkUser(link: Id, was: Id, target: Id)
      requires link in links && links[link].guest == was
      modifies this`accounts, this`links, this`requests
      ensures State() == Merged(old(State()), link, target)
    {
      links := links[link := links[link].(guest := target)];
      if !Referenced(links, was) {
        DeleteShadowGuest(was);
      }
    }
  }

  // ---------------------------------------------------------------------------
  // every run of visits and merges
  // ---------------------------------------------------------------------------

  /** The transactions run one after another. A visit is two of them, `Touch` and, if that
    found nothing, `Store`, and anything may happen in between. */
  datatype Step =
    | Touch(visit: Visit)
    | Store(visit: Visit, newUser: Id, newLink: Id)
    | Merge(laboratory: Id, link: Id, target: Id)
    | FileRequest(request: Id, item: Id, link: Id)
    | DecideRequest(request: Id, status: BorrowProtocol.RequestStatus, reviewedAt: Option<int>)
    | AddAccount(id: Id, account: Account)
    /** An administrator changes an account, or deletes it, be it a shadow or not. */
    | UpdateAccount(id: Id, newUsername: Option<string>, role: BorrowProtocol.Role, home: Option<Id>)
    | DeleteAccount(id: Id)

  ghost predicate Refreshes(s: Tables, visit: Visit, s': Tables) {
    exists link :: Touches(s, visit, link, s')
  }

  ghost predicate Follows(s: Tables, step: Step, s': Tables) {
    match step
    case Touch(visit) => if Linked(s.links, visit.key) && RowAllowed(visit) then Refreshes(s, visit, s') else s' == s
    case Store(visit, newUser, newLink) =>
      && newUser !in s.accounts && newLink !in s.links
      && if UsernameTaken(s.accounts, ShadowUsername(visit.key)) || !RowAllowed(visit) then s' == s
         else if Linked(s.links, visit.key) then Refreshes(s, visit, s')
         else s' == Welcomed(s, visit, newUser, newLink)
    case Merge(laboratory, link, target) =>
      s' == if MayBecomeGuest(s, laboratory, target) && LinkOf(s, laboratory, link) then Merged(s, link, target) else s
    case FileRequest(request, item, link) =>
      && request !in s.requests && link in s.links
      && MayBecomeGuest(s, s.links[link].key.laboratory, s.links[link].guest)
      && s' == s.(requests := s.requests[request := Filed(s.links[link], item, link)])
    case DecideRequest(request, status, reviewedAt) =>
      && request in s.requests
      && s' == s.(requests := s.requests[request := s.requests[request].(status := status, reviewedAt := reviewedAt)])
    case AddAccount(id, account) =>
      && id !in s.accounts && !account.isShadow && !UsernameTaken(s.accounts, account.username)
      && s' == s.(accounts := s.accounts[id := account])
    case UpdateAccount(id, username, _, _) =>
      && id in s.accounts
      && s' == if username.Some? && TakenByOther(s.accounts, id, username.value) then s
               else s.(accounts := s.accounts[id := Updated(s.accounts[id], step)])
    case DeleteAccount(id) => id in s.accounts && s' == WithoutAccount(s, id)
  }

  /** Whoever comes by an existing link has their name and kind noted there, unless the row is not allowed. */
  lemma VisitsAreNoted(s: Tables, visit: Visit, link: Id, s': Tables)
    requires Consistent(s) && Follows(s, Touch(visit), s') && link in s.links && s.links[link].key == visit.key
    ensures s'.links == if visit.username != "" && (visit.userType == "lab_admin" || visit.userType == "user")
                        then s.links[link := Link(visit.key, visit.username, visit.userType, s.links[link].guest)]
                        else s.links
    ensures s'.accounts == s.accounts && s'.requests == s.requests
  {
    assert LinkedAs(s.links, visit.key, link);
    if RowAllowed(visit) {
      var l :| Touches(s, visit, l, s');
      assert l == link;
    }
  }

  /** An administrator's update gives an account the role and laboratory asked for, and the name if there is one
    and nobody else has it; a taken name changes nothing. */
  lemma AccountUpdateMeans(s: Tables, id: Id, username: Option<string>, role: BorrowProtocol.Role, home: Option<Id>,
                           s': Tables)
    requires Follows(s, UpdateAccount(id, username, role, home), s')
    ensures id in s.accounts && s'.links == s.links && s'.requests == s.requests
    ensures var was := s.accounts[id];
            s'.accounts ==
            if username.Some? && exists o :: o in s.accounts && o != id && s.accounts[o].username == username.value
            then s.accounts
            else s.accounts[id := Account(if username == None then was.username else username.value,
                                          role, home, was.isShadow)]
  {
  }

  predicate TakenByOther(accounts: map<Id, Account>, id: Id, username: string) {
    exists other :: other in accounts && other != id && accounts[other].username == username
  }

  function Updated(account: Account, step: Step): Account
    requires step.UpdateAccount?
  {
    account.(username := if step.newUsername.Some? then step.newUsername.value else account.username,
             role := step.role, laboratory := step.home)
  }

  /** The step deletes the account that the link points at. */
  predicate Drops(s: Tables, step: Step, link: Id) {
    step.DeleteAccount? && link in s.links && s.links[link].guest == step.id
  }

  function Filed(from: Link, item: Id, link: Id): BorrowProtocol.Request {
    BorrowProtocol.Request(from.key.laboratory, item, Some(from.guest), Some(link), BorrowProtocol.Pending, None)
  }

  ghost predicate IsRun(states: seq<Tables>, steps: seq<Step>) {
    && |states| == |steps| + 1
    && states[0].links == map[] && states[0].requests == map[]
    && (forall u :: u in states[0].accounts ==> !states[0].accounts[u].isShadow)
    && forall i {:trigger steps[i]} :: 0 <= i < |steps| ==> Follows(states[i], steps[i], states[i + 1])
  }

  lemma StepKeepsConsistency(s: Tables, step: Step, s': Tables)
    requires Consistent(s) && Follows(s, step, s')
    ensures Consistent(s') && (!step.DeleteAccount? && !step.UpdateAccount? ==> Evolves(s, s'))
  {
    match step
    case Merge(laboratory, link, target) =>
      if MayBecomeGuest(s, laboratory, target) && LinkOf(s, laboratory, link) {
        MergeKeepsConsistency(s, laboratory, link, target);
      }
    case Touch(visit) => VisitKeepsConsistency(s, visit, s');
    case Store(visit, newUser, newLink) =>
      if !Linked(s.links, visit.key) {
        WelcomeKeepsConsistency(s, visit, newUser, newLink);
      }
      VisitKeepsConsistency(s, visit, s');
    case DeleteAccount(id) => DeleteKeepsConsistency(s, id);
    case _ => LinksAloneKeepOrphansOut(s, s');
  }

  /** Deleting an account takes exactly the links along that point at it. */
  lemma DeleteKeepsConsistency(s: Tables, id: Id)
    requires Consistent(s)
    ensures Consistent(WithoutAccount(s, id))
  {
    var s' := WithoutAccount(s, id);
    forall u | u in s'.accounts && s'.accounts[u].isShadow ensures Referenced(s'.links, u) {
      var l :| l in s.links && s.links[l].guest == u;
      assert s'.links[l].guest == u;
    }
  }

  lemma VisitKeepsConsistency(s: Tables, visit: Visit, s': Tables)
    requires Consistent(s)
    ensures Refreshes(s, visit, s') ==> Consistent(s') && Evolves(s, s')
  {
    if Refreshes(s, visit, s') {
      var link :| Touches(s, visit, link, s');
      TouchKeepsConsistency(s, visit, link, s');
    }
  }

  lemma LinksAloneKeepOrphansOut(s: Tables, s': Tables)
    requires NoOrphans(s) && s'.links == s.links
    requires forall u :: u in s'.accounts && s'.accounts[u].isShadow ==> u in s.accounts && s.accounts[u].isShadow
    ensures NoOrphans(s')
  {
  }

  lemma {:induction false} RunKeepsConsistency(states: seq<Tables>, steps: seq<Step>, n: nat)
    requires IsRun(states, steps) && n < |states|
    ensures Consistent(states[n])
  {
    if n > 0 {
      RunKeepsConsistency(states, steps, n - 1);
      assert Follows(states[n - 1], steps[n - 1], states[n]);
      StepKeepsConsistency(states[n - 1], steps[n - 1], states[n]);
    }
  }

  /** A link survives a step, under its key, exactly if the step does not delete its guest; an account
    that is no shadow, if the step does not delete it, and unchanged if the step does not update it; and
    a request keeps its link as long as that survives. */
  lemma NextKeeps(states: seq<Tables>, steps: seq<Step>, n: nat)
    requires IsRun(states, steps) && n < |steps|
    ensures forall l :: l in states[n].links ==>
              && (l in states[n + 1].links <==> !Drops(states[n], steps[n], l))
              && (l in states[n + 1].links ==> KeepsKey(states[n], states[n + 1], l))
    ensures forall u :: u in states[n].accounts && !states[n].accounts[u].isShadow && steps[n] != DeleteAccount(u) ==>
              && u in states[n + 1].accounts && !states[n + 1].accounts[u].isShadow
              && (Updates(steps[n], u) || KeepsAccount(states[n], states[n + 1], u))
    ensures forall r :: r in states[n].requests ==>
              states[n].requests[r].link.None? || Drops(states[n], steps[n], states[n].requests[r].link.value)
              || KeepsFiling(states[n], states[n + 1], r)
  {
    RunKeepsConsistency(states, steps, n);
    assert Follows(states[n], steps[n], states[n + 1]);
    StepKeepsConsistency(states[n], steps[n], states[n + 1]);
    if !steps[n].DeleteAccount? && !steps[n].UpdateAccount? {
      forall u | u in states[n].accounts && !states[n].accounts[u].isShadow ensures u in states[n + 1].accounts {
        assert KeepsAccount(states[n], states[n + 1], u);
      }
      forall l | l in states[n].links ensures l in states[n + 1].links {
        assert KeepsKey(states[n], states[n + 1], l);
      }
    }
  }

  /** From step `m` up to `n`, nobody deletes the account the link points at. */
  ghost predicate NeverDropped(states: seq<Tables>, steps: seq<Step>, link: Id, m: nat, n: nat)
    requires n <= |steps| && n <= |states|
  {
    forall k {:trigger steps[k]} :: m <= k < n ==> !Drops(states[k], steps[k], link)
  }

  /** Links keep their ids and keys until their guest is deleted. */
  lemma {:induction false} LinksLast(states: seq<Tables>, steps: seq<Step>, m: nat, n: nat, link: Id)
    requires IsRun(states, steps) && m <= n < |states| && link in states[m].links
    requires NeverDropped(states, steps, link, m, n)
    ensures KeepsKey(states[m], states[n], link)
  {
    if m < n {
      LinksLast(states, steps, m, n - 1, link);
      NextKeeps(states, steps, n - 1);
      assert !Drops(states[n - 1], steps[n - 1], link);
      assert KeepsKey(states[n - 1], states[n], link);
    }
  }

  /** A link is lost only with the account it points at. */
  lemma LostOnlyWithItsGuest(states: seq<Tables>, steps: seq<Step>, m: nat, n: nat, link: Id)
    requires IsRun(states, steps) && m <= n < |states| && link in states[m].links && link !in states[n].links
    ensures exists k :: m <= k < n && Drops(states[k], steps[k], link)
  {
    if NeverDropped(states, steps, link, m, n) {
      LinksLast(states, steps, m, n, link);
    }
  }

  predicate Updates(step: Step, id: Id) {
    step.UpdateAccount? && step.id == id
  }

  /** An account that is no shadow lasts until an administrator deletes it, and stays as it is until
    an administrator updates it: no visit and no merge ever touches it. */
  lemma {:induction false} RealAccountsLast(states: seq<Tables>, steps: seq<Step>, m: nat, n: nat, id: Id)
    requires IsRun(states, steps) && m <= n < |states|
    requires id in states[m].accounts && !states[m].accounts[id].isShadow
    requires forall k :: m <= k < n ==> steps[k] != DeleteAccount(id)
    ensures id in states[n].accounts && !states[n].accounts[id].isShadow
    ensures (forall k :: m <= k < n ==> !Updates(steps[k], id)) ==> KeepsAccount(states[m], states[n], id)
  {
    if m < n {
      RealAccountsLast(states, steps, m, n - 1, id);
      NextKeeps(states, steps, n - 1);
      assert Updates(steps[n - 1], id) || KeepsAccount(states[n - 1], states[n], id);
    }
  }

  /** A request keeps the link it was filed under. */
  lemma {:induction false} FilingsLast(states: seq<Tables>, steps: seq<Step>, m: nat, n: nat, request: Id, link: Id)
    requires IsRun(states, steps) && m <= n < |states|
    requires request in states[m].requests && states[m].requests[request].link == Some(link)
    requires NeverDropped(states, steps, link, m, n)
    ensures KeepsFiling(states[m], states[n], request)
  {
    if m < n {
      FilingsLast(states, steps, m, n - 1, request, link);
      NextKeeps(states, steps, n - 1);
      assert !Drops(states[n - 1], steps[n - 1], link);
      assert KeepsFiling(states[n - 1], states[n], request);
    }
  }

  /** In every reachable state: one link per key, every link at an existing account, every shadow
    account at the end of some link. */
  lemma LinksAndShadowsMatch(states: seq<Tables>, steps: seq<Step>, n: nat)
    requires IsRun(states, steps) && n < |states|
    ensures OneLinkPerKey(states[n]) && GuestsExist(states[n]) && NoOrphans(states[n])
  {
    RunKeepsConsistency(states, steps, n);
  }

  // ---------------------------------------------------------------------------
  // is the account behind a link a guest?
  // ---------------------------------------------------------------------------

  /** The step updates the account, and it becomes, or does not become, a guest of the laboratory. */
  predicate Rewrites(s: Tables, step: Step, id: Id, laboratory: Id, guest: bool) {
    && Updates(step, id) && id in s.accounts
    && !(step.newUsername.Some? && TakenByOther(s.accounts, id, step.newUsername.value))
    && GuestOf(Updated(s.accounts[id], step), laboratory) == guest
  }

  /** By step `k` the account ceased to be a guest of the laboratory, and up to `n` it is there and was
    not made one again. */
  ghost predicate DemotedAt(states: seq<Tables>, steps: seq<Step>, k: nat, n: nat, id: Id, laboratory: Id)
    requires n < |states| && n <= |steps|
  {
    && k < n && Rewrites(states[k], steps[k], id, laboratory, false)
    && (forall i {:trigger states[i]} :: k < i <= n ==> id in states[i].accounts)
    && (forall i {:trigger steps[i]} :: k < i < n ==> !Rewrites(states[i], steps[i], id, laboratory, true))
  }

  ghost predicate Demoted(states: seq<Tables>, steps: seq<Step>, n: nat, id: Id, laboratory: Id)
    requires n < |states| && n <= |steps|
  {
    exists k :: 0 <= k < n && DemotedAt(states, steps, k, n, id, laboratory)
  }

  lemma DemotedStep(s: Tables, step: Step, s': Tables, id: Id, laboratory: Id)
    requires Consistent(s) && Follows(s, step, s') && id in s.accounts && id in s'.accounts
    ensures GuestOf(s'.accounts[id], laboratory) <==>
            Rewrites(s, step, id, laboratory, true)
            || (GuestOf(s.accounts[id], laboratory) && !Rewrites(s, step, id, laboratory, false))
  {
    match step
    case Touch(visit) => TouchKeepsGuests(s, visit, s');
    case Store(visit, _, _) => TouchKeepsGuests(s, visit, s');
    case _ =>
  }

  lemma DemotionGoesOn(states: seq<Tables>, steps: seq<Step>, n: nat, id: Id, laboratory: Id)
    requires n + 1 < |states| && n < |steps| && id in states[n].accounts && id in states[n + 1].accounts
    ensures Demoted(states, steps, n + 1, id, laboratory) <==>
            || Rewrites(states[n], steps[n], id, laboratory, false)
            || (Demoted(states, steps, n, id, laboratory) && !Rewrites(states[n], steps[n], id, laboratory, true))
  {
    if Rewrites(states[n], steps[n], id, laboratory, false) {
      assert DemotedAt(states, steps, n, n + 1, id, laboratory);
    }
    if Demoted(states, steps, n, id, laboratory) && !Rewrites(states[n], steps[n], id, laboratory, true) {
      var k :| 0 <= k < n && DemotedAt(states, steps, k, n, id, laboratory);
      assert DemotedAt(states, steps, k, n + 1, id, laboratory);
    }
    if Demoted(states, steps, n + 1, id, laboratory) {
      var k :| 0 <= k < n + 1 && DemotedAt(states, steps, k, n + 1, id, laboratory);
      assert steps[n] == steps[n];
      assert k < n ==> DemotedAt(states, steps, k, n, id, laboratory);
    }
  }

  lemma {:induction false} StaysDemoted(states: seq<Tables>, steps: seq<Step>, k: nat, n: nat, id: Id, laboratory: Id)
    requires IsRun(states, steps) && n < |states| && DemotedAt(states, steps, k, n, id, laboratory)
    ensures id in states[n].accounts && !GuestOf(states[n].accounts[id], laboratory)
  {
    var s, step := states[n - 1], steps[n - 1];
    RunKeepsConsistency(states, steps, n - 1);
    assert Follows(s, step, states[n]);
    if k < n - 1 {
      assert DemotedAt(states, steps, k, n - 1, id, laboratory);
      StaysDemoted(states, steps, k, n - 1, id, laboratory);
      DemotedStep(s, step, states[n], id, laboratory);
    }
  }

  /** A step that points a link at another account than before points it at a guest of its laboratory,
    and leaves that account as it is. */
  lemma NewGuestIsGuest(s: Tables, step: Step, s': Tables, link: Id)
    requires Consistent(s) && Follows(s, step, s') && link in s'.links
    requires link in s.links ==> s.links[link].guest != s'.links[link].guest
    ensures var guest, laboratory := s'.links[link].guest, s'.links[link].key.laboratory;
            && MayBecomeGuest(s', laboratory, guest) && !step.UpdateAccount?
            && (guest in s.accounts ==> GuestOf(s.accounts[guest], laboratory))
  {
    match step
    case Touch(visit) => TouchKeepsGuests(s, visit, s');
    case Store(visit, _, _) => TouchKeepsGuests(s, visit, s');
    case _ =>
  }

  lemma TouchKeepsGuests(s: Tables, visit: Visit, s': Tables)
    ensures Refreshes(s, visit, s') ==>
              && s'.accounts == s.accounts && s'.links.Keys == s.links.Keys
              && forall l :: l in s.links ==> s'.links[l].guest == s.links[l].guest
  {
    if Refreshes(s, visit, s') {
      var l :| Touches(s, visit, l, s');
    }
  }

  /** The account a link points at is a guest of the link's laboratory exactly unless an administrator's
    update made it something else, and no later one made it a guest of the laboratory again. */
  lemma {:induction false} GuestUnlessDemoted(states: seq<Tables>, steps: seq<Step>, n: nat, link: Id)
    requires IsRun(states, steps) && n < |states| && link in states[n].links
    ensures var guest, laboratory := states[n].links[link].guest, states[n].links[link].key.laboratory;
            MayBecomeGuest(states[n], laboratory, guest) <==> !Demoted(states, steps, n, guest, laboratory)
  {
    var s, step, s' := states[n - 1], steps[n - 1], states[n];
    var guest, laboratory := s'.links[link].guest, s'.links[link].key.laboratory;
    RunKeepsConsistency(states, steps, n - 1);
    RunKeepsConsistency(states, steps, n);
    assert Follows(s, step, s');
    if link in s.links && s.links[link].guest == guest {
      NextKeeps(states, steps, n - 1);
      assert KeepsKey(s, s', link);
      GuestUnlessDemoted(states, steps, n - 1, link);
      DemotedStep(s, step, s', guest, laboratory);
      DemotionGoesOn(states, steps, n - 1, guest, laboratory);
    } else {
      NewGuestIsGuest(s, step, s', link);
      forall k | 0 <= k < n ensures !DemotedAt(states, steps, k, n, guest, laboratory) {
        if DemotedAt(states, steps, k, n, guest, laboratory) {
          StaysDemoted(states, steps, k, n, guest, laboratory);
        }
      }
    }
  }

  // ---------------------------------------------------------------------------
  // taking a request back
  // ---------------------------------------------------------------------------

  /** The caller a visit turns into: whatever the account behind the link is by then. */
  function ActorOf(s: Tables, link: Id): BorrowProtocol.Actor
    requires link in s.links && s.links[link].guest in s.accounts
  {
    var account := s.accounts[s.links[link].guest];
    BorrowProtocol.Actor(s.links[link].guest, account.role, account.laboratory)
  }

  /** The checks of a cancellation, up to whether the request is still pending. */
  predicate MayCancel(s: Tables, request: Id, link: Id)
    requires request in s.requests && link in s.links && s.links[link].guest in s.accounts
  {
    && BorrowProtocol.MayRequest(ActorOf(s, link), s.links[link].key.laboratory)
    && s.requests[request].laboratory == s.links[link].key.laboratory
    && BorrowProtocol.CancellableBy(s.requests[request], ActorOf(s, link), Some(link))
  }

  /** That is: the account behind the link is a guest of its laboratory, where the request was filed, and it was
    filed under this link or by this account. */
  lemma MayCancelMeans(s: Tables, request: Id, link: Id)
    requires request in s.requests && link in s.links && s.links[link].guest in s.accounts
    ensures var row, laboratory := s.requests[request], s.links[link].key.laboratory;
            MayCancel(s, request, link) <==>
            && s.accounts[s.links[link].guest].role == BorrowProtocol.Guest
            && s.accounts[s.links[link].guest].laboratory == Some(laboratory) && row.laboratory == laboratory
            && (row.link == Some(link) || row.requester == Some(s.links[link].guest))
  {
  }

  /** Whoever files a request under a link can take it back when they come again under the same key, however
    often the link was merged in the meantime and as long as it lasts, exactly unless the account behind it
    has been made something else than a guest of the laboratory. */
  lemma FiledStaysCancellable(states: seq<Tables>, steps: seq<Step>, m: nat, n: nat, visit: Visit, link: Id, s': Tables)
    requires IsRun(states, steps) && m < n < |states| && steps[m].FileRequest?
    requires LinkedAs(states[m].links, visit.key, steps[m].link)
    requires NeverDropped(states, steps, steps[m].link, m + 1, n)
    requires Touches(states[n], visit, link, s')
    ensures link == steps[m].link && s'.links[link].guest in s'.accounts
    ensures steps[m].request in s'.requests
    ensures MayCancel(s', steps[m].request, link) <==>
            !Demoted(states, steps, n, states[n].links[link].guest, visit.key.laboratory)
  {
    assert Follows(states[m], steps[m], states[m + 1]);
    LinksLast(states, steps, m + 1, n, steps[m].link);
    FilingsLast(states, steps, m + 1, n, steps[m].request, steps[m].link);
    RunKeepsConsistency(states, steps, n);
    assert KeepsFiling(states[m + 1], states[n], steps[m].request) && KeepsKey(states[m + 1], states[n], steps[m].link);
    TouchKeepsConsistency(states[n], visit, link, s');
    GuestUnlessDemoted(states, steps, n, link);
  }

  /** At an input: a request filed on a first visit; then the shadow behind the link is made a user of the
    laboratory. The visitor is still recognised, but may not take the request back. */
  lemma PromotedVisitorIsRefused(states: seq<Tables>, visit: Visit, ids: seq<Id>, item: Id)
    requires |ids| == 3 && RowAllowed(visit)
    requires IsRun(states, [Store(visit, ids[0], ids[1]), FileRequest(ids[2], item, ids[1]),
                            UpdateAccount(ids[0], None, BorrowProtocol.RegularUser, Some(visit.key.laboratory))])
    requires states[0].accounts == map[]
    ensures LinkedAs(states[3].links, visit.key, ids[1]) && states[3].links[ids[1]].guest == ids[0]
    ensures ids[0] in states[3].accounts && ids[2] in states[3].requests
    ensures states[3].requests[ids[2]].status == BorrowProtocol.Pending && !MayCancel(states[3], ids[2], ids[1])
  {
    var steps := [Store(visit, ids[0], ids[1]), FileRequest(ids[2], item, ids[1]),
                  UpdateAccount(ids[0], None, BorrowProtocol.RegularUser, Some(visit.key.laboratory))];
    assert Follows(states[0], steps[0], states[1]) && Follows(states[1], steps[1], states[2]);
    assert Follows(states[2], steps[2], states[3]);
  }

  /** A known visitor is recognised, under the same link, until its guest is deleted. */
  lemma KnownStaysKnown(states: seq<Tables>, steps: seq<Step>, m: nat, n: nat, key: LinkKey, link: Id)
    requires IsRun(states, steps) && m <= n < |states| && LinkedAs(states[m].links, key, link)
    requires NeverDropped(states, steps, link, m, n)
    ensures LinkedAs(states[n].links, key, link)
    ensures forall other :: LinkedAs(states[n].links, key, other) ==> other == link
  {
    LinksLast(states, steps, m, n, link);
    RunKeepsConsistency(states, steps, n);
  }

  /** Shadow names do not carry the laboratory: on fresh tables, a visitor is linked in the first
    laboratory they come to, and refused in the second. */
  lemma SecondLaboratoryIsRefused(states: seq<Tables>, first: Visit, second: Visit, ids: seq<Id>)
    requires |ids| == 4 && IsRun(states, [Store(first, ids[0], ids[1]), Store(second, ids[2], ids[3])])
    requires states[0].accounts == map[] && RowAllowed(first) && RowAllowed(second)
    requires second.key.node == first.key.node && second.key.remoteUser == first.key.remoteUser
    requires second.key.laboratory != first.key.laboratory
    ensures LinkedAs(states[1].links, first.key, ids[1])
    ensures states[2] == states[1] && !Linked(states[2].links, second.key)
  {
    var steps := [Store(first, ids[0], ids[1]), Store(second, ids[2], ids[3])];
    assert Follows(states[0], steps[0], states[1]) && Follows(states[1], steps[1], states[2]);
    assert states[1].accounts[ids[0]].username == ShadowUsername(second.key);
  }

  // ---------------------------------------------------------------------------
  // telling visitors apart
  // ---------------------------------------------------------------------------

  /** In a run of visits alone, from empty tables, all accounts are shadows of linked visitors. */
  lemma {:induction false} VisitsMakeOnlyShadows(states: seq<Tables>, steps: seq<Step>, n: nat)
    requires IsRun(states, steps) && n < |states| && states[0].accounts == map[]
    requires forall k :: 0 <= k < n ==> steps[k].Touch? || steps[k].Store?
    ensures OnlyShadows(states[n])
  {
    if n > 0 {
      VisitsMakeOnlyShadows(states, steps, n - 1);
      assert Follows(states[n - 1], steps[n - 1], states[n]);
      VisitKeepsOnlyShadows(states[n - 1], steps[n - 1], states[n]);
    }
  }

  lemma VisitKeepsOnlyShadows(s: Tables, step: Step, s': Tables)
    requires OnlyShadows(s) && Follows(s, step, s') && (step.Touch? || step.Store?)
    ensures OnlyShadows(s')
  {
    if Refreshes(s, step.visit, s') {
      TouchKeepsKeys(s, step.visit, s');
      SameShadows(s, s');
    } else if step.Store? && s' == Welcomed(s, step.visit, step.newUser, step.newLink) {
      WelcomeAddsShadow(s, step.visit, step.newUser, step.newLink);
    }
  }

  lemma SameShadows(s: Tables, s': Tables)
    requires OnlyShadows(s) && s'.accounts == s.accounts && s'.links.Keys == s.links.Keys
    requires forall l :: l in s.links ==> s'.links[l].guest == s.links[l].guest && s'.links[l].key == s.links[l].key
    ensures OnlyShadows(s')
  {
    forall l | l in s.links ensures ShadowOf(s', l, s'.links[l].guest) {
      assert ShadowOf(s, l, s.links[l].guest);
    }
    forall u | u in s.accounts ensures ShadowOfSome(s', u) {
      assert ShadowOfSome(s, u);
      var l :| l in s.links && ShadowOf(s, l, u);
      assert ShadowOf(s', l, u);
    }
  }

  lemma WelcomeAddsShadow(s: Tables, visit: Visit, newUser: Id, newLink: Id)
    requires OnlyShadows(s) && newUser !in s.accounts && newLink !in s.links
    ensures OnlyShadows(Welcomed(s, visit, newUser, newLink))
  {
    var s' := Welcomed(s, visit, newUser, newLink);
    assert ShadowOf(s', newLink, newUser);
    forall l | l in s.links ensures ShadowOf(s', l, s'.links[l].guest) {
      assert ShadowOf(s, l, s.links[l].guest);
    }
    forall u | u in s.accounts ensures ShadowOfSome(s', u) {
      assert ShadowOfSome(s, u);
      var l :| l in s.links && ShadowOf(s, l, u);
      assert ShadowOf(s', l, u);
    }
  }

  lemma TouchKeepsKeys(s: Tables, visit: Visit, s': Tables)
    ensures Refreshes(s, visit, s') ==>
              && s'.accounts == s.accounts && s'.links.Keys == s.links.Keys
              && forall l :: l in s.links ==> s'.links[l].guest == s.links[l].guest && s'.links[l].key == s.links[l].key
  {
    if Refreshes(s, visit, s') {
      var l :| Touches(s, visit, l, s');
    }
  }

  /** In such a run an allowed visitor who is not linked yet gets a link exactly if no linked visitor, in whatever
    laboratory, has a node and an id that start like theirs. */
  lemma VisitorsAreToldApart(states: seq<Tables>, steps: seq<Step>, n: nat)
    requires IsRun(states, steps) && n < |steps| && states[0].accounts == map[]
    requires forall k :: 0 <= k < n ==> steps[k].Touch? || steps[k].Store?
    requires steps[n].Store? && RowAllowed(steps[n].visit) && !Linked(states[n].links, steps[n].visit.key)
    ensures Linked(states[n + 1].links, steps[n].visit.key) <==>
            forall l :: l in states[n].links ==> !SamePrefixes(states[n].links[l].key, steps[n].visit.key)
  {
    VisitsMakeOnlyShadows(states, steps, n);
    NameIsFreeExactly(states[n], steps[n].visit);
    assert Follows(states[n], steps[n], states[n + 1]);
    if !UsernameTaken(states[n].accounts, ShadowUsername(steps[n].visit.key)) {
      assert LinkedAs(states[n + 1].links, steps[n].visit.key, steps[n].newLink);
    }
  }
}
