/** Every account operation keeps the account invariants, whoever calls it and in any order. */
module AccountProofs {
  import opened Prelude
  import opened Records
  import opened Accounts
  import Sessions

  // ---- sessions

  /** Sessions stay with active users if everybody who stops being active is signed out. */
  lemma RevokeKeepsActive(s: AccountData, s': AccountData, who: set<Uid>, now: Time)
    requires SessionsAreActive(s)
    requires s'.sessions == Revoke(s.sessions, who, now) && s'.issued == s.issued
    requires forall u :: u in s.users && s.users[u].status == Active && u !in who ==>
      u in s'.users && s'.users[u].status == Active
    ensures SessionsAreActive(s')
  {
  }

  predicate HoldsAsTa(s: AccountData, u: Uid) {
    u in s.users && s.users[u].role == TeachingAssistant
  }

  /** An open link to an active instructor is what supervises. */
  lemma LinkSupervises(s: AccountData, k: LinkId)
    requires OpenLink(s, k) && s.links[k].instructor in s.users && s.users[s.links[k].instructor].status == Active
    ensures Supervises(s, s.links[k].ta)
  {
  }

  lemma SupervisingLink(s: AccountData, ta: Uid) returns (k: LinkId)
    requires Supervises(s, ta)
    ensures OpenLink(s, k) && s.links[k].ta == ta
    ensures s.links[k].instructor in s.users && s.users[s.links[k].instructor].status == Active
  {
    k :| k in s.links && s.links[k].endedAt.None? && s.links[k].ta == ta
         && s.links[k].instructor in s.users && s.users[s.links[k].instructor].status == Active;
  }

  // ---- events

  lemma NewEvent(s: AccountData, s': AccountData, e: StatusEvent)
    requires EventsChain(s) && s'.events == s.events + [e]
    requires e.user in s.users && s.users[e.user].status == e.from && Edge(e.from, e.to)
    requires s'.users.Keys == s.users.Keys
    requires forall u :: u in s.users ==> s'.users[u].status == if u == e.user then e.to else s.users[u].status
    ensures EventsChain(s')
  {
    assert s'.events[..|s'.events| - 1] == s.events;
    forall u
      ensures EventChain(s'.events, u, if u in s'.users then s'.users[u].status else Active)
    {
      assert EventChain(s.events, u, if u in s.users then s.users[u].status else Active);
    }
  }

  lemma SameStatuses(s: AccountData, s': AccountData)
    requires EventsChain(s) && s'.events == s.events
    requires forall u :: (if u in s'.users then s'.users[u].status else Active)
                         == (if u in s.users then s.users[u].status else Active)
    ensures EventsChain(s')
  {
    forall u
      ensures EventChain(s'.events, u, if u in s'.users then s'.users[u].status else Active)
    {
      assert EventChain(s.events, u, if u in s.users then s.users[u].status else Active);
    }
  }

  /** What the chain means for two neighbouring events of a user, wherever they are in the log. */
  lemma {:induction false} NeighboursMatch(events: seq<StatusEvent>, u: Uid, status: Status, i: nat, j: nat)
    requires EventChain(events, u, status) && i < j < |events|
    requires events[i].user == u && events[j].user == u
    requires forall k :: i < k < j ==> events[k].user != u
    ensures events[i].to == events[j].from
  {
    var e, front := events[|events| - 1], events[..|events| - 1];
    if e.user != u {
      NeighboursMatch(front, u, status, i, j);
    } else if j < |events| - 1 {
      NeighboursMatch(front, u, e.from, i, j);
    } else {
      LastEventSetsStatus(front, u, e.from, i);
    }
  }

  lemma {:induction false} LastEventSetsStatus(events: seq<StatusEvent>, u: Uid, status: Status, i: nat)
    requires EventChain(events, u, status) && i < |events| && events[i].user == u
    requires forall k :: i < k < |events| ==> events[k].user != u
    ensures events[i].to == status && Edge(events[i].from, events[i].to)
  {
    if i < |events| - 1 {
      LastEventSetsStatus(events[..|events| - 1], u, status, i);
    }
  }

  /** The only recorded way out of deleted leads to active, by re-provisioning. */
  lemma {:induction false} EveryEventIsAnEdge(events: seq<StatusEvent>, u: Uid, status: Status, i: nat)
    requires EventChain(events, u, status) && i < |events| && events[i].user == u
    ensures Allowed(events[i].from, events[i].to) || (events[i].from == Deleted && events[i].to == Active)
  {
    var e, front := events[|events| - 1], events[..|events| - 1];
    if i < |events| - 1 {
      EveryEventIsAnEdge(front, u, if e.user == u then e.from else status, i);
    }
  }

  // ---- the operations

  lemma EndedLinks(s: AccountData, s': AccountData, u: Uid, actor: Uid, now: Time)
    requires s'.links == EndLinks(s.links, u, actor, now)
    ensures forall k :: OpenLink(s', k) <==> OpenLink(s, k) && s.links[k].ta != u && s.links[k].instructor != u
    ensures forall k :: OpenLink(s', k) ==> s'.links[k] == s.links[k]
  {
  }

  /** Whoever loses supervision when a link or an instructor's status goes was linked to that user, or is that user. */
  lemma TransitionAbandons(s: AccountData, actor: Uid, u: Uid, to: Status, now: Time, ta: Uid)
    requires u in s.users
    requires var s' := Transition(s, actor, u, to, now); Supervises(s, ta) && !Supervises(s', ta)
    requires to == Active ==> s.users[u].status != Active
    ensures to != Active && (ta == u || ta in LinkedTas(s.links, u))
  {
    var s' := Transition(s, actor, u, to, now);
    var k := SupervisingLink(s, ta);
    if to == Deleted {
      EndedLinks(s, s', u, actor, now);
    }
    if s.links[k].instructor != u && s.links[k].ta != u {
      LinkSupervises(s', k);
    }
    if to == Active {
      LinkSupervises(s', k);
    }
  }

  lemma TransitionLinks(s: AccountData, actor: Uid, u: Uid, to: Status, now: Time)
    requires u in s.users && LinksJoinTeams(s) && OneLinkPerPair(s)
    requires to == Active ==> s.users[u].status != Deleted
    ensures var s' := Transition(s, actor, u, to, now); LinksJoinTeams(s') && OneLinkPerPair(s')
  {
    var s' := Transition(s, actor, u, to, now);
    if to == Deleted {
      EndedLinks(s, s', u, actor, now);
    }
    forall k | OpenLink(s', k)
      ensures HoldsRole(s', s'.links[k].ta, TeachingAssistant) && HoldsRole(s', s'.links[k].instructor, Instructor)
    {
      assert OpenLink(s, k);
    }
    forall j, k | OpenLink(s', j) && OpenLink(s', k) && s'.links[j].ta == s'.links[k].ta
                  && s'.links[j].instructor == s'.links[k].instructor
      ensures j == k
    {
      assert OpenLink(s, j) && OpenLink(s, k);
    }
  }

  lemma {:induction false} TransitionIsGood(s: AccountData, actor: Uid, u: Uid, to: Status, now: Time)
    requires Sound(s) && u in s.users && Allowed(s.users[u].status, to)
    ensures GoodStep(s, Transition(s, actor, u, to, now))
  {
    var s' := Transition(s, actor, u, to, now);
    var out := if to == Active then {} else {u} + (LinkedTas(s.links, u) - Supervised(s'.users, s'.links));
    TransitionLinks(s, actor, u, to, now);
    NewEvent(s, s', StatusEvent(u, actor, s.users[u].status, to));
    RevokeKeepsActive(s, s', out, now);
    forall ta | Supervises(s, ta) && !Supervises(s', ta)
      ensures ta in out
    {
      TransitionAbandons(s, actor, u, to, now, ta);
    }
  }

  lemma ChangeRoleLinks(s: AccountData, actor: Uid, u: Uid, role: Role, now: Time)
    requires u in s.users && LinksJoinTeams(s) && OneLinkPerPair(s)
    ensures var s' := ChangeRole(s, actor, u, role, now); LinksJoinTeams(s') && OneLinkPerPair(s')
  {
    var s' := ChangeRole(s, actor, u, role, now);
    if role == s.users[u].role {
      assert s'.users == s.users;
    } else {
      EndedLinks(s, s', u, actor, now);
    }
  }

  lemma ChangeRoleAbandons(s: AccountData, actor: Uid, u: Uid, role: Role, now: Time, ta: Uid)
    requires u in s.users && LinksJoinTeams(s)
    requires var s' := ChangeRole(s, actor, u, role, now);
             Supervises(s, ta) && !Supervises(s', ta) && HoldsAsTa(s', ta)
    ensures role != s.users[u].role && ta in LinkedTas(s.links, u)
  {
    var s' := ChangeRole(s, actor, u, role, now);
    assert role == s.users[u].role ==> s'.users == s.users;
    var k := SupervisingLink(s, ta);
    if role != s.users[u].role && s.links[k].instructor != u && s.links[k].ta != u {
      EndedLinks(s, s', u, actor, now);
      LinkSupervises(s', k);
    }
  }

  lemma {:induction false} ChangeRoleIsGood(s: AccountData, actor: Uid, u: Uid, role: Role, now: Time)
    requires Sound(s) && u in s.users
    ensures GoodStep(s, ChangeRole(s, actor, u, role, now))
  {
    var s' := ChangeRole(s, actor, u, role, now);
    var out := if role == s.users[u].role then {} else LinkedTas(s.links, u) - Supervised(s'.users, s'.links);
    assert s'.sessions == Revoke(s.sessions, out, now);
    assert EventsChain(s') by {
      SameStatuses(s, s');
    }
    ChangeRoleLinks(s, actor, u, role, now);
    RevokeKeepsActive(s, s', out, now);
    assert AbandonedSignedOut(s, s') by {
      forall ta | Supervises(s, ta) && !Supervises(s', ta) && HoldsAsTa(s', ta)
        ensures ta in out
      {
        ChangeRoleAbandons(s, actor, u, role, now, ta);
      }
    }
  }

  /** Nobody loses a supervisor when links are only added and nobody changes. */
  lemma MoreLinksAbandonNobody(s: AccountData, s': AccountData)
    requires forall k :: OpenLink(s, k) ==> OpenLink(s', k) && s'.links[k] == s.links[k]
    requires forall u :: u in s.users && s.users[u].status == Active ==> u in s'.users && s'.users[u].status == Active
    ensures AbandonedSignedOut(s, s')
  {
    forall ta | Supervises(s, ta)
      ensures Supervises(s', ta)
    {
      var k := SupervisingLink(s, ta);
      LinkSupervises(s', k);
    }
  }

  lemma AddedLink(s: AccountData, k: LinkId, ta: Uid, instructor: Uid)
    requires k !in s.links && LinksJoinTeams(s) && OneLinkPerPair(s)
    requires HoldsRole(s, ta, TeachingAssistant) && HoldsRole(s, instructor, Instructor)
    ensures var s' := AddLink(s, k, ta, instructor); LinksJoinTeams(s') && OneLinkPerPair(s')
  {
    var s' := AddLink(s, k, ta, instructor);
    assert forall j :: OpenLink(s', j) ==> OpenLink(s, j) || j == k;
  }

  lemma AddLinkIsGood(s: AccountData, k: LinkId, ta: Uid, instructor: Uid)
    requires Sound(s) && k !in s.links
    requires HoldsRole(s, ta, TeachingAssistant) && HoldsRole(s, instructor, Instructor)
    ensures GoodStep(s, AddLink(s, k, ta, instructor))
  {
    var s' := AddLink(s, k, ta, instructor);
    AddedLink(s, k, ta, instructor);
    assert EventsChain(s') by {
      SameStatuses(s, s');
    }
    assert AbandonedSignedOut(s, s') by {
      MoreLinksAbandonNobody(s, s');
    }
  }

  lemma OneLinkLess(s: AccountData, actor: Uid, k: LinkId, now: Time)
    requires OpenLink(s, k) && LinksJoinTeams(s) && OneLinkPerPair(s)
    ensures var s' := EndLink(s, actor, k, now);
            && LinksJoinTeams(s') && OneLinkPerPair(s')
            && forall j :: OpenLink(s', j) <==> OpenLink(s, j) && j != k
  {
    var s' := EndLink(s, actor, k, now);
    assert forall j :: OpenLink(s', j) <==> OpenLink(s, j) && j != k;
  }

  lemma EndLinkIsGood(s: AccountData, actor: Uid, k: LinkId, now: Time)
    requires Sound(s) && OpenLink(s, k)
    ensures GoodStep(s, EndLink(s, actor, k, now))
  {
    var s' := EndLink(s, actor, k, now);
    var out := {s.links[k].ta} - Supervised(s.users, s'.links);
    assert EventsChain(s') by {
      SameStatuses(s, s');
    }
    OneLinkLess(s, actor, k, now);
    RevokeKeepsActive(s, s', out, now);
    forall ta | Supervises(s, ta) && !Supervises(s', ta)
      ensures ta in out
    {
      var j := SupervisingLink(s, ta);
      if j != k {
        LinkSupervises(s', j);
      }
    }
  }

  ghost predicate MayProvision(s: AccountData, email: string, role: Role, u: Uid, supervisor: Option<(LinkId, Uid)>) {
    && AddressFree(s, email)
    && (u in s.users ==> s.users[u].email == email)
    && (supervisor.Some? ==>
          && role == TeachingAssistant && supervisor.value.0 !in s.links
          && HoldsRole(s, supervisor.value.1, Instructor) && s.users[supervisor.value.1].status == Active)
  }

  /** A row that is deleted, or not there yet, is on no open link. */
  lemma AbsentIsUnlinked(s: AccountData, u: Uid, k: LinkId)
    requires LinksJoinTeams(s) && OpenLink(s, k)
    requires u in s.users ==> s.users[u].status == Deleted
    ensures s.links[k].ta != u && s.links[k].instructor != u
  {
  }

  /** Provisioning touches one row, which was deleted or not there. */
  lemma ProvisionRow(s: AccountData, actor: Uid, email: string, role: Role, u: Uid,
                     supervisor: Option<(LinkId, Uid)>, now: Time)
    requires MayProvision(s, email, role, u, supervisor)
    ensures var s' := Provision(s, actor, email, role, u, supervisor, now);
            && s'.users.Keys == s.users.Keys + {u}
            && (forall v :: v in s.users && v != u ==> s'.users[v] == s.users[v])
            && s'.users[u].email == email && s'.users[u].role == role && s'.users[u].status == Active
            && (u in s.users ==> s.users[u].status == Deleted)
  {
  }

  /** The address of the row was free, so it stays reserved once. */
  lemma OneMoreAddress(s: AccountData, s': AccountData, u: Uid)
    requires EmailsReserved(s) && u in s'.users && AddressFree(s, s'.users[u].email)
    requires s'.users.Keys == s.users.Keys + {u}
    requires forall v :: v in s.users && v != u ==> s'.users[v] == s.users[v]
    ensures EmailsReserved(s')
  {
  }

  lemma ProvisionUsers(s: AccountData, actor: Uid, email: string, role: Role, u: Uid,
                       supervisor: Option<(LinkId, Uid)>, now: Time)
    requires Sound(s) && MayProvision(s, email, role, u, supervisor)
    ensures var s' := Provision(s, actor, email, role, u, supervisor, now);
            && EmailsReserved(s')
            && s'.users.Keys == s.users.Keys + {u}
            && (forall v :: v in s.users && v != u ==> s'.users[v] == s.users[v])
            && s'.users[u].role == role && s'.users[u].status == Active
            && (u in s.users ==> s.users[u].status == Deleted)
  {
    ProvisionRow(s, actor, email, role, u, supervisor, now);
    OneMoreAddress(s, Provision(s, actor, email, role, u, supervisor, now), u);
  }

  lemma ProvisionSessions(s: AccountData, actor: Uid, email: string, role: Role, u: Uid,
                          supervisor: Option<(LinkId, Uid)>, now: Time)
    requires SessionsAreActive(s)
    ensures SessionsAreActive(Provision(s, actor, email, role, u, supervisor, now))
  {
    var s' := Provision(s, actor, email, role, u, supervisor, now);
    assert s'.sessions == s.sessions && s'.issued == s.issued;
    assert forall v :: v in s.users && s.users[v].status == Active ==> v in s'.users && s'.users[v].status == Active;
  }

  lemma ProvisionOpenLinks(s: AccountData, actor: Uid, email: string, role: Role, u: Uid,
                           supervisor: Option<(LinkId, Uid)>, now: Time)
    requires MayProvision(s, email, role, u, supervisor)
    ensures var s' := Provision(s, actor, email, role, u, supervisor, now);
            && (forall k :: OpenLink(s, k) ==> OpenLink(s', k) && s'.links[k] == s.links[k])
            && (forall k :: OpenLink(s', k) ==>
                  || (OpenLink(s, k) && s'.links[k] == s.links[k])
                  || (supervisor.Some? && k == supervisor.value.0 && s'.links[k].ta == u
                      && s'.links[k].instructor == supervisor.value.1))
  {
  }

  lemma ProvisionLinks(s: AccountData, actor: Uid, email: string, role: Role, u: Uid, supervisor: Option<(LinkId, Uid)>,
                       now: Time)
    requires Sound(s) && MayProvision(s, email, role, u, supervisor)
    ensures var s' := Provision(s, actor, email, role, u, supervisor, now); LinksJoinTeams(s') && OneLinkPerPair(s')
  {
    var s' := Provision(s, actor, email, role, u, supervisor, now);
    ProvisionUsers(s, actor, email, role, u, supervisor, now);
    ProvisionOpenLinks(s, actor, email, role, u, supervisor, now);
    forall k | OpenLink(s', k)
      ensures HoldsRole(s', s'.links[k].ta, TeachingAssistant) && HoldsRole(s', s'.links[k].instructor, Instructor)
    {
      if OpenLink(s, k) {
        AbsentIsUnlinked(s, u, k);
      }
    }
    forall j, k | OpenLink(s', j) && OpenLink(s', k) && s'.links[j].ta == s'.links[k].ta
                  && s'.links[j].instructor == s'.links[k].instructor
      ensures j == k
    {
      if OpenLink(s, j) {
        AbsentIsUnlinked(s, u, j);
      }
      if OpenLink(s, k) {
        AbsentIsUnlinked(s, u, k);
      }
    }
  }

  lemma {:induction false} ProvisionIsGood(s: AccountData, actor: Uid, email: string, role: Role, u: Uid,
                                           supervisor: Option<(LinkId, Uid)>,
                        now: Time)
    requires Sound(s) && MayProvision(s, email, role, u, supervisor)
    ensures GoodStep(s, Provision(s, actor, email, role, u, supervisor, now))
  {
    var s' := Provision(s, actor, email, role, u, supervisor, now);
    ProvisionLinks(s, actor, email, role, u, supervisor, now);
    ProvisionUsers(s, actor, email, role, u, supervisor, now);
    ProvisionSessions(s, actor, email, role, u, supervisor, now);
    assert AbandonedSignedOut(s, s') by {
      ProvisionOpenLinks(s, actor, email, role, u, supervisor, now);
      MoreLinksAbandonNobody(s, s');
    }
  }

  lemma SignInIsGood(s: AccountData, u: Uid, t: Token, now: Time)
    requires Sound(s) && t !in s.issued && u in s.users && s.users[u].status == Active
    ensures GoodStep(s, SignIn(s, u, t, now))
  {
    var s' := SignIn(s, u, t, now);
    SameStatuses(s, s');
    MoreLinksAbandonNobody(s, s');
  }

  lemma SignOutIsGood(s: AccountData, u: Uid, now: Time)
    requires Sound(s)
    ensures GoodStep(s, SignOut(s, u, now))
    ensures forall t :: LiveSession(SignOut(s, u, now), t) ==> SignOut(s, u, now).sessions[t].user != u
  {
    var s' := SignOut(s, u, now);
    SameStatuses(s, s');
    RevokeKeepsActive(s, s', {u}, now);
    MoreLinksAbandonNobody(s, s');
  }

  lemma DropOldSessionsIsGood(s: AccountData, now: Time)
    requires Sound(s)
    ensures GoodStep(s, DropOldSessions(s, now))
  {
    var s' := DropOldSessions(s, now);
    SameStatuses(s, s');
    MoreLinksAbandonNobody(s, s');
  }

  /** A request moves the activity of a live session and nothing else. */
  lemma VisitIsGood(s: AccountData, t: Token, touch: bool, now: Time)
    requires Sound(s)
    ensures GoodStep(s, Sessions.Visit(s, t, touch, now))
  {
    var s' := Sessions.Visit(s, t, touch, now);
    SameStatuses(s, s');
    MoreLinksAbandonNobody(s, s');
    assert forall k :: LiveSession(s', k) <==> LiveSession(s, k);
  }
}
