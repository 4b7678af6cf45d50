/**
 * What every account operation does to the stored tables, row by row: who is signed out, which
 * links end, and that nothing else moves.
 */
module AccountEffects {
  import opened Prelude
  import opened Records
  import opened Accounts
  import Sessions

  // ---- vocabulary of the tables

  /** The assistant has an open link to this user. */
  ghost predicate Follows(s: AccountData, ta: Uid, instructor: Uid) {
    exists k :: OpenLink(s, k) && s.links[k].ta == ta && s.links[k].instructor == instructor
  }

  /** The assistant has an open link to an active user. */
  ghost predicate OnActiveTeam(s: AccountData, ta: Uid) {
    exists k :: OpenLink(s, k) && s.links[k].ta == ta
                && s.links[k].instructor in s.users && s.users[s.links[k].instructor].status == Active
  }

  /** Those who followed the user and are on no active team afterwards. */
  ghost function LeftAlone(s: AccountData, s': AccountData, u: Uid): iset<Uid> {
    iset ta | Follows(s, ta, u) && !OnActiveTeam(s', ta)
  }

  ghost predicate OnlyUserChanged(s: AccountData, s': AccountData, u: Uid) {
    && u in s'.users && s'.users.Keys == s.users.Keys + {u}
    && forall v :: v in s.users && v != u ==> s'.users[v] == s.users[v]
  }

  /** Exactly the live sessions of these users were revoked, at this time. */
  ghost predicate SignedOut(s: AccountData, s': AccountData, out: iset<Uid>, now: Time) {
    && s'.issued == s.issued && s'.sessions.Keys == s.sessions.Keys
    && forall t :: t in s.sessions ==>
         if s.sessions[t].deletedAt.None? && s.sessions[t].user in out
         then s'.sessions[t] == s.sessions[t].(deletedAt := Some(now))
         else s'.sessions[t] == s.sessions[t]
  }

  /** Exactly the user's open links, on either end, were ended by the actor at this time. */
  ghost predicate LinksEnded(s: AccountData, s': AccountData, u: Uid, actor: Uid, now: Time) {
    && s'.links.Keys == s.links.Keys
    && forall k :: k in s.links ==>
         if s.links[k].endedAt.None? && u in {s.links[k].ta, s.links[k].instructor}
         then s'.links[k] == Link(s.links[k].ta, s.links[k].instructor, Some(now), Some(actor))
         else s'.links[k] == s.links[k]
  }

  lemma LinkedIsFollows(s: AccountData, u: Uid)
    ensures forall ta :: ta in LinkedTas(s.links, u) <==> Follows(s, ta, u)
  {
  }

  lemma SupervisedIsOnActiveTeam(s: AccountData)
    ensures forall ta :: ta in Supervised(s.users, s.links) <==> OnActiveTeam(s, ta)
  {
  }

  // ---- the operations

  /** The moves a status can make: anything but staying, and nothing out of deleted. */
  lemma AllowedMoves(from: Status, to: Status)
    ensures Allowed(from, to) <==> from != Deleted && to != from
  {
  }

  ghost predicate StatusChanged(s: AccountData, s': AccountData, actor: Uid, u: Uid, to: Status, now: Time) {
    && u in s.users && OnlyUserChanged(s, s', u) && s'.users[u] == s.users[u].(status := to)
    && (if to == Deleted then LinksEnded(s, s', u, actor, now) else s'.links == s.links)
    && SignedOut(s, s', if to == Active then iset{} else iset{u} + LeftAlone(s, s', u), now)
    && s'.events == s.events + [StatusEvent(u, actor, s.users[u].status, to)]
  }

  lemma {:induction false} TransitionEffect(s: AccountData, actor: Uid, u: Uid, to: Status, now: Time)
    requires u in s.users
    ensures StatusChanged(s, Transition(s, actor, u, to, now), actor, u, to, now)
  {
    LinkedIsFollows(s, u);
    SupervisedIsOnActiveTeam(Transition(s, actor, u, to, now));
  }

  ghost predicate RoleChanged(s: AccountData, s': AccountData, actor: Uid, u: Uid, role: Role, now: Time) {
    && u in s.users && OnlyUserChanged(s, s', u) && s'.users[u] == s.users[u].(role := role)
    && s'.events == s.events
    && if role == s.users[u].role then s'.links == s.links && SignedOut(s, s', iset{}, now)
       else LinksEnded(s, s', u, actor, now) && SignedOut(s, s', LeftAlone(s, s', u), now)
  }

  lemma {:induction false} ChangeRoleEffect(s: AccountData, actor: Uid, u: Uid, role: Role, now: Time)
    requires u in s.users
    ensures RoleChanged(s, ChangeRole(s, actor, u, role, now), actor, u, role, now)
  {
    LinkedIsFollows(s, u);
    SupervisedIsOnActiveTeam(ChangeRole(s, actor, u, role, now));
  }

  /** The pair is linked afterwards; a new link is made only if there was none. */
  ghost predicate PairLinked(s: AccountData, s': AccountData, k: LinkId, ta: Uid, instructor: Uid) {
    && Follows(s', ta, instructor)
    && s'.links == (if Follows(s, ta, instructor) then s.links else s.links[k := Link(ta, instructor, None, None)])
    && s'.users == s.users && s'.sessions == s.sessions && s'.issued == s.issued && s'.events == s.events
  }

  lemma {:induction false} AddLinkEffect(s: AccountData, k: LinkId, ta: Uid, instructor: Uid)
    ensures PairLinked(s, AddLink(s, k, ta, instructor), k, ta, instructor)
  {
    if !Follows(s, ta, instructor) {
      assert OpenLink(AddLink(s, k, ta, instructor), k);
    }
  }

  /** The link is ended; its assistant is signed out if no active team is left. */
  ghost predicate LinkEnded(s: AccountData, s': AccountData, actor: Uid, k: LinkId, now: Time) {
    && k in s.links && s'.users == s.users && s'.events == s.events
    && s'.links == s.links[k := Link(s.links[k].ta, s.links[k].instructor, Some(now), Some(actor))]
    && SignedOut(s, s', (iset ta | ta == s.links[k].ta && !OnActiveTeam(s', ta)), now)
  }

  lemma {:induction false} EndLinkEffect(s: AccountData, actor: Uid, k: LinkId, now: Time)
    requires k in s.links
    ensures LinkEnded(s, EndLink(s, actor, k, now), actor, k, now)
  {
    SupervisedIsOnActiveTeam(EndLink(s, actor, k, now));
  }

  /** An active row with the role and address; an old row is marked re-provisioned; the link is in the same commit. */
  ghost predicate Invited(s: AccountData, s': AccountData, actor: Uid, email: string, role: Role, u: Uid,
                          supervisor: Option<(LinkId, Uid)>, now: Time) {
    && OnlyUserChanged(s, s', u)
    && s'.users[u] == User(email, role, Active, if u in s.users then Some(now) else None)
    && s'.sessions == s.sessions && s'.issued == s.issued
    && s'.events == s.events + (if u in s.users then [StatusEvent(u, actor, Deleted, Active)] else [])
    && match supervisor {
         case None => s'.links == s.links
         case Some((k, instructor)) =>
           && s'.links == s.links[k := Link(u, instructor, None, None)] && Follows(s', u, instructor)
           && (instructor in s.users && s.users[instructor].status == Active ==> OnActiveTeam(s', u))
       }
  }

  lemma {:induction false} ProvisionEffect(s: AccountData, actor: Uid, email: string, role: Role, u: Uid,
                                           supervisor: Option<(LinkId, Uid)>, now: Time)
    requires u in s.users ==> s.users[u].email == email
    ensures Invited(s, Provision(s, actor, email, role, u, supervisor, now), actor, email, role, u, supervisor, now)
  {
    var s' := Provision(s, actor, email, role, u, supervisor, now);
    if supervisor.Some? {
      assert OpenLink(s', supervisor.value.0);
    }
  }

  // ---- sessions

  /** A session of four hours; of the user's others those a month past their end are gone. */
  ghost predicate SignedIn(s: AccountData, s': AccountData, u: Uid, t: Token, now: Time) {
    && s'.users == s.users && s'.links == s.links && s'.events == s.events && s'.issued == s.issued + {t}
    && t in s'.sessions && s'.sessions[t] == Session(u, now, now + 14400, None)
    && forall x :: x != t ==>
         && (x in s'.sessions <==>
               x in s.sessions && (s.sessions[x].user == u ==> s.sessions[x].absoluteExpires + 2592000 >= now))
         && (x in s'.sessions ==> s'.sessions[x] == s.sessions[x])
  }

  lemma {:induction false} SignInEffect(s: AccountData, u: Uid, t: Token, now: Time)
    ensures SignedIn(s, SignIn(s, u, t, now), u, t, now)
  {
  }

  ghost predicate OthersKept(s: AccountData, s': AccountData) {
    s'.users == s.users && s'.links == s.links && s'.events == s.events && s'.issued == s.issued
  }

  lemma {:induction false} SignOutEffect(s: AccountData, u: Uid, now: Time)
    ensures OthersKept(s, SignOut(s, u, now)) && SignedOut(s, SignOut(s, u, now), iset{u}, now)
  {
  }

  /** Exactly the rows a month and more past their end are gone. */
  ghost predicate OldRowsDropped(s: AccountData, s': AccountData, now: Time) {
    && OthersKept(s, s')
    && (forall t :: t in s'.sessions <==> t in s.sessions && s.sessions[t].absoluteExpires + 2592000 >= now)
    && forall t :: t in s'.sessions ==> s'.sessions[t] == s.sessions[t]
  }

  lemma {:induction false} DropOldSessionsEffect(s: AccountData, now: Time)
    ensures OldRowsDropped(s, DropOldSessions(s, now), now)
  {
  }

  /** Unrevoked, before its end, and used in the last half hour. */
  predicate Fresh(x: Session, now: Time) {
    x.deletedAt.None? && now < x.absoluteExpires && now < x.lastActive + 1800
  }

  /** A request moves the activity of its own session only, and only if it touches a fresh one after a minute. */
  ghost predicate Visited(s: AccountData, s': AccountData, t: Token, touch: bool, now: Time) {
    && OthersKept(s, s') && s'.sessions.Keys == s.sessions.Keys
    && (forall x :: x in s.sessions && x != t ==> s'.sessions[x] == s.sessions[x])
    && (t in s.sessions ==>
          var row := s.sessions[t];
          if touch && now >= row.lastActive + 60 && Fresh(row, now)
             && row.user in s.users && s.users[row.user].status == Active
          then s'.sessions[t] == row.(lastActive := now) else s'.sessions[t] == row)
  }

  lemma {:induction false} VisitEffect(s: AccountData, t: Token, touch: bool, now: Time)
    ensures Visited(s, Sessions.Visit(s, t, touch, now), t, touch, now)
  {
  }

  /** What each answer says about the stored session and its account. */
  lemma {:induction false} AnswersTell(s: AccountData, t: Token, touch: bool, now: Time)
    ensures var o := Sessions.Authenticate(s, t, touch, now);
            if t !in s.sessions || s.sessions[t].user !in s.users then o == Sessions.Unknown
            else
              var row := s.sessions[t];
              && (o == Sessions.AccountNotActive <==> s.users[row.user].status != Active)
              && (o == Sessions.Revoked <==> s.users[row.user].status == Active && row.deletedAt.Some?)
              && (o == Sessions.Ended <==>
                    s.users[row.user].status == Active && row.deletedAt.None? && row.absoluteExpires <= now)
              && (o.Alive? <==> s.users[row.user].status == Active && Fresh(row, now))
  {
  }

  /** The times in a successful answer: from then on a probe fails, and not before; and the idle limit alone. */
  lemma {:induction false} AliveNamesTheEnd(s: AccountData, t: Token, touch: bool, now: Time, later: Time)
    requires Sessions.Authenticate(s, t, touch, now).Alive? && now <= later
    ensures var o, s' := Sessions.Authenticate(s, t, touch, now), Sessions.Visit(s, t, touch, now);
            && (Sessions.Authenticate(s', t, false, later).Alive? <==> later < o.expires)
            && o.idleExpires == s'.sessions[t].lastActive + 1800
            && o.expires <= o.idleExpires && o.expires <= s.sessions[t].absoluteExpires
  {
  }
}
