/**
 * Account operations as what each one leaves behind, and the facts about users,
 * supervisions, sessions and status events that all of them keep.
 */
module Accounts {
  import opened Prelude
  import opened Records

  // ---- what the operations do

  predicate Allowed(from: Status, to: Status) {
    match from
    case Active => to == Deactivated || to == Deleted
    case Deactivated => to == Active || to == Deleted
    case Deleted => false
  }

  /** Assistants with an open link to this user. */
  function LinkedTas(links: map<LinkId, Link>, instructor: Uid): set<Uid> {
    set k | k in links && links[k].endedAt.None? && links[k].instructor == instructor :: links[k].ta
  }

  /** Assistants with an open link to an active user: the ones somebody supervises. */
  function Supervised(users: map<Uid, User>, links: map<LinkId, Link>): set<Uid> {
    set k | k in links && links[k].endedAt.None?
            && links[k].instructor in users && users[links[k].instructor].status == Active :: links[k].ta
  }

  function EndLinks(links: map<LinkId, Link>, u: Uid, actor: Uid, now: Time): map<LinkId, Link> {
    map k | k in links ::
      if links[k].endedAt.None? && (links[k].ta == u || links[k].instructor == u)
      then links[k].(endedAt := Some(now), endedBy := Some(actor)) else links[k]
  }

  function Revoke(sessions: map<Token, Session>, who: set<Uid>, now: Time): map<Token, Session> {
    map t | t in sessions ::
      if sessions[t].user in who && sessions[t].deletedAt.None?
      then sessions[t].(deletedAt := Some(now)) else sessions[t]
  }

  /** A status change: the target and every assistant it leaves alone are signed out. */
  function Transition(s: AccountData, actor: Uid, u: Uid, to: Status, now: Time): AccountData
    requires u in s.users
  {
    var users := s.users[u := s.users[u].(status := to)];
    var links := if to == Deleted then EndLinks(s.links, u, actor, now) else s.links;
    var out := if to == Active then {} else {u} + (LinkedTas(s.links, u) - Supervised(users, links));
    AccountData(users, links, Revoke(s.sessions, out, now), s.issued,
             s.events + [StatusEvent(u, actor, s.users[u].status, to)])
  }

  function ChangeRole(s: AccountData, actor: Uid, u: Uid, role: Role, now: Time): AccountData
    requires u in s.users
  {
    var users := s.users[u := s.users[u].(role := role)];
    if role == s.users[u].role then s.(users := users)
    else
      var links := EndLinks(s.links, u, actor, now);
      var out := LinkedTas(s.links, u) - Supervised(users, links);
      s.(users := users, links := links, sessions := Revoke(s.sessions, out, now))
  }

  predicate OpenPair(links: map<LinkId, Link>, ta: Uid, instructor: Uid) {
    exists k :: k in links && links[k].ta == ta && links[k].instructor == instructor && links[k].endedAt.None?
  }

  /** Adds an open link unless the pair has one. */
  function AddLink(s: AccountData, k: LinkId, ta: Uid, instructor: Uid): AccountData {
    if OpenPair(s.links, ta, instructor) then s
    else s.(links := s.links[k := Link(ta, instructor, None, None)])
  }

  function EndLink(s: AccountData, actor: Uid, k: LinkId, now: Time): AccountData
    requires k in s.links
  {
    var links := s.links[k := s.links[k].(endedAt := Some(now), endedBy := Some(actor))];
    s.(links := links, sessions := Revoke(s.sessions, {s.links[k].ta} - Supervised(s.users, links), now))
  }

  /** A new row, or a deleted one put to use again, with an optional supervisor in the same commit. */
  function Provision(s: AccountData, actor: Uid, email: string, role: Role, u: Uid, supervisor: Option<(LinkId, Uid)>,
                     now: Time): AccountData
  {
    var links := if supervisor.None? then s.links
                 else s.links[supervisor.value.0 := Link(u, supervisor.value.1, None, None)];
    if u in s.users then
      AccountData(s.users[u := User(s.users[u].email, role, Active, Some(now))], links, s.sessions, s.issued,
               s.events + [StatusEvent(u, actor, Deleted, Active)])
    else
      AccountData(s.users[u := User(email, role, Active, None)], links, s.sessions, s.issued, s.events)
  }

  const ABSOLUTE_TTL: int := 4 * 60 * 60
  const RETENTION: int := 30 * 24 * 60 * 60

  /** A sign-in: a fresh session, and the user's rows past retention removed. */
  function SignIn(s: AccountData, u: Uid, t: Token, now: Time): AccountData {
    var kept := map k | k in s.sessions &&
                        !(s.sessions[k].user == u && PastRetention(s.sessions[k], now)) :: s.sessions[k];
    s.(sessions := kept[t := Session(u, now, now + ABSOLUTE_TTL, None)], issued := s.issued + {t})
  }

  function SignOut(s: AccountData, u: Uid, now: Time): AccountData {
    s.(sessions := Revoke(s.sessions, {u}, now))
  }

  predicate PastRetention(x: Session, now: Time) {
    x.absoluteExpires < now - RETENTION
  }

  /** The daily purge: every session row past retention goes. */
  function DropOldSessions(s: AccountData, now: Time): AccountData {
    s.(sessions := map k | k in s.sessions && !PastRetention(s.sessions[k], now) :: s.sessions[k])
  }

  /** No row still part of the system has this address. */
  predicate AddressFree(s: AccountData, email: string) {
    forall u :: u in s.users && s.users[u].email == email ==> s.users[u].status == Deleted
  }

  // ---- what every reachable state keeps

  ghost predicate LiveSession(s: AccountData, t: Token) {
    t in s.sessions && s.sessions[t].deletedAt.None?
  }

  ghost predicate OpenLink(s: AccountData, k: LinkId) {
    k in s.links && s.links[k].endedAt.None?
  }

  ghost predicate HoldsRole(s: AccountData, u: Uid, role: Role) {
    u in s.users && s.users[u].role == role && s.users[u].status != Deleted
  }

  /** Open links join a present assistant to a present instructor. */
  ghost predicate LinksJoinTeams(s: AccountData) {
    forall k :: OpenLink(s, k) ==>
      HoldsRole(s, s.links[k].ta, TeachingAssistant) && HoldsRole(s, s.links[k].instructor, Instructor)
  }

  ghost predicate OneLinkPerPair(s: AccountData) {
    forall j, k ::
      (OpenLink(s, j) && OpenLink(s, k) && s.links[j].ta == s.links[k].ta
       && s.links[j].instructor == s.links[k].instructor) ==> j == k
  }

  /** Only active users hold live sessions, and only tokens once handed out name a session. */
  ghost predicate SessionsAreActive(s: AccountData) {
    && s.sessions.Keys <= s.issued
    && forall t :: LiveSession(s, t) ==>
         s.sessions[t].user in s.users && s.users[s.sessions[t].user].status == Active
  }

  ghost predicate EmailsReserved(s: AccountData) {
    forall u, v ::
      (u in s.users && v in s.users && s.users[u].status != Deleted && s.users[v].status != Deleted
       && s.users[u].email == s.users[v].email) ==> u == v
  }

  /** The recorded edges: those of the table, and re-provisioning as the one way out of deleted. */
  predicate Edge(from: Status, to: Status) {
    Allowed(from, to) || (from == Deleted && to == Active)
  }

  /** The events of one user, read backwards from the current status, form one chain from active. */
  ghost predicate EventChain(events: seq<StatusEvent>, u: Uid, status: Status) {
    if events == [] then status == Active
    else
      var e, front := events[|events| - 1], events[..|events| - 1];
      if e.user == u then e.to == status && Edge(e.from, e.to) && EventChain(front, u, e.from)
      else EventChain(front, u, status)
  }

  ghost predicate EventsChain(s: AccountData) {
    forall u :: EventChain(s.events, u, if u in s.users then s.users[u].status else Active)
  }

  ghost predicate Sound(s: AccountData) {
    && LinksJoinTeams(s) && OneLinkPerPair(s) && SessionsAreActive(s) && EmailsReserved(s) && EventsChain(s)
  }

  // ---- what every step does

  ghost predicate Supervises(s: AccountData, ta: Uid) {
    ta in Supervised(s.users, s.links)
  }

  /** An assistant who loses the last supervisor loses every session with it. */
  ghost predicate AbandonedSignedOut(s: AccountData, s': AccountData) {
    forall ta ::
      (Supervises(s, ta) && !Supervises(s', ta) && ta in s'.users && s'.users[ta].role == TeachingAssistant) ==>
      forall t :: LiveSession(s', t) ==> s'.sessions[t].user != ta
  }

  /** A token that was handed out and no longer names a live session. */
  ghost predicate Dead(s: AccountData, t: Token) {
    t in s.issued && !LiveSession(s, t)
  }

  /** Dead tokens stay dead, and sessions never change hands. */
  ghost predicate DeathIsFinal(s: AccountData, s': AccountData) {
    && s.issued <= s'.issued
    && (forall t :: Dead(s, t) ==> Dead(s', t))
    && (forall t :: LiveSession(s, t) && LiveSession(s', t) ==> s'.sessions[t].user == s.sessions[t].user)
  }

  ghost predicate GoodStep(s: AccountData, s': AccountData) {
    Sound(s') && AbandonedSignedOut(s, s') && DeathIsFinal(s, s')
  }
}
