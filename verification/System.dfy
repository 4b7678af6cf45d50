/**
 * Accounts, batches, the worker and the queue as one transition system. Every service call
 * is one step with its own clock reading, except that a status change reads the target
 * first and takes the row lock later, and that a batch is committed before its rows are sent.
 */
module System {
  import opened Prelude
  import opened Records
  import opened Accounts
  import opened LedgerSteps
  import Sessions

  /** A status change whose permission check has passed and whose lock is still to come. */
  datatype Request = Request(actor: Uid, target: Uid, to: Status)

  datatype World = World(now: Time, acc: AccountData, led: Ledger, pending: set<Request>)

  datatype Action =
    | Ask(request: Request)
    | Settle(request: Request)
    | Reassign(actor: Uid, target: Uid, role: Role)
    | Place(actor: Uid, link: LinkId, ta: Uid, instructor: Uid)
    | Remove(actor: Uid, link: LinkId)
    | Invite(actor: Uid, email: string, role: Role, user: Uid, supervisor: Option<(LinkId, Uid)>)
    | LogIn(user: Uid, token: Token)
    | LogOut(token: Token)
    | Use(token: Token, touch: bool)
    | PurgeSessions
    | Submit(actor: Uid, batch: Bid, valid: nat, rejected: nat)
    | SendRow(message: Message)
    | LoseRow(message: Message)
    | Work(message: Message, acked: bool)
    | DeadLetter(message: Message)
    | DrainDead(message: Message, acked: bool)
    | Stop(actor: Uid, batch: Bid)
    | PurgeRows(messages: set<Message>)
    | Screen(actor: Uid)

  predicate ActiveUser(s: AccountData, u: Uid) {
    u in s.users && s.users[u].status == Active
  }

  predicate ActiveAs(s: AccountData, u: Uid, role: Role) {
    ActiveUser(s, u) && s.users[u].role == role
  }

  /** An assistant nobody supervises may not submit anything. */
  predicate MayScreen(s: AccountData, u: Uid) {
    ActiveUser(s, u) && (s.users[u].role == TeachingAssistant ==> u in Supervised(s.users, s.links))
  }

  predicate AddressKnown(s: AccountData, email: string) {
    exists u :: u in s.users && s.users[u].email == email
  }

  predicate MayRequest(s: AccountData, r: Request) {
    && ActiveAs(s, r.actor, RootAdmin) && r.target in s.users
    && (if r.to == Deleted then s.users[r.target].role != RootAdmin else r.actor != r.target)
  }

  predicate MayPlace(s: AccountData, actor: Uid, ta: Uid, instructor: Uid) {
    && (ActiveAs(s, actor, RootAdmin) || (ActiveAs(s, actor, Instructor) && actor == instructor))
    && ActiveAs(s, ta, TeachingAssistant) && ActiveAs(s, instructor, Instructor)
  }

  /** Provisioning: any address by a root admin, a new one by an instructor for their own team. */
  predicate MayInvite(s: AccountData, actor: Uid, email: string, role: Role, u: Uid,
                      supervisor: Option<(LinkId, Uid)>) {
    && AddressFree(s, email)
    && (if AddressKnown(s, email) then u in s.users && s.users[u].email == email else u !in s.users)
    && (supervisor.Some? ==>
          role == TeachingAssistant && supervisor.value.0 !in s.links && ActiveAs(s, supervisor.value.1, Instructor))
    && ((ActiveAs(s, actor, RootAdmin) && role != RootAdmin)
        || (ActiveAs(s, actor, Instructor) && !AddressKnown(s, email) && role == TeachingAssistant
            && supervisor.Some? && supervisor.value.1 == actor))
  }

  predicate OwnsBatch(w: World, u: Uid, b: Bid) {
    u in w.acc.users && b in w.led.batches && w.acc.users[u].Owns(u, w.led.batches[b].actor, w.led.batches[b].createdAt)
  }

  predicate OwnsCheck(w: World, u: Uid, c: Check) {
    u in w.acc.users && w.acc.users[u].Owns(u, c.actor, c.createdAt)
  }

  predicate Enabled(w: World, a: Action) {
    match a
    case Ask(r) => MayRequest(w.acc, r)
    case Settle(r) => r in w.pending
    case Reassign(actor, u, role) =>
      ActiveAs(w.acc, actor, RootAdmin) && u in w.acc.users && w.acc.users[u].role != RootAdmin && role != RootAdmin
    case Place(actor, k, ta, i) => MayPlace(w.acc, actor, ta, i) && k !in w.acc.links
    case Remove(actor, k) =>
      && ActiveUser(w.acc, actor) && k in w.acc.links && w.acc.links[k].endedAt.None?
      && (w.acc.users[actor].role == RootAdmin || actor == w.acc.links[k].instructor)
    case Invite(actor, email, role, u, supervisor) => MayInvite(w.acc, actor, email, role, u, supervisor)
    case LogIn(u, t) => ActiveUser(w.acc, u) && t !in w.acc.issued
    case LogOut(t) => t in w.acc.sessions && w.acc.sessions[t].deletedAt.None?
    case Use(_, _) => true
    case PurgeSessions => true
    case Submit(actor, b, _, _) => MayScreen(w.acc, actor) && b !in w.led.batches
    case SendRow(m) => m in w.led.unsent
    case LoseRow(m) => m in w.led.unsent
    case Work(m, _) => m in w.led.queue
    case DeadLetter(m) => m in w.led.queue
    case DrainDead(m, _) => m in w.led.dead
    case Stop(actor, b) =>
      && ActiveUser(w.acc, actor) && b in w.led.batches
      && (w.acc.users[actor].role == RootAdmin || OwnsBatch(w, actor, b))
    case PurgeRows(ms) => ms <= w.led.queue && forall m :: m in ms ==> Cancelled(w.led, m.batch)
    case Screen(actor) => MayScreen(w.acc, actor)
  }

  /** The locked part of a status change: decided by what the locked row says now. */
  predicate Granted(w: World, r: Request) {
    r.target in w.acc.users && Allowed(w.acc.users[r.target].status, r.to)
  }

  function Accs(w: World, a: Action, t: Time): AccountData
    requires Enabled(w, a)
  {
    match a
    case Settle(r) => if Granted(w, r) then Transition(w.acc, r.actor, r.target, r.to, t) else w.acc
    case Reassign(actor, u, role) => ChangeRole(w.acc, actor, u, role, t)
    case Place(_, k, ta, i) => AddLink(w.acc, k, ta, i)
    case Remove(actor, k) => EndLink(w.acc, actor, k, t)
    case Invite(actor, email, role, u, supervisor) => Provision(w.acc, actor, email, role, u, supervisor, t)
    case LogIn(u, token) => SignIn(w.acc, u, token, t)
    case LogOut(token) => SignOut(w.acc, w.acc.sessions[token].user, t)
    case Use(token, touch) => Sessions.Visit(w.acc, token, touch, t)
    case PurgeSessions => DropOldSessions(w.acc, t)
    case _ => w.acc
  }

  function Leds(w: World, a: Action, t: Time): Ledger
    requires Enabled(w, a)
  {
    match a
    case Settle(r) => if Granted(w, r) && r.to == Deleted then CancelUnfinished(w.led, r.target, t) else w.led
    case Submit(actor, b, valid, rejected) => CreateBatch(w.led, actor, b, valid, rejected, t)
    case SendRow(m) => Send(w.led, m)
    case LoseRow(m) => GiveUp(w.led, m)
    case Work(m, acked) => Process(w.led, m, acked, t)
    case DeadLetter(m) => Redrive(w.led, m)
    case DrainDead(m, acked) => Drain(w.led, m, acked)
    case Stop(_, b) => Cancel(w.led, b, t)
    case PurgeRows(ms) => Purge(w.led, ms)
    case Screen(actor) => AddCheck(w.led, actor, t)
    case _ => w.led
  }

  function Apply(w: World, a: Action, t: Time): World
    requires Enabled(w, a)
  {
    World(t, Accs(w, a, t), Leds(w, a, t),
          if a.Ask? then w.pending + {a.request} else if a.Settle? then w.pending - {a.request} else w.pending)
  }

  type Steps = seq<(Action, Time)>

  /** A run: enabled steps, each later than the one before. */
  ghost predicate Run(w: World, steps: Steps, w': World)
    decreases |steps|
  {
    if steps == [] then w == w'
    else
      var (a, t) := steps[0];
      Enabled(w, a) && w.now < t && Run(Apply(w, a, t), steps[1..], w')
  }

  /** The beginning: seeded active accounts with different addresses, and nothing else. */
  ghost predicate Start(w: World) {
    && w.acc.links == map[] && w.acc.sessions == map[] && w.acc.issued == {} && w.acc.events == []
    && (forall u :: u in w.acc.users ==> w.acc.users[u].status == Active && w.acc.users[u].reprovisionedAt == None)
    && (forall u, v :: u in w.acc.users && v in w.acc.users && w.acc.users[u].email == w.acc.users[v].email ==> u == v)
    && w.led == Ledger(map[], [], [], {}, {}, {}, {}) && w.pending == {}
  }

  /** A root admin 0 and an instructor 1. */
  function TwoUsers(): AccountData {
    AccountData(map[0 := User("admin", RootAdmin, Active, None), 1 := User("teacher", Instructor, Active, None)],
                map[], map[], {}, [])
  }

  /** A beginning with just these two. */
  function FirstWorld(): World {
    World(0, TwoUsers(), Ledger(map[], [], [], {}, {}, {}, {}), {})
  }

  // ---- what every reachable world keeps

  /** Submitters exist, and nobody was re-provisioned in the future. */
  ghost predicate Linked(w: World) {
    && (forall b :: b in w.led.batches ==> w.led.batches[b].actor in w.acc.users)
    && (forall u :: u in w.acc.users && w.acc.users[u].reprovisionedAt.Some? ==>
          w.acc.users[u].reprovisionedAt.value <= w.now)
  }

  ghost predicate WorldSound(w: World) {
    Sound(w.acc) && LedgerSound(w.led, w.now) && Linked(w)
  }

  /** No message of the batch can still turn into a check. */
  ghost predicate Stopped(l: Ledger, b: Bid) {
    Cancelled(l, b) || forall m :: m in l.unsent + l.queue ==> m.batch != b
  }

  /** A batch the present holder of its submitter's row did not start. */
  ghost predicate Predecessors(w: World, b: Bid) {
    && b in w.led.batches && w.led.batches[b].actor in w.acc.users
    && var u := w.acc.users[w.led.batches[b].actor];
       u.status == Deleted || (u.reprovisionedAt.Some? && w.led.batches[b].createdAt < u.reprovisionedAt.value)
  }

  ghost predicate PredecessorsStopped(w: World) {
    forall b :: Predecessors(w, b) ==> Stopped(w.led, b)
  }

  /** Whoever owns a check of a batch owns the batch: no work is inherited. */
  ghost predicate NothingInherited(w: World) {
    forall i, u :: 0 <= i < |w.led.checks| && OwnsCheck(w, u, w.led.checks[i]) && w.led.checks[i].batch.Some? ==>
      OwnsBatch(w, u, w.led.checks[i].batch.value)
  }

  /** Recording an outcome and deleting its message are one step. */
  predicate ExactlyOnce(a: Action) {
    (a.Work? ==> a.acked) && (a.DrainDead? ==> a.acked)
  }

  /**
   * What a deletion relies on: a batch of the user that has as many outcomes as rows has no
   * message left that the worker could still judge.
   */
  ghost predicate CountsTellTruth(l: Ledger, u: Uid) {
    forall b :: b in l.batches && l.batches[b].actor == u && l.batches[b].cancelledAt.None? && !Unfinished(l, b) ==>
      Stopped(l, b)
  }

  ghost predicate CleanDelete(w: World, a: Action) {
    a.Settle? && a.request.to == Deleted && Granted(w, a.request) ==> CountsTellTruth(w.led, a.request.target)
  }

  ghost predicate AllExactlyOnce(steps: Steps) {
    forall i :: 0 <= i < |steps| ==> ExactlyOnce(steps[i].0)
  }

  ghost predicate AllDeletesClean(w: World, steps: Steps)
    decreases |steps|
  {
    if steps == [] then true
    else
      var (a, t) := steps[0];
      CleanDelete(w, a) && (Enabled(w, a) ==> AllDeletesClean(Apply(w, a, t), steps[1..]))
  }
}
