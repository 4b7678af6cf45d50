/**
 * What every action of the transition system does to the stored tables, and what follows for
 * cancelled batches and for who owns what.
 */
module Effects {
  import opened Prelude
  import opened Records
  import opened Accounts
  import opened AccountEffects
  import opened LedgerEffects
  import opened LedgerSteps
  import opened System
  import opened SystemProofs

  ghost predicate OnlyAccounts(w: World, w': World) {
    w'.led == w.led && w'.pending == w.pending
  }

  ghost predicate OnlyLedger(w: World, w': World) {
    w'.acc == w.acc && w'.pending == w.pending
  }

  /** A decided status change: refused in place, or carried out with the cancellation a deletion brings. */
  ghost predicate Settled(w: World, w': World, r: Request, t: Time) {
    && w'.pending == w.pending - {r}
    && if r.target in w.acc.users && w.acc.users[r.target].status !in {Deleted, r.to}
       then && StatusChanged(w.acc, w'.acc, r.actor, r.target, r.to, t)
            && if r.to == Deleted then ShortBatchesMarked(w.led, w'.led, r.target, t) else w'.led == w.led
       else w'.acc == w.acc && w'.led == w.led
  }

  /** What each action does, at the level of the tables. */
  ghost predicate Does(w: World, a: Action, t: Time, w': World) {
    && w'.now == t
    && match a
       case Ask(r) => w'.acc == w.acc && w'.led == w.led && w'.pending == w.pending + {r}
       case Settle(r) => Settled(w, w', r, t)
       case Reassign(actor, u, role) => OnlyAccounts(w, w') && RoleChanged(w.acc, w'.acc, actor, u, role, t)
       case Place(_, k, ta, i) => OnlyAccounts(w, w') && PairLinked(w.acc, w'.acc, k, ta, i)
       case Remove(actor, k) => OnlyAccounts(w, w') && LinkEnded(w.acc, w'.acc, actor, k, t)
       case Invite(actor, email, role, u, supervisor) =>
         OnlyAccounts(w, w') && Invited(w.acc, w'.acc, actor, email, role, u, supervisor, t)
       case LogIn(u, token) => OnlyAccounts(w, w') && SignedIn(w.acc, w'.acc, u, token, t)
       case LogOut(token) =>
         && OnlyAccounts(w, w') && token in w.acc.sessions && OthersKept(w.acc, w'.acc)
         && SignedOut(w.acc, w'.acc, iset{w.acc.sessions[token].user}, t)
       case Use(token, touch) => OnlyAccounts(w, w') && Visited(w.acc, w'.acc, token, touch, t)
       case PurgeSessions => OnlyAccounts(w, w') && OldRowsDropped(w.acc, w'.acc, t)
       case Submit(actor, b, valid, rejected) =>
         OnlyLedger(w, w') && Submitted(w.led, w'.led, actor, b, valid, rejected, t)
       case SendRow(m) => OnlyLedger(w, w') && RowSent(w.led, w'.led, m)
       case LoseRow(m) => OnlyLedger(w, w') && RowLost(w.led, w'.led, m)
       case Work(m, acked) => OnlyLedger(w, w') && RowJudged(w.led, w'.led, m, acked, t)
       case DeadLetter(m) => OnlyLedger(w, w') && RowDeadLettered(w.led, w'.led, m)
       case DrainDead(m, acked) => OnlyLedger(w, w') && LetterFailed(w.led, w'.led, m, acked)
       case Stop(_, b) => OnlyLedger(w, w') && BatchMarked(w.led, w'.led, b, t)
       case PurgeRows(ms) => OnlyLedger(w, w') && RowsPurged(w.led, w'.led, ms)
       case Screen(actor) => OnlyLedger(w, w') && Screened(w.led, w'.led, actor, t)
  }

  lemma {:induction false} AccountActionDoes(w: World, a: Action, t: Time)
    requires Enabled(w, a) && !a.Settle?
    requires a.Reassign? || a.Place? || a.Remove? || a.Invite? || a.LogIn? || a.LogOut? || a.Use? || a.PurgeSessions?
    ensures Does(w, a, t, Apply(w, a, t))
  {
    match a
    case Reassign(actor, u, role) => ChangeRoleEffect(w.acc, actor, u, role, t);
    case Place(_, k, ta, i) => AddLinkEffect(w.acc, k, ta, i);
    case Remove(actor, k) => EndLinkEffect(w.acc, actor, k, t);
    case Invite(actor, email, role, u, supervisor) => ProvisionEffect(w.acc, actor, email, role, u, supervisor, t);
    case LogIn(u, token) => SignInEffect(w.acc, u, token, t);
    case LogOut(token) => SignOutEffect(w.acc, w.acc.sessions[token].user, t);
    case Use(token, touch) => VisitEffect(w.acc, token, touch, t);
    case PurgeSessions => DropOldSessionsEffect(w.acc, t);
  }

  lemma {:induction false} SettleDoes(w: World, r: Request, t: Time)
    requires Enabled(w, Settle(r))
    ensures Does(w, Settle(r), t, Apply(w, Settle(r), t))
  {
    if r.target in w.acc.users {
      AllowedMoves(w.acc.users[r.target].status, r.to);
      TransitionEffect(w.acc, r.actor, r.target, r.to, t);
      CancelUnfinishedEffect(w.led, r.target, t);
    }
  }

  /** Every enabled action does to the tables what is said above. */
  lemma {:induction false} EveryActionDoes(w: World, a: Action, t: Time)
    requires Enabled(w, a)
    ensures Does(w, a, t, Apply(w, a, t))
  {
    match a
    case Settle(r) => SettleDoes(w, r, t);
    case Submit(actor, b, valid, rejected) => CreateBatchEffect(w.led, actor, b, valid, rejected, t);
    case Stop(_, b) => CancelEffect(w.led, b, t);
    case Ask(_) =>
    case SendRow(_) =>
    case LoseRow(_) =>
    case Work(_, _) =>
    case DeadLetter(_) =>
    case DrainDead(_, _) =>
    case PurgeRows(_) =>
    case Screen(_) =>
    case _ => AccountActionDoes(w, a, t);
  }

  // ---- a cancelled batch

  /** No check from place n on is one of the batch. */
  ghost predicate NoCheckFrom(l: Ledger, n: nat, b: Bid) {
    forall i :: n <= i < |l.checks| ==> l.checks[i].batch != Some(b)
  }

  /** Once stopped, a batch is stopped after every run, and the run adds no check to it. */
  lemma {:induction false} StoppedForGood(w: World, steps: Steps, w': World, b: Bid)
    requires WorldSound(w) && Run(w, steps, w') && b in w.led.batches && Stopped(w.led, b)
    ensures b in w'.led.batches && Stopped(w'.led, b) && |w.led.checks| <= |w'.led.checks|
    ensures NoCheckFrom(w'.led, |w.led.checks|, b)
    decreases |steps|
  {
    if steps != [] {
      var (a, t) := steps[0];
      var x := Apply(w, a, t);
      StepIsSound(w, a, t);
      ChecksGrow(w, a, t);
      BatchesStep(w, a, t);
      StoppedStays(w, a, t, b);
      StoppedForGood(x, steps[1..], w', b);
      ChecksOnlyGrow(x, steps[1..], w');
      forall i | |w.led.checks| <= i < |w'.led.checks| ensures w'.led.checks[i].batch != Some(b) {
        if i < |x.led.checks| && x.led.checks[i].batch == Some(b) {
          StoppedGetsNoCheck(w, a, t, i);
        }
      }
    }
  }

  lemma {:induction false} ChecksOnlyGrow(w: World, steps: Steps, w': World)
    requires Run(w, steps, w')
    ensures w.led.checks <= w'.led.checks
    decreases |steps|
  {
    if steps != [] {
      var (a, t) := steps[0];
      ChecksGrow(w, a, t);
      ChecksOnlyGrow(Apply(w, a, t), steps[1..], w');
    }
  }

  /** A cancel stops its batch: marked from then on, and no run afterwards adds a check to it. */
  lemma {:induction false} CancelStopsForGood(w: World, actor: Uid, b: Bid, t: Time, steps: Steps, w': World)
    requires WorldSound(w) && Enabled(w, Stop(actor, b)) && w.now < t && Run(Apply(w, Stop(actor, b), t), steps, w')
    ensures Apply(w, Stop(actor, b), t).led.batches[b].cancelledAt.Some?
    ensures b in w'.led.batches && Stopped(w'.led, b) && NoCheckFrom(w'.led, |w.led.checks|, b)
  {
    StepIsSound(w, Stop(actor, b), t);
    StoppedForGood(Apply(w, Stop(actor, b), t), steps, w', b);
  }

  // ---- who owns what

  /** What an active user starts is theirs. */
  lemma {:induction false} NewWorkIsOwned(w: World, a: Action, t: Time)
    requires WorldSound(w) && Enabled(w, a) && w.now < t && (a.Submit? || a.Screen?)
    ensures var w' := Apply(w, a, t);
            && (a.Submit? ==> OwnsBatch(w', a.actor, a.batch))
            && (a.Screen? ==> OwnsCheck(w', a.actor, w'.led.checks[|w.led.checks|]))
  {
  }

  /** It stays theirs through every action but an invitation of their own row. */
  lemma {:induction false} WorkStaysOwned(w: World, a: Action, t: Time, u: Uid)
    requires WorldSound(w) && Enabled(w, a) && w.now < t && !(a.Invite? && a.user == u)
    ensures var w' := Apply(w, a, t);
            && (forall b :: OwnsBatch(w, u, b) ==> OwnsBatch(w', u, b))
            && forall c :: OwnsCheck(w, u, c) ==> OwnsCheck(w', u, c)
  {
    UsersStep(w, a, t);
    BatchesStep(w, a, t);
  }

  /** A re-provisioned row owns nothing that was there before. */
  lemma {:induction false} NothingOlderIsOwned(w: World, a: Action, t: Time)
    requires WorldSound(w) && Enabled(w, a) && w.now < t && a.Invite? && a.user in w.acc.users
    ensures var w' := Apply(w, a, t);
            && (forall b :: b in w.led.batches ==> !OwnsBatch(w', a.user, b))
            && forall i :: 0 <= i < |w.led.checks| ==> !OwnsCheck(w', a.user, w.led.checks[i])
  {
    forall i | 0 <= i < |w.led.checks| ensures w.led.checks[i].createdAt <= w.now {
      assert CheckInTime(w.led, w.led.checks[i], w.now);
    }
  }

  /** Who may submit: an active user, and an assistant only from an active team. */
  lemma {:induction false} ScreeningNeedsTeam(s: AccountData, u: Uid)
    ensures MayScreen(s, u) <==>
            && u in s.users && s.users[u].status == Active
            && (s.users[u].role == TeachingAssistant ==> OnActiveTeam(s, u))
  {
    SupervisedIsOnActiveTeam(s);
  }
}
