/** What holds over every run of the whole system. */
module SystemProofs {
  import opened Prelude
  import opened Records
  import opened Accounts
  import opened AccountProofs
  import opened LedgerSteps
  import opened LedgerProofs
  import Sessions
  import opened System

  // ---- one step, any step

  lemma {:induction false} AccountsStep(w: World, a: Action, t: Time)
    requires Sound(w.acc) && Enabled(w, a) && w.now < t
    ensures GoodStep(w.acc, Accs(w, a, t))
  {
    match a
    case Settle(r) =>
      if Granted(w, r) {
        TransitionIsGood(w.acc, r.actor, r.target, r.to, t);
      }
    case Reassign(actor, u, role) => ChangeRoleIsGood(w.acc, actor, u, role, t);
    case Place(_, k, ta, i) => AddLinkIsGood(w.acc, k, ta, i);
    case Remove(actor, k) => EndLinkIsGood(w.acc, actor, k, t);
    case Invite(actor, email, role, u, supervisor) => ProvisionIsGood(w.acc, actor, email, role, u, supervisor, t);
    case LogIn(u, token) => SignInIsGood(w.acc, u, token, t);
    case LogOut(token) => SignOutIsGood(w.acc, w.acc.sessions[token].user, t);
    case Use(token, touch) => VisitIsGood(w.acc, token, touch, t);
    case PurgeSessions => DropOldSessionsIsGood(w.acc, t);
    case _ =>
  }

  lemma LedgerStep(w: World, a: Action, t: Time)
    requires LedgerSound(w.led, w.now) && Enabled(w, a) && w.now < t
    ensures LedgerSound(Leds(w, a, t), t)
  {
    match a
    case Settle(r) => CancelUnfinishedIsSound(w.led, r.target, w.now, t);
    case Submit(actor, b, valid, rejected) => CreateBatchIsSound(w.led, actor, b, valid, rejected, w.now, t);
    case SendRow(m) => SendIsSound(w.led, m, w.now, t);
    case LoseRow(m) => GiveUpIsSound(w.led, m, w.now, t);
    case Work(m, acked) => ProcessIsSound(w.led, m, acked, w.now, t);
    case DeadLetter(m) => RedriveIsSound(w.led, m, w.now, t);
    case DrainDead(m, acked) => DrainIsSound(w.led, m, acked, w.now, t);
    case Stop(_, b) => CancelIsSound(w.led, b, w.now, t);
    case PurgeRows(ms) => PurgeIsSound(w.led, ms, w.now, t);
    case Screen(actor) => AddCheckIsSound(w.led, actor, w.now, t);
    case _ =>
  }

  lemma LedgerConserves(w: World, a: Action, t: Time)
    requires OnePlace(w.led) && Conserved(w.led) && Enabled(w, a) && ExactlyOnce(a)
    ensures Conserved(Leds(w, a, t))
  {
    match a
    case Settle(r) => CancelUnfinishedConserves(w.led, r.target, t);
    case Submit(actor, b, valid, rejected) => CreateConserves(w.led, actor, b, valid, rejected, t);
    case SendRow(m) => SendConserves(w.led, m);
    case LoseRow(m) => GiveUpConserves(w.led, m);
    case Work(m, acked) => ProcessConserves(w.led, m, t);
    case DeadLetter(m) => RedriveConserves(w.led, m);
    case DrainDead(m, acked) => DrainConserves(w.led, m);
    case Stop(_, b) => CancelConserves(w.led, b, t);
    case PurgeRows(ms) => PurgeConserves(w.led, ms);
    case Screen(actor) => AddCheckConserves(w.led, actor, t);
    case _ =>
  }

  /** Rows are never removed, only re-provisioning touches its stamp, and only a granted deletion deletes. */
  ghost predicate UserStep(w: World, a: Action, t: Time, u: Uid, before: User, after: User) {
    && (after.reprovisionedAt == before.reprovisionedAt
        || (before.status == Deleted && a.Invite? && after.reprovisionedAt == Some(t)))
    && (after.status == Deleted && before.status != Deleted ==>
          a.Settle? && Granted(w, a.request) && a.request.to == Deleted && a.request.target == u)
    && (before.status == Deleted && after.status != Deleted ==> after.reprovisionedAt == Some(t))
  }

  ghost predicate AllUsersStep(w: World, a: Action, t: Time, users: map<Uid, User>) {
    && (forall u :: u in w.acc.users ==> u in users && UserStep(w, a, t, u, w.acc.users[u], users[u]))
    && (forall u :: u in users && u !in w.acc.users ==> users[u].reprovisionedAt == None)
  }

  lemma UsersStep(w: World, a: Action, t: Time)
    requires Enabled(w, a)
    ensures AllUsersStep(w, a, t, Accs(w, a, t).users)
  {
  }

  /** Batches are never removed, keep their submitter and time, and a cancellation stays. */
  ghost predicate BatchStep(before: Batch, after: Batch) {
    && after.actor == before.actor && after.createdAt == before.createdAt
    && (before.cancelledAt.Some? ==> after.cancelledAt == before.cancelledAt)
  }

  ghost predicate AllBatchesStep(w: World, a: Action, t: Time, batches: map<Bid, Batch>) {
    && (forall b :: b in w.led.batches ==> b in batches && BatchStep(w.led.batches[b], batches[b]))
    && (forall b :: b in batches && b !in w.led.batches ==>
          a.Submit? && batches[b].actor == a.actor && batches[b].createdAt == t && batches[b].cancelledAt == None)
  }

  lemma BatchesStep(w: World, a: Action, t: Time)
    requires Enabled(w, a)
    ensures AllBatchesStep(w, a, t, Leds(w, a, t).batches)
  {
  }

  lemma LinkedStep(w: World, a: Action, t: Time, w': World)
    requires Linked(w) && Enabled(w, a) && w.now < t && w'.now == t
    requires AllUsersStep(w, a, t, w'.acc.users) && AllBatchesStep(w, a, t, w'.led.batches)
    ensures Linked(w')
  {
  }

  lemma StepIsSound(w: World, a: Action, t: Time)
    requires WorldSound(w) && Enabled(w, a) && w.now < t
    ensures WorldSound(Apply(w, a, t)) && GoodStep(w.acc, Apply(w, a, t).acc)
  {
    AccountsStep(w, a, t);
    LedgerStep(w, a, t);
    UsersStep(w, a, t);
    BatchesStep(w, a, t);
    LinkedStep(w, a, t, Apply(w, a, t));
  }

  // ---- no work is inherited

  /** Nothing puts a message of an old batch back on its way. */
  lemma StoppedStays(w: World, a: Action, t: Time, b: Bid)
    requires Enabled(w, a) && b in w.led.batches && Stopped(w.led, b)
    ensures Stopped(Leds(w, a, t), b)
  {
    BatchesStep(w, a, t);
    if !Cancelled(w.led, b) {
      forall m | m in Leds(w, a, t).unsent + Leds(w, a, t).queue
        ensures m.batch != b
      {
      }
    }
  }

  /** The worker judges nothing for a stopped batch. */
  lemma StoppedGetsNoCheck(w: World, a: Action, t: Time, i: nat)
    requires Enabled(w, a) && i < |Leds(w, a, t).checks|
    requires Leds(w, a, t).checks[i].batch.Some? && Stopped(w.led, Leds(w, a, t).checks[i].batch.value)
    ensures i < |w.led.checks|
  {
  }

  /** A deletion whose counts tell the truth stops all the work of the user. */
  lemma CleanDeleteStops(l: Ledger, u: Uid, t: Time, b: Bid)
    requires CountsTellTruth(l, u) && b in l.batches && l.batches[b].actor == u
    ensures Stopped(CancelUnfinished(l, u, t), b)
  {
    if !Unfinished(l, b) && l.batches[b].cancelledAt.None? {
      assert Stopped(l, b);
    }
  }

  lemma PredecessorsStayStopped(w: World, a: Action, t: Time)
    requires WorldSound(w) && Enabled(w, a) && w.now < t && PredecessorsStopped(w) && CleanDelete(w, a)
    ensures PredecessorsStopped(Apply(w, a, t))
  {
    UsersStep(w, a, t);
    BatchesStep(w, a, t);
    forall b | Predecessors(Apply(w, a, t), b)
      ensures Stopped(Leds(w, a, t), b)
    {
      if Predecessors(w, b) {
        StoppedStays(w, a, t, b);
      } else {
        CleanDeleteStops(w.led, a.request.target, t, b);
      }
    }
  }

  /** Old checks: ownership of check and batch moves together when the row is re-provisioned. */
  lemma OldCheckStaysOwned(w: World, a: Action, t: Time, w': World, c: Check, u: Uid)
    requires Linked(w) && w.now < t && CheckInTime(w.led, c, w.now) && RefersToBatch(w.led, c) && c.batch.Some?
    requires u in w.acc.users && (OwnsCheck(w, u, c) ==> OwnsBatch(w, u, c.batch.value))
    requires AllUsersStep(w, a, t, w'.acc.users) && AllBatchesStep(w, a, t, w'.led.batches)
    requires OwnsCheck(w', u, c)
    ensures OwnsBatch(w', u, c.batch.value)
  {
    assert UserStep(w, a, t, u, w.acc.users[u], w'.acc.users[u]);
    assert BatchStep(w.led.batches[c.batch.value], w'.led.batches[c.batch.value]);
  }

  /** An old check of u means u was there already. */
  lemma CheckOwnerIsKnown(w: World, i: nat, u: Uid)
    requires WorldSound(w) && i < |w.led.checks| && w.led.checks[i].actor == u && w.led.checks[i].batch.Some?
    ensures u in w.acc.users && CheckInTime(w.led, w.led.checks[i], w.now) && RefersToBatch(w.led, w.led.checks[i])
  {
    assert RefersToBatch(w.led, w.led.checks[i]);
  }

  /** The step adds checks at the end and changes none. */
  lemma ChecksGrow(w: World, a: Action, t: Time)
    requires Enabled(w, a)
    ensures w.led.checks <= Leds(w, a, t).checks
  {
  }

  lemma NoCheckInherited(w: World, a: Action, t: Time, i: nat, u: Uid)
    requires WorldSound(w) && Enabled(w, a) && w.now < t && PredecessorsStopped(w) && NothingInherited(w)
    requires var w' := Apply(w, a, t);
             i < |w'.led.checks| && OwnsCheck(w', u, w'.led.checks[i]) && w'.led.checks[i].batch.Some?
    ensures var w' := Apply(w, a, t); OwnsBatch(w', u, w'.led.checks[i].batch.value)
  {
    var w' := Apply(w, a, t);
    ChecksGrow(w, a, t);
    if i < |w.led.checks| {
      assert w.led.checks[i] == w'.led.checks[i];
      CheckOwnerIsKnown(w, i, u);
      UsersStep(w, a, t);
      BatchesStep(w, a, t);
      OldCheckStaysOwned(w, a, t, w', w.led.checks[i], u);
    } else {
      NewCheckIsOwned(w, a, t, i, u);
    }
  }

  /** A check added in this step is for a batch its submitter's present holder started. */
  lemma NewCheckIsOwned(w: World, a: Action, t: Time, i: nat, u: Uid)
    requires WorldSound(w) && Enabled(w, a) && w.now < t && PredecessorsStopped(w)
    requires |w.led.checks| <= i < |Leds(w, a, t).checks|
    requires Leds(w, a, t).checks[i].batch.Some? && Leds(w, a, t).checks[i].actor == u
    ensures OwnsBatch(Apply(w, a, t), u, Leds(w, a, t).checks[i].batch.value)
  {
    assert a.Work? && !Cancelled(w.led, a.message.batch);
    var b := a.message.batch;
    assert a.message in Placed(w.led);
    assert !Stopped(w.led, b);
    assert !Predecessors(w, b);
  }

  lemma NothingInheritedStep(w: World, a: Action, t: Time)
    requires WorldSound(w) && Enabled(w, a) && w.now < t && PredecessorsStopped(w) && NothingInherited(w)
    ensures NothingInherited(Apply(w, a, t))
  {
    var w' := Apply(w, a, t);
    forall i, u | 0 <= i < |w'.led.checks| && OwnsCheck(w', u, w'.led.checks[i]) && w'.led.checks[i].batch.Some?
      ensures OwnsBatch(w', u, w'.led.checks[i].batch.value)
    {
      NoCheckInherited(w, a, t, i, u);
    }
  }

  /** With exact balances every deletion is clean. */
  lemma BalanceMakesDeletesClean(w: World, a: Action)
    requires OnePlace(w.led) && Conserved(w.led)
    ensures CleanDelete(w, a)
  {
    if a.Settle? {
      forall b | b in w.led.batches && w.led.batches[b].actor == a.request.target
                 && w.led.batches[b].cancelledAt.None? && !Unfinished(w.led, b)
        ensures Stopped(w.led, b)
      {
        FinishedIsEmpty(w.led, b);
        assert forall m :: m in w.led.unsent + w.led.queue && m.batch == b ==>
            m in RowsOf(w.led.unsent, b) || m in RowsOf(w.led.queue, b);
      }
    }
  }

  // ---- whole runs

  lemma StartIsSound(w: World)
    requires Start(w)
    ensures WorldSound(w) && Conserved(w.led) && PredecessorsStopped(w) && NothingInherited(w)
  {
    assert Sound(w.acc);
    assert LedgerSound(w.led, w.now);
  }

  /** Every run keeps the invariants of accounts and ledger, redelivery or not. */
  lemma {:induction false} RunIsSound(w: World, steps: Steps, w': World)
    requires WorldSound(w) && Run(w, steps, w')
    ensures WorldSound(w') && DeathIsFinal(w.acc, w'.acc)
    decreases |steps|
  {
    if steps != [] {
      var (a, t) := steps[0];
      StepIsSound(w, a, t);
      RunIsSound(Apply(w, a, t), steps[1..], w');
      DeathAcross(w.acc, Apply(w, a, t).acc, w'.acc);
    }
  }

  lemma DeathAcross(s: AccountData, m: AccountData, e: AccountData)
    requires DeathIsFinal(s, m) && DeathIsFinal(m, e) && SessionsAreActive(s)
    ensures DeathIsFinal(s, e)
  {
    forall t | LiveSession(s, t) && LiveSession(e, t)
      ensures e.sessions[t].user == s.sessions[t].user
    {
      assert !Dead(m, t);
    }
  }

  /** When every deletion finds truthful counts, nobody ever inherits a predecessor's work. */
  lemma {:induction false} CleanRunsInheritNothing(w: World, steps: Steps, w': World)
    requires WorldSound(w) && PredecessorsStopped(w) && NothingInherited(w)
    requires Run(w, steps, w') && AllDeletesClean(w, steps)
    ensures PredecessorsStopped(w') && NothingInherited(w')
    decreases |steps|
  {
    if steps != [] {
      var (a, t) := steps[0];
      StepIsSound(w, a, t);
      PredecessorsStayStopped(w, a, t);
      NothingInheritedStep(w, a, t);
      CleanRunsInheritNothing(Apply(w, a, t), steps[1..], w');
    }
  }

  /** Exactly-once runs keep the exact balance, so all their deletions are clean. */
  lemma {:induction false} ExactRunsStayBalanced(w: World, steps: Steps, w': World)
    requires WorldSound(w) && Conserved(w.led) && Run(w, steps, w') && AllExactlyOnce(steps)
    ensures Conserved(w'.led) && AllDeletesClean(w, steps)
    decreases |steps|
  {
    if steps != [] {
      var (a, t) := steps[0];
      assert ExactlyOnce(a);
      BalanceMakesDeletesClean(w, a);
      LedgerConserves(w, a, t);
      StepIsSound(w, a, t);
      assert forall i :: 0 <= i < |steps[1..]| ==> steps[1..][i] == steps[i + 1];
      ExactRunsStayBalanced(Apply(w, a, t), steps[1..], w');
    }
  }

  /**
   * The main result. From a fresh start, over every run in which outcomes are recorded
   * exactly once: the row balance holds, and a re-provisioned account never owns a check of
   * a batch its predecessor started.
   */
  lemma {:induction false} ReprovisionedInheritNothing(w: World, steps: Steps, w': World)
    requires Start(w) && Run(w, steps, w') && AllExactlyOnce(steps)
    ensures WorldSound(w') && Conserved(w'.led) && NothingInherited(w')
  {
    StartIsSound(w);
    RunIsSound(w, steps, w');
    ExactRunsStayBalanced(w, steps, w');
    CleanRunsInheritNothing(w, steps, w');
  }

  /** A token whose session is revoked or gone never works again. */
  lemma RevokedTokensStayDead(w: World, steps: Steps, w': World, t: Token)
    requires WorldSound(w) && Run(w, steps, w') && Dead(w.acc, t)
    ensures forall touch, now :: !Sessions.Authenticate(w'.acc, t, touch, now).Alive?
  {
    RunIsSound(w, steps, w');
    assert Dead(w'.acc, t);
  }

  /** Whoever is not active now has no token that will ever work again, whatever becomes of the account. */
  lemma {:induction false} InactiveHoldersTokensStayDead(w: World, steps: Steps, w': World, t: Token)
    requires WorldSound(w) && Run(w, steps, w') && t in w.acc.sessions
    requires w.acc.sessions[t].user in w.acc.users && w.acc.users[w.acc.sessions[t].user].status != Active
    ensures forall touch, now :: !Sessions.Authenticate(w'.acc, t, touch, now).Alive?
  {
    assert !LiveSession(w.acc, t);
    RevokedTokensStayDead(w, steps, w', t);
  }

  /** After a sign-out no token its user had will ever work again. */
  lemma {:induction false} SignedOutTokensStayDead(w: World, t: Token, now: Time, steps: Steps, w': World, x: Token)
    requires WorldSound(w) && Enabled(w, LogOut(t)) && w.now < now && Run(Apply(w, LogOut(t), now), steps, w')
    requires x in w.acc.sessions && w.acc.sessions[x].user == w.acc.sessions[t].user
    ensures forall touch, later :: !Sessions.Authenticate(w'.acc, x, touch, later).Alive?
  {
    StepIsSound(w, LogOut(t), now);
    assert Dead(Apply(w, LogOut(t), now).acc, x);
    RevokedTokensStayDead(Apply(w, LogOut(t), now), steps, w', x);
  }

  /** A run can be continued by one more step. */
  lemma {:induction false} RunExtend(w: World, steps: Steps, x: World, a: Action, t: Time)
    requires Run(w, steps, x) && Enabled(x, a) && x.now < t
    ensures Run(w, steps + [(a, t)], Apply(x, a, t))
    decreases |steps|
  {
    if steps == [] {
      assert [(a, t)][0] == (a, t) && [(a, t)][1..] == [];
      assert steps + [(a, t)] == [(a, t)];
      assert Run(Apply(x, a, t), [], Apply(x, a, t));
    } else {
      var (b, s) := steps[0];
      RunExtend(Apply(w, b, s), steps[1..], x, a, t);
      assert (steps + [(a, t)])[0] == steps[0];
      assert (steps + [(a, t)])[1..] == steps[1..] + [(a, t)];
    }
  }

  /** Accounts are never removed. */
  lemma {:induction false} RunKeepsUsers(w: World, steps: Steps, w': World)
    requires Run(w, steps, w')
    ensures w.acc.users.Keys <= w'.acc.users.Keys
    decreases |steps|
  {
    if steps != [] {
      var (a, t) := steps[0];
      UsersStep(w, a, t);
      RunKeepsUsers(Apply(w, a, t), steps[1..], w');
    }
  }

  /** Two runs, one after the other, are a run. */
  lemma {:induction false} RunJoin(w: World, steps: Steps, x: World, more: Steps, y: World)
    requires Run(w, steps, x) && Run(x, more, y)
    ensures Run(w, steps + more, y)
    decreases |more|
  {
    if more == [] {
      assert steps + more == steps;
    } else {
      var (a, t) := more[0];
      RunExtend(w, steps, x, a, t);
      RunJoin(w, steps + [(a, t)], Apply(x, a, t), more[1..], y);
      assert steps + [(a, t)] + more[1..] == steps + more;
    }
  }
}
