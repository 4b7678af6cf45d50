/**
 * Without the exactly-once assumption: a message that is delivered again leaves an extra
 * outcome, a deletion that counts outcomes takes the batch for finished, and a row still
 * queued is judged for whoever gets the account next. This is exactly when that happens.
 */
module Redelivery {
  import opened Prelude
  import opened Records
  import opened Accounts
  import opened LedgerSteps
  import opened System
  import opened SystemProofs

  /** A row of this user's batches that the worker would still judge. */
  ghost predicate Straggler(w: World, u: Uid, m: Message) {
    m in w.led.unsent + w.led.queue && m.actor == u && !Cancelled(w.led, m.batch)
  }

  /** After w, u was re-provisioned and owns a check of a batch that existed at w. */
  ghost predicate Inherits(w: World, w': World, u: Uid) {
    && u in w'.acc.users && w'.acc.users[u].reprovisionedAt.Some? && w.now < w'.acc.users[u].reprovisionedAt.value
    && exists i :: 0 <= i < |w'.led.checks| && w'.led.checks[i].batch.Some?
                   && w'.led.checks[i].batch.value in w.led.batches && OwnsCheck(w', u, w'.led.checks[i])
  }

  // ---- no straggler, no inheritance

  /** The old batches of u are stopped, and their checks are all from before the mark. */
  ghost predicate Quiet(x: World, earlier: set<Bid>, u: Uid, mark: Time) {
    && earlier <= x.led.batches.Keys
    && (forall b :: b in earlier && x.led.batches[b].actor == u ==> Stopped(x.led, b))
    && forall i :: 0 <= i < |x.led.checks| ==> QuietCheck(x.led.checks[i], earlier, u, mark)
  }

  ghost predicate QuietCheck(c: Check, earlier: set<Bid>, u: Uid, mark: Time) {
    c.actor == u && c.batch.Some? && c.batch.value in earlier ==> c.createdAt <= mark
  }

  lemma {:induction false} QuietStep(x: World, a: Action, t: Time, earlier: set<Bid>, u: Uid, mark: Time)
    requires WorldSound(x) && Enabled(x, a) && x.now < t && Quiet(x, earlier, u, mark)
    ensures Quiet(Apply(x, a, t), earlier, u, mark)
  {
    var x' := Apply(x, a, t);
    BatchesStep(x, a, t);
    forall b | b in earlier && x'.led.batches[b].actor == u
      ensures Stopped(x'.led, b)
    {
      assert BatchStep(x.led.batches[b], x'.led.batches[b]);
      StoppedStays(x, a, t, b);
    }
    StepIsSound(x, a, t);
    ChecksGrow(x, a, t);
    forall i | 0 <= i < |x'.led.checks|
      ensures QuietCheck(x'.led.checks[i], earlier, u, mark)
    {
      var c := x'.led.checks[i];
      if i < |x.led.checks| {
        assert x.led.checks[i] == c && QuietCheck(x.led.checks[i], earlier, u, mark);
      } else if c.batch.Some? && c.batch.value in earlier && c.actor == u {
        assert RefersToBatch(x'.led, c) && BatchStep(x.led.batches[c.batch.value], x'.led.batches[c.batch.value]);
        StoppedGetsNoCheck(x, a, t, i);
      }
    }
  }

  lemma {:induction false} QuietRun(x: World, steps: Steps, w': World, earlier: set<Bid>, u: Uid, mark: Time)
    requires WorldSound(x) && Run(x, steps, w') && Quiet(x, earlier, u, mark)
    ensures Quiet(w', earlier, u, mark)
    decreases |steps|
  {
    if steps != [] {
      var (a, t) := steps[0];
      QuietStep(x, a, t, earlier, u, mark);
      StepIsSound(x, a, t);
      QuietRun(Apply(x, a, t), steps[1..], w', earlier, u, mark);
    }
  }

  lemma NoStragglerNoInheritance(w: World, u: Uid, steps: Steps, w': World)
    requires WorldSound(w) && Run(w, steps, w')
    requires forall m :: !Straggler(w, u, m)
    ensures !Inherits(w, w', u)
  {
    forall b | b in w.led.batches && w.led.batches[b].actor == u
      ensures Stopped(w.led, b)
    {
      forall m | m in w.led.unsent + w.led.queue && !Cancelled(w.led, b)
        ensures m.batch != b
      {
        assert m in Placed(w.led) && !Straggler(w, u, m);
      }
    }
    forall i | 0 <= i < |w.led.checks|
      ensures QuietCheck(w.led.checks[i], w.led.batches.Keys, u, w.now)
    {
      assert CheckInTime(w.led, w.led.checks[i], w.now);
    }
    QuietRun(w, steps, w', w.led.batches.Keys, u, w.now);
    forall i | 0 <= i < |w'.led.checks| && w'.led.checks[i].batch.Some?
               && w'.led.checks[i].batch.value in w.led.batches && OwnsCheck(w', u, w'.led.checks[i])
      ensures w'.acc.users[u].reprovisionedAt.None? || w'.acc.users[u].reprovisionedAt.value <= w.now
    {
      assert QuietCheck(w'.led.checks[i], w.led.batches.Keys, u, w.now);
    }
  }

  // ---- a straggler is inherited

  lemma RunOfTwo(w: World, a: Action, t: Time, b: Action, s: Time)
    requires Enabled(w, a) && w.now < t && Enabled(Apply(w, a, t), b) && t < s
    ensures Run(w, [(a, t), (b, s)], Apply(Apply(w, a, t), b, s))
  {
    var w1 := Apply(w, a, t);
    var w2 := Apply(w1, b, s);
    assert Run(w2, [], w2);
    assert [(b, s)][1..] == [] && [(b, s)][0] == (b, s);
    assert Run(w1, [(b, s)], w2);
    assert [(a, t), (b, s)][1..] == [(b, s)] && [(a, t), (b, s)][0] == (a, t);
  }

  lemma RunOfThree(w: World, c: Action, r: Time, a: Action, t: Time, b: Action, s: Time)
    requires Enabled(w, c) && w.now < r && Enabled(Apply(w, c, r), a) && r < t
    requires Enabled(Apply(Apply(w, c, r), a, t), b) && t < s
    ensures Run(w, [(c, r), (a, t), (b, s)], Apply(Apply(Apply(w, c, r), a, t), b, s))
  {
    RunOfTwo(Apply(w, c, r), a, t, b, s);
    assert [(c, r), (a, t), (b, s)][1..] == [(a, t), (b, s)] && [(c, r), (a, t), (b, s)][0] == (c, r);
  }

  /** A root admin can give a deleted row to a new holder. */
  lemma CanReinvite(w: World, admin: Uid, u: Uid)
    requires WorldSound(w) && u in w.acc.users && w.acc.users[u].status == Deleted && ActiveAs(w.acc, admin, RootAdmin)
    requires AddressFree(w.acc, w.acc.users[u].email)
    ensures Enabled(w, Invite(admin, w.acc.users[u].email, Instructor, u, None))
  {
  }

  lemma QueuedStragglerIsInherited(w: World, admin: Uid, u: Uid, m: Message)
    requires WorldSound(w) && u in w.acc.users && w.acc.users[u].status == Deleted && ActiveAs(w.acc, admin, RootAdmin)
    requires AddressFree(w.acc, w.acc.users[u].email)
    requires Straggler(w, u, m) && m in w.led.queue
    ensures var invite, work := Invite(admin, w.acc.users[u].email, Instructor, u, None), Work(m, true);
            && Enabled(w, invite) && Enabled(Apply(w, invite, w.now + 1), work)
            && Inherits(w, Apply(Apply(w, invite, w.now + 1), work, w.now + 2), u)
  {
    CanReinvite(w, admin, u);
    var w1 := Apply(w, Invite(admin, w.acc.users[u].email, Instructor, u, None), w.now + 1);
    var w2 := Apply(w1, Work(m, true), w.now + 2);
    assert m in Placed(w.led) && m.batch in w.led.batches;
    var i := |w2.led.checks| - 1;
    assert w2.led.checks[i] == Check(u, Some(m.batch), m.row, w.now + 2);
    assert w2.acc.users[u].reprovisionedAt == Some(w.now + 1);
    assert OwnsCheck(w2, u, w2.led.checks[i]);
  }

  lemma {:induction false} StragglerIsInherited(w: World, admin: Uid, u: Uid, m: Message)
    returns (steps: Steps, w': World)
    requires WorldSound(w) && u in w.acc.users && w.acc.users[u].status == Deleted && ActiveAs(w.acc, admin, RootAdmin)
    requires AddressFree(w.acc, w.acc.users[u].email)
    requires Straggler(w, u, m)
    ensures Run(w, steps, w') && Inherits(w, w', u)
  {
    var invite, work := Invite(admin, w.acc.users[u].email, Instructor, u, None), Work(m, true);
    if m in w.led.queue {
      QueuedStragglerIsInherited(w, admin, u, m);
      RunOfTwo(w, invite, w.now + 1, work, w.now + 2);
      steps := [(invite, w.now + 1), (work, w.now + 2)];
      w' := Apply(Apply(w, invite, w.now + 1), work, w.now + 2);
    } else {
      var w1 := Apply(w, SendRow(m), w.now + 1);
      StepIsSound(w, SendRow(m), w.now + 1);
      QueuedStragglerIsInherited(w1, admin, u, m);
      RunOfThree(w, SendRow(m), w.now + 1, invite, w1.now + 1, work, w1.now + 2);
      steps := [(SendRow(m), w.now + 1), (invite, w1.now + 1), (work, w1.now + 2)];
      w' := Apply(Apply(w1, invite, w1.now + 1), work, w1.now + 2);
      assert w1.led.batches == w.led.batches;
    }
  }

  ghost predicate HasStraggler(w: World, u: Uid) {
    exists m :: Straggler(w, u, m)
  }

  /** Some continuation makes a later holder the owner of work that exists now. */
  ghost predicate CanBeInherited(w: World, u: Uid) {
    exists steps, w' :: Run(w, steps, w') && Inherits(w, w', u)
  }

  /** A deleted row that a root admin could give to a new holder. */
  ghost predicate Reusable(w: World, admin: Uid, u: Uid) {
    && u in w.acc.users && w.acc.users[u].status == Deleted && ActiveAs(w.acc, admin, RootAdmin)
    && AddressFree(w.acc, w.acc.users[u].email)
  }

  lemma StragglerCanBeInherited(w: World, admin: Uid, u: Uid)
    requires WorldSound(w) && Reusable(w, admin, u) && HasStraggler(w, u)
    ensures CanBeInherited(w, u)
  {
    var m :| Straggler(w, u, m);
    var steps, w' := StragglerIsInherited(w, admin, u, m);
  }

  lemma NothingToInherit(w: World, u: Uid)
    requires WorldSound(w) && !HasStraggler(w, u)
    ensures !CanBeInherited(w, u)
  {
    forall steps, w' | Run(w, steps, w')
      ensures !Inherits(w, w', u)
    {
      NoStragglerNoInheritance(w, u, steps, w');
    }
  }

  /**
   * For a deleted row whose address is free again: some future holder can come to own work
   * started before exactly when, right now, an uncancelled batch of the row still has a
   * message waiting to be sent or queued.
   */
  lemma InheritedIffStraggler(w: World, admin: Uid, u: Uid)
    requires WorldSound(w) && Reusable(w, admin, u)
    ensures CanBeInherited(w, u) <==> HasStraggler(w, u)
  {
    if HasStraggler(w, u) {
      StragglerCanBeInherited(w, admin, u);
    } else {
      NothingToInherit(w, u);
    }
  }

  // ---- the deletion that leaves a straggler

  /**
   * A deletion leaves work to inherit exactly when its count of outcomes was wrong: some
   * batch of the user had as many outcomes as rows and still a row to judge.
   */
  lemma DeletionLeavesStragglerExactly(w: World, r: Request, t: Time)
    requires WorldSound(w) && r in w.pending && Granted(w, r) && r.to == Deleted && w.now < t
    ensures HasStraggler(Apply(w, Settle(r), t), r.target) <==> !CountsTellTruth(w.led, r.target)
  {
    var u, after := r.target, Apply(w, Settle(r), t);
    if m :| Straggler(after, u, m) {
      assert m in Placed(w.led) && m.batch in w.led.batches && w.led.batches[m.batch].actor == u;
      assert w.led.batches[m.batch].cancelledAt.None? && !Unfinished(w.led, m.batch) && !Stopped(w.led, m.batch);
    }
    if !CountsTellTruth(w.led, u) {
      var b :| b in w.led.batches && w.led.batches[b].actor == u && w.led.batches[b].cancelledAt.None?
               && !Unfinished(w.led, b) && !Stopped(w.led, b);
      var m :| m in w.led.unsent + w.led.queue && m.batch == b;
      assert m in Placed(w.led) && Straggler(after, u, m);
    }
  }

  /** At the moment of the deletion: its work can be inherited later exactly when the counts do not tell the truth. */
  lemma DeletionIsInheritedExactly(w: World, r: Request, t: Time, admin: Uid)
    requires WorldSound(w) && r in w.pending && Granted(w, r) && r.to == Deleted && w.now < t
    requires ActiveAs(w.acc, admin, RootAdmin) && admin != r.target
    ensures CanBeInherited(Apply(w, Settle(r), t), r.target) <==> !CountsTellTruth(w.led, r.target)
  {
    var after := Apply(w, Settle(r), t);
    StepIsSound(w, Settle(r), t);
    assert Reusable(after, admin, r.target);
    InheritedIffStraggler(after, admin, r.target);
    DeletionLeavesStragglerExactly(w, r, t);
  }

  // ---- the run that leaves a straggler

  const Row0: Message := Message(0, 0, 1)
  const Row1: Message := Message(0, 1, 1)

  /** The instructor's two-row batch at a moment of the run. */
  function Moment(t: Time, checks: seq<Check>, unsent: set<Message>, queue: set<Message>): World {
    World(t, TwoUsers(), Ledger(map[0 := Batch(1, 2, 1, None)], checks, [], unsent, queue, {}, {}), {})
  }

  function Judged(t: Time): Check {
    Check(1, Some(0), 0, t)
  }

  /** Both rows have been sent; the first was judged twice because its deletion got lost once. */
  function TwiceJudged(): World {
    Moment(5, [Judged(4), Judged(5)], {}, {Row1})
  }

  lemma Submitted()
    ensures Enabled(FirstWorld(), Submit(1, 0, 2, 0))
    ensures Apply(FirstWorld(), Submit(1, 0, 2, 0), 1) == Moment(1, [], {Row0, Row1}, {})
  {
    var rows := NewRows(0, 2, 1);
    assert forall m :: m in rows <==> m == Row0 || m == Row1;
    assert rows == {Row0, Row1};
    assert Rejections(0, 2, 0) == [];
  }

  lemma Sent()
    ensures Apply(Moment(1, [], {Row0, Row1}, {}), SendRow(Row0), 2) == Moment(2, [], {Row1}, {Row0})
    ensures Apply(Moment(2, [], {Row1}, {Row0}), SendRow(Row1), 3) == Moment(3, [], {}, {Row0, Row1})
  {
    assert {Row0, Row1} - {Row0} == {Row1} && {Row1} - {Row1} == {};
    assert {} + {Row0} == {Row0} && {Row0} + {Row1} == {Row0, Row1};
  }

  lemma Worked()
    ensures Apply(Moment(3, [], {}, {Row0, Row1}), Work(Row0, false), 4) == Moment(4, [Judged(4)], {}, {Row0, Row1})
    ensures Apply(Moment(4, [Judged(4)], {}, {Row0, Row1}), Work(Row0, true), 5) == TwiceJudged()
  {
    assert {Row0, Row1} - {Row0} == {Row1};
    assert [] + [Judged(4)] == [Judged(4)] && [Judged(4)] + [Judged(5)] == [Judged(4), Judged(5)];
  }

  lemma TwiceJudgedIsReached() returns (steps: Steps)
    ensures Run(FirstWorld(), steps, TwiceJudged())
  {
    Submitted();
    Sent();
    Worked();
    var w0 := FirstWorld();
    steps := [];
    RunExtend(w0, steps, w0, Submit(1, 0, 2, 0), 1);
    steps := steps + [(Submit(1, 0, 2, 0), 1)];
    RunExtend(w0, steps, Moment(1, [], {Row0, Row1}, {}), SendRow(Row0), 2);
    steps := steps + [(SendRow(Row0), 2)];
    RunExtend(w0, steps, Moment(2, [], {Row1}, {Row0}), SendRow(Row1), 3);
    steps := steps + [(SendRow(Row1), 3)];
    RunExtend(w0, steps, Moment(3, [], {}, {Row0, Row1}), Work(Row0, false), 4);
    steps := steps + [(Work(Row0, false), 4)];
    RunExtend(w0, steps, Moment(4, [Judged(4)], {}, {Row0, Row1}), Work(Row0, true), 5);
    steps := steps + [(Work(Row0, true), 5)];
  }

  /** Two outcomes for two rows: the deletion takes the batch for finished. */
  lemma TwiceJudgedLooksFinished()
    ensures CancelUnfinished(TwiceJudged().led, 1, 7) == TwiceJudged().led
  {
    var l := TwiceJudged().led;
    assert l.checks[..1][..0] == [] && l.checks[..1][0] == l.checks[0];
    assert ChecksOf(l.checks[..1], 0) == 1;
    assert ChecksOf(l.checks, 0) == 2;
    assert CancelUnfinished(l, 1, 7).batches == l.batches;
  }

  /** The instructor's account deleted on request, the batch untouched. */
  function AfterDeletion(): World {
    var w := TwiceJudged();
    World(7, Transition(w.acc, 0, 1, Deleted, 7), w.led, {})
  }

  lemma DeletedThen(r: Request)
    requires r == Request(0, 1, Deleted)
    ensures Enabled(TwiceJudged(), Ask(r))
    ensures var asked := Apply(TwiceJudged(), Ask(r), 6);
            Enabled(asked, Settle(r)) && Apply(asked, Settle(r), 7) == AfterDeletion()
  {
    TwiceJudgedLooksFinished();
    assert {} + {r} - {r} == {};
  }

  lemma DeletionLeavesStraggler()
    ensures Reusable(AfterDeletion(), 0, 1) && HasStraggler(AfterDeletion(), 1)
  {
    assert AfterDeletion().acc.users[1] == User("teacher", Instructor, Deleted, None);
    assert Straggler(AfterDeletion(), 1, Row1);
  }

  lemma AfterDeletionIsReached() returns (steps: Steps)
    ensures Start(FirstWorld()) && Run(FirstWorld(), steps, AfterDeletion()) && WorldSound(AfterDeletion())
  {
    var r := Request(0, 1, Deleted);
    DeletedThen(r);
    steps := TwiceJudgedIsReached();
    RunExtend(FirstWorld(), steps, TwiceJudged(), Ask(r), 6);
    steps := steps + [(Ask(r), 6)];
    RunExtend(FirstWorld(), steps, Apply(TwiceJudged(), Ask(r), 6), Settle(r), 7);
    steps := steps + [(Settle(r), 7)];
    StartIsSound(FirstWorld());
    RunIsSound(FirstWorld(), steps, AfterDeletion());
  }

  /** From a fresh start, one redelivery is enough for a later holder to inherit a check. */
  lemma {:induction false} RedeliveryLetsWorkBeInherited() returns (steps: Steps)
    ensures Start(FirstWorld()) && Run(FirstWorld(), steps, AfterDeletion())
    ensures CanBeInherited(AfterDeletion(), 1)
  {
    steps := AfterDeletionIsReached();
    DeletionLeavesStraggler();
    StragglerCanBeInherited(AfterDeletion(), 0, 1);
  }
}
