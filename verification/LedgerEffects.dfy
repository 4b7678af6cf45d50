/**
 * What every step of a batch does to the stored tables and the queues, row by row, and that
 * nothing else moves.
 */
module LedgerEffects {
  import opened Prelude
  import opened Records
  import opened LedgerSteps

  // ---- counts

  ghost function CheckPlaces(l: Ledger, b: Bid): set<nat> {
    set i: nat | i < |l.checks| && l.checks[i].batch == Some(b)
  }

  ghost function FailurePlaces(l: Ledger, b: Bid): set<nat> {
    set i: nat | i < |l.failures| && l.failures[i].batch == b
  }

  lemma {:induction false} ChecksAreCounted(l: Ledger, b: Bid)
    ensures ChecksOf(l.checks, b) == |CheckPlaces(l, b)|
    decreases |l.checks|
  {
    if l.checks != [] {
      var n := |l.checks| - 1;
      var front := l.(checks := l.checks[..n]);
      ChecksAreCounted(front, b);
      assert CheckPlaces(l, b) == CheckPlaces(front, b) + if l.checks[n].batch == Some(b) then {n} else {};
    } else {
      assert CheckPlaces(l, b) == {};
    }
  }

  lemma {:induction false} FailuresAreCounted(l: Ledger, b: Bid)
    ensures FailuresOf(l.failures, b) == |FailurePlaces(l, b)|
    decreases |l.failures|
  {
    if l.failures != [] {
      var n := |l.failures| - 1;
      var front := l.(failures := l.failures[..n]);
      FailuresAreCounted(front, b);
      assert FailurePlaces(l, b) == FailurePlaces(front, b) + if l.failures[n].batch == b then {n} else {};
    } else {
      assert FailurePlaces(l, b) == {};
    }
  }

  // ---- cancelling

  ghost predicate OnlyBatches(l: Ledger, l': Ledger) {
    && l'.batches.Keys == l.batches.Keys && l'.checks == l.checks && l'.failures == l.failures
    && l'.unsent == l.unsent && l'.queue == l.queue && l'.dead == l.dead && l'.purged == l.purged
  }

  /** The batch has fewer checks and failures than rows. */
  ghost predicate Short(l: Ledger, b: Bid)
    requires b in l.batches
  {
    |CheckPlaces(l, b)| + |FailurePlaces(l, b)| < l.batches[b].rowTotal
  }

  /** Exactly the user's uncancelled batches with fewer outcomes than rows are marked; nobody else's batch moves. */
  ghost predicate ShortOnesMarked(l: Ledger, batches: map<Bid, Batch>, u: Uid, now: Time) {
    && batches.Keys == l.batches.Keys
    && forall b :: b in l.batches ==>
         if l.batches[b].actor == u && l.batches[b].cancelledAt.None? && Short(l, b)
         then batches[b] == l.batches[b].(cancelledAt := Some(now))
         else batches[b] == l.batches[b]
  }

  ghost predicate ShortBatchesMarked(l: Ledger, l': Ledger, u: Uid, now: Time) {
    OnlyBatches(l, l') && ShortOnesMarked(l, l'.batches, u, now)
  }

  lemma {:induction false} CancelUnfinishedEffect(l: Ledger, u: Uid, now: Time)
    ensures ShortBatchesMarked(l, CancelUnfinished(l, u, now), u, now)
  {
    forall b | b in l.batches
      ensures Short(l, b) <==> ChecksOf(l.checks, b) + FailuresOf(l.failures, b) < l.batches[b].rowTotal
    {
      ChecksAreCounted(l, b);
      FailuresAreCounted(l, b);
    }
  }

  /** The mark is the old one if there was one, else this time; nothing else about any batch moves. */
  ghost predicate OneMarked(before: map<Bid, Batch>, after: map<Bid, Batch>, b: Bid, now: Time) {
    && b in before && after.Keys == before.Keys && (forall c :: c in before && c != b ==> after[c] == before[c])
    && after[b] == Batch(before[b].actor, before[b].rowTotal, before[b].createdAt,
                        if before[b].cancelledAt.Some? then before[b].cancelledAt else Some(now))
  }

  ghost predicate BatchMarked(l: Ledger, l': Ledger, b: Bid, now: Time) {
    OnlyBatches(l, l') && OneMarked(l.batches, l'.batches, b, now)
  }

  lemma {:induction false} CancelEffect(l: Ledger, b: Bid, now: Time)
    requires b in l.batches
    ensures BatchMarked(l, Cancel(l, b, now), b, now)
  {
  }

  // ---- rows on their way

  ghost predicate SameBatches(l: Ledger, l': Ledger) {
    l'.batches == l.batches
  }

  /** One batch more, uncancelled, with its rejected rows as failures and its valid rows to be sent. */
  ghost predicate Submitted(l: Ledger, l': Ledger, actor: Uid, b: Bid, valid: nat, rejected: nat, now: Time) {
    && l'.batches == l.batches[b := Batch(actor, valid + rejected, now, None)]
    && l'.checks == l.checks && l'.queue == l.queue && l'.dead == l.dead && l'.purged == l.purged
    && (forall m :: m in l'.unsent <==>
          m in l.unsent || (m.batch == b && m.actor == actor && m.row < valid))
    && |l'.failures| == |l.failures| + rejected && l'.failures[..|l.failures|] == l.failures
    && forall j :: |l.failures| <= j < |l'.failures| ==> l'.failures[j] == Failure(b, valid + j - |l.failures|)
  }

  lemma {:induction false} RejectionsInOrder(b: Bid, valid: nat, rejected: nat)
    ensures forall i :: 0 <= i < rejected ==> Rejections(b, valid, rejected)[i] == Failure(b, valid + i)
  {
    if rejected > 0 {
      RejectionsInOrder(b, valid, rejected - 1);
    }
  }

  lemma {:induction false} CreateBatchEffect(l: Ledger, actor: Uid, b: Bid, valid: nat, rejected: nat, now: Time)
    ensures Submitted(l, CreateBatch(l, actor, b, valid, rejected, now), actor, b, valid, rejected, now)
  {
    RejectionsInOrder(b, valid, rejected);
    forall m: Message | m.batch == b && m.actor == actor && m.row < valid
      ensures m in NewRows(b, valid, actor)
    {
      assert m == Message(b, m.row, actor);
    }
  }

  /** The message moved from the sender to the queue. */
  ghost predicate RowSent(l: Ledger, l': Ledger, m: Message) {
    && SameBatches(l, l') && l'.checks == l.checks && l'.failures == l.failures
    && l'.unsent == l.unsent - {m} && l'.queue == l.queue + {m} && l'.dead == l.dead && l'.purged == l.purged
  }

  /** The message is gone from the sender and is a failure. */
  ghost predicate RowLost(l: Ledger, l': Ledger, m: Message) {
    && SameBatches(l, l') && l'.checks == l.checks && l'.failures == l.failures + [Failure(m.batch, m.row)]
    && l'.unsent == l.unsent - {m} && l'.queue == l.queue && l'.dead == l.dead && l'.purged == l.purged
  }

  /** One failure for a marked batch, else one check by the row's author; the message goes only if deleted. */
  ghost predicate RowJudged(l: Ledger, l': Ledger, m: Message, deleted: bool, now: Time) {
    && SameBatches(l, l') && l'.unsent == l.unsent && l'.dead == l.dead && l'.purged == l.purged
    && l'.queue == (if deleted then l.queue - {m} else l.queue)
    && if m.batch in l.batches && l.batches[m.batch].cancelledAt.Some?
       then l'.failures == l.failures + [Failure(m.batch, m.row)] && l'.checks == l.checks
       else l'.checks == l.checks + [Check(m.actor, Some(m.batch), m.row, now)] && l'.failures == l.failures
  }

  /** One failure; the dead letter goes only if deleted. */
  ghost predicate LetterFailed(l: Ledger, l': Ledger, m: Message, deleted: bool) {
    && SameBatches(l, l') && l'.checks == l.checks && l'.failures == l.failures + [Failure(m.batch, m.row)]
    && l'.unsent == l.unsent && l'.queue == l.queue && l'.purged == l.purged
    && l'.dead == (if deleted then l.dead - {m} else l.dead)
  }

  /** The message moved to the dead letters. */
  ghost predicate RowDeadLettered(l: Ledger, l': Ledger, m: Message) {
    && SameBatches(l, l') && l'.checks == l.checks && l'.failures == l.failures && l'.unsent == l.unsent
    && l'.queue == l.queue - {m} && l'.dead == l.dead + {m} && l'.purged == l.purged
  }

  /** The messages are gone from the queue. */
  ghost predicate RowsPurged(l: Ledger, l': Ledger, ms: set<Message>) {
    && SameBatches(l, l') && l'.checks == l.checks && l'.failures == l.failures && l'.unsent == l.unsent
    && l'.queue == l.queue - ms && l'.dead == l.dead && l'.purged == l.purged + ms
  }

  /** One check of the author's own, of no batch. */
  ghost predicate Screened(l: Ledger, l': Ledger, actor: Uid, now: Time) {
    && SameBatches(l, l') && l'.failures == l.failures && l'.unsent == l.unsent && l'.queue == l.queue
    && l'.dead == l.dead && l'.purged == l.purged && l'.checks == l.checks + [Check(actor, None, 0, now)]
  }
}
