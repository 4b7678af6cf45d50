/**
 * Batch operations as what each one leaves behind, and where the rows of a batch can be:
 * judged, failed, waiting to be sent, queued, dead-lettered or purged.
 */
module LedgerSteps {
  import opened Prelude
  import opened Records

  // ---- counting

  function ChecksOf(checks: seq<Check>, b: Bid): nat {
    if checks == [] then 0
    else ChecksOf(checks[..|checks| - 1], b) + if checks[|checks| - 1].batch == Some(b) then 1 else 0
  }

  function FailuresOf(failures: seq<Failure>, b: Bid): nat {
    if failures == [] then 0
    else FailuresOf(failures[..|failures| - 1], b) + if failures[|failures| - 1].batch == b then 1 else 0
  }

  function RowsOf(ms: set<Message>, b: Bid): set<Message> {
    set m | m in ms && m.batch == b
  }

  /** The messages of a batch's valid rows. */
  function NewRows(b: Bid, valid: nat, actor: Uid): set<Message> {
    set i: nat | i < valid :: Message(b, i, actor)
  }

  /** The failures of a batch's rows that were rejected while parsing. */
  function Rejections(b: Bid, valid: nat, rejected: nat): (fs: seq<Failure>)
    ensures |fs| == rejected
  {
    if rejected == 0 then [] else Rejections(b, valid, rejected - 1) + [Failure(b, valid + rejected - 1)]
  }

  // ---- what the operations do

  function CreateBatch(l: Ledger, actor: Uid, b: Bid, valid: nat, rejected: nat, now: Time): Ledger {
    l.(batches := l.batches[b := Batch(actor, valid + rejected, now, None)],
       failures := l.failures + Rejections(b, valid, rejected),
       unsent := l.unsent + NewRows(b, valid, actor))
  }

  function Send(l: Ledger, m: Message): Ledger {
    l.(unsent := l.unsent - {m}, queue := l.queue + {m})
  }

  /** A row the queue did not accept is recorded as failed. */
  function GiveUp(l: Ledger, m: Message): Ledger {
    l.(unsent := l.unsent - {m}, failures := l.failures + [Failure(m.batch, m.row)])
  }

  predicate Cancelled(l: Ledger, b: Bid) {
    b in l.batches && l.batches[b].cancelledAt.Some?
  }

  /**
   * The worker's commit for one message: a check, or a failure once the batch is cancelled.
   * The message goes only if its deletion gets through.
   */
  function Process(l: Ledger, m: Message, acked: bool, now: Time): Ledger {
    var queue := if acked then l.queue - {m} else l.queue;
    if Cancelled(l, m.batch) then l.(queue := queue, failures := l.failures + [Failure(m.batch, m.row)])
    else l.(queue := queue, checks := l.checks + [Check(m.actor, Some(m.batch), m.row, now)])
  }

  function Redrive(l: Ledger, m: Message): Ledger {
    l.(queue := l.queue - {m}, dead := l.dead + {m})
  }

  function Drain(l: Ledger, m: Message, acked: bool): Ledger {
    l.(dead := if acked then l.dead - {m} else l.dead, failures := l.failures + [Failure(m.batch, m.row)])
  }

  function Cancel(l: Ledger, b: Bid, now: Time): Ledger
    requires b in l.batches
  {
    if l.batches[b].cancelledAt.Some? then l
    else l.(batches := l.batches[b := l.batches[b].(cancelledAt := Some(now))])
  }

  function Purge(l: Ledger, ms: set<Message>): Ledger {
    l.(queue := l.queue - ms, purged := l.purged + ms)
  }

  /** More rows than outcomes: what a deletion takes for unfinished. */
  predicate Unfinished(l: Ledger, b: Bid) {
    && b in l.batches && l.batches[b].cancelledAt.None?
    && l.batches[b].rowTotal > ChecksOf(l.checks, b) + FailuresOf(l.failures, b)
  }

  function CancelUnfinished(l: Ledger, u: Uid, now: Time): Ledger {
    l.(batches := map b | b in l.batches ::
         if l.batches[b].actor == u && Unfinished(l, b) then l.batches[b].(cancelledAt := Some(now)) else l.batches[b])
  }

  function AddCheck(l: Ledger, actor: Uid, now: Time): Ledger {
    l.(checks := l.checks + [Check(actor, None, 0, now)])
  }

  // ---- what every reachable ledger keeps

  function Placed(l: Ledger): set<Message> {
    l.unsent + l.queue + l.dead + l.purged
  }

  ghost predicate RefersToBatch(l: Ledger, c: Check) {
    c.batch.Some? ==> c.batch.value in l.batches && l.batches[c.batch.value].actor == c.actor
  }

  /** Rows, checks and failures name a batch that exists and its submitter. */
  ghost predicate Referential(l: Ledger) {
    && (forall m :: m in Placed(l) ==> m.batch in l.batches && l.batches[m.batch].actor == m.actor)
    && (forall i :: 0 <= i < |l.checks| ==> RefersToBatch(l, l.checks[i]))
    && (forall i :: 0 <= i < |l.failures| ==> l.failures[i].batch in l.batches)
  }

  /** A message is in one place only, and only cancelled batches are ever purged. */
  ghost predicate OnePlace(l: Ledger) {
    && l.unsent !! l.queue && l.unsent !! l.dead && l.unsent !! l.purged
    && l.queue !! l.dead && l.queue !! l.purged && l.dead !! l.purged
    && forall m :: m in l.purged ==> Cancelled(l, m.batch)
  }

  /** The row is judged, failed, still on its way, or was purged. */
  ghost predicate Accounted(l: Ledger, b: Bid, row: nat) {
    || (exists i :: 0 <= i < |l.checks| && l.checks[i].batch == Some(b) && l.checks[i].row == row)
    || (exists i :: 0 <= i < |l.failures| && l.failures[i] == Failure(b, row))
    || (exists m :: m in Placed(l) && m.batch == b && m.row == row)
  }

  ghost predicate NoRowLost(l: Ledger) {
    forall b, row: nat :: b in l.batches && row < l.batches[b].rowTotal ==> Accounted(l, b, row)
  }

  /** Nothing is judged for a batch once it is cancelled, and nothing comes from the future. */
  ghost predicate ChecksInTime(l: Ledger, now: Time) {
    && (forall b :: b in l.batches ==> l.batches[b].createdAt <= now
                                       && (l.batches[b].cancelledAt.Some? ==> l.batches[b].cancelledAt.value <= now))
    && forall i :: 0 <= i < |l.checks| ==> CheckInTime(l, l.checks[i], now)
  }

  ghost predicate CheckInTime(l: Ledger, c: Check, now: Time) {
    && c.createdAt <= now
    && (c.batch.Some? && Cancelled(l, c.batch.value) ==> c.createdAt < l.batches[c.batch.value].cancelledAt.value)
  }

  ghost predicate LedgerSound(l: Ledger, now: Time) {
    Referential(l) && OnePlace(l) && NoRowLost(l) && ChecksInTime(l, now)
  }

  /** How many outcomes and messages a batch has. */
  function Places(l: Ledger, b: Bid): nat {
    ChecksOf(l.checks, b) + FailuresOf(l.failures, b)
    + |RowsOf(l.unsent, b)| + |RowsOf(l.queue, b)| + |RowsOf(l.dead, b)| + |RowsOf(l.purged, b)|
  }

  /** Every row of every batch is in exactly one place. */
  ghost predicate Conserved(l: Ledger) {
    && (forall b :: b in l.batches ==> l.batches[b].rowTotal == Places(l, b))
    && (forall b :: b !in l.batches ==> Places(l, b) == 0)
  }

  /** The number the progress view shows as pending. */
  function Pending(l: Ledger, b: Bid): nat
    requires b in l.batches
  {
    var done := ChecksOf(l.checks, b) + FailuresOf(l.failures, b);
    if l.batches[b].rowTotal > done then l.batches[b].rowTotal - done else 0
  }
}
