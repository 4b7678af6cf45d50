/** Every batch operation keeps the ledger invariants; acknowledged deliveries keep the exact balance. */
module LedgerProofs {
  import opened Prelude
  import opened Records
  import opened LedgerSteps

  // ---- counting

  lemma {:induction false} MoreFailures(failures: seq<Failure>, b: Bid, valid: nat, rejected: nat, k: Bid)
    ensures FailuresOf(failures + Rejections(b, valid, rejected), k)
            == FailuresOf(failures, k) + if k == b then rejected else 0
  {
    if rejected == 0 {
      assert failures + [] == failures;
    } else {
      var before := Rejections(b, valid, rejected - 1);
      MoreFailures(failures, b, valid, rejected - 1, k);
      assert failures + Rejections(b, valid, rejected) == failures + before + [Failure(b, valid + rejected - 1)];
    }
  }

  lemma RowIn(ms: set<Message>, m: Message, b: Bid)
    requires m !in ms
    ensures |RowsOf(ms + {m}, b)| == |RowsOf(ms, b)| + if m.batch == b then 1 else 0
  {
    assert RowsOf(ms + {m}, b) == RowsOf(ms, b) + if m.batch == b then {m} else {};
  }

  lemma RowOut(ms: set<Message>, m: Message, b: Bid)
    requires m in ms
    ensures |RowsOf(ms - {m}, b)| == |RowsOf(ms, b)| - if m.batch == b then 1 else 0
  {
    RowIn(ms - {m}, m, b);
    assert ms - {m} + {m} == ms;
  }

  lemma {:induction false} NewRowsSize(b: Bid, valid: nat, actor: Uid)
    ensures |NewRows(b, valid, actor)| == valid
  {
    if valid == 0 {
      assert NewRows(b, 0, actor) == {};
    } else {
      NewRowsSize(b, valid - 1, actor);
      assert NewRows(b, valid, actor) == NewRows(b, valid - 1, actor) + {Message(b, valid - 1, actor)};
    }
  }

  // ---- the exact balance

  lemma CreateConserves(l: Ledger, actor: Uid, b: Bid, valid: nat, rejected: nat, now: Time)
    requires Conserved(l) && b !in l.batches
    ensures Conserved(CreateBatch(l, actor, b, valid, rejected, now))
  {
    var l' := CreateBatch(l, actor, b, valid, rejected, now);
    forall k
      ensures Places(l', k) == Places(l, k) + if k == b then valid + rejected else 0
    {
      MoreFailures(l.failures, b, valid, rejected, k);
      var added := NewRows(b, valid, actor);
      if k == b {
        NewRowsSize(b, valid, actor);
        assert RowsOf(l.unsent, b) == {};
        forall m | m in l'.unsent && m.batch == b
          ensures m in added
        {
          assert m in l.unsent ==> m in RowsOf(l.unsent, b);
        }
        assert RowsOf(l'.unsent, b) == added;
      } else {
        assert RowsOf(l'.unsent, k) == RowsOf(l.unsent, k);
      }
    }
  }

  lemma SendConserves(l: Ledger, m: Message)
    requires Conserved(l) && OnePlace(l) && m in l.unsent
    ensures Conserved(Send(l, m))
  {
    forall b
      ensures Places(Send(l, m), b) == Places(l, b)
    {
      RowOut(l.unsent, m, b);
      RowIn(l.queue, m, b);
    }
  }

  lemma GiveUpConserves(l: Ledger, m: Message)
    requires Conserved(l) && OnePlace(l) && m in l.unsent
    ensures Conserved(GiveUp(l, m))
  {
    forall b
      ensures Places(GiveUp(l, m), b) == Places(l, b)
    {
      RowOut(l.unsent, m, b);
    }
  }

  lemma ProcessConserves(l: Ledger, m: Message, now: Time)
    requires Conserved(l) && OnePlace(l) && m in l.queue
    ensures Conserved(Process(l, m, true, now))
  {
    forall b
      ensures Places(Process(l, m, true, now), b) == Places(l, b)
    {
      RowOut(l.queue, m, b);
    }
  }

  lemma RedriveConserves(l: Ledger, m: Message)
    requires Conserved(l) && OnePlace(l) && m in l.queue
    ensures Conserved(Redrive(l, m))
  {
    forall b
      ensures Places(Redrive(l, m), b) == Places(l, b)
    {
      RowOut(l.queue, m, b);
      RowIn(l.dead, m, b);
    }
  }

  lemma DrainConserves(l: Ledger, m: Message)
    requires Conserved(l) && OnePlace(l) && m in l.dead
    ensures Conserved(Drain(l, m, true))
  {
    forall b
      ensures Places(Drain(l, m, true), b) == Places(l, b)
    {
      RowOut(l.dead, m, b);
    }
  }

  lemma PurgeConserves(l: Ledger, ms: set<Message>)
    requires Conserved(l) && OnePlace(l) && ms <= l.queue
    ensures Conserved(Purge(l, ms))
  {
    forall b
      ensures Places(Purge(l, ms), b) == Places(l, b)
    {
      assert RowsOf(l.queue, b) == RowsOf(l.queue - ms, b) + RowsOf(ms, b);
      assert RowsOf(l.purged + ms, b) == RowsOf(l.purged, b) + RowsOf(ms, b);
    }
  }

  lemma CancelUnfinishedConserves(l: Ledger, u: Uid, now: Time)
    requires Conserved(l)
    ensures Conserved(CancelUnfinished(l, u, now))
  {
  }

  lemma AddCheckConserves(l: Ledger, actor: Uid, now: Time)
    requires Conserved(l)
    ensures Conserved(AddCheck(l, actor, now))
  {
    forall b
      ensures Places(AddCheck(l, actor, now), b) == Places(l, b)
    {
    }
  }

  /** In a conserved ledger pending is what is still on its way plus what was purged. */
  lemma PendingIsOutstanding(l: Ledger, b: Bid)
    requires Conserved(l) && b in l.batches
    ensures Pending(l, b)
            == |RowsOf(l.unsent, b)| + |RowsOf(l.queue, b)| + |RowsOf(l.dead, b)| + |RowsOf(l.purged, b)|
  {
  }

  /** A batch that is not cancelled and has an outcome for every row has nothing on its way. */
  lemma FinishedIsEmpty(l: Ledger, b: Bid)
    requires Conserved(l) && OnePlace(l) && b in l.batches
    requires l.batches[b].rowTotal <= ChecksOf(l.checks, b) + FailuresOf(l.failures, b)
    ensures RowsOf(l.unsent, b) == {} && RowsOf(l.queue, b) == {}
    ensures RowsOf(l.dead, b) == {} && RowsOf(l.purged, b) == {}
  {
  }

  // ---- soundness, also under redelivery

  ghost predicate OnlyMoves(l: Ledger, l': Ledger) {
    && l'.batches == l.batches
    && l.checks <= l'.checks && l.failures <= l'.failures
  }

  /** A row that had an outcome keeps it; a row on its way stays on its way or gets its outcome now. */
  lemma MovedRowsStayAccounted(l: Ledger, l': Ledger)
    requires OnlyMoves(l, l') && NoRowLost(l)
    requires forall m :: m in Placed(l) ==> m in Placed(l') || Accounted(l', m.batch, m.row)
    ensures NoRowLost(l')
  {
    forall b, row: nat | b in l'.batches && row < l'.batches[b].rowTotal
      ensures Accounted(l', b, row)
    {
      assert Accounted(l, b, row);
      if i :| 0 <= i < |l.checks| && l.checks[i].batch == Some(b) && l.checks[i].row == row {
        assert l'.checks[i] == l.checks[i];
      } else if i :| 0 <= i < |l.failures| && l.failures[i] == Failure(b, row) {
        assert l'.failures[i] == l.failures[i];
      } else {
        var m :| m in Placed(l) && m.batch == b && m.row == row;
      }
    }
  }

  lemma LastFailure(l: Ledger, b: Bid, row: nat)
    requires |l.failures| > 0 && l.failures[|l.failures| - 1] == Failure(b, row)
    ensures Accounted(l, b, row)
  {
  }

  lemma LastCheck(l: Ledger, b: Bid, row: nat)
    requires |l.checks| > 0 && l.checks[|l.checks| - 1].batch == Some(b) && l.checks[|l.checks| - 1].row == row
    ensures Accounted(l, b, row)
  {
  }

  lemma SendIsSound(l: Ledger, m: Message, now: Time, later: Time)
    requires LedgerSound(l, now) && m in l.unsent && now < later
    ensures LedgerSound(Send(l, m), later)
  {
    var l' := Send(l, m);
    assert Placed(l') == Placed(l);
    MovedRowsStayAccounted(l, l');
  }

  lemma GiveUpIsSound(l: Ledger, m: Message, now: Time, later: Time)
    requires LedgerSound(l, now) && m in l.unsent && now < later
    ensures LedgerSound(GiveUp(l, m), later)
  {
    var l' := GiveUp(l, m);
    LastFailure(l', m.batch, m.row);
    MovedRowsStayAccounted(l, l');
  }

  lemma ProcessIsSound(l: Ledger, m: Message, acked: bool, now: Time, later: Time)
    requires LedgerSound(l, now) && m in l.queue && now < later
    ensures LedgerSound(Process(l, m, acked, later), later)
  {
    var l' := Process(l, m, acked, later);
    if Cancelled(l, m.batch) {
      LastFailure(l', m.batch, m.row);
    } else {
      LastCheck(l', m.batch, m.row);
    }
    MovedRowsStayAccounted(l, l');
  }

  lemma RedriveIsSound(l: Ledger, m: Message, now: Time, later: Time)
    requires LedgerSound(l, now) && m in l.queue && now < later
    ensures LedgerSound(Redrive(l, m), later)
  {
    var l' := Redrive(l, m);
    assert Placed(l') == Placed(l);
    MovedRowsStayAccounted(l, l');
  }

  lemma DrainIsSound(l: Ledger, m: Message, acked: bool, now: Time, later: Time)
    requires LedgerSound(l, now) && m in l.dead && now < later
    ensures LedgerSound(Drain(l, m, acked), later)
  {
    var l' := Drain(l, m, acked);
    LastFailure(l', m.batch, m.row);
    MovedRowsStayAccounted(l, l');
  }

  lemma PurgeIsSound(l: Ledger, ms: set<Message>, now: Time, later: Time)
    requires LedgerSound(l, now) && ms <= l.queue && now < later
    requires forall m :: m in ms ==> Cancelled(l, m.batch)
    ensures LedgerSound(Purge(l, ms), later)
  {
    var l' := Purge(l, ms);
    assert Placed(l') == Placed(l);
    MovedRowsStayAccounted(l, l');
  }

  lemma CancelUnfinishedIsSound(l: Ledger, u: Uid, now: Time, later: Time)
    requires LedgerSound(l, now) && now < later
    ensures LedgerSound(CancelUnfinished(l, u, later), later)
  {
    var l' := CancelUnfinished(l, u, later);
    assert Placed(l') == Placed(l);
    forall b, row: nat | b in l'.batches && row < l'.batches[b].rowTotal
      ensures Accounted(l', b, row)
    {
      assert Accounted(l, b, row);
    }
    forall i | 0 <= i < |l'.checks|
      ensures CheckInTime(l', l'.checks[i], later) && RefersToBatch(l', l'.checks[i])
    {
      assert CheckInTime(l, l.checks[i], now) && RefersToBatch(l, l.checks[i]);
    }
  }

  lemma CancelIsSound(l: Ledger, b: Bid, now: Time, later: Time)
    requires LedgerSound(l, now) && b in l.batches && now < later
    ensures LedgerSound(Cancel(l, b, later), later)
  {
    var l' := Cancel(l, b, later);
    assert Placed(l') == Placed(l);
    forall k, row: nat | k in l'.batches && row < l'.batches[k].rowTotal
      ensures Accounted(l', k, row)
    {
      assert Accounted(l, k, row);
    }
    forall i | 0 <= i < |l'.checks|
      ensures CheckInTime(l', l'.checks[i], later) && RefersToBatch(l', l'.checks[i])
    {
      assert CheckInTime(l, l.checks[i], now) && RefersToBatch(l, l.checks[i]);
    }
  }

  lemma CancelConserves(l: Ledger, b: Bid, now: Time)
    requires Conserved(l) && b in l.batches
    ensures Conserved(Cancel(l, b, now))
  {
  }

  lemma AddCheckIsSound(l: Ledger, actor: Uid, now: Time, later: Time)
    requires LedgerSound(l, now) && now < later
    ensures LedgerSound(AddCheck(l, actor, later), later)
  {
    var l' := AddCheck(l, actor, later);
    assert Placed(l') == Placed(l);
    MovedRowsStayAccounted(l, l');
  }

  lemma {:induction false} RejectionIsThere(b: Bid, valid: nat, rejected: nat, row: nat) returns (i: nat)
    requires valid <= row < valid + rejected
    ensures i < rejected && Rejections(b, valid, rejected)[i] == Failure(b, row)
  {
    if row == valid + rejected - 1 {
      i := rejected - 1;
    } else {
      i := RejectionIsThere(b, valid, rejected - 1, row);
    }
  }

  lemma {:induction false} RejectionsNameBatch(b: Bid, valid: nat, rejected: nat)
    ensures forall i :: 0 <= i < rejected ==> Rejections(b, valid, rejected)[i].batch == b
  {
    if rejected > 0 {
      RejectionsNameBatch(b, valid, rejected - 1);
    }
  }

  lemma NewBatchAccounted(l: Ledger, actor: Uid, b: Bid, valid: nat, rejected: nat, now: Time, row: nat)
    requires row < valid + rejected
    ensures Accounted(CreateBatch(l, actor, b, valid, rejected, now), b, row)
  {
    var l' := CreateBatch(l, actor, b, valid, rejected, now);
    if row < valid {
      assert Message(b, row, actor) in Placed(l');
    } else {
      var i := RejectionIsThere(b, valid, rejected, row);
      assert l'.failures[|l.failures| + i] == Failure(b, row);
    }
  }

  lemma CreateBatchReferential(l: Ledger, actor: Uid, b: Bid, valid: nat, rejected: nat, now: Time)
    requires Referential(l) && b !in l.batches
    ensures Referential(CreateBatch(l, actor, b, valid, rejected, now))
  {
    var l' := CreateBatch(l, actor, b, valid, rejected, now);
    forall m | m in Placed(l')
      ensures m.batch in l'.batches && l'.batches[m.batch].actor == m.actor
    {
      if m in Placed(l) {
        assert m.batch in l.batches;
      } else {
        assert m in NewRows(b, valid, actor);
      }
    }
    forall i | 0 <= i < |l'.checks|
      ensures RefersToBatch(l', l'.checks[i])
    {
      assert RefersToBatch(l, l.checks[i]);
    }
    RejectionsNameBatch(b, valid, rejected);
    forall i | 0 <= i < |l'.failures|
      ensures l'.failures[i].batch in l'.batches
    {
      if i < |l.failures| {
        assert l'.failures[i] == l.failures[i];
      } else {
        assert l'.failures[i] == Rejections(b, valid, rejected)[i - |l.failures|];
      }
    }
  }

  lemma CreateBatchLosesNothing(l: Ledger, actor: Uid, b: Bid, valid: nat, rejected: nat, now: Time)
    requires NoRowLost(l) && b !in l.batches
    ensures NoRowLost(CreateBatch(l, actor, b, valid, rejected, now))
  {
    var l' := CreateBatch(l, actor, b, valid, rejected, now);
    forall k, row: nat | k in l'.batches && row < l'.batches[k].rowTotal
      ensures Accounted(l', k, row)
    {
      if k == b {
        NewBatchAccounted(l, actor, b, valid, rejected, now, row);
      } else {
        KeepsAccounted(l, l', k, row);
      }
    }
  }

  lemma CreateBatchIsSound(l: Ledger, actor: Uid, b: Bid, valid: nat, rejected: nat, now: Time, later: Time)
    requires LedgerSound(l, now) && b !in l.batches && now < later
    ensures LedgerSound(CreateBatch(l, actor, b, valid, rejected, later), later)
  {
    var l' := CreateBatch(l, actor, b, valid, rejected, later);
    CreateBatchReferential(l, actor, b, valid, rejected, later);
    CreateBatchLosesNothing(l, actor, b, valid, rejected, later);
    assert ChecksInTime(l', later) by {
      forall i | 0 <= i < |l'.checks|
        ensures CheckInTime(l', l'.checks[i], later)
      {
        assert CheckInTime(l, l.checks[i], now) && RefersToBatch(l, l.checks[i]);
      }
    }
  }

  lemma KeepsAccounted(l: Ledger, l': Ledger, b: Bid, row: nat)
    requires l.checks <= l'.checks && l.failures <= l'.failures && Placed(l) <= Placed(l')
    requires Accounted(l, b, row)
    ensures Accounted(l', b, row)
  {
    if i :| 0 <= i < |l.checks| && l.checks[i].batch == Some(b) && l.checks[i].row == row {
      assert l'.checks[i] == l.checks[i];
    } else if i :| 0 <= i < |l.failures| && l.failures[i] == Failure(b, row) {
      assert l'.failures[i] == l.failures[i];
    }
  }
}
