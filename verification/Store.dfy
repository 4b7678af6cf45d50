/**
 * The service calls themselves, statement by statement over the stored tables and the
 * queue, each proved to leave behind what the transition system says.
 */
module Store {
  import opened Prelude
  import opened Records
  import opened Accounts
  import opened LedgerSteps
  import opened System
  import opened SystemProofs
  import opened AccountEffects
  import opened LedgerEffects
  import Sessions
  import BatchCells
  import BatchParsing

  datatype Refusal = Forbidden | NotFound | BadTransition(from: Status)

  datatype LinkRefusal = NotRootAdmin | NoSuchUser | NotAnAssistant | NotActive | NoSuchSupervisor

  datatype CreateRefusal = NotAllowed | BadSupervisor | AddressTaken | NoCredential

  /** An active assistant has this address. */
  ghost predicate HasAssistant(s: AccountData, email: string) {
    exists u :: ActiveAs(s, u, TeachingAssistant) && s.users[u].email == email
  }

  const MAX_CANCEL_DRAIN_ITERATIONS := 200
  const POLL_MAX_MESSAGES := 10

  datatype Progress = Progress(rowTotal: nat, completed: nat, failed: nat, pending: nat)

  /** What became of a received message: nothing, an outcome but no deletion, or both. */
  datatype Fate = NotRecorded | Redelivered | Acknowledged

  /** What a delete call comes to: done, lost without a word, or failing loudly. */
  datatype Deletion = Done | Lost | Raised

  /**
   * How the outside behaves during a pass: what a receive call hands out of a queue, whether
   * scoring and the commit for a message go through, and what its deletion comes to.
   */
  datatype Outside = Outside(hands: set<Message> -> seq<Message>, goes: Message -> bool, deletion: Message -> Deletion)

  /** At most ten messages at a time, each once, and only such as are there. */
  ghost predicate HandsOut(hands: set<Message> -> seq<Message>) {
    forall q :: |hands(q)| <= POLL_MAX_MESSAGES && Distinct(hands(q)) && Elements(hands(q)) <= q
  }

  function FateOf(o: Outside, m: Message): Fate {
    if !o.goes(m) then NotRecorded else if o.deletion(m).Done? then Acknowledged else Redelivered
  }

  predicate Raises(o: Outside, m: Message) {
    o.goes(m) && o.deletion(m).Raised?
  }

  ghost predicate PassedSoFar(o: Outside, received: seq<Message>, fates: seq<Fate>) {
    && |fates| <= |received|
    && forall i :: 0 <= i < |fates| ==> fates[i] == FateOf(o, received[i]) && !Raises(o, received[i])
  }

  lemma OneMorePassed(o: Outside, received: seq<Message>, fates: seq<Fate>)
    requires PassedSoFar(o, received, fates) && |fates| < |received|
    ensures var m := received[|fates|]; var more := fates + [FateOf(o, m)];
            if Raises(o, m) then Passed(o, received, more, true) else PassedSoFar(o, received, more)
  {
  }

  /** The messages from place i on are still there. */
  ghost predicate StillThere(queue: set<Message>, received: seq<Message>, i: nat) {
    forall j :: i <= j < |received| ==> received[j] in queue
  }

  /** Message by message up to the first deletion that raises, each met the fate the outside had for it. */
  ghost predicate Passed(o: Outside, received: seq<Message>, fates: seq<Fate>, raised: bool) {
    && |fates| <= |received| && (forall i :: 0 <= i < |fates| ==> fates[i] == FateOf(o, received[i]))
    && (forall i :: 0 <= i < |fates| - 1 ==> !Raises(o, received[i]))
    && (raised <==> fates != [] && Raises(o, received[|fates| - 1]))
    && (!raised ==> |fates| == |received|)
  }

  /** The user's cancelled batches. */
  function MarkedOf(batches: map<Bid, Batch>, u: Uid): set<Bid> {
    set b | b in batches && batches[b].actor == u && batches[b].cancelledAt.Some?
  }

  /** The messages of the list that belong to the given batches. */
  function OfBatches(ms: seq<Message>, ids: set<Bid>): set<Message> {
    set m | m in ms && m.batch in ids
  }

  function Hit(m: Message, ids: set<Bid>): set<Message> {
    if m.batch in ids then {m} else {}
  }

  lemma OneMoreHandled(ms: seq<Message>, i: nat, ids: set<Bid>, whole: set<Message>, known: set<Message>)
    requires i < |ms| && Distinct(ms)
    ensures var before, after := OfBatches(ms[..i], ids), OfBatches(ms[..i + 1], ids);
            && whole - before - Hit(ms[i], ids) == whole - after && known + before + Hit(ms[i], ids) == known + after
            && |after| == |before| + |Hit(ms[i], ids)|
  {
    assert ms[..i + 1] == ms[..i] + [ms[i]];
    assert OfBatches(ms[..i + 1], ids) == OfBatches(ms[..i], ids) + Hit(ms[i], ids);
  }

  /** The queue after one round of a drain. */
  function Drained(hands: set<Message> -> seq<Message>, ids: set<Bid>, queue: set<Message>): set<Message> {
    queue - OfBatches(hands(queue), ids)
  }

  /** The rounds of a drain: something was handed out in each, and each left the queue for the next. */
  ghost predicate DrainingSo(hands: set<Message> -> seq<Message>, ids: set<Bid>, rounds: seq<set<Message>>,
                             first: set<Message>, last: set<Message>) {
    && |rounds| <= MAX_CANCEL_DRAIN_ITERATIONS
    && last == (if rounds == [] then first else Drained(hands, ids, rounds[|rounds| - 1]))
    && (rounds != [] ==> rounds[0] == first)
    && (forall i, j :: 0 <= i && j == i + 1 < |rounds| ==> rounds[j] == Drained(hands, ids, rounds[i]))
    && forall i :: 0 <= i < |rounds| ==> hands(rounds[i]) != []
  }

  lemma OneMoreRound(hands: set<Message> -> seq<Message>, ids: set<Bid>, rounds: seq<set<Message>>,
                     first: set<Message>, last: set<Message>)
    requires DrainingSo(hands, ids, rounds, first, last) && |rounds| < MAX_CANCEL_DRAIN_ITERATIONS && hands(last) != []
    ensures DrainingSo(hands, ids, rounds + [last], first, Drained(hands, ids, last))
  {
  }

  /** A whole drain: it went on until nothing was handed out or two hundred rounds were over. */
  ghost predicate DrainRounds(hands: set<Message> -> seq<Message>, ids: set<Bid>, rounds: seq<set<Message>>,
                              first: set<Message>, last: set<Message>) {
    DrainingSo(hands, ids, rounds, first, last) && (|rounds| < MAX_CANCEL_DRAIN_ITERATIONS ==> hands(last) == [])
  }

  /** The steps of a pass over the queue: one for every message that got an outcome. */
  function WorkSteps(ms: seq<Message>, fates: seq<Fate>, times: seq<Time>): Steps
    requires |fates| == |times| <= |ms|
  {
    if fates == [] then []
    else
      var k := |fates| - 1;
      WorkSteps(ms, fates[..k], times[..k])
      + if fates[k] == NotRecorded then [] else [(Work(ms[k], fates[k] == Acknowledged), times[k])]
  }

  function DrainSteps(ms: seq<Message>, fates: seq<Fate>, times: seq<Time>): Steps
    requires |fates| == |times| <= |ms|
  {
    if fates == [] then []
    else
      var k := |fates| - 1;
      DrainSteps(ms, fates[..k], times[..k])
      + if fates[k] == NotRecorded then [] else [(DrainDead(ms[k], fates[k] == Acknowledged), times[k])]
  }

  /** Every row is either sent or lost, and lost ones are listed once. */
  ghost predicate SplitInto(rows: seq<Message>, sent: set<Message>, lost: seq<Message>) {
    Distinct(lost) && sent !! Elements(lost) && sent + Elements(lost) == Elements(rows)
  }

  /** The rows the queue takes. */
  function Accepted(rows: seq<Message>, accepts: Message -> bool): set<Message> {
    set m | m in rows && accepts(m)
  }

  lemma OneMoreAccepted(rows: seq<Message>, accepts: Message -> bool, i: nat)
    requires i < |rows|
    ensures Accepted(rows[..i + 1], accepts)
            == Accepted(rows[..i], accepts) + if accepts(rows[i]) then {rows[i]} else {}
  {
    assert rows[..i + 1] == rows[..i] + [rows[i]];
  }

  /** The failure recorded for each message, in order. */
  function FailuresFor(ms: seq<Message>): seq<Failure> {
    seq(|ms|, i requires 0 <= i < |ms| => Failure(ms[i].batch, ms[i].row))
  }

  lemma NextRow(rows: seq<Message>, i: nat, sent: set<Message>, lost: seq<Message>)
    requires i < |rows| && Distinct(rows) && SplitInto(rows[..i], sent, lost)
    ensures rows[i] !in sent
    ensures SplitInto(rows[..i + 1], sent + {rows[i]}, lost)
    ensures SplitInto(rows[..i + 1], sent, lost + [rows[i]])
  {
    var m := rows[i];
    assert m !in Elements(rows[..i]);
    assert m !in sent && m !in Elements(lost);
    assert Elements(rows[..i + 1]) == Elements(rows[..i]) + {m};
    assert Elements(lost + [m]) == Elements(lost) + {m};
  }

  /** Sent and lost rows together are all the rows. */
  lemma SplitRows(waiting: set<Message>, rows: seq<Message>, sent: set<Message>, lost: seq<Message>)
    requires Elements(rows) <= waiting && Distinct(rows) && SplitInto(rows, sent, lost)
    ensures |sent| + |lost| == |rows|
    ensures Elements(lost) <= waiting - sent
    ensures waiting - sent - Elements(lost) == waiting - Elements(rows)
  {
    DistinctSize(lost);
    DistinctSize(rows);
    assert |sent + Elements(lost)| == |sent| + |Elements(lost)|;
  }

  /** The messages of a batch's valid rows, in the order of the rows. */
  function RowList(b: Bid, valid: nat, actor: Uid): seq<Message> {
    seq(valid, (i: nat) => Message(b, i, actor))
  }

  lemma RowListFacts(b: Bid, valid: nat, actor: Uid)
    ensures |RowList(b, valid, actor)| == valid && Distinct(RowList(b, valid, actor))
    ensures Elements(RowList(b, valid, actor)) == NewRows(b, valid, actor)
  {
    var rows := RowList(b, valid, actor);
    forall m | m in NewRows(b, valid, actor)
      ensures m in rows
    {
      var i: nat :| i < valid && m == Message(b, i, actor);
      assert m == rows[i];
    }
  }

  lemma OneMoreLost(failed: seq<Message>, i: nat)
    requires i < |failed| && Distinct(failed)
    ensures failed[i] in Elements(failed) && failed[i] !in Elements(failed[..i])
    ensures Elements(failed[..i + 1]) == Elements(failed[..i]) + {failed[i]}
    ensures FailuresFor(failed[..i + 1]) == FailuresFor(failed[..i]) + [Failure(failed[i].batch, failed[i].row)]
  {
  }

  /** Among the failures added to the old ones is one for this row. */
  ghost predicate Failed(before: seq<Failure>, after: seq<Failure>, b: Bid, row: nat) {
    exists j :: |before| <= j < |after| && after[j] == Failure(b, row)
  }

  /** Rejected rows and refused rows together are the failures of the batch, each once. */
  lemma RowsAreDelivered(b: Bid, actor: Uid, valid: nat, rejected: nat, accepts: Message -> bool, rows: seq<Message>,
                         failed: seq<Message>, known: seq<Failure>, committed: seq<Failure>)
    requires rows == RowList(b, valid, actor) && SplitInto(rows, Accepted(rows, accepts), failed)
    requires |committed| == |known| + rejected && committed[..|known|] == known
    requires forall j :: |known| <= j < |committed| ==> committed[j] == Failure(b, valid + j - |known|)
    ensures var failures := committed + FailuresFor(failed);
            && known <= failures
            && (forall j :: |known| <= j < |failures| ==> failures[j].batch == b)
            && (forall row: nat :: Failed(known, failures, b, row)
                                   <==> row < valid + rejected && (row < valid ==> !accepts(Message(b, row, actor))))
            && forall i, j :: |known| <= i < j < |failures| ==> failures[i] != failures[j]
  {
    var failures := committed + FailuresFor(failed);
    forall i | 0 <= i < |failed|
      ensures failed[i].batch == b && failed[i].actor == actor && failed[i].row < valid && !accepts(failed[i])
      ensures failures[|committed| + i] == Failure(b, failed[i].row)
    {
      RefusedIsRow(b, actor, valid, accepts, rows, failed, failed[i]);
    }
    forall row: nat | row < valid + rejected && (row < valid ==> !accepts(Message(b, row, actor)))
      ensures Failed(known, failures, b, row)
    {
      if row < valid {
        assert rows[row] == Message(b, row, actor) && rows[row] in Elements(rows);
        var i :| 0 <= i < |failed| && failed[i] == rows[row];
        assert failures[|committed| + i] == Failure(b, row);
      } else {
        assert failures[|known| + row - valid] == Failure(b, row);
      }
    }
  }

  lemma RefusedIsRow(b: Bid, actor: Uid, valid: nat, accepts: Message -> bool, rows: seq<Message>,
                     failed: seq<Message>, m: Message)
    requires rows == RowList(b, valid, actor) && SplitInto(rows, Accepted(rows, accepts), failed) && m in failed
    ensures m.batch == b && m.actor == actor && m.row < valid && !accepts(m)
  {
    assert m in Elements(failed) && m in Elements(rows);
    assert m !in Accepted(rows, accepts);
  }

  /** Rows of a batch that is not there yet are nowhere. */
  lemma FreshRows(l: Ledger, actor: Uid, b: Bid, valid: nat)
    requires Referential(l) && b !in l.batches
    ensures NewRows(b, valid, actor) !! l.unsent
  {
    forall m | m in NewRows(b, valid, actor)
      ensures m !in Placed(l)
    {
      assert m.batch == b;
    }
    assert l.unsent <= Placed(l);
  }

  lemma OneMoreWork(w: World, ms: seq<Message>, fates: seq<Fate>, times: seq<Time>, x: World, fate: Fate, t: Time,
                    y: World)
    requires |fates| == |times| < |ms| && Run(w, WorkSteps(ms, fates, times), x)
    requires if fate == NotRecorded then y == x
             else ms[|fates|] in x.led.queue && x.now < t && y == Apply(x, Work(ms[|fates|], fate == Acknowledged), t)
    ensures Run(w, WorkSteps(ms, fates + [fate], times + [t]), y)
  {
    assert (fates + [fate])[..|fates|] == fates && (times + [t])[..|times|] == times;
    if fate == NotRecorded {
      assert WorkSteps(ms, fates + [fate], times + [t]) == WorkSteps(ms, fates, times);
    } else {
      RunExtend(w, WorkSteps(ms, fates, times), x, Work(ms[|fates|], fate == Acknowledged), t);
    }
  }

  lemma OneMoreDrain(w: World, ms: seq<Message>, fates: seq<Fate>, times: seq<Time>, x: World, fate: Fate, t: Time,
                     y: World)
    requires |fates| == |times| < |ms| && Run(w, DrainSteps(ms, fates, times), x)
    requires if fate == NotRecorded then y == x
             else ms[|fates|] in x.led.dead && x.now < t
                  && y == Apply(x, DrainDead(ms[|fates|], fate == Acknowledged), t)
    ensures Run(w, DrainSteps(ms, fates + [fate], times + [t]), y)
  {
    assert (fates + [fate])[..|fates|] == fates && (times + [t])[..|times|] == times;
    if fate == NotRecorded {
      assert DrainSteps(ms, fates + [fate], times + [t]) == DrainSteps(ms, fates, times);
    } else {
      RunExtend(w, DrainSteps(ms, fates, times), x, DrainDead(ms[|fates|], fate == Acknowledged), t);
    }
  }

  function Expired(sessions: map<Token, Session>, cutoff: Time): set<Token> {
    set k | k in sessions && sessions[k].absoluteExpires < cutoff
  }

  function Without(sessions: map<Token, Session>, rows: set<Token>): map<Token, Session> {
    map k | k in sessions && k !in rows :: sessions[k]
  }

  /** The rows that are not the user's or not past retention. */
  function WithoutOld(sessions: map<Token, Session>, u: Uid, t: Time): map<Token, Session> {
    map k | k in sessions && !(sessions[k].user == u && sessions[k].absoluteExpires < t - RETENTION) :: sessions[k]
  }

  lemma StillSignedIn(sessions: map<Token, Session>, u: Uid, token: Token, t: Time)
    ensures WithoutOld(sessions[token := Session(u, t, t + ABSOLUTE_TTL, None)], u, t)
            == WithoutOld(sessions, u, t)[token := Session(u, t, t + ABSOLUTE_TTL, None)]
  {
  }

  /** What is still there and expired; when that is nothing, everything expired is gone. */
  lemma StillExpired(first: map<Token, Session>, gone: set<Token>, cutoff: Time)
    requires gone <= Expired(first, cutoff)
    ensures Expired(Without(first, gone), cutoff) == Expired(first, cutoff) - gone
    ensures Expired(first, cutoff) - gone == {} ==> gone == Expired(first, cutoff)
  {
    forall k | k in Expired(first, cutoff) && k !in gone
      ensures k in Expired(first, cutoff) - gone
    {
    }
  }

  lemma DroppedMore(first: map<Token, Session>, gone: set<Token>, rows: set<Token>, cutoff: Time)
    requires rows <= Expired(first, cutoff) - gone
    ensures Without(Without(first, gone), rows) == Without(first, gone + rows)
    ensures Expired(first, cutoff) - (gone + rows) == Expired(first, cutoff) - gone - rows
    ensures |gone + rows| == |gone| + |rows|
  {
  }

  lemma SmallerSet(s: set<Token>, part: set<Token>)
    requires part <= s && part != {}
    ensures |s - part| < |s| && |s - part| + |part| == |s|
  {
    assert s == (s - part) + part;
  }

  class Store {
    var now: Time
    var users: map<Uid, User>
    var links: map<LinkId, Link>
    var sessions: map<Token, Session>
    var events: seq<StatusEvent>
    var batches: map<Bid, Batch>
    var checks: seq<Check>
    var failures: seq<Failure>
    var queue: set<Message>
    var dead: set<Message>
    // what the tables do not record
    ghost var issued: set<Token>
    ghost var unsent: set<Message>
    ghost var purged: set<Message>
    ghost var pending: set<Request>

    ghost function Acc(): AccountData
      reads this
    {
      AccountData(users, links, sessions, issued, events)
    }

    ghost function Led(): Ledger
      reads this
    {
      Ledger(batches, checks, failures, unsent, queue, dead, purged)
    }

    ghost function View(): World
      reads this
    {
      World(now, Acc(), Led(), pending)
    }

    /** Reads the clock. Callers learn only that it has moved on. */
    method Tick() returns (t: Time)
      modifies this`now
      ensures t == now > old(now)
    {
      now := now + 1;
      t := now;
    }

    // ---- accounts

    method RevokeSessions(u: Uid, t: Time)
      modifies this`sessions
      ensures sessions == Revoke(old(sessions), {u}, t)
    {
      sessions := map k | k in sessions ::
        if sessions[k].user == u && sessions[k].deletedAt.None? then sessions[k].(deletedAt := Some(t))
        else sessions[k];
    }

    /** Signs out those of the given assistants whom the tables, as they are now, leave unsupervised. */
    method SignOutUnsupervised(tas: set<Uid>, t: Time)
      modifies this`sessions
      ensures sessions == Revoke(old(sessions), tas - Supervised(users, links), t)
    {
      if tas == {} {
        return;
      }
      var still := Supervised(users, links);
      sessions := map k | k in sessions ::
        if sessions[k].user in tas && sessions[k].user !in still && sessions[k].deletedAt.None?
        then sessions[k].(deletedAt := Some(t)) else sessions[k];
    }

    method CountOutcomes(b: Bid) returns (completed: nat, failed: nat)
      ensures completed == ChecksOf(checks, b) && failed == FailuresOf(failures, b)
    {
      completed, failed := 0, 0;
      for i := 0 to |checks|
        invariant completed == ChecksOf(checks[..i], b)
      {
        assert checks[..i + 1][..i] == checks[..i];
        if checks[i].batch == Some(b) {
          completed := completed + 1;
        }
      }
      assert checks[..|checks|] == checks;
      for i := 0 to |failures|
        invariant failed == FailuresOf(failures[..i], b)
      {
        assert failures[..i + 1][..i] == failures[..i];
        if failures[i].batch == b {
          failed := failed + 1;
        }
      }
      assert failures[..|failures|] == failures;
    }

    /** Cancels the user's batches that have fewer outcomes than rows. */
    method CancelUnfinishedBatches(u: Uid, t: Time)
      modifies this`batches
      ensures Led() == CancelUnfinished(old(Led()), u, t)
    {
      var rest := batches.Keys;
      ghost var before := Led();
      while rest != {}
        invariant rest <= before.batches.Keys == batches.Keys
        invariant Led() == before.(batches := batches)
        invariant forall b :: b in rest ==> batches[b] == before.batches[b]
        invariant forall b :: b in batches && b !in rest ==> batches[b] == CancelUnfinished(before, u, t).batches[b]
      {
        var b :| b in rest;
        var completed, failed := CountOutcomes(b);
        if batches[b].actor == u && batches[b].cancelledAt.None? && batches[b].rowTotal > completed + failed {
          batches := batches[b := batches[b].(cancelledAt := Some(t))];
        }
        rest := rest - {b};
      }
      assert batches == CancelUnfinished(before, u, t).batches;
    }

    /**
     * What follows a status change: sign-outs, and for a deletion the end of its links and of its
     * unfinished batches.
     */
    method LeaveTeams(actor: Uid, u: Uid, to: Status, leaving: set<Uid>, t: Time)
      requires to == Active ==> leaving == {}
      modifies this`sessions, this`links, this`batches
      ensures links == if to == Deleted then EndLinks(old(links), u, actor, t) else old(links)
      ensures sessions
              == Revoke(old(sessions), if to == Active then {} else {u} + (leaving - Supervised(users, links)), t)
      ensures Led() == if to == Deleted then CancelUnfinished(old(Led()), u, t) else old(Led())
    {
      if to != Active {
        RevokeSessions(u, t);
      }
      if to == Deleted {
        links := EndLinks(links, u, actor, t);
        CancelUnfinishedBatches(u, t);
      }
      SignOutUnsupervised(leaving, t);
    }

    /**
     * A status change under the row lock: decides by the locked status, remembers whom the
     * user supervises before the links go, and ends links before asking who is left alone.
     */
    method TransitionLocked(actor: Uid, u: Uid, to: Status) returns (refused: Option<Status>)
      requires u in users
      modifies this
      ensures now > old(now) && issued == old(issued) && pending == old(pending)
      ensures refused == if Allowed(old(users[u].status), to) then None else Some(old(users[u].status))
      ensures Acc() == if refused.None? then Transition(old(Acc()), actor, u, to, now) else old(Acc())
      ensures Led() == if refused.None? && to == Deleted then CancelUnfinished(old(Led()), u, now) else old(Led())
      ensures refused.None? <==> old(users[u].status) !in {Deleted, to}
      ensures refused.None? ==> StatusChanged(old(Acc()), Acc(), actor, u, to, now)
      ensures refused.None? && to == Deleted ==> ShortBatchesMarked(old(Led()), Led(), u, now)
    {
      AllowedMoves(users[u].status, to);
      var t := Tick();
      TransitionEffect(Acc(), actor, u, to, t);
      CancelUnfinishedEffect(Led(), u, t);
      var from := users[u].status;
      if !Allowed(from, to) {
        return Some(from);
      }
      var leaving := if to != Active then LinkedTas(links, u) else {};
      users := users[u := users[u].(status := to)];
      LeaveTeams(actor, u, to, leaving, t);
      events := events + [StatusEvent(u, actor, from, to)];
      return None;
    }

    /** Anything other requests and the worker may do meanwhile. Callers learn only that it was a run. */
    method OthersRun() returns (ghost steps: Steps)
      modifies this
      ensures Run(old(View()), steps, View())
    {
      steps := [];
    }

    /** The locked part of a deletion: the decision, and then the purge of the user's cancelled batches. */
    method DeleteLocked(actor: Uid, u: Uid, hands: set<Message> -> seq<Message>)
      returns (refused: Option<Status>, ghost gone: set<Message>, ghost rounds: seq<set<Message>>)
      requires u in users && HandsOut(hands)
      modifies this
      ensures now > old(now) && (refused.Some? <==> old(users[u].status) == Deleted)
      ensures refused.Some? ==> refused == Some(Deleted) && Acc() == old(Acc()) && Led() == old(Led())
      ensures refused.None? ==> Acc() == Transition(old(Acc()), actor, u, Deleted, now)
      ensures refused.None? ==> StatusChanged(old(Acc()), Acc(), actor, u, Deleted, now)
      ensures refused.None? ==> Led() == Purge(CancelUnfinished(old(Led()), u, now), gone) && gone <= old(queue)
      ensures refused.None? ==> forall m :: m in gone ==> m.batch in MarkedOf(batches, u)
      ensures refused.None? ==> ShortOnesMarked(old(Led()), batches, u, now)
      ensures refused.None? && MarkedOf(batches, u) != {} ==>
        DrainRounds(hands, MarkedOf(batches, u), rounds, old(queue), queue)
    {
      gone, rounds := {}, [];
      refused := TransitionLocked(actor, u, Deleted);
      if refused.Some? {
        return;
      }
      var ids := MarkedOf(batches, u);
      if ids != {} {
        var removed;
        removed, gone, rounds := PurgeBatchMessages(ids, hands);
      }
    }

    /**
     * Deleting an account: permission on the first, unlocked read; then, after whatever
     * happens before the lock is taken, the decision on the locked row; then the purge of
     * the messages of all the user's cancelled batches.
     */
    method DeleteUser(actor: Uid, u: Uid, hands: set<Message> -> seq<Message>)
      returns (r: Result<Status, Refusal>, ghost steps: Steps, ghost locked: World, ghost gone: set<Message>,
               ghost rounds: seq<set<Message>>)
      requires ActiveUser(Acc(), actor) && HandsOut(hands)
      modifies this
      ensures r == Err(Forbidden) <==>
        old(users[actor].role != RootAdmin || (u in users && users[u].role == RootAdmin))
      ensures r == Err(NotFound) <==> old(users[actor].role == RootAdmin && u !in users)
      ensures r.Err? && !r.error.BadTransition? ==> View() == old(View())
      ensures r.Ok? || r.error.BadTransition? ==> Run(old(View()), steps, locked) && u in locked.acc.users
      ensures r.Ok? <==> !(r.Err? && !r.error.BadTransition?) && locked.acc.users[u].status != Deleted
      ensures r.Ok? ==> r.value == locked.acc.users[u].status && locked.now < now
      ensures r.Ok? ==> Acc() == Transition(locked.acc, actor, u, Deleted, now)
      ensures r.Ok? ==> StatusChanged(locked.acc, Acc(), actor, u, Deleted, now)
      ensures r.Ok? ==> Led() == Purge(CancelUnfinished(locked.led, u, now), gone) && gone <= locked.led.queue
      ensures r.Ok? ==> forall m :: m in gone ==> m.batch in MarkedOf(batches, u)
      ensures r.Ok? ==> ShortOnesMarked(locked.led, batches, u, now)
      ensures r.Ok? && MarkedOf(batches, u) != {} ==>
        DrainRounds(hands, MarkedOf(batches, u), rounds, locked.led.queue, queue)
    {
      steps, locked, gone, rounds := [], View(), {}, [];
      if users[actor].role != RootAdmin {
        return Err(Forbidden), steps, locked, gone, rounds;
      }
      if u !in users {
        return Err(NotFound), steps, locked, gone, rounds;
      }
      if users[u].role == RootAdmin {
        return Err(Forbidden), steps, locked, gone, rounds;
      }
      ghost var first := View();
      steps := OthersRun();
      RunKeepsUsers(first, steps, View());
      locked := View();
      var from := users[u].status;
      var refused;
      refused, gone, rounds := DeleteLocked(actor, u, hands);
      r := if refused.Some? then Err(BadTransition(refused.value)) else Ok(from);
    }

    /** Deactivating (`to` is `Deactivated`) and reactivating (`to` is `Active`): by a root admin, never on oneself. */
    method DeactivateOrReactivate(actor: Uid, u: Uid, to: Status)
      returns (r: Result<(), Refusal>, ghost steps: Steps, ghost locked: World)
      requires ActiveUser(Acc(), actor) && to != Deleted
      modifies this
      ensures r == Err(Forbidden) <==> old(users[actor].role != RootAdmin || u == actor)
      ensures r == Err(NotFound) <==> old(users[actor].role == RootAdmin && u !in users)
      ensures r.Err? && !r.error.BadTransition? ==> View() == old(View())
      ensures r.Ok? || r.error.BadTransition? ==> Run(old(View()), steps, locked) && u in locked.acc.users
      ensures r.Err? && r.error.BadTransition? ==> !Allowed(locked.acc.users[u].status, to) && Acc() == locked.acc
      ensures r.Ok? ==> Allowed(locked.acc.users[u].status, to) && locked.now < now
      ensures r.Ok? ==> Acc() == Transition(locked.acc, actor, u, to, now)
      ensures r.Ok? || r.error.BadTransition? ==> Led() == locked.led
      ensures r.Ok? ==> StatusChanged(locked.acc, Acc(), actor, u, to, now)
    {
      steps, locked := [], View();
      if users[actor].role != RootAdmin {
        return Err(Forbidden), steps, locked;
      }
      if u !in users {
        return Err(NotFound), steps, locked;
      }
      if u == actor {
        return Err(Forbidden), steps, locked;
      }
      ghost var first := View();
      steps := OthersRun();
      RunKeepsUsers(first, steps, View());
      locked := View();
      var refused := TransitionLocked(actor, u, to);
      if refused.Some? {
        return Err(BadTransition(refused.value)), steps, locked;
      }
      return Ok(()), steps, locked;
    }

    /** The commit of a role change. */
    method MoveRole(u: Uid, role: Role, actor: Uid)
      requires u in users
      modifies this`now, this`users, this`links, this`sessions
      ensures now > old(now) && Acc() == ChangeRole(old(Acc()), actor, u, role, now)
    {
      var t := Tick();
      var from := users[u].role;
      users := users[u := users[u].(role := role)];
      if from != role {
        var leaving := LinkedTas(links, u);
        links := EndLinks(links, u, actor, t);
        SignOutUnsupervised(leaving, t);
      }
    }

    /** Moving a user to another role ends all their links; the assistants left alone are signed out. */
    method ChangeUserRole(u: Uid, role: Role, actor: Uid) returns (r: Result<(), Refusal>)
      requires ActiveAs(Acc(), actor, RootAdmin) && role != RootAdmin
      modifies this
      ensures r == Err(NotFound) <==> u !in old(users)
      ensures r == Err(Forbidden) <==> u in old(users) && old(users)[u].role == RootAdmin
      ensures r.Err? ==> View() == old(View())
      ensures r.Ok? ==> now > old(now) && Acc() == ChangeRole(old(Acc()), actor, u, role, now) && Led() == old(Led())
      ensures r.Ok? ==> RoleChanged(old(Acc()), Acc(), actor, u, role, now)
    {
      if u !in users {
        return Err(NotFound);
      }
      if users[u].role == RootAdmin {
        return Err(Forbidden);
      }
      MoveRole(u, role, actor);
      ChangeRoleEffect(old(Acc()), actor, u, role, now);
      return Ok(());
    }

    /** Ending one supervision; every refusal looks like an unknown user. */
    method EndSupervision(actor: Uid, ta: Uid, instructor: Uid) returns (r: Result<(), Refusal>, ghost k: LinkId)
      requires ActiveUser(Acc(), actor)
      modifies this
      ensures r.Ok? <==>
        old((users[actor].role == RootAdmin || actor == instructor) && OpenPair(links, ta, instructor))
      ensures r.Err? ==> r.error == NotFound && View() == old(View())
      ensures r.Ok? ==> now > old(now) && k in old(links) && old(links)[k].endedAt.None?
                        && old(links)[k].ta == ta && old(links)[k].instructor == instructor
                        && Acc() == EndLink(old(Acc()), actor, k, now) && Led() == old(Led())
                        && LinkEnded(old(Acc()), Acc(), actor, k, now)
    {
      k := 0;
      if users[actor].role != RootAdmin && actor != instructor {
        return Err(NotFound), k;
      }
      if !OpenPair(links, ta, instructor) {
        return Err(NotFound), k;
      }
      var found :| found in links && links[found].ta == ta && links[found].instructor == instructor
                   && links[found].endedAt.None?;
      k := found;
      var t := Tick();
      EndLinkEffect(Acc(), actor, k, t);
      links := links[found := links[found].(endedAt := Some(t), endedBy := Some(actor))];
      SignOutUnsupervised({ta}, t);
      return Ok(()), k;
    }

    /** Adds an open link under a fresh id unless the pair has one. */
    method LinkPair(k: LinkId, ta: Uid, instructor: Uid)
      requires k !in links
      modifies this`links
      ensures Acc() == AddLink(old(Acc()), k, ta, instructor) && PairLinked(old(Acc()), Acc(), k, ta, instructor)
    {
      AddLinkEffect(Acc(), k, ta, instructor);
      if !OpenPair(links, ta, instructor) {
        links := links[k := Link(ta, instructor, None, None)];
      }
    }

    /** A root admin places an active assistant with an active instructor. */
    method LinkSupervisor(actor: Uid, ta: Uid, instructor: Uid, k: LinkId) returns (r: Result<(), LinkRefusal>)
      requires ActiveUser(Acc(), actor) && k !in links
      modifies this`links
      ensures r.Ok? <==> old(users[actor].role == RootAdmin && MayPlace(Acc(), actor, ta, instructor))
      ensures r == Err(NotRootAdmin) <==> users[actor].role != RootAdmin
      ensures r == Err(NoSuchUser) <==> users[actor].role == RootAdmin && ta !in users
      ensures r == Err(NotAnAssistant) <==>
        users[actor].role == RootAdmin && ta in users && users[ta].role != TeachingAssistant
      ensures r == Err(NotActive) <==>
        users[actor].role == RootAdmin && ta in users && users[ta].role == TeachingAssistant
        && users[ta].status != Active
      ensures r == Err(NoSuchSupervisor) <==>
        users[actor].role == RootAdmin && ta in users && users[ta].role == TeachingAssistant
        && users[ta].status == Active
        && !(instructor in users && users[instructor].role == Instructor && users[instructor].status == Active)
      ensures Acc() == if r.Ok? then AddLink(old(Acc()), k, ta, instructor) else old(Acc())
      ensures r.Ok? ==> PairLinked(old(Acc()), Acc(), k, ta, instructor)
    {
      if users[actor].role != RootAdmin {
        return Err(NotRootAdmin);
      }
      if ta !in users {
        return Err(NoSuchUser);
      }
      if users[ta].role != TeachingAssistant {
        return Err(NotAnAssistant);
      }
      if users[ta].status != Active {
        return Err(NotActive);
      }
      if instructor !in users || users[instructor].role != Instructor || users[instructor].status != Active {
        return Err(NoSuchSupervisor);
      }
      LinkPair(k, ta, instructor);
      return Ok(());
    }

    /** The commit of an invitation: a new row or a deleted one reused, its event and its link. */
    method CommitProvision(actor: Uid, email: string, role: Role, u: Uid, supervisor: Option<(LinkId, Uid)>)
      requires u in users ==> users[u].email == email
      modifies this`now, this`users, this`events, this`links
      ensures now > old(now) && Acc() == Provision(old(Acc()), actor, email, role, u, supervisor, now)
      ensures Invited(old(Acc()), Acc(), actor, email, role, u, supervisor, now)
    {
      var t := Tick();
      ProvisionEffect(Acc(), actor, email, role, u, supervisor, t);
      if u in users {
        users := users[u := users[u].(role := role, status := Active, reprovisionedAt := Some(t))];
        events := events + [StatusEvent(u, actor, Deleted, Active)];
      } else {
        users := users[u := User(email, role, Active, None)];
      }
      if supervisor.Some? {
        links := links[supervisor.value.0 := Link(u, supervisor.value.1, None, None)];
      }
    }

    /** The row to use for an address: one that already has it, else the fresh id. */
    method RowForEmail(email: string, newId: Uid) returns (u: Uid)
      ensures if AddressKnown(Acc(), email) then u in users && users[u].email == email else u == newId
    {
      if v :| v in users && users[v].email == email {
        u := v;
      } else {
        u := newId;
      }
    }

    /**
     * Provisioning by a root admin: a new address gets the fresh row, a deleted one gets its
     * row back, an address still in use is refused. The credential may fail before the commit.
     */
    method CreateUser(actor: Uid, email: string, role: Role, supervisor: Option<Uid>, invited: bool, newId: Uid,
                      k: LinkId)
      returns (r: Result<Uid, CreateRefusal>)
      requires ActiveUser(Acc(), actor) && newId !in users && k !in links
      modifies this`now, this`users, this`events, this`links
      ensures r.Ok? ==>
        var link := if supervisor.Some? then Some((k, supervisor.value)) else None;
        && old(ActiveAs(Acc(), actor, RootAdmin)) && old(MayInvite(Acc(), actor, email, role, r.value, link))
        && now > old(now) && Acc() == Provision(old(Acc()), actor, email, role, r.value, link, now)
      ensures r.Err? ==> View() == old(View())
      ensures r.Ok? ==> Invited(old(Acc()), Acc(), actor, email, role, r.value,
                                if supervisor.Some? then Some((k, supervisor.value)) else None, now)
      ensures r.Ok? ==> if exists u :: u in old(users) && old(users)[u].email == email
                        then r.value in old(users) && old(users)[r.value].status == Deleted else r.value == newId
      ensures (r == Err(NoCredential) ==> !invited) && (r.Ok? ==> invited)
      ensures r == Err(NotAllowed) <==> old(users[actor].role != RootAdmin) || role == RootAdmin
      ensures r == Err(BadSupervisor) <==>
        old(users[actor].role == RootAdmin) && role != RootAdmin && supervisor.Some?
        && old(role != TeachingAssistant || !ActiveAs(Acc(), supervisor.value, Instructor))
      ensures r == Err(AddressTaken) <==>
        old(users[actor].role == RootAdmin && !AddressFree(Acc(), email)) && role != RootAdmin
        && (supervisor.Some? ==> role == TeachingAssistant && old(ActiveAs(Acc(), supervisor.value, Instructor)))
    {
      if users[actor].role != RootAdmin || role == RootAdmin {
        return Err(NotAllowed);
      }
      if supervisor.Some? {
        if role != TeachingAssistant || supervisor.value !in users
           || users[supervisor.value].role != Instructor || users[supervisor.value].status != Active {
          return Err(BadSupervisor);
        }
      }
      if exists u :: u in users && users[u].email == email && users[u].status != Deleted {
        return Err(AddressTaken);
      }
      if !invited {
        return Err(NoCredential);
      }
      var u := RowForEmail(email, newId);
      CommitProvision(actor, email, role, u, if supervisor.Some? then Some((k, supervisor.value)) else None);
      return Ok(u);
    }

    /** An instructor adds an assistant: a new address is provisioned, an active assistant is linked. */
    method AddTeachingAssistant(actor: Uid, email: string, invited: bool, newId: Uid, k: LinkId)
      returns (r: Result<Uid, CreateRefusal>)
      requires Sound(Acc()) && ActiveUser(Acc(), actor) && newId !in users && k !in links
      modifies this`now, this`users, this`events, this`links
      ensures r.Ok? ==> old(users[actor].role == Instructor)
      ensures r.Ok? && !old(AddressKnown(Acc(), email)) ==>
        && r.value == newId && old(MayInvite(Acc(), actor, email, TeachingAssistant, newId, Some((k, actor))))
        && now > old(now)
        && Acc() == Provision(old(Acc()), actor, email, TeachingAssistant, newId, Some((k, actor)), now)
      ensures r.Ok? && old(AddressKnown(Acc(), email)) ==>
        && old(ActiveAs(Acc(), r.value, TeachingAssistant) && users[r.value].email == email)
        && old(MayPlace(Acc(), actor, r.value, actor)) && Acc() == AddLink(old(Acc()), k, r.value, actor)
      ensures r.Ok? && !old(AddressKnown(Acc(), email)) ==>
        && Invited(old(Acc()), Acc(), actor, email, TeachingAssistant, newId, Some((k, actor)), now)
        && links == old(links)[k := Link(newId, actor, None, None)] && OnActiveTeam(Acc(), newId)
      ensures r.Ok? && old(AddressKnown(Acc(), email)) ==>
        && old(users[r.value]) == User(email, TeachingAssistant, Active, old(users[r.value].reprovisionedAt))
        && PairLinked(old(Acc()), Acc(), k, r.value, actor) && now == old(now)
      ensures r.Err? ==> View() == old(View()) && r.error != BadSupervisor
      ensures r == Err(NotAllowed) <==> old(users[actor].role != Instructor)
      ensures r == Err(NoCredential) <==>
        old(users[actor].role == Instructor && !AddressKnown(Acc(), email)) && !invited
      ensures r == Err(AddressTaken) <==>
        old(users[actor].role == Instructor && AddressKnown(Acc(), email)) && !old(HasAssistant(Acc(), email))
    {
      if users[actor].role != Instructor {
        return Err(NotAllowed);
      }
      if !(exists u :: u in users && users[u].email == email) {
        if !invited {
          return Err(NoCredential);
        }
        CommitProvision(actor, email, TeachingAssistant, newId, Some((k, actor)));
        return Ok(newId);
      }
      if live :| live in users && users[live].email == email && users[live].status != Deleted {
        if users[live].role != TeachingAssistant || users[live].status != Active {
          return Err(AddressTaken);
        }
        LinkPair(k, live, actor);
        return Ok(live);
      }
      return Err(AddressTaken);
    }

    // ---- sessions

    /** The rows a sign-in leaves. */
    method StoreSession(u: Uid, token: Token)
      modifies this`now, this`sessions, this`issued
      ensures now > old(now) && Acc() == SignIn(old(Acc()), u, token, now)
    {
      var t := Tick();
      StillSignedIn(sessions, u, token, t);
      sessions := sessions[token := Session(u, t, t + ABSOLUTE_TTL, None)];
      sessions := WithoutOld(sessions, u, t);
      issued := issued + {token};
    }

    /** A sign-in with a freshly drawn token. */
    method CreateSession(u: Uid, token: Token)
      requires ActiveUser(Acc(), u) && token !in issued
      modifies this`now, this`sessions, this`issued
      ensures now > old(now) && Acc() == SignIn(old(Acc()), u, token, now) && Led() == old(Led())
      ensures SignedIn(old(Acc()), Acc(), u, token, now)
    {
      StoreSession(u, token);
      SignInEffect(old(Acc()), u, token, now);
    }

    method AuthenticateSession(token: Token, touch: bool) returns (o: Sessions.Outcome)
      modifies this
      ensures now > old(now) && o == Sessions.Authenticate(old(Acc()), token, touch, now)
      ensures Acc() == Sessions.Visit(old(Acc()), token, touch, now) && Led() == old(Led())
      ensures Visited(old(Acc()), Acc(), token, touch, now)
    {
      var t := Tick();
      VisitEffect(Acc(), token, touch, t);
      if token !in sessions || sessions[token].user !in users {
        return Sessions.Unknown;
      }
      var row := sessions[token];
      if users[row.user].status != Active {
        return Sessions.AccountNotActive;
      }
      if row.deletedAt.Some? {
        return Sessions.Revoked;
      }
      if row.absoluteExpires <= t {
        return Sessions.Ended;
      }
      var idle := row.lastActive + Sessions.IDLE_TTL;
      if idle <= t {
        return Sessions.Expired;
      }
      assert sessions == sessions[token := row];
      if touch && t - row.lastActive >= Sessions.ACTIVITY_RESOLUTION {
        sessions := sessions[token := row.(lastActive := t)];
        idle := t + Sessions.IDLE_TTL;
      }
      return Sessions.Alive(if row.absoluteExpires < idle then row.absoluteExpires else idle, idle);
    }

    /** Ends every session of whoever holds this unrevoked token. */
    method SignOutEverywhere(token: Token) returns (r: Option<Uid>)
      modifies this
      ensures r.Some? <==> old(token in sessions && sessions[token].deletedAt.None? && sessions[token].user in users)
      ensures r.None? ==> View() == old(View())
      ensures r.Some? ==> now > old(now) && r.value == old(sessions)[token].user
                          && Acc() == SignOut(old(Acc()), r.value, now) && Led() == old(Led())
                          && OthersKept(old(Acc()), Acc()) && SignedOut(old(Acc()), Acc(), iset{r.value}, now)
    {
      if token !in sessions || sessions[token].deletedAt.Some? || sessions[token].user !in users {
        return None;
      }
      var u := sessions[token].user;
      var t := Tick();
      RevokeSessions(u, t);
      return Some(u);
    }

    /** Some rows past the cutoff, as many as the limit allows. */
    method TakeExpired(cutoff: Time, limit: nat) returns (rows: set<Token>)
      ensures rows <= Expired(sessions, cutoff)
      ensures rows == {} <==> limit == 0 || Expired(sessions, cutoff) == {}
    {
      var expired := set k | k in sessions && sessions[k].absoluteExpires < cutoff;
      rows := {};
      while |rows| < limit && expired - rows != {}
        invariant rows <= expired && (limit == 0 || expired == {} ==> rows == {})
        decreases |expired| - |rows|
      {
        var k :| k in expired - rows;
        rows := rows + {k};
        SubsetSize(rows, expired);
      }
    }

    /** Deletes rows past the cutoff, a batch at a time, until a batch comes back empty. */
    method DropExpired(cutoff: Time, batchSize: nat) returns (total: nat)
      modifies this`sessions
      ensures sessions
              == if batchSize > 0 then Without(old(sessions), Expired(old(sessions), cutoff)) else old(sessions)
      ensures total == if batchSize > 0 then |Expired(old(sessions), cutoff)| else 0
    {
      total := 0;
      ghost var first := sessions;
      ghost var gone: set<Token> := {};
      assert Without(first, {}) == first;
      while true
        invariant gone <= Expired(first, cutoff) && total == |gone| && (batchSize == 0 ==> gone == {})
        invariant sessions == Without(first, gone)
        decreases |Expired(first, cutoff) - gone|
      {
        var rows := TakeExpired(cutoff, batchSize);
        StillExpired(first, gone, cutoff);
        if rows == {} {
          break;
        }
        SmallerSet(Expired(first, cutoff) - gone, rows);
        DroppedMore(first, gone, rows, cutoff);
        sessions := Without(sessions, rows);
        gone := gone + rows;
        total := total + |rows|;
      }
    }

    /**
     * The batched purge. It ends, and with a positive batch size it has removed exactly the
     * rows past retention; with batch size 0 it removes nothing at all.
     */
    method PurgeExpiredSessions(batchSize: nat) returns (total: nat)
      modifies this`now, this`sessions
      ensures now > old(now) && Led() == old(Led())
      ensures Acc() == if batchSize > 0 then DropOldSessions(old(Acc()), now) else old(Acc())
      ensures batchSize > 0 ==> OldRowsDropped(old(Acc()), Acc(), now)
      ensures total == if batchSize > 0 then |Expired(old(sessions), now - RETENTION)| else 0
    {
      var t := Tick();
      total := DropExpired(t - RETENTION, batchSize);
      assert Without(old(sessions), Expired(old(sessions), t - RETENTION)) == DropOldSessions(old(Acc()), t).sessions;
    }

    // ---- the queue

    /** Deletes one message if it belongs to one of the batches. */
    method DeleteIfOf(ids: set<Bid>, m: Message) returns (removed: nat)
      modifies this`queue, this`purged
      ensures queue == old(queue) - Hit(m, ids) && purged == old(purged) + Hit(m, ids) && removed == |Hit(m, ids)|
    {
      removed := 0;
      if m.batch in ids {
        queue := queue - {m};
        purged := purged + {m};
        removed := 1;
      }
    }

    /** One round of a drain: of the messages handed out, those of the given batches are deleted. */
    method DrainRound(ids: set<Bid>, ms: seq<Message>) returns (removed: nat)
      requires Distinct(ms) && Elements(ms) <= queue
      modifies this`queue, this`purged
      ensures queue == old(queue) - OfBatches(ms, ids) && purged == old(purged) + OfBatches(ms, ids)
      ensures removed == |OfBatches(ms, ids)|
    {
      removed := 0;
      ghost var whole, known := queue, purged;
      for i := 0 to |ms|
        invariant queue == whole - OfBatches(ms[..i], ids) && purged == known + OfBatches(ms[..i], ids)
        invariant removed == |OfBatches(ms[..i], ids)|
      {
        OneMoreHandled(ms, i, ids, whole, known);
        var n := DeleteIfOf(ids, ms[i]);
        removed := removed + n;
      }
      assert ms[..|ms|] == ms;
    }

    /** One round, added to what the rounds before it took out of the queue. */
    method PurgeRound(ids: set<Bid>, ms: seq<Message>, removed: nat, ghost gone: set<Message>,
                      ghost whole: set<Message>, ghost known: set<Message>)
      returns (removed': nat, ghost gone': set<Message>)
      requires Distinct(ms) && Elements(ms) <= queue && removed == |gone|
      requires gone <= whole && queue == whole - gone && purged == known + gone
      modifies this`queue, this`purged
      ensures gone' == gone + OfBatches(ms, ids) && removed' == |gone'|
      ensures gone' <= whole && queue == whole - gone' && purged == known + gone'
      ensures queue == old(queue) - OfBatches(ms, ids)
    {
      assert OfBatches(ms, ids) <= Elements(ms);
      assert gone !! OfBatches(ms, ids);
      gone' := gone + OfBatches(ms, ids);
      var n := DrainRound(ids, ms);
      removed' := removed + n;
    }

    /** Drains the queue of the messages of some batches, ten at a time, two hundred times at most. */
    method PurgeBatchMessages(ids: set<Bid>, hands: set<Message> -> seq<Message>)
      returns (removed: nat, ghost gone: set<Message>, ghost rounds: seq<set<Message>>)
      requires HandsOut(hands)
      modifies this`queue, this`purged
      ensures Led() == Purge(old(Led()), gone) && removed == |gone| && gone <= old(queue)
      ensures DrainRounds(hands, ids, rounds, old(queue), queue) && forall m :: m in gone ==> m.batch in ids
    {
      removed, gone, rounds := 0, {}, [];
      for round := 0 to MAX_CANCEL_DRAIN_ITERATIONS
        invariant |rounds| == round && DrainingSo(hands, ids, rounds, old(queue), queue)
        invariant gone <= old(queue) && removed == |gone| && forall m :: m in gone ==> m.batch in ids
        invariant queue == old(queue) - gone && purged == old(purged) + gone
      {
        var ms := hands(queue);
        if ms == [] {
          break;
        }
        OneMoreRound(hands, ids, rounds, old(queue), queue);
        rounds := rounds + [queue];
        removed, gone := PurgeRound(ids, ms, removed, gone, old(queue), old(purged));
      }
    }

    // ---- the worker

    /** One message: a failure once its batch is cancelled, else a check, unless scoring or the commit fails. */
    method ProcessMessage(m: Message, goes: bool) returns (recorded: bool)
      modifies this`now, this`checks, this`failures
      ensures recorded == goes
      ensures recorded ==> now > old(now) && Led() == Process(old(Led()), m, false, now)
      ensures recorded ==> RowJudged(old(Led()), Led(), m, false, now)
      ensures !recorded ==> View() == old(View())
    {
      var cancelled := m.batch in batches && batches[m.batch].cancelledAt.Some?;
      if !goes {
        return false;
      }
      var t := Tick();
      if cancelled {
        failures := failures + [Failure(m.batch, m.row)];
      } else {
        checks := checks + [Check(m.actor, Some(m.batch), m.row, t)];
      }
      return true;
    }

    /** Records one received message and then deletes it, unless one of the two fails. */
    method HandleMessage(m: Message, o: Outside) returns (fate: Fate, raised: bool)
      requires m in queue
      modifies this`now, this`checks, this`failures, this`queue
      ensures fate == FateOf(o, m) && raised == Raises(o, m)
      ensures fate == NotRecorded ==> View() == old(View())
      ensures fate != NotRecorded ==> now > old(now) && View() == Apply(old(View()), Work(m, fate == Acknowledged), now)
      ensures fate != NotRecorded ==> RowJudged(old(Led()), Led(), m, fate == Acknowledged, now)
    {
      var recorded := ProcessMessage(m, o.goes(m));
      if !recorded {
        return NotRecorded, false;
      }
      var reply := o.deletion(m);
      if reply == Done {
        queue := queue - {m};
      }
      return if reply == Done then Acknowledged else Redelivered, reply == Raised;
    }

    /** The next message of a pass, continuing its run. */
    method WorkNext(o: Outside, received: seq<Message>, i: nat,
                    ghost first: World, ghost fates: seq<Fate>, ghost times: seq<Time>)
      returns (raised: bool, ghost fates': seq<Fate>, ghost times': seq<Time>)
      requires |fates| == |times| == i < |received| && Run(first, WorkSteps(received, fates, times), View())
      requires Distinct(received) && StillThere(queue, received, i) && PassedSoFar(o, received, fates)
      modifies this`now, this`checks, this`failures, this`queue
      ensures |times'| == |fates'| == i + 1 && StillThere(queue, received, i + 1)
      ensures if raised then Passed(o, received, fates', raised) else PassedSoFar(o, received, fates')
      ensures Run(first, WorkSteps(received, fates', times'), View())
    {
      var fate;
      fate, raised := HandleMessage(received[i], o);
      OneMoreWork(first, received, fates, times, old(View()), fate, now, View());
      fates', times' := fates + [fate], times + [now];
      OneMorePassed(o, received, fates);
      assert queue == old(queue) || queue == old(queue) - {received[i]};
    }

    /**
     * One pass over received messages: each is recorded and then deleted; a row that fails
     * stays queued, a deletion can get lost, and one that raises ends the pass.
     */
    method WorkQueue(o: Outside)
      returns (received: seq<Message>, raised: bool, ghost fates: seq<Fate>, ghost times: seq<Time>)
      requires HandsOut(o.hands)
      modifies this`now, this`checks, this`failures, this`queue
      ensures received == o.hands(old(queue)) && Passed(o, received, fates, raised) && |times| == |fates|
      ensures Run(old(View()), WorkSteps(received, fates, times), View())
    {
      received := o.hands(queue);
      raised, fates, times := false, [], [];
      ghost var first := View();
      assert forall m :: m in received ==> m in Elements(received);
      for i := 0 to |received|
        invariant |fates| == |times| == i && !raised && PassedSoFar(o, received, fates)
        invariant Run(first, WorkSteps(received, fates, times), View())
        invariant StillThere(queue, received, i)
      {
        raised, fates, times := WorkNext(o, received, i, first, fates, times);
        if raised {
          return;
        }
      }
    }

    /** Records one dead letter as a failure and then deletes it, unless one of the two fails. */
    method HandleDeadLetter(m: Message, o: Outside) returns (fate: Fate, raised: bool)
      requires m in dead
      modifies this`now, this`failures, this`dead
      ensures fate == FateOf(o, m) && raised == Raises(o, m)
      ensures fate == NotRecorded ==> View() == old(View())
      ensures fate != NotRecorded ==>
        now > old(now) && View() == Apply(old(View()), DrainDead(m, fate == Acknowledged), now)
      ensures fate != NotRecorded ==> LetterFailed(old(Led()), Led(), m, fate == Acknowledged)
    {
      if !o.goes(m) {
        return NotRecorded, false;
      }
      var t := Tick();
      failures := failures + [Failure(m.batch, m.row)];
      var reply := o.deletion(m);
      if reply == Done {
        dead := dead - {m};
      }
      return if reply == Done then Acknowledged else Redelivered, reply == Raised;
    }

    /** The next dead letter of a pass, continuing its run. */
    method DrainNext(o: Outside, received: seq<Message>, i: nat,
                     ghost first: World, ghost fates: seq<Fate>, ghost times: seq<Time>)
      returns (raised: bool, ghost fates': seq<Fate>, ghost times': seq<Time>)
      requires |fates| == |times| == i < |received| && Run(first, DrainSteps(received, fates, times), View())
      requires Distinct(received) && StillThere(dead, received, i) && PassedSoFar(o, received, fates)
      modifies this`now, this`failures, this`dead
      ensures |times'| == |fates'| == i + 1 && StillThere(dead, received, i + 1)
      ensures if raised then Passed(o, received, fates', raised) else PassedSoFar(o, received, fates')
      ensures Run(first, DrainSteps(received, fates', times'), View())
    {
      var fate;
      fate, raised := HandleDeadLetter(received[i], o);
      OneMoreDrain(first, received, fates, times, old(View()), fate, now, View());
      fates', times' := fates + [fate], times + [now];
      OneMorePassed(o, received, fates);
      assert dead == old(dead) || dead == old(dead) - {received[i]};
    }

    /** One pass over the dead letters: each becomes a failure, then is deleted. */
    method DrainDlqOnce(o: Outside)
      returns (received: seq<Message>, raised: bool, ghost fates: seq<Fate>, ghost times: seq<Time>)
      requires HandsOut(o.hands)
      modifies this`now, this`failures, this`dead
      ensures received == o.hands(old(dead)) && Passed(o, received, fates, raised) && |times| == |fates|
      ensures Run(old(View()), DrainSteps(received, fates, times), View())
    {
      received := o.hands(dead);
      raised, fates, times := false, [], [];
      ghost var first := View();
      assert forall m :: m in received ==> m in Elements(received);
      for i := 0 to |received|
        invariant |fates| == |times| == i && !raised && PassedSoFar(o, received, fates)
        invariant Run(first, DrainSteps(received, fates, times), View())
        invariant StillThere(dead, received, i)
      {
        raised, fates, times := DrainNext(o, received, i, first, fates, times);
        if raised {
          return;
        }
      }
    }

    /**
     * One poll: a pass over what the queue hands out, then, unless a deletion raised, one over
     * what the dead letters hand out. Both together are a run.
     */
    method PollOnce(main: Outside, side: Outside)
      returns (received: seq<Message>, raised: bool, ghost fates: seq<Fate>, ghost times: seq<Time>,
               letters: seq<Message>, stopped: bool, ghost letterFates: seq<Fate>, ghost letterTimes: seq<Time>)
      requires HandsOut(main.hands) && HandsOut(side.hands)
      modifies this`now, this`checks, this`failures, this`queue, this`dead
      ensures received == main.hands(old(queue)) && Passed(main, received, fates, raised) && |times| == |fates|
      ensures letters == if raised then [] else side.hands(old(dead))
      ensures Passed(side, letters, letterFates, stopped) && |letterTimes| == |letterFates|
      ensures Run(old(View()),
                  WorkSteps(received, fates, times) + DrainSteps(letters, letterFates, letterTimes), View())
    {
      received, raised, fates, times := WorkQueue(main);
      letters, stopped, letterFates, letterTimes := [], false, [], [];
      if raised {
        assert WorkSteps(received, fates, times) + [] == WorkSteps(received, fates, times);
        return;
      }
      ghost var middle := View();
      letters, stopped, letterFates, letterTimes := DrainDlqOnce(side);
      RunJoin(old(View()), WorkSteps(received, fates, times), middle,
              DrainSteps(letters, letterFates, letterTimes), View());
    }

    // ---- batches

    /** Puts one message on the queue if it accepts it, continuing a run. */
    method EnqueueRow(m: Message, accepted: bool, ghost first: World, ghost done: Steps) returns (ghost steps: Steps)
      requires m in unsent && Run(first, done, View())
      modifies this`now, this`queue, this`unsent
      ensures Run(first, steps, View())
      ensures unsent == (if accepted then old(unsent) - {m} else old(unsent))
      ensures queue == (if accepted then old(queue) + {m} else old(queue))
    {
      steps := done;
      if accepted {
        ghost var before := View();
        var t := Tick();
        queue := queue + {m};
        unsent := unsent - {m};
        RunExtend(first, steps, before, SendRow(m), t);
        steps := steps + [(SendRow(m), t)];
      }
    }

    method EnqueueNext(rows: seq<Message>, accepts: Message -> bool, i: nat, failed: seq<Message>,
                       ghost waiting: set<Message>, ghost queued: set<Message>, ghost first: World, ghost done: Steps)
      returns (failed': seq<Message>, ghost steps: Steps)
      requires i < |rows| && Distinct(rows) && Elements(rows) <= waiting && Run(first, done, View())
      requires SplitInto(rows[..i], Accepted(rows[..i], accepts), failed)
      requires unsent == waiting - Accepted(rows[..i], accepts) && queue == queued + Accepted(rows[..i], accepts)
      modifies this`now, this`queue, this`unsent
      ensures Run(first, steps, View())
      ensures SplitInto(rows[..i + 1], Accepted(rows[..i + 1], accepts), failed')
      ensures unsent == waiting - Accepted(rows[..i + 1], accepts)
      ensures queue == queued + Accepted(rows[..i + 1], accepts)
    {
      NextRow(rows, i, Accepted(rows[..i], accepts), failed);
      OneMoreAccepted(rows, accepts, i);
      assert rows[i] in Elements(rows);
      steps := EnqueueRow(rows[i], accepts(rows[i]), first, done);
      failed' := if accepts(rows[i]) then failed else failed + [rows[i]];
    }

    /** Sends rows one by one; returns those the queue did not take. */
    method EnqueueRows(rows: seq<Message>, accepts: Message -> bool, ghost first: World, ghost done: Steps)
      returns (failed: seq<Message>, ghost steps: Steps)
      requires Distinct(rows) && Elements(rows) <= unsent && Run(first, done, View())
      modifies this`now, this`queue, this`unsent
      ensures Run(first, steps, View())
      ensures SplitInto(rows, Accepted(rows, accepts), failed)
      ensures unsent == old(unsent) - Accepted(rows, accepts) && queue == old(queue) + Accepted(rows, accepts)
    {
      failed, steps := [], done;
      ghost var waiting, queued := unsent, queue;
      for i := 0 to |rows|
        invariant Run(first, steps, View())
        invariant SplitInto(rows[..i], Accepted(rows[..i], accepts), failed)
        invariant unsent == waiting - Accepted(rows[..i], accepts) && queue == queued + Accepted(rows[..i], accepts)
      {
        failed, steps := EnqueueNext(rows, accepts, i, failed, waiting, queued, first, steps);
      }
      assert rows[..|rows|] == rows;
    }

    method RecordLostRow(m: Message, ghost first: World, ghost done: Steps) returns (ghost steps: Steps)
      requires m in unsent && Run(first, done, View())
      modifies this`now, this`failures, this`unsent
      ensures Run(first, steps, View())
      ensures unsent == old(unsent) - {m} && failures == old(failures) + [Failure(m.batch, m.row)]
    {
      ghost var before := View();
      var t := Tick();
      failures := failures + [Failure(m.batch, m.row)];
      unsent := unsent - {m};
      RunExtend(first, done, before, LoseRow(m), t);
      steps := done + [(LoseRow(m), t)];
    }

    method RecordNext(failed: seq<Message>, i: nat, ghost waiting: set<Message>, ghost known: seq<Failure>,
                      ghost first: World, ghost done: Steps)
      returns (ghost steps: Steps)
      requires i < |failed| && Distinct(failed) && Elements(failed) <= waiting && Run(first, done, View())
      requires unsent == waiting - Elements(failed[..i]) && failures == known + FailuresFor(failed[..i])
      modifies this`now, this`failures, this`unsent
      ensures Run(first, steps, View())
      ensures unsent == waiting - Elements(failed[..i + 1]) && failures == known + FailuresFor(failed[..i + 1])
    {
      OneMoreLost(failed, i);
      steps := RecordLostRow(failed[i], first, done);
    }

    /** Records the rows that could not be sent as failures. */
    method RecordUnsent(failed: seq<Message>, ghost first: World, ghost done: Steps) returns (ghost steps: Steps)
      requires Distinct(failed) && Elements(failed) <= unsent && Run(first, done, View())
      modifies this`now, this`failures, this`unsent
      ensures Run(first, steps, View())
      ensures unsent == old(unsent) - Elements(failed) && failures == old(failures) + FailuresFor(failed)
    {
      steps := done;
      ghost var waiting, known := unsent, failures;
      for i := 0 to |failed|
        invariant Run(first, steps, View())
        invariant unsent == waiting - Elements(failed[..i]) && failures == known + FailuresFor(failed[..i])
      {
        steps := RecordNext(failed, i, waiting, known, first, steps);
      }
      assert failed[..|failed|] == failed;
    }

    method StoreBatch(actor: Uid, b: Bid, valid: nat, rejected: nat)
      modifies this`now, this`batches, this`failures, this`unsent
      ensures now > old(now) && Acc() == old(Acc())
      ensures Led() == LedgerSteps.CreateBatch(old(Led()), actor, b, valid, rejected, now)
    {
      var t := Tick();
      batches := batches[b := Batch(actor, valid + rejected, t, None)];
      failures := failures + Rejections(b, valid, rejected);
      unsent := unsent + NewRows(b, valid, actor);
    }

    /** The commit of a new batch with its rejected rows; its valid rows are still to be sent. */
    method CommitBatch(actor: Uid, b: Bid, valid: nat, rejected: nat) returns (ghost steps: Steps)
      requires MayScreen(Acc(), actor) && b !in batches
      modifies this`now, this`batches, this`failures, this`unsent
      ensures Run(old(View()), steps, View()) && now > old(now)
      ensures Submitted(old(Led()), Led(), actor, b, valid, rejected, now)
      ensures unsent == old(unsent) + NewRows(b, valid, actor)
    {
      ghost var first := View();
      StoreBatch(actor, b, valid, rejected);
      RunExtend(first, [], first, Submit(actor, b, valid, rejected), now);
      steps := [] + [(Submit(actor, b, valid, rejected), now)];
      CreateBatchEffect(first.led, actor, b, valid, rejected, now);
    }

    /** Sends the rows of a committed batch and records those the queue refused: none stays unsent. */
    method DeliverRows(rows: seq<Message>, accepts: Message -> bool, ghost first: World, ghost done: Steps)
      returns (failed: seq<Message>, ghost steps: Steps)
      requires Distinct(rows) && Elements(rows) <= unsent && Run(first, done, View())
      modifies this`now, this`failures, this`queue, this`unsent
      ensures Run(first, steps, View())
      ensures unsent == old(unsent) - Elements(rows) && queue == old(queue) + Accepted(rows, accepts)
      ensures SplitInto(rows, Accepted(rows, accepts), failed) && failures == old(failures) + FailuresFor(failed)
    {
      ghost var waiting := unsent;
      failed, steps := EnqueueRows(rows, accepts, first, done);
      SplitRows(waiting, rows, Accepted(rows, accepts), failed);
      steps := RecordUnsent(failed, first, steps);
    }

    /** The batch is there with its total, and every row was sent or is a failure, as the queue accepted it. */
    twostate predicate Delivered(actor: Uid, b: Bid, valid: nat, total: nat, accepts: Message -> bool)
      reads this
    {
      && b in batches && old(now) < batches[b].createdAt
      && batches == old(batches)[b := Batch(actor, total, batches[b].createdAt, None)]
      && (forall m :: m in queue <==>
            m in old(queue) || (m.batch == b && m.actor == actor && m.row < valid && accepts(m)))
      && old(failures) <= failures
      && (forall j :: |old(failures)| <= j < |failures| ==> failures[j].batch == b)
      && (forall row: nat :: Failed(old(failures), failures, b, row)
                             <==> row < total && (row < valid ==> !accepts(Message(b, row, actor))))
      && forall i, j :: |old(failures)| <= i < j < |failures| ==> failures[i] != failures[j]
    }

    /**
     * What follows the parse: the batch and its rejected rows are committed, then the valid
     * rows are sent, then those the queue refused are recorded. Nothing stays unsent.
     */
    method SubmitRows(actor: Uid, b: Bid, valid: nat, rejected: nat, accepts: Message -> bool)
      returns (ghost steps: Steps)
      requires Referential(Led()) && MayScreen(Acc(), actor) && b !in batches
      modifies this`now, this`batches, this`failures, this`queue, this`unsent
      ensures Run(old(View()), steps, View())
      ensures unsent == old(unsent) && Delivered(actor, b, valid, valid + rejected, accepts)
    {
      ghost var first, known, queued := View(), failures, queue;
      var rows := RowList(b, valid, actor);
      RowListFacts(b, valid, actor);
      FreshRows(Led(), actor, b, valid);
      steps := CommitBatch(actor, b, valid, rejected);
      ghost var committed := failures;
      var failed;
      failed, steps := DeliverRows(rows, accepts, first, steps);
      RowsAreDelivered(b, actor, valid, rejected, accepts, rows, failed, known, committed);
    }

    /**
     * Submitting a file as a batch: every data row is parsed into a row to send or a failure,
     * and the batch's total is the number of data rows, or one for a file that fails as a whole.
     */
    method CreateBatch(actor: Uid, b: Bid, header: Option<seq<string>>, lines: seq<seq<string>>,
                       mapping: BatchCells.Mapping, requiresQuestion: bool, accepts: Message -> bool)
      returns (rows: seq<BatchCells.Submission>, rejections: seq<BatchParsing.Rejection>, ghost steps: Steps)
      requires Referential(Led()) && MayScreen(Acc(), actor) && b !in batches
      modifies this`now, this`batches, this`failures, this`queue, this`unsent
      ensures BatchParsing.ParseOutcome(header, lines, mapping, requiresQuestion, rows, rejections)
      ensures Run(old(View()), steps, View())
      ensures unsent == old(unsent)
      ensures Delivered(actor, b, |rows|, BatchParsing.RowTotal(header, lines, mapping), accepts)
    {
      rows, rejections := BatchParsing.ParseAndValidate(header, lines, mapping, requiresQuestion);
      BatchParsing.OutcomesAddUp(header, lines, mapping, requiresQuestion, rows, rejections);
      steps := SubmitRows(actor, b, |rows|, |rejections|, accepts);
    }

    /** Cancelling: only by the owner or a root admin, once, and only this batch's messages are purged. */
    method CancelBatch(actor: Uid, b: Bid, hands: set<Message> -> seq<Message>)
      returns (found: bool, ghost gone: set<Message>, ghost rounds: seq<set<Message>>)
      requires ActiveUser(Acc(), actor) && HandsOut(hands)
      modifies this`now, this`batches, this`queue, this`purged
      ensures found <==> old(b in batches && (OwnsBatch(View(), actor, b) || users[actor].role == RootAdmin))
      ensures !found ==> View() == old(View())
      ensures found ==> Led() == Purge(Cancel(old(Led()), b, now), gone) && gone <= RowsOf(old(queue), b)
      ensures found && old(batches[b].cancelledAt).Some? ==> View() == old(View())
      ensures found ==> OneMarked(old(batches), batches, b, now) && queue == old(queue) - gone
      ensures found && old(batches[b].cancelledAt).None? ==>
        now > old(now) && DrainRounds(hands, {b}, rounds, old(queue), queue)
    {
      gone, rounds := {}, [];
      if b !in batches || (!users[actor].Owns(actor, batches[b].actor, batches[b].createdAt)
                           && users[actor].role != RootAdmin) {
        return false, gone, rounds;
      }
      if batches[b].cancelledAt.None? {
        var t := Tick();
        batches := batches[b := batches[b].(cancelledAt := Some(t))];
        var removed;
        removed, gone, rounds := PurgeBatchMessages({b}, hands);
      }
      return true, gone, rounds;
    }

    /** What the progress view shows; nothing for a batch that is not there or not theirs. */
    method GetBatchProgress(actor: Uid, b: Bid) returns (r: Option<Progress>)
      requires ActiveUser(Acc(), actor)
      ensures r.Some? <==> b in batches && (OwnsBatch(View(), actor, b) || users[actor].role == RootAdmin)
      ensures r.Some? ==> r.value.rowTotal == batches[b].rowTotal && r.value.pending == Pending(Led(), b)
      ensures r.Some? ==> r.value.completed == ChecksOf(checks, b) && r.value.failed == FailuresOf(failures, b)
      ensures r.Some? ==> r.value.completed == |CheckPlaces(Led(), b)| && r.value.failed == |FailurePlaces(Led(), b)|
      ensures r.Some? ==> var rest := batches[b].rowTotal - r.value.completed - r.value.failed;
                          r.value.pending == if rest > 0 then rest else 0
    {
      if b !in batches || (!users[actor].Owns(actor, batches[b].actor, batches[b].createdAt)
                           && users[actor].role != RootAdmin) {
        return None;
      }
      var completed, failed := CountOutcomes(b);
      ChecksAreCounted(Led(), b);
      FailuresAreCounted(Led(), b);
      var rest := batches[b].rowTotal - completed - failed;
      return Some(Progress(batches[b].rowTotal, completed, failed, if rest > 0 then rest else 0));
    }
  }
}
