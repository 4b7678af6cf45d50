/** The stored rows of accounts and batches, and who owns what. */
module Records {
  import opened Prelude

  type Uid = nat
  type LinkId = nat
  type Token = nat
  type Bid = nat
  type Time = int

  datatype Role = RootAdmin | Instructor | TeachingAssistant

  datatype Status = Active | Deactivated | Deleted

  datatype User = User(email: string, role: Role, status: Status, reprovisionedAt: Option<Time>) {
    /** Work attributed to this row belongs to its present holder only since the row was re-provisioned. */
    predicate Owns(id: Uid, actor: Uid, createdAt: Time) {
      actor == id && (reprovisionedAt.None? || createdAt >= reprovisionedAt.value)
    }
  }

  /** A supervision. Ended, never removed. */
  datatype Link = Link(ta: Uid, instructor: Uid, endedAt: Option<Time>, endedBy: Option<Uid>)

  datatype Session = Session(user: Uid, lastActive: Time, absoluteExpires: Time, deletedAt: Option<Time>)

  datatype StatusEvent = StatusEvent(user: Uid, actor: Uid, from: Status, to: Status)

  /** Everything the account operations read and write; `issued` are the tokens ever handed out. */
  datatype AccountData = AccountData(
    users: map<Uid, User>,
    links: map<LinkId, Link>,
    sessions: map<Token, Session>,
    issued: set<Token>,
    events: seq<StatusEvent>)

  datatype Batch = Batch(actor: Uid, rowTotal: nat, createdAt: Time, cancelledAt: Option<Time>)

  /** One queued row of a batch. */
  datatype Message = Message(batch: Bid, row: nat, actor: Uid)

  /** A stored judgement; `row` tells which row of its batch it answers. */
  datatype Check = Check(actor: Uid, batch: Option<Bid>, row: nat, createdAt: Time)

  datatype Failure = Failure(batch: Bid, row: nat)

  /**
   * Batches and where their rows are: waiting to be sent by the request that created them,
   * in the queue, in the dead-letter queue, or taken out of the queue by a purge.
   */
  datatype Ledger = Ledger(
    batches: map<Bid, Batch>,
    checks: seq<Check>,
    failures: seq<Failure>,
    unsent: set<Message>,
    queue: set<Message>,
    dead: set<Message>,
    purged: set<Message>)
}
