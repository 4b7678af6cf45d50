/**
 * How long a session lives: what one request sees and leaves behind, and what follows for
 * every sequence of requests.
 */
module Sessions {
  import opened Prelude
  import opened Records

  const IDLE_TTL: int := 30 * 60
  const ACTIVITY_RESOLUTION: int := 60
  const SAFE_GAP: int := 29 * 60

  datatype Outcome =
    | Unknown
    | AccountNotActive
    | Revoked
    | Ended
    | Expired
    | Alive(expires: Time, idleExpires: Time)

  /** What a stored session answers to a request, for an active account. */
  function Answer(x: Session, touch: bool, now: Time): Outcome {
    if x.deletedAt.Some? then Revoked
    else if x.absoluteExpires <= now then Ended
    else if x.lastActive + IDLE_TTL <= now then Expired
    else
      var idle := (if touch && now - x.lastActive >= ACTIVITY_RESOLUTION then now else x.lastActive) + IDLE_TTL;
      Alive(if x.absoluteExpires < idle then x.absoluteExpires else idle, idle)
  }

  /** The stored session afterwards: only a successful touch a minute after the last moves it. */
  function After(x: Session, touch: bool, now: Time): Session {
    if Answer(x, touch, now).Alive? && touch && now - x.lastActive >= ACTIVITY_RESOLUTION
    then x.(lastActive := now) else x
  }

  function Authenticate(s: AccountData, t: Token, touch: bool, now: Time): Outcome {
    if t !in s.sessions || s.sessions[t].user !in s.users then Unknown
    else if s.users[s.sessions[t].user].status != Active then AccountNotActive
    else Answer(s.sessions[t], touch, now)
  }

  function Visit(s: AccountData, t: Token, touch: bool, now: Time): AccountData {
    if Authenticate(s, t, touch, now).Alive? then s.(sessions := s.sessions[t := After(s.sessions[t], touch, now)])
    else s
  }

  // ---- sequences of requests

  datatype Visitor = Visitor(at: Time, touch: bool)

  function Replay(x: Session, visits: seq<Visitor>): Session {
    if visits == [] then x
    else After(Replay(x, visits[..|visits| - 1]), visits[|visits| - 1].touch, visits[|visits| - 1].at)
  }

  ghost predicate InOrder(start: Time, visits: seq<Visitor>) {
    && (forall i :: 0 <= i < |visits| ==> start <= visits[i].at)
    && forall i, j :: 0 <= i < j < |visits| ==> visits[i].at <= visits[j].at
  }

  function Touches(visits: seq<Visitor>): seq<Visitor> {
    if visits == [] then []
    else Touches(visits[..|visits| - 1])
         + if visits[|visits| - 1].touch then [visits[|visits| - 1]] else []
  }

  /** Asking without touching never changes what any later request sees. */
  lemma {:induction false} ProbesLeaveNoTrace(x: Session, visits: seq<Visitor>)
    ensures Replay(x, visits) == Replay(x, Touches(visits))
  {
    if visits != [] {
      var front, last := visits[..|visits| - 1], visits[|visits| - 1];
      ProbesLeaveNoTrace(x, front);
      if last.touch {
        var kept := Touches(front) + [last];
        assert Touches(visits) == kept && kept[..|kept| - 1] == Touches(front);
      } else {
        assert Touches(visits) == Touches(front);
      }
    }
  }

  /** The cap and a revocation are never moved by requests, and activity never goes back. */
  lemma {:induction false} ReplayKeeps(x: Session, visits: seq<Visitor>)
    ensures Replay(x, visits).absoluteExpires == x.absoluteExpires
    ensures Replay(x, visits).deletedAt == x.deletedAt && Replay(x, visits).user == x.user
    ensures Replay(x, visits).lastActive >= x.lastActive
  {
    if visits != [] {
      ReplayKeeps(x, visits[..|visits| - 1]);
    }
  }

  /** After a successful touch the stored activity lags by less than a minute. */
  lemma TouchIsRecent(x: Session, now: Time)
    requires x.lastActive <= now && Answer(x, true, now).Alive?
    ensures now - ACTIVITY_RESOLUTION < After(x, true, now).lastActive <= now
  {
  }

  /** Each visit comes at most 29 minutes after the one before, the first after the sign-in. */
  ghost predicate Frequent(start: Time, visits: seq<Visitor>) {
    && (visits != [] ==> visits[0].at <= start + SAFE_GAP)
    && forall i, j :: 0 <= i < |visits| && j == i + 1 < |visits| ==> visits[j].at <= visits[i].at + SAFE_GAP
  }

  /** Touching at least every 29 minutes keeps a session alive until its cap. */
  lemma {:induction false} FrequentTouchesKeepAlive(x: Session, visits: seq<Visitor>)
    requires x.deletedAt.None? && InOrder(x.lastActive, visits) && Frequent(x.lastActive, visits)
    requires forall i :: 0 <= i < |visits| ==> visits[i].touch && visits[i].at < x.absoluteExpires
    ensures forall i :: 0 <= i < |visits| ==> Answer(Replay(x, visits[..i]), true, visits[i].at).Alive?
    ensures visits != [] ==>
      visits[|visits| - 1].at - ACTIVITY_RESOLUTION < Replay(x, visits).lastActive <= visits[|visits| - 1].at
  {
    if visits != [] {
      var front, last := visits[..|visits| - 1], visits[|visits| - 1];
      FrequentTouchesKeepAlive(x, front);
      ReplayKeeps(x, front);
      forall i | 0 <= i < |visits|
        ensures Answer(Replay(x, visits[..i]), true, visits[i].at).Alive?
      {
        if i < |front| {
          assert front[..i] == visits[..i];
          assert Answer(Replay(x, front[..i]), true, front[i].at).Alive?;
        }
      }
      assert front != [] ==> last.at <= front[|front| - 1].at + SAFE_GAP;
      TouchIsRecent(Replay(x, front), last.at);
    }
  }

  /** Once a request fails for age, every later one fails: the session never comes back. */
  lemma {:induction false} ExpiredForGood(x: Session, visits: seq<Visitor>, dead: Time, now: Time, touch: bool)
    requires InOrder(dead, visits) && dead <= now
    requires x.absoluteExpires <= dead || x.lastActive + IDLE_TTL <= dead || x.deletedAt.Some?
    ensures Replay(x, visits) == x && !Answer(x, touch, now).Alive?
  {
    if visits != [] {
      ExpiredForGood(x, visits[..|visits| - 1], dead, visits[|visits| - 1].at, visits[|visits| - 1].touch);
    }
  }

  /** Half an hour without a touch kills the session, whatever is asked afterwards. */
  lemma HalfHourGapKills(x: Session, last: Time, visits: seq<Visitor>, now: Time, touch: bool)
    requires x.lastActive <= last && Answer(x, true, last).Alive?
    requires InOrder(last + IDLE_TTL, visits) && last + IDLE_TTL <= now
    ensures !Answer(Replay(After(x, true, last), visits), touch, now).Alive?
  {
    ExpiredForGood(After(x, true, last), visits, last + IDLE_TTL, now, touch);
  }

  /** Nothing succeeds at or past the cap, however active the session was. */
  lemma NothingPastTheCap(x: Session, visits: seq<Visitor>, now: Time, touch: bool)
    requires x.absoluteExpires <= now
    ensures !Answer(Replay(x, visits), touch, now).Alive?
  {
    ReplayKeeps(x, visits);
  }
}
