/**
 * Signing out everywhere is documented to act on live sessions only. It looks at revocation
 * alone, so a token past its limits still ends the sessions of its user.
 */
module SignOut {
  import opened Prelude
  import opened Records
  import opened Accounts
  import opened System
  import opened SystemProofs
  import Sessions

  predicate Works(s: AccountData, t: Token, now: Time) {
    Sessions.Authenticate(s, t, false, now).Alive?
  }

  /** After signing out with a token, exactly the working sessions of other users still work. */
  lemma SignOutEndsTheUsersSessions(w: World, t: Token, now: Time, x: Token)
    requires WorldSound(w) && Enabled(w, LogOut(t)) && w.now < now
    ensures Works(Apply(w, LogOut(t), now).acc, x, now)
            <==> Works(w.acc, x, now) && w.acc.sessions[x].user != w.acc.sessions[t].user
  {
    assert LiveSession(w.acc, t);
  }

  predicate PastALimit(x: Session, now: Time) {
    x.absoluteExpires <= now || x.lastActive + Sessions.IDLE_TTL <= now
  }

  /** Signing out with a token that no longer works ends a session that does. */
  ghost predicate StaleTokenEndsSession(w: World, t: Token, now: Time) {
    && Enabled(w, LogOut(t)) && !Works(w.acc, t, now)
    && exists x :: Works(w.acc, x, now) && !Works(Apply(w, LogOut(t), now).acc, x, now)
  }

  /** An unrevoked session of the same user, within both limits. */
  ghost predicate HasFreshSibling(w: World, t: Token, now: Time) {
    && t in w.acc.sessions
    && exists x :: x != t && LiveSession(w.acc, x) && w.acc.sessions[x].user == w.acc.sessions[t].user
                   && !PastALimit(w.acc.sessions[x], now)
  }

  /** The promise is broken exactly by a token past a limit whose user has another session within both. */
  lemma StaleSignOutExactly(w: World, t: Token, now: Time)
    requires WorldSound(w) && Enabled(w, LogOut(t)) && w.now < now
    ensures StaleTokenEndsSession(w, t, now) <==> PastALimit(w.acc.sessions[t], now) && HasFreshSibling(w, t, now)
  {
    assert LiveSession(w.acc, t);
    if StaleTokenEndsSession(w, t, now) {
      var x :| Works(w.acc, x, now) && !Works(Apply(w, LogOut(t), now).acc, x, now);
      SignOutEndsTheUsersSessions(w, t, now, x);
      assert LiveSession(w.acc, x);
    }
    if PastALimit(w.acc.sessions[t], now) && HasFreshSibling(w, t, now) {
      var x :| x != t && LiveSession(w.acc, x) && w.acc.sessions[x].user == w.acc.sessions[t].user
               && !PastALimit(w.acc.sessions[x], now);
      SignOutEndsTheUsersSessions(w, t, now, x);
      assert Works(w.acc, x, now) && !Works(Apply(w, LogOut(t), now).acc, x, now);
    }
  }

  // ---- a run that ends so

  /** The instructor's first session, and a second one half an hour and more later. */
  function Twice(t: Time, sessions: map<Token, Session>): World {
    FirstWorld().(now := t, acc := TwoUsers().(sessions := sessions, issued := sessions.Keys))
  }

  const Old: Session := Session(1, 1, 1 + ABSOLUTE_TTL, None)
  const New: Session := Session(1, 2000, 2000 + ABSOLUTE_TTL, None)

  lemma SignedInTwice()
    ensures Enabled(FirstWorld(), LogIn(1, 7)) && Apply(FirstWorld(), LogIn(1, 7), 1) == Twice(1, map[7 := Old])
    ensures Enabled(Twice(1, map[7 := Old]), LogIn(1, 8))
    ensures Apply(Twice(1, map[7 := Old]), LogIn(1, 8), 2000) == Twice(2000, map[7 := Old, 8 := New])
  {
    assert (map[7 := Old]).Keys == {7} && (map[7 := Old, 8 := New]).Keys == {7, 8};
    assert SignIn(TwoUsers(), 1, 7, 1).sessions == map[7 := Old];
    assert SignIn(Twice(1, map[7 := Old]).acc, 1, 8, 2000).sessions == map[7 := Old, 8 := New];
    assert {7} + {8} == {7, 8};
  }

  function SignedIn(): World {
    Twice(2000, map[7 := Old, 8 := New])
  }

  lemma SignedInIsReached() returns (steps: Steps)
    ensures Start(FirstWorld()) && Run(FirstWorld(), steps, SignedIn()) && WorldSound(SignedIn())
  {
    SignedInTwice();
    RunExtend(FirstWorld(), [], FirstWorld(), LogIn(1, 7), 1);
    steps := [] + [(LogIn(1, 7), 1)];
    RunExtend(FirstWorld(), steps, Twice(1, map[7 := Old]), LogIn(1, 8), 2000);
    steps := steps + [(LogIn(1, 8), 2000)];
    StartIsSound(FirstWorld());
    RunIsSound(FirstWorld(), steps, SignedIn());
  }

  /** From a fresh start: the first token has gone idle, and signing out with it ends the second session. */
  lemma StaleTokenSignsOut() returns (steps: Steps, w: World)
    ensures Start(FirstWorld()) && Run(FirstWorld(), steps, w)
    ensures Enabled(w, LogOut(7)) && !Works(w.acc, 7, 2001) && Works(w.acc, 8, 2001)
    ensures !Works(Apply(w, LogOut(7), 2001).acc, 8, 2001)
  {
    w := SignedIn();
    steps := SignedInIsReached();
    SignOutEndsTheUsersSessions(w, 7, 2001, 8);
  }
}
