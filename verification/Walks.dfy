/**
 A tick, a pause and a VT change act on one person at a time: what they do for one leaves the others
 alone.
 */
module Walks {
  import opened Options
  import opened Host
  import opened Enforcement

  /** `s` and `t` hold the same for `u`: stopped or not, and the countdown. */
  predicate SameFor(s: State, t: State, u: User) {
    && (u in s.frozen <==> u in t.frozen)
    && (u in s.pending <==> u in t.pending)
    && (u in s.pending ==> s.pending[u] == t.pending[u])
  }

  lemma StopLeavesOthers(s: State, w: World, v: User, u: User)
    ensures StopUser(s, w, v).orders == s.orders && StopUser(s, w, v).pending == s.pending
    ensures v != u ==> SameFor(s, StopUser(s, w, v), u)
    ensures s.frozen <= StopUser(s, w, v).frozen
    ensures v in StopUser(s, w, v).frozen <==>
      v in s.frozen || (v in w.loggedIn && (v in w.front || s.subject == Some(v) ==> v in w.shows))
  {
  }

  lemma LockoutLeavesOthers(s: State, w: World, v: User, u: User)
    ensures Lockout(s, w, v).orders == s.orders && s.frozen <= Lockout(s, w, v).frozen
    ensures v != u ==> SameFor(s, Lockout(s, w, v), u)
  {
    StopLeavesOthers(s, w, v, u);
    StopLeavesOthers(Disarmed(s, v), w, v, u);
  }

  lemma TickLeavesOthers(s: State, w: World, v: User, u: User)
    ensures TickUser(s, w, v).orders == s.orders
    ensures v != u ==> SameFor(s, TickUser(s, w, v), u)
    ensures Effective(s, w.now) ==> s.frozen <= TickUser(s, w, v).frozen
  {
    var armed := if Stops(s, w, v) then Refrozen(s, w, v) else Disarmed(Refrozen(s, w, v), v);
    StopLeavesOthers(armed, w, v, u);
    LockoutLeavesOthers(armed, w, v, u);
  }

  ghost predicate Distinct(users: seq<User>) {
    forall i, j :: 0 <= i < j < |users| ==> users[i] != users[j]
  }

  /** The state in which the tick's walk comes to `u`. */
  function WhenReached(s: State, w: World, users: seq<User>, u: User): State {
    if users == [] then s
    else if users[|users| - 1] == u then TickAll(s, w, users[..|users| - 1])
    else WhenReached(s, w, users[..|users| - 1], u)
  }

  /** What a tick makes of `u` is what it does when it comes to them, who are then as they were before. */
  lemma {:induction false} TickAllAt(s: State, w: World, users: seq<User>, u: User)
    requires Distinct(users)
    ensures var x := WhenReached(s, w, users, u);
      && TickAll(s, w, users).orders == s.orders == x.orders && SameFor(s, x, u)
      && (u in users && u in s.orders.policies ==> SameFor(TickUser(x, w, u), TickAll(s, w, users), u))
      && (u !in users || u !in s.orders.policies ==> SameFor(s, TickAll(s, w, users), u))
    ensures Effective(s, w.now) ==> s.frozen <= TickAll(s, w, users).frozen
  {
    if users == [] {
    } else {
      var rest, v := users[..|users| - 1], users[|users| - 1];
      TickAllAt(s, w, rest, u);
      TickLeavesOthers(TickAll(s, w, rest), w, v, u);
      if v == u {
        assert u !in rest;
      }
    }
  }

  lemma {:induction false} StopAllLeaves(s: State, w: World, users: seq<User>)
    ensures StopAll(s, w, users).orders == s.orders && StopAll(s, w, users).pending == s.pending
    ensures s.frozen <= StopAll(s, w, users).frozen
  {
    if users == [] {
    } else {
      var before, u := StopAll(s, w, users[..|users| - 1]), users[|users| - 1];
      StopAllLeaves(s, w, users[..|users| - 1]);
      StopLeavesOthers(before, w, u, u);
    }
  }

  lemma SeatLeavesOthers(s: State, w: World, u: User)
    ensures SeatChanged(s, w).orders == s.orders && s.frozen <= SeatChanged(s, w).frozen
    ensures u in s.frozen || u in s.pending || w.onScreen != Some(u) ==> SameFor(s, SeatChanged(s, w), u)
  {
    if w.onScreen.Some? {
      StopLeavesOthers(s, w, w.onScreen.value, u);
      LockoutLeavesOthers(s, w, w.onScreen.value, u);
    }
  }
}
