/**
 What the machine is told to do about people's sessions, in order, and what that makes of them.
 */
module Host {
  type User = string

  datatype Act =
    | Present(user: User, ok: bool)     // a lock is asked for in front of `user`: was one shown?
    | Freeze(user: User, inFront: bool) // `user` is frozen, who was the one on screen or not
    | Refreeze(user: User)              // what started since is frozen too
    | Thaw(user: User)
    | Release(user: User)               // the lock for `user` comes down, back to their session
    | HandOver(user: User)              // the lock for `user` makes way for the login screen
    | Gone(user: User)                  // not by us: their session ended, or something thawed them
    | Reboot

  function Apply(kernel: set<User>, a: Act): set<User> {
    match a
    case Freeze(u, _) => kernel + {u}
    case Refreeze(u) => kernel + {u}
    case Thaw(u) => kernel - {u}
    case Gone(u) => kernel - {u}
    case Reboot => {}
    case _ => kernel
  }

  /** Whom the kernel has frozen after all that. */
  function Kernel(log: seq<Act>): set<User> {
    if log == [] then {} else Apply(Kernel(log[..|log| - 1]), log[|log| - 1])
  }

  /** Whose freeze something else undid, until they are frozen or thawed again. */
  function Undone(lost: set<User>, a: Act): set<User> {
    match a
    case Gone(u) => lost + {u}
    case Freeze(u, _) => lost - {u}
    case Refreeze(u) => lost - {u}
    case Thaw(u) => lost - {u}
    case Reboot => {}
    case _ => lost
  }

  function Lost(log: seq<Act>): set<User> {
    if log == [] then {} else Undone(Lost(log[..|log| - 1]), log[|log| - 1])
  }

  lemma KernelOfLast(log: seq<Act>, a: Act)
    ensures Kernel(log + [a]) == Apply(Kernel(log), a) && Lost(log + [a]) == Undone(Lost(log), a)
  {
    assert (log + [a])[..|log|] == log;
  }

  /** Whoever was on screen was frozen only with a lock just shown in front of them. */
  ghost predicate LockFirst(log: seq<Act>) {
    forall i :: 0 <= i < |log| && log[i].Freeze? && log[i].inFront ==>
      i > 0 && log[i - 1] == Present(log[i].user, true)
  }

  /** The lock came down only for someone already thawed. */
  ghost predicate ThawFirst(log: seq<Act>) {
    forall i :: 0 <= i < |log| && log[i].Release? ==> log[i].user !in Kernel(log[..i])
  }
}
