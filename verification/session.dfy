/**
 * The `user` slice of the Redux store: who is signed in. The reducers overwrite
 * both fields, so the slice is a two-state machine, anonymous or authenticated.
 */
module Session {
  import opened Wrappers

  /** `currentUser` is the opaque user payload the server returned, or `null`. */
  datatype UserState<P> = UserState(currentUser: Option<P>, isAuthenticated: bool)

  /** The two actions the slice exports. `SetUser` carries whatever payload it is
      dispatched with, which may itself be `null`. */
  datatype UserAction<P> = SetUser(payload: Option<P>) | LogOut

  /** The slice's initial state: nobody signed in. */
  function Initial<P>(): (s: UserState<P>)
    ensures s.currentUser.None? && !s.isAuthenticated
  {
    UserState(None, false)
  }

  /** The slice's reducer. */
  function Reduce<P>(s: UserState<P>, a: UserAction<P>): (r: UserState<P>)
    ensures a.SetUser? ==> r.isAuthenticated && r.currentUser == a.payload
    ensures a.LogOut? ==> r == Initial()
  {
    match a
    case SetUser(p) => UserState(p, true)
    case LogOut => UserState(None, false)
  }

  /** The state after dispatching `acts` in order, starting from `s`. */
  function Run<P>(s: UserState<P>, acts: seq<UserAction<P>>): UserState<P>
    decreases |acts|
  {
    if acts == [] then s else Run(Reduce(s, acts[0]), acts[1..])
  }

  /** Signing out twice is the same as signing out once. */
  lemma LogOutIdempotent<P>(s: UserState<P>)
    ensures Reduce(Reduce(s, LogOut), LogOut) == Reduce(s, LogOut)
    ensures Reduce(Reduce(s, SetUser(None)), LogOut) == Initial()
  {
  }

  /** `setUser` followed by `logOut` returns to the initial state from any state. */
  lemma SetUserThenLogOut<P>(s: UserState<P>, p: Option<P>)
    ensures Run(s, [SetUser(p), LogOut]) == Initial()
  {
    var acts: seq<UserAction<P>> := [SetUser(p), LogOut];
    var tail: seq<UserAction<P>> := [LogOut];
    assert acts[1..] == tail;
    assert tail[1..] == [];
    calc {
      Run(s, acts);
      Run(Reduce(s, SetUser(p)), tail);
      Run(Initial(), []);
    }
  }

  /** The slice has no memory: after any non-empty history only the last action matters. */
  lemma {:induction false} RunIsLastAction<P>(s: UserState<P>, acts: seq<UserAction<P>>)
    requires acts != []
    ensures Run(s, acts) == Reduce(s, acts[|acts| - 1])
    decreases |acts|
  {
    if |acts| > 1 {
      RunIsLastAction(Reduce(s, acts[0]), acts[1..]);
      assert acts[1..][|acts[1..]| - 1] == acts[|acts| - 1];
    }
  }

  /** Every state reachable from the initial one is either the initial state
      (anonymous) or an authenticated state: there is no third state. */
  lemma {:induction false} TwoStates<P>(acts: seq<UserAction<P>>)
    ensures var s := Run(Initial(), acts);
      s == Initial() || s.isAuthenticated
    ensures var s := Run(Initial(), acts);
      s.isAuthenticated <==> acts != [] && acts[|acts| - 1].SetUser?
  {
    if acts != [] {
      RunIsLastAction(Initial(), acts);
    }
  }
}
