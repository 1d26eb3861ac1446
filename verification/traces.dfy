/** Whole runs of the server: any interleaving of HTTP requests and socket
    events, starting from the empty registry a freshly started process has. */
module Traces {
  import opened Options
  import opened Registry
  import opened Relay

  /** One request or event, with the uuid or clock reading it would consume. */
  datatype Action =
    | HttpRegister(username: Option<string>, freshId: UserId)
    | HttpListUsers
    | SocketEvent(conn: ConnId, event: InEvent, now: nat)

  /** The state at process start: `new Map()` and no sockets. */
  function Init(): State
  {
    State([], map[])
  }

  /** The state after one action, and the name it registered, if it registered one. */
  function Apply(s: State, a: Action): (r: (State, Option<Username>))
    ensures Names(r.0.users) == Names(s.users) + (if r.1.Some? then [r.1.value] else [])
    ensures r.1.Some? ==> a.HttpRegister? && r.1.value != "" && !Has(s.users, r.1.value)
    ensures a.HttpListUsers? ==> r.0 == s
  {
    match a
    case HttpRegister(username, id) =>
      var reg := Register(s.users, username, id);
      (State(reg.users, s.bindings), if reg.reply.Created? then Some(reg.reply.username) else None)
    case HttpListUsers => (s, None)
    case SocketEvent(conn, ev, now) =>
      StepChangesOnlySubject(s, conn, ev, now);
      var s' := Step(s, conn, ev, now).state;
      assert Names(s'.users) == Names(s.users);
      (s', None)
  }

  /** The final state of a run and the names registered along it, in order. */
  datatype Run = Run(state: State, registered: seq<Username>)

  function RunFrom(s: State, actions: seq<Action>): (r: Run)
    decreases |actions|
  {
    if |actions| == 0 then Run(s, [])
    else
      var first := Apply(s, actions[0]);
      var rest := RunFrom(first.0, actions[1..]);
      Run(rest.state, (if first.1.Some? then [first.1.value] else []) + rest.registered)
  }

  lemma ApplyPreservesValid(s: State, a: Action)
    requires ValidState(s)
    ensures ValidState(Apply(s, a).0)
  {
    match a
    case HttpRegister(username, id) =>
      RegisterPreservesValid(s.users, username, id);
      var users' := Register(s.users, username, id).users;
      forall c | c in s.bindings
        ensures Has(users', s.bindings[c])
      {
        var i :| 0 <= i < |s.users| && s.users[i].username == s.bindings[c];
        assert users'[i] == s.users[i];
      }
    case HttpListUsers =>
    case SocketEvent(conn, ev, now) =>
      StepPreservesValid(s, conn, ev, now);
  }

  /** Every reachable state keeps the registry invariants: unique non-empty
      names, `online` exactly when a socket id is stored, and sockets bound
      only to registered names. */
  lemma {:induction false} RunPreservesValid(s: State, actions: seq<Action>)
    requires ValidState(s)
    ensures ValidState(RunFrom(s, actions).state)
    decreases |actions|
  {
    if |actions| > 0 {
      ApplyPreservesValid(s, actions[0]);
      RunPreservesValid(Apply(s, actions[0]).0, actions[1..]);
    }
  }

  /** Records are never removed or reordered: the names at the end of a run are
      the names at its start followed by those its successful registrations
      added. */
  lemma {:induction false} RunNamesAreRegistrations(s: State, actions: seq<Action>)
    ensures Names(RunFrom(s, actions).state.users) == Names(s.users) + RunFrom(s, actions).registered
    decreases |actions|
  {
    if |actions| > 0 {
      var first := Apply(s, actions[0]);
      var rest := RunFrom(first.0, actions[1..]);
      var added := if first.1.Some? then [first.1.value] else [];
      assert RunFrom(s, actions) == Run(rest.state, added + rest.registered);
      RunNamesAreRegistrations(first.0, actions[1..]);
      calc {
        Names(rest.state.users);
        Names(first.0.users) + rest.registered;
        (Names(s.users) + added) + rest.registered;
        Names(s.users) + (added + rest.registered);
      }
    }
  }

  /** From a fresh start no two successful registrations in any run share a
      username, and they are exactly the records the registry holds. */
  lemma RegistrationsAreDistinct(actions: seq<Action>)
    ensures var run := RunFrom(Init(), actions);
            && Names(run.state.users) == run.registered
            && forall i, j :: 0 <= i < j < |run.registered| ==> run.registered[i] != run.registered[j]
  {
    var run := RunFrom(Init(), actions);
    assert Names(run.state.users) == run.registered by {
      RunNamesAreRegistrations(Init(), actions);
      assert Names(Init().users) + run.registered == run.registered;
    }
    assert Unique(run.state.users) by {
      RunPreservesValid(Init(), actions);
    }
    UniqueNamesAreDistinct(run.state.users);
  }
}
