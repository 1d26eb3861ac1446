/** The Socket.IO side of the relay server: the per-connection `login`,
    call-signalling, chat, file-sharing and `disconnect` handlers, modelled as
    one step function from the current state, the id of the socket an event
    arrived on and the event, to the next state and the events emitted.

    Delivery is abstract: an emitted event is addressed either to one socket
    id (`io.to(id)`, or `socket.to(id)` when `id` is not the sender's own) or
    to every connected socket except the sender (`socket.broadcast`), and
    `socket.emit` to the sender is an address to the sender's own id. */
module Relay {
  import opened Options
  import opened Registry

  /** An opaque JSON payload relayed untouched: an SDP offer or answer, an ICE
      candidate, a chat message, a caller's self-reported name or the file
      info an upload returned. */
  type Blob = string

  /** The registry, and the `username` property `login` sets on each socket. */
  datatype State = State(users: Users, bindings: map<ConnId, Username>)

  datatype InEvent =
    | Login(username: Username)
    | CallUser(username: Username, offer: Blob, callerUsername: Blob)
    | AnswerCall(answer: Blob, callerId: ConnId)
    | IceCandidate(candidate: Blob, targetId: ConnId)
    | HangUp(targetId: ConnId)
    | SendMessage(targetUsername: Username, message: Blob, messageType: Option<string>)
    | SendFile(targetUsername: Username, fileInfo: Blob)
    | Disconnect

  datatype OutEvent =
    | UserOnline(username: Username)                 // 'user-online' {username, online: true}
    | UsersList(list: seq<Presence>)                 // 'users-list'
    | IncomingCall(offer: Blob, callerUsername: Blob, callerId: ConnId)
    | CallAnswered(answer: Blob)                     // 'call-answered' {answer}
    | IceCandidateRelayed(candidate: Blob)           // 'ice-candidate' {candidate}
    | CallEnded                                      // 'call-ended'
    | ReceiveMessage(from: Option<Username>, message: Blob, messageType: string, timestamp: nat)
    | ReceiveFile(from: Option<Username>, fileInfo: Blob, timestamp: nat)
    | UserOffline(username: Username)                // 'user-offline' {username, online: false}

  datatype Recipient = ToConn(conn: ConnId) | AllExcept(sender: ConnId)

  datatype Delivery = Delivery(to: Recipient, event: OutEvent)

  datatype StepResult = StepResult(state: State, outbox: seq<Delivery>)

  /** The `type` of a chat message whose sender gave none. */
  const DefaultMessageType: string := "text"

  /** Every bound socket names a registered user, on top of the registry invariants. */
  predicate ValidState(s: State)
  {
    && Valid(s.users)
    && forall c :: c in s.bindings ==> Has(s.users, s.bindings[c])
  }

  /** `socket.username`: absent until the socket logs in. It is read as is for
      the `from` field of a message or file. */
  function Sender(s: State, conn: ConnId): Option<Username>
  {
    if conn in s.bindings then Some(s.bindings[conn]) else None
  }

  /** `socket.username` when it is truthy, as the disconnect handler tests it:
      the empty string is falsy. */
  function Bound(s: State, conn: ConnId): Option<Username>
  {
    match Sender(s, conn)
    case Some(name) => if name != "" then Some(name) else None
    case None => None
  }

  /** `login`: a registered name is marked online on this socket, the socket is
      bound to it, the others hear `user-online` and the caller gets the list;
      an unknown name is ignored. */
  function HandleLogin(s: State, conn: ConnId, name: Username): (r: StepResult)
    ensures !Has(s.users, name) ==> r == StepResult(s, [])
    ensures Has(s.users, name) ==>
      && Lookup(r.state.users, name) == Some(Lookup(s.users, name).value.(online := true, socketId := Some(conn)))
      && (forall other {:trigger Lookup(r.state.users, other)} :: other != name ==> Lookup(r.state.users, other) == Lookup(s.users, other))
      && |r.state.users| == |s.users|
      && r.state.bindings == s.bindings[conn := name]
      && r.outbox == [Delivery(AllExcept(conn), UserOnline(name)),
                      Delivery(ToConn(conn), UsersList(ListUsers(r.state.users)))]
  {
    if Has(s.users, name) then
      var u := Lookup(s.users, name).value;
      var users' := Put(s.users, u.(online := true, socketId := Some(conn)));
      StepResult(State(users', s.bindings[conn := name]),
                 [Delivery(AllExcept(conn), UserOnline(name)),
                  Delivery(ToConn(conn), UsersList(ListUsers(users')))])
    else
      StepResult(s, [])
  }

  /** `call-user`, `send-message`, `send-file`: the event goes to the stored
      socket of the named user when that user exists and is online, and is
      dropped otherwise; the state is never touched. */
  function Route(s: State, target: Username, ev: OutEvent): (r: StepResult)
    ensures r.state == s
    ensures |r.outbox| <= 1
    ensures r.outbox != [] <==>
              exists i: nat :: FirstMatch(s.users, target, i) && s.users[i].online && s.users[i].socketId.Some?
    ensures forall d :: d in r.outbox ==>
              && d.event == ev
              && d.to.ToConn?
              && exists i: nat :: FirstMatch(s.users, target, i) && s.users[i].socketId == Some(d.to.conn)
  {
    match Lookup(s.users, target)
    case Some(u) =>
      if u.online then
        match u.socketId
        case Some(id) => StepResult(s, [Delivery(ToConn(id), ev)])
        case None => StepResult(s, [])
      else StepResult(s, [])
    case None => StepResult(s, [])
  }

  /** `answer-call`, `ice-candidate`, `hang-up`: `socket.to(id)` reaches the
      socket `id` but never the sender itself, and consults no state. */
  function Forward(s: State, conn: ConnId, target: ConnId, ev: OutEvent): (r: StepResult)
    ensures r.state == s
    ensures target == conn <==> r.outbox == []
    ensures target != conn ==> r.outbox == [Delivery(ToConn(target), ev)]
  {
    if target == conn then StepResult(s, []) else StepResult(s, [Delivery(ToConn(target), ev)])
  }

  /** `disconnect`: the socket is gone; when it had logged in as a registered
      user, that user is marked offline (whatever socket the record names now)
      and the others hear `user-offline`. */
  function HandleDisconnect(s: State, conn: ConnId): (r: StepResult)
    ensures r.state.bindings == s.bindings - {conn}
    ensures |r.state.users| == |s.users|
    ensures Bound(s, conn).None? ==> r.state.users == s.users && r.outbox == []
    ensures Bound(s, conn).Some? ==>
      var name := Bound(s, conn).value;
      match Lookup(s.users, name)
      case None => r.state.users == s.users && r.outbox == []
      case Some(u) =>
        && Lookup(r.state.users, name) == Some(u.(online := false, socketId := None))
        && (forall other {:trigger Lookup(r.state.users, other)} :: other != name ==> Lookup(r.state.users, other) == Lookup(s.users, other))
        && r.outbox == [Delivery(AllExcept(conn), UserOffline(name))]
  {
    var bindings' := s.bindings - {conn};
    match Bound(s, conn)
    case None => StepResult(State(s.users, bindings'), [])
    case Some(name) =>
      match Lookup(s.users, name)
      case None => StepResult(State(s.users, bindings'), [])
      case Some(u) =>
        var users' := Put(s.users, u.(online := false, socketId := None));
        StepResult(State(users', bindings'), [Delivery(AllExcept(conn), UserOffline(name))])
  }

  /** One inbound event on socket `conn`; `now` is what `Date.now()` returns. */
  function Step(s: State, conn: ConnId, ev: InEvent, now: nat): (r: StepResult)
    ensures ev.Login? || ev.Disconnect? || r.state == s
    ensures |r.state.users| == |s.users|
    ensures |r.outbox| <= 2
    ensures forall d :: d in r.outbox && d.to.AllExcept? ==> d.to.sender == conn
    ensures forall c :: c != conn && c in s.bindings ==> c in r.state.bindings && r.state.bindings[c] == s.bindings[c]
    ensures forall c :: c != conn && c in r.state.bindings ==> c in s.bindings
  {
    match ev
    case Login(name) => HandleLogin(s, conn, name)
    case CallUser(target, offer, callerUsername) =>
      Route(s, target, IncomingCall(offer, callerUsername, conn))
    case AnswerCall(answer, callerId) => Forward(s, conn, callerId, CallAnswered(answer))
    case IceCandidate(candidate, targetId) => Forward(s, conn, targetId, IceCandidateRelayed(candidate))
    case HangUp(targetId) => Forward(s, conn, targetId, CallEnded)
    case SendMessage(target, message, messageType) =>
      var t := if messageType.Some? then messageType.value else DefaultMessageType;
      Route(s, target, ReceiveMessage(Sender(s, conn), message, t, now))
    case SendFile(target, fileInfo) =>
      Route(s, target, ReceiveFile(Sender(s, conn), fileInfo, now))
    case Disconnect => HandleDisconnect(s, conn)
  }

  /** `Step` on a login is the login handler. */
  lemma StepLogin(s: State, conn: ConnId, name: Username, now: nat)
    ensures Step(s, conn, Login(name), now) == HandleLogin(s, conn, name)
  {
  }

  /** `Step` on a close is the disconnect handler. */
  lemma StepDisconnect(s: State, conn: ConnId, now: nat)
    ensures Step(s, conn, Disconnect, now) == HandleDisconnect(s, conn)
  {
  }

  /** The user whose record an event may change: the name a login claims, or
      the name a closing socket had logged in as. */
  function Subject(s: State, conn: ConnId, ev: InEvent): Option<Username>
  {
    match ev
    case Login(name) => Some(name)
    case Disconnect => Bound(s, conn)
    case _ => None
  }

  /** Every handler keeps the registry invariants and binds sockets only to registered names. */
  lemma StepPreservesValid(s: State, conn: ConnId, ev: InEvent, now: nat)
    requires ValidState(s)
    ensures ValidState(Step(s, conn, ev, now).state)
  {
    var r := Step(s, conn, ev, now);
    match ev
    case Login(name) =>
      if Has(s.users, name) {
        var u := Lookup(s.users, name).value;
        FoundRecordIsValid(s.users, name);
        PutPreservesValid(s.users, u.(online := true, socketId := Some(conn)));
        forall c | c in r.state.bindings
          ensures Has(r.state.users, r.state.bindings[c])
        {
          if c != conn {
            PutKeepsNames(s.users, u.(online := true, socketId := Some(conn)), s.bindings[c]);
          }
        }
      }
    case Disconnect =>
      if Bound(s, conn).Some? && Lookup(s.users, Bound(s, conn).value).Some? {
        var u := Lookup(s.users, Bound(s, conn).value).value;
        FoundRecordIsValid(s.users, Bound(s, conn).value);
        PutPreservesValid(s.users, u.(online := false, socketId := None));
        forall c | c in r.state.bindings
          ensures Has(r.state.users, r.state.bindings[c])
        {
          PutKeepsNames(s.users, u.(online := false, socketId := None), s.bindings[c]);
        }
      }
    case _ =>
  }

  /** A handler changes at most the record of its own subject, and even then
      keeps that record's id and username: records keep their identity and position. */
  lemma StepChangesOnlySubject(s: State, conn: ConnId, ev: InEvent, now: nat)
    ensures var r := Step(s, conn, ev, now);
            forall i :: 0 <= i < |s.users| ==>
              || r.state.users[i] == s.users[i]
              || (&& Subject(s, conn, ev) == Some(s.users[i].username)
                  && r.state.users[i].id == s.users[i].id
                  && r.state.users[i].username == s.users[i].username)
  {
  }

  /** The user an event routes to by name, for the three routed events. */
  function RoutedTarget(ev: InEvent): Option<Username>
  {
    match ev
    case CallUser(target, _, _) => Some(target)
    case SendMessage(target, _, _) => Some(target)
    case SendFile(target, _) => Some(target)
    case _ => None
  }

  /** Routing by name, stated over the records themselves rather than through
      a lookup: with unique names, the event goes to the socket of the one
      online record of that name, if there is one. */
  lemma RouteReachesOnlyTarget(s: State, target: Username, ev: OutEvent)
    requires Valid(s.users)
    ensures var r := Route(s, target, ev);
            && |r.outbox| <= 1
            && (r.outbox != [] <==>
                  exists i :: 0 <= i < |s.users| && s.users[i].username == target && s.users[i].online)
            && (forall d :: d in r.outbox ==>
                  && d == Delivery(d.to, ev)
                  && d.to.ToConn?
                  && exists i :: 0 <= i < |s.users| && s.users[i].username == target
                                                    && s.users[i].socketId == Some(d.to.conn))
  {
  }

  /** A routed event reaches exactly the socket stored for the target when the
      target is registered and online, and nobody otherwise; it carries the
      sender's socket id (`callerId`), its login name (`from`), the clock
      reading and, for a message, the type `'text'` when none was given. */
  lemma RoutedReachesOnlyTarget(s: State, conn: ConnId, ev: InEvent, now: nat)
    requires ValidState(s)
    requires RoutedTarget(ev).Some?
    ensures var r := Step(s, conn, ev, now);
            var target := RoutedTarget(ev).value;
            && r.state == s
            && |r.outbox| <= 1
            && (r.outbox != [] <==>
                  exists i :: 0 <= i < |s.users| && s.users[i].username == target && s.users[i].online)
            && (forall d :: d in r.outbox ==>
                  && d.to.ToConn?
                  && exists i :: 0 <= i < |s.users| && s.users[i].username == target
                                                    && s.users[i].socketId == Some(d.to.conn))
            && (ev.CallUser? ==>
                  forall d :: d in r.outbox ==> d.event == IncomingCall(ev.offer, ev.callerUsername, conn))
            && (ev.SendMessage? ==>
                  forall d :: d in r.outbox ==>
                    d.event == ReceiveMessage(Sender(s, conn), ev.message,
                                              if ev.messageType == None then "text" else ev.messageType.value, now))
            && (ev.SendFile? ==>
                  forall d :: d in r.outbox ==> d.event == ReceiveFile(Sender(s, conn), ev.fileInfo, now))
  {
  }

  /** The forwarding events neither read nor change the registry or the
      bindings: their effect is the same from every state. Each goes to the
      socket id the event names (`callerId` for an answer, `targetId`
      otherwise), unless that is the sender's own. */
  lemma ForwardIgnoresState(s: State, t: State, conn: ConnId, ev: InEvent, now: nat)
    requires ev.AnswerCall? || ev.IceCandidate? || ev.HangUp?
    ensures Step(s, conn, ev, now).state == s
    ensures Step(s, conn, ev, now).outbox == Step(t, conn, ev, now).outbox
    ensures ev.AnswerCall? ==>
              Step(s, conn, ev, now).outbox ==
                (if ev.callerId == conn then [] else [Delivery(ToConn(ev.callerId), CallAnswered(ev.answer))])
    ensures ev.IceCandidate? ==>
              Step(s, conn, ev, now).outbox ==
                (if ev.targetId == conn then [] else [Delivery(ToConn(ev.targetId), IceCandidateRelayed(ev.candidate))])
    ensures ev.HangUp? ==>
              Step(s, conn, ev, now).outbox ==
                (if ev.targetId == conn then [] else [Delivery(ToConn(ev.targetId), CallEnded)])
  {
  }

  /** Closing a socket that logged in always finds its user (in a valid state)
      and takes it offline with a `user-offline` broadcast. */
  lemma BoundDisconnectGoesOffline(s: State, conn: ConnId, now: nat)
    requires ValidState(s)
    requires conn in s.bindings
    ensures var r := Step(s, conn, Disconnect, now);
            var name := s.bindings[conn];
            && r.outbox == [Delivery(AllExcept(conn), UserOffline(name))]
            && Lookup(r.state.users, name).Some?
            && !Lookup(r.state.users, name).value.online
            && Lookup(r.state.users, name).value.socketId == None
            && conn !in r.state.bindings
  {
  }

  /** Closing a socket twice is harmless: the second close changes nothing and emits nothing. */
  lemma DisconnectIsIdempotent(s: State, conn: ConnId, now: nat)
    ensures var first := Step(s, conn, Disconnect, now);
            Step(first.state, conn, Disconnect, now) == StepResult(first.state, [])
  {
  }

  /** Logging in as an offline user and closing the socket restores the
      registry exactly; only the socket's binding is gone. */
  lemma LoginThenDisconnect(s: State, conn: ConnId, name: Username, now: nat)
    requires ValidState(s)
    requires Has(s.users, name)
    requires !Lookup(s.users, name).value.online
    ensures var s1 := Step(s, conn, Login(name), now);
            var s2 := Step(s1.state, conn, Disconnect, now);
            && s2.state.users == s.users
            && s2.state.bindings == s.bindings - {conn}
            && s2.outbox == [Delivery(AllExcept(conn), UserOffline(name))]
  {
    var u := Lookup(s.users, name).value;
    FoundRecordIsValid(s.users, name);
    var u1 := u.(online := true, socketId := Some(conn));
    PutPut(s.users, u1, u);
    PutFound(s.users, name);
  }

  /** As written, a later login of the same user on socket `b` is undone when
      the earlier socket `a` closes: the user is reported offline and its
      record holds no socket, while `b` is still bound to it. */
  lemma StaleDisconnectClearsNewerLogin(s: State, a: ConnId, b: ConnId, name: Username, now: nat)
    requires ValidState(s)
    requires Has(s.users, name)
    requires a != b
    ensures var s1 := Step(s, a, Login(name), now);
            var s2 := Step(s1.state, b, Login(name), now);
            var s3 := Step(s2.state, a, Disconnect, now);
            && Lookup(s2.state.users, name).value.socketId == Some(b)
            && b in s3.state.bindings && s3.state.bindings[b] == name
            && Lookup(s3.state.users, name) == Some(Lookup(s.users, name).value.(online := false, socketId := None))
            && s3.outbox == [Delivery(AllExcept(a), UserOffline(name))]
  {
    var u := Lookup(s.users, name).value;
    FoundRecordIsValid(s.users, name);
    var s1 := HandleLogin(s, a, name);
    StepLogin(s, a, name, now);
    assert Lookup(s1.state.users, name) == Some(u.(online := true, socketId := Some(a)));
    var s2 := HandleLogin(s1.state, b, name);
    StepLogin(s1.state, b, name, now);
    assert Lookup(s2.state.users, name) == Some(u.(online := true, socketId := Some(b)));
    assert s2.state.bindings == s.bindings[a := name][b := name];
    assert Bound(s2.state, a) == Some(name);
    StepDisconnect(s2.state, a, now);
    var s3 := HandleDisconnect(s2.state, a);
    assert Lookup(s3.state.users, name) == Some(u.(online := false, socketId := None));
  }

  /** As written, logging a socket in under a second name leaves the first
      user online on that socket, and closing the socket never clears it: the
      first record keeps pointing at a socket that no longer exists. */
  lemma ReloginOrphansFirstUser(s: State, a: ConnId, first: Username, second: Username, now: nat)
    requires ValidState(s)
    requires Has(s.users, first) && Has(s.users, second)
    requires first != second
    ensures var s1 := Step(s, a, Login(first), now);
            var s2 := Step(s1.state, a, Login(second), now);
            var s3 := Step(s2.state, a, Disconnect, now);
            && a !in s3.state.bindings
            && Lookup(s3.state.users, first) == Some(Lookup(s.users, first).value.(online := true, socketId := Some(a)))
            && Lookup(s3.state.users, second) == Some(Lookup(s.users, second).value.(online := false, socketId := None))
            && s3.outbox == [Delivery(AllExcept(a), UserOffline(second))]
  {
    var j :| 0 <= j < |s.users| && s.users[j].username == second;
    assert second != "";
    var s1 := HandleLogin(s, a, first);
    StepLogin(s, a, first, now);
    StepLogin(s1.state, a, second, now);
    var s2 := HandleLogin(s1.state, a, second);
    LoginTwiceOnOneSocket(s, a, first, second);
    assert Bound(s2.state, a) == Some(second);
    StepDisconnect(s2.state, a, now);
  }

  /** Two logins on one socket under different names: both records point at
      the socket, which is bound to the second name only. */
  lemma LoginTwiceOnOneSocket(s: State, a: ConnId, first: Username, second: Username)
    requires Has(s.users, first) && Has(s.users, second)
    requires first != second
    ensures var s2 := HandleLogin(HandleLogin(s, a, first).state, a, second).state;
            && Lookup(s2.users, first) == Some(Lookup(s.users, first).value.(online := true, socketId := Some(a)))
            && Lookup(s2.users, second) == Some(Lookup(s.users, second).value.(online := true, socketId := Some(a)))
            && s2.bindings == s.bindings[a := second]
  {
    var u1 := Lookup(s.users, first).value;
    var u2 := Lookup(s.users, second).value;
    var s1 := HandleLogin(s, a, first);
    assert Lookup(s1.state.users, first) == Some(u1.(online := true, socketId := Some(a)));
    assert Lookup(s1.state.users, second) == Some(u2);
    var s2 := HandleLogin(s1.state, a, second);
    assert Lookup(s2.state.users, second) == Some(u2.(online := true, socketId := Some(a)));
    assert Lookup(s2.state.users, first) == Some(u1.(online := true, socketId := Some(a)));
  }

  /** The list a login sends back has one entry per registered user and shows
      the caller online. */
  lemma LoginListsCallerOnline(s: State, conn: ConnId, name: Username, now: nat)
    requires Has(s.users, name)
    ensures var r := Step(s, conn, Login(name), now);
            && |r.outbox| == 2
            && r.outbox[1].to == ToConn(conn)
            && r.outbox[1].event.UsersList?
            && |r.outbox[1].event.list| == |s.users|
            && Presence(name, true) in r.outbox[1].event.list
  {
  }

  /** After a registered user logs in on socket `b`, a call to that user from
      any socket `a` reaches exactly `b` (the latest login wins), carrying `a`
      as the id the answer is to be sent back to. */
  lemma CallReachesLatestLogin(s: State, a: ConnId, b: ConnId, callee: Username,
                               offer: Blob, callerUsername: Blob, now: nat)
    requires Has(s.users, callee)
    ensures var s1 := Step(s, b, Login(callee), now).state;
            Step(s1, a, CallUser(callee, offer, callerUsername), now)
              == StepResult(s1, [Delivery(ToConn(b), IncomingCall(offer, callerUsername, a))])
  {
  }
}
