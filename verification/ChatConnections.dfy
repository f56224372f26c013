/**
 How connections are made and ended: which slot a new connection gets, exactly when it gets one, and how a slot
 becomes free again.
 */
module ChatConnections {
  import opened Common
  import opened JsonLines
  import opened LineStream
  import opened ChatServer
  import opened ChatInvariants
  import opened ChatRuns
  import opened ChatTheorems
  import RateLimit

  // ---------------------------------------------------------------------------------------------
  // A new connection
  // ---------------------------------------------------------------------------------------------

  /** The first free slot. */
  ghost predicate IsFirstFree(slots: seq<Slot>, k: nat) {
    k < |slots| && !Live(slots[k]) && forall j :: 0 <= j < k ==> Live(slots[j])
  }

  ghost predicate Full(slots: seq<Slot>) {
    forall j :: 0 <= j < |slots| ==> Live(slots[j])
  }

  /** Between two states slot `k`, and nothing else, was given to a new connection. */
  ghost predicate NowConnected(s: Server, r: Server, k: nat, fd: int, now: int) {
    && |r.slots| == |s.slots| && k < |s.slots|
    && (forall j :: 0 <= j < |s.slots| && j != k ==> r.slots[j] == s.slots[j])
    && r.slots[k].fd == fd && r.slots[k].ssl == Some(s.next)
    && !r.slots[k].authorized && r.slots[k].nick == "" && r.slots[k].token == ""
    && r.slots[k].last_activity == now && r.slots[k].limit == RateLimit.Limiter(now, 0)
    && r.slots[k].session_id == 0 && r.slots[k].security_level == 1 && r.slots[k].keys == {}
    && r.open == s.open + {fd} && r.next == s.next + 1
    && r.users == s.users && r.out == s.out && r.granted == s.granted
  }

  /** After a handshake the first free slot gets the connection; without handshake or free slot nothing changes. */
  lemma AcceptTakesFirstFree(s: Server, fd: int, handshake: bool, now: int)
    ensures forall k :: IsFirstFree(s.slots, k) && handshake ==> NowConnected(s, Accept(s, fd, handshake, now), k, fd, now)
    ensures !handshake || Full(s.slots) ==> Accept(s, fd, handshake, now) == s
    ensures Full(s.slots) || exists k :: IsFirstFree(s.slots, k)
  {
    match FirstFree(s.slots)
    case None =>
    case Some(i) =>
      assert IsFirstFree(s.slots, i);
      assert forall k :: IsFirstFree(s.slots, k) ==> k == i;
  }

  // ---------------------------------------------------------------------------------------------
  // Room
  // ---------------------------------------------------------------------------------------------

  lemma {:induction false} DescriptorsCounted(slots: seq<Slot>)
    requires forall i, j :: 0 <= i < j < |slots| && Live(slots[i]) && Live(slots[j]) ==> slots[i].fd != slots[j].fd
    ensures |LiveDescriptors(slots)| <= |slots|
    ensures |LiveDescriptors(slots)| == |slots| <==> Full(slots)
  {
    if slots != [] {
      var n := |slots| - 1;
      var rest := slots[..n];
      DescriptorsCounted(rest);
      if Live(slots[n]) {
        assert LiveDescriptors(slots) == LiveDescriptors(rest) + {slots[n].fd};
      } else {
        assert LiveDescriptors(slots) == LiveDescriptors(rest);
      }
    }
  }

  /** The table keeps its size. */
  lemma {:induction false} TableStays(actions: seq<Action>)
    ensures |Run(actions).server.slots| == MAX_CLIENTS
  {
    hide Next;
    if actions != [] {
      TableStays(actions[..|actions| - 1]);
      StepMoves(Run(actions[..|actions| - 1]), actions[|actions| - 1]);
    }
  }

  /** There is a free slot if and only if fewer than a thousand descriptors are open. */
  lemma RoomIff(actions: seq<Action>)
    requires ValidActions(actions)
    ensures var s := Run(actions).server; |s.open| <= 1000 && (|s.open| < 1000 <==> !Full(s.slots))
  {
    DescriptorsInEveryRun(actions);
    TableStays(actions);
    DescriptorsCounted(Run(actions).server.slots);
  }

  /** A client without a connection, and a new descriptor of the kernel. */
  predicate CanConnect(s: System, k: nat, fd: int) {
    fd >= 0 && fd !in s.server.open && ClientOf(s, k).conn.None?
  }

  /** A step gave slot `i` and the next connection to client `k`. */
  ghost predicate ClientConnected(s: System, r: System, k: nat, i: nat, fd: int, now: int) {
    && NowConnected(s.server, r.server, i, fd, now)
    && r.clients == s.clients[k := Client(Some(s.server.next), ClientOf(s, k).logged_in, ClientOf(s, k).nick)]
  }

  /**
   In every run an attempt to connect succeeds if and only if the client is not connected, the descriptor is new, the
   handshake succeeds and fewer than a thousand descriptors are open; the connection gets the first free slot.  An
   attempt that fails changes nothing.
   */
  lemma ConnectedIff(actions: seq<Action>, k: nat, fd: int, handshake: bool, now: int) returns (i: nat)
    requires ValidActions(actions)
    ensures var s, r := Run(actions), Run(actions + [Connect(k, fd, handshake, now)]);
      if CanConnect(s, k, fd) && handshake && |s.server.open| < 1000
      then IsFirstFree(s.server.slots, i) && ClientConnected(s, r, k, i, fd, now)
      else r == s
  {
    hide Next, IsFirstFree, Full, NowConnected;
    var s, a := Run(actions), Connect(k, fd, handshake, now);
    RoomIff(actions);
    AcceptTakesFirstFree(s.server, fd, handshake, now);
    assert (actions + [a])[..|actions|] == actions;
    i := 0;
    if CanConnect(s, k, fd) && handshake && |s.server.open| < 1000 {
      i :| IsFirstFree(s.server.slots, i);
      ConnectStep(s, k, i, fd, now);
    } else {
      ConnectNothing(s, k, fd, handshake, now);
    }
  }

  lemma ConnectStep(s: System, k: nat, i: nat, fd: int, now: int)
    requires CanConnect(s, k, fd) && NowConnected(s.server, Accept(s.server, fd, true, now), i, fd, now)
    ensures ClientConnected(s, Next(s, Connect(k, fd, true, now)), k, i, fd, now)
  {
    hide Accept;
  }

  lemma ConnectNothing(s: System, k: nat, fd: int, handshake: bool, now: int)
    requires !CanConnect(s, k, fd) || Accept(s.server, fd, handshake, now) == s.server
    ensures Next(s, Connect(k, fd, handshake, now)) == s
  {
    hide Accept;
  }

  // ---------------------------------------------------------------------------------------------
  // A thousand connections
  // ---------------------------------------------------------------------------------------------

  /** As many clients as given, one after the other. */
  function Arrivals(n: nat, now: int): seq<Action> {
    if n == 0 then [] else Arrivals(n - 1, now) + [Connect(n - 1, n - 1, true, now)]
  }

  ghost predicate AllServed(s: System, n: nat) {
    && n <= |s.server.slots| && s.server.next == n
    && (forall i :: 0 <= i < n ==> s.server.slots[i].fd == i && s.server.slots[i].ssl == Some(i) && ClientOf(s, i).conn == Some(i))
    && (forall i :: n <= i < |s.server.slots| ==> !Live(s.server.slots[i]))
    && (forall k :: n <= k ==> k !in s.clients)
    && (forall fd :: fd in s.server.open ==> fd < n)
  }

  /** A thousand clients can be connected at once, each on its own slot and connection. */
  lemma {:induction false} ThousandAreServed(n: nat, now: int)
    requires n <= MAX_CLIENTS
    ensures AllServed(Run(Arrivals(n, now)), n)
  {
    hide Next;
    if n == 0 {
      NobodyServed(now);
    } else {
      var before := Arrivals(n - 1, now);
      ThousandAreServed(n - 1, now);
      TableStays(before);
      assert Arrivals(n, now)[..|before|] == before;
      NextArrival(Run(before), n - 1, now);
    }
  }

  lemma NobodyServed(now: int)
    ensures AllServed(Run(Arrivals(0, now)), 0)
  {}

  lemma NextArrival(s: System, n: nat, now: int)
    requires AllServed(s, n) && n < |s.server.slots|
    ensures AllServed(Next(s, Connect(n, n, true, now)), n + 1)
  {
    hide Next, Accept;
    AcceptTakesFirstFree(s.server, n, true, now);
    assert IsFirstFree(s.server.slots, n);
    assert CanConnect(s, n, n);
    ConnectStep(s, n, n, n, now);
  }

  // ---------------------------------------------------------------------------------------------
  // The end of a connection
  // ---------------------------------------------------------------------------------------------

  /** Between two states slot `i` lost its connection and its user, and nothing else changed but streams and keys. */
  ghost predicate NowFreed(s: Server, r: Server, i: nat) {
    && |r.slots| == |s.slots| && i < |s.slots|
    && (forall j :: 0 <= j < |s.slots| && j != i ==> r.slots[j] == s.slots[j])
    && !Live(r.slots[i]) && r.slots[i].ssl.None? && !r.slots[i].authorized && r.slots[i].nick == "" && r.slots[i].token == ""
    && r.open == s.open - {s.slots[i].fd}
    && r.next == s.next && r.users == s.users && r.granted == s.granted
  }

  lemma ExitFrees(s: Server, i: nat)
    requires Inv(s) && i < |s.slots|
    ensures NowFreed(s, Exit(s, i), i)
    ensures !s.slots[i].authorized ==> Exit(s, i).out == s.out
  {
    hide Broadcast;
    BroadcastOnlyWrites(s, "System", "User " + s.slots[i].nick + " disconnected");
    if !Live(s.slots[i]) {
      NegativeIsClosed(s, i);
    }
  }

  /** Only descriptors of live slots are open. */
  lemma NegativeIsClosed(s: Server, i: nat)
    requires Inv(s) && i < |s.slots| && !Live(s.slots[i])
    ensures s.slots[i].fd !in s.open
  {}

  lemma DisconnectFrees(s: Server, i: nat)
    requires i < |s.slots|
    ensures Live(s.slots[i]) ==> NowFreed(s, Disconnect(s, i), i) && Disconnect(s, i).out == s.out
    ensures !Live(s.slots[i]) ==> Disconnect(s, i) == s
  {}

  /** The sweep closes exactly the slots that were idle for more than five minutes; their connections stay. */
  lemma SweepCloses(s: Server, now: int)
    requires Inv(s)
    ensures var r := Sweep(s, now, |s.slots|);
      && |r.slots| == |s.slots|
      && (forall k :: 0 <= k < |s.slots| ==>
            r.slots[k] == if Live(s.slots[k]) && now - s.slots[k].last_activity > 300 then s.slots[k].(fd := -1) else s.slots[k])
      && (forall fd :: fd in r.open <==> exists k :: 0 <= k < |s.slots| && Live(s.slots[k]) && s.slots[k].fd == fd && now - s.slots[k].last_activity <= 300)
      && r.users == s.users && r.granted == s.granted && r.next == s.next && r.out == s.out
  {
    hide Inv, Sweep;
    var r := Sweep(s, now, |s.slots|);
    SweepSlots(s, now, |s.slots|);
    SweepEffect(s, now, |s.slots|);
    SweepKeeps(s, now, |s.slots|);
    OpenIff(r);
  }

  lemma OpenIff(s: Server)
    requires Inv(s)
    ensures forall fd :: fd in s.open <==> exists k :: 0 <= k < |s.slots| && Live(s.slots[k]) && s.slots[k].fd == fd
  {}

  /** Whatever has happened, once a handler has ended there is room for a client that is not connected. */
  lemma RoomAfterEnd(actions: seq<Action>, i: nat, k: nat, fd: int, now: int) returns (j: nat)
    requires ValidActions(actions) && i < MAX_CLIENTS
    requires CanConnect(Run(actions + [End(i)]), k, fd)
    ensures var s, r := Run(actions + [End(i)]), Run(actions + [End(i)] + [Connect(k, fd, true, now)]);
      j <= i && ClientConnected(s, r, k, j, fd, now)
  {
    hide Next, ClientConnected, Inv, Exit;
    var ended := actions + [End(i)];
    assert ended[..|actions|] == actions;
    RunIsGood(actions);
    TableStays(actions);
    ServerIsGood(Run(actions));
    ExitFrees(Run(actions).server, i);
    assert Run(ended).server == Exit(Run(actions).server, i) by { EndStep(Run(actions), i); }
    RoomIff(ended);
    j := ConnectedIff(ended, k, fd, true, now);
  }

  lemma EndStep(s: System, i: nat)
    requires i < |s.server.slots|
    ensures Next(s, End(i)) == s.(server := Exit(s.server, i))
  {
    hide Exit;
  }

  // ---------------------------------------------------------------------------------------------
  // The start of a handler
  // ---------------------------------------------------------------------------------------------

  /** The welcome line holds version and security mark; it changes no state of the client. */
  lemma WelcomeIsRead()
    ensures Read(Start, Body(WELCOME))
      == Done(map["type" := JStr("welcome"), "version" := JStr("4.0"), "security" := JStr("enhanced")])
    ensures LineEvent(Body(WELCOME)) == NoEvent
  {
    hide Read;
    WelcomeIsPlain();
    LineRoundTrip(WELCOME);
    assert WELCOME[1..] == [WELCOME[1], WELCOME[2]] && WELCOME[1..][1..] == [WELCOME[2]] && WELCOME[1..][1..][1..] == [];
  }

  /** A handler that starts on an open slot fills its keys, numbers the session and greets; on any other it does nothing. */
  lemma GreetIs(s: Server, i: nat, session: nat)
    requires Inv(s) && i < |s.slots|
    ensures !Live(s.slots[i]) ==> Greet(s, i, session) == s
    ensures Live(s.slots[i]) ==>
      && s.slots[i].ssl.Some?
      && var c, r := s.slots[i].ssl.value, Greet(s, i, session);
         && r == s.(slots := r.slots, out := r.out)
         && r.slots == s.slots[i := s.slots[i].(session_id := session, keys := s.slots[i].keys + {SessionKey, ChachaKey, PublicKey, SessionToken})]
         && r.out == s.out[c := Sent(s, c) + Line(WELCOME)]
  {
    hide Line;
    assert GoodSlot(s, s.slots[i]) by { SlotIsGood(s, i); }
  }
}
