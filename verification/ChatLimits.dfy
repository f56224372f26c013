/**
 The rate limiter inside chat runs: what reaches the limiter of one connection is a run of the limiter from the time
 the connection was accepted, so that its bounds hold for every connection, whichever handlers serve the slot.
 */
module ChatLimits {
  import opened Common
  import opened JsonLines
  import opened LineStream
  import opened ChatServer
  import opened ChatInvariants
  import opened ChatRuns
  import opened ChatTheorems
  import RateLimit

  // ---------------------------------------------------------------------------------------------
  // Requests of a connection
  // ---------------------------------------------------------------------------------------------

  /** The action is a turn with input on the live slot of connection `c`. */
  predicate IsRequest(s: Server, a: Action, c: Conn) {
    && a.Turn? && a.slot < |s.slots| && a.raw != ""
    && Live(s.slots[a.slot]) && s.slots[a.slot].ssl == Some(c)
  }

  /** The times of the requests of a connection in a run, and of those that were admitted. */
  function Requests(actions: seq<Action>, c: Conn): seq<int> {
    if actions == [] then []
    else
      var rest, a := actions[..|actions| - 1], actions[|actions| - 1];
      Requests(rest, c) + if IsRequest(Run(rest).server, a, c) then [a.env.now] else []
  }

  function AdmittedTimes(actions: seq<Action>, c: Conn): seq<int> {
    if actions == [] then []
    else
      var rest, a := actions[..|actions| - 1], actions[|actions| - 1];
      var s := Run(rest).server;
      AdmittedTimes(rest, c) +
        if IsRequest(s, a, c) && RateLimit.Admit(s.slots[a.slot].limit, a.env.now).1 then [a.env.now] else []
  }

  /** The time at which a connection was accepted. */
  function AcceptTime(actions: seq<Action>, c: Conn): int {
    if actions == [] then 0
    else
      var rest, a := actions[..|actions| - 1], actions[|actions| - 1];
      if a.Connect? && Run(rest).server.next <= c < Run(actions).server.next then a.now else AcceptTime(rest, c)
  }

  /** The clock of the actions, which never goes back. */
  predicate HasTime(a: Action) {
    a.Connect? || a.Turn? || a.Timeouts?
  }

  function TimeOf(a: Action): int
    requires HasTime(a)
  {
    match a
    case Connect(_, _, _, now) => now
    case Turn(_, _, env) => env.now
    case Timeouts(now) => now
  }

  ghost predicate ClockRuns(actions: seq<Action>) {
    forall i, j :: 0 <= i < j < |actions| && HasTime(actions[i]) && HasTime(actions[j]) ==> TimeOf(actions[i]) <= TimeOf(actions[j])
  }

  // ---------------------------------------------------------------------------------------------
  // What a step does to limiter and clock of a slot
  // ---------------------------------------------------------------------------------------------

  /** A live slot after a step: new with a new limiter, or the old one, whose limiter and clock only its own requests have moved. */
  ghost predicate LimitMoves(s: Server, a: Action, i: nat, slot: Slot)
    requires i < |s.slots|
  {
    Live(slot) && slot.ssl.Some? ==>
      if slot.ssl.value < s.next then
        && Live(s.slots[i]) && s.slots[i].ssl == slot.ssl
        && slot.limit == (if a.Turn? && a.slot == i && a.raw != "" then RateLimit.Admit(s.slots[i].limit, a.env.now).0 else s.slots[i].limit)
        && slot.last_activity == (if a.Turn? && a.slot == i && a.raw != "" then a.env.now else s.slots[i].last_activity)
      else
        && a.Connect? && slot.ssl.value == s.next && slot.limit == RateLimit.Limiter(a.now, 0)
        && slot.last_activity == a.now
  }

  ghost predicate LimitsMove(s: Server, a: Action, r: Server) {
    |r.slots| == |s.slots| && forall i :: 0 <= i < |s.slots| ==> LimitMoves(s, a, i, r.slots[i])
  }

  ghost predicate SameLimits(s: Server, r: Server) {
    && |r.slots| == |s.slots|
    && forall i :: 0 <= i < |s.slots| && Live(r.slots[i]) ==>
         && Live(s.slots[i]) && r.slots[i].ssl == s.slots[i].ssl && r.slots[i].limit == s.slots[i].limit
         && r.slots[i].last_activity == s.slots[i].last_activity
  }

  lemma UnauthorizedLimits(s: Server, i: nat, command: string, env: Env)
    requires i < |s.slots| && s.slots[i].ssl.Some?
    ensures SameLimits(s, Unauthorized(s, i, command, env))
  {
    hide Line, Broadcast, LoginWords, ValidNick, TokenUsed;
    if !("/register" <= command) && "/login" <= command {
      var (nick, token) := LoginWords(command);
      if Accepts(s.users, nick, token) {
        GrantEffect(s, i, nick, token, s.users[Lower(nick)].security_level);
      }
    }
  }

  lemma InputLimits(s: Server, i: nat, raw: string, env: Env)
    requires Inv(s) && i < |s.slots|
    ensures LimitsMove(s, Turn(i, raw, env), Input(s, i, raw, env))
  {
    hide Authorized, Unauthorized, Line, CommandOf, RateLimit.Admit;
    var slot := s.slots[i];
    forall j | 0 <= j < |s.slots| && Live(s.slots[j])
      ensures s.slots[j].ssl.Some? && s.slots[j].ssl.value < s.next
    {
      assert GoodSlot(s, s.slots[j]);
    }
    if slot.fd >= 0 && slot.ssl.Some? && raw != "" {
      hide Inv;
      var s1, command := s.(slots := s.slots[i := Touched(slot, env.now)]), CommandOf(raw);
      if RateLimit.Admit(slot.limit, env.now).1 && command != "" {
        if slot.authorized {
          AuthorizedOnlyWrites(s1, i, command, env);
        } else {
          UnauthorizedLimits(s1, i, command, env);
        }
      }
    }
  }

  lemma {:induction false} SweepLimits(s: Server, now: int, n: nat)
    requires n <= |s.slots|
    ensures SameLimits(s, Sweep(s, now, n))
  {
    if n > 0 {
      SweepLimits(s, now, n - 1);
    }
  }

  lemma ExitLimits(s: Server, i: nat)
    requires i < |s.slots|
    ensures SameLimits(s, Exit(s, i))
  {
    hide Broadcast;
    BroadcastOnlyWrites(s, "System", "User " + s.slots[i].nick + " disconnected");
  }

  lemma SameLimitsMove(s: Server, a: Action, r: Server)
    requires Inv(s) && SameLimits(s, r) && !a.Turn?
    ensures LimitsMove(s, a, r)
  {
    forall i | 0 <= i < |s.slots|
      ensures LimitMoves(s, a, i, r.slots[i])
    {
      assert GoodSlot(s, s.slots[i]);
    }
  }

  lemma ConnectLimits(s: System, k: nat, fd: int, handshake: bool, now: int)
    requires Inv(s.server)
    ensures LimitsMove(s.server, Connect(k, fd, handshake, now), Next(s, Connect(k, fd, handshake, now)).server)
  {
    hide FirstFree;
    forall i | 0 <= i < |s.server.slots|
      ensures Live(s.server.slots[i]) ==> s.server.slots[i].ssl.Some? && s.server.slots[i].ssl.value < s.server.next
    {
      assert GoodSlot(s.server, s.server.slots[i]);
    }
  }

  lemma StepLimits(s: System, a: Action)
    requires Good(s)
    ensures LimitsMove(s.server, a, Next(s, a).server)
  {
    hide Inv, Input, Exit, Sweep, Greet, Accept, LineEvent, LimitsMove;
    match a
    case Connect(k, fd, handshake, now) => ConnectLimits(s, k, fd, handshake, now);
    case Turn(i, raw, env) => TurnLimits(s, i, raw, env);
    case Welcome(i, session) => WelcomeLimits(s, i, session);
    case End(i) =>
      if i < |s.server.slots| {
        ExitLimits(s.server, i);
      }
      SameLimitsMove(s.server, a, Next(s, a).server);
    case Drop(i) => SameLimitsMove(s.server, a, Next(s, a).server);
    case Timeouts(now) =>
      SweepLimits(s.server, now, |s.server.slots|);
      SameLimitsMove(s.server, a, Next(s, a).server);
    case ReadLine(k) => SameLimitsMove(s.server, a, Next(s, a).server);
    case Leave(k) => SameLimitsMove(s.server, a, Next(s, a).server);
    case Gone(k) => SameLimitsMove(s.server, a, Next(s, a).server);
  }

  lemma TurnLimits(s: System, i: nat, raw: string, env: Env)
    requires Good(s)
    ensures LimitsMove(s.server, Turn(i, raw, env), Next(s, Turn(i, raw, env)).server)
  {
    hide Input;
    if i < |s.server.slots| {
      hide Inv;
      InputLimits(s.server, i, raw, env);
    } else {
      forall j | 0 <= j < |s.server.slots|
        ensures LimitMoves(s.server, Turn(i, raw, env), j, s.server.slots[j])
      {
        assert GoodSlot(s.server, s.server.slots[j]);
      }
    }
  }

  lemma WelcomeLimits(s: System, i: nat, session: nat)
    requires Good(s)
    ensures LimitsMove(s.server, Welcome(i, session), Next(s, Welcome(i, session)).server)
  {
    hide Inv, Line;
    SameLimitsMove(s.server, Welcome(i, session), Next(s, Welcome(i, session)).server);
  }

  // ---------------------------------------------------------------------------------------------
  // Runs
  // ---------------------------------------------------------------------------------------------

  /** The limiter of the live slot of a connection. */
  ghost predicate LimitsAre(s: Server, c: Conn, l: RateLimit.Limiter) {
    forall i :: 0 <= i < |s.slots| && Live(s.slots[i]) && s.slots[i].ssl == Some(c) ==> s.slots[i].limit == l
  }

  /** The limiter of a connection is where its own run has brought it. */
  ghost predicate LimiterRuns(actions: seq<Action>, c: Conn) {
    var h := RateLimit.Run(AcceptTime(actions, c), Requests(actions, c));
    AdmittedTimes(actions, c) == h.accepted && LimitsAre(Run(actions).server, c, h.l)
  }

  lemma NotYetRequested(s: Server, a: Action, c: Conn)
    requires Inv(s) && s.next <= c
    ensures !IsRequest(s, a, c)
  {
    forall i | 0 <= i < |s.slots| && Live(s.slots[i])
      ensures s.slots[i].ssl != Some(c)
    {
      assert GoodSlot(s, s.slots[i]);
    }
  }

  /** Before it is accepted a connection has no requests. */
  lemma {:induction false} NoRequestsBefore(actions: seq<Action>, c: Conn)
    requires ValidActions(actions) && Run(actions).server.next <= c
    ensures Requests(actions, c) == [] && AdmittedTimes(actions, c) == []
  {
    hide Next;
    if actions != [] {
      var rest, a := actions[..|actions| - 1], actions[|actions| - 1];
      RunIsGood(rest);
      StepGrows(Run(rest), a);
      NoRequestsBefore(rest, c);
      NotYetRequested(Run(rest).server, a, c);
    }
  }

  lemma StepAdmits(s: Server, a: Action, c: Conn, h: RateLimit.History)
    requires IsRequest(s, a, c) && s.slots[a.slot].limit == h.l
    ensures RateLimit.Request(h, a.env.now).l == RateLimit.Admit(s.slots[a.slot].limit, a.env.now).0
    ensures RateLimit.Request(h, a.env.now).accepted
      == h.accepted + if RateLimit.Admit(s.slots[a.slot].limit, a.env.now).1 then [a.env.now] else []
  {}

  lemma {:induction false} LimiterIsRun(actions: seq<Action>, c: Conn)
    requires ValidActions(actions)
    ensures LimiterRuns(actions, c)
  {
    hide Next, LimiterRuns;
    if actions == [] {
      EmptyRun(c);
    } else {
      var rest, a := actions[..|actions| - 1], actions[|actions| - 1];
      LimiterIsRun(rest, c);
      RunIsGood(rest);
      RunIsGood(actions);
      StepLimits(Run(rest), a);
      StepGrows(Run(rest), a);
      if Run(rest).server.next <= c {
        NoRequestsBefore(rest, c);
        NewLimiter(actions, c);
      } else {
        OldLimiter(actions, c);
      }
    }
  }

  lemma EmptyRun(c: Conn)
    ensures LimiterRuns([], c)
  {}

  /** A connection that this step may have accepted. */
  lemma NewLimiter(actions: seq<Action>, c: Conn)
    requires actions != [] && Good(Run(actions[..|actions| - 1])) && Good(Run(actions))
    requires var rest, a := actions[..|actions| - 1], actions[|actions| - 1];
      && Run(rest).server.next <= c && Requests(rest, c) == [] && AdmittedTimes(rest, c) == []
      && LimitsMove(Run(rest).server, a, Run(actions).server)
    ensures LimiterRuns(actions, c)
  {
    hide Next, Run, LimiterRuns;
    var rest, a := actions[..|actions| - 1], actions[|actions| - 1];
    var s, r := Run(rest).server, Run(actions).server;
    NotYetRequested(s, a, c);
    assert Requests(actions, c) == [] && AdmittedTimes(actions, c) == [];
    forall i | 0 <= i < |r.slots| && Live(r.slots[i]) && r.slots[i].ssl == Some(c)
      ensures r.slots[i].limit == RateLimit.Limiter(AcceptTime(actions, c), 0)
    {
      assert LimitMoves(s, a, i, r.slots[i]);
      assert GoodSlot(r, r.slots[i]);
    }
    FreshLimiter(actions, c);
  }

  lemma FreshLimiter(actions: seq<Action>, c: Conn)
    requires Requests(actions, c) == [] && AdmittedTimes(actions, c) == []
    requires LimitsAre(Run(actions).server, c, RateLimit.Limiter(AcceptTime(actions, c), 0))
    ensures LimiterRuns(actions, c)
  {
    hide Next;
    var start := AcceptTime(actions, c);
    RateLimit.NoRequests(start);
    var h := RateLimit.Run(start, Requests(actions, c));
    assert h == RateLimit.History(RateLimit.Limiter(start, 0), []);
    assert AdmittedTimes(actions, c) == h.accepted;
  }

  /** A connection that was accepted before this step. */
  lemma OldLimiter(actions: seq<Action>, c: Conn)
    requires actions != [] && Good(Run(actions[..|actions| - 1])) && LimiterRuns(actions[..|actions| - 1], c)
    requires var rest, a := actions[..|actions| - 1], actions[|actions| - 1];
      c < Run(rest).server.next && LimitsMove(Run(rest).server, a, Run(actions).server)
    ensures LimiterRuns(actions, c)
  {
    hide Next, Run, LimitsMove, LimitsAre, Requests, AdmittedTimes, AcceptTime;
    hide RateLimit.Admit, RateLimit.Request, RateLimit.Run, Inv;
    var rest, a := actions[..|actions| - 1], actions[|actions| - 1];
    var s, h := Run(rest).server, RateLimit.Run(AcceptTime(rest, c), Requests(rest, c));
    RequestsStep(actions, c);
    if IsRequest(s, a, c) {
      RateLimit.RunOfAppend(AcceptTime(rest, c), Requests(rest, c), a.env.now);
      RequestLimits(s, a, Run(actions).server, c, h);
    } else {
      IdleLimits(s, a, Run(actions).server, c, h.l);
    }
  }

  lemma RequestsStep(actions: seq<Action>, c: Conn)
    requires actions != []
    ensures var rest, a := actions[..|actions| - 1], actions[|actions| - 1];
      var s := Run(rest).server;
      && (!IsRequest(s, a, c) ==> Requests(actions, c) == Requests(rest, c) && AdmittedTimes(actions, c) == AdmittedTimes(rest, c))
      && (IsRequest(s, a, c) ==>
            && Requests(actions, c) == Requests(rest, c) + [a.env.now]
            && AdmittedTimes(actions, c) == AdmittedTimes(rest, c) +
                 if RateLimit.Admit(s.slots[a.slot].limit, a.env.now).1 then [a.env.now] else [])
      && (c < s.next ==> AcceptTime(actions, c) == AcceptTime(rest, c))
  {
    hide Run, RateLimit.Admit;
  }

  /** The step is a request of the connection. */
  lemma RequestLimits(s: Server, a: Action, r: Server, c: Conn, h: RateLimit.History)
    requires Inv(s) && c < s.next && LimitsMove(s, a, r) && IsRequest(s, a, c) && LimitsAre(s, c, h.l)
    ensures LimitsAre(r, c, RateLimit.Request(h, a.env.now).l)
    ensures RateLimit.Request(h, a.env.now).accepted
      == h.accepted + if RateLimit.Admit(s.slots[a.slot].limit, a.env.now).1 then [a.env.now] else []
  {
    hide Inv, RateLimit.Admit, RateLimit.Request;
    StepAdmits(s, a, c, h);
    forall i | 0 <= i < |r.slots| && Live(r.slots[i]) && r.slots[i].ssl == Some(c)
      ensures r.slots[i].limit == RateLimit.Request(h, a.env.now).l
    {
      assert LimitMoves(s, a, i, r.slots[i]);
      OneSlot(s, i, a.slot, c);
    }
  }

  /** The step is something else. */
  lemma IdleLimits(s: Server, a: Action, r: Server, c: Conn, l: RateLimit.Limiter)
    requires c < s.next && LimitsMove(s, a, r) && !IsRequest(s, a, c) && LimitsAre(s, c, l)
    ensures LimitsAre(r, c, l)
  {
    forall i | 0 <= i < |r.slots| && Live(r.slots[i]) && r.slots[i].ssl == Some(c)
      ensures r.slots[i].limit == l
    {
      assert LimitMoves(s, a, i, r.slots[i]);
    }
  }

  /** No two live slots have the same connection. */
  lemma OneSlot(s: Server, i: nat, j: nat, c: Conn)
    requires Inv(s) && i < |s.slots| && j < |s.slots| && Live(s.slots[i]) && Live(s.slots[j])
    requires s.slots[i].ssl == Some(c) && s.slots[j].ssl == Some(c)
    ensures i == j
  {}

  // ---------------------------------------------------------------------------------------------
  // The bounds
  // ---------------------------------------------------------------------------------------------

  ghost predicate ConnectsAt(actions: seq<Action>, t: int) {
    exists m :: 0 <= m < |actions| && actions[m].Connect? && actions[m].now == t
  }

  ghost predicate TurnsAt(actions: seq<Action>, t: int) {
    exists m :: 0 <= m < |actions| && actions[m].Turn? && actions[m].env.now == t
  }

  lemma EarlierTimes(actions: seq<Action>, t: int)
    requires actions != [] && ClockRuns(actions)
    ensures var rest, a := actions[..|actions| - 1], actions[|actions| - 1];
      && ClockRuns(rest)
      && (ConnectsAt(rest, t) ==> ConnectsAt(actions, t))
      && (TurnsAt(rest, t) ==> TurnsAt(actions, t))
      && ((ConnectsAt(rest, t) || TurnsAt(rest, t)) && HasTime(a) ==> t <= TimeOf(a))
  {
    var n := |actions| - 1;
    var rest := actions[..n];
    if ConnectsAt(rest, t) {
      var m :| 0 <= m < |rest| && rest[m].Connect? && rest[m].now == t;
      assert actions[m].Connect? && actions[m].now == t && TimeOf(actions[m]) == t;
    }
    if TurnsAt(rest, t) {
      var m :| 0 <= m < |rest| && rest[m].Turn? && rest[m].env.now == t;
      assert actions[m].Turn? && actions[m].env.now == t && TimeOf(actions[m]) == t;
    }
  }

  /** With a clock that never goes back the requests of a connection are in order, and none is before its start. */
  lemma {:induction false} RequestsInOrder(actions: seq<Action>, c: Conn)
    requires ValidActions(actions) && ClockRuns(actions) && c < Run(actions).server.next
    ensures RateLimit.Clock(AcceptTime(actions, c), Requests(actions, c))
    ensures ConnectsAt(actions, AcceptTime(actions, c))
    ensures forall k :: 0 <= k < |Requests(actions, c)| ==> TurnsAt(actions, Requests(actions, c)[k])
  {
    hide Next, ClockRuns, ConnectsAt, TurnsAt, IsRequest, Requests, AcceptTime;
    assert actions != [] by { NobodyAtFirst(); }
    var n := |actions| - 1;
    var rest, a := actions[..n], actions[n];
    RunIsGood(rest);
    if Run(rest).server.next <= c {
      FirstTime(actions, c);
    } else {
      assert ClockRuns(rest) by { EarlierTimes(actions, 0); }
      RequestsInOrder(rest, c);
      NextTime(actions, c);
    }
  }

  lemma NobodyAtFirst()
    ensures Run([]).server.next == 0
  {}

  /** The step accepts the connection. */
  lemma FirstTime(actions: seq<Action>, c: Conn)
    requires ValidActions(actions) && actions != [] && Good(Run(actions[..|actions| - 1]))
    requires Run(actions[..|actions| - 1]).server.next <= c < Run(actions).server.next
    ensures Requests(actions, c) == [] && ConnectsAt(actions, AcceptTime(actions, c))
  {
    hide Next;
    var rest, a := actions[..|actions| - 1], actions[|actions| - 1];
    NoRequestsBefore(rest, c);
    AcceptedNow(Run(rest), a);
    NotYetRequested(Run(rest).server, a, c);
    assert actions[|actions| - 1].Connect? && a.now == AcceptTime(actions, c);
  }

  /** A later step. */
  lemma NextTime(actions: seq<Action>, c: Conn)
    requires actions != [] && ClockRuns(actions) && c < Run(actions[..|actions| - 1]).server.next
    requires var rest := actions[..|actions| - 1];
      && RateLimit.Clock(AcceptTime(rest, c), Requests(rest, c)) && ConnectsAt(rest, AcceptTime(rest, c))
      && forall k :: 0 <= k < |Requests(rest, c)| ==> TurnsAt(rest, Requests(rest, c)[k])
    ensures RateLimit.Clock(AcceptTime(actions, c), Requests(actions, c))
    ensures ConnectsAt(actions, AcceptTime(actions, c))
    ensures forall k :: 0 <= k < |Requests(actions, c)| ==> TurnsAt(actions, Requests(actions, c)[k])
  {
    hide Next, Run, ClockRuns, ConnectsAt, Requests, AcceptTime, AdmittedTimes, RateLimit.Admit;
    var rest, a := actions[..|actions| - 1], actions[|actions| - 1];
    RequestsStep(actions, c);
    EarlierTimes(actions, AcceptTime(rest, c));
    forall k | 0 <= k < |Requests(rest, c)|
      ensures TurnsAt(actions, Requests(rest, c)[k]) && (a.Turn? ==> Requests(rest, c)[k] <= a.env.now)
    {
      EarlierTimes(actions, Requests(rest, c)[k]);
    }
    if IsRequest(Run(rest).server, a, c) {
      assert actions[|actions| - 1].Turn? && actions[|actions| - 1].env.now == a.env.now;
      assert TurnsAt(actions, a.env.now);
    }
  }

  /** Only a connection attempt takes a new connection. */
  lemma AcceptedNow(s: System, a: Action)
    requires Good(s) && s.server.next < Next(s, a).server.next
    ensures a.Connect?
  {
    hide Inv, Input, Exit, Sweep, LineEvent, Line;
    match a
    case Turn(i, raw, env) =>
      if i < |s.server.slots| {
        InputKeepsNext(s.server, i, raw, env);
      }
    case End(i) =>
      if i < |s.server.slots| {
        ExitKeepsNext(s.server, i);
      }
    case Timeouts(now) => SweepEffect(s.server, now, |s.server.slots|);
    case _ =>
  }

  lemma ExitKeepsNext(s: Server, i: nat)
    requires i < |s.slots|
    ensures Exit(s, i).next == s.next
  {
    hide Broadcast;
    BroadcastOnlyWrites(s, "System", "User " + s.slots[i].nick + " disconnected");
  }

  lemma InputKeepsNext(s: Server, i: nat, raw: string, env: Env)
    requires i < |s.slots|
    ensures Input(s, i, raw, env).next == s.next
  {
    hide Authorized, Line, CommandOf, Broadcast, LoginWords, ValidNick, TokenUsed;
    var slot := s.slots[i];
    if slot.fd >= 0 && slot.ssl.Some? && raw != "" {
      var s1, command := s.(slots := s.slots[i := Touched(slot, env.now)]), CommandOf(raw);
      if slot.authorized {
        AuthorizedOnlyWrites(s1, i, command, env);
      } else if !("/register" <= command) && "/login" <= command {
        var (nick, token) := LoginWords(command);
        if Accepts(s1.users, nick, token) {
          GrantEffect(s1, i, nick, token, s1.users[Lower(nick)].security_level);
        }
      }
    }
  }

  /** In any run with a clock that never goes back, a connection has at most twenty admitted requests in sixty seconds. */
  lemma TwentyPerMinute(actions: seq<Action>, c: Conn, t: int)
    requires ValidActions(actions) && ClockRuns(actions) && c < Run(actions).server.next
    ensures RateLimit.Within(AdmittedTimes(actions, c), t, t + 60) <= 20
  {
    hide Next;
    LimiterIsRun(actions, c);
    RequestsInOrder(actions, c);
    RateLimit.TwentyPerMinute(AcceptTime(actions, c), Requests(actions, c), t);
  }

  /** At most 10 * (1 + T / 61) requests of a connection are admitted in the T seconds after it was accepted. */
  lemma AdmittedSinceAccept(actions: seq<Action>, c: Conn, T: nat)
    requires ValidActions(actions) && ClockRuns(actions) && c < Run(actions).server.next
    requires forall m :: 0 <= m < |actions| && HasTime(actions[m]) ==> TimeOf(actions[m]) <= AcceptTime(actions, c) + T
    ensures |AdmittedTimes(actions, c)| <= 10 * (1 + T / 61)
  {
    hide Next;
    var start, times := AcceptTime(actions, c), Requests(actions, c);
    LimiterIsRun(actions, c);
    RequestsInOrder(actions, c);
    if times != [] {
      assert TurnsAt(actions, times[|times| - 1]);
      var m :| 0 <= m < |actions| && actions[m].Turn? && actions[m].env.now == times[|times| - 1];
      assert TimeOf(actions[m]) == times[|times| - 1];
    }
    if times == [] {
      assert ConnectsAt(actions, start);
    }
    RateLimit.AcceptedSinceConnect(start, times, T);
  }
}
