/**
 When a connection times out: in every run exactly when its last request, or its acceptance if it made none, is more
 than five minutes ago.
 */
module ChatTimeouts {
  import opened Common
  import opened ChatServer
  import opened ChatInvariants
  import opened ChatRuns
  import opened ChatTheorems
  import opened ChatLimits
  import RateLimit

  /** The time of the last request of a connection, or of its acceptance. */
  function LastTime(actions: seq<Action>, c: Conn): int {
    var times := Requests(actions, c);
    if times == [] then AcceptTime(actions, c) else times[|times| - 1]
  }

  ghost predicate ClocksAre(s: Server, c: Conn, t: int) {
    forall i :: 0 <= i < |s.slots| && Live(s.slots[i]) && s.slots[i].ssl == Some(c) ==> s.slots[i].last_activity == t
  }

  /** In every run the open slot of a connection holds the time of its last request, or of its acceptance. */
  lemma {:induction false} ActivityIsLastTime(actions: seq<Action>, c: Conn)
    requires ValidActions(actions)
    ensures ClocksAre(Run(actions).server, c, LastTime(actions, c))
  {
    hide Next, LastTime, ClocksAre;
    if actions == [] {
      NobodyIsActive(c);
    } else {
      var rest, a := actions[..|actions| - 1], actions[|actions| - 1];
      ActivityIsLastTime(rest, c);
      RunIsGood(rest);
      RunIsGood(actions);
      StepLimits(Run(rest), a);
      StepGrows(Run(rest), a);
      if Run(rest).server.next <= c {
        NoRequestsBefore(rest, c);
        NewClock(actions, c);
      } else {
        OldClock(actions, c);
      }
    }
  }

  lemma NobodyIsActive(c: Conn)
    ensures ClocksAre(Run([]).server, c, LastTime([], c))
  {}

  lemma NewClock(actions: seq<Action>, c: Conn)
    requires actions != [] && Good(Run(actions[..|actions| - 1])) && Good(Run(actions))
    requires var rest, a := actions[..|actions| - 1], actions[|actions| - 1];
      && Run(rest).server.next <= c && Requests(rest, c) == []
      && LimitsMove(Run(rest).server, a, Run(actions).server)
    ensures ClocksAre(Run(actions).server, c, LastTime(actions, c))
  {
    hide Next, Run;
    var rest, a := actions[..|actions| - 1], actions[|actions| - 1];
    var s, r := Run(rest).server, Run(actions).server;
    NotYetRequested(s, a, c);
    assert Requests(actions, c) == [];
    forall i | 0 <= i < |r.slots| && Live(r.slots[i]) && r.slots[i].ssl == Some(c)
      ensures r.slots[i].last_activity == LastTime(actions, c)
    {
      assert LimitMoves(s, a, i, r.slots[i]);
      assert GoodSlot(r, r.slots[i]);
    }
  }

  lemma OldClock(actions: seq<Action>, c: Conn)
    requires actions != [] && Good(Run(actions[..|actions| - 1]))
    requires var rest, a := actions[..|actions| - 1], actions[|actions| - 1];
      && c < Run(rest).server.next && LimitsMove(Run(rest).server, a, Run(actions).server)
      && ClocksAre(Run(rest).server, c, LastTime(rest, c))
    ensures ClocksAre(Run(actions).server, c, LastTime(actions, c))
  {
    hide Next, Run, LimitsMove, ClocksAre, Requests, AdmittedTimes, AcceptTime, Inv, RateLimit.Admit;
    var rest, a := actions[..|actions| - 1], actions[|actions| - 1];
    var s, r := Run(rest).server, Run(actions).server;
    RequestsStep(actions, c);
    if IsRequest(s, a, c) {
      RequestClock(s, a, r, c);
    } else {
      IdleClock(s, a, r, c, LastTime(rest, c));
    }
  }

  lemma RequestClock(s: Server, a: Action, r: Server, c: Conn)
    requires Inv(s) && c < s.next && LimitsMove(s, a, r) && IsRequest(s, a, c)
    ensures ClocksAre(r, c, a.env.now)
  {
    hide Inv, RateLimit.Admit;
    forall i | 0 <= i < |r.slots| && Live(r.slots[i]) && r.slots[i].ssl == Some(c)
      ensures r.slots[i].last_activity == a.env.now
    {
      assert LimitMoves(s, a, i, r.slots[i]);
      OneSlot(s, i, a.slot, c);
    }
  }

  lemma IdleClock(s: Server, a: Action, r: Server, c: Conn, t: int)
    requires c < s.next && LimitsMove(s, a, r) && !IsRequest(s, a, c) && ClocksAre(s, c, t)
    ensures ClocksAre(r, c, t)
  {
    hide RateLimit.Admit;
    forall i | 0 <= i < |r.slots| && Live(r.slots[i]) && r.slots[i].ssl == Some(c)
      ensures r.slots[i].last_activity == t
    {
      assert LimitMoves(s, a, i, r.slots[i]);
    }
  }

  /** An open slot holds connection `c`. */
  ghost predicate IsOpen(s: Server, c: Conn) {
    exists i :: 0 <= i < |s.slots| && Live(s.slots[i]) && s.slots[i].ssl == Some(c)
  }

  /**
   In every run a sweep leaves open exactly those of the open connections whose last request, or acceptance, is at most
   three hundred seconds ago.
   */
  lemma TimedOutIff(actions: seq<Action>, now: int, c: Conn)
    requires ValidActions(actions)
    ensures IsOpen(Run(actions + [Timeouts(now)]).server, c)
      <==> IsOpen(Run(actions).server, c) && now - LastTime(actions, c) <= 300
  {
    hide Next, LastTime, ClocksAre;
    var s, all := Run(actions).server, actions + [Timeouts(now)];
    assert all[..|actions|] == actions;
    ActivityIsLastTime(actions, c);
    assert Run(all).server == Sweep(s, now, |s.slots|) by { SweepStep(Run(actions), now); }
    SweepSlots(s, now, |s.slots|);
    SweptIff(s, Run(all).server, now, c, LastTime(actions, c));
  }

  lemma SweepStep(s: System, now: int)
    ensures Next(s, Timeouts(now)).server == Sweep(s.server, now, |s.server.slots|)
  {}

  lemma SweptIff(s: Server, r: Server, now: int, c: Conn, t: int)
    requires ClocksAre(s, c, t) && |r.slots| == |s.slots|
    requires forall k :: 0 <= k < |s.slots| ==> r.slots[k] == if TimedOut(s.slots[k], now) then s.slots[k].(fd := -1) else s.slots[k]
    ensures IsOpen(r, c) <==> IsOpen(s, c) && now - t <= 300
  {
    if IsOpen(r, c) {
      var i :| 0 <= i < |r.slots| && Live(r.slots[i]) && r.slots[i].ssl == Some(c);
      assert Live(s.slots[i]) && s.slots[i].ssl == Some(c);
    }
    if IsOpen(s, c) && now - t <= 300 {
      var i :| 0 <= i < |s.slots| && Live(s.slots[i]) && s.slots[i].ssl == Some(c);
      assert Live(r.slots[i]) && r.slots[i].ssl == Some(c);
    }
  }
}
