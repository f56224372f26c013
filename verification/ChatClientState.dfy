/**
 The chat client's reading side: the loop over the lines that have arrived, and the fields it updates.
 */
module ChatClientState {
  import opened Common
  import opened JsonLines
  import opened LineStream
  import opened ChatServer
  import opened ChatRuns

  /** The client after it has heard some events, first to last. */
  function HeardAll(client: Client, events: seq<Event>): Client
    decreases |events|
  {
    if events == [] then client else HeardAll(Heard(client, events[0]), events[1..])
  }

  lemma HeardOne(client: Client, e: Event, later: seq<Event>)
    ensures HeardAll(client, [e] + later) == HeardAll(Heard(client, e), later)
  {
    assert ([e] + later)[1..] == later;
  }

  /** The last login confirmation among some events is for `n`. */
  ghost predicate ConfirmedLast(events: seq<Event>, n: string) {
    exists m :: 0 <= m < |events| && events[m] == LoginOk(n) && NoneConfirms(events[m + 1..])
  }

  ghost predicate NoneConfirms(events: seq<Event>) {
    forall m :: 0 <= m < |events| ==> !events[m].LoginOk?
  }

  /** What has been heard comes down to the last login confirmation. */
  lemma {:induction false} HeardIsLastConfirmation(client: Client, events: seq<Event>)
    ensures NoneConfirms(events) ==> HeardAll(client, events) == client
    ensures forall n :: ConfirmedLast(events, n) ==> HeardAll(client, events) == Client(client.conn, true, n)
    ensures NoneConfirms(events) || exists n :: ConfirmedLast(events, n)
    decreases |events|
  {
    if events != [] {
      var e, later := events[0], events[1..];
      HeardIsLastConfirmation(Heard(client, e), later);
      forall n | ConfirmedLast(events, n)
        ensures HeardAll(client, events) == Client(client.conn, true, n)
      {
        ConfirmedFirstOrLater(events, n);
      }
      if NoneConfirms(later) {
        ConfirmedNow(events);
      } else {
        var n :| ConfirmedLast(later, n);
        ConfirmedLater(events, n);
      }
    }
  }

  lemma ConfirmedFirstOrLater(events: seq<Event>, n: string)
    requires events != [] && ConfirmedLast(events, n)
    ensures ConfirmedLast(events[1..], n) || (events[0] == LoginOk(n) && NoneConfirms(events[1..]))
  {
    var m :| 0 <= m < |events| && events[m] == LoginOk(n) && NoneConfirms(events[m + 1..]);
    if m > 0 {
      assert events[1..][m - 1] == LoginOk(n) && events[1..][m..] == events[m + 1..];
    }
  }

  lemma ConfirmedNow(events: seq<Event>)
    requires events != [] && NoneConfirms(events[1..])
    ensures if events[0].LoginOk? then ConfirmedLast(events, events[0].nick) else NoneConfirms(events)
  {
    if events[0].LoginOk? {
      assert events[0] == LoginOk(events[0].nick) && events[0 + 1..] == events[1..];
    } else {
      forall m | 0 <= m < |events|
        ensures !events[m].LoginOk?
      {
        assert m > 0 ==> events[m] == events[1..][m - 1];
      }
    }
  }

  lemma ConfirmedLater(events: seq<Event>, n: string)
    requires events != [] && ConfirmedLast(events[1..], n)
    ensures ConfirmedLast(events, n)
  {
    var later := events[1..];
    var m :| 0 <= m < |later| && later[m] == LoginOk(n) && NoneConfirms(later[m + 1..]);
    assert events[m + 1] == LoginOk(n) && events[m + 1 + 1..] == later[m + 1..];
  }

  class ChatClient {
    var conn: Option<Conn>
    var m_loggedIn: bool
    var m_nick: string
    var m_token: string

    ghost function State(): Client
      reads this
    {
      Client(conn, m_loggedIn, m_nick)
    }

    constructor ()
      ensures State() == NEW_CLIENT && m_token == ""
    {
      conn, m_loggedIn, m_nick, m_token := None, false, "", "";
    }

    method OnConnected(c: Conn)
      modifies this
      ensures State() == old(State()).(conn := Some(c)) && m_token == old(m_token)
    {
      conn := Some(c);
    }

    method OnDisconnected()
      modifies this
      ensures State() == NEW_CLIENT && m_token == ""
    {
      conn := None;
      m_loggedIn := false;
      m_nick := "";
      m_token := "";
    }

    method DisconnectFromServer()
      modifies this
      ensures State() == old(State()).(logged_in := false, nick := "") && m_token == ""
    {
      m_loggedIn := false;
      m_nick := "";
      m_token := "";
    }

    /** `onReadyRead`: every whole line is taken and reported, and what is left stays in the socket. */
    method OnReadyRead(input: string) returns (reported: seq<Event>, rest: string)
      modifies this
      ensures reported == Events(input) && rest == Unfinished(input)
      ensures State() == HeardAll(old(State()), Events(input)) && m_token == old(m_token) && conn == old(conn)
      ensures forall n :: ConfirmedLast(Events(input), n) ==> m_loggedIn && m_nick == n
      ensures NoneConfirms(Events(input)) ==> m_loggedIn == old(m_loggedIn) && m_nick == old(m_nick)
    {
      hide LineEvent, Unfinished, Events;
      reported, rest := [], input;
      var n := FirstNewline(rest);
      while n < |rest|
        invariant n == FirstNewline(rest) && m_token == old(m_token)
        invariant Events(input) == reported + Events(rest) && Unfinished(input) == Unfinished(rest)
        invariant HeardAll(old(State()), Events(input)) == HeardAll(State(), Events(rest))
        decreases |rest|
      {
        EventsStep(rest, n);
        UnfinishedStep(rest);
        var e := LineEvent(rest[..n]);
        HeardOne(State(), e, Events(rest[n + 1..]));
        if e.LoginOk? {
          m_nick := e.nick;
          m_loggedIn := true;
        }
        reported, rest := reported + [e], rest[n + 1..];
        n := FirstNewline(rest);
      }
      NoLine(rest);
      HeardIsLastConfirmation(old(State()), Events(input));
    }
  }

  // ---------------------------------------------------------------------------------------------
  // The loop and the steps of a run
  // ---------------------------------------------------------------------------------------------

  function ReadAll(s: System, k: nat, n: nat): System
    decreases n
  {
    if n == 0 then s else ReadAll(Next(s, ReadLine(k)), k, n - 1)
  }

  lemma ReadLineStep(s: System, k: nat, c: Conn)
    requires ClientOf(s, k).conn == Some(c) && FirstNewline(Sent(s.server, c)) < |Sent(s.server, c)|
    ensures var text, r := Sent(s.server, c), Next(s, ReadLine(k));
      var n := FirstNewline(text);
      && ClientOf(r, k) == Heard(ClientOf(s, k), LineEvent(text[..n])) && ClientOf(r, k).conn == Some(c)
      && Sent(r.server, c) == text[n + 1..]
  {
    hide LineEvent;
  }

  lemma HeardNothing(client: Client)
    ensures HeardAll(client, []) == client
  {}

  /** One call of the reading loop is as many `ReadLine` steps as there are lines. */
  lemma {:induction false} ReadyReadIsSteps(s: System, k: nat, c: Conn)
    requires ClientOf(s, k).conn == Some(c)
    ensures var text, r := Sent(s.server, c), ReadAll(s, k, |Events(Sent(s.server, c))|);
      && ClientOf(r, k) == HeardAll(ClientOf(s, k), Events(text))
      && Sent(r.server, c) == Unfinished(text)
    decreases |Sent(s.server, c)|
  {
    hide LineEvent, Next, Events, Unfinished, HeardAll, Sent;
    var text := Sent(s.server, c);
    var n := FirstNewline(text);
    if n == |text| {
      NoLine(text);
      HeardNothing(ClientOf(s, k));
    } else {
      ReadLineStep(s, k, c);
      HeardOne(ClientOf(s, k), LineEvent(text[..n]), Events(text[n + 1..]));
      EventsStep(text, n);
      UnfinishedStep(text);
      ReadyReadIsSteps(Next(s, ReadLine(k)), k, c);
    }
  }
}
