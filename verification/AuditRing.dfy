/**
 The audit log: a ring of 1000 records that is overwritten from the start when it is full, and a copy of
 every record sent to the database.
 */
module AuditRing {
  import opened Common
  import opened CText

  const CAPACITY: nat := 1000

  datatype Record = Record(event_type: string, user_nick: string, ip_address: string, details: string, timestamp: int)

  /** The record that an event leaves in a cell: texts are cut, and a missing address or detail keeps the old text. */
  function Filled(cell: Record, event_type: string, user_nick: Option<string>, ip: Option<string>,
    details: Option<string>, now: int): Record
  {
    Record(Cut(event_type, 31),
           if user_nick.Some? then Cut(user_nick.value, 30) else "",
           if ip.Some? then Cut(ip.value, 45) else cell.ip_address,
           if details.Some? then Cut(details.value, 511) else cell.details,
           now)
  }

  /** The arguments of one call of `log_security_event`; user, address and details may be null. */
  datatype Event = Event(event_type: string, user_nick: Option<string>, ip: Option<string>, details: Option<string>, now: int)

  /** The array, the cursor, and everything sent to the database, oldest first. */
  datatype Log = Log(cells: seq<Record>, count: nat, sent: seq<Record>)

  predicate InRange(log: Log) {
    |log.cells| == CAPACITY && log.count <= CAPACITY
  }

  function Add(log: Log, e: Event): (r: Log)
    requires InRange(log)
    ensures InRange(r)
  {
    var i := if log.count >= CAPACITY then 0 else log.count;
    var record := Filled(log.cells[i], e.event_type, e.user_nick, e.ip, e.details, e.now);
    Log(log.cells[i := record], i + 1, log.sent + [record])
  }

  function Run(start: Log, events: seq<Event>): (r: Log)
    requires InRange(start)
    ensures InRange(r)
  {
    if events == [] then start else Add(Run(start, events[..|events| - 1]), events[|events| - 1])
  }

  lemma DifferentCells(k: nat, n: nat)
    requires k < n < k + CAPACITY
    ensures k % CAPACITY != n % CAPACITY
  {
    assert k == k / CAPACITY * CAPACITY + k % CAPACITY && n == n / CAPACITY * CAPACITY + n % CAPACITY;
  }

  /** The cell after the one of record `n - 1`. */
  lemma NextCell(n: nat)
    requires n > 0
    ensures n % CAPACITY == if (n - 1) % CAPACITY + 1 >= CAPACITY then 0 else (n - 1) % CAPACITY + 1
  {}

  /** The log after `n` events. */
  ghost predicate HoldsLast(start: Log, log: Log, n: nat) {
    && InRange(start) && InRange(log) && |log.sent| == n
    && log.count == (if n == 0 then 0 else (n - 1) % CAPACITY + 1)
    && (forall k :: n - CAPACITY <= k < n && 0 <= k ==> log.cells[k % CAPACITY] == log.sent[k])
    && (forall c :: n <= c < CAPACITY ==> log.cells[c] == start.cells[c])
  }

  /** One more event after `n` of them goes into cell `n` modulo 1000. */
  lemma AddHoldsLast(start: Log, log: Log, e: Event, n: nat)
    requires HoldsLast(start, log, n)
    ensures HoldsLast(start, Add(log, e), n + 1)
  {
    hide Filled;
    if n > 0 {
      NextCell(n);
    }
    var r := Add(log, e);
    assert r.cells[n % CAPACITY] == r.sent[n];
    forall k | n + 1 - CAPACITY <= k < n && 0 <= k
      ensures r.cells[k % CAPACITY] == r.sent[k]
    {
      DifferentCells(k, n);
    }
  }

  lemma {:induction false} RunHoldsLast(start: Log, events: seq<Event>)
    requires InRange(start) && start.count == 0 && start.sent == []
    ensures HoldsLast(start, Run(start, events), |events|)
  {
    hide Add;
    if events == [] {
      assert Run(start, events) == start;
    } else {
      hide HoldsLast;
      var n := |events| - 1;
      RunHoldsLast(start, events[..n]);
      AddHoldsLast(start, Run(start, events[..n]), events[n], n);
    }
  }

  /**
   After any events the cursor is where the count of them says, and the array holds exactly the last 1000
   records sent to the database, or all of them, each in the cell of its number modulo 1000.
   */
  lemma RingHoldsLast(start: Log, events: seq<Event>)
    requires InRange(start) && start.count == 0 && start.sent == []
    ensures var n, log := |events|, Run(start, events);
      && |log.sent| == n
      && log.count == (if n == 0 then 0 else (n - 1) % CAPACITY + 1)
      && (forall k :: n - CAPACITY <= k < n && 0 <= k ==> log.cells[k % CAPACITY] == log.sent[k])
      && (forall c :: n <= c < CAPACITY ==> log.cells[c] == start.cells[c])
  {
    hide Run;
    RunHoldsLast(start, events);
  }

  /** What a cell held before event `k` of a run from an empty log. */
  function Before(start: Log, sent: seq<Record>, k: nat): Record
    requires InRange(start) && k <= |sent|
  {
    if k < CAPACITY then start.cells[k] else sent[k - CAPACITY]
  }

  lemma CellBefore(start: Log, events: seq<Event>)
    requires InRange(start) && start.count == 0 && start.sent == []
    ensures var log := Run(start, events);
      |log.sent| == |events| && log.cells[|events| % CAPACITY] == Before(start, log.sent, |events|)
      && |events| % CAPACITY == if log.count >= CAPACITY then 0 else log.count
  {
    hide Run;
    var n := |events|;
    RingHoldsLast(start, events);
    if n > 0 {
      NextCell(n);
    }
    if n >= CAPACITY {
      assert (n - CAPACITY) % CAPACITY == n % CAPACITY;
    }
  }

  lemma SentStep(start: Log, events: seq<Event>)
    requires InRange(start) && start.count == 0 && start.sent == [] && events != []
    ensures var n, e := |events| - 1, events[|events| - 1];
      var before := Run(start, events[..n]).sent;
      |before| == n && Run(start, events).sent
        == before + [Filled(Before(start, before, n), e.event_type, e.user_nick, e.ip, e.details, e.now)]
  {
    hide Filled, Before;
    CellBefore(start, events[..|events| - 1]);
  }

  lemma {:induction false} SentIsFilled(start: Log, events: seq<Event>, k: nat)
    requires InRange(start) && start.count == 0 && start.sent == [] && k < |events|
    ensures |Run(start, events).sent| == |events|
    ensures var e, sent := events[k], Run(start, events).sent;
      sent[k] == Filled(Before(start, sent, k), e.event_type, e.user_nick, e.ip, e.details, e.now)
    decreases |events|
  {
    hide Filled, Run, InRange;
    SentStep(start, events);
    if k < |events| - 1 {
      SentIsFilled(start, events[..|events| - 1], k);
    }
  }

  /**
   Record `k` sent to the database is event `k`, cut to the sizes of its fields.  Without a user the name is empty;
   without an address or details the record repeats those of the record sent 1000 events earlier, or those the
   cell held at the start.
   */
  lemma SentAreTheEvents(start: Log, events: seq<Event>, k: nat)
    requires InRange(start) && start.count == 0 && start.sent == [] && k < |events|
    ensures |Run(start, events).sent| == |events|
    ensures var e, sent := events[k], Run(start, events).sent;
      sent[k] == Record(
        Cut(e.event_type, 31),
        if e.user_nick.Some? then Cut(e.user_nick.value, 30) else "",
        if e.ip.Some? then Cut(e.ip.value, 45) else Before(start, sent, k).ip_address,
        if e.details.Some? then Cut(e.details.value, 511) else Before(start, sent, k).details,
        e.now)
  {
    SentIsFilled(start, events, k);
  }

  class AuditLog {
    const audit_logs: array<Record>
    var audit_log_count: nat
    /** Rows handed to `save_audit_log_to_db`. */
    var sent: seq<Record>

    ghost function State(): Log
      reads this, audit_logs
    {
      Log(audit_logs[..], audit_log_count, sent)
    }

    constructor (blank: Record)
      ensures fresh(audit_logs) && InRange(State()) && audit_log_count == 0 && sent == []
    {
      audit_logs := new Record[CAPACITY](_ => blank);
      audit_log_count := 0;
      sent := [];
    }

    /** `log_security_event`. */
    method LogSecurityEvent(e: Event)
      requires InRange(State())
      modifies this, audit_logs
      ensures State() == Add(old(State()), e)
    {
      if audit_log_count >= CAPACITY {
        audit_log_count := 0;
      }
      var i := audit_log_count;
      audit_log_count := audit_log_count + 1;
      audit_logs[i] := Filled(audit_logs[i], e.event_type, e.user_nick, e.ip, e.details, e.now);
      sent := sent + [audit_logs[i]];
    }
  }
}
