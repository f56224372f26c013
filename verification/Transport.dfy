/**
 The partial-write and partial-read loops around the TLS transport.  The transport is a finite script of
 results; a script that runs out stands for a server that is stopped (writing) or a peer that is gone (reading).
 */
module Transport {
  // ---------------------------------------------------------------------------------------------
  // Writing
  // ---------------------------------------------------------------------------------------------

  /** What one turn of the write loop meets: `running` is false, or `SSL_write` returns. */
  datatype WriteResult = Stopped | Wrote(n: nat) | WouldBlock | Failed

  /** Bytes the transport offers to take, before clipping. */
  function Offered(script: seq<WriteResult>): nat {
    if script == [] then 0
    else Offered(script[..|script| - 1]) + if script[|script| - 1].Wrote? then script[|script| - 1].n else 0
  }

  lemma OfferedOfAppend(script: seq<WriteResult>, k: nat)
    requires k < |script|
    ensures Offered(script[..k + 1]) == Offered(script[..k]) + if script[k].Wrote? then script[k].n else 0
  {
    assert script[..k + 1][..k] == script[..k];
  }

  /**
   `ssl_safe_write`.  `handed` is what the transport has taken, in order, and `used` the length of the script
   that was gone through.
   */
  method SafeWrite(data: string, script: seq<WriteResult>) returns (ret: int, handed: string, used: nat)
    requires forall k :: 0 <= k < |script| && script[k].Wrote? ==> script[k].n > 0
    ensures used <= |script| && handed <= data
    ensures |handed| == if Offered(script[..used]) < |data| then Offered(script[..used]) else |data|
    ensures ret == -1 || ret == |handed|
    ensures ret == -1 <==> |handed| < |data| && used > 0 && script[used - 1] == Failed
    ensures ret >= 0 && |handed| < |data| ==> used == |script| || (used > 0 && script[used - 1] == Stopped)
    ensures forall k :: 0 <= k < used - 1 ==> script[k] != Failed && script[k] != Stopped
    ensures used > 0 ==> Offered(script[..used - 1]) < |data|
  {
    var total := 0;
    handed, used := "", 0;
    while total < |data| && used < |script|
      invariant 0 <= used <= |script| && 0 <= total <= |data| && handed == data[..total]
      invariant total == if Offered(script[..used]) < |data| then Offered(script[..used]) else |data|
      invariant forall k :: 0 <= k < used ==> script[k] != Failed && script[k] != Stopped
      invariant used > 0 ==> Offered(script[..used - 1]) < |data|
      decreases |script| - used
    {
      OfferedOfAppend(script, used);
      used := used + 1;
      match script[used - 1] {
        case Stopped => return total, handed, used;
        case Wrote(n) =>
          var k := if n < |data| - total then n else |data| - total;
          handed := handed + data[total..total + k];
          total := total + k;
        case WouldBlock =>
        case Failed => return -1, handed, used;
      }
    }
    return total, handed, used;
  }

  // ---------------------------------------------------------------------------------------------
  // Reading
  // ---------------------------------------------------------------------------------------------

  /** What `SSL_read` meets: the bytes of a record, nothing yet, or the end of the connection. */
  datatype ReadResult = Data(bytes: string) | WantRead | End

  function Min(a: nat, b: nat): nat { if a < b then a else b }

  /** What is left of a script after `n` bytes of its first record. */
  function After(script: seq<ReadResult>, n: nat): seq<ReadResult>
    requires script != [] && script[0].Data? && n <= |script[0].bytes|
  {
    if n == |script[0].bytes| then script[1..] else [Data(script[0].bytes[n..])] + script[1..]
  }

  ghost predicate NoEmptyRecords(script: seq<ReadResult>) {
    forall k :: 0 <= k < |script| && script[k].Data? ==> script[k].bytes != ""
  }

  /** Number of bytes and results still in a script: it falls with every turn of the loop. */
  function Size(script: seq<ReadResult>): nat {
    if script == [] then 0 else 1 + (if script[0].Data? then |script[0].bytes| else 0) + Size(script[1..])
  }

  /** What the read loop stores in a buffer with room for `room` bytes, and what it leaves in the transport. */
  function Received(script: seq<ReadResult>, room: nat): (string, seq<ReadResult>)
    requires NoEmptyRecords(script)
    decreases Size(script)
  {
    if room == 0 || script == [] then ("", script)
    else
      match script[0]
      case End => ("", script[1..])
      case WantRead => Received(script[1..], room)
      case Data(bytes) =>
        var n := Min(|bytes|, room);
        AfterIsSmaller(script, n);
        if bytes[n - 1] == '\n' then (bytes[..n], After(script, n))
        else
          var (more, rest) := Received(After(script, n), room - n);
          (bytes[..n] + more, rest)
  }

  lemma AfterIsSmaller(script: seq<ReadResult>, n: nat)
    requires NoEmptyRecords(script)
    requires script != [] && script[0].Data? && 0 < n <= |script[0].bytes|
    ensures NoEmptyRecords(After(script, n)) && Size(After(script, n)) < Size(script)
  {
    var a := After(script, n);
    if n < |script[0].bytes| {
      assert a[1..] == script[1..];
    }
  }

  /** All bytes up to the end of the connection. */
  function Bytes(script: seq<ReadResult>): string {
    if script == [] || script[0] == End then ""
    else (if script[0].Data? then script[0].bytes else "") + Bytes(script[1..])
  }

  lemma BytesAfter(script: seq<ReadResult>, n: nat)
    requires script != [] && script[0].Data? && n <= |script[0].bytes|
    ensures Bytes(script) == script[0].bytes[..n] + Bytes(After(script, n))
    ensures End in After(script, n) ==> End in script
  {
    var bytes, a := script[0].bytes, After(script, n);
    if n < |bytes| {
      assert a[1..] == script[1..];
      assert bytes == bytes[..n] + bytes[n..];
      assert bytes[..n] + (bytes[n..] + Bytes(script[1..])) == bytes + Bytes(script[1..]);
    } else {
      assert bytes[..n] == bytes;
    }
  }

  /** Nothing is lost or invented: what is stored, then what is left, is what was sent. */
  lemma {:induction false} ReadConserves(script: seq<ReadResult>, room: nat)
    requires NoEmptyRecords(script) && End !in script
    ensures Received(script, room).0 + Bytes(Received(script, room).1) == Bytes(script)
    decreases Size(script)
  {
    hide Bytes;
    if room > 0 && script != [] {
      BytesSplit(script);
      if script[0] == WantRead {
        ReadConserves(script[1..], room);
      } else {
        var n := Min(|script[0].bytes|, room);
        AfterIsSmaller(script, n);
        BytesAfter(script, n);
        if script[0].bytes[n - 1] != '\n' {
          ReadConserves(After(script, n), room - n);
        }
      }
    }
  }

  /** What is stored is the beginning of what was sent, also when the connection ends. */
  lemma {:induction false} ReadIsPrefix(script: seq<ReadResult>, room: nat)
    requires NoEmptyRecords(script)
    ensures Received(script, room).0 <= Bytes(script)
    decreases Size(script)
  {
    hide Bytes;
    if room > 0 && script != [] {
      if script[0] != End {
        BytesSplit(script);
      }
      if script[0] == WantRead {
        ReadIsPrefix(script[1..], room);
      } else if script[0].Data? {
        var n := Min(|script[0].bytes|, room);
        AfterIsSmaller(script, n);
        BytesAfter(script, n);
        if script[0].bytes[n - 1] != '\n' {
          ReadIsPrefix(After(script, n), room - n);
        }
      }
    }
  }

  /** The buffer is full, a newline was read, or nothing or the end of the connection came. */
  predicate MayStop(script: seq<ReadResult>, room: nat, got: string, rest: seq<ReadResult>) {
    && |got| <= room
    && (|got| == room || (got != "" && got[|got| - 1] == '\n') || rest == []
        || (|rest| < |script| && script[|script| - |rest| - 1] == End && rest == script[|script| - |rest|..]))
  }

  lemma MayStopLater(script: seq<ReadResult>, room: nat, first: string, got: string, rest: seq<ReadResult>)
    requires script != [] && |first| <= room && MayStop(script[1..], room - |first|, got, rest)
    ensures MayStop(script, room, first + got, rest)
  {
    if |rest| < |script[1..]| {
      assert script[1..][|script| - 1 - |rest|..] == script[|script| - |rest|..];
      assert script[1..][|script| - 1 - |rest| - 1] == script[|script| - |rest| - 1];
    }
  }

  /** A first record that does not fit, or that ends with a newline where the buffer does. */
  lemma ReceivedRecord(script: seq<ReadResult>, room: nat)
    requires NoEmptyRecords(script) && script != [] && room > 0 && script[0].Data? && room < |script[0].bytes|
    ensures Received(script, room).0 == script[0].bytes[..room]
  {
    AfterIsSmaller(script, room);
    assert Received(After(script, room), 0).0 == "";
  }

  /** Reading stops at a trailing newline, at a full buffer, or at the end of the transport, and for no other reason. */
  lemma {:induction false} ReadStops(script: seq<ReadResult>, room: nat)
    requires NoEmptyRecords(script)
    ensures MayStop(script, room, Received(script, room).0, Received(script, room).1)
  {
    if room == 0 || script == [] || script[0] == End {
      ReceivedNothing(script, room);
    } else {
      hide Received, MayStop;
      ReceivedFirst(script, room);
      if script[0] == WantRead {
        ReadStops(script[1..], room);
        MayStopLater(script, room, "", Received(script, room).0, Received(script, room).1);
        assert "" + Received(script, room).0 == Received(script, room).0;
      } else if room < |script[0].bytes| {
        ReceivedRecord(script, room);
        FullOrNewline(script, room, Received(script, room).0, Received(script, room).1);
      } else {
        var bytes := script[0].bytes;
        if bytes[|bytes| - 1] == '\n' {
          FullOrNewline(script, room, bytes, script[1..]);
        } else {
          ReadStops(script[1..], room - |bytes|);
          MayStopLater(script, room, bytes, Received(script[1..], room - |bytes|).0, Received(script, room).1);
        }
      }
    }
  }

  lemma ReceivedNothing(script: seq<ReadResult>, room: nat)
    requires NoEmptyRecords(script) && (room == 0 || script == [] || script[0] == End)
    ensures MayStop(script, room, Received(script, room).0, Received(script, room).1)
  {}

  lemma FullOrNewline(script: seq<ReadResult>, room: nat, got: string, rest: seq<ReadResult>)
    requires |got| <= room && (|got| == room || (got != "" && got[|got| - 1] == '\n'))
    ensures MayStop(script, room, got, rest)
  {}

  /** A text with one newline, at its end. */
  predicate IsLine(line: string) {
    line != "" && line[|line| - 1] == '\n' && forall k :: 0 <= k < |line| - 1 ==> line[k] != '\n'
  }

  /**
   One line per read: a line that fits and whose records do not share bytes with what follows is returned
   exactly, however it was split into records and however often the transport had to wait.
   */
  lemma {:induction false} LineIsRead(chunks: seq<ReadResult>, rest: seq<ReadResult>, room: nat)
    requires NoEmptyRecords(chunks) && NoEmptyRecords(rest) && NoEmptyRecords(chunks + rest)
    requires chunks != [] && chunks[|chunks| - 1].Data? && End !in chunks
    requires IsLine(Bytes(chunks)) && |Bytes(chunks)| <= room
    ensures Received(chunks + rest, room) == (Bytes(chunks), rest)
    decreases |chunks|
  {
    hide Received, Bytes;
    var line, tail := Bytes(chunks), chunks[1..];
    ScriptSplits(chunks, rest);
    BytesSplit(chunks);
    ReceivedFirst(chunks + rest, room);
    if chunks[0] == WantRead {
      assert chunks[|chunks| - 1] == tail[|tail| - 1];
      LineIsRead(tail, rest, room);
    } else {
      var bytes := chunks[0].bytes;
      if tail == [] {
        assert line == bytes by { NoBytes(tail); }
        assert tail + rest == rest;
      } else {
        assert chunks[|chunks| - 1] == tail[|tail| - 1];
        LastRecord(tail);
        LineSplits(bytes, Bytes(tail));
        LineIsRead(tail, rest, room - |bytes|);
      }
    }
  }

  lemma ScriptSplits(chunks: seq<ReadResult>, rest: seq<ReadResult>)
    requires chunks != [] && NoEmptyRecords(chunks + rest)
    ensures (chunks + rest)[0] == chunks[0] && (chunks + rest)[1..] == chunks[1..] + rest
    ensures NoEmptyRecords(chunks[1..] + rest)
  {
    assert (chunks + rest)[1..] == chunks[1..] + rest;
    assert forall k :: 0 <= k < |chunks[1..] + rest| ==> (chunks[1..] + rest)[k] == (chunks + rest)[k + 1];
  }

  lemma BytesSplit(chunks: seq<ReadResult>)
    requires chunks != [] && chunks[0] != End
    ensures Bytes(chunks) == (if chunks[0].Data? then chunks[0].bytes else "") + Bytes(chunks[1..])
    ensures chunks[0] == WantRead ==> Bytes(chunks) == Bytes(chunks[1..])
  {}

  lemma NoBytes(chunks: seq<ReadResult>)
    requires chunks == []
    ensures Bytes(chunks) == ""
  {}

  /** A first record that fits. */
  lemma ReceivedFirst(script: seq<ReadResult>, room: nat)
    requires NoEmptyRecords(script) && script != [] && room > 0
    ensures script[0] == WantRead ==> Received(script, room) == Received(script[1..], room)
    ensures script[0].Data? && |script[0].bytes| <= room ==>
      var bytes := script[0].bytes;
      Received(script, room) ==
        if bytes[|bytes| - 1] == '\n' then (bytes, script[1..])
        else
          var (more, left) := Received(script[1..], room - |bytes|);
          (bytes + more, left)
  {
    if script[0].Data? {
      assert script[0].bytes[..|script[0].bytes|] == script[0].bytes;
    }
  }

  lemma LineSplits(a: string, b: string)
    requires IsLine(a + b) && a != "" && b != ""
    ensures a[|a| - 1] != '\n' && IsLine(b)
  {
    assert a[|a| - 1] == (a + b)[|a| - 1];
    assert forall k :: 0 <= k < |b| ==> b[k] == (a + b)[|a| + k];
  }

  /** The first `n` bytes of a script end where a record ends. */
  predicate RecordEnds(script: seq<ReadResult>, n: nat) {
    n == 0 ||
    (script != [] && match script[0]
     case End => false
     case WantRead => RecordEnds(script[1..], n)
     case Data(bytes) => |bytes| <= n && RecordEnds(script[1..], n - |bytes|))
  }

  /**
   The exact condition: one read returns exactly the line that comes first if and only if a record ends with
   it, or it fills the buffer.  Otherwise the record's next bytes are read along with it.
   */
  lemma {:induction false} LineIsReadIff(script: seq<ReadResult>, room: nat, line: string)
    requires NoEmptyRecords(script) && IsLine(line) && |line| <= room && line <= Bytes(script)
    ensures Received(script, room).0 == line <==> |line| == room || RecordEnds(script, |line|)
  {
    hide Received;
    assert script != [] && script[0] != End;
    BytesSplit(script);
    ReceivedFirst(script, room);
    if script[0] == WantRead {
      LineIsReadIff(script[1..], room, line);
    } else {
      var bytes := script[0].bytes;
      if |bytes| < |line| {
        var rest := line[|bytes|..];
        LineStarts(bytes, Bytes(script[1..]), line);
        LineIsReadIff(script[1..], room - |bytes|, rest);
        assert Received(script, room).0 == bytes + Received(script[1..], room - |bytes|).0;
        assert line == bytes + rest;
      } else if |bytes| == |line| {
        assert bytes == line;
        assert RecordEnds(script[1..], 0);
      } else {
        LongRecord(script, room, line);
      }
    }
  }

  lemma LineStarts(bytes: string, more: string, line: string)
    requires IsLine(line) && line <= bytes + more && 0 < |bytes| < |line|
    ensures bytes <= line && bytes[|bytes| - 1] != '\n' && IsLine(line[|bytes|..]) && line[|bytes|..] <= more
  {
    assert forall k :: 0 <= k < |line| ==> line[k] == (bytes + more)[k];
    assert bytes[|bytes| - 1] == line[|bytes| - 1];
  }

  /** A record that goes on behind the line is cut only by the end of the buffer. */
  lemma LongRecord(script: seq<ReadResult>, room: nat, line: string)
    requires NoEmptyRecords(script) && script != [] && script[0].Data? && |line| < |script[0].bytes|
    requires IsLine(line) && |line| <= room && line <= script[0].bytes
    ensures Received(script, room).0 == line <==> |line| == room
  {
    var bytes := script[0].bytes;
    var n := Min(|bytes|, room);
    AfterIsSmaller(script, n);
    assert n == |line| ==> bytes[n - 1] == line[n - 1] && bytes[..n] == line;
  }

  /** Two lines that share a record are read as one: the handler sees a single command with a newline in it. */
  lemma LinesMerge(a: string, b: string, rest: seq<ReadResult>, room: nat)
    requires IsLine(a) && IsLine(b) && |a + b| <= room && NoEmptyRecords([Data(a + b)] + rest)
    ensures Received([Data(a + b)] + rest, room) == (a + b, rest)
    ensures !RecordEnds([Data(a + b)] + rest, |a|)
  {
    var script := [Data(a + b)] + rest;
    assert script[1..] == rest && (a + b)[|a + b| - 1] == b[|b| - 1];
    ReceivedFirst(script, room);
  }

  lemma {:induction false} LastRecord(chunks: seq<ReadResult>)
    requires NoEmptyRecords(chunks)
    requires chunks != [] && chunks[|chunks| - 1].Data? && End !in chunks
    ensures Bytes(chunks) != ""
  {
    if |chunks| > 1 {
      LastRecord(chunks[1..]);
    }
  }

  /** One record: its first bytes come next in what is received. */
  lemma ReceivedStep(script: seq<ReadResult>, room: nat, got: string, at: nat)
    requires NoEmptyRecords(script) && room > 0 && script != [] && script[0].Data?
    requires at <= |got| && got[at..] == Received(script, room).0
    ensures var n := Min(|script[0].bytes|, room);
      && at + n <= |got|
      && (forall k :: at <= k < at + n ==> got[k] == script[0].bytes[k - at])
      && (script[0].bytes[n - 1] == '\n' ==> |got| == at + n && Received(script, room).1 == After(script, n))
      && NoEmptyRecords(After(script, n))
      && (script[0].bytes[n - 1] != '\n' ==>
            Received(script, room).1 == Received(After(script, n), room - n).1
            && got[at + n..] == Received(After(script, n), room - n).0)
  {
    var n := Min(|script[0].bytes|, room);
    AfterIsSmaller(script, n);
    assert forall k :: at <= k < at + n ==> got[k] == got[at..][k - at];
    assert got[at..][n..] == got[at + n..];
  }

  lemma ReceivedBounds(script: seq<ReadResult>, room: nat)
    requires NoEmptyRecords(script)
    ensures |Received(script, room).0| <= room
  {
    ReadStops(script, room);
  }

  lemma ReceivedEnds(script: seq<ReadResult>, room: nat)
    requires room == 0 || script == []
    ensures NoEmptyRecords(script) ==> Received(script, room) == ("", script)
  {}

  /** A turn of the loop that meets no record. */
  lemma ReceivedTurn(script: seq<ReadResult>, room: nat)
    requires NoEmptyRecords(script) && script != [] && room > 0
    ensures NoEmptyRecords(script[1..]) && Size(script[1..]) < Size(script)
    ensures script[0] == End ==> Received(script, room) == ("", script[1..])
    ensures script[0] == WantRead ==> Received(script, room) == Received(script[1..], room)
  {}

  /** The loop of `ssl_safe_read`, on a buffer with room for `room` bytes and a terminator. */
  method ReadLoop(buffer: array<char>, room: nat, script: seq<ReadResult>) returns (total: nat, rest: seq<ReadResult>)
    requires room < buffer.Length && NoEmptyRecords(script)
    modifies buffer
    ensures total == |Received(script, room).0| <= room && rest == Received(script, room).1
    ensures forall k :: 0 <= k < total ==> buffer[k] == Received(script, room).0[k]
    ensures forall k :: room <= k < buffer.Length ==> buffer[k] == old(buffer[k])
  {
    hide Received, Size, After;
    ghost var got, left := Received(script, room).0, Received(script, room).1;
    total, rest := 0, script;
    ReceivedBounds(script, room);
    var stopped := false;
    assert got[0..] == got;
    while !stopped && total < room && rest != []
      invariant total <= room && total <= |got| && NoEmptyRecords(rest)
      invariant !stopped ==> got[total..] == Received(rest, room - total).0 && left == Received(rest, room - total).1
      invariant stopped ==> total == |got| && rest == left
      invariant forall k :: 0 <= k < total ==> buffer[k] == got[k]
      invariant forall k :: room <= k < buffer.Length ==> buffer[k] == old(buffer[k])
      decreases !stopped, Size(rest)
    {
      ReceivedTurn(rest, room - total);
      match rest[0] {
        case End =>
          rest := rest[1..];
          stopped := true;
        case WantRead =>
          rest := rest[1..];
        case Data(bytes) =>
          var n := Min(|bytes|, room - total);
          AfterIsSmaller(rest, n);
          ReceivedStep(rest, room - total, got, total);
          CopyInto(buffer, total, bytes, n);
          rest := After(rest, n);
          total := total + n;
          stopped := buffer[total - 1] == '\n';
      }
    }
    if !stopped {
      ReceivedEnds(rest, room - total);
    }
  }

  /** `ssl_safe_read`: `selected` is the result of `select`, and `rest` is what stays in the transport. */
  method SafeRead(ssl_fd: int, selected: int, buffer: array<char>, max_len: nat, script: seq<ReadResult>)
    returns (ret: int, rest: seq<ReadResult>)
    requires 0 < max_len <= buffer.Length && NoEmptyRecords(script)
    modifies buffer
    ensures ssl_fd < 0 ==> ret == -1 && rest == script
    ensures ssl_fd >= 0 && selected <= 0 ==> ret == 0 && rest == script
    ensures ssl_fd < 0 || selected <= 0 ==> buffer[..] == old(buffer[..])
    ensures ssl_fd >= 0 && selected > 0 ==>
      0 <= ret < max_len && (buffer[..ret], rest) == Received(script, max_len - 1) && buffer[ret] == '\0'
    ensures forall k :: max_len <= k < buffer.Length ==> buffer[k] == old(buffer[k])
  {
    if ssl_fd < 0 {
      return -1, script;
    }
    if selected <= 0 {
      return 0, script;
    }
    var total;
    total, rest := ReadLoop(buffer, max_len - 1, script);
    buffer[total] := '\0';
    assert buffer[..total] == Received(script, max_len - 1).0;
    ret := total;
  }

  method CopyInto(buffer: array<char>, at: nat, bytes: string, n: nat)
    requires n <= |bytes| && at + n <= buffer.Length
    modifies buffer
    ensures forall k :: at <= k < at + n ==> buffer[k] == bytes[k - at]
    ensures forall k :: 0 <= k < buffer.Length && !(at <= k < at + n) ==> buffer[k] == old(buffer[k])
  {
    for i := 0 to n
      invariant forall k :: at <= k < at + i ==> buffer[k] == bytes[k - at]
      invariant forall k :: 0 <= k < buffer.Length && !(at <= k < at + i) ==> buffer[k] == old(buffer[k])
    {
      buffer[at + i] := bytes[i];
    }
  }
}
