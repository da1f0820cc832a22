/** The read loop of one connection: a fixed buffer that is refilled, drained command by
    command and shifted down. */
module Connections {
  import opened Octets
  import R = Resp
  import P = RespParsing

  const BUFFER_SIZE: nat := 8192
  const RESERVE: nat := 1024

  // ----- What one read does -----

  /** The commands found, the bytes left over, and the fault that closes the connection. */
  datatype Drained = Drained(commands: seq<R.RespValue>, rest: Bytes, fault: Option<R.Fault>)

  function Drain(b: Bytes): (d: Drained)
    ensures |d.rest| <= |b|
  {
    if b == [] then Drained([], [], None)
    else
      match R.Parse(b, 0)
      case Ok(v, n) => Before([v], Drain(b[n..]))
      case Fail(f) => Drained([], b, if f == R.IncompleteCommand then None else Some(f))
  }

  function Before(vs: seq<R.RespValue>, d: Drained): Drained { d.(commands := vs + d.commands) }

  datatype Status = Open | Dropped(fault: R.Fault) | TooLarge

  function StatusAfter(d: Drained): Status {
    if d.fault.Some? then Dropped(d.fault.value)
    else if |d.rest| >= BUFFER_SIZE - RESERVE then TooLarge
    else Open
  }

  // ----- The loop itself -----

  class Connection {
    const buf: array<byte>
    var bufPos: nat
    var status: Status
    /** The commands handed to the command processor so far, in order. */
    var executed: seq<R.RespValue>
    ghost var received: Bytes
    ghost var consumed: Bytes

    /** Nothing received is lost, duplicated or reordered: it was either consumed by a parsed
        command or stands at the front of the buffer. */
    ghost predicate Valid()
      reads this, buf
    {
      && buf.Length == BUFFER_SIZE && bufPos <= BUFFER_SIZE - 1
      && received == consumed + buf[..bufPos]
      && (status.Open? ==> bufPos < BUFFER_SIZE - RESERVE)
    }

    constructor ()
      ensures Valid() && fresh(buf)
      ensures bufPos == 0 && status == Open && executed == [] && received == [] && consumed == []
    {
      buf := new byte[BUFFER_SIZE](_ => 0);
      bufPos := 0;
      status := Open;
      executed := [];
      received := [];
      consumed := [];
    }

    /** One delivery of bytes by `read`, which is limited to the free space. */
    method OnReadable(chunk: Bytes)
      requires Valid() && status.Open?
      requires 0 < |chunk| <= BUFFER_SIZE - bufPos - 1
      modifies this, buf
      ensures Valid() && received == old(received) + chunk
      ensures var d := Drain(old(buf[..bufPos]) + chunk);
              && executed == old(executed) + d.commands
              && buf[..bufPos] == d.rest
              && status == StatusAfter(d)
    {
      ghost var b := buf[..bufPos] + chunk;
      Fill(chunk);
      var processed, fault := ProcessAll();
      Compact(processed);
      if fault.Some? {
        status := Dropped(fault.value);
      } else if bufPos >= BUFFER_SIZE - RESERVE {
        status := TooLarge;
      }
    }

    /** The outer loop over a given sequence of reads. */
    method Serve(chunks: seq<Bytes>)
      requires Valid() && status.Open? && Readable(buf[..bufPos], chunks)
      modifies this, buf
      ensures Valid()
      ensures var t := Session(old(buf[..bufPos]), chunks);
              executed == old(executed) + t.commands && buf[..bufPos] == t.rest && status == t.status
      ensures status.Open? ==> received == old(received) + Concat(chunks)
    {
      hide Drain;
      var i := 0;
      ghost var start := Session(buf[..bufPos], chunks);
      ghost var before := executed;
      assert chunks[0..] == chunks;
      while i < |chunks| && status.Open?
        invariant i <= |chunks| && Valid()
        invariant status.Open? ==> Readable(buf[..bufPos], chunks[i..])
        invariant status.Open? ==> received + Concat(chunks[i..]) == old(received) + Concat(chunks)
        invariant status.Open? ==>
                    var t := Session(buf[..bufPos], chunks[i..]);
                    && executed + t.commands == before + start.commands
                    && t.rest == start.rest && t.status == start.status
        invariant !status.Open? ==>
                    executed == before + start.commands && buf[..bufPos] == start.rest && status == start.status
        decreases |chunks| - i
      {
        assert chunks[i..][0] == chunks[i] && chunks[i..][1..] == chunks[i + 1..];
        OnReadable(chunks[i]);
        i := i + 1;
      }
    }

    method Fill(chunk: Bytes)
      requires buf.Length == BUFFER_SIZE && |chunk| <= BUFFER_SIZE - bufPos - 1
      requires received == consumed + buf[..bufPos]
      modifies this`bufPos, this`received, buf
      ensures bufPos == old(bufPos) + |chunk| && received == old(received) + chunk
      ensures buf[..bufPos] == old(buf[..bufPos]) + chunk
      ensures received == consumed + buf[..bufPos]
    {
      var i := 0;
      while i < |chunk|
        invariant i <= |chunk|
        invariant buf[..bufPos + i] == old(buf[..bufPos]) + chunk[..i]
        modifies buf
      {
        buf[bufPos + i] := chunk[i];
        i := i + 1;
        assert buf[..bufPos + i] == buf[..bufPos + i - 1] + [chunk[i - 1]];
      }
      bufPos := bufPos + |chunk|;
      received := received + chunk;
      buf[bufPos] := 0;
    }

    /** The inner loop: one parser object per command, until the buffer is used up, the rest
        is incomplete, or a fault occurs. */
    method ProcessAll() returns (processed: nat, fault: Option<R.Fault>)
      requires buf.Length == BUFFER_SIZE && bufPos <= BUFFER_SIZE - 1
      modifies this`executed
      ensures var d := Drain(buf[..bufPos]);
              && executed == old(executed) + d.commands
              && processed <= bufPos && buf[processed..bufPos] == d.rest
              && fault == d.fault
    {
      hide R.Parse, Drain, Before;
      processed := 0;
      fault := None;
      ghost var b := buf[..bufPos];
      ghost var done: seq<R.RespValue> := [];
      DrainStart(b);
      while processed < bufPos
        invariant processed <= bufPos && fault.None?
        invariant executed == old(executed) + done
        invariant Drain(b) == Before(done, Drain(b[processed..]))
        decreases bufPos - processed
      {
        assert buf[processed..bufPos] == b[processed..];
        var parser := new P.RespParser(buf[processed..bufPos]);
        var command := parser.Parse();
        if command.Raised? {
          if command.fault != R.IncompleteCommand {
            fault := Some(command.fault);
          }
          DrainStops(b, processed, done, command.fault);
          return;
        }
        var n := parser.ConsumedBytes();
        DrainStep(b, processed, done, command.value, n);
        executed := executed + [command.value];
        done := done + [command.value];
        processed := processed + n;
      }
      DrainEnds(b, done);
    }

    /** Drop the processed bytes and shift the rest to the front. */
    method Compact(processed: nat)
      requires buf.Length == BUFFER_SIZE && processed <= bufPos <= BUFFER_SIZE - 1
      requires received == consumed + buf[..bufPos]
      modifies this`bufPos, this`consumed, buf
      ensures bufPos == old(bufPos) - processed
      ensures buf[..bufPos] == old(buf[processed..bufPos])
      ensures consumed == old(consumed + buf[..processed]) && received == consumed + buf[..bufPos]
    {
      ghost var b := buf[..bufPos];
      assert b == b[..processed] + buf[processed..bufPos];
      consumed := consumed + b[..processed];
      if 0 < processed < bufPos {
        MoveDown(buf, processed, bufPos - processed);
      }
      bufPos := bufPos - processed;
    }
  }

  /** `memmove` towards the front, byte by byte. */
  method MoveDown(a: array<byte>, from: nat, n: nat)
    requires from + n <= a.Length
    modifies a
    ensures a[..n] == old(a[from..from + n])
  {
    var i := 0;
    while i < n
      invariant i <= n
      invariant forall j :: 0 <= j < i ==> a[j] == old(a[from + j])
      invariant forall j :: from + i <= j < a.Length ==> a[j] == old(a[j])
    {
      a[i] := a[from + i];
      i := i + 1;
    }
  }

  lemma DrainStart(b: Bytes)
    ensures Drain(b) == Before([], Drain(b[0..]))
  {
    assert b[0..] == b;
    assert [] + Drain(b).commands == Drain(b).commands;
  }

  lemma DrainStep(b: Bytes, p: nat, done: seq<R.RespValue>, v: R.RespValue, n: nat)
    requires p < |b| && R.Parse(b[p..], 0) == R.Ok(v, n) && p + n <= |b|
    ensures Before(done, Drain(b[p..])) == Before(done + [v], Drain(b[p + n..]))
  {
    hide R.Parse;
    assert b[p..][n..] == b[p + n..];
    var later := Drain(b[p + n..]).commands;
    assert done + ([v] + later) == done + [v] + later;
  }

  lemma DrainStops(b: Bytes, p: nat, done: seq<R.RespValue>, f: R.Fault)
    requires p < |b| && R.Parse(b[p..], 0) == R.Fail(f)
    ensures Before(done, Drain(b[p..]))
         == Drained(done, b[p..], if f == R.IncompleteCommand then None else Some(f))
  {
    hide R.Parse;
  }

  lemma DrainEnds(b: Bytes, done: seq<R.RespValue>)
    ensures Before(done, Drain(b[|b|..])) == Drained(done, [], None)
  {
  }

  // ----- Whole sessions -----

  datatype Transcript = Transcript(commands: seq<R.RespValue>, rest: Bytes, status: Status)

  /** What the loop does with a sequence of reads; reads behind a closing fault never happen. */
  function Session(pending: Bytes, chunks: seq<Bytes>): Transcript
    decreases |chunks|
  {
    if chunks == [] then Transcript([], pending, Open)
    else
      var d := Drain(pending + chunks[0]);
      if StatusAfter(d) != Open then Transcript(d.commands, d.rest, StatusAfter(d))
      else
        var t := Session(d.rest, chunks[1..]);
        t.(commands := d.commands + t.commands)
  }

  function Concat(chunks: seq<Bytes>): Bytes {
    if chunks == [] then [] else chunks[0] + Concat(chunks[1..])
  }

  /** Each read brings something and fits the space that is free when it happens. */
  predicate Readable(pending: Bytes, chunks: seq<Bytes>)
    decreases |chunks|
  {
    chunks != [] ==>
      && 0 < |chunks[0]| <= 8191 - |pending|
      && var d := Drain(pending + chunks[0]);
         StatusAfter(d) == Open ==> Readable(d.rest, chunks[1..])
  }

  /** How many whole commands the first `n` bytes of a stream hold, and how many bytes of the
      next one. */
  function Whole(ws: seq<R.Wire>, n: nat): (k: nat)
    ensures k <= |ws|
  {
    if ws == [] || n < |R.Print(ws[0])| then 0 else 1 + Whole(ws[1..], n - |R.Print(ws[0])|)
  }

  function Leftover(ws: seq<R.Wire>, n: nat): (r: nat)
    ensures r <= n
  {
    if ws == [] || n < |R.Print(ws[0])| then n else Leftover(ws[1..], n - |R.Print(ws[0])|)
  }

  /** The read ends where the parser would next start a value. */
  predicate Clean(ws: seq<R.Wire>, n: nat) {
    n == |R.PrintAll(ws)| || R.StartsValueIn(ws, n)
  }

  /** The connection survives a read that ends at byte `n` of the stream: the buffer of 8192 bytes
      keeps 1024 in reserve. */
  predicate Accepted(ws: seq<R.Wire>, n: nat) {
    Clean(ws, n) && Leftover(ws, n) < 7168
  }

  /** The byte of the stream at which the reads that happen end: the first that is not accepted,
      or the last. */
  function Halt(ws: seq<R.Wire>, n: nat, chunks: seq<Bytes>): (m: nat)
    ensures n <= m <= n + |Concat(chunks)|
    decreases |chunks|
  {
    if chunks == [] || !Accepted(ws, n) then n else Halt(ws, n + |chunks[0]|, chunks[1..])
  }

  function Pending(ws: seq<R.Wire>, n: nat): Bytes
    requires n <= |R.PrintAll(ws)|
  {
    SplitStream(ws, n);
    R.PrintAll(ws[Whole(ws, n)..])[..Leftover(ws, n)]
  }

  function Verdict(ws: seq<R.Wire>, n: nat): Status
    requires n <= |R.PrintAll(ws)|
  {
    if !Clean(ws, n) then Dropped(R.CutFaultAll(ws, n))
    else if Leftover(ws, n) >= BUFFER_SIZE - RESERVE then TooLarge
    else Open
  }

  /** The session that has seen the first `n` bytes of the stream: whole commands executed, the
      bytes of the next one kept, and the verdict on a read that ends there. */
  function UpTo(ws: seq<R.Wire>, n: nat): Transcript
    requires n <= |R.PrintAll(ws)|
  {
    Transcript(R.MeaningAll(ws[..Whole(ws, n)]), Pending(ws, n), Verdict(ws, n))
  }

  /** Every command's length fits the server's size type. */
  predicate Addressable(ws: seq<R.Wire>) {
    forall i :: 0 <= i < |ws| ==> |R.Print(ws[i])| < TWO_64
  }

  lemma {:induction false} SplitStream(ws: seq<R.Wire>, n: nat)
    requires n <= |R.PrintAll(ws)|
    ensures var k, r := Whole(ws, n), Leftover(ws, n);
            && R.PrintAll(ws) == R.PrintAll(ws[..k]) + R.PrintAll(ws[k..])
            && n == |R.PrintAll(ws[..k])| + r
            && r <= |R.PrintAll(ws[k..])|
            && (if k == |ws| then r == 0 else r < |R.Print(ws[k])|)
            && (n == |R.PrintAll(ws)| <==> k == |ws|)
  {
    hide R.Print;
    var k := Whole(ws, n);
    if ws == [] {
    } else if n < |R.Print(ws[0])| {
      assert ws[0..] == ws && ws[..0] == [];
    } else {
      var tail := ws[1..];
      SplitStream(tail, n - |R.Print(ws[0])|);
      assert ws[k..] == tail[k - 1..];
      PrintAllStep(ws, k);
    }
  }

  lemma PrintAllStep(ws: seq<R.Wire>, k: nat)
    requires 0 < k <= |ws|
    ensures R.PrintAll(ws[..k]) == R.Print(ws[0]) + R.PrintAll(ws[1..][..k - 1])
  {
    hide R.Print;
    assert ws[..k][0] == ws[0] && ws[..k][1..] == ws[1..][..k - 1];
  }

  lemma SplitBytes(ws: seq<R.Wire>, n: nat)
    requires n <= |R.PrintAll(ws)|
    ensures var k, r := Whole(ws, n), Leftover(ws, n);
            && r <= |R.PrintAll(ws[k..])|
            && R.PrintAll(ws)[..n] == R.PrintAll(ws[..k]) + R.PrintAll(ws[k..])[..r]
            && R.PrintAll(ws[k..])[r..] == R.PrintAll(ws)[n..]
  {
    hide R.PrintAll, R.Print, Whole, Leftover;
    SplitStream(ws, n);
  }

  /** The first command of a buffer is taken off its front. */
  lemma DrainFirst(w: R.Wire, rest: Bytes)
    requires R.WellFormed(w) && |R.Print(w) + rest| < TWO_64
    ensures Drain(R.Print(w) + rest) == Before([R.Meaning(w)], Drain(rest))
  {
    hide R.Parse, R.Print, R.Meaning, R.WellFormed;
    var p := R.Print(w);
    var b := p + rest;
    assert b[0..|p|] == p && b[|p|..] == rest;
    R.ParseUndoesPrint(w, b, 0);
  }

  lemma {:induction false} DrainWhole(ws: seq<R.Wire>, tail: Bytes)
    requires R.AllWellFormed(ws) && |R.PrintAll(ws) + tail| < TWO_64
    ensures Drain(R.PrintAll(ws) + tail) == Before(R.MeaningAll(ws), Drain(tail))
  {
    hide R.Parse, R.Print, R.Meaning, R.WellFormed, Drain;
    if ws == [] {
      assert R.PrintAll(ws) + tail == tail;
      assert R.MeaningAll(ws) + Drain(tail).commands == Drain(tail).commands;
    } else {
      var w, rest := ws[0], ws[1..];
      assert R.PrintAll(ws) + tail == R.Print(w) + (R.PrintAll(rest) + tail);
      DrainFirst(w, R.PrintAll(rest) + tail);
      DrainWhole(rest, tail);
      assert R.MeaningAll(ws) == [R.Meaning(w)] + R.MeaningAll(rest);
      var later := Drain(tail).commands;
      assert [R.Meaning(w)] + (R.MeaningAll(rest) + later) == R.MeaningAll(ws) + later;
    }
  }

  lemma DrainCut(w: R.Wire, n: nat)
    requires R.WellFormed(w) && n < |R.Print(w)| < TWO_64
    ensures var d, f := Drain(R.Print(w)[..n]), R.CutFault(w, n);
            && d.commands == [] && d.rest == R.Print(w)[..n]
            && d.fault == if f == R.IncompleteCommand then None else Some(f)
  {
    hide R.Parse, R.Print, R.WellFormed;
    if n > 0 {
      R.ParseCut(w, R.Print(w)[..n], 0);
    }
  }

  /** The cut of a stream is the cut of the command that it falls in. */
  lemma {:induction false} SplitFault(ws: seq<R.Wire>, n: nat)
    requires n < |R.PrintAll(ws)|
    ensures var k, r := Whole(ws, n), Leftover(ws, n);
            k < |ws| && r < |R.Print(ws[k])| && R.CutFaultAll(ws, n) == R.CutFault(ws[k], r)
  {
    hide R.Print, R.CutFault;
    if n >= |R.Print(ws[0])| {
      SplitFault(ws[1..], n - |R.Print(ws[0])|);
    }
  }

  /** One read, wherever it ends inside a stream of commands: the whole commands in the buffer
      are executed in order, the rest is kept, and the connection survives exactly when the
      read ends at the start of a value and leaves less than the threshold; otherwise it is
      closed with the fault that the stream and the cut determine. */
  lemma ReadInsideStream(ws: seq<R.Wire>, n: nat)
    requires R.AllWellFormed(ws) && Addressable(ws) && n <= |R.PrintAll(ws)| && n < TWO_64
    ensures var d := Drain(R.PrintAll(ws)[..n]);
            UpTo(ws, n) == Transcript(d.commands, d.rest, StatusAfter(d))
  {
    hide R.Parse, R.Print, R.PrintAll, R.StartsValueIn, R.Meaning, R.MeaningAll, R.WellFormed;
    hide R.CutFault, R.CutFaultAll, Drain, Whole, Leftover;
    var k, r := Whole(ws, n), Leftover(ws, n);
    SplitStream(ws, n);
    SplitBytes(ws, n);
    var rest := R.PrintAll(ws[k..])[..r];
    DrainWhole(ws[..k], rest);
    assert R.MeaningAll(ws[..k]) + [] == R.MeaningAll(ws[..k]);
    if k < |ws| {
      SplitFault(ws, n);
      StreamHead(ws, k, r);
      DrainCut(ws[k], r);
      R.CutFaultAllIsIncomplete(ws, n);
    } else {
      DrainNothing();
    }
  }

  lemma DrainNothing()
    ensures Drain([]) == Drained([], [], None)
  {
  }

  lemma StreamHead(ws: seq<R.Wire>, k: nat, r: nat)
    requires k < |ws| && r < |R.Print(ws[k])|
    ensures r <= |R.PrintAll(ws[k..])| && R.PrintAll(ws[k..])[..r] == R.Print(ws[k])[..r]
  {
    hide R.Print;
    assert ws[k..][0] == ws[k];
  }

  lemma MeaningSplit(ws: seq<R.Wire>, k: nat)
    requires k <= |ws|
    ensures R.MeaningAll(ws) == R.MeaningAll(ws[..k]) + R.MeaningAll(ws[k..])
  {
    hide R.Meaning;
    assert |ws[..k]| == k;
  }

  // Looking at the stream from the first command that is not yet executed.

  lemma {:induction false} ShiftSplit(ws: seq<R.Wire>, n: nat, c: nat)
    ensures var k, r := Whole(ws, n), Leftover(ws, n);
            && Whole(ws, n + c) == k + Whole(ws[k..], r + c)
            && Leftover(ws, n + c) == Leftover(ws[k..], r + c)
  {
    hide R.Print;
    if ws == [] || n < |R.Print(ws[0])| {
      assert ws[0..] == ws;
    } else {
      var rest, m := ws[1..], n - |R.Print(ws[0])|;
      ShiftSplit(rest, m, c);
      assert m + c == n + c - |R.Print(ws[0])|;
      assert ws[1 + Whole(rest, m)..] == rest[Whole(rest, m)..];
    }
  }

  lemma {:induction false} ShiftCut(ws: seq<R.Wire>, n: nat, c: nat)
    requires n + c <= |R.PrintAll(ws)|
    ensures var k, r := Whole(ws, n), Leftover(ws, n);
            && r + c <= |R.PrintAll(ws[k..])|
            && (n + c == |R.PrintAll(ws)| <==> r + c == |R.PrintAll(ws[k..])|)
            && R.StartsValueIn(ws, n + c) == R.StartsValueIn(ws[k..], r + c)
            && (n + c < |R.PrintAll(ws)| ==> R.CutFaultAll(ws, n + c) == R.CutFaultAll(ws[k..], r + c))
  {
    hide R.Print, R.StartsValue, R.CutFault;
    if ws == [] || n < |R.Print(ws[0])| {
      assert ws[0..] == ws;
    } else {
      ShiftCut(ws[1..], n - |R.Print(ws[0])|, c);
      assert ws[Whole(ws, n)..] == ws[1..][Whole(ws[1..], n - |R.Print(ws[0])|)..];
    }
  }

  /** What the reads did up to byte `n` and what the next read does make up what they did up to
      its end. */
  lemma UpToStep(ws: seq<R.Wire>, n: nat, c: nat)
    requires n + c <= |R.PrintAll(ws)|
    ensures var k, r := Whole(ws, n), Leftover(ws, n);
            && r + c <= |R.PrintAll(ws[k..])|
            && var t := UpTo(ws[k..], r + c);
               UpTo(ws, n + c) == t.(commands := R.MeaningAll(ws[..k]) + t.commands)
  {
    hide R.Print, R.PrintAll, R.StartsValueIn, R.CutFaultAll, R.Meaning, R.MeaningAll, Whole, Leftover;
    var k, r := Whole(ws, n), Leftover(ws, n);
    ShiftSplit(ws, n, c);
    ShiftCut(ws, n, c);
    var j := Whole(ws[k..], r + c);
    assert ws[k..][j..] == ws[k + j..];
    MeaningSplit(ws[..k + j], k);
    assert ws[..k + j][..k] == ws[..k] && ws[..k + j][k..] == ws[k..][..j];
  }

  lemma SameSuffix(ws: seq<R.Wire>, k: nat)
    requires R.AllWellFormed(ws) && Addressable(ws) && k <= |ws|
    ensures R.AllWellFormed(ws[k..]) && Addressable(ws[k..])
  {
    hide R.Print, R.WellFormed;
  }

  /** The bytes kept and the bytes of a read are again a prefix of the stream that is left. */
  lemma PendingGrows(ws: seq<R.Wire>, n: nat, c: Bytes)
    requires n <= |R.PrintAll(ws)| && c <= R.PrintAll(ws)[n..]
    ensures var k, r := Whole(ws, n), Leftover(ws, n);
            && r + |c| <= |R.PrintAll(ws[k..])|
            && Pending(ws, n) + c == R.PrintAll(ws[k..])[..r + |c|]
  {
    hide R.Print, R.PrintAll, Whole, Leftover;
    SplitStream(ws, n);
    SplitBytes(ws, n);
    var s, r := R.PrintAll(ws[Whole(ws, n)..]), Leftover(ws, n);
    assert c <= s[r..];
    assert s[..r + |c|] == s[..r] + s[r..][..|c|];
  }

  /** One read in the middle of a stream. */
  lemma ReadNext(ws: seq<R.Wire>, n: nat, c: Bytes)
    requires R.AllWellFormed(ws) && Addressable(ws)
    requires n <= |R.PrintAll(ws)| && c <= R.PrintAll(ws)[n..] && |Pending(ws, n) + c| < BUFFER_SIZE
    ensures var d, done := Drain(Pending(ws, n) + c), R.MeaningAll(ws[..Whole(ws, n)]);
            UpTo(ws, n + |c|) == Transcript(done + d.commands, d.rest, StatusAfter(d))
  {
    hide R.Print, R.PrintAll, R.MeaningAll, R.AllWellFormed, Drain, Whole, Leftover, Addressable, Pending, UpTo, StatusAfter;
    var k, r := Whole(ws, n), Leftover(ws, n);
    PendingGrows(ws, n, c);
    var left := R.PrintAll(ws[k..]);
    assert |left[..r + |c|]| == r + |c|;
    SameSuffix(ws, k);
    ReadInsideStream(ws[k..], r + |c|);
    UpToStep(ws, n, |c|);
  }

  lemma OpenIsAccepted(ws: seq<R.Wire>, n: nat)
    requires n <= |R.PrintAll(ws)|
    ensures Verdict(ws, n) == Open <==> Accepted(ws, n)
  {
    hide Clean, Leftover, R.CutFaultAll;
  }

  /** The induction behind `StreamFraming`: the first `n` bytes have been read. */
  lemma {:induction false} SessionFraming(ws: seq<R.Wire>, n: nat, chunks: seq<Bytes>)
    requires R.AllWellFormed(ws) && Addressable(ws)
    requires n <= |R.PrintAll(ws)| && Concat(chunks) <= R.PrintAll(ws)[n..] && Accepted(ws, n)
    requires Readable(Pending(ws, n), chunks)
    ensures var t := Session(Pending(ws, n), chunks);
            UpTo(ws, Halt(ws, n, chunks)) == t.(commands := R.MeaningAll(ws[..Whole(ws, n)]) + t.commands)
    decreases |chunks|
  {
    hide R.Print, R.PrintAll, R.MeaningAll, R.AllWellFormed, Drain, Accepted, Whole, Leftover, Pending, Verdict;
    hide Addressable;
    if chunks == [] {
      OpenIsAccepted(ws, n);
      var done := R.MeaningAll(ws[..Whole(ws, n)]);
      assert done + [] == done;
    } else {
      var c, rest, all := chunks[0], chunks[1..], R.PrintAll(ws);
      var m := n + |c|;
      assert all[n..][|c|..] == all[m..];
      assert c <= c + Concat(rest);
      ReadNext(ws, n, c);
      OpenIsAccepted(ws, m);
      if Accepted(ws, m) {
        SessionFraming(ws, m, rest);
      }
    }
  }

  // ----- The theorem -----

  /** How many bytes the first `i` reads bring. */
  function Sent(chunks: seq<Bytes>, i: nat): nat
    requires i <= |chunks|
  {
    if i == 0 then 0 else |chunks[0]| + Sent(chunks[1..], i - 1)
  }

  /** No read ends at a byte that is not accepted; `n` bytes came before. */
  predicate AllAccepted(ws: seq<R.Wire>, n: nat, chunks: seq<Bytes>) {
    forall i :: 0 <= i <= |chunks| ==> Accepted(ws, n + Sent(chunks, i))
  }

  lemma AllAcceptedStep(ws: seq<R.Wire>, n: nat, chunks: seq<Bytes>)
    requires chunks != []
    ensures AllAccepted(ws, n, chunks) <==> Accepted(ws, n) && AllAccepted(ws, n + |chunks[0]|, chunks[1..])
  {
    hide Accepted;
    var m, rest := n + |chunks[0]|, chunks[1..];
    assert n + Sent(chunks, 0) == n;
    forall i | 0 <= i <= |rest|
      ensures n + Sent(chunks, i + 1) == m + Sent(rest, i)
    {
    }
    if Accepted(ws, n) && AllAccepted(ws, m, rest) {
      forall i | 0 <= i <= |chunks|
        ensures Accepted(ws, n + Sent(chunks, i))
      {
        if i > 0 {
          assert Accepted(ws, m + Sent(rest, i - 1));
        }
      }
    }
  }

  /** The reads all happen exactly if each of them is accepted. */
  lemma {:induction false} HaltsAtTheEnd(ws: seq<R.Wire>, n: nat, chunks: seq<Bytes>)
    ensures Accepted(ws, Halt(ws, n, chunks)) <==> AllAccepted(ws, n, chunks)
    ensures AllAccepted(ws, n, chunks) ==> Halt(ws, n, chunks) == n + |Concat(chunks)|
    decreases |chunks|
  {
    hide Accepted;
    if chunks == [] {
      assert n + Sent(chunks, 0) == n;
    } else {
      AllAcceptedStep(ws, n, chunks);
      hide AllAccepted;
      HaltsAtTheEnd(ws, n + |chunks[0]|, chunks[1..]);
    }
  }

  lemma AtTheStart(ws: seq<R.Wire>)
    ensures Accepted(ws, 0) && Whole(ws, 0) == 0 && Pending(ws, 0) == [] && R.MeaningAll(ws[..0]) == []
  {
    hide R.Print;
    if ws != [] {
      NothingIsEmpty(ws[0]);
    }
  }

  lemma NothingIsEmpty(w: R.Wire)
    ensures |R.Print(w)| > 0 && R.StartsValue(w, 0)
  {
  }

  lemma AtTheEnd(ws: seq<R.Wire>)
    ensures var n := |R.PrintAll(ws)|;
            Accepted(ws, n) && Whole(ws, n) == |ws| && UpTo(ws, n) == Transcript(R.MeaningAll(ws), [], Open)
  {
    hide R.Print, R.PrintAll, R.MeaningAll;
    SplitStream(ws, |R.PrintAll(ws)|);
    assert ws[..|ws|] == ws;
  }

  /** Stream framing. For every list of well-formed commands and every sequence of reads that fit
      the free space of the buffer and bring the encoding of those commands, or a part of it from
      the start:
      - what the loop did, kept and decided is read off the stream and the byte at which the
        reads halt;
      - the connection stays open if and only if every read ends where a value starts and leaves
        less than the threshold of an unfinished command;
      - if the reads bring the whole encoding, then an open connection has executed exactly the
        commands, in order, and keeps nothing, and a closed one has some outstanding. */
  lemma StreamFraming(ws: seq<R.Wire>, chunks: seq<Bytes>)
    requires R.AllWellFormed(ws) && Addressable(ws)
    requires Concat(chunks) <= R.PrintAll(ws) && Readable([], chunks)
    ensures Session([], chunks) == UpTo(ws, Halt(ws, 0, chunks))
    ensures Session([], chunks).status == Open <==> AllAccepted(ws, 0, chunks)
    ensures Concat(chunks) == R.PrintAll(ws) ==>
              var t := Session([], chunks);
              if t.status == Open then t == Transcript(R.MeaningAll(ws), [], Open) else t.commands < R.MeaningAll(ws)
  {
    hide R.Print, R.PrintAll, R.MeaningAll, R.AllWellFormed, Session, Accepted, Concat, Readable, Pending, Verdict;
    hide Addressable, Whole, Halt, Leftover, AllAccepted;
    var all, n := R.PrintAll(ws), Halt(ws, 0, chunks);
    assert all[0..] == all;
    AtTheStart(ws);
    SessionFraming(ws, 0, chunks);
    OpenIsAccepted(ws, n);
    HaltsAtTheEnd(ws, 0, chunks);
    AtTheEnd(ws);
    if !Accepted(ws, n) {
      SplitStream(ws, n);
      MeaningSplit(ws, Whole(ws, n));
      SomeOutstanding(ws, Whole(ws, n));
    }
  }

  lemma SomeOutstanding(ws: seq<R.Wire>, k: nat)
    requires k < |ws|
    ensures |R.MeaningAll(ws[k..])| > 0
  {
    hide R.Meaning;
  }

  /** Commands and then a byte that starts no value: the commands are executed, and the connection
      is closed for the unknown type. */
  lemma GarbageIsRefused(ws: seq<R.Wire>, x: byte, rest: Bytes)
    requires R.AllWellFormed(ws) && |R.PrintAll(ws) + ([x] + rest)| < TWO_64 && x !in {43, 45, 58, 36, 42}
    ensures var d := Drain(R.PrintAll(ws) + ([x] + rest));
            && d == Drained(R.MeaningAll(ws), [x] + rest, Some(R.UnknownType))
            && StatusAfter(d) == Dropped(R.UnknownType)
  {
    hide R.Parse, R.Print, R.PrintAll, R.MeaningAll, R.WellFormed;
    var tail := [x] + rest;
    DrainWhole(ws, tail);
    R.MalformedStep(tail, 0, [], 0);
    assert R.MeaningAll(ws) + [] == R.MeaningAll(ws);
  }

  /** Refusal is not rare: whatever the command, a first read that ends inside its header line
      closes the connection before anything is executed. */
  lemma SplitHeaderIsRefused(ws: seq<R.Wire>, n: nat)
    requires R.WellFormed(R.Multi(ws)) && |R.Print(R.Multi(ws))| < TWO_64
    requires 0 < n < 8192 && n < |R.Header(42, |ws|)|
    ensures n <= |R.Print(R.Multi(ws))|
    ensures var all := R.Print(R.Multi(ws));
            var chunks := [all[..n], all[n..]];
            Readable([], chunks) && Session([], chunks) == Transcript([], all[..n], Dropped(R.IncompleteLine))
  {
    var w := R.Multi(ws);
    HeaderFirst(ws, n);
    hide R.Print, R.WellFormed, Drain, R.Header, R.CutFault;
    var all := R.Print(w);
    var chunks := [all[..n], all[n..]];
    DrainCut(w, n);
    assert [] + chunks[0] == all[..n];
  }

  lemma HeaderFirst(ws: seq<R.Wire>, n: nat)
    requires 0 < n < |R.Header(42, |ws|)|
    ensures n < |R.Print(R.Multi(ws))| && R.CutFault(R.Multi(ws), n) == R.IncompleteLine
  {
    hide R.Header, R.PrintAll;
  }
}
