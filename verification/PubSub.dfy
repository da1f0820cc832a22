/** Subscriptions per channel, and the delivery of published messages. */
module PubSub {
  import opened Octets
  import R = Resp

  type Channels = map<Bytes, seq<int>>

  /** No channel is kept with an empty list. */
  ghost predicate NoEmptyChannel(subs: Channels) { forall ch :: ch in subs ==> subs[ch] != [] }

  function ListOf(subs: Channels, ch: Bytes): seq<int> { if ch in subs then subs[ch] else [] }

  /** How often a client is subscribed to a channel. */
  function Count(subs: Channels, ch: Bytes, fd: int): nat { multiset(ListOf(subs, ch))[fd] }

  function Without(fds: seq<int>, fd: int): (r: seq<int>)
    ensures |r| <= |fds|
  {
    if fds == [] then []
    else if fds[0] == fd then Without(fds[1..], fd)
    else [fds[0]] + Without(fds[1..], fd)
  }

  /** Removing a client removes all its subscriptions to the channel and nobody else's. */
  lemma {:induction false} WithoutCounts(fds: seq<int>, fd: int, other: int)
    ensures multiset(Without(fds, fd))[other] == if other == fd then 0 else multiset(fds)[other]
  {
    if fds != [] {
      WithoutCounts(fds[1..], fd, other);
      assert fds == [fds[0]] + fds[1..];
    }
  }

  /** `std::remove` followed by `erase`, in one pass. */
  method RemoveAll(fds: seq<int>, fd: int) returns (r: seq<int>)
    ensures r == Without(fds, fd)
  {
    r := [];
    var i := 0;
    assert fds[0..] == fds;
    while i < |fds|
      invariant i <= |fds| && r + Without(fds[i..], fd) == Without(fds, fd)
    {
      assert fds[i..][1..] == fds[i + 1..];
      if fds[i] != fd {
        r := r + [fds[i]];
      }
      i := i + 1;
    }
  }

  lemma WithoutNothing(fd: int)
    ensures Without([], fd) == []
  {
  }

  method StripClient(subs: Channels, fd: int) returns (r: Channels)
    ensures r.Keys == subs.Keys && forall ch :: ch in subs ==> r[ch] == Without(subs[ch], fd)
  {
    hide Without;
    r := subs;
    var left := subs.Keys;
    while left != {}
      invariant left <= subs.Keys && r.Keys == subs.Keys
      invariant forall ch :: ch in subs ==> r[ch] == if ch in left then subs[ch] else Without(subs[ch], fd)
      decreases left
    {
      var ch :| ch in left;
      var fds := RemoveAll(r[ch], fd);
      r := r[ch := fds];
      left := left - {ch};
    }
  }

  method DropEmpty(subs: Channels) returns (r: Channels)
    ensures NoEmptyChannel(r) && forall ch :: ListOf(r, ch) == ListOf(subs, ch)
  {
    r := subs;
    var left := subs.Keys;
    while left != {}
      invariant left <= subs.Keys
      invariant forall ch :: ListOf(r, ch) == ListOf(subs, ch)
      invariant forall ch :: ch in r && ch !in left ==> r[ch] != []
      decreases left
    {
      var ch :| ch in left;
      if ListOf(r, ch) == [] {
        r := r - {ch};
      }
      left := left - {ch};
    }
  }

  class PubSubManager {
    var subscribers: Channels

    ghost predicate Valid()
      reads this
    {
      NoEmptyChannel(subscribers)
    }

    constructor ()
      ensures Valid() && subscribers == map[]
    {
      subscribers := map[];
    }

    /** One more subscription of this client to this channel; all other counts are kept. */
    method Subscribe(fd: int, channel: Bytes)
      requires Valid()
      modifies this
      ensures Valid() && ListOf(subscribers, channel) == ListOf(old(subscribers), channel) + [fd]
      ensures forall ch, f :: Count(subscribers, ch, f)
                           == Count(old(subscribers), ch, f) + if ch == channel && f == fd then 1 else 0
    {
      subscribers := subscribers[channel := ListOf(subscribers, channel) + [fd]];
    }

    method Unsubscribe(fd: int, channel: Bytes)
      requires Valid()
      modifies this
      ensures Valid() && ListOf(subscribers, channel) == Without(ListOf(old(subscribers), channel), fd)
      ensures forall ch, f :: Count(subscribers, ch, f)
                           == if ch == channel && f == fd then 0 else Count(old(subscribers), ch, f)
    {
      var before := ListOf(subscribers, channel);
      var subs := RemoveAll(before, fd);
      subscribers := subscribers[channel := subs];
      if subs == [] {
        subscribers := subscribers - {channel};
      }
      forall f
        ensures multiset(subs)[f] == if f == fd then 0 else multiset(before)[f]
      {
        WithoutCounts(before, fd, f);
      }
    }

    /** Two passes: strip the client from every list, then drop the lists that became empty. */
    method UnsubscribeAll(fd: int)
      requires Valid()
      modifies this
      ensures Valid()
      ensures forall ch :: ListOf(subscribers, ch) == Without(ListOf(old(subscribers), ch), fd)
      ensures forall ch, f :: Count(subscribers, ch, f) == if f == fd then 0 else Count(old(subscribers), ch, f)
    {
      hide Without;
      ghost var start := subscribers;
      var stripped := StripClient(subscribers, fd);
      subscribers := DropEmpty(stripped);
      WithoutNothing(fd);
      forall ch, f
        ensures Count(subscribers, ch, f) == if f == fd then 0 else Count(start, ch, f)
      {
        WithoutCounts(ListOf(start, ch), fd, f);
      }
    }

    method GetSubscribers(channel: Bytes) returns (fds: seq<int>)
      ensures fds == ListOf(subscribers, channel)
    {
      fds := if channel in subscribers then subscribers[channel] else [];
    }
  }

  // ----- Publishing -----

  /** The message queues of the registered clients. */
  type Queues = map<int, seq<Bytes>>

  function Deliver(queues: Queues, fds: seq<int>, msg: Bytes): Queues
    decreases |fds|
  {
    if fds == [] then queues
    else
      var fd := fds[0];
      Deliver(if fd in queues then queues[fd := queues[fd] + [msg]] else queues, fds[1..], msg)
  }

  /** How many queue entries a delivery makes. */
  function Delivered(queues: Queues, fds: seq<int>): nat {
    if fds == [] then 0 else (if fds[0] in queues then 1 else 0) + Delivered(queues, fds[1..])
  }

  function Repeat(msg: Bytes, n: nat): seq<Bytes> { seq(n, _ => msg) }

  const MESSAGE: Bytes := [109, 101, 115, 115, 97, 103, 101]

  /** What a subscriber is sent: an array of three, then the word "message", the channel and the
      message, each with its length. */
  function Notification(channel: Bytes, message: Bytes): Bytes {
    [42, 51, 13, 10] + [36, 55, 13, 10] + MESSAGE + CRLF
    + R.Header(36, |channel|) + channel + CRLF + R.Header(36, |message|) + message + CRLF
  }

  /** The subscriber reads exactly those three words. */
  lemma NotificationArrives(channel: Bytes, message: Bytes, tail: Bytes)
    requires |Notification(channel, message) + tail| < TWO_64
    ensures var b := Notification(channel, message);
            var words := [R.BulkString(MESSAGE), R.BulkString(channel), R.BulkString(message)];
            R.Parse(b + tail, 0) == R.Ok(R.Array(words), |b|)
  {
    hide R.Parse;
    var ws := [R.Bulk(MESSAGE), R.Bulk(channel), R.Bulk(message)];
    ThreeWords(channel, message);
    var b := Notification(channel, message);
    hide Notification, R.Print;
    assert (b + tail)[0..|b|] == b;
    R.ParseUndoesPrint(R.Multi(ws), b + tail, 0);
    assert R.MeaningAll(ws) == [R.BulkString(MESSAGE), R.BulkString(channel), R.BulkString(message)];
  }

  lemma PrintThree(a: R.Wire, b: R.Wire, c: R.Wire)
    ensures R.Print(R.Multi([a, b, c])) == R.Header(42, 3) + (R.Print(a) + (R.Print(b) + R.Print(c)))
  {
    var ws := [a, b, c];
    var rest, last := ws[1..], ws[2..];
    assert rest[1..] == last && last[1..] == [];
    assert R.Print(R.Multi(ws)) == R.Header(42, 3) + R.PrintAll(ws);
    hide R.Header, R.Print;
    assert R.PrintAll(last) == R.Print(c) + R.PrintAll([]);
    assert R.PrintAll(rest) == R.Print(b) + R.PrintAll(last);
    assert R.PrintAll(ws) == R.Print(a) + R.PrintAll(rest);
  }

  lemma PrintBulk(t: Bytes)
    ensures R.Print(R.Bulk(t)) == R.Header(36, |t|) + (t + CRLF)
  {
    hide R.Header;
  }

  lemma SmallHeaders()
    ensures R.Header(42, 3) == [42, 51, 13, 10] && R.Header(36, 7) == [36, 55, 13, 10]
  {
  }

  lemma Regroup(h: Bytes, i: Bytes, m: Bytes, j: Bytes, c: Bytes, k: Bytes, t: Bytes, e: Bytes)
    ensures h + ((i + (m + e)) + ((j + (c + e)) + (k + (t + e)))) == h + i + m + e + j + c + e + k + t + e
  {
  }

  lemma ThreeWords(channel: Bytes, message: Bytes)
    ensures R.Print(R.Multi([R.Bulk(MESSAGE), R.Bulk(channel), R.Bulk(message)])) == Notification(channel, message)
  {
    hide R.Header, R.Print;
    PrintThree(R.Bulk(MESSAGE), R.Bulk(channel), R.Bulk(message));
    PrintBulk(MESSAGE);
    PrintBulk(channel);
    PrintBulk(message);
    SmallHeaders();
    Regroup([42, 51, 13, 10], [36, 55, 13, 10], MESSAGE, R.Header(36, |channel|), channel, R.Header(36, |message|), message, CRLF);
  }

  /** The loop of PUBLISH; the reply is the number of listed subscribers. */
  method Publish(manager: PubSubManager, queues: Queues, channel: Bytes, message: Bytes)
    returns (receivers: nat, queues': Queues)
    ensures receivers == |ListOf(manager.subscribers, channel)|
    ensures queues' == Deliver(queues, ListOf(manager.subscribers, channel), Notification(channel, message))
  {
    var fds := manager.GetSubscribers(channel);
    var msg := Notification(channel, message);
    hide Notification;
    receivers := |fds|;
    queues' := queues;
    var i := 0;
    assert fds[0..] == fds;
    while i < |fds|
      invariant i <= |fds| && Deliver(queues', fds[i..], msg) == Deliver(queues, fds, msg)
    {
      assert fds[i..][1..] == fds[i + 1..];
      if fds[i] in queues' {
        queues' := queues'[fds[i] := queues'[fds[i]] + [msg]];
      }
      i := i + 1;
    }
    assert fds[i..] == [];
  }

  /** Every registered client receives one copy per subscription, behind what it had; nobody is
      registered or dropped. */
  lemma {:induction false} DeliveryConserves(queues: Queues, fds: seq<int>, msg: Bytes)
    ensures Deliver(queues, fds, msg).Keys == queues.Keys
    ensures forall fd :: fd in queues ==>
              Deliver(queues, fds, msg)[fd] == queues[fd] + Repeat(msg, multiset(fds)[fd])
    decreases |fds|
  {
    if fds != [] {
      var x, q := fds[0], if fds[0] in queues then queues[fds[0] := queues[fds[0]] + [msg]] else queues;
      DeliveryConserves(q, fds[1..], msg);
      assert fds == [x] + fds[1..];
      forall fd | fd in queues
        ensures Deliver(queues, fds, msg)[fd] == queues[fd] + Repeat(msg, multiset(fds)[fd])
      {
        var n := multiset(fds[1..])[fd];
        assert multiset(fds)[fd] == n + if fd == x then 1 else 0;
        assert queues[fd] + [msg] + Repeat(msg, n) == queues[fd] + Repeat(msg, n + 1);
      }
    } else {
      assert forall fd :: fd in queues ==> queues[fd] + Repeat(msg, 0) == queues[fd];
    }
  }

  /** PUBLISH reports at least as many receivers as messages queued, and exactly as many if and
      only if every subscriber on the list is still registered. */
  lemma {:induction false} PublishCount(queues: Queues, fds: seq<int>)
    ensures Delivered(queues, fds) <= |fds|
    ensures Delivered(queues, fds) == |fds| <==> forall i :: 0 <= i < |fds| ==> fds[i] in queues
  {
    if fds != [] {
      PublishCount(queues, fds[1..]);
      if forall i :: 0 <= i < |fds[1..]| ==> fds[1..][i] in queues {
        assert forall i :: 1 <= i < |fds| ==> fds[i] == fds[1..][i - 1];
      } else {
        var i :| 0 <= i < |fds[1..]| && fds[1..][i] !in queues;
        assert fds[i + 1] !in queues;
      }
    }
  }

  /** The length of all queues together, the registered clients listed in some order. */
  function Total(queues: Queues, order: seq<int>): nat
    requires forall i :: 0 <= i < |order| ==> order[i] in queues
  {
    if order == [] then 0 else |queues[order[0]]| + Total(queues, order[1..])
  }

  predicate Registered(queues: Queues, order: seq<int>) {
    && (forall i, j :: 0 <= i < j < |order| ==> order[i] != order[j])
    && (forall i :: 0 <= i < |order| ==> order[i] in queues)
    && (forall fd :: fd in queues ==> fd in order)
  }

  /** The queues together grow by exactly the number of deliveries. */
  lemma {:induction false} DeliveredIsGrowth(queues: Queues, order: seq<int>, fds: seq<int>, msg: Bytes)
    requires Registered(queues, order)
    ensures Registered(Deliver(queues, fds, msg), order)
    ensures Total(Deliver(queues, fds, msg), order) == Total(queues, order) + Delivered(queues, fds)
    decreases |fds|
  {
    if fds != [] {
      var x := fds[0];
      var q := if x in queues then queues[x := queues[x] + [msg]] else queues;
      assert q.Keys == queues.Keys;
      DeliveredIsGrowth(q, order, fds[1..], msg);
      SameRegistrations(queues, q, fds[1..]);
      if x in queues {
        TotalUpdate(queues, order, x, msg);
      }
    }
  }

  lemma {:induction false} TotalUpdate(queues: Queues, order: seq<int>, x: int, msg: Bytes)
    requires x in queues && (forall i :: 0 <= i < |order| ==> order[i] in queues)
    requires forall i, j :: 0 <= i < j < |order| ==> order[i] != order[j]
    ensures Total(queues[x := queues[x] + [msg]], order) == Total(queues, order) + if x in order then 1 else 0
    decreases |order|
  {
    if order != [] {
      TotalUpdate(queues, order[1..], x, msg);
      assert x in order <==> x == order[0] || x in order[1..];
    }
  }

  lemma {:induction false} SameRegistrations(p: Queues, q: Queues, fds: seq<int>)
    requires p.Keys == q.Keys
    ensures Delivered(p, fds) == Delivered(q, fds)
  {
    if fds != [] {
      SameRegistrations(p, q, fds[1..]);
      assert fds[0] in p.Keys <==> fds[0] in q.Keys;
    }
  }
}
