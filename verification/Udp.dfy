/** The UDP listener: one receive buffer, and one stream per remote address. */
module Udp {
  import opened Bytes

  const BUFFER_SIZE: nat := 65535

  /**
   What happens to the listener: a packet arrives, and its stream's writer accepts it or fails; the
   copier of a stream is given a chunk of replies, and `WriteTo` works or fails; or `ReadFrom` fails,
   `closed` telling whether with exactly `io.EOF` or `net.ErrClosed`.
   */
  datatype Event =
    | Packet(addr: string, payload: Bytes, accepted: bool)
    | Reply(stream: nat, chunk: Bytes, works: bool)
    | ReadError(closed: bool)

  datatype Datagram = Datagram(addr: string, data: Bytes)

  // ----- the specification: filters over the trace -----

  /** `ReadFrom` discards what does not fit the buffer. */
  function Received(payload: Bytes): Bytes {
    if |payload| <= BUFFER_SIZE then payload else payload[..BUFFER_SIZE]
  }

  /** The addresses packets came from, each once, in order of first arrival. */
  function Arrivals(events: seq<Event>): seq<string> {
    if events == [] then []
    else
      var before, e := Arrivals(events[..|events| - 1]), events[|events| - 1];
      if e.Packet? && e.addr !in before then before + [e.addr] else before
  }

  /** No more and no less than the first 65535 bytes. */
  lemma ReceivedIs(payload: Bytes)
    ensures Received(payload) <= payload
    ensures |payload| <= 65535 ==> Received(payload) == payload
    ensures |payload| > 65535 ==> |Received(payload)| == 65535
  {
  }

  /** The payloads of the accepted packets from one address, as they were sent, in order. */
  function AcceptedFrom(events: seq<Event>, addr: string): seq<Bytes> {
    if events == [] then []
    else if events[0].Packet? && events[0].addr == addr && events[0].accepted then
      [events[0].payload] + AcceptedFrom(events[1..], addr)
    else AcceptedFrom(events[1..], addr)
  }

  lemma {:induction false} AcceptedSnoc(events: seq<Event>, e: Event, addr: string)
    ensures AcceptedFrom(events + [e], addr) ==
      AcceptedFrom(events, addr) + if e.Packet? && e.addr == addr && e.accepted then [e.payload] else []
  {
    if events == [] {
      assert [e][1..] == [];
    } else {
      assert (events + [e])[0] == events[0] && (events + [e])[1..] == events[1..] + [e];
      AcceptedSnoc(events[1..], e, addr);
    }
  }

  predicate NoneTooLong(events: seq<Event>) {
    forall i :: 0 <= i < |events| && events[i].Packet? ==> |events[i].payload| <= 65535
  }

  /** What a writer holds is the payloads themselves, as long as no packet is longer than the buffer. */
  lemma {:induction false} PayloadsAreAccepted(events: seq<Event>, addr: string)
    requires NoneTooLong(events)
    ensures PayloadsFrom(events, addr) == Concat(AcceptedFrom(events, addr))
  {
    if events != [] {
      var n := |events| - 1;
      PayloadsAreAccepted(events[..n], addr);
      AcceptedSnoc(events[..n], events[n], addr);
      assert events == events[..n] + [events[n]];
      if events[n].Packet? {
        ConcatSnoc(AcceptedFrom(events[..n], addr), events[n].payload);
      }
      assert AcceptedFrom(events[..n], addr) + [] == AcceptedFrom(events[..n], addr);
    }
  }

  /** The payloads of the accepted packets from one address, concatenated in order. */
  function PayloadsFrom(events: seq<Event>, addr: string): Bytes {
    if events == [] then []
    else
      var before, e := PayloadsFrom(events[..|events| - 1], addr), events[|events| - 1];
      if e.Packet? && e.addr == addr && e.accepted then before + Received(e.payload) else before
  }

  /** The chunk is one of the stream that the first packet from `addr` created. */
  predicate IsReplyTo(past: seq<Event>, e: Event, addr: string) {
    e.Reply? && e.stream < |Arrivals(past)| && Arrivals(past)[e.stream] == addr
  }

  /** A `WriteTo` to the address has failed, which ends the copier of its stream. */
  predicate CopierEnded(events: seq<Event>, addr: string) {
    events != [] &&
    var past, e := events[..|events| - 1], events[|events| - 1];
      CopierEnded(past, addr) || (IsReplyTo(past, e, addr) && !e.works)
  }

  /** The reply chunks for an address, in order, up to the first that could not be sent. */
  function RepliesTo(events: seq<Event>, addr: string): seq<Bytes> {
    if events == [] then []
    else
      var past, e := events[..|events| - 1], events[|events| - 1];
      if IsReplyTo(past, e, addr) && e.works && !CopierEnded(past, addr) then RepliesTo(past, addr) + [e.chunk]
      else RepliesTo(past, addr)
  }

  function SentTo(sent: seq<Datagram>, addr: string): seq<Bytes> {
    if sent == [] then []
    else
      var before, d := SentTo(sent[..|sent| - 1], addr), sent[|sent| - 1];
      if d.addr == addr then before + [d.data] else before
  }

  /** The loop ends at a packet whose writer fails and at an error of `ReadFrom`. */
  predicate Stops(e: Event) {
    (e.Packet? && !e.accepted) || e.ReadError?
  }

  /** What ends the loop is an error of the listener unless it is exactly `io.EOF` or `net.ErrClosed`. */
  predicate IsError(e: Event) {
    Stops(e) && !(e.ReadError? && e.closed)
  }

  /** The events up to and including the first that ends the loop. */
  function Handled(events: seq<Event>): seq<Event> {
    if events == [] then []
    else if Stops(events[0]) then [events[0]]
    else [events[0]] + Handled(events[1..])
  }

  lemma {:induction false} HandledIs(events: seq<Event>, n: nat)
    requires n <= |events| && forall i :: 0 <= i < n ==> !Stops(events[i])
    ensures n == |events| ==> Handled(events) == events
    ensures n < |events| && Stops(events[n]) ==> Handled(events) == events[..n + 1]
  {
    if n > 0 {
      HandledIs(events[1..], n - 1);
      if n < |events| && Stops(events[n]) {
        assert events[..n + 1] == [events[0]] + events[1..][..n];
      }
    }
  }

  /** Where the loop stands after i events: it has returned, and with an error, if the last of them says so. */
  ghost predicate StandsAt(events: seq<Event>, i: nat, returned: bool, err: bool)
    requires i <= |events|
  {
    && (forall j :: 0 <= j < i - 1 ==> !Stops(events[j]))
    && returned == (i > 0 && Stops(events[i - 1]))
    && err == (i > 0 && IsError(events[i - 1]))
  }

  lemma HandledUpTo(events: seq<Event>, i: nat, returned: bool, err: bool)
    requires i <= |events| && (returned || i == |events|) && StandsAt(events, i, returned, err)
    ensures Handled(events) == events[..i]
    ensures returned <==> exists j :: 0 <= j < |events| && Stops(events[j])
    ensures returned ==> Stops(Handled(events)[|Handled(events)| - 1])
    ensures err <==> returned && IsError(Handled(events)[|Handled(events)| - 1])
  {
    HandledIs(events, if returned then i - 1 else i);
    assert !returned ==> events[..i] == events;
  }

  /** Every address that sent a packet is listed, and listed once. */
  lemma {:induction false} ArrivalsAreDistinct(events: seq<Event>, addr: string)
    ensures addr in Arrivals(events) <==> exists i :: 0 <= i < |events| && events[i].Packet? && events[i].addr == addr
    ensures forall i, j :: 0 <= i < j < |Arrivals(events)| ==> Arrivals(events)[i] != Arrivals(events)[j]
  {
    if events != [] {
      var n := |events| - 1;
      ArrivalsAreDistinct(events[..n], addr);
      var e := events[n];
      if e.Packet? && e.addr == addr {
        assert events[n].Packet? && events[n].addr == addr;
      }
      if i :| 0 <= i < |events| && events[i].Packet? && events[i].addr == addr && i < n {
        assert events[..n][i].Packet? && events[..n][i].addr == addr;
      }
    }
  }

  /**
   What the listener holds after `events`: one stream per address in order of arrival, and everything
   else a filter of the trace by address.
   */
  ghost predicate Filtered(events: seq<Event>, addrs: seq<string>, inboxes: seq<Bytes>, copying: seq<bool>,
                           sent: seq<Datagram>)
  {
    && addrs == Arrivals(events)
    && |inboxes| == |addrs| == |copying|
    && (forall k :: 0 <= k < |addrs| ==> inboxes[k] == PayloadsFrom(events, addrs[k]))
    && (forall k :: 0 <= k < |addrs| ==> copying[k] == !CopierEnded(events, addrs[k]))
    && (forall a :: SentTo(sent, a) == RepliesTo(events, a))
  }

  /** A stream keeps its place: further events only add streams, at the end. */
  lemma {:induction false} ArrivalsOnlyGrow(events: seq<Event>, n: nat)
    requires n <= |events|
    ensures Arrivals(events[..n]) <= Arrivals(events)
    decreases |events|
  {
    if n == |events| {
      assert events[..n] == events;
    } else {
      var init := events[..|events| - 1];
      ArrivalsOnlyGrow(init, n);
      assert init[..n] == events[..n];
    }
  }

  // ----- the listener -----

  class PacketConn {
    var sent: seq<Datagram>

    constructor ()
      ensures sent == []
    {
      sent := [];
    }

    /** `works` is what the network will do: send the datagram, or fail. */
    method WriteTo(p: Bytes, addr: string, works: bool) returns (ok: bool)
      modifies this
      ensures ok == works
      ensures sent == old(sent) + (if works then [Datagram(addr, p)] else [])
    {
      if works {
        sent := sent + [Datagram(addr, p)];
      }
      return works;
    }
  }

  class ConnWriter {
    const conn: PacketConn
    const addr: string

    constructor (conn: PacketConn, addr: string)
      ensures this.conn == conn && this.addr == addr
    {
      this.conn, this.addr := conn, addr;
    }

    method Write(p: Bytes, works: bool) returns (ok: bool)
      modifies conn
      ensures ok == works
      ensures conn.sent == old(conn.sent) + (if works then [Datagram(addr, p)] else [])
    {
      ok := conn.WriteTo(p, addr, works);
    }
  }

  class Listener {
    const conn: PacketConn
    const buf: array<byte>
    var streams: map<string, nat>
    var inboxes: seq<Bytes>          // what each stream's writer has been given
    var writers: seq<ConnWriter>     // where each stream's copier sends replies
    var copying: seq<bool>           // whether that copier is still running

    constructor ()
      ensures fresh(conn) && fresh(buf) && Valid() && Agrees([])
    {
      conn := new PacketConn();
      buf := new byte[BUFFER_SIZE];
      streams, inboxes, writers, copying := map[], [], [], [];
    }

    ghost predicate Valid()
      reads this
    {
      && buf.Length == BUFFER_SIZE
      && |inboxes| == |writers| == |copying|
      && (forall a :: a in streams ==> streams[a] < |writers| && writers[streams[a]].addr == a)
      && (forall k :: 0 <= k < |writers| ==>
            writers[k].conn == conn && writers[k].addr in streams && streams[writers[k].addr] == k)
    }

    /** The addresses of the streams. */
    ghost function Addrs(): (addrs: seq<string>)
      reads this
      ensures |addrs| == |writers| && forall k :: 0 <= k < |addrs| ==> addrs[k] == writers[k].addr
    {
      seq(|writers|, k requires 0 <= k < |writers| reads this => writers[k].addr)
    }

    /** The state after `events`. */
    ghost predicate Agrees(events: seq<Event>)
      reads this, conn
    {
      Filtered(events, Addrs(), inboxes, copying, conn.sent)
    }

    /** `ReadFrom`: the packet overwrites the front of the buffer and leaves the rest as it was. */
    method ReadFrom(payload: Bytes) returns (nr: nat)
      requires buf.Length == BUFFER_SIZE
      modifies buf
      ensures nr == (if |payload| <= 65535 then |payload| else 65535) <= buf.Length
      ensures buf[..nr] == payload[..nr] == Received(payload)
      ensures buf[nr..] == old(buf[nr..])
    {
      nr := if |payload| <= buf.Length then |payload| else buf.Length;
      forall i | 0 <= i < nr {
        buf[i] := payload[i];
      }
    }

    /**
     The stream of an address, created on its first packet. So far it is as if the packet had not been
     accepted.
     */
    method StreamFor(addr: string, ghost payload: Bytes, ghost past: seq<Event>) returns (stream: nat)
      requires Valid() && Agrees(past)
      modifies this`streams, this`inboxes, this`writers, this`copying
      ensures Valid() && Agrees(past + [Packet(addr, payload, false)])
      ensures addr in streams && streams[addr] == stream
    {
      if addr in streams {
        assert Addrs()[streams[addr]] == addr;
        KnownAddress(past, Addrs(), inboxes, copying, conn.sent, addr, payload);
        return streams[addr];
      }
      stream := NewStream(addr, payload, past);
    }

    method NewStream(addr: string, ghost payload: Bytes, ghost past: seq<Event>) returns (stream: nat)
      requires Valid() && Agrees(past) && addr !in streams
      modifies this`streams, this`inboxes, this`writers, this`copying
      ensures Valid() && Agrees(past + [Packet(addr, payload, false)])
      ensures addr in streams && streams[addr] == stream
    {
      assert addr !in Addrs() by {
        assert forall k :: 0 <= k < |writers| ==> writers[k].addr in streams;
      }
      NewAddress(past, Addrs(), inboxes, copying, conn.sent, addr, payload);
      stream := Register(addr);
    }

    method Register(addr: string) returns (stream: nat)
      requires Valid() && addr !in streams
      modifies this`streams, this`inboxes, this`writers, this`copying
      ensures Valid() && streams == old(streams)[addr := stream]
      ensures Addrs() == old(Addrs()) + [addr]
      ensures inboxes == old(inboxes) + [[]] && copying == old(copying) + [true]
    {
      stream := |writers|;
      var w := new ConnWriter(conn, addr);
      streams := streams[addr := stream];
      writers := writers + [w];
      inboxes, copying := inboxes + [[]], copying + [true];
    }

    /**
     One iteration of the loop: exactly the packet's bytes go to its address's stream, or the listener
     fails.
     */
    method HandlePacket(addr: string, payload: Bytes, accepted: bool, ghost past: seq<Event>) returns (err: bool)
      requires Valid() && Agrees(past)
      modifies this`streams, this`inboxes, this`writers, this`copying, buf
      ensures err == !accepted
      ensures Valid() && Agrees(past + [Packet(addr, payload, accepted)])
    {
      var nr := ReadFrom(payload);
      var stream := StreamFor(addr, payload, past);
      if !accepted {
        return true;
      }
      PacketAccepted(past, Addrs(), inboxes, copying, conn.sent, stream, payload);
      inboxes := inboxes[stream := inboxes[stream] + buf[..nr]];
      return false;
    }

    /** A chunk for the copier of a stream: it sends it to the stream's address, or ends if that fails. */
    method HandleReply(stream: nat, chunk: Bytes, works: bool, ghost past: seq<Event>)
      requires Valid() && Agrees(past)
      modifies conn, this`copying
      ensures Valid() && Agrees(past + [Reply(stream, chunk, works)])
    {
      ReplyHandled(past, Addrs(), inboxes, copying, conn.sent, stream, chunk, works);
      if stream < |writers| && copying[stream] {
        var ok := writers[stream].Write(chunk, works);
        copying := copying[stream := ok];
      }
    }

    /** One event: whether the loop returns at it, and whether with an error. */
    method Handle(e: Event, ghost past: seq<Event>) returns (returned: bool, err: bool)
      requires Valid() && Agrees(past)
      modifies this`streams, this`inboxes, this`writers, this`copying, buf, conn
      ensures Valid() && Agrees(past + [e])
      ensures returned == Stops(e) && err == IsError(e)
    {
      match e {
        case Packet(addr, payload, accepted) =>
          err := HandlePacket(addr, payload, accepted, past);
          returned := err;
        case Reply(stream, chunk, works) =>
          HandleReply(stream, chunk, works, past);
          returned, err := false, false;
        case ReadError(closed) =>
          ReadFailed(past, Addrs(), inboxes, copying, conn.sent, closed);
          returned, err := true, !closed;
      }
    }

    /** The loop, up to the event that ends it if there is one. */
    method Serve(events: seq<Event>) returns (returned: bool, err: bool)
      requires Valid() && Agrees([])
      modifies this`streams, this`inboxes, this`writers, this`copying, buf, conn
      ensures Valid() && Agrees(Handled(events))
      ensures returned <==> exists i :: 0 <= i < |events| && Stops(events[i])
      ensures returned ==> Stops(Handled(events)[|Handled(events)| - 1])
      ensures err <==> returned && IsError(Handled(events)[|Handled(events)| - 1])
    {
      var i := 0;
      returned, err := false, false;
      while i < |events| && !returned
        invariant 0 <= i <= |events| && Valid() && Agrees(events[..i])
        invariant StandsAt(events, i, returned, err)
      {
        assert events[..i + 1] == events[..i] + [events[i]];
        returned, err := Handle(events[i], events[..i]);
        i := i + 1;
      }
      HandledUpTo(events, i, returned, err);
    }

    method Addresses() returns (addrs: seq<string>)
      ensures |addrs| == |writers| && forall k :: 0 <= k < |addrs| ==> addrs[k] == writers[k].addr
    {
      addrs := seq(|writers|, k requires 0 <= k < |writers| reads this => writers[k].addr);
    }
  }

  /** What one more packet changes. */
  lemma PacketAdds(past: seq<Event>, addr: string, payload: Bytes, accepted: bool)
    ensures var events := past + [Packet(addr, payload, accepted)];
      && Arrivals(events) == Arrivals(past) + (if addr in Arrivals(past) then [] else [addr])
      && (forall a :: RepliesTo(events, a) == RepliesTo(past, a))
      && (forall a :: CopierEnded(events, a) == CopierEnded(past, a))
      && (forall a :: PayloadsFrom(events, a) ==
            PayloadsFrom(past, a) + if a == addr && accepted then Received(payload) else [])
  {
    assert (past + [Packet(addr, payload, accepted)])[..|past|] == past;
  }

  /** What one more chunk of replies changes. */
  lemma ReplyAdds(past: seq<Event>, stream: nat, chunk: Bytes, works: bool)
    ensures var events := past + [Reply(stream, chunk, works)];
      && Arrivals(events) == Arrivals(past)
      && (forall a :: PayloadsFrom(events, a) == PayloadsFrom(past, a))
      && (forall a :: RepliesTo(events, a) ==
            if IsReplyTo(past, Reply(stream, chunk, works), a) && works && !CopierEnded(past, a)
            then RepliesTo(past, a) + [chunk] else RepliesTo(past, a))
      && (forall a :: CopierEnded(events, a) <==>
            CopierEnded(past, a) || (IsReplyTo(past, Reply(stream, chunk, works), a) && !works))
  {
    assert (past + [Reply(stream, chunk, works)])[..|past|] == past;
  }

  lemma SentSnoc(sent: seq<Datagram>, d: Datagram)
    ensures forall a :: SentTo(sent + [d], a) == if a == d.addr then SentTo(sent, a) + [d.data] else SentTo(sent, a)
  {
    assert (sent + [d])[..|sent|] == sent;
  }

  /** An error of `ReadFrom` adds nothing. */
  lemma ReadErrorAddsNothing(past: seq<Event>, closed: bool)
    ensures var events := past + [ReadError(closed)];
      && Arrivals(events) == Arrivals(past)
      && (forall a :: RepliesTo(events, a) == RepliesTo(past, a))
      && (forall a :: CopierEnded(events, a) == CopierEnded(past, a))
      && (forall a :: PayloadsFrom(events, a) == PayloadsFrom(past, a))
  {
    assert (past + [ReadError(closed)])[..|past|] == past;
  }

  /** An address has neither payloads nor replies before its first packet. */
  lemma {:induction false} NothingBefore(events: seq<Event>, addr: string)
    requires addr !in Arrivals(events)
    ensures PayloadsFrom(events, addr) == [] && RepliesTo(events, addr) == [] && !CopierEnded(events, addr)
  {
    if events != [] {
      NothingBefore(events[..|events| - 1], addr);
    }
  }

  // ----- one event -----

  lemma KnownAddress(past: seq<Event>, addrs: seq<string>, inboxes: seq<Bytes>, copying: seq<bool>,
                     sent: seq<Datagram>, addr: string, payload: Bytes)
    requires Filtered(past, addrs, inboxes, copying, sent) && addr in addrs
    ensures Filtered(past + [Packet(addr, payload, false)], addrs, inboxes, copying, sent)
  {
    PacketAdds(past, addr, payload, false);
  }

  lemma NewAddress(past: seq<Event>, addrs: seq<string>, inboxes: seq<Bytes>, copying: seq<bool>,
                   sent: seq<Datagram>, addr: string, payload: Bytes)
    requires Filtered(past, addrs, inboxes, copying, sent) && addr !in addrs
    ensures Filtered(past + [Packet(addr, payload, false)], addrs + [addr], inboxes + [[]], copying + [true], sent)
  {
    PacketAdds(past, addr, payload, false);
    NothingBefore(past, addr);
  }

  lemma PacketAccepted(past: seq<Event>, addrs: seq<string>, inboxes: seq<Bytes>, copying: seq<bool>,
                       sent: seq<Datagram>, stream: nat, payload: Bytes)
    requires stream < |addrs| && Filtered(past + [Packet(addrs[stream], payload, false)], addrs, inboxes, copying, sent)
    ensures Filtered(past + [Packet(addrs[stream], payload, true)], addrs,
      inboxes[stream := inboxes[stream] + Received(payload)], copying, sent)
  {
    var refused := past + [Packet(addrs[stream], payload, false)];
    PacketAdds(past, addrs[stream], payload, false);
    PacketAdds(past, addrs[stream], payload, true);
    ArrivalsAreDistinct(refused, addrs[stream]);
    assert inboxes[stream] == PayloadsFrom(refused, addrs[stream]);
  }

  lemma ReplyHandled(past: seq<Event>, addrs: seq<string>, inboxes: seq<Bytes>, copying: seq<bool>,
                     sent: seq<Datagram>, stream: nat, chunk: Bytes, works: bool)
    requires Filtered(past, addrs, inboxes, copying, sent)
    ensures var events := past + [Reply(stream, chunk, works)];
      if stream < |addrs| && copying[stream] then
        Filtered(events, addrs, inboxes, copying[stream := works],
          sent + if works then [Datagram(addrs[stream], chunk)] else [])
      else Filtered(events, addrs, inboxes, copying, sent)
  {
    ReplyAdds(past, stream, chunk, works);
    if stream < |addrs| {
      ArrivalsAreDistinct(past, addrs[stream]);
      SentSnoc(sent, Datagram(addrs[stream], chunk));
    }
    assert sent + [] == sent;
  }

  lemma ReadFailed(past: seq<Event>, addrs: seq<string>, inboxes: seq<Bytes>, copying: seq<bool>,
                   sent: seq<Datagram>, closed: bool)
    requires Filtered(past, addrs, inboxes, copying, sent)
    ensures Filtered(past + [ReadError(closed)], addrs, inboxes, copying, sent)
  {
    ReadErrorAddsNothing(past, closed);
  }

  /**
   The receive loop, with the copiers' replies interleaved in any way: however the one buffer is
   reused, there is exactly one stream per distinct address, each stream's writer holds that address's
   payloads in order, and each reply is sent to the address that created its stream, in order, up to the
   first that address cannot be sent. The loop ends at the first packet whose writer fails or the first
   error of `ReadFrom`, and without an error exactly if that is `io.EOF` or `net.ErrClosed` itself.
   */
  method Listen(events: seq<Event>)
    returns (addrs: seq<string>, inboxes: seq<Bytes>, sent: seq<Datagram>, returned: bool, err: bool)
    ensures var handled := Handled(events);
      && addrs == Arrivals(handled)
      && |inboxes| == |addrs|
      && (forall k :: 0 <= k < |addrs| ==> inboxes[k] == PayloadsFrom(handled, addrs[k]))
      && (forall a :: SentTo(sent, a) == RepliesTo(handled, a))
      && (NoneTooLong(handled) ==>
            forall k :: 0 <= k < |addrs| ==> inboxes[k] == Concat(AcceptedFrom(handled, addrs[k])))
    ensures returned <==>
      exists i :: 0 <= i < |events| && (events[i].ReadError? || (events[i].Packet? && !events[i].accepted))
    ensures err ==> returned
    ensures returned ==> var last := Handled(events)[|Handled(events)| - 1];
      !err <==> last.ReadError? && last.closed
  {
    var l := new Listener();
    returned, err := l.Serve(events);
    addrs := l.Addresses();
    if NoneTooLong(Handled(events)) {
      forall k | 0 <= k < |addrs| ensures l.inboxes[k] == Concat(AcceptedFrom(Handled(events), addrs[k])) {
        PayloadsAreAccepted(Handled(events), addrs[k]);
      }
    }
    return addrs, l.inboxes, l.conn.sent, returned, err;
  }
}
