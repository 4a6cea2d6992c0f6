/** The tunnel: bytes are passed on in both directions until one side closes, nothing comes, or too much came. */
module ProxyRelay {
  import opened Common

  const MAXIMUM_TUNNEL_BYTES_PER_DIRECTION := 16 * 1024 * 1024

  datatype Side = Client | Remote

  /** What the selector reports next: a read from one side, empty when it closed, or raising, or that nothing came in
      time. A send to the other side may fail after any part of the data. */
  datatype Event = Idle | Read(from: Side, data: seq<byte>, sent: Option<nat>) | ReadRaises(from: Side)

  datatype Ending = Closed | IdleTimeout | LimitExceeded | SendFailed | ReceiveFailed

  /** What was read from one side. */
  function Received(from: Side, events: seq<Event>): seq<byte> {
    if events == [] then []
    else
      var last := events[|events| - 1];
      Received(from, events[..|events| - 1]) + (if last.Read? && last.from == from then last.data else [])
  }

  /** sendall: all of the data, or a part of it when it fails. */
  function SentOf(data: seq<byte>, sent: Option<nat>): (r: seq<byte>)
    ensures r <= data
  {
    if sent.None? || sent.value >= |data| then data else data[..sent.value]
  }

  /** A send that failed before all of the data had gone. */
  predicate Partial(data: seq<byte>, sent: Option<nat>) {
    sent.Some? && sent.value < |data|
  }

  /** A read of something that was passed on completely. */
  predicate PassedOn(e: Event) {
    e.Read? && e.data != [] && !Partial(e.data, e.sent)
  }

  /** relay; the last event decides how it ends. */
  method Relay(initial: seq<byte>, initialSent: Option<nat>, events: seq<Event>)
    returns (ending: Option<Ending>, used: nat, toRemote: seq<byte>, toClient: seq<byte>)
    requires |initial| <= MAXIMUM_TUNNEL_BYTES_PER_DIRECTION
    ensures used <= |events|
    // It goes on over reads that were passed on completely.
    ensures forall k :: 0 <= k < used && (ending.None? || k < used - 1) ==> PassedOn(events[k])
    // In each direction a prefix of what was received is passed on, and never more than the limit.
    ensures toRemote <= initial + Received(Client, events[..used]) && |toRemote| <= 16777216
    ensures toClient <= Received(Remote, events[..used]) && |toClient| <= 16777216
    // Unless a send failed or the limit was exceeded nothing is lost.
    ensures ending != Some(SendFailed) && ending != Some(LimitExceeded) ==>
              toRemote == initial + Received(Client, events[..used]) && toClient == Received(Remote, events[..used])
    // It ends for these reasons only.
    ensures ending.None? ==> used == |events|
    ensures ending == Some(Closed) ==> used > 0 && events[used - 1].Read? && events[used - 1].data == []
    ensures ending == Some(ReceiveFailed) ==> used > 0 && events[used - 1].ReadRaises?
    ensures ending == Some(IdleTimeout) ==> used > 0 && events[used - 1].Idle?
    // What exceeds the limit is not passed on at all, and a send that fails passes on what it sent.
    ensures ending == Some(LimitExceeded) ==>
              used > 0 && (|initial| + |Received(Client, events[..used])| > 16777216 || |Received(Remote, events[..used])| > 16777216) &&
              toRemote == initial + Received(Client, events[..used - 1]) && toClient == Received(Remote, events[..used - 1])
    ensures ending == Some(SendFailed) && used == 0 ==> Partial(initial, initialSent) && toRemote == initial[..initialSent.value]
    ensures ending == Some(SendFailed) && used > 0 ==>
              var e, fromClient, fromRemote := events[used - 1], Received(Client, events[..used - 1]), Received(Remote, events[..used - 1]);
              && e.Read? && Partial(e.data, e.sent)
              && toRemote == initial + fromClient + (if e.from == Client then e.data[..e.sent.value] else [])
              && toClient == fromRemote + (if e.from == Remote then e.data[..e.sent.value] else [])
  {
    hide Received;
    toRemote, toClient, used := SentOf(initial, initialSent), [], 0;
    ReceivedNothing(events);
    assert initial + [] == initial;
    if toRemote != initial { return Some(SendFailed), used, toRemote, toClient; }
    var fromClient, fromRemote := |initial|, 0;
    while used < |events|
      invariant used <= |events| && forall k :: 0 <= k < used ==> PassedOn(events[k])
      invariant toRemote == initial + Received(Client, events[..used]) && toClient == Received(Remote, events[..used])
      invariant fromClient == |toRemote| <= MAXIMUM_TUNNEL_BYTES_PER_DIRECTION
      invariant fromRemote == |toClient| <= MAXIMUM_TUNNEL_BYTES_PER_DIRECTION
    {
      var e := events[used];
      ReceivedNext(events, used, initial);
      used := used + 1;
      if e.Idle? { return Some(IdleTimeout), used, toRemote, toClient; }
      if e.ReadRaises? { return Some(ReceiveFailed), used, toRemote, toClient; }
      if e.data == [] { return Some(Closed), used, toRemote, toClient; }
      if e.from == Client { fromClient := fromClient + |e.data|; } else { fromRemote := fromRemote + |e.data|; }
      if fromClient > MAXIMUM_TUNNEL_BYTES_PER_DIRECTION || fromRemote > MAXIMUM_TUNNEL_BYTES_PER_DIRECTION {
        return Some(LimitExceeded), used, toRemote, toClient;
      }
      var sent := SentOf(e.data, e.sent);
      if e.from == Client { toRemote := toRemote + sent; } else { toClient := toClient + sent; }
      if sent != e.data { return Some(SendFailed), used, toRemote, toClient; }
    }
    ending := None;
  }

  lemma ReceivedNothing(events: seq<Event>)
    ensures Received(Client, events[..0]) == [] && Received(Remote, events[..0]) == []
  {
  }

  lemma ReceivedNext(events: seq<Event>, i: nat, initial: seq<byte>)
    requires i < |events|
    ensures var data: Side -> seq<byte> := s => if events[i].Read? && events[i].from == s then events[i].data else [];
            Received(Client, events[..i + 1]) == Received(Client, events[..i]) + data(Client) &&
            Received(Remote, events[..i + 1]) == Received(Remote, events[..i]) + data(Remote) &&
            initial + Received(Client, events[..i + 1]) == (initial + Received(Client, events[..i])) + data(Client)
  {
    assert events[..i + 1][..i] == events[..i];
  }
}
