/** The whole way of a message: datagrams of bytes, as the senders of src/commu/mcast.cpp put them on the
    network, through the receive loop. */
module Networks {
  import opened MulticastSession
  import opened Multicast
  import Datagram

  datatype Parcel = Parcel(from: string, bytes: string)

  /** The bytes are those of a packet that the sender has sent. */
  ghost predicate Posted(bytes: string, sent: seq<string>) {
    exists p :: Honest(p, sent) && bytes == Datagram.Sent(p.messageNum, p.fragNum, p.frag)
  }

  /** The headers of this sender fit into the 20 spare bytes of the receiver. */
  ghost predicate Modest(sent: seq<string>) {
    |sent| <= 1_000_000_000 && forall m | m in sent :: |m| < 10_000 * FRAGMENT
  }

  /** What the receive loop makes of the bytes. */
  ghost function Opened(parcels: seq<Parcel>): seq<Arrival>
    requires forall p | p in parcels :: Datagram.Received(p.bytes).Some?
  {
    seq(|parcels|, i requires 0 <= i < |parcels| => Arrival(parcels[i].from, Datagram.Received(parcels[i].bytes).value))
  }

  lemma OpenedAsPosted(bytes: string, sent: seq<string>)
    requires Posted(bytes, sent) && Modest(sent)
    ensures var r := Datagram.Received(bytes); r.Some? && Honest(r.value, sent)
  {
    hide Datagram.Received, Datagram.Header;
    var p :| Honest(p, sent) && bytes == Datagram.Sent(p.messageNum, p.fragNum, p.frag);
    if p.fragNum == -1 {
      Datagram.ShortGoodbye(|sent|);
    } else {
      PieceLength(sent[p.messageNum], p.fragNum);
      assert sent[p.messageNum] in sent;
      Datagram.ShortHeader(p.messageNum, p.fragNum, p.length);
    }
    Datagram.WhatFitsComesThrough(p.messageNum, p.fragNum, p.frag);
  }

  /** Whatever datagrams the network loses, repeats or reorders, every message handed out is byte for byte one
      that its sender sent under that number; nothing throws, nothing divides by zero, and every ratio that is
      reported is a percentage. */
  lemma ByteForByte(parcels: seq<Parcel>, limit: nat, sent: map<string, seq<string>>)
    requires forall p | p in parcels :: p.from in sent && Posted(p.bytes, sent[p.from]) && Modest(sent[p.from])
    ensures forall p | p in parcels :: Datagram.Received(p.bytes).Some?
    ensures var run := Run(Opened(parcels), limit);
      run.History? && ReportsSound(run.reports) && forall d | d in run.deliveries :: Genuine(d, sent)
  {
    hide Posted, Modest, Honest, Datagram.Received, ReportsSound;
    forall p | p in parcels
      ensures Datagram.Received(p.bytes).Some? && Honest(Datagram.Received(p.bytes).value, sent[p.from])
    {
      OpenedAsPosted(p.bytes, sent[p.from]);
    }
    RunSound(Opened(parcels), limit, sent);
  }
}
