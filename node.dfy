/**
 * `Node` of networking.py without its threads: an endpoint on one or more links
 * that runs every received packet through its filters into a per-interface
 * inbound queue, and every sent packet through its filters onto the links.
 * The chain of filters always starts with the node's own `LoopbackFilter`.
 */
module Nodes {
  import opened Links
  import opened Filters
  import opened MacAddresses

  /** The address a promiscuous node polls (networking.py:201): six segments,
      so it is not `BroadcastAddr`, which has seven. */
  const PromiscuousAddr: Address := "00:00:00:00:00:00"

  /** The `interfaces` argument of `Node.send`: none, a single link, or a
      list, tuple or set of links in the order it iterates. An empty one of
      these is falsy, so it stands for all interfaces. */
  datatype Targets = AllInterfaces | Only(link: VirtualLink) | Listed(links: seq<VirtualLink>)

  /** The receive pass of `Node.recv`: the loopback filter first, then the
      additional filters, stopping at the first drop. */
  function IngressPass(c: Counts, hash: Packet -> Hash, fs: seq<Filter>, p: Packet, iface: VirtualLink): (r: (Counts, Packet))
    ensures p == [] ==> r == (c, [])
    ensures p != [] && Pending(c, hash(p)) > 0 ==> r.1 == []
    ensures p != [] && Pending(c, hash(p)) > 0 ==> Pending(r.0, hash(p)) == Pending(c, hash(p)) - 1
    ensures Pending(c, hash(p)) == 0 ==> r == (c, TrChain(fs, p, iface))
    ensures forall h :: h != hash(p) ==> Pending(r.0, h) == Pending(c, h)
  {
    if p == [] then (c, [])
    else
      var (c1, q) := LoopbackTr(c, hash, p);
      (c1, TrChain(fs, q, iface))
  }

  /** The send pass that `Node.send` runs for one interface: the loopback filter,
      then every additional filter, with no early stop. */
  function EgressStep(c: Counts, hash: Packet -> Hash, fs: seq<Filter>, p: Packet, iface: VirtualLink): (r: (Counts, Packet))
    ensures r.1 == TxChain(fs, p, iface)
    ensures p == [] ==> r.0 == c
    ensures p != [] ==> Pending(r.0, hash(p)) == Pending(c, hash(p)) + 1
    ensures forall h :: h != hash(p) ==> Pending(r.0, h) == Pending(c, h)
  {
    var (c1, q) := LoopbackTx(c, hash, p);
    (c1, TxChain(fs, q, iface))
  }

  /** The state of `Node.send`'s loop over its target interfaces: the loopback
      counts, the packet the loop variable now holds, and what each interface
      so far was handed (the empty packet where nothing was sent). */
  datatype Egress = Egress(counts: Counts, carried: Packet, outs: seq<Packet>)

  /** `Node.send`'s loop over `ts`: each interface runs the send pass on what
      the previous interface's pass returned. */
  function EgressRun(c: Counts, hash: Packet -> Hash, fs: seq<Filter>, p: Packet, ts: seq<VirtualLink>): (e: Egress)
    ensures |e.outs| == |ts|
    ensures ts == [] ==> e.carried == p
    ensures ts != [] ==> e.carried == e.outs[|ts| - 1]
    decreases |ts|
  {
    if ts == [] then Egress(c, p, [])
    else
      var prev := EgressRun(c, hash, fs, p, ts[..|ts| - 1]);
      var (c1, q) := EgressStep(prev.counts, hash, fs, prev.carried, ts[|ts| - 1]);
      Egress(c1, q, prev.outs + [q])
  }

  /** The packets the loop put on link `l`, in order. */
  function Deliveries(ts: seq<VirtualLink>, outs: seq<Packet>, l: VirtualLink): seq<Packet>
    requires |outs| == |ts|
    decreases |ts|
  {
    if ts == [] then []
    else
      var n := |ts| - 1;
      Deliveries(ts[..n], outs[..n], l) + (if ts[n] == l && outs[n] != [] then [outs[n]] else [])
  }

  lemma EgressRunStep(c: Counts, hash: Packet -> Hash, fs: seq<Filter>, p: Packet, ts: seq<VirtualLink>, i: nat)
    requires i < |ts|
    ensures var prev := EgressRun(c, hash, fs, p, ts[..i]);
      var (c1, q) := EgressStep(prev.counts, hash, fs, prev.carried, ts[i]);
      EgressRun(c, hash, fs, p, ts[..i + 1]) == Egress(c1, q, prev.outs + [q])
  {
    assert ts[..i + 1][..i] == ts[..i];
  }

  lemma DeliveriesStep(ts: seq<VirtualLink>, outs: seq<Packet>, p: Packet, i: nat, l: VirtualLink)
    requires i < |ts| && |outs| == i
    ensures Deliveries(ts[..i + 1], outs + [p], l)
            == if ts[i] == l && p != [] then Deliveries(ts[..i], outs, l) + [p] else Deliveries(ts[..i], outs, l)
  {
    assert ts[..i + 1][..i] == ts[..i];
    assert (outs + [p])[..i] == outs;
  }

  /** One more interface of `Node.send`'s loop, seen from link `l`: its queues
      change only if it is that interface, the packet survived and it is live. */
  lemma LinkAfterStep(q0: Queues, live: bool, ts: seq<VirtualLink>, outs: seq<Packet>, p: Packet, i: nat,
                      l: VirtualLink, cur: Queues, next: Queues)
    requires i < |ts| && |outs| == i
    requires cur == LinkAfter(q0, live, Deliveries(ts[..i], outs, l))
    requires next == if ts[i] == l && p != [] && live then Deliver(cur, p, BroadcastAddr) else cur
    ensures next == LinkAfter(q0, live, Deliveries(ts[..i + 1], outs + [p], l))
  {
    DeliveriesStep(ts, outs, p, i, l);
    if ts[i] == l && p != [] && live {
      BroadcastAppends(q0, Deliveries(ts[..i], outs, l), p);
    }
  }

  /** Every queue of a link after broadcasts of `ps`. */
  function AppendAll(q: Queues, ps: seq<Packet>): Queues
  {
    map a | a in q :: q[a] + ps
  }

  /** A link's queues after broadcasts of `ps`, which do nothing on a stopped link. */
  function LinkAfter(q: Queues, live: bool, ps: seq<Packet>): Queues
  {
    if live then AppendAll(q, ps) else q
  }

  lemma AppendNothing(q: Queues)
    ensures AppendAll(q, []) == q
  {
    assert forall a :: a in q ==> q[a] + [] == q[a];
  }

  lemma BroadcastAppends(q: Queues, ps: seq<Packet>, p: Packet)
    ensures Deliver(AppendAll(q, ps), p, BroadcastAddr) == AppendAll(q, ps + [p])
  {
    assert forall a :: a in q ==> q[a] + ps + [p] == q[a] + (ps + [p]);
  }

  /** Once a send pass drops the packet, no later interface of the same
      `Node.send` gets it, as long as the additional filters keep drops. */
  lemma {:induction false} DropSticksAcrossInterfaces(c: Counts, hash: Packet -> Hash, fs: seq<Filter>, p: Packet, ts: seq<VirtualLink>, k: nat, j: nat)
    requires forall i :: 0 <= i < |ts| ==> KeepDrops(fs, ts[i])
    requires k < j < |ts|
    requires EgressRun(c, hash, fs, p, ts).outs[k] == []
    ensures EgressRun(c, hash, fs, p, ts).outs[j] == []
    decreases |ts|
  {
    var n := |ts| - 1;
    var prev := EgressRun(c, hash, fs, p, ts[..n]);
    assert EgressRun(c, hash, fs, p, ts).outs == prev.outs + [EgressStep(prev.counts, hash, fs, prev.carried, ts[n]).1];
    if j < n {
      DropSticksAcrossInterfaces(c, hash, fs, p, ts[..n], k, j);
    } else {
      if k < n - 1 {
        DropSticksAcrossInterfaces(c, hash, fs, p, ts[..n], k, n - 1);
      }
      assert prev.carried == [];
    }
  }

  /** With no additional filters, `Node.send` of a non-empty packet hands it to
      every target interface and raises its loopback count once per interface. */
  lemma {:induction false} EveryInterfaceCounts(c: Counts, hash: Packet -> Hash, p: Packet, ts: seq<VirtualLink>)
    requires p != []
    ensures var e := EgressRun(c, hash, [], p, ts);
      && Pending(e.counts, hash(p)) == Pending(c, hash(p)) + |ts|
      && (forall h :: h != hash(p) ==> Pending(e.counts, h) == Pending(c, h))
      && (forall i :: 0 <= i < |ts| ==> e.outs[i] == p)
    decreases |ts|
  {
    if ts != [] {
      var n := |ts| - 1;
      EveryInterfaceCounts(c, hash, p, ts[..n]);
      var prev := EgressRun(c, hash, [], p, ts[..n]);
      assert prev.carried == p;
    }
  }

  /** With no additional filters, a target that appears once among `ts` gets
      exactly one copy of the packet from `Node.send`. */
  lemma OneCopyPerTarget(c: Counts, hash: Packet -> Hash, p: Packet, ts: seq<VirtualLink>, i: nat)
    requires p != [] && i < |ts|
    requires forall j :: 0 <= j < |ts| && j != i ==> ts[j] != ts[i]
    ensures Deliveries(ts, EgressRun(c, hash, [], p, ts).outs, ts[i]) == [p]
  {
    EveryInterfaceCounts(c, hash, p, ts);
    OneCopyWhenEveryPassSends(EgressRun(c, hash, [], p, ts).outs, p, ts, i);
  }

  /** A target that appears once among `ts`, when every pass handed on `p`,
      gets exactly one copy. */
  lemma {:induction false} OneCopyWhenEveryPassSends(outs: seq<Packet>, p: Packet, ts: seq<VirtualLink>, i: nat)
    requires |outs| == |ts| && i < |ts|
    requires forall j :: 0 <= j < |outs| ==> outs[j] == p
    requires p != []
    requires forall j :: 0 <= j < |ts| && j != i ==> ts[j] != ts[i]
    ensures Deliveries(ts, outs, ts[i]) == [p]
    decreases |ts|
  {
    var n := |ts| - 1;
    if i < n {
      OneCopyWhenEveryPassSends(outs[..n], p, ts[..n], i);
    } else {
      NoCopyForOthers(outs[..n], ts[..n], ts[i]);
    }
  }

  lemma {:induction false} NoCopyForOthers(outs: seq<Packet>, ts: seq<VirtualLink>, l: VirtualLink)
    requires |outs| == |ts|
    requires l !in ts
    ensures Deliveries(ts, outs, l) == []
    decreases |ts|
  {
    if ts != [] {
      NoCopyForOthers(outs[..|ts| - 1], ts[..|ts| - 1], l);
    }
  }

  /** A node with only its loopback filter that sends a packet to `K` interfaces
      drops exactly the next `K` copies of it that it receives, if nothing was
      pending for its hash before. */
  lemma OwnEchoesDropped(c: Counts, hash: Packet -> Hash, p: Packet, ts: seq<VirtualLink>)
    requires p != [] && Pending(c, hash(p)) == 0
    ensures TrTimes(EgressRun(c, hash, [], p, ts).counts, hash, p, |ts| + 1).1 == Drops(|ts|) + [p]
  {
    EveryInterfaceCounts(c, hash, p, ts);
    PendingSuppressions(EgressRun(c, hash, [], p, ts).counts, hash, p, |ts|);
  }

  /** A node: its links, its address, its filters and its inbound queues. The
      attached program is not part of this class (see `Switches`). */
  class Node {
    const name: string
    const interfaces: seq<VirtualLink>
    const promiscuous: bool
    const macAddr: Address
    const loopback: LoopbackFilter
    const extraFilters: seq<Filter>
    var inq: map<VirtualLink, seq<Packet>>

    /** `Node(interfaces, name, promiscuous, mac_addr, Filters)`, with the same
        defaults. An empty `macAddr` stands for `None`; the address is then
        generated from the draws `macChoices`. `hash` is the loopback filter's
        hash function. */
    constructor (hash: Packet -> Hash, macChoices: seq<seq<nat>>, interfaces: seq<VirtualLink> := [],
                 name: string := "n1", promiscuous: bool := false, macAddr: Address := "",
                 filters: seq<Filter> := [])
      requires macAddr == "" ==> ValidChoices(macChoices, 6, 2, HexDigits)
      ensures this.interfaces == interfaces && this.name == name && this.promiscuous == promiscuous
      ensures this.macAddr == if macAddr != "" then macAddr else Join(Segments(HexDigits, macChoices), ":")
      ensures fresh(loopback) && loopback.hash == hash && loopback.sentHashes == map[]
      ensures extraFilters == filters && inq == map[]
    {
      var addr := macAddr;
      if addr == "" {
        addr := GenerateMac(6, 2, ":", HexDigits, macChoices);
      }
      this.name := name;
      this.interfaces := interfaces;
      this.promiscuous := promiscuous;
      this.macAddr := addr;
      loopback := new LoopbackFilter(hash);
      extraFilters := filters;
      inq := map[];
    }

    /** `self.inq[interface]` of the `defaultdict`. */
    function Inbox(iface: VirtualLink): seq<Packet>
      reads this
    {
      if iface in inq then inq[iface] else []
    }

    /** The address the poll loop reads, as networking.py:201 writes it. */
    function ListenAddressAsWritten(): (a: Address)
      ensures !promiscuous ==> a == macAddr
      ensures promiscuous ==> a != BroadcastAddr
    {
      if promiscuous then PromiscuousAddr else macAddr
    }

    /** The address the poll loop is meant to read: the broadcast queue for a
        promiscuous node, as the comment on `VirtualLink.recv` says. */
    function ListenAddress(): (a: Address)
      ensures !promiscuous ==> a == macAddr
      ensures promiscuous ==> a == BroadcastAddr
    {
      if promiscuous then BroadcastAddr else macAddr
    }

    /** Lines 223-224 of `Node.send`: no argument or an empty one means every
        interface; a single link is wrapped in a list (a link is never falsy,
        as its broadcast queue makes its `len` at least one). */
    function Resolve(targets: Targets): (ts: seq<VirtualLink>)
      ensures targets.AllInterfaces? || targets == Listed([]) ==> ts == interfaces
      ensures ts == [] <==> interfaces == [] && (targets.AllInterfaces? || targets == Listed([]))
      ensures targets.Only? ==> ts == [targets.link]
      ensures targets.Listed? && targets.links != [] ==> ts == targets.links
    {
      match targets
      case AllInterfaces => interfaces
      case Only(l) => [l]
      case Listed(ls) => if ls == [] then interfaces else ls
    }

    /** The additional filters' receive pass, stopping at the first drop. */
    method ApplyTr(p: Packet, iface: VirtualLink) returns (q: Packet)
      ensures q == TrChain(extraFilters, p, iface)
    {
      q := p;
      var k := 0;
      while k < |extraFilters| && q != []
        invariant 0 <= k <= |extraFilters|
        invariant TrChain(extraFilters, p, iface) == TrChain(extraFilters[k..], q, iface)
      {
        assert extraFilters[k..][1..] == extraFilters[k + 1..];
        q := extraFilters[k].tr(q, iface);
        k := k + 1;
      }
    }

    /** The additional filters' send pass, every filter in turn. */
    method ApplyTx(p: Packet, iface: VirtualLink) returns (q: Packet)
      ensures q == TxChain(extraFilters, p, iface)
    {
      q := p;
      var k := 0;
      while k < |extraFilters|
        invariant 0 <= k <= |extraFilters|
        invariant q == TxChain(extraFilters[..k], p, iface)
      {
        assert extraFilters[..k + 1][..k] == extraFilters[..k];
        q := extraFilters[k].tx(q, iface);
        k := k + 1;
      }
      assert extraFilters[..k] == extraFilters;
    }

    /** `Node.recv(packet, interface)`: the receive pass, then the inbound queue
        of the interface if something survived. */
    method Recv(packet: Packet, iface: VirtualLink)
      modifies this, loopback
      ensures var (c, q) := IngressPass(old(loopback.sentHashes), loopback.hash, extraFilters, packet, iface);
        && loopback.sentHashes == c
        && inq == if q != [] then old(inq)[iface := old(Inbox(iface)) + [q]] else old(inq)
    {
      var p := packet;
      if p != [] {
        p := loopback.Tr(p, iface);
        p := ApplyTr(p, iface);
      }
      if p != [] {
        inq := inq[iface := Inbox(iface) + [p]];
      }
    }

    /** The body of `Node.send`'s loop for one interface: the send pass, then a
        broadcast of the result on the interface unless it was dropped. */
    method Transmit(p: Packet, iface: VirtualLink) returns (q: Packet)
      modifies loopback, iface
      ensures (loopback.sentHashes, q) == EgressStep(old(loopback.sentHashes), loopback.hash, extraFilters, p, iface)
      ensures iface.keepListening == old(iface.keepListening)
      ensures iface.inq == if q != [] && old(iface.keepListening) then Deliver(old(iface.inq), q, BroadcastAddr) else old(iface.inq)
    {
      q := loopback.Tx(p, iface);
      q := ApplyTx(q, iface);
      if q != [] {
        iface.Send(q);
      }
    }

    /** The state of every target link after the first `i` passes of
        `Node.send`'s loop, from their state before the loop. */
    ghost predicate LinksAgree(ts: seq<VirtualLink>, i: nat, outs: seq<Packet>,
                               inq0: map<VirtualLink, Queues>, live0: map<VirtualLink, bool>)
      reads ts
    {
      && i <= |ts| && |outs| == i
      && forall l :: l in ts ==>
           && l in inq0 && l in live0
           && l.keepListening == live0[l]
           && l.inq == LinkAfter(inq0[l], live0[l], Deliveries(ts[..i], outs, l))
    }

    /** Before `Node.send`'s loop nothing has been sent on any target link. */
    lemma LinksAgreeAtStart(ts: seq<VirtualLink>, inq0: map<VirtualLink, Queues>, live0: map<VirtualLink, bool>)
      requires forall l :: l in ts ==> l in inq0 && l in live0 && inq0[l] == l.inq && live0[l] == l.keepListening
      ensures LinksAgree(ts, 0, [], inq0, live0)
    {
      forall l | l in ts ensures l.inq == LinkAfter(inq0[l], live0[l], Deliveries(ts[..0], [], l)) {
        AppendNothing(l.inq);
      }
    }

    /** After the last pass of `Node.send`'s loop, every target link holds its
        queues from before the loop plus all that was broadcast on it. */
    lemma LinksAgreeAtEnd(ts: seq<VirtualLink>, outs: seq<Packet>, inq0: map<VirtualLink, Queues>, live0: map<VirtualLink, bool>)
      requires LinksAgree(ts, |ts|, outs, inq0, live0)
      ensures forall l :: l in ts ==>
        && l in inq0 && l in live0
        && l.keepListening == live0[l]
        && l.inq == LinkAfter(inq0[l], live0[l], Deliveries(ts, outs, l))
    {
      assert ts[..|ts|] == ts;
    }

    /** Pass `i` of `Node.send`'s loop. */
    method SendTo(ts: seq<VirtualLink>, i: nat, p: Packet, ghost c0: Counts, ghost packet: Packet, ghost outs: seq<Packet>,
                  ghost inq0: map<VirtualLink, Queues>, ghost live0: map<VirtualLink, bool>) returns (q: Packet)
      requires i < |ts|
      requires EgressRun(c0, loopback.hash, extraFilters, packet, ts[..i]) == Egress(loopback.sentHashes, p, outs)
      requires LinksAgree(ts, i, outs, inq0, live0)
      modifies loopback, ts[i]
      ensures EgressRun(c0, loopback.hash, extraFilters, packet, ts[..i + 1]) == Egress(loopback.sentHashes, q, outs + [q])
      ensures LinksAgree(ts, i + 1, outs + [q], inq0, live0)
    {
      var iface := ts[i];
      q := Transmit(p, iface);
      EgressRunStep(c0, loopback.hash, extraFilters, packet, ts, i);
      forall l | l in ts
        ensures l.keepListening == live0[l]
        ensures l.inq == LinkAfter(inq0[l], live0[l], Deliveries(ts[..i + 1], outs + [q], l))
      {
        LinkAfterStep(inq0[l], live0[l], ts, outs, q, i, l, old(l.inq), l.inq);
      }
    }

    /** What a call of `Node.send(packet)` over the interfaces `ts` did: the
        loopback counts and every target link's queues, from the state before. */
    twostate predicate Sent(ts: seq<VirtualLink>, packet: Packet)
      reads loopback, ts
    {
      var e := EgressRun(old(loopback.sentHashes), loopback.hash, extraFilters, packet, ts);
      && loopback.sentHashes == e.counts
      && forall l :: l in ts ==>
           && l.keepListening == old(l.keepListening)
           && l.inq == LinkAfter(old(l.inq), old(l.keepListening), Deliveries(ts, e.outs, l))
    }

    /** `Node.send(packet, interfaces)`: for each target in turn, the send pass
        on the packet as the previous target left it, then a broadcast on that
        link if the result is not empty. */
    method Send(packet: Packet, targets: Targets := AllInterfaces)
      modifies loopback, Resolve(targets)
      ensures Sent(Resolve(targets), packet)
    {
      var ts := Resolve(targets);
      ghost var inq0: map<VirtualLink, Queues> := map l: VirtualLink | l in ts :: l.inq;
      ghost var live0: map<VirtualLink, bool> := map l: VirtualLink | l in ts :: l.keepListening;
      var p := packet;
      ghost var outs: seq<Packet> := [];
      var i := 0;
      LinksAgreeAtStart(ts, inq0, live0);
      while i < |ts|
        invariant 0 <= i <= |ts|
        invariant EgressRun(old(loopback.sentHashes), loopback.hash, extraFilters, packet, ts[..i]) == Egress(loopback.sentHashes, p, outs)
        invariant LinksAgree(ts, i, outs, inq0, live0)
      {
        p := SendTo(ts, i, p, old(loopback.sentHashes), packet, outs, inq0, live0);
        outs := outs + [p];
        i := i + 1;
      }
      assert ts[..i] == ts;
      LinksAgreeAtEnd(ts, outs, inq0, live0);
    }
  }

  /** What networking.py:201 does: a promiscuous node polls the six-segment
      address, whose queue gets no copy of a unicast to another address. */
  lemma PromiscuousNodeMissesUnicast(node: Node, q: Queues, p: Packet, target: Address)
    requires node.promiscuous
    requires target != BroadcastAddr && target != PromiscuousAddr
    ensures Queue(Deliver(q, p, target), node.ListenAddressAsWritten()) == Queue(q, node.ListenAddressAsWritten())
  {
  }

  /** The scope of the same line: once the node's first poll has created the
      six-segment queue, every broadcast on the link, and so every packet a
      `Node.send` puts there, still reaches it. */
  lemma PromiscuousNodeGetsBroadcasts(node: Node, q: Queues, p: Packet)
    requires node.promiscuous
    requires PromiscuousAddr in q
    ensures Queue(Deliver(q, p, BroadcastAddr), node.ListenAddressAsWritten()) == Queue(q, node.ListenAddressAsWritten()) + [p]
  {
  }

  /** What a promiscuous node is meant to see: polling the broadcast queue, it
      gets a copy of every packet sent on the link, unicast or broadcast. */
  lemma PromiscuousNodeSeesAllTraffic(node: Node, q: Queues, p: Packet, target: Address)
    requires node.promiscuous
    requires BroadcastAddr in q
    ensures Queue(Deliver(q, p, target), node.ListenAddress()) == Queue(q, node.ListenAddress()) + [p]
  {
  }
}
