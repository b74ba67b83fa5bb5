/**
 * The simulated wire of networking.py: `VirtualLink`, a map from address to a
 * FIFO queue of packets, in which every address that is ever touched gets a
 * queue (Python's `defaultdict(Queue)`), and the broadcast address always has one.
 */
module Links {

  newtype Byte = b: int | 0 <= b < 256

  /** An opaque payload. The empty packet is the falsy value: it stands for both
      `b""` and `None`, which every test in the core treats alike. */
  type Packet = seq<Byte>

  type Address = string

  /** The link's `inq`: the queue of every address that has one. */
  type Queues = map<Address, seq<Packet>>

  /** `VirtualLink.broadcast_addr`, seven segments. */
  const BroadcastAddr: Address := "00:00:00:00:00:00:00"

  /** What `recv` hands back: the head of the queue, `""` when the queue is
      empty, or `None` when the link has been stopped. */
  datatype Reception = Delivered(packet: Packet) | NoPacket | LinkDown

  /** Reading `inq[a]` of a `defaultdict`: an address without a queue reads as an
      empty one. */
  function Queue(q: Queues, a: Address): seq<Packet>
  {
    if a in q then q[a] else []
  }

  /** Whether the queue of `a` gets a copy of a packet sent to `target`: every
      queue already present for a broadcast; the target and the broadcast queue
      for a unicast. */
  predicate Receives(q: Queues, target: Address, a: Address)
  {
    if target == BroadcastAddr then a in q else a == target || a == BroadcastAddr
  }

  /** The queues after `send(packet, target)` on a live link. */
  function Deliver(q: Queues, p: Packet, target: Address): (r: Queues)
    ensures r.Keys == q.Keys + (if target == BroadcastAddr then {} else {target, BroadcastAddr})
    ensures forall a :: a in r ==> r[a] == Queue(q, a) + (if Receives(q, target, a) then [p] else [])
  {
    if target == BroadcastAddr then
      map a | a in q :: q[a] + [p]
    else
      var q1 := q[target := Queue(q, target) + [p]];
      q1[BroadcastAddr := Queue(q, BroadcastAddr) + [p]]
  }

  /** The queues and the result after `recv(a)` on a live link. */
  function Take(q: Queues, a: Address): (r: (Queues, Reception))
    ensures r.0.Keys == q.Keys + {a}
    ensures r.1.NoPacket? <==> Queue(q, a) == []
    ensures r.1.NoPacket? ==> r.0 == q[a := []]
    ensures r.1.Delivered? ==> Queue(q, a) == [r.1.packet] + r.0[a]
    ensures !r.1.LinkDown?
    ensures forall b :: b in q && b != a ==> r.0[b] == q[b]
  {
    var s := Queue(q, a);
    if s == [] then (q[a := []], NoPacket) else (q[a := s[1..]], Delivered(s[0]))
  }

  /** `len(link)` after a receive: one more for an address that had no queue,
      unchanged otherwise. */
  lemma TakeCreatesQueue(q: Queues, a: Address)
    ensures a in q ==> |Take(q, a).0| == |q|
    ensures a !in q ==> |Take(q, a).0| == |q| + 1
  {
  }

  /** Several sends of the same target, in order. */
  function DeliverAll(q: Queues, ps: seq<Packet>, target: Address): Queues
    decreases |ps|
  {
    if ps == [] then q else DeliverAll(Deliver(q, ps[0], target), ps[1..], target)
  }

  /** `n` receptions at the same address, in order. */
  function TakeN(q: Queues, a: Address, n: nat): (Queues, seq<Reception>)
    decreases n
  {
    if n == 0 then (q, [])
    else
      var (q1, r) := Take(q, a);
      var (q2, rs) := TakeN(q1, a, n - 1);
      (q2, [r] + rs)
  }

  function AllDelivered(ps: seq<Packet>): (rs: seq<Reception>)
  {
    seq(|ps|, i requires 0 <= i < |ps| => Delivered(ps[i]))
  }

  /** One send to `target` appends to the queue of a receiving address, which
      goes on receiving later sends to the same target. */
  lemma DeliverReaches(q: Queues, p: Packet, target: Address, a: Address)
    requires Receives(q, target, a)
    ensures Queue(Deliver(q, p, target), a) == Queue(q, a) + [p]
    ensures Receives(Deliver(q, p, target), target, a)
  {
  }

  lemma AppendFirst(xs: seq<Packet>, ps: seq<Packet>)
    requires ps != []
    ensures xs + [ps[0]] + ps[1..] == xs + ps
  {
    assert ps == [ps[0]] + ps[1..];
  }

  /** Sends to `target` reach the queue of an address that receives them in the
      order they were sent, after what was already queued. */
  lemma {:induction false} SendsQueueInOrder(q: Queues, ps: seq<Packet>, target: Address, a: Address)
    requires Receives(q, target, a)
    ensures Queue(DeliverAll(q, ps, target), a) == Queue(q, a) + ps
    decreases |ps|
  {
    if ps != [] {
      var q1 := Deliver(q, ps[0], target);
      DeliverReaches(q, ps[0], target, a);
      SendsQueueInOrder(q1, ps[1..], target, a);
      assert DeliverAll(q, ps, target) == DeliverAll(q1, ps[1..], target);
      AppendFirst(Queue(q, a), ps);
    }
  }

  /** Receiving as many times as there are packets at the front of a queue hands
      back exactly those packets, oldest first, and leaves the rest queued. */
  lemma {:induction false} TakesAreFifo(q: Queues, a: Address, xs: seq<Packet>, ys: seq<Packet>)
    requires Queue(q, a) == xs + ys
    ensures TakeN(q, a, |xs|).1 == AllDelivered(xs)
    ensures Queue(TakeN(q, a, |xs|).0, a) == ys
    decreases |xs|
  {
    if xs != [] {
      var (q1, r) := Take(q, a);
      assert r == Delivered(xs[0]);
      assert Queue(q1, a) == xs[1..] + ys;
      TakesAreFifo(q1, a, xs[1..], ys);
      assert [r] + AllDelivered(xs[1..]) == AllDelivered(xs);
    }
  }

  /** End to end on a live link: packets sent to a target are received at a
      receiving address once each and in order, and then the queue is empty. */
  lemma FifoDelivery(q: Queues, ps: seq<Packet>, target: Address, a: Address)
    requires Receives(q, target, a) && Queue(q, a) == []
    ensures TakeN(DeliverAll(q, ps, target), a, |ps|).1 == AllDelivered(ps)
    ensures Take(TakeN(DeliverAll(q, ps, target), a, |ps|).0, a).1 == NoPacket
  {
    SendsQueueInOrder(q, ps, target, a);
    assert Queue(DeliverAll(q, ps, target), a) == ps + [];
    TakesAreFifo(DeliverAll(q, ps, target), a, ps, []);
  }

  /** `VirtualLink`: a shared wire whose queues the nodes on it fill and drain. */
  class VirtualLink {
    const name: string
    var keepListening: bool
    var inq: Queues

    /** The broadcast address always has a queue. */
    ghost predicate Valid()
      reads this
    {
      BroadcastAddr in inq
    }

    constructor (name: string := "vlan1")
      ensures Valid()
      ensures this.name == name && keepListening
      ensures inq == map[BroadcastAddr := []]
    {
      this.name := name;
      keepListening := true;
      inq := map[BroadcastAddr := []];
    }

    /** `len(link)`: the number of addresses that have a queue on this link. */
    function Len(): (n: nat)
      reads this
      ensures Valid() ==> n >= 1
    {
      |inq|
    }

    /** `start` has nothing to set up and always reports success. */
    method Start() returns (ok: bool)
      ensures ok
    {
      ok := true;
    }

    /** `stop` marks the link down and leaves every queue as it is. */
    method Stop() returns (ok: bool)
      modifies this
      ensures ok && !keepListening
      ensures inq == old(inq)
    {
      keepListening := false;
      ok := true;
    }

    /** `recv(mac_addr)` with a zero timeout: pops the head of the address's
        queue, creating the queue if the address had none. */
    method Recv(addr: Address := BroadcastAddr) returns (r: Reception)
      modifies this
      ensures old(Valid()) ==> Valid()
      ensures keepListening == old(keepListening)
      ensures old(keepListening) ==> (inq, r) == Take(old(inq), addr)
      ensures !old(keepListening) ==> r == LinkDown && inq == old(inq)
    {
      if keepListening {
        var s := Queue(inq, addr);
        if s == [] {
          inq := inq[addr := []];
          r := NoPacket;
        } else {
          inq := inq[addr := s[1..]];
          r := Delivered(s[0]);
        }
      } else {
        r := LinkDown;
      }
    }

    /** `send(packet, mac_addr)`: a copy in every queue for a broadcast, a copy
        in the target's and in the broadcast queue for a unicast. */
    method Send(p: Packet, target: Address := BroadcastAddr)
      modifies this
      ensures old(Valid()) ==> Valid()
      ensures keepListening == old(keepListening)
      ensures inq == if old(keepListening) then Deliver(old(inq), p, target) else old(inq)
    {
      if keepListening {
        if target == BroadcastAddr {
          inq := map a | a in inq :: inq[a] + [p];
        } else {
          inq := inq[target := Queue(inq, target) + [p]];
          inq := inq[BroadcastAddr := Queue(inq, BroadcastAddr) + [p]];
        }
      }
    }
  }

  /** Once a link is down, a receive reports the link down, sending and
      receiving change none of its queues, and stopping it again leaves it in
      the same state. */
  method StoppedLinkIsInert(link: VirtualLink, p: Packet, target: Address, addr: Address) returns (r: Reception)
    modifies link
    ensures r == LinkDown
    ensures !link.keepListening && link.inq == old(link.inq)
  {
    var _ := link.Stop();
    link.Send(p, target);
    r := link.Recv(addr);
    var _ := link.Stop();
  }
}
