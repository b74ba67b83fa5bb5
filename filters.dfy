/**
 * The filters of networking.py: `BaseFilter`, which passes packets through,
 * `LoopbackFilter`, which drops the echoes of a node's own transmissions, and
 * the chains of filters a node runs its packets through.
 */
module Filters {
  import opened Links

  /** The value of Python's `hash` on a packet. */
  type Hash = int

  /** `LoopbackFilter.sent_hashes`: pending suppressions per hash; a hash that is
      not a key counts zero, as in a `defaultdict(int)`. */
  type Counts = map<Hash, nat>

  function Pending(c: Counts, h: Hash): nat
  {
    if h in c then c[h] else 0
  }

  /** An additional filter of a node: what `tr` (receive) and `tx` (send) make of
      a packet on an interface; the empty packet is a drop. */
  datatype Filter = Filter(tr: (Packet, VirtualLink) -> Packet, tx: (Packet, VirtualLink) -> Packet)

  /** `BaseFilter`: both directions hand the packet back unchanged. */
  const Base: Filter := Filter((p, iface) => p, (p, iface) => p)

  /** `LoopbackFilter.tx`: an empty packet is dropped; any other is counted under
      its hash and passed on. */
  function LoopbackTx(c: Counts, hash: Packet -> Hash, p: Packet): (r: (Counts, Packet))
    ensures p == [] ==> r == (c, [])
    ensures p != [] ==> r.1 == p && Pending(r.0, hash(p)) == Pending(c, hash(p)) + 1
    ensures forall h :: h != hash(p) ==> Pending(r.0, h) == Pending(c, h)
  {
    if p == [] then (c, []) else (c[hash(p) := Pending(c, hash(p)) + 1], p)
  }

  /** `LoopbackFilter.tr`: an empty packet is dropped; a packet whose hash has a
      pending suppression is dropped and uses it up; any other passes. */
  function LoopbackTr(c: Counts, hash: Packet -> Hash, p: Packet): (r: (Counts, Packet))
    ensures r.1 == [] <==> p == [] || Pending(c, hash(p)) > 0
    ensures r.1 != [] ==> r == (c, p)
    ensures p != [] && Pending(c, hash(p)) > 0 ==> Pending(r.0, hash(p)) == Pending(c, hash(p)) - 1
    ensures p == [] ==> r.0 == c
    ensures forall h :: h != hash(p) ==> Pending(r.0, h) == Pending(c, h)
  {
    if p == [] then (c, [])
    else if Pending(c, hash(p)) > 0 then (c[hash(p) := Pending(c, hash(p)) - 1], [])
    else (c, p)
  }

  /** `n` transmissions of the same packet through the loopback filter. */
  function TxTimes(c: Counts, hash: Packet -> Hash, p: Packet, n: nat): Counts
    decreases n
  {
    if n == 0 then c else TxTimes(LoopbackTx(c, hash, p).0, hash, p, n - 1)
  }

  /** `n` receptions of the same packet through the loopback filter: the final
      counts and what each reception let through. */
  function TrTimes(c: Counts, hash: Packet -> Hash, p: Packet, n: nat): (Counts, seq<Packet>)
    decreases n
  {
    if n == 0 then (c, [])
    else
      var (c1, out) := LoopbackTr(c, hash, p);
      var (c2, outs) := TrTimes(c1, hash, p, n - 1);
      (c2, [out] + outs)
  }

  function Drops(n: nat): (s: seq<Packet>)
  {
    seq(n, i => [])
  }

  /** Every transmission of a packet raises its hash's count by one. */
  lemma {:induction false} TxTimesCounts(c: Counts, hash: Packet -> Hash, p: Packet, n: nat)
    requires p != []
    ensures Pending(TxTimes(c, hash, p, n), hash(p)) == Pending(c, hash(p)) + n
    decreases n
  {
    if n > 0 {
      TxTimesCounts(LoopbackTx(c, hash, p).0, hash, p, n - 1);
    }
  }

  /** With `n` suppressions pending for a packet's hash, the next `n` receptions
      of it are dropped, the one after passes, and the count ends at zero. */
  lemma {:induction false} PendingSuppressions(c: Counts, hash: Packet -> Hash, p: Packet, n: nat)
    requires p != [] && Pending(c, hash(p)) == n
    ensures TrTimes(c, hash, p, n + 1).1 == Drops(n) + [p]
    ensures Pending(TrTimes(c, hash, p, n + 1).0, hash(p)) == 0
    decreases n
  {
    if n > 0 {
      var (c1, out) := LoopbackTr(c, hash, p);
      assert out == [];
      PendingSuppressions(c1, hash, p, n - 1);
      assert [out] + (Drops(n - 1) + [p]) == Drops(n) + [p];
    }
  }

  /** The promise of the comment on `sent_hashes`: after `n` transmissions of a
      packet whose hash had nothing pending, exactly the next `n` receptions of
      it are dropped. */
  lemma ExactlyAsManyEchoesDropped(c: Counts, hash: Packet -> Hash, p: Packet, n: nat)
    requires p != [] && Pending(c, hash(p)) == 0
    ensures TrTimes(TxTimes(c, hash, p, n), hash, p, n + 1).1 == Drops(n) + [p]
  {
    TxTimesCounts(c, hash, p, n);
    PendingSuppressions(TxTimes(c, hash, p, n), hash, p, n);
  }

  /** The documented hazard of suppressing by hash: a different packet with the
      same hash as one just sent is dropped on reception. */
  lemma CollisionIsSuppressed(c: Counts, hash: Packet -> Hash, mine: Packet, theirs: Packet)
    requires mine != [] && theirs != [] && hash(mine) == hash(theirs)
    ensures LoopbackTr(LoopbackTx(c, hash, mine).0, hash, theirs).1 == []
  {
  }

  /** A chain of receive filters (the loop of `Node.recv`): each filter gets
      what the previous one returned, and the first drop stops the chain. */
  function TrChain(fs: seq<Filter>, p: Packet, iface: VirtualLink): (r: Packet)
    ensures fs == [] ==> r == p
    ensures p == [] ==> r == []
    decreases |fs|
  {
    if p == [] || fs == [] then p else TrChain(fs[1..], fs[0].tr(p, iface), iface)
  }

  /** Filters that leave a dropped packet dropped on the interface, as
      `BaseFilter` does. */
  predicate KeepDrops(fs: seq<Filter>, iface: VirtualLink)
  {
    forall i :: 0 <= i < |fs| ==> fs[i].tx([], iface) == []
  }

  /** A chain of send filters (the inner loop of `Node.send`): each filter gets
      what the previous one returned, a dropped packet included. */
  function TxChain(fs: seq<Filter>, p: Packet, iface: VirtualLink): (r: Packet)
    ensures fs == [] ==> r == p
    ensures KeepDrops(fs, iface) && p == [] ==> r == []
    decreases |fs|
  {
    if fs == [] then p else fs[|fs| - 1].tx(TxChain(fs[..|fs| - 1], p, iface), iface)
  }

  /** Running a receive chain is running its first part, then the rest on what
      the first part let through. */
  lemma {:induction false} TrChainAppend(fs: seq<Filter>, gs: seq<Filter>, p: Packet, iface: VirtualLink)
    ensures TrChain(fs + gs, p, iface) == TrChain(gs, TrChain(fs, p, iface), iface)
    decreases |fs|
  {
    if p == [] {
      assert TrChain(gs, [], iface) == [];
    } else if fs == [] {
      assert fs + gs == gs;
    } else {
      assert (fs + gs)[1..] == fs[1..] + gs;
      TrChainAppend(fs[1..], gs, fs[0].tr(p, iface), iface);
    }
  }

  /** Once a receive filter drops the packet, no later filter is consulted: the
      result is a drop whatever filters follow. */
  lemma DropStopsTrChain(fs: seq<Filter>, gs: seq<Filter>, p: Packet, iface: VirtualLink)
    requires TrChain(fs, p, iface) == []
    ensures TrChain(fs + gs, p, iface) == []
  {
    TrChainAppend(fs, gs, p, iface);
    assert gs == [] || TrChain(gs, [], iface) == [];
  }

  /** Running a send chain is running its first part, then the rest on what the
      first part returned. */
  lemma {:induction false} TxChainAppend(fs: seq<Filter>, gs: seq<Filter>, p: Packet, iface: VirtualLink)
    ensures TxChain(fs + gs, p, iface) == TxChain(gs, TxChain(fs, p, iface), iface)
    decreases |gs|
  {
    if gs == [] {
      assert fs + gs == fs;
    } else {
      var n := |gs|;
      assert (fs + gs)[..|fs + gs| - 1] == fs + gs[..n - 1];
      TxChainAppend(fs, gs[..n - 1], p, iface);
    }
  }

  /** A `BaseFilter` anywhere in a receive chain changes nothing. */
  lemma BaseIsNeutralOnReceive(fs: seq<Filter>, gs: seq<Filter>, p: Packet, iface: VirtualLink)
    ensures TrChain(fs + [Base] + gs, p, iface) == TrChain(fs + gs, p, iface)
  {
    TrChainAppend(fs + [Base], gs, p, iface);
    TrChainAppend(fs, [Base], p, iface);
    TrChainAppend(fs, gs, p, iface);
    var q := TrChain(fs, p, iface);
    assert TrChain([Base], q, iface) == q by {
      if q != [] {
        assert [Base][1..] == [];
      }
    }
  }

  /** A `BaseFilter` anywhere in a send chain changes nothing. */
  lemma BaseIsNeutralOnSend(fs: seq<Filter>, gs: seq<Filter>, p: Packet, iface: VirtualLink)
    ensures TxChain(fs + [Base] + gs, p, iface) == TxChain(fs + gs, p, iface)
  {
    TxChainAppend(fs + [Base], gs, p, iface);
    TxChainAppend(fs, [Base], p, iface);
    TxChainAppend(fs, gs, p, iface);
    var q := TxChain(fs, p, iface);
    assert TxChain([Base], q, iface) == q by {
      assert [Base][..0] == [];
    }
  }

  /** `LoopbackFilter`: one per node, counting the packets the node sends so
      that as many received copies of them can be dropped. */
  class LoopbackFilter {
    const hash: Packet -> Hash
    var sentHashes: Counts

    constructor (hash: Packet -> Hash)
      ensures this.hash == hash
      ensures sentHashes == map[]
    {
      this.hash := hash;
      sentHashes := map[];
    }

    method Tr(p: Packet, iface: VirtualLink) returns (r: Packet)
      modifies this
      ensures (sentHashes, r) == LoopbackTr(old(sentHashes), hash, p)
    {
      if p == [] {
        r := [];
      } else if Pending(sentHashes, hash(p)) > 0 {
        sentHashes := sentHashes[hash(p) := Pending(sentHashes, hash(p)) - 1];
        r := [];
      } else {
        r := p;
      }
    }

    method Tx(p: Packet, iface: VirtualLink) returns (r: Packet)
      modifies this
      ensures (sentHashes, r) == LoopbackTx(old(sentHashes), hash, p)
    {
      if p == [] {
        r := [];
      } else {
        sentHashes := sentHashes[hash(p) := Pending(sentHashes, hash(p)) + 1];
        r := p;
      }
    }
  }
}
