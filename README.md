# A verified model of the simulated network of `networking.py`

`networking.py` simulates a small network in one process. A `VirtualLink` is a
shared wire: a map from MAC address to a FIFO queue of packets, where a send
to the broadcast address `"00:00:00:00:00:00:00"` puts a copy in every queue,
and a unicast puts a copy in the target's queue and in the broadcast queue.
A `Node` sits on one or more links. Every packet it receives runs through its
receive filters, which can rewrite or drop it, into a per-interface inbound
queue. Every packet it sends runs through its send filters and is then
broadcast on each target link. The first filter of every node is a
`LoopbackFilter`, which counts the packets the node sends by hash so that as
many received echoes of them are dropped. A `Switch` program forwards every
packet arriving on one interface to all the node's other interfaces.

The model has five modules:

- `Links` (links.dfy): packets, queues, the pure semantics of a link's
  `send`/`recv` (`Deliver`, `Take`), and the `VirtualLink` class whose
  methods are proved against them. The FIFO lemmas sit beside them.
- `Filters` (filters.dfy): `BaseFilter` as the identity filter `Base`, the
  loopback filter's semantics (`LoopbackTx`, `LoopbackTr`) and the
  `LoopbackFilter` class, plus the receive and send chains (`TrChain`,
  `TxChain`).
- `MacAddresses` (mac.dfy): `Node._generate_MAC`, with the random draws
  passed in as an argument, and a Python-style `join`/`split` pair.
- `Nodes` (node.dfy): the `Node` class with its `recv` and `send`, the
  functions that specify them (`IngressPass`, `EgressRun`), and the
  properties of the filter chain across several interfaces.
- `Switches` (switch.dfy): `Switch.recv`.

Modelling choices:

- A packet is a byte sequence. The empty packet stands for both `b""` and
  `None`, because every test in the core is a truthiness test.
- Python's `hash` is a parameter of the loopback filter, a function from
  packets to integers. Two packets may therefore share a hash.
- The additional filters of a node are pure functions of the packet and the
  interface (`Filter`).
- `recv` on a link distinguishes a delivered packet, an empty queue (`""`)
  and a stopped link (`None`) with the `Reception` datatype.

## Model

| member | source | states |
|---|---|---|
| Links.Deliver | networking.py:79-87 | A broadcast appends the packet to every existing queue and creates none. A unicast appends it to the target's queue and to the broadcast queue, creating them if absent. Every other queue is unchanged. |
| Links.Take | networking.py:66-75 | Receiving at an address creates its queue if absent. On an empty queue the result is "no packet", the address's queue is empty and nothing else changes. Otherwise the result is the head and the queue keeps the tail. Other queues are untouched and the result is never "link down". |
| Links.TakeCreatesQueue | networking.py:40-42 | `len(link)` grows by one when an address without a queue receives, and is unchanged otherwise. |
| Links.SendsQueueInOrder | networking.py:79-87 | Successive sends to one target reach every receiving queue in send order, after what was already queued. |
| Links.TakesAreFifo | networking.py:66-75 | Receiving as many times as there are packets at the front of a queue returns exactly those packets, oldest first, and leaves the rest. |
| Links.FifoDelivery | networking.py:66-87 | End to end on a live link: packets sent to a target are received at a receiving address once each and in order, then the queue reads empty. |
| Links.VirtualLink.constructor | networking.py:24-30 | A new link is live, has the given name (default `vlan1`) and exactly one queue: an empty broadcast queue. |
| Links.VirtualLink.Len | networking.py:40-42 | `len(link)` is the number of queues, at least one while the broadcast queue exists. |
| Links.VirtualLink.Start | networking.py:50-53 | `start` always reports success. |
| Links.VirtualLink.Stop | networking.py:55-62 | `stop` reports success, marks the link down and leaves every queue as it was. |
| Links.VirtualLink.Recv | networking.py:66-77 | On a live link, the queues and the result are those of `Take`. On a stopped link, the result is "link down" and nothing changes. The broadcast queue survives. |
| Links.VirtualLink.Send | networking.py:79-89 | On a live link, the queues become those of `Deliver`. On a stopped link, nothing changes. The broadcast queue survives. |
| Links.StoppedLinkIsInert | networking.py:55-89 | After `stop`, a receive reports the link down, sends and receives change none of the link's queues, and the link stays down. |
| Filters.LoopbackTx | networking.py:130-134 | An empty packet is dropped without counting. Any other passes unchanged and raises its hash's pending count by one. No other hash's count changes. |
| Filters.LoopbackTr | networking.py:122-128 | The packet is dropped exactly when it is empty or its hash has a pending suppression. A suppression is then used up. A packet that passes is unchanged and leaves the counts unchanged. |
| Filters.TxTimesCounts | networking.py:130-134 | `n` transmissions of a packet raise its hash's count by exactly `n`. |
| Filters.PendingSuppressions | networking.py:122-128 | With `n` suppressions pending for a packet's hash, the next `n` receptions of it are dropped, the one after passes, and the count ends at zero. |
| Filters.ExactlyAsManyEchoesDropped | networking.py:116-134 | The counter's documented promise, for a hash with nothing pending: after sending a packet `n` times, exactly the next `n` received copies are dropped, and the one after passes. |
| Filters.CollisionIsSuppressed | networking.py:122-134 | A different packet with the hash of one just sent is dropped on reception. |
| Filters.TrChain | networking.py:212-215 | The receive loop over a list of filters: with no filters the packet is unchanged, and a dropped packet stays dropped. |
| Filters.TxChain | networking.py:227-228 | The send loop over a list of filters: with no filters the packet is unchanged, and a dropped packet stays dropped when every filter keeps drops, as `BaseFilter` and `LoopbackFilter` do. |
| Filters.TrChainAppend | networking.py:212-215 | A receive chain over two lists of filters is the second chain run on what the first let through. |
| Filters.DropStopsTrChain | networking.py:212-215 | Once the receive chain drops the packet, it stays dropped whatever filters follow. |
| Filters.TxChainAppend | networking.py:227-228 | A send chain over two lists of filters is the second chain run on what the first returned. |
| Filters.BaseIsNeutralOnReceive | networking.py:98-103 | A `BaseFilter` anywhere in a receive chain changes nothing. |
| Filters.BaseIsNeutralOnSend | networking.py:104-109 | A `BaseFilter` anywhere in a send chain changes nothing. |
| Filters.LoopbackFilter.constructor | networking.py:116-117 | A new loopback filter has nothing pending for any hash. |
| Filters.LoopbackFilter.Tr | networking.py:122-128 | The new counts and the result are those of `LoopbackTr`. |
| Filters.LoopbackFilter.Tx | networking.py:130-134 | The new counts and the result are those of `LoopbackTx`. |
| MacAddresses.Pick | networking.py:176 | One group has one character per draw, each from the character set. |
| MacAddresses.Segments | networking.py:174-177 | One group per segment, each of the segment length, made of characters from the character set. |
| MacAddresses.Join | networking.py:178 | `delimiter.join(parts)` starts with the first part and ends with the last. |
| MacAddresses.SplitJoin | networking.py:178 | Splitting a join at a one-character delimiter that no part contains gives back the parts. |
| MacAddresses.JoinLength | networking.py:178 | Joining `n` parts of length `k` gives `n*k` characters plus `n-1` delimiters. |
| MacAddresses.GenerateMac | networking.py:171-178 | The address is the drawn groups joined by the delimiter. When the delimiter is one character outside the character set, the address splits back into exactly the groups drawn. |
| MacAddresses.DefaultMacIsNotBroadcast | networking.py:160 | A generated default MAC is 17 characters long, so it never equals the broadcast address. |
| Nodes.IngressPass | networking.py:209-215 | An empty packet is dropped without touching the counts. A packet with a pending suppression is dropped and uses it up. Otherwise the counts are unchanged and the result is the additional filters' receive chain. |
| Nodes.EgressStep | networking.py:227-228 | One interface's send pass: the packet comes out as the additional filters' send chain makes it, as the loopback filter never alters it. A non-empty packet raises its hash's count by one, an empty one changes no count, and no other hash's count changes. |
| Nodes.EgressRun | networking.py:226-229 | One send pass per target interface. The packet the loop carries on is what the last pass returned. |
| Nodes.DropSticksAcrossInterfaces | networking.py:226-232 | Once a send pass drops the packet, no later interface of the same `send` gets it, provided the filters keep a drop dropped. |
| Nodes.EveryInterfaceCounts | networking.py:226-232 | With only the loopback filter, every target interface is handed the packet, and its hash's count rises by the number of interfaces. |
| Nodes.OneCopyPerTarget | networking.py:226-232 | With only the loopback filter, an interface listed once among the targets of `Node.send` gets exactly one copy of a non-empty packet. |
| Nodes.OwnEchoesDropped | networking.py:117-120 | A node with only its loopback filter, whose packet's hash has nothing pending, that sends the packet on `K` interfaces drops exactly the next `K` copies of it that it receives, and passes the one after. |
| Nodes.Node.constructor | networking.py:154-162 | The node keeps its interfaces, name and mode, with the source's defaults (no interfaces, `n1`, not promiscuous, no additional filters). Its MAC is the given one, or a generated 6×2 hex address when none is given. It has a fresh loopback filter with nothing pending, then the additional filters, and empty inbound queues. |
| Nodes.Node.ListenAddressAsWritten | networking.py:201 | The address the poll loop reads as written: the node's MAC, or for a promiscuous node an address that is not the broadcast address. |
| Nodes.Node.ListenAddress | networking.py:70 | The intended poll address: the node's MAC, or the broadcast address for a promiscuous node. |
| Nodes.Node.Resolve | networking.py:223-224 | No targets or an empty collection resolves to exactly the node's interfaces. A single link is wrapped in a list. A non-empty collection is used as it iterates. |
| Nodes.Node.ApplyTr | networking.py:212-215 | The additional filters' receive loop computes `TrChain`, stopping at the first drop. |
| Nodes.Node.ApplyTx | networking.py:227-228 | The additional filters' send loop computes `TxChain`. |
| Nodes.Node.Recv | networking.py:209-219 | The loopback counts and the result are those of `IngressPass`. A packet that survives is appended to the interface's inbound queue. Otherwise the inbound queues are unchanged. |
| Nodes.Node.Transmit | networking.py:227-232 | One interface's pass: the counts and the packet are those of the send pass, and a surviving packet is broadcast on the interface. |
| Nodes.Node.SendTo | networking.py:226-232 | One loop iteration extends `EgressRun` by one interface and keeps every target link's queues equal to its queues before the loop plus what was broadcast on it so far. |
| Nodes.Node.Send | networking.py:221-232 | The loopback counts are those of `EgressRun` over the resolved targets. Each target link's queues are its old queues with every packet the loop broadcast on it appended, in order, if the link is live. Link states are unchanged. |
| Nodes.PromiscuousNodeMissesUnicast | networking.py:201 | As written, a promiscuous node's poll queue gets no copy of a unicast to another address. |
| Nodes.PromiscuousNodeGetsBroadcasts | networking.py:201 | As written, once the six-segment queue exists, every broadcast on the link still reaches it. |
| Nodes.PromiscuousNodeSeesAllTraffic | networking.py:70 | Polling the broadcast queue, a promiscuous node gets a copy of every packet sent on the link. |
| Switches.OtherInterfaces | networking.py:270 | The arrival interface is excluded. Every other interface of the node is included and nothing else. The size is the number of distinct interfaces, minus one if the arrival interface is among them. |
| Switches.Enumerate | networking.py:273 | Iterating a set visits each element exactly once. |
| Switches.Switch.constructor | networking.py:237-240 | The switch is attached to its node. |
| Switches.Switch.Recv | networking.py:269-273 | Exactly when the packet is non-empty and there are other interfaces, the node sends it once to each of them. The arrival link and every link not sent to are left unchanged. Otherwise nothing changes. |

`Node.send` (networking.py:226-228) runs the whole filter chain once per
target interface and passes the packet returned for one interface on to the
next. For a node with no additional filters, as every node in the repository
is, a packet sent on `K` interfaces therefore raises its loopback count by
`K` (`EveryInterfaceCounts`), as the comment on `sent_hashes`
(networking.py:120) expects. With send filters that rewrite the packet, later
interfaces count the rewritten packet's hash instead. When every filter keeps
a dropped packet dropped, a drop on one interface carries over to every later
one (`DropSticksAcrossInterfaces`). A filter that turns a drop back into a
packet ends that.

## Left out

- Threads and poll loops: `Node.run`, `Node.start`/`stop` and `Node.keep_listening` are left out. `Node.run` repeats `VirtualLink.recv` and `Node.recv`, which are modelled; of it, only the address it polls is modelled (`ListenAddressAsWritten`, with the corrected `ListenAddress`).
- `BaseProgram.run`/`stop`: the program's loop, which drains a node's inbound queues (`Node.inq`) into the program's `recv`, is left out, as concurrency. Only `Switch.recv`, one step of that loop, is modelled.
- `time.sleep`, `log`, `__repr__`/`__str__` and `Printer`: output and delays, except for the decoding noted for `Switch.recv` below.
- Switches.Switch.Recv: `Switch.recv` decodes the packet as UTF-8 for its log line (networking.py:272) before forwarding it. A packet that is not valid UTF-8 (for example the single byte `0xff`) raises `UnicodeDecodeError` there, is not forwarded, and the error escapes into `BaseProgram.run`. The model forwards every non-empty byte sequence and does not model this error.
- `VirtualLink.recv` with a positive timeout: the model is the non-blocking `timeout=0` case the core uses. The `join` in `VirtualLink.stop` applies only to threaded subclasses.
- `Node.__init__` `Program=`: attaching a program is left out. `Switch` takes its node directly.
- Stateful user filters: additional filters are pure functions of the packet and the interface. A filter class's own mutable state is not modelled.
- `None` and `b""` are one value, the empty packet, as no code in the core tells them apart.
- Python's `hash` is a parameter: its actual values, and any per-process randomisation, are not modelled.
- `LoopbackFilter.tr`: reading a missing hash in a `defaultdict(int)` inserts a zero entry. The model reads such a hash as zero without storing it, which changes no observable count.
- `random.choice` is modelled as the draws passed to `GenerateMac`.
- `MacAddresses.GenerateMac`: requires draws that index the character set, so the `IndexError` that `random.choice` raises on an empty character set (with at least one segment of non-zero length) is not modelled.
- `MacAddresses.SplitJoin`: states the split round trip only for a one-character delimiter, the only kind the core uses.
- The other files of the repository, the blockchain and the miner, are not part of this model.

## Findings

| source | as written | input that shows it | evidently intended | confidence | as-written member | corrected member |
|---|---|---|---|---|---|---|
| networking.py:201 | A promiscuous node polls `"00:00:00:00:00:00"` (six segments), which is not the link's broadcast address `"00:00:00:00:00:00:00"` (seven segments, line 22). | A promiscuous node polls a link where another node sends a unicast to `"aa:bb:cc:dd:ee:ff"`. The packet goes to that queue and to the broadcast queue, never to the six-segment queue. Broadcasts, which is all `Node.send` emits, do reach that queue once the node's first poll has created it, so only unicasts and traffic before the first poll are missed. | Poll the broadcast queue, which receives a copy of every packet (the comment at line 70). | high, not executed | Nodes.Node.ListenAddressAsWritten, Nodes.PromiscuousNodeMissesUnicast, Nodes.PromiscuousNodeGetsBroadcasts | Nodes.Node.ListenAddress, Nodes.PromiscuousNodeSeesAllTraffic |
