/**
 * `Switch` of networking.py: the program of a hub node, which forwards every
 * packet that arrives on one interface to all the node's other interfaces.
 */
module Switches {
  import opened Links
  import opened Nodes

  /** `set(node.interfaces) - {interface}`. */
  function OtherInterfaces(ifaces: seq<VirtualLink>, arrival: VirtualLink): (r: set<VirtualLink>)
    ensures arrival !in r
    ensures forall l | l in r :: l in ifaces
    ensures forall i | 0 <= i < |ifaces| :: ifaces[i] != arrival ==> ifaces[i] in r
    ensures arrival in ifaces ==> |r| + 1 == |set l | l in ifaces|
    ensures arrival !in ifaces ==> |r| == |set l | l in ifaces|
  {
    var all := set l | l in ifaces;
    assert arrival in ifaces ==> all == (all - {arrival}) + {arrival};
    all - {arrival}
  }

  /** Iterating over a Python `set`: every element once, in an order the model
      does not fix. */
  method Enumerate(s: set<VirtualLink>) returns (xs: seq<VirtualLink>)
    ensures forall l :: l in xs <==> l in s
    ensures forall i, j :: 0 <= i < j < |xs| ==> xs[i] != xs[j]
  {
    xs := [];
    var rest := s;
    while rest != {}
      invariant rest <= s
      invariant forall l :: l in xs <==> l in s && l !in rest
      invariant forall i, j :: 0 <= i < j < |xs| ==> xs[i] != xs[j]
      decreases |rest|
    {
      var l :| l in rest;
      xs := xs + [l];
      rest := rest - {l};
    }
  }

  /** A `Switch` program attached to a node. */
  class Switch {
    const node: Node

    constructor (node: Node)
      ensures this.node == node
    {
      this.node := node;
    }

    /** `Switch.recv(packet, interface)`: a non-empty packet is sent once through
        `node.send` to every other interface of the node, if there is one;
        otherwise nothing is sent. The arrival link, and any link not sent
        to, is left as it was. `sentTo` is the order the set iterated in. */
    method Recv(packet: Packet, iface: VirtualLink) returns (sentTo: seq<VirtualLink>)
      modifies node.loopback, set l | l in node.interfaces
      ensures forall l :: l in sentTo <==> packet != [] && l in OtherInterfaces(node.interfaces, iface)
      ensures forall i, j :: 0 <= i < j < |sentTo| ==> sentTo[i] != sentTo[j]
      ensures forall l | l in sentTo :: l in node.interfaces
      ensures old(allocated(sentTo))
      ensures sentTo != [] ==> node.Sent(sentTo, packet)
      ensures forall l :: l in node.interfaces && l !in sentTo ==> unchanged(l)
      ensures iface in node.interfaces ==> unchanged(iface)
      ensures sentTo == [] ==> unchanged(node.loopback) && forall l :: l in node.interfaces ==> unchanged(l)
    {
      var others := OtherInterfaces(node.interfaces, iface);
      if packet != [] && others != {} {
        sentTo := Enumerate(others);
        assert node.Resolve(Listed(sentTo)) == sentTo;
        assert forall l | l in sentTo :: l in node.interfaces;
        assert forall l | l in sentTo :: old(allocated(l));
        forall i | 0 <= i < |sentTo| ensures old(allocated(sentTo[i])) {
          assert sentTo[i] in sentTo;
        }
        node.Send(packet, Listed(sentTo));
      } else {
        sentTo := [];
      }
    }
  }
}
