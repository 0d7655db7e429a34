/** The nodes of a ClearPath-SC network as the example program sees them once
    its ports are open: each port holds the nodes it enumerated, in node
    index order, and the program visits them port by port. */
module Network {

  /** The model a node reports in its info block. Only the two ClearPath-SC
      models are accepted; every other model is carried by its numeric code. */
  datatype NodeType = ClearPathScAdv | ClearPathSc | OtherModel(code: nat)

  predicate IsClearPathSc(t: NodeType) {
    t.ClearPathScAdv? || t.ClearPathSc?
  }

  /** What the program reads of one node: its model, and whether the host
      holds full access to it. */
  datatype Node = Node(nodeType: NodeType, accessFull: bool)

  /** The nodes one port enumerated, in node index order. */
  type Port = seq<Node>

  /** Where a node sits: the index of its port and its own index on that port. */
  datatype NodeRef = NodeRef(port: nat, index: nat)

  /** A node together with its position. An axis is bound to one of these. */
  datatype Located = Located(at: NodeRef, node: Node)

  predicate ValidRef(ports: seq<Port>, r: NodeRef) {
    r.port < |ports| && r.index < |ports[r.port]|
  }

  /** The order of the program's nested loops: lower port first, then lower node index. */
  predicate VisitedBefore(a: NodeRef, b: NodeRef) {
    a.port < b.port || (a.port == b.port && a.index < b.index)
  }

  function TotalNodes(ports: seq<Port>): nat {
    if ports == [] then 0 else TotalNodes(ports[..|ports| - 1]) + |ports[|ports| - 1]|
  }

  /** The nodes of port `p`, each with its position. */
  function PortEntries(p: nat, nodes: seq<Node>): seq<Located> {
    seq(|nodes|, i requires 0 <= i < |nodes| => Located(NodeRef(p, i), nodes[i]))
  }

  /** Every node of every port, in the order the program visits them. */
  function Entries(ports: seq<Port>): (es: seq<Located>)
    ensures |es| == TotalNodes(ports)
    ensures forall k | 0 <= k < |es| ::
      ValidRef(ports, es[k].at) && es[k].node == ports[es[k].at.port][es[k].at.index]
  {
    if ports == [] then []
    else
      var front := ports[..|ports| - 1];
      assert forall p | 0 <= p < |front| :: front[p] == ports[p];
      Entries(front) + PortEntries(|ports| - 1, ports[|ports| - 1])
  }

  /** The flat sequence of nodes, in visit order. */
  function Nodes(ports: seq<Port>): seq<Node> {
    var es := Entries(ports);
    seq(|es|, k requires 0 <= k < |es| => es[k].node)
  }

  /** Visit order is port-then-node order, strictly increasing. */
  lemma {:induction false} EntriesInVisitOrder(ports: seq<Port>)
    ensures forall k, m | 0 <= k < m < |Entries(ports)| ::
      VisitedBefore(Entries(ports)[k].at, Entries(ports)[m].at)
  {
    if ports != [] {
      var n := |ports| - 1;
      var front := ports[..n];
      EntriesInVisitOrder(front);
      var a: seq<Located> := Entries(front);
      var b: seq<Located> := PortEntries(n, ports[n]);
      assert Entries(ports) == a + b;
      forall k, m | 0 <= k < m < |a + b|
        ensures VisitedBefore((a + b)[k].at, (a + b)[m].at)
      {
        if m < |a| {
          assert (a + b)[k] == a[k] && (a + b)[m] == a[m];
        } else if k < |a| {
          assert ValidRef(front, a[k].at);
          assert (a + b)[k] == a[k] && (a + b)[m] == b[m - |a|];
        } else {
          assert (a + b)[k] == b[k - |a|] && (a + b)[m] == b[m - |a|];
        }
      }
    }
  }

  /** Node `i` of port `p` is visited after exactly the nodes of the ports before `p`
      and the `i` nodes before it on `p`: no node is skipped. */
  lemma {:induction false} EntryAt(ports: seq<Port>, p: nat, i: nat)
    requires p < |ports| && i < |ports[p]|
    ensures TotalNodes(ports[..p]) + i < |Entries(ports)|
    ensures Entries(ports)[TotalNodes(ports[..p]) + i] == Located(NodeRef(p, i), ports[p][i])
  {
    var n := |ports| - 1;
    var front := ports[..n];
    assert Entries(ports) == Entries(front) + PortEntries(n, ports[n]);
    if p == n {
      assert front == ports[..p];
    } else {
      assert front[..p] == ports[..p] && front[p] == ports[p];
      EntryAt(front, p, i);
    }
  }

  /** The nodes of the first `p` ports are visited first. */
  lemma {:induction false} EntriesOfFirstPorts(ports: seq<Port>, p: nat)
    requires p <= |ports|
    ensures Entries(ports[..p]) <= Entries(ports)
    decreases |ports| - p
  {
    if p < |ports| {
      var n := |ports| - 1;
      assert ports[..n][..p] == ports[..p];
      EntriesOfFirstPorts(ports[..n], p);
      assert Entries(ports) == Entries(ports[..n]) + PortEntries(n, ports[n]);
    } else {
      assert ports[..p] == ports;
    }
  }

  /** Extending the visited part of port `p` by one node. */
  lemma PortEntriesStep(p: nat, nodes: seq<Node>, i: nat)
    requires i < |nodes|
    ensures PortEntries(p, nodes[..i + 1]) == PortEntries(p, nodes[..i]) + [Located(NodeRef(p, i), nodes[i])]
  {
  }

  /** Finishing port `p` finishes the first `p + 1` ports. */
  lemma PortDone(ports: seq<Port>, p: nat)
    requires p < |ports|
    ensures Entries(ports[..p + 1]) == Entries(ports[..p]) + PortEntries(p, ports[p][..|ports[p]|])
  {
    assert ports[..p + 1][..p] == ports[..p];
    assert ports[p][..|ports[p]|] == ports[p];
  }

  /** The nodes visited before node `i` of port `p` come first in the visit order. */
  lemma VisitedSoFar(ports: seq<Port>, p: nat, i: nat)
    requires p < |ports| && i <= |ports[p]|
    ensures Entries(ports[..p]) + PortEntries(p, ports[p][..i]) <= Entries(ports)
  {
    PortDone(ports, p);
    EntriesOfFirstPorts(ports, p + 1);
    assert PortEntries(p, ports[p][..i]) <= PortEntries(p, ports[p][..|ports[p]|]);
  }
}
