/** The node check of the example program: it visits every node, port by
    port, keeps the flags nodeTypesGood and accessLvlsGood, and builds
    listOfAxes. An axis is created while nodeTypesGood still holds, so the
    axes are the longest prefix of the visit order made of ClearPath-SC nodes. */
module Validation {
  import opened Network
  import opened Calls

  /** The position of the first node, in `es`, whose model is not ClearPath-SC;
      `|es|` when there is none. */
  function FirstBadType(es: seq<Located>): (k: nat)
    ensures k <= |es|
    ensures forall j | 0 <= j < k :: IsClearPathSc(es[j].node.nodeType)
    ensures k < |es| ==> !IsClearPathSc(es[k].node.nodeType)
  {
    if es == [] || !IsClearPathSc(es[0].node.nodeType) then 0
    else 1 + FirstBadType(es[1..])
  }

  /** The characterisation of FirstBadType pins it down. */
  lemma FirstBadTypeUnique(es: seq<Located>, k: nat)
    requires k <= |es|
    requires forall j | 0 <= j < k :: IsClearPathSc(es[j].node.nodeType)
    requires k < |es| ==> !IsClearPathSc(es[k].node.nodeType)
    ensures FirstBadType(es) == k
  {
  }

  /** Visiting one more node `e`. */
  lemma FirstBadTypeStep(es: seq<Located>, e: Located)
    ensures FirstBadType(es + [e]) ==
      if FirstBadType(es) == |es| && IsClearPathSc(e.node.nodeType) then |es| + 1 else FirstBadType(es)
  {
    var es' := es + [e];
    var k := if FirstBadType(es) == |es| && IsClearPathSc(e.node.nodeType) then |es| + 1 else FirstBadType(es);
    assert forall j | 0 <= j < |es| :: es'[j] == es[j];
    FirstBadTypeUnique(es', k);
  }

  /** A longer visit never removes an axis. */
  lemma FirstBadTypePrefix(es: seq<Located>, longer: seq<Located>)
    requires es <= longer
    ensures es[..FirstBadType(es)] <= longer[..FirstBadType(longer)]
  {
  }

  /** Every node of `es` up to and including position `k` is a ClearPath-SC. */
  predicate TypeGoodThrough(es: seq<Located>, k: nat)
    requires k < |es|
  {
    forall j | 0 <= j <= k :: IsClearPathSc(es[j].node.nodeType)
  }

  /** The nodes that receive an axis, in creation order. */
  function Axes(ports: seq<Port>): (axes: seq<Located>)
    ensures axes <= Entries(ports)
    ensures |axes| <= TotalNodes(ports)
    ensures forall a | a in axes :: IsClearPathSc(a.node.nodeType)
    ensures |axes| < |Entries(ports)| ==> !IsClearPathSc(Entries(ports)[|axes|].node.nodeType)
    ensures forall k | 0 <= k < |Entries(ports)| :: k < |axes| <==> TypeGoodThrough(Entries(ports), k)
  {
    var es := Entries(ports);
    es[..FirstBadType(es)]
  }

  /** Every node on every port is a ClearPath-SC. */
  predicate TypesGood(ports: seq<Port>) {
    forall p, i | 0 <= p < |ports| && 0 <= i < |ports[p]| :: IsClearPathSc(ports[p][i].nodeType)
  }

  /** Every node that received an axis is under full access. */
  predicate AccessGood(ports: seq<Port>) {
    forall a | a in Axes(ports) :: a.node.accessFull
  }

  /** Only when every node is ClearPath-SC does every node get an axis. */
  lemma TypesGoodIff(ports: seq<Port>)
    ensures TypesGood(ports) <==> FirstBadType(Entries(ports)) == |Entries(ports)|
    ensures TypesGood(ports) <==> Axes(ports) == Entries(ports)
  {
    var es := Entries(ports);
    if TypesGood(ports) {
      assert forall k | 0 <= k < |es| :: IsClearPathSc(es[k].node.nodeType);
    } else {
      var p, i :| 0 <= p < |ports| && 0 <= i < |ports[p]| && !IsClearPathSc(ports[p][i].nodeType);
      EntryAt(ports, p, i);
    }
  }

  /** The same holds of the flat node sequence, so it does not depend on the
      order of the nodes. */
  lemma TypesGoodOverNodes(ports: seq<Port>)
    ensures TypesGood(ports) <==> forall n | n in Nodes(ports) :: IsClearPathSc(n.nodeType)
  {
    TypesGoodIff(ports);
    var es := Entries(ports);
    var ns := Nodes(ports);
    if TypesGood(ports) {
      forall n | n in ns ensures IsClearPathSc(n.nodeType) {
        var k :| 0 <= k < |ns| && ns[k] == n;
        assert es[k].node == n;
      }
    } else {
      var k := FirstBadType(es);
      assert ns[k] in ns;
    }
  }

  /** Reordering the nodes, within or across ports, does not change nodeTypesGood. */
  lemma TypesGoodOrderFree(a: seq<Port>, b: seq<Port>)
    requires multiset(Nodes(a)) == multiset(Nodes(b))
    ensures TypesGood(a) == TypesGood(b)
  {
    TypesGoodOverNodes(a);
    TypesGoodOverNodes(b);
    forall n ensures n in Nodes(a) <==> n in Nodes(b) {
      assert n in Nodes(a) <==> n in multiset(Nodes(a));
      assert n in Nodes(b) <==> n in multiset(Nodes(b));
    }
  }

  /** The access level of a node at or after the first wrong-model node is never
      consulted: two networks that agree on every position and model, and on
      the access of the nodes before the first wrong-model one, give the same
      axes and the same flags. */
  lemma AccessAfterFirstBadTypeIgnored(a: seq<Port>, b: seq<Port>)
    requires |Entries(a)| == |Entries(b)|
    requires forall k | 0 <= k < |Entries(a)| ::
      Entries(a)[k].at == Entries(b)[k].at && Entries(a)[k].node.nodeType == Entries(b)[k].node.nodeType
    requires forall k | 0 <= k < FirstBadType(Entries(a)) ::
      Entries(a)[k].node.accessFull == Entries(b)[k].node.accessFull
    ensures Axes(a) == Axes(b)
    ensures TypesGood(a) == TypesGood(b)
    ensures AccessGood(a) == AccessGood(b)
  {
    var ea, eb := Entries(a), Entries(b);
    var k := FirstBadType(ea);
    FirstBadTypeUnique(eb, k);
    assert forall j | 0 <= j < k :: ea[j] == eb[j];
    TypesGoodIff(a);
    TypesGoodIff(b);
  }

  /** The exit code main picks from the two flags: 0 when both hold; -5 when a
      node has the wrong model, whatever the access levels; -6 when every
      model is right but access is missing. */
  function GateCode(nodeTypesGood: bool, accessLvlsGood: bool): (code: int)
    ensures code == 0 <==> nodeTypesGood && accessLvlsGood
    ensures code == -5 <==> !nodeTypesGood
    ensures code == -6 <==> nodeTypesGood && !accessLvlsGood
  {
    if nodeTypesGood && accessLvlsGood then 0
    else if !nodeTypesGood then -5
    else -6
  }

  /** What the loop knows after visiting `es`. */
  ghost predicate Visited(es: seq<Located>, listOfAxes: seq<Located>, nodeTypesGood: bool, accessLvlsGood: bool) {
    listOfAxes == es[..FirstBadType(es)] &&
    nodeTypesGood == (FirstBadType(es) == |es|) &&
    accessLvlsGood == (forall a | a in listOfAxes :: a.node.accessFull)
  }

  lemma VisitStep(es: seq<Located>, e: Located, listOfAxes: seq<Located>, nodeTypesGood: bool, accessLvlsGood: bool)
    requires Visited(es, listOfAxes, nodeTypesGood, accessLvlsGood)
    ensures var good := nodeTypesGood && IsClearPathSc(e.node.nodeType);
      Visited(es + [e], if good then listOfAxes + [e] else listOfAxes, good,
              if good then accessLvlsGood && e.node.accessFull else accessLvlsGood)
  {
    FirstBadTypeStep(es, e);
    var good := nodeTypesGood && IsClearPathSc(e.node.nodeType);
    if good {
      assert es[..|es|] == es;
      assert (es + [e])[..|es| + 1] == es + [e];
    } else {
      assert (es + [e])[..FirstBadType(es)] == es[..FirstBadType(es)];
    }
  }

  /** What the loop knows after visiting `es`, with or without an exception under way. */
  ghost predicate Progress(ports: seq<Port>, trace0: seq<Event>, fault: Option<Fault>, es: seq<Located>,
                           listOfAxes: seq<Located>, nodeTypesGood: bool, accessLvlsGood: bool,
                           trace: seq<Event>, thrown: Option<ErrKind>)
  {
    (thrown.None? ==>
      Pending(trace, fault) && Step(trace, None) == Perform(trace0, AxisEvents(Construct, listOfAxes), fault) &&
      Visited(es, listOfAxes, nodeTypesGood, accessLvlsGood)) &&
    (thrown.Some? ==>
      Step(trace, thrown) == Perform(trace0, AxisEvents(Construct, Axes(ports)), fault))
  }

  /** The validation loop of main (the nested port and node loops): it checks
      each node's model, creates an axis for the node while every node so far
      had the right model, and checks the access level of each node that gets
      an axis. Creating an axis is a call that may raise; the loop then stops. */
  method ValidateNodes(ports: seq<Port>, trace0: seq<Event>, fault: Option<Fault>)
    returns (listOfAxes: seq<Located>, nodeTypesGood: bool, accessLvlsGood: bool,
             trace: seq<Event>, thrown: Option<ErrKind>)
    requires Pending(trace0, fault)
    ensures Step(trace, thrown) == Perform(trace0, AxisEvents(Construct, Axes(ports)), fault)
    ensures thrown.None? ==> listOfAxes == Axes(ports)
    ensures thrown.None? ==> nodeTypesGood == TypesGood(ports)
    ensures thrown.None? ==> accessLvlsGood == AccessGood(ports)
  {
    listOfAxes, trace, thrown := [], trace0, None;
    nodeTypesGood, accessLvlsGood := true, true;
    var iPort := 0;
    while iPort < |ports| && thrown.None?
      invariant iPort <= |ports|
      invariant Progress(ports, trace0, fault, Entries(ports[..iPort]), listOfAxes, nodeTypesGood, accessLvlsGood, trace, thrown)
      decreases |ports| - iPort
    {
      listOfAxes, nodeTypesGood, accessLvlsGood, trace, thrown :=
        VisitPort(ports, iPort, trace0, fault, listOfAxes, nodeTypesGood, accessLvlsGood, trace);
      iPort := iPort + 1;
    }
    if thrown.None? {
      assert ports[..iPort] == ports;
      TypesGoodIff(ports);
    }
  }

  /** A node that gets no axis: only nodeTypesGood may change. */
  lemma SkipNodeStep(ports: seq<Port>, trace0: seq<Event>, fault: Option<Fault>, es: seq<Located>, e: Located,
                     listOfAxes: seq<Located>, nodeTypesGood: bool, accessLvlsGood: bool, trace: seq<Event>)
    requires Progress(ports, trace0, fault, es, listOfAxes, nodeTypesGood, accessLvlsGood, trace, None)
    requires !(nodeTypesGood && IsClearPathSc(e.node.nodeType))
    ensures Progress(ports, trace0, fault, es + [e], listOfAxes, false, accessLvlsGood, trace, None)
  {
    VisitStep(es, e, listOfAxes, nodeTypesGood, accessLvlsGood);
  }

  /** A node that gets an axis: the axis is constructed (a call that may raise),
      appended to listOfAxes, and its node's access level is checked. */
  lemma CreateNodeStep(ports: seq<Port>, trace0: seq<Event>, fault: Option<Fault>, es: seq<Located>, e: Located,
                       listOfAxes: seq<Located>, accessLvlsGood: bool, trace: seq<Event>,
                       after: seq<Event>, thrown: Option<ErrKind>)
    requires Pending(trace0, fault) && es + [e] <= Entries(ports)
    requires Progress(ports, trace0, fault, es, listOfAxes, true, accessLvlsGood, trace, None)
    requires IsClearPathSc(e.node.nodeType)
    requires Step(after, thrown) == Perform(trace, [AxisCall(Construct, e.at)], fault)
    ensures Progress(ports, trace0, fault, es + [e],
                     if thrown.None? then listOfAxes + [e] else listOfAxes, true,
                     if thrown.None? then accessLvlsGood && e.node.accessFull else accessLvlsGood,
                     after, thrown)
  {
    VisitStep(es, e, listOfAxes, true, accessLvlsGood);
    FirstBadTypePrefix(es + [e], Entries(ports));
    AxisEventsStep(Construct, listOfAxes, e);
    PerformConcat(trace0, AxisEvents(Construct, listOfAxes), [AxisCall(Construct, e.at)], fault);
    if thrown.Some? {
      AxisEventsPrefix(Construct, listOfAxes + [e], Axes(ports));
      PerformRaisedEarly(trace0, AxisEvents(Construct, listOfAxes + [e]), AxisEvents(Construct, Axes(ports)), fault);
    }
  }

  /** The node loop of main for port `iPort`. */
  method VisitPort(ports: seq<Port>, iPort: nat, trace0: seq<Event>, fault: Option<Fault>,
                   axesIn: seq<Located>, typesGoodIn: bool, accessGoodIn: bool, traceIn: seq<Event>)
    returns (listOfAxes: seq<Located>, nodeTypesGood: bool, accessLvlsGood: bool,
             trace: seq<Event>, thrown: Option<ErrKind>)
    requires iPort < |ports| && Pending(trace0, fault)
    requires Progress(ports, trace0, fault, Entries(ports[..iPort]), axesIn, typesGoodIn, accessGoodIn, traceIn, None)
    ensures Progress(ports, trace0, fault, Entries(ports[..iPort + 1]), listOfAxes, nodeTypesGood, accessLvlsGood, trace, thrown)
  {
    listOfAxes, nodeTypesGood, accessLvlsGood, trace, thrown := axesIn, typesGoodIn, accessGoodIn, traceIn, None;
    ghost var before := Entries(ports[..iPort]);
    var nodes := ports[iPort];
    var iNode := 0;
    assert before + PortEntries(iPort, nodes[..0]) == before;
    while iNode < |nodes| && thrown.None?
      invariant iNode <= |nodes|
      invariant Progress(ports, trace0, fault, before + PortEntries(iPort, nodes[..iNode]),
                         listOfAxes, nodeTypesGood, accessLvlsGood, trace, thrown)
      decreases |nodes| - iNode
    {
      ghost var es := before + PortEntries(iPort, nodes[..iNode]);
      var theNode := nodes[iNode];
      var axis := Located(NodeRef(iPort, iNode), theNode);
      PortEntriesStep(iPort, nodes, iNode);
      VisitedSoFar(ports, iPort, iNode + 1);
      assert es + [axis] == before + PortEntries(iPort, nodes[..iNode + 1]);
      ghost var typesGoodBefore := nodeTypesGood;

      if !IsClearPathSc(theNode.nodeType) {
        nodeTypesGood := false;
      }
      if nodeTypesGood {
        ghost var traceBefore := trace;
        trace, thrown := Call(trace, AxisCall(Construct, axis.at), fault);
        CreateNodeStep(ports, trace0, fault, es, axis, listOfAxes, accessLvlsGood, traceBefore, trace, thrown);
        if thrown.None? {
          listOfAxes := listOfAxes + [axis];
          if !theNode.accessFull {
            accessLvlsGood := false;
          }
        }
      } else {
        SkipNodeStep(ports, trace0, fault, es, axis, listOfAxes, typesGoodBefore, accessLvlsGood, trace);
      }
      iNode := iNode + 1;
    }
    if thrown.None? {
      PortDone(ports, iPort);
    }
  }
}
