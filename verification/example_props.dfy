/** What the example program promises about a whole run: which axes are
    created, run and deleted, in what order, whether the ports are closed, and
    which exit code it returns. Each lemma is about ExpectedExit, which
    RunExample is proved to compute. */
module ExampleProps {
  import opened Network
  import opened Calls
  import opened Validation
  import opened Example

  /** The positions of the axes that `op` is applied to in `trace`, in order. */
  function Invoked(op: AxisOp, trace: seq<Event>): seq<NodeRef> {
    if trace == [] then []
    else
      var e := trace[|trace| - 1];
      Invoked(op, trace[..|trace| - 1]) + (if e.AxisCall? && e.op == op then [e.at] else [])
  }

  /** The positions of `axes`, in order. */
  function Refs(axes: seq<Located>): seq<NodeRef> {
    seq(|axes|, i requires 0 <= i < |axes| => axes[i].at)
  }

  lemma {:induction false} InvokedConcat(op: AxisOp, a: seq<Event>, b: seq<Event>)
    ensures Invoked(op, a + b) == Invoked(op, a) + Invoked(op, b)
    decreases |b|
  {
    if b == [] {
      assert a + b == a;
    } else {
      var n := |b| - 1;
      assert (a + b)[..|a + b| - 1] == a + b[..n];
      InvokedConcat(op, a, b[..n]);
    }
  }

  lemma {:induction false} InvokedPrefix(op: AxisOp, a: seq<Event>, b: seq<Event>)
    requires a <= b
    ensures Invoked(op, a) <= Invoked(op, b)
  {
    assert b == a + b[|a|..];
    InvokedConcat(op, a, b[|a|..]);
  }

  /** Applying `op2` to every axis applies `op` to exactly those axes, in order, when `op == op2`. */
  lemma {:induction false} InvokedAxisEvents(op: AxisOp, op2: AxisOp, axes: seq<Located>)
    ensures Invoked(op, AxisEvents(op2, axes)) == if op == op2 then Refs(axes) else []
    decreases |axes|
  {
    if axes != [] {
      var n := |axes| - 1;
      AxisEventsStep(op2, axes[..n], axes[n]);
      assert axes[..n] + [axes[n]] == axes;
      InvokedAxisEvents(op, op2, axes[..n]);
      assert AxisEvents(op2, axes)[..n] == AxisEvents(op2, axes[..n]);
    }
  }

  /** No axis is touched while the ports are set up. */
  lemma {:induction false} InvokedInit(op: AxisOp, listOfPorts: seq<string>, k: nat)
    requires k <= |InitEvents(listOfPorts)|
    ensures Invoked(op, InitEvents(listOfPorts)[..k]) == []
    decreases k
  {
    if k > 0 {
      var t := InitEvents(listOfPorts)[..k];
      assert t[..k - 1] == InitEvents(listOfPorts)[..k - 1];
      InvokedInit(op, listOfPorts, k - 1);
    }
  }

  /** The calls of the run before the first deletion: setting up the port,
      constructing the axes and, if the gate passes, running them. */
  function BeforeCleanup(address: string, bus: Port): seq<Event> {
    InitEvents([address]) + AxisEvents(Construct, Axes([bus])) + RunPhase([bus])
  }

  /** The run's calls, split into the part before the deletions and the rest. */
  lemma TraceShape(address: string, bus: Port)
    ensures FaultFreeTrace(address, bus) ==
      BeforeCleanup(address, bus) + AxisEvents(Destroy, Axes([bus])) + [ClosePorts]
  {
  }

  lemma InvokedOfParts(op: AxisOp, a: seq<Event>, b: seq<Event>, c: seq<Event>, d: seq<Event>)
    ensures Invoked(op, a + b + c + d + [ClosePorts]) ==
      Invoked(op, a) + Invoked(op, b) + Invoked(op, c) + Invoked(op, d)
  {
    InvokedConcat(op, a + b + c + d, [ClosePorts]);
    InvokedConcat(op, a + b + c, d);
    InvokedConcat(op, a + b, c);
    InvokedConcat(op, a, b);
    assert [ClosePorts][..0] == [];
  }

  /** Only the axis phases of the run apply `op` to an axis. */
  lemma InvokedInPhases(op: AxisOp, address: string, bus: Port)
    ensures var axes := Axes([bus]);
      Invoked(op, FaultFreeTrace(address, bus)) ==
        Invoked(op, AxisEvents(Construct, axes)) + Invoked(op, RunPhase([bus])) + Invoked(op, AxisEvents(Destroy, axes))
  {
    var axes := Axes([bus]);
    var init := InitEvents([address]);
    var c, r, d := AxisEvents(Construct, axes), RunPhase([bus]), AxisEvents(Destroy, axes);
    assert FaultFreeTrace(address, bus) == init + c + r + d + [ClosePorts];
    InvokedOfParts(op, init, c, r, d);
    assert init[..|init|] == init;
    InvokedInit(op, [address], |init|);
  }

  /** Constructing, maybe running, and deleting every axis of `axes`. */
  lemma InvokedAxisPhases(op: AxisOp, axes: seq<Located>, runs: seq<Event>, gate: bool)
    requires runs == if gate then AxisEvents(RunMain, axes) else []
    ensures Invoked(op, AxisEvents(Construct, axes)) + Invoked(op, runs) + Invoked(op, AxisEvents(Destroy, axes)) ==
      if op == RunMain && !gate then [] else Refs(axes)
  {
    InvokedAxisEvents(op, Construct, axes);
    InvokedAxisEvents(op, RunMain, axes);
    InvokedAxisEvents(op, Destroy, axes);
  }

  /** Which axes the run creates, runs and deletes when no call raises. */
  lemma FaultFreeInvocations(op: AxisOp, address: string, bus: Port)
    ensures Invoked(op, FaultFreeTrace(address, bus)) ==
      if op == RunMain && !(TypesGood([bus]) && AccessGood([bus])) then [] else Refs(Axes([bus]))
  {
    InvokedInPhases(op, address, bus);
    InvokedAxisPhases(op, Axes([bus]), RunPhase([bus]), TypesGood([bus]) && AccessGood([bus]));
  }

  /** Whatever raises, the calls made are the first ones of the fault-free run. */
  lemma ExitTraceIsPrefix(args: seq<string>, bus: Port, fault: Option<Fault>)
    requires |args| == 2
    ensures ExpectedExit(args, bus, fault).trace <= FaultFreeTrace(args[1], bus)
  {
    var full := FaultFreeTrace(args[1], bus);
    assert [] + full == full;
  }

  /** PortsClose is the last call of the run, and no earlier call is PortsClose. */
  lemma ClosePortsOnlyLast(address: string, bus: Port)
    ensures var t := FaultFreeTrace(address, bus);
      t[|t| - 1] == ClosePorts && ClosePorts !in t[..|t| - 1]
  {
    var t := FaultFreeTrace(address, bus);
    var axes := Axes([bus]);
    var front := InitEvents([address]) + AxisEvents(Construct, axes) + RunPhase([bus]) + AxisEvents(Destroy, axes);
    TraceShape(address, bus);
    assert t == front + [ClosePorts];
    assert t[..|t| - 1] == front;
    forall k | 0 <= k < |front| ensures front[k] != ClosePorts {
    }
  }

  /** A call raises during the run. */
  predicate Raises(args: seq<string>, bus: Port, fault: Option<Fault>) {
    |args| == 2 && fault.Some? && fault.value.step < |FaultFreeTrace(args[1], bus)|
  }

  /** The exit codes and what each one means: -1 for a wrong argument count;
      -2 when PortsOpen raises an mnErr; -3 or -4 when any other call raises
      (mnErr or another exception); otherwise 0, -5 or -6 as the gate decides. */
  lemma ExitCodes(args: seq<string>, bus: Port, fault: Option<Fault>)
    ensures var x := ExpectedExit(args, bus, fault);
      (x.code == -1 <==> |args| != 2) &&
      (x.code == -2 <==> |args| == 2 && PortsOpenRejected([args[1]], fault)) &&
      (x.code == -3 <==> Raises(args, bus, fault) && !PortsOpenRejected([args[1]], fault) && fault.value.kind.MnErr?) &&
      (x.code == -4 <==> Raises(args, bus, fault) && fault.value.kind.OtherErr?) &&
      (x.code in {0, -5, -6} <==> |args| == 2 && !Raises(args, bus, fault)) &&
      (|args| == 2 && !Raises(args, bus, fault) ==> x.code == GateCode(TypesGood([bus]), AccessGood([bus])))
  {
    if |args| == 2 {
      assert |FaultFreeTrace(args[1], bus)| >= |InitEvents([args[1]])| == 2;
    }
  }

  /** A run that ends with 0, -5 or -6 made every call of the fault-free run,
      and its code is the one the gate picks. */
  lemma CompletedRun(args: seq<string>, bus: Port, fault: Option<Fault>)
    requires ExpectedExit(args, bus, fault).code in {0, -5, -6}
    ensures |args| == 2 && !Raises(args, bus, fault)
    ensures ExpectedExit(args, bus, fault) ==
      Exit(GateCode(TypesGood([bus]), AccessGood([bus])), FaultFreeTrace(args[1], bus))
  {
    assert [] + FaultFreeTrace(args[1], bus) == FaultFreeTrace(args[1], bus);
  }

  /** A wrong argument count is reported before any port is configured. */
  lemma UsageErrorBeforeAnyPort(args: seq<string>, bus: Port, fault: Option<Fault>)
    requires |args| != 2
    ensures ExpectedExit(args, bus, fault) == Exit(-1, [])
  {
  }

  /** When PortsOpen fails, main returns -2 right after it: no axis is created
      and the ports are not closed. */
  lemma InitFailureCreatesNoAxis(args: seq<string>, bus: Port, fault: Option<Fault>)
    requires ExpectedExit(args, bus, fault).code == -2
    ensures |args| == 2 && PortsOpenRejected([args[1]], fault)
    ensures ExpectedExit(args, bus, fault).trace == InitEvents([args[1]])
    ensures Invoked(Construct, ExpectedExit(args, bus, fault).trace) == []
    ensures ClosePorts !in ExpectedExit(args, bus, fault).trace
  {
    ExitCodes(args, bus, fault);
    var init := InitEvents([args[1]]);
    var t := FaultFreeTrace(args[1], bus);
    assert t[..2] == init;
    assert init[..2] == init;
    InvokedInit(Construct, [args[1]], 2);
  }

  /** On every path that reaches the gate without an exception, every created
      axis is deleted and PortsClose is the last call, whether the gate passed
      or not. */
  lemma NormalExitCleansUp(args: seq<string>, bus: Port, fault: Option<Fault>)
    requires ExpectedExit(args, bus, fault).code in {0, -5, -6}
    ensures |args| == 2
    ensures ExpectedExit(args, bus, fault).trace == FaultFreeTrace(args[1], bus)
    ensures var t := ExpectedExit(args, bus, fault).trace;
      Invoked(Construct, t) == Refs(Axes([bus])) && Invoked(Destroy, t) == Refs(Axes([bus])) &&
      t[|t| - 1] == ClosePorts && ClosePorts !in t[..|t| - 1]
  {
    CompletedRun(args, bus, fault);
    FaultFreeInvocations(Construct, args[1], bus);
    FaultFreeInvocations(Destroy, args[1], bus);
    ClosePortsOnlyLast(args[1], bus);
  }

  /** AxisMain runs only when the gate passes, never out of creation order; on
      success it has run exactly once on each axis, in creation order. */
  lemma AxesRunOnlyThroughGate(args: seq<string>, bus: Port, fault: Option<Fault>)
    requires |args| == 2
    ensures var t := ExpectedExit(args, bus, fault).trace;
      Invoked(RunMain, t) <= (if TypesGood([bus]) && AccessGood([bus]) then Refs(Axes([bus])) else [])
    ensures var x := ExpectedExit(args, bus, fault);
      x.code == 0 ==> Invoked(RunMain, x.trace) == Refs(Axes([bus])) == Invoked(Construct, x.trace)
  {
    var x := ExpectedExit(args, bus, fault);
    var full := FaultFreeTrace(args[1], bus);
    ExitTraceIsPrefix(args, bus, fault);
    FaultFreeInvocations(RunMain, args[1], bus);
    InvokedPrefix(RunMain, x.trace, full);
    if x.code == 0 {
      CompletedRun(args, bus, fault);
      FaultFreeInvocations(Construct, args[1], bus);
    }
  }

  /** No axis is deleted before the cleanup phase. */
  lemma NoDeletionBeforeCleanup(address: string, bus: Port)
    ensures Invoked(Destroy, BeforeCleanup(address, bus)) == []
  {
    var axes := Axes([bus]);
    var init := InitEvents([address]);
    InvokedConcat(Destroy, init + AxisEvents(Construct, axes), RunPhase([bus]));
    InvokedConcat(Destroy, init, AxisEvents(Construct, axes));
    assert init[..|init|] == init;
    InvokedInit(Destroy, [address], |init|);
    InvokedAxisEvents(Destroy, Construct, axes);
    InvokedAxisEvents(Destroy, RunMain, axes);
  }

  /** A run that ends with -3 or -4 stopped at the call that raised. */
  lemma RaisedRun(args: seq<string>, bus: Port, fault: Option<Fault>)
    requires ExpectedExit(args, bus, fault).code in {-3, -4}
    ensures Raises(args, bus, fault) && !PortsOpenRejected([args[1]], fault)
    ensures ExpectedExit(args, bus, fault) ==
      Exit(CatchCode(fault.value.kind), FaultFreeTrace(args[1], bus)[..fault.value.step + 1])
  {
  }

  /** Stopping at call `k` of `front + d + [ClosePorts]`, where only `d` deletes
      axes and only the last call closes the ports: the ports are closed only
      if call `k` is that last call; no axis is deleted if call `k` comes
      before `d`; and the deletions made are always the first ones of `d`. */
  lemma StopsBeforeCleanup(front: seq<Event>, d: seq<Event>, k: nat)
    requires Invoked(Destroy, front) == []
    requires forall j | 0 <= j < |front| :: front[j] != ClosePorts
    requires forall j | 0 <= j < |d| :: d[j].AxisCall? && d[j].op == Destroy
    requires k < |front + d + [ClosePorts]|
    ensures var t := front + d + [ClosePorts];
      k + 1 < |t| ==> ClosePorts !in t[..k + 1]
    ensures var t := front + d + [ClosePorts];
      k < |front| ==> Invoked(Destroy, t[..k + 1]) == []
    ensures var t := front + d + [ClosePorts];
      Invoked(Destroy, t[..k + 1]) <= Invoked(Destroy, d)
  {
    var t := front + d + [ClosePorts];
    if k + 1 < |t| {
      forall j | 0 <= j < k + 1 ensures t[j] != ClosePorts {
        assert t[j] == if j < |front| then front[j] else d[j - |front|];
      }
      assert forall j | 0 <= j < k + 1 :: t[..k + 1][j] == t[j];
    }
    InvokedPrefix(Destroy, t[..k + 1], t);
    InvokedConcat(Destroy, front + d, [ClosePorts]);
    InvokedConcat(Destroy, front, d);
    assert [ClosePorts][..0] == [];
    if k < |front| {
      assert t[..k + 1] <= front;
      InvokedPrefix(Destroy, t[..k + 1], front);
    }
  }

  /** The calls before the cleanup phase never close the ports. */
  lemma NoCloseBeforeCleanup(address: string, bus: Port)
    ensures forall j | 0 <= j < |BeforeCleanup(address, bus)| :: BeforeCleanup(address, bus)[j] != ClosePorts
  {
  }

  /** The run where nothing raises, cut after call `k`. */
  lemma CutRunCleanup(address: string, bus: Port, k: nat)
    requires k < |FaultFreeTrace(address, bus)|
    ensures var full := FaultFreeTrace(address, bus);
      k + 1 < |full| ==> ClosePorts !in full[..k + 1]
    ensures k < |BeforeCleanup(address, bus)| ==>
      Invoked(Destroy, FaultFreeTrace(address, bus)[..k + 1]) == []
    ensures Invoked(Destroy, FaultFreeTrace(address, bus)[..k + 1]) <= Refs(Axes([bus]))
  {
    TraceShape(address, bus);
    NoDeletionBeforeCleanup(address, bus);
    NoCloseBeforeCleanup(address, bus);
    InvokedAxisEvents(Destroy, Destroy, Axes([bus]));
    StopsBeforeCleanup(BeforeCleanup(address, bus), AxisEvents(Destroy, Axes([bus])), k);
  }

  /** An exception raised by any call but PortsOpen's mnErr ends the run at
      that call with -3 or -4: nothing after it happens. The ports are closed
      only if PortsClose itself raised; no axis is deleted when the raising
      call comes before the delete loop; and an exception within the delete
      loop leaves the axes after the raising deletion undeleted. */
  lemma ExceptionSkipsCleanup(args: seq<string>, bus: Port, fault: Option<Fault>)
    requires ExpectedExit(args, bus, fault).code in {-3, -4}
    ensures Raises(args, bus, fault)
    ensures ExpectedExit(args, bus, fault).code == CatchCode(fault.value.kind)
    ensures ExpectedExit(args, bus, fault).trace == FaultFreeTrace(args[1], bus)[..fault.value.step + 1]
    ensures fault.value.step + 1 < |FaultFreeTrace(args[1], bus)| ==> ClosePorts !in ExpectedExit(args, bus, fault).trace
    ensures fault.value.step < |BeforeCleanup(args[1], bus)| ==>
      Invoked(Destroy, ExpectedExit(args, bus, fault).trace) == []
    ensures Invoked(Destroy, ExpectedExit(args, bus, fault).trace) <= Refs(Axes([bus]))
  {
    RaisedRun(args, bus, fault);
    CutRunCleanup(args[1], bus, fault.value.step);
  }

  /** Access levels from the first wrong-model node on change nothing about the run. */
  lemma ExitIgnoresLaterAccess(args: seq<string>, bus1: Port, bus2: Port, fault: Option<Fault>)
    requires |Entries([bus1])| == |Entries([bus2])|
    requires forall k | 0 <= k < |Entries([bus1])| ::
      Entries([bus1])[k].at == Entries([bus2])[k].at &&
      Entries([bus1])[k].node.nodeType == Entries([bus2])[k].node.nodeType
    requires forall k | 0 <= k < FirstBadType(Entries([bus1])) ::
      Entries([bus1])[k].node.accessFull == Entries([bus2])[k].node.accessFull
    ensures ExpectedExit(args, bus1, fault) == ExpectedExit(args, bus2, fault)
  {
    AccessAfterFirstBadTypeIgnored([bus1], [bus2]);
  }
}
