/** The single-threaded example program: InitializeSysManager and main. The
    SDK objects it talks to are not part of this model; what the program does
    with them is the trace of calls it makes, and which of those calls raises
    is an input (see module Calls). */
module Example {
  import opened Network
  import opened Calls
  import opened Validation

  /** The calls InitializeSysManager makes: one ComHubPort per port name, then PortsOpen. */
  function PortEvents(listOfPorts: seq<string>): seq<Event> {
    seq(|listOfPorts|, i requires 0 <= i < |listOfPorts| => ConfigurePort(i, listOfPorts[i]))
  }

  function InitEvents(listOfPorts: seq<string>): seq<Event> {
    PortEvents(listOfPorts) + [OpenPorts(|listOfPorts|)]
  }

  /** PortsOpen, the call after the ComHubPort calls, raises an mnErr. */
  predicate PortsOpenRejected(listOfPorts: seq<string>, fault: Option<Fault>) {
    fault == Some(Fault(|listOfPorts|, MnErr))
  }

  /** Registers each port with the manager, then opens them all. An mnErr from
      PortsOpen is caught and reported as `false`; any other exception, and any
      exception from the port registration, propagates to the caller. Printing
      the node statistics is left out. */
  method InitializeSysManager(listOfPorts: seq<string>, fault: Option<Fault>)
    returns (initialized: bool, trace: seq<Event>, thrown: Option<ErrKind>)
    ensures trace == Perform([], InitEvents(listOfPorts), fault).trace
    ensures PortsOpenRejected(listOfPorts, fault) ==> thrown.None? && !initialized
    ensures !PortsOpenRejected(listOfPorts, fault) ==> thrown == Perform([], InitEvents(listOfPorts), fault).thrown
    ensures thrown.None? ==> (initialized <==> !PortsOpenRejected(listOfPorts, fault))
  {
    initialized, trace, thrown := false, [], None;
    var iPort := 0;
    while iPort < |listOfPorts| && thrown.None?
      invariant iPort <= |listOfPorts|
      invariant thrown.None? ==> Pending(trace, fault) && trace == PortEvents(listOfPorts)[..iPort]
      invariant thrown.Some? ==> Step(trace, thrown) == Perform([], InitEvents(listOfPorts), fault)
      invariant thrown.Some? ==> !PortsOpenRejected(listOfPorts, fault)
      decreases |listOfPorts| - iPort
    {
      var ev := ConfigurePort(iPort, listOfPorts[iPort]);
      ghost var done := trace;
      assert PortEvents(listOfPorts)[..iPort + 1] == done + [ev];
      trace, thrown := Call(trace, ev, fault);
      if thrown.Some? {
        assert InitEvents(listOfPorts) == done + [ev] + InitEvents(listOfPorts)[iPort + 1..];
        PerformConcat([], done + [ev], InitEvents(listOfPorts)[iPort + 1..], fault);
      }
      iPort := iPort + 1;
    }
    if thrown.Some? {
      return;
    }
    assert trace == PortEvents(listOfPorts);
    // try { PortsOpen } catch (mnErr) { return false; }
    trace, thrown := Call(trace, OpenPorts(|listOfPorts|), fault);
    if thrown == Some(MnErr) {
      return false, trace, None;
    }
    initialized := thrown.None?;
  }

  /** The exit code of an exception caught by main: -3 for an mnErr, -4 for any other. */
  function CatchCode(kind: ErrKind): (code: int)
    ensures code == -3 <==> kind.MnErr?
    ensures code == -4 <==> kind.OtherErr?
  {
    match kind
    case MnErr => -3
    case OtherErr => -4
  }

  /** How a run ends: its exit code and the calls it made. */
  datatype Exit = Exit(code: int, trace: seq<Event>)

  /** The axes that are run: all of them when the gate passes, none otherwise. */
  function RunPhase(ports: seq<Port>): seq<Event> {
    if TypesGood(ports) && AccessGood(ports) then AxisEvents(RunMain, Axes(ports)) else []
  }

  /** The calls of main after initialisation when none raises: construct the
      axes, run them if the gate passes, delete them, close the ports. */
  function BodyEvents(ports: seq<Port>): seq<Event> {
    AxisEvents(Construct, Axes(ports)) + RunPhase(ports) + AxisEvents(Destroy, Axes(ports)) + [ClosePorts]
  }

  /** Every call main makes on a port at `address` with nodes `bus`, when none raises. */
  function FaultFreeTrace(address: string, bus: Port): seq<Event> {
    InitEvents([address]) + BodyEvents([bus])
  }

  /** How main ends, given its arguments, the nodes found on its one port and
      the call that raises, if any. */
  function ExpectedExit(args: seq<string>, bus: Port, fault: Option<Fault>): Exit {
    if |args| != 2 then Exit(-1, [])
    else
      var s := Perform([], FaultFreeTrace(args[1], bus), fault);
      if s.thrown.None? then Exit(GateCode(TypesGood([bus]), AccessGood([bus])), s.trace)
      else if PortsOpenRejected([args[1]], fault) then Exit(-2, s.trace)
      else Exit(CatchCode(s.thrown.value), s.trace)
  }

  /** Steps through listOfAxes applying `op` (AxisMain, or delete) to each axis in order. */
  method ForEachAxis(op: AxisOp, listOfAxes: seq<Located>, trace0: seq<Event>, fault: Option<Fault>)
    returns (trace: seq<Event>, thrown: Option<ErrKind>)
    requires Pending(trace0, fault)
    ensures Step(trace, thrown) == Perform(trace0, AxisEvents(op, listOfAxes), fault)
  {
    trace, thrown := trace0, None;
    var iAxis := 0;
    while iAxis < |listOfAxes| && thrown.None?
      invariant iAxis <= |listOfAxes|
      invariant thrown.None? ==> Pending(trace, fault) && trace == trace0 + AxisEvents(op, listOfAxes[..iAxis])
      invariant thrown.Some? ==> Step(trace, thrown) == Perform(trace0, AxisEvents(op, listOfAxes), fault)
      decreases |listOfAxes| - iAxis
    {
      ghost var done := AxisEvents(op, listOfAxes[..iAxis]);
      var ev := AxisCall(op, listOfAxes[iAxis].at);
      assert listOfAxes[..iAxis + 1] == listOfAxes[..iAxis] + [listOfAxes[iAxis]];
      AxisEventsStep(op, listOfAxes[..iAxis], listOfAxes[iAxis]);
      PerformConcat(trace0, done, [ev], fault);
      trace, thrown := Call(trace, ev, fault);
      if thrown.Some? {
        AxisEventsPrefix(op, listOfAxes[..iAxis + 1], listOfAxes);
        PerformRaisedEarly(trace0, done + [ev], AxisEvents(op, listOfAxes), fault);
      }
      iAxis := iAxis + 1;
    }
    if thrown.None? {
      assert listOfAxes[..iAxis] == listOfAxes;
    }
  }

  /** main: `args` is argv (so argc is |args|), `bus` the nodes PortsOpen finds
      on the one port, `fault` the call that raises, if any. */
  method RunExample(args: seq<string>, bus: Port, fault: Option<Fault>) returns (exit: Exit)
    ensures exit == ExpectedExit(args, bus, fault)
  {
    var returnVal := 0;
    if |args| != 2 {
      return Exit(-1, []);
    }
    var portsList := [args[1]];
    ghost var body := BodyEvents([bus]);
    PerformConcat([], InitEvents(portsList), body, fault);
    var initialized, trace, thrown := InitializeSysManager(portsList, fault);
    if thrown.Some? {
      return Exit(CatchCode(thrown.value), trace);
    }
    if !initialized {
      return Exit(-2, trace);
    }

    var ports := [bus];
    ghost var axes := Axes(ports);
    ghost var creates := AxisEvents(Construct, axes);
    ghost var runs := RunPhase(ports);
    ghost var deletes := AxisEvents(Destroy, axes);
    ghost var t1 := trace;
    PerformConcat(t1, creates + runs + deletes, [ClosePorts], fault);
    PerformConcat(t1, creates + runs, deletes, fault);
    PerformConcat(t1, creates, runs, fault);

    var listOfAxes, nodeTypesGood, accessLvlsGood;
    listOfAxes, nodeTypesGood, accessLvlsGood, trace, thrown := ValidateNodes(ports, trace, fault);
    if thrown.Some? {
      return Exit(CatchCode(thrown.value), trace);
    }

    if nodeTypesGood && accessLvlsGood {
      trace, thrown := ForEachAxis(RunMain, listOfAxes, trace, fault);
      if thrown.Some? {
        return Exit(CatchCode(thrown.value), trace);
      }
    } else {
      if !nodeTypesGood {
        returnVal := -5;
      } else if !accessLvlsGood {
        returnVal := -6;
      }
      assert Perform(trace, [], fault) == Step(trace, None);
    }

    trace, thrown := ForEachAxis(Destroy, listOfAxes, trace, fault);
    if thrown.Some? {
      return Exit(CatchCode(thrown.value), trace);
    }
    trace, thrown := Call(trace, ClosePorts, fault);
    if thrown.Some? {
      return Exit(CatchCode(thrown.value), trace);
    }
    return Exit(returnVal, trace);
  }
}
