/** The calls the example program makes into code that is not part of this
    model (the SDK's SysManager, the Axis class), and the exceptions they may
    raise. A run is described by the trace of these calls, in order. Which
    call raises, if any, is an input: a Fault names the position of the
    raising call in the trace and the kind of exception it raises. */
module Calls {
  import opened Network

  datatype Option<T> = None | Some(value: T)

  /** The two kinds of exception the program tells apart: the SDK's mnErr, and anything else. */
  datatype ErrKind = MnErr | OtherErr

  /** The call at position `step` of the trace (counting from 0) raises `kind`. */
  datatype Fault = Fault(step: nat, kind: ErrKind)

  /** What is done to an axis: its construction, its AxisMain, its deletion. */
  datatype AxisOp = Construct | RunMain | Destroy

  datatype Event =
    | ConfigurePort(index: nat, address: string)  // SysManager::ComHubPort
    | OpenPorts(count: nat)                        // SysManager::PortsOpen
    | AxisCall(op: AxisOp, at: NodeRef)            // new Axis, Axis::AxisMain, delete
    | ClosePorts                                   // SysManager::PortsClose

  /** The calls made so far, and the exception under way, if any. */
  datatype Step = Step(trace: seq<Event>, thrown: Option<ErrKind>)

  /** No call of `trace` has raised. */
  predicate Pending(trace: seq<Event>, fault: Option<Fault>) {
    fault.None? || |trace| <= fault.value.step
  }

  /** Making the calls `events`, one after the other, after those of `trace`:
      the calls stop at the first one that raises. */
  function Perform(trace: seq<Event>, events: seq<Event>, fault: Option<Fault>): Step {
    if fault.Some? && |trace| <= fault.value.step < |trace| + |events| then
      Step(trace + events[..fault.value.step + 1 - |trace|], Some(fault.value.kind))
    else
      Step(trace + events, None)
  }

  /** Making `e1` and then `e2` is making `e1 + e2`: an exception in `e1` skips all of `e2`. */
  lemma PerformConcat(trace: seq<Event>, e1: seq<Event>, e2: seq<Event>, fault: Option<Fault>)
    requires Pending(trace, fault)
    ensures var s := Perform(trace, e1, fault);
      Perform(trace, e1 + e2, fault) == if s.thrown.Some? then s else Perform(s.trace, e2, fault)
    ensures var s := Perform(trace, e1, fault);
      s.thrown.None? ==> Pending(s.trace, fault) && s.trace == trace + e1
  {
    if fault.Some? {
      var j := fault.value.step + 1 - |trace|;
      if j <= |e1| {
        assert (e1 + e2)[..j] == e1[..j];
      } else if j <= |e1| + |e2| {
        assert (e1 + e2)[..j] == e1 + e2[..j - |e1|];
      }
    }
  }

  /** When calls already raise within `e1`, whatever follows `e1` is never called. */
  lemma PerformRaisedEarly(trace: seq<Event>, e1: seq<Event>, e2: seq<Event>, fault: Option<Fault>)
    requires Pending(trace, fault) && e1 <= e2
    requires Perform(trace, e1, fault).thrown.Some?
    ensures Perform(trace, e2, fault) == Perform(trace, e1, fault)
  {
    assert e2 == e1 + e2[|e1|..];
    PerformConcat(trace, e1, e2[|e1|..], fault);
  }

  /** One call into code outside the model. */
  method Call(trace: seq<Event>, ev: Event, fault: Option<Fault>) returns (after: seq<Event>, thrown: Option<ErrKind>)
    ensures Step(after, thrown) == Perform(trace, [ev], fault)
  {
    after := trace + [ev];
    thrown := if fault.Some? && fault.value.step == |trace| then Some(fault.value.kind) else None;
  }

  /** The calls that apply `op` to each axis of `axes`, in order. */
  function AxisEvents(op: AxisOp, axes: seq<Located>): seq<Event> {
    seq(|axes|, i requires 0 <= i < |axes| => AxisCall(op, axes[i].at))
  }

  lemma AxisEventsStep(op: AxisOp, axes: seq<Located>, a: Located)
    ensures AxisEvents(op, axes + [a]) == AxisEvents(op, axes) + [AxisCall(op, a.at)]
  {
  }

  lemma AxisEventsPrefix(op: AxisOp, axes: seq<Located>, longer: seq<Located>)
    requires axes <= longer
    ensures AxisEvents(op, axes) <= AxisEvents(op, longer)
  {
  }
}
