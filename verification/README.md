# ClearPath-SC single-threaded example: node validation and run gate

This project models the driver program of the single-threaded ClearPath-SC
example (`main.cpp`).

`InitializeSysManager` does three things:
- registers the port named on the command line with the system manager (`ComHubPort`);
- opens the ports (`PortsOpen`);
- reports an `mnErr` from the opening as `false`.

`main` then does the following:
- It visits every node, port by port and in node order. It keeps two flags, `nodeTypesGood` and `accessLvlsGood`.
- It creates an `Axis` for a node while `nodeTypesGood` still holds, and checks that node's access level.
- If both flags hold, it runs `AxisMain` on every axis in creation order. Otherwise it picks the failure code: -5 for a wrong node model, which takes precedence, or -6 for missing access.
- It deletes the axes and closes the ports.
- It maps a caught `mnErr` to -3 and any other exception to -4.
- A wrong argument count gives -1, and a failed initialisation gives -2.

The modules, in dependency order:

- `Network` (network.dfy) is the network the program sees once its ports are open:
  - each port is a sequence of nodes, each with a model (`NodeType`) and a full-access flag;
  - `Entries` flattens the ports into visit order, each node paired with its `NodeRef` (port, index).
- `Calls` (calls.dfy) covers the calls into the SDK, whose bodies are not part of this model: `ComHubPort`, `PortsOpen`, `new Axis`, `AxisMain`, `delete` and `PortsClose`.
  - A run is described by the trace of calls it makes (`Event`).
  - Which call raises an exception, if any, is an input: a `Fault` names the trace position of the raising call and its kind, `mnErr` or other.
  - `Perform` is the reference meaning of a sequence of calls: they stop at the first one that raises.
  - `Call` is the single external call that the imperative code makes.
- `Validation` (validation.dfy) holds the node check.
  - Specification functions:
    - `FirstBadType`;
    - `Axes`, the longest prefix of the visit order made of ClearPath-SC nodes;
    - `TypesGood` and `AccessGood`, the final values of the two flags;
    - `GateCode`.
  - Imperative nested loops `ValidateNodes`/`VisitPort`, proved to produce them.
- `Example` (example.dfy) holds the program itself.
  - Methods: `InitializeSysManager`, `ForEachAxis` (the run loop and the delete loop) and `RunExample` (`main`).
  - `RunExample` is proved to return `ExpectedExit`, a function of the arguments, the nodes found and the fault.
- `ExampleProps` (example_props.dfy) holds what a whole run promises, as lemmas about `ExpectedExit`:
  - the meaning of each exit code;
  - which axes are created, run and deleted;
  - when the ports are closed.

Two behaviours of `main.cpp` shape the model:

- Axis creation is guarded by the aggregate `nodeTypesGood` flag (main.cpp:165), not by the current node's own check. After the first node of the wrong model, no node gets an axis, even one of the right model, and no access level is read. `Axes` and `AccessAfterFirstBadTypeIgnored` state this.
- Any exception leaves the `try` block at once (main.cpp:111-218). The remaining axes do not run, the axes not yet deleted stay undeleted, and the ports are not closed unless `PortsClose` itself raised. No axis is deleted when the raising call comes before the delete loop. `ExceptionSkipsCleanup` states this.

## Model

| member | source | states |
|---|---|---|
| Network.Entries | main.cpp:144-156 | every visited entry names a real node of the network, and there are exactly as many entries as nodes |
| Network.EntriesInVisitOrder | main.cpp:144-156 | nodes are visited port by port and, within a port, by increasing node index, each once |
| Network.EntryAt | main.cpp:144-156 | node i of port p is visited right after all nodes of earlier ports and the first i nodes of port p, so none is skipped |
| Network.EntriesOfFirstPorts | main.cpp:144 | the nodes of the first p ports are visited before all others |
| Network.VisitedSoFar | main.cpp:144-156 | the nodes visited before node i of port p form a prefix of the full visit order |
| Calls.PerformConcat | main.cpp:111-218 | performing two call sequences in turn is performing their concatenation; an exception in the first skips all of the second |
| Calls.PerformRaisedEarly | main.cpp:111-218 | once a call has raised, no later call is made |
| Calls.Call | main.cpp:50-62 | one external call is appended to the trace and raises exactly when the fault names its position |
| Validation.FirstBadType | main.cpp:159-163 | the position of the first node whose model is neither CLEARPATH_SC_ADV nor CLEARPATH_SC: all earlier nodes pass, and that one fails |
| Validation.FirstBadTypeUnique | main.cpp:159-163 | the position of the first wrong-model node is determined by that characterisation alone |
| Validation.FirstBadTypeStep | main.cpp:159-165 | visiting one more node extends the good prefix only if no node failed so far and that node passes |
| Validation.FirstBadTypePrefix | main.cpp:154-167 | visiting more nodes never removes an axis |
| Validation.Axes | main.cpp:154-167 | an axis is created for a node iff it and every node before it passed the type check; the axes are a prefix of the visit order, each bound to a ClearPath-SC node, never more than the node count |
| Validation.TypesGoodIff | main.cpp:142-163 | nodeTypesGood ends true iff no node fails the type check, iff every node gets an axis |
| Validation.TypesGoodOverNodes | main.cpp:142-163 | nodeTypesGood is true iff every node in the flat node sequence is a ClearPath-SC |
| Validation.TypesGoodOrderFree | main.cpp:142-163 | reordering the nodes, within or across ports, does not change nodeTypesGood |
| Validation.AccessAfterFirstBadTypeIgnored | main.cpp:165-173 | the access levels of nodes from the first wrong-model node on change neither the axes nor either flag |
| Validation.GateCode | main.cpp:180-196 | 0 iff both flags hold; -5 iff a type check failed, whatever the access; -6 iff all types are good but access failed |
| Validation.VisitStep | main.cpp:159-173 | one loop iteration moves the flags and the axis list from their values for the nodes seen to their values for one more node |
| Validation.SkipNodeStep | main.cpp:159-165 | a node visited after nodeTypesGood went false creates no axis and makes no call |
| Validation.CreateNodeStep | main.cpp:165-173 | a node visited while nodeTypesGood holds makes one axis-construction call and, when that call does not raise, extends the axis list and checks its access |
| Validation.VisitPort | main.cpp:154-175 | the inner loop over the nodes of one port keeps the flags, the axis list and the trace equal to their values for the nodes visited so far |
| Validation.ValidateNodes | main.cpp:138-176 | the loop makes exactly one construction call per axis, in visit order, stopping at one that raises; when none raises, listOfAxes, nodeTypesGood and accessLvlsGood equal Axes, TypesGood and AccessGood |
| Example.InitializeSysManager | main.cpp:42-95 | registers each port and then opens them; returns false exactly when PortsOpen raises an mnErr and true when nothing raises; any other exception propagates |
| Example.CatchCode | main.cpp:207-218 | an mnErr maps to -3 and any other exception to -4 |
| Example.ForEachAxis | main.cpp:180-201 | applies AxisMain, or delete, to each axis once, in list order, stopping at the first call that raises |
| Example.RunExample | main.cpp:104-223 | main returns exactly the exit code and makes exactly the calls ExpectedExit gives |
| ExampleProps.InvokedConcat | main.cpp:111-204 | the axes touched by two traces in turn are those of the first, then those of the second |
| ExampleProps.InvokedPrefix | main.cpp:111-204 | the axes touched by a prefix of a trace are a prefix of those the whole trace touches |
| ExampleProps.InvokedAxisEvents | main.cpp:180-201 | applying an operation to every axis touches each axis once, in order, with that operation only |
| ExampleProps.InvokedInit | main.cpp:42-95 | no axis is touched while the ports are set up |
| ExampleProps.TraceShape | main.cpp:198-204 | in a run where nothing raises, the calls split into those before cleanup, then one delete per axis, then PortsClose |
| ExampleProps.InvokedInPhases | main.cpp:131-204 | only the construction, run and delete phases touch axes |
| ExampleProps.InvokedAxisPhases | main.cpp:165-201 | constructing, running through the gate and deleting the axes touches each axis once per phase, and runs none when the gate fails |
| ExampleProps.FaultFreeInvocations | main.cpp:165-201 | when nothing raises, every axis is constructed and deleted once, in creation order, and is run once iff the gate passes |
| ExampleProps.ExitTraceIsPrefix | main.cpp:111-218 | whatever raises, the calls made are the first calls of the run in which nothing raises |
| ExampleProps.ClosePortsOnlyLast | main.cpp:198-204 | PortsClose is the last call of a run where nothing raises, and no earlier call is PortsClose |
| ExampleProps.ExitCodes | main.cpp:107-218 | -1 iff argc is not 2; -2 iff PortsOpen raises an mnErr; -3 iff another call raises an mnErr; -4 iff a call raises another exception; otherwise the gate picks 0, -5 or -6 |
| ExampleProps.CompletedRun | main.cpp:180-222 | a run ending with 0, -5 or -6 made every call of the run and returned the gate's code |
| ExampleProps.UsageErrorBeforeAnyPort | main.cpp:114-123 | a wrong argument count returns -1 before any port is configured |
| ExampleProps.InitFailureCreatesNoAxis | main.cpp:59-136 | -2 is returned right after PortsOpen raised an mnErr: no axis is created and the ports are not closed |
| ExampleProps.NormalExitCleansUp | main.cpp:198-204 | on every exit through the gate, whether it passed or not, every created axis is deleted, in creation order, and PortsClose is the last call |
| ExampleProps.AxesRunOnlyThroughGate | main.cpp:180-185 | AxisMain runs only if both flags hold, never out of creation order; on exit code 0 it has run exactly once on each created axis |
| ExampleProps.NoDeletionBeforeCleanup | main.cpp:198-201 | no axis is deleted before the delete loop |
| ExampleProps.NoCloseBeforeCleanup | main.cpp:204 | PortsClose is not called before the cleanup phase |
| ExampleProps.RaisedRun | main.cpp:207-218 | a run ending with -3 or -4 stopped at the call that raised, with the code of its kind |
| ExampleProps.StopsBeforeCleanup | main.cpp:198-218 | stopping before the last call never closes the ports; stopping before the deletions deletes no axis; the deletions made are always the first ones of the delete loop |
| ExampleProps.CutRunCleanup | main.cpp:198-218 | the run cut after any call has not closed the ports unless the cut is after PortsClose, has deleted no axis if cut before the delete loop, and has deleted a prefix of the axes in creation order |
| ExampleProps.ExceptionSkipsCleanup | main.cpp:198-218 | an exception outside PortsOpen's mnErr ends the run at the raising call with -3 or -4; the ports are closed only if PortsClose itself raised; no axis is deleted when the raising call comes before the delete loop; the axes deleted are a prefix of the axes in creation order, so those after the raising deletion stay undeleted |
| ExampleProps.ExitIgnoresLaterAccess | main.cpp:165-173 | the access levels of nodes from the first wrong-model node on change neither the exit code nor the calls made |

## Left out

- Diagnostics are not modelled: all `printf`/`fprintf` output, the `msgUser` pause and its `getchar`.
- The Windows/POSIX branch that passes the port address as a number or as a string (main.cpp:47-57) is not modelled. The model keeps the POSIX form, a string.
- The node-statistics loop of `InitializeSysManager` (main.cpp:74-91) is not modelled. It only prints.
- Node queries are not modelled as calls that may raise: `Ports`, `NodeCount`, `Nodes`, `Info.NodeType` and `Setup.AccessLevelIsFull`. The values they return are the input network; only calls that change the system are events that may raise.
- The SDK internals are opaque events; what they do to the hardware is not part of this model:
  - `SysManager::ComHubPort`, `PortsOpen` and `PortsClose`;
  - the `Axis` constructor, destructor and `AxisMain`.
- `main` is modelled with its single port. `RunExample` takes the nodes of that port, while `ValidateNodes` is general over any number of ports.
- The `SysManager` destructor at the end of `main`'s scope is not modelled.
- Example.RunExample: a deletion (main.cpp:200) that raises is modelled as an exception that reaches `main`'s handlers and gives -3 or -4. This assumes `~Axis` may throw, that is, it is declared `noexcept(false)` or the build predates C++11. Axis.h is not part of this model. If `~Axis` is implicitly `noexcept`, as it is from C++11 on, such an exception calls `std::terminate` and `main` returns no exit code; the model does not capture that outcome.
- Example.ForEachAxis: the run loop's counter is a 16-bit `Uint16` in the source, and the model does not capture its wrap-around beyond 65535 axes, which a ClearPath-SC network cannot reach.
- foundation/lnkAccessLinux.cpp is not part of this model. It holds operating-system wrappers: the clock `infcCoreTime` over `clock_gettime`, thread ids, file names, the dump directory and error-string formatting.
