# ecim MNA assembly engine, modelled in Dafny

ecim is a small circuit simulator built on Modified Nodal Analysis (MNA).
The simulator does four things:

- It constructs nodes from a global id counter. Id 0 is ground.
- It registers two-terminal components with a `CircuitBuilder`, which also tracks every node it sees.
- For each time step it:
  - advances the clock,
  - sizes a linear system `G V = I` as `(N - 1) + M`, where `N` is one more than the largest node id and `M` is the number of voltage sources,
  - stamps resistors, then capacitors, then inductors, then voltage sources into it,
  - solves it,
  - writes node voltages and source branch currents back,
  - updates the capacitors' and inductors' stored state.
- A fixed-step driver (`Simulate`) repeats steps until the clock reaches the end time, less a tolerance.

The model uses exact reals for doubles and keeps the stamp code's structure. Specifically:

- Node pointers become handles into an arena of node objects.
- The element class hierarchy becomes a closed datatype (resistor, capacitor, inductor, voltage source with a DC or custom waveform).
- Every element is stamped through one signature `(G, I, dt, vsIndex, time)`.
- The builder's state is an immutable `Circuit` value that holds:
  - the arena,
  - the id counter,
  - the components in registration order,
  - the tracked node handles,
  - the clock.
- The linear solve is a parameter (`Solver`). The model assumes nothing about it; every write-back is guarded by the length of the vector it returns, as in the C++ code.

Modules:

| module | contents |
|---|---|
| `Nodes` | node construction and the terminal-to-index map |
| `Components` | elements, wiring, read-outs and the post-solve state updates |
| `Stamps` | the per-element stamps on a dense system |
| `StampLaws` | entry-level facts about the stamps |
| `Circuits` | the builder: node creation, registration, system layout |
| `Assembly` | the ordered passes and the assembled system |
| `Transient` | step, commit, clock and the fixed-step driver |
| `DcSolve` | the older DC-only `Solve` in `CircuitBuilder.hpp` |
| `Probes` | node and component probes |
| `Scenarios` | the situations the library's tests describe, stated with exact reals |

The inductor's post-solve update is modelled as the code writes it: `(V1 - V2) / (L / 1e-6)`, whatever the step size. It is not a backward-Euler update, and the model does not correct it.

## Model

| member | source | states |
|---|---|---|
| Nodes.Create | ecim/Node.hpp:13 | a new node takes the counter's value as its id, starts at 0 V, and the counter moves on by one |
| Nodes.CreateMany | ecim/Node.hpp:13 | nodes constructed one after another get consecutive, strictly increasing ids from the counter's start, all at 0 V |
| Nodes.Index | ecim/Resistor.cpp:10-11 | a terminal's index is `id - 1` exactly when it is present with a positive id, and -1 (no contribution) for ground, a non-positive id or a missing node |
| Components.Connect | ecim/Component.hpp:14-17 | connecting sets terminal 1 and terminal 2 to the given nodes and keeps the element |
| Components.GetVoltageCases | ecim/DCVoltageSource.cpp:7-9 | a DC source reads its level whatever the time; a custom source reads its function at the time |
| Components.NewCapacitor | ecim/Capacitor.cpp:4-5 | a new capacitor has the given capacitance and stores 0 V and 0 A |
| Components.NewInductor | ecim/Inductor.cpp:4-5 | a new inductor has the given inductance and stores 0 A |
| Components.NewSource | ecim/VoltageSource.hpp:9 | a new voltage source has the given waveform and stores 0 A |
| Components.StoredCurrent | ecim/VoltageSource.cpp:25-27 | the read-out is the value `SetCurrent` stores: writing back what was read changes nothing |
| Components.SourceCount | ecim/CircuitBuilder.cpp:46-51 | the number of voltage sources never exceeds the number of parts |
| Components.SourceCountCounts | ecim/CircuitBuilder.cpp:46-51 | the count equals the number of positions in the list that hold a voltage source |
| Components.SourceCountZero | ecim/CircuitBuilder.cpp:46-51 | the count is 0 exactly when no part is a voltage source |
| Components.ConnectOverwrites | ecim/Component.hpp:14-17 | a second connection replaces the first entirely |
| Components.UnconnectedHasNoTerminals | ecim/Component.hpp:9 | a freshly constructed component has both terminals missing until it is connected |
| Components.SourceCountPrefix | ecim/CircuitBuilder.cpp:46-51 | the running count of voltage sources never decreases along the list and grows past every source it passes |
| Components.ResistorCurrent | ecim/Resistor.cpp:28-31 | the resistor read-out times R is `V1 - V2` when both terminals are connected, and is 0 when either is missing |
| Components.SetCurrent | ecim/VoltageSource.cpp:21-23 | setting the stored current of a source or capacitor makes it read back exactly that value and changes nothing else |
| Components.UpdateCapacitor | ecim/Capacitor.cpp:40-45 | with both terminals connected the stored voltage becomes `V1 - V2` and capacitance and current are kept; otherwise the capacitor is unchanged |
| Components.UpdateInductor | ecim/Inductor.cpp:37-42 | with both terminals connected the stored current times L equals `(V1 - V2) * 1e-6`; otherwise the inductor is unchanged |
| Components.UpdateState | ecim/CircuitBuilder.cpp:118-126 | with both terminals connected a capacitor stores `V1 - V2` and keeps its capacitance and current, and an inductor keeps its inductance and stores a current obeying the `1e-6` law; a part with a missing terminal, a resistor and a source are unchanged; the wiring is always kept |
| Stamps.StampConductance | ecim/Resistor.hpp:12-30 | conductance `g` is added to each non-ground diagonal and subtracted off the diagonal between two non-ground terminals; every other entry and the whole of `I` are unchanged |
| Stamps.InjectCurrent | ecim/Capacitor.cpp:36-37 | a current enters `I` at terminal 1 and leaves at terminal 2 (ground rows skipped); `G` is unchanged |
| Stamps.Companion | ecim/Capacitor.cpp:21-37 | a companion model changes `G` by exactly the branch pattern and `I` by exactly the injected current |
| Stamps.StampResistor | ecim/Resistor.cpp:6-24 | the resistor adds `1/R` in the branch pattern, entry by entry, and leaves `I` unchanged |
| Stamps.StampCapacitor | ecim/Capacitor.cpp:18-38 | for `dt <= 0` the system is unchanged; otherwise `G` gains `C/dt` in the branch pattern and `I` gains `(C/dt) * vprev` into terminal 1 and out of terminal 2 |
| Stamps.StampInductor | ecim/Inductor.cpp:13-35 | for `dt <= 0` the system is unchanged; otherwise `G` gains `dt/L` in the branch pattern and the previous current is drawn out of terminal 1's entry of `I` and into terminal 2's |
| Stamps.InductorCompanion | ecim/Inductor.cpp:16-32 | the companion values `1/Req` and `Veq/Req` equal `dt/L` and the previous current |
| Stamps.CompanionAlgebra | ecim/Inductor.cpp:16-17 | `1/(L/dt) = dt/L` and `((L/dt) * i) / (L/dt) = i` for non-zero L and positive dt |
| Stamps.StampSource | ecim/VoltageSource.cpp:4-19 | the source adds its branch-current coupling at the reserved index `k`, entry by entry, and its voltage to `I(k)` only |
| Stamps.SourceColumn | ecim/VoltageSource.cpp:10-11 | the KCL rows gain `+1` at `(i, k)` and `-1` at `(j, k)` for non-ground terminals; `I` is unchanged |
| Stamps.SourceConstraint | ecim/VoltageSource.cpp:14-15 | constraint row `k` gains `+1` at column `i` and `-1` at column `j` for non-ground terminals; `I` is unchanged |
| StampLaws.ResistorDiagonal | ecim/Resistor.cpp:14-15 | for distinct terminals, each non-ground terminal's diagonal entry grows by exactly `1/R` |
| StampLaws.ResistorSelfLoop | ecim/Resistor.cpp:13-21 | a resistor with both terminals on one non-ground node leaves that node's diagonal entry unchanged: the two additions and the two subtractions of `1/R` cancel |
| StampLaws.ResistorOffDiagonal | ecim/Resistor.hpp:24-27 | for distinct terminals: between two non-ground terminals both off-diagonal entries fall by `1/R`; with a ground terminal no off-diagonal entry changes |
| StampLaws.ResistorFrame | ecim/Resistor.cpp:6-24 | the resistor stamp leaves `I` and every entry outside the terminals' rows and columns unchanged |
| StampLaws.ConductanceSymmetricBalanced | ecim/Resistor.hpp:19-27 | a conductance's contribution is symmetric, and between two non-ground terminals every row of it sums to zero |
| StampLaws.ResistorSymmetricBalanced | ecim/Resistor.cpp:14-21 | the resistor's contribution is symmetric, and row-balanced away from ground |
| StampLaws.ResistorStampsCommute | ecim/CircuitBuilder.cpp:57-63 | two resistors stamped in either order give the same system, so registration order within the resistor pass does not matter |
| StampLaws.CapacitorEntries | ecim/Capacitor.cpp:21-37 | for `dt > 0` the diagonals grow by `C/dt`, the off-diagonals fall by `C/dt`, `I` gains `(C/dt) * vprev` at terminal 1 and loses it at terminal 2, and no other entry of `I` moves |
| StampLaws.FreshCapacitorNoExcitation | ecim/Capacitor.cpp:4-5 | a capacitor at its initial 0 V injects no current |
| StampLaws.InductorEntries | ecim/Inductor.cpp:23-34 | for `dt > 0` the diagonals grow by `dt/L`, the off-diagonals fall by `dt/L`, terminal 1's entry of `I` loses the previous current and terminal 2's gains it, and no other entry of `I` moves |
| StampLaws.FreshInductorNoExcitation | ecim/Inductor.cpp:4-5 | an inductor at its initial 0 A injects no current |
| StampLaws.SourceEntries | ecim/VoltageSource.cpp:10-18 | with distinct indices the source puts `+1` at `(i, k)` and `(k, i)`, `-1` at `(j, k)` and `(k, j)`, and its voltage into `I(k)` |
| StampLaws.SourceFrame | ecim/VoltageSource.cpp:4-19 | with terminals below the reserved index, the source leaves `G(k, k)`, every other entry of `I` and everything outside row and column `k` unchanged, and its contribution is symmetric |
| Circuits.CreateNode | ecim/Node.hpp:13-17 | a new node is appended to the arena with the counter's id and 0 V; the counter moves on; the node is not yet tracked and nothing else changes |
| Circuits.ResetIds | tests/test_framework.hpp:57 | resetting the counter puts it back at ground's id and changes nothing else |
| Circuits.FirstNodeIsGround | ecim/Node.hpp:17 | in a fresh session, or after a reset, the first node constructed has id 0 and the next has id 1 |
| Circuits.Register | ecim/CircuitBuilder.cpp:19-24 | a node is appended only if it is not already tracked; the list keeps its order, holds exactly the old nodes plus the new one, and stays duplicate-free |
| Circuits.AddComponent | ecim/CircuitBuilder.cpp:14-25 | the connected component is appended; the node list keeps its order, gains at most the two terminals, holds exactly the old nodes plus them, stays duplicate-free, and the circuit stays valid |
| Circuits.RegisterKeepsOrder | ecim/CircuitBuilder.hpp:21-32 | one more registration keeps the node list in first-appearance order of the longer terminal sequence |
| Circuits.RegistrationOrder | ecim/CircuitBuilder.cpp:14-25 | after any sequence of registrations from an empty list, the tracked nodes are exactly the terminals named, each once, in order of first appearance |
| Circuits.MaxId | ecim/CircuitBuilder.cpp:40-43 | the result bounds every tracked node's id, is non-negative, and is 0 or some tracked node's id |
| Circuits.Base | ecim/CircuitBuilder.cpp:40-53 | the number of node unknowns `N - 1` bounds every tracked id and is 0 or the largest tracked id |
| Circuits.Size | ecim/CircuitBuilder.cpp:53 | the system has `N - 1` node unknowns followed by one branch current per voltage source |
| Circuits.SourceIndex | ecim/CircuitBuilder.cpp:81-88 | the index reserved for the source at position `q` is `N - 1` plus the sources before it, lies at or after the node unknowns, and lies inside the system when the part is a source |
| Circuits.SourceIndices | ecim/CircuitBuilder.cpp:82-89 | the reserved index of each source lies in `[N - 1, size)`, and the indices strictly increase with registration order |
| Circuits.TerminalsBelowBase | ecim/CircuitBuilder.cpp:53-55 | in a valid circuit every terminal index lies below the first branch-current unknown, so every stamp stays inside the system |
| Assembly.Stamp | ecim/Component.hpp:19 | one stamp call adds exactly the part's contribution to each entry of `G` and `I`, independent of what the system already holds |
| Assembly.ResistorStamp | ecim/Resistor.cpp:6-24 | the resistor's stamp meets the common contribution contract |
| Assembly.CapacitorStamp | ecim/Capacitor.cpp:18-38 | the capacitor's transient stamp meets the common contribution contract |
| Assembly.InductorStamp | ecim/Inductor.cpp:13-35 | the inductor's stamp meets the common contribution contract |
| Assembly.SourceStamp | ecim/VoltageSource.cpp:4-19 | the source's stamp meets the common contribution contract |
| Assembly.ContribReactiveIdle | ecim/Capacitor.cpp:19 | without a positive step a capacitor or inductor contributes nothing to any entry |
| Assembly.StampsCommute | ecim/CircuitBuilder.cpp:57-89 | any two parts stamped in either order give the same system |
| Assembly.StampPassive | ecim/CircuitBuilder.cpp:57-79 | a passive pass keeps the system square and of the same size |
| Assembly.StampSources | ecim/CircuitBuilder.cpp:81-89 | the source pass keeps the system square and of the same size |
| Assembly.PassiveFrame | ecim/CircuitBuilder.cpp:57-79 | a passive pass whose terminals lie below a bound never touches a row at or beyond it |
| Assembly.SourcesFrame | ecim/CircuitBuilder.cpp:81-89 | the source pass never touches a row beyond the last reserved index |
| Assembly.SourceRow | ecim/CircuitBuilder.cpp:81-89 | after the source pass, the row reserved for the source at position `q` has gained exactly `+1` at terminal 1, `-1` at terminal 2 and the source's voltage at `time`; no other source writes that row |
| Assembly.PassiveSystem | ecim/CircuitBuilder.cpp:53-79 | every entry of the system after the passive passes is the sum of what the resistors, the capacitors and the inductors contribute to it, on a zero system of the step's size |
| Assembly.PassiveRowsBeyondBase | ecim/CircuitBuilder.cpp:53-79 | after the passive passes every branch-current row is still zero, right-hand side included |
| Assembly.Assemble | ecim/CircuitBuilder.cpp:40-89 | the assembled system is square with `(N - 1) + M` unknowns |
| Assembly.AssembledSourceRow | ecim/VoltageSource.cpp:14-18 | in the assembled system each source's row is its constraint `V(i) - V(j) = v(t)` at the circuit's clock, with no other entry |
| Assembly.StampPassiveSum | ecim/CircuitBuilder.cpp:57-79 | a passive pass adds to every entry of `G` and `I` exactly the sum of the contributions of the parts of its kind, and nothing else |
| Assembly.StampSourcesSum | ecim/CircuitBuilder.cpp:81-89 | the source pass adds to every entry exactly the sum of the sources' contributions, the k-th source using reserved index `base + k` |
| Assembly.PassesPartition | ecim/CircuitBuilder.cpp:57-89 | the four passes together visit every registered part exactly once: their sums add up to the sum over all parts |
| Assembly.AssembledEntries | ecim/CircuitBuilder.cpp:40-89 | every entry of the assembled `G` and `I` equals the sum, over all registered parts, of what that part contributes to it |
| Transient.Settle | ecim/CircuitBuilder.cpp:95-104 | ground is pinned to 0 V, a node with id `d` within the solution takes `V[d - 1]`, any other node keeps its voltage, and no id changes |
| Transient.SettleIdempotent | ecim/CircuitBuilder.cpp:95-104 | writing the same solution back twice changes nothing more |
| Transient.WriteNodes | ecim/CircuitBuilder.cpp:94-104 | exactly the tracked nodes are settled, whatever their order, and the arena keeps its length |
| Transient.WriteCurrents | ecim/CircuitBuilder.cpp:106-116 | the source at position `q` stores `V[(N - 1) + sources before q]` when the solution has that entry and keeps its current otherwise; every other part is untouched |
| Transient.UpdateReactive | ecim/CircuitBuilder.cpp:118-126 | every part of the list, in place, gets that reactive update read against the new node voltages: capacitors store their voltage, inductors their current, other parts are unchanged |
| Transient.Advance | ecim/CircuitBuilder.cpp:38 | the clock moves on by exactly `dt`, and nodes, parts and counter stay as they were |
| Transient.StepSystem | ecim/CircuitBuilder.cpp:36-89 | every entry of a step's `G` and `I` is the sum of the parts' contributions with the step `dt`, the sources read at `time + dt`: the clock moves before anything is stamped |
| Transient.Refresh | ecim/CircuitBuilder.cpp:106-126 | the component write-back keeps every part's wiring, kind and parameter |
| Transient.Commit | ecim/CircuitBuilder.cpp:94-126 | the write-back advances the clock by `dt`, keeps the circuit valid and physical, and changes no id, wiring, kind or parameter |
| Transient.Step | ecim/CircuitBuilder.cpp:36-127 | a step moves the clock by exactly `dt`, keeps the circuit valid and physical, and keeps its shape |
| Transient.RefreshValues | ecim/CircuitBuilder.cpp:106-126 | the refreshed part at `q`: a source stores `V[base + sources before q]` when the solution has it and keeps its current otherwise; any other part gets the reactive update at the new node voltages |
| Transient.CommitValues | ecim/CircuitBuilder.cpp:94-126 | the write-back settles exactly the tracked nodes from `V` and leaves the others untouched, and refreshes each part as RefreshValues states, at the part's reserved index |
| Transient.StepValues | ecim/CircuitBuilder.cpp:36-127 | a step writes back, as CommitValues states, the vector the solver returns for the system assembled at the new time |
| Transient.CommitNodeVoltages | ecim/CircuitBuilder.cpp:95-104 | after the write-back, tracked ground nodes read 0 V, a tracked node with id `d` within the solution reads `V[d - 1]`, and untracked nodes are untouched |
| Transient.CommitCapacitorState | ecim/CircuitBuilder.cpp:119-122 | after the write-back a capacitor stores the voltage across it at the new node voltages and keeps its stored current |
| Transient.CommitInductorState | ecim/CircuitBuilder.cpp:123-125 | after the write-back an inductor's stored current follows the fixed `1e-6` update law from the new node voltages |
| Transient.CommitSourceCurrent | ecim/CircuitBuilder.cpp:107-116 | after the write-back a source stores its reserved entry of the solution when present and keeps its current otherwise |
| Transient.CommitKeepsResistor | ecim/CircuitBuilder.cpp:106-126 | a resistor comes out of the write-back unchanged |
| Transient.RefreshCurrents | ecim/CircuitBuilder.cpp:108-113 | the refresh stores a source's reserved entry of the solution when present, and leaves a resistor as it was |
| Transient.NaturalIdsKept | ecim/Node.hpp:13-17 | ids start at ground, the counter only counts up, and neither registration nor a step changes an id |
| Transient.CommitTerminalVoltage | ecim/CircuitBuilder.cpp:95-104 | with a full-length solution, a tracked node reads the solution's entry at its unknown, or 0 V for ground |
| Transient.CommitEnforcesSource | ecim/CircuitBuilder.cpp:38-104 | when the solution satisfies a source's constraint row, after the step the source's terminal 1 minus terminal 2 is the source voltage at the new time |
| Transient.ResetTime | ecim/CircuitBuilder.cpp:139-141 | the clock reads 0 and nodes, parts and counter are kept |
| Transient.ClockLinear | ecim/CircuitBuilder.cpp:133-134 | `n` steps of `dt` move the clock by `n * dt` |
| Transient.Steps | ecim/CircuitBuilder.cpp:133-135 | repeated steps keep the circuit valid and its shape, and the clock is the accumulated steps |
| Transient.Reach | ecim/CircuitBuilder.cpp:133 | a positive step carries the clock past any target after finitely many steps |
| Transient.Simulate | ecim/CircuitBuilder.cpp:130-136 | the driver's result is a run of steps whose count is the first after which the clock is no longer below the end time less `dt/100` |
| Transient.ExactMultiple | ecim/CircuitBuilder.cpp:131-133 | when the duration is a whole number `k` of steps, the driver takes exactly `k` steps and the clock ends at start plus duration |
| DcSolve.DcSystem | ecim/CircuitBuilder.hpp:34-67 | every entry of the DC system is the sum of what the resistors and the sources, read at time 0, contribute to it; capacitors and inductors contribute nothing |
| DcSolve.WriteBack | ecim/CircuitBuilder.hpp:72-94 | the DC write-back keeps the circuit valid and its shape, and leaves the clock where it was |
| DcSolve.Solve | ecim/CircuitBuilder.hpp:34-95 | one DC solve keeps the circuit valid and its shape and does not move the clock |
| DcSolve.WriteBackValues | ecim/CircuitBuilder.hpp:73-94 | after the DC write-back ground reads 0 V, a node with id `d` within the solution reads `V[d - 1]`, a source stores its reserved entry when present, and non-source parts are untouched |
| DcSolve.SolveValues | ecim/CircuitBuilder.hpp:34-95 | one DC solve settles exactly the tracked nodes from the solver's answer on the DC system, and each source stores its reserved entry; every other part is unchanged |
| DcSolve.IdlePass | ecim/Capacitor.cpp:19 | without a positive step the capacitor and inductor passes leave the system as it was |
| DcSolve.DcIsZeroStep | ecim/CircuitBuilder.hpp:53-67 | the DC system equals a step's system at time 0 with a zero step, so leaving out the reactive passes changes nothing |
| DcSolve.ReactiveOpenInDc | ecim/Capacitor.cpp:13-16 | adding a capacitor or inductor between tracked nodes leaves the DC system unchanged (open circuit in DC) |
| Probes.OnNode | ecim/Probe.cpp:6 | a node probe watches that node and no component |
| Probes.OnPart | ecim/Probe.cpp:8 | a component probe watches that component and no node |
| Probes.AttachedInValid | ecim/Probe.cpp:6-8 | in a valid circuit every tracked node and every registered part can be probed |
| Probes.ProbeVoltage | ecim/Probe.cpp:10-12 | a node probe reads the node's voltage, and 0 without a node |
| Probes.ProbeCurrent | ecim/Probe.cpp:14-28 | a component probe reads Ohm's-law current on a connected resistor and 0 on a resistor with a missing terminal, the stored branch current on a source, and 0 on a capacitor, an inductor or without a component |
| Probes.ProbeOhm | ecim/Probe.cpp:18-20 | in a valid circuit every resistor is connected, and the current read on it times R is the difference of the voltages read on its nodes |
| Probes.ProbesAfterCommit | ecim/Probe.cpp:22-25 | after a step's write-back a source probe reads its reserved entry of the solution and a node probe reads its node's entry, or 0 for ground |
| Scenarios.NodeIdsIncrease | tests/test_components.cpp:10-16 | two nodes constructed in a row have non-negative, increasing ids and start at 0 V |
| Scenarios.DcIsConstant | ecim/DCVoltageSource.cpp:7-9 | a DC source reads its level at every time |
| Scenarios.CustomReadings | tests/test_components.cpp:164-196 | custom sources read their function: a constant 7.5 V, a ramp `2t` and a step to 10 V at 1 s |
| Scenarios.SourceCurrentReadBack | tests/test_components.cpp:47-62 | a fresh source stores 0 A and a stored current reads back |
| Scenarios.OhmReadings | tests/test_components.cpp:30-40 | 5 V across 1 kOhm reads 5 mA, and a probe on 10 V across 1 kOhm reads 10 mA |
| Scenarios.ProbeReadings | tests/test_components.cpp:95-100 | a probe on a node at 3.3 V reads 3.3 V, and a probe without a node or a component reads 0 |
| Scenarios.StepClock | tests/test_circuits.cpp:157-166 | two steps of 1 ms read 2 ms and a reset reads 0 again |
| Scenarios.RampCircuit | tests/test_circuits.cpp:193-206 | the ramp test's circuit is valid, physical, has natural ids, and starts at time 0 |
| Scenarios.RampCircuitBuilt | tests/test_circuits.cpp:194-206 | building ground, node1, the ramp source and the 100 Ohm resistor in a fresh session yields exactly the ramp circuit |
| Scenarios.RampStep | ecim/CircuitBuilder.cpp:37-38 | a ramp step whose solution satisfies the source row puts node1 at ten times the new time |
| Scenarios.RampStepKeepsShape | ecim/CircuitBuilder.cpp:36-127 | a step keeps the ramp circuit's nodes, ids and source, whatever the solution |
| Scenarios.RampScenario | tests/test_circuits.cpp:208-215 | steps of 0, 0.5 and 0.5 s put node1 at 0 V, 5 V and 10 V |
| Scenarios.SimulateTenth | tests/test_transient.cpp:137-144 | simulating 0.1 s in steps of 0.01 s advances the clock by exactly 0.1 s |
| Scenarios.TwoRuns | tests/test_transient.cpp:159-166 | a second run of 0.05 s continues where the first ended |

## Left out

- The linear solve (`colPivHouseholderQr().solve`) is a `Solver` parameter with no assumption on it. Properties that need a solution satisfying a row say so in their requires.
- `ACVoltageSource` is not part of this model: its waveform is a sine, which exact reals cannot express. A `Custom` waveform may carry any function of time.
- Floating-point rounding is not modelled; every quantity is an exact real. The tests' numeric tolerances (`1e-9`, `1e-3`) become exact equalities.
- Zero resistance and zero inductance are excluded by `Physical`; in C++ they divide by zero and give infinities or NaN.
- Node ids and indices are unbounded integers. The C++ counter is a 32-bit `int` that counts every node constructed in the process, across all builders; its overflow after 2^31 constructions is not modelled.
- The node-id counter `Node::nextId` is one process-wide static shared by every builder, and only the test harness resets it. The model keeps one counter per `Circuit`, and `Empty()` starts it at ground's id. A second builder that continues an earlier count is a circuit started with that counter value; `Empty()` alone does not express it.
- Adding the same component object twice is not modelled as aliasing. In C++ both slots hold one object: a second `Connect` rewires both, a source is stamped at two reserved indices and keeps only the last `SetCurrent`, and a capacitor is updated twice. The model appends two independent copies. This misuse also makes the destructor delete the object twice.
- Null node pointers passed to `AddComponent` are not modelled: the model takes handles. A terminal is missing only before `Connect`, and the read-outs handle that case as the C++ code does.
- ProbeManager, Probe.hpp, the destructors, `GetNodes`, the example programs and main.cpp are not part of this model. Of the test harness, only its reset of the node-id counter is modelled, by Circuits.ResetIds.
- `dynamic_cast` dispatch is replaced by a match on the closed element type.
- Transient.Simulate: a non-positive step is excluded whenever the loop would be entered, because the C++ loop then never terminates.
- DcSolve.DcSystem: the header's DC-only `Solve` calls the sources' `Stamp` with three arguments (CircuitBuilder.hpp:64), which matches no signature a voltage source declares: no voltage-source `Stamp` has a default time, and only the capacitor's and the inductor's declare `time = 0.0`. The model reads that call as evaluating the sources at time 0; this is the model's choice, not something the C++ code fixes.
- The capacitor's stored current is only ever written by `SetCurrent`; no step writes it, and the model keeps it as is.
- The three-argument DC `Stamp(G, I, vsIndex)` of the capacitor (Capacitor.cpp:13, a no-op) is called neither by the step nor by the header's DC `Solve`, which stamps only resistors and sources; DcSolve.ReactiveOpenInDc states the same effect, that a capacitor adds nothing to the DC system.
- Components.UpdateInductor: modelled as written with the fixed constant `1e-6` in place of the step size; the contract states that law, not a backward-Euler update.
- Scenarios.RampScenario: assumes that each step's solution satisfies the source's constraint row, rather than proving that a particular solver returns such a solution.
- Scenarios.RampStep: states node1's voltage only under the same assumption on the solver.
- Assembly.StampPassive: its own contract states the shape; what the pass adds to each entry is stated by Assembly.StampPassiveSum.
- Assembly.StampSources: its own contract states the shape; what the pass adds to each entry is stated by Assembly.StampSourcesSum.
- Assembly.Assemble: its own contract states the size; the entries are stated by Assembly.AssembledEntries and Assembly.AssembledSourceRow.
- Transient.Refresh: its own contract states wiring, kind and parameter; the stored values, part by part, are stated by Transient.RefreshValues.
- Transient.Commit: its own contract states clock, validity and shape; the values written are stated by Transient.CommitValues and its corollaries Transient.CommitNodeVoltages, Transient.CommitCapacitorState, Transient.CommitInductorState and Transient.CommitSourceCurrent.
- Transient.Step: its own contract states clock, validity and shape; the values written are stated by Transient.StepValues.
- DcSolve.WriteBack: its own contract states validity, shape and clock; the values written are stated by DcSolve.WriteBackValues.
- DcSolve.Solve: its own contract states validity, shape and clock; the values written are stated by DcSolve.SolveValues.
- Components.SourceCount: its own contract bounds the count; that it counts exactly the sources is stated by Components.SourceCountCounts, against the set of source positions.
- Transient.CommitEnforcesSource: holds for solutions that satisfy the source's row; it says nothing about a solver that returns another vector.
- `GetCurrentTime` is modelled as `Transient.CurrentTime` and is stated through Transient.Step, Transient.ResetTime and Scenarios.StepClock.
