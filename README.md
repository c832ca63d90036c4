# Zombie spread on a city graph

This project models, in Dafny, the simulation in `zombieGraphSpread.py`. A city is an
undirected graph whose nodes are people. Each node carries two attributes:
- a `zombie` flag (1 for a zombie, 0 for a human);
- a `time` marker.

The simulation works in three stages:
- `initialize` makes every node a zombie with probability `p` (0.3 in the driver) and clears its `time`.
- `zombie_spread` then runs `timesteps` days. Each day it first draws the city: when `save_images` is set it saves the picture and records its file, and when `show_images` is set it shows it. A "dynamic" run draws the city a second time. Then the city is replaced with what `update_color` computes.
- At the end, when `anim_images` and `save_images` are both set, `animate` turns the saved pictures into a GIF.

`update_color` copies the graph and visits every node of the original. It promotes a node to
zombie in the copy when its rule says so. It reads flags only from the original, so the update is
simultaneous. The three rules are:
- `target_set_selection`: at least 2 zombie neighbours;
- `stochastic`: a Bernoulli trial with probability `k / (degree + 1)`, where `k` is the number of zombie neighbours;
- `deterministic`: more than a third of the neighbours are zombies.

The model has five modules:

- `Graphs` (`graph.dfy`): the graph's structure as a value, `Topology`, and the city as a class
  `Graph`. The class has the node list and adjacency, plus the two attribute maps that the
  simulation updates in place.
- `ColorRules` (`rules.dfy`): `update_color`.
  - The specification is `Sweep`/`Step`: a pure function from a flag state to the next state, or
    to the error the deterministic rule raises.
  - The lemmas `TargetSetSelectionRule`, `StochasticRule` and `DeterministicRule` state each rule node by node.
  - The imperative `UpdateColor` (with `SweepInto`, `VisitNode` and `CountInfectedNeighbors`)
    copies the graph, loops over nodes and neighbours, and is proved to produce `Step`'s result.
- `Frames` (`frames.dfy`): the picture file names and the `imglist` that `draw_and_save` appends to.
- `Spread` (`spread.dfy`): `initialize`, `animate`, `update_edges` and the driver `zombie_spread`.
  - `Simulate` is the specification of a whole run.
  - `RunDays` and `ZombieSpread` are proved against it and against `SavedFrames`.
- `Scenarios` (`scenarios.dfy`): small graphs on which the rules are worked out concretely. They
  are a path, a five-cycle, a star, and a path with an extra node that has no neighbours.

Randomness is a parameter, by a convention of the model. `rng: nat -> [0, 1)` is an abstract
stream of uniform samples, and `cursor` is the position of the next one. Each call
`np.random.binomial(1, p)` takes one sample `u` and succeeds when `u < p`. A `p` outside [0, 1]
raises ValueError.
- `initialize` uses one sample per node, in node order.
- Each stochastic day uses the next `|nodes|` samples.
- The other rules draw nothing.

Edge cases of the code that the model keeps:
- `update_color` has no `else` branch (zombieGraphSpread.py:183-214). An unrecognised rule name therefore returns an unchanged copy and raises nothing.
- On a node without neighbours, `infected_neighbors/length` raises ZeroDivisionError (line 210), and the whole run ends with it.
- The frame files are named `<dirloc>/zombies-<day>.png`, plus `...-edges.png` on a dynamic run. The list of saved images holds these `.png` names, because `draw_with_image` returns `imgloc + '.png'`.
- With `save_images` and `anim_images` set and no day run, `animate` unpacks an empty list and raises ValueError. The model calls this error `EmptyAnimation`.
- A probability outside [0, 1] makes `initialize` raise at the first node, before it writes anything. On an empty graph there is no draw, so there is no error.
- The stochastic rule's degree is the graph library's degree, in which a self-loop counts twice. The deterministic rule's denominator is the neighbour count. These are `Topology.Degree` and `|adj[v]|`.

## Model

| member | source | states |
|---|---|---|
| Graphs.InfectedAmongExtremes | zombieGraphSpread.py:186-191 | the zombie-neighbour count is 0 iff no neighbour is a zombie, and equals the neighbour count iff all are |
| Graphs.InfectedAmongPermutation | zombieGraphSpread.py:187-190 | the zombie-neighbour count depends only on which neighbours a node has, not on the order in which they are listed |
| Graphs.InfectedAmongAtMostOne | zombieGraphSpread.py:186-191 | with at most one zombie in the city, a node counts at most one zombie neighbour, since neighbour lists have no repeats |
| Graphs.Graph.Copy | zombieGraphSpread.py:184 | `G.copy()` is a fresh, independent graph with the same nodes, edges and attribute values |
| Graphs.Graph.SetZombie | zombieGraphSpread.py:192 | setting one node's flag to 1 changes that node's flag and nothing else |
| ColorRules.Binomial | zombieGraphSpread.py:131 | `binomial(1, p)` fails with ValueError exactly when p is outside [0, 1]; p = 0 never succeeds, p = 1 always does |
| ColorRules.Probability | zombieGraphSpread.py:199 | `k / (degree + 1)` is a probability in [0, 1); it is never 1 and is 0 exactly when no neighbour is a zombie |
| ColorRules.SweepKeys | zombieGraphSpread.py:184-212 | visiting nodes only sets flags: the copy flags the same nodes as the original |
| ColorRules.StepKeys | zombieGraphSpread.py:183-214 | a successful `update_color` returns a flag for every node of the graph and no other |
| ColorRules.SweepAt | zombieGraphSpread.py:184-212 | after visiting k nodes, a visited node holds its old flag or its promotion, and an unvisited node holds its old flag |
| ColorRules.StepAt | zombieGraphSpread.py:183-214 | after a step, each node is a zombie iff it was one or its rule promotes it on the pre-step flags |
| ColorRules.StepMonotone | zombieGraphSpread.py:183-214 | no rule ever turns a zombie back into a human |
| ColorRules.TargetSetSelectionRule | zombieGraphSpread.py:185-192 | target_set_selection never fails; a node is a zombie afterwards iff it was one or at least 2 of its neighbours were |
| ColorRules.LoneZombieStaysAlone | zombieGraphSpread.py:185-192 | under target_set_selection, a city with at most one zombie is left unchanged |
| ColorRules.DeterministicRule | zombieGraphSpread.py:202-212 | the deterministic step fails iff some node has no neighbour; otherwise a node is a zombie afterwards iff it was one or more than a third of its neighbours were |
| ColorRules.StochasticRule | zombieGraphSpread.py:193-201 | the stochastic step never fails; a node is a zombie afterwards iff it was one or its own sample falls below k/(degree+1); with no zombie neighbour its flag does not change |
| ColorRules.UnrecognisedRuleKeepsState | zombieGraphSpread.py:183-214 | a rule name matching no branch returns the state unchanged |
| ColorRules.StepIgnoresVisitOrder | zombieGraphSpread.py:184-214 | because flags are read from `G` and written to `nextG`, a target_set_selection or deterministic step (and an unrecognised one) does not depend on the order in which nodes are visited |
| ColorRules.StepIgnoresNeighbourOrder | zombieGraphSpread.py:184-212 | a step reads neighbour lists only through the zombie count, their length and the degree, so two graphs whose nodes have the same neighbours in different orders (as a copy may produce) give the same result, error included, under every rule |
| ColorRules.CountInfectedNeighbors | zombieGraphSpread.py:187-190 | the neighbour loop counts exactly the zombie neighbours, and `length` ends as the neighbour count |
| ColorRules.VisitNode | zombieGraphSpread.py:186-211 | one node visit extends the copy by that node's promotion; on the deterministic rule it reports a node without neighbours instead |
| ColorRules.SweepInto | zombieGraphSpread.py:186-212 | the node loop stops early exactly when the deterministic rule meets a node without neighbours; otherwise the copy ends holding the full sweep |
| ColorRules.UpdateColor | zombieGraphSpread.py:183-214 | `update_color` raises ZeroDivisionError exactly when `Step` fails. Otherwise it returns a fresh graph with the same nodes, edges and times, whose flags are `Step`'s state. The input graph is not modified |
| Frames.NatToStringDigits | zombieGraphSpread.py:167 | `str(t)` of a day is a non-empty string of digits without a leading zero |
| Frames.ParseNatToString | zombieGraphSpread.py:167 | the day can be read back from its numeral |
| Frames.NatToStringInjective | zombieGraphSpread.py:167 | different days have different numerals |
| Frames.FrameLocShowsEdges | zombieGraphSpread.py:167-170 | a frame's name ends in "-edges.png" iff it is the second picture of a dynamic day |
| Frames.FrameLocInjective | zombieGraphSpread.py:167-170 | two frame names of a run coincide only for the same day and the same picture of that day |
| Frames.FramesLength | zombieGraphSpread.py:166-170 | `days` days save `days` frames, or `2 * days` on a dynamic run |
| Frames.FrameAt | zombieGraphSpread.py:166-170 | the i-th saved frame is day i's picture; on a dynamic run it is day i/2's picture, the "-edges" one when i is odd |
| Frames.FramesDistinct | zombieGraphSpread.py:166-170 | no saved frame overwrites another: all names in the image list differ |
| Frames.ImageList.constructor | zombieGraphSpread.py:155 | the image list starts empty |
| Frames.ImageList.DrawAndSave | zombieGraphSpread.py:84-101 | when saving, `draw_and_save` appends exactly `loc + ".png"` to the list; otherwise the list is unchanged, and showing does not affect it |
| Spread.ListedKeys | zombieGraphSpread.py:130 | looping over the node list reaches every node of the graph |
| Spread.Initialize | zombieGraphSpread.py:120-133 | `initialize` fails with ValueError exactly when the graph is non-empty and p is outside [0, 1], in which case nothing is written. Otherwise every node's flag is its own Bernoulli(p) draw, in node order, and its time is None |
| Spread.SimulateFails | zombieGraphSpread.py:166-171 | a run fails iff it lasts at least one day, uses the deterministic rule and the graph has a node without neighbours; the error is ZeroDivisionError |
| Spread.SimulateMonotone | zombieGraphSpread.py:166-171 | every initial zombie is still a zombie after any number of days |
| Spread.SimulateUnrecognised | zombieGraphSpread.py:166-171 | under an unrecognised rule name the city never changes |
| Spread.SimulateStable | zombieGraphSpread.py:166-171 | under a rule that draws nothing, a state one step leaves unchanged is a fixed point for all days |
| Spread.LoneZombieRun | zombieGraphSpread.py:166-171 | under target_set_selection, a city with at most one zombie keeps it forever |
| Spread.Animate | zombieGraphSpread.py:103-118 | `animate` fails exactly on an empty frame list; otherwise the GIF is `saveloc/zombies.gif` with every saved frame, in order |
| Spread.UpdateEdges | zombieGraphSpread.py:232-239 | `update_edges` (edge removal not written) returns an independent copy with the same structure and attributes |
| Spread.SaveDay | zombieGraphSpread.py:167-170 | a day's drawing adds that day's frame to the list of saved frames, and its "-edges" frame on a dynamic run |
| Spread.NextCity | zombieGraphSpread.py:171 | one `update_color` of a run either fails with the run's error, or yields a fresh city whose remaining run gives the same result |
| Spread.RunDays | zombieGraphSpread.py:166-171 | the day loop fails exactly when `Simulate` does, with its error. Otherwise it ends with `Simulate`'s state on the same structure and times, and with exactly the frames of all days saved in order. With no days, the city is the input graph itself; after one day or more it is a new graph object, the copy the last `update_color` made |
| Spread.ZombieSpread | zombieGraphSpread.py:136-176 | `zombie_spread` seeds the graph it is given with p = 0.3 and then runs the day loop. It fails exactly when the run fails, or when an animation is asked for with no frame saved. Otherwise it returns the final city, the frames in order, and the GIF of those frames in `<rule>/static` or `<rule>/dynamic`. With no days the returned city is the seeded input graph; after one day or more it is a new graph object, and the caller's graph keeps only the seeding |
| Scenarios.PathTargetSetSelection | zombieGraphSpread.py:185-192 | on the path with both ends infected, target_set_selection infects the middle in one day |
| Scenarios.PathOneZombieStable | zombieGraphSpread.py:185-192 | on the path with one end infected, target_set_selection changes nothing, on any number of days |
| Scenarios.CycleOneZombieThreeDays | zombieGraphSpread.py:166-192 | on the five-cycle with node 0 infected, three days of target_set_selection leave only node 0 infected |
| Scenarios.StarHasNoIsolatedNode | zombieGraphSpread.py:210 | the deterministic rule can divide at every node of the star |
| Scenarios.StarOneZombieLeaf | zombieGraphSpread.py:202-212 | one zombie leaf out of three is not more than a third: the centre stays human |
| Scenarios.StarTwoZombieLeaves | zombieGraphSpread.py:202-212 | two zombie leaves out of three are more than a third: the centre turns |
| Scenarios.LonerBreaksDeterministic | zombieGraphSpread.py:210 | with a node without neighbours, any deterministic run of one day or more fails with ZeroDivisionError |
| Scenarios.StaticRunFrames | zombieGraphSpread.py:154-170 | a two-day static stochastic run saves `stochastic/static/zombies-0.png` and then `stochastic/static/zombies-1.png` |
| Scenarios.DynamicRunFrames | zombieGraphSpread.py:154-170 | a one-day dynamic deterministic run saves `zombies-0.png` and then `zombies-0-edges.png` |

## Left out

- Drawing is not modelled: `draw_with_image`, `draw_with_color`, the Kamada-Kawai layout, `plt.show`, reading the zombie/human icons and writing PNG and GIF files. A picture is represented only by its file name, and the GIF by its location and frame list.
- `! mkdir -p $dirloc` (a shell escape) and the `print` in `animate` are I/O with no effect on the state. They are not modelled.
- numpy's generator is not modelled. Its samples are the parameter `rng`. A draw `binomial(1, p)` is modelled as one uniform sample `u` with success when `u < p`. The exact bit stream numpy produces, and how it turns bits into a trial, are outside the model.
- Floating point is modelled by exact rationals.
  - `infected_neighbors / length > 1/3` is stated as `3 * infected > length`. It agrees with IEEE division. When `3 * infected == length`, both `infected / length` and `1/3` round to the same double, so neither side is greater. In every other case, for any neighbour count a graph can realistically have, the two quotients differ by more than the rounding error.
  - `k / (degree + 1)` is an exact rational.
- The two script cells that build a graph and call `zombie_spread` are not modelled; graphs are parameters.
  - Lines 216-225: a random lobster, random extra edges, and the call with `target_set_selection`.
  - Lines 241-252: a Watts-Strogatz graph of 50 nodes and the call with `stochastic`.
- `update_edges` is never called, because its call at line 169 is commented out. `RunDays` therefore does not call `UpdateEdges`: on a dynamic run the "-edges" picture shows the same city.
- The `time` attribute is set to None and never read. `update_color`'s `time` parameter is unused. Both are carried along unchanged.
- ColorRules.UpdateColor: requires every node to carry both attributes. On a graph that was never initialised, the source raises KeyError as soon as a visited node has a neighbour without a `zombie` attribute. That error path is not modelled; `zombie_spread` always initialises the graph first.
- Frames.ImageList.DrawAndSave: requires a non-empty location. With a falsy location, `draw_with_image` shows the picture and returns None, and the source would append None to the list. The driver never passes an empty location.
- Graphs.Graph.Copy: networkx's `G.copy()` rebuilds the graph by adding edges again, and that can change the order of a node's neighbour list. The model keeps every list as it is (`h.adj == adj`), and `UpdateColor`, `RunDays` and `ZombieSpread` inherit that equality. The reordering is harmless: the rules read a neighbour list only through the zombie count, its length and the degree, and `ColorRules.StepIgnoresNeighbourOrder` proves that a step gives the same result for any reordering.
- Exceptions are modelled as values of `Error` (`ValueError`, `ZeroDivisionError`, `EmptyAnimation`) returned in a `Result`, not as non-local control flow. The partial copy that `update_color` leaves behind when it raises is discarded, as in the source.
- Default arguments are not modelled: every caller passes every argument. The source's defaults are `timesteps=10`, `rule='target_set_selection'`, `update_graph=False`, `save_images=True`, `show_images=True` and `anim_images=True` for `zombie_spread` (lines 136-141). `update_color` defaults to `rule='target_set_selection'` (line 183), and `update_edges` to `p=0.1` (line 232). `initialize`'s `p=0.3` (line 120) is `InitialZombieRate`, which `ZombieSpread` passes.
- Node labels are integers and attribute values are Python objects. Flags are modelled as booleans, since the code only ever stores 0 or 1 (numpy's result or the literal 1).
