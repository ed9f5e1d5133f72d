# Firefly synchronisation, modelled in Dafny

`Lucpy.py` simulates a hive of fireflies scattered in the unit square. Each
firefly runs through a 50-step flashing cycle (`fase`) and is on during its
first 25 steps. Fireflies closer than a radius are neighbours; a firefly whose
cycle wraps back to 0 takes one extra step when at least half of its
neighbours are on. Over many ticks this coupling pulls the hive into step,
which `analytical_loop` measures by sampling how many fireflies are on before
every tick.

The model follows the program's own structure:

- `FireflyRules.dfy` (module `FireflyRules`): the per-firefly rules on values
  — the cycle constants 50 and 25, the phase advance with its coupling nudge
  (`NextPhase`), the on/off rule (`IsOn`) and the majority test, including the
  proof that `statistics.mean(flags) >= 0.5` is the integer test
  `2 * countOn >= len` (`MeanMajority`).
- `Neighbourhood.dfy` (module `Neighbourhood`): the static neighbour graph —
  which fireflies `get_neighbours` lists for each firefly, and its shape
  (ascending, irreflexive, symmetric, empty for a radius that is not positive).
- `HiveDynamics.dfy` (module `HiveDynamics`): one tick of the whole hive on
  values (`Tick`: phase-advance pass from a frozen snapshot of the flags, then
  state-refresh pass), ticks iterated (`Iterate`), the on-count trajectory
  (`OnCounts`), the drift of an isolated firefly, and the independence of the
  phase-advance pass from the order in which fireflies are visited.
- `Lucpy.dfy` (module `Lucpy`): the classes `Firefly` and `Hive`, imperative
  like the source. Their methods update fields in place, loop over the
  population like `pass_time`, `get_neighbours` and `analytical_loop` do, and
  are proved against the value-level definitions above: after `PassTime` the
  hive holds `Tick` of its previous state, after `AnalyticalLoop` it holds
  `Iterate` of its initial state and the returned samples are those of
  `OnCounts`, filtered by the mode.

Randomness is not modelled: the positions of `np.random.rand` and the phases of
`np.random.randint` are constructor parameters. Distances are exact: the test
`distance < radius` on the output of `pdist` is stated as
`radius > 0 && dx*dx + dy*dy < radius*radius` over reals, which is what it
means for a Euclidean distance.

Behaviour of the code that the model keeps:

- An empty hive is accepted: `num_fireflies == 0` gives an empty list of
  fireflies, and the model accepts any number of positions.
- `'last_50'` keeps the samples of ticks `n >= timesteps - 51`, that is
  `min(max(timesteps, 0), 51)` samples.
- A mode other than `'all'` and `'last_50'` returns an empty list of samples.
- The coupling nudge only ever fires on a phase that has just wrapped to 0, so
  it raises it to exactly 1: a phase never reaches 50, even within a tick.

## Model

| member | source | states |
|---|---|---|
| FireflyRules.NextPhase | Lucpy.py:91-93 | the phase after a firefly's step of the first pass is in `[0, 50)`; without coupling it is `(fase + 1) % 50`; it differs from that only when the advance wrapped to 0 and the check succeeded, and then it is exactly 1; a phase below 49 just moves up by one |
| FireflyRules.IsOn | Lucpy.py:27-31 | definition only: a firefly is on exactly when its phase is below 25 |
| FireflyRules.Count | Lucpy.py:130 | `sum` over a list of booleans counts its `true` values, at most the length of the list |
| FireflyRules.Select | Lucpy.py:38 | the gathered flags `[fs[i].on for i in neighbours]` have one entry per listed index, the `k`-th being the flag of firefly `neighbours[k]` |
| FireflyRules.OnAmong | Lucpy.py:38-40 | the number of listed fireflies that are on is at most the length of the list |
| FireflyRules.Mean | Lucpy.py:40 | definition only: `statistics.mean` of a non-empty list of flags, the number of `true` values over the length, computed exactly |
| FireflyRules.Coupled | Lucpy.py:38-42 | definition only: the coupling check on a snapshot of the flags, a non-empty neighbour list at least half of whose fireflies are on; `CoupledMajority` ties it to the mean |
| FireflyRules.MeanMajority | Lucpy.py:38-40 | for a non-empty list of flags, `mean(flags) >= 0.5` holds exactly when `2 * countOn >= len` |
| FireflyRules.CountSelect | Lucpy.py:38 | summing the gathered flags `[fs[i].on for i in neighbours]` counts the listed fireflies that are on |
| FireflyRules.CoupledMajority | Lucpy.py:38-42 | the coupling test on a snapshot of flags is the majority test on the gathered neighbour flags, false for an empty list |
| Neighbourhood.Within | Lucpy.py:81-82 | definition only: the entry `distance < radius` of the thresholded matrix, stated as a positive radius whose square exceeds the squared distance |
| Neighbourhood.Adjacent | Lucpy.py:82-84 | definition only: an entry of the thresholded matrix once its diagonal is cleared, set when `i != j` and the two positions are within the radius |
| Neighbourhood.WithinSymmetric | Lucpy.py:81-82 | the distance test is symmetric in the two positions |
| Neighbourhood.Row | Lucpy.py:86 | the comprehension over the first `k` entries of a row lists at most `k` indices; its contents are stated by `RowContents` |
| Neighbourhood.NeighbourList | Lucpy.py:85-87 | definition only: the list assigned to firefly `i` is the comprehension over its whole cleared row; its contents are stated by `NeighbourListContents` |
| Neighbourhood.RowContents | Lucpy.py:86 | the comprehension over the first `k` entries of a cleared row lists exactly the adjacent indices below `k`, in ascending order |
| Neighbourhood.NeighbourListContents | Lucpy.py:80-87 | `j` is listed for firefly `i` exactly when `j != i`, `j` indexes the hive and the two are closer than the radius; the list is ascending and in range |
| Neighbourhood.NotOwnNeighbour | Lucpy.py:83-84 | no firefly is its own neighbour |
| Neighbourhood.NeighbourSymmetric | Lucpy.py:81-87 | `j` is a neighbour of `i` exactly when `i` is a neighbour of `j` |
| Neighbourhood.NoRadiusNoNeighbours | Lucpy.py:82-87 | with a radius that is zero or negative every neighbour list is empty |
| Neighbourhood.NeighbourGraph | Lucpy.py:80-87 | one neighbour list per firefly, each indexing the hive |
| HiveDynamics.Advanced | Lucpy.py:91-93 | definition only: the phase firefly `i` reaches in the first pass is `NextPhase` of its phase and of the coupling check on the flags of the start of the tick |
| HiveDynamics.AdvanceAll | Lucpy.py:90-93 | the first pass keeps every phase in `[0, 50)` and one phase per firefly |
| HiveDynamics.Refresh | Lucpy.py:95-96 | definition only: the second pass derives every flag from its phase with `IsOn` |
| HiveDynamics.Tick | Lucpy.py:89-96 | after a tick every phase is in `[0, 50)` and every flag is `fase < 25`, with the graph unchanged |
| HiveDynamics.Iterate | Lucpy.py:129-137 | after at least one tick the swarm is committed (phases in range, flags agree with phases) |
| HiveDynamics.IterateSnoc | Lucpy.py:129-137 | running one more tick after `t` ticks is ticking the swarm reached after `t` ticks |
| HiveDynamics.OnCounts | Lucpy.py:129-130 | `t` ticks give `t` pre-tick on-counts, each at most the number of fireflies |
| HiveDynamics.OnCountsSnoc | Lucpy.py:129-130 | one more tick appends the on-count of the swarm reached so far |
| HiveDynamics.IsolatedDrifts | Lucpy.py:39-46 | a firefly with no neighbours never takes the nudge: after `t` ticks its phase is `(fase + t) % 50` |
| HiveDynamics.RunInOrder | Lucpy.py:90-93 | the first pass run in a given order keeps one phase per firefly |
| HiveDynamics.RunInOrderAt | Lucpy.py:90-93 | visiting fireflies in any repetition-free order advances exactly the visited ones, each as the frozen snapshot of the flags dictates, and leaves the others |
| HiveDynamics.AnyOrderAdvancesAll | Lucpy.py:89-93 | whatever the visiting order, a pass over every firefly yields the phases computed from the snapshot of the flags at the start of the tick |
| Lucpy.Firefly.constructor | Lucpy.py:22-25 | a new firefly has the given position and phase, no neighbours, and its flag derived from its phase |
| Lucpy.Firefly.ChangeState | Lucpy.py:27-31 | afterwards `on` is exactly `fase < 25`; only `on` changes |
| Lucpy.Firefly.CheckNeighbours | Lucpy.py:33-42 | the check succeeds exactly when the neighbour list is non-empty and at least half of the listed fireflies are on; it is false for an empty list |
| Lucpy.Firefly.SkipStep | Lucpy.py:44-46 | the phase rises by one exactly when the check succeeds; only `fase` changes |
| Lucpy.Firefly.Advance | Lucpy.py:91-93 | the firefly's phase becomes `NextPhase` of its phase and of the check made before the step; only `fase` changes |
| Lucpy.OnNumber | Lucpy.py:130 | the number of fireflies that are on is at most the number of fireflies |
| Lucpy.Range | Lucpy.py:139 | `list(range(n))`: `n` indices, the `k`-th being `k` |
| Lucpy.Records | Lucpy.py:132-136 | definition only: tick `n` is recorded always for `'all'`, from `n >= timesteps - 51` on for `'last_50'`, and never for any other mode |
| Lucpy.Recorded | Lucpy.py:128-136 | the samples appended to `results` are never more than the ticks run; which ticks are kept is stated by `RecordedSlice` |
| Lucpy.RecordedSlice | Lucpy.py:129-136 | the appended samples are all of them for `'all'`, those of ticks `n >= timesteps - 51` (a tail of the samples) for `'last_50'`, and none for any other mode |
| Lucpy.RecordedShape | Lucpy.py:127-139 | over a whole run `'all'` returns every sample, `'last_50'` returns `min(max(timesteps, 0), 51)` samples equal to the tail of the `'all'` samples, any other mode returns none |
| Lucpy.RecordedBounded | Lucpy.py:130-136 | a bound on every sample bounds every recorded sample |
| Lucpy.Hive.constructor | Lucpy.py:74-77 | a new hive has one fresh firefly per position with the given phases, flags derived from them, neighbour lists of the positions and the radius, and the hive invariant |
| Lucpy.Hive.Spawn | Lucpy.py:76 | one new, distinct firefly per position, in order, with its phase, derived flag and no neighbours |
| Lucpy.Hive.GetNeighbours | Lucpy.py:80-87 | every firefly's neighbour list becomes its list in the neighbour graph of the positions and the radius; phases and flags are unchanged |
| Lucpy.Hive.Adjacency | Lucpy.py:81-84 | entry `[a, b]` of the thresholded matrix with its diagonal cleared is set exactly when `a != b` and the two positions are closer than the radius |
| Lucpy.Hive.SetIndices | Lucpy.py:86 | the indices set in row `i` of the cleared matrix are the neighbour list of firefly `i` |
| Lucpy.Hive.PassTime | Lucpy.py:89-96 | the new phases and flags are `Tick` of the old ones, neighbour lists are unchanged, and afterwards every phase is in `[0, 50)` with `on == fase < 25` |
| Lucpy.Hive.AdvancePhases | Lucpy.py:90-93 | the first loop leaves flags and neighbour lists unchanged and produces the phases of `AdvanceAll`, computed from the flags at the start of the pass |
| Lucpy.Hive.RefreshStates | Lucpy.py:95-96 | the second loop leaves phases and neighbour lists unchanged and sets every flag to `fase < 25` |
| Lucpy.Hive.AnalyticalLoop | Lucpy.py:127-139 | after the loop the hive holds the state reached after `timesteps` ticks (none for a negative count), neighbour lists are unchanged, the samples are the pre-tick on-counts filtered by the mode: `max(timesteps, 0)` of them for `'all'`, `min(max(timesteps, 0), 51)` for `'last_50'`, none for any other mode, each at most the number of fireflies; the indices are `0 .. len - 1` |

## Left out

- `Firefly.draw`, `Hive.draw`, `pygame` and `time.sleep`: rendering and the
  event loop, not part of the simulation's state.
- `Hive.plot_analysis` and `main`: plotting and the entry point.
- `np.random.randint` and `np.random.rand`: the initial phases and positions
  are constructor parameters (phases in `[0, 50)`, as `randint(50)` draws).
- `pdist`/`squareform`: floating-point distances are replaced by exact
  squared distances over reals; the rounding of floats is not modelled.
- The `cycle` field of `Firefly`: `pass_time` and `change_state` use the
  literals 50 and 25 whatever it holds, so the cycle is fixed at 50.
- The dataclass defaults (`num_fireflies = 150`, `radius = 0.45`,
  `timesteps = 5000`, `on = False`): the constructors take every value.
- `analysis_radius.py` is not part of this model: it is a parameter sweep over
  random replicas with no synchronisation logic of its own.
- `Lucpy.Hive.Spawn`, `Lucpy.Hive.Adjacency`, `Lucpy.Hive.SetIndices`,
  `Lucpy.Firefly.Advance`, `Lucpy.Hive.AdvancePhases` and
  `Lucpy.Hive.RefreshStates` are the comprehension of `__post_init__`, the
  matrix and the comprehension of `get_neighbours`, the body of the first loop
  of `pass_time` and its two loops, written as methods of their own; their
  behaviour is that of the inline code.
- Aliasing within the population: the hive's fireflies are distinct objects,
  as the comprehension of `__post_init__` creates them; a list holding the
  same firefly twice is not modelled.
