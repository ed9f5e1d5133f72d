/** The simulation objects: `Firefly`, whose methods update its own fields,
    and `Hive`, which owns the fireflies, wires the neighbour graph once and
    drives the two-pass tick. Each method is proved against the value-level
    definitions of `FireflyRules`, `Neighbourhood` and `HiveDynamics`. */
module Lucpy {
  import opened FireflyRules
  import opened Neighbourhood
  import opened HiveDynamics

  class Firefly {
    const coordinates: Point
    var on: bool
    var fase: int
    var neighbours: seq<nat>

    /** The dataclass constructor and `__post_init__`; the phase drawn by
        `np.random.randint(cycle)` is passed in. */
    constructor (coordinates: Point, fase: int)
      requires 0 <= fase < Cycle
      ensures this.coordinates == coordinates && this.fase == fase
      ensures on == IsOn(fase) && neighbours == []
    {
      this.coordinates := coordinates;
      this.on := false;
      this.fase := fase;
      this.neighbours := [];
      new;
      ChangeState();
    }

    /** Derives the `on` flag from the phase and touches nothing else. */
    method ChangeState()
      modifies this`on
      ensures on == IsOn(fase)
    {
      if fase < Half {
        on := true;
      } else {
        on := false;
      }
    }

    /** Whether at least half of the listed neighbours are on. `check_neighbours`
        takes the mean of their flags; an empty list answers false without dividing. */
    function CheckNeighbours(fireflies: seq<Firefly>): (r: bool)
      reads this`neighbours, fireflies`on
      requires InRange(neighbours, |fireflies|)
      ensures r == Coupled(OnFlagsOf(fireflies), neighbours)
      ensures neighbours == [] ==> !r
    {
      var states := Select(OnFlagsOf(fireflies), neighbours);
      if |states| > 0 then
        MeanMajority(states);
        CoupledMajority(OnFlagsOf(fireflies), neighbours);
        Mean(states) >= 0.5
      else
        false
    }

    /** The coupling nudge: one extra phase step when the check succeeds. */
    method SkipStep(fireflies: seq<Firefly>)
      requires InRange(neighbours, |fireflies|)
      modifies this`fase
      ensures fase == old(fase) + if old(CheckNeighbours(fireflies)) then 1 else 0
    {
      if CheckNeighbours(fireflies) {
        fase := fase + 1;
      }
    }

    /** This firefly's step of the phase-advance pass of `pass_time`: advance
        by one modulo 50 and, on wrapping to 0, take the coupling nudge. */
    method Advance(fireflies: seq<Firefly>)
      requires InRange(neighbours, |fireflies|)
      modifies this`fase
      ensures fase == NextPhase(old(fase), old(CheckNeighbours(fireflies)))
    {
      fase := (fase + 1) % 50;
      if fase == 0 {
        SkipStep(fireflies);
      }
    }
  }

  /** The `on` flags of a list of fireflies, in list order. */
  function OnFlagsOf(fs: seq<Firefly>): (r: seq<bool>)
    reads fs`on
    ensures |r| == |fs| && forall k :: 0 <= k < |fs| ==> r[k] == fs[k].on
  {
    if fs == [] then [] else OnFlagsOf(fs[..|fs| - 1]) + [fs[|fs| - 1].on]
  }

  /** The phases of a list of fireflies, in list order. */
  function PhasesOf(fs: seq<Firefly>): (r: seq<int>)
    reads fs`fase
    ensures |r| == |fs| && forall k :: 0 <= k < |fs| ==> r[k] == fs[k].fase
  {
    if fs == [] then [] else PhasesOf(fs[..|fs| - 1]) + [fs[|fs| - 1].fase]
  }

  /** The neighbour lists of a list of fireflies, in list order. */
  function GraphOf(fs: seq<Firefly>): (r: seq<seq<nat>>)
    reads fs`neighbours
    ensures |r| == |fs| && forall k :: 0 <= k < |fs| ==> r[k] == fs[k].neighbours
  {
    if fs == [] then [] else GraphOf(fs[..|fs| - 1]) + [fs[|fs| - 1].neighbours]
  }

  /** Fireflies that each hold their list of `graph` have `graph` as their
      neighbour lists. */
  lemma GraphIs(fs: seq<Firefly>, graph: seq<seq<nat>>)
    requires |fs| == |graph| && forall k :: 0 <= k < |fs| ==> fs[k].neighbours == graph[k]
    ensures GraphOf(fs) == graph
  {
  }

  /** Fireflies whose phases and flags are each as before have the phases and
      flags they had before, as whole lists. */
  twostate lemma {:induction false} StateKept(fs: seq<Firefly>)
    requires forall k :: 0 <= k < |fs| ==> fs[k].fase == old(fs[k].fase) && fs[k].on == old(fs[k].on)
    ensures PhasesOf(fs) == old(PhasesOf(fs)) && OnFlagsOf(fs) == old(OnFlagsOf(fs))
  {
    if fs != [] {
      StateKept(fs[..|fs| - 1]);
    }
  }

  /** Number of the `fireflies` whose flag is on: `sum([f.on for f in fs])`. */
  function OnNumber(fs: seq<Firefly>): (n: nat)
    reads fs`on
    ensures n <= |fs|
  {
    Count(OnFlagsOf(fs))
  }

  /** Number of ticks `range(timesteps)` runs. */
  function Steps(timesteps: int): nat {
    if timesteps < 0 then 0 else timesteps
  }

  /** `list(range(n))`: the indices `0, 1, ..., n - 1` in order. */
  function Range(n: nat): (r: seq<nat>)
    ensures |r| == n && forall k :: 0 <= k < n ==> r[k] == k
  {
    if n == 0 then [] else Range(n - 1) + [n - 1]
  }

  /** Samples kept by `'last_50'`: the ticks `n >= timesteps - 51`. */
  const Window: nat := 51

  function Min(a: int, b: int): int {
    if a < b then a else b
  }

  /** Whether `analytical_loop` appends the sample of tick `n` in `mode`:
      always for `'all'`, from tick `timesteps - 51` on for `'last_50'`,
      never for any other mode. */
  predicate Records(mode: string, n: nat, timesteps: int) {
    mode == "all" || (mode == "last_50" && n >= timesteps - Window)
  }

  /** What `analytical_loop` has appended to `results` once it has taken the
      on-counts `samples` of the ticks run so far. */
  function Recorded(mode: string, samples: seq<nat>, timesteps: int): (r: seq<nat>)
    ensures |r| <= |samples|
  {
    if samples == [] then []
    else
      var n := |samples| - 1;
      Recorded(mode, samples[..n], timesteps) + (if Records(mode, n, timesteps) then [samples[n]] else [])
  }

  /** Unfolds `Recorded` once at the end of the samples: a proof step for the
      loop of `AnalyticalLoop`, which keeps the solver off the slice terms. */
  lemma RecordStep(mode: string, samples: seq<nat>, x: nat, timesteps: int)
    ensures Recorded(mode, samples + [x], timesteps) ==
      Recorded(mode, samples, timesteps) + (if Records(mode, |samples|, timesteps) then [x] else [])
  {
  }

  /** How many of the first `n` ticks `'last_50'` passes over: those with
      `n < timesteps - 51`. */
  function Skipped(n: nat, timesteps: int): (r: nat)
    ensures r <= n
  {
    if timesteps - Window <= 0 then 0 else Min(n, timesteps - Window)
  }

  /** The record is every sample for `'all'`, the samples from tick
      `timesteps - 51` on for `'last_50'`, and nothing for any other mode. */
  lemma {:induction false} RecordedSlice(mode: string, samples: seq<nat>, timesteps: int)
    ensures Recorded(mode, samples, timesteps) ==
      if mode == "all" then samples
      else if mode == "last_50" then samples[Skipped(|samples|, timesteps)..]
      else []
  {
    if samples != [] {
      var n := |samples| - 1;
      var front := samples[..n];
      RecordedSlice(mode, front, timesteps);
      if mode == "all" {
        assert samples == front + [samples[n]];
      } else if mode == "last_50" {
        if n >= timesteps - Window {
          assert Skipped(n + 1, timesteps) == Skipped(n, timesteps);
          assert samples[Skipped(n, timesteps)..] == front[Skipped(n, timesteps)..] + [samples[n]];
        } else {
          assert Skipped(n + 1, timesteps) == n + 1;
        }
      }
    }
  }

  /** Over a whole run, `'all'` keeps one sample per tick, `'last_50'` keeps
      the last `min(timesteps, 51)` of them and any other mode keeps none. */
  lemma RecordedShape(mode: string, samples: seq<nat>, timesteps: int)
    requires |samples| == Steps(timesteps)
    ensures mode == "all" ==> Recorded(mode, samples, timesteps) == samples
    ensures mode == "last_50" ==> |Recorded(mode, samples, timesteps)| == Min(Steps(timesteps), Window)
    ensures mode == "last_50" ==> Recorded(mode, samples, timesteps) == samples[|samples| - Min(|samples|, Window)..]
    ensures mode != "all" && mode != "last_50" ==> Recorded(mode, samples, timesteps) == []
  {
    RecordedSlice(mode, samples, timesteps);
  }

  /** A bound on every sample bounds every recorded sample. */
  lemma {:induction false} RecordedBounded(mode: string, samples: seq<nat>, timesteps: int, bound: nat)
    requires forall k :: 0 <= k < |samples| ==> samples[k] <= bound
    ensures forall k :: 0 <= k < |Recorded(mode, samples, timesteps)| ==> Recorded(mode, samples, timesteps)[k] <= bound
  {
    if samples != [] {
      RecordedBounded(mode, samples[..|samples| - 1], timesteps, bound);
    }
  }

  class Hive {
    const numFireflies: nat
    const radius: real
    const timesteps: int
    const fireCoordinates: seq<Point>
    const fireflies: seq<Firefly>

    /** The population: one distinct firefly per coordinate row, each at its row. */
    ghost predicate Wired() {
      |fireflies| == numFireflies == |fireCoordinates| &&
      (forall a, b :: 0 <= a < b < |fireflies| ==> fireflies[a] != fireflies[b]) &&
      (forall k :: 0 <= k < |fireflies| ==> fireflies[k].coordinates == fireCoordinates[k])
    }

    /** Phases and flags of the whole hive. */
    function State(): Swarm
      reads fireflies`fase, fireflies`on
    {
      Swarm(PhasesOf(fireflies), OnFlagsOf(fireflies))
    }

    /** What a tick needs: a wired population whose every neighbour list
        indexes it. */
    ghost predicate Linked()
      reads fireflies`neighbours
    {
      Wired() && Graph(GraphOf(fireflies), numFireflies)
    }

    /** The hive invariant: the population is linked, every phase is in the
        cycle and every flag agrees with its phase. */
    ghost predicate Valid()
      reads fireflies
    {
      Linked() && Committed(State())
    }

    /** The neighbour lists are those of the positions and the radius. */
    ghost predicate Geometric()
      reads fireflies`neighbours
    {
      GraphOf(fireflies) == NeighbourGraph(fireCoordinates, radius)
    }

    /** `__post_init__`: one firefly per position, then the neighbour graph.
        The positions of `np.random.rand` and the phases of
        `np.random.randint` are passed in. */
    constructor (coordinates: seq<Point>, phases: seq<int>, radius: real, timesteps: int)
      requires |phases| == |coordinates|
      requires forall k :: 0 <= k < |phases| ==> 0 <= phases[k] < Cycle
      ensures Valid() && Geometric()
      ensures numFireflies == |coordinates| && fireCoordinates == coordinates
      ensures this.radius == radius && this.timesteps == timesteps
      ensures forall k :: 0 <= k < |fireflies| ==> fresh(fireflies[k])
      ensures State() == Swarm(phases, Refresh(phases))
    {
      var list := Spawn(coordinates, phases);
      numFireflies := |coordinates|;
      this.radius := radius;
      this.timesteps := timesteps;
      fireCoordinates := coordinates;
      fireflies := list;
      new;
      assert PhasesOf(fireflies) == phases;
      assert OnFlagsOf(fireflies) == Refresh(phases);
      GetNeighbours();
      assert Committed(Swarm(phases, Refresh(phases)));
      assert Graph(NeighbourGraph(coordinates, radius), |coordinates|);
    }

    /** `[Firefly([row[0], row[1]]) for row in fire_coordinates]`: one new
        firefly per position, in order, with the phase drawn for it. */
    static method Spawn(coordinates: seq<Point>, phases: seq<int>) returns (list: seq<Firefly>)
      requires |phases| == |coordinates|
      requires forall k :: 0 <= k < |phases| ==> 0 <= phases[k] < Cycle
      ensures |list| == |coordinates|
      ensures forall a, b :: 0 <= a < b < |list| ==> list[a] != list[b]
      ensures forall a :: 0 <= a < |list| ==> fresh(list[a])
      ensures forall a :: 0 <= a < |list| ==>
        list[a].coordinates == coordinates[a] && list[a].fase == phases[a] &&
        list[a].on == IsOn(phases[a]) && list[a].neighbours == []
    {
      list := [];
      for k := 0 to |coordinates|
        invariant |list| == k
        invariant forall a, b :: 0 <= a < b < k ==> list[a] != list[b]
        invariant forall a :: 0 <= a < k ==> fresh(list[a])
        invariant forall a :: 0 <= a < k ==>
          list[a].coordinates == coordinates[a] && list[a].fase == phases[a] &&
          list[a].on == IsOn(phases[a]) && list[a].neighbours == []
      {
        var firefly := new Firefly(coordinates[k], phases[k]);
        list := list + [firefly];
      }
    }

    /** Thresholds the distance matrix, clears its diagonal and gives every
        firefly the indices of its row that remain set. */
    method GetNeighbours()
      requires Wired()
      modifies fireflies
      ensures Geometric()
      ensures State() == old(State())
    {
      var n := |fireCoordinates|;
      var matrix := Adjacency();
      for i := 0 to n
        modifies fireflies
        invariant forall k :: 0 <= k < i ==> fireflies[k].neighbours == NeighbourList(fireCoordinates, radius, k)
        invariant forall k :: 0 <= k < n ==>
          fireflies[k].fase == old(fireflies[k].fase) && fireflies[k].on == old(fireflies[k].on)
      {
        var row := SetIndices(matrix, i);
        fireflies[i].neighbours := row;
      }
      GraphIs(fireflies, NeighbourGraph(fireCoordinates, radius));
      StateKept(fireflies);
    }

    /** `distance_matrix < radius` with its diagonal cleared: entry `[a, b]`
        is set exactly when `a != b` and the two positions are closer than
        the radius. */
    method Adjacency() returns (matrix: array2<bool>)
      ensures fresh(matrix)
      ensures matrix.Length0 == matrix.Length1 == |fireCoordinates|
      ensures forall a, b :: 0 <= a < matrix.Length0 && 0 <= b < matrix.Length1 ==>
        matrix[a, b] == Adjacent(fireCoordinates, radius, a, b)
    {
      var n := |fireCoordinates|;
      var pts := fireCoordinates;
      var r := radius;
      matrix := new bool[n, n]((a, b) requires 0 <= a < n && 0 <= b < n => Within(pts[a], pts[b], r));
      for i := 0 to n
        modifies matrix
        invariant forall a, b :: 0 <= a < n && 0 <= b < n ==>
          matrix[a, b] == (if a == b && a < i then false else Within(pts[a], pts[b], r))
      {
        matrix[i, i] := false;
      }
    }

    /** `[j for j, val in enumerate(row) if val]` on row `i` of the cleared
        matrix: the neighbours of firefly `i`, in ascending order. */
    method SetIndices(matrix: array2<bool>, i: nat) returns (row: seq<nat>)
      requires matrix.Length0 == matrix.Length1 == |fireCoordinates| && i < |fireCoordinates|
      requires forall a, b :: 0 <= a < matrix.Length0 && 0 <= b < matrix.Length1 ==>
        matrix[a, b] == Adjacent(fireCoordinates, radius, a, b)
      ensures row == NeighbourList(fireCoordinates, radius, i)
    {
      row := [];
      for j := 0 to matrix.Length1
        invariant row == Row(fireCoordinates, radius, i, j)
      {
        if matrix[i, j] {
          row := row + [j];
        }
      }
    }

    /** One tick: the phase-advance pass, then the state-refresh pass. */
    method PassTime()
      requires Linked()
      modifies fireflies
      ensures Valid()
      ensures GraphOf(fireflies) == old(GraphOf(fireflies))
      ensures State() == Tick(old(State()), GraphOf(fireflies))
    {
      AdvancePhases();
      RefreshStates();
    }

    /** The first loop of `pass_time`: every phase advances by one modulo 50
        and a firefly that wraps to 0 takes the coupling nudge. The pass writes
        no flag, so every check reads the flags of the start of the tick. */
    method AdvancePhases()
      requires Linked()
      modifies fireflies
      ensures GraphOf(fireflies) == old(GraphOf(fireflies)) && OnFlagsOf(fireflies) == old(OnFlagsOf(fireflies))
      ensures PhasesOf(fireflies) == AdvanceAll(old(PhasesOf(fireflies)), old(OnFlagsOf(fireflies)), old(GraphOf(fireflies)))
    {
      ghost var phases := PhasesOf(fireflies);
      ghost var on := OnFlagsOf(fireflies);
      ghost var graph := GraphOf(fireflies);
      var n := |fireflies|;
      for i := 0 to n
        invariant forall k :: 0 <= k < n ==> fireflies[k].neighbours == graph[k] && fireflies[k].on == on[k]
        invariant forall k :: 0 <= k < i ==> fireflies[k].fase == Advanced(phases, on, graph, k)
        invariant forall k :: i <= k < n ==> fireflies[k].fase == phases[k]
      {
        var firefly := fireflies[i];
        assert forall k :: 0 <= k < n && k != i ==> fireflies[k] != firefly;
        assert OnFlagsOf(fireflies) == on;
        firefly.Advance(fireflies);
      }
      assert PhasesOf(fireflies) == AdvanceAll(phases, on, graph);
    }

    /** The second loop of `pass_time`: every flag is derived from the new
        phase; phases and neighbour lists stay as they are. */
    method RefreshStates()
      requires Wired()
      modifies fireflies
      ensures GraphOf(fireflies) == old(GraphOf(fireflies)) && PhasesOf(fireflies) == old(PhasesOf(fireflies))
      ensures OnFlagsOf(fireflies) == Refresh(PhasesOf(fireflies))
    {
      var n := |fireflies|;
      for i := 0 to n
        invariant forall k :: 0 <= k < n ==>
          fireflies[k].neighbours == old(fireflies[k].neighbours) && fireflies[k].fase == old(fireflies[k].fase)
        invariant forall k :: 0 <= k < i ==> fireflies[k].on == IsOn(fireflies[k].fase)
      {
        assert forall k :: 0 <= k < n && k != i ==> fireflies[k] != fireflies[i];
        fireflies[i].ChangeState();
      }
      assert OnFlagsOf(fireflies) == Refresh(PhasesOf(fireflies));
    }

    /** Runs `timesteps` ticks, recording before each tick how many fireflies
        are on: every sample for `'all'`, the samples of the last 51 ticks for
        `'last_50'`, none for any other mode. Returns the samples and their
        positions `0 .. len - 1`. */
    method AnalyticalLoop(mode: string) returns (results: seq<nat>, indices: seq<nat>)
      requires Linked()
      modifies fireflies
      ensures Linked()
      ensures GraphOf(fireflies) == old(GraphOf(fireflies))
      ensures State() == Iterate(old(State()), GraphOf(fireflies), Steps(timesteps))
      ensures results == Recorded(mode, OnCounts(old(State()), GraphOf(fireflies), Steps(timesteps)), timesteps)
      ensures |indices| == |results| && forall k :: 0 <= k < |indices| ==> indices[k] == k
      ensures mode == "all" ==> |results| == Steps(timesteps)
      ensures mode == "last_50" ==> |results| == Min(Steps(timesteps), Window)
      ensures mode != "all" && mode != "last_50" ==> results == []
      ensures forall k :: 0 <= k < |results| ==> results[k] <= numFireflies
    {
      ghost var start := State();
      ghost var graph := GraphOf(fireflies);
      ghost var swarm := start;
      ghost var sampled: seq<nat> := [];
      results := [];
      var n := 0;
      while n < timesteps
        invariant 0 <= n <= Steps(timesteps)
        invariant Linked() && GraphOf(fireflies) == graph && State() == swarm
        invariant Fits(start, graph) && swarm == Iterate(start, graph, n)
        invariant sampled == OnCounts(start, graph, n)
        invariant results == Recorded(mode, sampled, timesteps)
      {
        var onNumber := OnNumber(fireflies);
        OnCountsSnoc(start, graph, n);
        RecordStep(mode, sampled, onNumber, timesteps);
        if mode == "all" {
          results := results + [onNumber];
        } else if mode == "last_50" {
          if n >= timesteps - Window {
            results := results + [onNumber];
          }
        }
        sampled := sampled + [onNumber];
        PassTime();
        IterateSnoc(start, graph, n);
        swarm := Tick(swarm, graph);
        n := n + 1;
      }
      assert n == Steps(timesteps);
      RecordedShape(mode, sampled, timesteps);
      RecordedBounded(mode, sampled, timesteps, numFireflies);
      indices := Range(|results|);
    }
  }
}
