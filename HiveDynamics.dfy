/** One tick of the whole hive on values: the phase-advance pass reads a frozen
    snapshot of the `on` flags, then the state-refresh pass derives every flag
    from the new phase. Also the sequence of on-counts over many ticks. */
module HiveDynamics {
  import opened FireflyRules

  /** The mutable part of a hive: each firefly's phase and `on` flag. */
  datatype Swarm = Swarm(phases: seq<int>, on: seq<bool>)

  /** A neighbour graph over `n` fireflies: every list indexes the population. */
  predicate Graph(graph: seq<seq<nat>>, n: nat) {
    |graph| == n && forall i :: 0 <= i < n ==> InRange(graph[i], n)
  }

  /** A swarm that the graph describes, one list per firefly. */
  predicate Fits(s: Swarm, graph: seq<seq<nat>>) {
    |s.on| == |s.phases| && Graph(graph, |s.phases|)
  }

  /** The phase firefly `i` reaches in the phase-advance pass, given the
      snapshot `on` of every flag at the start of the tick. */
  function Advanced(phases: seq<int>, on: seq<bool>, graph: seq<seq<nat>>, i: nat): int
    requires Fits(Swarm(phases, on), graph) && i < |phases|
  {
    NextPhase(phases[i], Coupled(on, graph[i]))
  }

  /** Phase-advance pass over the whole hive, every check reading `on`. */
  function AdvanceAll(phases: seq<int>, on: seq<bool>, graph: seq<seq<nat>>): (r: seq<int>)
    requires Fits(Swarm(phases, on), graph)
    ensures |r| == |phases|
    ensures forall i :: 0 <= i < |r| ==> 0 <= r[i] < Cycle
  {
    seq(|phases|, i requires 0 <= i < |phases| => Advanced(phases, on, graph, i))
  }

  /** State-refresh pass: every flag recomputed from its phase. */
  function Refresh(phases: seq<int>): seq<bool> {
    seq(|phases|, i requires 0 <= i < |phases| => IsOn(phases[i]))
  }

  /** Every flag agrees with its phase and every phase lies in the cycle. */
  predicate Committed(s: Swarm) {
    |s.on| == |s.phases| &&
    forall i :: 0 <= i < |s.phases| ==> 0 <= s.phases[i] < Cycle && s.on[i] == IsOn(s.phases[i])
  }

  /** One full tick: both passes. */
  function Tick(s: Swarm, graph: seq<seq<nat>>): (r: Swarm)
    requires Fits(s, graph)
    ensures Fits(r, graph)
    ensures Committed(r)
  {
    var phases := AdvanceAll(s.phases, s.on, graph);
    Swarm(phases, Refresh(phases))
  }

  /** The swarm after `t` ticks. */
  function Iterate(s: Swarm, graph: seq<seq<nat>>, t: nat): (r: Swarm)
    requires Fits(s, graph)
    ensures Fits(r, graph)
    ensures t > 0 ==> Committed(r)
    decreases t
  {
    if t == 0 then s else Iterate(Tick(s, graph), graph, t - 1)
  }

  /** Running one more tick after `t` ticks. */
  lemma {:induction false} IterateSnoc(s: Swarm, graph: seq<seq<nat>>, t: nat)
    requires Fits(s, graph)
    ensures Iterate(s, graph, t + 1) == Tick(Iterate(s, graph, t), graph)
    decreases t
  {
    if t > 0 {
      IterateSnoc(Tick(s, graph), graph, t - 1);
    }
  }

  /** Pre-tick on-counts of `t` successive ticks, starting from `s`. */
  function OnCounts(s: Swarm, graph: seq<seq<nat>>, t: nat): (r: seq<nat>)
    requires Fits(s, graph)
    ensures |r| == t
    ensures forall k :: 0 <= k < t ==> r[k] <= |s.phases|
    decreases t
  {
    if t == 0 then [] else [Count(s.on)] + OnCounts(Tick(s, graph), graph, t - 1)
  }

  /** Recording one more tick appends the on-count of the swarm reached so far. */
  lemma {:induction false} OnCountsSnoc(s: Swarm, graph: seq<seq<nat>>, t: nat)
    requires Fits(s, graph)
    ensures OnCounts(s, graph, t + 1) == OnCounts(s, graph, t) + [Count(Iterate(s, graph, t).on)]
    decreases t
  {
    if t > 0 {
      OnCountsSnoc(Tick(s, graph), graph, t - 1);
    }
  }

  /** A firefly without neighbours never gets the extra increment: after `t`
      ticks its phase has advanced by exactly `t` modulo the cycle. */
  lemma {:induction false} IsolatedDrifts(s: Swarm, graph: seq<seq<nat>>, i: nat, t: nat)
    requires Fits(s, graph) && i < |s.phases| && graph[i] == []
    requires 0 <= s.phases[i] < Cycle
    ensures Iterate(s, graph, t).phases[i] == (s.phases[i] + t) % 50
    decreases t
  {
    if t > 0 {
      var next := Tick(s, graph);
      assert next.phases[i] == (s.phases[i] + 1) % 50;
      IsolatedDrifts(next, graph, i, t - 1);
      ModuloShift(s.phases[i], t);
    }
  }

  /** `((p + 1) % 50 + (t - 1)) % 50 == (p + t) % 50` */
  lemma ModuloShift(p: int, t: nat)
    requires t > 0
    ensures ((p + 1) % 50 + (t - 1)) % 50 == (p + t) % 50
  {
  }

  // ---------------------------------------------------------------------
  // Order independence of the phase-advance pass.

  /** The phase-advance pass run one firefly at a time, in the order `order`,
      on a list of phases that it updates in place; every coupling check reads
      the same flags `on`, because the pass writes no flag. */
  function RunInOrder(phases: seq<int>, on: seq<bool>, graph: seq<seq<nat>>, order: seq<nat>): (r: seq<int>)
    requires Fits(Swarm(phases, on), graph) && InRange(order, |phases|)
    ensures |r| == |phases|
    decreases |order|
  {
    if order == [] then phases
    else
      var i := order[0];
      RunInOrder(phases[i := NextPhase(phases[i], Coupled(on, graph[i]))], on, graph, order[1..])
  }

  /** No index occurs twice. */
  predicate Distinct(order: seq<nat>) {
    forall a, b :: 0 <= a < b < |order| ==> order[a] != order[b]
  }

  /** Run in any order without repetitions, the pass advances exactly the
      listed fireflies, each as the snapshot dictates, and leaves the rest. */
  lemma {:induction false} RunInOrderAt(phases: seq<int>, on: seq<bool>, graph: seq<seq<nat>>, order: seq<nat>, k: nat)
    requires Fits(Swarm(phases, on), graph) && InRange(order, |phases|) && Distinct(order)
    requires k < |phases|
    ensures RunInOrder(phases, on, graph, order)[k] ==
            if k in order then NextPhase(phases[k], Coupled(on, graph[k])) else phases[k]
    decreases |order|
  {
    if order != [] {
      var i := order[0];
      var next := phases[i := NextPhase(phases[i], Coupled(on, graph[i]))];
      assert i !in order[1..] by {
        forall b | 0 <= b < |order[1..]| ensures order[1..][b] != i {
          assert order[1..][b] == order[b + 1];
        }
      }
      assert Distinct(order[1..]) by {
        forall a, b | 0 <= a < b < |order[1..]| ensures order[1..][a] != order[1..][b] {
          assert order[1..][a] == order[a + 1] && order[1..][b] == order[b + 1];
        }
      }
      RunInOrderAt(next, on, graph, order[1..], k);
      assert k in order <==> k == i || k in order[1..] by {
        assert order == [i] + order[1..];
      }
    }
  }

  /** Whatever the iteration order, visiting every firefly once yields the
      phases of `AdvanceAll`, computed from the frozen snapshot `on`. */
  lemma AnyOrderAdvancesAll(phases: seq<int>, on: seq<bool>, graph: seq<seq<nat>>, order: seq<nat>)
    requires Fits(Swarm(phases, on), graph) && InRange(order, |phases|) && Distinct(order)
    requires forall k :: 0 <= k < |phases| ==> k in order
    ensures RunInOrder(phases, on, graph, order) == AdvanceAll(phases, on, graph)
  {
    var r := RunInOrder(phases, on, graph, order);
    forall k | 0 <= k < |phases| ensures r[k] == AdvanceAll(phases, on, graph)[k] {
      RunInOrderAt(phases, on, graph, order, k);
    }
  }
}
