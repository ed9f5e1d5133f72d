/** Value-level rules of a single firefly: the phase cycle, the on/off rule
    derived from the phase, and the majority-of-neighbours coupling test. */
module FireflyRules {

  /** Ticks in one flashing cycle: the literal 50 of `pass_time`. */
  const Cycle: int := 50

  /** Phases below this value are "on": the literal 25 of `change_state`. */
  const Half: int := 25

  /** The `on` flag that `change_state` derives from a phase. */
  predicate IsOn(fase: int) {
    fase < Half
  }

  /** Phase of a firefly after its step of the phase-advance pass: advance by
      one modulo the cycle and, when that wraps it to 0 and its coupling check
      succeeds, advance once more. Python's `%` and Dafny's agree for the
      positive divisor 50, so the result is in range for every input phase. */
  function NextPhase(fase: int, coupled: bool): (r: int)
    ensures 0 <= r < Cycle
    ensures !coupled ==> r == (fase + 1) % 50
    ensures r != (fase + 1) % 50 ==> coupled && (fase + 1) % 50 == 0 && r == 1
    ensures 0 <= fase < Cycle - 1 ==> r == fase + 1
  {
    var advanced := (fase + 1) % 50;
    if advanced == 0 && coupled then advanced + 1 else advanced
  }

  /** Number of `true` values, as Python's `sum` over a list of booleans. */
  function Count(bs: seq<bool>): (n: nat)
    ensures n <= |bs|
  {
    if bs == [] then 0
    else Count(bs[..|bs| - 1]) + (if bs[|bs| - 1] then 1 else 0)
  }

  /** Every index in `idx` addresses an element of a list of length `n`. */
  predicate InRange(idx: seq<nat>, n: nat) {
    forall k :: 0 <= k < |idx| ==> idx[k] < n
  }

  /** The flags found at the listed indices, in list order: the comprehension
      `[list_fireflies[i].on for i in self.neighbours]`. */
  function Select(on: seq<bool>, idx: seq<nat>): (r: seq<bool>)
    requires InRange(idx, |on|)
    ensures |r| == |idx|
    ensures forall k :: 0 <= k < |idx| ==> r[k] == on[idx[k]]
  {
    if idx == [] then [] else Select(on, idx[..|idx| - 1]) + [on[idx[|idx| - 1]]]
  }

  /** `statistics.mean` of a non-empty list of booleans, computed exactly. */
  function Mean(bs: seq<bool>): real
    requires |bs| > 0
  {
    Count(bs) as real / |bs| as real
  }

  /** At least half of a non-empty list is `true`, stated on integers. */
  predicate Majority(bs: seq<bool>) {
    |bs| > 0 && 2 * Count(bs) >= |bs|
  }

  /** The test `mean(states) >= 0.5` of `check_neighbours` is the integer test
      `Majority`. */
  lemma MeanMajority(bs: seq<bool>)
    requires |bs| > 0
    ensures Mean(bs) >= 0.5 <==> Majority(bs)
  {
    HalfQuotient(Count(bs) as real, |bs| as real);
  }

  /** For a positive divisor, `c / n >= 0.5` exactly when `2c >= n`. */
  lemma HalfQuotient(c: real, n: real)
    requires n > 0.0
    ensures c / n >= 0.5 <==> 2.0 * c >= n
  {
  }

  /** How many of the listed fireflies are on, in the snapshot `on`. */
  function OnAmong(on: seq<bool>, idx: seq<nat>): (n: nat)
    requires InRange(idx, |on|)
    ensures n <= |idx|
  {
    if idx == [] then 0
    else OnAmong(on, idx[..|idx| - 1]) + (if on[idx[|idx| - 1]] then 1 else 0)
  }

  /** Summing the gathered flags counts the listed fireflies that are on. */
  lemma {:induction false} CountSelect(on: seq<bool>, idx: seq<nat>)
    requires InRange(idx, |on|)
    ensures Count(Select(on, idx)) == OnAmong(on, idx)
  {
    if idx != [] {
      var front := idx[..|idx| - 1];
      CountSelect(on, front);
      var bs := Select(on, idx);
      assert bs[..|bs| - 1] == Select(on, front);
    }
  }

  /** Coupling check on a frozen snapshot `on` of every firefly's flag: the
      list of neighbours is non-empty and at least half of them are on. */
  predicate Coupled(on: seq<bool>, neighbours: seq<nat>)
    requires InRange(neighbours, |on|)
  {
    |neighbours| > 0 && 2 * OnAmong(on, neighbours) >= |neighbours|
  }

  /** `Coupled` is the majority test on the gathered flags. */
  lemma CoupledMajority(on: seq<bool>, neighbours: seq<nat>)
    requires InRange(neighbours, |on|)
    ensures Coupled(on, neighbours) <==> Majority(Select(on, neighbours))
  {
    CountSelect(on, neighbours);
  }
}
