/** How long the supervisor waits between sessions, in seconds. */
module Backoff {
  import Bits

  const INITIAL: nat := 2
  const MAX: nat := 30

  /** How a session went: whether it reached Running, and whether the server rejected it. */
  datatype Outcome = Outcome(running: bool, rejected: bool)

  const FAILURE := Outcome(false, false)

  function Min(a: nat, b: nat): nat { if a < b then a else b }

  /** The wait after a session, given what the variable held before it. */
  function Chosen(seconds: nat, o: Outcome): nat {
    if o.rejected then MAX else if o.running then INITIAL else seconds
  }

  /** What the variable holds before the next session. */
  function Held(outcomes: seq<Outcome>): nat {
    if outcomes == [] then INITIAL
    else
      var last := |outcomes| - 1;
      Min(Chosen(Held(outcomes[..last]), outcomes[last]) * 2, MAX)
  }

  /** The wait after the last of some sessions. */
  function Wait(outcomes: seq<Outcome>): nat
    requires outcomes != []
  {
    var last := |outcomes| - 1;
    Chosen(Held(outcomes[..last]), outcomes[last])
  }

  /** The loop of the supervisor, as far as its waits go. */
  method Pace(outcomes: seq<Outcome>) returns (waits: seq<nat>)
    ensures |waits| == |outcomes| && forall i :: 0 <= i < |waits| ==> waits[i] == Wait(outcomes[..i + 1])
  {
    waits := [];
    var seconds := INITIAL;
    for i := 0 to |outcomes|
      invariant |waits| == i && seconds == Held(outcomes[..i])
      invariant forall j :: 0 <= j < i ==> waits[j] == Wait(outcomes[..j + 1])
    {
      if outcomes[i].rejected {
        seconds := MAX;
      } else if outcomes[i].running {
        seconds := INITIAL;
      }
      assert outcomes[..i + 1][..i] == outcomes[..i];
      waits := waits + [seconds];
      seconds := if seconds * 2 < MAX then seconds * 2 else MAX;
    }
  }

  lemma {:induction false} HeldInRange(outcomes: seq<Outcome>)
    ensures INITIAL <= Held(outcomes) <= MAX
    decreases |outcomes|
  {
    if outcomes != [] {
      HeldInRange(outcomes[..|outcomes| - 1]);
    }
  }

  /**
    * Every wait, after any history: between 2 and 30 seconds; 30 after a rejection, whether or not the session
    * reached Running; 2 after a session that did and was not rejected; otherwise twice the wait before, up to 30,
    * and 2 the first time.
    */
  lemma WaitCases(before: seq<Outcome>, o: Outcome)
    ensures var w := Wait(before + [o]);
      && INITIAL <= w <= MAX
      && w == (if o.rejected then 30
               else if o.running then 2
               else if before == [] then 2
               else Min(2 * Wait(before), 30))
  {
    assert (before + [o])[..|before|] == before;
    HeldInRange(before);
  }

  function Failures(k: nat): (s: seq<Outcome>)
    ensures |s| == k
  {
    seq(k, _ => FAILURE)
  }

  lemma Doubling(p: nat, w: nat)
    requires p > 0
    ensures Min(2 * Min(p * w, MAX), MAX) == Min(2 * p * w, MAX)
  {
    assert 2 * p * w == 2 * (p * w);
  }

  /** k plain failures in a row multiply the wait before them by 2 to the k, up to 30. */
  lemma {:induction false} FailuresInARow(before: seq<Outcome>, k: nat)
    requires before != []
    ensures Wait(before + Failures(k)) == Min(Bits.Pow2(k) * Wait(before), MAX)
    decreases k
  {
    if k == 0 {
      assert before + Failures(0) == before;
      var last := |before| - 1;
      assert before == before[..last] + [before[last]];
      WaitCases(before[..last], before[last]);
    } else {
      FailuresInARow(before, k - 1);
      assert before + Failures(k) == (before + Failures(k - 1)) + [FAILURE];
      WaitCases(before + Failures(k - 1), FAILURE);
      Doubling(Bits.Pow2(k - 1), Wait(before));
    }
  }

  /** From the start, the k-th plain failure in a row waits 2 to the k seconds, up to 30. */
  lemma FailuresFromTheStart(k: nat)
    requires k > 0
    ensures Wait(Failures(k)) == Min(Bits.Pow2(k), MAX)
  {
    var first := [FAILURE];
    assert Failures(k) == first + Failures(k - 1);
    WaitCases([], FAILURE);
    assert [] + first == first;
    FailuresInARow(first, k - 1);
  }
}
