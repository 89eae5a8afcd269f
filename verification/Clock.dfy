/** Logical time, and what a minimum distance between events means for any window. */
module Clock {

  type Time = nat

  /** Consecutive events are at least `gap` apart. */
  predicate Spaced(times: seq<Time>, gap: nat) {
    forall i | 0 <= i < |times| - 1 :: times[i] + gap <= times[i + 1]
  }

  /** Any stretch of `n` spaced events takes at least `n - 1` gaps. */
  lemma {:induction false} SpacedWindow(times: seq<Time>, gap: nat, i: nat, j: nat)
    requires Spaced(times, gap) && i <= j < |times|
    ensures times[i] + (j - i) * gap <= times[j]
    decreases j - i
  {
    if i < j {
      SpacedWindow(times, gap, i, j - 1);
      assert times[j - 1] + gap <= times[j - 1 + 1];
      assert (j - i) * gap == (j - 1 - i) * gap + gap;
    }
  }

  lemma SpacedSnoc(times: seq<Time>, gap: nat, t: Time)
    requires Spaced(times, gap)
    requires times == [] || times[|times| - 1] + gap <= t
    ensures Spaced(times + [t], gap)
  {
  }
}
