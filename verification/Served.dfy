/** Waiting until an endpoint serves a new certificate (provisioning/validation.py). */
module Served {
  import opened Prelude

  /** `confirmations` probes in a row, starting at `i`, see what is expected. */
  predicate Confirmed(matches: seq<bool>, confirmations: int, i: int) {
    0 <= i && i + confirmations <= |matches| && forall k :: i <= k < i + confirmations ==> matches[k]
  }

  /** The probes made in the end, by what each of them saw. A probe that cannot connect sees no fingerprint. */
  function Matches<Fp(==)>(probes: seq<Option<Fp>>, expected: Fp): (r: seq<bool>)
    ensures |r| == |probes| && forall k :: 0 <= k < |r| ==> (r[k] <==> probes[k] == Some(expected))
  {
    seq(|probes|, k requires 0 <= k < |probes| => probes[k] == Some(expected))
  }

  /** `probes` are the answers the endpoint would give, one for each attempt the budget allows.
      True exactly when at least one confirmation is asked for and some window of that many
      consecutive probes all match; then it stops at the end of the first such window,
      otherwise it uses every probe. */
  method WaitUntilServed<Fp(==)>(probes: seq<Option<Fp>>, expected: Fp, attempts: nat, confirmations: nat)
    returns (served: bool, last: Option<Fp>, used: nat)
    requires |probes| == attempts * confirmations
    ensures served <==> 1 <= confirmations && exists i :: Confirmed(Matches(probes, expected), confirmations, i)
    ensures used <= |probes| && last == if used == 0 then None else probes[used - 1]
    ensures served ==> Confirmed(Matches(probes, expected), confirmations, used - confirmations)
                       && forall i :: i < used - confirmations ==> !Confirmed(Matches(probes, expected), confirmations, i)
    ensures !served ==> used == |probes|
  {
    assert confirmations == 0 ==> |probes| == 0;
    ghost var m := Matches(probes, expected);
    last, used := None, 0;
    var streak := 0;
    while used < attempts * confirmations
      invariant 0 <= streak <= used <= |probes| && (streak < confirmations || confirmations == 0)
      invariant last == if used == 0 then None else probes[used - 1]
      invariant forall k :: used - streak <= k < used ==> m[k]
      invariant streak < used ==> !m[used - streak - 1]
      invariant 1 <= confirmations ==> forall i :: i + confirmations <= used ==> !Confirmed(m, confirmations, i)
    {
      last := probes[used];
      used := used + 1;
      if last == Some(expected) {
        streak := streak + 1;
        if streak >= confirmations {
          assert Confirmed(m, confirmations, used - confirmations);
          return true, last, used;
        }
        assert forall i :: i + confirmations == used ==> !Confirmed(m, confirmations, i) by {
          assert streak < used ==> !m[used - streak - 1];
        }
        continue;
      }
      assert !m[used - 1];
      streak := 0;
    }
    return false, last, used;
  }
}
