/** The quota-driven samplers `percent` of mem.c and l2warm.cc: each call decides at random whether to act,
    but corrects itself so that of every hundred calls exactly the configured percentage act. */
module Sampler {
  /** The two copies differ when the percentage is zero: one never acts, the other always does. */
  datatype Variant = Dram | Cache

  /** How many of a hundred calls act. The percentage is read from the command line and may be any number. */
  function Quota(variant: Variant, percentage: int): (q: nat)
    ensures q <= 100
  {
    if percentage == 0 then (if variant == Cache then 100 else 0)
    else if percentage < 0 then 0
    else if percentage > 100 then 100
    else percentage
  }

  function Hits(s: seq<bool>): (n: nat)
    ensures n <= |s|
  {
    if s == [] then 0 else Hits(s[..|s| - 1]) + (if s[|s| - 1] then 1 else 0)
  }

  lemma HitsMore(s: seq<bool>, b: bool)
    ensures Hits(s + [b]) == Hits(s) + (if b then 1 else 0)
  {
    assert (s + [b])[..|s|] == s;
  }

  /** Neither side of the quota is overdrawn by the calls of an unfinished hundred. */
  ghost predicate WithinQuota(recent: seq<bool>, quota: nat) {
    |recent| < 100 && Hits(recent) <= quota && |recent| - Hits(recent) <= 100 - quota
  }

  class Percent {
    const variant: Variant
    const percentage: int
    var taken: nat
    var notTaken: nat
    /** The results of the calls since the last multiple of a hundred. */
    ghost var recent: seq<bool>

    constructor (variant: Variant, percentage: int)
      ensures this.variant == variant && this.percentage == percentage && recent == [] && Valid()
    {
      this.variant, this.percentage := variant, percentage;
      taken, notTaken, recent := 0, 0, [];
    }

    ghost predicate Valid()
      reads this
    {
      WithinQuota(recent, Quota(variant, percentage))
      && (percentage != 0 ==> taken == Hits(recent) && notTaken == |recent| - Hits(recent))
    }

    /** One call: the random number decides while both sides of the quota have room, after that the
        side that has room. A hundredth call meets the quota exactly. */
    method Call(random: nat) returns (ret: bool)
      requires Valid()
      modifies this
      ensures Valid()
      ensures recent == if |old(recent)| == 99 then [] else old(recent) + [ret]
      ensures |old(recent)| == 99 ==> Hits(old(recent) + [ret]) == Quota(variant, percentage)
      ensures var q := Quota(variant, percentage);
              Hits(old(recent)) < q && |old(recent)| - Hits(old(recent)) < 100 - q ==> ret == (random % 100 <= percentage)
    {
      HitsMore(recent, true);
      HitsMore(recent, false);
      ghost var before := recent;
      if percentage == 0 {
        ret := variant == Cache;
      } else if random % 100 > percentage {
        if notTaken == 100 - percentage {
          taken := taken + 1;
          ret := true;
        } else {
          notTaken := notTaken + 1;
          ret := false;
        }
      } else {
        if taken == percentage {
          notTaken := notTaken + 1;
          ret := false;
        } else {
          taken := taken + 1;
          ret := true;
        }
      }
      if percentage != 0 && taken + notTaken == 100 {
        taken, notTaken := 0, 0;
      }
      recent := if |before| == 99 then [] else before + [ret];
    }

    /** A run of calls, grouped by hundreds: each full hundred acts exactly as often as the quota says,
        whatever numbers are drawn. */
    method Run(randoms: seq<nat>) returns (hundreds: seq<seq<bool>>, rest: seq<bool>)
      requires Valid() && recent == []
      modifies this
      ensures Valid() && rest == recent && 100 * |hundreds| + |rest| == |randoms|
      ensures forall h | h in hundreds :: |h| == 100 && Hits(h) == Quota(variant, percentage)
    {
      hundreds, rest := [], [];
      for i := 0 to |randoms|
        invariant Valid() && rest == recent && 100 * |hundreds| + |rest| == i
        invariant forall h | h in hundreds :: |h| == 100 && Hits(h) == Quota(variant, percentage)
      {
        var ret := Call(randoms[i]);
        if |rest| == 99 {
          hundreds, rest := hundreds + [rest + [ret]], [];
        } else {
          rest := rest + [ret];
        }
      }
    }
  }

  lemma QuotaListed(percentage: int)
    ensures percentage == 0 ==> Quota(Dram, percentage) == 0 && Quota(Cache, percentage) == 100
    ensures 0 < percentage <= 100 ==> Quota(Dram, percentage) == percentage == Quota(Cache, percentage)
    ensures percentage > 100 ==> Quota(Dram, percentage) == 100 == Quota(Cache, percentage)
    ensures percentage < 0 ==> Quota(Dram, percentage) == 0 == Quota(Cache, percentage)
  {
  }
}
