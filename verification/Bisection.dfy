/** Bisecting offsets by what a probe finds there, for any probe. */
module Bisection {

  /** What a probe at an offset finds: the end of the file, only lines without a time up to
      it, or a time. */
  datatype Probed = Eof | Untimed | Time(value: int)

  /** The ends have met; a probe has run out of lines; or they have met and no probe has ever
      read a time. */
  datatype End = Reached | GaveUp | NeverBound

  /** How a search ended, where, its last probe, and how many there were. */
  datatype Outcome = Outcome(end: End, left: int, last: int, probes: nat)

  type Prober = int -> Probed

  predicate Older(probe: Prober, target: int, off: int) {
    probe(off).Time? && probe(off).value < target
  }

  /** The search between `lo` and `hi`; `bound` once a probe has read a time. */
  function Search(probe: Prober, target: int, lo: int, hi: int, last: int, bound: bool): Outcome
    decreases hi - lo + 1
  {
    if lo > hi then Outcome(if bound then Reached else NeverBound, lo, last, 0)
    else
      var mid := (lo + hi) / 2;
      match probe(mid)
      case Untimed => Outcome(GaveUp, lo, mid, 1)
      case Eof => OneMore(Search(probe, target, lo, mid - 1, mid, bound))
      case Time(time) =>
        OneMore(if time < target then Search(probe, target, mid + 1, hi, mid, true)
                else Search(probe, target, lo, mid - 1, mid, true))
  }

  function OneMore(o: Outcome): Outcome {
    o.(probes := o.probes + 1)
  }

  lemma Middle(lo: int, hi: int)
    requires lo <= hi
    ensures var mid, half := (lo + hi) / 2, (hi - lo + 1) / 2;
            lo <= mid <= hi && mid - lo <= half && hi - mid <= half
  {
  }

  // ----- Where it ends

  /** What the probes next to the two ends have found; `n` is the last offset. */
  ghost predicate Searching(probe: Prober, target: int, n: nat, lo: int, hi: int, last: int, bound: bool) {
    && 0 <= lo <= hi + 1 <= n + 1
    && (lo > 0 ==> Older(probe, target, lo - 1))
    && (hi < n ==> !Older(probe, target, hi + 1) && !probe(hi + 1).Untimed?)
    && (lo > hi ==> last == hi + 1 || (lo > 0 && last == lo - 1))
    && (bound ==> exists off :: 0 <= off <= n && probe(off).Time?)
    && (!bound ==> lo == 0 && (hi < n ==> probe(hi + 1).Eof?))
  }

  /** `left` has been probed and is not older, the offset before it is older, and the last
      probe was at one of the two. */
  ghost predicate Meets(probe: Prober, target: int, n: nat, left: int, last: int) {
    && 0 <= left <= n && !Older(probe, target, left) && !probe(left).Untimed?
    && (left > 0 ==> Older(probe, target, left - 1))
    && (last == left || (left > 0 && last == left - 1))
  }

  ghost predicate Sound(probe: Prober, target: int, n: nat, o: Outcome) {
    match o.end
    case Reached => Meets(probe, target, n, o.left, o.last) && exists off :: 0 <= off <= n && probe(off).Time?
    case GaveUp => 0 <= o.last <= n && probe(o.last).Untimed?
    case NeverBound => probe(0).Eof?
  }

  lemma {:induction false} SearchingLeft(
    probe: Prober, target: int, n: nat, lo: int, hi: int, last: int, bound: bool, mid: int)
    requires Searching(probe, target, n, lo, hi, last, bound) && lo <= mid <= hi
    requires !Older(probe, target, mid) && !probe(mid).Untimed?
    ensures Searching(probe, target, n, lo, mid - 1, mid, bound || probe(mid).Time?)
  {
  }

  lemma {:induction false} SearchingRight(
    probe: Prober, target: int, n: nat, lo: int, hi: int, last: int, bound: bool, mid: int)
    requires Searching(probe, target, n, lo, hi, last, bound) && lo <= mid <= hi && Older(probe, target, mid)
    ensures Searching(probe, target, n, mid + 1, hi, mid, true)
  {
  }

  lemma {:induction false} SearchingOver(
    probe: Prober, target: int, n: nat, lo: int, hi: int, last: int, bound: bool)
    requires !Older(probe, target, n) && Searching(probe, target, n, lo, hi, last, bound) && lo > hi
    ensures Sound(probe, target, n, Outcome(if bound then Reached else NeverBound, lo, last, 0))
  {
  }

  lemma SoundOneMore(probe: Prober, target: int, n: nat, o: Outcome)
    requires Sound(probe, target, n, o)
    ensures Sound(probe, target, n, OneMore(o))
  {
  }

  lemma {:induction false} SearchSound(probe: Prober, target: int, n: nat, lo: int, hi: int, last: int, bound: bool)
    requires !Older(probe, target, n) && Searching(probe, target, n, lo, hi, last, bound)
    ensures Sound(probe, target, n, Search(probe, target, lo, hi, last, bound))
    decreases hi - lo + 1
  {
    if lo > hi {
      SearchingOver(probe, target, n, lo, hi, last, bound);
    } else {
      Middle(lo, hi);
      var mid := (lo + hi) / 2;
      if Older(probe, target, mid) {
        SearchingRight(probe, target, n, lo, hi, last, bound, mid);
        SearchSound(probe, target, n, mid + 1, hi, mid, true);
        SoundOneMore(probe, target, n, Search(probe, target, mid + 1, hi, mid, true));
      } else if !probe(mid).Untimed? {
        var bound' := bound || probe(mid).Time?;
        SearchingLeft(probe, target, n, lo, hi, last, bound, mid);
        SearchSound(probe, target, n, lo, mid - 1, mid, bound');
        SoundOneMore(probe, target, n, Search(probe, target, lo, mid - 1, mid, bound'));
      }
    }
  }

  // ----- How many probes

  /** How often a length can be halved before it is 0. */
  function Halvings(n: nat): nat {
    if n == 0 then 0 else 1 + Halvings(n / 2)
  }

  function Power2(k: nat): nat {
    if k == 0 then 1 else 2 * Power2(k - 1)
  }

  lemma {:induction false} HalvingsMonotone(m: nat, n: nat)
    requires m <= n
    ensures Halvings(m) <= Halvings(n)
  {
    if m > 0 {
      HalvingsMonotone(m / 2, n / 2);
    }
  }

  lemma {:induction false} HalvingsLogarithmic(n: nat)
    requires n > 0
    ensures Power2(Halvings(n)) <= 2 * n
  {
    if n > 1 {
      HalvingsLogarithmic(n / 2);
    }
  }

  lemma {:induction false} Power2Monotone(j: nat, k: nat)
    requires j <= k
    ensures Power2(j) <= Power2(k)
  {
    if j < k {
      Power2Monotone(j, k - 1);
    }
  }

  lemma HalvingsStep(lo: int, hi: int)
    requires lo <= hi
    ensures var mid := (lo + hi) / 2;
            && lo <= mid <= hi
            && Halvings(mid - lo) < Halvings(hi - lo + 1) && Halvings(hi - mid) < Halvings(hi - lo + 1)
  {
    Middle(lo, hi);
    HalvingsMonotone((lo + hi) / 2 - lo, (hi - lo + 1) / 2);
    HalvingsMonotone(hi - (lo + hi) / 2, (hi - lo + 1) / 2);
  }

  lemma {:induction false} SearchProbes(probe: Prober, target: int, lo: int, hi: int, last: int, bound: bool)
    requires lo <= hi + 1
    ensures Search(probe, target, lo, hi, last, bound).probes <= Halvings(hi - lo + 1)
    decreases hi - lo + 1
  {
    if lo <= hi {
      HalvingsStep(lo, hi);
      var mid := (lo + hi) / 2;
      if Older(probe, target, mid) {
        SearchProbes(probe, target, mid + 1, hi, mid, true);
      } else {
        SearchProbes(probe, target, lo, mid - 1, mid, bound || probe(mid).Time?);
      }
    }
  }

  /** Twice as many offsets cost one more probe. */
  lemma SearchIsLogarithmic(probe: Prober, target: int, n: nat)
    ensures Power2(Search(probe, target, 0, n, 0, false).probes) <= 2 * (n + 1)
  {
    SearchProbes(probe, target, 0, n, 0, false);
    HalvingsLogarithmic(n + 1);
    Power2Monotone(Search(probe, target, 0, n, 0, false).probes, Halvings(n + 1));
  }

  // ----- Whether it gives up

  /** Older up to `first`, untimed from `untimed` to before `end`. */
  ghost predicate Marks(probe: Prober, target: int, n: nat, first: int, untimed: int, end: int) {
    && (forall off :: 0 <= off <= n ==> (Older(probe, target, off) <==> off < first))
    && (forall off :: 0 <= off <= n ==> (probe(off).Untimed? <==> untimed <= off < end))
  }

  /** Halving the offsets from `lo` to `hi` towards `first` never stops from `untimed` to
      before `end`. */
  predicate Lands(lo: int, hi: int, first: int, untimed: int, end: int)
    decreases hi - lo + 1
  {
    lo > hi ||
    var mid := (lo + hi) / 2;
    && !(untimed <= mid < end)
    && if mid < first then Lands(mid + 1, hi, first, untimed, end) else Lands(lo, mid - 1, first, untimed, end)
  }

  /** The three offsets alone decide whether the search gives up. */
  lemma {:induction false} SearchLands(
    probe: Prober, target: int, n: nat, lo: int, hi: int, last: int, bound: bool, first: int, untimed: int, end: int)
    requires 0 <= lo && hi <= n && Marks(probe, target, n, first, untimed, end)
    ensures Search(probe, target, lo, hi, last, bound).end.GaveUp? <==> !Lands(lo, hi, first, untimed, end)
    decreases hi - lo + 1
  {
    if lo <= hi {
      Middle(lo, hi);
      var mid := (lo + hi) / 2;
      assert Older(probe, target, mid) <==> mid < first;
      match probe(mid)
      case Untimed =>
      case Eof => SearchLands(probe, target, n, lo, mid - 1, mid, bound, first, untimed, end);
      case Time(time) =>
        if time < target {
          SearchLands(probe, target, n, mid + 1, hi, mid, true, first, untimed, end);
        } else {
          SearchLands(probe, target, n, lo, mid - 1, mid, true, first, untimed, end);
        }
    }
  }

  lemma {:induction false} LandsBelow(lo: int, hi: int, first: int, untimed: int, end: int)
    requires hi < untimed
    ensures Lands(lo, hi, first, untimed, end)
    decreases hi - lo + 1
  {
    if lo <= hi {
      Middle(lo, hi);
      var mid := (lo + hi) / 2;
      if mid < first {
        LandsBelow(mid + 1, hi, first, untimed, end);
      } else {
        LandsBelow(lo, mid - 1, first, untimed, end);
      }
    }
  }

  /** The first offset halved to is the middle. */
  lemma LandsMiddle(n: nat, first: int, untimed: int, end: int)
    ensures first <= n / 2 < untimed ==> Lands(0, n, first, untimed, end)
    ensures untimed <= n / 2 < end ==> !Lands(0, n, first, untimed, end)
  {
    if first <= n / 2 < untimed {
      LandsBelow(0, n / 2 - 1, first, untimed, end);
    }
  }
}
