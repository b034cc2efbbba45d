/** `open_system_log`: bisecting a log by byte offset for the first line at or after a
    time, against a linear scan of its lines. */
module LogSearch {
  import opened Basics
  import opened Bisection

  /** The time at the start of a line, when it parses. */
  type Stamp = string -> Option<int>

  // ----- Lines

  /** Where a `readline` that starts at `pos` stops. */
  function LineEnd(log: string, pos: nat): (e: nat)
    requires pos <= |log|
    ensures pos <= e <= |log|
    ensures pos < |log| ==> pos < e
    ensures e < |log| ==> 0 < e && log[e - 1] == '\n'
    ensures forall i :: pos <= i < e - 1 ==> log[i] != '\n'
    decreases |log| - pos
  {
    if pos == |log| then pos
    else if log[pos] == '\n' then pos + 1
    else LineEnd(log, pos + 1)
  }

  predicate LineStart(log: string, p: nat) {
    p <= |log| && (p == 0 || p == |log| || log[p - 1] == '\n')
  }

  function TimeAt(log: string, stamp: Stamp, p: nat): Option<int>
    requires p <= |log|
  {
    if p == |log| then None else stamp(log[p..LineEnd(log, p)])
  }

  /** The first line at or after `p` that carries a time; |log| when there is none. */
  function NextStamped(log: string, stamp: Stamp, p: nat): (q: nat)
    requires p <= |log|
    ensures p <= q <= |log|
    ensures q < |log| ==> TimeAt(log, stamp, q).Some?
    decreases |log| - p
  {
    if p == |log| || TimeAt(log, stamp, p).Some? then p else NextStamped(log, stamp, LineEnd(log, p))
  }

  /** The first line at or after `p` whose time is not before `target`. */
  function LinearScan(log: string, stamp: Stamp, target: int, p: nat): (q: nat)
    requires p <= |log|
    ensures p <= q <= |log|
    decreases |log| - p
  {
    if p == |log| || (TimeAt(log, stamp, p).Some? && TimeAt(log, stamp, p).value >= target) then p
    else LinearScan(log, stamp, target, LineEnd(log, p))
  }

  lemma {:induction false} LineEndMonotone(log: string, a: nat, b: nat)
    requires a <= b <= |log|
    ensures LineEnd(log, a) <= LineEnd(log, b)
    ensures b < LineEnd(log, a) ==> LineEnd(log, b) == LineEnd(log, a)
    decreases |log| - a
  {
    if a < b && log[a] != '\n' {
      LineEndMonotone(log, a + 1, b);
    }
  }

  /** A line does not run over the start of a later one. */
  lemma {:induction false} LineEndStops(log: string, a: nat, b: nat)
    requires a < b <= |log| && LineStart(log, b)
    ensures LineEnd(log, a) <= b
    decreases b - a
  {
    if log[a] != '\n' {
      if a + 1 == b {
        assert b == |log|;
      } else {
        LineEndStops(log, a + 1, b);
      }
    }
  }

  lemma {:induction false} NextStampedMonotone(log: string, stamp: Stamp, a: nat, b: nat)
    requires a <= b <= |log| && LineStart(log, a) && LineStart(log, b)
    ensures NextStamped(log, stamp, a) <= NextStamped(log, stamp, b)
    decreases |log| - a
  {
    if a < b && TimeAt(log, stamp, a).None? {
      LineEndStops(log, a, b);
      NextStampedMonotone(log, stamp, LineEnd(log, a), b);
    }
  }

  lemma {:induction false} NextStampedStart(log: string, stamp: Stamp, p: nat)
    requires p <= |log| && LineStart(log, p)
    ensures LineStart(log, NextStamped(log, stamp, p))
    decreases |log| - p
  {
    if p < |log| && TimeAt(log, stamp, p).None? {
      NextStampedStart(log, stamp, LineEnd(log, p));
    }
  }

  // ----- Logs the search is meant for

  /** Times never go back. */
  ghost predicate Nondecreasing(log: string, stamp: Stamp) {
    forall a: nat, b: nat :: a <= b <= |log| && LineStart(log, a) && LineStart(log, b)
      && TimeAt(log, stamp, a).Some? && TimeAt(log, stamp, b).Some?
      ==> TimeAt(log, stamp, a).value <= TimeAt(log, stamp, b).value
  }

  /** From some line after the first on, no line has a time. */
  ghost predicate UntimedTail(log: string, stamp: Stamp) {
    exists p: nat :: UntimedFrom(log, stamp, p)
  }

  ghost predicate UntimedFrom(log: string, stamp: Stamp, p: nat) {
    0 < p < |log| && LineStart(log, p) && NextStamped(log, stamp, p) == |log|
  }

  // ----- The probe

  /** The line a probe at `off` judges: the first with a time after the line `off` is in. */
  function Judged(log: string, stamp: Stamp, off: nat): (q: nat)
    requires off <= |log|
    ensures q <= |log|
    ensures q < |log| ==> TimeAt(log, stamp, q).Some?
  {
    NextStamped(log, stamp, LineEnd(log, off))
  }

  /** The probe at `off` sends the search to the right. */
  predicate Older(log: string, stamp: Stamp, target: int, off: nat)
    requires off <= |log|
  {
    var q := Judged(log, stamp, off);
    q < |log| && TimeAt(log, stamp, q).value < target
  }

  lemma JudgedMonotone(log: string, stamp: Stamp, a: nat, b: nat)
    requires a <= b <= |log|
    ensures Judged(log, stamp, a) <= Judged(log, stamp, b)
    ensures LineStart(log, Judged(log, stamp, a)) && LineStart(log, Judged(log, stamp, b))
  {
    LineEndMonotone(log, a, b);
    NextStampedMonotone(log, stamp, LineEnd(log, a), LineEnd(log, b));
    NextStampedStart(log, stamp, LineEnd(log, a));
    NextStampedStart(log, stamp, LineEnd(log, b));
  }

  lemma OlderMonotone(log: string, stamp: Stamp, target: int, a: nat, b: nat)
    requires Nondecreasing(log, stamp) && a <= b <= |log| && Older(log, stamp, target, b)
    ensures Older(log, stamp, target, a)
  {
    JudgedMonotone(log, stamp, a, b);
  }

  function ProbeResult(log: string, stamp: Stamp, off: nat): Probed
    requires off <= |log|
  {
    if LineEnd(log, off) == |log| then Eof
    else if Judged(log, stamp, off) == |log| then Untimed
    else Time(TimeAt(log, stamp, Judged(log, stamp, off)).value)
  }

  /** Where the file position is left by a probe. */
  function ProbeEnd(log: string, stamp: Stamp, off: nat): (p: nat)
    requires off <= |log|
    ensures p <= |log|
  {
    LineEnd(log, Judged(log, stamp, off))
  }

  /** Seek, skip the rest of the line, read lines until one parses. */
  method Probe(log: string, stamp: Stamp, mid: nat) returns (r: Probed, pos: nat)
    requires mid <= |log|
    ensures r == ProbeResult(log, stamp, mid) && pos == ProbeEnd(log, stamp, mid)
  {
    pos := LineEnd(log, mid);
    if pos == |log| {
      return Eof, pos;
    }
    var start := pos;
    pos := LineEnd(log, start);
    while stamp(log[start..pos]).None?
      invariant start < |log| && pos == LineEnd(log, start)
      invariant NextStamped(log, stamp, start) == Judged(log, stamp, mid)
      decreases |log| - start
    {
      start := pos;
      if start == |log| {
        return Untimed, pos;
      }
      pos := LineEnd(log, start);
    }
    r := Time(stamp(log[start..pos]).value);
  }

  /** What the context manager does: hands out the file at a position, ends without handing
      it out, or fails on a variable no probe has set. */
  datatype Opened = Handle(pos: nat) | NotYielded | Unbound

  /** `left` is the least offset whose probe does not find an older line. */
  ghost predicate Boundary(log: string, stamp: Stamp, target: int, left: nat) {
    && left <= |log| && !Older(log, stamp, target, left)
    && forall off: nat :: off < left ==> Older(log, stamp, target, off)
  }

  /** The last probe was at the boundary, or just before it on an older line. */
  ghost predicate LastProbe(log: string, stamp: Stamp, target: int, left: int, last: int) {
    && 0 <= last <= |log|
    && last == if Older(log, stamp, target, last) then left - 1 else left
  }

  lemma ProbeOlder(log: string, stamp: Stamp, target: int, off: nat)
    requires off <= |log|
    ensures ProbeResult(log, stamp, off).Time? ==>
              (ProbeResult(log, stamp, off).value < target <==> Older(log, stamp, target, off))
    ensures !ProbeResult(log, stamp, off).Time? ==> !Older(log, stamp, target, off)
    ensures ProbeResult(log, stamp, off) == Eof ==> ProbeEnd(log, stamp, off) == |log|
    ensures LineEnd(log, 0) == |log| ==> ProbeResult(log, stamp, off) == Eof
    ensures ProbeResult(log, stamp, off).Untimed? ==> UntimedTail(log, stamp)
    ensures Older(log, stamp, target, off) ==> off < |log|
  {
    LineEndMonotone(log, 0, off);
    if ProbeResult(log, stamp, off).Untimed? {
      assert UntimedFrom(log, stamp, LineEnd(log, off));
    }
  }

  /** A probe at this offset does not run out of lines looking for a time. */
  ghost predicate Judges(log: string, stamp: Stamp, off: int) {
    0 <= off <= |log| && !ProbeResult(log, stamp, off).Untimed?
  }

  /** The log has a second line. */
  predicate TwoLines(log: string) {
    LineEnd(log, 0) < |log|
  }

  /** The probe of a log, as the bisection sees it. */
  ghost function ProbeOf(log: string, stamp: Stamp): Prober {
    (off: int) => if 0 <= off <= |log| then ProbeResult(log, stamp, off) else Eof
  }

  ghost function Searched(log: string, stamp: Stamp, target: int): Outcome {
    Search(ProbeOf(log, stamp), target, 0, |log|, 0, false)
  }

  /** What is handed out after a search that ended like this. */
  ghost predicate Opens(log: string, stamp: Stamp, o: Outcome, r: Opened) {
    match r
    case Handle(pos) => o.end.Reached? && 0 <= o.last <= |log| && pos == ProbeEnd(log, stamp, o.last)
    case NotYielded => o.end.GaveUp?
    case Unbound => o.end.NeverBound?
  }

  /** `probe` and `ends` are what a probe of the log returns. */
  ghost predicate Models(log: string, stamp: Stamp, probe: Prober, ends: int -> int) {
    && (forall off {:trigger ProbeResult(log, stamp, off)} ::
          0 <= off <= |log| ==> probe(off) == ProbeResult(log, stamp, off))
    && (forall off {:trigger ProbeEnd(log, stamp, off)} ::
          0 <= off <= |log| ==> ends(off) == ProbeEnd(log, stamp, off))
  }

  method ProbeAt(log: string, stamp: Stamp, mid: int, ghost probe: Prober, ghost ends: int -> int)
    returns (r: Probed, pos: int)
    requires Models(log, stamp, probe, ends) && 0 <= mid <= |log|
    ensures r == probe(mid) && pos == ends(mid)
  {
    r, pos := Probe(log, stamp, mid);
  }

  /** The loop, against the search that knows only what its probes return. */
  method Loop(log: string, stamp: Stamp, target: int, ghost probe: Prober, ghost ends: int -> int)
    returns (yielded: bool, bound: bool, pos: int, ghost probes: nat)
    requires Models(log, stamp, probe, ends)
    ensures probes == Search(probe, target, 0, |log|, 0, false).probes
    ensures var o := Search(probe, target, 0, |log|, 0, false);
            && (!yielded <==> o.end.GaveUp?)
            && (yielded ==> (bound <==> o.end.Reached?))
            && (yielded && bound ==> 0 <= o.last <= |log| && pos == ends(o.last))
  {
    var lo: int, hi: int := 0, |log|;
    yielded, bound, pos, probes := true, false, 0, 0;
    ghost var last: int := 0;
    while lo <= hi
      invariant 0 <= lo && hi <= |log| && 0 <= last <= |log|
      invariant bound && lo > hi ==> pos == ends(last)
      invariant Continues(Search(probe, target, lo, hi, last, bound), probes, Search(probe, target, 0, |log|, 0, false))
      decreases hi - lo + 1
    {
      var mid := (lo + hi) / 2;
      var probed;
      probed, pos := ProbeAt(log, stamp, mid, probe, ends);
      last, probes := mid, probes + 1;
      if probed.Eof? {
        hi := mid - 1;
        continue;
      }
      if probed.Untimed? {
        yielded := false;
        return;
      }
      bound := true;
      if probed.value < target {
        lo := mid + 1;
      } else {
        hi := mid - 1;
      }
    }
  }

  ghost function EndOf(log: string, stamp: Stamp): int -> int {
    (off: int) => if 0 <= off <= |log| then ProbeEnd(log, stamp, off) else 0
  }

  /** The bisection. */
  method Bisect(log: string, stamp: Stamp, target: int) returns (r: Opened, ghost probes: nat)
    ensures Opens(log, stamp, Searched(log, stamp, target), r)
    ensures probes == Searched(log, stamp, target).probes && Power2(probes) <= 2 * (|log| + 1)
  {
    SearchIsLogarithmic(ProbeOf(log, stamp), target, |log|);
    var yielded, bound, pos;
    yielded, bound, pos, probes := Loop(log, stamp, target, ProbeOf(log, stamp), EndOf(log, stamp));
    r := if !yielded then NotYielded else if bound then Handle(pos) else Unbound;
  }

  /** After some probes, `rest` is how the search goes on. */
  ghost predicate Continues(rest: Outcome, probes: nat, whole: Outcome) {
    rest.end == whole.end && rest.last == whole.last && probes + rest.probes == whole.probes
  }

  // ----- What the search finds

  /** What a finished search says of the log. */
  lemma SearchedLog(log: string, stamp: Stamp, target: int)
    ensures var o := Searched(log, stamp, target);
            && (o.end.NeverBound? <==> !TwoLines(log))
            && (o.end.GaveUp? ==> UntimedTail(log, stamp))
            && (o.end.Reached? ==>
                  && Judges(log, stamp, o.left) && LastProbe(log, stamp, target, o.left, o.last)
                  && (Nondecreasing(log, stamp) ==> Boundary(log, stamp, target, o.left)))
  {
    var o, probe := Searched(log, stamp, target), ProbeOf(log, stamp);
    ProbeOlder(log, stamp, target, |log|);
    SearchSound(probe, target, |log|, 0, |log|, 0, false);
    ProbeOlder(log, stamp, target, 0);
    match o.end
    case NeverBound =>
    case GaveUp => ProbeOlder(log, stamp, target, o.last);
    case Reached =>
      var off :| 0 <= off <= |log| && probe(off).Time?;
      ProbeOlder(log, stamp, target, off);
      SearchMeets(log, stamp, target, o.left, o.last);
  }

  lemma ProbeAgrees(log: string, stamp: Stamp, target: int, off: nat)
    requires off <= |log|
    ensures Bisection.Older(ProbeOf(log, stamp), target, off) <==> Older(log, stamp, target, off)
    ensures ProbeOf(log, stamp)(off).Untimed? <==> ProbeResult(log, stamp, off).Untimed?
  {
    ProbeOlder(log, stamp, target, off);
  }

  lemma {:induction false} BoundaryAt(log: string, stamp: Stamp, target: int, left: nat)
    requires Nondecreasing(log, stamp) && left <= |log| && !Older(log, stamp, target, left)
    requires left > 0 ==> Older(log, stamp, target, left - 1)
    ensures Boundary(log, stamp, target, left)
  {
    forall off: nat | off < left ensures Older(log, stamp, target, off) {
      OlderMonotone(log, stamp, target, off, left - 1);
    }
  }

  lemma {:induction false} SearchMeets(log: string, stamp: Stamp, target: int, left: int, last: int)
    requires Meets(ProbeOf(log, stamp), target, |log|, left, last)
    ensures Judges(log, stamp, left) && LastProbe(log, stamp, target, left, last)
    ensures Nondecreasing(log, stamp) ==> Boundary(log, stamp, target, left)
  {
    ProbeAgrees(log, stamp, target, left);
    if left > 0 {
      ProbeAgrees(log, stamp, target, left - 1);
    }
    if Nondecreasing(log, stamp) {
      BoundaryAt(log, stamp, target, left);
    }
  }

  // ----- Whether a handle is given out

  /** Three offsets decide a search: the first whose probe finds no older line, the first
      after which no line has a time, and the first on the last line. */
  ghost predicate LogMarks(log: string, stamp: Stamp, target: int, first: nat, untimed: nat, end: nat) {
    && Boundary(log, stamp, target, first)
    && (forall off: nat :: off <= |log| ==> (off < untimed <==> Judged(log, stamp, off) < |log|))
    && (forall off: nat :: off <= |log| ==> (off < end <==> LineEnd(log, off) < |log|))
  }

  lemma LogMarked(log: string, stamp: Stamp, target: int, first: nat, untimed: nat, end: nat)
    requires Nondecreasing(log, stamp) && LogMarks(log, stamp, target, first, untimed, end)
    ensures Marks(ProbeOf(log, stamp), target, |log|, first, untimed, end)
  {
    var probe := ProbeOf(log, stamp);
    forall off | 0 <= off <= |log|
      ensures Bisection.Older(probe, target, off) <==> off < first
      ensures probe(off).Untimed? <==> untimed <= off < end
    {
      ProbeAgrees(log, stamp, target, off);
      if Older(log, stamp, target, off) && off >= first {
        OlderMonotone(log, stamp, target, first, off);
      }
    }
  }

  /** On a sorted log, whether the halving towards the first offset without an older line
      avoids the untimed end. */
  lemma SearchedLands(log: string, stamp: Stamp, target: int, first: nat, untimed: nat, end: nat)
    requires Nondecreasing(log, stamp) && LogMarks(log, stamp, target, first, untimed, end)
    ensures Searched(log, stamp, target).end.GaveUp? <==> !Lands(0, |log|, first, untimed, end)
  {
    LogMarked(log, stamp, target, first, untimed, end);
    SearchLands(ProbeOf(log, stamp), target, |log|, 0, |log|, 0, false, first, untimed, end);
  }

  // ----- Where the handle ends up

  /** Every line with a time from `pos` on is at or after the target. */
  ghost predicate PastOlder(log: string, stamp: Stamp, target: int, pos: nat) {
    forall p: nat :: pos <= p < |log| && LineStart(log, p) && TimeAt(log, stamp, p).Some? ==>
      TimeAt(log, stamp, p).value >= target
  }

  /** Compared with a linear scan, which stops before the first matching line: the handle is
      there (or on untimed lines just before it), or one matching line further, or two when
      the very first line of the log matches. */
  ghost predicate NearLinear(log: string, stamp: Stamp, target: int, pos: nat) {
    var first := LinearScan(log, stamp, target, 0);
    && pos <= |log|
    && (|| (LineStart(log, pos) && NextStamped(log, stamp, pos) == first)
        || pos == LineEnd(log, first)
        || (first == 0 && pos == LineEnd(log, NextStamped(log, stamp, LineEnd(log, 0)))))
  }

  ghost predicate Matches(log: string, stamp: Stamp, target: int, q: nat) {
    && q <= |log| && LineStart(log, q)
    && (q < |log| ==> TimeAt(log, stamp, q).Some? && TimeAt(log, stamp, q).value >= target)
  }

  lemma {:induction false} ScanFinds(log: string, stamp: Stamp, target: int, p: nat, q: nat)
    requires p <= q && LineStart(log, p) && Matches(log, stamp, target, q)
    requires forall x: nat :: p <= x < q && LineStart(log, x) && TimeAt(log, stamp, x).Some? ==>
               TimeAt(log, stamp, x).value < target
    ensures LinearScan(log, stamp, target, p) == q
    decreases |log| - p
  {
    if p < q {
      LineEndStops(log, p, q);
      ScanFinds(log, stamp, target, LineEnd(log, p), q);
    }
  }

  /** No line between `p` and the next one with a time has a time. */
  lemma UntimedBetween(log: string, stamp: Stamp, p: nat, x: nat)
    requires LineStart(log, p) && LineStart(log, x) && p <= x < NextStamped(log, stamp, p)
    ensures TimeAt(log, stamp, x).None?
  {
    NextStampedMonotone(log, stamp, p, x);
  }

  /** A boundary past the first offset is itself the start of the last older line. */
  lemma BoundaryIsOlderLine(log: string, stamp: Stamp, target: int, left: nat)
    requires 0 < left && Boundary(log, stamp, target, left)
    ensures left < |log| && LineStart(log, left) && Judged(log, stamp, left - 1) == left
    ensures TimeAt(log, stamp, left).Some? && TimeAt(log, stamp, left).value < target
  {
    assert Older(log, stamp, target, left - 1);
    LineEndMonotone(log, left - 1, left);
    assert LineEnd(log, left - 1) == left;
  }

  lemma BoundaryFirst(log: string, stamp: Stamp, target: int, left: nat)
    requires Nondecreasing(log, stamp) && 0 < left && Boundary(log, stamp, target, left)
    ensures LinearScan(log, stamp, target, 0) == Judged(log, stamp, left)
    ensures Matches(log, stamp, target, Judged(log, stamp, left))
  {
    BoundaryIsOlderLine(log, stamp, target, left);
    var q, next := Judged(log, stamp, left), LineEnd(log, left);
    NextStampedStart(log, stamp, next);
    forall x: nat | x < q && LineStart(log, x) && TimeAt(log, stamp, x).Some?
      ensures TimeAt(log, stamp, x).value < target
    {
      if x > left {
        LineEndStops(log, left, x);
        UntimedBetween(log, stamp, next, x);
      }
    }
    ScanFinds(log, stamp, target, 0, q);
  }

  lemma StartFirst(log: string, stamp: Stamp, target: int)
    requires Boundary(log, stamp, target, 0) && LineEnd(log, 0) < |log|
    ensures Matches(log, stamp, target, Judged(log, stamp, 0))
    ensures LinearScan(log, stamp, target, 0) == 0 || LinearScan(log, stamp, target, 0) == Judged(log, stamp, 0)
  {
    var q, next := Judged(log, stamp, 0), LineEnd(log, 0);
    NextStampedStart(log, stamp, next);
    if LinearScan(log, stamp, target, 0) != 0 {
      forall x: nat | x < q && LineStart(log, x) && TimeAt(log, stamp, x).Some?
        ensures TimeAt(log, stamp, x).value < target
      {
        if x > 0 {
          LineEndStops(log, 0, x);
          UntimedBetween(log, stamp, next, x);
        }
      }
      ScanFinds(log, stamp, target, 0, q);
    }
  }

  /** Once past a line whose successor with a time matches, nothing older is ahead. */
  lemma AheadMatches(log: string, stamp: Stamp, target: int, pos: nat)
    requires Nondecreasing(log, stamp) && LineStart(log, pos)
    requires Matches(log, stamp, target, NextStamped(log, stamp, pos))
    ensures PastOlder(log, stamp, target, pos)
  {
    forall p: nat | pos <= p < |log| && LineStart(log, p) && TimeAt(log, stamp, p).Some?
      ensures TimeAt(log, stamp, p).value >= target
    {
      NextStampedMonotone(log, stamp, pos, p);
    }
  }

  lemma BoundaryLands(log: string, stamp: Stamp, target: int, left: nat, last: nat)
    requires Nondecreasing(log, stamp) && LineEnd(log, 0) < |log|
    requires Boundary(log, stamp, target, left) && LastProbe(log, stamp, target, left, last)
    ensures PastOlder(log, stamp, target, ProbeEnd(log, stamp, last))
    ensures NearLinear(log, stamp, target, ProbeEnd(log, stamp, last))
  {
    if left == 0 {
      StartFirst(log, stamp, target);
    } else {
      BoundaryFirst(log, stamp, target, left);
      if last == left {
      } else {
        BoundaryIsOlderLine(log, stamp, target, left);
        AheadMatches(log, stamp, target, LineEnd(log, left));
      }
    }
  }

  /** When every time is before the target and the log ends untimed, the boundary lies on a
      line after which a probe finds nothing but untimed lines. */
  lemma BoundaryUntimed(log: string, stamp: Stamp, target: int, left: nat)
    requires Nondecreasing(log, stamp) && UntimedTail(log, stamp) && Boundary(log, stamp, target, left)
    requires LinearScan(log, stamp, target, 0) == |log|
    ensures ProbeResult(log, stamp, left).Untimed?
  {
    var p: nat :| UntimedFrom(log, stamp, p);
    LineEndStops(log, 0, p);
    if left == 0 {
      StartFirst(log, stamp, target);
    } else {
      BoundaryIsOlderLine(log, stamp, target, left);
      BoundaryFirst(log, stamp, target, left);
      if p <= left {
        NextStampedMonotone(log, stamp, p, left);
      }
      LineEndStops(log, left, p);
    }
  }

  // ----- The three offsets

  lemma {:induction false} Least(p: int -> bool, n: nat) returns (m: nat)
    requires p(n)
    ensures m <= n && p(m) && forall k: nat :: k < m ==> !p(k)
  {
    if k: nat :| k < n && p(k) {
      m := Least(p, k);
    } else {
      m := n;
    }
  }

  lemma FirstUntimed(log: string, stamp: Stamp) returns (m: nat)
    ensures m <= |log| && forall off: nat :: off <= |log| ==> (off < m <==> Judged(log, stamp, off) < |log|)
  {
    var p := (off: int) => 0 <= off <= |log| && Judged(log, stamp, off) == |log|;
    m := Least(p, |log|);
    forall off: nat | off <= |log| ensures off < m <==> Judged(log, stamp, off) < |log| {
      assert off < m ==> !p(off);
      if m <= off {
        JudgedMonotone(log, stamp, m, off);
      }
    }
  }

  lemma FirstOnLastLine(log: string) returns (m: nat)
    ensures m <= |log| && forall off: nat :: off <= |log| ==> (off < m <==> LineEnd(log, off) < |log|)
  {
    var p := (off: int) => 0 <= off <= |log| && LineEnd(log, off) == |log|;
    m := Least(p, |log|);
    forall off: nat | off <= |log| ensures off < m <==> LineEnd(log, off) < |log| {
      assert off < m ==> !p(off);
      if m <= off {
        LineEndMonotone(log, m, off);
      }
    }
  }

  lemma FirstNotOlder(log: string, stamp: Stamp, target: int) returns (m: nat)
    ensures Boundary(log, stamp, target, m)
  {
    var p := (off: int) => 0 <= off <= |log| && !Older(log, stamp, target, off);
    ProbeOlder(log, stamp, target, |log|);
    m := Least(p, |log|);
    forall off: nat | off < m ensures Older(log, stamp, target, off) {
      assert !p(off);
    }
  }

  /** Every log has them. */
  lemma MarksExist(log: string, stamp: Stamp, target: int) returns (first: nat, untimed: nat, end: nat)
    ensures LogMarks(log, stamp, target, first, untimed, end)
  {
    first := FirstNotOlder(log, stamp, target);
    untimed := FirstUntimed(log, stamp);
    end := FirstOnLastLine(log);
  }

  lemma MarkedProbe(log: string, stamp: Stamp, target: int, first: nat, untimed: nat, end: nat, off: nat)
    requires LogMarks(log, stamp, target, first, untimed, end) && off <= |log|
    ensures var q := Judged(log, stamp, off);
            && (q < |log| && TimeAt(log, stamp, q).value >= target ==> first <= off < untimed)
            && (q == |log| && LineEnd(log, off) < |log| ==> untimed <= off < end)
  {
    assert off < first ==> Older(log, stamp, target, off);
  }

  /** The first probe is in the middle: a matching line after it settles that there will be a
      handle, and untimed lines up to the end that there will be none. */
  lemma {:induction false} MiddleDecides(log: string, stamp: Stamp, target: int, mid: nat)
    requires Nondecreasing(log, stamp) && mid == |log| / 2
    ensures var q, gaveUp := Judged(log, stamp, mid), Searched(log, stamp, target).end.GaveUp?;
            && (q < |log| && TimeAt(log, stamp, q).value >= target ==> !gaveUp)
            && (q == |log| && LineEnd(log, mid) < |log| ==> gaveUp)
  {
    var first, untimed, end := MarksExist(log, stamp, target);
    SearchedLands(log, stamp, target, first, untimed, end);
    MarkedProbe(log, stamp, target, first, untimed, end, mid);
    LandsMiddle(|log|, first, untimed, end);
  }

  // ----- open_system_log

  /** A handle given out on a sorted log is past every older line and near where a linear scan
      stops. */
  lemma HandlePlaced(log: string, stamp: Stamp, target: int)
    requires Nondecreasing(log, stamp) && Searched(log, stamp, target).end.Reached?
    ensures var last := Searched(log, stamp, target).last;
            && 0 <= last <= |log| && PastOlder(log, stamp, target, ProbeEnd(log, stamp, last))
            && NearLinear(log, stamp, target, ProbeEnd(log, stamp, last))
  {
    var o := Searched(log, stamp, target);
    SearchedLog(log, stamp, target);
    BoundaryLands(log, stamp, target, o.left, o.last);
  }

  /** With untimed lines at its end and a target later than all of it, no handle. */
  lemma LateTargetGivesUp(log: string, stamp: Stamp, target: int)
    requires Nondecreasing(log, stamp) && UntimedTail(log, stamp)
    requires LinearScan(log, stamp, target, 0) == |log|
    ensures Searched(log, stamp, target).end.GaveUp?
  {
    var o := Searched(log, stamp, target);
    SearchedLog(log, stamp, target);
    if o.end.Reached? {
      BoundaryUntimed(log, stamp, target, o.left);
    }
  }

  /** What the line judged from the middle of the log settles. */
  ghost predicate MiddleSettles(log: string, stamp: Stamp, target: int, r: Opened) {
    var q := Judged(log, stamp, |log| / 2);
    && (q < |log| && TimeAt(log, stamp, q).value >= target ==> r.Handle?)
    && (q == |log| && LineEnd(log, |log| / 2) < |log| ==> r.NotYielded?)
  }

  lemma {:induction false} MiddleSettled(log: string, stamp: Stamp, target: int, r: Opened)
    requires Nondecreasing(log, stamp) && Opens(log, stamp, Searched(log, stamp, target), r)
    requires r.Unbound? <==> !TwoLines(log)
    ensures MiddleSettles(log, stamp, target, r)
  {
    MiddleDecides(log, stamp, target, |log| / 2);
    LineEndMonotone(log, 0, |log| / 2);
  }

  /** Given out on a sorted log with a second line: a handle if and only if the halving of its
      offsets avoids an untimed end, and so always when the log does not end untimed. The number
      of probes is logarithmic in the length of the log. */
  method OpenSystemLog(log: string, stamp: Stamp, onDatetime: Option<int>) returns (r: Opened, ghost probes: nat)
    ensures onDatetime.None? ==> r == Handle(0)
    ensures onDatetime.Some? ==> (r == Unbound <==> !TwoLines(log))
    ensures onDatetime.Some? && r.NotYielded? ==> UntimedTail(log, stamp)
    ensures onDatetime.Some? && Nondecreasing(log, stamp) ==> Yields(log, stamp, onDatetime.value, r)
    ensures onDatetime.Some? && Nondecreasing(log, stamp) ==> MiddleSettles(log, stamp, onDatetime.value, r)
    ensures onDatetime.Some? && Nondecreasing(log, stamp) && r.Handle? ==>
              PastOlder(log, stamp, onDatetime.value, r.pos) && NearLinear(log, stamp, onDatetime.value, r.pos)
    ensures Power2(probes) <= 2 * (|log| + 1)
  {
    if onDatetime.None? {
      return Handle(0), 0;
    }
    ghost var target := onDatetime.value;
    r, probes := Bisect(log, stamp, onDatetime.value);
    SearchedLog(log, stamp, target);
    if Nondecreasing(log, stamp) {
      Yielded(log, stamp, target, r);
      MiddleSettled(log, stamp, target, r);
      if r.Handle? {
        HandlePlaced(log, stamp, target);
      }
    }
  }

  /** When no handle is given out on a sorted log: exactly when the halving stops in the untimed
      end, and for certain when the log has one and the target is later than all of it. */
  ghost predicate Yields(log: string, stamp: Stamp, target: int, r: Opened) {
    && (forall first: nat, untimed: nat, end: nat :: LogMarks(log, stamp, target, first, untimed, end) ==>
          (r.NotYielded? <==> !Lands(0, |log|, first, untimed, end)))
    && (UntimedTail(log, stamp) && LinearScan(log, stamp, target, 0) == |log| ==> r.NotYielded?)
  }

  lemma {:induction false} Yielded(log: string, stamp: Stamp, target: int, r: Opened)
    requires Nondecreasing(log, stamp) && Opens(log, stamp, Searched(log, stamp, target), r)
    ensures Yields(log, stamp, target, r)
  {
    forall first: nat, untimed: nat, end: nat | LogMarks(log, stamp, target, first, untimed, end)
      ensures r.NotYielded? <==> !Lands(0, |log|, first, untimed, end)
    {
      SearchedLands(log, stamp, target, first, untimed, end);
    }
    if UntimedTail(log, stamp) && LinearScan(log, stamp, target, 0) == |log| {
      LateTargetGivesUp(log, stamp, target);
    }
  }
}
