/** Names of the steps of a gradual-throughput run: a repeated base name gets a running
    number, and the summary keeps one entry per name. */
module Steps {
  import opened Basics

  // ----- Decimal numerals

  function Digit(d: nat): char
    requires d < 10
  {
    ('0' as int + d) as char
  }

  function Decimal(n: nat): string {
    if n < 10 then [Digit(n)] else Decimal(n / 10) + [Digit(n % 10)]
  }

  function Value(s: string): int
  {
    if s == "" then 0 else 10 * Value(s[..|s| - 1]) + (s[|s| - 1] as int - '0' as int)
  }

  lemma {:induction false} DecimalValue(n: nat)
    ensures Value(Decimal(n)) == n && '_' !in Decimal(n)
  {
    if n < 10 {
      assert Decimal(n)[..0] == "";
    } else {
      DecimalValue(n / 10);
      assert Decimal(n)[..|Decimal(n)| - 1] == Decimal(n / 10);
    }
  }

  function Numbered(name: string, k: nat): string {
    name + "_" + Decimal(k)
  }

  /** The last underscore of a numbered name ends its base. */
  lemma NumberedParts(a: string, i: nat)
    ensures var s := Numbered(a, i);
            && |a| < |s| && s[|a|] == '_' && s[..|a|] == a && s[|a| + 1..] == Decimal(i)
            && forall k :: |a| < k < |s| ==> s[k] != '_'
  {
  }

  /** A numbered name can be taken apart again. */
  lemma NumberedInjective(a: string, i: nat, b: string, j: nat)
    requires Numbered(a, i) == Numbered(b, j)
    ensures a == b && i == j
  {
    NumberedParts(a, i);
    NumberedParts(b, j);
    assert |a| == |b|;
    DecimalValue(i);
    DecimalValue(j);
  }

  // ----- Counting

  function Count(names: seq<string>, name: string): nat {
    if names == [] then 0 else Count(names[..|names| - 1], name) + if names[|names| - 1] == name then 1 else 0
  }

  lemma CountAppend(names: seq<string>, x: string, name: string)
    ensures Count(names + [x], name) == Count(names, name) + if x == name then 1 else 0
  {
  }

  lemma {:induction false} CountMonotone(names: seq<string>, i: nat, name: string)
    requires i <= |names|
    ensures Count(names[..i], name) <= Count(names, name)
  {
    if i < |names| {
      CountMonotone(names[..|names| - 1], i, name);
      assert names[..|names| - 1][..i] == names[..i];
    } else {
      assert names[..i] == names;
    }
  }

  /** Which occurrence of its name position `i` is, from 1. */
  function Occurrence(names: seq<string>, i: nat): nat
    requires i < |names|
  {
    Count(names[..i + 1], names[i])
  }

  lemma OccurrenceNext(names: seq<string>, i: nat)
    requires i < |names|
    ensures Occurrence(names, i) == Count(names[..i], names[i]) + 1
  {
    var upTo := names[..i + 1];
    assert upTo[..|upTo| - 1] == names[..i] && upTo[|upTo| - 1] == names[i];
  }

  lemma OccurrenceRange(names: seq<string>, i: nat)
    requires i < |names|
    ensures 1 <= Occurrence(names, i) <= Count(names, names[i])
  {
    OccurrenceNext(names, i);
    CountMonotone(names, i + 1, names[i]);
  }

  lemma OccurrenceIncreases(names: seq<string>, i: nat, j: nat)
    requires i < j < |names| && names[i] == names[j]
    ensures Occurrence(names, i) < Occurrence(names, j)
  {
    OccurrenceNext(names, j);
    CountMonotone(names[..j], i + 1, names[j]);
    assert names[..j][..i + 1] == names[..i + 1];
  }

  lemma {:induction false} OccurrenceExists(names: seq<string>, name: string, k: nat) returns (i: nat)
    requires 1 <= k <= Count(names, name)
    ensures i < |names| && names[i] == name && Occurrence(names, i) == k
  {
    var n := |names| - 1;
    if names[n] == name && Count(names, name) == k {
      i := n;
      assert names[..n + 1] == names;
    } else {
      i := OccurrenceExists(names[..n], name, k);
      assert names[..n][..i + 1] == names[..i + 1];
    }
  }

  // ----- _step_names

  function StepName(names: seq<string>, i: nat): string
    requires i < |names|
  {
    if Count(names, names[i]) > 1 then Numbered(names[i], Occurrence(names, i)) else names[i]
  }

  ghost predicate Counts(seen: map<string, nat>, names: seq<string>) {
    forall name :: Count(names, name) == if name in seen then seen[name] else 0
  }

  method StepNames(names: seq<string>) returns (result: seq<string>)
    ensures result == AllNames(names)
  {
    result := [];
    var seen: map<string, nat> := map[];
    for i := 0 to |names|
      invariant result == AllNames(names)[..i]
      invariant Counts(seen, names[..i])
    {
      var name := names[i];
      assert names[..i + 1] == names[..i] + [name];
      seen := seen[name := (if name in seen then seen[name] else 0) + 1];
      assert seen[name] == Occurrence(names, i);
      if Count(names, name) > 1 {
        result := result + [Numbered(name, seen[name])];
      } else {
        result := result + [name];
      }
    }
  }

  ghost function AllNames(names: seq<string>): seq<string> {
    seq(|names|, i requires 0 <= i < |names| => StepName(names, i))
  }

  /** `u` is used once, and `n` more than once and at least `k` times. */
  ghost predicate OnceAndMore(names: seq<string>, u: string, n: string, k: nat) {
    u in names && n in names && Count(names, u) == 1 && 1 <= k <= Count(names, n) && Count(names, n) > 1
  }

  /** A name used once does not look like a numbered form of a repeated one. */
  ghost predicate NoClash(names: seq<string>) {
    forall u, n, k: nat :: OnceAndMore(names, u, n, k) ==> u != Numbered(n, k)
  }

  /** The same among the first `m` positions only, with the numbers given out there. */
  ghost predicate NoClashUpTo(names: seq<string>, m: nat)
    requires m <= |names|
  {
    forall i, j :: 0 <= i < m && 0 <= j < m && Count(names, names[i]) == 1 && Count(names, names[j]) > 1 ==>
      names[i] != Numbered(names[j], Occurrence(names, j))
  }

  lemma DifferentSteps(names: seq<string>, m: nat, i: nat, j: nat)
    requires i < j < m <= |names| && NoClashUpTo(names, m)
    ensures StepName(names, i) != StepName(names, j)
  {
    OccurrenceRange(names, i);
    OccurrenceRange(names, j);
    if names[i] == names[j] {
      OccurrenceIncreases(names, i, j);
    }
    if Count(names, names[i]) > 1 && Count(names, names[j]) > 1 && StepName(names, i) == StepName(names, j) {
      NumberedInjective(names[i], Occurrence(names, i), names[j], Occurrence(names, j));
    }
  }

  /** The names of the first `m` steps are pairwise distinct exactly when no base name used
      once equals a numbered form given to a repeated one. */
  lemma DistinctUpTo(names: seq<string>, m: nat)
    requires m <= |names|
    ensures Distinct(AllNames(names)[..m]) <==> NoClashUpTo(names, m)
  {
    var steps := AllNames(names)[..m];
    if NoClashUpTo(names, m) {
      forall i, j | 0 <= i < j < m ensures steps[i] != steps[j] {
        DifferentSteps(names, m, i, j);
      }
    }
    if Distinct(steps) {
      forall i, j | 0 <= i < m && 0 <= j < m && Count(names, names[i]) == 1 && Count(names, names[j]) > 1
        ensures names[i] != Numbered(names[j], Occurrence(names, j))
      {
        assert steps[i] == names[i] && steps[j] == Numbered(names[j], Occurrence(names, j));
      }
    }
  }

  /** Every number up to the count is given out. */
  lemma ClashPositions(names: seq<string>)
    ensures NoClash(names) <==> NoClashUpTo(names, |names|)
  {
    if NoClashUpTo(names, |names|) {
      forall u, n, k: nat | OnceAndMore(names, u, n, k) ensures u != Numbered(n, k) {
        var i :| 0 <= i < |names| && names[i] == u;
        var j := OccurrenceExists(names, n, k);
      }
    }
    if NoClash(names) {
      forall i, j | 0 <= i < |names| && 0 <= j < |names| && Count(names, names[i]) == 1 && Count(names, names[j]) > 1
        ensures names[i] != Numbered(names[j], Occurrence(names, j))
      {
        OccurrenceRange(names, j);
        assert OnceAndMore(names, names[i], names[j], Occurrence(names, j));
      }
    }
  }

  /** All generated names are pairwise distinct exactly when nothing clashes. */
  lemma DistinctIffNoClash(names: seq<string>)
    ensures Distinct(AllNames(names)) <==> NoClash(names)
  {
    DistinctUpTo(names, |names|);
    ClashPositions(names);
    assert AllNames(names)[..|names|] == AllNames(names);
  }

  // ----- The steps of a workload

  function Min(a: nat, b: nat): nat {
    if a <= b then a else b
  }

  /** One thread count given for several steps is repeated for each. */
  function ThreadsPerStep(steps: nat, threads: seq<nat>): seq<nat> {
    if |threads| == 1 && steps > 1 then seq(steps, _ => threads[0]) else threads
  }

  /** One count serves all steps; several are taken as they are. */
  lemma ThreadsRepeated(steps: nat, threads: seq<nat>)
    ensures |threads| == 1 ==> |ThreadsPerStep(steps, threads)| >= steps
    ensures |threads| == 1 ==>
              forall i :: 0 <= i < |ThreadsPerStep(steps, threads)| ==> ThreadsPerStep(steps, threads)[i] == threads[0]
    ensures |threads| != 1 ==> ThreadsPerStep(steps, threads) == threads
  {
  }

  function ThreadName(rate: string, threads: nat): string {
    rate + "_" + Decimal(threads) + "_threads"
  }

  /** A thread name tells its rate and its thread count. */
  lemma ThreadNameInjective(rate: string, threads: nat, rate': string, threads': nat)
    requires ThreadName(rate, threads) == ThreadName(rate', threads')
    ensures rate == rate' && threads == threads'
  {
    var a, b, suffix := Numbered(rate, threads), Numbered(rate', threads'), "_threads";
    assert a + suffix == b + suffix && |a| == |b|;
    assert a == (a + suffix)[..|a|] == (b + suffix)[..|b|] == b;
    NumberedInjective(rate, threads, rate', threads');
  }

  lemma ThreadNameExample()
    ensures ThreadName("100", 50) == "100_50_threads"
  {
    assert Decimal(50) == Decimal(5) + [Digit(0)] == "50";
  }

  /** The base names: the rates, or rate and thread count when thread counts differ. */
  function BaseNames(rates: seq<string>, threads: seq<nat>): seq<string> {
    if |set t | t in threads| == 1 then rates
    else seq(Min(|rates|, |threads|), i requires 0 <= i < |rates| && i < |threads| => ThreadName(rates[i], threads[i]))
  }

  lemma NumberedEndsInDigit(name: string, k: nat)
    ensures var s := Numbered(name, k); '0' <= s[|s| - 1] <= '9'
  {
  }

  /** When thread counts differ the steps are told apart whatever the rates are; otherwise
      exactly the rates decide. */
  lemma StepsDistinct(rates: seq<string>, threads: seq<nat>)
    ensures |set t | t in threads| != 1 ==> Distinct(AllNames(BaseNames(rates, threads)))
    ensures |set t | t in threads| == 1 ==> (Distinct(AllNames(BaseNames(rates, threads))) <==> NoClash(rates))
  {
    var names := BaseNames(rates, threads);
    DistinctIffNoClash(names);
    if |set t | t in threads| != 1 {
      forall u, n, k: nat | OnceAndMore(names, u, n, k) ensures u != Numbered(n, k) {
        var i :| 0 <= i < |names| && names[i] == u;
        assert u == ThreadName(rates[i], threads[i]) && u[|u| - 1] == 's';
        NumberedEndsInDigit(n, k);
      }
    }
  }

  /** Rates without an underscore never clash. */
  lemma PlainRatesNeverClash(rates: seq<string>)
    requires forall r :: r in rates ==> '_' !in r
    ensures NoClash(rates)
  {
  }

  /** Two steps at one rate next to a step whose rate looks like the first of them. */
  lemma NumberedRateClashes(n: string)
    ensures AllNames([Numbered(n, 1), n, n]) == [Numbered(n, 1), Numbered(n, 1), Numbered(n, 2)]
  {
    var u := Numbered(n, 1);
    var names := [u, n, n];
    assert names == [u] + [n] + [n] && names[..2] == [u] + [n] && names[..3] == names;
    forall x ensures Count(names[..2], x) == (if x == u then 1 else 0) + (if x == n then 1 else 0)
      ensures Count(names, x) == (if x == u then 1 else 0) + (if x == n then 2 else 0)
    {
      CountAppend([], u, x);
      assert [] + [u] == [u];
      CountAppend([u], n, x);
      CountAppend([u] + [n], n, x);
    }
    NumberedParts(n, 1);
    assert Occurrence(names, 1) == 1 && Occurrence(names, 2) == 2;
  }

  /** Python reads `100_1` as a number, so a rate may have an underscore. Three such steps
      leave two entries in the summary. */
  lemma ClashExample(threads: nat)
    ensures var rates := ["100_1", "100", "100"];
            var names := AllNames(BaseNames(rates, ThreadsPerStep(|rates|, [threads])));
            && names == ["100_1", "100_1", "100_2"] && !NoClash(rates)
            && |set n | n in names| == 2
  {
    var rates := ["100_1", "100", "100"];
    assert Numbered("100", 1) == "100_1" && Numbered("100", 2) == "100_2";
    NumberedRateClashes("100");
    OneThreadCount(3, threads);
    var names := AllNames(rates);
    DistinctIffNoClash(rates);
    assert names[0] == names[1];
    assert (set n | n in names) == {"100_1", "100_2"};
  }

  lemma OneThreadCount(steps: nat, threads: nat)
    requires steps > 0
    ensures |set t | t in ThreadsPerStep(steps, [threads])| == 1
  {
    var perStep := ThreadsPerStep(steps, [threads]);
    assert perStep[0] == threads;
    assert (set t | t in perStep) == {threads};
  }

  /** The summary is a dictionary by step name: one entry per step exactly when the names
      are distinct. */
  lemma {:induction false} SummaryKeepsEveryStep(names: seq<string>)
    ensures |set n | n in names| <= |names|
    ensures |set n | n in names| == |names| <==> Distinct(names)
  {
    if names != [] {
      var init, x := names[..|names| - 1], names[|names| - 1];
      SummaryKeepsEveryStep(init);
      assert (set n | n in names) == (set n | n in init) + {x};
      assert names == init + [x];
      if Distinct(init) && x !in init {
        assert Distinct(names);
      }
      if Distinct(names) {
        assert Distinct(init);
        assert forall i :: 0 <= i < |init| ==> names[i] != names[|names| - 1];
      }
      if x in init {
        assert (set n | n in names) == set n | n in init;
      }
    }
  }

  /** No later step has the name of step `j`. */
  ghost predicate LastOfName(ran: seq<string>, j: nat)
    requires j < |ran|
  {
    forall i :: j < i < |ran| ==> ran[i] != ran[j]
  }

  /** One entry per name, from the last step that has it. */
  ghost predicate Recorded(summary: map<string, nat>, ran: seq<string>) {
    && summary.Keys == (set n | n in ran)
    && (forall j: nat :: j < |ran| && LastOfName(ran, j) ==> summary[ran[j]] == j)
  }

  lemma RecordNext(summary: map<string, nat>, ran: seq<string>, name: string)
    requires Recorded(summary, ran)
    ensures Recorded(summary[name := |ran|], ran + [name])
  {
    var ran', summary' := ran + [name], summary[name := |ran|];
    assert forall n :: n in ran' <==> n in ran || n == name;
    forall j: nat | j < |ran'| && LastOfName(ran', j) ensures summary'[ran'[j]] == j {
      if j < |ran| {
        assert ran'[|ran|] != ran'[j];
        assert forall i :: j < i < |ran| ==> ran'[i] == ran[i];
        assert LastOfName(ran, j);
      }
    }
  }

  /** A step is called by its rate, with its thread count when these differ, and after that at
      most a number. */
  ghost predicate CalledBy(name: string, rate: string, threads: nat, differ: bool) {
    var base := if differ then rate + "_" + Decimal(threads) + "_threads" else rate;
    name == base || exists k: nat :: name == Numbered(base, k)
  }

  lemma RatesNamed(rates: seq<string>, threads: seq<nat>)
    ensures var base, differ := BaseNames(rates, threads), |set t | t in threads| != 1;
            && |base| <= |rates|
            && forall i :: 0 <= i < |base| && i < |threads| ==>
                 CalledBy(AllNames(base)[i], rates[i], threads[i], differ)
  {
    var base, differ := BaseNames(rates, threads), |set t | t in threads| != 1;
    forall i | 0 <= i < |base| && i < |threads| ensures CalledBy(AllNames(base)[i], rates[i], threads[i], differ) {
      assert AllNames(base)[i] == StepName(base, i);
    }
  }

  /** Which steps of a run keep an entry of their own. */
  lemma RunDistinct(rates: seq<string>, threads: seq<nat>)
    ensures var m := Min(|rates|, |threads|);
            var base := BaseNames(rates, threads);
            && m <= |base|
            && (|set t | t in threads| != 1 ==> Distinct(AllNames(base)[..m]))
            && (|set t | t in threads| == 1 ==> (Distinct(AllNames(base)[..m]) <==> NoClashUpTo(rates, m)))
  {
    var base, m := BaseNames(rates, threads), Min(|rates|, |threads|);
    if |set t | t in threads| == 1 {
      DistinctUpTo(rates, m);
    } else {
      StepsDistinct(rates, threads);
      assert AllNames(base)[..m] == AllNames(base);
    }
  }

  /** The steps that run: one per rate and thread count, called by them. */
  ghost predicate Ran(rates: seq<string>, threads: seq<nat>, ran: seq<string>) {
    && |ran| == Min(|rates|, |threads|) <= |BaseNames(rates, threads)|
    && ran == AllNames(BaseNames(rates, threads))[..|ran|]
    && forall i :: 0 <= i < |ran| ==> CalledBy(ran[i], rates[i], threads[i], |set t | t in threads| != 1)
  }

  /** Every step keeps its entry when thread counts differ; otherwise exactly when the rates do
      not clash. */
  ghost predicate KeepsEntries(rates: seq<string>, threads: seq<nat>, summary: map<string, nat>, steps: nat)
    requires steps <= |rates|
  {
    && (|set t | t in threads| != 1 ==> |summary| == steps)
    && (|set t | t in threads| == 1 ==> (|summary| == steps <==> NoClashUpTo(rates, steps)))
    && (|set t | t in threads| == 1 && steps == |rates| ==> (|summary| == steps <==> NoClash(rates)))
  }

  lemma RanLaw(rates: seq<string>, threads: seq<nat>, ran: seq<string>)
    requires |ran| == Min(|rates|, |threads|) <= |BaseNames(rates, threads)|
    requires ran == AllNames(BaseNames(rates, threads))[..|ran|]
    ensures Ran(rates, threads, ran)
  {
    RatesNamed(rates, threads);
  }

  lemma EntriesLaw(rates: seq<string>, threads: seq<nat>, summary: map<string, nat>, ran: seq<string>)
    requires Ran(rates, threads, ran) && Recorded(summary, ran)
    ensures KeepsEntries(rates, threads, summary, |ran|)
  {
    RunDistinct(rates, threads);
    ClashPositions(rates);
    RecordedSize(summary, ran);
  }

  lemma EntriesInOrder(summary: map<string, nat>, ran: seq<string>)
    requires Recorded(summary, ran)
    ensures |summary| == |ran| ==> forall i :: 0 <= i < |ran| ==> summary[ran[i]] == i
  {
    RecordedSize(summary, ran);
    if Distinct(ran) {
      forall i | 0 <= i < |ran| ensures summary[ran[i]] == i {
        assert LastOfName(ran, i);
      }
    }
  }

  /** The loop of a run: one step per rate, thread count and name, as far as the shortest of
      the lists goes, each stored in the summary under its name. */
  method RunGradualIncreaseLoad(rates: seq<string>, threads: seq<nat>)
    returns (summary: map<string, nat>, ran: seq<string>)
    ensures |ran| == (if |threads| == 1 then |rates| else Min(|rates|, |threads|))
    ensures Ran(rates, ThreadsPerStep(|rates|, threads), ran)
    ensures KeepsEntries(rates, ThreadsPerStep(|rates|, threads), summary, |ran|)
    ensures Recorded(summary, ran)
    ensures |summary| == |ran| ==> forall i :: 0 <= i < |ran| ==> summary[ran[i]] == i
  {
    var perStep := ThreadsPerStep(|rates|, threads);
    var base := BaseNames(rates, perStep);
    RunDistinct(rates, perStep);
    var names := StepNames(base);
    summary, ran := RecordSteps(names, Min(|rates|, |perStep|));
    RanLaw(rates, perStep, ran);
    EntriesLaw(rates, perStep, summary, ran);
    EntriesInOrder(summary, ran);
  }

  method RecordSteps(names: seq<string>, steps: nat) returns (summary: map<string, nat>, ran: seq<string>)
    requires steps <= |names|
    ensures ran == names[..steps] && Recorded(summary, ran)
  {
    summary, ran := map[], [];
    for i := 0 to steps
      invariant ran == names[..i] && Recorded(summary, ran)
    {
      RecordNext(summary, ran, names[i]);
      summary := summary[names[i] := i];
      ran := ran + [names[i]];
    }
  }

  lemma RecordedSize(summary: map<string, nat>, ran: seq<string>)
    requires Recorded(summary, ran)
    ensures |summary| == |ran| <==> Distinct(ran)
  {
    SummaryKeepsEveryStep(ran);
    assert |summary| == |summary.Keys|;
  }
}
