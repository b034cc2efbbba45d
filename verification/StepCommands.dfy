/** A stress command of a throughput step: the parameters first, then the duration. */
module StepCommands {
  import opened Basics
  import opened Ordering
  import opened Overtaking
  import opened Placeholders
  import opened Templates
  import opened Text

  const DURATION := "duration"

  /** A parameter named `duration` has already been filled; otherwise the step's is used. */
  function WithDuration(params: map<string, string>, duration: Option<string>): map<string, string> {
    if duration.None? || DURATION in params then params else params[DURATION := duration.value]
  }

  /** The parameters by length, then the duration. */
  function Filled(t: string, params: seq<Item>, duration: Option<string>): string {
    var command := Sequential(t, Sort(LongerFirst, params));
    if duration.None? then command else Replace(command, "$" + DURATION, duration.value)
  }

  /** The names in the order in which they are replaced. */
  ghost function Order(names: seq<string>): seq<string> {
    Sort(LongerName, names) + [DURATION]
  }

  /** The duration is a parameter itself; or no name starts it; or the longest one that does
      stands for what makes up the duration anyway. */
  predicate DurationSafe(params: map<string, string>, d: string) {
    var j := Longest(params, DURATION, |DURATION|);
    j < 0 || j == |DURATION| || params[DURATION[..j]] + DURATION[j..] == d
  }

  // ----- Hole by hole

  lemma LongestWith(params: map<string, string>, name: string, value: string, u: string)
    requires name !in params
    ensures var j := Longest(params, u, |u|);
            Longest(params[name := value], u, |u|) == if name <= u && j < |name| then |name| else j
  {
    assert name <= u ==> u[..|name|] == name;
    forall i | 0 <= i <= |u| && u[..i] == name ensures name <= u && i == |name| {
    }
  }

  lemma LongestInside(params: map<string, string>, name: string, u: string)
    requires name <= u && Longest(params, u, |u|) < |name|
    ensures Longest(params, name, |name|) == Longest(params, u, |u|)
  {
    assert forall i :: 0 <= i <= |name| ==> u[..i] == name[..i];
  }

  /** A hole that starts with a name tried last. */
  lemma {:induction false} LastFills(u: string, params: map<string, string>, name: string, value: string)
    requires name !in params && name <= u
    requires var j := Longest(params, u, |u|); j < 0 || j >= |name| || params[u[..j]] + name[j..] == value
    ensures Fill(MunchPiece(Hole(u), params), (name, value)) == MunchPiece(Hole(u), params[name := value])
  {
    var j := Longest(params, u, |u|);
    LongestWith(params, name, value, u);
    assert u[..|name|] == name;
    if 0 <= j < |name| {
      assert u[j..] == name[j..] + u[|name|..];
      ConcatAssociates(params[u[..j]], name[j..], u[|name|..]);
    }
  }

  /** No parameter takes the duration's place in this hole, or none that shows. */
  predicate HoleSafe(u: string, params: map<string, string>, d: string) {
    var j := Longest(params, u, |u|);
    DURATION in params || !(DURATION <= u) || j < 0 || j >= |DURATION| || params[u[..j]] + DURATION[j..] == d
  }

  lemma {:induction false} DurationFills(p: Piece, params: map<string, string>, d: string)
    requires p.Hole? ==> HoleSafe(p.text, params, d)
    ensures Fill(MunchPiece(p, params), (DURATION, d)) == MunchPiece(p, WithDuration(params, Some(d)))
  {
    if p.Hole? {
      if DURATION in params {
        assert DURATION <= p.text ==> p.text[..|DURATION|] == DURATION;
      } else if DURATION <= p.text {
        LastFills(p.text, params, DURATION, d);
      } else {
        LongestWith(params, DURATION, d, p.text);
      }
    }
  }

  lemma {:induction false} SafeHole(u: string, params: map<string, string>, d: string)
    requires DurationSafe(params, d)
    ensures HoleSafe(u, params, d)
  {
    var j := Longest(params, u, |u|);
    if DURATION <= u && 0 <= j < |DURATION| {
      LongestInside(params, DURATION, u);
      assert u[..j] == DURATION[..j];
    }
  }

  // ----- The whole command

  ghost predicate HolesSafe(t: string, params: map<string, string>, d: string) {
    forall k :: 0 <= k < |Split(t)| && Split(t)[k].Hole? ==> HoleSafe(Split(t)[k].text, params, d)
  }

  /** The holes filled one by one, the duration last. */
  lemma {:induction false} HolesMunch(t: string, items: seq<Item>, d: string)
    requires PrefixLast(Names(items)) && PlainItems(items) && Plain(d) && HolesSafe(t, Dict(items), d)
    ensures Render(FillEach(Split(t), items + [(DURATION, d)])) == Munch(t, WithDuration(Dict(items), Some(d)))
  {
    var ps, with := Split(t), WithDuration(Dict(items), Some(d));
    PlainDict(items);
    MunchSplits(t, with);
    forall k | 0 <= k < |ps| ensures FillPiece(ps[k], items + [(DURATION, d)]) == MunchPiece(ps[k], with) {
      FillPieceMunches(ps[k], items);
      DurationFills(ps[k], Dict(items), d);
    }
    assert FillEach(ps, items + [(DURATION, d)]) == MunchAll(ps, with);
  }

  lemma {:induction false} FilledIsSequential(t: string, params: seq<Item>, d: string)
    requires Distinct(Names(params))
    ensures var items := Sort(LongerFirst, params) + [(DURATION, d)];
            && Filled(t, params, Some(d)) == Sequential(t, items)
            && Names(items) == Order(Names(params))
            && (PlainItems(params) && Plain(d) ==> PlainItems(items))
  {
    SortedParams(params);
    SequentialAppend(t, Sort(LongerFirst, params), (DURATION, d));
  }

  lemma {:induction false} FilledIsMunch(t: string, params: seq<Item>, d: string)
    requires Distinct(Names(params)) && PlainItems(params) && Plain(d) && NoOvertake(t, Order(Names(params)))
    requires HolesSafe(t, Dict(params), d)
    ensures Filled(t, params, Some(d)) == Munch(t, WithDuration(Dict(params), Some(d)))
  {
    var ordered := Sort(LongerFirst, params);
    var items := ordered + [(DURATION, d)];
    FilledIsSequential(t, params, d);
    SequentialFills(t, items, |items|);
    assert items[..|items|] == items;
    SortedParams(params);
    HolesMunch(t, ordered, d);
  }

  lemma {:induction false} DurationIsMunch(t: string, params: seq<Item>, d: string)
    requires Distinct(Names(params)) && PlainItems(params) && Plain(d) && NoOvertake(t, Order(Names(params)))
    requires DurationSafe(Dict(params), d)
    ensures Filled(t, params, Some(d)) == Munch(t, WithDuration(Dict(params), Some(d)))
  {
    forall k | 0 <= k < |Split(t)| && Split(t)[k].Hole? ensures HoleSafe(Split(t)[k].text, Dict(params), d) {
      SafeHole(Split(t)[k].text, Dict(params), d);
    }
    FilledIsMunch(t, params, d);
  }

  lemma {:induction false} SplitPlain(s: string)
    requires Plain(s)
    ensures Split(s) == [Text(s)]
  {
    if s != "" {
      SplitPlain(s[1..]);
      assert s == [s[0]] + s[1..];
    }
  }

  lemma SplitHole(s: string)
    requires Plain(s)
    ensures Split("$" + s) == [Text(""), Hole(s)]
  {
    SplitPlain(s);
    assert ("$" + s)[1..] == s;
  }

  lemma RenderHole(q: Piece)
    ensures Render([Text(""), q]) == Show(q)
  {
    assert [Text(""), q] == [Text("")] + ([q] + []);
    RenderOne(q, []);
    RenderOne(Text(""), [q] + []);
  }

  /** A name that some shorter name starts, as a hole. */
  lemma {:induction false} ShadowedHole(name: string, items: seq<Item>, value: string)
    requires PrefixLast(Names(items)) && name !in Dict(items) && Longest(Dict(items), name, |name|) >= 0
    ensures var j := Longest(Dict(items), name, |name|);
            Show(FillPiece(Hole(name), items + [(name, value)])) == Dict(items)[name[..j]] + name[j..]
    ensures Show(MunchPiece(Hole(name), Dict(items)[name := value])) == value
  {
    FillPieceMunches(Hole(name), items);
    assert name[..|name|] == name && name[|name|..] == "";
  }

  lemma {:induction false} OneHole(name: string, params: map<string, string>, items: seq<Item>)
    requires Plain(name)
    ensures Render(MunchAll(Split("$" + name), params)) == Show(MunchPiece(Hole(name), params))
    ensures Render(FillEach(Split("$" + name), items)) == Show(FillPiece(Hole(name), items))
  {
    SplitHole(name);
    FillPieceCases(Text(""), items);
    assert MunchAll([Text(""), Hole(name)], params) == [Text(""), MunchPiece(Hole(name), params)];
    assert FillEach([Text(""), Hole(name)], items) == [Text(""), FillPiece(Hole(name), items)];
    RenderHole(MunchPiece(Hole(name), params));
    RenderHole(FillPiece(Hole(name), items));
  }

  lemma NoNextHole(name: string, names: seq<string>)
    requires Plain(name)
    ensures NoOvertake("$" + name, names)
  {
    SplitHole(name);
  }

  /** Otherwise a parameter takes the place of the duration in `$duration`. */
  lemma {:induction false} DurationShadowed(params: seq<Item>, d: string)
    requires Distinct(Names(params)) && PlainItems(params) && Plain(d) && !DurationSafe(Dict(params), d)
    ensures NoOvertake("$" + DURATION, Order(Names(params)))
    ensures Filled("$" + DURATION, params, Some(d)) != Munch("$" + DURATION, WithDuration(Dict(params), Some(d))) == d
  {
    var ordered, with := Sort(LongerFirst, params), Dict(params)[DURATION := d];
    var t, items := "$" + DURATION, ordered + [(DURATION, d)];
    assert DURATION[..|DURATION|] == DURATION;
    assert DURATION !in Dict(params);
    NoNextHole(DURATION, Order(Names(params)));
    FilledIsSequential(t, params, d);
    SequentialFills(t, items, |items|);
    assert items[..|items|] == items;
    SortedParams(params);
    PlainDict(params);
    MunchSplits(t, with);
    OneHole(DURATION, with, items);
    ShadowedHole(DURATION, ordered, d);
  }

  /** The placeholder is `$duration`: with no parameter in its way it becomes the duration of
      the step, and with a parameter of that name it becomes that. */
  lemma {:induction false} DurationPlaceholder(params: seq<Item>, d: string)
    requires Distinct(Names(params)) && PlainItems(params) && Plain(d) && DurationSafe(Dict(params), d)
    ensures Filled("$duration", params, Some(d)) == if "duration" in Dict(params) then Dict(params)["duration"] else d
  {
    var t, with := "$duration", WithDuration(Dict(params), Some(d));
    assert t == "$" + DURATION && DURATION[..|DURATION|] == DURATION && DURATION[|DURATION|..] == "";
    NoNextHole(DURATION, Order(Names(params)));
    DurationIsMunch(t, params, d);
    PlainDict(params);
    MunchSplits(t, with);
    OneHole(DURATION, with, []);
  }

  /** The command is the one substitution of the parameters and the duration, unless a hole
      is overtaken. */
  ghost predicate Right(t: string, params: seq<Item>, d: string) {
    NoOvertake(t, Order(Names(params))) ==> Filled(t, params, Some(d)) == Munch(t, WithDuration(Dict(params), Some(d)))
  }

  lemma {:induction false} SafeIsRight(params: seq<Item>, d: string)
    requires Distinct(Names(params)) && PlainItems(params) && Plain(d) && DurationSafe(Dict(params), d)
    ensures forall t :: Right(t, params, d)
  {
    forall t ensures Right(t, params, d) {
      if NoOvertake(t, Order(Names(params))) {
        DurationIsMunch(t, params, d);
      }
    }
  }

  lemma {:induction false} UnsafeGoesWrong(params: seq<Item>, d: string) returns (t: string)
    requires Distinct(Names(params)) && PlainItems(params) && Plain(d) && !DurationSafe(Dict(params), d)
    ensures !Right(t, params, d)
  {
    DurationShadowed(params, d);
    t := "$" + DURATION;
  }

  /** Filling the duration last is right on all templates if and only if the parameters are
      safe for it. */
  lemma {:induction false} DurationExact(params: seq<Item>, d: string)
    requires Distinct(Names(params)) && PlainItems(params) && Plain(d)
    ensures (forall t :: Right(t, params, d)) <==> DurationSafe(Dict(params), d)
  {
    if DurationSafe(Dict(params), d) {
      SafeIsRight(params, d);
    } else {
      var t := UnsafeGoesWrong(params, d);
    }
  }

  // ----- For all values

  /** Hole `k` is meant for the duration, and the name that fills it starts `duration`. */
  ghost predicate Shadows(ps: seq<Piece>, order: seq<string>, k: nat, a: nat) {
    && k < |ps| && ps[k].Hole? && DURATION <= ps[k].text
    && Fills(order, a, ps[k].text) && order[a] < DURATION
  }

  ghost predicate Shadowed(t: string, names: seq<string>) {
    DURATION !in names && exists k: nat, a: nat :: Shadows(Split(t), Sort(LongerName, names), k, a)
  }

  lemma {:induction false} LongestFills(names: seq<string>, values: map<string, string>, u: string)
    requires Valuation(names, values) && Longest(values, u, |u|) >= 0
    ensures exists a: nat :: Fills(Sort(LongerName, names), a, u) &&
                             Sort(LongerName, names)[a] == u[..Longest(values, u, |u|)]
  {
    var order := Sort(LongerName, names);
    SortedDict(names, values);
    SortedNames(names);
    var items := ItemsOf(order, values);
    FillPieceCases(Hole(u), items);
    if FillPiece(Hole(u), items) == Hole(u) {
      NoneIsLongest(items, u);
    } else {
      var a: nat :| Fills(Names(items), a, u);
      FirstIsLongest(items, a, u);
      assert order[a] == items[a].0;
    }
  }

  lemma {:induction false} UnshadowedHole(
    t: string, names: seq<string>, values: map<string, string>, k: nat, d: string)
    requires Valuation(names, values) && !Shadowed(t, names) && k < |Split(t)| && Split(t)[k].Hole?
    ensures HoleSafe(Split(t)[k].text, values, d)
  {
    var order, u := Sort(LongerName, names), Split(t)[k].text;
    var j := Longest(values, u, |u|);
    if DURATION <= u && 0 <= j < |DURATION| {
      LongestFills(names, values, u);
      var a: nat :| Fills(order, a, u) && order[a] == u[..j];
      assert u[..j] == DURATION[..j] < DURATION;
      assert DURATION !in names ==> !Shadows(Split(t), order, k, a);
    }
  }

  lemma {:induction false} UnshadowedSafe(t: string, names: seq<string>, values: map<string, string>, d: string)
    requires Valuation(names, values) && !Shadowed(t, names)
    ensures HolesSafe(t, values, d)
  {
    forall k | 0 <= k < |Split(t)| && Split(t)[k].Hole? ensures HoleSafe(Split(t)[k].text, values, d) {
      UnshadowedHole(t, names, values, k, d);
    }
  }

  ghost predicate StepRight(t: string, names: seq<string>, values: map<string, string>, d: string)
    requires Valuation(names, values)
  {
    Filled(t, ItemsOf(names, values), Some(d)) == Munch(t, WithDuration(values, Some(d)))
  }

  lemma {:induction false} DictOfValuation(names: seq<string>, values: map<string, string>)
    requires Valuation(names, values) && AllPlain(names)
    ensures Names(ItemsOf(names, values)) == names && Dict(ItemsOf(names, values)) == values
    ensures PlainItems(ItemsOf(names, values))
  {
    DictOfItems(names, values);
  }

  lemma {:induction false} StepIsRight(t: string, names: seq<string>, values: map<string, string>, d: string)
    requires Distinct(names) && AllPlain(names) && Valuation(names, values) && Plain(d)
    requires NoOvertake(t, Order(names)) && !Shadowed(t, names)
    ensures StepRight(t, names, values, d)
  {
    DictOfValuation(names, values);
    UnshadowedSafe(t, names, values, d);
    FilledIsMunch(t, ItemsOf(names, values), d);
  }

  lemma {:induction false} OrderPlain(names: seq<string>)
    requires AllPlain(names)
    ensures AllPlain(Order(names))
  {
    SortedPlain(names);
  }

  lemma {:induction false} OvertakenItems(t: string, names: seq<string>) returns (front: seq<Item>, d: string)
    requires AllPlain(names) && !NoOvertake(t, Order(names))
    ensures Names(front) == Sort(LongerName, names) && PlainItems(front) && Plain(d)
    ensures Sequential(t, front + [(DURATION, d)]) != Render(FillEach(Split(t), front + [(DURATION, d)]))
  {
    OrderPlain(names);
    var items := OvertakenGoesWrong(t, Order(names));
    front, d := items[..|items| - 1], items[|items| - 1].1;
    LastItem(items, Sort(LongerName, names), DURATION);
  }

  /** Values for an overtaken hole. */
  lemma {:induction false} OvertakenStep(t: string, names: seq<string>) returns (values: map<string, string>, d: string)
    requires Distinct(names) && AllPlain(names) && !NoOvertake(t, Order(names)) && !Shadowed(t, names)
    ensures Valuation(names, values) && Plain(d) && !StepRight(t, names, values, d)
  {
    var front;
    front, d := OvertakenItems(t, names);
    values := Dict(front);
    ValuesOf(names, front);
    UnshadowedSafe(t, names, values, d);
    SortedNames(names);
    HolesMunch(t, front, d);
    DictOfValuation(names, values);
    FilledIsSequential(t, ItemsOf(names, values), d);
  }

  lemma {:induction false} LastItem(items: seq<Item>, names: seq<string>, name: string)
    requires Names(items) == names + [name]
    ensures |items| > 0 && Names(items[..|items| - 1]) == names
    ensures items == items[..|items| - 1] + [(name, items[|items| - 1].1)]
    ensures PlainItems(items) ==> PlainItems(items[..|items| - 1]) && Plain(items[|items| - 1].1)
  {
    assert |Names(items)| == |items| == |names| + 1;
    var front := items[..|names|];
    forall i | 0 <= i < |names| ensures Names(front)[i] == names[i] {
      assert Names(items)[i] == items[i].0 == front[i].0;
    }
    assert Names(items)[|names|] == items[|names|].0;
  }

  // ----- A shadowed hole, with a dash for every value

  const DASH := "-"

  lemma {:induction false} DashPrefix(x: string, name: string, target: string)
    requires '-' !in target && target <= Replace(x, "$" + name, DASH)
    ensures target <= x
  {
    var pat := "$" + name;
    if target != "" {
      assert target[0] == Replace(x, pat, DASH)[0];
      if |x| >= |pat| && !(pat <= x) {
        DashPrefix(x[1..], name, target[1..]);
        assert target == [x[0]] + target[1..] && x == [x[0]] + x[1..];
      }
    }
  }

  /** Putting in a dash makes no name readable that was not. */
  lemma {:induction false} DashReads(x: string, name: string, target: string)
    requires Plain(name) && '-' !in target
    ensures Occurrences(Replace(x, "$" + name, DASH), target) <= Occurrences(x, target)
  {
    var pat := "$" + name;
    if |x| < |pat| {
    } else if pat <= x {
      var rest := x[|pat|..];
      DashReads(rest, name, target);
      assert x[1..] == name + rest;
      PlainPrefix(name, rest, target);
    } else {
      var rest := Replace(x[1..], pat, DASH);
      DashReads(x[1..], name, target);
      if target <= rest {
        DashPrefix(x[1..], name, target);
      }
    }
  }

  /** The name that was replaced is not readable any more. */
  lemma {:induction false} DashClears(x: string, name: string)
    requires Plain(name) && '-' !in name
    ensures Occurrences(Replace(x, "$" + name, DASH), name) == 0
  {
    var pat := "$" + name;
    if |x| < |pat| {
      ShortHasNone(x, name);
    } else if pat <= x {
      DashClears(x[|pat|..], name);
    } else {
      var rest := Replace(x[1..], pat, DASH);
      DashClears(x[1..], name);
      if name <= rest {
        DashPrefix(x[1..], name, name);
      }
    }
  }

  lemma {:induction false} DashShortens(x: string, name: string)
    ensures |Replace(x, "$" + name, DASH)| <= |x|
  {
    var pat := "$" + name;
    if |x| >= |pat| {
      DashShortens(if pat <= x then x[|pat|..] else x[1..], name);
    }
  }

  lemma {:induction false} DashLoop(t: string, items: seq<Item>, target: string)
    requires '-' !in target && forall i :: 0 <= i < |items| ==> Plain(items[i].0) && items[i].1 == DASH
    ensures Occurrences(Sequential(t, items), target) <= Occurrences(t, target)
    ensures target in Names(items) ==> Occurrences(Sequential(t, items), target) == 0
    ensures |Sequential(t, items)| <= |t|
    decreases items
  {
    if items != [] {
      DashReads(t, items[0].0, target);
      DashShortens(t, items[0].0);
      if target == items[0].0 {
        DashClears(t, target);
      }
      DashLoop(Replace(t, "$" + items[0].0, items[0].1), items[1..], target);
      assert Names(items) == [items[0].0] + Names(items[1..]);
    }
  }

  lemma {:induction false} LongerOccursLess(x: string, name: string, target: string)
    requires name <= target
    ensures Occurrences(x, target) <= Occurrences(x, name)
  {
    if x != "" {
      LongerOccursLess(x[1..], name, target);
    }
  }

  lemma {:induction false} NothingToReplace(x: string, name: string, value: string)
    requires Occurrences(x, name) == 0
    ensures Replace(x, "$" + name, value) == x
  {
    var pat := "$" + name;
    if |x| >= |pat| {
      assert x == [x[0]] + x[1..];
      if pat <= x {
        assert x[0] == '$';
        DollarPrefix(name, x[1..]);
      }
      NothingToReplace(x[1..], name, value);
    }
  }

  /** The parameters take every place of the duration. */
  lemma {:induction false} DashCommand(t: string, items: seq<Item>, name: string, target: string, d: string)
    requires '-' !in target && forall i :: 0 <= i < |items| ==> Plain(items[i].0) && items[i].1 == DASH
    requires name in Names(items) && name <= target
    ensures |Replace(Sequential(t, items), "$" + target, d)| <= |t|
  {
    DashLoop(t, items, name);
    LongerOccursLess(Sequential(t, items), name, target);
    NothingToReplace(Sequential(t, items), target, d);
  }

  lemma {:induction false} RenderHolds(ps: seq<Piece>, k: nat)
    requires k < |ps|
    ensures |Render(ps)| >= |Show(ps[k])|
  {
    if k > 0 {
      RenderHolds(ps[1..], k - 1);
    }
  }

  /** The substitution puts the duration where it is meant. */
  lemma {:induction false} DurationShows(
    t: string, names: seq<string>, values: map<string, string>, k: nat, a: nat, d: string)
    requires Valuation(names, values) && AllPlain(names) && DURATION !in names
    requires Shadows(Split(t), Sort(LongerName, names), k, a)
    ensures |Munch(t, WithDuration(values, Some(d)))| >= |d|
  {
    var u, with := Split(t)[k].text, values[DURATION := d];
    SortedDict(names, values);
    SortedNames(names);
    FirstIsLongest(ItemsOf(Sort(LongerName, names), values), a, u);
    LongestWith(values, DURATION, d, u);
    assert u[..|DURATION|] == DURATION;
    MunchSplits(t, with);
    RenderHolds(MunchAll(Split(t), with), k);
  }

  /** Values for a shadowed hole. */
  lemma {:induction false} ShadowedStep(t: string, names: seq<string>) returns (values: map<string, string>, d: string)
    requires Distinct(names) && AllPlain(names) && Shadowed(t, names)
    ensures Valuation(names, values) && Plain(d) && !StepRight(t, names, values, d)
  {
    values := map n | n in names :: DASH;
    d := seq(|t| + 1, _ => 'x');
    var order := Sort(LongerName, names);
    var k: nat, a: nat :| Shadows(Split(t), order, k, a);
    DurationShows(t, names, values, k, a, d);
    SortedDict(names, values);
    SortedPlain(names);
    var items := ItemsOf(order, values);
    assert forall i :: 0 <= i < |items| ==> items[i] == (order[i], DASH);
    assert Names(items)[a] == order[a];
    DashCommand(t, items, order[a], DURATION, d);
  }

  /** A template gives the one substitution for all `$`-free values and durations if and only
      if no hole is overtaken and none that is meant for the duration is shadowed. */
  lemma {:induction false} StepExact(t: string, names: seq<string>)
    requires Distinct(names) && AllPlain(names)
    ensures (forall values, d :: Valuation(names, values) && Plain(d) ==> StepRight(t, names, values, d))
            <==> NoOvertake(t, Order(names)) && !Shadowed(t, names)
  {
    if Shadowed(t, names) {
      var values, d := ShadowedStep(t, names);
    } else if !NoOvertake(t, Order(names)) {
      var values, d := OvertakenStep(t, names);
    } else {
      forall values, d | Valuation(names, values) && Plain(d) ensures StepRight(t, names, values, d) {
        StepIsRight(t, names, values, d);
      }
    }
  }

  // ----- run_step

  /** One stress command of a step. */
  method StepCommand(t: string, params: seq<Item>, duration: Option<string>) returns (command: string)
    requires Distinct(Names(params))
    ensures command == Filled(t, params, duration)
    ensures duration.None? && PlainItems(params) && NoOvertake(t, Sort(LongerName, Names(params))) ==>
              command == Munch(t, Dict(params))
    ensures duration.Some? && PlainItems(params) && Plain(duration.value) && NoOvertake(t, Order(Names(params))) &&
              DurationSafe(Dict(params), duration.value) ==>
              command == Munch(t, WithDuration(Dict(params), duration))
  {
    command := FillTemplate(t, params);
    if duration.Some? {
      var d := duration.value;
      if PlainItems(params) && Plain(d) && NoOvertake(t, Order(Names(params))) && DurationSafe(Dict(params), d) {
        DurationIsMunch(t, params, d);
      }
      command := Replace(command, "$" + DURATION, d);
    }
  }
}
