/** The placeholder loop is right for all values only if no hole can be overtaken: with
    chosen values, an overtaken hole makes the loop's command too long. */
module Overtaking {
  import opened Basics
  import opened Ordering
  import opened Placeholders
  import opened Templates
  import opened Text

  // ----- Lengths under replacement

  /** `c`, `n` times over. */
  function Times(n: nat, c: nat): nat {
    if n == 0 then 0 else c + Times(n - 1, c)
  }

  lemma {:induction false} TimesMonotone(a: nat, b: nat, c: nat)
    requires a <= b
    ensures Times(a, c) <= Times(b, c)
  {
    if a > 0 {
      TimesMonotone(a - 1, b - 1, c);
    }
  }

  lemma {:induction false} TimesSplits(d: nat, a: nat, b: nat)
    ensures Times(d, a + b) == Times(d, a) + Times(d, b)
  {
    if d > 0 {
      TimesSplits(d - 1, a, b);
    }
  }

  function Dollars(x: string): nat {
    if x == "" then 0 else (if x[0] == '$' then 1 else 0) + Dollars(x[1..])
  }

  /** Places where `$name` stands. */
  function Occurrences(x: string, name: string): nat {
    if x == "" then 0
    else (if x[0] == '$' && name <= x[1..] then 1 else 0) + Occurrences(x[1..], name)
  }

  lemma {:induction false} PlainPrefix(p: string, x: string, name: string)
    requires Plain(p)
    ensures Occurrences(p + x, name) == Occurrences(x, name) && Dollars(p + x) == Dollars(x)
  {
    if p == "" {
      assert p + x == x;
    } else {
      assert (p + x)[1..] == p[1..] + x;
      PlainPrefix(p[1..], x, name);
    }
  }

  lemma {:induction false} ShortHasNone(x: string, name: string)
    requires |x| <= |name|
    ensures Occurrences(x, name) == 0
  {
    if x != "" {
      ShortHasNone(x[1..], name);
    }
  }

  lemma Matched(x: string, name: string)
    requires Plain(name) && "$" + name <= x
    ensures x[1..] == name + x[|name| + 1..] && x[0] == '$' && name <= x[1..]
    ensures Occurrences(x, name) == 1 + Occurrences(x[|name| + 1..], name)
    ensures Dollars(x) == 1 + Dollars(x[|name| + 1..])
  {
    var rest := x[|name| + 1..];
    assert x == "$" + name + rest;
    assert x[1..] == name + rest;
    PlainPrefix(name, rest, name);
  }

  /** The result holds the value once for each place. */
  lemma {:induction false} ReplaceGrows(x: string, name: string, value: string)
    requires Plain(name)
    ensures |Replace(x, "$" + name, value)| >= Times(Occurrences(x, name), |value|)
  {
    var pat := "$" + name;
    if |x| < |pat| {
      ShortHasNone(x, name);
    } else if pat <= x {
      Matched(x, name);
      ReplaceGrows(x[|pat|..], name, value);
    } else {
      ReplaceGrows(x[1..], name, value);
    }
  }

  lemma {:induction false} PlainDollars(v: string, x: string)
    requires Plain(v)
    ensures Dollars(v + x) == Dollars(x)
  {
    PlainPrefix(v, x, "");
  }

  /** Replacing adds no `$`. */
  lemma {:induction false} ReplaceDollars(x: string, name: string, value: string)
    requires Plain(name) && Plain(value)
    ensures Dollars(Replace(x, "$" + name, value)) <= Dollars(x)
  {
    var pat := "$" + name;
    if |x| < |pat| {
    } else if pat <= x {
      Matched(x, name);
      ReplaceDollars(x[|pat|..], name, value);
      PlainDollars(value, Replace(x[|pat|..], pat, value));
    } else {
      ReplaceDollars(x[1..], name, value);
      assert ([x[0]] + Replace(x[1..], pat, value))[1..] == Replace(x[1..], pat, value);
    }
  }

  /** Each `$` is replaced at most once, and takes one name with it. */
  lemma {:induction false} ReplaceShrinks(x: string, name: string, value: string)
    requires Plain(name)
    ensures |Replace(x, "$" + name, value)| + Times(Dollars(x), |name| + 1) >= |x|
  {
    var pat := "$" + name;
    if |x| < |pat| {
    } else if pat <= x {
      Matched(x, name);
      ReplaceShrinks(x[|pat|..], name, value);
    } else {
      ReplaceShrinks(x[1..], name, value);
      TimesMonotone(Dollars(x[1..]), Dollars(x), |name| + 1);
    }
  }

  function Lengths(names: seq<string>): nat {
    if names == [] then 0 else |names[0]| + 1 + Lengths(names[1..])
  }

  lemma {:induction false} SequentialShrinks(x: string, items: seq<Item>)
    requires PlainItems(items)
    ensures |Sequential(x, items)| + Times(Dollars(x), Lengths(Names(items))) >= |x|
    decreases items
  {
    if items != [] {
      var name, value, rest := items[0].0, items[0].1, items[1..];
      assert Plain(name) && Plain(value) && PlainItems(rest);
      var y := Replace(x, "$" + name, value);
      ReplaceShrinks(x, name, value);
      ReplaceDollars(x, name, value);
      SequentialShrinks(y, rest);
      assert Names(items)[1..] == Names(rest);
      ShrinkAdds(|Sequential(y, rest)|, |y|, |x|, Dollars(y), Dollars(x), |name| + 1, Lengths(Names(rest)));
    }
  }

  lemma ShrinkAdds(z: nat, y: nat, x: nat, dy: nat, dx: nat, a: nat, b: nat)
    requires z + Times(dy, b) >= y && y + Times(dx, a) >= x && dy <= dx
    ensures z + Times(dx, a + b) >= x
  {
    TimesMonotone(dy, dx, b);
    TimesSplits(dx, a, b);
  }

  lemma {:induction false} SequentialDollars(x: string, items: seq<Item>)
    requires PlainItems(items)
    ensures Dollars(Sequential(x, items)) <= Dollars(x)
    decreases items
  {
    if items != [] {
      assert Plain(items[0].0) && Plain(items[0].1);
      ReplaceDollars(x, items[0].0, items[0].1);
      assert PlainItems(items[1..]);
      SequentialDollars(Replace(x, "$" + items[0].0, items[0].1), items[1..]);
    }
  }

  // ----- Counting pieces

  function Count(flags: seq<bool>): nat {
    if flags == [] then 0 else (if flags[0] then 1 else 0) + Count(flags[1..])
  }

  lemma {:induction false} CountMore(a: seq<bool>, b: seq<bool>, k: int)
    requires |a| == |b| && forall i :: 0 <= i < |a| && a[i] ==> b[i]
    requires k < |a| && (k >= 0 ==> b[k] && !a[k])
    ensures Count(b) >= Count(a) + if k >= 0 then 1 else 0
  {
    if a != [] {
      assert forall i :: 0 <= i < |a[1..]| ==> a[1..][i] == a[i + 1] && b[1..][i] == b[i + 1];
      CountMore(a[1..], b[1..], if k <= 0 then -1 else k - 1);
    }
  }

  /** Holes at which `$name` can be read, running on into what follows. */
  function Readable(qs: seq<Piece>, name: string): seq<bool> {
    if qs == [] then []
    else [qs[0].Hole? && name <= qs[0].text + Render(qs[1..])] + Readable(qs[1..], name)
  }

  lemma {:induction false} ReadableAt(qs: seq<Piece>, name: string, k: nat)
    requires k < |qs|
    ensures |Readable(qs, name)| == |qs|
    ensures Readable(qs, name)[k] == (qs[k].Hole? && name <= qs[k].text + Render(qs[k + 1..]))
  {
    if k > 0 {
      ReadableAt(qs[1..], name, k - 1);
      assert qs[1..][k..] == qs[k + 1..];
    } else if |qs| > 1 {
      ReadableAt(qs[1..], name, 0);
    }
  }

  lemma HoleOccurs(s: string, rest: string, name: string)
    requires Plain(s)
    ensures Occurrences("$" + s + rest, name) == (if name <= s + rest then 1 else 0) + Occurrences(rest, name)
  {
    ConcatAssociates("$", s, rest);
    var u := s + rest;
    assert ("$" + u)[1..] == u;
    PlainPrefix(s, rest, name);
  }

  /** They are the places where `$name` stands. */
  lemma {:induction false} ReadableOccurs(qs: seq<Piece>, name: string)
    requires Clean(qs)
    ensures Occurrences(Render(qs), name) == Count(Readable(qs, name))
  {
    if qs != [] {
      var rest := Render(qs[1..]);
      ReadableOccurs(qs[1..], name);
      var flag := qs[0].Hole? && name <= qs[0].text + rest;
      assert ([flag] + Readable(qs[1..], name))[1..] == Readable(qs[1..], name);
      if qs[0].Text? {
        PlainPrefix(qs[0].text, rest, name);
      } else {
        HoleOccurs(qs[0].text, rest, name);
      }
    }
  }

  /** Holes that a name fills when it is its turn. */
  ghost function Users(ps: seq<Piece>, names: seq<string>, b: nat): seq<bool> {
    seq(|ps|, k requires 0 <= k < |ps| => ps[k].Hole? && Fills(names, b, ps[k].text))
  }

  // ----- The values that tell

  /** Name `a` stands for what completes name `b`, `b` for something long, the others for
      nothing. */
  function Telling(names: seq<string>, a: nat, b: nat, ext: string, long: nat): (items: seq<Item>)
    ensures |items| == |names| && Names(items) == names
  {
    seq(|names|, i requires 0 <= i < |names| =>
      (names[i], if i == a then ext else if i == b then seq(long, _ => 'x') else ""))
  }

  /** What fills a hole among the first `j` names. */
  lemma {:induction false} FilledBy(p: Piece, items: seq<Item>, a: nat, j: nat)
    requires a < j <= |items| && p.Hole? && Fills(Names(items), a, p.text)
    ensures FillPiece(p, items[..j]) == Fill(p, items[a])
  {
    var done := items[..j];
    FillPieceCases(p, done);
    assert done[a] == items[a] && Names(items)[a] == items[a].0;
    var a': nat :| Fills(Names(done), a', p.text) && FillPiece(p, done) == Fill(p, done[a']);
    assert Names(done)[a'] == Names(items)[a'] && Names(done)[a] == Names(items)[a];
  }

  lemma UnfilledBefore(p: Piece, items: seq<Item>, j: nat)
    requires j <= |items| && forall c :: 0 <= c < j ==> !(items[c].0 <= p.text)
    ensures FillPiece(p, items[..j]) == p
  {
    FillPieceCases(p, items[..j]);
  }

  /** The holes name `b` is meant for are still open when its turn comes. */
  lemma UserReads(ps: seq<Piece>, items: seq<Item>, b: nat, i: nat)
    requires i < |ps| && b < |items| && ps[i].Hole? && Fills(Names(items), b, ps[i].text)
    ensures i < |Readable(FillEach(ps, items[..b]), items[b].0)|
    ensures Readable(FillEach(ps, items[..b]), items[b].0)[i]
  {
    var qs := FillEach(ps, items[..b]);
    forall c | 0 <= c < b ensures !(items[c].0 <= ps[i].text) {
      assert Names(items)[c] == items[c].0;
    }
    UnfilledBefore(ps[i], items, b);
    ReadableAt(qs, items[b].0, i);
    assert Names(items)[b] == items[b].0;
  }

  /** So is the overtaken one, and what follows completes the name. */
  lemma OvertakenReads(ps: seq<Piece>, items: seq<Item>, k: nat, a: nat, b: nat)
    requires HolesAfterFirst(ps) && Overtakes(ps, Names(items), k, a, b)
    requires items[b].0 == ps[k].text + items[a].1
    ensures k < |Readable(FillEach(ps, items[..b]), items[b].0)|
    ensures Readable(FillEach(ps, items[..b]), items[b].0)[k]
  {
    var qs, name := FillEach(ps, items[..b]), items[b].0;
    var names := Names(items);
    assert names[b] == name;
    forall c | 0 <= c < b ensures !(items[c].0 <= ps[k].text) {
      assert names[c] == items[c].0;
    }
    UnfilledBefore(ps[k], items, b);
    FilledBy(ps[k + 1], items, a, b);
    ReadableAt(qs, name, k);
    assert qs[k + 1..][0] == qs[k + 1];
    assert items[a].1 <= qs[k + 1].text <= Render(qs[k + 1..]);
  }

  lemma {:induction false} OneMoreReads(ps: seq<Piece>, items: seq<Item>, k: nat, a: nat, b: nat)
    requires HolesAfterFirst(ps) && Overtakes(ps, Names(items), k, a, b)
    requires items[b].0 == ps[k].text + items[a].1
    ensures Count(Readable(FillEach(ps, items[..b]), items[b].0)) >= Count(Users(ps, Names(items), b)) + 1
  {
    var users, open := Users(ps, Names(items), b), Readable(FillEach(ps, items[..b]), items[b].0);
    ReadableAt(FillEach(ps, items[..b]), items[b].0, k);
    forall i | 0 <= i < |users| && users[i] ensures open[i] {
      UserReads(ps, items, b, i);
    }
    OvertakenReads(ps, items, k, a, b);
    assert !users[k] by {
      assert Names(items)[b] == items[b].0;
    }
    CountMore(users, open, k);
  }

  // ----- The substitution stays shorter

  function Weight(ps: seq<Piece>, c: nat): nat {
    if ps == [] then 0 else |ps[0].text| + 1 + c + Weight(ps[1..], c)
  }

  lemma PieceBound(p: Piece, items: seq<Item>, b: nat, c: nat)
    requires b < |items| && forall i :: 0 <= i < |items| && i != b ==> |items[i].1| <= c
    ensures |Show(FillPiece(p, items))| <=
            |p.text| + 1 + c + if p.Hole? && Fills(Names(items), b, p.text) then |items[b].1| else 0
  {
    FillPieceCases(p, items);
    if FillPiece(p, items) != p {
      var a: nat :| Fills(Names(items), a, p.text) && FillPiece(p, items) == Fill(p, items[a]);
    }
  }

  lemma {:induction false} RenderBound(ps: seq<Piece>, items: seq<Item>, b: nat, c: nat)
    requires b < |items| && forall i :: 0 <= i < |items| && i != b ==> |items[i].1| <= c
    ensures |Render(FillEach(ps, items))| <= Times(Count(Users(ps, Names(items), b)), |items[b].1|) + Weight(ps, c)
  {
    if ps != [] {
      RenderBound(ps[1..], items, b, c);
      PieceBound(ps[0], items, b, c);
      assert Users(ps, Names(items), b)[1..] == Users(ps[1..], Names(items), b);
    }
  }

  // ----- The exact condition

  lemma {:induction false} LesserOvertaker(ps: seq<Piece>, names: seq<string>, k: nat, a: nat, b: nat)
    returns (k': nat, a': nat, b': nat)
    requires Overtakes(ps, names, k, a, b)
    ensures Overtakes(ps, names, k', a', b')
    ensures forall i: nat, j: nat, c: nat :: c < b' ==> !Overtakes(ps, names, i, j, c)
    decreases b
  {
    if i: nat, j: nat, c: nat :| c < b && Overtakes(ps, names, i, j, c) {
      k', a', b' := LesserOvertaker(ps, names, i, j, c);
    } else {
      k', a', b' := k, a, b;
    }
  }

  lemma LeastOvertaker(t: string, names: seq<string>) returns (k: nat, a: nat, b: nat)
    requires !NoOvertake(t, names)
    ensures Overtakes(Split(t), names, k, a, b)
    ensures forall i: nat, j: nat, c: nat :: c < b ==> !Overtakes(Split(t), names, i, j, c)
  {
    k, a, b :| Overtakes(Split(t), names, k, a, b);
    k, a, b := LesserOvertaker(Split(t), names, k, a, b);
  }

  lemma {:induction false} SequentialSplits(t: string, first: seq<Item>, rest: seq<Item>)
    ensures Sequential(t, first + rest) == Sequential(Sequential(t, first), rest)
    decreases first
  {
    if first == [] {
      assert first + rest == rest;
    } else {
      assert (first + rest)[1..] == first[1..] + rest;
      SequentialSplits(Replace(t, "$" + first[0].0, first[0].1), first[1..], rest);
    }
  }

  lemma {:induction false} RenderedGrows(qs: seq<Piece>, item: Item, n: nat)
    requires Clean(qs) && Plain(item.0) && Count(Readable(qs, item.0)) >= n
    ensures |Replace(Render(qs), "$" + item.0, item.1)| >= Times(n, |item.1|)
  {
    ReadableOccurs(qs, item.0);
    ReplaceGrows(Render(qs), item.0, item.1);
    TimesMonotone(n, Occurrences(Render(qs), item.0), |item.1|);
  }

  /** The turn of name `b`, when `n` holes can be read as it. */
  lemma {:induction false} TurnGrows(t: string, items: seq<Item>, b: nat, n: nat)
    requires b < |items| && PlainItems(items)
    requires forall i: nat, j: nat, c: nat :: c < b ==> !Overtakes(Split(t), Names(items), i, j, c)
    requires Count(Readable(FillEach(Split(t), items[..b]), items[b].0)) >= n
    ensures |Sequential(t, items[..b + 1])| >= Times(n, |items[b].1|)
  {
    var ps, done := Split(t), items[..b];
    SequentialFills(t, items, b);
    SplitShape(t);
    FillEachClean(ps, done);
    RenderedGrows(FillEach(ps, done), items[b], n);
    assert items[..b + 1] == done + [items[b]];
    SequentialAppend(t, done, items[b]);
  }

  /** When name `b` has had its turn, its long value is there once too often. */
  lemma {:induction false} TurnIsLong(t: string, items: seq<Item>, k: nat, a: nat, b: nat)
    requires PlainItems(items) && Overtakes(Split(t), Names(items), k, a, b)
    requires forall i: nat, j: nat, c: nat :: c < b ==> !Overtakes(Split(t), Names(items), i, j, c)
    requires items[b].0 == Split(t)[k].text + items[a].1
    ensures |Sequential(t, items[..b + 1])| >= Times(Count(Users(Split(t), Names(items), b)) + 1, |items[b].1|)
  {
    SplitShape(t);
    OneMoreReads(Split(t), items, k, a, b);
    TurnGrows(t, items, b, Count(Users(Split(t), Names(items), b)) + 1);
  }

  /** The rest of the loop cannot make up for it. */
  lemma {:induction false} RestStaysLong(t: string, items: seq<Item>, b: nat)
    requires PlainItems(items) && b < |items|
    ensures |Sequential(t, items)| + Times(Dollars(t), Lengths(Names(items)[b + 1..])) >=
            |Sequential(t, items[..b + 1])|
  {
    var first, rest := items[..b + 1], items[b + 1..];
    assert items == first + rest && Names(rest) == Names(items)[b + 1..];
    SequentialSplits(t, first, rest);
    SequentialShrinks(Sequential(t, first), rest);
    SequentialDollars(t, first);
    TimesMonotone(Dollars(Sequential(t, first)), Dollars(t), Lengths(Names(rest)));
  }

  lemma {:induction false} LoopIsLong(t: string, items: seq<Item>, k: nat, a: nat, b: nat)
    requires PlainItems(items) && Overtakes(Split(t), Names(items), k, a, b)
    requires forall i: nat, j: nat, c: nat :: c < b ==> !Overtakes(Split(t), Names(items), i, j, c)
    requires items[b].0 == Split(t)[k].text + items[a].1
    ensures |Sequential(t, items)| + Times(Dollars(t), Lengths(Names(items)[b + 1..])) >=
            Times(Count(Users(Split(t), Names(items), b)) + 1, |items[b].1|)
  {
    TurnIsLong(t, items, k, a, b);
    RestStaysLong(t, items, b);
  }

  /** With a long enough value of name `b`, the loop does not fill each hole by itself. */
  lemma {:induction false} TellingTells(t: string, items: seq<Item>, b: nat)
    requires b < |items| && forall i :: 0 <= i < |items| && i != b ==> |items[i].1| <= |items[b].0|
    requires |items[b].1| > Times(Dollars(t), Lengths(Names(items)[b + 1..])) + Weight(Split(t), |items[b].0|)
    requires |Sequential(t, items)| + Times(Dollars(t), Lengths(Names(items)[b + 1..])) >=
             Times(Count(Users(Split(t), Names(items), b)) + 1, |items[b].1|)
    ensures Sequential(t, items) != Render(FillEach(Split(t), items))
  {
    RenderBound(Split(t), items, b, |items[b].0|);
  }

  /** An overtaken hole goes wrong for some values. */
  lemma {:induction false} OvertakenGoesWrong(t: string, names: seq<string>) returns (items: seq<Item>)
    requires AllPlain(names) && !NoOvertake(t, names)
    ensures Names(items) == names && PlainItems(items)
    ensures Sequential(t, items) != Render(FillEach(Split(t), items))
  {
    var k, a, b := LeastOvertaker(t, names);
    var s := Split(t)[k].text;
    var ext := names[b][|s|..];
    var long := Times(Dollars(t), Lengths(names[b + 1..])) + Weight(Split(t), |names[b]|) + 1;
    items := Telling(names, a, b, ext, long);
    assert Plain(names[b]);
    assert items[b].0 == names[b] == s + ext;
    LoopIsLong(t, items, k, a, b);
    TellingTells(t, items, b);
  }

  /** Some `$`-free value for each name, and for nothing else. */
  ghost predicate Valuation(names: seq<string>, values: map<string, string>) {
    values.Keys == (set n | n in names) && forall n :: n in values ==> Plain(values[n])
  }

  /** What the loop makes of a template, for the keys in a given order. */
  ghost function Command(t: string, names: seq<string>, values: map<string, string>): string
    requires Valuation(names, values)
  {
    Sequential(t, Sort(LongerFirst, ItemsOf(names, values)))
  }

  lemma {:induction false} CommandIsMunch(t: string, names: seq<string>, values: map<string, string>)
    requires AllPlain(names) && Valuation(names, values) && NoOvertake(t, Sort(LongerName, names))
    ensures Command(t, names, values) == Munch(t, values)
  {
    SortedDict(names, values);
    SortedNames(names);
    SequentialIsMunch(t, ItemsOf(Sort(LongerName, names), values));
  }

  lemma {:induction false} CommandGoesWrong(t: string, names: seq<string>) returns (values: map<string, string>)
    requires Distinct(names) && AllPlain(names) && !NoOvertake(t, Sort(LongerName, names))
    ensures Valuation(names, values) && Command(t, names, values) != Munch(t, values)
  {
    SortedPlain(names);
    var items := OvertakenGoesWrong(t, Sort(LongerName, names));
    SortedNames(names);
    FillEachMunches(t, items);
    values := Dict(items);
    ValuesOf(names, items);
  }

  lemma {:induction false} SortedPlain(names: seq<string>)
    requires AllPlain(names)
    ensures AllPlain(Sort(LongerName, names))
  {
    SortedNames(names);
    var order := Sort(LongerName, names);
    forall i | 0 <= i < |order| ensures Plain(order[i]) {
      assert order[i] in names;
    }
  }

  /** Items in the order of the loop, as values of the names in another order. */
  lemma {:induction false} ValuesOf(names: seq<string>, items: seq<Item>)
    requires Distinct(names) && Names(items) == Sort(LongerName, names) && PlainItems(items)
    ensures Valuation(names, Dict(items))
    ensures Sort(LongerFirst, ItemsOf(names, Dict(items))) == items
  {
    SortDistinct(names);
    SortedNames(names);
    ItemsOfDict(items);
    PlainDict(items);
    SortedDict(names, Dict(items));
  }

  lemma {:induction false} SortDistinct(names: seq<string>)
    requires Distinct(names)
    ensures Distinct(Sort(LongerName, names))
  {
    SortSorts(LongerName, names);
    var order := Sort(LongerName, names);
    forall i, j | 0 <= i < j < |order| ensures order[i] != order[j] {
      DistinctBag(names, order[j]);
      TwiceInBag(order, i, j);
    }
  }

  lemma TwiceInBag(names: seq<string>, i: nat, j: nat)
    requires i < j < |names| && multiset(names)[names[j]] <= 1
    ensures names[i] != names[j]
  {
    var first := names[..j];
    assert names == first + [names[j]] + names[j + 1..];
    assert first[i] in multiset(first);
  }

  lemma {:induction false} DistinctBag(names: seq<string>, x: string)
    requires Distinct(names)
    ensures multiset(names)[x] <= 1
  {
    if names != [] {
      assert names == [names[0]] + names[1..];
      DistinctBag(names[1..], x);
      if names[0] == x {
        assert x !in names[1..];
      }
    }
  }

  /** The loop is the simultaneous substitution for all `$`-free values if and only if no
      hole of the template can be overtaken. */
  lemma {:induction false} LoopExact(t: string, names: seq<string>)
    requires Distinct(names) && AllPlain(names)
    ensures (forall values :: Valuation(names, values) ==> Command(t, names, values) == Munch(t, values))
            <==> NoOvertake(t, Sort(LongerName, names))
  {
    if NoOvertake(t, Sort(LongerName, names)) {
      forall values | Valuation(names, values) ensures Command(t, names, values) == Munch(t, values) {
        CommandIsMunch(t, names, values);
      }
    } else {
      var values := CommandGoesWrong(t, names);
    }
  }

  // ----- The order of the dictionary

  ghost predicate DifferentLengths(names: seq<string>) {
    forall i, j :: 0 <= i < j < |names| ==> |names[i]| != |names[j]|
  }

  lemma BagTail(a: seq<string>)
    requires a != []
    ensures multiset(a[1..]) == multiset(a) - multiset{a[0]}
  {
    assert a == [a[0]] + a[1..];
  }

  lemma LongestLeads(a: seq<string>, x: string)
    requires SortedBy(LongerName, a) && x in multiset(a)
    ensures a != [] && |a[0]| >= |x|
  {
  }

  lemma SameHead(a: seq<string>, b: seq<string>)
    requires multiset(a) == multiset(b) && SortedBy(LongerName, a) && SortedBy(LongerName, b)
    requires a != [] && DifferentLengths(a)
    ensures b != [] && a[0] == b[0]
  {
    LongestLeads(b, a[0]);
    assert b[0] in multiset(a);
    LongestLeads(a, b[0]);
    var j :| 0 <= j < |a| && a[j] == b[0];
  }

  /** Names of pairwise different lengths have one order by length. */
  lemma {:induction false} OneOrder(a: seq<string>, b: seq<string>)
    requires multiset(a) == multiset(b) && SortedBy(LongerName, a) && SortedBy(LongerName, b) && DifferentLengths(a)
    ensures a == b
  {
    if a == [] {
      assert |multiset(b)| == 0;
    } else {
      SameHead(a, b);
      BagTail(a);
      BagTail(b);
      OneOrder(a[1..], b[1..]);
      assert a == [a[0]] + a[1..] && b == [b[0]] + b[1..];
    }
  }

  lemma {:induction false} SortedLengths(names: seq<string>)
    requires DifferentLengths(names)
    ensures DifferentLengths(Sort(LongerName, names))
  {
    var order := Sort(LongerName, names);
    assert Distinct(names);
    SortDistinct(names);
    SortedNames(names);
    forall i, j | 0 <= i < j < |order| ensures |order[i]| != |order[j]| {
      assert order[i] in names && order[j] in names && order[i] != order[j];
    }
  }

  lemma {:induction false} SameSort(names: seq<string>, names': seq<string>)
    requires multiset(names) == multiset(names') && DifferentLengths(names)
    ensures Sort(LongerName, names) == Sort(LongerName, names')
  {
    SortSorts(LongerName, names);
    SortSorts(LongerName, names');
    SortedLengths(names);
    OneOrder(Sort(LongerName, names), Sort(LongerName, names'));
  }

  /** The command does not depend on the order of the dictionary when its names differ in
      length, or when no order of them overtakes a hole. */
  lemma {:induction false} OrderIrrelevant(t: string, names: seq<string>, names': seq<string>,
                                           values: map<string, string>)
    requires multiset(names) == multiset(names') && Valuation(names, values) && Valuation(names', values)
    requires DifferentLengths(names) ||
             (AllPlain(names) && AllPlain(names') &&
              NoOvertake(t, Sort(LongerName, names)) && NoOvertake(t, Sort(LongerName, names')))
    ensures Command(t, names, values) == Command(t, names', values)
  {
    if DifferentLengths(names) {
      SameSort(names, names');
      SortedDict(names, values);
      SortedDict(names', values);
    } else {
      CommandIsMunch(t, names, values);
      CommandIsMunch(t, names', values);
    }
  }

  /** It does depend on it, for some values, when one order overtakes a hole and another does
      not. */
  lemma {:induction false} OrderMatters(t: string, names: seq<string>, names': seq<string>)
    requires multiset(names) == multiset(names') && Distinct(names') && AllPlain(names) && AllPlain(names')
    requires NoOvertake(t, Sort(LongerName, names)) && !NoOvertake(t, Sort(LongerName, names'))
    ensures exists values :: Valuation(names, values) && Valuation(names', values) &&
                             Command(t, names, values) != Command(t, names', values)
  {
    var values := CommandGoesWrong(t, names');
    forall n ensures n in names <==> n in names' {
      assert n in multiset(names) <==> n in multiset(names');
    }
    assert Valuation(names, values);
    CommandIsMunch(t, names, values);
  }

  // ----- Two equally long names

  lemma SortTwo(a: Item, b: Item)
    requires |a.0| == |b.0|
    ensures Sort(LongerFirst, [a, b]) == [a, b]
  {
    assert [a, b][1..] == [b] && [b][1..] == [];
    assert Sort(LongerFirst, [b]) == [b];
  }

  lemma SequentialTwo(t: string, a: Item, b: Item)
    ensures Sequential(t, [a, b]) == Replace(Replace(t, "$" + a.0, a.1), "$" + b.0, b.1)
  {
    assert [a] + [b] == [a, b];
    SequentialAppend(t, [a], b);
    SequentialAppend(t, [], a);
    assert [] + [a] == [a];
  }

  lemma CollisionMissed(s: string, n: string, v: string, x: string)
    requires Plain(s) && Plain(n) && Plain(v) && v != "" && |n| == |s + v| && n != s + v
    ensures Replace("$" + s + ("$" + n), "$" + (s + v), x) == "$" + s + ("$" + n)
  {
    ReplaceMiss(s, "$" + n, s + v, x);
    ReplaceMiss(n, "", s + v, x);
    assert "$" + n + "" == "$" + n;
  }

  lemma CollisionHappens(s: string, n: string, v: string, x: string)
    requires Plain(s) && Plain(n) && Plain(v) && |s| < |n|
    ensures Sequential("$" + s + ("$" + n), [(n, v), (s + v, x)]) == x
  {
    SequentialTwo("$" + s + ("$" + n), (n, v), (s + v, x));
    ReplaceMiss(s, "$" + n, n, v);
    ConcatAssociates("$", s, v);
  }

  lemma CollisionAvoided(s: string, n: string, v: string, x: string)
    requires Plain(s) && Plain(n) && Plain(v) && v != "" && |n| == |s + v| && n != s + v
    ensures Sequential("$" + s + ("$" + n), [(s + v, x), (n, v)]) == "$" + s + v
  {
    SequentialTwo("$" + s + ("$" + n), (s + v, x), (n, v));
    CollisionMissed(s, n, v, x);
    ReplaceMiss(s, "$" + n, n, v);
  }

  /** In `$s$n`, with the equally long names n standing for v and sv for x, the sort keeps
      the order of the dictionary, and the command is `x` or `$sv` accordingly. */
  lemma AdjacentPlaceholdersCollide(s: string, n: string, v: string, x: string)
    requires Plain(s) && Plain(n) && Plain(v) && v != "" && |n| == |s + v| && n != s + v
    ensures var t := "$" + s + ("$" + n);
            && Sequential(t, Sort(LongerFirst, [(n, v), (s + v, x)])) == x
            && Sequential(t, Sort(LongerFirst, [(s + v, x), (n, v)])) == "$" + s + v
            && Dict([(n, v), (s + v, x)]) == Dict([(s + v, x), (n, v)])
  {
    SortTwo((n, v), (s + v, x));
    SortTwo((s + v, x), (n, v));
    CollisionHappens(s, n, v, x);
    CollisionAvoided(s, n, v, x);
    assert [(n, v), (s + v, x)][1..] == [(s + v, x)] && [(s + v, x), (n, v)][1..] == [(n, v)];
    assert [(s + v, x)][1..] == [] && [(n, v)][1..] == [];
  }
}
