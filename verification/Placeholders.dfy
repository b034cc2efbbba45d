/** Filling `$name` placeholders of a stress command: one `str.replace` per parameter,
    longest name first, against one simultaneous substitution of the longest match. */
module Placeholders {
  import opened Basics
  import opened Ordering
  import opened Templates
  import opened Text

  type Item = (string, string)

  // ----- The loop

  function Sequential(t: string, items: seq<Item>): string
    decreases items
  {
    if items == [] then t else Sequential(Replace(t, "$" + items[0].0, items[0].1), items[1..])
  }

  /** The dictionary; of two equal names the first counts. */
  function Dict(items: seq<Item>): map<string, string> {
    if items == [] then map[] else Dict(items[1..])[items[0].0 := items[0].1]
  }

  function Names(items: seq<Item>): seq<string> {
    seq(|items|, i requires 0 <= i < |items| => items[i].0)
  }

  ghost predicate AllPlain(ss: seq<string>) {
    forall i :: 0 <= i < |ss| ==> Plain(ss[i])
  }

  ghost predicate PlainItems(items: seq<Item>) {
    forall i :: 0 <= i < |items| ==> Plain(items[i].0) && Plain(items[i].1)
  }

  /** No name comes before a longer name that it starts. */
  ghost predicate PrefixLast(names: seq<string>) {
    forall i, j :: 0 <= i < j < |names| ==> !(names[i] < names[j])
  }

  // ----- When the loop is right

  /** None of the first `b` names fills the hole `u`. */
  ghost predicate Open(names: seq<string>, b: nat, u: string) {
    b <= |names| && forall c :: 0 <= c < b ==> !(names[c] <= u)
  }

  /** Of the names, tried in order, `names[a]` is the one that fills the hole `u`. */
  ghost predicate Fills(names: seq<string>, a: nat, u: string) {
    a < |names| && names[a] <= u && Open(names, a, u)
  }

  /** Hole `k` is overtaken by name `b`: when `b` is tried, the hole is still open and starts
      `b`, and the hole after it has been filled, so that a value can complete the name. */
  ghost predicate Overtakes(ps: seq<Piece>, names: seq<string>, k: nat, a: nat, b: nat) {
    && k + 1 < |ps| && ps[k].Hole?
    && a < b < |names| && Fills(names, a, ps[k + 1].text)
    && ps[k].text < names[b] && Open(names, b, ps[k].text)
  }

  ghost predicate NoOvertake(t: string, names: seq<string>) {
    forall k: nat, a: nat, b: nat :: !Overtakes(Split(t), names, k, a, b)
  }

  // ----- Filling, piece by piece

  function Fill(p: Piece, item: Item): Piece {
    if p.Hole? && item.0 <= p.text then Text(item.1 + p.text[|item.0|..]) else p
  }

  function FillPiece(p: Piece, items: seq<Item>): Piece {
    if items == [] then p
    else
      var last := |items| - 1;
      Fill(FillPiece(p, items[..last]), items[last])
  }

  function FillEach(ps: seq<Piece>, items: seq<Item>): (qs: seq<Piece>)
    ensures |qs| == |ps| && forall k :: 0 <= k < |ps| ==> qs[k] == FillPiece(ps[k], items)
  {
    if ps == [] then [] else [FillPiece(ps[0], items)] + FillEach(ps[1..], items)
  }

  function FillAll(ps: seq<Piece>, item: Item): (qs: seq<Piece>)
    ensures |qs| == |ps| && forall k :: 0 <= k < |ps| ==> qs[k] == Fill(ps[k], item)
  {
    if ps == [] then [] else [Fill(ps[0], item)] + FillAll(ps[1..], item)
  }

  lemma FillEachNext(ps: seq<Piece>, items: seq<Item>, item: Item)
    ensures FillEach(ps, items + [item]) == FillAll(FillEach(ps, items), item)
  {
  }

  /** A piece stays as it is, or is a hole filled by the first name that matches in it. */
  lemma {:induction false} FillPieceCases(p: Piece, items: seq<Item>)
    ensures p.Text? ==> FillPiece(p, items) == p
    ensures p.Hole? && FillPiece(p, items) == p ==> forall c :: 0 <= c < |items| ==> !(items[c].0 <= p.text)
    ensures p.Hole? && FillPiece(p, items) != p ==>
              exists a: nat :: Fills(Names(items), a, p.text) && FillPiece(p, items) == Fill(p, items[a])
  {
    if items != [] {
      var last := |items| - 1;
      var init := items[..last];
      FillPieceCases(p, init);
      if p.Hole? {
        if FillPiece(p, init) != p {
          var a: nat :| Fills(Names(init), a, p.text) && FillPiece(p, init) == Fill(p, init[a]);
          assert forall c :: 0 <= c <= a ==> Names(items)[c] == Names(init)[c];
          assert Fills(Names(items), a, p.text) && items[a] == init[a];
        } else if items[last].0 <= p.text {
          assert forall c :: 0 <= c < last ==> items[c] == init[c];
          assert Fills(Names(items), last, p.text);
        }
      }
    }
  }

  lemma {:induction false} FillPieceClean(p: Piece, items: seq<Item>)
    requires Plain(p.text) && PlainItems(items)
    ensures Plain(FillPiece(p, items).text)
  {
    if items != [] {
      FillPieceClean(p, items[..|items| - 1]);
      assert Plain(items[|items| - 1].1);
    }
  }

  // ----- Replacing one name in pieces

  /** A hole that starts the name is followed by another hole, if by anything. */
  ghost predicate Quiet(qs: seq<Piece>, name: string) {
    forall k :: 0 <= k < |qs| - 1 && qs[k].Hole? && qs[k].text < name ==> qs[k + 1].Hole?
  }

  lemma {:induction false} ReplaceRendered(qs: seq<Piece>, item: Item)
    requires Clean(qs) && Plain(item.0) && Quiet(qs, item.0)
    ensures Replace(Render(qs), "$" + item.0, item.1) == Render(FillAll(qs, item))
  {
    if qs != [] {
      var rest := Render(qs[1..]);
      assert Quiet(qs[1..], item.0) by {
        assert forall k :: 0 <= k < |qs[1..]| ==> qs[1..][k] == qs[k + 1];
      }
      ReplaceRendered(qs[1..], item);
      if qs[0].Text? {
        ReplaceSkipsPlain(qs[0].text, rest, item.0, item.1);
      } else if item.0 <= qs[0].text {
        ReplaceHit(qs[0].text, rest, item.0, item.1);
      } else {
        ReplaceMiss(qs[0].text, rest, item.0, item.1);
      }
      RenderOne(Fill(qs[0], item), FillAll(qs[1..], item));
    }
  }

  lemma {:induction false} SequentialAppend(t: string, items: seq<Item>, item: Item)
    ensures Sequential(t, items + [item]) == Replace(Sequential(t, items), "$" + item.0, item.1)
    decreases items
  {
    if items == [] {
      assert items + [item] == [item] && [item][1..] == [];
    } else {
      assert (items + [item])[1..] == items[1..] + [item];
      SequentialAppend(Replace(t, "$" + items[0].0, items[0].1), items[1..], item);
    }
  }

  /** Until a name overtakes a hole, the next name meets only holes it may fill. */
  lemma NextIsQuiet(t: string, items: seq<Item>, j: nat)
    requires j < |items| && forall k: nat, a: nat :: !Overtakes(Split(t), Names(items), k, a, j)
    ensures Quiet(FillEach(Split(t), items[..j]), items[j].0)
  {
    var ps, done := Split(t), items[..j];
    var qs := FillEach(ps, done);
    SplitShape(t);
    forall k | 0 <= k < |qs| - 1 && qs[k].Hole? && qs[k].text < items[j].0 ensures qs[k + 1].Hole? {
      FillPieceCases(ps[k + 1], done);
      FillPieceCases(ps[k], done);
      if qs[k + 1].Text? {
        var a: nat :| Fills(Names(done), a, ps[k + 1].text);
        assert forall c :: 0 <= c <= a ==> Names(items)[c] == Names(done)[c];
        assert Overtakes(ps, Names(items), k, a, j);
      }
    }
  }

  lemma FillEachClean(ps: seq<Piece>, items: seq<Item>)
    requires Clean(ps) && PlainItems(items)
    ensures Clean(FillEach(ps, items))
  {
    forall k | 0 <= k < |ps| ensures Plain(FillEach(ps, items)[k].text) {
      FillPieceClean(ps[k], items);
    }
  }

  /** As long as nothing has been overtaken, the loop fills each hole by itself. */
  lemma {:induction false} SequentialFills(t: string, items: seq<Item>, j: nat)
    requires j <= |items| && PlainItems(items)
    requires forall k: nat, a: nat, b: nat :: b < j ==> !Overtakes(Split(t), Names(items), k, a, b)
    ensures Sequential(t, items[..j]) == Render(FillEach(Split(t), items[..j]))
  {
    var ps := Split(t);
    if j == 0 {
      SplitRenders(t);
      assert FillEach(ps, []) == ps;
    } else {
      var done, item := items[..j - 1], items[j - 1];
      assert items[..j] == done + [item];
      SequentialFills(t, items, j - 1);
      SequentialAppend(t, done, item);
      FillEachNext(ps, done, item);
      NextIsQuiet(t, items, j - 1);
      SplitShape(t);
      FillEachClean(ps, done);
      ReplaceRendered(FillEach(ps, done), item);
    }
  }

  // ----- The longest name is the first

  lemma {:induction false} DictNames(items: seq<Item>, name: string)
    ensures name in Dict(items) <==> exists i :: 0 <= i < |items| && items[i].0 == name
  {
    if items != [] {
      DictNames(items[1..], name);
      if name in Dict(items[1..]) {
        var i :| 0 <= i < |items[1..]| && items[1..][i].0 == name;
        assert items[i + 1].0 == name;
      }
    }
  }

  /** The first occurrence of a name gives its value. */
  lemma {:induction false} DictFirst(items: seq<Item>, a: nat)
    requires a < |items| && forall c :: 0 <= c < a ==> items[c].0 != items[a].0
    ensures items[a].0 in Dict(items) && Dict(items)[items[a].0] == items[a].1
  {
    if a > 0 {
      DictFirst(items[1..], a - 1);
    }
  }

  lemma FirstIsLongest(items: seq<Item>, a: nat, u: string)
    requires PrefixLast(Names(items)) && Fills(Names(items), a, u)
    ensures Longest(Dict(items), u, |u|) == |items[a].0| && u[..|items[a].0|] == items[a].0
    ensures Dict(items)[items[a].0] == items[a].1
  {
    var name := items[a].0;
    assert u[..|name|] == name;
    forall c | 0 <= c < a ensures items[c].0 != name {
      assert !(Names(items)[c] <= u);
    }
    DictFirst(items, a);
    forall j | |name| < j <= |u| ensures u[..j] !in Dict(items) {
      DictNames(items, u[..j]);
      forall i | 0 <= i < |items| ensures items[i].0 != u[..j] {
        assert name < u[..j];
        assert i > a ==> !(Names(items)[a] < Names(items)[i]);
        assert i < a ==> !(Names(items)[i] <= u);
      }
    }
  }

  lemma NoneIsLongest(items: seq<Item>, u: string)
    requires forall c :: 0 <= c < |items| ==> !(items[c].0 <= u)
    ensures Longest(Dict(items), u, |u|) < 0
  {
  }

  lemma FillPieceMunches(p: Piece, items: seq<Item>)
    requires PrefixLast(Names(items))
    ensures FillPiece(p, items) == MunchPiece(p, Dict(items))
  {
    FillPieceCases(p, items);
    if p.Hole? {
      if FillPiece(p, items) == p {
        NoneIsLongest(items, p.text);
      } else {
        var a: nat :| Fills(Names(items), a, p.text) && FillPiece(p, items) == Fill(p, items[a]);
        FirstIsLongest(items, a, p.text);
      }
    }
  }

  lemma FillEachMunches(t: string, items: seq<Item>)
    requires PrefixLast(Names(items)) && PlainItems(items)
    ensures Render(FillEach(Split(t), items)) == Munch(t, Dict(items))
  {
    var ps := Split(t);
    forall name | name in Dict(items) ensures Plain(name) {
      DictNames(items, name);
    }
    MunchSplits(t, Dict(items));
    forall k | 0 <= k < |ps| ensures FillEach(ps, items)[k] == MunchAll(ps, Dict(items))[k] {
      FillPieceMunches(ps[k], items);
    }
    assert FillEach(ps, items) == MunchAll(ps, Dict(items));
  }

  /** Replacing the names one after another, no name before a longer one it starts, is the
      simultaneous substitution of longest matches unless a hole is overtaken. */
  lemma SequentialIsMunch(t: string, items: seq<Item>)
    requires PlainItems(items) && PrefixLast(Names(items)) && NoOvertake(t, Names(items))
    ensures Sequential(t, items) == Munch(t, Dict(items))
  {
    SequentialFills(t, items, |items|);
    assert items[..|items|] == items;
    FillEachMunches(t, items);
  }

  // ----- A dictionary and its order

  predicate LongerName(a: string, b: string) {
    |a| >= |b|
  }

  predicate LongerFirst(a: Item, b: Item) {
    LongerName(a.0, b.0)
  }

  /** The items of a dictionary whose keys come in the given order. */
  function ItemsOf(names: seq<string>, values: map<string, string>): seq<Item>
    requires forall n :: n in names ==> n in values
  {
    seq(|names|, i requires 0 <= i < |names| => (names[i], values[names[i]]))
  }

  lemma {:induction false} InsertItems(x: string, names: seq<string>, values: map<string, string>)
    requires x in values && forall n :: n in names ==> n in values
    ensures forall n :: n in Insert(LongerName, x, names) ==> n in values
    ensures Insert(LongerFirst, (x, values[x]), ItemsOf(names, values)) ==
            ItemsOf(Insert(LongerName, x, names), values)
  {
    var items := ItemsOf(names, values);
    if names == [] || LongerName(x, names[0]) {
      assert [(x, values[x])] + items == ItemsOf([x] + names, values);
    } else {
      InsertItems(x, names[1..], values);
      assert items[1..] == ItemsOf(names[1..], values);
      assert items[0] == (names[0], values[names[0]]);
    }
  }

  /** The names of one length, in order. */
  function OfLength(names: seq<string>, n: nat): seq<string> {
    if names == [] then [] else (if |names[0]| == n then [names[0]] else []) + OfLength(names[1..], n)
  }

  lemma {:induction false} InsertKeepsTies(x: string, names: seq<string>, n: nat)
    ensures OfLength(Insert(LongerName, x, names), n) == OfLength([x] + names, n)
  {
    if names != [] && !LongerName(x, names[0]) {
      InsertKeepsTies(x, names[1..], n);
      assert ([x] + names)[1..] == names && ([x] + names[1..])[1..] == names[1..];
    }
  }

  /** The sort is stable: names of one length keep the order of the dictionary. */
  lemma {:induction false} SortKeepsTies(names: seq<string>, n: nat)
    ensures OfLength(Sort(LongerName, names), n) == OfLength(names, n)
  {
    if names != [] {
      SortKeepsTies(names[1..], n);
      InsertKeepsTies(names[0], Sort(LongerName, names[1..]), n);
      assert ([names[0]] + Sort(LongerName, names[1..]))[1..] == Sort(LongerName, names[1..]);
    }
  }

  /** Sorting the items is sorting the names. */
  lemma {:induction false} SortItems(names: seq<string>, values: map<string, string>)
    requires forall n :: n in names ==> n in values
    ensures forall n :: n in Sort(LongerName, names) ==> n in values
    ensures Sort(LongerFirst, ItemsOf(names, values)) == ItemsOf(Sort(LongerName, names), values)
  {
    if names != [] {
      SortItems(names[1..], values);
      InsertItems(names[0], Sort(LongerName, names[1..]), values);
      assert ItemsOf(names, values)[1..] == ItemsOf(names[1..], values);
    }
  }

  lemma SortedNames(names: seq<string>)
    ensures PrefixLast(Sort(LongerName, names))
    ensures forall n :: n in Sort(LongerName, names) <==> n in names
  {
    SortSorts(LongerName, names);
    var ordered := Sort(LongerName, names);
    assert forall n :: n in multiset(ordered) <==> n in names;
    assert forall i, j :: 0 <= i < j < |ordered| ==> LongerName(ordered[i], ordered[j]);
  }

  lemma {:induction false} DictOfItems(names: seq<string>, values: map<string, string>)
    requires forall n :: n in names ==> n in values
    ensures Dict(ItemsOf(names, values)).Keys == set n | n in names
    ensures forall n :: n in names ==> Dict(ItemsOf(names, values))[n] == values[n]
  {
    if names != [] {
      DictOfItems(names[1..], values);
      assert ItemsOf(names, values)[1..] == ItemsOf(names[1..], values);
    }
  }

  lemma ItemsOfDict(params: seq<Item>)
    requires Distinct(Names(params))
    ensures Dict(params).Keys == set n | n in Names(params)
    ensures params == ItemsOf(Names(params), Dict(params))
  {
    var names := Names(params);
    forall i | 0 <= i < |params| ensures names[i] in Dict(params) && Dict(params)[names[i]] == params[i].1 {
      forall c | 0 <= c < i ensures params[c].0 != params[i].0 {
        assert names[c] != names[i];
      }
      DictFirst(params, i);
    }
    forall n | n in Dict(params) ensures n in names {
      DictNames(params, n);
      var i :| 0 <= i < |params| && params[i].0 == n;
      assert names[i] == n;
    }
  }

  /** Sorting keeps the dictionary. */
  lemma SortedDict(names: seq<string>, values: map<string, string>)
    requires values.Keys == set n | n in names
    ensures forall n :: n in Sort(LongerName, names) ==> n in values
    ensures var ordered := ItemsOf(Sort(LongerName, names), values);
            && Sort(LongerFirst, ItemsOf(names, values)) == ordered
            && Names(ordered) == Sort(LongerName, names) && Dict(ordered) == values
  {
    var order := Sort(LongerName, names);
    SortItems(names, values);
    SortedNames(names);
    DictOfItems(order, values);
  }

  ghost predicate PlainValues(values: map<string, string>) {
    forall n :: n in values ==> Plain(n) && Plain(values[n])
  }

  lemma PlainDict(params: seq<Item>)
    requires PlainItems(params)
    ensures PlainValues(Dict(params))
  {
  }

  /** The parameters in the order in which the loop takes them. */
  lemma SortedParams(params: seq<Item>)
    requires Distinct(Names(params))
    ensures var ordered := Sort(LongerFirst, params);
            && Names(ordered) == Sort(LongerName, Names(params))
            && PrefixLast(Names(ordered)) && Dict(ordered) == Dict(params)
            && (PlainItems(params) ==> PlainItems(ordered))
  {
    ItemsOfDict(params);
    SortedDict(Names(params), Dict(params));
    SortedNames(Names(params));
    if PlainItems(params) {
      PlainDict(params);
    }
  }

  // ----- Templates in which nothing is overtaken

  /** A `$` and the next one enclose no proper prefix of the name. */
  ghost predicate Separated(t: string, name: string) {
    forall i, j :: 0 <= i < j < |t| && t[i] == '$' && t[j] == '$' && Plain(t[i + 1..j]) ==> !(t[i + 1..j] < name)
  }

  /** Only the last hole may hold a proper prefix of the name. */
  ghost predicate Parted(ps: seq<Piece>, name: string) {
    forall k :: 0 <= k < |ps| - 1 && ps[k].Hole? ==> !(ps[k].text < name)
  }

  lemma {:induction false} SplitHead(t: string)
    ensures var h := Split(t)[0].text;
            && h <= t && Plain(h)
            && (|Split(t)| > 1 ==> |h| < |t| && t[|h|] == '$')
  {
    if t != "" {
      SplitHead(t[1..]);
    }
  }

  lemma SeparatedTail(t: string, name: string)
    requires Separated(t, name) && t != ""
    ensures Separated(t[1..], name)
  {
    var u := t[1..];
    forall i, j | 0 <= i < j < |u| && u[i] == '$' && u[j] == '$' && Plain(u[i + 1..j]) ensures !(u[i + 1..j] < name) {
      assert u[i + 1..j] == t[(i + 1) + 1..j + 1];
    }
  }

  lemma {:induction false} SplitParted(t: string, name: string)
    requires Separated(t, name)
    ensures Parted(Split(t), name)
  {
    if t != "" {
      SeparatedTail(t, name);
      SplitParted(t[1..], name);
      var ps := Split(t[1..]);
      SplitHead(t[1..]);
      if t[0] == '$' && |ps| > 1 {
        var h := ps[0].text;
        assert t[1..|h| + 1] == h && t[|h| + 1] == '$';
        assert !(t[0 + 1..|h| + 1] < name);
      }
    }
  }

  /** A character that no name contains, between each `$` and the next, keeps every hole from
      being overtaken, in whatever order the names are tried. */
  lemma SeparatorSuffices(t: string, names: seq<string>)
    requires forall i, j, name :: 0 <= i < j < |t| && t[i] == '$' && t[j] == '$' && name in names ==>
               exists k :: i < k < j && t[k] !in name
    ensures NoOvertake(t, names)
  {
    forall name | name in names ensures Parted(Split(t), name) {
      assert Separated(t, name);
      SplitParted(t, name);
    }
    forall k: nat, a: nat, b: nat ensures !Overtakes(Split(t), names, k, a, b) {
      if b < |names| && k + 1 < |Split(t)| {
        assert Parted(Split(t), names[b]);
      }
    }
  }

  // ----- run_step

  /** The loop over the sorted parameters. */
  method FillTemplate(t: string, params: seq<Item>) returns (command: string)
    requires Distinct(Names(params))
    ensures command == Sequential(t, Sort(LongerFirst, params))
    ensures PlainItems(params) && NoOvertake(t, Sort(LongerName, Names(params))) ==> command == Munch(t, Dict(params))
  {
    var ordered := Sort(LongerFirst, params);
    command := t;
    var i := 0;
    while i < |ordered|
      invariant 0 <= i <= |ordered|
      invariant Sequential(command, ordered[i..]) == Sequential(t, ordered)
    {
      command := Replace(command, "$" + ordered[i].0, ordered[i].1);
      i := i + 1;
    }
    SortedParams(params);
    if PlainItems(params) && NoOvertake(t, Sort(LongerName, Names(params))) {
      SequentialIsMunch(t, ordered);
    }
  }
}
