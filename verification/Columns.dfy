/** The two-column layout of the progress chart: each domain goes to the shorter column. */
module Columns {

  datatype Domain = Domain(name: string, height: nat)

  const DOMAIN_HEADER_H := 32
  const PLAN_ROW_H := 28
  const PADDING := 16

  /** The domains of the fixed order that have plans, with their heights. */
  function Listed(order: seq<string>, plans: map<string, nat>): seq<Domain> {
    if order == [] then []
    else if order[0] in plans then
      [Domain(order[0], DOMAIN_HEADER_H + plans[order[0]] * PLAN_ROW_H + PADDING)] + Listed(order[1..], plans)
    else Listed(order[1..], plans)
  }

  /** A domain is listed when it has plans, as high as its header, its rows and the padding. */
  lemma ListedOne(name: string, plans: map<string, nat>)
    ensures Listed([name], plans) == if name in plans then [Domain(name, 32 + 28 * plans[name] + 16)] else []
  {
    assert [name][1..] == [];
  }

  /** The order decides the order. */
  lemma {:induction false} ListedInOrder(first: seq<string>, rest: seq<string>, plans: map<string, nat>)
    ensures Listed(first + rest, plans) == Listed(first, plans) + Listed(rest, plans)
  {
    if first == [] {
      assert first + rest == rest;
    } else {
      assert (first + rest)[1..] == first[1..] + rest;
      ListedInOrder(first[1..], rest, plans);
    }
  }

  function Total(ds: seq<Domain>): nat {
    if ds == [] then 0 else Total(ds[..|ds| - 1]) + ds[|ds| - 1].height
  }

  function Tallest(ds: seq<Domain>): nat {
    if ds == [] then 0 else Max(Tallest(ds[..|ds| - 1]), ds[|ds| - 1].height)
  }

  function Max(a: nat, b: nat): nat {
    if a >= b then a else b
  }

  /** The domains whose mark is `side`, in order. */
  function Side(ds: seq<Domain>, marks: seq<bool>, side: bool): seq<Domain>
    requires |ds| == |marks|
  {
    if ds == [] then []
    else
      var n := |ds| - 1;
      Side(ds[..n], marks[..n], side) + if marks[n] == side then [ds[n]] else []
  }

  /** The taller column of a split. */
  function Height(ds: seq<Domain>, marks: seq<bool>): nat
    requires |ds| == |marks|
  {
    Max(Total(Side(ds, marks, true)), Total(Side(ds, marks, false)))
  }

  lemma TotalAppend(ds: seq<Domain>, d: Domain)
    ensures Total(ds + [d]) == Total(ds) + d.height
  {
  }

  /** Any split keeps the total, and one of its columns holds the tallest domain. */
  lemma {:induction false} SplitBounds(ds: seq<Domain>, marks: seq<bool>)
    requires |ds| == |marks|
    ensures Total(Side(ds, marks, true)) + Total(Side(ds, marks, false)) == Total(ds)
    ensures Tallest(ds) <= Height(ds, marks)
  {
    if ds != [] {
      var n := |ds| - 1;
      SplitBounds(ds[..n], marks[..n]);
      TotalAppend(Side(ds[..n], marks[..n], true), ds[n]);
      TotalAppend(Side(ds[..n], marks[..n], false), ds[n]);
      assert Side(ds, marks, !marks[n]) == Side(ds[..n], marks[..n], !marks[n]);
    }
  }

  /** A split whose columns differ by at most the tallest domain is within 3/2 of any other. */
  lemma BalancedIsNearOptimal(ds: seq<Domain>, marks: seq<bool>, other: seq<bool>)
    requires |ds| == |marks| == |other|
    requires -(Tallest(ds) as int) <= Total(Side(ds, marks, true)) - Total(Side(ds, marks, false)) <= Tallest(ds)
    ensures 2 * Height(ds, marks) <= 3 * Height(ds, other)
  {
    SplitBounds(ds, marks);
    SplitBounds(ds, other);
  }

  /** Each domain goes to the left column unless that is the taller one already. */
  ghost predicate Greedy(ds: seq<Domain>, marks: seq<bool>)
    requires |ds| == |marks|
  {
    forall i :: 0 <= i < |ds| ==>
      (marks[i] <==> Total(Side(ds[..i], marks[..i], true)) <= Total(Side(ds[..i], marks[..i], false)))
  }

  lemma GreedyNext(ds: seq<Domain>, marks: seq<bool>, d: Domain, mark: bool)
    requires |ds| == |marks| && Greedy(ds, marks)
    requires mark <==> Total(Side(ds, marks, true)) <= Total(Side(ds, marks, false))
    ensures Greedy(ds + [d], marks + [mark])
  {
    var ds', marks' := ds + [d], marks + [mark];
    forall i | 0 <= i < |ds'|
      ensures marks'[i] <==> Total(Side(ds'[..i], marks'[..i], true)) <= Total(Side(ds'[..i], marks'[..i], false))
    {
      if i < |ds| {
        assert ds'[..i] == ds[..i] && marks'[..i] == marks[..i];
      } else {
        assert ds'[..i] == ds && marks'[..i] == marks;
      }
    }
  }

  /** The columns of a split, with their heights, balanced to within the tallest domain. */
  ghost predicate Placed(
    ds: seq<Domain>, marks: seq<bool>, left: seq<Domain>, right: seq<Domain>, leftH: nat, rightH: nat)
  {
    && |marks| == |ds|
    && left == Side(ds, marks, true) && right == Side(ds, marks, false)
    && leftH == Total(left) && rightH == Total(right)
    && Greedy(ds, marks)
    && -(Tallest(ds) as int) <= leftH - rightH <= Tallest(ds)
  }

  lemma PlaceNext(
    ds: seq<Domain>, marks: seq<bool>, left: seq<Domain>, right: seq<Domain>, leftH: nat, rightH: nat, d: Domain)
    requires Placed(ds, marks, left, right, leftH, rightH)
    ensures if leftH <= rightH then Placed(ds + [d], marks + [true], left + [d], right, leftH + d.height, rightH)
            else Placed(ds + [d], marks + [false], left, right + [d], leftH, rightH + d.height)
  {
    GreedyNext(ds, marks, d, leftH <= rightH);
  }

  lemma PlacedNearOptimal(
    ds: seq<Domain>, marks: seq<bool>, left: seq<Domain>, right: seq<Domain>, leftH: nat, rightH: nat)
    requires Placed(ds, marks, left, right, leftH, rightH)
    ensures forall other: seq<bool> :: |other| == |ds| ==> 2 * Max(leftH, rightH) <= 3 * Height(ds, other)
  {
    forall other: seq<bool> | |other| == |ds| ensures 2 * Max(leftH, rightH) <= 3 * Height(ds, other) {
      BalancedIsNearOptimal(ds, marks, other);
    }
  }

  /** Places each listed domain once, in order; the columns differ by at most the tallest
      domain, and no other split has a taller column less than 2/3 as high. */
  method DistributeColumns(order: seq<string>, plans: map<string, nat>)
    returns (left: seq<Domain>, right: seq<Domain>, leftH: nat, rightH: nat, ghost marks: seq<bool>)
    ensures |marks| == |Listed(order, plans)|
    ensures left == Side(Listed(order, plans), marks, true) && right == Side(Listed(order, plans), marks, false)
    ensures leftH == Total(left) && rightH == Total(right)
    ensures Greedy(Listed(order, plans), marks)
    ensures -(Tallest(Listed(order, plans)) as int) <= leftH - rightH <= Tallest(Listed(order, plans))
    ensures forall other: seq<bool> :: |other| == |Listed(order, plans)| ==>
              2 * Max(leftH, rightH) <= 3 * Height(Listed(order, plans), other)
  {
    var ds := Listed(order, plans);
    left, right, leftH, rightH, marks := [], [], 0, 0, [];
    for i := 0 to |ds|
      invariant Placed(ds[..i], marks, left, right, leftH, rightH)
    {
      PlaceNext(ds[..i], marks, left, right, leftH, rightH, ds[i]);
      assert ds[..i] + [ds[i]] == ds[..i + 1];
      if leftH <= rightH {
        left, leftH, marks := left + [ds[i]], leftH + ds[i].height, marks + [true];
      } else {
        right, rightH, marks := right + [ds[i]], rightH + ds[i].height, marks + [false];
      }
    }
    assert ds[..|ds|] == ds;
    PlacedNearOptimal(ds, marks, left, right, leftH, rightH);
  }
}
