/** Numbering the nodes of a cluster and spreading them over zones and racks. */
module Spreading {
  import opened Basics

  // ----- Round robin

  /** How many of the n numbers from `lo` on leave remainder k. */
  function Hits(lo: nat, n: nat, m: nat, k: nat): nat
    requires m > 0
  {
    if n == 0 then 0 else Hits(lo, n - 1, m, k) + if (lo + n - 1) % m == k then 1 else 0
  }

  lemma MulAtLeast(m: int, d: int)
    requires m > 0
    ensures d >= 1 ==> m * d >= m
    ensures d <= -1 ==> m * d <= -m
  {
  }

  lemma DivModUnique(x: int, q: int, r: int, m: int)
    requires m > 0 && x == m * q + r && 0 <= r < m
    ensures x / m == q && x % m == r
  {
    assert x == m * (x / m) + x % m;
    assert m * (q - x / m) == x % m - r;
    MulAtLeast(m, q - x / m);
  }

  lemma ShiftDown(lo: int, n: int, m: int, k: int, q: int, p: int, r: int)
    requires m > 0 && 0 <= r < m && lo + n == m * q + k && n == m * p + r
    ensures (k - lo) % m == r
  {
    assert m * (p - q) == m * p - m * q;
    DivModUnique(k - lo, p - q, r, m);
  }

  lemma ShiftUp(lo: int, n: int, m: int, k: int, q: int, p: int, r: int)
    requires m > 0 && 0 <= k < m && k - lo == m * q + r && n == m * p + r
    ensures (lo + n) % m == k
  {
    assert m * (p - q) == m * p - m * q;
    DivModUnique(lo + n, p - q, k, m);
  }

  /** Equal remainders, moved by `lo`. */
  lemma ShiftedRemainder(lo: int, n: int, m: int, k: int)
    requires m > 0 && 0 <= k < m
    ensures (lo + n) % m == k <==> (k - lo) % m == n % m
  {
    if (lo + n) % m == k {
      ShiftDown(lo, n, m, k, (lo + n) / m, n / m, n % m);
    }
    if (k - lo) % m == n % m {
      ShiftUp(lo, n, m, k, (k - lo) / m, n / m, n % m);
    }
  }

  lemma NextDivMod(n: nat, m: nat)
    requires m > 0
    ensures n % m < m - 1 ==> (n + 1) / m == n / m && (n + 1) % m == n % m + 1
    ensures n % m == m - 1 ==> (n + 1) / m == n / m + 1 && (n + 1) % m == 0
  {
    var q, r := n / m, n % m;
    assert n == m * q + r;
    if r < m - 1 {
      DivModUnique(n + 1, q, r + 1, m);
    } else {
      assert n + 1 == m * (q + 1);
      DivModUnique(n + 1, q + 1, 0, m);
    }
  }

  /** Round robin is as even as can be: the first n % m remainders met get one more. */
  lemma {:induction false} HitsFormula(lo: nat, n: nat, m: nat, k: nat)
    requires m > 0 && k < m
    ensures Hits(lo, n, m, k) == n / m + if (k - lo) % m < n % m then 1 else 0
  {
    if n == 0 {
      DivModUnique(0, 0, 0, m);
    } else {
      HitsFormula(lo, n - 1, m, k);
      ShiftedRemainder(lo, n - 1, m, k);
      NextDivMod(n - 1, m);
    }
  }

  lemma HitsBalanced(lo: nat, n: nat, m: nat, j: nat, k: nat)
    requires m > 0 && j < m && k < m
    ensures Hits(lo, n, m, j) <= Hits(lo, n, m, k) + 1
  {
    HitsFormula(lo, n, m, j);
    HitsFormula(lo, n, m, k);
  }

  function SumHits(n: nat, m: nat, zones: nat): nat
    requires m > 0
  {
    if zones == 0 then 0 else SumHits(n, m, zones - 1) + Hits(0, n, m, zones - 1)
  }

  lemma {:induction false} SumHitsStep(n: nat, m: nat, zones: nat)
    requires m > 0
    ensures SumHits(n + 1, m, zones) == SumHits(n, m, zones) + if n % m < zones then 1 else 0
  {
    if zones > 0 {
      SumHitsStep(n, m, zones - 1);
    }
  }

  /** Over all zones, every node is placed. */
  lemma {:induction false} SumHitsTotal(n: nat, m: nat)
    requires m > 0
    ensures SumHits(n, m, m) == n
  {
    if n == 0 {
      SumHitsNone(m, m);
    } else {
      SumHitsTotal(n - 1, m);
      SumHitsStep(n - 1, m, m);
    }
  }

  lemma {:induction false} SumHitsNone(m: nat, zones: nat)
    requires m > 0
    ensures SumHits(0, m, zones) == 0
  {
    if zones > 0 {
      SumHitsNone(m, zones - 1);
    }
  }

  method NodesPerZone(num: nat, azs: nat) returns (perZone: array<nat>)
    requires azs > 0
    ensures fresh(perZone) && perZone.Length == azs
    ensures forall z :: 0 <= z < azs ==> perZone[z] == Hits(0, num, azs, z)
  {
    perZone := new nat[azs](_ => 0);
    for idx := 0 to num
      invariant forall z :: 0 <= z < azs ==> perZone[z] == Hits(0, idx, azs, z)
    {
      perZone[idx % azs] := perZone[idx % azs] + 1;
    }
  }

  // ----- Nodes

  datatype Node = Node(index: nat, dc: nat, rack: nat)

  /** `count` nodes numbered on from `start`; without a rack each takes one by its number. */
  function Batch(start: nat, count: nat, dc: nat, rack: Option<nat>, racks: nat): seq<Node>
    requires racks > 0
  {
    if count == 0 then []
    else
      var index := start + count;
      Batch(start, count - 1, dc, rack, racks) + [Node(index, dc, if rack.Some? then rack.value else index % racks)]
  }

  /** The nodes of the first `zones` zones of a datacenter. */
  function Datacenter(start: nat, num: nat, azs: nat, zones: nat, dc: nat, derive: bool, racks: nat): seq<Node>
    requires azs > 0 && racks > 0
  {
    if zones == 0 then []
    else
      Datacenter(start, num, azs, zones - 1, dc, derive, racks)
      + Batch(start + SumHits(num, azs, zones - 1), Hits(0, num, azs, zones - 1), dc,
              if derive then None else Some(zones - 1), racks)
  }

  function Sum(nums: seq<nat>): nat {
    if nums == [] then 0 else Sum(nums[..|nums| - 1]) + nums[|nums| - 1]
  }

  function Layout(nums: seq<nat>, azs: nat, derive: bool, racks: nat): seq<Node>
    requires azs > 0 && racks > 0
  {
    if nums == [] then []
    else
      var dc := |nums| - 1;
      Layout(nums[..dc], azs, derive, racks) + Datacenter(Sum(nums[..dc]), nums[dc], azs, azs, dc, derive, racks)
  }

  class Cluster {
    const racks: nat
    var nodes: seq<Node>
    var nodeIndex: nat

    /** `derive`: racks follow from node numbers instead of zones. */
    constructor (nNodes: seq<nat>, azs: nat, derive: bool, racks: nat)
      requires azs > 0 && racks > 0
      ensures nodes == Layout(nNodes, azs, derive, racks) && nodeIndex == Sum(nNodes)
    {
      this.racks := racks;
      nodes, nodeIndex := [], 0;
      new;
      for dc := 0 to |nNodes|
        invariant nodes == Layout(nNodes[..dc], azs, derive, racks) && nodeIndex == Sum(nNodes[..dc])
      {
        assert nNodes[..dc + 1][..dc] == nNodes[..dc];
        AddDatacenter(nNodes[dc], azs, dc, derive);
      }
      assert nNodes[..|nNodes|] == nNodes;
    }

    method AddDatacenter(num: nat, azs: nat, dc: nat, derive: bool)
      requires azs > 0 && racks > 0
      modifies this
      ensures nodes == old(nodes) + Datacenter(old(nodeIndex), num, azs, azs, dc, derive, racks)
      ensures nodeIndex == old(nodeIndex) + num
    {
      var perZone := NodesPerZone(num, azs);
      for az := 0 to azs
        invariant nodes == old(nodes) + Datacenter(old(nodeIndex), num, azs, az, dc, derive, racks)
        invariant nodeIndex == old(nodeIndex) + SumHits(num, azs, az)
        invariant forall z :: 0 <= z < azs ==> perZone[z] == Hits(0, num, azs, z)
      {
        AddNodes(perZone[az], dc, if derive then None else Some(az));
      }
      SumHitsTotal(num, azs);
    }

    method AddNodes(count: nat, dc: nat, rack: Option<nat>)
      requires racks > 0
      modifies this
      ensures nodes == old(nodes) + Batch(old(nodeIndex), count, dc, rack, racks)
      ensures nodeIndex == old(nodeIndex) + count
    {
      for i := 0 to count
        invariant nodes == old(nodes) + Batch(old(nodeIndex), i, dc, rack, racks)
        invariant nodeIndex == old(nodeIndex)
      {
        var index := nodeIndex + 1 + i;
        nodes := nodes + [Node(index, dc, if rack.None? then index % racks else rack.value)];
      }
      nodeIndex := nodeIndex + count;
    }
  }

  // ----- What the layout guarantees

  lemma {:induction false} BatchIndices(start: nat, count: nat, dc: nat, rack: Option<nat>, racks: nat)
    requires racks > 0
    ensures var b := Batch(start, count, dc, rack, racks);
            |b| == count && forall i :: 0 <= i < count ==> b[i].index == start + 1 + i && b[i].dc == dc
  {
    if count > 0 {
      BatchIndices(start, count - 1, dc, rack, racks);
    }
  }

  lemma {:induction false} DatacenterIndices(
    start: nat, num: nat, azs: nat, zones: nat, dc: nat, derive: bool, racks: nat)
    requires azs > 0 && racks > 0
    ensures var d := Datacenter(start, num, azs, zones, dc, derive, racks);
            |d| == SumHits(num, azs, zones) && forall i :: 0 <= i < |d| ==> d[i].index == start + 1 + i && d[i].dc == dc
  {
    if zones > 0 {
      DatacenterIndices(start, num, azs, zones - 1, dc, derive, racks);
      BatchIndices(start + SumHits(num, azs, zones - 1), Hits(0, num, azs, zones - 1), dc,
                   if derive then None else Some(zones - 1), racks);
    }
  }

  lemma {:induction false} LayoutNumbers(nums: seq<nat>, azs: nat, derive: bool, racks: nat)
    requires azs > 0 && racks > 0
    ensures var l := Layout(nums, azs, derive, racks);
            && |l| == Sum(nums)
            && (forall i :: 0 <= i < |l| ==> l[i].index == i + 1 && l[i].dc < |nums|)
  {
    if nums != [] {
      var dc := |nums| - 1;
      LayoutNumbers(nums[..dc], azs, derive, racks);
      DatacenterIndices(Sum(nums[..dc]), nums[dc], azs, azs, dc, derive, racks);
      SumHitsTotal(nums[dc], azs);
    }
  }

  lemma {:induction false} SumPrefix(nums: seq<nat>, d: nat)
    requires d < |nums|
    ensures Sum(nums[..d]) + nums[d] <= Sum(nums)
  {
    var dc := |nums| - 1;
    if d < dc {
      SumPrefix(nums[..dc], d);
      assert nums[..dc][..d] == nums[..d];
    }
  }

  /** Where the nodes of a datacenter stand. */
  lemma {:induction false} LayoutDatacenter(nums: seq<nat>, azs: nat, derive: bool, racks: nat, d: nat, i: nat)
    requires azs > 0 && racks > 0 && d < |nums| && i < |Layout(nums, azs, derive, racks)|
    ensures Layout(nums, azs, derive, racks)[i].dc == d <==> Sum(nums[..d]) <= i < Sum(nums[..d]) + nums[d]
  {
    var dc := |nums| - 1;
    var before := Layout(nums[..dc], azs, derive, racks);
    LayoutNumbers(nums[..dc], azs, derive, racks);
    LayoutNumbers(nums, azs, derive, racks);
    if i >= |before| {
      DatacenterIndices(Sum(nums[..dc]), nums[dc], azs, azs, dc, derive, racks);
      assert Layout(nums, azs, derive, racks)[i].dc == dc;
    } else {
      assert Layout(nums, azs, derive, racks)[i] == before[i];
    }
    if d < dc {
      assert nums[..dc][..d] == nums[..d];
      SumPrefix(nums[..dc], d);
      if i < |before| {
        LayoutDatacenter(nums[..dc], azs, derive, racks, d, i);
      }
    }
  }

  /** As many nodes as asked for, numbered 1, 2, 3, ... without gap or repeat, and those of a
      datacenter next to each other, as many as were asked for there. */
  lemma LayoutIndices(nums: seq<nat>, azs: nat, derive: bool, racks: nat)
    requires azs > 0 && racks > 0
    ensures var l := Layout(nums, azs, derive, racks);
            && |l| == Sum(nums)
            && (forall i :: 0 <= i < |l| ==> l[i].index == i + 1 && l[i].dc < |nums|)
            && (forall d :: 0 <= d < |nums| ==> Sum(nums[..d]) + nums[d] <= |l|)
            && (forall d, i :: 0 <= d < |nums| && 0 <= i < |l| ==>
                  (l[i].dc == d <==> Sum(nums[..d]) <= i < Sum(nums[..d]) + nums[d]))
  {
    var l := Layout(nums, azs, derive, racks);
    LayoutNumbers(nums, azs, derive, racks);
    forall d | 0 <= d < |nums| ensures Sum(nums[..d]) + nums[d] <= |l| {
      SumPrefix(nums, d);
    }
    forall d, i | 0 <= d < |nums| && 0 <= i < |l|
      ensures l[i].dc == d <==> Sum(nums[..d]) <= i < Sum(nums[..d]) + nums[d]
    {
      LayoutDatacenter(nums, azs, derive, racks, d, i);
    }
  }

  // ----- Which rack

  /** Racks of a run of nodes: by number, or zone after zone below `zones`. */
  ghost predicate Racked(nodes: seq<Node>, derive: bool, racks: nat, zones: nat)
    requires racks > 0
  {
    if derive then forall i :: 0 <= i < |nodes| ==> nodes[i].rack == nodes[i].index % racks
    else
      && (forall i :: 0 <= i < |nodes| ==> nodes[i].rack < zones)
      && (forall i, j :: 0 <= i < j < |nodes| ==> nodes[i].rack <= nodes[j].rack)
  }

  /** The rack asked for, or the one that follows from the number. */
  ghost predicate OnGivenRack(node: Node, rack: Option<nat>, racks: nat) {
    racks > 0 && node.rack == if rack.Some? then rack.value else node.index % racks
  }

  lemma {:induction false} BatchRacks(start: nat, count: nat, dc: nat, rack: Option<nat>, racks: nat, i: nat)
    requires racks > 0 && i < |Batch(start, count, dc, rack, racks)|
    ensures OnGivenRack(Batch(start, count, dc, rack, racks)[i], rack, racks)
  {
    var before := Batch(start, count - 1, dc, rack, racks);
    if i < |before| {
      BatchRacks(start, count - 1, dc, rack, racks, i);
    }
  }

  lemma {:induction false} DatacenterRacks(
    start: nat, num: nat, azs: nat, zones: nat, dc: nat, derive: bool, racks: nat)
    requires azs > 0 && racks > 0
    ensures Racked(Datacenter(start, num, azs, zones, dc, derive, racks), derive, racks, zones)
  {
    if zones > 0 {
      DatacenterRacks(start, num, azs, zones - 1, dc, derive, racks);
      var before := Datacenter(start, num, azs, zones - 1, dc, derive, racks);
      var from, count := start + SumHits(num, azs, zones - 1), Hits(0, num, azs, zones - 1);
      var rack := if derive then None else Some(zones - 1);
      var batch := Batch(from, count, dc, rack, racks);
      forall i | 0 <= i < |batch| ensures OnGivenRack(batch[i], rack, racks) {
        BatchRacks(from, count, dc, rack, racks, i);
      }
    }
  }

  /** Racks that follow from node numbers are the number modulo the racks; racks that follow
      from zones go through the zones in order, within each datacenter. */
  lemma {:induction false} LayoutRacks(nums: seq<nat>, azs: nat, derive: bool, racks: nat, i: nat, j: nat)
    requires azs > 0 && racks > 0 && i < j < |Layout(nums, azs, derive, racks)|
    ensures var l := Layout(nums, azs, derive, racks);
            && (derive ==> l[i].rack == l[i].index % racks && l[j].rack == l[j].index % racks)
            && (!derive ==> l[i].rack < azs && l[j].rack < azs)
            && (!derive && l[i].dc == l[j].dc ==> l[i].rack <= l[j].rack)
  {
    var dc := |nums| - 1;
    var before := Layout(nums[..dc], azs, derive, racks);
    var here := Datacenter(Sum(nums[..dc]), nums[dc], azs, azs, dc, derive, racks);
    LayoutNumbers(nums[..dc], azs, derive, racks);
    DatacenterIndices(Sum(nums[..dc]), nums[dc], azs, azs, dc, derive, racks);
    DatacenterRacks(Sum(nums[..dc]), nums[dc], azs, azs, dc, derive, racks);
    if j < |before| {
      LayoutRacks(nums[..dc], azs, derive, racks, i, j);
    } else if i < |before| {
      LayoutRack(nums[..dc], azs, derive, racks, i);
    }
  }

  lemma {:induction false} LayoutRack(nums: seq<nat>, azs: nat, derive: bool, racks: nat, i: nat)
    requires azs > 0 && racks > 0 && i < |Layout(nums, azs, derive, racks)|
    ensures var node := Layout(nums, azs, derive, racks)[i];
            if derive then node.rack == node.index % racks else node.rack < azs
  {
    var dc := |nums| - 1;
    DatacenterRacks(Sum(nums[..dc]), nums[dc], azs, azs, dc, derive, racks);
    if i < |Layout(nums[..dc], azs, derive, racks)| {
      LayoutRack(nums[..dc], azs, derive, racks, i);
    }
  }

  /** Nodes of a datacenter on a rack. */
  function OnRack(nodes: seq<Node>, dc: nat, rack: nat): nat {
    if nodes == [] then 0
    else
      var n := |nodes| - 1;
      OnRack(nodes[..n], dc, rack) + if nodes[n].dc == dc && nodes[n].rack == rack then 1 else 0
  }

  lemma {:induction false} OnRackAppend(a: seq<Node>, b: seq<Node>, dc: nat, rack: nat)
    ensures OnRack(a + b, dc, rack) == OnRack(a, dc, rack) + OnRack(b, dc, rack)
  {
    if b == [] {
      assert a + b == a;
    } else {
      var n := |b| - 1;
      assert (a + b)[..|a| + n] == a + b[..n];
      OnRackAppend(a, b[..n], dc, rack);
    }
  }

  lemma {:induction false} OnRackElsewhere(nodes: seq<Node>, dc: nat, rack: nat)
    requires forall i :: 0 <= i < |nodes| ==> nodes[i].dc != dc
    ensures OnRack(nodes, dc, rack) == 0
  {
    if nodes != [] {
      OnRackElsewhere(nodes[..|nodes| - 1], dc, rack);
    }
  }

  lemma {:induction false} BatchOnRack(start: nat, count: nat, dc: nat, rack: Option<nat>, racks: nat, r: nat)
    requires racks > 0
    ensures OnRack(Batch(start, count, dc, rack, racks), dc, r) ==
            if rack.None? then Hits(start + 1, count, racks, r) else if rack.value == r then count else 0
  {
    if count > 0 {
      BatchOnRack(start, count - 1, dc, rack, racks, r);
      var b := Batch(start, count, dc, rack, racks);
      assert b[..|b| - 1] == Batch(start, count - 1, dc, rack, racks);
    }
  }

  lemma {:induction false} HitsAppend(lo: nat, a: nat, b: nat, m: nat, k: nat)
    requires m > 0
    ensures Hits(lo, a + b, m, k) == Hits(lo, a, m, k) + Hits(lo + a, b, m, k)
  {
    if b > 0 {
      HitsAppend(lo, a, b - 1, m, k);
    }
  }

  lemma DatacenterOnRackStep(start: nat, num: nat, azs: nat, zones: nat, dc: nat, derive: bool, racks: nat, r: nat)
    requires azs > 0 && racks > 0 && zones > 0
    ensures var before, here := SumHits(num, azs, zones - 1), Hits(0, num, azs, zones - 1);
            OnRack(Datacenter(start, num, azs, zones, dc, derive, racks), dc, r) ==
            OnRack(Datacenter(start, num, azs, zones - 1, dc, derive, racks), dc, r)
            + if derive then Hits(start + before + 1, here, racks, r) else if r == zones - 1 then here else 0
  {
    var before, here := SumHits(num, azs, zones - 1), Hits(0, num, azs, zones - 1);
    var rack := if derive then None else Some(zones - 1);
    OnRackAppend(Datacenter(start, num, azs, zones - 1, dc, derive, racks),
                 Batch(start + before, here, dc, rack, racks), dc, r);
    BatchOnRack(start + before, here, dc, rack, racks, r);
  }

  lemma {:induction false} DerivedOnRack(start: nat, num: nat, azs: nat, zones: nat, dc: nat, racks: nat, r: nat)
    requires azs > 0 && racks > 0
    ensures OnRack(Datacenter(start, num, azs, zones, dc, true, racks), dc, r) ==
            Hits(start + 1, SumHits(num, azs, zones), racks, r)
  {
    if zones > 0 {
      DerivedOnRack(start, num, azs, zones - 1, dc, racks, r);
      DatacenterOnRackStep(start, num, azs, zones, dc, true, racks, r);
      HitsAppend(start + 1, SumHits(num, azs, zones - 1), Hits(0, num, azs, zones - 1), racks, r);
    }
  }

  lemma {:induction false} ZonedOnRack(start: nat, num: nat, azs: nat, zones: nat, dc: nat, racks: nat, r: nat)
    requires azs > 0 && racks > 0
    ensures OnRack(Datacenter(start, num, azs, zones, dc, false, racks), dc, r) ==
            if r < zones then Hits(0, num, azs, r) else 0
  {
    if zones > 0 {
      ZonedOnRack(start, num, azs, zones - 1, dc, racks, r);
      DatacenterOnRackStep(start, num, azs, zones, dc, false, racks, r);
    }
  }

  /** Another datacenter added does not change the racks of an earlier one, and finds its
      own racks empty. */
  lemma LayoutOnRackStep(nums: seq<nat>, azs: nat, derive: bool, racks: nat, d: nat, r: nat)
    requires azs > 0 && racks > 0 && d < |nums|
    ensures var dc := |nums| - 1;
            OnRack(Layout(nums, azs, derive, racks), d, r) ==
            if d == dc then OnRack(Datacenter(Sum(nums[..dc]), nums[dc], azs, azs, dc, derive, racks), dc, r)
            else OnRack(Layout(nums[..dc], azs, derive, racks), d, r)
  {
    var dc := |nums| - 1;
    var before := Layout(nums[..dc], azs, derive, racks);
    var here := Datacenter(Sum(nums[..dc]), nums[dc], azs, azs, dc, derive, racks);
    OnRackAppend(before, here, d, r);
    if d == dc {
      LayoutNumbers(nums[..dc], azs, derive, racks);
      OnRackElsewhere(before, d, r);
    } else {
      DatacenterIndices(Sum(nums[..dc]), nums[dc], azs, azs, dc, derive, racks);
      OnRackElsewhere(here, d, r);
    }
  }

  /** How the racks of one datacenter of the layout fill. */
  lemma {:induction false} LayoutOnRack(nums: seq<nat>, azs: nat, derive: bool, racks: nat, d: nat, r: nat)
    requires azs > 0 && racks > 0 && d < |nums|
    ensures OnRack(Layout(nums, azs, derive, racks), d, r) ==
            if derive then Hits(Sum(nums[..d]) + 1, nums[d], racks, r)
            else if r < azs then Hits(0, nums[d], azs, r) else 0
  {
    var dc := |nums| - 1;
    LayoutOnRackStep(nums, azs, derive, racks, d, r);
    if d == dc {
      SumHitsTotal(nums[dc], azs);
      DerivedOnRack(Sum(nums[..dc]), nums[dc], azs, azs, dc, racks, r);
      ZonedOnRack(Sum(nums[..dc]), nums[dc], azs, azs, dc, racks, r);
    } else {
      LayoutOnRack(nums[..dc], azs, derive, racks, d, r);
      assert nums[..dc][..d] == nums[..d];
    }
  }

  /** With racks from zones, each rack of a datacenter gets its equal share, and the first
      ones get what is left over, one node each. */
  lemma ZoneShares(nums: seq<nat>, azs: nat, racks: nat, d: nat, r: nat)
    requires azs > 0 && racks > 0 && d < |nums| && r < azs
    ensures OnRack(Layout(nums, azs, false, racks), d, r) ==
            nums[d] / azs + if r < nums[d] % azs then 1 else 0
  {
    LayoutOnRack(nums, azs, false, racks, d, r);
    HitsFormula(0, nums[d], azs, r);
    DivModUnique(r, 0, r, azs);
  }

  /** Within each datacenter, any two racks differ by at most one node, whether racks come
      from zones or from node numbers. */
  lemma RacksBalanced(nums: seq<nat>, azs: nat, derive: bool, racks: nat, d: nat, r1: nat, r2: nat)
    requires azs > 0 && racks > 0 && d < |nums|
    requires r1 < (if derive then racks else azs) && r2 < (if derive then racks else azs)
    ensures OnRack(Layout(nums, azs, derive, racks), d, r1) <= OnRack(Layout(nums, azs, derive, racks), d, r2) + 1
  {
    LayoutOnRack(nums, azs, derive, racks, d, r1);
    LayoutOnRack(nums, azs, derive, racks, d, r2);
    if derive {
      HitsBalanced(Sum(nums[..d]) + 1, nums[d], racks, r1, r2);
    } else {
      HitsBalanced(0, nums[d], azs, r1, r2);
    }
  }
}
