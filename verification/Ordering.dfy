/** Python's `sorted` on strings and on pairs of strings. */
module Ordering {

  /** Code-point lexicographic order. */
  predicate LexLe(a: string, b: string) {
    if a == [] then true
    else if b == [] then false
    else if a[0] != b[0] then a[0] < b[0]
    else LexLe(a[1..], b[1..])
  }

  predicate PairLe(p: (string, string), q: (string, string)) {
    if p.0 == q.0 then LexLe(p.1, q.1) else LexLe(p.0, q.0)
  }

  /** `k` is the first position where the strings differ, and there `a` has the lesser code. */
  ghost predicate DiffersAt(a: string, b: string, k: nat) {
    k < |a| && k < |b| && a[..k] == b[..k] && (a[k] as int) < b[k] as int
  }

  /** Dictionary order: a proper prefix comes first, and otherwise the first difference
      decides. */
  ghost predicate Before(a: string, b: string) {
    (|a| < |b| && a == b[..|a|]) || exists k: nat :: DiffersAt(a, b, k)
  }

  lemma BeforeTail(c: char, a: string, b: string)
    ensures Before([c] + a, [c] + b) <==> Before(a, b)
  {
    var a', b' := [c] + a, [c] + b;
    assert |a| < |b| ==> b'[..|a'|] == [c] + b[..|a|];
    assert a'[1..] == a && (|a| < |b| ==> b'[..|a'|][1..] == b[..|a|]);
    if k: nat :| DiffersAt(a, b, k) {
      assert a'[..k + 1] == [c] + a[..k] && b'[..k + 1] == [c] + b[..k];
      assert DiffersAt(a', b', k + 1);
    }
    if k: nat :| DiffersAt(a', b', k) {
      assert a'[..k][1..] == a[..k - 1] && b'[..k][1..] == b[..k - 1];
      assert DiffersAt(a, b, k - 1);
    }
  }

  lemma BeforeStart(a: string, b: string)
    requires a != "" && b != "" && a[0] != b[0]
    ensures Before(a, b) <==> (a[0] as int) < b[0] as int
  {
    assert (a[0] as int) < b[0] as int ==> DiffersAt(a, b, 0);
    assert |a| < |b| ==> b[..|a|][0] == b[0];
  }

  lemma {:induction false} LexIsBefore(a: string, b: string)
    ensures LexLe(a, b) <==> a == b || Before(a, b)
  {
    if a != [] && b != [] {
      if a[0] == b[0] {
        LexIsBefore(a[1..], b[1..]);
        assert a == [a[0]] + a[1..] && b == [a[0]] + b[1..];
        BeforeTail(a[0], a[1..], b[1..]);
      } else {
        BeforeStart(a, b);
      }
    }
  }

  /** What a sort key gives: any two elements compare, transitively; ties are allowed. */
  ghost predicate TotalPreorder<T(!new)>(le: (T, T) -> bool) {
    && (forall x, y :: le(x, y) || le(y, x))
    && forall x, y, z :: le(x, y) && le(y, z) ==> le(x, z)
  }

  lemma {:induction false} LexTotal(a: string, b: string)
    ensures LexLe(a, b) || LexLe(b, a)
    ensures LexLe(a, b) && LexLe(b, a) ==> a == b
  {
    if a != [] && b != [] && a[0] == b[0] {
      LexTotal(a[1..], b[1..]);
      assert a == [a[0]] + a[1..] && b == [b[0]] + b[1..];
    }
  }

  lemma {:induction false} LexTransitive(a: string, b: string, c: string)
    requires LexLe(a, b) && LexLe(b, c)
    ensures LexLe(a, c)
  {
    if a != [] && c != [] && a[0] == b[0] == c[0] {
      LexTransitive(a[1..], b[1..], c[1..]);
    }
  }

  lemma LexOrder()
    ensures TotalPreorder(LexLe)
  {
    forall a, b ensures LexLe(a, b) || LexLe(b, a) { LexTotal(a, b); }
    forall a, b, c | LexLe(a, b) && LexLe(b, c) ensures LexLe(a, c) { LexTransitive(a, b, c); }
  }

  lemma PairOrder()
    ensures TotalPreorder(PairLe)
  {
    forall p, q ensures PairLe(p, q) || PairLe(q, p) { LexTotal(p.0, q.0); LexTotal(p.1, q.1); }
    forall p, q, r | PairLe(p, q) && PairLe(q, r) ensures PairLe(p, r) { PairTransitive(p, q, r); }
  }

  lemma PairTransitive(p: (string, string), q: (string, string), r: (string, string))
    requires PairLe(p, q) && PairLe(q, r)
    ensures PairLe(p, r)
  {
    if p.0 == q.0 == r.0 {
      LexTransitive(p.1, q.1, r.1);
    } else if p.0 != q.0 && q.0 != r.0 {
      LexTransitive(p.0, q.0, r.0);
      LexTotal(p.0, q.0);
    }
  }

  ghost predicate SortedBy<T>(le: (T, T) -> bool, s: seq<T>) {
    forall i, j :: 0 <= i < j < |s| ==> le(s[i], s[j])
  }

  function Insert<T>(le: (T, T) -> bool, x: T, s: seq<T>): seq<T> {
    if s == [] || le(x, s[0]) then [x] + s else [s[0]] + Insert(le, x, s[1..])
  }

  function Sort<T>(le: (T, T) -> bool, s: seq<T>): seq<T> {
    if s == [] then [] else Insert(le, s[0], Sort(le, s[1..]))
  }

  lemma {:induction false} InsertMembers<T>(le: (T, T) -> bool, x: T, s: seq<T>)
    ensures multiset(Insert(le, x, s)) == multiset(s) + multiset{x}
  {
    if s != [] {
      assert s == [s[0]] + s[1..];
      if !le(x, s[0]) {
        InsertMembers(le, x, s[1..]);
      }
    }
  }

  lemma {:induction false} InsertSorts<T(!new)>(le: (T, T) -> bool, x: T, s: seq<T>)
    requires TotalPreorder(le) && SortedBy(le, s)
    ensures SortedBy(le, Insert(le, x, s))
  {
    if s == [] {
    } else if le(x, s[0]) {
      forall y | y in s ensures le(x, y) {
        var i :| 0 <= i < |s| && s[i] == y;
        assert i > 0 ==> le(s[0], s[i]);
      }
    } else {
      InsertSorts(le, x, s[1..]);
      InsertMembers(le, x, s[1..]);
      forall y | y in Insert(le, x, s[1..]) ensures le(s[0], y) {
        assert y in multiset(Insert(le, x, s[1..]));
        assert y == x || y in s[1..];
      }
    }
  }

  /** `sorted` is a sorted permutation. */
  lemma {:induction false} SortSorts<T(!new)>(le: (T, T) -> bool, s: seq<T>)
    requires TotalPreorder(le)
    ensures SortedBy(le, Sort(le, s))
    ensures multiset(Sort(le, s)) == multiset(s)
  {
    if s != [] {
      SortSorts(le, s[1..]);
      InsertSorts(le, s[0], Sort(le, s[1..]));
      InsertMembers(le, s[0], Sort(le, s[1..]));
      assert s == [s[0]] + s[1..];
    }
  }

  /** Iterating over a set lists each element once, in any order. */
  method ListSet<T(==)>(elements: set<T>) returns (r: seq<T>)
    ensures multiset(r) == multiset(elements)
  {
    var rest := elements;
    r := [];
    while rest != {}
      invariant multiset(r) + multiset(rest) == multiset(elements)
      decreases rest
    {
      var x :| x in rest;
      r, rest := r + [x], rest - {x};
    }
  }
}
