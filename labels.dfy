/**
 * Coordinate labels of a raster cube and the sequence utilities the label
 * bookkeeping is built from: a total order on labels, the sorted de-duplicated
 * form numpy's `sorted(set(..))`, `setdiff1d` and `intersect1d` return, and the
 * first-occurrence de-duplication of pandas' `factorize` and of insertion-ordered
 * dictionaries.
 */
module Labels {

  /** A coordinate label. Timestamps are integers (`Num`), band names are text. */
  datatype Label = Num(n: int) | Text(s: string)

  /** Lexicographic order on strings. */
  predicate StrLt(a: string, b: string)
    decreases |a|
  {
    if |a| == 0 then |b| > 0
    else if |b| == 0 then false
    else if a[0] == b[0] then StrLt(a[1..], b[1..])
    else a[0] < b[0]
  }

  /** Strict order on labels: numbers by value, then text lexicographically. */
  predicate Lt(a: Label, b: Label) {
    match (a, b)
    case (Num(x), Num(y)) => x < y
    case (Num(_), Text(_)) => true
    case (Text(_), Num(_)) => false
    case (Text(x), Text(y)) => StrLt(x, y)
  }

  predicate Le(a: Label, b: Label) {
    a == b || Lt(a, b)
  }

  lemma {:induction false} StrLtIrreflexive(a: string)
    ensures !StrLt(a, a)
  {
    if |a| > 0 {
      StrLtIrreflexive(a[1..]);
    }
  }

  lemma {:induction false} StrLtTransitive(a: string, b: string, c: string)
    requires StrLt(a, b) && StrLt(b, c)
    ensures StrLt(a, c)
    decreases |a|
  {
    if |a| > 0 && |b| > 0 && |c| > 0 && a[0] == b[0] == c[0] {
      StrLtTransitive(a[1..], b[1..], c[1..]);
    }
  }

  lemma {:induction false} StrLtTotal(a: string, b: string)
    requires a != b
    ensures StrLt(a, b) || StrLt(b, a)
    decreases |a|
  {
    if |a| > 0 && |b| > 0 && a[0] == b[0] {
      assert a == [a[0]] + a[1..] && b == [b[0]] + b[1..];
      StrLtTotal(a[1..], b[1..]);
    }
  }

  lemma LtIrreflexive(a: Label)
    ensures !Lt(a, a)
  {
    if a.Text? {
      StrLtIrreflexive(a.s);
    }
  }

  lemma LtTransitive(a: Label, b: Label, c: Label)
    requires Lt(a, b) && Lt(b, c)
    ensures Lt(a, c)
  {
    if a.Text? && b.Text? && c.Text? {
      StrLtTransitive(a.s, b.s, c.s);
    }
  }

  lemma LtTotal(a: Label, b: Label)
    requires a != b
    ensures Lt(a, b) || Lt(b, a)
  {
    if a.Text? && b.Text? {
      StrLtTotal(a.s, b.s);
    }
  }

  lemma LeAntisymmetric(a: Label, b: Label)
    requires Le(a, b) && Le(b, a)
    ensures a == b
  {
    if a != b {
      LtTransitive(a, b, a);
      LtIrreflexive(a);
    }
  }

  /** Every element is strictly smaller than every later one. */
  predicate StrictlyIncreasing(xs: seq<Label>) {
    forall i, j :: 0 <= i < j < |xs| ==> Lt(xs[i], xs[j])
  }

  predicate NonDecreasing(xs: seq<Label>) {
    forall i, j :: 0 <= i < j < |xs| ==> Le(xs[i], xs[j])
  }

  predicate NoDuplicates<T(==)>(xs: seq<T>) {
    forall i, j :: 0 <= i < j < |xs| ==> xs[i] != xs[j]
  }

  /** The elements of `xs` as a set. */
  function Elems<T>(xs: seq<T>): set<T> {
    set x | x in xs
  }

  /** Inserts `x` into the strictly increasing `s`, unless it is already there. */
  function Insert(x: Label, s: seq<Label>): (r: seq<Label>)
    requires StrictlyIncreasing(s)
    ensures StrictlyIncreasing(r)
    ensures Elems(r) == Elems(s) + {x}
  {
    if s == [] then [x]
    else if x == s[0] then s
    else if Lt(x, s[0]) then
      assert forall j :: 0 < j < |s| ==> Lt(x, s[j]) by {
        forall j | 0 < j < |s| ensures Lt(x, s[j]) {
          LtTransitive(x, s[0], s[j]);
        }
      }
      [x] + s
    else
      LtTotal(x, s[0]);
      var rest := Insert(x, s[1..]);
      InsertCons(x, s, rest);
      [s[0]] + rest
  }

  lemma InsertCons(x: Label, s: seq<Label>, rest: seq<Label>)
    requires s != [] && StrictlyIncreasing(s) && Lt(s[0], x)
    requires StrictlyIncreasing(rest) && Elems(rest) == Elems(s[1..]) + {x}
    ensures StrictlyIncreasing([s[0]] + rest)
    ensures Elems([s[0]] + rest) == Elems(s) + {x}
  {
    assert s == [s[0]] + s[1..];
    assert Elems(s) == {s[0]} + Elems(s[1..]);
    forall k | 0 <= k < |rest| ensures Lt(s[0], rest[k]) {
      assert rest[k] in Elems(rest);
    }
    var r := [s[0]] + rest;
    forall i, j | 0 <= i < j < |r| ensures Lt(r[i], r[j]) {
      if i > 0 {
        assert r[i] == rest[i - 1] && r[j] == rest[j - 1];
      }
    }
    assert Elems(r) == {s[0]} + Elems(rest);
  }

  /**
   * The sorted, duplicate-free arrangement of the elements of `xs`
   * (numpy's `sorted(set(xs))`, `unique`, `setdiff1d`, `intersect1d`).
   */
  function SortUnique(xs: seq<Label>): (r: seq<Label>)
    ensures StrictlyIncreasing(r)
    ensures Elems(r) == Elems(xs)
  {
    if xs == [] then []
    else
      assert Elems(xs) == {xs[0]} + Elems(xs[1..]) by {
        assert xs == [xs[0]] + xs[1..];
      }
      Insert(xs[0], SortUnique(xs[1..]))
  }

  lemma StrictlyIncreasingNoDuplicates(xs: seq<Label>)
    requires StrictlyIncreasing(xs)
    ensures NoDuplicates(xs)
  {
    forall i, j | 0 <= i < j < |xs| ensures xs[i] != xs[j] {
      LtIrreflexive(xs[i]);
    }
  }

  /** A duplicate-free sequence has as many elements as its set. */
  lemma {:induction false} NoDuplicatesCard<T>(xs: seq<T>)
    requires NoDuplicates(xs)
    ensures |Elems(xs)| == |xs|
  {
    if xs != [] {
      var t := xs[1..];
      assert xs == [xs[0]] + t;
      assert Elems(xs) == {xs[0]} + Elems(t);
      assert xs[0] !in Elems(t);
      NoDuplicatesCard(t);
    }
  }

  /** The sorted unique form has exactly as many elements as there are distinct inputs. */
  lemma SortUniqueLength(xs: seq<Label>)
    ensures |SortUnique(xs)| == |Elems(xs)|
  {
    StrictlyIncreasingNoDuplicates(SortUnique(xs));
    NoDuplicatesCard(SortUnique(xs));
  }

  /** Two strictly increasing sequences with the same elements are equal. */
  lemma {:induction false} StrictlyIncreasingUnique(a: seq<Label>, b: seq<Label>)
    requires StrictlyIncreasing(a) && StrictlyIncreasing(b)
    requires Elems(a) == Elems(b)
    ensures a == b
    decreases |a|
  {
    assert a != [] ==> a[0] in Elems(b);
    assert b != [] ==> b[0] in Elems(a);
    if a != [] && b != [] {
      assert a[0] in Elems(b) && b[0] in Elems(a);
      LeAntisymmetric(a[0], b[0]);
      assert Elems(a[1..]) == Elems(a) - {a[0]} by {
        assert a == [a[0]] + a[1..];
        LtIrreflexive(a[0]);
      }
      assert Elems(b[1..]) == Elems(b) - {b[0]} by {
        assert b == [b[0]] + b[1..];
        LtIrreflexive(b[0]);
      }
      StrictlyIncreasingUnique(a[1..], b[1..]);
    }
  }

  /**
   * First-occurrence de-duplication: walk `xs` left to right and keep each
   * label the first time it is seen.
   */
  function Distinct(xs: seq<Label>): seq<Label>
  {
    if xs == [] then []
    else
      var d := Distinct(xs[..|xs| - 1]);
      if xs[|xs| - 1] in d then d else d + [xs[|xs| - 1]]
  }

  /** Position of the first occurrence of `x` in `xs`. */
  function FirstIndex(xs: seq<Label>, x: Label): (i: nat)
    requires x in xs
    ensures i < |xs| && xs[i] == x && x !in xs[..i]
  {
    if xs[0] == x then 0 else 1 + FirstIndex(xs[1..], x)
  }

  lemma {:induction false} DistinctProperties(xs: seq<Label>)
    ensures NoDuplicates(Distinct(xs))
    ensures Elems(Distinct(xs)) == Elems(xs)
    ensures |Distinct(xs)| <= |xs|
  {
    if xs != [] {
      var init := xs[..|xs| - 1];
      DistinctProperties(init);
      assert xs == init + [xs[|xs| - 1]];
      assert Elems(xs) == Elems(init) + {xs[|xs| - 1]};
    }
  }

  /** A sequence is duplicate-free exactly when its set is as large as the sequence (`len(set(xs)) == len(xs)`). */
  lemma {:induction false} SetSizeTest(xs: seq<Label>)
    ensures |Elems(xs)| == |xs| <==> NoDuplicates(xs)
  {
    DistinctProperties(xs);
    NoDuplicatesCard(Distinct(xs));
    if NoDuplicates(xs) {
      NoDuplicatesCard(xs);
    } else {
      DistinctShorter(xs);
    }
  }

  lemma {:induction false} DistinctShorter(xs: seq<Label>)
    requires !NoDuplicates(xs)
    ensures |Distinct(xs)| < |xs|
  {
    var init := xs[..|xs| - 1];
    var last := xs[|xs| - 1];
    DistinctProperties(init);
    if NoDuplicates(init) {
      var i, j :| 0 <= i < j < |xs| && xs[i] == xs[j];
      assert j == |xs| - 1 && init[i] == last;
      assert last in Elems(Distinct(init));
    } else {
      DistinctShorter(init);
    }
  }

  /** The labels of `Distinct(xs)` appear in the order of their first occurrences in `xs`. */
  lemma {:induction false} DistinctFirstOccurrenceOrder(xs: seq<Label>, i: nat, j: nat)
    requires i < j < |Distinct(xs)|
    ensures Distinct(xs)[i] in xs && Distinct(xs)[j] in xs
    ensures FirstIndex(xs, Distinct(xs)[i]) < FirstIndex(xs, Distinct(xs)[j])
  {
    DistinctProperties(xs);
    var d := Distinct(xs);
    assert d[i] in Elems(xs) && d[j] in Elems(xs);
    var init := xs[..|xs| - 1];
    var last := xs[|xs| - 1];
    DistinctProperties(init);
    FirstIndexPrefix(xs, init, d[i]);
    if j < |Distinct(init)| {
      assert d[i] == Distinct(init)[i] && d[j] == Distinct(init)[j];
      DistinctFirstOccurrenceOrder(init, i, j);
      FirstIndexPrefix(xs, init, d[j]);
    } else {
      assert d[j] == last && last !in Distinct(init);
      assert last !in Elems(init);
      assert d[i] in Elems(Distinct(init));
      FirstIndexLast(xs, last);
    }
  }

  lemma FirstIndexPrefix(xs: seq<Label>, init: seq<Label>, x: Label)
    requires |init| <= |xs| && init == xs[..|init|] && x in init
    ensures x in xs && FirstIndex(xs, x) == FirstIndex(init, x)
  {
    var k := FirstIndex(init, x);
    assert xs[..k] == init[..k];
    FirstIndexUnique(xs, x, k);
  }

  lemma FirstIndexLast(xs: seq<Label>, x: Label)
    requires xs != [] && xs[|xs| - 1] == x && x !in xs[..|xs| - 1]
    ensures FirstIndex(xs, x) == |xs| - 1
  {
    FirstIndexUnique(xs, x, |xs| - 1);
  }

  lemma FirstIndexUnique(xs: seq<Label>, x: Label, k: nat)
    requires k < |xs| && xs[k] == x && x !in xs[..k]
    ensures FirstIndex(xs, x) == k
  {
    var f := FirstIndex(xs, x);
  }

  /** A sequence without duplicates is its own first-occurrence de-duplication. */
  lemma {:induction false} DistinctOfNoDuplicates(xs: seq<Label>)
    requires NoDuplicates(xs)
    ensures Distinct(xs) == xs
  {
    if xs != [] {
      var init := xs[..|xs| - 1];
      DistinctOfNoDuplicates(init);
      DistinctProperties(init);
      assert xs[|xs| - 1] !in init;
      assert xs == init + [xs[|xs| - 1]];
    }
  }

  /** Appending labels that were all seen before leaves the de-duplication unchanged. */
  lemma {:induction false} DistinctAppendSeen(xs: seq<Label>, ys: seq<Label>)
    requires forall y :: y in ys ==> y in xs
    ensures Distinct(xs + ys) == Distinct(xs)
    decreases |ys|
  {
    if ys != [] {
      var init := ys[..|ys| - 1];
      var zs := xs + ys;
      assert zs[..|zs| - 1] == xs + init;
      assert zs[|zs| - 1] == ys[|ys| - 1];
      DistinctAppendSeen(xs, init);
      DistinctProperties(xs);
      assert ys[|ys| - 1] in Elems(Distinct(xs));
      assert Distinct(zs) == Distinct(xs + init);
    } else {
      assert xs + ys == xs;
    }
  }
}
