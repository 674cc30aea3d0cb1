/** Order-preserving sequence transforms behind the pandas steps of the scraper:
    concatenation of blocks (explode), a flat-map and a map that stop at the first
    failure (a column operation that raises), and order-preserving deduplication
    (`Series.unique`). */
module Seqs {
  import opened Wrappers

  function Last<T>(s: seq<T>): T
    requires s != []
  {
    s[|s| - 1]
  }

  function DropLast<T>(s: seq<T>): seq<T>
    requires s != []
  {
    s[..|s| - 1]
  }

  /** Splitting the last element off a concatenation splits it off the second part. */
  lemma DropLastAppend<T>(a: seq<T>, b: seq<T>)
    requires b != []
    ensures DropLast(a + b) == a + DropLast(b) && Last(a + b) == Last(b)
  {
  }

  function SumLengths<T>(ss: seq<seq<T>>): nat
  {
    if ss == [] then 0 else SumLengths(DropLast(ss)) + |Last(ss)|
  }

  /** The blocks of `ss` laid end to end. */
  function Flatten<T>(ss: seq<seq<T>>): (r: seq<T>)
    ensures |r| == SumLengths(ss)
  {
    if ss == [] then [] else Flatten(DropLast(ss)) + Last(ss)
  }

  lemma {:induction false} FlattenAppend<T>(a: seq<seq<T>>, b: seq<seq<T>>)
    ensures Flatten(a + b) == Flatten(a) + Flatten(b)
    decreases |b|
  {
    if b == [] {
      assert a + b == a;
    } else {
      assert DropLast(a + b) == a + DropLast(b);
      assert Last(a + b) == Last(b);
      FlattenAppend(a, DropLast(b));
      calc {
        Flatten(a + b);
        Flatten(a + DropLast(b)) + Last(b);
        (Flatten(a) + Flatten(DropLast(b))) + Last(b);
        Flatten(a) + (Flatten(DropLast(b)) + Last(b));
      }
    }
  }

  /** A property of every element of every block holds of every element of the
      flattening. */
  lemma {:induction false} FlattenAll<T>(ss: seq<seq<T>>, q: T -> bool)
    requires forall i, k :: 0 <= i < |ss| && 0 <= k < |ss[i]| ==> q(ss[i][k])
    ensures forall k :: 0 <= k < |Flatten(ss)| ==> q(Flatten(ss)[k])
  {
    if ss != [] {
      FlattenAll(DropLast(ss), q);
      var front, back := Flatten(DropLast(ss)), Last(ss);
      assert Flatten(ss) == front + back;
      forall k | 0 <= k < |front + back| ensures q((front + back)[k]) {
        if k >= |front| {
          assert (front + back)[k] == ss[|ss| - 1][k - |front|];
        }
      }
    }
  }

  /** Block-wise equal lengths give equal total lengths. */
  lemma {:induction false} SumLengthsEqual<S, T>(ss: seq<seq<S>>, tt: seq<seq<T>>)
    requires |ss| == |tt| && forall i :: 0 <= i < |ss| ==> |ss[i]| == |tt[i]|
    ensures SumLengths(ss) == SumLengths(tt)
  {
    if ss != [] {
      SumLengthsEqual(DropLast(ss), DropLast(tt));
    }
  }

  /** Element `j` of block `i` sits at offset `SumLengths(ss[..i]) + j` of the flattening. */
  lemma FlattenIndex<T>(ss: seq<seq<T>>, i: nat, j: nat)
    requires i < |ss| && j < |ss[i]|
    ensures SumLengths(ss[..i]) + j < |Flatten(ss)|
    ensures Flatten(ss)[SumLengths(ss[..i]) + j] == ss[i][j]
  {
    assert ss == ss[..i] + [ss[i]] + ss[i + 1..];
    FlattenAppend(ss[..i] + [ss[i]], ss[i + 1..]);
    FlattenAppend(ss[..i], [ss[i]]);
    assert DropLast([ss[i]]) == [];
  }

  /** Applies `f` to every element in order. */
  function Map<A, B>(xs: seq<A>, f: A -> B): (r: seq<B>)
    ensures |r| == |xs| && forall i :: 0 <= i < |xs| ==> r[i] == f(xs[i])
  {
    if xs == [] then [] else Map(DropLast(xs), f) + [f(Last(xs))]
  }

  /** Applies `f` to every element in order and concatenates the results: a filter when
      `f` yields at most one element. */
  function ConcatMap<A, B>(xs: seq<A>, f: A -> seq<B>): seq<B>
  {
    if xs == [] then [] else ConcatMap(DropLast(xs), f) + f(Last(xs))
  }

  lemma {:induction false} ConcatMapAppend<A, B>(a: seq<A>, b: seq<A>, f: A -> seq<B>)
    ensures ConcatMap(a + b, f) == ConcatMap(a, f) + ConcatMap(b, f)
    decreases |b|
  {
    if b == [] {
      assert a + b == a;
    } else {
      assert DropLast(a + b) == a + DropLast(b);
      assert Last(a + b) == Last(b);
      ConcatMapAppend(a, DropLast(b), f);
      calc {
        ConcatMap(a + b, f);
        ConcatMap(a + DropLast(b), f) + f(Last(b));
        (ConcatMap(a, f) + ConcatMap(DropLast(b), f)) + f(Last(b));
        ConcatMap(a, f) + (ConcatMap(DropLast(b), f) + f(Last(b)));
      }
    }
  }

  lemma ConcatMapOne<A, B>(x: A, f: A -> seq<B>)
    ensures ConcatMap([x], f) == f(x)
  {
    assert DropLast([x]) == [];
  }

  /** Every element of the result comes out of `f` applied to some element of `xs`. */
  lemma {:induction false} ConcatMapAll<A, B>(xs: seq<A>, f: A -> seq<B>, q: B -> bool)
    requires forall i, k :: 0 <= i < |xs| && 0 <= k < |f(xs[i])| ==> q(f(xs[i])[k])
    ensures forall k :: 0 <= k < |ConcatMap(xs, f)| ==> q(ConcatMap(xs, f)[k])
  {
    if xs != [] {
      ConcatMapAll(DropLast(xs), f, q);
      var front, back := ConcatMap(DropLast(xs), f), f(Last(xs));
      assert ConcatMap(xs, f) == front + back;
      forall k | 0 <= k < |front + back| ensures q((front + back)[k]) {
        if k >= |front| {
          assert (front + back)[k] == f(xs[|xs| - 1])[k - |front|];
        }
      }
    }
  }

  /** When every element gives at least one result the result is at least as long. */
  lemma {:induction false} ConcatMapNoShorter<A, B>(xs: seq<A>, f: A -> seq<B>)
    requires forall i :: 0 <= i < |xs| ==> |f(xs[i])| >= 1
    ensures |ConcatMap(xs, f)| >= |xs|
  {
    if xs != [] {
      assert forall i :: 0 <= i < |xs| - 1 ==> DropLast(xs)[i] == xs[i];
      ConcatMapNoShorter(DropLast(xs), f);
      assert |f(xs[|xs| - 1])| >= 1;
    }
  }

  /** A filter is no longer than its input. */
  lemma {:induction false} ConcatMapFilterLength<A, B>(xs: seq<A>, f: A -> seq<B>)
    requires forall i :: 0 <= i < |xs| ==> |f(xs[i])| <= 1
    ensures |ConcatMap(xs, f)| <= |xs|
    ensures |ConcatMap(xs, f)| == |xs| <==> forall i :: 0 <= i < |xs| ==> |f(xs[i])| == 1
  {
    if xs != [] {
      ConcatMapFilterLength(DropLast(xs), f);
      assert forall i :: 0 <= i < |xs| - 1 ==> DropLast(xs)[i] == xs[i];
    }
  }

  /** A filter that keeps every element is the map over its input. */
  lemma {:induction false} ConcatMapFullFilter<A, B>(xs: seq<A>, f: A -> seq<B>, i: nat)
    requires forall k :: 0 <= k < |xs| ==> |f(xs[k])| == 1
    requires i < |xs|
    ensures |ConcatMap(xs, f)| == |xs| && ConcatMap(xs, f)[i] == f(xs[i])[0]
  {
    ConcatMapFilterLength(xs, f);
    if i < |xs| - 1 {
      assert forall k :: 0 <= k < |xs| - 1 ==> DropLast(xs)[k] == xs[k];
      ConcatMapFullFilter(DropLast(xs), f, i);
    } else {
      ConcatMapFilterLength(DropLast(xs), f);
      assert forall k :: 0 <= k < |xs| - 1 ==> DropLast(xs)[k] == xs[k];
    }
  }

  /** Applies `f` to every element in order and concatenates the results; the first
      failure ends the whole computation, as an exception raised inside a pandas column
      operation does. */
  function FlatMapResult<A, B, E>(xs: seq<A>, f: A -> Result<seq<B>, E>): (r: Result<seq<B>, E>)
    ensures r.Ok? <==> forall i :: 0 <= i < |xs| ==> f(xs[i]).Ok?
    ensures r.Err? ==> exists i :: 0 <= i < |xs| && f(xs[i]) == Err(r.error)
  {
    if xs == [] then Ok([])
    else
      match FlatMapResult(DropLast(xs), f)
      case Err(e) => Err(e)
      case Ok(front) =>
        match f(Last(xs))
        case Err(e) => Err(e)
        case Ok(back) => Ok(front + back)
  }

  /** When every application succeeds, the flat-map is the flattening of the results. */
  lemma {:induction false} FlatMapResultOk<A, B, E>(xs: seq<A>, f: A -> Result<seq<B>, E>, blocks: seq<seq<B>>)
    requires |blocks| == |xs| && forall i :: 0 <= i < |xs| ==> f(xs[i]) == Ok(blocks[i])
    ensures FlatMapResult(xs, f) == Ok(Flatten(blocks))
  {
    if xs != [] {
      FlatMapResultOk(DropLast(xs), f, DropLast(blocks));
    }
  }

  lemma {:induction false} FlatMapResultAppend<A, B, E>(a: seq<A>, b: seq<A>, f: A -> Result<seq<B>, E>)
    requires forall i :: 0 <= i < |a| ==> f(a[i]).Ok?
    requires forall i :: 0 <= i < |b| ==> f(b[i]).Ok?
    ensures FlatMapResult(a + b, f) == Ok(FlatMapResult(a, f).value + FlatMapResult(b, f).value)
    decreases |b|
  {
    if b == [] {
      assert a + b == a;
      assert FlatMapResult(a, f).Ok?;
      assert FlatMapResult(a, f).value + FlatMapResult(b, f).value == FlatMapResult(a, f).value;
    } else {
      assert DropLast(a + b) == a + DropLast(b);
      assert Last(a + b) == Last(b);
      FlatMapResultAppend(a, DropLast(b), f);
      var x, y, z := FlatMapResult(a, f).value, FlatMapResult(DropLast(b), f).value, f(Last(b)).value;
      assert FlatMapResult(b, f).value == y + z;
      assert FlatMapResult(a + b, f).value == (x + y) + z == x + (y + z);
    }
  }

  /** Two successive flat-maps agree with one flat-map whose step is the two steps in
      turn, whenever every step succeeds: the second explode over the output of the first
      handles every row of the input on its own, in input order. */
  lemma {:induction false} FlatMapResultCompose<A, B, C, E>(
    xs: seq<A>, f: A -> Result<seq<B>, E>, g: B -> Result<seq<C>, E>, blocks: seq<seq<C>>)
    requires |blocks| == |xs|
    requires forall i :: 0 <= i < |xs| ==> f(xs[i]).Ok? && FlatMapResult(f(xs[i]).value, g) == Ok(blocks[i])
    ensures FlatMapResult(xs, f).Ok?
    ensures FlatMapResult(FlatMapResult(xs, f).value, g) == Ok(Flatten(blocks))
  {
    if xs != [] {
      var front := DropLast(xs);
      FlatMapResultCompose(front, f, g, DropLast(blocks));
      var ys := FlatMapResult(front, f).value;
      var last := f(Last(xs)).value;
      assert FlatMapResult(xs, f).value == ys + last;
      assert forall i :: 0 <= i < |ys| ==> g(ys[i]).Ok? by {
        assert FlatMapResult(ys, g).Ok?;
      }
      assert forall i :: 0 <= i < |last| ==> g(last[i]).Ok? by {
        assert FlatMapResult(last, g).Ok?;
      }
      FlatMapResultAppend(ys, last, g);
    }
  }

  /** A property every successful step guarantees of its output holds of the whole
      flat-map's output. */
  lemma {:induction false} FlatMapResultAll<A, B, E>(xs: seq<A>, f: A -> Result<seq<B>, E>, p: A -> bool, q: B -> bool)
    requires forall i :: 0 <= i < |xs| ==> p(xs[i])
    requires forall x, k :: p(x) && f(x).Ok? && 0 <= k < |f(x).value| ==> q(f(x).value[k])
    ensures FlatMapResult(xs, f).Ok? ==> forall k :: 0 <= k < |FlatMapResult(xs, f).value| ==> q(FlatMapResult(xs, f).value[k])
  {
    if xs != [] && FlatMapResult(xs, f).Ok? {
      FlatMapResultAll(DropLast(xs), f, p, q);
      var front := FlatMapResult(DropLast(xs), f).value;
      var back := f(Last(xs)).value;
      assert FlatMapResult(xs, f).value == front + back;
      assert p(Last(xs));
    }
  }

  /** Applies `f` to every element in order; the first failure ends the computation. */
  function MapResult<A, B, E>(xs: seq<A>, f: A -> Result<B, E>): (r: Result<seq<B>, E>)
    ensures r.Ok? <==> forall i :: 0 <= i < |xs| ==> f(xs[i]).Ok?
    ensures r.Ok? ==> |r.value| == |xs| && forall i :: 0 <= i < |xs| ==> r.value[i] == f(xs[i]).value
    ensures r.Err? ==> exists i :: 0 <= i < |xs| && f(xs[i]) == Err(r.error)
  {
    if xs == [] then Ok([])
    else
      match MapResult(DropLast(xs), f)
      case Err(e) => Err(e)
      case Ok(front) =>
        match f(Last(xs))
        case Err(e) => Err(e)
        case Ok(back) => Ok(front + [back])
  }

  /** A failure in a prefix is the failure of the whole map: later elements are never
      looked at. */
  lemma {:induction false} MapResultPrefixErr<A, B, E>(xs: seq<A>, k: nat, f: A -> Result<B, E>)
    requires k <= |xs| && MapResult(xs[..k], f).Err?
    ensures MapResult(xs, f) == MapResult(xs[..k], f)
    decreases |xs| - k
  {
    if k == |xs| {
      assert xs[..k] == xs;
    } else {
      assert DropLast(xs[..k + 1]) == xs[..k];
      MapResultPrefixErr(xs, k + 1, f);
    }
  }

  // ---------------------------------------------------------------------------------------
  // Series.unique

  /** The index of the first occurrence of `x` in `xs`. */
  function IndexOf<T(==)>(xs: seq<T>, x: T): (k: nat)
    requires x in xs
    ensures k < |xs| && xs[k] == x && x !in xs[..k]
  {
    if xs[0] == x then 0
    else
      var k := IndexOf(xs[1..], x);
      assert xs[1..][..k] == xs[1..k + 1];
      assert xs[..k + 1] == [xs[0]] + xs[1..k + 1];
      k + 1
  }

  lemma IndexOfUnique<T>(xs: seq<T>, x: T, k: nat)
    requires k < |xs| && xs[k] == x && x !in xs[..k]
    ensures IndexOf(xs, x) == k
  {
  }

  /** The distinct elements of `xs`, each at the place of its first occurrence. */
  function Unique<T(==)>(xs: seq<T>): (r: seq<T>)
    ensures forall i :: 0 <= i < |r| ==> r[i] in xs
    ensures forall i :: 0 <= i < |xs| ==> xs[i] in r
    ensures forall i, j :: 0 <= i < j < |r| ==> r[i] != r[j]
  {
    if xs == [] then []
    else
      var u := Unique(DropLast(xs));
      assert xs == DropLast(xs) + [Last(xs)];
      if Last(xs) in u then u else u + [Last(xs)]
  }

  /** Unique lists the distinct elements in the order of their first occurrences. */
  lemma {:induction false} UniqueFirstOccurrenceOrder<T>(xs: seq<T>, i: nat, j: nat)
    requires i < j < |Unique(xs)|
    ensures IndexOf(xs, Unique(xs)[i]) < IndexOf(xs, Unique(xs)[j])
  {
    var front := DropLast(xs);
    var u := Unique(front);
    assert xs == front + [Last(xs)];
    var x, y := Unique(xs)[i], Unique(xs)[j];
    assert x in front by {
      assert i < |u|;
      assert x == u[i];
    }
    FirstIndexInPrefix(front, Last(xs), x);
    if j < |u| {
      UniqueFirstOccurrenceOrder(front, i, j);
      FirstIndexInPrefix(front, Last(xs), y);
    } else {
      assert y == Last(xs) && y !in front;
      IndexOfUnique(xs, y, |front|);
    }
  }

  lemma FirstIndexInPrefix<T>(front: seq<T>, last: T, x: T)
    requires x in front
    ensures IndexOf(front + [last], x) == IndexOf(front, x)
  {
    var k := IndexOf(front, x);
    assert (front + [last])[..k] == front[..k];
    IndexOfUnique(front + [last], x, k);
  }
}
