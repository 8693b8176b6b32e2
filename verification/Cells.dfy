/** Cells of a grid, column first, and the sizes of ranges and of products of sets. */
module Cells {

  type Cell = (int, int)

  ghost function Range(lo: int, hi: int): (s: set<int>)
    requires lo <= hi
    ensures forall x :: x in s <==> lo <= x < hi
    ensures |s| == hi - lo
    decreases hi - lo
  {
    if lo == hi then {} else Range(lo, hi - 1) + {hi - 1}
  }

  ghost function Product<A, B>(a: set<A>, b: set<B>): set<(A, B)> {
    set x, y | x in a && y in b :: (x, y)
  }

  lemma {:induction false} ProductSize<A, B>(a: set<A>, b: set<B>)
    ensures |Product(a, b)| == |a| * |b|
  {
    if |a| == 0 {
      assert |Product(a, b)| == 0;
    } else {
      hide Product;
      var x :| x in a;
      var rest := a - {x};
      assert |rest| == |a| - 1;
      ProductSize(rest, b);
      ColumnSize(x, b);
      ProductPeel(a, b, x);
      MulSuccessor(|rest|, |b|);
    }
  }

  lemma ProductPeel<A, B>(a: set<A>, b: set<B>, x: A)
    requires x in a
    ensures |Product(a, b)| == |Product(a - {x}, b)| + |Product({x}, b)|
  {
    var rest, column := Product(a - {x}, b), Product({x}, b);
    assert Product(a, b) == rest + column;
    assert Apart(rest, column);
    hide Product, Apart;
    UnionSize(rest, column);
  }

  lemma MulSuccessor(m: nat, n: nat)
    ensures (m + 1) * n == m * n + n
  {
  }

  lemma {:induction false} ColumnSize<A, B>(x: A, b: set<B>)
    ensures |Product({x}, b)| == |b|
  {
    if |b| == 0 {
      assert |Product({x}, b)| == 0;
    } else {
      var y :| y in b;
      ColumnSize(x, b - {y});
      assert Product({x}, b) == Product({x}, b - {y}) + {(x, y)};
    }
  }

  lemma InProduct<A, B>(a: set<A>, b: set<B>, x: A, y: B)
    ensures (x, y) in Product(a, b) <==> x in a && y in b
  {
  }

  ghost predicate Apart<T>(a: set<T>, b: set<T>) {
    forall x :: x in a ==> x !in b
  }

  lemma UnionSize<T>(a: set<T>, b: set<T>)
    requires Apart(a, b)
    ensures |a + b| == |a| + |b|
  {
    assert a !! b;
  }

  lemma ProductsApart<A, B>(a: set<A>, b: set<B>, c: set<A>, d: set<B>)
    requires Apart(a, c) || Apart(b, d)
    ensures Apart(Product(a, b), Product(c, d))
  {
  }

  lemma ProductUnion<A, B>(a: set<A>, b: set<B>, c: set<A>, d: set<B>)
    requires Apart(a, c) || Apart(b, d)
    ensures |Product(a, b) + Product(c, d)| == |a| * |b| + |c| * |d|
  {
    ProductSize(a, b);
    ProductSize(c, d);
    ProductsApart(a, b, c, d);
    UnionSize(Product(a, b), Product(c, d));
  }
}
