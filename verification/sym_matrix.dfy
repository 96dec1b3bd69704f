/**
 The symmetric matrix store and its construction from a flat row-major
 buffer. The store is abstract: an n-by-n symmetric matrix whose off-diagonal
 cells are keyed by their upper-triangle pair (i, j) with i < j, and whose
 diagonal is kept separately. A cell that was never written is absent.
 */
module SymMatrix {
  import opened Wrappers

  /** The off-diagonal cell (i, j) of the upper triangle; (j, i) is the same cell. */
  datatype Cell = Cell(i: nat, j: nat)

  datatype SymM<T> = SymM(n: nat, cells: map<Cell, T>, diag: map<nat, T>)

  predicate IsUpper(c: Cell, n: nat) {
    c.i < c.j < n
  }

  /** Every stored cell lies inside the n-by-n matrix. */
  ghost predicate Valid<T>(m: SymM<T>) {
    && (forall c :: c in m.cells ==> IsUpper(c, m.n))
    && (forall i :: i in m.diag ==> i < m.n)
  }

  /** A freshly constructed store of dimension n: nothing written yet. */
  function Empty<T>(n: nat): (m: SymM<T>)
    ensures Valid(m) && m.n == n
    ensures forall i, j :: Get(m, i, j) == None
  {
    SymM(n, map[], map[])
  }

  /** The upper-triangle key of the unordered pair {i, j}. */
  function Key(i: nat, j: nat): (c: Cell)
    requires i != j
    ensures c.i < c.j
    ensures (c.i == i && c.j == j) || (c.i == j && c.j == i)
  {
    if i < j then Cell(i, j) else Cell(j, i)
  }

  /** Symmetric read: (i, j) and (j, i) name the same cell; (i, i) reads the diagonal. */
  function Get<T>(m: SymM<T>, i: nat, j: nat): Option<T> {
    if i == j then
      if i in m.diag then Some(m.diag[i]) else None
    else if Key(i, j) in m.cells then Some(m.cells[Key(i, j)])
    else None
  }

  /** Reads do not depend on the order of the two indices. */
  lemma GetSymmetric<T>(m: SymM<T>, i: nat, j: nat)
    ensures Get(m, i, j) == Get(m, j, i)
  {
  }

  /** Symmetric write of an off-diagonal cell. */
  function Update<T>(m: SymM<T>, i: nat, j: nat, v: T): (r: SymM<T>)
    requires i != j && i < m.n && j < m.n
    ensures Valid(m) ==> Valid(r)
    ensures r.n == m.n
    ensures Get(r, i, j) == Some(v) && Get(r, j, i) == Some(v)
    ensures forall a, b :: !((a == i && b == j) || (a == j && b == i)) ==> Get(r, a, b) == Get(m, a, b)
  {
    SymM(m.n, m.cells[Key(i, j) := v], m.diag)
  }

  /** Sets every diagonal entry to v in one pass; the off-diagonal cells keep their values. */
  function SetDiag<T>(m: SymM<T>, v: T): (r: SymM<T>)
    ensures Valid(m) ==> Valid(r)
    ensures r.n == m.n
    ensures forall i: nat :: i < m.n ==> Get(r, i, i) == Some(v)
    ensures forall i, j :: i != j ==> Get(r, i, j) == Get(m, i, j)
  {
    SymM(m.n, m.cells, Constant(m.n, v))
  }

  /** The map sending each of 0 .. k-1 to v. */
  function Constant<T>(k: nat, v: T): (d: map<nat, T>)
    ensures forall i: nat :: i in d <==> i < k
    ensures forall i :: i in d ==> d[i] == v
  {
    if k == 0 then map[] else Constant(k - 1, v)[k - 1 := v]
  }

  /** Row-major position of entry (i, j) of an n-by-n matrix in a flat buffer. */
  function FlatIndex(i: nat, j: nat, n: nat): nat {
    i * n + j
  }

  lemma MulMonotone(a: nat, b: nat, n: nat)
    requires a <= b
    ensures a * n <= b * n
  {
  }

  /** Every position the parser reads lies in a buffer of n*n elements. */
  lemma FlatIndexBound(i: nat, j: nat, n: nat)
    requires i < n && j < n
    ensures FlatIndex(i, j, n) < n * n
  {
    MulMonotone(i + 1, n, n);
    assert (i + 1) * n == i * n + n;
  }

  /** Distinct entries of the matrix occupy distinct buffer positions. */
  lemma FlatIndexInjective(i: nat, j: nat, k: nat, l: nat, n: nat)
    requires j < n && l < n
    ensures FlatIndex(i, j, n) == FlatIndex(k, l, n) <==> i == k && j == l
  {
    if i < k {
      MulMonotone(i + 1, k, n);
      assert (i + 1) * n == i * n + n;
    } else if k < i {
      MulMonotone(k + 1, i, n);
      assert (k + 1) * n == k * n + n;
    }
  }

  /** The buffer entry that belongs to upper-triangle cell c. */
  function Entry<T>(w: seq<T>, n: nat, c: Cell): T
    requires IsUpper(c, n) && n * n <= |w|
  {
    FlatIndexBound(c.i, c.j, n);
    w[FlatIndex(c.i, c.j, n)]
  }

  /** The pairs i < j < n: the cells a construction must fill. */
  ghost function UpperPairs(n: nat): set<Cell> {
    set i: nat, j: nat | i < j < n :: Cell(i, j)
  }

  lemma UpperPairsMembership(n: nat)
    ensures forall c :: c in UpperPairs(n) <==> IsUpper(c, n)
  {
    forall c | IsUpper(c, n)
      ensures c in UpperPairs(n)
    {
      assert Cell(c.i, c.j) == c;
    }
  }

  /** The contents a store built from buffer w should have: cell (i, j) holds w[i*n + j]. */
  ghost function UpperTriangle<T>(w: seq<T>, n: nat): map<Cell, T>
    requires n * n <= |w|
  {
    UpperPairsMembership(n);
    map c | c in UpperPairs(n) :: Entry(w, n, c)
  }

  /** Two buffers agree on every position of the strict upper triangle. */
  ghost predicate AgreeOnUpper<T>(w: seq<T>, w': seq<T>, n: nat)
    requires n * n <= |w| && n * n <= |w'|
  {
    forall c :: IsUpper(c, n) ==> Entry(w, n, c) == Entry(w', n, c)
  }

  /** The constructed contents depend on exactly the upper-triangle positions of the buffer. */
  lemma UpperTriangleReadsOnlyUpper<T>(w: seq<T>, w': seq<T>, n: nat)
    requires n * n <= |w| && n * n <= |w'|
    ensures UpperTriangle(w, n) == UpperTriangle(w', n) <==> AgreeOnUpper(w, w', n)
  {
    UpperPairsMembership(n);
    if UpperTriangle(w, n) == UpperTriangle(w', n) {
      forall c | IsUpper(c, n)
        ensures Entry(w, n, c) == Entry(w', n, c)
      {
        assert UpperTriangle(w, n)[c] == UpperTriangle(w', n)[c];
      }
    }
  }

  /** Overwriting a diagonal or lower-triangle position (row a, column b <= a) changes nothing. */
  lemma LowerAndDiagonalNotRead<T>(w: seq<T>, n: nat, a: nat, b: nat, v: T)
    requires n * n <= |w|
    requires b <= a < n
    ensures FlatIndex(a, b, n) < |w|
    ensures UpperTriangle(w[FlatIndex(a, b, n) := v], n) == UpperTriangle(w, n)
  {
    FlatIndexBound(a, b, n);
    var w' := w[FlatIndex(a, b, n) := v];
    forall c | IsUpper(c, n)
      ensures Entry(w', n, c) == Entry(w, n, c)
    {
      FlatIndexInjective(c.i, c.j, a, b, n);
      FlatIndexBound(c.i, c.j, n);
    }
    UpperTriangleReadsOnlyUpper(w', w, n);
  }

  /** Number of cells in rows 0 .. i-1 of the strict upper triangle. */
  function WritesBefore(i: nat, n: nat): nat
    requires i <= n
  {
    if i == 0 then 0 else WritesBefore(i - 1, n) + (n - i)
  }

  lemma {:induction false} WritesBeforeClosedForm(i: nat, n: nat)
    requires i <= n
    ensures 2 * WritesBefore(i, n) == i * (2 * n - i - 1)
  {
    if i > 0 {
      WritesBeforeClosedForm(i - 1, n);
    }
  }

  /** The cells (k, j) for k < len of column j. */
  ghost function ColumnPart(j: nat, len: nat): set<Cell> {
    set k: nat | k < len :: Cell(k, j)
  }

  lemma {:induction false} ColumnPartSize(j: nat, len: nat)
    ensures |ColumnPart(j, len)| == len
  {
    if len > 0 {
      ColumnPartSize(j, len - 1);
      assert ColumnPart(j, len) == ColumnPart(j, len - 1) + {Cell(len - 1, j)};
    } else {
      assert ColumnPart(j, len) == {};
    }
  }

  /** Growing the matrix by one row and column adds the new column's cells. */
  lemma UpperPairsSplit(n: nat)
    ensures UpperPairs(n + 1) == UpperPairs(n) + ColumnPart(n, n)
    ensures UpperPairs(n) !! ColumnPart(n, n)
  {
    UpperPairsMembership(n + 1);
    UpperPairsMembership(n);
  }

  lemma TriangleStep(n: nat)
    requires n > 0
    ensures n * (n - 1) == (n - 1) * (n - 2) + 2 * (n - 1)
  {
  }

  /** The strict upper triangle of an n-by-n matrix has n(n-1)/2 cells. */
  lemma {:induction false} UpperPairsCount(n: nat)
    ensures |UpperPairs(n)| == n * (n - 1) / 2
  {
    if n > 0 {
      UpperPairsCount(n - 1);
      UpperPairsSplit(n - 1);
      ColumnPartSize(n - 1, n - 1);
      assert |UpperPairs(n)| == |UpperPairs(n - 1)| + (n - 1);
      TriangleStep(n);
    } else {
      UpperPairsMembership(0);
      assert UpperPairs(0) == {};
    }
  }

  /**
   Builds the store from a flat row-major buffer: every pair i < j < n is
   written once with buffer entry i*n + j. The two parallel loops of the
   construction are run sequentially here; `writes` lists the cells in the
   order they are written, and its distinctness is the fact that lets the
   parallel tasks write without synchronisation.
   */
  method ParseSymMatrix<T>(w: seq<T>, n: nat) returns (m: SymM<T>, writes: seq<Cell>)
    requires n * n <= |w|
    ensures Valid(m) && m.n == n && m.diag == map[]
    ensures m.cells == UpperTriangle(w, n)
    ensures forall c :: c in writes <==> IsUpper(c, n)
    ensures forall a, b :: 0 <= a < b < |writes| ==> writes[a] != writes[b]
    ensures |writes| == n * (n - 1) / 2
  {
    m := Empty(n);
    writes := [];
    var i := 0;
    while i < n
      invariant i <= n
      invariant m.n == n && m.diag == map[]
      invariant forall c :: c in m.cells <==> IsUpper(c, n) && c.i < i
      invariant forall c :: c in m.cells ==> IsUpper(c, n) && m.cells[c] == Entry(w, n, c)
      invariant forall c :: c in writes <==> c in m.cells
      invariant forall a, b :: 0 <= a < b < |writes| ==> writes[a] != writes[b]
      invariant |writes| == WritesBefore(i, n)
    {
      var j := i + 1;
      while j < n
        invariant i + 1 <= j <= n
        invariant m.n == n && m.diag == map[]
        invariant forall c :: c in m.cells <==> IsUpper(c, n) && (c.i < i || (c.i == i && c.j < j))
        invariant forall c :: c in m.cells ==> IsUpper(c, n) && m.cells[c] == Entry(w, n, c)
        invariant forall c :: c in writes <==> c in m.cells
        invariant forall a, b :: 0 <= a < b < |writes| ==> writes[a] != writes[b]
        invariant |writes| == WritesBefore(i, n) + (j - i - 1)
      {
        FlatIndexBound(i, j, n);
        m := Update(m, i, j, w[FlatIndex(i, j, n)]);
        writes := writes + [Cell(i, j)];
        j := j + 1;
      }
      i := i + 1;
    }
    WritesBeforeClosedForm(n, n);
    UpperPairsMembership(n);
  }
}
