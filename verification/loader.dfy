/**
 Loading a weight matrix from a binary file: a buffer of n*n values is
 allocated, the file's values are read into its front, two size checks run on
 the buffer, and the buffer is handed to the symmetric-matrix construction.
 The file itself is a parameter: None when it cannot be opened, otherwise the
 values it holds, in order.
 */
module Loader {
  import opened Wrappers
  import opened SymMatrix

  /** The three ways a load aborts. */
  datatype LoadError = OpenFailed | EmptyFile | WrongDimension

  /**
   The two size checks, run on the buffer of n*n values after the read:
   "empty file" when the buffer has no element, "wrong dimension" when its
   size is not a multiple of n.
   */
  function SizeGuard(n: nat): (r: Option<LoadError>)
    ensures r == Some(EmptyFile) <==> n == 0
    ensures r != Some(WrongDimension)
    ensures r.None? <==> n >= 1
  {
    var size := n * n;
    if size == 0 then Some(EmptyFile)
    else if (SquareDivisible(n); size % n != 0) then Some(WrongDimension)
    else None
  }

  /** n*n is a multiple of n. */
  lemma SquareDivisible(n: nat)
    requires n >= 1
    ensures (n * n) % n == 0
  {
    var q, r := (n * n) / n, (n * n) % n;
    assert n * n == q * n + r && 0 <= r < n;
    var d := n - q;
    assert d * n == r by {
      assert d * n == n * n - q * n;
    }
    if d >= 1 {
      MulAtLeast(d, n);
    }
  }

  lemma MulAtLeast(a: int, n: nat)
    requires a >= 1
    ensures a * n >= n
  {
  }

  /**
   The buffer after the read: exactly n*n value-initialised elements (`zero`),
   the front of which the file's values overwrite; values beyond n*n are not read.
   */
  function ReadBuffer<T>(contents: seq<T>, n: nat, zero: T): (buf: seq<T>)
    ensures |buf| == n * n
    ensures forall k :: 0 <= k < |buf| && k < |contents| ==> buf[k] == contents[k]
    ensures forall k :: |contents| <= k < |buf| ==> buf[k] == zero
  {
    if |contents| >= n * n then contents[..n * n]
    else contents + seq(n * n - |contents|, _ => zero)
  }

  /** Whether a load returns rather than aborts: the file opens and n is positive. */
  predicate Loads<T>(file: Option<seq<T>>, n: nat) {
    file.Some? && n >= 1
  }

  /**
   Reads the symmetric weight matrix of dimension n. An unopenable file and
   n = 0 abort; the dimension check never fires, and a file shorter than n*n
   values is accepted, its missing values read as `zero`.
   */
  method ReadSymMatrixFromFile<T>(file: Option<seq<T>>, n: nat, zero: T)
    returns (r: Result<SymM<T>, LoadError>)
    ensures file.None? <==> r == Failure(OpenFailed)
    ensures r == Failure(EmptyFile) <==> file.Some? && n == 0
    ensures r != Failure(WrongDimension)
    ensures r.Success? <==> Loads(file, n)
    ensures r.Success? ==>
              && file.Some?
              && Valid(r.value)
              && r.value.n == n
              && r.value.cells == UpperTriangle(ReadBuffer(file.value, n, zero), n)
  {
    if file.None? {
      return Failure(OpenFailed);
    }
    var buf := ReadBuffer(file.value, n, zero);
    var guard := SizeGuard(n);
    if guard.Some? {
      return Failure(guard.value);
    }
    var m, _ := ParseSymMatrix(buf, n);
    return Success(m);
  }

  /**
   As written, a one-value file for a 2-by-2 matrix passes both size checks
   and cell (0, 1) silently holds the fill value instead of file data.
   */
  lemma ShortFileAccepted<T>(x: T, zero: T)
    ensures SizeGuard(2).None?
    ensures var buf := ReadBuffer([x], 2, zero);
            && |buf| == 4
            && Cell(0, 1) in UpperTriangle(buf, 2)
            && UpperTriangle(buf, 2)[Cell(0, 1)] == zero
  {
    var buf := ReadBuffer([x], 2, zero);
    UpperPairsMembership(2);
    assert IsUpper(Cell(0, 1), 2);
    assert Entry(buf, 2, Cell(0, 1)) == buf[1] == zero;
  }

  /**
   The load with the size checks applied to what the file holds: a file
   without values is empty, one with fewer than n*n values has the wrong
   dimension, and on success every cell comes from the file.
   */
  method ReadSymMatrixChecked<T>(file: Option<seq<T>>, n: nat) returns (r: Result<SymM<T>, LoadError>)
    ensures file.None? <==> r == Failure(OpenFailed)
    ensures r == Failure(EmptyFile) <==> file.Some? && (n == 0 || |file.value| == 0)
    ensures file.Some? ==> (r.Success? <==> n >= 1 && |file.value| >= n * n)
    ensures r.Success? ==>
              && file.Some?
              && |file.value| >= n * n
              && Valid(r.value)
              && r.value.n == n
              && r.value.cells == UpperTriangle(file.value[..n * n], n)
  {
    if file.None? {
      return Failure(OpenFailed);
    }
    var contents := file.value;
    if n == 0 || |contents| == 0 {
      return Failure(EmptyFile);
    }
    if |contents| < n * n {
      return Failure(WrongDimension);
    }
    var m, _ := ParseSymMatrix(contents[..n * n], n);
    return Success(m);
  }
}
