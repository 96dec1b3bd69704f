/**
 Names of the files a run writes. The single-matrix driver writes a
 permutation file under "./outputs/Ps/" and a dendrogram file under
 "./outputs/Zs/"; the batch driver writes only the permutation file and puts
 the data file's number into its name. The last component is "1" for the
 exact and naive methods and the decimal threshold for every other method.
 */
module OutputPaths {
  import opened Decimal

  const PsDir: string := "./outputs/Ps/"
  const ZsDir: string := "./outputs/Zs/"

  /** The methods whose output names do not record the threshold. */
  predicate IgnoresThreshold(methodName: string) {
    methodName == "exact" || methodName == "naive"
  }

  /** The last path component. */
  function ThresholdTag(methodName: string, threshold: nat): string {
    if IgnoresThreshold(methodName) then "1" else NatToString(threshold)
  }

  /** The permutation output of the single-matrix driver. */
  function PPath(dsname: string, methodName: string, threshold: nat): (p: string)
    ensures |PsDir| < |p| && p[..|PsDir|] == PsDir
  {
    PsDir + dsname + "-" + methodName + "-P-" + ThresholdTag(methodName, threshold)
  }

  /** The dendrogram output of the single-matrix driver. */
  function ZPath(dsname: string, methodName: string, threshold: nat): (z: string)
    ensures |ZsDir| < |z| && z[..|ZsDir|] == ZsDir
  {
    ZsDir + dsname + "-" + methodName + "-Z-" + ThresholdTag(methodName, threshold)
  }

  /** The permutation output of the batch driver for data file number `fileIndex`. */
  function IndexedPPath(dsname: string, fileIndex: int, methodName: string, threshold: nat): (p: string)
    ensures |PsDir| < |p| && p[..|PsDir|] == PsDir
  {
    PsDir + dsname + "-" + IntToString(fileIndex) + "-" + methodName + "-P-" + ThresholdTag(methodName, threshold)
  }

  /** For exact and naive the names end in "-P-1" / "-Z-1" whatever the threshold. */
  lemma ExactNaiveIgnoreThreshold(dsname: string, methodName: string, fileIndex: int, t1: nat, t2: nat)
    requires IgnoresThreshold(methodName)
    ensures PPath(dsname, methodName, t1) == PPath(dsname, methodName, t2)
    ensures ZPath(dsname, methodName, t1) == ZPath(dsname, methodName, t2)
    ensures IndexedPPath(dsname, fileIndex, methodName, t1) == IndexedPPath(dsname, fileIndex, methodName, t2)
    ensures var p := PPath(dsname, methodName, t1); |p| >= 4 && p[|p| - 4..] == "-P-1"
    ensures var z := ZPath(dsname, methodName, t1); |z| >= 4 && z[|z| - 4..] == "-Z-1"
    ensures var q := IndexedPPath(dsname, fileIndex, methodName, t1); |q| >= 4 && q[|q| - 4..] == "-P-1"
  {
  }

  /**
   For every other method, including an unrecognised one, the digits after
   the final "-P-" read back as the threshold, so distinct thresholds give
   distinct names.
   */
  lemma OtherMethodsRecordThreshold(dsname: string, methodName: string, t: nat)
    requires !IgnoresThreshold(methodName)
    ensures var stem := PsDir + dsname + "-" + methodName + "-P-";
            var p := PPath(dsname, methodName, t);
            && |stem| <= |p|
            && p[..|stem|] == stem
            && IsCanonical(p[|stem|..])
            && Value(p[|stem|..]) == t
  {
    var stem := PsDir + dsname + "-" + methodName + "-P-";
    var p := PPath(dsname, methodName, t);
    assert p == stem + NatToString(t);
    assert p[|stem|..] == NatToString(t);
    ValueOfNatToString(t);
  }

  lemma ThresholdInjective(dsname: string, methodName: string, t1: nat, t2: nat)
    requires !IgnoresThreshold(methodName)
    ensures PPath(dsname, methodName, t1) == PPath(dsname, methodName, t2) <==> t1 == t2
  {
    OtherMethodsRecordThreshold(dsname, methodName, t1);
    OtherMethodsRecordThreshold(dsname, methodName, t2);
  }

  /**
   The batch name records the threshold the same way: for every method but
   exact and naive, the digits after the final "-P-" read back as it.
   */
  lemma IndexedOtherMethodsRecordThreshold(dsname: string, fileIndex: int, methodName: string, t: nat)
    requires !IgnoresThreshold(methodName)
    ensures var stem := PsDir + dsname + "-" + IntToString(fileIndex) + "-" + methodName + "-P-";
            var q := IndexedPPath(dsname, fileIndex, methodName, t);
            && |stem| <= |q|
            && q[..|stem|] == stem
            && IsCanonical(q[|stem|..])
            && Value(q[|stem|..]) == t
  {
    var stem := PsDir + dsname + "-" + IntToString(fileIndex) + "-" + methodName + "-P-";
    var q := IndexedPPath(dsname, fileIndex, methodName, t);
    assert q == stem + NatToString(t);
    assert q[|stem|..] == NatToString(t);
    ValueOfNatToString(t);
  }

  lemma IndexedThresholdInjective(dsname: string, fileIndex: int, methodName: string, t1: nat, t2: nat)
    requires !IgnoresThreshold(methodName)
    ensures IndexedPPath(dsname, fileIndex, methodName, t1) == IndexedPPath(dsname, fileIndex, methodName, t2) <==> t1 == t2
  {
    IndexedOtherMethodsRecordThreshold(dsname, fileIndex, methodName, t1);
    IndexedOtherMethodsRecordThreshold(dsname, fileIndex, methodName, t2);
  }

  /**
   The permutation and dendrogram names of one run have the same length and
   differ in exactly two characters: the directory letter ("Ps" / "Zs") and
   the tag ("P" / "Z").
   */
  lemma PAndZDifferOnlyInTag(dsname: string, methodName: string, t: nat)
    ensures var p := PPath(dsname, methodName, t);
            var z := ZPath(dsname, methodName, t);
            && |p| == |z|
            && p[10] == 'P' && z[10] == 'Z'
            && p[15 + |dsname| + |methodName|] == 'P' && z[15 + |dsname| + |methodName|] == 'Z'
            && forall k :: 0 <= k < |p| && k != 10 && k != 15 + |dsname| + |methodName| ==> p[k] == z[k]
  {
    var p := PPath(dsname, methodName, t);
    var z := ZPath(dsname, methodName, t);
    var tag := ThresholdTag(methodName, t);
    var i := 15 + |dsname| + |methodName|;
    forall k | 0 <= k < |p| && k != 10 && k != i
      ensures p[k] == z[k]
    {
      if k < 13 {
        assert p[k] == PsDir[k] && z[k] == ZsDir[k];
      } else if k < 13 + |dsname| {
        assert p[k] == dsname[k - 13] == z[k];
      } else if k == 13 + |dsname| {
        assert p[k] == '-' == z[k];
      } else if k < 14 + |dsname| + |methodName| {
        assert p[k] == methodName[k - 14 - |dsname|] == z[k];
      } else if k == 14 + |dsname| + |methodName| || k == i + 1 {
        assert p[k] == '-' == z[k];
      } else {
        assert p[k] == tag[k - i - 2] == z[k];
      }
    }
  }

  /** If a + x + b == a + y + b then x == y. */
  lemma CancelAround(a: string, x: string, b: string, y: string)
    requires a + x + b == a + y + b
    ensures x == y
  {
    var s := a + x + b;
    assert |x| == |y|;
    assert x == s[|a|..|a| + |x|];
    assert y == (a + y + b)[|a|..|a| + |y|];
  }

  /** The batch name is the file number wrapped in a context that does not depend on it. */
  lemma IndexedPPathShape(dsname: string, fileIndex: int, methodName: string, t: nat)
    ensures IndexedPPath(dsname, fileIndex, methodName, t)
            == (PsDir + dsname + "-") + IntToString(fileIndex) + ("-" + methodName + "-P-" + ThresholdTag(methodName, t))
  {
  }

  /**
   With the same dataset, method and threshold, two data files write the
   same permutation file exactly when they carry the same number.
   */
  lemma IndexedPathInjective(dsname: string, methodName: string, t: nat, i1: int, i2: int)
    ensures IndexedPPath(dsname, i1, methodName, t) == IndexedPPath(dsname, i2, methodName, t) <==> i1 == i2
  {
    if IndexedPPath(dsname, i1, methodName, t) == IndexedPPath(dsname, i2, methodName, t) {
      IndexedPPathShape(dsname, i1, methodName, t);
      IndexedPPathShape(dsname, i2, methodName, t);
      CancelAround(PsDir + dsname + "-", IntToString(i1), "-" + methodName + "-P-" + ThresholdTag(methodName, t), IntToString(i2));
      IntToStringInjective(i1, i2);
    }
  }
}
