/**
 The two command-line drivers, as the sequence of actions each performs and
 the way the process ends. The single-matrix driver loads one weight
 matrix, sets its diagonal to 1 and runs the construction `rounds` times,
 loading a distance matrix before each run unless the distance argument
 starts with '0'. The batch driver does the same for every data file whose
 name carries a file number, and skips the others. A load that fails
 aborts the whole process on the spot.
 */
module Drivers {
  import opened Wrappers
  import opened FileNumber
  import opened OutputPaths
  import Loader

  datatype Action =
    | ReadMatrix(path: string)
    | SetDiagonalToOne
    | Construct(distance: Option<string>)
    | ConstructNumbered(fileIndex: int)
    | ReportSkipped(name: string)

  /** How a driver process ends: it returns a status, or abort() ends it after a failed load. */
  datatype Status = Exited(code: int) | Aborted

  /** How a driver ended, and the actions it performed in order. */
  datatype Exit = Exit(status: Status, actions: seq<Action>)

  /** The files the drivers can open: the values a path holds, None when it cannot be opened. */
  type Files = string -> Option<seq<real>>

  /** Whether loading the matrix at `path` with dimension n returns rather than aborts. */
  predicate LoadSucceeds(fs: Files, path: string, n: nat) {
    Loader.Loads(fs(path), n)
  }

  /**
   Whether the distance argument names a file to load: its first character is
   not '0'. The argument is a C string, so an empty one starts with the
   terminator, which is not '0' either.
   */
  predicate LoadsDistance(arg: string) {
    |arg| == 0 || arg[0] != '0'
  }

  /** The actions of one iteration of the single-matrix driver's run loop. */
  function RoundActions(distanceArg: string): seq<Action> {
    if LoadsDistance(distanceArg) then [ReadMatrix(distanceArg), Construct(Some(distanceArg))]
    else [Construct(None)]
  }

  /** The number of construction runs among the actions, of either driver. */
  function RunCount(t: seq<Action>): nat {
    if |t| == 0 then 0 else (if t[0].Construct? || t[0].ConstructNumbered? then 1 else 0) + RunCount(t[1..])
  }

  lemma {:induction false} RunCountAppend(a: seq<Action>, b: seq<Action>)
    ensures RunCount(a + b) == RunCount(a) + RunCount(b)
    decreases |a|
  {
    if |a| == 0 {
      assert a + b == b;
    } else {
      assert (a + b)[1..] == a[1..] + b;
      RunCountAppend(a[1..], b);
    }
  }

  /** Each loop iteration runs the construction once. */
  lemma RoundActionsCount(distanceArg: string)
    ensures RunCount(RoundActions(distanceArg)) == 1
  {
    var r := RoundActions(distanceArg);
    if LoadsDistance(distanceArg) {
      var tail := r[1..];
      assert tail == [Construct(Some(distanceArg))];
      assert tail[1..] == [];
      assert RunCount(tail) == 1;
    } else {
      assert r[1..] == [];
    }
  }

  /** A run loads the distance matrix it is given, right before it. */
  ghost predicate WellFormedRuns(t: seq<Action>, distanceArg: string) {
    forall k :: 0 <= k < |t| ==> WellFormedAt(t, k, distanceArg)
  }

  /**
   Action k of a run loop is either a read of the distance file or a run; a
   run gets a distance matrix exactly when the argument says to load one,
   and then the action before it is that load. The distance file is read
   only when the argument says to load it, and only right before a run.
   */
  ghost predicate WellFormedAt(t: seq<Action>, k: nat, distanceArg: string)
    requires k < |t|
  {
    && (t[k].Construct? || t[k] == ReadMatrix(distanceArg))
    && (t[k].Construct? ==> (t[k].distance.Some? <==> LoadsDistance(distanceArg)))
    && (t[k].Construct? && t[k].distance.Some? ==>
          t[k].distance.value == distanceArg && k >= 1 && t[k - 1] == ReadMatrix(distanceArg))
    && (t[k] == ReadMatrix(distanceArg) ==>
          LoadsDistance(distanceArg) && k + 1 < |t| && t[k + 1] == Construct(Some(distanceArg)))
  }

  /** One more loop iteration keeps every run well formed. */
  lemma RunLoopStep(prev: seq<Action>, distanceArg: string)
    requires WellFormedRuns(prev, distanceArg)
    ensures WellFormedRuns(prev + RoundActions(distanceArg), distanceArg)
  {
    var r := RoundActions(distanceArg);
    var t := prev + r;
    forall k | 0 <= k < |t|
      ensures WellFormedAt(t, k, distanceArg)
    {
      if k < |prev| {
        assert WellFormedAt(prev, k, distanceArg);
        assert t[k] == prev[k];
        if prev[k].Construct? && prev[k].distance.Some? {
          assert t[k - 1] == prev[k - 1];
        }
        if prev[k] == ReadMatrix(distanceArg) {
          assert t[k + 1] == prev[k + 1];
        }
      } else {
        assert t[k] == r[k - |prev|];
        if k > |prev| {
          assert t[k - 1] == r[k - 1 - |prev|];
        }
        if k == |prev| && LoadsDistance(distanceArg) {
          assert t[k + 1] == r[1];
        }
      }
    }
  }

  /** The run loop never touches the weight matrix's diagonal. */
  lemma RunLoopLeavesDiagonal(t: seq<Action>, distanceArg: string)
    requires WellFormedRuns(t, distanceArg)
    ensures forall k :: 0 <= k < |t| ==> t[k] != SetDiagonalToOne
  {
    forall k | 0 <= k < |t|
      ensures t[k] != SetDiagonalToOne
    {
      assert WellFormedAt(t, k, distanceArg);
    }
  }

  /** `rounds` iterations of the run loop when its loads succeed; a non-positive count runs none. */
  function LoopActions(rounds: int, distanceArg: string): (t: seq<Action>)
    ensures RunCount(t) == if rounds <= 0 then 0 else rounds
    ensures |t| == (if LoadsDistance(distanceArg) then 2 else 1) * (if rounds <= 0 then 0 else rounds)
    ensures WellFormedRuns(t, distanceArg)
    ensures !LoadsDistance(distanceArg) ==> forall k :: 0 <= k < |t| ==> t[k] == Construct(None)
    decreases rounds
  {
    if rounds <= 0 then []
    else
      var prev := LoopActions(rounds - 1, distanceArg);
      RunLoopStep(prev, distanceArg);
      RunCountAppend(prev, RoundActions(distanceArg));
      RoundActionsCount(distanceArg);
      prev + RoundActions(distanceArg)
  }

  /**
   The run loop of the single-matrix driver. Every iteration that loads a
   distance matrix loads the same file, so that load fails in the first
   iteration or never, and a failure aborts before any run.
   */
  function RunLoop(rounds: int, distanceArg: string, distanceLoads: bool): (r: Exit)
    ensures r.status == Aborted <==> rounds >= 1 && LoadsDistance(distanceArg) && !distanceLoads
    ensures r.status == Aborted ==> r.actions == [ReadMatrix(distanceArg)] && RunCount(r.actions) == 0
    ensures r.status != Aborted ==>
              && r.status == Exited(0)
              && RunCount(r.actions) == (if rounds <= 0 then 0 else rounds)
              && WellFormedRuns(r.actions, distanceArg)
              && r.actions == LoopActions(rounds, distanceArg)
  {
    if rounds >= 1 && LoadsDistance(distanceArg) && !distanceLoads then
      assert [ReadMatrix(distanceArg)][1..] == [];
      Exit(Aborted, [ReadMatrix(distanceArg)])
    else Exit(Exited(0), LoopActions(rounds, distanceArg))
  }

  /**
   The single-matrix driver after argument parsing: it aborts when the
   weight matrix does not load (so always for n = 0), and when a distance
   matrix is needed and does not load; an abort comes before any run.
   */
  function TmfgMain(fs: Files, n: nat, weightPath: string, distanceArg: string, rounds: int): (r: Exit)
    ensures |r.actions| >= 1 && r.actions[0] == ReadMatrix(weightPath)
    ensures r.status == Aborted <==>
              || !LoadSucceeds(fs, weightPath, n)
              || (rounds >= 1 && LoadsDistance(distanceArg) && !LoadSucceeds(fs, distanceArg, n))
    ensures n == 0 ==> r == Exit(Aborted, [ReadMatrix(weightPath)])
    ensures r.status == Aborted ==> RunCount(r.actions) == 0
    ensures forall k :: 0 <= k < |r.actions| && r.actions[k].Construct? ==> k >= 2
    ensures r.status != Aborted ==>
              && r.status == Exited(0)
              && |r.actions| >= 2 && r.actions[1] == SetDiagonalToOne
              && (forall k :: 0 <= k < |r.actions| && r.actions[k] == SetDiagonalToOne ==> k == 1)
              && RunCount(r.actions) == (if rounds <= 0 then 0 else rounds)
              && WellFormedRuns(r.actions[2..], distanceArg)
  {
    if !LoadSucceeds(fs, weightPath, n) then
      assert [ReadMatrix(weightPath)][1..] == [];
      Exit(Aborted, [ReadMatrix(weightPath)])
    else
      var loop := RunLoop(rounds, distanceArg, LoadSucceeds(fs, distanceArg, n));
      var head := [ReadMatrix(weightPath), SetDiagonalToOne];
      assert head[1..] == [SetDiagonalToOne] && head[1..][1..] == [];
      RunCountAppend(head, loop.actions);
      assert (head + loop.actions)[2..] == loop.actions;
      if loop.status == Aborted then
        Exit(Aborted, head + loop.actions)
      else
        RunLoopLeavesDiagonal(loop.actions, distanceArg);
        Exit(Exited(0), head + loop.actions)
  }

  /**
   When the distance argument starts with '0' no distance file is read: after
   the weight matrix and its diagonal come `rounds` runs without a distance
   matrix and nothing else.
   */
  lemma NoDistanceReadForZeroArg(fs: Files, n: nat, weightPath: string, distanceArg: string, rounds: int)
    requires !LoadsDistance(distanceArg)
    ensures var r := TmfgMain(fs, n, weightPath, distanceArg, rounds);
            r.status == Aborted <==> !LoadSucceeds(fs, weightPath, n)
    ensures var r := TmfgMain(fs, n, weightPath, distanceArg, rounds);
            r.status != Aborted ==>
              && |r.actions| == 2 + (if rounds <= 0 then 0 else rounds)
              && forall k :: 2 <= k < |r.actions| ==> r.actions[k] == Construct(None)
  {
    var r := TmfgMain(fs, n, weightPath, distanceArg, rounds);
    if r.status != Aborted {
      var loop := LoopActions(rounds, distanceArg);
      assert r.actions == [ReadMatrix(weightPath), SetDiagonalToOne] + loop;
      forall k | 2 <= k < |r.actions|
        ensures r.actions[k] == Construct(None)
      {
        assert r.actions[k] == loop[k - 2];
      }
    }
  }

  /** A regular file found in the data directory. */
  datatype DataFile = DataFile(path: string, name: string)

  /**
   A data file with the number its name yields (-1 when the name does not
   match) and whether loading it would return.
   */
  datatype NumberedFile = NumberedFile(file: DataFile, number: int, loads: bool)

  /** Every file name's digits, if any, fit in an `int`. */
  ghost predicate AllFit(files: seq<DataFile>) {
    forall k :: 0 <= k < |files| ==> FitsInInt(files[k].name)
  }

  /** The number the driver extracts from each file name, and each file's load outcome. */
  function Classify(fs: Files, n: nat, files: seq<DataFile>): (c: seq<NumberedFile>)
    requires AllFit(files)
    ensures |c| == |files|
    ensures forall k :: 0 <= k < |c| ==>
              && c[k].file == files[k]
              && c[k].number == ExtractFileNumber(files[k].name)
              && c[k].loads == LoadSucceeds(fs, files[k].path, n)
  {
    seq(|files|, k requires 0 <= k < |files| =>
      NumberedFile(files[k], ExtractFileNumber(files[k].name), LoadSucceeds(fs, files[k].path, n)))
  }

  /** A file the batch driver aborts on: it carries a number and does not load. */
  predicate Fails(nf: NumberedFile) {
    nf.number != -1 && !nf.loads
  }

  /** Some numbered file among c does not load. */
  predicate HasFailure(c: seq<NumberedFile>) {
    exists k :: 0 <= k < |c| && Fails(c[k])
  }

  /** A failure lies among all files but the last, or is the last. */
  lemma HasFailureSplit(c: seq<NumberedFile>)
    requires |c| > 0
    ensures HasFailure(c) <==> HasFailure(c[..|c| - 1]) || Fails(c[|c| - 1])
  {
    var init := c[..|c| - 1];
    if HasFailure(c) && !Fails(c[|c| - 1]) {
      var k :| 0 <= k < |c| && Fails(c[k]);
      assert init[k] == c[k];
    }
    if HasFailure(init) {
      var k :| 0 <= k < |init| && Fails(init[k]);
      assert c[k] == init[k];
    }
  }

  /** A classified file fails exactly when its whole name matches and its load does not return. */
  lemma ClassifyFails(fs: Files, n: nat, files: seq<DataFile>)
    requires AllFit(files)
    ensures forall j :: 0 <= j < |files| ==>
              (Fails(Classify(fs, n, files)[j]) <==> Matches(files[j].name) && !LoadSucceeds(fs, files[j].path, n))
  {
    var c := Classify(fs, n, files);
    forall j | 0 <= j < |files|
      ensures Fails(c[j]) <==> Matches(files[j].name) && !LoadSucceeds(fs, files[j].path, n)
    {
      assert c[j].number == ExtractFileNumber(files[j].name);
    }
  }

  /** `rounds` runs of the batch construction on file number `index`. */
  function BatchRuns(rounds: int, index: int): (t: seq<Action>)
    ensures |t| == if rounds <= 0 then 0 else rounds
    ensures RunCount(t) == |t|
    ensures forall k :: 0 <= k < |t| ==> t[k] == ConstructNumbered(index)
    decreases rounds
  {
    if rounds <= 0 then []
    else
      var prev := BatchRuns(rounds - 1, index);
      RunCountAppend(prev, [ConstructNumbered(index)]);
      prev + [ConstructNumbered(index)]
  }

  /**
   The actions for one file: a name without a file number is reported and
   skipped; otherwise the matrix is loaded and, when that returns, its
   diagonal set and the construction run `rounds` times under that number.
   */
  function FileActions(nf: NumberedFile, rounds: int): (t: seq<Action>)
    ensures nf.number == -1 <==> t == [ReportSkipped(nf.file.name)]
    ensures Fails(nf) <==> t == [ReadMatrix(nf.file.path)]
    ensures nf.number != -1 && nf.loads ==>
              && |t| == 2 + (if rounds <= 0 then 0 else rounds)
              && t[0] == ReadMatrix(nf.file.path) && t[1] == SetDiagonalToOne
              && forall k :: 2 <= k < |t| ==> t[k] == ConstructNumbered(nf.number)
    ensures RunCount(t) == if nf.number == -1 || !nf.loads || rounds <= 0 then 0 else rounds
  {
    if nf.number == -1 then
      assert [ReportSkipped(nf.file.name)][1..] == [];
      [ReportSkipped(nf.file.name)]
    else if !nf.loads then
      assert [ReadMatrix(nf.file.path)][1..] == [];
      [ReadMatrix(nf.file.path)]
    else
      var head := [ReadMatrix(nf.file.path), SetDiagonalToOne];
      assert head[1..] == [SetDiagonalToOne] && head[1..][1..] == [];
      RunCountAppend(head, BatchRuns(rounds, nf.number));
      head + BatchRuns(rounds, nf.number)
  }

  /** The number of files whose name carries a file number. */
  function MatchingFiles(c: seq<NumberedFile>): nat {
    if |c| == 0 then 0
    else MatchingFiles(c[..|c| - 1]) + (if c[|c| - 1].number == -1 then 0 else 1)
  }

  /** The actions for all files, in directory order, when no load aborts the loop. */
  function AllFileActions(c: seq<NumberedFile>, rounds: int): seq<Action> {
    if |c| == 0 then [] else AllFileActions(c[..|c| - 1], rounds) + FileActions(c[|c| - 1], rounds)
  }

  lemma MulStep(m: nat, p: nat)
    ensures (m + 1) * p == m * p + p
  {
  }

  /** When every numbered file loads, each is run `rounds` times and every other file not at all. */
  lemma {:induction false} BatchRunCount(c: seq<NumberedFile>, rounds: int)
    ensures !HasFailure(c) ==>
              RunCount(AllFileActions(c, rounds)) == MatchingFiles(c) * (if rounds <= 0 then 0 else rounds)
    decreases |c|
  {
    if |c| > 0 && !HasFailure(c) {
      var init := c[..|c| - 1];
      var last := c[|c| - 1];
      var per := if rounds <= 0 then 0 else rounds;
      var m := MatchingFiles(init);
      HasFailureSplit(c);
      BatchRunCount(init, rounds);
      assert RunCount(AllFileActions(init, rounds)) == m * per;
      RunCountAppend(AllFileActions(init, rounds), FileActions(last, rounds));
      if last.number == -1 {
        assert RunCount(FileActions(last, rounds)) == 0;
        assert MatchingFiles(c) == m;
      } else {
        assert last.loads;
        assert RunCount(FileActions(last, rounds)) == per;
        assert MatchingFiles(c) == m + 1;
        MulStep(m, per);
      }
    }
  }

  /** The index of the first numbered file that does not load, or |c| when there is none. */
  function FirstFailure(c: seq<NumberedFile>): (k: nat)
    ensures k <= |c|
    ensures forall j :: 0 <= j < k ==> !Fails(c[j])
    ensures k < |c| ==> Fails(c[k])
  {
    if |c| == 0 then 0
    else
      var k := FirstFailure(c[..|c| - 1]);
      if k < |c| - 1 then k
      else if Fails(c[|c| - 1]) then |c| - 1
      else |c|
  }

  /**
   The batch driver's file loop: files in directory order, each skipped or
   loaded and run. A numbered file that does not load aborts the process,
   and no later file is touched.
   */
  function BatchLoop(c: seq<NumberedFile>, rounds: int): (r: Exit)
    ensures r.status == Aborted || r.status == Exited(0)
    ensures r.status == Aborted <==> HasFailure(c)
  {
    if |c| == 0 then Exit(Exited(0), [])
    else
      var init := c[..|c| - 1];
      var prev := BatchLoop(init, rounds);
      HasFailureSplit(c);
      if prev.status == Aborted then prev
      else Exit(if Fails(c[|c| - 1]) then Aborted else Exited(0), prev.actions + FileActions(c[|c| - 1], rounds))
  }

  /**
   The loop processes every file before the first failing one as if no load
   could fail, then reads the failing file and stops; without a failing
   file it processes them all.
   */
  lemma {:induction false} BatchLoopStopsAtFirstFailure(c: seq<NumberedFile>, rounds: int)
    ensures var k := FirstFailure(c);
            && (k == |c| ==> BatchLoop(c, rounds).actions == AllFileActions(c, rounds))
            && (k < |c| ==> BatchLoop(c, rounds).actions == AllFileActions(c[..k], rounds) + [ReadMatrix(c[k].file.path)])
    decreases |c|
  {
    if |c| > 0 {
      var init := c[..|c| - 1];
      var last := c[|c| - 1];
      BatchLoopStopsAtFirstFailure(init, rounds);
      var ki := FirstFailure(init);
      var prev := BatchLoop(init, rounds);
      assert forall j :: 0 <= j < |init| ==> init[j] == c[j];
      if ki < |init| {
        assert Fails(init[ki]);
        assert HasFailure(init);
        assert c[..ki] == init[..ki];
      } else {
        assert prev.status != Aborted;
        assert c[..|c| - 1] == init;
      }
    }
  }

  /**
   Without a failing file the loop runs every numbered file `rounds` times;
   otherwise it runs those before the first failing file and ends reading it.
   */
  lemma BatchLoopCount(c: seq<NumberedFile>, rounds: int)
    ensures var r := BatchLoop(c, rounds);
            var k := FirstFailure(c);
            && (HasFailure(c) <==> k < |c|)
            && (k == |c| ==> RunCount(r.actions) == MatchingFiles(c) * (if rounds <= 0 then 0 else rounds))
            && (k < |c| ==>
                  && |r.actions| > 0 && r.actions[|r.actions| - 1] == ReadMatrix(c[k].file.path)
                  && RunCount(r.actions) == MatchingFiles(c[..k]) * (if rounds <= 0 then 0 else rounds))
  {
    var k := FirstFailure(c);
    BatchLoopStopsAtFirstFailure(c, rounds);
    if k == |c| {
      assert forall j :: 0 <= j < |c| ==> !Fails(c[j]);
      BatchRunCount(c, rounds);
    } else {
      assert forall j :: 0 <= j < k ==> c[..k][j] == c[j];
      BatchRunCount(c[..k], rounds);
      RunCountAppend(AllFileActions(c[..k], rounds), [ReadMatrix(c[k].file.path)]);
      assert [ReadMatrix(c[k].file.path)][1..] == [];
    }
  }

  /**
   The batch driver: fewer than six arguments print the usage and exit with
   status 1; otherwise the file loop runs and, unless a load aborts it, the
   driver returns 0.
   */
  function BatchMain(argc: int, fs: Files, n: nat, files: seq<DataFile>, rounds: int): (r: Exit)
    requires AllFit(files)
    ensures argc < 7 ==> r == Exit(Exited(1), [])
    ensures argc >= 7 ==> r == BatchLoop(Classify(fs, n, files), rounds)
    ensures argc >= 7 ==>
              (r.status == Aborted <==>
                 exists k :: 0 <= k < |files| && Matches(files[k].name) && !LoadSucceeds(fs, files[k].path, n))
    ensures argc >= 7 && r.status != Aborted ==>
              && r.status == Exited(0)
              && RunCount(r.actions) == MatchingFiles(Classify(fs, n, files)) * (if rounds <= 0 then 0 else rounds)
  {
    if argc < 7 then Exit(Exited(1), [])
    else
      var c := Classify(fs, n, files);
      var k := FirstFailure(c);
      BatchLoopCount(c, rounds);
      ClassifyFails(fs, n, files);
      BatchLoop(c, rounds)
  }

  /**
   An aborted file loop ends reading the first numbered file that does not
   load, after running only the numbered files before it.
   */
  lemma BatchAbortDetails(fs: Files, n: nat, files: seq<DataFile>, rounds: int)
    requires AllFit(files)
    ensures var c := Classify(fs, n, files);
            var r := BatchLoop(c, rounds);
            var k := FirstFailure(c);
            r.status == Aborted ==>
              && k < |files|
              && Matches(files[k].name)
              && !LoadSucceeds(fs, files[k].path, n)
              && |r.actions| > 0 && r.actions[|r.actions| - 1] == ReadMatrix(files[k].path)
              && RunCount(r.actions) == MatchingFiles(c[..k]) * (if rounds <= 0 then 0 else rounds)
  {
    var c := Classify(fs, n, files);
    BatchLoopCount(c, rounds);
    ClassifyFails(fs, n, files);
  }

  /** With n = 0 every load fails, so the batch aborts exactly when some file name matches. */
  lemma ZeroDimensionAborts(argc: int, fs: Files, files: seq<DataFile>, rounds: int)
    requires AllFit(files)
    ensures argc >= 7 ==>
              (BatchMain(argc, fs, 0, files, rounds).status == Aborted <==>
                 exists k :: 0 <= k < |files| && Matches(files[k].name))
  {
    assert forall k :: 0 <= k < |files| ==> !LoadSucceeds(fs, files[k].path, 0);
  }

  /**
   An action of the batch driver is accounted for by a file with a number:
   a run carries the number of a file that loaded, a read reads a numbered file.
   */
  ghost predicate FromNumberedFile(c: seq<NumberedFile>, x: Action) {
    && (x.ConstructNumbered? ==> x.fileIndex != -1 && exists e :: e in c && e.number == x.fileIndex && e.loads)
    && (x.ReadMatrix? ==> exists e :: e in c && e.number != -1 && e.file.path == x.path)
  }

  lemma {:induction false} BatchLoopFromNumberedFiles(c: seq<NumberedFile>, rounds: int)
    ensures forall x :: x in BatchLoop(c, rounds).actions ==> FromNumberedFile(c, x)
    decreases |c|
  {
    if |c| > 0 {
      var init := c[..|c| - 1];
      var last := c[|c| - 1];
      BatchLoopFromNumberedFiles(init, rounds);
      var prev := BatchLoop(init, rounds);
      var t := FileActions(last, rounds);
      assert forall e :: e in init ==> e in c;
      assert last in c;
      forall x | x in BatchLoop(c, rounds).actions
        ensures FromNumberedFile(c, x)
      {
        if x in prev.actions {
          assert FromNumberedFile(init, x);
        } else {
          assert x in t;
          if last.number != -1 && last.loads {
            var k :| 0 <= k < |t| && t[k] == x;
          }
        }
      }
    }
  }

  /**
   Every run of the batch driver carries the number of a file whose whole
   name matched and whose matrix loaded, so it is never the sentinel; every
   matrix it reads is such a file. A name without a number leads to no read
   and no run.
   */
  lemma BatchActionsFromMatchingFiles(argc: int, fs: Files, n: nat, files: seq<DataFile>, rounds: int)
    requires AllFit(files)
    ensures forall x :: x in BatchMain(argc, fs, n, files, rounds).actions && x.ConstructNumbered? ==>
              && x.fileIndex >= 0
              && exists k :: 0 <= k < |files| && Matches(files[k].name) && LoadSucceeds(fs, files[k].path, n)
                             && ExtractFileNumber(files[k].name) == x.fileIndex
    ensures forall x :: x in BatchMain(argc, fs, n, files, rounds).actions && x.ReadMatrix? ==>
              exists k :: 0 <= k < |files| && Matches(files[k].name) && files[k].path == x.path
  {
    var c := Classify(fs, n, files);
    var acts := BatchMain(argc, fs, n, files, rounds).actions;
    if argc >= 7 {
      BatchLoopFromNumberedFiles(c, rounds);
      forall x | x in acts && x.ConstructNumbered?
        ensures x.fileIndex >= 0
        ensures exists k :: 0 <= k < |files| && Matches(files[k].name) && LoadSucceeds(fs, files[k].path, n)
                            && ExtractFileNumber(files[k].name) == x.fileIndex
      {
        assert FromNumberedFile(c, x);
        var e :| e in c && e.number == x.fileIndex && e.loads;
        var k :| 0 <= k < |c| && c[k] == e;
        assert ExtractFileNumber(files[k].name) == x.fileIndex != -1;
      }
      forall x | x in acts && x.ReadMatrix?
        ensures exists k :: 0 <= k < |files| && Matches(files[k].name) && files[k].path == x.path
      {
        assert FromNumberedFile(c, x);
        var e :| e in c && e.number != -1 && e.file.path == x.path;
        var k :| 0 <= k < |c| && c[k] == e;
        assert ExtractFileNumber(files[k].name) != -1;
      }
    }
  }

  /** With n = 0 the first numbered file aborts the batch before any run. */
  lemma ZeroDimensionAbortsBatch(fs: Files)
    ensures AllFit([DataFile("d/dsb-1.bin", "dsb-1.bin")])
    ensures BatchMain(7, fs, 0, [DataFile("d/dsb-1.bin", "dsb-1.bin")], 1) == Exit(Aborted, [ReadMatrix("d/dsb-1.bin")])
  {
    assert "dsb-1.bin" == NamePrefix + "1" + NameSuffix;
    ExtractNumeral("1");
    var files := [DataFile("d/dsb-1.bin", "dsb-1.bin")];
    var c := Classify(fs, 0, files);
    assert c[0].number == 1;
    assert Fails(c[0]);
    assert c[..0] == [];
    assert BatchLoop(c[..0], 1) == Exit(Exited(0), []);
    assert FileActions(c[0], 1) == [ReadMatrix("d/dsb-1.bin")];
    assert BatchLoop(c, 1) == Exit(Aborted, [ReadMatrix("d/dsb-1.bin")]);
  }

  /** Distinct file numbers give distinct output files; equal ones share one. */
  lemma OutputPerFileNumber(dsname: string, methodName: string, threshold: nat, f1: DataFile, f2: DataFile)
    requires FitsInInt(f1.name) && FitsInInt(f2.name)
    requires Matches(f1.name) && Matches(f2.name)
    ensures IndexedPPath(dsname, ExtractFileNumber(f1.name), methodName, threshold)
            == IndexedPPath(dsname, ExtractFileNumber(f2.name), methodName, threshold)
            <==> ExtractFileNumber(f1.name) == ExtractFileNumber(f2.name)
  {
    IndexedPathInjective(dsname, methodName, threshold, ExtractFileNumber(f1.name), ExtractFileNumber(f2.name));
  }

  /** "dsb-7.bin" and "dsb-007.bin" are both processed as file 7 and write the same output. */
  lemma LeadingZeroNamesShareOutput(dsname: string, methodName: string, threshold: nat)
    ensures FitsInInt("dsb-7.bin") && FitsInInt("dsb-007.bin")
    ensures ExtractFileNumber("dsb-7.bin") == ExtractFileNumber("dsb-007.bin") == 7
    ensures IndexedPPath(dsname, ExtractFileNumber("dsb-7.bin"), methodName, threshold)
            == IndexedPPath(dsname, ExtractFileNumber("dsb-007.bin"), methodName, threshold)
  {
    ExampleLeadingZeros();
    assert "dsb-7.bin" == NamePrefix + "7" + NameSuffix;
    ExtractNumeral("7");
  }
}
