# par_tmfg drivers and matrix loader, in Dafny

This project models the command-line layer of par_tmfg, the parallel
Triangulated Maximally Filtered Graph (TMFG) builder:

- **File numbers.** The batch driver only processes data files whose whole
  name is `dsb-<digits>.bin`. The number in the name labels the outputs.
  Every other file is reported and skipped (sentinel `-1`).
- **The matrix loader.** It reads `n*n` doubles from a binary file into a
  buffer, applies two size checks, and parses the buffer into a symmetric
  matrix. The parse copies the strict upper triangle: cell (i, j) with
  i < j gets `W[i*n + j]`.
- **Method dispatch.** `prefix` asks the engine for up to
  `min(THRESHOLD, open faces)` best vertices per round. `exact` calls
  `insertOne` once per round. `naive` asks for
  `getAllBestVertices(open faces)`. Any other string runs no round. Whether
  a round actually inserts a vertex is up to the engine. The model records
  a loop whose round inserts nothing as stalled; with THRESHOLD = 0 the
  prefix loop can stall like this (see Findings).
- **Output naming.** `exact` and `naive` write `...-P-1` / `...-Z-1` and
  ignore the threshold. Every other method, including an unrecognised one,
  records the threshold in decimal. The batch driver also puts the file
  number into the permutation file name.
- **The two drivers.** The single-matrix driver loads W and sets its
  diagonal to 1. It then runs the construction `round` times, loading a
  distance matrix first unless the distance argument starts with `'0'`.
  The batch driver requires six arguments and does the same for each
  numbered file. A load that fails, because the file cannot be opened or
  n = 0, aborts the whole process at that point.

Modules:

- `Decimal`: decimal numerals and their values.
- `FileNumber`: the file-name pattern and `extractFileNumber`.
- `SymMatrix`: the symmetric matrix and `parseSymMatrix`.
- `Loader`: `readSymMatrixFromFile`.
- `OutputPaths`: output file names.
- `Dispatch`: the insertion loops of `runTMFG` / `runParTMFGD`, over an
  uninterpreted engine.
- `Drivers`: the two `main`s, as the sequence of actions each performs.
- `Wrappers`: `Option` and `Result`.

The TMFG engine (gain arrays, best-vertex selection, insertion) is a
parameter (`Dispatch.Engine`): a hidden state, the two queries the loops
ask of it, and the effect of a round. Nothing is assumed about it. What a
working engine provides is the hypothesis `InsertsOnRequest`, used only
where a lemma says so. File contents (`Drivers.Files`) and directory
listings are parameters too.

A difference between the description of the loader and its code: the
loader's messages speak of detecting an empty file and a wrong dimension,
but the code checks the size of its own `n*n` buffer, not what the file
held. The model follows the code: for `n >= 1` a short file is accepted
and its missing values stay at the buffer's fill value (see Findings).

## Model

| member | source | states |
|---|---|---|
| FileNumber.Matches | par_tmfg/tmfg-multibackup.cpp:43-45 | The language of the regex `dsb-(\d+)\.bin` under a whole-string match: the prefix, a non-empty digit run, the suffix |
| FileNumber.Capture | par_tmfg/tmfg-multibackup.cpp:43-45 | A capture is a non-empty run of digits, and the name is exactly "dsb-" + capture + ".bin": the regex must match the whole name |
| FileNumber.CaptureComplete | par_tmfg/tmfg-multibackup.cpp:43-45 | Every name "dsb-" + d + ".bin" with d a non-empty digit string is matched, and the capture is d |
| FileNumber.CaptureIffMatches | par_tmfg/tmfg-multibackup.cpp:43-45 | The capture succeeds exactly when the name has the regex's shape |
| FileNumber.ExtractFileNumber | par_tmfg/tmfg-multibackup.cpp:42-49 | The result is -1 or a non-negative int (at most 2^31-1), and it is non-negative exactly when the whole name matches `dsb-(\d+)\.bin` |
| FileNumber.ExtractNumeral | par_tmfg/tmfg-multibackup.cpp:45-46 | For a matching name, the result is the decimal value of its digits (stoi) |
| FileNumber.ExtractToString | par_tmfg/tmfg-multibackup.cpp:45-46 | Round trip: the file named with the decimal form of k yields k |
| FileNumber.MatchedMiddleIsDigits | par_tmfg/tmfg-multibackup.cpp:43 | In a matching name, every character between prefix and suffix is a digit |
| FileNumber.NonDigitRejected | par_tmfg/tmfg-multibackup.cpp:43-48 | A non-digit between "dsb-" and the last four characters gives -1 |
| FileNumber.WrongSuffixRejected | par_tmfg/tmfg-multibackup.cpp:43-48 | A name not ending in ".bin" gives -1: the dot is literal |
| FileNumber.ExtraPrefixRejected | par_tmfg/tmfg-multibackup.cpp:43-48 | Characters before "dsb-" give -1 (whole-string match, not search) |
| FileNumber.ExtraSuffixRejected | par_tmfg/tmfg-multibackup.cpp:43-48 | Characters after ".bin" give -1 |
| FileNumber.NonNumeralRejected | par_tmfg/tmfg-multibackup.cpp:43-48 | A middle part that is empty or holds a non-digit gives -1 |
| FileNumber.LeadingZerosIgnored | par_tmfg/tmfg-multibackup.cpp:46 | Leading zeros in the digits do not change the number |
| FileNumber.ExampleLeadingZeros | par_tmfg/tmfg-multibackup.cpp:42-49 | "dsb-007.bin" gives 7 |
| FileNumber.ExampleEmptyDigits | par_tmfg/tmfg-multibackup.cpp:43-48 | "dsb-.bin" gives -1 (`\d+` needs a digit) |
| FileNumber.ExampleLiteralDot | par_tmfg/tmfg-multibackup.cpp:43-48 | "dsb-1xbin" gives -1 (the escaped dot matches only '.') |
| FileNumber.ExampleWholeString | par_tmfg/tmfg-multibackup.cpp:43-48 | "xdsb-1.bin" and "dsb-1.bin.bak" give -1 |
| Decimal.Value | par_tmfg/tmfg-multibackup.cpp:46 | The value stoi gives a digit string; it is 0 exactly when every digit is '0' |
| Decimal.NatToString | par_tmfg/tmfg.cpp:185 | to_string of a non-negative number is a canonical numeral: non-empty, digits only, no leading zero |
| Decimal.IntToString | par_tmfg/tmfg-multibackup.cpp:105 | to_string of an int is non-empty and starts with a digit exactly when the number is non-negative |
| Decimal.ValueOfNatToString | par_tmfg/tmfg-multibackup.cpp:105 | Reading back the decimal form of k gives k |
| Decimal.NatToStringOfValue | par_tmfg/tmfg-multibackup.cpp:46 | A canonical numeral is the decimal form of its value |
| Decimal.NatToStringInjective | par_tmfg/tmfg.cpp:185 | Distinct thresholds have distinct decimal forms, and equal ones equal forms |
| Decimal.IntToStringInjective | par_tmfg/tmfg-multibackup.cpp:105 | to_string on int is injective, including negative numbers |
| Decimal.ValueLeadingZeros | par_tmfg/tmfg-multibackup.cpp:46 | Prepending zeros to a digit string keeps its value |
| SymMatrix.Empty | par_tmfg/IO.h:18 | A fresh n-by-n matrix holds no entry |
| SymMatrix.Get | par_tmfg/IO.h:21 | A read of the symmetric store: (i, j) and (j, i) name one cell, and (i, i) reads the diagonal |
| SymMatrix.GetSymmetric | par_tmfg/IO.h:21 | Reads do not depend on the order of the two indices |
| SymMatrix.Update | par_tmfg/IO.h:21 | Writing (i, j) makes both (i, j) and (j, i) read the value; every other pair is unchanged |
| SymMatrix.SetDiag | par_tmfg/tmfg.cpp:204 | After setDiag(v) every diagonal cell reads v; every off-diagonal cell is unchanged |
| SymMatrix.FlatIndexBound | par_tmfg/IO.h:21 | For i, j < n the flat index i*n + j is inside the n*n buffer |
| SymMatrix.FlatIndexInjective | par_tmfg/IO.h:21 | Distinct cells read distinct buffer positions |
| SymMatrix.UpperTriangleReadsOnlyUpper | par_tmfg/IO.h:19-21 | Two buffers give the same matrix exactly when they agree at every strict-upper position i*n + j |
| SymMatrix.LowerAndDiagonalNotRead | par_tmfg/IO.h:19-21 | Changing a diagonal or lower-triangle buffer value leaves the parsed matrix unchanged |
| SymMatrix.WritesBeforeClosedForm | par_tmfg/IO.h:19-20 | Rows 0..i-1 make i*(2n-i-1)/2 writes |
| SymMatrix.UpperPairsCount | par_tmfg/IO.h:19-20 | There are n*(n-1)/2 strict-upper cells |
| SymMatrix.ParseSymMatrix | par_tmfg/IO.h:16-25 | The nested loops write each strict-upper cell (i, j) exactly once, with W[i*n + j]; no other cell is written; n*(n-1)/2 writes; the diagonal is left unset |
| Loader.SizeGuard | par_tmfg/IO.h:37-44 | On the n*n buffer the empty check fires exactly when n = 0, and the dimension check never fires |
| Loader.SquareDivisible | par_tmfg/IO.h:41 | n*n is always divisible by n, so `W.size() % n != 0` cannot hold |
| Loader.ReadBuffer | par_tmfg/IO.h:30-36 | The buffer always has n*n values: as many as the file holds, then the fill value |
| Loader.ReadSymMatrixFromFile | par_tmfg/IO.h:29-55 | An unopenable file fails; n = 0 fails as empty; never a dimension error; the load succeeds exactly when the file opens and n >= 1 (`Loads`), and then holds the upper triangle of the buffer |
| Loader.ShortFileAccepted | par_tmfg/IO.h:36-44 | A one-value file for n = 2 passes both checks, and cell (0, 1) holds the fill value |
| Loader.ReadSymMatrixChecked | par_tmfg/IO.h:29-55 | Corrected load: no values means empty, fewer than n*n means wrong dimension, and on success every cell comes from the file |
| OutputPaths.PPath | par_tmfg/tmfg.cpp:180-187 | The single-matrix permutation output, under "./outputs/Ps/" |
| OutputPaths.ZPath | par_tmfg/tmfg.cpp:180-187 | The dendrogram output, under "./outputs/Zs/" |
| OutputPaths.IndexedPPath | par_tmfg/tmfg-multibackup.cpp:105-111 | The batch permutation output, under "./outputs/Ps/" |
| OutputPaths.ExactNaiveIgnoreThreshold | par_tmfg/tmfg.cpp:180-183 | For exact and naive, the P, Z and indexed P names do not depend on the threshold; the P and indexed P names end in "-P-1" and the Z name in "-Z-1" (also tmfg-multibackup.cpp:106-108) |
| OutputPaths.OtherMethodsRecordThreshold | par_tmfg/tmfg.cpp:184-186 | For any other method, the P name is the stem followed by the canonical decimal form of the threshold, which reads back as the threshold |
| OutputPaths.ThresholdInjective | par_tmfg/tmfg.cpp:184-186 | For those methods, distinct thresholds give distinct P files |
| OutputPaths.PAndZDifferOnlyInTag | par_tmfg/tmfg.cpp:182-186 | The P and Z names of one run have equal length and differ in exactly two characters: the directory letter and the kind letter |
| OutputPaths.IndexedOtherMethodsRecordThreshold | par_tmfg/tmfg-multibackup.cpp:105-111 | For any method but exact and naive, the batch P name is the stem with the file number followed by the canonical decimal form of the threshold, which reads back as the threshold |
| OutputPaths.IndexedThresholdInjective | par_tmfg/tmfg-multibackup.cpp:109-111 | For those methods, distinct thresholds give distinct batch P files |
| OutputPaths.IndexedPathInjective | par_tmfg/tmfg-multibackup.cpp:105-111 | Distinct file numbers give distinct batch P files |
| Dispatch.ParseMethod | par_tmfg/tmfg.cpp:134-157 | Only the exact strings "prefix", "exact", "naive" select a schedule; any other string is unrecognised |
| Dispatch.ParseMethodName | par_tmfg/tmfg.cpp:134-150 | Each schedule's name parses back to it |
| Dispatch.BatchLimit | par_tmfg/tmfg.cpp:136 | The prefix batch is at most the threshold and at most the open-face count, and equals one of them |
| Dispatch.RunRounds | par_tmfg/tmfg.cpp:134-157 | An unrecognised method runs no round. Otherwise every round starts with a vertex uninserted and passes the engine what its schedule prescribes. The loop ends with none left, or stalls after a round that inserted nothing. It never stalls when every round the schedule issues inserts a vertex (`Progresses`) |
| Dispatch.RunRoundsFollowsSourceLoop | par_tmfg/tmfg.cpp:134-157 | The recorded rounds are the source's while-loop iterations: round k starts where k iterations of the loop body lead, and the final state is where as many iterations end |
| Dispatch.PrefixBatchBounded | par_tmfg/tmfg.cpp:135-139 | Every prefix round asks for min(THRESHOLD, open faces) vertices |
| Dispatch.ZeroThresholdLoopsForever | par_tmfg/tmfg.cpp:134-144 | With THRESHOLD = 0 every prefix round asks for 0 vertices. If such a round leaves the engine unchanged, the loop stays in its start state with a vertex left after any number of iterations, and the model reports it stalled |
| Dispatch.PositiveRequestsProgress | par_tmfg/tmfg.cpp:134-157 | Against an engine that inserts whenever asked for at least one vertex, every schedule progresses unless it is prefix with THRESHOLD = 0 |
| Dispatch.RunRoundsChecked | par_tmfg/tmfg.cpp:134-157 | Corrected dispatch: prefix with THRESHOLD = 0 is refused, and any other run against such an engine ends with every vertex inserted |
| Dispatch.RunTmfg | par_tmfg/tmfg.cpp:109-188 | An unknown method runs no round and still writes its P and Z files. A known one finishes with every vertex inserted and writes them, unless its loop stalls, in which case nothing is written |
| Dispatch.RunParTmfgd | par_tmfg/tmfg-multibackup.cpp:51-112 | As RunTmfg, with no dendrogram and the file number in the P name |
| Drivers.LoadsDistance | par_tmfg/tmfg.cpp:206 | A distance matrix is loaded exactly when the argument's first character is not '0' |
| Drivers.LoopActions | par_tmfg/tmfg.cpp:205-214 | With loads that return, `round` iterations make max(round, 0) runs and nothing else but distance loads. When the argument does not start with '0' each run gets the distance matrix and is preceded by its load; otherwise no distance file is read and every run has no distance matrix; 2 or 1 actions per iteration accordingly |
| Drivers.RunLoop | par_tmfg/tmfg.cpp:205-214 | The loop aborts exactly when it runs at least once, needs a distance matrix, and that load fails; it then aborts at the first load, before any run. Otherwise its actions are exactly LoopActions |
| Drivers.TmfgMain | par_tmfg/tmfg.cpp:191-215 | W is loaded first. The driver aborts exactly when that load or a needed distance load fails (always for n = 0), and before any run. Otherwise the diagonal is set to 1 once, before any run, then max(round, 0) runs follow, a distance file is read only right before a run that uses it, and the status is 0 |
| Drivers.NoDistanceReadForZeroArg | par_tmfg/tmfg.cpp:205-214 | With an argument starting with '0' the driver aborts only when the weight load fails; otherwise it performs the weight load, setDiag and then exactly max(round, 0) runs without a distance matrix, reading no other file |
| Drivers.Classify | par_tmfg/tmfg-multibackup.cpp:153-164 | Each file is paired with the number its own name yields and whether its load returns, in directory order |
| Drivers.ClassifyFails | par_tmfg/tmfg-multibackup.cpp:157-164 | A file aborts the batch exactly when its whole name matches and its load fails |
| Drivers.BatchRuns | par_tmfg/tmfg-multibackup.cpp:167-169 | max(round, 0) runs, all under the file's number |
| Drivers.FileActions | par_tmfg/tmfg-multibackup.cpp:157-169 | A file is skipped exactly when its number is -1. A numbered file whose load fails is only read, which aborts. Otherwise it is loaded, its diagonal set, and run max(round, 0) times under its number |
| Drivers.BatchRunCount | par_tmfg/tmfg-multibackup.cpp:153-172 | When no numbered file fails to load, the file loop makes (numbered files) * max(round, 0) runs |
| Drivers.FirstFailure | par_tmfg/tmfg-multibackup.cpp:153-164 | The index of the first numbered file whose load fails: every earlier file loads or is skipped |
| Drivers.BatchLoop | par_tmfg/tmfg-multibackup.cpp:153-172 | The file loop aborts exactly when some numbered file fails to load, and otherwise finishes with status 0 |
| Drivers.BatchLoopStopsAtFirstFailure | par_tmfg/tmfg-multibackup.cpp:153-172 | The loop processes the files before the first failing one normally, reads the failing one and stops; without one, it processes all files |
| Drivers.BatchLoopCount | par_tmfg/tmfg-multibackup.cpp:153-172 | The loop aborts exactly when a first failing file exists. Without one it makes (numbered files) * max(round, 0) runs; with one it makes that many for the files before it, and ends by reading it |
| Drivers.BatchMain | par_tmfg/tmfg-multibackup.cpp:129-176 | Fewer than six arguments exit with status 1 and do nothing. Otherwise the batch aborts exactly when some matching file fails to load; if not, it returns 0 after (numbered files) * max(round, 0) runs |
| Drivers.BatchAbortDetails | par_tmfg/tmfg-multibackup.cpp:153-169 | An aborted batch ends reading the first matching file that fails to load, after running only the numbered files before it |
| Drivers.ZeroDimensionAborts | par_tmfg/tmfg-multibackup.cpp:157-164 | With n = 0 the batch aborts exactly when some file name matches |
| Drivers.ZeroDimensionAbortsBatch | par_tmfg/tmfg-multibackup.cpp:157-165 | With n = 0 and the single file "dsb-1.bin", the batch reads that file and aborts without a run |
| Drivers.BatchLoopFromNumberedFiles | par_tmfg/tmfg-multibackup.cpp:153-169 | Every read of the file loop is of a numbered file, and every run carries the number of a file that loaded |
| Drivers.BatchActionsFromMatchingFiles | par_tmfg/tmfg-multibackup.cpp:157-169 | Every run carries a non-negative number extracted from a whole-matching name whose load succeeded; every read reads a whole-matching file |
| Drivers.OutputPerFileNumber | par_tmfg/tmfg-multibackup.cpp:157-168 | Two numbered files write the same batch P file exactly when their numbers are equal |
| Drivers.LeadingZeroNamesShareOutput | par_tmfg/tmfg-multibackup.cpp:157-168 | "dsb-7.bin" and "dsb-007.bin" are both file 7 and write the same output file |

## Left out

- The TMFG/DBHT engine (ParTMFGD, ParDBHTTMFGD): gain arrays, best-vertex selection, insertion, computeCost and the output writers. It is a parameter, and symmatrix.h is not part of this model.
- SymMatrix.SymM: an abstract store in which a never-written cell is absent (None). The storage layout and initial contents of the C++ SymM are not modelled, because symmatrix.h is not part of this model.
- Dispatch.RunRounds: a round that leaves the number of uninserted vertices unchanged ends the model's loop as stalled, with no output recorded. The source keeps calling the engine. When the round left the engine state unchanged, the source loops forever, as ZeroThresholdLoopsForever shows. Otherwise the outcome depends on the engine, which is not modelled.
- FileNumber.ExtractFileNumber: requires that a matched digit run fit in an int (`FitsInInt`). std::stoi throws out_of_range beyond 2^31-1, and that exception path is not modelled.
- `atoi` parsing of n, THRESHOLD and round: these arrive as numbers. A negative n or THRESHOLD wrapping to a huge size_t is not modelled; a non-positive round count runs nothing, which is modelled.
- The single-matrix driver does not check argc, so a missing argument is undefined behaviour in C++. Its model takes its arguments as given.
- File I/O: opening, reading and directory_iterator become parameters. A file is a sequence of values (None when it cannot be opened), and the bytes-to-double conversion of `read` is not modelled. In the loader, abort() becomes a Failure result. In the drivers it becomes the `Aborted` status, which ends the action sequence.
- Directory creation: createDirectoryIfNotExists exits with status 1 when "./outputs", "./outputs/Ps" or "./outputs/Zs" is not a directory and cannot be created. Every run calls it (tmfg.cpp:116-118, tmfg-multibackup.cpp:60-61). The file system's directories are not modelled, so the runs never take that exit.
- Console logging, the debug dump of the first 5x5 values, the progress bar, timers and the profiler: output only.
- Parallelism: parlay::parallel_for is modelled as sequential loops. Each write targets a distinct cell, which ParseSymMatrix proves.
- The commented-out clustering calls in runTMFG and the `#ifdef DEBUG` triangle check.
- Drivers.TmfgMain: the distance matrix is recorded as a load action. Its contents and the default distance used when it is absent belong to the engine.
- Drivers.TmfgMain, Drivers.BatchMain: the runs themselves are actions. Whether a run's loop stalls is stated by Dispatch.RunTmfg and Dispatch.RunParTmfgd, and the drivers do not combine the two.

## Findings

| source | as written | input that shows it | evidently intended | confidence | as-written member | corrected member |
|---|---|---|---|---|---|---|
| par_tmfg/tmfg.cpp:134-144 | THRESHOLD comes from atoi (tmfg.cpp:198, tmfg-multibackup.cpp:139), so it is 0 for "0" or for non-numeric text. The prefix loop then asks for min(0, faces) = 0 vertices every round (also tmfg-multibackup.cpp:76-83), and nothing checks for it | method "prefix", THRESHOLD "0", n >= 5 (a vertex left after the seed tetrahedron): if getBestVertices(0) returns no vertex, the state never changes and the loop never ends | Refuse THRESHOLD = 0 for the prefix method, or ask for at least one vertex per round | medium; not executed; getBestVertices is not part of this model | Dispatch.ZeroThresholdLoopsForever | Dispatch.RunRoundsChecked |
| par_tmfg/IO.h:36-44 | The empty-file and dimension checks test the size of the freshly allocated n*n buffer, which is n*n whatever the file held. So they only reject n = 0, and a short file loads silently | n = 2 and a file holding a single double: both checks pass, and W[0][1] is the buffer's fill value, not file data | Reject a file that holds no values, or fewer than n*n | medium; not executed | Loader.ShortFileAccepted (with Loader.ReadSymMatrixFromFile) | Loader.ReadSymMatrixChecked |
