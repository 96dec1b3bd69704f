/**
 One construction run as the drivers see it: the method string selects one
 of three insertion loops, each loop calls the construction engine round by
 round until no vertex is left to insert, and the run ends by naming its
 output files. The engine is uninterpreted: a hidden state S, the two queries
 the loops ask of it, and the effect of one round's calls on it.
 */
module Dispatch {
  import opened Wrappers
  import opened OutputPaths

  /** The insertion schedules, and every other string. */
  datatype Method = Prefix | Exact | Naive | Unrecognised

  function MethodName(m: Method): string
    requires m != Unrecognised
  {
    match m
    case Prefix => "prefix"
    case Exact => "exact"
    case Naive => "naive"
  }

  /** Only the three exact strings select a schedule; comparison is case-sensitive. */
  function ParseMethod(s: string): (m: Method)
    ensures m != Unrecognised ==> MethodName(m) == s
    ensures m == Unrecognised <==> s != "prefix" && s != "exact" && s != "naive"
  {
    if s == "prefix" then Prefix
    else if s == "exact" then Exact
    else if s == "naive" then Naive
    else Unrecognised
  }

  lemma ParseMethodName(m: Method)
    requires m != Unrecognised
    ensures ParseMethod(MethodName(m)) == m
  {
  }

  /** The per-round batch size of the prefix schedule: the smaller of the threshold and the open-face count. */
  function BatchLimit(threshold: nat, faces: nat): (k: nat)
    ensures k <= threshold && k <= faces
    ensures k == threshold || k == faces
  {
    if threshold < faces then threshold else faces
  }

  /**
   The engine calls one round makes: prefix calls getBestVertices(limit),
   inertMultiple and updateGainArray; exact calls insertOne; naive calls
   getAllBestVertices(faces), inertMultiple and initGainArray. What each
   call inserts is up to the engine.
   */
  datatype Round = PrefixRound(limit: nat) | ExactRound | NaiveRound(faces: nat)

  /**
   The construction engine after seeding and the first gain computation.
   `remaining` is the number of vertices still to insert. The engine itself
   is not part of this model: nothing is assumed about what a round does.
   */
  datatype Engine<!S> = Engine(
    hasUninsertedV: S -> bool,
    trianglesNum: S -> nat,
    apply: (S, Round) -> S,
    remaining: S -> nat)

  /** The round a schedule runs on a state with `faces` open faces. */
  function RoundFor(m: Method, threshold: nat, faces: nat): Round
    requires m != Unrecognised
  {
    match m
    case Prefix => PrefixRound(BatchLimit(threshold, faces))
    case Exact => ExactRound
    case Naive => NaiveRound(faces)
  }

  /**
   The source's loop: while a vertex is uninserted, run the schedule's round;
   the state after at most k iterations.
   */
  function Iterate<S>(e: Engine<S>, s: S, m: Method, threshold: nat, k: nat): S
    requires m != Unrecognised
    decreases k
  {
    if k == 0 || !e.hasUninsertedV(s) then s
    else Iterate(e, e.apply(s, RoundFor(m, threshold, e.trianglesNum(s))), m, threshold, k - 1)
  }

  /** Every round that schedule m issues while a vertex is left inserts at least one vertex. */
  ghost predicate Progresses<S(!new)>(e: Engine<S>, m: Method, threshold: nat)
    requires m != Unrecognised
  {
    forall s :: e.hasUninsertedV(s) ==>
      e.remaining(e.apply(s, RoundFor(m, threshold, e.trianglesNum(s)))) < e.remaining(s)
  }

  datatype Step<S> = Step(before: S, round: Round)

  /**
   The rounds a loop ran, each with the state it started from, and the state
   after the last. `stalled` marks a loop cut short by a round that inserted
   no vertex while one was left.
   */
  datatype Rounds<S> = Rounds(steps: seq<Step<S>>, final: S, stalled: bool)

  /**
   `r` is the loop of schedule m started in s: every round starts where the
   previous one ended, runs only while a vertex is uninserted, and passes the
   engine the arguments the schedule prescribes for the current face count.
   */
  ghost predicate IsLoop<S>(e: Engine<S>, s: S, m: Method, threshold: nat, r: Rounds<S>)
    requires m != Unrecognised
  {
    && (|r.steps| == 0 ==> r.final == s)
    && (|r.steps| > 0 ==> r.steps[0].before == s)
    && (|r.steps| > 0 ==> r.final == e.apply(r.steps[|r.steps| - 1].before, r.steps[|r.steps| - 1].round))
    && (forall k :: 0 <= k < |r.steps| - 1 ==>
          r.steps[k + 1].before == e.apply(r.steps[k].before, r.steps[k].round))
    && (forall k :: 0 <= k < |r.steps| ==>
          && e.hasUninsertedV(r.steps[k].before)
          && r.steps[k].round == RoundFor(m, threshold, e.trianglesNum(r.steps[k].before)))
  }

  /**
   The method dispatch and its loop: "prefix", "exact" and "naive" loop
   until every vertex is inserted; any other method string runs no round.
   A round that leaves the number of uninserted vertices where it was stops
   the model's loop as stalled, since nothing then bounds the source's loop.
   */
  function RunRounds<S(!new)>(e: Engine<S>, s: S, m: Method, threshold: nat): (r: Rounds<S>)
    ensures m == Unrecognised ==> r == Rounds([], s, false)
    ensures m != Unrecognised ==> IsLoop(e, s, m, threshold, r)
    ensures m != Unrecognised && !r.stalled ==> !e.hasUninsertedV(r.final)
    ensures r.stalled ==>
              && m != Unrecognised
              && |r.steps| > 0
              && e.hasUninsertedV(r.final)
              && e.remaining(r.final) >= e.remaining(r.steps[|r.steps| - 1].before)
    ensures m != Unrecognised && Progresses(e, m, threshold) ==> !r.stalled
    decreases e.remaining(s)
  {
    if m == Unrecognised || !e.hasUninsertedV(s) then Rounds([], s, false)
    else
      var round := RoundFor(m, threshold, e.trianglesNum(s));
      var next := e.apply(s, round);
      if !e.hasUninsertedV(next) then Rounds([Step(s, round)], next, false)
      else if e.remaining(next) >= e.remaining(s) then Rounds([Step(s, round)], next, true)
      else
        var rest := RunRounds(e, next, m, threshold);
        Rounds([Step(s, round)] + rest.steps, rest.final, rest.stalled)
  }

  /**
   The recorded rounds are the source loop's iterations: round k starts in
   the state k iterations reach, and the final state is where as many
   iterations end.
   */
  lemma {:induction false} RunRoundsFollowsSourceLoop<S(!new)>(e: Engine<S>, s: S, m: Method, threshold: nat)
    requires m != Unrecognised
    ensures var r := RunRounds(e, s, m, threshold);
            && Iterate(e, s, m, threshold, |r.steps|) == r.final
            && forall k :: 0 <= k < |r.steps| ==> Iterate(e, s, m, threshold, k) == r.steps[k].before
    decreases e.remaining(s)
  {
    var r := RunRounds(e, s, m, threshold);
    if e.hasUninsertedV(s) {
      var round := RoundFor(m, threshold, e.trianglesNum(s));
      var next := e.apply(s, round);
      if e.hasUninsertedV(next) && e.remaining(next) < e.remaining(s) {
        var rest := RunRounds(e, next, m, threshold);
        RunRoundsFollowsSourceLoop(e, next, m, threshold);
        assert r.steps == [Step(s, round)] + rest.steps;
        forall k | 0 <= k < |r.steps|
          ensures Iterate(e, s, m, threshold, k) == r.steps[k].before
        {
          if k > 0 {
            assert Iterate(e, s, m, threshold, k) == Iterate(e, next, m, threshold, k - 1);
            assert r.steps[k] == rest.steps[k - 1];
          }
        }
        assert Iterate(e, s, m, threshold, |r.steps|) == Iterate(e, next, m, threshold, |rest.steps|);
      } else {
        assert Iterate(e, s, m, threshold, 1) == Iterate(e, next, m, threshold, 0);
      }
    }
  }

  /** No prefix round asks for more vertices than the threshold or the open-face count. */
  lemma PrefixBatchBounded<S>(e: Engine<S>, s: S, threshold: nat, r: Rounds<S>, k: nat)
    requires IsLoop(e, s, Prefix, threshold, r)
    requires k < |r.steps|
    ensures r.steps[k].round.PrefixRound?
    ensures r.steps[k].round.limit <= threshold
    ensures r.steps[k].round.limit <= e.trianglesNum(r.steps[k].before)
    ensures r.steps[k].round.limit == threshold || r.steps[k].round.limit == e.trianglesNum(r.steps[k].before)
  {
  }

  /**
   With THRESHOLD = 0 every prefix round asks for no vertex. If such a round
   leaves the engine as it was, the source's loop never ends: any number of
   iterations later the state is unchanged and a vertex is still left.
   */
  lemma {:induction false} ZeroThresholdLoopsForever<S(!new)>(e: Engine<S>, s: S, k: nat)
    requires e.hasUninsertedV(s)
    requires forall t :: e.apply(t, PrefixRound(0)) == t
    ensures forall faces :: RoundFor(Prefix, 0, faces) == PrefixRound(0)
    ensures Iterate(e, s, Prefix, 0, k) == s
    ensures RunRounds(e, s, Prefix, 0).stalled
    decreases k
  {
    if k > 0 {
      ZeroThresholdLoopsForever(e, s, k - 1);
      assert e.apply(s, RoundFor(Prefix, 0, e.trianglesNum(s))) == s;
    }
  }

  /** Whether a round asks the engine for at least one vertex. */
  predicate RequestsSome(round: Round) {
    match round
    case PrefixRound(limit) => limit >= 1
    case ExactRound => true
    case NaiveRound(faces) => faces >= 1
  }

  /**
   What a working engine provides: while a vertex is left there is an open
   face (the seed tetrahedron has four and insertion only adds), and a round
   that asks for at least one vertex inserts at least one.
   */
  ghost predicate InsertsOnRequest<S(!new)>(e: Engine<S>) {
    && (forall s :: e.hasUninsertedV(s) ==> e.trianglesNum(s) >= 1)
    && (forall s, round :: e.hasUninsertedV(s) && RequestsSome(round) ==>
          e.remaining(e.apply(s, round)) < e.remaining(s))
  }

  /** Against a working engine, every schedule with a positive prefix threshold progresses. */
  lemma PositiveRequestsProgress<S(!new)>(e: Engine<S>, m: Method, threshold: nat)
    requires m != Unrecognised
    requires m == Prefix ==> threshold >= 1
    ensures InsertsOnRequest(e) ==> Progresses(e, m, threshold)
  {
    if InsertsOnRequest(e) {
      forall s | e.hasUninsertedV(s)
        ensures e.remaining(e.apply(s, RoundFor(m, threshold, e.trianglesNum(s)))) < e.remaining(s)
      {
        assert e.trianglesNum(s) >= 1;
        assert RequestsSome(RoundFor(m, threshold, e.trianglesNum(s)));
      }
    }
  }

  /** The argument the prefix schedule cannot run with. */
  datatype ArgError = ZeroPrefixThreshold

  /**
   The dispatch with the threshold checked first: a prefix run with
   THRESHOLD = 0 is refused, and every other run, against a working engine,
   ends with every vertex inserted.
   */
  function RunRoundsChecked<S(!new)>(e: Engine<S>, s: S, m: Method, threshold: nat): (r: Result<Rounds<S>, ArgError>)
    ensures r.Failure? <==> m == Prefix && threshold == 0
    ensures r.Success? ==> r.value == RunRounds(e, s, m, threshold)
    ensures r.Success? && m != Unrecognised && InsertsOnRequest(e) ==>
              !r.value.stalled && !e.hasUninsertedV(r.value.final)
  {
    if m == Prefix && threshold == 0 then Failure(ZeroPrefixThreshold)
    else if m == Unrecognised then Success(RunRounds(e, s, m, threshold))
    else
      PositiveRequestsProgress(e, m, threshold);
      Success(RunRounds(e, s, m, threshold))
  }

  /**
   What a run of the single-matrix driver produces: the rounds, the final
   engine state, whether the loop finished, and the files written, which
   are none when the loop stalled.
   */
  datatype Report<S> = Report(rounds: nat, final: S, finished: bool, outputs: seq<string>)

  /**
   One run of the single-matrix driver from the seeded engine s0: the
   dispatch loop, then the permutation and dendrogram outputs.
   */
  function RunTmfg<S(!new)>(e: Engine<S>, s0: S, dsname: string, methodName: string, threshold: nat): (r: Report<S>)
    ensures ParseMethod(methodName) == Unrecognised ==> r.rounds == 0 && r.final == s0 && r.finished
    ensures ParseMethod(methodName) != Unrecognised && r.finished ==> !e.hasUninsertedV(r.final)
    ensures ParseMethod(methodName) != Unrecognised && Progresses(e, ParseMethod(methodName), threshold) ==> r.finished
    ensures r.rounds == |RunRounds(e, s0, ParseMethod(methodName), threshold).steps|
    ensures r.finished ==> r.outputs == [PPath(dsname, methodName, threshold), ZPath(dsname, methodName, threshold)]
    ensures !r.finished ==> r.outputs == []
  {
    var loop := RunRounds(e, s0, ParseMethod(methodName), threshold);
    var outputs := if loop.stalled then [] else [PPath(dsname, methodName, threshold), ZPath(dsname, methodName, threshold)];
    Report(|loop.steps|, loop.final, !loop.stalled, outputs)
  }

  /**
   One run of the batch driver: the same dispatch loop, no dendrogram, and
   the file number in the permutation file's name.
   */
  function RunParTmfgd<S(!new)>(e: Engine<S>, s0: S, dsname: string, fileIndex: int, methodName: string, threshold: nat)
    : (r: Report<S>)
    ensures ParseMethod(methodName) == Unrecognised ==> r.rounds == 0 && r.final == s0 && r.finished
    ensures ParseMethod(methodName) != Unrecognised && r.finished ==> !e.hasUninsertedV(r.final)
    ensures ParseMethod(methodName) != Unrecognised && Progresses(e, ParseMethod(methodName), threshold) ==> r.finished
    ensures r.rounds == |RunRounds(e, s0, ParseMethod(methodName), threshold).steps|
    ensures r.finished ==> r.outputs == [IndexedPPath(dsname, fileIndex, methodName, threshold)]
    ensures !r.finished ==> r.outputs == []
  {
    var loop := RunRounds(e, s0, ParseMethod(methodName), threshold);
    var outputs := if loop.stalled then [] else [IndexedPPath(dsname, fileIndex, methodName, threshold)];
    Report(|loop.steps|, loop.final, !loop.stalled, outputs)
  }
}
