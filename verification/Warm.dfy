/** A second gather over unchanged inputs. */
module Warm {
  import opened Wrappers
  import opened JsonTree
  import Store
  import opened Gather
  import opened Scrubber
  import opened Schedule
  import FJ = ForkJoin

  /** A clean result leaves its output under its key, and nobody else writes there. */
  ghost predicate Remembered(env: Env, s: State, i: nat)
    requires |s.slots| == |Order(env)| && i < |s.slots|
  {
    var key := Order(env)[i].key;
    s.slots[i].Finished? ==>
      var exe := s.slots[i].exe;
      && (!exe.Skipped? ==> exe.key == key)
      && (exe.CacheHit? || Clean(exe) ==> key in s.cache && s.cache[key].output == exe.output)
  }

  ghost predicate AllRemembered(env: Env, s: State) {
    |s.slots| == |Order(env)| && forall i :: 0 <= i < |s.slots| ==> Remembered(env, s, i)
  }

  lemma StepRemembers(env: Env, s: State, m: Move)
    requires DistinctKeys(env) && AllRemembered(env, s)
    ensures AllRemembered(env, Step(env, s, m))
  {
    hide FJ.Enabled, Order, Delivered, CountsFor, OutcomeOf;
    var s' := Step(env, s, m);
    forall j | 0 <= j < |s'.slots| ensures Remembered(env, s', j) {
      assert Remembered(env, s, j);
      if m.i < |s.slots| && j != m.i {
        assert Order(env)[m.i].key != Order(env)[j].key;
      }
    }
  }

  lemma {:induction false} RunRemembers(env: Env, before: Cache, moves: seq<Move>)
    requires DistinctKeys(env)
    ensures AllRemembered(env, Run(env, before, moves))
    decreases |moves|
  {
    hide Step;
    if moves != [] {
      RunRemembers(env, before, moves[..|moves| - 1]);
      StepRemembers(env, Run(env, before, moves[..|moves| - 1]), moves[|moves| - 1]);
    }
  }

  /** The probe ended clean in the first gather. */
  ghost predicate EndedClean(s: State, i: nat)
    requires i < |s.slots|
  {
    s.slots[i].Finished? && (s.slots[i].exe.CacheHit? || Clean(s.slots[i].exe))
  }

  ghost predicate FreshUntil(env: Env, cache: Cache, key: string, hi: real) {
    key in cache && Fresh(env, cache, key, hi)
  }

  /** In a second gather from the cache that the first one left, a probe that had ended clean is never run: it is a
      hit with the same key and an equal output exactly when it applies to the languages that the second gather gives
      it, and is skipped otherwise. Timeouts in either gather do not matter. */
  lemma WarmReplay(env: Env, before: Cache, cold: seq<Move>, warm: seq<Move>, lo: real, hi: real, i: nat)
    requires DistinctKeys(env) && i < |Order(env)| && lo <= hi
    requires EndedClean(Run(env, before, cold), i)
    requires var c := Run(env, before, cold).cache;
             Steady(env, c, lo, hi) && Within(warm, lo, hi) && FreshUntil(env, c, Order(env)[i].key, hi)
    ensures var first, second := Run(env, before, cold), Run(env, Run(env, before, cold).cache, warm);
            && !second.slots[i].Running?
            && (second.slots[i].Finished? ==>
                  second.slots[i].exe ==
                  if Order(env)[i].applies(CountsFor(env, second.slots, i))
                  then CacheHit(first.slots[i].exe.output, first.slots[i].exe.key)
                  else Skipped)
  {
    hide Run, Order, Steady, CountsFor;
    var first := Run(env, before, cold);
    RunRemembers(env, before, cold);
    assert Remembered(env, first, i);
    assert Store.Fetch(first.cache, Order(env)[i].key, env.ttlHours, lo) == Some(first.slots[i].exe.output);
    RunsAreTrue(env, first.cache, lo, hi, warm);
    assert SlotTrue(env, first.cache, lo, Run(env, first.cache, warm), i);
  }

  /** A probe that does not look at the languages is a cache hit whenever it had run clean. */
  lemma {:induction false} BlindProbesHit(
    env: Env, before: Cache, cold: seq<Move>, warm: seq<Move>, lo: real, hi: real, i: nat)
    requires DistinctKeys(env) && i < |Order(env)| && lo <= hi
    requires EndedClean(Run(env, before, cold), i)
    requires var c := Run(env, before, cold).cache;
             Steady(env, c, lo, hi) && Within(warm, lo, hi) && FreshUntil(env, c, Order(env)[i].key, hi)
    requires forall a: Counts, b: Counts :: Order(env)[i].applies(a) == Order(env)[i].applies(b)
    ensures var first, second := Run(env, before, cold), Run(env, Run(env, before, cold).cache, warm);
            second.slots[i].Finished? ==>
              second.slots[i].exe == CacheHit(first.slots[i].exe.output, first.slots[i].exe.key)
  {
    hide Run, Order, Steady, CountsFor;
    WarmReplay(env, before, cold, warm, lo, hi, i);
    NotSkippedApplied(env, before, cold, i);
  }

  /** What did not end skipped applied to some languages. */
  lemma {:induction false} NotSkippedApplied(env: Env, before: Cache, moves: seq<Move>, i: nat)
    requires i < |Order(env)| && !Run(env, before, moves).slots[i].Waiting?
    requires Run(env, before, moves).slots[i] != Finished(Skipped, [])
    ensures exists counts :: Order(env)[i].applies(counts)
    decreases |moves|
  {
    hide FJ.Open, FJ.Held, Order, Delivered, CountsFor, OutcomeOf;
    var last := |moves| - 1;
    var s := Run(env, before, moves[..last]);
    if s.slots[i].Waiting? {
      assert Order(env)[i].applies(CountsFor(env, s.slots, i));
    } else {
      NotSkippedApplied(env, before, moves[..last], i);
    }
  }

  // ---------------------------------------------------------------- and why languages matter

  function PythonSlice(): Dict {
    Obj([Field("language_stack", Obj([Field("counts", Obj([Field("python", Num(3))]))]))])
  }

  /** A prelude hit reports no languages: the fresh run did, so a probe that needs them can run cold and be skipped
      warm although no input changed. */
  lemma HitsReportNoLanguages(o: Store.Output, key: string)
    requires o.slice == PythonSlice() && o.errors == []
    ensures Merged([Ran(o, key)]) == map["python" := 3] && Merged([CacheHit(o, key)]) == map[]
  {
    var counts := [Field("python", Num(3))];
    var stack := [Field("counts", Obj(counts))];
    var fields := [Field("language_stack", Obj(stack))];
    assert counts[..0] == [] && CountsOf([]) == map[];
    assert CountsOf(counts) == map["python" := 3];
    assert Lookup(stack, "counts") == Some(Obj(counts));
    assert Lookup(fields, "language_stack") == Some(Obj(stack));
    assert LanguageCounts(o.slice) == Some(map["python" := 3]);
    OneMerged(Ran(o, key));
    OneMerged(CacheHit(o, key));
  }

  lemma OneMerged(exe: Execution)
    ensures Merged([exe]) == Contribution(exe)
  {
    assert [exe][..0] == [] && Merged([]) == map[];
    assert Merged([exe]) == map[] + Contribution(exe);
  }

  const LANG_OUT := Store.Output(PythonSlice(), [], "high", 0, [], [])

  /** One prelude probe, and a later one that only applies to Python. */
  function Pair(run: Counts -> Outcome, detected: Counts): Env {
    var lang := Probe("language_detection", "1", true, "k0", _ => true, run, (c, _) => run(c));
    var python := Probe(
      "python", "1", false, "k1", c => "python" in c, _ => Produced(LANG_OUT, None),
      (_, _) => Produced(LANG_OUT, None));
    Env([lang, python], {}, 8, 8, 24, detected, "/repo")
  }

  /** The prelude probe finds Python. */
  function Finder(): Env { Pair(_ => Produced(LANG_OUT, None), map[]) }

  lemma PairBuckets(run: Counts -> Outcome, detected: Counts)
    ensures var env := Pair(run, detected);
            && Base(env) == [env.probes[0]] && Order(env) == env.probes && Bound(env) == 8
            && DistinctKeys(env) && DistinctNames(env)
  {
    hide Keep, PythonSlice;
    var env := Pair(run, detected);
    var lang, python := env.probes[0], env.probes[1];
    assert env.probes == [lang, python];
    KeepTwo(lang, python, p => InBase(env, p));
    KeepTwo(lang, python, p => InRest(env, p));
    KeepTwo(lang, python, p => InTail(env, p));
  }

  lemma ScrubbedClean(env: Env, durationMs: int)
    ensures Scrub(env, LANG_OUT.(durationMs := durationMs)) == LANG_OUT.(durationMs := durationMs)
  {
    var f := (s: string) => ScrubText(env.root, s);
    var counts := Obj([Field("python", Num(3))]);
    assert MapStrings(f, Num(3)) == Num(3);
    assert MapStrings(f, counts) == counts;
    var stack := Obj([Field("counts", counts)]);
    assert MapStrings(f, stack) == stack;
    assert MapStrings(f, PythonSlice()) == PythonSlice();
  }

  /** From the empty cache the later probe is due to run. */
  lemma FinderCold(now: real)
    ensures Due(Finder(), map[], now, 0) == Ran(LANG_OUT, "k0") && Due(Finder(), map[], now, 1) == Ran(LANG_OUT, "k1")
  {
    hide PythonSlice, Merged, Keep, Scrub;
    var env := Finder();
    PairBuckets(env.probes[0].run, map[]);
    HitsReportNoLanguages(LANG_OUT, "k0");
    ScrubbedClean(env, 0);
    assert PreludeFates(env, map[], now) == [Ran(LANG_OUT, "k0")];
    assert Languages(env, map[], now, 1) == map["python" := 3];
  }

  /** From a cache that answers for the prelude probe it is due to be skipped. */
  lemma FinderWarm(warm: Cache, now: real, out: Store.Output)
    requires Store.Fetch(warm, "k0", 24, now) == Some(out)
    ensures Due(Finder(), warm, now, 1) == Skipped
  {
    hide PythonSlice, Keep, Scrub;
    var env := Finder();
    PairBuckets(env.probes[0].run, map[]);
    assert PreludeFates(env, warm, now) == [CacheHit(out, "k0")];
    OneMerged(CacheHit(out, "k0"));
    assert Languages(env, warm, now, 1) == map[];
  }

  /** Records that a run leaves are dated by its own clock. */
  lemma {:induction false} RecordsAreDated(env: Env, moves: seq<Move>, hi: real)
    requires Within(moves, 0.0, hi)
    ensures forall key :: key in Run(env, map[], moves).cache ==> Run(env, map[], moves).cache[key].at >= 0
    decreases |moves|
  {
    hide FJ.Enabled, Order, Delivered, CountsFor, Entered;
    if moves != [] {
      RecordsAreDated(env, moves[..|moves| - 1], hi);
    }
  }

  lemma EmptyIsSteady(env: Env, lo: real, hi: real)
    ensures Steady(env, map[], lo, hi)
  {
  }

  /** What any finished first gather of the pair leaves. */
  lemma {:induction false} FinderFirst(cold: seq<Move>)
    requires Within(cold, 0.0, 10.0) && AllFinished(Run(Finder(), map[], cold))
    ensures var s := Run(Finder(), map[], cold);
            && |s.slots| == 2 && s.slots[1].exe.Ran? && Clean(s.slots[1].exe)
            && Steady(Finder(), s.cache, 10.0, 20.0)
            && s.slots[0].Finished? && s.slots[0].exe.Ran?
            && Store.Fetch(s.cache, "k0", 24, 10.0) == Some(s.slots[0].exe.output)
  {
    hide Run, Order, Steady, PythonSlice, Finder, Due, AllFinished, Harmless, Base;
    var env := Finder();
    FinderShape();
    QuietSpares(env, map[], 0.0, cold);
    var s := Run(env, map[], cold);
    assert s.slots[0].Finished? && s.slots[1].Finished? by { AllFinishedAt(s); }
    EmptyIsSteady(env, 0.0, 10.0);
    FinderCold(0.0);
    FinishedAsDue(env, map[], 0.0, 10.0, cold, 0);
    FinishedAsDue(env, map[], 0.0, 10.0, cold, 1);
    assert Plain(s.slots[0].exe) == Ran(LANG_OUT, "k0") && Plain(s.slots[1].exe) == Ran(LANG_OUT, "k1");
    assert s.slots[0].exe.output.errors == LANG_OUT.errors && s.slots[1].exe.output.errors == LANG_OUT.errors;
    RunRemembers(env, map[], cold);
    assert Remembered(env, s, 0);
    RecordsAreDated(env, cold, 10.0);
    SteadyMeans(env, s.cache, 10.0, 20.0);
  }

  lemma AllFinishedAt(s: State)
    requires AllFinished(s)
    ensures forall i :: 0 <= i < |s.slots| ==> s.slots[i].Finished?
  {
  }

  lemma FinderShape()
    ensures var env := Finder();
            && |Order(env)| == 2 && Order(env)[0].key == "k0" && env.ttlHours == 24 && Bound(env) == 8
            && DistinctKeys(env) && Quiet(env)
  {
    hide Keep, PythonSlice, Base;
    PairBuckets(Finder().probes[0].run, map[]);
  }

  /** Two gathers of the pair over unchanged inputs, however interleaved: the later probe runs clean in the first and
      is skipped in the second. */
  lemma WarmSkip(cold: seq<Move>, warm: seq<Move>)
    requires Within(cold, 0.0, 10.0) && AllFinished(Run(Finder(), map[], cold))
    requires Within(warm, 10.0, 20.0) && AllFinished(Run(Finder(), Run(Finder(), map[], cold).cache, warm))
    ensures var first, second := Run(Finder(), map[], cold), Run(Finder(), Run(Finder(), map[], cold).cache, warm);
            && |first.slots| == |second.slots| == 2
            && first.slots[1].exe.Ran? && Clean(first.slots[1].exe) && second.slots[1].exe == Skipped
  {
    hide Run, Order, Steady, PythonSlice, Finder, Due, AllFinished, Harmless, Base;
    FinderShape();
    FinderFirst(cold);
    var c := Run(Finder(), map[], cold).cache;
    FinderWarm(c, 10.0, Run(Finder(), map[], cold).slots[0].exe.output);
    AllFinishedAt(Run(Finder(), c, warm));
    QuietSpares(Finder(), c, 10.0, warm);
    FinishedAsDue(Finder(), c, 10.0, 20.0, warm, 1);
  }

  /** And there are such gathers. */
  lemma WarmSkipHappens() returns (cold: seq<Move>, warm: seq<Move>)
    ensures Within(cold, 0.0, 10.0) && AllFinished(Run(Finder(), map[], cold))
    ensures Within(warm, 10.0, 20.0) && AllFinished(Run(Finder(), Run(Finder(), map[], cold).cache, warm))
    ensures |Run(Finder(), Run(Finder(), map[], cold).cache, warm).slots| == 2
    ensures Run(Finder(), Run(Finder(), map[], cold).cache, warm).slots[1].exe == Skipped
  {
    hide Run, Order, PythonSlice, Finder, AllFinished, Bound;
    FinderShape();
    cold := GatherCompletes(Finder(), map[], [], 0.0);
    warm := GatherCompletes(Finder(), Run(Finder(), map[], cold).cache, [], 10.0);
    WarmSkip(cold, warm);
  }

  // ---------------------------------------------------------------- a prelude that reports nothing

  /** After a prelude that merged no languages the later probes see none, whatever the snapshot said before: that is
      the original snapshot exactly when it had none either. */
  lemma DegradedPrelude(env: Env, before: Cache, lo: real, hi: real, moves: seq<Move>, i: nat)
    requires DistinctKeys(env) && Steady(env, before, lo, hi) && Within(moves, lo, hi)
    requires |Base(env)| <= i < |Order(env)|
    requires Merged(Exes(Run(env, before, moves).slots[..|Base(env)|])) == map[]
    ensures var s := Run(env, before, moves);
            && (CountsFor(env, s.slots, i) == env.detected <==> env.detected == map[])
            && (s.slots[i].Running? ==> s.slots[i].counts == map[])
            && (s.slots[i].Finished? ==>
                  Plain(s.slots[i].exe) == FateHit(env, before, lo, Order(env)[i], map[], s.slots[i].hits))
  {
    hide Run, Order, Steady, Merged, FateHit, Base;
    RunsAreTrue(env, before, lo, hi, moves);
    assert SlotTrue(env, before, lo, Run(env, before, moves), i);
  }

  /** A snapshot that knew of Python, and a prelude probe that crashes. */
  function Forgetful(): Env { Pair(_ => Crashed("OSError", "x"), map["python" := 1]) }

  lemma ForgetfulShape()
    ensures var env := Forgetful();
            && |Base(env)| == 1 && |Order(env)| == 2 && DistinctKeys(env) && Quiet(env) &&
               env.detected == map["python" := 1]
            && Order(env)[1].applies(env.detected) && !Order(env)[1].applies(map[])
  {
    hide Keep, PythonSlice, Base;
    PairBuckets(Forgetful().probes[0].run, map["python" := 1]);
  }

  lemma ForgetfulPrelude(now: real)
    ensures |Order(Forgetful())| > 0 && Contribution(Due(Forgetful(), map[], now, 0)) == map[]
  {
    hide Keep, PythonSlice, Base, Scrub;
    var env := Forgetful();
    PairBuckets(env.probes[0].run, map["python" := 1]);
    ScrubKeepsErrors(env, Raw(env.probes[0].run(env.detected), 0));
  }

  /** The later probe applies to the original snapshot, and is skipped in every finished gather. */
  lemma DegradedForgets(moves: seq<Move>)
    requires Within(moves, 0.0, 10.0) && AllFinished(Run(Forgetful(), map[], moves))
    ensures |Order(Forgetful())| == 2 && Order(Forgetful())[1].applies(Forgetful().detected)
    ensures Run(Forgetful(), map[], moves).slots[1].exe == Skipped
  {
    hide Run, Steady, Base, Order, Forgetful, AllFinished, Due, Harmless, Contribution;
    var env := Forgetful();
    ForgetfulShape();
    EmptyIsSteady(env, 0.0, 10.0);
    QuietSpares(env, map[], 0.0, moves);
    var s := Run(env, map[], moves);
    AllFinishedAt(s);
    FinishedAsDue(env, map[], 0.0, 10.0, moves, 0);
    ForgetfulPrelude(0.0);
    var exes := Exes(s.slots[..1]);
    SameContribution(exes[0], Due(env, map[], 0.0, 0)) by { PreludeDue(env, map[], 0.0, 0); }
    OneMerged(exes[0]);
    assert exes == [exes[0]];
    DegradedPrelude(env, map[], 0.0, 10.0, moves, 1);
  }
}
