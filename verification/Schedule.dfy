/** Whatever the interleaving, a gather ends with the same result. */
module Schedule {
  import opened Wrappers
  import opened JsonTree
  import Store
  import opened Gather
  import FJ = ForkJoin

  // ---------------------------------------------------------------- what every interleaving must produce

  /** An execution up to the wall-clock duration of a run that took place. */
  function Plain(exe: Execution): Execution {
    if exe.Ran? then Ran(exe.output.(durationMs := 0), exe.key) else exe
  }

  /** The fate of one probe, told from the cache as it was before the gather and from the kills that hit its run. */
  function FateHit(env: Env, before: Cache, now: real, p: Probe, counts: Counts, hits: seq<nat>): Execution {
    if !p.applies(counts) then Skipped
    else
      match Store.Fetch(before, p.key, env.ttlHours, now)
      case Some(out) => CacheHit(out, p.key)
      case None => Ran(Delivered(env, p, counts, hits, 0), p.key)
  }

  /** And when it is left alone. */
  function Fate(env: Env, before: Cache, now: real, p: Probe, counts: Counts): Execution {
    FateHit(env, before, now, p, counts, [])
  }

  function PreludeFates(env: Env, before: Cache, now: real): (r: seq<Execution>)
    ensures |r| == |Base(env)|
  {
    seq(|Base(env)|, i requires 0 <= i < |Base(env)| => Fate(env, before, now, Base(env)[i], env.detected))
  }

  /** The languages that probe `i` is dispatched with. */
  function Languages(env: Env, before: Cache, now: real, i: nat): Counts {
    if i < |Base(env)| then env.detected else Merged(PreludeFates(env, before, now))
  }

  /** What probe `i` ends as when no kill reaches anyone: a function of the probes, the old cache and the files
      alone. */
  function Due(env: Env, before: Cache, now: real, i: nat): Execution
    requires i < |Order(env)|
  {
    Fate(env, before, now, Order(env)[i], Languages(env, before, now, i))
  }

  /** Between `lo` and `hi` no stored record of a probe goes stale. */
  ghost predicate Steady(env: Env, cache: Cache, lo: real, hi: real) {
    forall key, now :: lo <= now <= hi ==>
      Store.Fetch(cache, key, env.ttlHours, now) == Store.Fetch(cache, key, env.ttlHours, lo)
  }

  predicate Fresh(env: Env, cache: Cache, key: string, now: real)
    requires key in cache
  {
    now - cache[key].at as real <= (env.ttlHours * 3600) as real
  }

  /** A window is steady exactly when every record is fresh to its end or stale from its start. */
  lemma SteadyMeans(env: Env, cache: Cache, lo: real, hi: real)
    requires lo <= hi
    ensures Steady(env, cache, lo, hi) <==>
            forall key :: key in cache ==> Fresh(env, cache, key, hi) || !Fresh(env, cache, key, lo)
  {
    if Steady(env, cache, lo, hi) {
      forall key | key in cache ensures Fresh(env, cache, key, hi) || !Fresh(env, cache, key, lo) {
        assert Store.Fetch(cache, key, env.ttlHours, hi) == Store.Fetch(cache, key, env.ttlHours, lo);
      }
    } else {
      var key, now :|
        lo <= now <= hi &&
        Store.Fetch(cache, key, env.ttlHours, now) != Store.Fetch(cache, key, env.ttlHours, lo);
      assert key in cache && !Fresh(env, cache, key, hi) && Fresh(env, cache, key, lo);
    }
  }

  ghost predicate Within(moves: seq<Move>, lo: real, hi: real) {
    forall k :: 0 <= k < |moves| ==> lo <= moves[k].now <= hi
  }

  ghost predicate DistinctKeys(env: Env) {
    forall i, j :: 0 <= i < j < |Order(env)| ==> Order(env)[i].key != Order(env)[j].key
  }

  ghost predicate DistinctNames(env: Env) {
    forall i, j :: 0 <= i < j < |Order(env)| ==> Order(env)[i].name != Order(env)[j].name
  }

  // ---------------------------------------------------------------- durations do not matter

  lemma RawPlain(o: Outcome, d: int)
    ensures Raw(o, d) == Raw(o, 0).(durationMs := d)
  {
  }

  lemma ScrubPassesDuration(env: Env, o: Store.Output, d: int)
    ensures Scrub(env, o.(durationMs := d)) == Scrub(env, o).(durationMs := d)
  {
    hide ScrubTexts;
  }

  lemma DeliveredPlain(env: Env, p: Probe, counts: Counts, hits: seq<nat>, d: int)
    ensures Delivered(env, p, counts, hits, d).(durationMs := 0) == Delivered(env, p, counts, hits, 0)
    ensures Delivered(env, p, counts, hits, d).errors == Delivered(env, p, counts, hits, 0).errors
  {
    hide Raw, Scrub, OutcomeOf;
    var o := OutcomeOf(p, counts, hits);
    var raw := Raw(o, 0);
    RawPlain(o, d);
    ScrubPassesDuration(env, raw, d);
    ScrubPassesDuration(env, raw, 0);
    RawPlain(o, 0);
    assert raw == raw.(durationMs := 0);
  }

  lemma {:induction false} MergedPlain(a: seq<Execution>, b: seq<Execution>)
    requires |a| == |b| && forall i :: 0 <= i < |a| ==> Plain(a[i]) == Plain(b[i])
    ensures Merged(a) == Merged(b)
  {
    if a != [] {
      var n := |a| - 1;
      MergedPlain(a[..n], b[..n]);
      SameContribution(a[n], b[n]);
    }
  }

  lemma SameContribution(a: Execution, b: Execution)
    requires Plain(a) == Plain(b)
    ensures Contribution(a) == Contribution(b)
  {
    hide LanguageCounts;
    assert a.Ran? ==> a.output.slice == Plain(a).output.slice && a.output.errors == Plain(a).output.errors;
    assert b.Ran? ==> b.output.slice == Plain(b).output.slice && b.output.errors == Plain(b).output.errors;
  }

  // ---------------------------------------------------------------- the invariant

  /** What is true of one slot in every run, whatever times out: a probe that waits has its record untouched, one that
      runs missed the old cache, and one that finished has the fate of its languages and hits. */
  ghost predicate SlotTrue(env: Env, before: Cache, now: real, s: State, i: nat)
    requires |s.slots| == |Order(env)| && i < |s.slots|
  {
    var p := Order(env)[i];
    match s.slots[i]
    case Waiting => Store.Find(s.cache, p.key) == Store.Find(before, p.key)
    case Running(counts, hits) =>
      counts == CountsFor(env, s.slots, i) && p.applies(counts) &&
      Store.Fetch(before, p.key, env.ttlHours, now) == None
    case Finished(exe, hits) =>
      Plain(exe) == FateHit(env, before, now, p, CountsFor(env, s.slots, i), hits) && (hits != [] ==> exe.Ran?)
  }

  ghost predicate AllTrue(env: Env, before: Cache, now: real, s: State) {
    && |s.slots| == |Order(env)|
    && forall i :: 0 <= i < |s.slots| ==> SlotTrue(env, before, now, s, i)
  }

  /** Once something outside the prelude has started, the prelude is over. */
  ghost predicate PreludeOver(env: Env, s: State) {
    && |s.slots| == |Order(env)|
    && forall i, j :: 0 <= j < |Base(env)| <= i < |s.slots| && !s.slots[i].Waiting? ==> s.slots[j].Finished?
  }

  lemma {:induction false} RunsEndPrelude(env: Env, before: Cache, moves: seq<Move>)
    ensures PreludeOver(env, Run(env, before, moves))
  {
    hide Run, Base, Order;
    var s := Run(env, before, moves);
    forall i, j | 0 <= j < |Base(env)| <= i < |s.slots| && !s.slots[i].Waiting? ensures s.slots[j].Finished? {
      PreludeFirst(env, before, moves, i, j);
    }
  }

  lemma FinishedStays(env: Env, s: State, m: Move, j: nat)
    requires |s.slots| == |Order(env)| && j < |s.slots| && s.slots[j].Finished?
    ensures Step(env, s, m).slots[j] == s.slots[j]
  {
    hide Order, Delivered, Entered, CountsFor, OutcomeOf, FJ.Held, FJ.Open;
  }

  /** The languages of a probe that has started, or may start now, are settled. */
  lemma CountsSettled(env: Env, s: State, m: Move, i: nat)
    requires |s.slots| == |Order(env)| && i < |s.slots|
    requires i < |Base(env)| || forall j :: 0 <= j < |Base(env)| ==> s.slots[j].Finished?
    ensures CountsFor(env, Step(env, s, m).slots, i) == CountsFor(env, s.slots, i)
  {
    hide Step, Order, Base, Merged;
    var b, s' := |Base(env)|, Step(env, s, m);
    if i >= b {
      forall j | 0 <= j < b ensures s'.slots[j] == s.slots[j] {
        FinishedStays(env, s, m, j);
      }
      assert s'.slots[..b] == s.slots[..b];
    }
  }

  lemma OpenMeansPreludeOver(env: Env, s: State, i: nat)
    requires |s.slots| == |Order(env)| && |Base(env)| <= i < |s.slots| && FJ.Open(Control(env), Phases(s.slots), i)
    ensures forall j :: 0 <= j < |Base(env)| ==> s.slots[j].Finished?
  {
    hide Base, Rest, Order;
    forall j | 0 <= j < |Base(env)| ensures s.slots[j].Finished? {
      assert Control(env).waves[j] == 0 < Control(env).waves[i];
      assert Phases(s.slots)[j].Done?;
    }
  }

  lemma StartIsTrue(env: Env, before: Cache, lo: real, hi: real, s: State, m: Move)
    requires AllTrue(env, before, lo, s) && Steady(env, before, lo, hi) && lo <= m.now <= hi
    requires m.Start? && FJ.Enabled(Control(env), Phases(s.slots), FJ.Acquire(m.i))
    ensures SlotTrue(env, before, lo, Step(env, s, m), m.i)
  {
    hide FJ.Open, FJ.Held, CountsFor, Delivered, Order, Base;
    var p := Order(env)[m.i];
    assert SlotTrue(env, before, lo, s, m.i);
    assert s.slots[m.i].Waiting?;
    if m.i >= |Base(env)| {
      OpenMeansPreludeOver(env, s, m.i);
    }
    CountsSettled(env, s, m, m.i);
    assert Store.Fetch(s.cache, p.key, env.ttlHours, m.now) == Store.Fetch(before, p.key, env.ttlHours, m.now);
  }

  lemma FinishIsTrue(env: Env, before: Cache, now: real, s: State, m: Move)
    requires AllTrue(env, before, now, s) && PreludeOver(env, s)
    requires m.Finish? && m.i < |s.slots| && s.slots[m.i].Running?
    ensures SlotTrue(env, before, now, Step(env, s, m), m.i)
  {
    hide Order, Delivered, CountsFor, Base, OutcomeOf;
    var p, slot := Order(env)[m.i], s.slots[m.i];
    assert SlotTrue(env, before, now, s, m.i);
    CountsSettled(env, s, m, m.i);
    DeliveredPlain(env, p, slot.counts, slot.hits, m.durationMs);
  }

  /** What is true of the other slots stays true; a kill adds hits to runs and nothing else. */
  lemma OthersStayTrue(env: Env, before: Cache, now: real, s: State, m: Move, j: nat)
    requires AllTrue(env, before, now, s) && PreludeOver(env, s) && DistinctKeys(env) && j < |s.slots| && j != m.i
    ensures SlotTrue(env, before, now, Step(env, s, m), j)
  {
    hide FJ.Enabled, Order, Delivered, FateHit, CountsFor, Entered, OutcomeOf, Base;
    assert SlotTrue(env, before, now, s, j);
    if m.i < |s.slots| {
      assert Order(env)[m.i].key != Order(env)[j].key;
    }
    if !s.slots[j].Waiting? {
      CountsSettled(env, s, m, j);
    }
  }

  lemma StepStaysTrue(env: Env, before: Cache, lo: real, hi: real, s: State, m: Move)
    requires AllTrue(env, before, lo, s) && PreludeOver(env, s) && DistinctKeys(env)
    requires Steady(env, before, lo, hi) && lo <= m.now <= hi
    ensures AllTrue(env, before, lo, Step(env, s, m))
  {
    hide SlotTrue, FJ.Enabled, PreludeOver;
    var s' := Step(env, s, m);
    forall j | 0 <= j < |s'.slots| ensures SlotTrue(env, before, lo, s', j) {
      if j != m.i {
        OthersStayTrue(env, before, lo, s, m, j);
      } else if m.Start? && FJ.Enabled(Control(env), Phases(s.slots), FJ.Acquire(m.i)) {
        StartIsTrue(env, before, lo, hi, s, m);
      } else if m.Finish? && s.slots[m.i].Running? {
        FinishIsTrue(env, before, lo, s, m);
      } else {
        assert s' == s;
      }
    }
  }

  /** In every run, with any timeouts and kills. */
  lemma {:induction false} RunsAreTrue(env: Env, before: Cache, lo: real, hi: real, moves: seq<Move>)
    requires DistinctKeys(env) && Steady(env, before, lo, hi) && Within(moves, lo, hi)
    ensures AllTrue(env, before, lo, Run(env, before, moves))
    decreases |moves|
  {
    hide Step, FateHit, Steady, PreludeOver;
    if moves != [] {
      var init := moves[..|moves| - 1];
      RunsAreTrue(env, before, lo, hi, init);
      RunsEndPrelude(env, before, init);
      StepStaysTrue(env, before, lo, hi, Run(env, before, init), moves[|moves| - 1]);
    }
  }

  // ---------------------------------------------------------------- which runs end as due

  function HitsOf(s: Slot): seq<nat> { if s.Finished? then s.hits else [] }

  /** Hits that a probe never took, or that did not change what it delivered. */
  ghost predicate Harmless(env: Env, p: Probe, counts: Counts, hits: seq<nat>) {
    hits == [] || Delivered(env, p, counts, hits, 0) == Delivered(env, p, counts, [], 0)
  }

  /** No kill changed what a finished probe delivered. */
  ghost predicate Spared(env: Env, before: Cache, now: real, s: State) {
    && |s.slots| == |Order(env)|
    && forall i :: 0 <= i < |s.slots| ==>
         Harmless(env, Order(env)[i], Languages(env, before, now, i), HitsOf(s.slots[i]))
  }

  /** Nor what probe `i` and, if it comes later, the prelude delivered. */
  ghost predicate SparedFor(env: Env, before: Cache, now: real, s: State, i: nat) {
    && |s.slots| == |Order(env)| && i < |s.slots|
    && forall k :: 0 <= k < |s.slots| && (k == i || k < |Base(env)| <= i) ==>
         Harmless(env, Order(env)[k], Languages(env, before, now, k), HitsOf(s.slots[k]))
  }

  /** The slot, if it has finished, has finished as due. */
  ghost predicate SlotDue(env: Env, before: Cache, now: real, s: State, i: nat)
    requires |s.slots| == |Order(env)| && i < |s.slots|
  {
    s.slots[i].Finished? ==> Plain(s.slots[i].exe) == Due(env, before, now, i)
  }

  ghost predicate OnTrack(env: Env, before: Cache, now: real, s: State) {
    && |s.slots| == |Order(env)|
    && forall i :: 0 <= i < |s.slots| ==> SlotDue(env, before, now, s, i)
  }

  /** A finished probe with the languages due to it ends as due exactly when it was not hit, or would have delivered
      the same had it been left alone. */
  lemma SlotDueIff(env: Env, before: Cache, now: real, s: State, i: nat)
    requires AllTrue(env, before, now, s) && i < |s.slots| && s.slots[i].Finished?
    requires CountsFor(env, s.slots, i) == Languages(env, before, now, i)
    ensures Plain(s.slots[i].exe) == Due(env, before, now, i) <==>
            Harmless(env, Order(env)[i], Languages(env, before, now, i), s.slots[i].hits)
  {
    hide CountsFor, Languages, Delivered, Order;
    assert SlotTrue(env, before, now, s, i);
  }

  /** When the prelude has ended as due, what it merged is what it was due to merge. */
  lemma PreludeCounts(env: Env, before: Cache, now: real, s: State, i: nat)
    requires |s.slots| == |Order(env)| && i < |s.slots|
    requires i < |Base(env)| ||
             forall k :: 0 <= k < |Base(env)| ==> s.slots[k].Finished? && SlotDue(env, before, now, s, k)
    ensures CountsFor(env, s.slots, i) == Languages(env, before, now, i)
  {
    hide Due, Merged, Fate, Base, Rest;
    var b := |Base(env)|;
    if i >= b {
      var exes := Exes(s.slots[..b]);
      var fates := PreludeFates(env, before, now);
      forall k | 0 <= k < b ensures Plain(exes[k]) == Plain(fates[k]) {
        assert SlotDue(env, before, now, s, k);
        PreludeDue(env, before, now, k);
      }
      MergedPlain(exes, fates);
    }
  }

  lemma PreludeDue(env: Env, before: Cache, now: real, k: nat)
    requires k < |Base(env)|
    ensures Due(env, before, now, k) == PreludeFates(env, before, now)[k]
    ensures Plain(Due(env, before, now, k)) == Due(env, before, now, k)
  {
    FatePlain(env, before, now, Order(env)[k], Languages(env, before, now, k));
    assert Order(env)[k] == Base(env)[k];
  }

  lemma FatePlain(env: Env, before: Cache, now: real, p: Probe, counts: Counts)
    ensures Plain(Fate(env, before, now, p, counts)) == Fate(env, before, now, p, counts)
  {
    DeliveredPlain(env, p, counts, [], 0);
  }

  /** A finished slot of a state whose prelude is as due, in one step of the argument for either direction. */
  lemma DueAt(env: Env, before: Cache, now: real, s: State, i: nat)
    requires AllTrue(env, before, now, s) && PreludeOver(env, s) && i < |s.slots|
    requires i < |Base(env)| || forall k :: 0 <= k < |Base(env)| ==> SlotDue(env, before, now, s, k)
    ensures SlotDue(env, before, now, s, i) <==>
            Harmless(env, Order(env)[i], Languages(env, before, now, i), HitsOf(s.slots[i]))
  {
    hide Due, Base, Order, Languages, CountsFor, Delivered, SlotTrue;
    if s.slots[i].Finished? {
      PreludeCounts(env, before, now, s, i);
      SlotDueIff(env, before, now, s, i);
    }
  }

  /** At every moment of every run: all that has finished has finished as due exactly when no kill changed what a
      finished probe delivered. */
  lemma OnTrackIffSpared(env: Env, before: Cache, lo: real, hi: real, moves: seq<Move>)
    requires DistinctKeys(env) && Steady(env, before, lo, hi) && Within(moves, lo, hi)
    ensures OnTrack(env, before, lo, Run(env, before, moves)) <==> Spared(env, before, lo, Run(env, before, moves))
  {
    hide Run, Steady, Base, Order, SlotDue, Harmless, Languages, AllTrue, PreludeOver;
    var s := Run(env, before, moves);
    RunsAreTrue(env, before, lo, hi, moves);
    RunsEndPrelude(env, before, moves);
    BaseComesFirst(env);
    forall i | 0 <= i < |Base(env)|
      ensures SlotDue(env, before, lo, s, i) <==>
              Harmless(env, Order(env)[i], Languages(env, before, lo, i), HitsOf(s.slots[i])) {
      DueAt(env, before, lo, s, i);
    }
    if forall k :: 0 <= k < |Base(env)| ==> SlotDue(env, before, lo, s, k) {
      forall i | 0 <= i < |s.slots|
        ensures SlotDue(env, before, lo, s, i) <==>
                Harmless(env, Order(env)[i], Languages(env, before, lo, i), HitsOf(s.slots[i])) {
        DueAt(env, before, lo, s, i);
      }
    }
  }

  lemma BaseComesFirst(env: Env)
    ensures |Base(env)| <= |Order(env)|
  {
  }

  // ---------------------------------------------------------------- the theorem

  /** In every run, at every moment: a probe that has finished, and was spared, has finished as due. */
  lemma {:induction false} FinishedAsDue(env: Env, before: Cache, lo: real, hi: real, moves: seq<Move>, i: nat)
    requires DistinctKeys(env) && Steady(env, before, lo, hi) && Within(moves, lo, hi)
    requires SparedFor(env, before, lo, Run(env, before, moves), i) && Run(env, before, moves).slots[i].Finished?
    ensures Plain(Run(env, before, moves).slots[i].exe) == Due(env, before, lo, i)
  {
    hide Run, Due, Steady, Base, Order, Harmless, Languages, AllTrue, PreludeOver;
    var s := Run(env, before, moves);
    RunsAreTrue(env, before, lo, hi, moves);
    RunsEndPrelude(env, before, moves);
    BaseComesFirst(env);
    if |Base(env)| <= i {
      forall k | 0 <= k < |Base(env)| ensures SlotDue(env, before, lo, s, k) {
        DueAt(env, before, lo, s, k);
      }
    }
    DueAt(env, before, lo, s, i);
  }

  /** Two gathers from the same cache, however scheduled and however long their probes take, end alike, unless a kill
      changed what a probe delivered. */
  lemma {:induction false} ScheduleIndependence(
    env: Env, before: Cache, lo: real, hi: real, ms1: seq<Move>, ms2: seq<Move>, i: nat)
    requires DistinctKeys(env) && Steady(env, before, lo, hi) && Within(ms1, lo, hi) && Within(ms2, lo, hi)
    requires AllFinished(Run(env, before, ms1)) && AllFinished(Run(env, before, ms2)) && i < |Order(env)|
    requires SparedFor(env, before, lo, Run(env, before, ms1), i) &&
             SparedFor(env, before, lo, Run(env, before, ms2), i)
    ensures Plain(Run(env, before, ms1).slots[i].exe) == Plain(Run(env, before, ms2).slots[i].exe)
  {
    hide Run, Due, Steady, SparedFor;
    FinishedAsDue(env, before, lo, hi, ms1, i);
    FinishedAsDue(env, before, lo, hi, ms2, i);
  }

  // ---------------------------------------------------------------- when nobody is hit

  /** No probe that is left alone times out. */
  ghost predicate NoTimeouts(env: Env) {
    forall i, counts :: 0 <= i < |Order(env)| ==> !Order(env)[i].run(counts).TimedOut?
  }

  /** Either nothing times out, or there is only one slot, so that nobody runs beside a probe that does. */
  ghost predicate Quiet(env: Env) { NoTimeouts(env) || Bound(env) <= 1 }

  ghost predicate Unhit(s: State) {
    forall i :: 0 <= i < |s.slots| ==> !s.slots[i].Waiting? ==> s.slots[i].hits == []
  }

  /** With one slot a probe that runs is the only one. */
  lemma RunsAlone(env: Env, before: Cache, moves: seq<Move>, i: nat, j: nat)
    requires Bound(env) <= 1 && i < |Order(env)| && j < |Order(env)| && i != j
    requires Run(env, before, moves).slots[i].Running?
    ensures !Run(env, before, moves).slots[j].Running?
  {
    hide Run, Order, FJ.Held;
    var s := Run(env, before, moves);
    var ps := Phases(s.slots);
    GatherIsSafe(env, before, moves);
    FJ.HeldCounts(ps);
    if s.slots[j].Running? {
      FJ.TwoHolders(ps, i, j);
    }
  }

  lemma StepStaysUnhit(env: Env, s: State, m: Move)
    requires |s.slots| == |Order(env)| && Unhit(s)
    requires m.Finish? && m.i < |s.slots| && s.slots[m.i].Running? ==>
               || !Order(env)[m.i].run(s.slots[m.i].counts).TimedOut?
               || forall j :: 0 <= j < |s.slots| && j != m.i ==> !s.slots[j].Running?
    ensures Unhit(Step(env, s, m))
  {
    hide Order, Delivered, CountsFor, FJ.Enabled;
  }

  lemma {:induction false} QuietStaysUnhit(env: Env, before: Cache, moves: seq<Move>)
    requires Quiet(env)
    ensures Unhit(Run(env, before, moves))
    decreases |moves|
  {
    hide Step, Order, Unhit, Bound, NoTimeouts;
    if moves == [] {
      StartsUnhit(env, before);
    } else {
      var init, m := moves[..|moves| - 1], moves[|moves| - 1];
      var s := Run(env, before, init);
      QuietStaysUnhit(env, before, init);
      if m.Finish? && m.i < |s.slots| && s.slots[m.i].Running? {
        if NoTimeouts(env) {
          assert !Order(env)[m.i].run(s.slots[m.i].counts).TimedOut? by {
            DoesNotTimeOut(env, m.i, s.slots[m.i].counts); }
        } else {
          forall j | 0 <= j < |s.slots| && j != m.i ensures !s.slots[j].Running? {
            RunsAlone(env, before, init, m.i, j);
          }
        }
      }
      StepStaysUnhit(env, s, m);
    }
  }

  lemma DoesNotTimeOut(env: Env, i: nat, counts: Counts)
    requires NoTimeouts(env) && i < |Order(env)|
    ensures !Order(env)[i].run(counts).TimedOut?
  {
  }

  lemma StartsUnhit(env: Env, before: Cache)
    ensures Unhit(Begin(env, before))
  {
  }

  /** Without timeouts, or with one slot and any timeouts, every run is spared. */
  lemma QuietSpares(env: Env, before: Cache, now: real, moves: seq<Move>)
    requires Quiet(env)
    ensures Spared(env, before, now, Run(env, before, moves))
  {
    hide Run, Order, Quiet, Languages, Delivered;
    QuietStaysUnhit(env, before, moves);
  }

  // ---------------------------------------------------------------- failure isolation

  /** Two sets of probes that differ in how probe `j` runs and in nothing else. */
  ghost predicate DifferInRun(env: Env, env': Env, j: nat) {
    && |Base(env)| == |Base(env')| && |Order(env)| == |Order(env')| && j < |Order(env)|
    && env'.ttlHours == env.ttlHours && env'.detected == env.detected
    && env'.root == env.root
    && (forall i :: 0 <= i < |Order(env)| && i != j ==> Order(env')[i] == Order(env)[i])
    && Order(env')[j] == Order(env)[j].(run := Order(env')[j].run, disturbed := Order(env')[j].disturbed)
  }

  lemma SameFate(env: Env, env': Env, before: Cache, now: real, p: Probe, counts: Counts)
    requires env'.ttlHours == env.ttlHours && env'.root == env.root
    ensures Fate(env', before, now, p, counts) == Fate(env, before, now, p, counts)
  {
    var raw := Raw(p.run(counts), 0);
    assert ScrubTexts(env', raw.errors) == ScrubTexts(env, raw.errors);
    assert ScrubTexts(env', raw.warnings) == ScrubTexts(env, raw.warnings);
  }

  lemma {:induction false} MergedAlike(a: seq<Execution>, b: seq<Execution>)
    requires |a| == |b| && forall i :: 0 <= i < |a| ==> Contribution(a[i]) == Contribution(b[i])
    ensures Merged(a) == Merged(b)
  {
    if a != [] {
      MergedAlike(a[..|a| - 1], b[..|b| - 1]);
    }
  }

  lemma SameLanguages(env: Env, env': Env, before: Cache, now: real, j: nat, i: nat)
    requires DifferInRun(env, env', j)
    requires
      || j >= |Base(env)| || i < |Base(env)|
      || Contribution(Due(env, before, now, j)) == Contribution(Due(env', before, now, j))
    ensures Languages(env', before, now, i) == Languages(env, before, now, i)
  {
    hide Contribution, Fate, Merged;
    if i >= |Base(env)| {
      var a, b := PreludeFates(env, before, now), PreludeFates(env', before, now);
      forall k | 0 <= k < |a| ensures Contribution(a[k]) == Contribution(b[k]) {
        assert Order(env)[k] == Base(env)[k] && Order(env')[k] == Base(env')[k];
        if k != j {
          SameFate(env, env', before, now, Base(env)[k], env.detected);
        }
      }
      MergedAlike(a, b);
    }
  }

  /** However probe `j` runs or fails, the entry of every other probe stays what it was, unless a kill changes what
      that one delivers, or it comes after the prelude and `j` or a kill changes the languages that it is given. */
  lemma FailureIsIsolated(
    env: Env, env': Env, before: Cache, lo: real, hi: real, moves: seq<Move>, moves': seq<Move>, j: nat, i: nat)
    requires DifferInRun(env, env', j) && DistinctKeys(env) && DistinctKeys(env')
    requires Steady(env, before, lo, hi) && Within(moves, lo, hi) && Within(moves', lo, hi)
    requires AllFinished(Run(env, before, moves)) && AllFinished(Run(env', before, moves'))
    requires i < |Order(env)| && i != j
    requires SparedFor(env, before, lo, Run(env, before, moves), i)
    requires SparedFor(env', before, lo, Run(env', before, moves'), i)
    requires
      || j >= |Base(env)| || i < |Base(env)|
      || Contribution(Due(env, before, lo, j)) == Contribution(Due(env', before, lo, j))
    ensures Plain(Run(env, before, moves).slots[i].exe) == Plain(Run(env', before, moves').slots[i].exe)
  {
    hide Run, Contribution, Fate, Languages, Base, SparedFor;
    FinishedAsDue(env, before, lo, hi, moves, i);
    FinishedAsDue(env', before, lo, hi, moves', i);
    SameLanguages(env, env', before, lo, j, i);
    SameFate(env, env', before, lo, Order(env)[i], Languages(env, before, lo, i));
  }

  /** So without timeouts, and with one slot whatever times out, failures are isolated. */
  lemma QuietIsolation(
    env: Env, env': Env, before: Cache, lo: real, hi: real, moves: seq<Move>, moves': seq<Move>, j: nat, i: nat)
    requires Quiet(env) && Quiet(env')
    requires DifferInRun(env, env', j) && DistinctKeys(env) && DistinctKeys(env')
    requires Steady(env, before, lo, hi) && Within(moves, lo, hi) && Within(moves', lo, hi)
    requires AllFinished(Run(env, before, moves)) && AllFinished(Run(env', before, moves'))
    requires i < |Order(env)| && i != j
    requires
      || j >= |Base(env)| || i < |Base(env)|
      || Contribution(Due(env, before, lo, j)) == Contribution(Due(env', before, lo, j))
    ensures Plain(Run(env, before, moves).slots[i].exe) == Plain(Run(env', before, moves').slots[i].exe)
  {
    hide Run, Contribution, Due, Base, Order, Quiet, Harmless;
    QuietSpares(env, before, lo, moves);
    QuietSpares(env', before, lo, moves');
    FailureIsIsolated(env, env', before, lo, hi, moves, moves', j, i);
  }

  // ---------------------------------------------------------------- a kill that reaches a sibling

  const CLEAN_OUT := Store.Output(Obj([]), [], "high", 0, [], [])

  /** Two prelude probes and two slots. The first probe always times out; the second one runs clean when left alone and
      fails when its child is killed. */
  function Hurried(): Env {
    var slow := Probe("slow", "1", true, "k0", _ => true, _ => TimedOut("5.0"), (_, _) => TimedOut("5.0"));
    var git := Probe(
      "git", "1", true, "k1", _ => true, _ => Produced(CLEAN_OUT, None),
      (_, _) => Crashed("RuntimeError", "git failed"));
    Env([slow, git], {}, 2, 2, 24, map[], "/repo")
  }

  lemma HurriedShape()
    ensures var env := Hurried();
            Order(env) == env.probes && |Base(env)| == 2 && |Order(env)| == 2 && Bound(env) == 2 && DistinctKeys(env)
  {
    hide Keep;
    var env := Hurried();
    assert env.probes == [env.probes[0], env.probes[1]];
    KeepTwo(env.probes[0], env.probes[1], p => InBase(env, p));
    KeepTwo(env.probes[0], env.probes[1], p => InRest(env, p));
    KeepTwo(env.probes[0], env.probes[1], p => InTail(env, p));
  }

  lemma HurriedStarts(s: State, i: nat)
    requires |s.slots| == 2 && i < 2 && s.slots[i].Waiting? && s.cache == map[]
    ensures |Order(Hurried())| == 2
    ensures Step(Hurried(), s, Start(i, 0.0)) == State(s.slots[i := Running(map[], [])], map[])
  {
    hide Order, Base, FJ.Held;
    HurriedShape();
    FJ.HeldBelow(Phases(s.slots), i);
  }

  lemma HurriedTimesOut(s: State)
    requires |s.slots| == 2 && s.slots[0] == Running(map[], []) && s.cache == map[]
    ensures |Order(Hurried())| == 2
    ensures var r := Step(Hurried(), s, Finish(0, 0.0, 0, map[1 := 0]));
            && r.cache == map[] && r.slots[0].Finished?
            && r.slots[1] ==
               if s.slots[1].Running? then Running(s.slots[1].counts, s.slots[1].hits + [0]) else s.slots[1]
  {
    hide Order, Base, Scrub;
    HurriedShape();
    ScrubKeepsErrors(Hurried(), Raw(TimedOut("5.0"), 0));
  }

  lemma HurriedEnds(s: State)
    requires |s.slots| == 2 && s.slots[0].Finished? && s.slots[1].Running? && s.slots[1].counts == map[]
    ensures |Order(Hurried())| == 2
    ensures var r := Step(Hurried(), s, Finish(1, 0.0, 0, map[]));
            && AllFinished(r) && r.slots[1].Finished? && r.slots[1].exe.Ran?
            && |r.slots[1].exe.output.errors| == if s.slots[1].hits == [] then 0 else 1
  {
    hide Order, Base, Scrub, Strike;
    HurriedShape();
    ScrubKeepsErrors(Hurried(), Raw(OutcomeOf(Hurried().probes[1], map[], s.slots[1].hits), 0));
  }

  lemma ScrubKeepsErrors(env: Env, o: Store.Output)
    ensures |Scrub(env, o).errors| == |o.errors|
  {
  }

  lemma RunOnce(env: Env, cache: Cache, moves: seq<Move>, m: Move)
    ensures Run(env, cache, moves + [m]) == Step(env, Run(env, cache, moves), m)
  {
    assert (moves + [m])[..|moves|] == moves;
  }

  lemma RunFour(env: Env, cache: Cache, a: Move, b: Move, c: Move, d: Move)
    ensures Run(env, cache, [a, b, c, d]) == Step(env, Step(env, Step(env, Step(env, Begin(env, cache), a), b), c), d)
  {
    hide Step, Run;
    RunOnce(env, cache, [], a);
    RunOnce(env, cache, [a], b);
    RunOnce(env, cache, [a, b], c);
    RunOnce(env, cache, [a, b, c], d);
    assert [] + [a] == [a] && [a] + [b] == [a, b] && [a, b] + [c] == [a, b, c] && [a, b, c] + [d] == [a, b, c, d];
    RunNone(env, cache);
  }

  lemma RunNone(env: Env, cache: Cache)
    ensures Run(env, cache, []) == Begin(env, cache)
  {
  }

  const FIRST := Start(0, 0.0)
  const SECOND := Start(1, 0.0)
  const OUT := Finish(0, 0.0, 0, map[1 := 0])
  const DONE := Finish(1, 0.0, 0, map[])

  /** The same four moves in two orders. */
  const APART := [FIRST, OUT, SECOND, DONE]
  const TOGETHER := [FIRST, SECOND, OUT, DONE]

  lemma HurriedApart()
    ensures |Order(Hurried())| == 2
    ensures var s := Run(Hurried(), map[], APART);
            AllFinished(s) && s.slots[1].Finished? && s.slots[1].exe.Ran? && |s.slots[1].exe.output.errors| == 0
  {
    hide Run, Step, Order, Base, Hurried, AllFinished;
    var env := Hurried();
    HurriedShape();
    RunFour(env, map[], FIRST, OUT, SECOND, DONE);
    var s := Begin(env, map[]);
    HurriedStarts(s, 0);
    var one := Step(env, s, FIRST);
    HurriedTimesOut(one);
    HurriedStarts(Step(env, one, OUT), 1);
    HurriedEnds(Step(env, Step(env, one, OUT), SECOND));
  }

  lemma HurriedTogether()
    ensures |Order(Hurried())| == 2
    ensures var s := Run(Hurried(), map[], TOGETHER);
            AllFinished(s) && s.slots[1].Finished? && s.slots[1].exe.Ran? && |s.slots[1].exe.output.errors| == 1
  {
    hide Run, Step, Order, Base, Hurried, AllFinished;
    var env := Hurried();
    HurriedShape();
    RunFour(env, map[], FIRST, SECOND, OUT, DONE);
    var s := Begin(env, map[]);
    HurriedStarts(s, 0);
    var one := Step(env, s, FIRST);
    HurriedStarts(one, 1);
    HurriedTimesOut(Step(env, one, SECOND));
    HurriedEnds(Step(env, Step(env, one, SECOND), OUT));
  }

  /** Where the two runs do not overlap the second probe ends clean, where they do it fails, although the probes and the
      moves are the same. */
  lemma TimeoutReachesSibling()
    ensures DistinctKeys(Hurried()) && Steady(Hurried(), map[], 0.0, 0.0)
    ensures Within(APART, 0.0, 0.0) && Within(TOGETHER, 0.0, 0.0)
    ensures |Order(Hurried())| == 2
    ensures AllFinished(Run(Hurried(), map[], APART)) && AllFinished(Run(Hurried(), map[], TOGETHER))
    ensures Clean(Run(Hurried(), map[], APART).slots[1].exe) && !Clean(Run(Hurried(), map[], TOGETHER).slots[1].exe)
    ensures Plain(Run(Hurried(), map[], APART).slots[1].exe) != Plain(Run(Hurried(), map[], TOGETHER).slots[1].exe)
  {
    hide Run, Step, Order, Base, Hurried, AllFinished;
    HurriedShape();
    HurriedApart();
    HurriedTogether();
    var a, b := Run(Hurried(), map[], APART).slots[1].exe, Run(Hurried(), map[], TOGETHER).slots[1].exe;
    assert |Plain(a).output.errors| != |Plain(b).output.errors|;
  }

  // ---------------------------------------------------------------- the result maps

  function ExecutionMap(ps: seq<Probe>, exes: seq<Execution>): map<string, Execution>
    requires |ps| == |exes|
  {
    if ps == [] then map[]
    else ExecutionMap(ps[..|ps| - 1], exes[..|ps| - 1])[ps[|ps| - 1].name := exes[|ps| - 1]]
  }

  function OutputMap(ps: seq<Probe>, exes: seq<Execution>): map<string, Store.Output>
    requires |ps| == |exes|
  {
    if ps == [] then map[]
    else
      var before := OutputMap(ps[..|ps| - 1], exes[..|ps| - 1]);
      if exes[|ps| - 1].Skipped? then before else before[ps[|ps| - 1].name := exes[|ps| - 1].output]
  }

  ghost predicate NamesDiffer(ps: seq<Probe>) {
    forall i, j :: 0 <= i < j < |ps| ==> ps[i].name != ps[j].name
  }

  /** One execution per probe, and one output per probe that was not skipped, under its own name. */
  lemma {:induction false} OneEntryPerProbe(ps: seq<Probe>, exes: seq<Execution>, i: nat)
    requires |ps| == |exes| && NamesDiffer(ps) && i < |ps|
    ensures Store.Find(ExecutionMap(ps, exes), ps[i].name) == Some(exes[i])
    ensures Store.Find(OutputMap(ps, exes), ps[i].name) == if exes[i].Skipped? then None else Some(exes[i].output)
    decreases |ps|
  {
    var n := |ps| - 1;
    if i < n {
      OneEntryPerProbe(ps[..n], exes[..n], i);
    } else {
      NoEntryYet(ps[..n], exes[..n], ps[n].name);
    }
  }

  lemma {:induction false} NoEntryYet(ps: seq<Probe>, exes: seq<Execution>, name: string)
    requires |ps| == |exes| && forall i :: 0 <= i < |ps| ==> ps[i].name != name
    ensures name !in ExecutionMap(ps, exes) && name !in OutputMap(ps, exes)
    decreases |ps|
  {
    if ps != [] {
      NoEntryYet(ps[..|ps| - 1], exes[..|ps| - 1], name);
    }
  }

  /** So two gathers give, name by name, the same executions and outputs up to durations, and nothing else. */
  lemma ResultsAgree(env: Env, before: Cache, lo: real, hi: real, ms1: seq<Move>, ms2: seq<Move>, name: string)
    requires DistinctKeys(env) && DistinctNames(env) && Steady(env, before, lo, hi)
    requires Within(ms1, lo, hi) && Within(ms2, lo, hi)
    requires AllFinished(Run(env, before, ms1)) && AllFinished(Run(env, before, ms2))
    requires Spared(env, before, lo, Run(env, before, ms1)) && Spared(env, before, lo, Run(env, before, ms2))
    ensures var e1 := ExecutionMap(Order(env), Exes(Run(env, before, ms1).slots));
            var e2 := ExecutionMap(Order(env), Exes(Run(env, before, ms2).slots));
            var o1 := OutputMap(Order(env), Exes(Run(env, before, ms1).slots));
            var o2 := OutputMap(Order(env), Exes(Run(env, before, ms2).slots));
            && (name in e1 <==> name in e2) && (name in e1 ==> Plain(e1[name]) == Plain(e2[name]))
            && (name in o1 <==> name in o2) && (name in o1 ==> o1[name].(durationMs := 0) == o2[name].(durationMs := 0))
            && (name in e1 <==> exists i :: 0 <= i < |Order(env)| && Order(env)[i].name == name)
  {
    hide Run, Steady, ExecutionMap, OutputMap, Harmless;
    var x1, x2 := Exes(Run(env, before, ms1).slots), Exes(Run(env, before, ms2).slots);
    if i :| 0 <= i < |Order(env)| && Order(env)[i].name == name {
      ScheduleIndependence(env, before, lo, hi, ms1, ms2, i);
      OneEntryPerProbe(Order(env), x1, i);
      OneEntryPerProbe(Order(env), x2, i);
      PlainOutputs(x1[i], x2[i]);
    } else {
      NoEntryYet(Order(env), x1, name);
      NoEntryYet(Order(env), x2, name);
    }
  }

  lemma PlainOutputs(a: Execution, b: Execution)
    requires Plain(a) == Plain(b)
    ensures a.Skipped? <==> b.Skipped?
    ensures !a.Skipped? ==> a.output.(durationMs := 0) == b.output.(durationMs := 0)
  {
    if a.Ran? {
      assert b.Ran?;
      assert Plain(a).output == Plain(b).output;
    }
  }
}
