/** Before a gather: which probes a timeout can reach at all. */
module Exposure {
  import opened Wrappers
  import Store
  import opened Gather
  import opened Schedule
  import FJ = ForkJoin

  /** Left alone, the probe would be run: it applies to its languages and the old cache has nothing for it. */
  predicate Dispatched(env: Env, before: Cache, now: real, i: nat)
    requires i < |Order(env)|
  {
    var p := Order(env)[i];
    p.applies(Languages(env, before, now, i)) && Store.Fetch(before, p.key, env.ttlHours, now) == None
  }

  /** `i` times out, and `j` can be running beside it. */
  ghost predicate Exposes(env: Env, before: Cache, now: real, i: nat, j: nat) {
    && Bound(env) >= 2 && i < |Order(env)| && j < |Order(env)| && i != j && Wave(env, i) == Wave(env, j)
    && Dispatched(env, before, now, i) && Dispatched(env, before, now, j)
    && Order(env)[i].run(Languages(env, before, now, i)).TimedOut?
  }

  ghost predicate Exposed(env: Env, before: Cache, now: real) {
    exists i: nat, j: nat :: Exposes(env, before, now, i, j)
  }

  // ---------------------------------------------------------------- who is not exposed is not hit

  lemma UnhitIsSpared(env: Env, before: Cache, now: real, s: State)
    requires |s.slots| == |Order(env)| && Unhit(s)
    ensures Spared(env, before, now, s)
  {
    hide Order, Languages, Delivered;
  }

  /** As long as nobody was hit, the languages of a probe whose prelude is over are those due to it. */
  lemma UnhitCounts(env: Env, before: Cache, lo: real, hi: real, moves: seq<Move>, i: nat)
    requires DistinctKeys(env) && Steady(env, before, lo, hi) && Within(moves, lo, hi)
    requires Unhit(Run(env, before, moves)) && i < |Order(env)|
    requires i < |Base(env)| || forall k :: 0 <= k < |Base(env)| ==> Run(env, before, moves).slots[k].Finished?
    ensures CountsFor(env, Run(env, before, moves).slots, i) == Languages(env, before, lo, i)
  {
    hide Run, Order, Base, Steady, Languages, CountsFor, Unhit, Spared, SlotDue;
    var s := Run(env, before, moves);
    UnhitIsSpared(env, before, lo, s);
    OnTrackIffSpared(env, before, lo, hi, moves);
    PreludeCounts(env, before, lo, s, i);
  }

  lemma RunningIsDispatched(env: Env, before: Cache, lo: real, hi: real, moves: seq<Move>, i: nat)
    requires DistinctKeys(env) && Steady(env, before, lo, hi) && Within(moves, lo, hi)
    requires Unhit(Run(env, before, moves)) && i < |Order(env)| && Run(env, before, moves).slots[i].Running?
    ensures Dispatched(env, before, lo, i)
    ensures Run(env, before, moves).slots[i].counts == Languages(env, before, lo, i)
  {
    hide Run, Order, Base, Steady, Languages, CountsFor, Unhit;
    RunsAreTrue(env, before, lo, hi, moves);
    RunsEndPrelude(env, before, moves);
    assert SlotTrue(env, before, lo, Run(env, before, moves), i);
    UnhitCounts(env, before, lo, hi, moves, i);
  }

  /** Two probes that run at the same time share a wave, and there are two slots. */
  lemma RunTogether(env: Env, before: Cache, moves: seq<Move>, i: nat, j: nat)
    requires i < |Order(env)| && j < |Order(env)| && i != j
    requires Run(env, before, moves).slots[i].Running? && Run(env, before, moves).slots[j].Running?
    ensures Bound(env) >= 2 && Wave(env, i) == Wave(env, j)
  {
    hide Run, Order, FJ.Held, Wave;
    var s := Run(env, before, moves);
    GatherIsSafe(env, before, moves);
    FJ.HeldCounts(Phases(s.slots));
    FJ.TwoHolders(Phases(s.slots), i, j);
  }

  /** So whoever runs beside a probe that is about to time out was exposed to it. */
  lemma BesideTimeout(env: Env, before: Cache, lo: real, hi: real, moves: seq<Move>, i: nat, j: nat)
    requires DistinctKeys(env) && Steady(env, before, lo, hi) && Within(moves, lo, hi)
    requires Unhit(Run(env, before, moves)) && i < |Order(env)| && j < |Order(env)| && i != j
    requires Run(env, before, moves).slots[i].Running? && Run(env, before, moves).slots[j].Running?
    requires Order(env)[i].run(Run(env, before, moves).slots[i].counts).TimedOut?
    ensures Exposes(env, before, lo, i, j)
  {
    hide Run, Order, Unhit, Bound, Steady, Wave, Languages, Dispatched;
    RunTogether(env, before, moves, i, j);
    RunningIsDispatched(env, before, lo, hi, moves, i);
    RunningIsDispatched(env, before, lo, hi, moves, j);
  }

  lemma {:induction false} UnexposedStaysUnhit(env: Env, before: Cache, lo: real, hi: real, moves: seq<Move>)
    requires DistinctKeys(env) && Steady(env, before, lo, hi) && Within(moves, lo, hi) && !Exposed(env, before, lo)
    ensures Unhit(Run(env, before, moves))
    decreases |moves|
  {
    hide Step, Order, Unhit, Steady, Exposes;
    if moves == [] {
      StartsUnhit(env, before);
    } else {
      var init, m := moves[..|moves| - 1], moves[|moves| - 1];
      var s := Run(env, before, init);
      UnexposedStaysUnhit(env, before, lo, hi, init);
      if m.Finish? && m.i < |s.slots| && s.slots[m.i].Running? && Order(env)[m.i].run(s.slots[m.i].counts).TimedOut? {
        forall j | 0 <= j < |s.slots| && j != m.i ensures !s.slots[j].Running? {
          if s.slots[j].Running? {
            BesideTimeout(env, before, lo, hi, init, m.i, j);
          }
        }
      }
      StepStaysUnhit(env, s, m);
    }
  }

  // ---------------------------------------------------------------- one after the other

  /** Dispatch the first `k` probes in turn. */
  function Serially(now: real, k: nat): seq<Move> {
    if k == 0 then [] else Serially(now, k - 1) + [Start(k - 1, now)] + [Finish(k - 1, now, 0, map[])]
  }

  ghost predicate DoneUpTo(env: Env, s: State, k: nat) {
    && |s.slots| == |Order(env)|
    && (forall x :: 0 <= x < k && x < |s.slots| ==> s.slots[x].Finished? && s.slots[x].hits == [])
    && forall x :: k <= x < |s.slots| ==> s.slots[x].Waiting?
  }

  lemma WavesRise(env: Env, x: nat, y: nat)
    requires x <= y
    ensures Wave(env, x) <= Wave(env, y)
  {
    hide Base, Rest;
  }

  /** When everything before the first probe of its wave is done, a probe that waits can start if a slot is free. */
  lemma CanStart(env: Env, s: State, first: nat, i: nat)
    requires |s.slots| == |Order(env)| && first <= i < |s.slots| && Wave(env, first) == Wave(env, i)
    requires s.slots[i].Waiting? && FJ.Held(Phases(s.slots)) < Bound(env)
    requires forall x :: 0 <= x < first ==> s.slots[x].Finished?
    ensures FJ.Enabled(Control(env), Phases(s.slots), FJ.Acquire(i))
  {
    hide Order, Wave, FJ.Held, Bound;
    forall x | 0 <= x < |s.slots| && Wave(env, x) < Wave(env, i) ensures Phases(s.slots)[x].Done? {
      if x >= first {
        WavesRise(env, first, x);
      }
    }
  }

  lemma NobodyHolds(env: Env, s: State, k: nat)
    requires DoneUpTo(env, s, k)
    ensures FJ.Held(Phases(s.slots)) == 0
  {
    hide Order;
    FJ.NoneHeld(Phases(s.slots));
  }

  lemma SerialStep(env: Env, s: State, now: real, k: nat)
    requires Bound(env) > 0 && DoneUpTo(env, s, k) && k < |Order(env)|
    ensures DoneUpTo(env, Step(env, Step(env, s, Start(k, now)), Finish(k, now, 0, map[])), k + 1)
  {
    hide Order, Delivered, CountsFor, FJ.Enabled, OutcomeOf, Bound;
    NobodyHolds(env, s, k);
    CanStart(env, s, k, k);
  }

  lemma {:induction false} SerialRun(env: Env, before: Cache, now: real, k: nat)
    requires Bound(env) > 0 && k <= |Order(env)|
    ensures DoneUpTo(env, Run(env, before, Serially(now, k)), k) && Within(Serially(now, k), now, now)
    decreases k
  {
    hide Run, Step, Order, Bound;
    if k == 0 {
      RunNone(env, before);
    } else {
      SerialRun(env, before, now, k - 1);
      var done := Serially(now, k - 1);
      SerialStep(env, Run(env, before, done), now, k - 1);
      RunOnce(env, before, done, Start(k - 1, now));
      RunOnce(env, before, done + [Start(k - 1, now)], Finish(k - 1, now, 0, map[]));
    }
  }

  // ---------------------------------------------------------------- who is exposed can be hit

  /** The first probe of the wave of `i`; a runs-last probe has its wave to itself. */
  function FirstOfWave(env: Env, i: nat): nat {
    if i < |Base(env)| then 0 else if i < |Base(env)| + |Rest(env)| then |Base(env)| else i
  }

  lemma FirstIsFirst(env: Env, i: nat, j: nat)
    requires Wave(env, i) == Wave(env, j)
    ensures FirstOfWave(env, i) == FirstOfWave(env, j) <= i && Wave(env, FirstOfWave(env, i)) == Wave(env, i)
    ensures i >= |Base(env)| ==> |Base(env)| <= FirstOfWave(env, i)
  {
    hide Base, Rest;
  }

  /** A dispatched probe that may start now starts to run, with its languages and no hits. */
  lemma StartsRunning(env: Env, before: Cache, lo: real, moves: seq<Move>, first: nat, i: nat)
    requires DistinctKeys(env) && Within(moves, lo, lo) && Unhit(Run(env, before, moves))
    requires first <= i < |Order(env)| && Wave(env, first) == Wave(env, i) && Dispatched(env, before, lo, i)
    requires i >= |Base(env)| ==> |Base(env)| <= first
    requires Run(env, before, moves).slots[i].Waiting? && FJ.Held(Phases(Run(env, before, moves).slots)) < Bound(env)
    requires forall x :: 0 <= x < first ==> Run(env, before, moves).slots[x].Finished?
    ensures var s := Run(env, before, moves);
            Run(env, before, moves + [Start(i, lo)]) ==
            State(s.slots[i := Running(Languages(env, before, lo, i), [])], s.cache)
  {
    hide Run, Order, Base, Languages, CountsFor, Unhit, FJ.Enabled, FJ.Held, Wave, Bound;
    var s := Run(env, before, moves);
    OneMoment(env, before, lo);
    CanStart(env, s, first, i);
    UnhitCounts(env, before, lo, lo, moves, i);
    RunsAreTrue(env, before, lo, lo, moves);
    assert SlotTrue(env, before, lo, s, i);
    RunOnce(env, before, moves, Start(i, lo));
  }

  lemma OneMoment(env: Env, cache: Cache, now: real)
    ensures Steady(env, cache, now, now)
  {
  }

  function Opening(env: Env, now: real, i: nat, j: nat): seq<Move> {
    Serially(now, FirstOfWave(env, i)) + [Start(i, now)] + [Start(j, now)]
  }

  /** Start both with everything before their wave done, let `i` time out while `j` is at point `h` of its run, and let
      `j` end. */
  function Striking(env: Env, now: real, i: nat, j: nat, h: nat): seq<Move> {
    Opening(env, now, i, j) + [Finish(i, now, 0, map[j := h])] + [Finish(j, now, 0, map[])]
  }

  lemma BothRun(env: Env, before: Cache, now: real, i: nat, j: nat)
    requires DistinctKeys(env) && Exposes(env, before, now, i, j)
    ensures Within(Opening(env, now, i, j), now, now)
    ensures var s := Run(env, before, Opening(env, now, i, j));
            && s.slots[i] == Running(Languages(env, before, now, i), [])
            && s.slots[j] == Running(Languages(env, before, now, j), [])
  {
    hide Run, Order, Base, Languages, Dispatched, FJ.Held, Wave, FirstOfWave, Serially, Bound;
    FirstIsFirst(env, i, j);
    FirstIsFirst(env, j, i);
    var first := FirstOfWave(env, i);
    var ms := Serially(now, first);
    var s := Run(env, before, ms);
    SerialRun(env, before, now, first);
    NobodyHolds(env, s, first);
    StartsRunning(env, before, now, ms, first, i);
    var s1 := Run(env, before, ms + [Start(i, now)]);
    FJ.HeldUpdate(Phases(s.slots), i, FJ.Holding(0));
    assert Phases(s1.slots) == Phases(s.slots)[i := FJ.Holding(0)];
    StartsRunning(env, before, now, ms + [Start(i, now)], first, j);
  }

  /** And so it is hit. */
  lemma StruckOnce(env: Env, before: Cache, now: real, i: nat, j: nat, h: nat)
    requires DistinctKeys(env) && Exposes(env, before, now, i, j)
    ensures Within(Striking(env, now, i, j, h), now, now)
    ensures var p := Order(env)[j];
            Run(env, before, Striking(env, now, i, j, h)).slots[j] ==
            Finished(Ran(Delivered(env, p, Languages(env, before, now, j), [h], 0), p.key), [h])
  {
    hide Run, Order, Languages, Dispatched, Opening, Delivered, Wave, Bound;
    BothRun(env, before, now, i, j);
    var ms := Opening(env, now, i, j);
    var out, done := Finish(i, now, 0, map[j := h]), Finish(j, now, 0, map[]);
    RunOnce(env, before, ms, out);
    assert [] + [h] == [h];
    assert Run(env, before, ms + [out]).slots[j] == Running(Languages(env, before, now, j), [h]);
    RunOnce(env, before, ms + [out], done);
  }

  // ---------------------------------------------------------------- exactly

  /** In no run during a window is anyone hit, exactly when nobody is exposed at its start. */
  lemma HitsExactly(env: Env, before: Cache, lo: real, hi: real)
    requires DistinctKeys(env) && Steady(env, before, lo, hi) && lo <= hi
    ensures (forall moves :: Within(moves, lo, hi) ==> Unhit(Run(env, before, moves))) <==> !Exposed(env, before, lo)
  {
    hide Run, Order, Steady, Unhit, Exposes, Striking;
    if Exposed(env, before, lo) {
      var i, j :| Exposes(env, before, lo, i, j);
      var moves := Striking(env, lo, i, j, 0);
      StruckOnce(env, before, lo, i, j, 0);
      ExposesInRange(env, before, lo, i, j);
      HitShows(Run(env, before, moves), j);
      assert Within(moves, lo, hi);
    } else {
      forall moves | Within(moves, lo, hi) ensures Unhit(Run(env, before, moves)) {
        UnexposedStaysUnhit(env, before, lo, hi, moves);
      }
    }
  }

  lemma ExposesInRange(env: Env, before: Cache, now: real, i: nat, j: nat)
    requires Exposes(env, before, now, i, j)
    ensures i < |Order(env)| && j < |Order(env)|
  {
  }

  lemma HitShows(s: State, j: nat)
    requires j < |s.slots| && s.slots[j].Finished? && s.slots[j].hits != []
    ensures !Unhit(s)
  {
  }

  lemma {:induction false} FinishedForGood(env: Env, before: Cache, moves: seq<Move>, all: seq<Move>, j: nat)
    requires moves <= all && j < |Order(env)| && Run(env, before, moves).slots[j].Finished?
    ensures Run(env, before, all).slots[j] == Run(env, before, moves).slots[j]
    decreases |all|
  {
    hide Run, Step, Order;
    if all == moves {
    } else {
      var init, m := all[..|all| - 1], all[|all| - 1];
      FinishedForGood(env, before, moves, init, j);
      FinishedStays(env, Run(env, before, init), m, j);
      RunOnce(env, before, init, m);
      assert init + [m] == all;
    }
  }

  /** A finished gather, all at one moment, in which `j` has not ended as due. */
  ghost predicate Upset(env: Env, before: Cache, now: real, moves: seq<Move>, j: nat)
    requires j < |Order(env)|
  {
    && Within(moves, now, now) && AllFinished(Run(env, before, moves))
    && !SlotDue(env, before, now, Run(env, before, moves), j)
  }

  /** If a probe is exposed, and a single hit anywhere in its run changes what it delivers, some gather ends otherwise
      than due. */
  lemma TimeoutUpsets(env: Env, before: Cache, now: real, i: nat, j: nat, h: nat) returns (moves: seq<Move>)
    requires DistinctKeys(env) && Exposes(env, before, now, i, j)
    requires !Schedule.Harmless(env, Order(env)[j], Languages(env, before, now, j), [h])
    ensures Upset(env, before, now, moves, j)
  {
    hide Run, Order, Languages, Delivered, Wave, Bound, Striking, AllFinished;
    var ms := Striking(env, now, i, j, h);
    StruckOnce(env, before, now, i, j, h);
    moves := GatherCompletes(env, before, ms, now);
    FinishedForGood(env, before, ms, moves, j);
    DeliveredPlain(env, Order(env)[j], Languages(env, before, now, j), [h], 0);
  }

  lemma UnexposedIsNotUpset(env: Env, before: Cache, now: real, moves: seq<Move>, j: nat)
    requires DistinctKeys(env) && !Exposed(env, before, now) && j < |Order(env)|
    ensures !Upset(env, before, now, moves, j)
  {
    hide Run, Order, Steady, Unhit, Exposed, SlotDue, Spared;
    if Within(moves, now, now) {
      OneMoment(env, before, now);
      UnexposedStaysUnhit(env, before, now, now, moves);
      UnhitIsSpared(env, before, now, Run(env, before, moves));
      OnTrackIffSpared(env, before, now, now, moves);
    }
  }

  /** Whoever is exposed would feel some single hit. */
  ghost predicate Delicate(env: Env, before: Cache, now: real) {
    forall i: nat, j: nat :: Exposes(env, before, now, i, j) ==>
      exists h: nat :: !Schedule.Harmless(env, Order(env)[j], Languages(env, before, now, j), [h])
  }

  /** Among such probes, every finished gather ends as due exactly when nobody is exposed. */
  lemma DueExactly(env: Env, before: Cache, now: real)
    requires DistinctKeys(env) && Delicate(env, before, now)
    ensures (forall moves, j: nat :: j < |Order(env)| ==> !Upset(env, before, now, moves, j)) <==>
            !Exposed(env, before, now)
  {
    hide Run, Order, Exposes, Upset, Schedule.Harmless;
    if Exposed(env, before, now) {
      var i: nat, j: nat :| Exposes(env, before, now, i, j);
      ExposesInRange(env, before, now, i, j);
      var h: nat :| !Schedule.Harmless(env, Order(env)[j], Languages(env, before, now, j), [h]);
      var moves := TimeoutUpsets(env, before, now, i, j, h);
      assert Upset(env, before, now, moves, j);
    } else {
      forall moves, j: nat | j < |Order(env)| ensures !Upset(env, before, now, moves, j) {
        UnexposedIsNotUpset(env, before, now, moves, j);
      }
    }
  }
}
