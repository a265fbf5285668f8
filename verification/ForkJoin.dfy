/** Bounded fork-join: many tasks, one semaphore, waves that wait for each other. Both the probe gather and the
    bundle builder are this system with data attached. */
module ForkJoin {
  /** A task waits for a slot, holds it while it has steps `left`, and gives it back for good. */
  datatype Phase = Waiting | Holding(left: nat) | Done

  /** `waves[i]` and `work[i]` belong to task `i`: its wave, and how many steps it may take inside its slot. */
  datatype Config = Config(bound: int, waves: seq<nat>, work: seq<nat>) {
    ghost predicate Valid() { |waves| == |work| }
  }

  datatype Move = Acquire(i: nat) | Work(i: nat) | Release(i: nat)

  type Phases = seq<Phase>

  function Held(ps: Phases): nat {
    if ps == [] then 0 else Held(ps[..|ps| - 1]) + (if ps[|ps| - 1].Holding? then 1 else 0)
  }

  /** Everything in earlier waves is done. */
  predicate Open(c: Config, ps: Phases, i: nat)
    requires |ps| == |c.waves| && i < |ps|
  {
    forall j :: 0 <= j < |ps| && c.waves[j] < c.waves[i] ==> ps[j].Done?
  }

  predicate Enabled(c: Config, ps: Phases, m: Move)
    requires |ps| == |c.waves|
  {
    m.i < |ps| &&
    match m
    case Acquire(i) => ps[i].Waiting? && Held(ps) < c.bound && Open(c, ps, i)
    case Work(i) => ps[i].Holding? && ps[i].left > 0
    case Release(i) => ps[i].Holding?
  }

  /** A move that is not enabled does nothing. */
  function Step(c: Config, ps: Phases, m: Move): (r: Phases)
    requires c.Valid() && |ps| == |c.waves|
    ensures |r| == |ps|
  {
    if !Enabled(c, ps, m) then ps
    else
      match m
      case Acquire(i) => ps[i := Holding(c.work[i])]
      case Work(i) => ps[i := Holding(ps[i].left - 1)]
      case Release(i) => ps[i := Done]
  }

  function Start(c: Config): Phases { seq(|c.waves|, _ => Waiting) }

  /** Two moves lead from `ps` to `qs`; since moves may do nothing, so may fewer. */
  ghost predicate Reaches(c: Config, ps: Phases, qs: Phases)
    requires c.Valid()
  {
    |ps| == |c.waves| && exists m, m' :: Step(c, Step(c, ps, m), m') == qs
  }

  lemma ReachesByTwo(c: Config, ps: Phases, m: Move, m': Move)
    requires c.Valid() && |ps| == |c.waves|
    ensures Reaches(c, ps, Step(c, Step(c, ps, m), m'))
  {
  }

  lemma ReachesByOne(c: Config, ps: Phases, m: Move)
    requires c.Valid() && |ps| == |c.waves|
    ensures Reaches(c, ps, Step(c, ps, m))
  {
    hide Held;
    ReachesByTwo(c, ps, m, Work(|ps|));
  }

  lemma ReachesItself(c: Config, ps: Phases)
    requires c.Valid() && |ps| == |c.waves|
    ensures Reaches(c, ps, ps)
  {
    hide Held;
    ReachesByOne(c, ps, Work(|ps|));
  }

  /** The phases at successive moments of a run, at most two moves apart. */
  ghost predicate History(c: Config, h: seq<Phases>)
    requires c.Valid()
  {
    h != [] && h[0] == Start(c) && forall k :: 0 <= k < |h| - 1 ==> Reaches(c, h[k], h[k + 1])
  }

  // ---------------------------------------------------------------- slots

  lemma {:induction false} HeldUpdate(ps: Phases, i: nat, p: Phase)
    requires i < |ps|
    ensures Held(ps[i := p]) ==
            Held(ps) - (if ps[i].Holding? then 1 else 0) + (if p.Holding? then 1 else 0)
    decreases |ps|
  {
    var n := |ps| - 1;
    var ps' := ps[i := p];
    if i < n {
      HeldUpdate(ps[..n], i, p);
      assert ps'[..n] == ps[..n][i := p];
    } else {
      assert ps'[..n] == ps[..n];
    }
  }

  function Holders(ps: Phases): set<nat> { set i: nat | i < |ps| && ps[i].Holding? }

  /** `Held` is the number of tasks that hold a slot. */
  lemma {:induction false} HeldCounts(ps: Phases)
    ensures Held(ps) == |Holders(ps)|
    decreases |ps|
  {
    if ps == [] {
      assert Holders(ps) == {};
    } else {
      var n: nat := |ps| - 1;
      HeldCounts(ps[..n]);
      assert Holders(ps) == Holders(ps[..n]) + (if ps[n].Holding? then {n} else {});
    }
  }

  lemma {:induction false} HeldBelow(ps: Phases, i: nat)
    requires i < |ps| && !ps[i].Holding?
    ensures Held(ps) < |ps|
    decreases |ps|
  {
    var n := |ps| - 1;
    if i < n {
      HeldBelow(ps[..n], i);
    } else {
      HeldAtMost(ps[..n]);
    }
  }

  lemma {:induction false} HeldAtMost(ps: Phases)
    ensures Held(ps) <= |ps|
  {
    if ps != [] {
      HeldAtMost(ps[..|ps| - 1]);
    }
  }

  lemma TwoHolders(ps: Phases, i: nat, j: nat)
    requires i < |ps| && j < |ps| && i != j && ps[i].Holding? && ps[j].Holding?
    ensures |Holders(ps)| >= 2
  {
    var rest := Holders(ps) - {i, j};
    assert Holders(ps) == {i, j} + rest;
  }

  lemma {:induction false} NoneHeld(ps: Phases)
    requires forall i :: 0 <= i < |ps| ==> !ps[i].Holding?
    ensures Held(ps) == 0
  {
    if ps != [] {
      NoneHeld(ps[..|ps| - 1]);
    }
  }

  // ---------------------------------------------------------------- progress

  ghost predicate AllDone(ps: Phases) { forall i :: 0 <= i < |ps| ==> ps[i].Done? }

  /** A waiting task of the earliest wave that has one. */
  lemma {:induction false} EarliestWaiting(c: Config, ps: Phases, i: nat) returns (e: nat)
    requires |ps| == |c.waves| && i < |ps| && ps[i].Waiting?
    ensures e < |ps| && ps[e].Waiting?
    ensures forall j :: 0 <= j < |ps| && c.waves[j] < c.waves[e] ==> !ps[j].Waiting?
    decreases c.waves[i]
  {
    if j :| 0 <= j < |ps| && c.waves[j] < c.waves[i] && ps[j].Waiting? {
      e := EarliestWaiting(c, ps, j);
    } else {
      e := i;
    }
  }

  /** With a positive bound, as long as a task is not done some move is enabled. */
  lemma SomeMoveEnabled(c: Config, ps: Phases) returns (m: Move)
    requires c.Valid() && |ps| == |c.waves| && c.bound > 0 && !AllDone(ps)
    ensures Enabled(c, ps, m)
  {
    hide Held;
    if i :| 0 <= i < |ps| && ps[i].Holding? {
      m := Release(i);
    } else {
      NoneHeld(ps);
      var i :| 0 <= i < |ps| && !ps[i].Done?;
      var e := EarliestWaiting(c, ps, i);
      m := Acquire(e);
    }
  }

  // ---------------------------------------------------------------- safety

  /** No task has left the queue before every earlier wave is done. */
  ghost predicate WavesInOrder(c: Config, ps: Phases) {
    && |ps| == |c.waves|
    && forall i, j :: 0 <= i < |ps| && 0 <= j < |ps| && c.waves[j] < c.waves[i] && !ps[i].Waiting? ==> ps[j].Done?
  }

  ghost predicate Safe(c: Config, ps: Phases) {
    WavesInOrder(c, ps) && (Held(ps) <= c.bound || Held(ps) == 0)
  }

  lemma StepKeepsSafe(c: Config, ps: Phases, m: Move)
    requires c.Valid() && Safe(c, ps)
    ensures Safe(c, Step(c, ps, m))
  {
    hide Held;
    if Enabled(c, ps, m) {
      HeldUpdate(ps, m.i, Step(c, ps, m)[m.i]);
    }
  }

  /** What moving on keeps: safety, and being out of the queue. */
  lemma ReachesKeeps(c: Config, ps: Phases, qs: Phases)
    requires c.Valid() && Reaches(c, ps, qs)
    ensures |qs| == |ps| && (Safe(c, ps) ==> Safe(c, qs))
    ensures forall i :: 0 <= i < |ps| && !ps[i].Waiting? ==> !qs[i].Waiting?
  {
    hide Safe, Enabled;
    var m, m' :| Step(c, Step(c, ps, m), m') == qs;
    if Safe(c, ps) {
      StepKeepsSafe(c, ps, m);
      StepKeepsSafe(c, Step(c, ps, m), m');
    }
    StepStaysOut(c, ps, m);
    StepStaysOut(c, Step(c, ps, m), m');
  }

  lemma StepStaysOut(c: Config, ps: Phases, m: Move)
    requires c.Valid() && |ps| == |c.waves|
    ensures forall i :: 0 <= i < |ps| && !ps[i].Waiting? ==> !Step(c, ps, m)[i].Waiting?
  {
    hide Held, Open;
  }

  lemma {:induction false} HistoryHasShape(c: Config, h: seq<Phases>, k: nat)
    requires c.Valid() && History(c, h) && k < |h|
    ensures |h[k]| == |c.waves|
  {
    if k > 0 {
      assert Reaches(c, h[k - 1], h[k]);
    }
  }

  /** In every run, at every moment: at most `bound` slots are held and the waves are in order. */
  lemma {:induction false} RunsAreSafe(c: Config, h: seq<Phases>, k: nat)
    requires c.Valid() && History(c, h) && k < |h|
    ensures Safe(c, h[k])
  {
    hide Reaches, Safe;
    if k == 0 {
      StartIsSafe(c);
    } else {
      RunsAreSafe(c, h, k - 1);
      assert Reaches(c, h[k - 1], h[k]);
      ReachesKeeps(c, h[k - 1], h[k]);
    }
  }

  lemma StartIsSafe(c: Config)
    ensures Safe(c, Start(c))
  {
    NoneHeld(Start(c));
  }

  /** Once a task has left the queue it never returns to it. */
  lemma {:induction false} NeverBack(c: Config, h: seq<Phases>, k: nat, l: nat, i: nat)
    requires c.Valid() && History(c, h) && k <= l < |h| && i < |h[k]| && !h[k][i].Waiting?
    ensures |h[l]| == |h[k]| && !h[l][i].Waiting?
  {
    hide Reaches;
    HistoryHasShape(c, h, k);
    HistoryHasShape(c, h, l);
    if k < l {
      NeverBack(c, h, k, l - 1, i);
      assert Reaches(c, h[l - 1], h[l]);
      ReachesKeeps(c, h[l - 1], h[l]);
    }
  }

  // ---------------------------------------------------------------- termination

  /** How many moves a task can still make. */
  function Left(c: Config, ps: Phases, i: nat): nat
    requires c.Valid() && |ps| == |c.waves| && i < |ps|
  {
    match ps[i]
    case Waiting => c.work[i] + 2
    case Holding(left) => left + 1
    case Done => 0
  }

  function Remaining(c: Config, ps: Phases, n: nat): nat
    requires c.Valid() && |ps| == |c.waves| && n <= |ps|
  {
    if n == 0 then 0 else Remaining(c, ps, n - 1) + Left(c, ps, n - 1)
  }

  lemma {:induction false} RemainingStep(c: Config, ps: Phases, m: Move, n: nat)
    requires c.Valid() && |ps| == |c.waves| && Enabled(c, ps, m) && n <= |ps|
    ensures Remaining(c, Step(c, ps, m), n) <= Remaining(c, ps, n)
    ensures m.i < n ==> Remaining(c, Step(c, ps, m), n) < Remaining(c, ps, n)
    decreases n
  {
    hide Held;
    if n > 0 {
      RemainingStep(c, ps, m, n - 1);
    }
  }

  lemma StepSpends(c: Config, ps: Phases, m: Move)
    requires c.Valid() && |ps| == |c.waves|
    ensures var qs := Step(c, ps, m);
            qs == ps || Remaining(c, qs, |qs|) < Remaining(c, ps, |ps|)
  {
    hide Remaining, Held;
    if Enabled(c, ps, m) {
      RemainingStep(c, ps, m, |ps|);
    }
  }

  lemma ReachesSpends(c: Config, ps: Phases, qs: Phases)
    requires c.Valid() && Reaches(c, ps, qs)
    ensures |qs| == |ps| && (qs == ps || Remaining(c, qs, |qs|) < Remaining(c, ps, |ps|))
  {
    hide Remaining, Step;
    var m, m' :| Step(c, Step(c, ps, m), m') == qs;
    StepSpends(c, ps, m);
    StepSpends(c, Step(c, ps, m), m');
  }

  /** How often the phases changed. */
  function Changes(h: seq<Phases>): nat {
    if |h| <= 1 then 0
    else Changes(h[..|h| - 1]) + if h[|h| - 1] != h[|h| - 2] then 1 else 0
  }

  lemma ChangesAppend(h: seq<Phases>, ps: Phases)
    requires h != []
    ensures Changes(h + [ps]) == Changes(h) + if ps != h[|h| - 1] then 1 else 0
  {
    assert (h + [ps])[..|h|] == h;
  }

  /** The changes so far and the moves still possible never exceed what was possible at the start: every run ends. */
  lemma {:induction false} RunsEnd(c: Config, h: seq<Phases>)
    requires c.Valid() && History(c, h)
    ensures |h[|h| - 1]| == |c.waves|
    ensures Changes(h) + Remaining(c, h[|h| - 1], |c.waves|) <= Remaining(c, Start(c), |c.waves|)
    decreases |h|
  {
    hide Remaining, Reaches;
    var n := |h| - 1;
    HistoryHasShape(c, h, n);
    if n > 0 {
      var before := h[..n];
      assert forall k :: 0 <= k < n - 1 ==> Reaches(c, h[k], h[k + 1]);
      RunsEnd(c, before);
      assert Reaches(c, h[n - 1], h[n]);
      ReachesSpends(c, h[n - 1], h[n]);
    }
  }

  /** All tasks with room for `w` steps each: at most `w + 2` moves per task. */
  lemma {:induction false} StartLeft(c: Config, w: nat, n: nat)
    requires c.Valid() && n <= |c.waves| && forall i :: 0 <= i < |c.work| ==> c.work[i] == w
    ensures Remaining(c, Start(c), n) == n * (w + 2)
  {
    if n > 0 {
      StartLeft(c, w, n - 1);
      assert n * (w + 2) == (n - 1) * (w + 2) + (w + 2);
    }
  }
}
