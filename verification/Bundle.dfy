/** Building a bundle: every query's chain is walked inside one slot of a bounded semaphore, all chains at once. */
module Bundle {
  import opened Wrappers
  import opened Fallback
  import FJ = ForkJoin

  /** The composed queries of a plugin, by band. */
  datatype Bands = Bands(mustRead: seq<Query>, shouldRead: seq<Query>, mayRead: seq<Query>) {
    function Queries(): seq<Query> { mustRead + shouldRead + mayRead }
  }

  datatype Setup = Setup(bands: Bands, table: Table, concurrency: int)

  // ---------------------------------------------------------------- the concurrency bound

  /** The environment variable, after Python's `int()`. */
  datatype Variable = Unset | NotANumber | Number(n: int)

  function ReadConcurrency(v: Variable, cpuCount: Option<nat>): Option<int> {
    match v
    case Unset =>
      var cpu := if cpuCount.Some? && cpuCount.value != 0 then cpuCount.value else 1;
      Some(if cpu < 4 then cpu else 4)
    case NotANumber => None
    case Number(n) => if n <= 0 then None else Some(n)
  }

  /** The bound is what the variable says, if that is a positive number; without it, the number of processors, at least
      one and at most four. */
  lemma ConcurrencyMeans(cpuCount: Option<nat>)
    ensures ReadConcurrency(NotANumber, cpuCount) == None
    ensures forall n :: ReadConcurrency(Number(n), cpuCount) == if n > 0 then Some(n) else None
    ensures cpuCount == None || cpuCount == Some(0) ==> ReadConcurrency(Unset, cpuCount) == Some(1)
    ensures cpuCount.Some? && 1 <= cpuCount.value <= 4 ==>
              ReadConcurrency(Unset, cpuCount) == Some(cpuCount.value)
    ensures cpuCount.Some? && cpuCount.value > 4 ==> ReadConcurrency(Unset, cpuCount) == Some(4)
  {
  }

  // ---------------------------------------------------------------- the build as a step system

  datatype Slot = Waiting | Walking(current: Query, depth: nat) | Finished(outcome: Outcome)

  /** `log` is the one event stream; every event is tagged with the position of the query it came from. */
  datatype State = State(slots: seq<Slot>, log: seq<(nat, Event)>)

  /** Enter the semaphore, or come back from one adapter call and go on until the next or the end. */
  datatype Move = Enter(i: nat) | Turn(i: nat)

  function Control(setup: Setup): (c: FJ.Config)
    ensures c.Valid() && |c.waves| == |setup.bands.Queries()|
  {
    FJ.Config(setup.concurrency, seq(|setup.bands.Queries()|, _ => 0), seq(|setup.bands.Queries()|, _ => MAX_DEPTH))
  }

  function PhaseOf(s: Slot): FJ.Phase {
    match s
    case Waiting => FJ.Waiting
    case Walking(_, depth) => FJ.Holding(if depth < MAX_DEPTH then MAX_DEPTH - depth else 0)
    case Finished(_) => FJ.Done
  }

  function Phases(slots: seq<Slot>): (r: FJ.Phases)
    ensures |r| == |slots| && forall i :: 0 <= i < |slots| ==> r[i] == PhaseOf(slots[i])
  {
    seq(|slots|, i requires 0 <= i < |slots| => PhaseOf(slots[i]))
  }

  function Tagged(i: nat, events: seq<Event>): (r: seq<(nat, Event)>)
    ensures |r| == |events|
  {
    seq(|events|, k requires 0 <= k < |events| => (i, events[k]))
  }

  function Step(setup: Setup, s: State, m: Move): (r: State)
    requires |s.slots| == |setup.bands.Queries()|
    ensures |r.slots| == |s.slots|
  {
    match m
    case Enter(i) =>
      if FJ.Enabled(Control(setup), Phases(s.slots), FJ.Acquire(i))
      then s.(slots := s.slots[i := Walking(setup.bands.Queries()[i], 0)])
      else s
    case Turn(i) =>
      if i < |s.slots| && s.slots[i].Walking?
      then
        match Take(setup.table, setup.bands.Queries()[i], s.slots[i].current, s.slots[i].depth)
        case Stop(last) => State(s.slots[i := Finished(last.outcome)], s.log + Tagged(i, last.events))
        case Advance(e, next) => State(s.slots[i := Walking(next, s.slots[i].depth + 1)], s.log + Tagged(i, [e]))
      else s
  }

  function Begin(setup: Setup): (r: State)
    ensures |r.slots| == |setup.bands.Queries()|
  {
    State(seq(|setup.bands.Queries()|, _ => Waiting), [])
  }

  function Run(setup: Setup, moves: seq<Move>): (r: State)
    ensures |r.slots| == |setup.bands.Queries()|
  {
    if moves == [] then Begin(setup) else Step(setup, Run(setup, moves[..|moves| - 1]), moves[|moves| - 1])
  }

  // ---------------------------------------------------------------- every chain does what it does alone

  /** The events of query `i`, in the order they came. */
  function Own(log: seq<(nat, Event)>, i: nat): seq<Event> {
    if log == [] then []
    else Own(log[..|log| - 1], i) + if log[|log| - 1].0 == i then [log[|log| - 1].1] else []
  }

  lemma OwnOne(log: seq<(nat, Event)>, e: (nat, Event), i: nat)
    ensures Own(log + [e], i) == Own(log, i) + if e.0 == i then [e.1] else []
  {
    assert (log + [e])[..|log|] == log;
  }

  lemma {:induction false} OwnAppend(log: seq<(nat, Event)>, j: nat, events: seq<Event>, i: nat)
    ensures Own(log + Tagged(j, events), i) == if i == j then Own(log, i) + events else Own(log, i)
    decreases |events|
  {
    hide Own;
    if events == [] {
      assert log + Tagged(j, events) == log;
    } else {
      var n := |events| - 1;
      assert log + Tagged(j, events) == log + Tagged(j, events[..n]) + [(j, events[n])];
      OwnAppend(log, j, events[..n], i);
      OwnOne(log + Tagged(j, events[..n]), (j, events[n]), i);
      assert Own(log, i) + events[..n] + [events[n]] == Own(log, i) + events;
    }
  }

  /** What query `i` has said, followed by what its walk has yet to say, is its serial trace. */
  ghost predicate SlotTrue(setup: Setup, s: State, i: nat)
    requires |s.slots| == |setup.bands.Queries()| && i < |s.slots|
  {
    var root := setup.bands.Queries()[i];
    match s.slots[i]
    case Waiting => Own(s.log, i) == []
    case Walking(q, depth) =>
      depth <= MAX_DEPTH && Prefixed(Own(s.log, i), Walk(setup.table, root, q, depth)) == Serial(setup.table, root)
    case Finished(outcome) => Trace(Own(s.log, i), outcome) == Serial(setup.table, root)
  }

  ghost predicate AllTrue(setup: Setup, s: State) {
    |s.slots| == |setup.bands.Queries()| && forall i :: 0 <= i < |s.slots| ==> SlotTrue(setup, s, i)
  }

  lemma TurnKeepsTrue(setup: Setup, s: State, i: nat)
    requires AllTrue(setup, s) && i < |s.slots| && s.slots[i].Walking?
    ensures SlotTrue(setup, Step(setup, s, Turn(i)), i)
  {
    hide Take, Own;
    var root, q, depth := setup.bands.Queries()[i], s.slots[i].current, s.slots[i].depth;
    assert SlotTrue(setup, s, i);
    match Take(setup.table, root, q, depth) {
      case Stop(last) => OwnAppend(s.log, i, last.events, i);
      case Advance(e, next) =>
        OwnAppend(s.log, i, [e], i);
        PrefixedOnce(Own(s.log, i), e, Walk(setup.table, root, next, depth + 1));
    }
  }

  lemma EnterKeepsTrue(setup: Setup, s: State, i: nat)
    requires AllTrue(setup, s) && FJ.Enabled(Control(setup), Phases(s.slots), FJ.Acquire(i))
    ensures SlotTrue(setup, Step(setup, s, Enter(i)), i)
  {
    hide Own, Walk, FJ.Open, FJ.Held;
    assert SlotTrue(setup, s, i);
    var t := Serial(setup.table, setup.bands.Queries()[i]);
    assert [] + t.events == t.events;
  }

  lemma OthersStayTrue(setup: Setup, s: State, m: Move, j: nat)
    requires AllTrue(setup, s) && j < |s.slots| && j != m.i
    ensures SlotTrue(setup, Step(setup, s, m), j)
  {
    hide Own, Walk, Take, FJ.Enabled;
    assert SlotTrue(setup, s, j);
    if m.Turn? && m.i < |s.slots| && s.slots[m.i].Walking? {
      match Take(setup.table, setup.bands.Queries()[m.i], s.slots[m.i].current, s.slots[m.i].depth) {
        case Stop(last) => OwnAppend(s.log, m.i, last.events, j);
        case Advance(e, next) => OwnAppend(s.log, m.i, [e], j);
      }
    }
  }

  lemma StepKeepsTrue(setup: Setup, s: State, m: Move)
    requires AllTrue(setup, s)
    ensures AllTrue(setup, Step(setup, s, m))
  {
    hide SlotTrue, FJ.Enabled, Take;
    var s' := Step(setup, s, m);
    forall j | 0 <= j < |s'.slots| ensures SlotTrue(setup, s', j) {
      if j != m.i {
        OthersStayTrue(setup, s, m, j);
      } else if m.Enter? && FJ.Enabled(Control(setup), Phases(s.slots), FJ.Acquire(m.i)) {
        EnterKeepsTrue(setup, s, m.i);
      } else if m.Turn? && s.slots[m.i].Walking? {
        TurnKeepsTrue(setup, s, m.i);
      } else {
        assert s' == s;
      }
    }
  }

  lemma {:induction false} RunsKeepTrue(setup: Setup, moves: seq<Move>)
    ensures AllTrue(setup, Run(setup, moves))
    decreases |moves|
  {
    hide Step;
    if moves != [] {
      RunsKeepTrue(setup, moves[..|moves| - 1]);
      StepKeepsTrue(setup, Run(setup, moves[..|moves| - 1]), moves[|moves| - 1]);
    }
  }

  ghost predicate AllFinished(s: State) { forall i :: 0 <= i < |s.slots| ==> s.slots[i].Finished? }

  /** In every interleaving, a finished query has its serial outcome, and its own events are its serial stream. */
  lemma ChainsAreSerial(setup: Setup, moves: seq<Move>, i: nat)
    requires i < |setup.bands.Queries()| && Run(setup, moves).slots[i].Finished?
    ensures Trace(Own(Run(setup, moves).log, i), Run(setup, moves).slots[i].outcome) ==
            Serial(setup.table, setup.bands.Queries()[i])
  {
    hide Run, Own, Serial;
    RunsKeepTrue(setup, moves);
    assert SlotTrue(setup, Run(setup, moves), i);
  }

  /** At every moment, finished or not, what a query has said is a beginning of its serial stream. */
  lemma EventsAreAPrefix(setup: Setup, moves: seq<Move>, i: nat)
    requires i < |setup.bands.Queries()|
    ensures Own(Run(setup, moves).log, i) <= Serial(setup.table, setup.bands.Queries()[i]).events
  {
    hide Run, Own, Serial;
    RunsKeepTrue(setup, moves);
    assert SlotTrue(setup, Run(setup, moves), i);
  }

  /** The entries of a finished build. */
  function Entries(slots: seq<Slot>): (r: seq<Entry>)
    requires forall i :: 0 <= i < |slots| ==> slots[i].Finished? && slots[i].outcome.Resolved?
    ensures |r| == |slots|
  {
    seq(|slots|, i requires 0 <= i < |slots| => slots[i].outcome.entry)
  }

  function Expected(table: Table, qs: seq<Query>): (r: seq<Entry>)
    requires forall i :: 0 <= i < |qs| ==> Serial(table, qs[i]).outcome.Resolved?
    ensures |r| == |qs|
  {
    seq(|qs|, i requires 0 <= i < |qs| => Serial(table, qs[i]).outcome.entry)
  }

  ghost predicate NoneRaises(table: Table, qs: seq<Query>) {
    forall i :: 0 <= i < |qs| ==> Serial(table, qs[i]).outcome.Resolved?
  }

  /** When no query raises, every finished interleaving yields the same bundle: the entries of the must band, then
      of the should band, then of the may band, each as its chain resolves alone. */
  lemma BundleIsDetermined(setup: Setup, moves: seq<Move>)
    requires AllFinished(Run(setup, moves)) && NoneRaises(setup.table, setup.bands.Queries())
    ensures var s, b := Run(setup, moves), setup.bands;
            && (forall i :: 0 <= i < |s.slots| ==> s.slots[i].outcome.Resolved?)
            && NoneRaises(setup.table, b.mustRead) && NoneRaises(setup.table, b.shouldRead)
            && NoneRaises(setup.table, b.mayRead)
            && Entries(s.slots) ==
               Expected(setup.table, b.mustRead) + Expected(setup.table, b.shouldRead) +
               Expected(setup.table, b.mayRead)
  {
    hide Run, Serial, Own;
    var s, b := Run(setup, moves), setup.bands;
    var qs := b.Queries();
    forall i | 0 <= i < |s.slots| ensures s.slots[i].outcome == Serial(setup.table, qs[i]).outcome {
      ChainsAreSerial(setup, moves, i);
    }
    Bands3(setup);
  }

  lemma Bands3(setup: Setup)
    requires NoneRaises(setup.table, setup.bands.Queries())
    ensures var b := setup.bands;
            && NoneRaises(setup.table, b.mustRead) && NoneRaises(setup.table, b.shouldRead)
            && NoneRaises(setup.table, b.mayRead)
            && Expected(setup.table, b.Queries()) ==
               Expected(setup.table, b.mustRead) + Expected(setup.table, b.shouldRead) +
               Expected(setup.table, b.mayRead)
  {
    hide Serial;
    var b := setup.bands;
    var qs, m, n := b.Queries(), |b.mustRead|, |b.shouldRead|;
    forall i | 0 <= i < m ensures b.mustRead[i] == qs[i] { }
    forall i | 0 <= i < n ensures b.shouldRead[i] == qs[m + i] { }
    forall i | 0 <= i < |b.mayRead| ensures b.mayRead[i] == qs[m + n + i] { }
  }

  // ---------------------------------------------------------------- it is a fork-join

  /** A turn that goes on uses up one step, one that stops releases the slot. */
  lemma TurnIsControl(setup: Setup, s: State, i: nat)
    requires |s.slots| == |setup.bands.Queries()| && i < |s.slots| && s.slots[i].Walking?
    ensures var after := Step(setup, s, Turn(i)).slots[i];
            FJ.Step(Control(setup), Phases(s.slots), if after.Finished? then FJ.Release(i) else FJ.Work(i)) ==
            Phases(s.slots)[i := PhaseOf(after)]
  {
    hide FJ.Open, FJ.Held, Take, Walk;
  }

  lemma StepIsControl(setup: Setup, s: State, m: Move)
    requires |s.slots| == |setup.bands.Queries()|
    ensures FJ.Reaches(Control(setup), Phases(s.slots), Phases(Step(setup, s, m).slots))
  {
    hide FJ.Open, FJ.Held, FJ.Reaches, Take;
    var c, s', ps := Control(setup), Step(setup, s, m), Phases(s.slots);
    if m.i >= |s.slots| || s'.slots[m.i] == s.slots[m.i] {
      assert s'.slots == s.slots;
      FJ.ReachesItself(c, ps);
    } else {
      assert Phases(s'.slots) == ps[m.i := PhaseOf(s'.slots[m.i])];
      if m.Enter? {
        FJ.ReachesByOne(c, ps, FJ.Acquire(m.i));
      } else {
        TurnIsControl(setup, s, m.i);
        FJ.ReachesByOne(c, ps, if s'.slots[m.i].Finished? then FJ.Release(m.i) else FJ.Work(m.i));
      }
    }
  }

  /** The phases after each move of a run. */
  function History(setup: Setup, moves: seq<Move>): (h: seq<FJ.Phases>)
    ensures |h| == |moves| + 1
    ensures forall k :: 0 <= k <= |moves| ==> h[k] == Phases(Run(setup, moves[..k]).slots)
  {
    seq(|moves| + 1, k requires 0 <= k <= |moves| => Phases(Run(setup, moves[..k]).slots))
  }

  lemma RunStep(setup: Setup, moves: seq<Move>, k: nat)
    requires k < |moves|
    ensures Run(setup, moves[..k + 1]) == Step(setup, Run(setup, moves[..k]), moves[k])
  {
    assert moves[..k + 1][..k] == moves[..k];
  }

  /** Every build, seen through its slots, is a run of the bounded fork-join. */
  lemma RunIsControl(setup: Setup, moves: seq<Move>)
    ensures FJ.History(Control(setup), History(setup, moves))
  {
    hide Run, Step, FJ.Reaches;
    var h := History(setup, moves);
    forall k | 0 <= k < |h| - 1 ensures FJ.Reaches(Control(setup), h[k], h[k + 1]) {
      RunStep(setup, moves, k);
      StepIsControl(setup, Run(setup, moves[..k]), moves[k]);
    }
    RunStart(setup, moves);
  }

  lemma RunStart(setup: Setup, moves: seq<Move>)
    ensures Phases(Run(setup, moves[..0]).slots) == FJ.Start(Control(setup))
  {
    assert moves[..0] == [];
  }

  /** At every moment of every interleaving at most `concurrency` chains hold a slot. */
  lemma SlotsBounded(setup: Setup, moves: seq<Move>)
    requires setup.concurrency > 0
    ensures FJ.Held(Phases(Run(setup, moves).slots)) <= setup.concurrency
  {
    hide FJ.Held, FJ.History, Run;
    assert moves[..|moves|] == moves;
    RunIsControl(setup, moves);
    FJ.RunsAreSafe(Control(setup), History(setup, moves), |moves|);
  }

  ghost predicate Effective(setup: Setup, s: State, m: Move)
    requires |s.slots| == |setup.bands.Queries()|
  {
    Phases(Step(setup, s, m).slots) != Phases(s.slots)
  }

  /** With a positive bound a build that is not finished can always move. */
  lemma BuildProgresses(setup: Setup, s: State) returns (m: Move)
    requires |s.slots| == |setup.bands.Queries()| && setup.concurrency > 0 && !AllFinished(s)
    ensures Effective(setup, s, m)
  {
    hide FJ.Open, FJ.Held;
    var i :| 0 <= i < |s.slots| && !s.slots[i].Finished?;
    assert !Phases(s.slots)[i].Done?;
    var fm := FJ.SomeMoveEnabled(Control(setup), Phases(s.slots));
    if fm.Acquire? {
      m := Enter(fm.i);
    } else {
      m := Turn(fm.i);
    }
    assert Phases(Step(setup, s, m).slots)[fm.i] != Phases(s.slots)[fm.i];
  }

  /** Whatever the environment says, a builder that could be constructed never gets stuck. */
  lemma BuildersProgress(v: Variable, cpuCount: Option<nat>, setup: Setup, s: State) returns (m: Move)
    requires ReadConcurrency(v, cpuCount) == Some(setup.concurrency)
    requires |s.slots| == |setup.bands.Queries()| && !AllFinished(s)
    ensures Effective(setup, s, m)
  {
    hide Effective, AllFinished;
    m := BuildProgresses(setup, s);
  }

  /** No run makes more than six effective moves per query: every build terminates. */
  lemma BuildEnds(setup: Setup, moves: seq<Move>)
    ensures FJ.Changes(History(setup, moves)) <= 6 * |setup.bands.Queries()|
  {
    hide Run, FJ.Changes, FJ.Remaining, FJ.History;
    RunIsControl(setup, moves);
    FJ.RunsEnd(Control(setup), History(setup, moves));
    FJ.StartLeft(Control(setup), MAX_DEPTH, |setup.bands.Queries()|);
  }

  /** The move took query `m.i` out of the queue. */
  ghost predicate TakesSlot(setup: Setup, s: State, m: Move)
    requires |s.slots| == |setup.bands.Queries()|
  {
    m.i < |s.slots| && s.slots[m.i].Waiting? && !Step(setup, s, m).slots[m.i].Waiting?
  }

  /** No chain takes a slot twice: not for its fallbacks, not ever. */
  lemma TakesSlotOnce(setup: Setup, moves: seq<Move>, k: nat, l: nat)
    requires k < l < |moves|
    requires TakesSlot(setup, Run(setup, moves[..k]), moves[k]) && TakesSlot(setup, Run(setup, moves[..l]), moves[l])
    ensures moves[k].i != moves[l].i
  {
    hide Step, Run, FJ.History;
    var h := History(setup, moves);
    RunIsControl(setup, moves);
    RunStep(setup, moves, k);
    assert h[k + 1][moves[k].i] != FJ.Waiting;
    FJ.NeverBack(Control(setup), h, k + 1, l, moves[k].i);
  }
}
