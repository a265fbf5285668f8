/** The serial fallback chain of a context query. */
module Fallback {
  import opened Wrappers
  import opened JsonTree

  datatype Confidence = Trusted | Degraded(reason: string) | Unavailable(reason: string)

  datatype Answer = Answer(payload: Json, confidence: Confidence, adapter: string)

  /** `args` is the canonical encoding of the arguments. */
  datatype Query = Query(primitive: string, args: string, fallback: Option<Query>)

  /** Adapters by primitive; each is a pure function of the query. */
  type Table = map<string, Query -> Answer>

  datatype Entry = Entry(
    primitive: string, args: string, payload: Json, confidence: Confidence, fallbackUsed: bool, adapter: string)

  datatype Event =
    | AdapterDegraded(primitive: string, adapter: string, reason: string)
    | ChainTooDeep(primitive: string, depth: nat)

  datatype Outcome =
    | Resolved(entry: Entry)
    | TooDeep(primitive: string, depth: nat)
    | MissingDispatch(primitive: string)

  const MAX_DEPTH := 4

  function Compose(query: Query, primary: Answer, fallback: Option<Answer>): Entry {
    match fallback
    case None => Entry(query.primitive, query.args, primary.payload, primary.confidence, false, primary.adapter)
    case Some(last) => Entry(query.primitive, query.args, last.payload, last.confidence, true, last.adapter)
  }

  // ---------------------------------------------------------------- recursive form

  datatype Trace = Trace(events: seq<Event>, outcome: Outcome)

  function Before(e: Event, t: Trace): Trace { Trace([e] + t.events, t.outcome) }

  /** One turn of the walk: it stops, or reports and goes on with the fallback. */
  datatype Turn = Stop(last: Trace) | Advance(event: Event, next: Query)

  function Take(table: Table, root: Query, q: Query, depth: nat): (r: Turn)
    ensures r.Advance? ==> depth < MAX_DEPTH && q.fallback == Some(r.next)
  {
    if depth >= MAX_DEPTH then
      Stop(Trace([ChainTooDeep(root.primitive, depth + 1)], TooDeep(root.primitive, depth + 1)))
    else if q.primitive !in table then Stop(Trace([], MissingDispatch(q.primitive)))
    else
      var answer := table[q.primitive](q);
      if answer.confidence.Trusted? || q.fallback.None?
      then Stop(Trace([], Resolved(Compose(root, answer, if depth > 0 then Some(answer) else None))))
      else Advance(AdapterDegraded(q.primitive, answer.adapter, answer.confidence.reason), q.fallback.value)
  }

  function Walk(table: Table, root: Query, q: Query, depth: nat): Trace
    decreases q
  {
    match Take(table, root, q, depth)
    case Stop(last) => last
    case Advance(event, next) => Before(event, Walk(table, root, next, depth + 1))
  }

  /** What one query yields when nothing runs beside it. */
  function Serial(table: Table, q: Query): Trace { Walk(table, q, q, 0) }

  /** A walk is its first turn, and the rest if it goes on. */
  lemma OneTurn(table: Table, root: Query, q: Query, depth: nat)
    ensures Walk(table, root, q, depth) ==
            match Take(table, root, q, depth)
            case Stop(last) => last
            case Advance(event, next) => Before(event, Walk(table, root, next, depth + 1))
  {
  }

  lemma StartOfWalk(table: Table, root: Query)
    ensures Serial(table, root) == Prefixed([], Walk(table, root, root, 0))
  {
    var t := Walk(table, root, root, 0);
    assert [] + t.events == t.events;
  }

  function Prefixed(events: seq<Event>, t: Trace): Trace { Trace(events + t.events, t.outcome) }

  lemma PrefixedOnce(events: seq<Event>, e: Event, t: Trace)
    ensures Prefixed(events, Before(e, t)) == Prefixed(events + [e], t)
  {
    assert events + ([e] + t.events) == events + [e] + t.events;
  }

  lemma LastTurn(table: Table, root: Query, q: Query, depth: nat, events: seq<Event>)
    requires Take(table, root, q, depth).Stop?
    ensures Prefixed(events, Walk(table, root, q, depth)) == Prefixed(events, Take(table, root, q, depth).last)
  {
    hide Prefixed;
    OneTurn(table, root, q, depth);
  }

  lemma MiddleTurn(table: Table, root: Query, q: Query, depth: nat, events: seq<Event>)
    requires Take(table, root, q, depth).Advance?
    ensures var turn := Take(table, root, q, depth);
            Prefixed(events, Walk(table, root, q, depth)) ==
            Prefixed(events + [turn.event], Walk(table, root, turn.next, depth + 1))
  {
    hide Prefixed, Walk;
    OneTurn(table, root, q, depth);
    var turn := Take(table, root, q, depth);
    PrefixedOnce(events, turn.event, Walk(table, root, turn.next, depth + 1));
  }

  lemma Quiet(events: seq<Event>, outcome: Outcome)
    ensures Prefixed(events, Trace([], outcome)) == Trace(events, outcome)
  {
    assert events + [] == events;
  }

  /** The walker: a loop that follows fallbacks and reports each advance before it makes it. */
  method ResolveChain(table: Table, root: Query) returns (t: Trace)
    ensures t == Serial(table, root)
  {
    hide Walk, Serial, Compose, Prefixed;
    var current := root;
    var depth: nat := 0;
    var rootPrimary: Option<Answer> := None;
    var lastResult: Option<Answer> := None;
    var events: seq<Event> := [];
    StartOfWalk(table, root);
    while true
      invariant rootPrimary.None? <==> depth == 0
      invariant Serial(table, root) == Prefixed(events, Walk(table, root, current, depth))
      decreases current
    {
      if depth >= MAX_DEPTH {
        var nextDepth := depth + 1;
        LastTurn(table, root, current, depth, events);
        t := Ended(events, ChainTooDeep(root.primitive, nextDepth), TooDeep(root.primitive, nextDepth));
        return;
      }
      if current.primitive !in table {
        LastTurn(table, root, current, depth, events);
        Quiet(events, MissingDispatch(current.primitive));
        return Trace(events, MissingDispatch(current.primitive));
      }
      var answer := table[current.primitive](current);
      lastResult := Some(answer);
      if rootPrimary.None? {
        rootPrimary := Some(answer);
      }
      if answer.confidence.Trusted? || current.fallback.None? {
        var fallbackUsed := if depth > 0 then lastResult else None;
        var entry := Compose(root, rootPrimary.value, fallbackUsed);
        LastTurn(table, root, current, depth, events);
        OnlyLastCounts(root, rootPrimary.value, answer, depth > 0);
        Quiet(events, Resolved(entry));
        return Trace(events, Resolved(entry));
      }
      var event := AdapterDegraded(current.primitive, answer.adapter, answer.confidence.reason);
      MiddleTurn(table, root, current, depth, events);
      events := events + [event];
      depth := depth + 1;
      current := current.fallback.value;
    }
  }

  /** The trace that ends with one more event. */
  function Ended(events: seq<Event>, e: Event, outcome: Outcome): (t: Trace)
    ensures t == Prefixed(events, Trace([e], outcome))
  {
    Trace(events + [e], outcome)
  }

  /** Of the primary's answer nothing is left once a fallback was used. */
  lemma OnlyLastCounts(root: Query, primary: Answer, last: Answer, used: bool)
    requires !used ==> primary == last
    ensures Compose(root, primary, if used then Some(last) else None) ==
            Compose(root, last, if used then Some(last) else None)
  {
  }

  // ---------------------------------------------------------------- declarative form

  /** The query, its fallback, and so on. */
  function Chain(q: Query): (r: seq<Query>)
    ensures |r| >= 1 && r[0] == q
    decreases q
  {
    match q.fallback
    case None => [q]
    case Some(next) => [q] + Chain(next)
  }

  predicate Known(table: Table, q: Query) { q.primitive in table }

  function AnswerOf(table: Table, q: Query): Answer
    requires Known(table, q)
  {
    table[q.primitive](q)
  }

  /** The first `k` queries of the chain are known, answered, and not trusted. */
  ghost predicate Untrusted(table: Table, chain: seq<Query>, k: nat)
    requires k <= |chain|
  {
    forall j :: 0 <= j < k ==> Known(table, chain[j]) && !AnswerOf(table, chain[j]).confidence.Trusted?
  }

  function Report(table: Table, q: Query): Event
    requires Known(table, q) && !AnswerOf(table, q).confidence.Trusted?
  {
    AdapterDegraded(q.primitive, AnswerOf(table, q).adapter, AnswerOf(table, q).confidence.reason)
  }

  function Reports(table: Table, chain: seq<Query>, k: nat): (r: seq<Event>)
    requires k <= |chain| && Untrusted(table, chain, k)
    ensures |r| == k && forall j :: 0 <= j < k ==> r[j] == Report(table, chain[j])
  {
    seq(k, j requires 0 <= j < k => Report(table, chain[j]))
  }

  /** Where the walk from `depth` ends. */
  ghost predicate Settles(table: Table, chain: seq<Query>, depth: nat, k: nat) {
    && depth + k < MAX_DEPTH && k < |chain| && Untrusted(table, chain, k) && Known(table, chain[k])
    && (AnswerOf(table, chain[k]).confidence.Trusted? || k == |chain| - 1)
  }

  ghost predicate Unknown(table: Table, chain: seq<Query>, depth: nat, k: nat) {
    depth + k < MAX_DEPTH && k < |chain| && Untrusted(table, chain, k) && !Known(table, chain[k])
  }

  ghost predicate RunsOut(table: Table, chain: seq<Query>, depth: nat, k: nat) {
    depth + k == MAX_DEPTH && k < |chain| && Untrusted(table, chain, k)
  }

  /** The walk's trace, if the chain ends at position `k` in one of the three ways. */
  ghost predicate TraceIs(table: Table, root: Query, q: Query, depth: nat, k: nat, t: Trace)
  {
    var chain := Chain(q);
    && (Settles(table, chain, depth, k) ==>
          var a := AnswerOf(table, chain[k]);
          t == Trace(Reports(table, chain, k), Resolved(Compose(root, a, if depth + k > 0 then Some(a) else None))))
    && (Unknown(table, chain, depth, k) ==> t == Trace(Reports(table, chain, k), MissingDispatch(chain[k].primitive)))
    && (RunsOut(table, chain, depth, k) ==>
          t == Trace(Reports(table, chain, k) + [ChainTooDeep(root.primitive, 5)], TooDeep(root.primitive, 5)))
  }

  lemma ChainTail(table: Table, q: Query, k: nat)
    requires q.fallback.Some? && k <= |Chain(q.fallback.value)|
    ensures |Chain(q)| == |Chain(q.fallback.value)| + 1
    ensures forall j :: 0 <= j < |Chain(q.fallback.value)| ==> Chain(q)[j + 1] == Chain(q.fallback.value)[j]
    ensures Untrusted(table, Chain(q), k + 1) ==> Untrusted(table, Chain(q.fallback.value), k)
  {
    var c, d := Chain(q), Chain(q.fallback.value);
    forall j | 0 <= j < |d| ensures c[j + 1] == d[j] { }
    if Untrusted(table, c, k + 1) {
      forall j | 0 <= j < k ensures Known(table, d[j]) && !AnswerOf(table, d[j]).confidence.Trusted? {
        assert c[j + 1] == d[j];
      }
    }
  }

  lemma ReportsAt(table: Table, q: Query, k: nat, j: nat)
    requires q.fallback.Some? && j < k <= |Chain(q.fallback.value)|
    requires Untrusted(table, Chain(q), k + 1) && Untrusted(table, Chain(q.fallback.value), k)
    ensures Reports(table, Chain(q), k + 1)[j + 1] == Reports(table, Chain(q.fallback.value), k)[j]
  {
    hide Report, Known, Untrusted, Chain;
    ChainTail(table, q, k);
  }

  lemma FirstReport(table: Table, q: Query, k: nat)
    requires k < |Chain(q)| && Untrusted(table, Chain(q), k + 1)
    ensures Known(table, q) && !AnswerOf(table, q).confidence.Trusted?
    ensures Reports(table, Chain(q), k + 1)[0] == Report(table, q)
  {
    hide Report, Known;
    assert Chain(q)[0] == q;
  }

  lemma ReportsTail(table: Table, q: Query, k: nat)
    requires q.fallback.Some? && k <= |Chain(q.fallback.value)|
    requires Untrusted(table, Chain(q), k + 1) && Untrusted(table, Chain(q.fallback.value), k)
    ensures Known(table, q) && !AnswerOf(table, q).confidence.Trusted?
    ensures Reports(table, Chain(q), k + 1) == [Report(table, q)] + Reports(table, Chain(q.fallback.value), k)
  {
    hide Report, Known, Untrusted, Chain, AnswerOf;
    ChainTail(table, q, k);
    FirstReport(table, q, k);
    var whole, tail := Reports(table, Chain(q), k + 1), Reports(table, Chain(q.fallback.value), k);
    forall j | 0 < j < |whole| ensures whole[j] == tail[j - 1] {
      ReportsAt(table, q, k, j - 1);
    }
  }

  lemma WalkEndsHere(table: Table, root: Query, q: Query, depth: nat)
    ensures TraceIs(table, root, q, depth, 0, Walk(table, root, q, depth))
  {
    hide Walk, Compose;
    OneTurn(table, root, q, depth);
  }

  /** The three endings, seen one query further along. */
  lemma EndsShift(table: Table, q: Query, depth: nat, k: nat)
    requires q.fallback.Some? && 0 < k < |Chain(q)| && Untrusted(table, Chain(q), k)
    ensures |Chain(q)| == |Chain(q.fallback.value)| + 1 && Chain(q)[k] == Chain(q.fallback.value)[k - 1]
    ensures Settles(table, Chain(q), depth, k) ==> Settles(table, Chain(q.fallback.value), depth + 1, k - 1)
    ensures Unknown(table, Chain(q), depth, k) ==> Unknown(table, Chain(q.fallback.value), depth + 1, k - 1)
    ensures RunsOut(table, Chain(q), depth, k) ==> RunsOut(table, Chain(q.fallback.value), depth + 1, k - 1)
  {
    hide Chain, Untrusted, AnswerOf, Known;
    ChainTail(table, q, 0);
    ChainTail(table, q, k - 1);
  }

  lemma EndsAreUntrusted(table: Table, chain: seq<Query>, depth: nat, k: nat)
    requires Settles(table, chain, depth, k) || Unknown(table, chain, depth, k) || RunsOut(table, chain, depth, k)
    ensures k < |chain| && Untrusted(table, chain, k) && depth + k <= MAX_DEPTH
  {
  }

  lemma {:induction false} WalkEndsAt(table: Table, root: Query, q: Query, depth: nat, k: nat)
    ensures TraceIs(table, root, q, depth, k, Walk(table, root, q, depth))
    decreases q
  {
    if k == 0 {
      WalkEndsHere(table, root, q, depth);
    } else {
      hide Walk, TraceIs, Chain, Untrusted, Settles, Unknown, RunsOut;
      if Settles(table, Chain(q), depth, k) || Unknown(table, Chain(q), depth, k) ||
         RunsOut(table, Chain(q), depth, k) {
        EndsAreUntrusted(table, Chain(q), depth, k);
        GoesOn(table, root, q, depth, k);
        WalkEndsAt(table, root, q.fallback.value, depth + 1, k - 1);
        TraceShift(table, root, q, depth, k, Walk(table, root, q.fallback.value, depth + 1));
      } else {
        NoTrace(table, root, q, depth, k, Walk(table, root, q, depth));
      }
    }
  }

  lemma NoTrace(table: Table, root: Query, q: Query, depth: nat, k: nat, t: Trace)
    requires !Settles(table, Chain(q), depth, k) && !Unknown(table, Chain(q), depth, k)
    requires !RunsOut(table, Chain(q), depth, k)
    ensures TraceIs(table, root, q, depth, k, t)
  {
  }

  /** With the report of the first query before it, the trace of the rest is the whole trace. */
  lemma TraceShift(table: Table, root: Query, q: Query, depth: nat, k: nat, t: Trace)
    requires q.fallback.Some? && Known(table, q) && 0 < k < |Chain(q)| && Untrusted(table, Chain(q), k)
    requires TraceIs(table, root, q.fallback.value, depth + 1, k - 1, t)
    ensures TraceIs(table, root, q, depth, k, Before(Report(table, q), t))
  {
    hide Walk, Compose, Take, Report, Chain, Untrusted, Settles, Unknown, RunsOut;
    EndsShift(table, q, depth, k);
    if Settles(table, Chain(q), depth, k) || Unknown(table, Chain(q), depth, k) || RunsOut(table, Chain(q), depth, k) {
      EndsAreUntrusted(table, Chain(q.fallback.value), depth + 1, k - 1);
      ReportsTail(table, q, k - 1);
    }
  }

  lemma GoesOn(table: Table, root: Query, q: Query, depth: nat, k: nat)
    requires 0 < k < |Chain(q)| && Untrusted(table, Chain(q), k) && depth < MAX_DEPTH
    ensures q.fallback.Some? && Known(table, q) && !AnswerOf(table, q).confidence.Trusted?
    ensures Walk(table, root, q, depth) == Before(Report(table, q), Walk(table, root, q.fallback.value, depth + 1))
  {
    hide Walk, Compose;
    assert Chain(q)[0] == q;
    OneTurn(table, root, q, depth);
  }

  /** Every walk from within the cap ends in exactly one of the three ways. */
  lemma {:induction false} WalkEnds(table: Table, q: Query, depth: nat) returns (k: nat)
    requires depth <= MAX_DEPTH
    ensures Settles(table, Chain(q), depth, k) || Unknown(table, Chain(q), depth, k) ||
            RunsOut(table, Chain(q), depth, k)
    decreases q
  {
    k := 0;
    if depth < MAX_DEPTH && Known(table, q) && !AnswerOf(table, q).confidence.Trusted? && q.fallback.Some? {
      var l := WalkEnds(table, q.fallback.value, depth + 1);
      k := l + 1;
      var c, d := Chain(q), Chain(q.fallback.value);
      forall j | 0 <= j < k ensures Known(table, c[j]) && !AnswerOf(table, c[j]).confidence.Trusted? {
        assert j > 0 ==> c[j] == d[j - 1];
      }
      assert c[k] == d[l];
    }
  }

  /** The entry of a chain is the first trusted answer among its first four, or its last answer if it ends by then;
      it reports each advance once, and says it used a fallback exactly when it advanced. */
  lemma ChainResolves(table: Table, q: Query, k: nat)
    requires Settles(table, Chain(q), 0, k)
    ensures var a := AnswerOf(table, Chain(q)[k]);
            Serial(table, q) == Trace(
              Reports(table, Chain(q), k),
              Resolved(Entry(q.primitive, q.args, a.payload, a.confidence, k > 0, a.adapter)))
  {
    WalkEndsAt(table, q, q, 0, k);
  }

  /** It raises too-deep exactly when four untrusted answers are followed by a fifth query. */
  lemma TooDeepExactly(table: Table, q: Query)
    ensures Serial(table, q).outcome.TooDeep? <==> |Chain(q)| > 4 && Untrusted(table, Chain(q), 4)
    ensures Serial(table, q).outcome.TooDeep? ==>
              Serial(table, q) == Trace(
                Reports(table, Chain(q), 4) + [ChainTooDeep(q.primitive, 5)], TooDeep(q.primitive, 5))
  {
    hide Walk;
    var k := WalkEnds(table, q, 0);
    WalkEndsAt(table, q, q, 0, k);
    if |Chain(q)| > 4 && Untrusted(table, Chain(q), 4) {
      WalkEndsAt(table, q, q, 0, 4);
      assert RunsOut(table, Chain(q), 0, 4);
    }
  }

  /** It raises missing-dispatch exactly when the walk reaches a primitive without an adapter. */
  lemma MissingExactly(table: Table, q: Query)
    ensures Serial(table, q).outcome.MissingDispatch? <==> exists k :: Unknown(table, Chain(q), 0, k)
  {
    hide Walk, Unknown, Settles, RunsOut;
    var k := WalkEnds(table, q, 0);
    WalkEndsAt(table, q, q, 0, k);
    forall l | Unknown(table, Chain(q), 0, l) ensures Serial(table, q).outcome.MissingDispatch? {
      WalkEndsAt(table, q, q, 0, l);
    }
  }

  /** The chain's query `k` is the one whose answer counts: it is among the first four, those before it were answered
      and not trusted, and it is trusted or the last. */
  ghost predicate Counts(table: Table, chain: seq<Query>, k: nat) {
    && k < 4 && k < |chain|
    && (forall j :: 0 <= j < k ==>
          chain[j].primitive in table && !table[chain[j].primitive](chain[j]).confidence.Trusted?)
    && chain[k].primitive in table && (table[chain[k].primitive](chain[k]).confidence.Trusted? || k == |chain| - 1)
  }

  /** The walk resolves exactly when some answer counts. */
  lemma ResolvedExactly(table: Table, q: Query)
    ensures Serial(table, q).outcome.Resolved? <==> exists k :: Counts(table, Chain(q), k)
  {
    hide Walk, Chain, Unknown, RunsOut;
    var k := WalkEnds(table, q, 0);
    WalkEndsAt(table, q, q, 0, k);
    if Settles(table, Chain(q), 0, k) {
      assert Counts(table, Chain(q), k);
    }
    forall l: nat | Counts(table, Chain(q), l) ensures Serial(table, q).outcome.Resolved? {
      assert Settles(table, Chain(q), 0, l);
      WalkEndsAt(table, q, q, 0, l);
    }
  }

  /** The event names the query's primitive, the adapter that answered, and its reason. */
  ghost predicate TellsOf(table: Table, q: Query, e: Event) {
    && q.primitive in table && !table[q.primitive](q).confidence.Trusted?
    && e == AdapterDegraded(q.primitive, table[q.primitive](q).adapter, table[q.primitive](q).confidence.reason)
  }

  /** Every event but a final too-deep one tells of the untrusted answer at its place in the chain. */
  lemma EventsSpelled(table: Table, q: Query)
    ensures var t := Serial(table, q);
            var n := |t.events| - if t.outcome.TooDeep? then 1 else 0;
            0 <= n <= |Chain(q)| && forall j :: 0 <= j < n ==> TellsOf(table, Chain(q)[j], t.events[j])
  {
    hide Walk, Chain;
    var k := WalkEnds(table, q, 0);
    WalkEndsAt(table, q, q, 0, k);
    EndsAreUntrusted(table, Chain(q), 0, k);
    forall j | 0 <= j < k ensures TellsOf(table, Chain(q)[j], Reports(table, Chain(q), k)[j]) {
    }
  }
}
