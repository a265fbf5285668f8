/** The per-workflow spending guard: precharge a call, settle it later, never spend past the cap unnoticed. */
module Budget {
  import opened Wrappers

  /** Tokens and dollars are checked side by side; dollars are exact. */
  datatype Amount = Amount(tokens: int, dollars: real) {
    function Plus(b: Amount): Amount { Amount(tokens + b.tokens, dollars + b.dollars) }

    function Minus(b: Amount): Amount { Amount(tokens - b.tokens, dollars - b.dollars) }

    predicate Within(b: Amount) { tokens <= b.tokens && dollars <= b.dollars }

    predicate NonNegative() { tokens >= 0 && dollars >= 0.0 }

    /** By how much this exceeds `b`, in each coordinate. */
    function Excess(b: Amount): Amount {
      Amount(if tokens > b.tokens then tokens - b.tokens else 0,
        if dollars > b.dollars then dollars - b.dollars else 0.0)
    }
  }

  const ZERO := Amount(0, 0.0)

  datatype Token = Token(id: string, precharged: Amount)

  datatype Reason = PerCallMax | WorkflowMaxTokens | WorkflowMaxDollars

  datatype Event =
    | Precharged(id: string, amount: Amount)
    | Reconciled(id: string, actual: Amount)
    | ReconciledDuplicate(id: string)
    | UnknownTokenReconcile(id: string)
    | CapExceeded(reason: Reason)

  datatype Config = Config(cap: Amount, perCall: int, dollarsPerToken: real) {
    predicate Valid() { cap.NonNegative() && perCall > 0 && dollarsPerToken >= 0.0 }
  }

  /** What the constructor of a guard accepts. */
  lemma ConfigMeans(c: Config)
    ensures c.Valid() <==>
            c.cap.tokens >= 0 && c.cap.dollars >= 0.0 && c.perCall >= 1 && c.dollarsPerToken >= 0.0
  {
  }

  datatype Ledger = Ledger(consumed: Amount, outstanding: map<string, Token>, reconciled: set<string>)

  const EMPTY := Ledger(ZERO, map[], {})

  // ---------------------------------------------------------------- sums over a changing map

  ghost function Sum(m: map<string, Token>): Amount {
    if m == map[] then ZERO
    else
      var k :| k in m;
      m[k].precharged.Plus(Sum(m - {k}))
  }

  lemma PlusSwap(a: Amount, b: Amount, c: Amount)
    ensures a.Plus(b.Plus(c)) == b.Plus(a.Plus(c))
  {
  }

  /** The sum does not depend on the order in which tokens are taken out. */
  lemma {:induction false} SumTakeOut(m: map<string, Token>, k: string)
    requires k in m
    ensures Sum(m) == m[k].precharged.Plus(Sum(m - {k}))
    decreases |m|
  {
    var j :| j in m && Sum(m) == m[j].precharged.Plus(Sum(m - {j}));
    if j != k {
      SumTakeOut(m - {j}, k);
      SumTakeOut(m - {k}, j);
      assert m - {j} - {k} == m - {k} - {j};
      PlusSwap(m[j].precharged, m[k].precharged, Sum(m - {j} - {k}));
    }
  }

  lemma SumPutIn(m: map<string, Token>, k: string, t: Token)
    requires k !in m
    ensures Sum(m[k := t]) == t.precharged.Plus(Sum(m))
  {
    SumTakeOut(m[k := t], k);
    assert m[k := t] - {k} == m;
  }

  lemma {:induction false} SumNonNegative(m: map<string, Token>)
    requires forall k :: k in m ==> m[k].precharged.NonNegative()
    ensures Sum(m).NonNegative()
    decreases |m|
  {
    if m != map[] {
      var k :| k in m;
      SumTakeOut(m, k);
      SumNonNegative(m - {k});
    }
  }

  ghost function SumInts(m: map<string, int>): int {
    if m == map[] then 0
    else
      var k :| k in m;
      m[k] + SumInts(m - {k})
  }

  function TokenView(m: map<string, Token>): map<string, int> {
    map k | k in m :: m[k].precharged.tokens
  }

  lemma {:induction false} TokenViewSum(m: map<string, Token>)
    ensures SumInts(TokenView(m)) == Sum(m).tokens
    decreases |m|
  {
    var v := TokenView(m);
    if m == map[] {
      assert v == map[];
    } else {
      var i :| i in m;
      assert i in v;
      var k :| k in v && SumInts(v) == v[k] + SumInts(v - {k});
      SumTakeOut(m, k);
      assert v - {k} == TokenView(m - {k});
      TokenViewSum(m - {k});
    }
  }

  // ---------------------------------------------------------------- the three operations, as functions

  datatype Charge = Minted(token: Token) | Refused(reason: Reason) | NotPositive

  ghost function Committed(s: Ledger): Amount { s.consumed.Plus(Sum(s.outstanding)) }

  /** `n` tokens at `rate` dollars each. */
  function Price(rate: real, n: int): (r: real)
    ensures rate >= 0.0 ==> r >= 0.0
    decreases n
  {
    if n <= 0 then 0.0 else rate + Price(rate, n - 1)
  }

  lemma {:induction false} PriceIsProduct(rate: real, n: nat)
    ensures Price(rate, n) == rate * n as real
  {
    if n > 0 {
      PriceIsProduct(rate, n - 1);
      assert n as real == (n - 1) as real + 1.0;
    }
  }

  function Cost(c: Config, requested: int): Amount {
    Amount(requested, Price(c.dollarsPerToken, requested))
  }

  ghost function Verdict(c: Config, s: Ledger, requested: int, id: string): Charge {
    if requested <= 0 then NotPositive
    else if requested > c.perCall then Refused(PerCallMax)
    else if Committed(s).tokens + requested > c.cap.tokens then Refused(WorkflowMaxTokens)
    else if Committed(s).dollars + Cost(c, requested).dollars > c.cap.dollars then Refused(WorkflowMaxDollars)
    else Minted(Token(id, Cost(c, requested)))
  }

  /** The events that one call appends to the log: none for a rejected argument, one otherwise. */
  ghost function ChargeEvents(v: Charge): (r: seq<Event>)
    ensures |r| <= 1
  {
    match v
    case NotPositive => []
    case Refused(reason) => [CapExceeded(reason)]
    case Minted(t) => [Precharged(t.id, t.precharged)]
  }

  datatype Settlement = Settled | Duplicate | Unknown | NegativeActual

  function Settle(s: Ledger, id: string, actual: Amount): Settlement {
    if !actual.NonNegative() then NegativeActual
    else if id in s.outstanding then Settled
    else if id in s.reconciled then Duplicate
    else Unknown
  }

  function SettleEvents(v: Settlement, id: string, actual: Amount): (r: seq<Event>)
    ensures |r| <= 1
  {
    match v
    case NegativeActual => []
    case Settled => [Reconciled(id, actual)]
    case Duplicate => [ReconciledDuplicate(id)]
    case Unknown => [UnknownTokenReconcile(id)]
  }

  /** What one logged event says happened to the ledger. */
  function Absorb(s: Ledger, e: Event): Ledger {
    match e
    case Precharged(id, amount) => s.(outstanding := s.outstanding[id := Token(id, amount)])
    case Reconciled(id, actual) =>
      Ledger(s.consumed.Plus(actual), s.outstanding - {id}, s.reconciled + {id})
    case _ => s
  }

  /** The ledger that the log alone tells of. */
  function Replay(log: seq<Event>): Ledger {
    if log == [] then EMPTY else Absorb(Replay(log[..|log| - 1]), log[|log| - 1])
  }

  lemma ReplayAppend(log: seq<Event>, e: Event)
    ensures Replay(log + [e]) == Absorb(Replay(log), e)
  {
    assert (log + [e])[..|log|] == log;
  }

  // ---------------------------------------------------------------- whole runs

  datatype Call =
    | PrechargeCall(requested: int, id: string)
    | ReconcileCall(token: Token, actual: Amount)

  /** The log after one more call. Every state of the guard is `Replay` of such a log. */
  ghost function Step(c: Config, log: seq<Event>, call: Call): seq<Event> {
    match call
    case PrechargeCall(requested, id) => log + ChargeEvents(Verdict(c, Replay(log), requested, id))
    case ReconcileCall(token, actual) =>
      log + SettleEvents(Settle(Replay(log), token.id, actual), token.id, actual)
  }

  ghost function Run(c: Config, calls: seq<Call>): seq<Event> {
    if calls == [] then [] else Step(c, Run(c, calls[..|calls| - 1]), calls[|calls| - 1])
  }

  /** Ids minted by the log so far. */
  ghost function MintedIds(log: seq<Event>): set<string> {
    set e | e in log && e.Precharged? :: e.id
  }

  ghost function SettledIds(log: seq<Event>): set<string> {
    set e | e in log && e.Reconciled? :: e.id
  }

  /** The random ids are fresh: no precharge call draws an id that was minted before. */
  ghost predicate FreshIds(c: Config, calls: seq<Call>) {
    forall k :: 0 <= k < |calls| ==> FreshCall(c, calls, k)
  }

  ghost predicate FreshCall(c: Config, calls: seq<Call>, k: nat)
    requires k < |calls|
  {
    calls[k].PrechargeCall? ==> calls[k].id !in MintedIds(Run(c, calls[..k]))
  }

  /** What the log charged `id` up front. */
  ghost function ChargedFor(log: seq<Event>, id: string): Amount {
    if log == [] then ZERO
    else
      var e := log[|log| - 1];
      if e.Precharged? && e.id == id then e.amount else ChargedFor(log[..|log| - 1], id)
  }

  /** Total by which settlements in the log exceeded their precharges. */
  ghost function Overrun(log: seq<Event>): Amount {
    if log == [] then ZERO
    else
      var rest := log[..|log| - 1];
      var e := log[|log| - 1];
      if e.Reconciled? then Overrun(rest).Plus(e.actual.Excess(ChargedFor(rest, e.id))) else Overrun(rest)
  }

  /** Sum of the actuals of the settlements in the log. */
  ghost function Spent(log: seq<Event>): Amount {
    if log == [] then ZERO
    else
      var rest := Spent(log[..|log| - 1]);
      var e := log[|log| - 1];
      if e.Reconciled? then rest.Plus(e.actual) else rest
  }

  /** What holds of every log the guard can write. */
  ghost predicate Sound(c: Config, log: seq<Event>) {
    Accounted(c, log) && Partitioned(log) && OncePerId(log)
  }

  ghost predicate Accounted(c: Config, log: seq<Event>) {
    var s := Replay(log);
    && Committed(s).Within(c.cap.Plus(Overrun(log)))
    && Overrun(log).NonNegative() && s.consumed.NonNegative()
    && s.consumed == Spent(log)
  }

  /** Every minted id is in exactly one of outstanding and reconciled, with what it was charged. */
  ghost predicate Partitioned(log: seq<Event>) {
    var s := Replay(log);
    && MintedIds(log) == s.outstanding.Keys + s.reconciled && s.outstanding.Keys !! s.reconciled
    && SettledIds(log) == s.reconciled
    && forall id :: id in s.outstanding ==>
         s.outstanding[id] == Token(id, ChargedFor(log, id)) && ChargedFor(log, id).NonNegative()
  }

  /** Every event came when it could: see `Timely`. */
  ghost predicate OncePerId(log: seq<Event>) {
    forall j :: 0 <= j < |log| ==> Timely(log[..j], log[j])
  }

  /** `e` may follow `log`: ids are minted once, a settlement follows the minting of its id and happens once,
      a duplicate follows the settlement, and an unknown id was never minted. */
  ghost predicate Timely(log: seq<Event>, e: Event) {
    && (e.Precharged? ==> e.id !in MintedIds(log))
    && (e.Reconciled? ==> e.id in MintedIds(log) && e.id !in SettledIds(log))
    && (e.ReconciledDuplicate? ==> e.id in SettledIds(log))
    && (e.UnknownTokenReconcile? ==> e.id !in MintedIds(log))
  }

  lemma IdsAppend(log: seq<Event>, e: Event)
    ensures MintedIds(log + [e]) == MintedIds(log) + (if e.Precharged? then {e.id} else {})
    ensures SettledIds(log + [e]) == SettledIds(log) + (if e.Reconciled? then {e.id} else {})
  {
    var log' := log + [e];
    assert forall x :: x in log' <==> x in log || x == e;
  }

  lemma OnceAppend(log: seq<Event>, e: Event)
    requires OncePerId(log) && Timely(log, e)
    ensures OncePerId(log + [e])
  {
    var log' := log + [e];
    forall j | 0 <= j < |log'| ensures Timely(log'[..j], log'[j]) {
      assert log'[..j] == log[..j];
      assert log[..|log|] == log;
    }
  }

  lemma PartitionAppend(log: seq<Event>, e: Event)
    requires Partitioned(log) && Timely(log, e) && (e.Precharged? ==> e.amount.NonNegative())
    ensures Partitioned(log + [e])
  {
    hide Replay, MintedIds, SettledIds, ChargedFor;
    ReplayAppend(log, e);
    IdsAppend(log, e);
    forall id
      ensures ChargedFor(log + [e], id) == if e.Precharged? && e.id == id then e.amount else ChargedFor(log, id) {
      ChargedAppend(log, e, id);
    }
  }

  lemma ChargedAppend(log: seq<Event>, e: Event, id: string)
    ensures ChargedFor(log + [e], id) == if e.Precharged? && e.id == id then e.amount else ChargedFor(log, id)
  {
    assert (log + [e])[..|log|] == log;
  }

  lemma AccountMint(c: Config, log: seq<Event>, id: string, amount: Amount)
    requires Accounted(c, log) && id !in Replay(log).outstanding && Committed(Replay(log)).Plus(amount).Within(c.cap)
    ensures Accounted(c, log + [Precharged(id, amount)])
  {
    var log' := log + [Precharged(id, amount)];
    var s := Replay(log);
    ReplayAppend(log, Precharged(id, amount));
    assert log'[..|log|] == log;
    assert Overrun(log') == Overrun(log) && Spent(log') == Spent(log);
    SumPutIn(s.outstanding, id, Token(id, amount));
    PlusSwap(s.consumed, amount, Sum(s.outstanding));
    assert Committed(Replay(log')) == Committed(s).Plus(amount);
  }

  lemma AccountSettlement(c: Config, log: seq<Event>, id: string, actual: Amount)
    requires Accounted(c, log) && actual.NonNegative()
    requires id in Replay(log).outstanding && Replay(log).outstanding[id].precharged == ChargedFor(log, id)
    ensures Accounted(c, log + [Reconciled(id, actual)])
  {
    hide Sum, Replay, ChargedFor;
    var log' := log + [Reconciled(id, actual)];
    ReplayAppend(log, Reconciled(id, actual));
    assert log'[..|log|] == log;
    SumTakeOut(Replay(log).outstanding, id);
  }

  lemma AccountOther(c: Config, log: seq<Event>, e: Event)
    requires Accounted(c, log) && !e.Precharged? && !e.Reconciled?
    ensures Accounted(c, log + [e])
  {
    ReplayAppend(log, e);
    assert (log + [e])[..|log|] == log;
  }

  /** The guard may append `e`: it is timely, a charge fits under the cap, a settlement is of an open token. */
  ghost predicate Admissible(c: Config, log: seq<Event>, e: Event) {
    && Timely(log, e)
    && (e.Precharged? ==> e.amount.NonNegative() && Committed(Replay(log)).Plus(e.amount).Within(c.cap))
    && (e.Reconciled? ==> e.actual.NonNegative() && e.id in Replay(log).outstanding)
  }

  lemma AppendKeepsSound(c: Config, log: seq<Event>, e: Event)
    requires Sound(c, log) && Admissible(c, log, e)
    ensures Sound(c, log + [e])
  {
    OnceAppend(log, e);
    PartitionAppend(log, e);
    match e
    case Precharged(id, amount) => AccountMint(c, log, id, amount);
    case Reconciled(id, actual) => AccountSettlement(c, log, id, actual);
    case _ => AccountOther(c, log, e);
  }

  lemma ChargeAdmissible(c: Config, log: seq<Event>, requested: int, id: string)
    requires c.Valid() && id !in MintedIds(log)
    ensures var es := ChargeEvents(Verdict(c, Replay(log), requested, id));
            es == [] || Admissible(c, log, es[0])
  {
  }

  lemma SettlementAdmissible(c: Config, log: seq<Event>, id: string, actual: Amount)
    requires Partitioned(log)
    ensures var es := SettleEvents(Settle(Replay(log), id, actual), id, actual);
            es == [] || Admissible(c, log, es[0])
  {
  }

  lemma SoundPartitioned(c: Config, log: seq<Event>)
    requires Sound(c, log)
    ensures Partitioned(log)
  {
    hide Accounted, Partitioned, OncePerId;
  }

  lemma PrechargeKeepsSound(c: Config, log: seq<Event>, requested: int, id: string)
    requires c.Valid() && Sound(c, log) && id !in MintedIds(log)
    ensures Sound(c, log + ChargeEvents(Verdict(c, Replay(log), requested, id)))
  {
    hide Sound, Admissible, Verdict, ChargeEvents, Replay;
    ChargeAdmissible(c, log, requested, id);
    var es := ChargeEvents(Verdict(c, Replay(log), requested, id));
    if es == [] {
      assert log + es == log;
    } else {
      assert es == [es[0]];
      AppendKeepsSound(c, log, es[0]);
    }
  }

  lemma {:induction false} ReconcileKeepsSound(c: Config, log: seq<Event>, id: string, actual: Amount)
    requires Sound(c, log)
    ensures Sound(c, log + SettleEvents(Settle(Replay(log), id, actual), id, actual))
  {
    hide Sound, Admissible, Settle, Partitioned, SettleEvents, Replay;
    SoundPartitioned(c, log);
    SettlementAdmissible(c, log, id, actual);
    var es := SettleEvents(Settle(Replay(log), id, actual), id, actual);
    if es == [] {
      assert log + es == log;
    } else {
      assert es == [es[0]];
      AppendKeepsSound(c, log, es[0]);
    }
  }

  lemma EmptyIsAccounted(c: Config)
    requires c.Valid()
    ensures Accounted(c, [])
  {
    hide Committed, Replay;
    EmptySums();
    NothingCommitted();
    ZeroIsNeutral(c.cap);
    assert Overrun([]) == ZERO && Spent([]) == ZERO;
  }

  lemma EmptyIsPartitioned()
    ensures Partitioned([]) && OncePerId([])
  {
    hide Replay, ChargedFor;
    EmptySums();
    assert MintedIds([]) == {} && SettledIds([]) == {};
  }

  lemma EmptyIsSound(c: Config)
    requires c.Valid()
    ensures Sound(c, [])
  {
    hide Accounted, Partitioned, OncePerId;
    EmptyIsAccounted(c);
    EmptyIsPartitioned();
  }

  lemma StepKeepsSound(c: Config, log: seq<Event>, call: Call)
    requires c.Valid() && Sound(c, log) && (call.PrechargeCall? ==> call.id !in MintedIds(log))
    ensures Sound(c, Step(c, log, call))
  {
    hide Sound, MintedIds, Replay, Verdict, Settle, ChargeEvents, SettleEvents;
    match call
    case PrechargeCall(requested, id) => PrechargeKeepsSound(c, log, requested, id);
    case ReconcileCall(token, actual) => ReconcileKeepsSound(c, log, token.id, actual);
  }

  /** Every log of every run with fresh ids is sound. */
  lemma {:induction false} RunsAreSound(c: Config, calls: seq<Call>)
    requires c.Valid() && FreshIds(c, calls)
    ensures Sound(c, Run(c, calls))
    decreases |calls|
  {
    hide Sound, MintedIds, Step;
    if calls == [] {
      EmptyIsSound(c);
    } else {
      var before := calls[..|calls| - 1];
      forall k | 0 <= k < |before| ensures FreshCall(c, before, k) {
        assert FreshCall(c, calls, k) && before[..k] == calls[..k];
      }
      RunsAreSound(c, before);
      assert FreshCall(c, calls, |before|);
      StepKeepsSound(c, Run(c, before), calls[|before|]);
    }
  }

  lemma RunsAreAccounted(c: Config, calls: seq<Call>)
    requires c.Valid() && FreshIds(c, calls)
    ensures Accounted(c, Run(c, calls))
  {
    RunsAreSound(c, calls);
  }

  lemma RunsHoldNoDebt(c: Config, calls: seq<Call>)
    requires c.Valid() && FreshIds(c, calls)
    ensures Sum(Replay(Run(c, calls)).outstanding).NonNegative()
  {
    RunsAreSound(c, calls);
    SumNonNegative(Replay(Run(c, calls)).outstanding);
  }

  /** Over every run and under any replays, each minted id is settled at most once, and what was consumed is the
      sum of those settlements; an id is either still reserved or settled, never both. */
  lemma {:induction false} TokensSettleOnce(c: Config, calls: seq<Call>)
    requires c.Valid() && FreshIds(c, calls)
    ensures var log := Run(c, calls);
            && (forall i, j :: 0 <= i < j < |log| && log[i].Reconciled? && log[j].Reconciled? ==>
                log[i].id != log[j].id)
            && Replay(log).consumed == Spent(log)
            && MintedIds(log) == Replay(log).outstanding.Keys + SettledIds(log)
            && Replay(log).outstanding.Keys !! SettledIds(log)
  {
    RunsAreSound(c, calls);
    var log := Run(c, calls);
    forall i, j | 0 <= i < j < |log| && log[i].Reconciled? && log[j].Reconciled?
      ensures log[i].id != log[j].id
    {
      assert Timely(log[..j], log[j]);
      assert log[..j][i] == log[i];
    }
  }

  /** Call `k` reports the usage of a token minted before it. */
  ghost predicate Settling(c: Config, calls: seq<Call>, k: nat, id: string)
    requires k < |calls|
  {
    var call := calls[k];
    call.ReconcileCall? && call.token.id == id && call.actual.NonNegative() && id in MintedIds(Run(c, calls[..k]))
  }

  ghost predicate EverSettling(c: Config, calls: seq<Call>, id: string) {
    exists k :: 0 <= k < |calls| && Settling(c, calls, k, id)
  }

  /** The calls' own account: per id, the actual of the first call that reports it after its minting. */
  ghost function FirstActuals(c: Config, calls: seq<Call>): Amount {
    if calls == [] then ZERO
    else
      var n := |calls| - 1;
      var rest := FirstActuals(c, calls[..n]);
      var call := calls[n];
      if call.ReconcileCall? && Settling(c, calls, n, call.token.id) && !EverSettling(c, calls[..n], call.token.id)
      then rest.Plus(call.actual) else rest
  }

  /** The call pays: it reports a minted token that is not settled yet. */
  ghost predicate Pays(log: seq<Event>, call: Call) {
    && call.ReconcileCall? && call.actual.NonNegative()
    && call.token.id in MintedIds(log) && call.token.id !in SettledIds(log)
  }

  lemma SpentAppend(log: seq<Event>, e: Event)
    ensures Spent(log + [e]) == if e.Reconciled? then Spent(log).Plus(e.actual) else Spent(log)
  {
    assert (log + [e])[..|log|] == log;
  }

  lemma StepPays(c: Config, log: seq<Event>, call: Call)
    requires Partitioned(log)
    ensures SettledIds(Step(c, log, call)) == SettledIds(log) + (if Pays(log, call) then {call.token.id} else {})
    ensures Spent(Step(c, log, call)) == if Pays(log, call) then Spent(log).Plus(call.actual) else Spent(log)
  {
    hide Replay, Spent, MintedIds, SettledIds, Verdict;
    match call
    case PrechargeCall(requested, id) =>
      EventsKeepSettled(log, ChargeEvents(Verdict(c, Replay(log), requested, id)));
    case ReconcileCall(token, actual) =>
      var v := Settle(Replay(log), token.id, actual);
      if v == Settled {
        IdsAppend(log, Reconciled(token.id, actual));
        SpentAppend(log, Reconciled(token.id, actual));
      } else {
        EventsKeepSettled(log, SettleEvents(v, token.id, actual));
      }
  }

  lemma EventsKeepSettled(log: seq<Event>, es: seq<Event>)
    requires |es| <= 1 && forall i :: 0 <= i < |es| ==> !es[i].Reconciled?
    ensures SettledIds(log + es) == SettledIds(log) && Spent(log + es) == Spent(log)
  {
    hide Spent, MintedIds, SettledIds;
    if es == [] {
      assert log + es == log;
    } else {
      assert es == [es[0]];
      IdsAppend(log, es[0]);
      SpentAppend(log, es[0]);
    }
  }

  lemma EverSplits(c: Config, calls: seq<Call>, id: string)
    requires calls != []
    ensures EverSettling(c, calls, id) <==>
            EverSettling(c, calls[..|calls| - 1], id) || Settling(c, calls, |calls| - 1, id)
  {
    hide Run, MintedIds;
    var before := calls[..|calls| - 1];
    forall k | 0 <= k < |before| ensures Settling(c, before, k, id) <==> Settling(c, calls, k, id) {
      assert before[..k] == calls[..k];
    }
  }

  lemma FreshBefore(c: Config, calls: seq<Call>)
    requires FreshIds(c, calls) && calls != []
    ensures FreshIds(c, calls[..|calls| - 1])
  {
    hide Run, MintedIds;
    var before := calls[..|calls| - 1];
    forall k | 0 <= k < |before| ensures FreshCall(c, before, k) {
      assert FreshCall(c, calls, k) && before[..k] == calls[..k];
    }
  }

  /** In the log an id is settled exactly when some call reported it after its minting. */
  lemma {:induction false} SettledWhenReported(c: Config, calls: seq<Call>, id: string)
    requires c.Valid() && FreshIds(c, calls)
    ensures id in SettledIds(Run(c, calls)) <==> EverSettling(c, calls, id)
    decreases |calls|
  {
    hide FreshIds, Step, MintedIds, SettledIds, Partitioned, EverSettling;
    if calls == [] {
      NothingSettled(c, id);
    } else {
      var n := |calls| - 1;
      var log := Run(c, calls[..n]);
      FreshBefore(c, calls);
      SettledWhenReported(c, calls[..n], id);
      RunsAreSound(c, calls[..n]);
      SoundPartitioned(c, log);
      StepPays(c, log, calls[n]);
      EverSplits(c, calls, id);
    }
  }

  lemma NothingSettled(c: Config, id: string)
    ensures id !in SettledIds(Run(c, [])) && !EverSettling(c, [], id)
  {
  }

  /** Over every run and under any replays, what was consumed is what the first reports after each minting add up
      to: later reports of the same id, and reports of ids never minted, count for nothing. */
  lemma {:induction false} FirstReportsCount(c: Config, calls: seq<Call>)
    requires c.Valid() && FreshIds(c, calls)
    ensures Replay(Run(c, calls)).consumed == FirstActuals(c, calls)
    decreases |calls|
  {
    hide FreshIds, Replay, Run;
    RunsAreAccounted(c, calls);
    FirstReportsSpend(c, calls);
  }

  lemma {:induction false} FirstReportsSpend(c: Config, calls: seq<Call>)
    requires c.Valid() && FreshIds(c, calls)
    ensures Spent(Run(c, calls)) == FirstActuals(c, calls)
    decreases |calls|
  {
    hide FreshIds, Step, MintedIds, SettledIds, Partitioned, EverSettling;
    if calls != [] {
      var n := |calls| - 1;
      var log := Run(c, calls[..n]);
      FreshBefore(c, calls);
      FirstReportsSpend(c, calls[..n]);
      RunsAreSound(c, calls[..n]);
      SoundPartitioned(c, log);
      StepPays(c, log, calls[n]);
      if calls[n].ReconcileCall? {
        SettledWhenReported(c, calls[..n], calls[n].token.id);
      }
    }
  }

  // ---------------------------------------------------------------- conservation

  /** No settlement in the log exceeds what its id was charged up front. */
  ghost predicate NoOverrun(log: seq<Event>) {
    forall j {:trigger log[..j]} :: 0 <= j < |log| ==> SettledWithin(log[..j], log[j])
  }

  ghost predicate SettledWithin(log: seq<Event>, e: Event) {
    e.Reconciled? ==> e.actual.Within(ChargedFor(log, e.id))
  }

  lemma {:induction false} NoOverrunIsZero(log: seq<Event>)
    requires NoOverrun(log)
    ensures Overrun(log) == ZERO
  {
    if log != [] {
      var rest := log[..|log| - 1];
      forall j {:trigger rest[..j]} | 0 <= j < |rest| ensures SettledWithin(rest[..j], rest[j]) {
        assert rest[..j] == log[..j];
      }
      assert SettledWithin(rest, log[|log| - 1]);
      NoOverrunIsZero(rest);
    }
  }

  /** A refused precharge, a duplicate, an unknown token and a bad argument leave the ledger as it was. */
  lemma OnlyMintsAndSettlementsCount(c: Config, log: seq<Event>, call: Call)
    requires call.PrechargeCall? ==> !Verdict(c, Replay(log), call.requested, call.id).Minted?
    requires call.ReconcileCall? ==> Settle(Replay(log), call.token.id, call.actual) != Settled
    ensures Replay(Step(c, log, call)) == Replay(log)
  {
    var log' := Step(c, log, call);
    if |log'| == |log| {
      assert log' == log;
    } else {
      ReplayAppend(log, log'[|log|]);
      assert log' == log + [log'[|log|]];
    }
  }

  /** A settlement keeps the cap exactly when it overruns its precharge by no more than what remained. */
  lemma SettlementKeepsCap(c: Config, s: Ledger, id: string, actual: Amount)
    requires id in s.outstanding
    ensures Committed(Absorb(s, Reconciled(id, actual))).Within(c.cap) <==>
            actual.Minus(s.outstanding[id].precharged).Within(c.cap.Minus(Committed(s)))
  {
    SumTakeOut(s.outstanding, id);
  }

  /** The overrun is real: one call that cost more than it reserved leaves the guard unable to report. */
  lemma OverrunBreaksSnapshot()
    ensures var c := Config(Amount(10, 1.0), 10, 0.0);
            var t := Token("a", Amount(10, 0.0));
            var calls := [PrechargeCall(10, "a"), ReconcileCall(t, Amount(11, 0.0))];
            FreshIds(c, calls) && RunningTotal(c, Replay(Run(c, calls))).None?
  {
    hide Sum, SumInts, Replay, Price, Step, RunningTotal, MintedIds, Verdict;
    var c := Config(Amount(10, 1.0), 10, 0.0);
    var t := Token("a", Amount(10, 0.0));
    var calls := [PrechargeCall(10, "a"), ReconcileCall(t, Amount(11, 0.0))];
    assert calls[..1][..0] == [] && calls[..0] == [] && Run(c, []) == [];
    var log1: seq<Event> := [Precharged("a", Amount(10, 0.0))];
    var log2 := log1 + [Reconciled("a", Amount(11, 0.0))];
    OverrunSteps(c, t, log1, log2);
    assert Run(c, calls[..1]) == Step(c, Run(c, calls[..1][..0]), calls[0]) == log1;
    assert Run(c, calls) == Step(c, Run(c, calls[..1]), calls[1]) == log2;
    assert FreshCall(c, calls, 0) && FreshCall(c, calls, 1);
  }

  lemma OverrunSteps(c: Config, t: Token, log1: seq<Event>, log2: seq<Event>)
    requires c == Config(Amount(10, 1.0), 10, 0.0) && t == Token("a", Amount(10, 0.0))
    requires log1 == [Precharged("a", Amount(10, 0.0))] && log2 == log1 + [Reconciled("a", Amount(11, 0.0))]
    ensures Step(c, [], PrechargeCall(10, "a")) == log1 && "a" !in MintedIds([])
    ensures Step(c, log1, ReconcileCall(t, Amount(11, 0.0))) == log2
    ensures RunningTotal(c, Replay(log2)).None?
  {
    hide Replay, Verdict, RunningTotal;
    EmptySums();
    FirstChargeFits(c, 10, "a");
    assert [] + log1 == log1;
    ReplayAppend([], log1[0]);
    ReplayAppend(log1, Reconciled("a", Amount(11, 0.0)));
    var s1 := Ledger(ZERO, map["a" := t], {});
    assert Replay(log1) == s1;
    assert s1.outstanding - {"a"} == map[];
    assert s1.reconciled + {"a"} == {"a"};
    assert Replay(log2) == Ledger(Amount(11, 0.0), map[], {"a"});
    OverCapReport(c);
  }

  lemma FirstChargeFits(c: Config, n: int, id: string)
    requires 0 < n <= c.perCall && c.dollarsPerToken == 0.0 && Amount(n, 0.0).Within(c.cap)
    ensures Verdict(c, EMPTY, n, id) == Minted(Token(id, Amount(n, 0.0)))
  {
    hide Committed, Cost;
    NothingCommitted();
    FreeCost(c, n);
  }

  lemma NothingCommitted()
    ensures Committed(EMPTY) == ZERO
  {
    hide Sum, SumInts, Replay;
    EmptySums();
  }

  lemma FreeCost(c: Config, n: nat)
    requires c.dollarsPerToken == 0.0
    ensures Cost(c, n) == Amount(n, 0.0)
  {
    hide Price;
    Free(n);
  }

  lemma {:induction false} Free(n: nat)
    ensures Price(0.0, n) == 0.0
  {
    if n > 0 {
      Free(n - 1);
    }
  }

  lemma OverCapReport(c: Config)
    requires c == Config(Amount(10, 1.0), 10, 0.0)
    ensures RunningTotal(c, Ledger(Amount(11, 0.0), map[], {"a"})).None?
  {
    hide Sum, SumInts, Replay;
    EmptySums();
    assert TokenView(map[]) == map[];
  }

  lemma EmptySums()
    ensures Sum(map[]) == ZERO && SumInts(map[]) == 0 && Replay([]) == EMPTY
  {
  }

  // ---------------------------------------------------------------- the snapshot

  datatype Snapshot = Snapshot(
    consumed: Amount, cap: Amount, outstandingTokens: map<string, int>, outstandingDollars: real)
  {
    ghost function Remaining(): Amount {
      Amount(cap.tokens - consumed.tokens - SumInts(outstandingTokens),
        cap.dollars - consumed.dollars - outstandingDollars)
    }

    /** The checks its constructor makes; it refuses to exist otherwise. */
    ghost predicate Consistent() {
      && consumed.NonNegative() && cap.tokens >= 0 && outstandingDollars >= 0.0
      && consumed.tokens + SumInts(outstandingTokens) <= cap.tokens
      && consumed.dollars + outstandingDollars <= cap.dollars
    }
  }

  ghost function RunningTotal(c: Config, s: Ledger): Option<Snapshot> {
    var snap := Snapshot(s.consumed, c.cap, TokenView(s.outstanding), Sum(s.outstanding).dollars);
    TokenViewSum(s.outstanding);
    if snap.Consistent() then Some(snap) else None
  }

  lemma ReportExact(c: Config, s: Ledger)
    requires c.Valid() && s.consumed.NonNegative() && Sum(s.outstanding).NonNegative()
    ensures RunningTotal(c, s).Some? <==> Committed(s).Within(c.cap)
    ensures RunningTotal(c, s).Some? ==>
              && s.consumed.Plus(Sum(s.outstanding)).Plus(RunningTotal(c, s).value.Remaining()) == c.cap
              && RunningTotal(c, s).value.Remaining().NonNegative()
  {
    TokenViewSum(s.outstanding);
  }

  /** In every run the report constructs exactly when the commitments are within the cap, and then nothing is
      lost: consumed, outstanding and remaining add up to it. */
  lemma SnapshotExact(c: Config, calls: seq<Call>)
    requires c.Valid() && FreshIds(c, calls)
    ensures var s := Replay(Run(c, calls));
            && (RunningTotal(c, s).Some? <==> Committed(s).Within(c.cap))
            && (RunningTotal(c, s).Some? ==>
                  s.consumed.Plus(Sum(s.outstanding)).Plus(RunningTotal(c, s).value.Remaining()) == c.cap
                  && RunningTotal(c, s).value.Remaining().NonNegative())
  {
    RunsAreAccounted(c, calls);
    RunsHoldNoDebt(c, calls);
    ReportExact(c, Replay(Run(c, calls)));
  }

  /** Over every run: spending plus reservations stay within the cap plus what settlements overran. */
  lemma CapConserved(c: Config, calls: seq<Call>)
    requires c.Valid() && FreshIds(c, calls)
    ensures var log := Run(c, calls); Committed(Replay(log)).Within(c.cap.Plus(Overrun(log)))
  {
    RunsAreAccounted(c, calls);
  }

  /** Without overruns the cap itself holds and the report constructs. */
  lemma {:induction false} CapHolds(c: Config, calls: seq<Call>)
    requires c.Valid() && FreshIds(c, calls) && NoOverrun(Run(c, calls))
    ensures var s := Replay(Run(c, calls)); Committed(s).Within(c.cap) && RunningTotal(c, s).Some?
  {
    CapConserved(c, calls);
    NoOverrunIsZero(Run(c, calls));
    ZeroIsNeutral(c.cap);
    SnapshotExact(c, calls);
  }

  lemma ZeroIsNeutral(a: Amount)
    ensures a.Plus(ZERO) == a
  {
  }

  // ---------------------------------------------------------------- the guard object

  class LlmInvocationGuard {
    const config: Config
    var consumedTokens: int
    var consumedDollars: real
    var outstanding: map<string, Token>
    var reconciledIds: set<string>
    var eventLog: seq<Event>

    function View(): Ledger
      reads this
    {
      Ledger(Amount(consumedTokens, consumedDollars), outstanding, reconciledIds)
    }

    /** The object's fields are what its event log tells of. */
    ghost predicate Valid()
      reads this
    {
      config.Valid() && View() == Replay(eventLog)
    }

    constructor (config: Config)
      requires config.Valid()
      ensures Valid() && this.config == config && eventLog == []
      ensures consumedTokens == 0 && consumedDollars == 0.0 && outstanding == map[] && reconciledIds == {}
    {
      this.config := config;
      consumedTokens, consumedDollars := 0, 0.0;
      outstanding, reconciledIds, eventLog := map[], {}, [];
    }

    method OutstandingSum() returns (total: Amount)
      ensures total == Sum(outstanding)
    {
      total := ZERO;
      var left := outstanding;
      while left != map[]
        invariant total.Plus(Sum(left)) == Sum(outstanding)
        decreases |left|
      {
        var k :| k in left;
        SumTakeOut(left, k);
        total := total.Plus(left[k].precharged);
        left := left - {k};
      }
    }

    /** `freshId` is the random identifier the call would draw. */
    method Precharge(requested: int, freshId: string) returns (r: Charge)
      requires Valid()
      modifies this
      ensures Valid()
      ensures eventLog == Step(config, old(eventLog), PrechargeCall(requested, freshId))
      ensures r.NotPositive? <==> requested <= 0
      ensures r == Refused(PerCallMax) <==> requested > 0 && requested > config.perCall
      ensures r == Refused(WorkflowMaxTokens) <==>
              0 < requested <= config.perCall &&
              old(consumedTokens + Sum(outstanding).tokens) + requested > config.cap.tokens
      ensures r == Refused(WorkflowMaxDollars) <==>
              0 < requested <= config.perCall &&
              old(consumedTokens + Sum(outstanding).tokens) + requested <= config.cap.tokens &&
              old(consumedDollars + Sum(outstanding).dollars) + config.dollarsPerToken * requested as real
                > config.cap.dollars
      ensures r.Minted? <==>
              0 < requested <= config.perCall &&
              old(consumedTokens + Sum(outstanding).tokens) + requested <= config.cap.tokens &&
              old(consumedDollars + Sum(outstanding).dollars) + config.dollarsPerToken * requested as real
                <= config.cap.dollars
      ensures r.Minted? ==>
                && r.token == Token(freshId, Amount(requested, config.dollarsPerToken * requested as real))
                && outstanding == old(outstanding)[freshId := r.token]
                && eventLog == old(eventLog) + [Precharged(freshId, r.token.precharged)]
      ensures r.Refused? ==> eventLog == old(eventLog) + [CapExceeded(r.reason)]
      ensures r.NotPositive? ==> eventLog == old(eventLog)
      ensures !r.Minted? ==> outstanding == old(outstanding)
      ensures consumedTokens == old(consumedTokens) && consumedDollars == old(consumedDollars)
      ensures reconciledIds == old(reconciledIds)
    {
      hide Replay, Sum, Price;
      if requested > 0 {
        PriceIsProduct(config.dollarsPerToken, requested);
      }
      if requested <= 0 {
        assert eventLog + [] == eventLog;
        return NotPositive;
      }
      var sum := OutstandingSum();
      if requested > config.perCall {
        Emit(CapExceeded(PerCallMax));
        return Refused(PerCallMax);
      }
      if consumedTokens + sum.tokens + requested > config.cap.tokens {
        Emit(CapExceeded(WorkflowMaxTokens));
        return Refused(WorkflowMaxTokens);
      }
      var dollars := Price(config.dollarsPerToken, requested);
      if consumedDollars + sum.dollars + dollars > config.cap.dollars {
        Emit(CapExceeded(WorkflowMaxDollars));
        return Refused(WorkflowMaxDollars);
      }
      var token := Token(freshId, Amount(requested, dollars));
      ReplayAppend(eventLog, Precharged(freshId, token.precharged));
      outstanding := outstanding[freshId := token];
      eventLog := eventLog + [Precharged(freshId, token.precharged)];
      return Minted(token);
    }

    method Emit(e: Event)
      requires Valid() && !e.Precharged? && !e.Reconciled?
      modifies `eventLog
      ensures Valid() && eventLog == old(eventLog) + [e]
    {
      ReplayAppend(eventLog, e);
      eventLog := eventLog + [e];
    }

    method Reconcile(token: Token, actualIn: int, actualOut: int, actualDollars: real) returns (r: Settlement)
      requires Valid()
      modifies this
      ensures Valid()
      ensures actualIn >= 0 && actualOut >= 0 ==>
                var actual := Amount(actualIn + actualOut, actualDollars);
                eventLog == Step(config, old(eventLog), ReconcileCall(token, actual))
      ensures r == NegativeActual <==> actualIn < 0 || actualOut < 0 || actualDollars < 0.0
      ensures r != NegativeActual ==>
                && (r == Settled <==> token.id in old(outstanding))
                && (r == Duplicate <==> token.id !in old(outstanding) && token.id in old(reconciledIds))
                && (r == Unknown <==> token.id !in old(outstanding) && token.id !in old(reconciledIds))
      ensures r == Settled ==>
                && consumedTokens == old(consumedTokens) + actualIn + actualOut
                && consumedDollars == old(consumedDollars) + actualDollars
                && outstanding == old(outstanding) - {token.id} && reconciledIds == old(reconciledIds) + {token.id}
                && eventLog == old(eventLog) + [Reconciled(token.id, Amount(actualIn + actualOut, actualDollars))]
      ensures r == Duplicate ==> eventLog == old(eventLog) + [ReconciledDuplicate(token.id)]
      ensures r == Unknown ==> eventLog == old(eventLog) + [UnknownTokenReconcile(token.id)]
      ensures r == NegativeActual ==> eventLog == old(eventLog)
      ensures r != Settled ==> View() == old(View())
    {
      hide Replay;
      if actualIn < 0 || actualOut < 0 || actualDollars < 0.0 {
        assert eventLog + [] == eventLog;
        return NegativeActual;
      }
      var id := token.id;
      if id in outstanding {
        var actual := Amount(actualIn + actualOut, actualDollars);
        ReplayAppend(eventLog, Reconciled(id, actual));
        outstanding := outstanding - {id};
        consumedTokens := consumedTokens + (actualIn + actualOut);
        consumedDollars := consumedDollars + actualDollars;
        reconciledIds := reconciledIds + {id};
        eventLog := eventLog + [Reconciled(id, actual)];
        return Settled;
      }
      if id in reconciledIds {
        Emit(ReconciledDuplicate(id));
        return Duplicate;
      }
      Emit(UnknownTokenReconcile(id));
      return Unknown;
    }

    method Report() returns (r: Option<Snapshot>)
      ensures r == RunningTotal(config, View())
      ensures r.Some? <==>
              && consumedTokens >= 0 && consumedDollars >= 0.0
              && config.cap.tokens >= 0 && Sum(outstanding).dollars >= 0.0
              && consumedTokens + Sum(outstanding).tokens <= config.cap.tokens
              && consumedDollars + Sum(outstanding).dollars <= config.cap.dollars
      ensures r.Some? ==>
                && r.value.consumed == Amount(consumedTokens, consumedDollars) && r.value.cap == config.cap
                && r.value.outstandingTokens == (map id | id in outstanding :: outstanding[id].precharged.tokens)
                && r.value.outstandingDollars == Sum(outstanding).dollars
    {
      var sum := OutstandingSum();
      TokenViewSum(outstanding);
      if consumedTokens < 0 || config.cap.tokens < 0 || consumedDollars < 0.0 || sum.dollars < 0.0 {
        return None;
      }
      if consumedTokens + sum.tokens > config.cap.tokens || consumedDollars + sum.dollars > config.cap.dollars {
        return None;
      }
      r := Some(Snapshot(Amount(consumedTokens, consumedDollars), config.cap, TokenView(outstanding), sum.dollars));
    }
  }
}
