/** The probe gather: which probes run when, against which snapshot, and what each one ends as. */
module Gather {
  import opened Wrappers
  import opened JsonTree
  import opened Scrubber
  import opened Store
  import FJ = ForkJoin

  /** The detected languages of a snapshot, the only part of it that changes during a gather. */
  type Counts = map<string, int>

  /** How a probe's `run` ends; `rejection` is the validator's complaint about what it produced. */
  datatype Outcome =
    | Produced(output: Output, rejection: Option<string>)
    | TimedOut(seconds: string)
    | OverBudget(message: string)
    | Crashed(kind: string, message: string)

  /** `key` is what `key_for` derives from name, version, schema and files; it does not look at the languages. `run` is
      how the probe ends when left alone, `disturbed` how it ends when kills hit its children, each told by the point
      of its run at which it came. */
  datatype Probe = Probe(
    name: string, version: string, base: bool, key: string, applies: Counts -> bool, run: Counts -> Outcome,
    disturbed: (Counts, seq<nat>) -> Outcome)

  function OutcomeOf(p: Probe, counts: Counts, hits: seq<nat>): Outcome {
    if hits == [] then p.run(counts) else p.disturbed(counts, hits)
  }

  datatype Env = Env(
    probes: seq<Probe>, runsLast: set<string>, cpu: int, maxConcurrent: int, ttlHours: int, detected: Counts,
    root: RepoRoot)

  datatype Execution = Ran(output: Output, key: string) | CacheHit(output: Output, key: string) | Skipped

  type Cache = map<string, Stored>

  // ---------------------------------------------------------------- the three buckets

  function Keep(ps: seq<Probe>, wanted: Probe -> bool): seq<Probe> {
    if ps == [] then []
    else Keep(ps[..|ps| - 1], wanted) + if wanted(ps[|ps| - 1]) then [ps[|ps| - 1]] else []
  }

  predicate InBase(env: Env, p: Probe) { p.base && p.name !in env.runsLast }

  predicate InRest(env: Env, p: Probe) { !p.base && p.name !in env.runsLast }

  predicate InTail(env: Env, p: Probe) { p.name in env.runsLast }

  function Base(env: Env): seq<Probe> { Keep(env.probes, p => InBase(env, p)) }

  function Rest(env: Env): seq<Probe> { Keep(env.probes, p => InRest(env, p)) }

  function Tail(env: Env): seq<Probe> { Keep(env.probes, p => InTail(env, p)) }

  /** Dispatch order: the prelude, then the rest, then the runs-last probes one by one. */
  function Order(env: Env): seq<Probe> { Base(env) + Rest(env) + Tail(env) }

  /** Where in `ps` the kept probes stand. */
  function Places(ps: seq<Probe>, wanted: Probe -> bool): (r: seq<nat>)
    ensures forall k :: 0 <= k < |r| ==> r[k] < |ps|
  {
    if ps == [] then []
    else Places(ps[..|ps| - 1], wanted) + if wanted(ps[|ps| - 1]) then [|ps| - 1] else []
  }

  lemma {:induction false} KeptStand(ps: seq<Probe>, wanted: Probe -> bool)
    ensures |Keep(ps, wanted)| == |Places(ps, wanted)|
    ensures forall k :: 0 <= k < |Places(ps, wanted)| ==> Keep(ps, wanted)[k] == ps[Places(ps, wanted)[k]]
    decreases |ps|
  {
    if ps != [] {
      KeptStand(ps[..|ps| - 1], wanted);
    }
  }

  lemma {:induction false} PlacesComplete(ps: seq<Probe>, wanted: Probe -> bool, i: nat)
    requires i < |ps|
    ensures i in Places(ps, wanted) <==> wanted(ps[i])
    decreases |ps|
  {
    var n := |ps| - 1;
    var before, at := Places(ps[..n], wanted), Places(ps, wanted);
    if i < n {
      PlacesComplete(ps[..n], wanted, i);
      assert i in at <==> i in before;
    } else {
      assert n !in before;
      assert n in at <==> n in at[|before|..];
    }
  }

  lemma {:induction false} PlacesIncrease(ps: seq<Probe>, wanted: Probe -> bool)
    ensures forall k, l :: 0 <= k < l < |Places(ps, wanted)| ==> Places(ps, wanted)[k] < Places(ps, wanted)[l]
    decreases |ps|
  {
    if ps != [] {
      PlacesIncrease(ps[..|ps| - 1], wanted);
    }
  }

  /** A bucket holds exactly the probes that are wanted, in the order they were given. */
  lemma {:induction false} KeepInOrder(ps: seq<Probe>, wanted: Probe -> bool)
    ensures var at := Places(ps, wanted);
            && |Keep(ps, wanted)| == |at|
            && (forall k :: 0 <= k < |at| ==> Keep(ps, wanted)[k] == ps[at[k]])
            && (forall k, l :: 0 <= k < l < |at| ==> at[k] < at[l])
            && (forall i :: 0 <= i < |ps| ==> (i in at <==> wanted(ps[i])))
  {
    hide Keep, Places;
    KeptStand(ps, wanted);
    PlacesIncrease(ps, wanted);
    forall i | 0 <= i < |ps| ensures i in Places(ps, wanted) <==> wanted(ps[i]) {
      PlacesComplete(ps, wanted, i);
    }
  }

  lemma KeepTwo(a: Probe, b: Probe, wanted: Probe -> bool)
    ensures Keep([a, b], wanted) == (if wanted(a) then [a] else []) + (if wanted(b) then [b] else [])
  {
    assert [a, b][..1] == [a] && [a][..0] == [];
    assert Keep([a][..0], wanted) == [];
    assert Keep([a], wanted) == if wanted(a) then [a] else [];
  }

  /** Every probe lands in exactly one bucket. */
  lemma BucketsPartition(env: Env, i: nat)
    requires i < |env.probes|
    ensures var b := Places(env.probes, p => InBase(env, p));
            var r := Places(env.probes, p => InRest(env, p));
            var t := Places(env.probes, p => InTail(env, p));
            && (i in b <==> i !in r && i !in t)
            && (i in r <==> i !in b && i !in t)
            && (i in t <==> i !in b && i !in r)
    ensures |Order(env)| == |env.probes|
    ensures var p := env.probes[i];
            && (i in Places(env.probes, p => InTail(env, p)) <==> p.name in env.runsLast)
            && (i in Places(env.probes, p => InBase(env, p)) <==> p.base && p.name !in env.runsLast)
  {
    KeepInOrder(env.probes, p => InBase(env, p));
    KeepInOrder(env.probes, p => InRest(env, p));
    KeepInOrder(env.probes, p => InTail(env, p));
    BucketSizes(env, env.probes);
  }

  lemma {:induction false} BucketSizes(env: Env, ps: seq<Probe>)
    ensures |Keep(ps, p => InBase(env, p))| + |Keep(ps, p => InRest(env, p))| + |Keep(ps, p => InTail(env, p))| == |ps|
    decreases |ps|
  {
    if ps != [] {
      BucketSizes(env, ps[..|ps| - 1]);
    }
  }

  /** The order of dispatch: the prelude, the rest, the runs-last probes, each bucket in the order given. */
  lemma DispatchOrder(env: Env, k: nat)
    requires k < |Order(env)|
    ensures var b := Places(env.probes, p => InBase(env, p));
            var r := Places(env.probes, p => InRest(env, p));
            var t := Places(env.probes, p => InTail(env, p));
            && |Base(env)| == |b| && |Rest(env)| == |r| && |Tail(env)| == |t|
            && Order(env)[k] ==
               if k < |b| then env.probes[b[k]]
               else if k < |b| + |r| then env.probes[r[k - |b|]]
               else env.probes[t[k - |b| - |r|]]
  {
    KeepInOrder(env.probes, p => InBase(env, p));
    KeepInOrder(env.probes, p => InRest(env, p));
    KeepInOrder(env.probes, p => InTail(env, p));
  }

  // ---------------------------------------------------------------- language counts

  function Lookup(fields: seq<Field>, key: string): Option<Json> {
    if fields == [] then None
    else if fields[|fields| - 1].key == key then Some(fields[|fields| - 1].value)
    else Lookup(fields[..|fields| - 1], key)
  }

  predicate IsDigit(c: char) { '0' <= c <= '9' }

  /** Digits, with single underscores allowed between them. */
  function Digits(s: string): Option<int> {
    var n := |s| - 1;
    if s == "" || !IsDigit(s[n]) then None
    else if n == 0 then Some((s[n] - '0') as int)
    else
      match Digits(if s[n - 1] == '_' then s[..n - 1] else s[..n])
      case Some(front) => Some(10 * front + (s[n] - '0') as int)
      case None => None
  }

  predicate IsSpace(c: char) { c == ' ' || '\t' <= c <= '\r' }

  function Strip(s: string): string {
    if s == "" then ""
    else if IsSpace(s[0]) then Strip(s[1..])
    else if IsSpace(s[|s| - 1]) then Strip(s[..|s| - 1])
    else s
  }

  function ParseInt(s: string): Option<int> {
    var t := Strip(s);
    if t != "" && t[0] in "+-" then
      match Digits(t[1..])
      case Some(n) => Some(if t[0] == '-' then -n else n)
      case None => None
    else
      match Digits(t)
      case Some(n) => Some(n)
      case None => None
  }

  function PowerOfTwo(n: nat): (r: nat)
    ensures r > 0
  {
    if n == 0 then 1 else 2 * PowerOfTwo(n - 1)
  }

  function Truncated(x: Float): int {
    if x.exponent >= 0 then x.mantissa * PowerOfTwo(x.exponent)
    else if x.mantissa >= 0 then x.mantissa / PowerOfTwo(-x.exponent)
    else -(-x.mantissa / PowerOfTwo(-x.exponent))
  }

  /** Python's `int()`: fractions are cut off towards zero; `None` where it raises. */
  function IntOf(v: Json): Option<int> {
    match v
    case Num(n) => Some(n)
    case Bool(b) => Some(if b then 1 else 0)
    case Real(x) => Some(Truncated(x))
    case Str(s) => ParseInt(s)
    case _ => None
  }

  /** A count on which `int()` raises is read as zero. */
  function CountsOf(fields: seq<Field>): Counts {
    if fields == [] then map[]
    else
      var last := fields[|fields| - 1];
      CountsOf(fields[..|fields| - 1])[last.key := if IntOf(last.value).Some? then IntOf(last.value).value else 0]
  }

  /** The `language_stack.counts` of a slice, if it has any. */
  function LanguageCounts(slice: Json): Option<Counts> {
    if !slice.Obj? then None
    else
      match Lookup(slice.fields, "language_stack")
      case Some(Obj(stack)) =>
        (match Lookup(stack, "counts")
         case Some(Obj(counts)) => if counts == [] then None else Some(CountsOf(counts))
         case _ => None)
      case _ => None
  }

  /** What one prelude result adds: only a clean run adds anything, a cache hit does not. */
  function Contribution(exe: Execution): Counts {
    if exe.Ran? && exe.output.errors == [] then
      match LanguageCounts(exe.output.slice)
      case Some(counts) => counts
      case None => map[]
    else map[]
  }

  function Merged(exes: seq<Execution>): Counts {
    if exes == [] then map[] else Merged(exes[..|exes| - 1]) + Contribution(exes[|exes| - 1])
  }

  /** What `int()` makes of some values. */
  lemma IntExamples()
    ensures IntOf(Num(-3)) == Some(-3) && IntOf(Bool(true)) == Some(1) && IntOf(Bool(false)) == Some(0)
    ensures IntOf(Null) == None && IntOf(Arr([])) == None && IntOf(Obj([])) == None
    ensures IntOf(Real(Fraction(11, -2))) == Some(2) && IntOf(Real(Fraction(-11, -2))) == Some(-2)
    ensures IntOf(Real(Fraction(3, 2))) == Some(12)
  {
    assert PowerOfTwo(0) == 1 && PowerOfTwo(1) == 2 && PowerOfTwo(2) == 4;
  }

  lemma DigitsExamples()
    ensures Digits("") == None && Digits("_1") == None && Digits("1_") == None
    ensures Digits("7") == Some(7) && Digits("27") == Some(27) && Digits("2_7") == Some(27) && Digits("2__7") == None
  {
    assert "27"[..1] == "2" && "2_7"[..1] == "2" && "_1"[..0] == "" && "2__7"[..2] == "2_";
  }

  lemma CharactersSpelled(c: char)
    ensures Digits([c]) == if c in "0123456789" then Some(c as int - 48) else None
    ensures IsSpace(c) <==> c as int in {9, 10, 11, 12, 13, 32}
  {
  }

  lemma TextExamples()
    ensures IntOf(Str("")) == None && IntOf(Str("27")) == Some(27)
    ensures IntOf(Str("-27")) == Some(-27) && IntOf(Str("+27")) == Some(27) && IntOf(Str("x27")) == None
  {
    DigitsExamples();
    assert "-27"[1..] == "27" && "+27"[1..] == "27" && "x27"[..2] == "x2" && "x2"[..1] == "x";
    CharactersSpelled('x');
  }

  lemma SpaceExamples()
    ensures IntOf(Str(" 27\n")) == Some(27) && IntOf(Str("2 7")) == None
  {
    DigitsExamples();
    assert " 27\n"[1..] == "27\n" && "27\n"[..2] == "27" && "2 7"[..2] == "2 ";
  }

  ghost predicate DistinctFields(fields: seq<Field>) {
    forall i, j :: 0 <= i < j < |fields| ==> fields[i].key != fields[j].key
  }

  lemma {:induction false} LookupFinds(fields: seq<Field>, key: string)
    requires DistinctFields(fields)
    ensures forall v :: Lookup(fields, key) == Some(v) <==> Field(key, v) in fields
    decreases |fields|
  {
    if fields != [] {
      var n := |fields| - 1;
      LookupFinds(fields[..n], key);
      assert fields == fields[..n] + [fields[n]];
    }
  }

  lemma {:induction false} CountsAreRead(fields: seq<Field>)
    requires DistinctFields(fields)
    ensures forall key :: key in CountsOf(fields) <==> exists v :: Field(key, v) in fields
    ensures forall key, v :: Field(key, v) in fields ==>
              CountsOf(fields)[key] == if IntOf(v).Some? then IntOf(v).value else 0
    decreases |fields|
  {
    hide IntOf;
    if fields != [] {
      var n := |fields| - 1;
      CountsAreRead(fields[..n]);
      assert fields == fields[..n] + [fields[n]];
      assert fields[n] in fields && fields[n] == Field(fields[n].key, fields[n].value);
    }
  }

  /** A slice reports languages exactly when its `language_stack` has a nonempty dictionary of `counts`. */
  lemma LanguagesReported(slice: Dict, stack: seq<Field>, counts: seq<Field>)
    requires slice.Obj? && DistinctFields(slice.fields) && DistinctFields(stack) && DistinctFields(counts)
    requires Field("language_stack", Obj(stack)) in slice.fields
    ensures Field("counts", Obj(counts)) in stack && counts != [] ==> LanguageCounts(slice) == Some(CountsOf(counts))
    ensures LanguageCounts(slice).Some? ==> exists some :: Field("counts", Obj(some)) in stack && some != []
  {
    LookupFinds(slice.fields, "language_stack");
    LookupFinds(stack, "counts");
  }

  lemma NoLanguages(slice: Dict)
    requires slice.Obj? ==>
               DistinctFields(slice.fields) && forall stack :: Field("language_stack", Obj(stack)) !in slice.fields
    ensures LanguageCounts(slice) == None
  {
    if slice.Obj? {
      LookupFinds(slice.fields, "language_stack");
    }
  }

  /** The execution is a clean run whose slice reports the language. */
  ghost predicate ReportsLanguage(exe: Execution, language: string) {
    && exe.Ran? && exe.output.errors == []
    && LanguageCounts(exe.output.slice).Some? && language in LanguageCounts(exe.output.slice).value
  }

  ghost predicate LastToReport(exes: seq<Execution>, language: string, i: int) {
    && 0 <= i < |exes| && ReportsLanguage(exes[i], language)
    && forall j :: i < j < |exes| ==> !ReportsLanguage(exes[j], language)
  }

  /** No language is merged but those that a prelude result reports. */
  lemma {:induction false} MergedIsReported(exes: seq<Execution>, language: string)
    ensures language in Merged(exes) <==> exists i :: 0 <= i < |exes| && ReportsLanguage(exes[i], language)
    decreases |exes|
  {
    hide LanguageCounts;
    if exes != [] {
      var n := |exes| - 1;
      MergedIsReported(exes[..n], language);
      assert language in Contribution(exes[n]) <==> ReportsLanguage(exes[n], language);
      if i :| 0 <= i < |exes| && ReportsLanguage(exes[i], language) {
        assert i < n ==> ReportsLanguage(exes[..n][i], language);
      }
      if i :| 0 <= i < n && ReportsLanguage(exes[..n][i], language) {
        assert ReportsLanguage(exes[i], language);
      }
    }
  }

  lemma LastOfInit(exes: seq<Execution>, language: string, i: nat)
    requires LastToReport(exes, language, i) && i < |exes| - 1
    ensures LastToReport(exes[..|exes| - 1], language, i) && !ReportsLanguage(exes[|exes| - 1], language)
  {
    hide ReportsLanguage;
  }

  /** Of those that report a language the last one decides. */
  lemma {:induction false} MergedIsLast(exes: seq<Execution>, language: string, i: nat)
    requires LastToReport(exes, language, i)
    ensures language in Merged(exes)
    ensures Merged(exes)[language] == LanguageCounts(exes[i].output.slice).value[language]
    decreases |exes|
  {
    hide LanguageCounts;
    if i < |exes| - 1 {
      LastOfInit(exes, language, i);
      MergedIsLast(exes[..|exes| - 1], language, i);
    }
  }

  // ---------------------------------------------------------------- one dispatch

  function Failure(error: string, durationMs: int): Output {
    Output(Obj([]), [], "low", durationMs, [], [error])
  }

  function Raw(o: Outcome, durationMs: int): Output {
    match o
    case Produced(out, None) => out.(durationMs := durationMs)
    case Produced(_, Some(complaint)) => Failure(complaint, durationMs)
    case TimedOut(seconds) => Failure("timeout: " + seconds + "s", durationMs)
    case OverBudget(message) => Failure("raw_artifact_mb exceeded: " + message, durationMs)
    case Crashed(kind, message) => Failure(kind + ": " + message, durationMs)
  }

  function ScrubTexts(env: Env, texts: seq<string>): (r: seq<string>)
    ensures |r| == |texts|
  {
    seq(|texts|, i requires 0 <= i < |texts| => ScrubText(env.root, texts[i]))
  }

  function Scrub(env: Env, o: Output): Output {
    o.(slice := ScrubSlice(env.root, o.slice), warnings := ScrubTexts(env, o.warnings),
       errors := ScrubTexts(env, o.errors))
  }

  /** What a probe's run leaves behind. */
  function Delivered(env: Env, p: Probe, counts: Counts, hits: seq<nat>, durationMs: int): Output {
    Scrub(env, Raw(OutcomeOf(p, counts, hits), durationMs))
  }

  /** A failure as it is delivered: nothing but the one error, scrubbed. */
  ghost predicate FailedWith(root: RepoRoot, error: string, durationMs: int, out: Output) {
    out == Output(Obj([]), [], "low", durationMs, [], [ScrubText(root, error)])
  }

  /** The texts of `to` are those of `from`, scrubbed, each at its place. */
  ghost predicate EachScrubbed(root: RepoRoot, from: seq<string>, to: seq<string>) {
    |to| == |from| && forall i :: 0 <= i < |from| ==> to[i] == ScrubText(root, from[i])
  }

  /** What is delivered of a run that ended this way: an accepted output with its slice, warnings and errors scrubbed
      throughout, or the failure that the ending stands for. */
  ghost predicate Told(root: RepoRoot, o: Outcome, durationMs: int, out: Output) {
    match o
    case Produced(raw, None) =>
      && LeafWise(s => ScrubText(root, s), raw.slice, out.slice)
      && EachScrubbed(root, raw.warnings, out.warnings) && EachScrubbed(root, raw.errors, out.errors)
      && out.artifacts == raw.artifacts && out.confidence == raw.confidence && out.durationMs == durationMs
    case Produced(_, Some(complaint)) => FailedWith(root, complaint, durationMs, out)
    case TimedOut(seconds) => FailedWith(root, "timeout: " + seconds + "s", durationMs, out)
    case OverBudget(message) => FailedWith(root, "raw_artifact_mb exceeded: " + message, durationMs, out)
    case Crashed(kind, message) => FailedWith(root, kind + ": " + message, durationMs, out)
  }

  lemma FailureIsTold(env: Env, error: string, durationMs: int)
    ensures FailedWith(env.root, error, durationMs, Scrub(env, Failure(error, durationMs)))
  {
    hide ScrubText;
    var out := Scrub(env, Failure(error, durationMs));
    assert out.slice == Obj([]);
    assert out.errors == [ScrubText(env.root, error)] && out.warnings == [];
  }

  /** What a run leaves behind is its ending, told with every text scrubbed. */
  lemma DeliveredIsTold(env: Env, p: Probe, counts: Counts, hits: seq<nat>, durationMs: int)
    ensures Told(env.root, OutcomeOf(p, counts, hits), durationMs, Delivered(env, p, counts, hits, durationMs))
  {
    hide ScrubText, LeafWise, MapStrings, Scrub, OutcomeOf;
    match OutcomeOf(p, counts, hits)
    case Produced(raw, None) => ProducedIsTold(env, raw, durationMs);
    case Produced(_, Some(complaint)) => FailureIsTold(env, complaint, durationMs);
    case TimedOut(seconds) => FailureIsTold(env, "timeout: " + seconds + "s", durationMs);
    case OverBudget(message) => FailureIsTold(env, "raw_artifact_mb exceeded: " + message, durationMs);
    case Crashed(kind, message) => FailureIsTold(env, kind + ": " + message, durationMs);
  }

  lemma ProducedIsTold(env: Env, raw: Output, durationMs: int)
    ensures Told(env.root, Produced(raw, None), durationMs, Scrub(env, raw.(durationMs := durationMs)))
  {
    hide ScrubText, LeafWise, MapStrings;
    MapIsLeafWise(s => ScrubText(env.root, s), raw.slice);
  }

  predicate Clean(exe: Execution) { !exe.Skipped? && exe.output.errors == [] }

  // ---------------------------------------------------------------- the gather as a step system

  /** `hits` records the kills that hit the probe's children; the program keeps no such record. */
  datatype Slot =
    | Waiting
    | Running(counts: Counts, hits: seq<nat>)
    | Finished(exe: Execution, hits: seq<nat>)

  datatype State = State(slots: seq<Slot>, cache: Cache)

  /** A dispatch runs up to its first suspension in one go, and from the end of the probe's run to its own end in
      another. The clock readings and the duration are whatever they are. A probe that timed out kills every child
      process that is alive, whoever it belongs to: `struck` says which siblings have one, and where in its run each
      of these is. */
  datatype Move =
    | Start(i: nat, now: real)
    | Finish(i: nat, now: real, durationMs: int, struck: map<nat, nat>)

  function Min(a: int, b: int): int { if a < b then a else b }

  function Bound(env: Env): int { Min(Min(env.cpu, env.maxConcurrent), 8) }

  /** The prelude is wave 0, the rest wave 1, and each runs-last probe a wave of its own. */
  function Wave(env: Env, i: nat): nat {
    var b, r := |Base(env)|, |Rest(env)|;
    if i < b then 0 else if i < b + r then 1 else 2 + (i - b - r)
  }

  function Control(env: Env): (c: FJ.Config)
    ensures c.Valid() && |c.waves| == |Order(env)|
  {
    var n := |Order(env)|;
    FJ.Config(Bound(env), seq(n, i requires 0 <= i < n => Wave(env, i)), seq(n, _ => 0))
  }

  function PhaseOf(s: Slot): FJ.Phase {
    match s
    case Waiting => FJ.Waiting
    case Running(_, _) => FJ.Holding(0)
    case Finished(_, _) => FJ.Done
  }

  function Phases(slots: seq<Slot>): (r: FJ.Phases)
    ensures |r| == |slots| && forall i :: 0 <= i < |slots| ==> r[i] == PhaseOf(slots[i])
  {
    seq(|slots|, i requires 0 <= i < |slots| => PhaseOf(slots[i]))
  }

  function ExeOf(s: Slot): Execution { if s.Finished? then s.exe else Skipped }

  function Exes(slots: seq<Slot>): (r: seq<Execution>)
    ensures |r| == |slots| && forall i :: 0 <= i < |slots| ==> r[i] == ExeOf(slots[i])
  {
    seq(|slots|, i requires 0 <= i < |slots| => ExeOf(slots[i]))
  }

  /** The languages a dispatch sees: as given in the prelude, as merged from the prelude afterwards. */
  function CountsFor(env: Env, slots: seq<Slot>, i: nat): Counts
    requires |slots| == |Order(env)|
  {
    if i < |Base(env)| then env.detected else Merged(Exes(slots[..|Base(env)|]))
  }

  function Entered(env: Env, cache: Cache, p: Probe, counts: Counts, now: real): Slot {
    if !p.applies(counts) then Finished(Skipped, [])
    else
      match Fetch(cache, p.key, env.ttlHours, now)
      case Some(out) => Finished(CacheHit(out, p.key), [])
      case None => Running(counts, [])
  }

  function Hit(slot: Slot, i: nat, struck: map<nat, nat>): Slot {
    if slot.Running? && i in struck then Running(slot.counts, slot.hits + [struck[i]]) else slot
  }

  /** The kill as the siblings see it. */
  function Strike(slots: seq<Slot>, struck: map<nat, nat>): (r: seq<Slot>)
    ensures |r| == |slots| && forall i :: 0 <= i < |slots| ==> r[i] == Hit(slots[i], i, struck)
  {
    seq(|slots|, i requires 0 <= i < |slots| => Hit(slots[i], i, struck))
  }

  function Step(env: Env, s: State, m: Move): (r: State)
    requires |s.slots| == |Order(env)|
    ensures |r.slots| == |s.slots|
  {
    match m
    case Start(i, now) =>
      if FJ.Enabled(Control(env), Phases(s.slots), FJ.Acquire(i))
      then s.(slots := s.slots[i := Entered(env, s.cache, Order(env)[i], CountsFor(env, s.slots, i), now)])
      else s
    case Finish(i, now, d, struck) =>
      if i < |s.slots| && s.slots[i].Running?
      then
        var p, counts, hits := Order(env)[i], s.slots[i].counts, s.slots[i].hits;
        var out := Delivered(env, p, counts, hits, d);
        var slots := s.slots[i := Finished(Ran(out, p.key), hits)];
        State(
          if OutcomeOf(p, counts, hits).TimedOut? then Strike(slots, struck) else slots,
          if out.errors == [] then s.cache[p.key := Stored(out, now.Floor)] else s.cache)
      else s
  }

  function Begin(env: Env, cache: Cache): (r: State)
    ensures |r.slots| == |Order(env)|
  {
    State(seq(|Order(env)|, _ => Waiting), cache)
  }

  function Run(env: Env, cache: Cache, moves: seq<Move>): (r: State)
    ensures |r.slots| == |Order(env)|
  {
    if moves == [] then Begin(env, cache) else Step(env, Run(env, cache, moves[..|moves| - 1]), moves[|moves| - 1])
  }

  /** Of the slots, a move touches that of its own probe and, by a kill, those of running siblings. */
  lemma StepTouches(env: Env, s: State, m: Move, j: nat)
    requires |s.slots| == |Order(env)| && j < |s.slots| && j != m.i
    ensures var r := Step(env, s, m);
            || r.slots[j] == s.slots[j]
            || (s.slots[j].Running? && r.slots[j].Running? && r.slots[j].counts == s.slots[j].counts)
    ensures PhaseOf(Step(env, s, m).slots[j]) == PhaseOf(s.slots[j])
  {
    hide FJ.Enabled, Order, Delivered, Entered, CountsFor, OutcomeOf;
  }

  // ---------------------------------------------------------------- it is a fork-join

  /** A gather move is a few control moves: a dispatch that ends at once takes its slot and gives it back. */
  lemma StepIsControl(env: Env, s: State, m: Move)
    requires |s.slots| == |Order(env)|
    ensures FJ.Reaches(Control(env), Phases(s.slots), Phases(Step(env, s, m).slots))
  {
    hide FJ.Open, FJ.Held, FJ.Reaches, Order, Wave, CountsFor, Entered, Delivered, OutcomeOf;
    var c, s', ps := Control(env), Step(env, s, m), Phases(s.slots);
    forall j | 0 <= j < |s.slots| && j != m.i ensures PhaseOf(s'.slots[j]) == PhaseOf(s.slots[j]) {
      StepTouches(env, s, m, j);
    }
    if m.i >= |s.slots| || s'.slots[m.i] == s.slots[m.i] {
      assert s'.slots == s.slots;
      FJ.ReachesItself(c, ps);
    } else if m.Finish? {
      FJ.ReachesByOne(c, ps, FJ.Release(m.i));
      assert Phases(s'.slots) == ps[m.i := FJ.Done];
    } else if s'.slots[m.i].Running? {
      FJ.ReachesByOne(c, ps, FJ.Acquire(m.i));
      assert Phases(s'.slots) == ps[m.i := FJ.Holding(0)];
    } else {
      FJ.ReachesByTwo(c, ps, FJ.Acquire(m.i), FJ.Release(m.i));
      assert Phases(s'.slots) == ps[m.i := FJ.Holding(0)][m.i := FJ.Done];
    }
  }

  /** The phases after each move of a run. */
  function History(env: Env, cache: Cache, moves: seq<Move>): (h: seq<FJ.Phases>)
    ensures |h| == |moves| + 1
    ensures forall k :: 0 <= k <= |moves| ==> h[k] == Phases(Run(env, cache, moves[..k]).slots)
  {
    seq(|moves| + 1, k requires 0 <= k <= |moves| => Phases(Run(env, cache, moves[..k]).slots))
  }

  lemma RunStep(env: Env, cache: Cache, moves: seq<Move>, k: nat)
    requires k < |moves|
    ensures Run(env, cache, moves[..k + 1]) == Step(env, Run(env, cache, moves[..k]), moves[k])
  {
    assert moves[..k + 1][..k] == moves[..k];
  }

  /** The probes that are running. */
  ghost function RunningNow(s: State): set<nat> { set j: nat | j < |s.slots| && s.slots[j].Running? }

  /** Exactly when a probe takes its slot: it waits, fewer run than the processors, the configuration and eight allow,
      and finished are, for one after the prelude, the prelude, and for a runs-last one all before it. */
  lemma StartsExactly(env: Env, s: State, i: nat, now: real)
    requires |s.slots| == |Order(env)|
    ensures TakesSlot(env, s, Start(i, now)) <==>
            && i < |s.slots| && s.slots[i].Waiting?
            && |RunningNow(s)| < env.cpu && |RunningNow(s)| < env.maxConcurrent && |RunningNow(s)| < 8
            && (i >= |Base(env)| ==> forall j :: 0 <= j < |Base(env)| ==> s.slots[j].Finished?)
            && (i >= |Base(env)| + |Rest(env)| ==> forall j :: 0 <= j < i ==> s.slots[j].Finished?)
  {
    hide FJ.Held, Base, Rest, Tail, CountsFor;
    assert FJ.Holders(Phases(s.slots)) == RunningNow(s);
    FJ.HeldCounts(Phases(s.slots));
    if i < |s.slots| {
      BucketLengths(env);
      assert FJ.Open(Control(env), Phases(s.slots), i) <==>
             forall j :: 0 <= j < |s.slots| && Wave(env, j) < Wave(env, i) ==> Phases(s.slots)[j].Done?;
    }
  }

  lemma BucketLengths(env: Env)
    ensures |Order(env)| == |Base(env)| + |Rest(env)| + |Tail(env)|
  {
  }

  /** Every gather, seen through its slots, is a run of the bounded fork-join. */
  lemma RunIsControl(env: Env, cache: Cache, moves: seq<Move>)
    ensures FJ.History(Control(env), History(env, cache, moves))
  {
    hide Run, Step, FJ.Reaches, Order;
    var h := History(env, cache, moves);
    forall k | 0 <= k < |h| - 1 ensures FJ.Reaches(Control(env), h[k], h[k + 1]) {
      RunStep(env, cache, moves, k);
      StepIsControl(env, Run(env, cache, moves[..k]), moves[k]);
    }
    RunStart(env, cache, moves);
  }

  lemma RunStart(env: Env, cache: Cache, moves: seq<Move>)
    ensures Phases(Run(env, cache, moves[..0]).slots) == FJ.Start(Control(env))
  {
    assert moves[..0] == [];
  }

  /** At every moment of every run: at most min(cpu, config, 8) dispatches hold a slot, and no probe has started
      before every probe of every earlier wave finished. */
  lemma GatherIsSafe(env: Env, cache: Cache, moves: seq<Move>)
    ensures var s := Run(env, cache, moves);
            var held := FJ.Held(Phases(s.slots));
            && (held == 0 || (held <= env.cpu && held <= env.maxConcurrent && held <= 8))
            && forall i, j :: 0 <= i < |s.slots| && 0 <= j < |s.slots| && !s.slots[i].Waiting? ==>
                 (Wave(env, j) < Wave(env, i) ==> s.slots[j].Finished?)
  {
    hide Order, Run, FJ.Held, FJ.History;
    var s := Run(env, cache, moves);
    assert moves[..|moves|] == moves;
    RunIsControl(env, cache, moves);
    FJ.RunsAreSafe(Control(env), History(env, cache, moves), |moves|);
    forall i, j | 0 <= i < |s.slots| && 0 <= j < |s.slots| && Wave(env, j) < Wave(env, i) && !s.slots[i].Waiting?
      ensures s.slots[j].Finished?
    {
      assert Phases(s.slots)[j].Done?;
    }
  }

  /** Nothing outside the prelude starts before the whole prelude has finished. */
  lemma {:induction false} PreludeFirst(env: Env, cache: Cache, moves: seq<Move>, i: nat, j: nat)
    requires j < |Base(env)| <= i < |Order(env)| && !Run(env, cache, moves).slots[i].Waiting?
    ensures Run(env, cache, moves).slots[j].Finished?
  {
    hide Order, Run, Base, Rest;
    GatherIsSafe(env, cache, moves);
  }

  /** Runs-last probes go one at a time, in order, after everything else. */
  lemma {:induction false} TailIsSerial(env: Env, cache: Cache, moves: seq<Move>, i: nat, j: nat)
    requires j < i < |Order(env)| && i >= |Base(env)| + |Rest(env)| && !Run(env, cache, moves).slots[i].Waiting?
    ensures Run(env, cache, moves).slots[j].Finished?
  {
    hide Order, Run, Base, Rest;
    GatherIsSafe(env, cache, moves);
  }

  ghost predicate AllFinished(s: State) { forall i :: 0 <= i < |s.slots| ==> s.slots[i].Finished? }

  ghost predicate Effective(env: Env, s: State, m: Move)
    requires |s.slots| == |Order(env)|
  {
    Phases(Step(env, s, m).slots) != Phases(s.slots)
  }

  /** With a positive bound a gather that is not finished can always move. */
  lemma GatherProgresses(env: Env, s: State, now: real) returns (m: Move)
    requires |s.slots| == |Order(env)| && Bound(env) > 0 && !AllFinished(s)
    ensures Effective(env, s, m) && m.now == now
  {
    hide FJ.Open, FJ.Held, Order, Wave, CountsFor, Delivered, OutcomeOf;
    var i :| 0 <= i < |s.slots| && !s.slots[i].Finished?;
    assert !Phases(s.slots)[i].Done?;
    var fm := FJ.SomeMoveEnabled(Control(env), Phases(s.slots));
    if fm.Acquire? {
      m := Start(fm.i, now);
    } else {
      m := Finish(fm.i, now, 0, map[]);
    }
    assert Phases(Step(env, s, m).slots)[fm.i] != Phases(s.slots)[fm.i];
  }

  /** No run makes more than two effective moves per probe: every gather terminates. */
  lemma GatherEnds(env: Env, cache: Cache, moves: seq<Move>)
    ensures FJ.Changes(History(env, cache, moves)) <= 2 * |Order(env)|
  {
    hide Run, FJ.Changes, FJ.Remaining, FJ.History, Order;
    RunIsControl(env, cache, moves);
    FJ.RunsEnd(Control(env), History(env, cache, moves));
    FJ.StartLeft(Control(env), 0, |Order(env)|);
  }

  /** The move took probe `m.i` out of the queue. */
  ghost predicate TakesSlot(env: Env, s: State, m: Move)
    requires |s.slots| == |Order(env)|
  {
    m.i < |s.slots| && s.slots[m.i].Waiting? && !Step(env, s, m).slots[m.i].Waiting?
  }

  /** No probe is dispatched twice. */
  lemma TakesSlotOnce(env: Env, cache: Cache, moves: seq<Move>, k: nat, l: nat)
    requires k < l < |moves|
    requires TakesSlot(env, Run(env, cache, moves[..k]), moves[k])
    requires TakesSlot(env, Run(env, cache, moves[..l]), moves[l])
    ensures moves[k].i != moves[l].i
  {
    hide Step, Run, FJ.History, Order;
    var h := History(env, cache, moves);
    RunIsControl(env, cache, moves);
    RunStep(env, cache, moves, k);
    assert h[k + 1][moves[k].i] != FJ.Waiting;
    FJ.NeverBack(Control(env), h, k + 1, l, moves[k].i);
  }

  /** Every run can be brought to its end, at any one moment. */
  lemma {:induction false} GatherCompletes(env: Env, cache: Cache, moves: seq<Move>, now: real) returns (all: seq<Move>)
    requires Bound(env) > 0
    ensures moves <= all && AllFinished(Run(env, cache, all)) && forall k :: |moves| <= k < |all| ==> all[k].now == now
    decreases 2 * |Order(env)| - FJ.Changes(History(env, cache, moves))
  {
    hide Run, Step, Order, FJ.Changes, AllFinished, Bound;
    GatherEnds(env, cache, moves);
    var s := Run(env, cache, moves);
    if AllFinished(s) {
      all := moves;
    } else {
      var m := GatherProgresses(env, s, now);
      OneMoreChange(env, cache, moves, m);
      GatherEnds(env, cache, moves + [m]);
      all := GatherCompletes(env, cache, moves + [m], now);
      assert all[|moves|] == (moves + [m])[|moves|] == m;
    }
  }

  lemma OneMoreChange(env: Env, cache: Cache, moves: seq<Move>, m: Move)
    requires Effective(env, Run(env, cache, moves), m)
    ensures FJ.Changes(History(env, cache, moves + [m])) == FJ.Changes(History(env, cache, moves)) + 1
  {
    hide Run, Step, Order, FJ.Changes;
    var h, h' := History(env, cache, moves), History(env, cache, moves + [m]);
    var n := |moves|;
    forall k | 0 <= k <= n ensures h'[k] == h[k] {
      assert (moves + [m])[..k] == moves[..k];
    }
    assert h' == h + [h'[n + 1]];
    FJ.ChangesAppend(h, h'[n + 1]);
    assert moves[..n] == moves && (moves + [m])[..n + 1] == moves + [m] && (moves + [m])[..n] == moves;
    RunStep(env, cache, moves + [m], n);
  }
}
