/** The two imperative parts of the gather: one dispatch against the real store, and the loops that build the result. */
module Dispatch {
  import opened Wrappers
  import opened Store
  import FJ = ForkJoin
  import G = Gather
  import opened Schedule

  /** A store whose view is true and in step with the file, over a directory nobody tampered with and whose index ends
      behind a newline. */
  ghost predicate Sane(env: G.Env, cache: CacheStore)
    reads cache, cache.dir
  {
    && cache.ttlHours == env.ttlHours && cache.codec.Sound()
    && True(cache.Seen()) && UpToDate(cache.Seen().view, Lines(cache.dir.index)) && Ended(cache.Seen())
    && Tended(cache.codec, Lines(cache.dir.index), cache.dir.blobs)
  }

  /** Every store opened on an empty directory is one. */
  method OpenFresh(env: G.Env, codec: Codec) returns (cache: CacheStore)
    requires codec.Sound()
    ensures fresh(cache) && fresh(cache.dir) && cache.codec == codec && Sane(env, cache) && cache.Plain() == map[]
  {
    hide Size;
    EmptyLog();
    var dir := new Directory();
    cache := new CacheStore(codec, dir, env.ttlHours);
  }

  /** The plain map has an output for the key that is not too old. */
  predicate Answered(m: map<string, Stored>, key: string, ttlHours: int, now: real) {
    key in m && now - m[key].at as real <= (ttlHours * 3600) as real
  }

  /** A dispatch up to its first suspension: the filter and the lookup. The plain map behind the store stays. */
  method StartDispatch(env: G.Env, probe: G.Probe, counts: G.Counts, cache: CacheStore, now: real)
    returns (slot: G.Slot)
    requires Sane(env, cache)
    modifies cache
    ensures Sane(env, cache) && cache.Plain() == old(cache.Plain())
    ensures slot == G.Entered(env, cache.Plain(), probe, counts, now)
    ensures slot ==
            if !probe.applies(counts) then G.Finished(G.Skipped, [])
            else if Answered(old(cache.Plain()), probe.key, env.ttlHours, now)
            then G.Finished(G.CacheHit(old(cache.Plain())[probe.key].output, probe.key), [])
            else G.Running(counts, [])
  {
    hide Replay, Size, Tended, Contents;
    ghost var before := cache.Seen();
    if !probe.applies(counts) {
      return G.Finished(G.Skipped, []);
    }
    var cached := cache.Get(probe.key, now);
    LookKeepsUpToDate(before);
    if cached.Some? {
      return G.Finished(G.CacheHit(cached.value, probe.key), []);
    }
    return G.Running(counts, []);
  }

  /** The probe's output would be stored under a record that does not fit. */
  predicate OverLong(codec: Codec, probe: G.Probe, out: Output, now: real) {
    out.errors == [] &&
    codec.width(RecordOf(codec, PutCall(probe.key, out, now.Floor, probe.name, probe.version))) > MAX_RECORD_BYTES
  }

  /** A dispatch from the end of the probe's run to its own end. `None` stands for the error that an over-long index
      record raises; otherwise the plain map gets the output if it is clean. */
  method FinishDispatch(
    env: G.Env, probe: G.Probe, counts: G.Counts, hits: seq<nat>, cache: CacheStore, now: real, durationMs: int)
    returns (r: Option<G.Execution>)
    requires Sane(env, cache)
    modifies cache, cache.dir
    ensures Sane(env, cache)
    ensures var out := G.Delivered(env, probe, counts, hits, durationMs);
            && r == (if OverLong(cache.codec, probe, out, now) then None else Some(G.Ran(out, probe.key)))
            && cache.Plain() ==
               if out.errors == [] && !OverLong(cache.codec, probe, out, now)
               then old(cache.Plain())[probe.key := Stored(out, now.Floor)] else old(cache.Plain())
    ensures r.Some? ==> G.Told(env.root, G.OutcomeOf(probe, counts, hits), durationMs, r.value.output)
  {
    hide Replay, Size, Tended, Contents, RecordOf, G.Told;
    G.DeliveredIsTold(env, probe, counts, hits, durationMs);
    var outcome := G.OutcomeOf(probe, counts, hits);
    var po := G.Failure("", durationMs);
    match outcome {
      case TimedOut(seconds) => po := G.Failure("timeout: " + seconds + "s", durationMs);
      case OverBudget(message) => po := G.Failure("raw_artifact_mb exceeded: " + message, durationMs);
      case Crashed(kind, message) => po := G.Failure(kind + ": " + message, durationMs);
      case Produced(output, rejection) =>
        po := output.(durationMs := durationMs);
        if rejection.Some? {
          po := G.Failure(rejection.value, durationMs);
        }
    }
    var sanitized := G.Scrub(env, po);
    if sanitized.errors == [] {
      var ok := cache.Put(probe.key, sanitized, probe.name, probe.version, now, []);
      if !ok {
        return None;
      }
    }
    return Some(G.Ran(sanitized, probe.key));
  }

  /** One probe, start to end, with nothing else in between, so that no kill can hit it. */
  method DispatchOne(
    env: G.Env, probe: G.Probe, counts: G.Counts, cache: CacheStore, looked: real, stored: real, durationMs: int)
    returns (r: Option<G.Execution>)
    requires Sane(env, cache)
    modifies cache, cache.dir
    ensures Sane(env, cache)
    ensures var entered := G.Entered(env, old(cache.Plain()), probe, counts, looked);
            var out := G.Delivered(env, probe, counts, [], durationMs);
            if entered.Finished? then r == Some(entered.exe) && cache.Plain() == old(cache.Plain())
            else if out.errors != [] then r == Some(G.Ran(out, probe.key)) && cache.Plain() == old(cache.Plain())
            else if OverLong(cache.codec, probe, out, stored) then r == None && cache.Plain() == old(cache.Plain())
            else
              && r == Some(G.Ran(out, probe.key))
              && cache.Plain() == old(cache.Plain())[probe.key := Stored(out, stored.Floor)]
    ensures !probe.applies(counts) ==> r == Some(G.Skipped)
    ensures probe.applies(counts) && Answered(old(cache.Plain()), probe.key, env.ttlHours, looked) ==>
              r == Some(G.CacheHit(old(cache.Plain())[probe.key].output, probe.key))
    ensures probe.applies(counts) && !Answered(old(cache.Plain()), probe.key, env.ttlHours, looked) ==>
              && (r.Some? ==>
                    && r.value.Ran? && r.value.key == probe.key
                    && G.Told(env.root, probe.run(counts), durationMs, r.value.output)
                    && cache.Plain() ==
                       if r.value.output.errors == []
                       then old(cache.Plain())[probe.key := Stored(r.value.output, stored.Floor)]
                       else old(cache.Plain()))
    ensures r.None? || r.value.Skipped? || r.value.CacheHit? ==> cache.Plain() == old(cache.Plain())
  {
    hide Sane, G.Delivered, CacheStore.Plain, RecordOf, G.Told;
    var slot := StartDispatch(env, probe, counts, cache, looked);
    if slot.Finished? {
      return Some(slot.exe);
    }
    r := FinishDispatch(env, probe, counts, [], cache, stored, durationMs);
  }

  lemma LookKeepsUpToDate(w: World)
    requires UpToDate(w.view, Lines(w.index))
    ensures UpToDate(Apply(w, Look([])).view, Lines(Apply(w, Look([])).index))
    ensures Content(Apply(w, Look([])).index) == Content(w.index)
  {
    hide Size, Replay;
  }

  // ---------------------------------------------------------------- every interleaving, against the store

  /** The move ends a run whose clean output does not fit into an index record. */
  predicate TooLong(env: G.Env, codec: Codec, slots: seq<G.Slot>, m: G.Move)
    requires |slots| == |G.Order(env)|
  {
    m.Finish? && m.i < |slots| && slots[m.i].Running? &&
    var p := G.Order(env)[m.i];
    OverLong(codec, p, G.Delivered(env, p, slots[m.i].counts, slots[m.i].hits, m.durationMs), m.now)
  }

  /** Kill every child that is alive; the runs they belong to go on and see it. */
  method KillTracked(slots: seq<G.Slot>, struck: map<nat, nat>) returns (slots': seq<G.Slot>)
    ensures slots' == G.Strike(slots, struck)
  {
    slots' := slots;
    for i := 0 to |slots|
      invariant |slots'| == |slots|
      invariant forall j :: 0 <= j < |slots| ==> slots'[j] == if j < i then G.Hit(slots[j], j, struck) else slots[j]
    {
      if slots[i].Running? && i in struck {
        slots' := slots'[i := G.Running(slots[i].counts, slots[i].hits + [struck[i]])];
      }
    }
  }

  /** One move of the step system carried out on the real store: slots and plain map are those of the step, except that
      an index record that is too long breaks the gather off. */
  method MakeMove(env: G.Env, cache: CacheStore, slots: seq<G.Slot>, m: G.Move) returns (ok: bool, slots': seq<G.Slot>)
    requires Sane(env, cache) && |slots| == |G.Order(env)|
    modifies cache, cache.dir
    ensures Sane(env, cache)
    ensures ok <==> !TooLong(env, cache.codec, slots, m)
    ensures ok ==> G.State(slots', cache.Plain()) == G.Step(env, G.State(slots, old(cache.Plain())), m)
    ensures !ok ==> slots' == slots && cache.Plain() == old(cache.Plain())
  {
    hide Sane, CacheStore.Plain, FJ.Open, FJ.Held, G.Delivered, G.Entered, G.OutcomeOf, G.Strike, RecordOf;
    ok, slots' := true, slots;
    match m {
      case Start(i, now) =>
        if FJ.Enabled(G.Control(env), G.Phases(slots), FJ.Acquire(i)) {
          var slot := StartDispatch(env, G.Order(env)[i], G.CountsFor(env, slots, i), cache, now);
          slots' := slots[i := slot];
        }
      case Finish(i, now, durationMs, struck) =>
        if i < |slots| && slots[i].Running? {
          var p, counts, hits := G.Order(env)[i], slots[i].counts, slots[i].hits;
          var exe := FinishDispatch(env, p, counts, hits, cache, now, durationMs);
          if exe.None? {
            return false, slots;
          }
          slots' := slots[i := G.Finished(exe.value, hits)];
          if G.OutcomeOf(p, counts, hits).TimedOut? {
            slots' := KillTracked(slots', struck);
          }
        }
    }
  }

  /** Any schedule of moves run against the real store ends in the state that the step system says, and breaks off
      exactly when it comes to an index record that is too long; so all that is proved of gathers holds of the store
      object under every interleaving. */
  method RunSchedule(env: G.Env, cache: CacheStore, moves: seq<G.Move>) returns (ok: bool, slots: seq<G.Slot>)
    requires Sane(env, cache)
    modifies cache, cache.dir
    ensures Sane(env, cache)
    ensures ok <==> forall k :: 0 <= k < |moves| ==>
              !TooLong(env, cache.codec, G.Run(env, old(cache.Plain()), moves[..k]).slots, moves[k])
    ensures ok ==> G.State(slots, cache.Plain()) == G.Run(env, old(cache.Plain()), moves)
    ensures !ok ==> exists k ::
              && 0 <= k < |moves| && G.State(slots, cache.Plain()) == G.Run(env, old(cache.Plain()), moves[..k])
              && TooLong(env, cache.codec, slots, moves[k])
  {
    hide Sane, CacheStore.Plain, G.Step, G.Order, G.Run, TooLong;
    slots := G.Begin(env, map[]).slots;
    ghost var before := cache.Plain();
    RunNone(env, before);
    assert moves[..0] == [];
    for k := 0 to |moves|
      invariant Sane(env, cache) && |slots| == |G.Order(env)|
      invariant forall j :: 0 <= j < k ==> !TooLong(env, cache.codec, G.Run(env, before, moves[..j]).slots, moves[j])
      invariant G.State(slots, cache.Plain()) == G.Run(env, before, moves[..k])
    {
      G.RunStep(env, before, moves, k);
      ok, slots := MakeMove(env, cache, slots, moves[k]);
      if !ok {
        assert G.State(slots, cache.Plain()) == G.Run(env, before, moves[..k]);
        assert TooLong(env, cache.codec, G.Run(env, before, moves[..k]).slots, moves[k]);
        return;
      }
    }
    ok := true;
    assert moves[..|moves|] == moves;
  }

  // ---------------------------------------------------------------- collecting results

  datatype Collected = Collected(
    outputs: map<string, Output>, executions: map<string, G.Execution>, counts: G.Counts, failed: seq<string>,
    skipped: seq<string>)

  function NamesWhere(ps: seq<G.Probe>, exes: seq<G.Execution>, wanted: G.Execution -> bool): seq<string>
    requires |ps| == |exes|
  {
    if ps == [] then []
    else NamesWhere(ps[..|ps| - 1], exes[..|ps| - 1], wanted) +
         if wanted(exes[|ps| - 1]) then [ps[|ps| - 1].name] else []
  }

  predicate Failed(exe: G.Execution) { exe.Ran? && exe.output.errors != [] }

  lemma MapsGrow(ps: seq<G.Probe>, exes: seq<G.Execution>, n: nat)
    requires |ps| == |exes| && n < |ps|
    ensures ExecutionMap(ps[..n + 1], exes[..n + 1]) == ExecutionMap(ps[..n], exes[..n])[ps[n].name := exes[n]]
    ensures OutputMap(ps[..n + 1], exes[..n + 1]) ==
            if exes[n].Skipped? then OutputMap(ps[..n], exes[..n])
            else OutputMap(ps[..n], exes[..n])[ps[n].name := exes[n].output]
  {
    assert ps[..n + 1][..n] == ps[..n] && exes[..n + 1][..n] == exes[..n];
  }

  lemma TalliesGrow(ps: seq<G.Probe>, exes: seq<G.Execution>, n: nat, wanted: G.Execution -> bool)
    requires |ps| == |exes| && n < |ps|
    ensures NamesWhere(ps[..n + 1], exes[..n + 1], wanted) ==
            NamesWhere(ps[..n], exes[..n], wanted) + if wanted(exes[n]) then [ps[n].name] else []
    ensures G.Merged(exes[..n + 1]) == G.Merged(exes[..n]) + G.Contribution(exes[n])
  {
    hide G.Contribution;
    assert ps[..n + 1][..n] == ps[..n] && exes[..n + 1][..n] == exes[..n];
  }

  /** The prelude loop: besides the two result maps, it merges languages and notes who failed or was skipped. */
  method CollectPrelude(ps: seq<G.Probe>, exes: seq<G.Execution>) returns (c: Collected)
    requires |ps| == |exes|
    ensures c.executions == ExecutionMap(ps, exes) && c.outputs == OutputMap(ps, exes) && c.counts == G.Merged(exes)
    ensures c.failed == NamesWhere(ps, exes, Failed) && c.skipped == NamesWhere(ps, exes, IsSkipped)
    ensures forall name :: name in c.failed <==>
              exists i :: 0 <= i < |ps| && ps[i].name == name && exes[i].Ran? && exes[i].output.errors != []
    ensures forall name :: name in c.skipped <==> exists i :: 0 <= i < |ps| && ps[i].name == name && exes[i].Skipped?
  {
    hide G.LanguageCounts, G.Merged, ExecutionMap, OutputMap, NamesWhere;
    c := Collected(map[], map[], map[], [], []);
    NothingYet();
    for i := 0 to |ps|
      invariant c.executions == ExecutionMap(ps[..i], exes[..i]) && c.outputs == OutputMap(ps[..i], exes[..i])
      invariant c.counts == G.Merged(exes[..i])
      invariant c.failed == NamesWhere(ps[..i], exes[..i], Failed)
      invariant c.skipped == NamesWhere(ps[..i], exes[..i], IsSkipped)
    {
      MapsGrow(ps, exes, i);
      TalliesGrow(ps, exes, i, Failed);
      TalliesGrow(ps, exes, i, IsSkipped);
      var name, exe := ps[i].name, exes[i];
      c := c.(executions := c.executions[name := exe]);
      if !exe.Skipped? {
        c := c.(outputs := c.outputs[name := exe.output]);
      }
      if exe.Ran? {
        if exe.output.errors != [] {
          c := c.(failed := c.failed + [name]);
        } else {
          var found := G.LanguageCounts(exe.output.slice);
          if found.Some? {
            c := c.(counts := c.counts + found.value);
          }
        }
      } else if exe.Skipped? {
        c := c.(skipped := c.skipped + [name]);
      }
    }
    assert ps[..|ps|] == ps && exes[..|ps|] == exes;
    NamesMeans(ps, exes, Failed);
    NamesMeans(ps, exes, IsSkipped);
  }

  lemma {:induction false} NamesMeans(ps: seq<G.Probe>, exes: seq<G.Execution>, wanted: G.Execution -> bool)
    requires |ps| == |exes|
    ensures forall name :: name in NamesWhere(ps, exes, wanted) <==>
              exists i :: 0 <= i < |ps| && ps[i].name == name && wanted(exes[i])
    decreases |ps|
  {
    if ps != [] {
      var n := |ps| - 1;
      NamesMeans(ps[..n], exes[..n], wanted);
      forall name | name in NamesWhere(ps, exes, wanted)
        ensures exists i :: 0 <= i < |ps| && ps[i].name == name && wanted(exes[i])
      {
        if name in NamesWhere(ps[..n], exes[..n], wanted) {
          var i :| 0 <= i < n && ps[..n][i].name == name && wanted(exes[..n][i]);
          assert ps[i].name == name && wanted(exes[i]);
        } else {
          assert ps[n].name == name && wanted(exes[n]);
        }
      }
      forall i | 0 <= i < |ps| && wanted(exes[i]) ensures ps[i].name in NamesWhere(ps, exes, wanted) {
        if i < n {
          assert ps[..n][i].name == ps[i].name && wanted(exes[..n][i]);
        }
      }
    }
  }

  predicate IsSkipped(exe: G.Execution) { exe.Skipped? }

  lemma NothingYet()
    ensures ExecutionMap([], []) == map[] && OutputMap([], []) == map[] && G.Merged([]) == map[]
    ensures NamesWhere([], [], Failed) == [] && NamesWhere([], [], IsSkipped) == []
  {
  }

  /** The loops after the prelude go on where it stopped. */
  method CollectLater(
    ps: seq<G.Probe>, exes: seq<G.Execution>, done: nat, outputs: map<string, Output>,
    executions: map<string, G.Execution>)
    returns (outputs': map<string, Output>, executions': map<string, G.Execution>)
    requires |ps| == |exes| && done <= |ps|
    requires executions == ExecutionMap(ps[..done], exes[..done]) && outputs == OutputMap(ps[..done], exes[..done])
    ensures executions' == ExecutionMap(ps, exes) && outputs' == OutputMap(ps, exes)
  {
    hide ExecutionMap, OutputMap;
    outputs', executions' := outputs, executions;
    for i := done to |ps|
      invariant executions' == ExecutionMap(ps[..i], exes[..i]) && outputs' == OutputMap(ps[..i], exes[..i])
    {
      MapsGrow(ps, exes, i);
      executions' := executions'[ps[i].name := exes[i]];
      if !exes[i].Skipped? {
        outputs' := outputs'[ps[i].name := exes[i].output];
      }
    }
    assert ps[..|ps|] == ps && exes[..|ps|] == exes;
  }

  // ---------------------------------------------------------------- a whole gather, one probe at a time

  /** What the clock shows during one dispatch: at the lookup, at the store, and the time in between. */
  datatype Reading = Reading(looked: real, stored: real, durationMs: int)

  lemma DispatchedAsDue(
    env: G.Env, before: G.Cache, cache: G.Cache, lo: real, hi: real, p: G.Probe, counts: G.Counts, t: Reading,
    exe: G.Execution)
    requires Find(cache, p.key) == Find(before, p.key) && Steady(env, before, lo, hi) && lo <= t.looked <= hi
    requires var entered := G.Entered(env, cache, p, counts, t.looked);
             exe == if entered.Finished? then entered.exe
                    else G.Ran(G.Delivered(env, p, counts, [], t.durationMs), p.key)
    ensures Plain(exe) == Fate(env, before, lo, p, counts) && (!exe.Skipped? ==> exe.key == p.key)
  {
    hide G.Delivered;
    assert Fetch(cache, p.key, env.ttlHours, t.looked) == Fetch(before, p.key, env.ttlHours, t.looked);
    DeliveredPlain(env, p, counts, [], t.durationMs);
  }

  /** What is looked up under the probe's own key decides how its dispatch starts. */
  lemma EnteredAlike(env: G.Env, before: G.Cache, cache: G.Cache, p: G.Probe, counts: G.Counts, now: real)
    requires Find(cache, p.key) == Find(before, p.key)
    ensures G.Entered(env, cache, p, counts, now) == G.Entered(env, before, p, counts, now)
    ensures !G.Entered(env, cache, p, counts, now).Waiting?
  {
  }

  /** Dispatched with these languages, the probe would run and end clean with a record that is too long. */
  predicate Oversized(env: G.Env, codec: Codec, before: G.Cache, p: G.Probe, counts: G.Counts, t: Reading) {
    G.Entered(env, before, p, counts, t.looked).Running? &&
    OverLong(codec, p, G.Delivered(env, p, counts, [], t.durationMs), t.stored)
  }

  ghost predicate NoneOversized(
    env: G.Env, codec: Codec, before: G.Cache, lo: real, ts: seq<Reading>, from: nat, upTo: nat)
    requires upTo <= |G.Order(env)| == |ts|
  {
    forall k :: from <= k < upTo ==>
      !Oversized(env, codec, before, G.Order(env)[k], Languages(env, before, lo, k), ts[k])
  }

  ghost predicate Kept(env: G.Env, before: G.Cache, cache: G.Cache, n: nat)
    requires n <= |G.Order(env)|
  {
    forall k :: n <= k < |G.Order(env)| ==> Find(cache, G.Order(env)[k].key) == Find(before, G.Order(env)[k].key)
  }

  ghost predicate DoneAsDue(env: G.Env, before: G.Cache, lo: real, exes: seq<G.Execution>) {
    |exes| <= |G.Order(env)| && forall k :: 0 <= k < |exes| ==> Plain(exes[k]) == Due(env, before, lo, k)
  }

  lemma PreludeMerged(env: G.Env, before: G.Cache, lo: real, exes: seq<G.Execution>)
    requires DoneAsDue(env, before, lo, exes) && |exes| == |G.Base(env)|
    ensures forall i :: |G.Base(env)| <= i ==> G.Merged(exes) == Languages(env, before, lo, i)
  {
    hide Due, G.Merged, Fate, G.Base, G.Rest;
    var fates := PreludeFates(env, before, lo);
    forall k | 0 <= k < |exes| ensures Plain(exes[k]) == Plain(fates[k]) {
      PreludeDue(env, before, lo, k);
    }
    MergedPlain(exes, fates);
  }

  /** Dispatch the probes from `exes` on up to `upTo`, all with the same languages. */
  method DispatchInTurn(
    env: G.Env, cache: CacheStore, ts: seq<Reading>, counts: G.Counts, sofar: seq<G.Execution>, upTo: nat,
    ghost before: G.Cache, ghost lo: real, ghost hi: real)
    returns (ok: bool, exes: seq<G.Execution>)
    requires Sane(env, cache) && DistinctKeys(env) && Steady(env, before, lo, hi)
    requires |sofar| <= upTo <= |G.Order(env)| == |ts| && forall k :: 0 <= k < |ts| ==> lo <= ts[k].looked <= hi
    requires DoneAsDue(env, before, lo, sofar) && Kept(env, before, cache.Plain(), |sofar|)
    requires forall k :: |sofar| <= k < upTo ==> counts == Languages(env, before, lo, k)
    modifies cache, cache.dir
    ensures Sane(env, cache)
    ensures ok <==> NoneOversized(env, cache.codec, before, lo, ts, |sofar|, upTo)
    ensures ok ==> |exes| == upTo && sofar <= exes
    ensures ok ==> DoneAsDue(env, before, lo, exes) && Kept(env, before, cache.Plain(), upTo)
  {
    hide G.Order, Languages, Sane, Steady, CacheStore.Plain, Fate, G.Entered, G.Delivered, RecordOf, Answered, G.Told;
    exes := sofar;
    ok := true;
    while |exes| < upTo
      invariant |sofar| <= |exes| <= upTo && sofar <= exes
      invariant Sane(env, cache) && DoneAsDue(env, before, lo, exes) && Kept(env, before, cache.Plain(), |exes|)
      invariant NoneOversized(env, cache.codec, before, lo, ts, |sofar|, |exes|)
      decreases upTo - |exes|
    {
      var i := |exes|;
      var p, t := G.Order(env)[i], ts[i];
      ghost var was := cache.Plain();
      EnteredAlike(env, before, was, p, counts, t.looked);
      var r := DispatchOne(env, p, counts, cache, t.looked, t.stored, t.durationMs);
      if r.None? {
        assert Oversized(env, cache.codec, before, p, Languages(env, before, lo, i), t);
        return false, exes;
      }
      assert !Oversized(env, cache.codec, before, p, Languages(env, before, lo, i), t);
      DispatchedAsDue(env, before, was, lo, hi, p, counts, t, r.value);
      KeptOn(env, before, was, cache.Plain(), i);
      exes := exes + [r.value];
    }
  }

  lemma KeptOn(env: G.Env, before: G.Cache, cache: G.Cache, cache': G.Cache, i: nat)
    requires DistinctKeys(env) && i < |G.Order(env)| && Kept(env, before, cache, i)
    requires var key := G.Order(env)[i].key; cache' == cache || (key in cache' && cache' == cache[key := cache'[key]])
    ensures Kept(env, before, cache', i + 1)
  {
    hide G.Order;
    forall k | i + 1 <= k < |G.Order(env)|
      ensures Find(cache', G.Order(env)[k].key) == Find(before, G.Order(env)[k].key) {
      assert G.Order(env)[i].key != G.Order(env)[k].key;
    }
  }

  /** The gather with one slot, run against the real store: it breaks off exactly when a probe's index record is too
      long, and otherwise ends as every spared interleaving of the step system does, whatever times out. */
  method GatherInTurn(env: G.Env, cache: CacheStore, ts: seq<Reading>, ghost lo: real, ghost hi: real)
    returns (ok: bool, exes: seq<G.Execution>, outputs: map<string, Output>, executions: map<string, G.Execution>)
    requires Sane(env, cache) && DistinctKeys(env) && Steady(env, cache.Plain(), lo, hi)
    requires |ts| == |G.Order(env)| && forall k :: 0 <= k < |ts| ==> lo <= ts[k].looked <= hi
    modifies cache, cache.dir
    ensures Sane(env, cache)
    ensures ok <==> NoneOversized(env, cache.codec, old(cache.Plain()), lo, ts, 0, |ts|)
    ensures ok ==> |exes| == |G.Order(env)| && DoneAsDue(env, old(cache.Plain()), lo, exes)
    ensures ok ==> executions == ExecutionMap(G.Order(env), exes) && outputs == OutputMap(G.Order(env), exes)
  {
    hide G.Merged, Sane, CacheStore.Plain, Due, ExecutionMap, OutputMap, NamesWhere, Oversized;
    ghost var before := cache.Plain();
    var order, base := G.Order(env), |G.Base(env)|;
    outputs, executions := map[], map[];
    ok, exes := DispatchInTurn(env, cache, ts, env.detected, [], base, before, lo, hi);
    if !ok {
      return;
    }
    var c := CollectPrelude(G.Base(env), exes);
    PreludeMerged(env, before, lo, exes);
    ghost var prelude := exes;
    ok, exes := DispatchInTurn(env, cache, ts, c.counts, exes, |order|, before, lo, hi);
    if !ok {
      return;
    }
    assert order[..base] == G.Base(env) && exes[..base] == prelude;
    outputs, executions := CollectLater(order, exes, base, c.outputs, c.executions);
  }
}
