/** Many processes writing one cache directory, each of which may die between any two steps. */
module Protocol {
  import opened Wrappers
  import opened Store

  /** Where a process stands in a put: temporary file opened, written, moved over the blob, index file ensured. */
  datatype Stage =
    | Idle
    | Opened(put: PutCall)
    | Written(put: PutCall)
    | Placed(put: PutCall)
    | Ready(put: PutCall)

  /** A put that reached the end of its append; `glued` says that its line went behind an unterminated one. */
  datatype Done = Done(put: PutCall, glued: bool)

  /** `cut` is the put whose line ends the file with nothing missing but its newline; `done` lists the finished puts in
      order. */
  datatype System = System(
    index: Option<File>, cut: Option<PutCall>, blobs: Blobs, tmps: map<nat, Bytes>, stages: map<nat, Stage>,
    done: seq<Done>)
  {
    function At(p: nat): Stage { if p in stages then stages[p] else Idle }

    function To(p: nat, s: Stage): System { this.(stages := stages[p := s]) }
  }

  const START := System(None, None, map[], map[], map[], [])

  /** One step of process `p`. A crash may leave any bytes in a temporary file that was being written; a tear is a crash
      in the middle of an append, which leaves some first bytes of the line. */
  datatype Action =
    | Begin(p: nat, put: PutCall)
    | Fill(p: nat)
    | Replace(p: nat)
    | Ensure(p: nat)
    | Append(p: nat)
    | Tear(p: nat, written: nat)
    | Crash(p: nat, debris: Bytes)

  function Torn(c: Codec, put: PutCall, written: nat): Line {
    var r := RecordOf(c, put);
    if written == c.width(r) - 1 then Entry(r, written) else Junk(written)
  }

  /** A step whose process is elsewhere, or whose record is too long, does nothing. */
  function Step(c: Codec, s: System, a: Action): System {
    var stage := s.At(a.p);
    match a
    case Begin(p, put) =>
      if stage.Idle? && c.width(RecordOf(c, put)) <= MAX_RECORD_BYTES
      then s.(tmps := s.tmps[p := ""]).To(p, Opened(put)) else s
    case Fill(p) =>
      if stage.Opened? then s.(tmps := s.tmps[p := c.encode(stage.put.output)]).To(p, Written(stage.put)) else s
    case Replace(p) =>
      if stage.Written? && p in s.tmps
      then
        var name := c.hex(c.encode(stage.put.output));
        s.(blobs := s.blobs[name := s.tmps[p]], tmps := s.tmps - {p}).To(p, Placed(stage.put))
      else s
    case Ensure(p) =>
      if stage.Placed? then s.(index := Some(Content(s.index))).To(p, Ready(stage.put)) else s
    case Append(p) =>
      if stage.Ready?
      then
        var r := RecordOf(c, stage.put);
        s.(index := Some(Behind(Content(s.index), Write(Entry(r, c.width(r)), true))), cut := None,
           done := s.done + [Done(stage.put, !Closed(Content(s.index)))]).To(p, Idle)
      else s
    case Tear(p, written) =>
      if stage.Ready? && 0 < written < c.width(RecordOf(c, stage.put))
      then
        var line := Torn(c, stage.put, written);
        s.(index := Some(Behind(Content(s.index), Write(line, false))),
           cut := if line.Entry? && Closed(Content(s.index)) then Some(stage.put) else None).To(p, Idle)
      else s
    case Crash(p, debris) =>
      (if stage.Opened? then s.(tmps := s.tmps[p := debris]) else s).To(p, Idle)
  }

  function Run(c: Codec, actions: seq<Action>): System {
    if actions == [] then START else Step(c, Run(c, actions[..|actions| - 1]), actions[|actions| - 1])
  }

  // ---------------------------------------------------------------- which puts can be read back

  /** The finished puts that were not glued to a torn line. */
  function Readable(done: seq<Done>): seq<PutCall> {
    if done == [] then []
    else Readable(done[..|done| - 1]) + if done[|done| - 1].glued then [] else [done[|done| - 1].put]
  }

  /** These, and a put that died with nothing but its newline missing, as long as nobody appends behind it. */
  function Survivors(s: System): seq<PutCall> {
    Readable(s.done) + if s.cut.Some? then [s.cut.value] else []
  }

  /** The records on the lines that parse. */
  function Entries(log: seq<Line>): seq<Record> {
    if log == [] then []
    else Entries(log[..|log| - 1]) + if log[|log| - 1].Entry? then [log[|log| - 1].record] else []
  }

  lemma EntriesGrow(log: seq<Line>, line: Line)
    ensures Entries(log + [line]) == Entries(log) + if line.Entry? then [line.record] else []
  {
    assert (log + [line])[..|log|] == log;
  }

  lemma ReadableGrows(done: seq<Done>, d: Done)
    ensures Readable(done + [d]) == Readable(done) + if d.glued then [] else [d.put]
  {
    assert (done + [d])[..|done|] == done;
  }

  lemma {:induction false} EntryIsListed(log: seq<Line>, i: nat)
    requires i < |log| && log[i].Entry?
    ensures log[i].record in Entries(log)
    decreases |log|
  {
    var n := |log| - 1;
    if i < n {
      EntryIsListed(log[..n], i);
    }
  }

  // ---------------------------------------------------------------- what every step keeps

  /** The blob of a put is in place. */
  ghost predicate InPlace(c: Codec, blobs: Blobs, put: PutCall) {
    c.hex(c.encode(put.output)) in blobs
  }

  ghost predicate StageOk(c: Codec, s: System, p: nat) {
    match s.At(p)
    case Written(put) => p in s.tmps && s.tmps[p] == c.encode(put.output)
    case Placed(put) => InPlace(c, s.blobs, put)
    case Ready(put) => InPlace(c, s.blobs, put)
    case _ => true
  }

  ghost predicate StagesOk(c: Codec, s: System) { forall p: nat :: StageOk(c, s, p) }

  function RecordsOf(c: Codec, puts: seq<PutCall>): (r: seq<Record>)
    ensures |r| == |puts| && forall i :: 0 <= i < |puts| ==> r[i] == RecordOf(c, puts[i])
  {
    seq(|puts|, i requires 0 <= i < |puts| => RecordOf(c, puts[i]))
  }

  /** The lines that parse are those of the survivors, in order, whose blobs are in place; and `cut` tells of an
      unterminated last line whether it parses. */
  ghost predicate IndexOk(c: Codec, s: System) {
    var log := Lines(s.index);
    && Entries(log) == RecordsOf(c, Survivors(s))
    && (forall i :: 0 <= i < |Survivors(s)| ==> InPlace(c, s.blobs, Survivors(s)[i]))
    && (if Closed(Content(s.index)) then s.cut == None else log[|log| - 1].Entry? <==> s.cut.Some?)
  }

  ghost predicate Inv(c: Codec, s: System) {
    Honest(c, s.blobs) && StagesOk(c, s) && IndexOk(c, s)
  }

  lemma StageChange(c: Codec, s: System, s': System, p: nat)
    requires StagesOk(c, s) && StageOk(c, s', p)
    requires forall q: nat :: q != p ==>
               s'.At(q) == s.At(q) && (q in s.tmps ==> q in s'.tmps && s'.tmps[q] == s.tmps[q])
    requires s.blobs.Keys <= s'.blobs.Keys
    ensures StagesOk(c, s')
  {
    forall q: nat ensures StageOk(c, s', q) {
      assert StageOk(c, s, q);
    }
  }

  lemma IndexKept(c: Codec, s: System, s': System)
    requires IndexOk(c, s) && s'.done == s.done && s'.cut == s.cut
    requires Content(s'.index) == Content(s.index) && s.blobs.Keys <= s'.blobs.Keys
    ensures IndexOk(c, s')
  {
    hide RecordOf, Entries, Readable;
  }

  /** What an append or a tear puts behind the log, in terms of the lines that parse. */
  lemma BehindEntries(c: Codec, s: System, w: Write)
    requires IndexOk(c, s)
    ensures Entries(Behind(Content(s.index), w).lines) ==
            RecordsOf(c, Readable(s.done)) +
            if w.line.Entry? && Closed(Content(s.index)) then [w.line.record] else []
  {
    hide RecordOf, Readable;
    var log := Lines(s.index);
    if Closed(Content(s.index)) {
      EntriesGrow(log, w.line);
      assert Survivors(s) == Readable(s.done);
    } else {
      var n := |log| - 1;
      EntriesGrow(log[..n], Junk(log[n].width + w.line.width));
      assert log == log[..n] + [log[n]];
      EntriesGrow(log[..n], log[n]);
      var puts, before := Readable(s.done), Entries(log[..n]);
      assert Entries(log) == before + if log[n].Entry? then [log[n].record] else [];
      if s.cut.Some? {
        assert Survivors(s) == puts + [s.cut.value];
        assert before == Entries(log)[..|puts|] == RecordsOf(c, Survivors(s))[..|puts|] == RecordsOf(c, puts);
      } else {
        assert Survivors(s) == puts;
      }
    }
  }

  lemma AppendKeepsIndex(c: Codec, s: System, p: nat)
    requires IndexOk(c, s) && StagesOk(c, s)
    ensures IndexOk(c, Step(c, s, Append(p)))
  {
    hide RecordOf, Entries, Readable, Behind;
    var s', stage := Step(c, s, Append(p)), s.At(p);
    assert StageOk(c, s, p);
    if stage.Ready? {
      var r := RecordOf(c, stage.put);
      BehindEntries(c, s, Write(Entry(r, c.width(r)), true));
      BehindEndsIn(Content(s.index), Write(Entry(r, c.width(r)), true));
      ReadableGrows(s.done, Done(stage.put, !Closed(Content(s.index))));
      SurvivorsInPlace(c, s);
    }
  }

  lemma SurvivorsInPlace(c: Codec, s: System)
    requires IndexOk(c, s)
    ensures forall i :: 0 <= i < |Readable(s.done)| ==> InPlace(c, s.blobs, Readable(s.done)[i])
  {
    hide RecordOf, Entries, Readable;
    forall i | 0 <= i < |Readable(s.done)| ensures InPlace(c, s.blobs, Readable(s.done)[i]) {
      assert Survivors(s)[i] == Readable(s.done)[i];
    }
  }

  lemma BehindEndsIn(f: File, w: Write)
    ensures var r := Behind(f, w);
            r.ended == w.ended && r.lines != [] && (r.lines[|r.lines| - 1].Entry? <==> w.line.Entry? && Closed(f))
  {
  }

  lemma TearKeepsIndex(c: Codec, s: System, p: nat, written: nat)
    requires IndexOk(c, s) && StagesOk(c, s)
    ensures IndexOk(c, Step(c, s, Tear(p, written)))
  {
    hide RecordOf, Entries, Readable, Behind;
    var s', stage := Step(c, s, Tear(p, written)), s.At(p);
    assert StageOk(c, s, p);
    if stage.Ready? && 0 < written < c.width(RecordOf(c, stage.put)) {
      var line := Torn(c, stage.put, written);
      BehindEntries(c, s, Write(line, false));
      BehindEndsIn(Content(s.index), Write(line, false));
      SurvivorsInPlace(c, s);
    }
  }

  lemma ReplaceKeepsHonest(c: Codec, s: System, p: nat)
    requires c.Sound() && Honest(c, s.blobs) && StagesOk(c, s)
    ensures Honest(c, Step(c, s, Replace(p)).blobs)
  {
    assert StageOk(c, s, p);
  }

  lemma StepKeepsStages(c: Codec, s: System, a: Action)
    requires StagesOk(c, s)
    ensures StagesOk(c, Step(c, s, a))
  {
    hide RecordOf, Lines, IndexOk, Behind, Torn;
    assert StageOk(c, s, a.p);
    StageChange(c, s, Step(c, s, a), a.p);
  }

  lemma BlobsGrow(c: Codec, s: System, a: Action)
    requires c.Sound() && Honest(c, s.blobs) && StagesOk(c, s)
    ensures Honest(c, Step(c, s, a).blobs) && s.blobs.Keys <= Step(c, s, a).blobs.Keys
    ensures !a.Append? && !a.Tear? ==> Step(c, s, a).done == s.done && Step(c, s, a).cut == s.cut
  {
    hide Honest, RecordOf, Lines, Behind, Torn;
    if a.Replace? {
      ReplaceKeepsHonest(c, s, a.p);
    }
  }

  lemma StepKeepsInv(c: Codec, s: System, a: Action)
    requires c.Sound() && Inv(c, s)
    ensures Inv(c, Step(c, s, a))
  {
    hide RecordOf, Lines, Honest, StagesOk, IndexOk, Step;
    StepKeepsStages(c, s, a);
    BlobsGrow(c, s, a);
    if a.Append? {
      AppendKeepsIndex(c, s, a.p);
    } else if a.Tear? {
      TearKeepsIndex(c, s, a.p, a.written);
    } else {
      ContentKept(c, s, a);
      IndexKept(c, s, Step(c, s, a));
    }
  }

  lemma ContentKept(c: Codec, s: System, a: Action)
    requires !a.Append? && !a.Tear?
    ensures Content(Step(c, s, a).index) == Content(s.index)
  {
  }

  lemma {:induction false} RunsKeepInv(c: Codec, actions: seq<Action>)
    requires c.Sound()
    ensures Inv(c, Run(c, actions))
    decreases |actions|
  {
    hide Step;
    if actions != [] {
      RunsKeepInv(c, actions[..|actions| - 1]);
      StepKeepsInv(c, Run(c, actions[..|actions| - 1]), actions[|actions| - 1]);
    }
  }

  // ---------------------------------------------------------------- what that means for readers

  lemma LineIsWhole(c: Codec, s: System, i: nat)
    requires c.Sound() && Inv(c, s) && i < |Lines(s.index)| && Lines(s.index)[i].Entry?
    ensures Whole(c, Lines(s.index)[i].record, s.blobs)
  {
    hide RecordOf, Entries, Readable;
    EntryIsListed(Lines(s.index), i);
    var k :| 0 <= k < |Survivors(s)| && Lines(s.index)[i].record == RecordOf(c, Survivors(s)[k]);
    PutIsWhole(c, s.blobs, Survivors(s)[k]);
  }

  lemma PutIsWhole(c: Codec, blobs: Blobs, put: PutCall)
    requires c.Sound() && Honest(c, blobs) && InPlace(c, blobs, put)
    ensures Whole(c, RecordOf(c, put), blobs)
  {
    BlobNameIsHash(c, put);
    HonestBlobIsThePut(c, blobs, put);
  }

  /** Equal digests mean equal bytes, so whoever placed the blob, it holds this put's output. */
  lemma HonestBlobIsThePut(c: Codec, blobs: Blobs, put: PutCall)
    requires c.Sound() && Honest(c, blobs) && InPlace(c, blobs, put)
    ensures blobs[c.hex(c.encode(put.output))] == c.encode(put.output)
  {
  }

  /** However many processes interleave, crash and tear their lines: every index line that parses names a blob that is
      present and whose bytes match both of its digests. */
  lemma {:induction false} EveryLineNamesItsBlob(c: Codec, actions: seq<Action>)
    requires c.Sound()
    ensures var s := Run(c, actions); Tended(c, Lines(s.index), s.blobs)
  {
    hide Run, Whole, Inv;
    var s := Run(c, actions);
    RunsKeepInv(c, actions);
    forall i | 0 <= i < |Lines(s.index)| && Lines(s.index)[i].Entry?
      ensures Whole(c, Lines(s.index)[i].record, s.blobs) {
      LineIsWhole(c, s, i);
    }
    InvIsHonest(c, s);
  }

  lemma InvIsHonest(c: Codec, s: System)
    requires Inv(c, s)
    ensures Honest(c, s.blobs) && IndexOk(c, s)
  {
  }

  /** What a plain map would hold after these puts. */
  function Latest(puts: seq<PutCall>): map<string, Stored> {
    if puts == [] then map[]
    else Latest(puts[..|puts| - 1])[puts[|puts| - 1].key := Stored(puts[|puts| - 1].output, puts[|puts| - 1].at)]
  }

  lemma ReadsBack(c: Codec, blobs: Blobs, put: PutCall)
    requires c.Sound() && Honest(c, blobs) && InPlace(c, blobs, put)
    ensures Read(c, RecordOf(c, put), blobs) == Some(put.output)
  {
    BlobNameIsHash(c, put);
    HonestBlobIsThePut(c, blobs, put);
  }

  lemma {:induction false} ContentsAreLatest(c: Codec, log: seq<Line>, blobs: Blobs, puts: seq<PutCall>)
    requires c.Sound() && Honest(c, blobs) && Entries(log) == RecordsOf(c, puts)
    requires forall i :: 0 <= i < |puts| ==> InPlace(c, blobs, puts[i])
    ensures Contents(c, log, blobs) == Latest(puts) && Replay(log).Keys == Latest(puts).Keys
    decreases |log|
  {
    hide RecordOf, Read, Honest;
    if log != [] {
      var init, line := log[..|log| - 1], log[|log| - 1];
      if line.Junk? {
        ContentsAreLatest(c, init, blobs, puts);
      } else {
        var n := |puts| - 1;
        assert Entries(init) == RecordsOf(c, puts)[..n] == RecordsOf(c, puts[..n]);
        ContentsAreLatest(c, init, blobs, puts[..n]);
        assert line.record == RecordsOf(c, puts)[n];
        ReadsBack(c, blobs, puts[n]);
        RecordKey(c, puts[n]);
      }
    }
  }

  /** In every reachable state the directory answers like a plain map of the survivors: no crash, race, torn line or
      shared blob loses, mixes up or resurrects an output, except that a put which appends right behind an
      unterminated line is lost with it. */
  lemma {:induction false} DirectoryIsLatest(c: Codec, actions: seq<Action>)
    requires c.Sound()
    ensures var s := Run(c, actions); Contents(c, Lines(s.index), s.blobs) == Latest(Survivors(s))
  {
    hide Run, Contents, Latest, Entries, Readable;
    var s := Run(c, actions);
    RunsKeepInv(c, actions);
    ContentsAreLatest(c, Lines(s.index), s.blobs, Survivors(s));
  }

  // ---------------------------------------------------------------- one put, and one torn line

  /** An idle process whose record fits can carry its put through, whatever the state: the five steps leave the blob in
      place and the put finished. */
  lemma PutGoesThrough(c: Codec, s: System, p: nat, put: PutCall)
    requires s.At(p).Idle? && c.width(RecordOf(c, put)) <= 4096
    ensures var ready := Step(c, Step(c, Step(c, Step(c, s, Begin(p, put)), Fill(p)), Replace(p)), Ensure(p));
            var r := Step(c, ready, Append(p));
            && r.At(p).Idle? && r.done == s.done + [Done(put, !Closed(Content(s.index)))]
            && r.blobs == s.blobs[c.hex(c.encode(put.output)) := c.encode(put.output)]
            && Closed(Content(r.index))
  {
    hide RecordOf, Behind;
    var s1 := Step(c, s, Begin(p, put));
    var s2 := Step(c, s1, Fill(p));
    var s3 := Step(c, s2, Replace(p));
    var s4 := Step(c, s3, Ensure(p));
    var r := RecordOf(c, put);
    assert s4.At(p) == Ready(put);
    BehindEndsIn(Content(s4.index), Write(Entry(r, c.width(r)), true));
  }

  /** A process that is busy, or whose record is too long, does not begin. */
  lemma BeginsOnlyIdle(c: Codec, s: System, p: nat, put: PutCall)
    requires !s.At(p).Idle? || c.width(RecordOf(c, put)) > 4096
    ensures Step(c, s, Begin(p, put)) == s
  {
  }

  /** What a torn line shows behind a newline: the put, if only its newline is missing, and nothing otherwise. */
  lemma TearShows(c: Codec, actions: seq<Action>, p: nat, written: nat)
    requires c.Sound() && Run(c, actions).At(p).Ready? && Closed(Content(Run(c, actions).index))
    requires 1 <= written < c.width(RecordOf(c, Run(c, actions).At(p).put))
    ensures var s, s' := Run(c, actions), Run(c, actions + [Tear(p, written)]);
            && s'.At(p).Idle? && s'.done == s.done && !Closed(Content(s'.index))
            && Contents(c, Lines(s'.index), s'.blobs) ==
               if written + 1 == c.width(RecordOf(c, s.At(p).put))
               then Latest(Readable(s.done) + [s.At(p).put]) else Latest(Readable(s.done))
  {
    hide Run, Contents, Latest, Readable, Behind, RecordOf;
    var s, s' := Run(c, actions), Run(c, actions + [Tear(p, written)]);
    RunOnce(c, actions, Tear(p, written));
    DirectoryIsLatest(c, actions + [Tear(p, written)]);
    BehindEndsIn(Content(s.index), Write(Torn(c, s.At(p).put, written), false));
    assert Readable(s.done) + [] == Readable(s.done);
  }

  // ---------------------------------------------------------------- how much a tear can cost

  /** A put that appends behind an unterminated line finishes, and cannot be read back: the directory answers as if
      neither it nor the one that died had been. */
  lemma {:induction false} TornLineTakesNext(c: Codec, actions: seq<Action>, p: nat)
    requires c.Sound() && Run(c, actions).At(p).Ready? && !Closed(Content(Run(c, actions).index))
    ensures var s, s' := Run(c, actions), Run(c, actions + [Append(p)]);
            && s'.done == s.done + [Done(s.At(p).put, true)] && Closed(Content(s'.index))
            && Contents(c, Lines(s'.index), s'.blobs) == Latest(Readable(s.done))
  {
    hide Run, Contents, Latest, Readable, Behind, RecordOf;
    var s, s' := Run(c, actions), Run(c, actions + [Append(p)]);
    var r := RecordOf(c, s.At(p).put);
    BehindEndsIn(Content(s.index), Write(Entry(r, c.width(r)), true));
    RunOnce(c, actions, Append(p));
    DirectoryIsLatest(c, actions + [Append(p)]);
    ReadableGrows(s.done, Done(s.At(p).put, true));
    assert Survivors(s') == Readable(s.done);
  }

  lemma RunOnce(c: Codec, actions: seq<Action>, a: Action)
    ensures Run(c, actions + [a]) == Step(c, Run(c, actions), a)
  {
    assert (actions + [a])[..|actions|] == actions;
  }

  function Tears(actions: seq<Action>): nat {
    if actions == [] then 0 else Tears(actions[..|actions| - 1]) + if actions[|actions| - 1].Tear? then 1 else 0
  }

  function Glued(done: seq<Done>): nat {
    if done == [] then 0 else Glued(done[..|done| - 1]) + if done[|done| - 1].glued then 1 else 0
  }

  lemma GluedGrows(done: seq<Done>, d: Done)
    ensures Glued(done + [d]) == Glued(done) + if d.glued then 1 else 0
  {
    assert (done + [d])[..|done|] == done;
  }

  /** A tear costs at most one finished put. */
  lemma {:induction false} LossesAreCounted(c: Codec, actions: seq<Action>)
    ensures var s := Run(c, actions);
            Glued(s.done) + (if Closed(Content(s.index)) then 0 else 1) <= Tears(actions)
    decreases |actions|
  {
    hide RecordOf, Lines, Behind, Torn, Glued;
    if actions == [] {
      NothingGlued();
    } else {
      var init, a := actions[..|actions| - 1], actions[|actions| - 1];
      LossesAreCounted(c, init);
      var s := Run(c, init);
      if a.Append? && s.At(a.p).Ready? {
        var r := RecordOf(c, s.At(a.p).put);
        BehindEndsIn(Content(s.index), Write(Entry(r, c.width(r)), true));
        GluedGrows(s.done, Done(s.At(a.p).put, !Closed(Content(s.index))));
      }
    }
  }

  lemma NothingGlued()
    ensures Glued([]) == 0
  {
  }

  function Puts(done: seq<Done>): (r: seq<PutCall>)
    ensures |r| == |done| && forall i :: 0 <= i < |done| ==> r[i] == done[i].put
  {
    seq(|done|, i requires 0 <= i < |done| => done[i].put)
  }

  lemma {:induction false} AllReadable(done: seq<Done>)
    requires Glued(done) == 0
    ensures Readable(done) == Puts(done)
  {
    if done != [] {
      AllReadable(done[..|done| - 1]);
    }
  }

  /** Where no append is torn, the directory is the plain map of all finished puts. */
  lemma {:induction false} UntornIsComplete(c: Codec, actions: seq<Action>)
    requires c.Sound() && Tears(actions) == 0
    ensures var s := Run(c, actions); Contents(c, Lines(s.index), s.blobs) == Latest(Puts(s.done))
  {
    hide Run, Contents, Latest, Readable, Glued, Tears;
    DirectoryIsLatest(c, actions);
    LossesAreCounted(c, actions);
    AllReadable(Run(c, actions).done);
    RunsKeepInv(c, actions);
    assert Survivors(Run(c, actions)) == Readable(Run(c, actions).done);
  }

  /** The file's size tells of every change to its lines: no step shortens it, and none changes a line without making
      it longer. */
  lemma SizeTells(c: Codec, s: System, a: Action)
    requires forall r: Record :: c.width(r) > 0
    ensures var before, after := Lines(s.index), Lines(Step(c, s, a).index);
            after == before || Size(after) > Size(before)
  {
    hide RecordOf, Size, Behind;
    var f, stage := Content(s.index), s.At(a.p);
    if stage.Ready? {
      var r := RecordOf(c, stage.put);
      if a.Append? {
        BehindSize(f, Write(Entry(r, c.width(r)), true));
      } else if a.Tear? {
        BehindSize(f, Write(Torn(c, stage.put, a.written), false));
      }
    }
  }
}
