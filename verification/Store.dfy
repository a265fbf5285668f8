/** The content-addressed cache: an append-only index beside a tree of blobs. */
module Store {
  import opened Wrappers
  import opened JsonTree

  type Bytes = string

  /** A sanitized probe output. Its slice is a dictionary: two slices are equal whatever order their fields came in. */
  datatype Output = Output(
    slice: Dict, artifacts: seq<string>, confidence: string, durationMs: int, warnings: seq<string>,
    errors: seq<string>)

  /** One index record; `blake3` carries its algorithm tag. */
  datatype Record = Record(
    key: string, blake3: string, sha256: string, createdAt: int, probeName: string, probeVersion: string)

  const TAG := "blake3:"
  const MAX_RECORD_BYTES := 4096

  /** Library code, as functions: the two digests, the blob codec, the byte length of a serialized index line. */
  datatype Codec = Codec(
    hex: Bytes -> string, sha: Bytes -> string, encode: Output -> Bytes, decode: Bytes -> Option<Output>,
    width: Record -> int)
  {
    /** Content hashes do not collide, blobs round-trip, and no index line is empty. */
    ghost predicate Sound() {
      && (forall a: Bytes, b: Bytes :: hex(a) == hex(b) ==> a == b)
      && (forall o: Output :: decode(encode(o)) == Some(o))
      && (forall r: Record :: width(r) > 0)
    }
  }

  /** One call of `put`; `at` is its clock reading in whole seconds. */
  datatype PutCall = PutCall(key: string, output: Output, at: int, probeName: string, probeVersion: string)

  function RecordOf(c: Codec, p: PutCall): Record {
    var bytes := c.encode(p.output);
    Record(p.key, TAG + c.hex(bytes), c.sha(bytes), p.at, p.probeName, p.probeVersion)
  }

  function RemovePrefix(s: string, prefix: string): string {
    if prefix <= s then s[|prefix|..] else s
  }

  function BlobName(r: Record): string { RemovePrefix(r.blake3, TAG) }

  lemma BlobNameIsHash(c: Codec, p: PutCall)
    ensures BlobName(RecordOf(c, p)) == c.hex(c.encode(p.output))
  {
    var hex := c.hex(c.encode(p.output));
    assert TAG <= TAG + hex && (TAG + hex)[|TAG|..] == hex;
  }

  lemma RecordKey(c: Codec, p: PutCall)
    ensures RecordOf(c, p).key == p.key && RecordOf(c, p).createdAt == p.at
  {
  }

  lemma RecordFields(c: Codec, p: PutCall)
    ensures var hash := c.hex(c.encode(p.output));
            RecordOf(c, p) ==
            Record(p.key, "blake3:" + hash, c.sha(c.encode(p.output)), p.at, p.probeName, p.probeVersion)
  {
  }

  // ---------------------------------------------------------------- the index

  /** A line of `index.jsonl` with its length in bytes; `Junk` is a torn or blank line, which readers skip. */
  datatype Line = Entry(record: Record, width: int) | Junk(width: int)

  function Size(log: seq<Line>): int {
    if log == [] then 0 else Size(log[..|log| - 1]) + log[|log| - 1].width
  }

  /** The latest record of every key. */
  function Replay(log: seq<Line>): map<string, Record> {
    if log == [] then map[]
    else
      var before := Replay(log[..|log| - 1]);
      match log[|log| - 1]
      case Entry(r, _) => before[r.key := r]
      case Junk(_) => before
  }

  lemma LogAppend(log: seq<Line>, line: Line)
    ensures Size(log + [line]) == Size(log) + line.width
    ensures Replay(log + [line]) == if line.Entry? then Replay(log)[line.record.key := line.record] else Replay(log)
  {
    assert (log + [line])[..|log|] == log;
  }

  /** Replaying two stretches: later records win. */
  lemma {:induction false} ReplayConcat(a: seq<Line>, b: seq<Line>)
    ensures Replay(a + b) == Replay(a) + Replay(b)
  {
    if b == [] {
      assert a + b == a;
    } else {
      var init, last := b[..|b| - 1], b[|b| - 1];
      assert a + b == (a + init) + [last] && b == init + [last];
      ReplayConcat(a, init);
      LogAppend(a + init, last);
      LogAppend(init, last);
    }
  }

  ghost predicate Mentions(line: Line, key: string) { line.Entry? && line.record.key == key }

  /** `i` is the last line about `key`. */
  ghost predicate LastAbout(log: seq<Line>, key: string, i: int) {
    0 <= i < |log| && Mentions(log[i], key) && forall j :: i < j < |log| ==> !Mentions(log[j], key)
  }

  /** Replaying means: the last line about a key decides, and keys no line is about are absent. */
  lemma {:induction false} ReplayIsLast(log: seq<Line>, key: string)
    ensures key in Replay(log) <==> exists i :: 0 <= i < |log| && Mentions(log[i], key)
    ensures forall i :: LastAbout(log, key, i) ==> key in Replay(log) && Replay(log)[key] == log[i].record
    decreases |log|
  {
    if log != [] {
      var init, last := log[..|log| - 1], log[|log| - 1];
      ReplayIsLast(init, key);
      forall i | LastAbout(log, key, i) ensures key in Replay(log) && Replay(log)[key] == log[i].record {
        if i < |init| {
          assert Mentions(init[i], key);
          assert LastAbout(init, key, i) && !Mentions(last, key);
        }
      }
      if key in Replay(init) {
        var i :| 0 <= i < |init| && Mentions(init[i], key);
        assert Mentions(log[i], key);
      } else if Mentions(last, key) {
        assert Mentions(log[|log| - 1], key);
      } else {
        forall i | 0 <= i < |log| ensures !Mentions(log[i], key) {
          assert i < |init| ==> !Mentions(init[i], key);
        }
      }
    }
  }

  function Find<V>(m: map<string, V>, key: string): Option<V> {
    if key in m then Some(m[key]) else None
  }

  /** The index file: its lines, and whether the last one has its newline. */
  datatype File = File(lines: seq<Line>, ended: bool)

  const EMPTY := File([], true)

  /** What is appended starts a line of its own. */
  predicate Closed(f: File) { f.ended || f.lines == [] }

  /** What one append leaves: a line, or the first bytes of one. A line that lacks nothing but its newline is read like
      any other. */
  datatype Write = Write(line: Line, ended: bool)

  /** What is appended behind an unterminated line becomes one line with it, and that line does not parse. */
  function Behind(f: File, w: Write): File {
    var n := |f.lines| - 1;
    if Closed(f) then File(f.lines + [w.line], w.ended)
    else File(f.lines[..n] + [Junk(f.lines[n].width + w.line.width)], w.ended)
  }

  function After(f: File, ws: seq<Write>): File {
    if ws == [] then f else Behind(After(f, ws[..|ws| - 1]), ws[|ws| - 1])
  }

  /** The file may not exist yet. */
  function Content(index: Option<File>): File {
    if index.Some? then index.value else EMPTY
  }

  function Lines(index: Option<File>): seq<Line> { Content(index).lines }

  lemma BehindSize(f: File, w: Write)
    ensures Size(Behind(f, w).lines) == Size(f.lines) + w.line.width
  {
    hide Size;
    if Closed(f) {
      LogAppend(f.lines, w.line);
    } else {
      var n := |f.lines| - 1;
      LogAppend(f.lines[..n], f.lines[n]);
      LogAppend(f.lines[..n], Junk(f.lines[n].width + w.line.width));
      assert f.lines == f.lines[..n] + [f.lines[n]];
    }
  }

  lemma BehindShift(front: seq<Line>, d: File, w: Write)
    requires d.ended || d.lines != []
    ensures Behind(File(front + d.lines, d.ended), w) == File(front + Behind(d, w).lines, w.ended)
    ensures Behind(d, w).ended == w.ended && Behind(d, w).lines != []
  {
    var all, n := front + d.lines, |d.lines| - 1;
    if d.ended {
      assert all + [w.line] == front + (d.lines + [w.line]);
    } else {
      assert all[..|all| - 1] == front + d.lines[..n];
      var glued := Junk(d.lines[n].width + w.line.width);
      assert front + d.lines[..n] + [glued] == front + (d.lines[..n] + [glued]);
    }
  }

  /** Behind a newline, what is appended stands on lines of its own. */
  lemma {:induction false} AfterAppends(f: File, ws: seq<Write>)
    requires f.ended
    ensures After(f, ws) == File(f.lines + After(EMPTY, ws).lines, After(EMPTY, ws).ended)
    ensures After(EMPTY, ws).ended || After(EMPTY, ws).lines != []
  {
    hide Behind;
    if ws == [] {
      assert f.lines + [] == f.lines;
    } else {
      var init, w := ws[..|ws| - 1], ws[|ws| - 1];
      AfterAppends(f, init);
      BehindShift(f.lines, After(EMPTY, init), w);
    }
  }

  method LoadIndex(lines: seq<Line>) returns (out: map<string, Record>)
    ensures out == Replay(lines)
  {
    hide Replay;
    out := map[];
    EmptyLog();
    for i := 0 to |lines|
      invariant out == Replay(lines[..i])
    {
      LogAppend(lines[..i], lines[i]);
      assert lines[..i + 1] == lines[..i] + [lines[i]];
      if lines[i].Entry? {
        out := out[lines[i].record.key := lines[i].record];
      }
    }
    assert lines[..|lines|] == lines;
  }

  lemma EmptyLog()
    ensures Replay([]) == map[] && Size([]) == 0
  {
  }

  // ---------------------------------------------------------------- the size-guarded view

  /** What one process keeps in memory of the index, and the file size it was taken at. */
  datatype View = View(cache: Option<map<string, Record>>, size: int)

  const COLD := View(None, -1)

  /** `stat` is the size read first; the file is loaded only when that size is news. */
  function Refresh(v: View, stat: int, log: seq<Line>): View {
    if v.cache.None? || stat != v.size then View(Some(Replay(log)), stat) else v
  }

  function Absorb(v: View, r: Record, size: int): View {
    if v.cache.None? then v else View(Some(v.cache.value[r.key := r]), size)
  }

  /** If the size guard lets the view answer, the view is what replaying the log gives. */
  ghost predicate Agrees(v: View, log: seq<Line>) {
    v.cache.Some? ==> v.size <= Size(log) && (v.size == Size(log) ==> v.cache.value == Replay(log))
  }

  ghost predicate UpToDate(v: View, log: seq<Line>) { v.cache.Some? ==> v.size == Size(log) }

  ghost predicate Solid(ws: seq<Write>) { forall i :: 0 <= i < |ws| ==> ws[i].line.width > 0 }

  lemma {:induction false} AfterSize(f: File, ws: seq<Write>)
    requires Solid(ws)
    ensures Size(After(f, ws).lines) >= Size(f.lines) && (Size(After(f, ws).lines) == Size(f.lines) ==> ws == [])
  {
    hide Behind, Size;
    if ws != [] {
      AfterSize(f, ws[..|ws| - 1]);
      BehindSize(After(f, ws[..|ws| - 1]), ws[|ws| - 1]);
    }
  }

  /** One process's view beside an index that other processes append to. */
  datatype World = World(index: Option<File>, view: View)

  /** `during` is what others append in the middle: of a put, between its append and its stat; of a look, between
      its stat and its load. */
  datatype Move =
    | Foreign(writes: seq<Write>)
    | OwnPut(record: Record, width: int, during: seq<Write>)
    | Look(during: seq<Write>)

  function Apply(w: World, m: Move): World {
    var f := Content(w.index);
    match m
    case Foreign(ws) => w.(index := Some(After(f, ws)))
    case OwnPut(r, width, during) =>
      var f' := After(Behind(f, Write(Entry(r, width), true)), during);
      World(Some(f'), Absorb(w.view, r, Size(f'.lines)))
    case Look(during) =>
      if w.index.None? then w
      else
        var f' := After(f, during);
        World(Some(f'), Refresh(w.view, Size(f.lines), f'.lines))
  }

  /** What a look that ended in `w` says about a key. */
  function Answer(w: World, key: string): Option<Record> {
    if w.index.None? || w.view.cache.None? then None else Find(w.view.cache.value, key)
  }

  ghost predicate SolidMove(m: Move) {
    match m
    case Foreign(ws) => Solid(ws)
    case OwnPut(_, width, during) => width > 0 && Solid(during)
    case Look(during) => Solid(during)
  }

  ghost predicate Ended(w: World) { Closed(Content(w.index)) }

  /** A put starts with the file as long as the process last saw it, and behind a newline; and nobody appends while it
      finishes. */
  ghost predicate Calm(w: World, m: Move) {
    m.OwnPut? ==> UpToDate(w.view, Lines(w.index)) && Ended(w) && m.during == []
  }

  ghost predicate True(w: World) { Agrees(w.view, Lines(w.index)) }

  lemma PutKeepsTrue(w: World, m: Move)
    requires True(w) && m.OwnPut? && SolidMove(m) && Calm(w, m)
    ensures True(Apply(w, m)) && UpToDate(Apply(w, m).view, Lines(Apply(w, m).index)) && Ended(Apply(w, m))
  {
    hide Replay, Size;
    LogAppend(Lines(w.index), Entry(m.record, m.width));
  }

  lemma MoveKeepsTrue(w: World, m: Move)
    requires True(w) && SolidMove(m) && Calm(w, m)
    ensures True(Apply(w, m))
  {
    hide Replay, Size, Behind;
    match m
    case Foreign(ws) => AfterSize(Content(w.index), ws);
    case Look(during) => AfterSize(Content(w.index), during);
    case OwnPut(_, _, _) => PutKeepsTrue(w, m);
  }

  function Play(moves: seq<Move>): World {
    if moves == [] then World(None, COLD) else Apply(Play(moves[..|moves| - 1]), moves[|moves| - 1])
  }

  ghost predicate SolidMoves(moves: seq<Move>) { forall k :: 0 <= k < |moves| ==> SolidMove(moves[k]) }

  ghost predicate CalmMoves(moves: seq<Move>) {
    forall k :: 0 <= k < |moves| ==> CalmAt(moves, k)
  }

  ghost predicate CalmAt(moves: seq<Move>, k: nat)
    requires k < |moves|
  {
    Calm(Play(moves[..k]), moves[k])
  }

  /** In every run whose puts are calm, whatever others append and whenever, torn lines included, the view stays true to
      the log. */
  lemma {:induction false} CalmRunsStayTrue(moves: seq<Move>)
    requires SolidMoves(moves) && CalmMoves(moves)
    ensures True(Play(moves))
    decreases |moves|
  {
    hide Apply, Calm, SolidMove, Agrees;
    if moves == [] {
      ColdIsTrue();
    } else {
      var before := moves[..|moves| - 1];
      forall k | 0 <= k < |before| ensures CalmAt(before, k) {
        assert CalmAt(moves, k) && before[..k] == moves[..k];
      }
      assert CalmAt(moves, |before|);
      CalmRunsStayTrue(before);
      MoveKeepsTrue(Play(before), moves[|moves| - 1]);
    }
  }

  lemma ColdIsTrue()
    ensures True(World(None, COLD)) && Ended(World(None, COLD))
  {
  }

  /** From a true view a look answers with the last record of the key: as of its stat when the size was known, as
      of its load when it was news. */
  lemma LookFindsLast(w: World, during: seq<Write>, key: string)
    requires True(w) && Solid(during)
    ensures var w' := Apply(w, Look(during));
            var seen :=
              if w.view.cache.None? || w.view.size != Size(Lines(w.index)) then Lines(w'.index) else Lines(w.index);
            Answer(w', key) == Find(Replay(seen), key)
  {
    if w.index.None? {
      EmptyLog();
    }
  }

  lemma LookOnAnswers(moves: seq<Move>, during: seq<Write>, key: string)
    requires SolidMoves(moves) && CalmMoves(moves) && Solid(during)
    ensures var w := Play(moves);
            var w' := Apply(w, Look(during));
            || Answer(w', key) == Find(Replay(Lines(w.index)), key)
            || Answer(w', key) == Find(Replay(Lines(w'.index)), key)
  {
    hide Apply, Calm, SolidMove, Agrees, Replay, Size, Play, Answer;
    CalmRunsStayTrue(moves);
    LookFindsLast(Play(moves), during, key);
  }

  /** A process alone with the index. */
  ghost predicate Alone(moves: seq<Move>) {
    forall k :: 0 <= k < |moves| ==> !moves[k].Foreign? && moves[k].during == []
  }

  lemma AloneStep(w: World, m: Move)
    requires True(w) && UpToDate(w.view, Lines(w.index)) && Ended(w) && SolidMove(m) && !m.Foreign? && m.during == []
    ensures Calm(w, m) && UpToDate(Apply(w, m).view, Lines(Apply(w, m).index)) && Ended(Apply(w, m))
  {
    hide Replay, Size;
    if m.OwnPut? {
      PutKeepsTrue(w, m);
    }
  }

  lemma {:induction false} AloneIsCalm(moves: seq<Move>)
    requires SolidMoves(moves) && Alone(moves)
    ensures CalmMoves(moves) && UpToDate(Play(moves).view, Lines(Play(moves).index)) && Ended(Play(moves))
    decreases |moves|
  {
    hide Apply, Calm, SolidMove, Agrees, Content;
    if moves == [] {
      ColdIsTrue();
    } else {
      var before := moves[..|moves| - 1];
      AloneIsCalm(before);
      CalmRunsStayTrue(before);
      AloneStep(Play(before), moves[|before|]);
      forall k | 0 <= k < |moves| ensures CalmAt(moves, k) {
        if k < |before| {
          assert CalmAt(before, k) && moves[..k] == before[..k];
        }
      }
    }
  }

  /** In every single-process run a look answers with the last record appended for the key. */
  lemma AloneLooksAreExact(moves: seq<Move>, key: string)
    requires SolidMoves(moves) && Alone(moves)
    ensures var w := Play(moves); Answer(Apply(w, Look([])), key) == Find(Replay(Lines(w.index)), key)
  {
    hide Calm, SolidMove, Agrees, Replay, Size, Play, Answer, Refresh;
    AloneIsCalm(moves);
    CalmRunsStayTrue(moves);
    LookFindsLast(Play(moves), [], key);
  }

  /** What others wrote about keys other than `key`, the view already says. */
  ghost predicate Harmless(others: seq<Line>, key: string, cache: map<string, Record>) {
    forall k :: k in Replay(others) && k != key ==> k in cache && cache[k] == Replay(others)[k]
  }

  /** A process last saw the first `n` lines. Its put, behind a newline, leaves its view true exactly when what others
      appended since, before and during the put, is news about no other key, and nothing else about its own key came
      after it. */
  lemma PutExact(w: World, n: nat, r: Record, width: int, during: seq<Write>)
    requires Ended(w) && n <= |Lines(w.index)| && w.view.cache == Some(Replay(Lines(w.index)[..n]))
    ensures var late := After(EMPTY, during).lines;
            True(Apply(w, OwnPut(r, width, during))) <==>
            && Harmless(Lines(w.index)[n..] + late, r.key, w.view.cache.value)
            && (r.key in Replay(late) ==> Replay(late)[r.key] == r)
  {
    hide Replay, Size;
    var log := Lines(w.index);
    var own := Entry(r, width);
    var late := After(EMPTY, during).lines;
    ReplayConcat(log[..n], log[n..]);
    assert log[..n] + log[n..] == log;
    LogAppend(log, own);
    assert Behind(Content(w.index), Write(own, true)) == File(log + [own], true);
    AfterAppends(File(log + [own], true), during);
    ReplayConcat(log + [own], late);
    ReplayConcat(log[n..], late);
    MapsAgree(w.view.cache.value, Replay(log[n..]), Replay(late), r.key, r);
  }

  /** The lines before the last one say the same of `key`. */
  ghost predicate SaidBefore(log: seq<Line>, r: Record)
    requires log != []
  {
    Find(Replay(log[..|log| - 1]), r.key) == Some(r)
  }

  /** A put that is in step with the file and not raced leaves a view that answers true exactly when the file ended
      behind a newline, or the unterminated line it was glued to loses nothing: neither the record of the put nor the
      one on that line was news. */
  lemma CalmPutExact(w: World, r: Record, width: int)
    requires True(w) && UpToDate(w.view, Lines(w.index)) && w.view.cache.Some? && width > 0
    ensures var log := Lines(w.index);
            True(Apply(w, OwnPut(r, width, []))) <==>
            || Ended(w)
            || (SaidBefore(log, r) && (log[|log| - 1].Entry? && log[|log| - 1].record.key != r.key ==>
                  SaidBefore(log, log[|log| - 1].record)))
  {
    hide Replay, Size;
    if Ended(w) {
      PutKeepsTrue(w, OwnPut(r, width, []));
    } else {
      var log := Lines(w.index);
      var n := |log| - 1;
      var glued := Junk(log[n].width + width);
      assert log == log[..n] + [log[n]];
      LogAppend(log[..n], log[n]);
      LogAppend(log[..n], glued);
      var cache, before := w.view.cache.value, Replay(log[..n]);
      assert Lines(Apply(w, OwnPut(r, width, [])).index) == log[..n] + [glued];
      GluedAgrees(before, log[n], r);
    }
  }

  lemma GluedAgrees(before: map<string, Record>, last: Line, r: Record)
    ensures var seen := if last.Entry? then before[last.record.key := last.record] else before;
            seen[r.key := r] == before <==>
            Find(before, r.key) == Some(r) &&
            (last.Entry? && last.record.key != r.key ==> Find(before, last.record.key) == Some(last.record))
  {
    var seen := if last.Entry? then before[last.record.key := last.record] else before;
    if seen[r.key := r] == before {
      assert seen[r.key := r][r.key] == r;
      if last.Entry? && last.record.key != r.key {
        assert seen[r.key := r][last.record.key] == last.record;
      }
    }
  }

  /** So a put of something new is true to the file exactly behind a newline. */
  lemma NewPutNeedsNewline(w: World, r: Record, width: int)
    requires True(w) && UpToDate(w.view, Lines(w.index)) && w.view.cache.Some? && width > 0
    requires forall i :: 0 <= i < |Lines(w.index)| ==> Lines(w.index)[i] != Entry(r, Lines(w.index)[i].width)
    ensures True(Apply(w, OwnPut(r, width, []))) <==> Ended(w)
  {
    hide Replay, Size, Apply, True, UpToDate;
    CalmPutExact(w, r, width);
    var log := Lines(w.index);
    if log != [] && SaidBefore(log, r) {
      var init := log[..|log| - 1];
      LatestIsOnALine(init, r.key);
      assert log[LineOf(init, r.key)] == init[LineOf(init, r.key)];
    }
  }

  lemma MapsAgree<V>(cache: map<string, V>, missed: map<string, V>, late: map<string, V>, key: string, v: V)
    ensures cache[key := v] == (cache + missed)[key := v] + late <==>
            && (forall k :: k in missed + late && k != key ==> k in cache && cache[k] == (missed + late)[k])
            && (key in late ==> late[key] == v)
  {
    var all := (cache + missed)[key := v] + late;
    forall k | k in missed + late && k != key
      ensures k in all && all[k] == (missed + late)[k]
    {
    }
    if cache[key := v] == all {
      assert forall k :: k in missed + late && k != key ==> k in cache[key := v] && cache[key := v][k] == all[k];
      assert all[key] == v;
    }
  }

  /** So a foreign record can be missed for good: the size guard sees nothing new after the put. */
  lemma PutHidesForeignRecord(theirs: Record, mine: Record)
    requires theirs.key != mine.key
    ensures var moves :=
              [Foreign([]), Look([]), Foreign([Write(Entry(theirs, 10), true)]), OwnPut(mine, 10, []), Look([])];
            Answer(Play(moves), theirs.key) == None && theirs.key in Replay(Lines(Play(moves).index))
  {
    hide Replay, Size;
    var news := [Write(Entry(theirs, 10), true)];
    var m0: seq<Move> := [Foreign([])];
    var m1 := m0 + [Look([])];
    var m2 := m1 + [Foreign(news)];
    var m3 := m2 + [OwnPut(mine, 10, [])];
    var m4 := m3 + [Look([])];
    EmptyLog();
    LogAppend([], Entry(theirs, 10));
    LogAppend([Entry(theirs, 10)], Entry(mine, 10));
    PlayOne([], Foreign([]));
    PlayOne(m0, Look([]));
    PlayOne(m1, Foreign(news));
    PlayOne(m2, OwnPut(mine, 10, []));
    PlayOne(m3, Look([]));
    assert news[..0] == [] && After(EMPTY, news) == Behind(EMPTY, news[0]);
    var log3 := [Entry(theirs, 10), Entry(mine, 10)];
    assert [] + [Entry(theirs, 10)] == [Entry(theirs, 10)];
    assert [Entry(theirs, 10)] + [Entry(mine, 10)] == log3;
    assert Play(m4) == World(Some(File(log3, true)), View(Some(map[mine.key := mine]), 20));
    assert m4 == [Foreign([]), Look([]), Foreign(news), OwnPut(mine, 10, []), Look([])];
  }

  lemma PlayOne(moves: seq<Move>, m: Move)
    ensures Play(moves + [m]) == Apply(Play(moves), m)
  {
    assert (moves + [m])[..|moves|] == moves;
  }

  // ---------------------------------------------------------------- blobs

  type Blobs = map<string, Bytes>

  /** Every blob is named by its own digest and is the encoding of an output. */
  ghost predicate Honest(c: Codec, blobs: Blobs) {
    forall h :: h in blobs ==>
      c.hex(blobs[h]) == h && c.decode(blobs[h]).Some? && c.encode(c.decode(blobs[h]).value) == blobs[h]
  }

  /** The blob that `r` names is present and matches both digests of the record. */
  ghost predicate Whole(c: Codec, r: Record, blobs: Blobs) {
    var name := BlobName(r);
    name in blobs && r.blake3 == TAG + c.hex(blobs[name]) && r.sha256 == c.sha(blobs[name])
  }

  ghost predicate AllWhole(c: Codec, log: seq<Line>, blobs: Blobs) {
    forall i :: 0 <= i < |log| && log[i].Entry? ==> Whole(c, log[i].record, blobs)
  }

  /** Index and blobs as the store leaves them when nobody else tampers. */
  ghost predicate Tended(c: Codec, log: seq<Line>, blobs: Blobs) {
    Honest(c, blobs) && AllWhole(c, log, blobs)
  }

  /** The output behind a record: none if the blob is missing, fails its SHA-256, or does not decode. */
  function Read(c: Codec, r: Record, blobs: Blobs): Option<Output> {
    var name := BlobName(r);
    if name !in blobs || c.sha(blobs[name]) != r.sha256 then None else c.decode(blobs[name])
  }

  datatype Stored = Stored(output: Output, at: int)

  /** The store as a plain map: what each key would be answered with, and since when. */
  function Contents(c: Codec, log: seq<Line>, blobs: Blobs): map<string, Stored> {
    var latest := Replay(log);
    map k | k in latest && Read(c, latest[k], blobs).Some? ::
      Stored(Read(c, latest[k], blobs).value, latest[k].createdAt)
  }

  function Fetch(m: map<string, Stored>, key: string, ttlHours: int, now: real): Option<Output> {
    if key in m && now - m[key].at as real <= (ttlHours * 3600) as real then Some(m[key].output) else None
  }

  function Place(c: Codec, blobs: Blobs, p: PutCall): Blobs {
    blobs[c.hex(c.encode(p.output)) := c.encode(p.output)]
  }

  lemma {:induction false} LatestIsOnALine(log: seq<Line>, key: string)
    requires key in Replay(log)
    ensures Entry(Replay(log)[key], log[LineOf(log, key)].width) == log[LineOf(log, key)] && Replay(log)[key].key == key
  {
    var init := log[..|log| - 1];
    if !Mentions(log[|log| - 1], key) {
      LatestIsOnALine(init, key);
    }
  }

  ghost function LineOf(log: seq<Line>, key: string): (i: nat)
    requires key in Replay(log)
    ensures i < |log|
  {
    if Mentions(log[|log| - 1], key) then |log| - 1 else LineOf(log[..|log| - 1], key)
  }

  /** Placing a blob over honest ones changes none of those that were there. */
  lemma PlaceKeeps(c: Codec, blobs: Blobs, p: PutCall)
    requires c.Sound() && Honest(c, blobs)
    ensures Honest(c, Place(c, blobs, p))
    ensures forall h :: h in blobs ==> h in Place(c, blobs, p) && Place(c, blobs, p)[h] == blobs[h]
    ensures Whole(c, RecordOf(c, p), Place(c, blobs, p))
    ensures Read(c, RecordOf(c, p), Place(c, blobs, p)) == Some(p.output)
  {
    BlobNameIsHash(c, p);
  }

  lemma PlaceKeepsTended(c: Codec, log: seq<Line>, blobs: Blobs, p: PutCall)
    requires c.Sound() && Tended(c, log, blobs)
    ensures Tended(c, log, Place(c, blobs, p))
  {
    PlaceKeeps(c, blobs, p);
  }

  lemma LatestReads(c: Codec, log: seq<Line>, blobs: Blobs, p: PutCall, key: string)
    requires c.Sound() && Tended(c, log, blobs) && key in Replay(log)
    ensures Read(c, Replay(log)[key], Place(c, blobs, p)) == Read(c, Replay(log)[key], blobs)
    ensures Read(c, Replay(log)[key], blobs).Some?
  {
    LatestIsOnALine(log, key);
    assert Whole(c, log[LineOf(log, key)].record, blobs);
    PlaceKeeps(c, blobs, p);
  }

  /** A put updates the plain map at its key and nowhere else. */
  lemma PutUpdatesContents(c: Codec, log: seq<Line>, blobs: Blobs, p: PutCall)
    requires c.Sound() && Tended(c, log, blobs)
    ensures var log' := log + [Entry(RecordOf(c, p), c.width(RecordOf(c, p)))];
            && Tended(c, log', Place(c, blobs, p))
            && Contents(c, log', Place(c, blobs, p)) == Contents(c, log, blobs)[p.key := Stored(p.output, p.at)]
  {
    hide Replay, Read, Place, Whole;
    var r := RecordOf(c, p);
    LogAppend(log, Entry(r, c.width(r)));
    PlaceKeeps(c, blobs, p);
    PlaceKeepsTended(c, log, blobs, p);
    forall k | k in Replay(log)
      ensures Read(c, Replay(log)[k], Place(c, blobs, p)) == Read(c, Replay(log)[k], blobs)
      ensures Read(c, Replay(log)[k], blobs).Some?
    {
      LatestReads(c, log, blobs, p, k);
    }
  }

  /** Fewer lines need fewer blobs. */
  lemma DropKeepsTended(c: Codec, log: seq<Line>, blobs: Blobs)
    requires log != [] && Tended(c, log, blobs)
    ensures Tended(c, log[..|log| - 1], blobs)
  {
    var init := log[..|log| - 1];
    forall i | 0 <= i < |init| && init[i].Entry? ensures Whole(c, init[i].record, blobs) {
      assert init[i] == log[i];
    }
  }

  /** A put behind an unterminated line leaves the plain map of the lines before that one. */
  lemma PutBehindTorn(c: Codec, log: seq<Line>, blobs: Blobs, p: PutCall, width: int)
    requires c.Sound() && log != [] && Tended(c, log, blobs)
    ensures var init := log[..|log| - 1];
            && Tended(c, init + [Junk(width)], Place(c, blobs, p))
            && Contents(c, init + [Junk(width)], Place(c, blobs, p)) == Contents(c, init, blobs)
  {
    hide Replay, Read, Place, Whole;
    var init := log[..|log| - 1];
    LogAppend(init, Junk(width));
    DropKeepsTended(c, log, blobs);
    PlaceKeeps(c, blobs, p);
    PlaceKeepsTended(c, init, blobs, p);
    forall k | k in Replay(init)
      ensures Read(c, Replay(init)[k], Place(c, blobs, p)) == Read(c, Replay(init)[k], blobs) {
      LatestReads(c, init, blobs, p, k);
    }
  }

  /** The plain map behind a file and its blobs after a put of `p`. */
  ghost function AfterPut(c: Codec, f: File, blobs: Blobs, p: PutCall): map<string, Stored> {
    if Closed(f) then Contents(c, f.lines, blobs)[p.key := Stored(p.output, p.at)]
    else Contents(c, f.lines[..|f.lines| - 1], blobs)
  }

  /** What a put that nobody raced does to the plain map, and to a view that was in step with a file that ended behind a
      newline. */
  lemma QuietPut(c: Codec, w: World, blobs: Blobs, p: PutCall)
    requires c.Sound()
    ensures var r := RecordOf(c, p);
            var w' := Apply(w, OwnPut(r, c.width(r), []));
            && Ended(w')
            && (Tended(c, Lines(w.index), blobs) ==>
                  && Tended(c, Lines(w'.index), Place(c, blobs, p))
                  && Contents(c, Lines(w'.index), Place(c, blobs, p)) == AfterPut(c, Content(w.index), blobs, p))
            && (True(w) && UpToDate(w.view, Lines(w.index)) && Ended(w) ==>
                  True(w') && UpToDate(w'.view, Lines(w'.index)))
  {
    hide Replay, Size, True, UpToDate, Tended, Contents, RecordOf, Place;
    var r := RecordOf(c, p);
    var log := Lines(w.index);
    if Tended(c, log, blobs) {
      if Ended(w) {
        PutUpdatesContents(c, log, blobs, p);
      } else {
        PutBehindTorn(c, log, blobs, p, log[|log| - 1].width + c.width(r));
      }
    }
    if True(w) && UpToDate(w.view, log) && Ended(w) {
      PutKeepsTrue(w, OwnPut(r, c.width(r), []));
    }
  }

  lemma PutEndsLine(w: World, r: Record, width: int)
    ensures Ended(Apply(w, OwnPut(r, width, [])))
  {
    hide Size;
  }

  // ---------------------------------------------------------------- the store object

  /** The cache directory, shared by every store opened on it. */
  class Directory {
    var index: Option<File>
    var blobs: Blobs

    constructor ()
      ensures index == None && blobs == map[]
    {
      index, blobs := None, map[];
    }
  }

  class CacheStore {
    const codec: Codec
    const dir: Directory
    const ttlHours: int
    var indexCache: Option<map<string, Record>>
    var indexSize: int

    function Seen(): World
      reads this, dir
    {
      World(dir.index, View(indexCache, indexSize))
    }

    ghost function Plain(): map<string, Stored>
      reads this, dir
    {
      Contents(codec, Lines(dir.index), dir.blobs)
    }

    constructor (codec: Codec, dir: Directory, ttlHours: int)
      ensures this.codec == codec && this.dir == dir && this.ttlHours == ttlHours
      ensures Seen() == World(dir.index, COLD) && True(Seen())
    {
      this.codec, this.dir, this.ttlHours := codec, dir, ttlHours;
      indexCache, indexSize := None, -1;
    }

    method GetIndexRecord(key: string) returns (r: Option<Record>)
      modifies this
      ensures Seen() == Apply(old(Seen()), Look([])) && r == Answer(Seen(), key)
      ensures old(True(Seen())) ==> True(Seen()) && r == Find(Replay(Lines(dir.index)), key)
    {
      hide Replay, Size;
      ghost var before := Seen();
      if dir.index.None? {
        EmptyLog();
        return None;
      }
      if before.index.Some? && True(before) {
        MoveKeepsTrue(before, Look([]));
        LookFindsLast(before, [], key);
      }
      var currentSize := Size(dir.index.value.lines);
      if indexCache.None? || currentSize != indexSize {
        var loaded := LoadIndex(dir.index.value.lines);
        indexCache := Some(loaded);
        indexSize := currentSize;
      }
      r := Find(indexCache.value, key);
    }

    /** Misses on a missing index, an unknown key, an old record, and a blob that is missing, altered or unreadable. */
    method Get(key: string, now: real) returns (r: Option<Output>)
      modifies this
      ensures Seen() == Apply(old(Seen()), Look([]))
      ensures old(True(Seen())) ==> True(Seen()) && r == Fetch(Plain(), key, ttlHours, now)
      ensures old(True(Seen())) ==>
                var latest := Replay(Lines(dir.index));
                && (r.Some? <==>
                      && key in latest
                      && now - latest[key].createdAt as real <= (ttlHours * 3600) as real
                      && BlobName(latest[key]) in dir.blobs
                      && codec.sha(dir.blobs[BlobName(latest[key])]) == latest[key].sha256
                      && codec.decode(dir.blobs[BlobName(latest[key])]).Some?)
                && (r.Some? ==> r == codec.decode(dir.blobs[BlobName(latest[key])]))
    {
      hide Replay, Size, True, Refresh, BlobName;
      if dir.index.None? {
        EmptyLog();
        return None;
      }
      var found := GetIndexRecord(key);
      if found.None? {
        return None;
      }
      var record := found.value;
      if now - record.createdAt as real > (ttlHours * 3600) as real {
        return None;
      }
      var name := BlobName(record);
      if name !in dir.blobs {
        return None;
      }
      var bytes := dir.blobs[name];
      if codec.sha(bytes) != record.sha256 {
        return None;
      }
      r := codec.decode(bytes);
    }

    /** `during` is what other processes append between this put's append and its last look at the file size. */
    method Put(key: string, output: Output, probeName: string, probeVersion: string, now: real, during: seq<Write>)
      returns (ok: bool)
      modifies this, dir
      ensures var p := PutCall(key, output, now.Floor, probeName, probeVersion);
              var r := RecordOf(codec, p);
              && r == Record(
                   key, "blake3:" + codec.hex(codec.encode(output)), codec.sha(codec.encode(output)), now.Floor,
                   probeName, probeVersion)
              && ok == (codec.width(r) <= 4096)
              && (!ok ==> Seen() == old(Seen()) && dir.blobs == old(dir.blobs))
              && (ok ==> Seen() == Apply(old(Seen()), OwnPut(r, codec.width(r), during)))
              && (ok ==> dir.blobs == Place(codec, old(dir.blobs), p))
              && (ok ==> dir.blobs == old(dir.blobs)[codec.hex(codec.encode(output)) := codec.encode(output)])
              && (ok && during == [] && codec.Sound() && old(Tended(codec, Lines(dir.index), dir.blobs)) ==>
                    && Tended(codec, Lines(dir.index), dir.blobs)
                    && Plain() == AfterPut(codec, old(Content(dir.index)), old(dir.blobs), p))
              && (ok && during == [] ==> Ended(Seen()))
              && (ok && during == [] && codec.Sound() &&
                   old(True(Seen()) && UpToDate(Seen().view, Lines(dir.index)) && Ended(Seen())) ==>
                    True(Seen()) && UpToDate(Seen().view, Lines(dir.index)))
    {
      hide Replay, Size, True, UpToDate, Tended, Contents, RecordOf, BlobName, Behind, AfterPut;
      var p := PutCall(key, output, now.Floor, probeName, probeVersion);
      var record := RecordOf(codec, p);
      ghost var before, log, blobs := Seen(), Lines(dir.index), dir.blobs;
      RecordFields(codec, p);
      var width := codec.width(record);
      if width > MAX_RECORD_BYTES {
        return false;
      }
      dir.blobs := dir.blobs[BlobName(record) := codec.encode(output)];
      BlobNameIsHash(codec, p);
      RecordKey(codec, p);
      if dir.index.None? {
        dir.index := Some(EMPTY);
      }
      dir.index := Some(Behind(dir.index.value, Write(Entry(record, width), true)));
      dir.index := Some(After(dir.index.value, during));
      if indexCache.Some? {
        indexCache := Some(indexCache.value[key := record]);
        indexSize := Size(dir.index.value.lines);
      }
      ok := true;
      assert Seen() == Apply(before, OwnPut(record, width, during)) && dir.blobs == Place(codec, blobs, p);
      PutEndsLine(before, record, width);
      if during == [] && codec.Sound() {
        hide Apply, Place;
        QuietPut(codec, before, blobs, p);
      }
    }
  }
}
