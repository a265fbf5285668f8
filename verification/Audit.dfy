/** The audit trail: what a gather anchors in its run record, and what verifying the records later counts. */
module Audit {
  import opened Wrappers
  import opened Scrubber
  import opened Store
  import opened Schedule
  import G = Gather
  import W = Warm

  datatype ExitStatus = Ok | Error | Timeout | NotRun

  datatype Row = Row(
    name: string, version: string, cacheHit: bool, wallClockMs: int, exitStatus: ExitStatus, cacheKey: string,
    blobSha: string)

  /** Where and with what a gather ran; `osKernelSha` is the digest of the platform's description. */
  datatype Environment = Environment(
    cliVersion: string, sherpaCommit: string, pythonVersion: string, osKernelSha: string,
    toolVersions: map<string, string>)

  datatype RunRecord = RunRecord(environment: Environment, rows: seq<Row>, yamlSha: string)

  /** Probe versions are not recorded yet. */
  const NO_VERSION := "0.0.0"

  const TIMEOUT_PREFIX := "timeout:"

  function ExitStatusFor(exe: G.Execution): ExitStatus {
    match exe
    case Skipped => NotRun
    case CacheHit(_, _) => Ok
    case Ran(out, _) =>
      if out.errors == [] then Ok
      else if exists i :: 0 <= i < |out.errors| && TIMEOUT_PREFIX <= out.errors[i] then Timeout
      else Error
  }

  /** The anchor of what was delivered; runs with errors and skipped probes have none. */
  function BlobShaFor(c: Codec, exe: G.Execution): string {
    match exe
    case Skipped => ""
    case CacheHit(out, _) => c.sha(c.encode(out))
    case Ran(out, _) => if out.errors != [] then "" else c.sha(c.encode(out))
  }

  function RowFor(c: Codec, name: string, exe: G.Execution): Row {
    Row(
      name, NO_VERSION, exe.CacheHit?, if exe.Skipped? then 0 else exe.output.durationMs, ExitStatusFor(exe),
      if exe.Skipped? then "" else exe.key, BlobShaFor(c, exe))
  }

  /** A text whose first characters hold no slash keeps or lacks the prefix through the scrub. */
  lemma PrefixSurvives(root: RepoRoot, t: string)
    requires forall i :: 0 <= i < |TIMEOUT_PREFIX| && i < |t| ==> t[i] != '/'
    ensures TIMEOUT_PREFIX <= ScrubText(root, t) <==> TIMEOUT_PREFIX <= t
  {
    var n := if |t| < |TIMEOUT_PREFIX| then |t| else |TIMEOUT_PREFIX|;
    assert t == t[..n] + t[n..];
    ScrubKeepsFront(root, t[..n], t[n..]);
    var rest := ScrubText(root, t[n..]);
    assert n < |TIMEOUT_PREFIX| ==> t[n..] == "" && rest == "";
    assert (t[..n] + rest)[..n] == t[..n];
  }

  lemma WordAtFront(kind: string, rest: string)
    requires ':' !in kind
    ensures TIMEOUT_PREFIX <= kind + ": " + rest <==> kind == "timeout"
  {
    var t := kind + ": " + rest;
    assert t[|kind|] == ':' && forall i :: 0 <= i < |kind| ==> t[i] == kind[i] != ':';
    assert TIMEOUT_PREFIX == "timeout" + ":" && forall i :: 0 <= i < 7 ==> TIMEOUT_PREFIX[i] == "timeout"[i] != ':';
    if TIMEOUT_PREFIX <= t {
      assert t[7] == TIMEOUT_PREFIX[7] == ':';
      assert forall i :: 0 <= i < 7 ==> t[i] == TIMEOUT_PREFIX[i];
      assert |kind| == 7;
      assert kind == t[..7] == TIMEOUT_PREFIX[..7];
    }
    if kind == "timeout" {
      assert t[..8] == TIMEOUT_PREFIX;
    }
  }

  /** Text in front without slash and colon, and not the word itself, is not a timeout whatever follows. */
  lemma KindDecides(root: RepoRoot, kind: string, message: string)
    requires '/' !in kind && ':' !in kind
    ensures TIMEOUT_PREFIX <= ScrubText(root, kind + ": " + message) <==> kind == "timeout"
  {
    hide ScrubText;
    ScrubKeepsFront(root, kind + ": ", message);
    WordAtFront(kind, ScrubText(root, message));
  }

  const SECRET_ERROR := "SecretLikelyFieldNameError"

  ghost predicate ReadsAsTimeout(root: RepoRoot, errors: seq<string>) {
    exists i :: 0 <= i < |errors| && TIMEOUT_PREFIX <= ScrubText(root, errors[i])
  }

  lemma StatusOfErrors(env: G.Env, raw: Output, key: string)
    ensures ExitStatusFor(G.Ran(G.Scrub(env, raw), key)) ==
            if raw.errors == [] then Ok else if ReadsAsTimeout(env.root, raw.errors) then Timeout else Error
  {
    hide ScrubText, ScrubSlice;
    var texts := G.Scrub(env, raw).errors;
    assert forall i :: 0 <= i < |texts| ==> texts[i] == ScrubText(env.root, raw.errors[i]);
    if ReadsAsTimeout(env.root, raw.errors) {
      var i :| 0 <= i < |raw.errors| && TIMEOUT_PREFIX <= ScrubText(env.root, raw.errors[i]);
      assert TIMEOUT_PREFIX <= texts[i];
    }
  }

  lemma StatusOfFailure(env: G.Env, kind: string, message: string, durationMs: int, key: string)
    requires '/' !in kind && ':' !in kind
    ensures ExitStatusFor(G.Ran(G.Scrub(env, G.Failure(kind + ": " + message, durationMs)), key)) ==
            if kind == "timeout" then Timeout else Error
  {
    hide ScrubText, ScrubSlice, ExitStatusFor, G.Scrub;
    var raw := G.Failure(kind + ": " + message, durationMs);
    StatusOfErrors(env, raw, key);
    KindDecides(env.root, kind, message);
    assert raw.errors == [kind + ": " + message];
    if kind == "timeout" {
      assert TIMEOUT_PREFIX <= ScrubText(env.root, raw.errors[0]);
    }
  }

  function StatusOf(env: G.Env, o: G.Outcome, durationMs: int, key: string): ExitStatus {
    ExitStatusFor(G.Ran(G.Scrub(env, G.Raw(o, durationMs)), key))
  }

  lemma StatusOfTimeout(env: G.Env, seconds: string, durationMs: int, key: string)
    ensures StatusOf(env, G.TimedOut(seconds), durationMs, key) == Timeout
  {
    hide ExitStatusFor, G.Scrub, G.Failure;
    assert "timeout: " == "timeout" + ": ";
    assert "timeout: " + seconds + "s" == "timeout" + ": " + (seconds + "s");
    StatusOfFailure(env, "timeout", seconds + "s", durationMs, key);
  }

  const OVER_BUDGET := "raw_artifact_mb exceeded"

  ghost predicate PlainKind(kind: string) { '/' !in kind && ':' !in kind && kind != "timeout" }

  lemma OverBudgetIsPlain()
    ensures PlainKind(OVER_BUDGET)
  {
    assert OVER_BUDGET[0] != "timeout"[0];
  }

  lemma SecretErrorIsPlain()
    ensures PlainKind(SECRET_ERROR)
  {
    assert SECRET_ERROR[0] != "timeout"[0];
  }

  lemma OverBudgetText(message: string)
    ensures "raw_artifact_mb exceeded: " + message == OVER_BUDGET + ": " + message
  {
    assert "raw_artifact_mb exceeded: " == OVER_BUDGET + ": ";
  }

  lemma StatusOfPlain(env: G.Env, kind: string, text: string, durationMs: int, key: string)
    requires PlainKind(kind) && kind + ": " <= text
    ensures ExitStatusFor(G.Ran(G.Scrub(env, G.Failure(text, durationMs)), key)) == Error
  {
    hide ExitStatusFor, G.Scrub, G.Failure;
    var rest := text[|kind + ": "|..];
    assert text == kind + ": " + rest;
    StatusOfFailure(env, kind, rest, durationMs, key);
  }

  lemma StatusOfOverBudget(env: G.Env, message: string, durationMs: int, key: string)
    ensures StatusOf(env, G.OverBudget(message), durationMs, key) == Error
  {
    hide ExitStatusFor, G.Scrub, G.Failure, PlainKind;
    OverBudgetIsPlain();
    OverBudgetText(message);
    StatusOfPlain(env, OVER_BUDGET, OVER_BUDGET + ": " + message, durationMs, key);
  }

  lemma StatusOfRejection(env: G.Env, out: Output, complaint: string, durationMs: int, key: string)
    requires SECRET_ERROR + ": " <= complaint
    ensures StatusOf(env, G.Produced(out, Some(complaint)), durationMs, key) == Error
  {
    hide ExitStatusFor, G.Scrub, G.Failure, PlainKind;
    SecretErrorIsPlain();
    StatusOfPlain(env, SECRET_ERROR, complaint, durationMs, key);
  }

  /** What each way a probe can end is recorded as. A crash carries the name of its exception class, a rejection
      starts with that of the validator. Only a probe's own errors can be read as a timeout that was none. */
  lemma StatusTellsOutcome(env: G.Env, p: G.Probe, counts: G.Counts, hits: seq<nat>, durationMs: int)
    requires var o := G.OutcomeOf(p, counts, hits);
             && (o.Crashed? ==> '/' !in o.kind && ':' !in o.kind)
             && (o.Produced? && o.rejection.Some? ==> SECRET_ERROR + ": " <= o.rejection.value)
    ensures var status := ExitStatusFor(G.Ran(G.Delivered(env, p, counts, hits, durationMs), p.key));
            match G.OutcomeOf(p, counts, hits)
            case TimedOut(_) => status == Timeout
            case OverBudget(_) => status == Error
            case Crashed(kind, _) => status == if kind == "timeout" then Timeout else Error
            case Produced(_, Some(_)) => status == Error
            case Produced(out, None) =>
              status == if out.errors == [] then Ok else if ReadsAsTimeout(env.root, out.errors) then Timeout else Error
  {
    hide ExitStatusFor, ReadsAsTimeout, G.Scrub, G.Failure, G.OutcomeOf;
    var o, status := G.OutcomeOf(p, counts, hits), StatusOf(env, G.OutcomeOf(p, counts, hits), durationMs, p.key);
    assert status == ExitStatusFor(G.Ran(G.Delivered(env, p, counts, hits, durationMs), p.key));
    match o {
      case TimedOut(seconds) => StatusOfTimeout(env, seconds, durationMs, p.key);
      case OverBudget(message) => StatusOfOverBudget(env, message, durationMs, p.key);
      case Crashed(kind, message) => StatusOfFailure(env, kind, message, durationMs, p.key);
      case Produced(out, Some(complaint)) => StatusOfRejection(env, out, complaint, durationMs, p.key);
      case Produced(out, None) => StatusOfErrors(env, out.(durationMs := durationMs), p.key);
    }
  }

  lemma PathGone(root: RepoRoot)
    requires root == "/repo"
    ensures ScrubText(root, "/root/timeout: x") == "timeout: x" && TIMEOUT_PREFIX <= "timeout: x"
  {
    var t := "/root/timeout: x";
    assert !(root <= t) by { assert t[3] != root[3]; }
    assert !(USERS <= t) by { assert t[1] != USERS[1]; }
    assert !(HOME <= t) by { assert t[1] != HOME[1]; }
    assert PrefixLen(root, t) == Some(6) && t[6..] == "timeout: x";
    ScrubPlain(root, "timeout: x");
  }

  /** A probe that did not time out, and whose error is no timeout either, is recorded as timed out: the scrub takes
      away the path in front of the word. */
  lemma PathBeforeTheWord(env: G.Env, p: G.Probe, counts: G.Counts, durationMs: int, out: Output)
    requires p.run(counts) == G.Produced(out, None) && out.errors == ["/root/timeout: x"] && env.root == "/repo"
    ensures !(TIMEOUT_PREFIX <= out.errors[0])
    ensures ExitStatusFor(G.Ran(G.Delivered(env, p, counts, [], durationMs), p.key)) == Timeout
  {
    hide ScrubText, G.Scrub, ExitStatusFor;
    PathGone(env.root);
    StatusOfErrors(env, out.(durationMs := durationMs), p.key);
    assert TIMEOUT_PREFIX <= ScrubText(env.root, out.errors[0]);
    assert out.errors[0][0] != TIMEOUT_PREFIX[0];
  }

  method BuildRunRecord(
    c: Codec, names: seq<string>, exes: seq<G.Execution>, cliVersion: string, sherpaCommit: Option<string>,
    pythonVersion: string, platform: Bytes, toolVersions: map<string, string>, yamlSha: string)
    returns (record: RunRecord)
    requires |names| == |exes|
    ensures |record.rows| == |names| && record.yamlSha == yamlSha
    ensures Anchors(c, names, exes, record.rows)
    ensures forall i :: 0 <= i < |names| ==> record.rows[i].name == names[i] && record.rows[i].version == "0.0.0"
    ensures forall i :: 0 <= i < |names| ==>
              var row := record.rows[i];
              match exes[i]
              case Skipped =>
                && !row.cacheHit && row.wallClockMs == 0 && row.exitStatus == NotRun
                && row.cacheKey == "" && row.blobSha == ""
              case CacheHit(out, key) =>
                && row.cacheHit && row.wallClockMs == out.durationMs && row.exitStatus == Ok
                && row.cacheKey == key && row.blobSha == c.sha(c.encode(out))
              case Ran(out, key) =>
                && !row.cacheHit && row.wallClockMs == out.durationMs && row.cacheKey == key
                && (out.errors == [] ==> row.exitStatus == Ok && row.blobSha == c.sha(c.encode(out)))
                && (out.errors != [] ==> row.exitStatus in {Error, Timeout} && row.blobSha == "")
                && (row.exitStatus == Timeout <==>
                      exists k :: 0 <= k < |out.errors| && "timeout:" <= out.errors[k])
    ensures record.environment == Environment(
              cliVersion, if sherpaCommit.Some? then sherpaCommit.value else "", pythonVersion, c.sha(platform),
              toolVersions)
  {
    var rows: seq<Row> := [];
    for i := 0 to |names|
      invariant |rows| == i && forall j :: 0 <= j < i ==> rows[j] == RowFor(c, names[j], exes[j])
    {
      rows := rows + [RowFor(c, names[i], exes[i])];
    }
    var commit := if sherpaCommit.Some? then sherpaCommit.value else "";
    record := RunRecord(Environment(cliVersion, commit, pythonVersion, c.sha(platform), toolVersions), rows, yamlSha);
  }

  // ---------------------------------------------------------------- verification

  /** The part of `s` after its first colon; empty if there is none. */
  function AfterColon(s: string): string {
    if s == "" then "" else if s[0] == ':' then s[1..] else AfterColon(s[1..])
  }

  /** The part behind the first colon, wherever that is. */
  lemma {:induction false} ColonParts(front: string, rest: string)
    requires ':' !in front
    ensures AfterColon(front + ":" + rest) == rest && AfterColon(front) == ""
  {
    if front == "" {
      assert ("" + ":" + rest)[1..] == rest;
    } else {
      ColonParts(front[1..], rest);
      assert (front + ":" + rest)[1..] == front[1..] + ":" + rest;
    }
  }

  /** Store and verifier take a tagged digest apart in different ways; on what `put` writes they agree. */
  lemma TagsAgree(r: Record, hex: string)
    requires r.blake3 == TAG + hex
    ensures AfterColon(r.blake3) == BlobName(r) == hex
  {
    var s := r.blake3;
    assert s[|TAG|..] == hex;
    assert s[0] == 'b' && s[1] == 'l' && s[2] == 'a' && s[3] == 'k' && s[4] == 'e' && s[5] == '3' && s[6] == ':';
    assert s[6..][0] == ':' && s[6..][1..] == s[7..];
    assert AfterColon(s[6..]) == hex;
    assert s[5..][0] == s[5] && s[5..][1..] == s[6..];
    assert s[4..][0] == s[4] && s[4..][1..] == s[5..];
    assert s[3..][0] == s[3] && s[3..][1..] == s[4..];
    assert s[2..][0] == s[2] && s[2..][1..] == s[3..];
    assert s[1..][0] == s[1] && s[1..][1..] == s[2..];
    assert AfterColon(s[3..]) == AfterColon(s[4..]) == AfterColon(s[5..]) == hex;
    assert AfterColon(s[1..]) == AfterColon(s[2..]) == AfterColon(s[3..]);
  }

  /** The blob that the latest record of the row's key names is there and hashes to the row's anchor. */
  ghost predicate AnchorHolds(c: Codec, latest: map<string, Record>, blobs: Blobs, row: Row) {
    row.cacheKey in latest &&
    var name := AfterColon(latest[row.cacheKey].blake3);
    name != "" && name in blobs && c.sha(blobs[name]) == row.blobSha
  }

  ghost function Count(bad: bool): nat { if bad then 1 else 0 }

  ghost function BadRows(c: Codec, latest: map<string, Record>, blobs: Blobs, rows: seq<Row>): nat {
    if rows == [] then 0
    else
      var row := rows[|rows| - 1];
      BadRows(c, latest, blobs, rows[..|rows| - 1]) + Count(row.blobSha != "" && !AnchorHolds(c, latest, blobs, row))
  }

  ghost predicate YamlHolds(c: Codec, yaml: Option<Bytes>, record: RunRecord) {
    yaml.Some? && c.sha(yaml.value) == record.yamlSha
  }

  /** What is counted over the run files; `None` is a file that does not parse. */
  ghost function Mismatches(
    c: Codec, latest: map<string, Record>, blobs: Blobs, yaml: Option<Bytes>, runs: seq<Option<RunRecord>>): nat
  {
    if runs == [] then 0
    else
      var run := runs[|runs| - 1];
      Mismatches(c, latest, blobs, yaml, runs[..|runs| - 1]) +
      if run.None? then 0 else BadRows(c, latest, blobs, run.value.rows) + Count(!YamlHolds(c, yaml, run.value))
  }

  /** `unreadable` names the blob files that are there but cannot be read: they count like missing ones. */
  method VerifyOneBlob(cache: CacheStore, unreadable: set<string>, row: Row) returns (bad: nat)
    requires True(cache.Seen())
    modifies cache
    ensures True(cache.Seen())
    ensures bad == Count(!AnchorHolds(cache.codec, Replay(Lines(cache.dir.index)), cache.dir.blobs - unreadable, row))
    ensures bad <= 1
    ensures var latest := Replay(Lines(cache.dir.index));
            bad == 0 <==>
            && row.cacheKey in latest
            && AfterColon(latest[row.cacheKey].blake3) != ""
            && AfterColon(latest[row.cacheKey].blake3) in cache.dir.blobs
            && AfterColon(latest[row.cacheKey].blake3) !in unreadable
            && cache.codec.sha(cache.dir.blobs[AfterColon(latest[row.cacheKey].blake3)]) == row.blobSha
  {
    hide Replay, Size, True, Apply;
    var found := cache.GetIndexRecord(row.cacheKey);
    if found.None? {
      return 1;
    }
    var blobHex := AfterColon(found.value.blake3);
    if blobHex == "" {
      return 1;
    }
    if blobHex !in cache.dir.blobs {
      return 1;
    }
    if blobHex in unreadable {
      return 1;
    }
    if cache.codec.sha(cache.dir.blobs[blobHex]) != row.blobSha {
      return 1;
    }
    return 0;
  }

  /** Counts mismatches over all run files. Nothing that existed before is modified. */
  method VerifyRuns(
    c: Codec, dir: Directory, unreadable: set<string>, yaml: Option<Bytes>, runs: seq<Option<RunRecord>>)
    returns (count: nat)
    ensures count == Mismatches(c, Replay(Lines(dir.index)), dir.blobs - unreadable, yaml, runs)
  {
    hide Replay, Size, True, Apply, AnchorHolds;
    var cache := new CacheStore(c, dir, 1);
    ghost var latest, blobs := Replay(Lines(dir.index)), dir.blobs - unreadable;
    count := 0;
    for i := 0 to |runs|
      invariant True(cache.Seen())
      invariant count == Mismatches(c, latest, blobs, yaml, runs[..i])
    {
      assert runs[..i + 1][..i] == runs[..i];
      if runs[i].Some? {
        var record := runs[i].value;
        var before := count;
        for j := 0 to |record.rows|
          invariant True(cache.Seen())
          invariant count == before + BadRows(c, latest, blobs, record.rows[..j])
        {
          assert record.rows[..j + 1][..j] == record.rows[..j];
          if record.rows[j].blobSha != "" {
            var bad := VerifyOneBlob(cache, unreadable, record.rows[j]);
            count := count + bad;
          }
        }
        assert record.rows[..|record.rows|] == record.rows;
        if yaml.None? {
          count := count + 1;
        } else if c.sha(yaml.value) != record.yamlSha {
          count := count + 1;
        }
      }
    }
    assert runs[..|runs|] == runs;
  }

  // ---------------------------------------------------------------- what the count means

  ghost predicate RowsHold(c: Codec, latest: map<string, Record>, blobs: Blobs, rows: seq<Row>) {
    forall i :: 0 <= i < |rows| && rows[i].blobSha != "" ==> AnchorHolds(c, latest, blobs, rows[i])
  }

  lemma {:induction false} NoBadRows(c: Codec, latest: map<string, Record>, blobs: Blobs, rows: seq<Row>)
    ensures BadRows(c, latest, blobs, rows) == 0 <==> RowsHold(c, latest, blobs, rows)
    decreases |rows|
  {
    hide AnchorHolds;
    if rows != [] {
      var init := rows[..|rows| - 1];
      NoBadRows(c, latest, blobs, init);
      if RowsHold(c, latest, blobs, rows) {
        forall i | 0 <= i < |init| && init[i].blobSha != "" ensures AnchorHolds(c, latest, blobs, init[i]) {
          assert init[i] == rows[i];
        }
      }
    }
  }

  ghost predicate RunHolds(
    c: Codec, latest: map<string, Record>, blobs: Blobs, yaml: Option<Bytes>, run: Option<RunRecord>)
  {
    run.Some? ==> RowsHold(c, latest, blobs, run.value.rows) && YamlHolds(c, yaml, run.value)
  }

  /** The count is zero exactly when every anchor of every readable run record holds. */
  lemma {:induction false} CountIsZero(
    c: Codec, latest: map<string, Record>, blobs: Blobs, yaml: Option<Bytes>, runs: seq<Option<RunRecord>>)
    ensures Mismatches(c, latest, blobs, yaml, runs) == 0 <==>
            forall i :: 0 <= i < |runs| ==> RunHolds(c, latest, blobs, yaml, runs[i])
    decreases |runs|
  {
    hide RowsHold, YamlHolds, BadRows;
    if runs != [] {
      var init, run := runs[..|runs| - 1], runs[|runs| - 1];
      CountIsZero(c, latest, blobs, yaml, init);
      if run.Some? {
        NoBadRows(c, latest, blobs, run.value.rows);
      }
      assert forall i :: 0 <= i < |init| ==> init[i] == runs[i];
    }
  }

  /** Digests are never the empty string. */
  ghost predicate Named(c: Codec) { (forall b: Bytes :: c.sha(b) != "") && forall b: Bytes :: c.hex(b) != "" }

  ghost predicate Anchors(c: Codec, names: seq<string>, exes: seq<G.Execution>, rows: seq<Row>) {
    |names| == |exes| == |rows| && forall i :: 0 <= i < |rows| ==> rows[i] == RowFor(c, names[i], exes[i])
  }

  lemma StoredAnchorHolds(c: Codec, log: seq<Line>, blobs: Blobs, row: Row, out: Output)
    requires c.Sound() && Named(c) && Tended(c, log, blobs)
    requires row.cacheKey in Contents(c, log, blobs) && Contents(c, log, blobs)[row.cacheKey].output == out
    requires row.blobSha == c.sha(c.encode(out))
    ensures AnchorHolds(c, Replay(log), blobs, row)
  {
    hide Replay;
    var key := row.cacheKey;
    var r := Replay(log)[key];
    LatestIsOnALine(log, key);
    assert Whole(c, log[LineOf(log, key)].record, blobs);
    TagsAgree(r, c.hex(blobs[BlobName(r)]));
  }

  /** A run recorded right after its gather, with index, blobs and YAML untouched, verifies with zero mismatches. */
  lemma RecordedRunVerifies(
    c: Codec, env: G.Env, before: G.Cache, moves: seq<G.Move>, log: seq<Line>, blobs: Blobs, yaml: Bytes,
    names: seq<string>, rows: seq<Row>, environment: Environment)
    requires c.Sound() && Named(c) && Tended(c, log, blobs) && DistinctKeys(env)
    requires Contents(c, log, blobs) == G.Run(env, before, moves).cache && G.AllFinished(G.Run(env, before, moves))
    requires Anchors(c, names, G.Exes(G.Run(env, before, moves).slots), rows)
    ensures Mismatches(c, Replay(log), blobs, Some(yaml), [Some(RunRecord(environment, rows, c.sha(yaml)))]) == 0
  {
    hide G.Run, G.Order, Contents, AnchorHolds, Replay, ExitStatusFor;
    var s := G.Run(env, before, moves);
    W.RunRemembers(env, before, moves);
    forall i | 0 <= i < |rows| && rows[i].blobSha != "" ensures AnchorHolds(c, Replay(log), blobs, rows[i]) {
      assert W.Remembered(env, s, i);
      StoredAnchorHolds(c, log, blobs, rows[i], s.slots[i].exe.output);
    }
    CountIsZero(c, Replay(log), blobs, Some(yaml), [Some(RunRecord(environment, rows, c.sha(yaml)))]);
  }

  ghost predicate CollisionFree(c: Codec) { forall a: Bytes, b: Bytes :: c.sha(a) == c.sha(b) ==> a == b }

  /** An anchored blob that was changed or removed makes the count positive, whatever else was touched besides. */
  lemma TamperingCounts(
    c: Codec, latest: map<string, Record>, blobs: Blobs, blobs': Blobs, yaml: Option<Bytes>,
    runs: seq<Option<RunRecord>>, i: nat, j: nat)
    requires CollisionFree(c) && i < |runs| && runs[i].Some? && j < |runs[i].value.rows|
    requires var row := runs[i].value.rows[j];
             row.blobSha != "" && AnchorHolds(c, latest, blobs, row) &&
             var name := AfterColon(latest[row.cacheKey].blake3);
             Find(blobs', name) != Find(blobs, name)
    ensures Mismatches(c, latest, blobs', yaml, runs) > 0
  {
    var row := runs[i].value.rows[j];
    assert !AnchorHolds(c, latest, blobs', row);
    assert !RunHolds(c, latest, blobs', yaml, runs[i]);
    CountIsZero(c, latest, blobs', yaml, runs);
  }

  /** Where the latest record of a key says that its blob is. */
  function BlobOf(latest: map<string, Record>, key: string): string
    requires key in latest
  {
    AfterColon(latest[key].blake3)
  }

  /** After a finished gather that was recorded, every probe that was delivered without errors, fresh or cached, is
      guarded: whoever changes or removes the blob behind its key makes the count positive, whatever else is touched
      among the blobs, the YAML and the other records. */
  lemma RecordedBlobsAreGuarded(
    c: Codec, env: G.Env, before: G.Cache, moves: seq<G.Move>, log: seq<Line>, blobs: Blobs, blobs': Blobs,
    yaml: Option<Bytes>, names: seq<string>, runs: seq<Option<RunRecord>>, k: nat, i: nat)
    requires c.Sound() && Named(c) && CollisionFree(c) && Tended(c, log, blobs) && DistinctKeys(env)
    requires Contents(c, log, blobs) == G.Run(env, before, moves).cache && G.AllFinished(G.Run(env, before, moves))
    requires k < |runs| && runs[k].Some?
    requires Anchors(c, names, G.Exes(G.Run(env, before, moves).slots), runs[k].value.rows)
    requires i < |G.Order(env)| && G.Run(env, before, moves).slots[i].Finished?
    requires var exe := G.Run(env, before, moves).slots[i].exe; exe.CacheHit? || (exe.Ran? && exe.output.errors == [])
    ensures var key := G.Order(env)[i].key;
            && key in Replay(log) && BlobOf(Replay(log), key) in blobs
            && (Find(blobs', BlobOf(Replay(log), key)) != Find(blobs, BlobOf(Replay(log), key)) ==>
                  Mismatches(c, Replay(log), blobs', yaml, runs) > 0)
  {
    hide G.Run, G.Order, Contents, Replay, Tended, Mismatches, AfterColon, ExitStatusFor;
    var s := G.Run(env, before, moves);
    W.RunRemembers(env, before, moves);
    assert W.Remembered(env, s, i);
    var row := runs[k].value.rows[i];
    assert row.cacheKey == G.Order(env)[i].key && row.blobSha == c.sha(c.encode(s.slots[i].exe.output));
    StoredAnchorHolds(c, log, blobs, row, s.slots[i].exe.output);
    if Find(blobs', BlobOf(Replay(log), row.cacheKey)) != Find(blobs, BlobOf(Replay(log), row.cacheKey)) {
      TamperingCounts(c, Replay(log), blobs, blobs', yaml, runs, k, i);
    }
  }

  lemma {:induction false} ChangedYamlCounts(
    c: Codec, latest: map<string, Record>, blobs: Blobs, yaml: Bytes, yaml': Option<Bytes>,
    runs: seq<Option<RunRecord>>, i: nat)
    requires CollisionFree(c) && i < |runs| && runs[i].Some?
    requires runs[i].value.yamlSha == c.sha(yaml) && yaml' != Some(yaml)
    ensures Mismatches(c, latest, blobs, yaml', runs) > 0
  {
    assert !RunHolds(c, latest, blobs, yaml', runs[i]);
    CountIsZero(c, latest, blobs, yaml', runs);
  }

  /** The count is not about tampering alone: after a later put under the same key, the row of the earlier run
      matches exactly when the new output is equal to the old one, duration included. */
  lemma LaterOutputUnsettlesOldRow(c: Codec, log: seq<Line>, blobs: Blobs, p: PutCall, row: Row, out: Output)
    requires c.Sound() && Named(c) && CollisionFree(c) && Tended(c, log, blobs)
    requires row.cacheKey == p.key && row.blobSha == c.sha(c.encode(out))
    ensures var log' := log + [Entry(RecordOf(c, p), c.width(RecordOf(c, p)))];
            AnchorHolds(c, Replay(log'), Place(c, blobs, p), row) <==> p.output == out
  {
    hide Replay;
    var r := RecordOf(c, p);
    LogAppend(log, Entry(r, c.width(r)));
    BlobNameIsHash(c, p);
    TagsAgree(r, c.hex(c.encode(p.output)));
    assert c.decode(c.encode(p.output)) == Some(p.output) && c.decode(c.encode(out)) == Some(out);
  }
}
