/** The byte strings that are hashed: what they determine about the values they were built from. */
module Encodings {
  import opened CodePoints
  import opened Wrappers

  const UNIT: char := '\U{1F}'
  const RECORD: char := '\U{1E}'

  predicate FreeOf(sep: char, s: string) { sep !in s }

  predicate AllFree(sep: char, parts: seq<string>) { forall i :: 0 <= i < |parts| ==> FreeOf(sep, parts[i]) }

  // ---------------------------------------------------------------- join and split

  function Join(sep: char, parts: seq<string>): string {
    if parts == [] then ""
    else if |parts| == 1 then parts[0]
    else parts[0] + [sep] + Join(sep, parts[1..])
  }

  function Split(sep: char, s: string): (r: seq<string>)
    ensures r != []
  {
    if s == "" then [""]
    else
      var rest := Split(sep, s[1..]);
      if s[0] == sep then [""] + rest else [[s[0]] + rest[0]] + rest[1..]
  }

  lemma {:induction false} SplitFree(sep: char, s: string)
    requires FreeOf(sep, s)
    ensures Split(sep, s) == [s]
  {
    if s != "" {
      SplitFree(sep, s[1..]);
      assert [s[0]] + s[1..] == s;
    }
  }

  lemma {:induction false} SplitAround(sep: char, a: string, b: string)
    ensures Split(sep, a + [sep] + b) == Split(sep, a) + Split(sep, b)
  {
    var s := a + [sep] + b;
    if a == "" {
      assert s[0] == sep && s[1..] == b;
    } else {
      assert s[0] == a[0] && s[1..] == a[1..] + [sep] + b;
      SplitAround(sep, a[1..], b);
      SplitPush(sep, a[0], Split(sep, a[1..]), Split(sep, b));
    }
  }

  lemma SplitPush(sep: char, c: char, front: seq<string>, back: seq<string>)
    requires front != []
    ensures [""] + (front + back) == [""] + front + back
    ensures (front + back)[0] == front[0]
    ensures [[c] + front[0]] + (front + back)[1..] == [[c] + front[0]] + front[1..] + back
  {
    assert (front + back)[1..] == front[1..] + back;
  }

  /** Joining what a text splits into gives the text back, so a text is determined by its fields. */
  lemma {:induction false} JoinSplit(sep: char, s: string)
    ensures Join(sep, Split(sep, s)) == s
  {
    if s != "" {
      var rest := Split(sep, s[1..]);
      JoinSplit(sep, s[1..]);
      if s[0] == sep {
        assert ([""] + rest)[1..] == rest;
        assert "" + [sep] + s[1..] == s;
      } else {
        var r := [[s[0]] + rest[0]] + rest[1..];
        assert r[1..] == rest[1..];
        assert [s[0]] + s[1..] == s;
        if |rest| > 1 {
          assert [s[0]] + rest[0] + [sep] + Join(sep, rest[1..]) == [s[0]] + (rest[0] + [sep] + Join(sep, rest[1..]));
        }
      }
    }
  }

  /** All the fields that a list of parts shows once it is joined. */
  function Fields(sep: char, parts: seq<string>): seq<string> {
    if parts == [] then [] else Split(sep, parts[0]) + Fields(sep, parts[1..])
  }

  lemma {:induction false} SplitJoin(sep: char, parts: seq<string>)
    requires parts != []
    ensures Split(sep, Join(sep, parts)) == Fields(sep, parts)
  {
    if |parts| == 1 {
      assert Fields(sep, parts[1..]) == [];
      assert Split(sep, parts[0]) + [] == Split(sep, parts[0]);
    } else {
      SplitJoin(sep, parts[1..]);
      SplitAround(sep, parts[0], Join(sep, parts[1..]));
    }
  }

  lemma {:induction false} FieldsFree(sep: char, parts: seq<string>)
    requires AllFree(sep, parts)
    ensures Fields(sep, parts) == parts
  {
    if parts != [] {
      SplitFree(sep, parts[0]);
      FieldsFree(sep, parts[1..]);
      assert [parts[0]] + parts[1..] == parts;
    }
  }

  /** Two nonempty lists have the same join exactly when they show the same fields. */
  lemma JoinExact(sep: char, a: seq<string>, b: seq<string>)
    requires a != [] && b != []
    ensures Join(sep, a) == Join(sep, b) <==> Fields(sep, a) == Fields(sep, b)
  {
    SplitJoin(sep, a);
    SplitJoin(sep, b);
    JoinSplit(sep, Join(sep, a));
    JoinSplit(sep, Join(sep, b));
  }

  // ---------------------------------------------------------------- the identity tuple

  /** What `identity_hash` feeds to its digest: the arity, capped at 255, and the joined parts. */
  datatype Payload = Payload(arity: nat, joined: string)

  function IdentityPayload(parts: seq<string>): Payload {
    Payload(if |parts| < 255 then |parts| else 255, Join(UNIT, parts))
  }

  /** Further parts, each behind a unit separator. */
  function Trailing(parts: seq<string>): string {
    if parts == [] then "" else ['\U{1F}'] + parts[0] + Trailing(parts[1..])
  }

  lemma {:induction false} JoinTrails(parts: seq<string>)
    requires parts != []
    ensures Join(UNIT, parts) == parts[0] + Trailing(parts[1..])
  {
    if |parts| > 1 {
      JoinTrails(parts[1..]);
      var rest := Trailing(parts[2..]);
      assert parts[0] + [UNIT] + (parts[1] + rest) == parts[0] + ([UNIT] + parts[1] + rest);
      assert parts[1..][1..] == parts[2..];
    } else {
      assert parts[0] + "" == parts[0];
    }
  }

  /** The payload, character by character: a count that fits one byte, and the parts with a separator between two. */
  lemma IdentitySpelled(parts: seq<string>)
    ensures IdentityPayload(parts).arity == if |parts| <= 255 then |parts| else 255
    ensures IdentityPayload(parts).joined == if parts == [] then "" else parts[0] + Trailing(parts[1..])
  {
    if parts != [] {
      JoinTrails(parts);
    }
  }

  /** Two part lists have the same payload exactly when they have the same capped arity and show the same
      fields once separators inside parts are counted too. */
  lemma IdentityExact(a: seq<string>, b: seq<string>)
    ensures IdentityPayload(a) == IdentityPayload(b) <==>
            IdentityPayload(a).arity == IdentityPayload(b).arity && Fields(UNIT, a) == Fields(UNIT, b)
  {
    if a != [] && b != [] {
      JoinExact(UNIT, a, b);
    }
  }

  /** Without separators inside parts, the payload determines the list. */
  lemma IdentityInjective(a: seq<string>, b: seq<string>)
    requires AllFree(UNIT, a) && AllFree(UNIT, b)
    ensures IdentityPayload(a) == IdentityPayload(b) <==> a == b
  {
    IdentityExact(a, b);
    FieldsFree(UNIT, a);
    FieldsFree(UNIT, b);
  }

  /** With a separator inside a part it does not. */
  lemma IdentityCollides()
    ensures IdentityPayload([['a', UNIT, 'b'], "c"]) == IdentityPayload(["a", ['b', UNIT, 'c']])
    ensures [['a', UNIT, 'b'], "c"] != ["a", ['b', UNIT, 'c']]
  {
    assert Join(UNIT, [['a', UNIT, 'b'], "c"]) == ['a', UNIT, 'b', UNIT, 'c'];
    assert Join(UNIT, ["a", ['b', UNIT, 'c']]) == ['a', UNIT, 'b', UNIT, 'c'];
    assert |[['a', UNIT, 'b'], "c"][0]| != |["a", ['b', UNIT, 'c']][0]|;
  }

  // ---------------------------------------------------------------- decimals

  function DigitChar(d: nat): char
    requires d < 10
  {
    '0' + d as char
  }

  predicate IsDigit(c: char) { '0' <= c <= '9' }

  function DigitOf(c: char): nat
    requires IsDigit(c)
  {
    c as nat - '0' as nat
  }

  function Decimal(n: nat): (s: string)
    ensures s != "" && forall i :: 0 <= i < |s| ==> IsDigit(s[i])
  {
    if n < 10 then [DigitChar(n)] else Decimal(n / 10) + [DigitChar(n % 10)]
  }

  function Parse(s: string): Option<nat> {
    if s == "" || !IsDigit(s[|s| - 1]) then None
    else
      var d := DigitOf(s[|s| - 1]);
      if |s| == 1 then Some(d)
      else
        var front := Parse(s[..|s| - 1]);
        if front.None? then None else Some(front.value * 10 + d)
  }

  lemma {:induction false} ParseDecimal(n: nat)
    ensures Parse(Decimal(n)) == Some(n)
  {
    if n >= 10 {
      ParseDecimal(n / 10);
      assert Decimal(n)[..|Decimal(n)| - 1] == Decimal(n / 10);
    }
  }

  /** Decimal digits, the most significant first. */
  lemma DecimalSpelled(n: nat)
    ensures Decimal(n) == (if n < 10 then "" else Decimal(n / 10)) + ["0123456789"[n % 10]]
  {
    assert DigitChar(n % 10) == "0123456789"[n % 10];
    if n < 10 {
      assert "" + [DigitChar(n)] == [DigitChar(n)];
    }
  }

  lemma DecimalFree(n: nat)
    ensures FreeOf(UNIT, Decimal(n)) && FreeOf(RECORD, Decimal(n))
  {
  }

  /** The text before the first separator, if there is one. */
  function Until(sep: char, s: string): (r: Option<string>)
    ensures r.Some? ==> |r.value| < |s| && s[|r.value|] == sep && r.value <= s
  {
    if s == "" then None
    else if s[0] == sep then Some("")
    else
      var r := Until(sep, s[1..]);
      if r.None? then None else Some([s[0]] + r.value)
  }

  lemma {:induction false} UntilSep(sep: char, a: string, b: string)
    requires FreeOf(sep, a)
    ensures Until(sep, a + [sep] + b) == Some(a) && (a + [sep] + b)[|a| + 1..] == b
  {
    var s := a + [sep] + b;
    if a != "" {
      assert s[1..] == a[1..] + [sep] + b;
      assert [a[0]] + a[1..] == a;
      UntilSep(sep, a[1..], b);
    }
  }

  // ---------------------------------------------------------------- the tree digest

  /** A file of the tree; characters of `body` stand for bytes. */
  datatype File = File(path: string, body: string)

  function FileRecord(f: File): string {
    f.path + [UNIT] + (Decimal(|f.body|) + [UNIT] + f.body)
  }

  function EncodeTree(files: seq<File>): string {
    if files == [] then ""
    else if |files| == 1 then FileRecord(files[0])
    else FileRecord(files[0]) + ([RECORD] + EncodeTree(files[1..]))
  }

  /** Read one record off the front: the file, and the rest of the stream. */
  function DecodeFile(s: string): (r: Option<(File, string)>)
    ensures r.Some? ==> |r.value.1| < |s|
  {
    var path := Until(UNIT, s);
    if path.None? then None
    else
      var s1 := s[|path.value| + 1..];
      var digits := Until(UNIT, s1);
      if digits.None? then None
      else
        var size := Parse(digits.value);
        var s2 := s1[|digits.value| + 1..];
        if size.None? || |s2| < size.value then None
        else Some((File(path.value, s2[..size.value]), s2[size.value..]))
  }

  function DecodeFiles(s: string): Option<seq<File>>
    decreases |s|
  {
    match DecodeFile(s)
    case None => None
    case Some((f, tail)) =>
      if tail == "" then Some([f])
      else if tail[0] != RECORD then None
      else
        var rest := DecodeFiles(tail[1..]);
        if rest.None? then None else Some([f] + rest.value)
  }

  function DecodeTree(s: string): Option<seq<File>> {
    if s == "" then Some([]) else DecodeFiles(s)
  }

  lemma DecodeRecord(f: File, tail: string)
    requires FreeOf(UNIT, f.path)
    ensures DecodeFile(FileRecord(f) + tail) == Some((f, tail))
  {
    var n := |f.body|;
    var s2 := f.body + tail;
    var s1 := Decimal(n) + [UNIT] + s2;
    assert FileRecord(f) + tail == f.path + [UNIT] + s1;
    UntilSep(UNIT, f.path, s1);
    DecimalFree(n);
    UntilSep(UNIT, Decimal(n), s2);
    ParseDecimal(n);
    assert s2[..n] == f.body && s2[n..] == tail;
  }

  ghost predicate PathsFree(files: seq<File>) {
    forall i :: 0 <= i < |files| ==> FreeOf(UNIT, files[i].path)
  }

  lemma {:induction false} DecodeEncoded(files: seq<File>)
    requires files != [] && PathsFree(files)
    ensures DecodeFiles(EncodeTree(files)) == Some(files)
  {
    hide DecodeFile, FileRecord, Decimal;
    var f := files[0];
    if |files| == 1 {
      DecodeRecord(f, "");
      assert FileRecord(f) + "" == FileRecord(f);
      assert files == [f];
    } else {
      var tail := [RECORD] + EncodeTree(files[1..]);
      DecodeRecord(f, tail);
      assert tail[1..] == EncodeTree(files[1..]);
      DecodeEncoded(files[1..]);
      assert files == [f] + files[1..];
    }
  }

  /** The stream is uniquely decodable, whatever bytes the bodies hold. */
  lemma TreeRoundTrip(files: seq<File>)
    requires PathsFree(files)
    ensures DecodeTree(EncodeTree(files)) == Some(files)
  {
    if files != [] {
      DecodeEncoded(files);
      assert UNIT in FileRecord(files[0]);
      assert EncodeTree(files) != "";
    }
  }

  lemma TreeInjective(a: seq<File>, b: seq<File>)
    requires PathsFree(a) && PathsFree(b)
    ensures EncodeTree(a) == EncodeTree(b) <==> a == b
  {
    TreeRoundTrip(a);
    TreeRoundTrip(b);
  }

  function FileRecords(files: seq<File>): (r: seq<string>)
    ensures |r| == |files| && forall i :: 0 <= i < |files| ==> r[i] == FileRecord(files[i])
  {
    seq(|files|, i requires 0 <= i < |files| => FileRecord(files[i]))
  }

  lemma {:induction false} StreamIsJoin(files: seq<File>)
    ensures EncodeTree(files) == Join(RECORD, FileRecords(files))
  {
    hide FileRecord;
    if |files| > 1 {
      StreamIsJoin(files[1..]);
      assert FileRecords(files)[1..] == FileRecords(files[1..]);
      var first, rest := FileRecord(files[0]), EncodeTree(files[1..]);
      assert first + [RECORD] + rest == first + ([RECORD] + rest);
    }
  }

  /** Two lists of files, whatever their paths, have the same stream exactly when both are empty or their records
      show the same fields. */
  lemma TreeExact(a: seq<File>, b: seq<File>)
    ensures EncodeTree(a) == EncodeTree(b) <==>
            if a == [] || b == [] then a == b else Fields(RECORD, FileRecords(a)) == Fields(RECORD, FileRecords(b))
  {
    if a != [] && b != [] {
      StreamIsJoin(a);
      StreamIsJoin(b);
      JoinExact(RECORD, FileRecords(a), FileRecords(b));
    } else if a != [] {
      StreamNotEmpty(a);
    } else if b != [] {
      StreamNotEmpty(b);
    }
  }

  lemma StreamNotEmpty(files: seq<File>)
    requires files != []
    ensures EncodeTree(files) != ""
  {
    assert UNIT in FileRecord(files[0]);
  }

  /** And two files have the same record exactly when path, size and body show the same fields, separators inside
      path and body counted too. */
  lemma FileExact(x: File, y: File)
    ensures FileRecord(x) == FileRecord(y) <==>
            Fields(UNIT, [x.path, Decimal(|x.body|), x.body]) == Fields(UNIT, [y.path, Decimal(|y.body|), y.body])
  {
    RecordIsJoin(x);
    RecordIsJoin(y);
    JoinExact(UNIT, [x.path, Decimal(|x.body|), x.body], [y.path, Decimal(|y.body|), y.body]);
  }

  lemma RecordIsJoin(f: File)
    ensures FileRecord(f) == Join(UNIT, [f.path, Decimal(|f.body|), f.body])
  {
    var size := Decimal(|f.body|);
    assert [f.path, size, f.body][1..] == [size, f.body] && [size, f.body][1..] == [f.body];
    assert Join(UNIT, [size, f.body]) == size + [UNIT] + f.body;
    assert f.path + [UNIT] + (size + [UNIT] + f.body) == FileRecord(f);
  }

  /** With a separator in a path two different files give one stream. */
  lemma TreeCollides()
    ensures EncodeTree([File("a", ['1', UNIT, 'b'])]) == EncodeTree([File(['a', UNIT, '3'], "b")])
    ensures File("a", ['1', UNIT, 'b']) != File(['a', UNIT, '3'], "b")
  {
    assert |"b"| == 1 && |['1', UNIT, 'b']| == 3;
    assert Decimal(3) == "3" && Decimal(1) == "1";
    assert FileRecord(File("a", ['1', UNIT, 'b'])) == ['a', UNIT, '3', UNIT, '1', UNIT, 'b'];
    assert FileRecord(File(['a', UNIT, '3'], "b")) == ['a', UNIT, '3', UNIT, '1', UNIT, 'b'];
  }

  lemma {:induction false} EncodeMore(files: seq<File>, f: File)
    ensures EncodeTree(files + [f]) == EncodeTree(files) + (if files == [] then "" else [RECORD]) + FileRecord(f)
  {
    if |files| == 0 {
      assert files + [f] == [f];
    } else if |files| == 1 {
      assert (files + [f])[1..] == [f];
    } else {
      assert (files + [f])[1..] == files[1..] + [f];
      EncodeMore(files[1..], f);
    }
  }

  lemma FedInParts(fed: string, header: string, body: string)
    ensures fed + header + body == fed + (header + body)
  {
  }

  lemma HeaderAndBody(f: File)
    ensures f.path + [UNIT] + (Decimal(|f.body|) + [UNIT]) + f.body == FileRecord(f)
  {
    hide Decimal;
    var size := Decimal(|f.body|);
    assert f.path + [UNIT] + (size + [UNIT]) + f.body == f.path + [UNIT] + (size + [UNIT] + f.body);
  }

  /** The digest loop: everything it feeds to the hasher, in order. */
  method TreeStream(files: seq<File>) returns (fed: string)
    ensures fed == EncodeTree(files)
    ensures PathsFree(files) ==> DecodeTree(fed) == Some(files)
  {
    hide EncodeTree, FileRecord, Decimal, DecodeTree;
    fed := "";
    var first := true;
    EmptyStream();
    for i := 0 to |files|
      invariant first == (i == 0)
      invariant fed == EncodeTree(files[..i])
    {
      EncodeMore(files[..i], files[i]);
      assert files[..i] + [files[i]] == files[..i + 1];
      if !first {
        fed := fed + [RECORD];
      } else {
        assert fed + "" == fed;
      }
      first := false;
      var header := files[i].path + [UNIT] + (Decimal(|files[i].body|) + [UNIT]);
      HeaderAndBody(files[i]);
      FedInParts(fed, header, files[i].body);
      fed := fed + header;
      fed := fed + files[i].body;
    }
    assert files[..|files|] == files;
    if PathsFree(files) {
      TreeRoundTrip(files);
    }
  }

  lemma EmptyStream()
    ensures EncodeTree([]) == ""
  {
  }

  /** The rest of a stream, each file behind a record separator. */
  function TrailingFiles(files: seq<File>): string {
    if files == [] then ""
    else
      ['\U{1E}'] + files[0].path + ['\U{1F}'] + Decimal(|files[0].body|) + ['\U{1F}'] + files[0].body +
      TrailingFiles(files[1..])
  }

  /** The stream, character by character: path, size and bytes of each file. */
  lemma {:induction false} TreeSpelled(files: seq<File>)
    ensures files != [] ==>
              EncodeTree(files) ==
              files[0].path + ['\U{1F}'] + Decimal(|files[0].body|) + ['\U{1F}'] + files[0].body +
              TrailingFiles(files[1..])
  {
    hide Decimal;
    if files != [] {
      var f := files[0];
      FileSpelled(f);
      var one := f.path + [UNIT] + Decimal(|f.body|) + [UNIT] + f.body;
      if |files| == 1 {
        assert one + "" == one;
      } else {
        TreeSpelled(files[1..]);
        var g := files[1];
        FileSpelled(g);
        var two := g.path + [UNIT] + Decimal(|g.body|) + [UNIT] + g.body;
        assert files[1..][1..] == files[2..];
        TrailingMore(g, files[2..]);
        assert [RECORD] + (two + TrailingFiles(files[2..])) == [RECORD] + two + TrailingFiles(files[2..]);
      }
    }
  }

  lemma FileSpelled(f: File)
    ensures FileRecord(f) == f.path + ['\U{1F}'] + Decimal(|f.body|) + ['\U{1F}'] + f.body
  {
    hide Decimal;
    var size := Decimal(|f.body|);
    assert f.path + [UNIT] + (size + [UNIT] + f.body) == f.path + [UNIT] + size + [UNIT] + f.body;
  }

  lemma TrailingMore(f: File, files: seq<File>)
    ensures TrailingFiles([f] + files) ==
            ['\U{1E}'] + (f.path + ['\U{1F}'] + Decimal(|f.body|) + ['\U{1F}'] + f.body) + TrailingFiles(files)
  {
    hide Decimal;
    assert ([f] + files)[1..] == files;
    var size := Decimal(|f.body|);
    assert [RECORD] + f.path + [UNIT] + size + [UNIT] + f.body == [RECORD] + (f.path + [UNIT] + size + [UNIT] + f.body);
  }

  // ---------------------------------------------------------------- the inputs manifest

  datatype Entry = Entry(path: string, size: nat)

  predicate EntryLe(x: Entry, y: Entry) {
    if x.path == y.path then x.size <= y.size else LexLe(x.path, y.path)
  }

  lemma EntryOrder(x: Entry, y: Entry, z: Entry)
    ensures EntryLe(x, y) || EntryLe(y, x)
    ensures EntryLe(x, y) && EntryLe(y, x) ==> x == y
    ensures EntryLe(x, y) && EntryLe(y, z) ==> EntryLe(x, z)
  {
    LexTotal(x.path, y.path);
    LexTotal(y.path, z.path);
    if LexLe(x.path, y.path) && LexLe(y.path, z.path) {
      LexTrans(x.path, y.path, z.path);
    }
    if x.path == z.path {
      LexTotal(z.path, y.path);
    }
  }

  ghost predicate Sorted(s: seq<Entry>) {
    forall i, j :: 0 <= i < j < |s| ==> EntryLe(s[i], s[j])
  }

  function Insert(x: Entry, s: seq<Entry>): seq<Entry> {
    if s == [] || EntryLe(x, s[0]) then [x] + s else [s[0]] + Insert(x, s[1..])
  }

  function Sort(s: seq<Entry>): seq<Entry> {
    if s == [] then [] else Insert(s[0], Sort(s[1..]))
  }

  lemma {:induction false} InsertKeeps(x: Entry, s: seq<Entry>)
    ensures multiset(Insert(x, s)) == multiset{x} + multiset(s)
  {
    if s != [] && !EntryLe(x, s[0]) {
      InsertKeeps(x, s[1..]);
      assert s == [s[0]] + s[1..];
    }
  }

  lemma {:induction false} InsertSorted(x: Entry, s: seq<Entry>)
    requires Sorted(s)
    ensures Sorted(Insert(x, s))
  {
    if s == [] {
    } else if EntryLe(x, s[0]) {
      forall j | 0 <= j < |s| ensures EntryLe(x, s[j]) { EntryOrder(x, s[0], s[j]); }
    } else {
      var r := Insert(x, s[1..]);
      InsertSorted(x, s[1..]);
      EntryOrder(x, s[0], x);
      InsertKeeps(x, s[1..]);
      forall j | 0 <= j < |r| ensures EntryLe(s[0], r[j]) {
        assert r[j] in multiset(r);
        assert r[j] == x || r[j] in s[1..];
      }
    }
  }

  lemma {:induction false} SortCorrect(s: seq<Entry>)
    ensures Sorted(Sort(s)) && multiset(Sort(s)) == multiset(s)
  {
    if s != [] {
      SortCorrect(s[1..]);
      InsertSorted(s[0], Sort(s[1..]));
      InsertKeeps(s[0], Sort(s[1..]));
      assert s == [s[0]] + s[1..];
    }
  }

  /** Sorted lists with the same members start with the same one. */
  lemma SameFirst(a: seq<Entry>, b: seq<Entry>)
    requires Sorted(a) && Sorted(b) && multiset(a) == multiset(b) && a != []
    ensures b != [] && a[0] == b[0]
  {
    assert a[0] in multiset(b);
    assert a[0] in b;
    assert b[0] in multiset(a);
    assert b[0] in a;
    LeastFirst(a, b[0]);
    LeastFirst(b, a[0]);
    EntryOrder(a[0], b[0], a[0]);
  }

  lemma LeastFirst(s: seq<Entry>, e: Entry)
    requires Sorted(s) && e in s
    ensures EntryLe(s[0], e)
  {
    EntryOrder(s[0], s[0], s[0]);
  }

  lemma TailMembers(s: seq<Entry>)
    requires s != []
    ensures multiset(s[1..]) == multiset(s) - multiset{s[0]}
  {
    assert s == [s[0]] + s[1..];
  }

  lemma {:induction false} SortedUnique(a: seq<Entry>, b: seq<Entry>)
    requires Sorted(a) && Sorted(b) && multiset(a) == multiset(b)
    ensures a == b
  {
    hide EntryLe;
    if a == [] {
      assert |multiset(b)| == 0;
    } else {
      SameFirst(a, b);
      TailMembers(a);
      TailMembers(b);
      SortedUnique(a[1..], b[1..]);
      assert a == [a[0]] + a[1..] && b == [b[0]] + b[1..];
    }
  }

  function EntryRecord(e: Entry): string { e.path + [UNIT] + Decimal(e.size) }

  function Records(m: seq<Entry>): (r: seq<string>)
    ensures |r| == |m| && forall i :: 0 <= i < |m| ==> r[i] == EntryRecord(m[i])
  {
    seq(|m|, i requires 0 <= i < |m| => EntryRecord(m[i]))
  }

  /** What `content_hash_of_inputs` feeds to its digest. */
  function ManifestPayload(m: seq<Entry>): string { Join(RECORD, Records(Sort(m))) }

  ghost predicate PlainPaths(m: seq<Entry>) {
    forall e :: e in m ==> FreeOf(UNIT, e.path) && FreeOf(RECORD, e.path)
  }

  lemma EntryRecordInjective(x: Entry, y: Entry)
    requires FreeOf(UNIT, x.path) && FreeOf(UNIT, y.path) && EntryRecord(x) == EntryRecord(y)
    ensures x == y
  {
    UntilSep(UNIT, x.path, Decimal(x.size));
    UntilSep(UNIT, y.path, Decimal(y.size));
    ParseDecimal(x.size);
    ParseDecimal(y.size);
  }

  lemma RecordsFree(m: seq<Entry>)
    requires PlainPaths(m)
    ensures AllFree(RECORD, Records(m))
  {
    forall i | 0 <= i < |m| ensures FreeOf(RECORD, Records(m)[i]) {
      assert m[i] in m;
      DecimalFree(m[i].size);
    }
  }

  lemma RecordsInjective(a: seq<Entry>, b: seq<Entry>)
    requires PlainPaths(a) && PlainPaths(b) && Join(RECORD, Records(a)) == Join(RECORD, Records(b))
    ensures a == b
  {
    RecordsFree(a);
    RecordsFree(b);
    FieldsFree(RECORD, Records(a));
    FieldsFree(RECORD, Records(b));
    if a != [] && b != [] {
      JoinExact(RECORD, Records(a), Records(b));
      forall i | 0 <= i < |a| ensures a[i] == b[i] {
        assert a[i] in a && b[i] in b && Records(a)[i] == Records(b)[i];
        EntryRecordInjective(a[i], b[i]);
      }
    } else if a != [] {
      JoinNotEmpty(a);
    } else if b != [] {
      JoinNotEmpty(b);
    }
  }

  lemma JoinNotEmpty(m: seq<Entry>)
    requires m != []
    ensures Join(RECORD, Records(m)) != ""
  {
    assert UNIT in EntryRecord(m[0]);
  }

  /** Two lists of inputs give the same manifest exactly when they hold the same entries, in any order. */
  lemma ManifestExact(a: seq<Entry>, b: seq<Entry>)
    requires PlainPaths(a) && PlainPaths(b)
    ensures ManifestPayload(a) == ManifestPayload(b) <==> multiset(a) == multiset(b)
  {
    SortCorrect(a);
    SortCorrect(b);
    SortKeepsPlain(a);
    SortKeepsPlain(b);
    if multiset(a) == multiset(b) {
      SortedUnique(Sort(a), Sort(b));
    }
    if ManifestPayload(a) == ManifestPayload(b) {
      RecordsInjective(Sort(a), Sort(b));
    }
  }

  lemma SortKeepsPlain(m: seq<Entry>)
    requires PlainPaths(m)
    ensures PlainPaths(Sort(m))
  {
    SortCorrect(m);
    forall e | e in Sort(m) ensures FreeOf(UNIT, e.path) && FreeOf(RECORD, e.path) {
      assert e in multiset(Sort(m));
      assert e in m;
    }
  }

  /** Entries behind record separators. */
  function TrailingEntries(m: seq<Entry>): string {
    if m == [] then "" else ['\U{1E}'] + m[0].path + ['\U{1F}'] + Decimal(m[0].size) + TrailingEntries(m[1..])
  }

  lemma {:induction false} RecordsTrail(m: seq<Entry>)
    requires m != []
    ensures Join(RECORD, Records(m)) == m[0].path + ['\U{1F}'] + Decimal(m[0].size) + TrailingEntries(m[1..])
  {
    hide Decimal;
    assert Records(m)[1..] == Records(m[1..]);
    if |m| > 1 {
      RecordsTrail(m[1..]);
      assert m[1..][1..] == m[2..];
      var one, two := EntryRecord(m[0]), EntryRecord(m[1]);
      assert one + [RECORD] + (two + TrailingEntries(m[2..])) == one + ([RECORD] + two + TrailingEntries(m[2..]));
      assert [RECORD] + m[1].path + [UNIT] + Decimal(m[1].size) == [RECORD] + two;
    } else {
      assert EntryRecord(m[0]) + "" == EntryRecord(m[0]);
    }
  }

  /** The manifest, character by character: the entries in order of path and size. */
  lemma ManifestSpelled(m: seq<Entry>)
    ensures exists s :: Sorted(s) && multiset(s) == multiset(m) && SpelledBy(s, ManifestPayload(m))
  {
    SortCorrect(m);
    if Sort(m) != [] {
      RecordsTrail(Sort(m));
    }
    assert SpelledBy(Sort(m), ManifestPayload(m));
  }

  ghost predicate SpelledBy(s: seq<Entry>, text: string) {
    text == if s == [] then "" else s[0].path + ['\U{1F}'] + Decimal(s[0].size) + TrailingEntries(s[1..])
  }

  // ---------------------------------------------------------------- special tokens among declared inputs

  const RESOLVED := ":<resolved>"
  const IMAGE_DIGEST := "image-digest"

  predicate TokenChar(c: char) { 'a' <= c <= 'z' || '0' <= c <= '9' || c == '_' || c == '-' }

  /** A name of at least one character, followed by the marker; anything else is a file pattern. */
  predicate IsToken(pattern: string) {
    var n := |pattern| - |RESOLVED|;
    n > 0 && pattern[n..] == RESOLVED && forall i :: 0 <= i < n ==> TokenChar(pattern[i])
  }

  predicate Dispatched(pattern: string) { IsToken(pattern) ==> pattern == IMAGE_DIGEST + RESOLVED }

  ghost predicate NamedToken(pattern: string, name: string) {
    && pattern == name + ":<resolved>" && name != ""
    && forall i :: 0 <= i < |name| ==>
         'a' <= name[i] <= 'z' || '0' <= name[i] <= '9' || name[i] == '_' || name[i] == '-'
  }

  /** Which patterns are tokens, and which of them are known. */
  lemma TokensSpelled(pattern: string)
    ensures IsToken(pattern) <==> exists name :: NamedToken(pattern, name)
    ensures Dispatched(pattern) <==> !IsToken(pattern) || pattern == "image-digest:<resolved>"
  {
    if IsToken(pattern) {
      var name := pattern[..|pattern| - |RESOLVED|];
      assert pattern == name + RESOLVED;
      assert NamedToken(pattern, name);
    }
    if name :| NamedToken(pattern, name) {
      assert pattern[|name|..] == RESOLVED;
    }
    assert "image-digest" + ":<resolved>" == "image-digest:<resolved>";
  }

  function CountTokens(patterns: seq<string>): nat {
    if patterns == [] then 0
    else CountTokens(patterns[..|patterns| - 1]) + if IsToken(patterns[|patterns| - 1]) then 1 else 0
  }

  datatype Tokens = Values(values: seq<string>) | UnknownToken(token: string)

  /** What the resolver's `k`-th call gives; none if there is no resolver, or it gives none, or it raises. */
  type Resolver = nat -> Option<string>

  function Resolved(resolver: Resolver, k: nat): string {
    if resolver(k).Some? then resolver(k).value else ""
  }

  /** Every token gets a value, an unresolved one the empty one; a token nobody handles is an error, the first one. */
  method SpecialTokenValues(patterns: seq<string>, resolver: Resolver) returns (r: Tokens)
    ensures r.Values? <==> forall i :: 0 <= i < |patterns| ==> Dispatched(patterns[i])
    ensures r.Values? ==> |r.values| == CountTokens(patterns)
    ensures r.Values? ==> forall i :: 0 <= i < |r.values| ==>
              r.values[i] == if resolver(i).Some? then resolver(i).value else ""
    ensures r.UnknownToken? ==>
              exists i :: 0 <= i < |patterns| && patterns[i] == r.token && !Dispatched(patterns[i])
                          && forall j :: 0 <= j < i ==> Dispatched(patterns[j])
  {
    var resolved: seq<string> := [];
    for i := 0 to |patterns|
      invariant |resolved| == CountTokens(patterns[..i])
      invariant forall j :: 0 <= j < i ==> Dispatched(patterns[j])
      invariant forall j :: 0 <= j < |resolved| ==> resolved[j] == Resolved(resolver, j)
    {
      assert patterns[..i + 1][..i] == patterns[..i];
      var pattern := patterns[i];
      if IsToken(pattern) {
        var name := pattern[..|pattern| - |RESOLVED|];
        assert pattern == name + RESOLVED;
        if name != IMAGE_DIGEST {
          assert pattern[..|pattern| - |RESOLVED|] != (IMAGE_DIGEST + RESOLVED)[..|IMAGE_DIGEST|];
          return UnknownToken(pattern);
        }
        resolved := resolved + [Resolved(resolver, |resolved|)];
      }
    }
    assert patterns[..|patterns|] == patterns;
    r := Values(resolved);
  }

  // ---------------------------------------------------------------- the probe cache key

  /** What goes into a probe's key; `tokens` are the resolved special tokens, in declaration order. */
  datatype KeyInputs = KeyInputs(name: string, version: string, schema: string, inputs: seq<Entry>, tokens: seq<string>)

  function KeyParts(hash: string -> string, k: KeyInputs): seq<string> {
    [k.name, k.version, k.schema, hash(ManifestPayload(k.inputs))] + k.tokens
  }

  /** What a probe key is the digest of, part by part. */
  lemma KeySpelled(hash: string -> string, k: KeyInputs)
    ensures var payload := IdentityPayload(KeyParts(hash, k));
            && payload.arity == (if |k.tokens| <= 251 then 4 + |k.tokens| else 255)
            && payload.joined ==
               k.name + ['\U{1F}'] + k.version + ['\U{1F}'] + k.schema + ['\U{1F}'] +
               hash(ManifestPayload(k.inputs)) + Trailing(k.tokens)
  {
    hide ManifestPayload;
    var h := hash(ManifestPayload(k.inputs));
    var parts := KeyParts(hash, k);
    IdentitySpelled(parts);
    assert parts[1..] == [k.version] + parts[2..] && parts[2..] == [k.schema] + parts[3..];
    assert parts[3..] == [h] + k.tokens && parts[3..][1..] == k.tokens;
    assert parts[1..][1..] == parts[2..] && parts[2..][1..] == parts[3..];
    assert Trailing(parts[3..]) == [UNIT] + h + Trailing(k.tokens);
    assert Trailing(parts[2..]) == [UNIT] + k.schema + Trailing(parts[3..]);
    assert Trailing(parts[1..]) == [UNIT] + k.version + Trailing(parts[2..]);
  }

  /** A digest that never collides and prints without the separator. */
  ghost predicate GoodHash(hash: string -> string) {
    (forall x, y :: hash(x) == hash(y) ==> x == y) && forall x :: FreeOf(UNIT, hash(x))
  }

  ghost predicate PlainInputs(k: KeyInputs) {
    FreeOf(UNIT, k.name) && FreeOf(UNIT, k.version) && FreeOf(UNIT, k.schema) &&
    AllFree(UNIT, k.tokens) && PlainPaths(k.inputs)
  }

  /** Two probe executions share a cache key payload exactly when they agree on everything that went in,
      inputs being compared as a collection of paths with sizes. */
  lemma KeyExact(hash: string -> string, a: KeyInputs, b: KeyInputs)
    requires GoodHash(hash) && PlainInputs(a) && PlainInputs(b)
    ensures IdentityPayload(KeyParts(hash, a)) == IdentityPayload(KeyParts(hash, b)) <==>
            a.name == b.name && a.version == b.version && a.schema == b.schema
            && multiset(a.inputs) == multiset(b.inputs) && a.tokens == b.tokens
  {
    var x, y := KeyParts(hash, a), KeyParts(hash, b);
    IdentityInjective(x, y);
    ManifestExact(a.inputs, b.inputs);
    assert x[4..] == a.tokens && y[4..] == b.tokens;
    if x == y {
      assert x[0] == y[0] && x[1] == y[1] && x[2] == y[2] && x[3] == y[3];
    }
  }

  // ---------------------------------------------------------------- the bundle cache key

  datatype Composed = Payload8(joined: string) | SeparatorIn(input: nat)

  /** The eight declared inputs, in order. A separator in any of them is refused, naming the first. */
  method ComposeBundleKey(parts: seq<string>) returns (r: Composed)
    requires |parts| == 8
    ensures r.Payload8? <==> AllFree(UNIT, parts)
    ensures r.Payload8? ==> r.joined == Join(UNIT, parts) && Split(UNIT, r.joined) == parts
    ensures r.Payload8? ==> r.joined == parts[0] + Trailing(parts[1..])
    ensures r.Payload8? <==> forall i :: 0 <= i < 8 ==> '\U{1F}' !in parts[i]
    ensures r.SeparatorIn? ==> r.input < 8 && UNIT in parts[r.input] && AllFree(UNIT, parts[..r.input])
  {
    for i := 0 to 8
      invariant AllFree(UNIT, parts[..i])
    {
      if UNIT in parts[i] {
        return SeparatorIn(i);
      }
    }
    assert parts[..8] == parts;
    SplitJoin(UNIT, parts);
    FieldsFree(UNIT, parts);
    JoinTrails(parts);
    r := Payload8(Join(UNIT, parts));
  }

  /** Accepted tuples are determined by their payloads. */
  lemma BundleKeyInjective(a: seq<string>, b: seq<string>)
    requires |a| == 8 && |b| == 8 && AllFree(UNIT, a) && AllFree(UNIT, b)
    ensures Join(UNIT, a) == Join(UNIT, b) <==> a == b
  {
    JoinExact(UNIT, a, b);
    FieldsFree(UNIT, a);
    FieldsFree(UNIT, b);
  }
}
