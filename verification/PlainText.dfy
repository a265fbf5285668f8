/** A codec that meets every assumption made of digests and blobs: what is proved under them is proved of something. */
module PlainText {
  import opened Wrappers
  import opened JsonTree
  import opened Store
  import A = Audit

  // ---------------------------------------------------------------- texts that end where they say

  function Tally(n: nat): string {
    if n == 0 then "." else "," + Tally(n - 1)
  }

  function OfInt(i: int): string {
    [if i < 0 then '-' else '+'] + Tally(if i < 0 then -i else i)
  }

  function OfString(s: string): string {
    if s == "" then "." else "," + [s[0]] + OfString(s[1..])
  }

  function OfStrings(ss: seq<string>): string {
    if ss == [] then "." else "," + OfString(ss[0]) + OfStrings(ss[1..])
  }

  function Kind(node: Json): char {
    match node
    case Null => 'n'
    case Bool(b) => if b then 't' else 'f'
    case Num(_) => 'i'
    case Real(_) => 'r'
    case Str(_) => 's'
    case Arr(_) => 'a'
    case Obj(_) => 'o'
  }

  function Body(node: Json): string
    decreases node, 0
  {
    match node
    case Num(n) => OfInt(n)
    case Real(x) => OfInt(x.mantissa) + OfInt(x.exponent)
    case Str(s) => OfString(s)
    case Arr(items) => OfItems(items)
    case Obj(fields) => OfFields(fields)
    case _ => ""
  }

  function OfJson(node: Json): string
    decreases node, 1
  {
    [Kind(node)] + Body(node)
  }

  function OfItems(items: seq<Json>): string
    decreases items, 0
  {
    if items == [] then "." else "," + OfJson(items[0]) + OfItems(items[1..])
  }

  function OfFields(fields: seq<Field>): string
    decreases fields, 0
  {
    if fields == [] then "."
    else "," + OfString(fields[0].key) + OfJson(fields[0].value) + OfFields(fields[1..])
  }

  function OfOutput(o: Output): string {
    OfJson(o.slice) + (OfStrings(o.artifacts) + (OfString(o.confidence) + (OfInt(o.durationMs) +
    (OfStrings(o.warnings) + OfStrings(o.errors)))))
  }

  // ---------------------------------------------------------------- and therefore read back

  /** Two texts with the same first character agree behind it. */
  lemma Behead(c: char, a: string, b: string)
    requires [c] + a == [c] + b
    ensures a == b
  {
    assert ([c] + a)[1..] == a && ([c] + b)[1..] == b;
  }

  lemma Heads(c: char, d: char, a: string, b: string, s: string, t: string)
    requires [c] + a + s == [d] + b + t
    ensures c == d && a + s == b + t
  {
    assert [c] + a + s == [c] + (a + s) && [d] + b + t == [d] + (b + t);
    assert ([c] + (a + s))[0] == c && ([d] + (b + t))[0] == d;
    Behead(c, a + s, b + t);
  }

  lemma {:induction false} TallyEnds(m: nat, n: nat, s: string, t: string)
    requires Tally(m) + s == Tally(n) + t
    ensures m == n && s == t
  {
    assert (Tally(m) + s)[0] == (Tally(n) + t)[0];
    if m == 0 {
      Behead('.', s, t);
    } else {
      assert Tally(m) + s == "," + (Tally(m - 1) + s) && Tally(n) + t == "," + (Tally(n - 1) + t);
      Behead(',', Tally(m - 1) + s, Tally(n - 1) + t);
      TallyEnds(m - 1, n - 1, s, t);
    }
  }

  lemma IntEnds(i: int, j: int, s: string, t: string)
    requires OfInt(i) + s == OfInt(j) + t
    ensures i == j && s == t
  {
    hide Tally;
    var m: nat, n: nat := if i < 0 then -i else i, if j < 0 then -j else j;
    var c, d := if i < 0 then '-' else '+', if j < 0 then '-' else '+';
    Heads(c, d, Tally(m), Tally(n), s, t);
    TallyEnds(m, n, s, t);
  }

  lemma {:induction false} StringEnds(a: string, b: string, s: string, t: string)
    requires OfString(a) + s == OfString(b) + t
    ensures a == b && s == t
  {
    assert (OfString(a) + s)[0] == (OfString(b) + t)[0];
    if a == "" {
      Behead('.', s, t);
    } else {
      assert (OfString(a) + s)[1] == a[0] && (OfString(b) + t)[1] == b[0];
      assert (OfString(a) + s)[2..] == OfString(a[1..]) + s && (OfString(b) + t)[2..] == OfString(b[1..]) + t;
      StringEnds(a[1..], b[1..], s, t);
      assert a == [a[0]] + a[1..] && b == [b[0]] + b[1..];
    }
  }

  lemma {:induction false} StringsEnd(a: seq<string>, b: seq<string>, s: string, t: string)
    requires OfStrings(a) + s == OfStrings(b) + t
    ensures a == b && s == t
  {
    hide OfString;
    assert (OfStrings(a) + s)[0] == (OfStrings(b) + t)[0];
    if a == [] {
      Behead('.', s, t);
    } else {
      var x, y := OfStrings(a[1..]) + s, OfStrings(b[1..]) + t;
      assert OfStrings(a) + s == "," + (OfString(a[0]) + x) && OfStrings(b) + t == "," + (OfString(b[0]) + y);
      Behead(',', OfString(a[0]) + x, OfString(b[0]) + y);
      StringEnds(a[0], b[0], x, y);
      StringsEnd(a[1..], b[1..], s, t);
      assert a == [a[0]] + a[1..] && b == [b[0]] + b[1..];
    }
  }

  lemma {:induction false} JsonEnds(a: Json, b: Json, s: string, t: string)
    requires OfJson(a) + s == OfJson(b) + t
    ensures a == b && s == t
    decreases a, 0
  {
    hide OfInt, OfString, OfItems, OfFields;
    Heads(Kind(a), Kind(b), Body(a), Body(b), s, t);
    match a
    case Null => assert "" + s == s && "" + t == t;
    case Bool(_) => assert "" + s == s && "" + t == t;
    case Num(n) => IntEnds(n, b.n, s, t);
    case Real(x) => RealEnds(x, b.x, s, t);
    case Str(u) => StringEnds(u, b.s, s, t);
    case Arr(items) => ItemsEnd(items, b.items, s, t);
    case Obj(fields) => FieldsEnd(fields, b.fields, s, t);
  }

  lemma RealEnds(x: Float, y: Float, s: string, t: string)
    requires OfInt(x.mantissa) + OfInt(x.exponent) + s == OfInt(y.mantissa) + OfInt(y.exponent) + t
    ensures x == y && s == t
  {
    hide OfInt;
    assert OfInt(x.mantissa) + OfInt(x.exponent) + s == OfInt(x.mantissa) + (OfInt(x.exponent) + s);
    assert OfInt(y.mantissa) + OfInt(y.exponent) + t == OfInt(y.mantissa) + (OfInt(y.exponent) + t);
    IntEnds(x.mantissa, y.mantissa, OfInt(x.exponent) + s, OfInt(y.exponent) + t);
    IntEnds(x.exponent, y.exponent, s, t);
  }

  lemma {:induction false} ItemsEnd(a: seq<Json>, b: seq<Json>, s: string, t: string)
    requires OfItems(a) + s == OfItems(b) + t
    ensures a == b && s == t
    decreases a, 0
  {
    hide OfJson;
    assert (OfItems(a) + s)[0] == (OfItems(b) + t)[0];
    if a == [] {
      Behead('.', s, t);
    } else {
      var x, y := OfItems(a[1..]) + s, OfItems(b[1..]) + t;
      assert OfItems(a) + s == "," + (OfJson(a[0]) + x) && OfItems(b) + t == "," + (OfJson(b[0]) + y);
      Behead(',', OfJson(a[0]) + x, OfJson(b[0]) + y);
      JsonEnds(a[0], b[0], x, y);
      ItemsEnd(a[1..], b[1..], s, t);
      assert a == [a[0]] + a[1..] && b == [b[0]] + b[1..];
    }
  }

  lemma {:induction false} FieldsEnd(a: seq<Field>, b: seq<Field>, s: string, t: string)
    requires OfFields(a) + s == OfFields(b) + t
    ensures a == b && s == t
    decreases a, 0
  {
    hide OfJson, OfString;
    assert (OfFields(a) + s)[0] == (OfFields(b) + t)[0];
    if a == [] {
      Behead('.', s, t);
    } else {
      var x, y := OfFields(a[1..]) + s, OfFields(b[1..]) + t;
      var u, v := OfJson(a[0].value) + x, OfJson(b[0].value) + y;
      assert OfFields(a) + s == "," + (OfString(a[0].key) + u) && OfFields(b) + t == "," + (OfString(b[0].key) + v);
      Behead(',', OfString(a[0].key) + u, OfString(b[0].key) + v);
      StringEnds(a[0].key, b[0].key, u, v);
      JsonEnds(a[0].value, b[0].value, x, y);
      FieldsEnd(a[1..], b[1..], s, t);
      assert a == [a[0]] + a[1..] && b == [b[0]] + b[1..];
    }
  }

  lemma OutputFromText(o: Output, p: Output)
    requires OfOutput(o) == OfOutput(p)
    ensures o == p
  {
    hide OfJson, OfStrings, OfString, OfInt;
    var e, f := OfStrings(o.errors), OfStrings(p.errors);
    var d, g := OfStrings(o.warnings) + e, OfStrings(p.warnings) + f;
    var c, h := OfInt(o.durationMs) + d, OfInt(p.durationMs) + g;
    var b, i := OfString(o.confidence) + c, OfString(p.confidence) + h;
    JsonEnds(o.slice, p.slice, OfStrings(o.artifacts) + b, OfStrings(p.artifacts) + i);
    StringsEnd(o.artifacts, p.artifacts, b, i);
    StringEnds(o.confidence, p.confidence, c, h);
    IntEnds(o.durationMs, p.durationMs, d, g);
    StringsEnd(o.warnings, p.warnings, e, f);
    assert e == e + "" && f == f + "";
    StringsEnd(o.errors, p.errors, "", "");
  }

  // ---------------------------------------------------------------- the codec

  ghost function Decoded(text: string): Option<Output> {
    if o: Output :| OfOutput(o) == text then Some(o) else None
  }

  /** Digests that are the text itself behind a letter, and blobs that can be read back. */
  ghost function TextCodec(): Codec {
    Codec(text => "h" + text, text => "s" + text, o => OfOutput(o), text => Decoded(text), _ => 1)
  }

  /** Digests that never collide, names that are never empty, and blobs that round-trip do go together. */
  lemma CodecExists()
    ensures TextCodec().Sound() && A.Named(TextCodec()) && A.CollisionFree(TextCodec())
  {
    hide OfOutput;
    var c := TextCodec();
    forall a: Bytes, b: Bytes | c.hex(a) == c.hex(b) || c.sha(a) == c.sha(b) ensures a == b {
      assert ("h" + a)[1..] == a == ("s" + a)[1..] && ("h" + b)[1..] == b == ("s" + b)[1..];
    }
    forall o: Output ensures c.decode(c.encode(o)) == Some(o) {
      var p := Decoded(OfOutput(o)).value;
      OutputFromText(o, p);
    }
  }
}
