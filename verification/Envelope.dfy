/** The envelope redactor: a named-pattern sweep, an entropy sweep, and a closing constructor, over a tree. */
module Envelope {
  import opened Wrappers
  import opened JsonTree
  import opened Redaction

  type Leaf = string -> Redacted

  const NO_FINDINGS: seq<Finding> := []

  // ---------------------------------------------------------------- one sweep

  datatype Swept = Swept(node: Json, findings: seq<Finding>)

  /** Rebuild a tree with every string value rewritten; keys are not visited. */
  function Walk(leaf: Leaf, node: Json): Swept
    decreases node, 0
  {
    match node
    case Str(s) => Swept(Str(leaf(s).text), leaf(s).findings)
    case Arr(items) => var (items', fs) := WalkItems(leaf, items); Swept(Arr(items'), fs)
    case Obj(fields) => var (fields', fs) := WalkFields(leaf, fields); Swept(Obj(fields'), fs)
    case _ => Swept(node, [])
  }

  function WalkItems(leaf: Leaf, items: seq<Json>): (r: (seq<Json>, seq<Finding>))
    ensures |r.0| == |items|
    decreases items, 0
  {
    if items == [] then ([], [])
    else
      var first := Walk(leaf, items[0]);
      var (rest, fs) := WalkItems(leaf, items[1..]);
      ([first.node] + rest, first.findings + fs)
  }

  function WalkFields(leaf: Leaf, fields: seq<Field>): (r: (seq<Field>, seq<Finding>))
    ensures |r.0| == |fields|
    decreases fields, 0
  {
    if fields == [] then ([], [])
    else
      var first := Walk(leaf, fields[0].value);
      var (rest, fs) := WalkFields(leaf, fields[1..]);
      ([Field(fields[0].key, first.node)] + rest, first.findings + fs)
  }

  /** Every string value of the tree satisfies `p`. */
  ghost predicate Strings(p: string -> bool, node: Json) {
    match node
    case Str(s) => p(s)
    case Arr(items) => forall i :: 0 <= i < |items| ==> Strings(p, items[i])
    case Obj(fields) => forall i :: 0 <= i < |fields| ==> Strings(p, fields[i].value)
    case _ => true
  }

  /** Same tree up to the contents of string values. */
  ghost predicate SameShape(a: Json, b: Json) {
    match a
    case Str(_) => b.Str?
    case Arr(items) =>
      b.Arr? && |items| == |b.items| && forall i :: 0 <= i < |items| ==> SameShape(items[i], b.items[i])
    case Obj(fields) =>
      b.Obj? && |fields| == |b.fields|
      && forall i :: 0 <= i < |fields| ==>
         fields[i].key == b.fields[i].key && SameShape(fields[i].value, b.fields[i].value)
    case _ => a == b
  }

  lemma {:induction false} WalkItemsAt(leaf: Leaf, items: seq<Json>, i: nat)
    requires i < |items|
    ensures WalkItems(leaf, items).0[i] == Walk(leaf, items[i]).node
  {
    if i > 0 {
      WalkItemsAt(leaf, items[1..], i - 1);
    }
  }

  lemma {:induction false} WalkFieldsAt(leaf: Leaf, fields: seq<Field>, i: nat)
    requires i < |fields|
    ensures WalkFields(leaf, fields).0[i] == Field(fields[i].key, Walk(leaf, fields[i].value).node)
  {
    if i > 0 {
      WalkFieldsAt(leaf, fields[1..], i - 1);
    }
  }

  lemma {:induction false} WalkKeepsShape(leaf: Leaf, node: Json)
    ensures SameShape(node, Walk(leaf, node).node)
  {
    match node
    case Arr(items) =>
      forall i | 0 <= i < |items| ensures SameShape(items[i], WalkItems(leaf, items).0[i]) {
        WalkItemsAt(leaf, items, i);
        WalkKeepsShape(leaf, items[i]);
      }
    case Obj(fields) =>
      forall i | 0 <= i < |fields|
        ensures fields[i].key == WalkFields(leaf, fields).0[i].key
        ensures SameShape(fields[i].value, WalkFields(leaf, fields).0[i].value)
      {
        WalkFieldsAt(leaf, fields, i);
        WalkKeepsShape(leaf, fields[i].value);
      }
    case _ =>
  }

  lemma {:induction false} ShapeTwice(a: Json, b: Json, c: Json)
    requires SameShape(a, b) && SameShape(b, c)
    ensures SameShape(a, c)
  {
    match a
    case Arr(items) =>
      forall i | 0 <= i < |items| ensures SameShape(items[i], c.items[i]) {
        ShapeTwice(items[i], b.items[i], c.items[i]);
      }
    case Obj(fields) =>
      forall i | 0 <= i < |fields|
        ensures fields[i].key == c.fields[i].key && SameShape(fields[i].value, c.fields[i].value)
      {
        ShapeTwice(fields[i].value, b.fields[i].value, c.fields[i].value);
      }
    case _ =>
  }

  /** A sweep establishes `q` on every string if its leaf rewriting turns `p` into `q`. */
  lemma {:induction false} WalkEstablishes(leaf: Leaf, p: string -> bool, q: string -> bool, node: Json)
    requires Strings(p, node) && forall s :: p(s) ==> q(leaf(s).text)
    ensures Strings(q, Walk(leaf, node).node)
  {
    match node
    case Arr(items) =>
      forall i | 0 <= i < |items| ensures Strings(q, WalkItems(leaf, items).0[i]) {
        WalkItemsAt(leaf, items, i);
        WalkEstablishes(leaf, p, q, items[i]);
      }
    case Obj(fields) =>
      forall i | 0 <= i < |fields| ensures Strings(q, WalkFields(leaf, fields).0[i].value) {
        WalkFieldsAt(leaf, fields, i);
        WalkEstablishes(leaf, p, q, fields[i].value);
      }
    case _ =>
  }

  /** A sweep whose leaf rewriting leaves every string of the tree alone leaves the tree alone. */
  lemma {:induction false} WalkFixed(leaf: Leaf, p: string -> bool, node: Json)
    requires Strings(p, node) && forall s :: p(s) ==> leaf(s) == Redacted(s, [])
    ensures Walk(leaf, node) == Swept(node, [])
    decreases node, 0
  {
    match node
    case Arr(items) => WalkItemsFixed(leaf, p, items);
    case Obj(fields) => WalkFieldsFixed(leaf, p, fields);
    case _ =>
  }

  lemma {:induction false} WalkItemsFixed(leaf: Leaf, p: string -> bool, items: seq<Json>)
    requires (forall i :: 0 <= i < |items| ==> Strings(p, items[i])) && forall s :: p(s) ==> leaf(s) == Redacted(s, [])
    ensures WalkItems(leaf, items) == (items, [])
    decreases items, 0
  {
    if items != [] {
      WalkFixed(leaf, p, items[0]);
      WalkItemsFixed(leaf, p, items[1..]);
      assert items == [items[0]] + items[1..] && NO_FINDINGS + NO_FINDINGS == NO_FINDINGS;
    }
  }

  lemma {:induction false} WalkFieldsFixed(leaf: Leaf, p: string -> bool, fields: seq<Field>)
    requires forall i :: 0 <= i < |fields| ==> Strings(p, fields[i].value)
    requires forall s :: p(s) ==> leaf(s) == Redacted(s, [])
    ensures WalkFields(leaf, fields) == (fields, [])
    decreases fields, 0
  {
    if fields != [] {
      WalkFixed(leaf, p, fields[0].value);
      WalkFieldsFixed(leaf, p, fields[1..]);
      assert fields == [fields[0]] + fields[1..] && NO_FINDINGS + NO_FINDINGS == NO_FINDINGS;
    }
  }

  lemma {:induction false} AnyStrings(node: Json)
    ensures Strings(_ => true, node)
  {
    match node
    case Arr(items) =>
      forall i | 0 <= i < |items| ensures Strings(_ => true, items[i]) { AnyStrings(items[i]); }
    case Obj(fields) =>
      forall i | 0 <= i < |fields| ensures Strings(_ => true, fields[i].value) { AnyStrings(fields[i].value); }
    case _ =>
  }

  // ---------------------------------------------------------------- a sweep, seen from outside

  /** The string values of a tree in document order. */
  function Texts(node: Json): seq<string>
    decreases node, 0
  {
    match node
    case Str(s) => [s]
    case Arr(items) => ItemTexts(items)
    case Obj(fields) => FieldTexts(fields)
    case _ => []
  }

  function ItemTexts(items: seq<Json>): seq<string>
    decreases items, 0
  {
    if items == [] then [] else Texts(items[0]) + ItemTexts(items[1..])
  }

  function FieldTexts(fields: seq<Field>): seq<string>
    decreases fields, 0
  {
    if fields == [] then [] else Texts(fields[0].value) + FieldTexts(fields[1..])
  }

  /** What a leaf rewriting finds in one text after the other. */
  function Over(leaf: Leaf, texts: seq<string>): seq<Finding> {
    if texts == [] then [] else leaf(texts[0]).findings + Over(leaf, texts[1..])
  }

  lemma OverFirst(leaf: Leaf, texts: seq<string>)
    requires texts != []
    ensures Over(leaf, texts) == leaf(texts[0]).findings + Over(leaf, texts[1..])
  {
  }

  lemma OverSplit(leaf: Leaf, a: seq<string>, b: seq<string>)
    requires a != []
    ensures Over(leaf, a + b) == leaf(a[0]).findings + Over(leaf, a[1..] + b)
  {
    hide Over;
    OverFirst(leaf, a + b);
    assert (a + b)[1..] == a[1..] + b;
  }

  lemma Regroup<T>(a: seq<T>, b: seq<T>, c: seq<T>)
    ensures a + (b + c) == a + b + c
  {
  }

  lemma {:induction false} OverBoth(leaf: Leaf, a: seq<string>, b: seq<string>)
    ensures Over(leaf, a + b) == Over(leaf, a) + Over(leaf, b)
  {
    if a == [] {
      assert a + b == b;
    } else {
      hide Over;
      OverFirst(leaf, a);
      OverSplit(leaf, a, b);
      OverBoth(leaf, a[1..], b);
      Regroup(leaf(a[0]).findings, Over(leaf, a[1..]), Over(leaf, b));
    }
  }

  /** A sweep rewrites every string value at its place, and reports what it found in document order. */
  lemma {:induction false} WalkIsLeafWise(leaf: Leaf, node: Json)
    ensures LeafWise(s => leaf(s).text, node, Walk(leaf, node).node)
    ensures Walk(leaf, node).findings == Over(leaf, Texts(node))
    decreases node, 0
  {
    match node
    case Str(s) => assert leaf(s).findings + [] == leaf(s).findings;
    case Arr(items) => ItemsLeafWise(leaf, items);
    case Obj(fields) => FieldsLeafWise(leaf, fields);
    case _ =>
  }

  lemma {:induction false} ItemsLeafWise(leaf: Leaf, items: seq<Json>)
    ensures forall i :: 0 <= i < |items| ==> LeafWise(s => leaf(s).text, items[i], WalkItems(leaf, items).0[i])
    ensures WalkItems(leaf, items).1 == Over(leaf, ItemTexts(items))
    decreases items, 0
  {
    if items != [] {
      WalkIsLeafWise(leaf, items[0]);
      ItemsLeafWise(leaf, items[1..]);
      OverBoth(leaf, Texts(items[0]), ItemTexts(items[1..]));
    }
  }

  lemma {:induction false} FieldsLeafWise(leaf: Leaf, fields: seq<Field>)
    ensures forall i :: 0 <= i < |fields| ==>
              && WalkFields(leaf, fields).0[i].key == fields[i].key
              && LeafWise(s => leaf(s).text, fields[i].value, WalkFields(leaf, fields).0[i].value)
    ensures WalkFields(leaf, fields).1 == Over(leaf, FieldTexts(fields))
    decreases fields, 0
  {
    if fields != [] {
      WalkIsLeafWise(leaf, fields[0].value);
      FieldsLeafWise(leaf, fields[1..]);
      OverBoth(leaf, Texts(fields[0].value), FieldTexts(fields[1..]));
    }
  }

  // ---------------------------------------------------------------- the closing constructor

  datatype RedactedSlice = RedactedSlice(slice: Json, findingsCount: int, fingerprints: seq<string>)

  predicate Fingerprint(s: string) { |s| == 8 && forall i :: 0 <= i < 8 ==> HexDigit(s[i]) }

  /** The checks the constructor makes. */
  predicate Acceptable(r: RedactedSlice) {
    && r.findingsCount >= 0 && (forall i :: 0 <= i < |r.fingerprints| ==> Fingerprint(r.fingerprints[i]))
    && r.findingsCount >= |r.fingerprints|
  }

  /** What the closing constructor accepts. */
  lemma AcceptableMeans(r: RedactedSlice)
    ensures Acceptable(r) <==>
            && 0 <= |r.fingerprints| <= r.findingsCount
            && forall k :: 0 <= k < |r.fingerprints| ==>
                 |r.fingerprints[k]| == 8 && forall i :: 0 <= i < 8 ==> r.fingerprints[k][i] in "0123456789abcdef"
  {
    if Acceptable(r) {
      forall k, i | 0 <= k < |r.fingerprints| && 0 <= i < 8 ensures r.fingerprints[k][i] in "0123456789abcdef" {
        HexSpelled(r.fingerprints[k][i]);
      }
    } else if |r.fingerprints| <= r.findingsCount {
      var k :| 0 <= k < |r.fingerprints| && !Fingerprint(r.fingerprints[k]);
      if |r.fingerprints[k]| == 8 {
        var i :| 0 <= i < 8 && !HexDigit(r.fingerprints[k][i]);
        HexSpelled(r.fingerprints[k][i]);
      }
    }
  }

  function Prints(fs: seq<Finding>): seq<string> {
    seq(|fs|, i requires 0 <= i < |fs| => fs[i].fingerprint)
  }

  /** The distinct elements, each where it first occurs. */
  function Dedup(xs: seq<string>): (r: seq<string>)
    ensures |r| <= |xs|
  {
    if xs == [] then []
    else
      var front := Dedup(xs[..|xs| - 1]);
      if xs[|xs| - 1] in front then front else front + [xs[|xs| - 1]]
  }

  function FirstAt(xs: seq<string>, x: string): nat
    requires x in xs
  {
    if xs[0] == x then 0 else 1 + FirstAt(xs[1..], x)
  }

  lemma {:induction false} FirstInFront(front: seq<string>, back: seq<string>, x: string)
    requires x in front || x in back
    ensures FirstAt(front + back, x) == if x in front then FirstAt(front, x) else |front| + FirstAt(back, x)
  {
    if front == [] {
      assert front + back == back;
    } else {
      assert (front + back)[1..] == front[1..] + back;
      if front[0] != x {
        FirstInFront(front[1..], back, x);
      }
    }
  }

  /** Nothing is lost, nothing is there twice, and what came first stays first. */
  lemma {:induction false} DedupKeepsAll(xs: seq<string>)
    ensures forall x :: x in Dedup(xs) <==> x in xs
    ensures forall i, j :: 0 <= i < j < |Dedup(xs)| ==>
              Dedup(xs)[i] != Dedup(xs)[j] && FirstAt(xs, Dedup(xs)[i]) < FirstAt(xs, Dedup(xs)[j])
  {
    if xs != [] {
      var n := |xs| - 1;
      DedupKeepsAll(xs[..n]);
      assert xs == xs[..n] + [xs[n]];
      forall x | x in xs ensures FirstAt(xs, x) == if x in xs[..n] then FirstAt(xs[..n], x) else n {
        FirstInFront(xs[..n], [xs[n]], x);
      }
      forall x | x in xs[..n] ensures FirstAt(xs[..n], x) < n {
        FirstInRange(xs[..n], x);
      }
    }
  }

  lemma {:induction false} FirstInRange(xs: seq<string>, x: string)
    requires x in xs
    ensures FirstAt(xs, x) < |xs| && xs[FirstAt(xs, x)] == x
  {
    if xs[0] != x {
      FirstInRange(xs[1..], x);
    }
  }

  // ---------------------------------------------------------------- the three passes

  function NamedLeaf(c: Codec): Leaf { s => RedactNamed(c, s) }

  function EntropyLeaf(c: Codec, hot: string -> bool): Leaf { s => RedactEntropy(c, hot, s) }

  function Close(node: Json, findings: seq<Finding>): Option<RedactedSlice> {
    var r := RedactedSlice(node, |findings|, Dedup(Prints(findings)));
    if Acceptable(r) then Some(r) else None
  }

  function RedactEnvelope(c: Codec, hot: string -> bool, envelope: Json): Option<RedactedSlice> {
    var named := Walk(NamedLeaf(c), envelope);
    var entropy := Walk(EntropyLeaf(c, hot), named.node);
    Close(entropy.node, named.findings + entropy.findings)
  }

  /** The constructor never refuses what the passes hand it. */
  lemma CloseAccepts(node: Json, findings: seq<Finding>)
    ensures Close(node, findings) == Some(RedactedSlice(node, |findings|, Dedup(Prints(findings))))
    ensures findings == [] ==> Close(node, findings).value == RedactedSlice(node, 0, [])
  {
    DedupKeepsAll(Prints(findings));
    var d := Dedup(Prints(findings));
    forall i | 0 <= i < |d| ensures Fingerprint(d[i]) {
      assert d[i] in Prints(findings);
    }
  }

  /** A string that both content passes leave alone. */
  ghost predicate Settled(c: Codec, hot: string -> bool, s: string) {
    RedactNamed(c, s) == Redacted(s, []) && RedactEntropy(c, hot, s) == Redacted(s, [])
  }

  /** After both passes a string is settled, whatever the entropy function says. */
  lemma LeafSettles(c: Codec, hot: string -> bool, s: string)
    requires Clean(s)
    ensures Settled(c, hot, RedactEntropy(c, hot, s).text)
  {
    hide RedactNamed, Clean;
    var t := RedactEntropy(c, hot, s).text;
    NamedFixpoint(c, s);
    MarkerClean(c.digest(s));
    NamedFixpoint(c, t);
    MarkerHasMarker(c.digest(s));
  }

  /** Redaction always yields a slice of the same shape whose string values are all settled; redacting that
      slice again returns it unchanged with no findings. This holds for every entropy function. */
  lemma EnvelopeIdempotent(c: Codec, hot: string -> bool, envelope: Json)
    ensures RedactEnvelope(c, hot, envelope).Some?
    ensures var r := RedactEnvelope(c, hot, envelope).value;
            && SameShape(envelope, r.slice)
            && Strings(s => Settled(c, hot, s), r.slice)
            && RedactEnvelope(c, hot, r.slice) == Some(RedactedSlice(r.slice, 0, []))
  {
    hide RedactNamed, RedactEntropy, Clean, Settled, Close;
    var clean: string -> bool := s => Clean(s);
    var settled: string -> bool := s => Settled(c, hot, s);
    var named := Walk(NamedLeaf(c), envelope);
    var entropy := Walk(EntropyLeaf(c, hot), named.node);
    var slice := entropy.node;
    AnyStrings(envelope);
    forall s ensures clean(NamedLeaf(c)(s).text) { NamedFixpoint(c, s); }
    WalkEstablishes(NamedLeaf(c), _ => true, clean, envelope);
    forall s | clean(s) ensures settled(EntropyLeaf(c, hot)(s).text) { LeafSettles(c, hot, s); }
    WalkEstablishes(EntropyLeaf(c, hot), clean, settled, named.node);
    forall s | settled(s)
      ensures NamedLeaf(c)(s) == Redacted(s, []) && EntropyLeaf(c, hot)(s) == Redacted(s, [])
    {
      SettledLeaf(c, hot, s);
    }
    WalkFixed(NamedLeaf(c), settled, slice);
    WalkFixed(EntropyLeaf(c, hot), settled, slice);
    WalkKeepsShape(NamedLeaf(c), envelope);
    WalkKeepsShape(EntropyLeaf(c, hot), named.node);
    ShapeTwice(envelope, named.node, slice);
    CloseKeeps(slice, named.findings + entropy.findings);
    CloseAccepts(slice, []);
    assert NO_FINDINGS + NO_FINDINGS == NO_FINDINGS;
    CloseAccepts(slice, named.findings + entropy.findings);
  }

  lemma SettledLeaf(c: Codec, hot: string -> bool, s: string)
    requires Settled(c, hot, s)
    ensures RedactNamed(c, s) == Redacted(s, []) && RedactEntropy(c, hot, s) == Redacted(s, [])
  {
  }

  lemma CloseKeeps(node: Json, findings: seq<Finding>)
    ensures Close(node, findings).Some? ==> Close(node, findings).value.slice == node
  {
  }

  /** A closed slice tells how much was found and names each fingerprint once. */
  ghost predicate Tells(r: RedactedSlice, findings: seq<Finding>) {
    && r.findingsCount == |findings|
    && (forall x :: x in r.fingerprints <==> exists k :: 0 <= k < |findings| && findings[k].fingerprint == x)
    && forall i, j :: 0 <= i < j < |r.fingerprints| ==> r.fingerprints[i] != r.fingerprints[j]
  }

  lemma DedupTells(node: Json, findings: seq<Finding>)
    ensures Tells(RedactedSlice(node, |findings|, Dedup(Prints(findings))), findings)
  {
    hide Dedup;
    DedupKeepsAll(Prints(findings));
    var r := RedactedSlice(node, |findings|, Dedup(Prints(findings)));
    forall x ensures x in r.fingerprints <==> exists k :: 0 <= k < |findings| && findings[k].fingerprint == x {
      if x in r.fingerprints {
        var k :| 0 <= k < |findings| && Prints(findings)[k] == x;
      }
      if k :| 0 <= k < |findings| && findings[k].fingerprint == x {
        assert Prints(findings)[k] == x;
      }
    }
  }

  /** `named` is the tree between the two content passes: every string value was rewritten at its place by the pattern
      table and then by the entropy rule, and the result tells of all findings of both. */
  ghost predicate TwoPasses(c: Codec, hot: string -> bool, envelope: Json, named: Json, r: RedactedSlice) {
    && LeafWise(s => RedactNamed(c, s).text, envelope, named)
    && LeafWise(s => RedactEntropy(c, hot, s).text, named, r.slice)
    && Tells(r, Over(s => RedactNamed(c, s), Texts(envelope)) + Over(s => RedactEntropy(c, hot, s), Texts(named)))
  }

  // ---------------------------------------------------------------- the per-probe redactor on a whole slice

  function SecretsLeaf(c: Codec, hot: string -> bool): Leaf { s => RedactString(c, hot, s) }

  function RedactSecrets(c: Codec, hot: string -> bool, slice: Json): Option<RedactedSlice> {
    var swept := Walk(SecretsLeaf(c, hot), slice);
    Close(swept.node, swept.findings)
  }

  /** What the rewriting of one string leaves, it leaves alone. */
  ghost predicate SettlesAt(leaf: Leaf, s: string) { leaf(leaf(s).text) == Redacted(leaf(s).text, []) }

  ghost predicate Twice(leaf: Leaf, node: Json) {
    Walk(leaf, Walk(leaf, node).node) == Swept(Walk(leaf, node).node, [])
  }

  lemma TwiceAppend(a: seq<Finding>, b: seq<Finding>)
    ensures a + b == [] <==> a == [] && b == []
  {
    assert |a + b| == |a| + |b|;
  }

  lemma PairsEqual<T>(x: T, xs: seq<T>, y: T, ys: seq<T>)
    ensures [x] + xs == [y] + ys <==> x == y && xs == ys
  {
    assert ([x] + xs)[0] == x && ([y] + ys)[0] == y;
    assert ([x] + xs)[1..] == xs && ([y] + ys)[1..] == ys;
  }

  /** A sweep is the identity on its own output exactly when its leaf rewriting settles every string of the tree. */
  lemma {:induction false} WalkTwice(leaf: Leaf, p: string -> bool, node: Json)
    requires forall s :: p(s) <==> SettlesAt(leaf, s)
    ensures Twice(leaf, node) <==> Strings(p, node)
    decreases node, 0
  {
    match node
    case Arr(items) => WalkItemsTwice(leaf, p, items);
    case Obj(fields) => WalkFieldsTwice(leaf, p, fields);
    case _ =>
  }

  lemma {:induction false} WalkItemsTwice(leaf: Leaf, p: string -> bool, items: seq<Json>)
    requires forall s :: p(s) <==> SettlesAt(leaf, s)
    ensures WalkItems(leaf, WalkItems(leaf, items).0) == (WalkItems(leaf, items).0, []) <==>
            forall i :: 0 <= i < |items| ==> Strings(p, items[i])
    decreases items, 0
  {
    hide SettlesAt;
    if items != [] {
      var first, rest := Walk(leaf, items[0]), WalkItems(leaf, items[1..]).0;
      WalkTwice(leaf, p, items[0]);
      WalkItemsTwice(leaf, p, items[1..]);
      assert ([first.node] + rest)[1..] == rest;
      TwiceAppend(Walk(leaf, first.node).findings, WalkItems(leaf, rest).1);
      PairsEqual(Walk(leaf, first.node).node, WalkItems(leaf, rest).0, first.node, rest);
      assert (forall i :: 0 <= i < |items| ==> Strings(p, items[i])) <==>
             Strings(p, items[0]) && forall i :: 0 <= i < |items[1..]| ==> Strings(p, items[1..][i]) by {
        forall i | 0 < i < |items| ensures items[i] == items[1..][i - 1] { }
      }
    }
  }

  lemma {:induction false} WalkFieldsTwice(leaf: Leaf, p: string -> bool, fields: seq<Field>)
    requires forall s :: p(s) <==> SettlesAt(leaf, s)
    ensures WalkFields(leaf, WalkFields(leaf, fields).0) == (WalkFields(leaf, fields).0, []) <==>
            forall i :: 0 <= i < |fields| ==> Strings(p, fields[i].value)
    decreases fields, 0
  {
    hide SettlesAt;
    if fields != [] {
      var key := fields[0].key;
      var first, rest := Walk(leaf, fields[0].value), WalkFields(leaf, fields[1..]).0;
      WalkTwice(leaf, p, fields[0].value);
      WalkFieldsTwice(leaf, p, fields[1..]);
      assert ([Field(key, first.node)] + rest)[1..] == rest;
      TwiceAppend(Walk(leaf, first.node).findings, WalkFields(leaf, rest).1);
      PairsEqual(Field(key, Walk(leaf, first.node).node), WalkFields(leaf, rest).0, Field(key, first.node), rest);
      assert (forall i :: 0 <= i < |fields| ==> Strings(p, fields[i].value)) <==>
             Strings(p, fields[0].value) && forall i :: 0 <= i < |fields[1..]| ==> Strings(p, fields[1..][i].value) by {
        forall i | 0 < i < |fields| ensures fields[i] == fields[1..][i - 1] { }
      }
    }
  }

  /** No named secret was found in the string, or what the named patterns left of it is not suspicious. */
  ghost predicate Calm(c: Codec, hot: string -> bool, s: string) {
    RedactNamed(c, s).findings == [] || !Suspicious(c, hot, RedactNamed(c, s).text)
  }

  /** Redacting a whole slice for secrets always succeeds and keeps its shape; redacting the result again changes
      nothing and finds nothing exactly when every string of the original was calm. */
  lemma RedactSecretsIdempotentIff(c: Codec, hot: string -> bool, slice: Json)
    requires forall fp: Hex8 :: c.width(Marker(fp)) == 31
    ensures RedactSecrets(c, hot, slice).Some?
    ensures var r := RedactSecrets(c, hot, slice).value;
            && SameShape(slice, r.slice)
            && (RedactSecrets(c, hot, r.slice) == Some(RedactedSlice(r.slice, 0, [])) <==>
                Strings(s => Calm(c, hot, s), slice))
  {
    hide RedactString, RedactNamed, Suspicious, Close, Walk, Strings;
    var leaf := SecretsLeaf(c, hot);
    var calm: string -> bool := s => Calm(c, hot, s);
    forall s ensures calm(s) <==> SettlesAt(leaf, s) {
      RedactStringIdempotentIff(c, hot, s);
    }
    WalkTwice(leaf, calm, slice);
    WalkKeepsShape(leaf, slice);
    var once := Walk(leaf, slice);
    var again := Walk(leaf, once.node);
    CloseAccepts(once.node, once.findings);
    CloseAccepts(again.node, again.findings);
    CloseAccepts(once.node, []);
    assert RedactSecrets(c, hot, slice).value.slice == once.node;
  }

  // ---------------------------------------------------------------- the passes as they run

  /** One sweep, appending to the call's findings as it goes. */
  method Sweep(leaf: Leaf, node: Json, state: PassState) returns (out: Json)
    modifies state
    ensures out == Walk(leaf, node).node && state.findings == old(state.findings) + Walk(leaf, node).findings
    decreases node, 0
  {
    match node {
      case Str(s) =>
        var r := leaf(s);
        state.findings := state.findings + r.findings;
        out := Str(r.text);
      case Arr(items) =>
        var items' := SweepItems(leaf, items, state);
        out := Arr(items');
      case Obj(fields) =>
        var fields' := SweepFields(leaf, fields, state);
        out := Obj(fields');
      case _ =>
        out := node;
    }
  }

  method SweepItems(leaf: Leaf, items: seq<Json>, state: PassState) returns (done: seq<Json>)
    modifies state
    ensures done == WalkItems(leaf, items).0
    ensures state.findings == old(state.findings) + WalkItems(leaf, items).1
    decreases items, 0
  {
    done := [];
    assert items[0..] == items;
    for i := 0 to |items|
      invariant done + WalkItems(leaf, items[i..]).0 == WalkItems(leaf, items).0
      invariant state.findings + WalkItems(leaf, items[i..]).1 == old(state.findings) + WalkItems(leaf, items).1
    {
      assert items[i..][1..] == items[i + 1..];
      var item := Sweep(leaf, items[i], state);
      done := done + [item];
    }
  }

  method SweepFields(leaf: Leaf, fields: seq<Field>, state: PassState) returns (done: seq<Field>)
    modifies state
    ensures done == WalkFields(leaf, fields).0
    ensures state.findings == old(state.findings) + WalkFields(leaf, fields).1
    decreases fields, 0
  {
    done := [];
    assert fields[0..] == fields;
    for i := 0 to |fields|
      invariant done + WalkFields(leaf, fields[i..]).0 == WalkFields(leaf, fields).0
      invariant state.findings + WalkFields(leaf, fields[i..]).1 == old(state.findings) + WalkFields(leaf, fields).1
    {
      assert fields[i..][1..] == fields[i + 1..];
      var value := Sweep(leaf, fields[i].value, state);
      done := done + [Field(fields[i].key, value)];
    }
  }

  method RedactEnvelopeInPasses(c: Codec, hot: string -> bool, envelope: Json) returns (r: RedactedSlice)
    ensures RedactEnvelope(c, hot, envelope) == Some(r)
    ensures SameShape(envelope, r.slice) && RedactEnvelope(c, hot, r.slice) == Some(RedactedSlice(r.slice, 0, []))
    ensures exists named :: TwoPasses(c, hot, envelope, named, r)
  {
    hide RedactNamed, RedactEntropy, Settled, Close, Dedup, Prints, SameShape, Walk, Strings, Tells;
    var state := new PassState();
    var named := Sweep(NamedLeaf(c), envelope, state);
    var entropy := Sweep(EntropyLeaf(c, hot), named, state);
    EnvelopeIdempotent(c, hot, envelope);
    CloseAccepts(entropy, state.findings);
    assert state.findings == Walk(NamedLeaf(c), envelope).findings + Walk(EntropyLeaf(c, hot), named).findings;
    r := RedactedSlice(entropy, |state.findings|, Dedup(Prints(state.findings)));
    WalkIsLeafWise(NamedLeaf(c), envelope);
    WalkIsLeafWise(EntropyLeaf(c, hot), named);
    DedupTells(entropy, state.findings);
    PassesAreTwo(c, hot, envelope, named, r, state.findings);
  }

  lemma PassesAreTwo(
    c: Codec, hot: string -> bool, envelope: Json, named: Json, r: RedactedSlice, findings: seq<Finding>)
    requires LeafWise(s => NamedLeaf(c)(s).text, envelope, named)
    requires LeafWise(s => EntropyLeaf(c, hot)(s).text, named, r.slice)
    requires findings == Over(NamedLeaf(c), Texts(envelope)) + Over(EntropyLeaf(c, hot), Texts(named))
    requires Tells(r, findings)
    ensures TwoPasses(c, hot, envelope, named, r)
  {
    hide RedactNamed, RedactEntropy, Tells, Over;
    LeafWiseAlike(s => NamedLeaf(c)(s).text, s => RedactNamed(c, s).text, envelope, named);
    LeafWiseAlike(s => EntropyLeaf(c, hot)(s).text, s => RedactEntropy(c, hot, s).text, named, r.slice);
    OverAlike(NamedLeaf(c), s => RedactNamed(c, s), Texts(envelope));
    OverAlike(EntropyLeaf(c, hot), s => RedactEntropy(c, hot, s), Texts(named));
  }

  lemma {:induction false} OverAlike(f: Leaf, g: Leaf, texts: seq<string>)
    requires forall s :: f(s) == g(s)
    ensures Over(f, texts) == Over(g, texts)
  {
    if texts != [] {
      OverAlike(f, g, texts[1..]);
    }
  }

  lemma LeafWiseAlike(f: string -> string, g: string -> string, a: Json, b: Json)
    requires LeafWise(f, a, b) && forall s :: f(s) == g(s)
    ensures LeafWise(g, a, b)
  {
    LeafWiseSame(s => s, b);
    LeafWiseTwice(f, s => s, g, a, b, b);
  }

  lemma {:induction false} LeafWiseSame(f: string -> string, a: Json)
    requires forall s :: f(s) == s
    ensures LeafWise(f, a, a)
  {
    match a
    case Arr(items) =>
      forall i | 0 <= i < |items| ensures LeafWise(f, items[i], items[i]) { LeafWiseSame(f, items[i]); }
    case Obj(fields) =>
      forall i | 0 <= i < |fields| ensures LeafWise(f, fields[i].value, fields[i].value) {
        LeafWiseSame(f, fields[i].value);
      }
    case _ =>
  }

  /** The per-probe redactor on a slice: every string value at its place by the rule for one string, and all findings
      told. */
  lemma RedactSecretsLeafWise(c: Codec, hot: string -> bool, slice: Json)
    ensures RedactSecrets(c, hot, slice).Some?
    ensures LeafWise(s => RedactString(c, hot, s).text, slice, RedactSecrets(c, hot, slice).value.slice)
    ensures Tells(RedactSecrets(c, hot, slice).value, Over(s => RedactString(c, hot, s), Texts(slice)))
  {
    hide RedactString, Tells, Over, Close;
    var leaf := SecretsLeaf(c, hot);
    var swept := Walk(leaf, slice);
    WalkIsLeafWise(leaf, slice);
    CloseAccepts(swept.node, swept.findings);
    DedupTells(swept.node, swept.findings);
    LeafWiseAlike(s => leaf(s).text, s => RedactString(c, hot, s).text, slice, swept.node);
    OverAlike(leaf, s => RedactString(c, hot, s), Texts(slice));
  }
}
