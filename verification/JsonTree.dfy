/** JSON values as the repository passes them around: objects keep their fields in order. */
module JsonTree {
  import opened CodePoints

  /** The number `mantissa` times two to the `exponent`: what a finite binary floating-point number is. */
  datatype Fraction = Fraction(mantissa: int, exponent: int)

  /** One fraction per number. */
  type Float = x: Fraction | x.mantissa % 2 == 1 || x == Fraction(0, 0) witness Fraction(0, 0)

  datatype Json =
    | Null
    | Bool(b: bool)
    | Num(n: int)
    | Real(x: Float)
    | Str(s: string)
    | Arr(items: seq<Json>)
    | Obj(fields: seq<Field>)

  datatype Field = Field(key: string, value: Json)

  /** Every object lists its fields by key, each key once: what is left of a dictionary when order does not count. */
  predicate Canonical(node: Json) {
    match node
    case Arr(items) => forall i :: 0 <= i < |items| ==> Canonical(items[i])
    case Obj(fields) =>
      && (forall i :: 0 <= i < |fields| ==> Canonical(fields[i].value))
      && forall i, j :: 0 <= i < j < |fields| ==> fields[i].key != fields[j].key && LexLe(fields[i].key, fields[j].key)
    case _ => true
  }

  /** Keys in order, each once, at every level. */
  lemma CanonicalExamples()
    ensures Canonical(Obj([Field("a", Null), Field("b", Null)]))
    ensures !Canonical(Obj([Field("b", Null), Field("a", Null)]))
    ensures !Canonical(Obj([Field("a", Null), Field("a", Num(1))]))
    ensures !Canonical(Arr([Obj([Field("b", Null), Field("a", Null)])]))
  {
    var swapped := Obj([Field("b", Null), Field("a", Null)]);
    assert swapped.fields[0].key == "b" && swapped.fields[1].key == "a" && !LexLe("b", "a");
    var twice := Obj([Field("a", Null), Field("a", Num(1))]);
    assert twice.fields[0].key == twice.fields[1].key;
    assert Arr([swapped]).items[0] == swapped;
  }

  type Dict = node: Json | Canonical(node) witness Null

  /** Rewrite every string value; keys are kept. */
  function MapStrings(f: string -> string, node: Json): Json {
    match node
    case Str(s) => Str(f(s))
    case Arr(items) => Arr(seq(|items|, i requires 0 <= i < |items| => MapStrings(f, items[i])))
    case Obj(fields) =>
      Obj(seq(|fields|, i requires 0 <= i < |fields| => Field(fields[i].key, MapStrings(f, fields[i].value))))
    case _ => node
  }

  lemma {:induction false} MapKeepsCanonical(f: string -> string, node: Json)
    requires Canonical(node)
    ensures Canonical(MapStrings(f, node))
  {
    match node
    case Arr(items) =>
      forall i | 0 <= i < |items| ensures Canonical(MapStrings(f, items[i])) { MapKeepsCanonical(f, items[i]); }
    case Obj(fields) =>
      forall i | 0 <= i < |fields| ensures Canonical(MapStrings(f, fields[i].value)) {
        MapKeepsCanonical(f, fields[i].value);
      }
    case _ =>
  }

  // ---------------------------------------------------------------- rewriting, seen from outside

  /** `b` is `a` with every string value rewritten by `f`, each at its place, and nothing else changed. */
  ghost predicate LeafWise(f: string -> string, a: Json, b: Json) {
    match a
    case Str(s) => b == Str(f(s))
    case Arr(items) =>
      b.Arr? && |b.items| == |items| && forall i :: 0 <= i < |items| ==> LeafWise(f, items[i], b.items[i])
    case Obj(fields) =>
      b.Obj? && |b.fields| == |fields| &&
      forall i :: 0 <= i < |fields| ==>
        b.fields[i].key == fields[i].key && LeafWise(f, fields[i].value, b.fields[i].value)
    case _ => b == a
  }

  lemma {:induction false} MapIsLeafWise(f: string -> string, node: Json)
    ensures LeafWise(f, node, MapStrings(f, node))
  {
    match node
    case Arr(items) =>
      forall i | 0 <= i < |items| ensures LeafWise(f, items[i], MapStrings(f, items[i])) {
        MapIsLeafWise(f, items[i]);
      }
    case Obj(fields) =>
      forall i | 0 <= i < |fields| ensures LeafWise(f, fields[i].value, MapStrings(f, fields[i].value)) {
        MapIsLeafWise(f, fields[i].value);
      }
    case _ =>
  }

  lemma {:induction false} LeafWiseTwice(
    f: string -> string, g: string -> string, h: string -> string, a: Json, b: Json, c: Json)
    requires LeafWise(f, a, b) && LeafWise(g, b, c) && forall s :: h(s) == g(f(s))
    ensures LeafWise(h, a, c)
  {
    match a
    case Arr(items) =>
      forall i | 0 <= i < |items| ensures LeafWise(h, items[i], c.items[i]) {
        LeafWiseTwice(f, g, h, items[i], b.items[i], c.items[i]);
      }
    case Obj(fields) =>
      forall i | 0 <= i < |fields| ensures LeafWise(h, fields[i].value, c.fields[i].value) {
        LeafWiseTwice(f, g, h, fields[i].value, b.fields[i].value, c.fields[i].value);
      }
    case _ =>
  }
}
