/** Secret redaction in one text: sequential leftmost substitution, and the entropy rule on what is left. */
module Redaction {
  import opened Wrappers
  import opened Patterns

  predicate HexDigit(c: char) { '0' <= c <= '9' || 'a' <= c <= 'f' }

  type Hex8 = s: string | |s| == 8 && forall i :: 0 <= i < 8 ==> HexDigit(s[i]) witness "00000000"

  /** How a cleartext is fingerprinted (its hash, cut to eight digits) and how long its encoding is. */
  datatype Codec = Codec(digest: string -> Hex8, width: string -> nat)

  datatype Finding = Finding(fingerprint: Hex8, pattern: Class, cleartextLen: nat)

  /** A rewritten text and what was found on the way. */
  datatype Redacted = Redacted(text: string, findings: seq<Finding>)

  lemma HexSpelled(c: char)
    ensures HexDigit(c) <==> c in "0123456789abcdef"
  {
  }

  const OPEN_MARKER := "<REDACTED:fingerprint="

  function Marker(fp: Hex8): string { OPEN_MARKER + fp + ">" }

  lemma MarkerShape(fp: Hex8)
    ensures |Marker(fp)| == 31 && Marker(fp)[0] == '<' && Marker(fp)[30] == '>'
    ensures forall i :: 0 <= i < 31 ==> !Telltale(Marker(fp)[i])
  {
    var m := Marker(fp);
    forall i | 0 <= i < 31 ensures !Telltale(m[i]) {
      assert m[i] in OPEN_MARKER || (22 <= i < 30 && m[i] == fp[i - 22]) || m[i] == '>';
      assert forall c :: c in OPEN_MARKER ==> !Telltale(c);
    }
  }

  // ---------------------------------------------------------------- one pattern

  /** Replace every match of one pattern, scanning left to right. */
  function Sub(k: Class, c: Codec, s: string): Redacted
    decreases |s|
  {
    if s == "" then Redacted("", [])
    else
      MatchFinds(k, s);
      match MatchLen(k, s)
      case None =>
        var r := Sub(k, c, s[1..]);
        Redacted([s[0]] + r.text, r.findings)
      case Some(n) =>
        var r := Sub(k, c, s[n..]);
        var fp := c.digest(s[..n]);
        Redacted(Marker(fp) + r.text, [Finding(fp, k, c.width(s[..n]))] + r.findings)
  }

  lemma SubEmpty(k: Class, c: Codec)
    ensures Sub(k, c, "").text == ""
  {
  }

  /** No substring of `s` is a word of the pattern. */
  ghost predicate CleanOf(k: Class, s: string) {
    forall i, j :: 0 <= i <= j <= |s| ==> !Word(k, s[i..j])
  }

  /** `w` stands at `p` in `t`. */
  predicate At(t: string, p: nat, w: string) { p + |w| <= |t| && t[p..p + |w|] == w }

  /** A text that begins inside a marker contains the closing bracket or has no telltale. */
  lemma NotInsideMarker(front: string, u: string, p: nat, w: string)
    requires p < |front| && At(front + u, p, w)
    requires front[|front| - 1] == '>' && forall i :: 0 <= i < |front| ==> !Telltale(front[i])
    ensures !Anchored(w)
  {
    var t := front + u;
    assert forall i :: 0 <= i < |w| ==> w[i] == t[p..p + |w|][i] == t[p + i];
    if p + |w| >= |front| {
      assert w[|front| - 1 - p] == '>';
    }
  }

  lemma AtBehind(front: string, u: string, p: nat, w: string)
    requires |front| <= p && At(front + u, p, w)
    ensures At(u, p - |front|, w) && (front + u)[p + |w|..] == u[p - |front| + |w|..]
  {
    assert u[p - |front|..p - |front| + |w|] == (front + u)[p..p + |w|];
  }

  lemma AtTail(s: string, n: nat, i: nat, w: string)
    requires n <= |s| && At(s[n..], i, w)
    ensures At(s, n + i, w) && s[n..][i..] == s[n + i..] && s[n..][i + |w|..] == s[n + i + |w|..]
  {
    assert s[n + i..n + i + |w|] == s[n..][i..i + |w|];
  }

  /** What the scan did first: the text it wrote and how much of the input that took. */
  function Head(k: Class, c: Codec, s: string): (string, nat)
    requires s != ""
  {
    match MatchLen(k, s)
    case None => ([s[0]], 1)
    case Some(n) => (if n <= |s| then Marker(c.digest(s[..n])) else "", n)
  }

  lemma HeadAndRest(k: Class, c: Codec, s: string)
    requires s != ""
    ensures var (front, n) := Head(k, c, s);
            && 0 < n <= |s| && front != "" && Sub(k, c, s).text == front + Sub(k, c, s[n..]).text
            && (MatchLen(k, s).Some? ==> front[0] == '<' && |front| > 1)
            && (MatchLen(k, s).None? ==> front == [s[0]] && n == 1)
            && (|front| > 1 ==> front[|front| - 1] == '>' && forall i :: 0 <= i < |front| ==> !Telltale(front[i]))
  {
    MatchFinds(k, s);
    if MatchLen(k, s).Some? {
      MarkerShape(c.digest(s[..MatchLen(k, s).value]));
    }
  }

  /** Text without brackets at the front of the output was kept from the front of the input. */
  lemma {:induction false} Front(k: Class, c: Codec, s: string, w: string)
    requires w != "" && (forall i :: 0 <= i < |w| ==> !Bracket(w[i])) && w <= Sub(k, c, s).text
    ensures w <= s && MatchLen(k, s).None? && Sub(k, c, s).text[|w|..] == Sub(k, c, s[|w|..]).text
    decreases |s|
  {
    hide MatchLen, Sub;
    SubEmpty(k, c);
    HeadAndRest(k, c, s);
    var (front, n) := Head(k, c, s);
    assert w[0] == Sub(k, c, s).text[0] == front[0];
    var u := Sub(k, c, s[1..]).text;
    KeptFirst(s[0], u, w);
    if |w| > 1 {
      Front(k, c, s[1..], w[1..]);
      KeptFirst(s[0], s[1..], w);
      assert [s[0]] + s[1..] == s;
      assert s[1..][|w| - 1..] == s[|w|..];
    }
  }

  lemma KeptFirst(c: char, u: string, w: string)
    requires w != ""
    ensures w <= [c] + u <==> w[0] == c && w[1..] <= u
    ensures w <= [c] + u ==> ([c] + u)[|w|..] == u[|w| - 1..]
  {
    if w[0] == c && w[1..] <= u {
      assert w == [c] + w[1..];
    }
    if w <= [c] + u {
      assert w[1..] == ([c] + u)[1..|w|] == u[..|w| - 1];
    }
  }

  /** An anchored text found in the output was kept from the input, and what follows it there is the
      substitution of what followed it in the input. */
  lemma {:induction false} Lift(k: Class, c: Codec, s: string, p: nat, w: string) returns (i: nat)
    requires Anchored(w) && At(Sub(k, c, s).text, p, w)
    ensures At(s, i, w) && MatchLen(k, s[i..]).None? && (p > 0 ==> i > 0)
    ensures Sub(k, c, s).text[p + |w|..] == Sub(k, c, s[i + |w|..]).text
    decreases |s|
  {
    hide MatchLen, Sub;
    SubEmpty(k, c);
    if p == 0 {
      Front(k, c, s, w);
      assert s[0..] == s;
      i := 0;
    } else {
      HeadAndRest(k, c, s);
      var (front, n) := Head(k, c, s);
      var u := Sub(k, c, s[n..]).text;
      if p < |front| {
        NotInsideMarker(front, u, p, w);
        assert false;
      }
      hide Telltale, Bracket, At;
      AtBehind(front, u, p, w);
      var i' := Lift(k, c, s[n..], p - |front|, w);
      AtTail(s, n, i', w);
      i := n + i';
    }
  }

  /** A block found in the output of a substitution: both its headers stood in the input, in that order and
      apart, the first where the scan did not match. */
  lemma BlockLifts(k': Class, c: Codec, s: string, p: nat, w: string) returns (i: nat, j: nat)
    requires RsaWord(w) && At(Sub(k', c, s).text, p, w)
    ensures i <= j <= |s| && RsaWord(s[i..j]) && MatchLen(k', s[i..]).None?
  {
    hide MatchLen, Sub, Anchored, Header, At, RsaWord;
    var t := Sub(k', c, s).text;
    var a, b := BlockHeaders(w);
    HeaderAnchored(BEGIN, w[..a]);
    HeaderAnchored(END, w[b..]);
    AtParts(t, p, w, a, b);
    i := Lift(k', c, s, p, w[..a]);
    AtFits(s, i, w[..a]);
    var n := Lift(k', c, s[i + a..], b - a, w[b..]);
    AtFits(s[i + a..], n, w[b..]);
    j := i + a + n + (|w| - b);
    BlockBetween(s, i, a, n, w[b..]);
  }

  lemma BlockHeaders(w: string) returns (a: nat, b: nat)
    requires RsaWord(w)
    ensures a < b <= |w| && Header(BEGIN, w[..a]) && Header(END, w[b..])
  {
    hide Header;
    a, b :| RsaParts(w, a, b);
  }

  lemma AtFits(t: string, p: nat, w: string)
    requires At(t, p, w)
    ensures p + |w| <= |t| && t[p..p + |w|] == w
  {
  }

  /** The front and the back of a text that stands somewhere stand there too. */
  lemma AtParts(t: string, p: nat, w: string, a: nat, b: nat)
    requires At(t, p, w) && a <= b <= |w|
    ensures At(t, p, w[..a]) && p + a <= |t| && At(t[p + a..], b - a, w[b..])
  {
    assert t[p..p + a] == t[p..p + |w|][..a];
    assert t[p + a..][b - a..|w| - a] == t[p..p + |w|][b..];
  }

  lemma BlockBetween(s: string, i: nat, a: nat, n: nat, close: string)
    requires i + a <= |s| && Header(BEGIN, s[i..i + a]) && n > 0 && At(s[i + a..], n, close) && Header(END, close)
    ensures i + a + n + |close| <= |s| && RsaWord(s[i..i + a + n + |close|])
  {
    var w := s[i..i + a + n + |close|];
    assert w[..a] == s[i..i + a];
    assert w[a + n..] == s[i + a..][n..n + |close|];
    assert RsaParts(w, a, a + n);
  }

  /** A word found in the output of a substitution stood in its input, where the scan did not match. */
  lemma WordLifts(k: Class, k': Class, c: Codec, s: string, p: nat, q: nat) returns (i: nat, j: nat)
    requires p <= q <= |Sub(k', c, s).text| && Word(k, Sub(k', c, s).text[p..q])
    ensures i <= j <= |s| && Word(k, s[i..j]) && MatchLen(k', s[i..]).None?
  {
    hide MatchLen, Sub, Anchored;
    hide FixedWord, JwtWord, AnthropicWord, RsaWord;
    var w := Sub(k', c, s).text[p..q];
    if k == RsaPrivateKey {
      i, j := BlockLifts(k', c, s, p, w);
    } else {
      BoundedAnchored(k, w);
      i := Lift(k', c, s, p, w);
      j := i + |w|;
    }
  }

  lemma SubClears(k: Class, c: Codec, s: string)
    ensures CleanOf(k, Sub(k, c, s).text)
  {
    var t := Sub(k, c, s).text;
    forall p, q | 0 <= p <= q <= |t|
      ensures !Word(k, t[p..q])
    {
      if Word(k, t[p..q]) {
        var i, j := WordLifts(k, k, c, s, p, q);
        assert s[i..][..j - i] == s[i..j];
        MatchFinds(k, s[i..]);
        assert false;
      }
    }
  }

  lemma SubKeepsClean(k: Class, k': Class, c: Codec, s: string)
    requires CleanOf(k, s)
    ensures CleanOf(k, Sub(k', c, s).text)
  {
    var t := Sub(k', c, s).text;
    forall p, q | 0 <= p <= q <= |t|
      ensures !Word(k, t[p..q])
    {
      if Word(k, t[p..q]) {
        var i, j := WordLifts(k, k', c, s, p, q);
      }
    }
  }

  lemma CleanTail(k: Class, s: string)
    requires CleanOf(k, s) && s != ""
    ensures CleanOf(k, s[1..])
  {
    hide Word;
    forall i, j | 0 <= i <= j <= |s[1..]|
      ensures !Word(k, s[1..][i..j])
    {
      assert s[1..][i..j] == s[i + 1..j + 1];
    }
  }

  lemma CleanFromTail(k: Class, s: string)
    requires s != "" && MatchLen(k, s).None?
    ensures CleanOf(k, s) <==> CleanOf(k, s[1..])
  {
    hide MatchLen, Word;
    MatchFinds(k, s);
    if CleanOf(k, s) {
      CleanTail(k, s);
    }
    if CleanOf(k, s[1..]) {
      forall i, j | 0 <= i <= j <= |s|
        ensures !Word(k, s[i..j])
      {
        if i == 0 {
          assert s[0..j] == s[..j];
        } else {
          SliceOfTail(s, i, j);
        }
      }
    }
  }

  lemma SliceOfTail(s: string, i: nat, j: nat)
    requires 0 < i <= j <= |s|
    ensures s[i..j] == s[1..][i - 1..j - 1]
  {
    var t := s[1..];
    assert forall n :: 0 <= n < j - i ==> s[i..j][n] == s[i + n] == t[i - 1 + n] == t[i - 1..j - 1][n];
  }

  lemma FoundAtFront(k: Class, c: Codec, s: string)
    requires s != "" && MatchLen(k, s).Some?
    ensures !CleanOf(k, s) && Sub(k, c, s).findings != []
  {
    hide MatchLen, Word;
    MatchFinds(k, s);
    assert s[0..MatchLen(k, s).value] == s[..MatchLen(k, s).value];
  }

  lemma NothingAtFront(k: Class, c: Codec, s: string)
    requires s != "" && MatchLen(k, s).None?
    ensures Sub(k, c, s) == Redacted([s[0]] + Sub(k, c, s[1..]).text, Sub(k, c, s[1..]).findings)
  {
    hide MatchLen;
  }

  lemma EmptyIsClean(k: Class, c: Codec)
    ensures CleanOf(k, "") && Sub(k, c, "") == Redacted("", [])
  {
    MatchFinds(k, "");
    assert ""[..0] == "" && ""[0..0] == "";
  }

  /** A substitution finds nothing, and changes nothing, exactly in clean text. */
  lemma {:induction false} SubOnClean(k: Class, c: Codec, s: string)
    ensures CleanOf(k, s) <==> Sub(k, c, s).findings == []
    ensures CleanOf(k, s) ==> Sub(k, c, s) == Redacted(s, [])
    decreases |s|
  {
    hide MatchLen, CleanOf, Sub;
    if s == "" {
      EmptyIsClean(k, c);
    } else if MatchLen(k, s).Some? {
      FoundAtFront(k, c, s);
    } else {
      SubOnClean(k, c, s[1..]);
      CleanFromTail(k, s);
      NothingAtFront(k, c, s);
      assert [s[0]] + s[1..] == s;
    }
  }

  // ---------------------------------------------------------------- all patterns in turn

  function SubAll(ks: seq<Class>, c: Codec, s: string): Redacted {
    if ks == [] then Redacted(s, [])
    else
      var first := Sub(ks[0], c, s);
      var rest := SubAll(ks[1..], c, first.text);
      Redacted(rest.text, first.findings + rest.findings)
  }

  function RedactNamed(c: Codec, s: string): Redacted { SubAll(PATTERNS, c, s) }

  /** No part of the text is a secret of any class. */
  ghost predicate Clean(s: string) {
    forall k: Class :: CleanOf(k, s)
  }

  /** Every class with words is in the table. */
  lemma TableIsWhole(k: Class, s: string)
    ensures k in PATTERNS || CleanOf(k, s)
  {
  }

  lemma {:induction false} SubAllClears(ks: seq<Class>, c: Codec, s: string, k: Class)
    requires k in ks || CleanOf(k, s)
    ensures CleanOf(k, SubAll(ks, c, s).text)
  {
    if ks != [] {
      var t := Sub(ks[0], c, s).text;
      if k == ks[0] {
        SubClears(k, c, s);
      } else if CleanOf(k, s) {
        SubKeepsClean(k, ks[0], c, s);
      }
      assert ks == [ks[0]] + ks[1..];
      SubAllClears(ks[1..], c, t, k);
    }
  }

  lemma {:induction false} SubAllOnClean(ks: seq<Class>, c: Codec, s: string)
    ensures (forall k :: k in ks ==> CleanOf(k, s)) <==> SubAll(ks, c, s).findings == []
    ensures (forall k :: k in ks ==> CleanOf(k, s)) ==> SubAll(ks, c, s) == Redacted(s, [])
  {
    if ks != [] {
      SubOnClean(ks[0], c, s);
      SubAllOnClean(ks[1..], c, Sub(ks[0], c, s).text);
      assert ks == [ks[0]] + ks[1..];
    }
  }

  /** Redaction reaches a fixpoint: no pattern matches anywhere in its output, so redacting again finds nothing
      and changes nothing. Nothing is found the first time either exactly when the text was clean. */
  lemma NamedFixpoint(c: Codec, s: string)
    ensures Clean(RedactNamed(c, s).text)
    ensures RedactNamed(c, RedactNamed(c, s).text) == Redacted(RedactNamed(c, s).text, [])
    ensures Clean(s) <==> RedactNamed(c, s).findings == []
    ensures Clean(s) ==> RedactNamed(c, s) == Redacted(s, [])
  {
    hide CleanOf;
    var t := RedactNamed(c, s).text;
    forall k: Class ensures CleanOf(k, t) {
      TableIsWhole(k, s);
      SubAllClears(PATTERNS, c, s, k);
    }
    forall k: Class ensures k in PATTERNS || CleanOf(k, s) {
      TableIsWhole(k, s);
    }
    SubAllOnClean(PATTERNS, c, t);
    SubAllOnClean(PATTERNS, c, s);
  }

  lemma WordHasTelltale(k: Class, w: string)
    requires Word(k, w)
    ensures exists n :: 0 <= n < |w| && Telltale(w[n])
  {
    if k == RsaPrivateKey {
      var a: nat, b: nat :| RsaParts(w, a, b);
      HeaderAnchored(BEGIN, w[..a]);
      var n :| 0 <= n < a && Telltale(w[..a][n]);
      assert Telltale(w[n]);
    } else {
      BoundedAnchored(k, w);
    }
  }

  /** Text without a telltale character is clean. */
  lemma NoTelltale(s: string)
    requires forall i :: 0 <= i < |s| ==> !Telltale(s[i])
    ensures Clean(s)
  {
    forall k: Class, i, j | 0 <= i <= j <= |s|
      ensures !Word(k, s[i..j])
    {
      if Word(k, s[i..j]) {
        WordHasTelltale(k, s[i..j]);
        assert false;
      }
    }
  }

  lemma MarkerClean(fp: Hex8)
    ensures Clean(Marker(fp))
  {
    MarkerShape(fp);
    NoTelltale(Marker(fp));
  }

  // ---------------------------------------------------------------- what a redaction is, piece by piece

  /** A text is cut into what stays and what is a secret. */
  datatype Piece = Stays(text: string) | Secret(word: string)

  function Original(ps: seq<Piece>): string {
    if ps == [] then "" else (if ps[0].Stays? then ps[0].text else ps[0].word) + Original(ps[1..])
  }

  function Shown(c: Codec, ps: seq<Piece>): string {
    if ps == [] then ""
    else
      (if ps[0].Stays? then ps[0].text else "<REDACTED:fingerprint=" + c.digest(ps[0].word) + ">") + Shown(c, ps[1..])
  }

  function Reported(k: Class, c: Codec, ps: seq<Piece>): seq<Finding> {
    if ps == [] then []
    else
      (if ps[0].Stays? then [] else [Finding(c.digest(ps[0].word), k, c.width(ps[0].word))]) + Reported(k, c, ps[1..])
  }

  ghost predicate CutInto(k: Class, c: Codec, s: string, r: Redacted, ps: seq<Piece>) {
    && Original(ps) == s && Shown(c, ps) == r.text && Reported(k, c, ps) == r.findings
    && forall i :: 0 <= i < |ps| && ps[i].Secret? ==> Word(k, ps[i].word)
  }

  /** Words of one class are replaced by markers and reported, in order, and everything else stays. */
  ghost predicate Replaced(k: Class, c: Codec, s: string, r: Redacted) {
    CleanOf(k, r.text) && exists ps :: CutInto(k, c, s, r, ps)
  }

  lemma CutMore(k: Class, c: Codec, p: Piece, s: string, r: Redacted, ps: seq<Piece>)
    requires CutInto(k, c, s, r, ps) && (p.Secret? ==> Word(k, p.word))
    ensures CutInto(
              k, c, (if p.Stays? then p.text else p.word) + s,
              Redacted((if p.Stays? then p.text else Marker(c.digest(p.word))) + r.text,
                       (if p.Stays? then [] else [Finding(c.digest(p.word), k, c.width(p.word))]) + r.findings),
              [p] + ps)
  {
    assert ([p] + ps)[1..] == ps;
  }

  lemma {:induction false} SubCuts(k: Class, c: Codec, s: string) returns (ps: seq<Piece>)
    ensures CutInto(k, c, s, Sub(k, c, s), ps)
    decreases |s|
  {
    hide MatchLen, Word, CutInto;
    if s == "" {
      ps := [];
      assert CutInto(k, c, "", Redacted("", []), []) by { NothingCut(k, c); }
    } else {
      MatchFinds(k, s);
      match MatchLen(k, s) {
        case None =>
          ps := SubCuts(k, c, s[1..]);
          CutMore(k, c, Stays([s[0]]), s[1..], Sub(k, c, s[1..]), ps);
          assert [s[0]] + s[1..] == s && [] + Sub(k, c, s[1..]).findings == Sub(k, c, s[1..]).findings;
          ps := [Stays([s[0]])] + ps;
        case Some(n) =>
          ps := SubCuts(k, c, s[n..]);
          CutMore(k, c, Secret(s[..n]), s[n..], Sub(k, c, s[n..]), ps);
          assert s[..n] + s[n..] == s;
          ps := [Secret(s[..n])] + ps;
      }
    }
  }

  lemma NothingCut(k: Class, c: Codec)
    ensures CutInto(k, c, "", Redacted("", []), [])
  {
  }

  lemma SubReplaces(k: Class, c: Codec, s: string)
    ensures Replaced(k, c, s, Sub(k, c, s))
  {
    hide Word, CutInto, Sub;
    var ps := SubCuts(k, c, s);
    SubClears(k, c, s);
  }

  /** One class after the other, each on what the one before left; the findings in that order. */
  ghost predicate InTurn(ks: seq<Class>, c: Codec, s: string, r: Redacted) {
    if ks == [] then r == Redacted(s, [])
    else
      exists first: Redacted, rest: Redacted ::
        Replaced(ks[0], c, s, first) && InTurn(ks[1..], c, first.text, rest) &&
        r == Redacted(rest.text, first.findings + rest.findings)
  }

  lemma {:induction false} SubAllInTurn(ks: seq<Class>, c: Codec, s: string)
    ensures InTurn(ks, c, s, SubAll(ks, c, s))
  {
    hide Replaced, Sub;
    if ks != [] {
      var first := Sub(ks[0], c, s);
      SubReplaces(ks[0], c, s);
      SubAllInTurn(ks[1..], c, first.text);
      assert Replaced(ks[0], c, s, first) && InTurn(ks[1..], c, first.text, SubAll(ks[1..], c, first.text));
    }
  }

  /** Findings accumulated by one call. */
  class PassState {
    var findings: seq<Finding>

    constructor ()
      ensures findings == []
    {
      findings := [];
    }
  }

  method RedactNamedInString(c: Codec, s: string, state: PassState) returns (out: string)
    modifies state
    ensures out == RedactNamed(c, s).text && state.findings == old(state.findings) + RedactNamed(c, s).findings
    ensures forall k: Class, i, j :: 0 <= i <= j <= |out| ==> !Word(k, out[i..j])
    ensures state.findings == old(state.findings) <==>
            forall k: Class, i, j :: 0 <= i <= j <= |s| ==> !Word(k, s[i..j])
    ensures old(state.findings) <= state.findings
    ensures InTurn(
              [AwsAccessKey, GithubToken, Jwt, RsaPrivateKey, NpmToken, AnthropicKey], c, s,
              Redacted(out, state.findings[|old(state.findings)|..]))
  {
    hide Sub, Word, InTurn;
    out := s;
    ghost var total := RedactNamed(c, s);
    assert PATTERNS[0..] == PATTERNS;
    assert state.findings + total.findings == old(state.findings) + total.findings;
    for n := 0 to |PATTERNS|
      invariant SubAll(PATTERNS[n..], c, out).text == total.text
      invariant state.findings + SubAll(PATTERNS[n..], c, out).findings == old(state.findings) + total.findings
    {
      var r := Sub(PATTERNS[n], c, out);
      assert PATTERNS[n..][1..] == PATTERNS[n + 1..];
      out := r.text;
      state.findings := state.findings + r.findings;
    }
    NamedMeans(c, s);
    NothingAdded(old(state.findings), total.findings);
  }

  lemma NamedMeans(c: Codec, s: string)
    ensures var r := RedactNamed(c, s);
            && (forall k: Class, i, j :: 0 <= i <= j <= |r.text| ==> !Word(k, r.text[i..j]))
            && (r.findings == [] <==> forall k: Class, i, j :: 0 <= i <= j <= |s| ==> !Word(k, s[i..j]))
            && InTurn([AwsAccessKey, GithubToken, Jwt, RsaPrivateKey, NpmToken, AnthropicKey], c, s, r)
  {
    hide Clean, Word, InTurn, SubAll;
    var r := RedactNamed(c, s);
    NamedFixpoint(c, s);
    SubAllInTurn(PATTERNS, c, s);
    CleanMeans(r.text);
    CleanMeans(s);
  }

  lemma NothingAdded(a: seq<Finding>, b: seq<Finding>)
    ensures a + b == a <==> b == []
    ensures (a + b)[|a|..] == b
  {
    assert |a + b| == |a| + |b|;
  }

  lemma CleanMeans(s: string)
    ensures Clean(s) <==> forall k: Class, i, j :: 0 <= i <= j <= |s| ==> !Word(k, s[i..j])
  {
    hide Word;
    if Clean(s) {
      forall k: Class, i, j | 0 <= i <= j <= |s| ensures !Word(k, s[i..j]) {
        assert CleanOf(k, s);
      }
    }
  }

  /** The byte-level redactor; characters stand for bytes. */
  method RedactRawArtifactBytes(c: Codec, payload: string) returns (r: Redacted)
    ensures r == RedactNamed(c, payload)
    ensures forall k: Class, i, j :: 0 <= i <= j <= |r.text| ==> !Word(k, r.text[i..j])
    ensures r.findings == [] <==> forall k: Class, i, j :: 0 <= i <= j <= |payload| ==> !Word(k, payload[i..j])
    ensures r.findings == [] ==> r.text == payload
    ensures InTurn([AwsAccessKey, GithubToken, Jwt, RsaPrivateKey, NpmToken, AnthropicKey], c, payload, r)
  {
    hide InTurn;
    var state := new PassState();
    var out := RedactNamedInString(c, payload, state);
    NamedFixpoint(c, payload);
    r := Redacted(out, state.findings);
  }

  // ---------------------------------------------------------------- the entropy rule

  const ENTROPY_MIN_LEN := 32

  predicate MarkerAt(s: string, i: nat) {
    && i + 31 <= |s| && s[i..i + 22] == OPEN_MARKER && s[i + 30] == '>'
    && forall j :: i + 22 <= j < i + 30 ==> HexDigit(s[j])
  }

  predicate HasMarker(s: string) { exists i :: 0 <= i < |s| && MarkerAt(s, i) }

  lemma MarkerHasMarker(fp: Hex8)
    ensures HasMarker(Marker(fp))
  {
    MarkerShape(fp);
    var m := Marker(fp);
    assert m[0..22] == OPEN_MARKER;
    assert forall j :: 22 <= j < 30 ==> m[j] == fp[j - 22];
    assert MarkerAt(m, 0);
  }

  function Whole(c: Codec, s: string): Redacted {
    Redacted(Marker(c.digest(s)), [Finding(c.digest(s), Entropy, c.width(s))])
  }

  /** Long and surprising enough to be a secret of no known shape; `hot` says its entropy reaches the threshold. */
  predicate Suspicious(c: Codec, hot: string -> bool, s: string) {
    c.width(s) >= ENTROPY_MIN_LEN && hot(s)
  }

  function RedactEntropy(c: Codec, hot: string -> bool, s: string): Redacted {
    if HasMarker(s) then Redacted(s, [])
    else if Suspicious(c, hot, s) then Whole(c, s)
    else Redacted(s, [])
  }

  /** A marker stands somewhere in the text. */
  ghost predicate ShowsMarker(s: string) {
    exists front, fp: Hex8, rest :: s == front + "<REDACTED:fingerprint=" + fp + ">" + rest
  }

  lemma CutAtMarker(s: string, i: nat) returns (fp: Hex8)
    requires MarkerAt(s, i)
    ensures s == s[..i] + "<REDACTED:fingerprint=" + fp + ">" + s[i + 31..]
  {
    fp := s[i + 22..i + 30];
    assert s == s[..i] + s[i..i + 22] + s[i + 22..i + 30] + s[i + 30..i + 31] + s[i + 31..];
  }

  lemma AroundMarker(front: string, fp: Hex8, rest: string)
    ensures MarkerAt(front + "<REDACTED:fingerprint=" + fp + ">" + rest, |front|)
  {
    var s, i := front + "<REDACTED:fingerprint=" + fp + ">" + rest, |front|;
    assert s[i..i + 22] == OPEN_MARKER && s[i + 30] == '>';
    assert forall j :: i + 22 <= j < i + 30 ==> s[j] == fp[j - i - 22];
  }

  lemma MarkerShows(s: string)
    ensures HasMarker(s) <==> ShowsMarker(s)
  {
    hide MarkerAt;
    if HasMarker(s) {
      var i :| 0 <= i < |s| && MarkerAt(s, i);
      MarkerFits(s, i);
      var fp := CutAtMarker(s, i);
      var front, rest := s[..i], s[i + 31..];
      assert s == front + "<REDACTED:fingerprint=" + fp + ">" + rest;
    }
    if front, fp: Hex8, rest :| s == front + "<REDACTED:fingerprint=" + fp + ">" + rest {
      AroundMarker(front, fp, rest);
    }
  }

  lemma MarkerFits(s: string, i: nat)
    requires MarkerAt(s, i)
    ensures i + 31 <= |s|
  {
  }

  /** A string without a marker that is long and surprising enough is replaced as a whole; any other is left alone. */
  lemma EntropyRule(c: Codec, hot: string -> bool, s: string)
    ensures RedactEntropy(c, hot, s) ==
            if !ShowsMarker(s) && c.width(s) >= 32 && hot(s)
            then Redacted("<REDACTED:fingerprint=" + c.digest(s) + ">", [Finding(c.digest(s), Entropy, c.width(s))])
            else Redacted(s, [])
  {
    MarkerShows(s);
  }

  /** In one string: the named secrets if there are any, and otherwise the string itself if it is suspicious. */
  lemma StringRule(c: Codec, hot: string -> bool, s: string)
    ensures RedactString(c, hot, s) ==
            if !Clean(s) then RedactNamed(c, s)
            else if c.width(s) >= 32 && hot(s)
            then Redacted("<REDACTED:fingerprint=" + c.digest(s) + ">", [Finding(c.digest(s), Entropy, c.width(s))])
            else Redacted(s, [])
  {
    hide Clean, RedactNamed;
    NamedFixpoint(c, s);
  }

  /** The per-probe redactor: the entropy rule applies only where no named pattern did. */
  function RedactString(c: Codec, hot: string -> bool, s: string): Redacted {
    var named := RedactNamed(c, s);
    if named.findings != [] then named
    else if Suspicious(c, hot, s) then Whole(c, s)
    else named
  }

  /** The per-probe redactor is idempotent on a string exactly when no named secret was found in it, or what
      the named patterns left of it is not suspicious. `width` is the encoded length. */
  lemma RedactStringIdempotentIff(c: Codec, hot: string -> bool, s: string)
    requires forall fp: Hex8 :: c.width(Marker(fp)) == 31
    ensures RedactString(c, hot, RedactString(c, hot, s).text) == Redacted(RedactString(c, hot, s).text, []) <==>
            (RedactNamed(c, s).findings == [] || !Suspicious(c, hot, RedactNamed(c, s).text))
  {
    NamedFixpoint(c, s);
    var t := RedactString(c, hot, s).text;
    NamedFixpoint(c, t);
    if RedactNamed(c, s).findings == [] && Suspicious(c, hot, s) {
      MarkerClean(c.digest(s));
    }
  }

  /** It is not idempotent in general: a key followed by one more character is redacted a second time. */
  lemma RedactStringNotIdempotent(fp: Hex8)
    ensures var c := Codec(_ => fp, (s: string) => |s|);
            var s := "AKIAAAAAAAAAAAAAAAAAx";
            RedactString(c, _ => true, RedactString(c, _ => true, s).text).text != RedactString(c, _ => true, s).text
  {
    var c := Codec(_ => fp, (s: string) => |s|);
    var s := "AKIAAAAAAAAAAAAAAAAAx";
    var t := Marker(fp) + "x";
    FirstKey(c, fp);
    MarkerShape(fp);
    NoTelltale(t);
    hide Sub;
    var rest := PATTERNS[1..];
    SubAllOnClean(rest, c, t);
    assert RedactNamed(c, s).text == t && RedactNamed(c, s).findings != [];
    NamedFixpoint(c, t);
    assert |t| == 32;
  }

  lemma FirstKey(c: Codec, fp: Hex8)
    requires forall s :: c.digest(s) == fp
    ensures var r := Sub(AwsAccessKey, c, "AKIAAAAAAAAAAAAAAAAAx");
            r.text == Marker(fp) + "x" && r.findings != []
  {
    var s := "AKIAAAAAAAAAAAAAAAAAx";
    assert MatchLen(AwsAccessKey, s) == Some(20);
    assert s[20..] == "x" && "x"[1..] == "";
    assert MatchLen(AwsAccessKey, "x") == None;
    assert Sub(AwsAccessKey, c, "") == Redacted("", []);
    assert Sub(AwsAccessKey, c, "x") == Redacted("x", []);
  }
}
