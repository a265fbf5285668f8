/** The named secret patterns: which strings they describe, and how the regular-expression engine finds them. */
module Patterns {
  import opened Wrappers

  datatype Class = AwsAccessKey | GithubToken | Jwt | RsaPrivateKey | NpmToken | AnthropicKey | Entropy

  /** The pattern table, in the order it is applied. */
  const PATTERNS: seq<Class> := [AwsAccessKey, GithubToken, Jwt, RsaPrivateKey, NpmToken, AnthropicKey]

  // ---------------------------------------------------------------- character classes

  predicate Upper(c: char) { 'A' <= c <= 'Z' }

  predicate Digit(c: char) { '0' <= c <= '9' }

  predicate UpperDigit(c: char) { Upper(c) || Digit(c) }

  predicate Alnum(c: char) { UpperDigit(c) || 'a' <= c <= 'z' }

  predicate UrlSafe(c: char) { Alnum(c) || c == '_' || c == '-' }

  predicate HeaderChar(c: char) { c == ' ' || Upper(c) }

  predicate All(p: char -> bool, s: string) { forall i :: 0 <= i < |s| ==> p(s[i]) }

  predicate AllIn(p: char -> bool, s: string, from: nat, to: nat)
    requires to <= |s|
  {
    forall i :: from <= i < to ==> p(s[i])
  }

  // ---------------------------------------------------------------- the languages

  const BEGIN := "-----BEGIN"
  const END := "-----END"
  const PRIVATE := "PRIVATE KEY"
  const DASHES := "-----"

  /** A literal followed by exactly `n` characters of a class. */
  predicate FixedWord(lit: string, n: nat, p: char -> bool, w: string) {
    lit <= w && |w| == |lit| + n && AllIn(p, w, |lit|, |w|)
  }

  ghost predicate JwtWord(w: string) {
    exists i: nat, j: nat :: JwtParts(w, i, j)
  }

  /** Three nonempty runs, the first after `eyJ`, parted by dots at `i` and `j`. */
  ghost predicate JwtParts(w: string, i: nat, j: nat) {
    && 3 < i && i + 1 < j && j + 1 < |w|
    && "eyJ" <= w && w[i] == '.' && w[j] == '.'
    && AllIn(UrlSafe, w, 3, i) && AllIn(UrlSafe, w, i + 1, j) && AllIn(UrlSafe, w, j + 1, |w|)
  }

  predicate AnthropicWord(w: string) {
    "sk-ant-" <= w && |w| >= 57 && AllIn(UrlSafe, w, 7, |w|)
  }

  ghost predicate Header(lit: string, h: string) {
    exists m :: HeaderParts(lit, h, m)
  }

  ghost predicate HeaderParts(lit: string, h: string, m: string) {
    h == lit + m + PRIVATE + DASHES && All(HeaderChar, m)
  }

  ghost predicate RsaWord(w: string) {
    exists i: nat, j: nat :: RsaParts(w, i, j)
  }

  /** `w` is an opening header up to `i`, at least one character, and a closing header from `j` on. */
  ghost predicate RsaParts(w: string, i: nat, j: nat) {
    i < j <= |w| && Header(BEGIN, w[..i]) && Header(END, w[j..])
  }

  /** The strings each pattern describes. */
  ghost predicate Word(k: Class, w: string) {
    match k
    case AwsAccessKey => FixedWord("AKIA", 16, UpperDigit, w)
    case GithubToken => FixedWord("ghp_", 36, Alnum, w)
    case NpmToken => FixedWord("npm_", 36, Alnum, w)
    case Jwt => JwtWord(w)
    case AnthropicKey => AnthropicWord(w)
    case RsaPrivateKey => RsaWord(w)
    case Entropy => false
  }

  // ---------------------------------------------------------------- the matchers

  /** Where the run of class characters that starts at `from` ends. */
  function RunEnd(p: char -> bool, s: string, from: nat): (to: nat)
    requires from <= |s|
    ensures from <= to <= |s| && AllIn(p, s, from, to) && (to < |s| ==> !p(s[to]))
    decreases |s| - from
  {
    if from == |s| || !p(s[from]) then from else RunEnd(p, s, from + 1)
  }

  function FixedLen(lit: string, n: nat, p: char -> bool, s: string): Option<nat> {
    if lit <= s && |s| >= |lit| + n && AllIn(p, s, |lit|, |lit| + n) then Some(|lit| + n) else None
  }

  function JwtLen(s: string): Option<nat> {
    if !("eyJ" <= s) then None
    else
      var i := RunEnd(UrlSafe, s, 3);
      if i == 3 || i == |s| || s[i] != '.' then None
      else
        var j := RunEnd(UrlSafe, s, i + 1);
        if j == i + 1 || j == |s| || s[j] != '.' then None
        else
          var n := RunEnd(UrlSafe, s, j + 1);
          if n == j + 1 then None else Some(n)
  }

  function AnthropicLen(s: string): Option<nat> {
    if !("sk-ant-" <= s) then None
    else
      var n := RunEnd(UrlSafe, s, 7);
      if n >= 57 then Some(n) else None
  }

  function HeaderLen(lit: string, s: string): Option<nat> {
    if !(lit <= s) then None
    else
      var m := RunEnd(HeaderChar, s, |lit|);
      if m >= |lit| + 11 && s[m - 11..m] == PRIVATE && DASHES <= s[m..] then Some(m + 5) else None
  }

  predicate ClosesAt(s: string, j: nat) { j < |s| && HeaderLen(END, s[j..]).Some? }

  /** Where the first closing header at or after `from` starts. */
  function FindClose(s: string, from: nat): (r: Option<nat>)
    requires from <= |s|
    ensures r.Some? ==> from <= r.value && ClosesAt(s, r.value)
    ensures forall j :: from <= j && (r.None? || j < r.value) ==> !ClosesAt(s, j)
    decreases |s| - from
  {
    if from == |s| then None
    else if ClosesAt(s, from) then Some(from)
    else FindClose(s, from + 1)
  }

  /** Where the opening header ends and the closing header starts: the first place that leaves a body of at
      least one character. */
  function RsaAt(s: string): (r: Option<(nat, nat)>)
    ensures r.Some? ==> HeaderLen(BEGIN, s) == Some(r.value.0) && r.value.0 < r.value.1 && ClosesAt(s, r.value.1)
    ensures r.Some? ==> forall j :: r.value.0 < j < r.value.1 ==> !ClosesAt(s, j)
    ensures r.None? && HeaderLen(BEGIN, s).Some? ==> forall j :: HeaderLen(BEGIN, s).value < j ==> !ClosesAt(s, j)
  {
    var open := HeaderLen(BEGIN, s);
    if open.None? || |s| <= open.value then None
    else
      var close := FindClose(s, open.value + 1);
      if close.None? then None else Some((open.value, close.value))
  }

  function RsaLen(s: string): Option<nat> {
    match RsaAt(s)
    case None => None
    case Some((_, j)) => Some(j + HeaderLen(END, s[j..]).value)
  }

  /** Length of the match that the engine finds at the front of `s`, if any. */
  function MatchLen(k: Class, s: string): Option<nat> {
    match k
    case AwsAccessKey => FixedLen("AKIA", 16, UpperDigit, s)
    case GithubToken => FixedLen("ghp_", 36, Alnum, s)
    case NpmToken => FixedLen("npm_", 36, Alnum, s)
    case Jwt => JwtLen(s)
    case AnthropicKey => AnthropicLen(s)
    case RsaPrivateKey => RsaLen(s)
    case Entropy => None
  }

  // ---------------------------------------------------------------- the matchers find the words

  /** What the engine must return at the front of `s`: a word if there is one; the longest, or for the lazy
      block pattern the shortest. */
  ghost predicate Finds(k: Class, s: string, r: Option<nat>) {
    match r
    case None => forall n :: 0 <= n <= |s| ==> !Word(k, s[..n])
    case Some(n) =>
      && 0 < n <= |s| && Word(k, s[..n])
      && forall m :: 0 <= m <= |s| && Word(k, s[..m]) ==> if k == RsaPrivateKey then n <= m else m <= n
  }

  lemma FixedFinds(lit: string, n: nat, p: char -> bool, s: string)
    ensures forall m :: 0 <= m <= |s| ==> (FixedWord(lit, n, p, s[..m]) <==> FixedLen(lit, n, p, s) == Some(m))
  {
    forall m | 0 <= m <= |s|
      ensures FixedWord(lit, n, p, s[..m]) <==> FixedLen(lit, n, p, s) == Some(m)
    {
      if m == |lit| + n {
        assert lit <= s[..m] <==> lit <= s;
        assert forall i :: |lit| <= i < m ==> s[..m][i] == s[i];
      }
    }
  }

  /** The end of a run is where the class first fails. */
  lemma RunAt(p: char -> bool, s: string, from: nat, to: nat)
    requires from <= to <= |s| && AllIn(p, s, from, to)
    ensures to <= RunEnd(p, s, from)
    ensures (to < |s| ==> !p(s[to])) ==> RunEnd(p, s, from) == to
  {
  }

  lemma AnthropicFinds(s: string)
    ensures Finds(AnthropicKey, s, AnthropicLen(s))
  {
    hide RunEnd;
    forall m | 0 <= m <= |s| && AnthropicWord(s[..m])
      ensures "sk-ant-" <= s && m <= RunEnd(UrlSafe, s, 7)
    {
      var w := s[..m];
      assert w[..7] == s[..7];
      RunAt(UrlSafe, s, 7, m);
    }
  }

  lemma JwtFound(s: string)
    requires JwtLen(s).Some?
    ensures 0 < JwtLen(s).value <= |s| && JwtWord(s[..JwtLen(s).value])
  {
    hide RunEnd;
    var i := RunEnd(UrlSafe, s, 3);
    var j := RunEnd(UrlSafe, s, i + 1);
    var w := s[..RunEnd(UrlSafe, s, j + 1)];
    assert JwtParts(w, i, j);
  }

  lemma JwtComplete(s: string, m: nat)
    requires m <= |s| && JwtWord(s[..m])
    ensures JwtLen(s).Some? && m <= JwtLen(s).value
  {
    hide RunEnd;
    var w := s[..m];
    var i: nat, j: nat :| JwtParts(w, i, j);
    assert w[..3] == s[..3];
    RunAt(UrlSafe, s, 3, i);
    RunAt(UrlSafe, s, i + 1, j);
    RunAt(UrlSafe, s, j + 1, m);
  }

  lemma JwtFinds(s: string)
    ensures Finds(Jwt, s, JwtLen(s))
  {
    hide JwtLen, JwtWord;
    forall m | 0 <= m <= |s| && JwtWord(s[..m])
      ensures JwtLen(s).Some? && m <= JwtLen(s).value
    {
      JwtComplete(s, m);
    }
    if JwtLen(s).Some? {
      JwtFound(s);
    }
  }

  predicate Opening(lit: string) { lit == BEGIN || lit == END }

  lemma Cut(s: string, a: nat, b: nat, c: nat, d: nat)
    requires a <= b <= c <= d <= |s|
    ensures s[..d] == s[..a] + s[a..b] + s[b..c] + s[c..d]
  {
  }

  lemma HeaderFound(lit: string, s: string)
    requires HeaderLen(lit, s).Some?
    ensures HeaderLen(lit, s).value <= |s| && Header(lit, s[..HeaderLen(lit, s).value])
  {
    hide RunEnd;
    var n := HeaderLen(lit, s).value;
    var m := s[|lit|..n - 16];
    assert s[n - 5..n] == s[n - 5..][..5] == DASHES;
    Cut(s, |lit|, n - 16, n - 5, n);
    assert HeaderParts(lit, s[..n], m);
  }

  lemma HeaderComplete(lit: string, s: string, n: nat)
    requires n <= |s| && Header(lit, s[..n])
    ensures HeaderLen(lit, s) == Some(n)
  {
    hide RunEnd;
    var h := s[..n];
    var m :| HeaderParts(lit, h, m);
    var at := |lit| + |m| + 11;
    HeaderCuts(lit, m, h);
    assert h[..|lit|] == s[..|lit|] && h[at - 11..at] == s[at - 11..at] && h[at..] == s[at..][..5];
    assert s[at] == h[at..][0] == '-';
    RunAt(HeaderChar, s, |lit|, at);
  }

  lemma HeaderCuts(lit: string, m: string, h: string)
    requires HeaderParts(lit, h, m)
    ensures var at := |lit| + |m| + 11;
            && |h| == at + 5 && h[..|lit|] == lit && h[at - 11..at] == PRIVATE && h[at..] == DASHES
            && AllIn(HeaderChar, h, |lit|, at)
  {
    var at := |lit| + |m| + 11;
    assert h[|lit|..at] == m + PRIVATE;
    assert All(HeaderChar, PRIVATE);
    assert forall i :: |lit| <= i < at ==> h[i] == h[|lit|..at][i - |lit|];
  }

  lemma HeaderShape(lit: string, s: string)
    requires HeaderLen(lit, s).Some?
    ensures var n := HeaderLen(lit, s).value;
            && |lit| + 16 <= n <= |s|
            && (forall i :: n - 5 <= i < n ==> s[i] == '-')
            && (forall i :: |lit| <= i < n - 5 ==> HeaderChar(s[i]))
  {
    hide RunEnd;
    var m := HeaderLen(lit, s).value - 5;
    forall i | m <= i < m + 5 ensures s[i] == '-' {
      assert s[i] == s[m..][i - m] == DASHES[i - m];
    }
  }

  lemma RsaWhole(s: string, i: nat, j: nat, n: nat)
    requires i < j <= n <= |s| && Header(BEGIN, s[..i]) && Header(END, s[j..][..n - j])
    ensures RsaParts(s[..n], i, j)
  {
    assert s[..n][..i] == s[..i];
    assert s[..n][j..] == s[j..][..n - j];
  }

  lemma RsaFound(s: string)
    requires RsaLen(s).Some?
    ensures RsaLen(s).value <= |s| && RsaWord(s[..RsaLen(s).value])
  {
    hide HeaderLen, Header, RsaAt;
    var (i, j) := RsaAt(s).value;
    HeaderFound(BEGIN, s);
    HeaderFound(END, s[j..]);
    RsaWhole(s, i, j, RsaLen(s).value);
  }

  lemma RsaComplete(s: string, m: nat)
    requires m <= |s| && RsaWord(s[..m])
    ensures RsaLen(s).Some? && RsaLen(s).value <= m
  {
    hide HeaderLen, Header, RsaAt;
    var i: nat, j: nat :| RsaParts(s[..m], i, j);
    assert s[..m][..i] == s[..i];
    assert s[..m][j..] == s[j..][..m - j];
    HeaderComplete(BEGIN, s, i);
    HeaderComplete(END, s[j..], m - j);
    HeaderShape(END, s[j..]);
    assert ClosesAt(s, j);
    EarlierEndsEarlier(s, RsaAt(s).value.1, j);
  }

  /** Of two closing headers, the one that starts first ends first. */
  lemma EarlierEndsEarlier(s: string, at: nat, j: nat)
    requires at <= j <= |s| && HeaderLen(END, s[at..]).Some? && HeaderLen(END, s[j..]).Some?
    ensures at + HeaderLen(END, s[at..]).value <= j + HeaderLen(END, s[j..]).value
  {
    HeaderShape(END, s[at..]);
    HeaderShape(END, s[j..]);
  }

  lemma RsaFinds(s: string)
    ensures Finds(RsaPrivateKey, s, RsaLen(s))
  {
    forall m | 0 <= m <= |s| && RsaWord(s[..m])
      ensures RsaLen(s).Some? && RsaLen(s).value <= m
    {
      RsaComplete(s, m);
    }
    if RsaLen(s).Some? {
      RsaFound(s);
    }
  }

  /** Every matcher returns exactly what its regular expression asks for. */
  lemma MatchFinds(k: Class, s: string)
    ensures Finds(k, s, MatchLen(k, s))
  {
    match k
    case AwsAccessKey => FixedFinds("AKIA", 16, UpperDigit, s);
    case GithubToken => FixedFinds("ghp_", 36, Alnum, s);
    case NpmToken => FixedFinds("npm_", 36, Alnum, s);
    case Jwt => JwtFinds(s);
    case AnthropicKey => AnthropicFinds(s);
    case RsaPrivateKey => RsaFinds(s);
    case Entropy =>
  }

  // ---------------------------------------------------------------- words and the redaction marker

  /** Characters that every secret contains and no redaction marker does. */
  predicate Telltale(c: char) { c == 'K' || c == '_' || c == 'J' || c == '-' }

  predicate Bracket(c: char) { c == '<' || c == '>' }

  /** Has no bracket and has a telltale character. */
  ghost predicate Anchored(w: string) {
    (forall i :: 0 <= i < |w| ==> !Bracket(w[i])) && exists i :: 0 <= i < |w| && Telltale(w[i])
  }

  lemma FixedAnchored(lit: string, at: nat, n: nat, p: char -> bool, w: string)
    requires FixedWord(lit, n, p, w) && at < |lit| && Telltale(lit[at])
    requires forall i :: 0 <= i < |lit| ==> !Bracket(lit[i])
    requires forall c :: p(c) ==> !Bracket(c)
    ensures Anchored(w)
  {
    assert w[at] == lit[at];
    forall i | 0 <= i < |w| ensures !Bracket(w[i]) {
      assert i < |lit| ==> w[i] == lit[i];
    }
  }

  /** Every word of the five class-bounded patterns is anchored. */
  lemma BoundedAnchored(k: Class, w: string)
    requires k != RsaPrivateKey && Word(k, w)
    ensures Anchored(w)
  {
    match k
    case AwsAccessKey => FixedAnchored("AKIA", 1, 16, UpperDigit, w);
    case GithubToken => FixedAnchored("ghp_", 3, 36, Alnum, w);
    case NpmToken => FixedAnchored("npm_", 3, 36, Alnum, w);
    case AnthropicKey => FixedAnchored("sk-ant-", 2, |w| - 7, UrlSafe, w);
    case Jwt =>
      var i: nat, j: nat :| JwtParts(w, i, j);
      assert w[..3] == "eyJ" && w[2] == w[..3][2];
      assert forall n :: 0 <= n < 3 ==> w[n] == w[..3][n];
  }

  lemma HeaderAnchored(lit: string, h: string)
    requires Opening(lit) && Header(lit, h)
    ensures Anchored(h) && |h| >= 24
  {
    var m :| HeaderParts(lit, h, m);
    assert h[0] == '-';
    assert forall i :: 0 <= i < |h| ==> h[i] in lit || h[i] in m || h[i] in PRIVATE || h[i] in DASHES;
  }

  // ---------------------------------------------------------------- the six expressions, spelled out

  ghost predicate Wordy(w: string, from: nat) {
    forall i :: from <= i < |w| ==>
      'A' <= w[i] <= 'Z' || 'a' <= w[i] <= 'z' || '0' <= w[i] <= '9' || w[i] == '_' || w[i] == '-'
  }

  ghost predicate LettersAndDigits(w: string, from: nat) {
    forall i :: from <= i < |w| ==> 'A' <= w[i] <= 'Z' || 'a' <= w[i] <= 'z' || '0' <= w[i] <= '9'
  }

  ghost predicate SpacesAndCapitals(m: string) {
    forall i :: 0 <= i < |m| ==> m[i] == ' ' || 'A' <= m[i] <= 'Z'
  }

  /** The fixed-length secrets and the longest one. */
  lemma KeysSpelled(w: string)
    ensures Word(AwsAccessKey, w) <==>
            |w| == 20 && w[..4] == "AKIA" && forall i :: 4 <= i < 20 ==> 'A' <= w[i] <= 'Z' || '0' <= w[i] <= '9'
    ensures Word(GithubToken, w) <==> |w| == 40 && w[..4] == "ghp_" && LettersAndDigits(w, 4)
    ensures Word(NpmToken, w) <==> |w| == 40 && w[..4] == "npm_" && LettersAndDigits(w, 4)
    ensures Word(AnthropicKey, w) <==> |w| >= 57 && w[..7] == "sk-ant-" && Wordy(w, 7)
    ensures !Word(Entropy, w)
  {
  }

  ghost predicate DottedParts(w: string, a: string, b: string, c: string) {
    w == "eyJ" + a + "." + b + "." + c && a != "" && b != "" && c != "" && Wordy(a, 0) && Wordy(b, 0) && Wordy(c, 0)
  }

  lemma JwtOfParts(w: string, a: string, b: string, c: string)
    requires DottedParts(w, a, b, c)
    ensures JwtParts(w, 3 + |a|, 4 + |a| + |b|)
  {
    var i, j := 3 + |a|, 4 + |a| + |b|;
    assert w[..3] == "eyJ" && w[3..i] == a && w[i + 1..j] == b && w[j + 1..] == c;
    assert forall n :: 3 <= n < i ==> w[n] == a[n - 3];
    assert forall n :: i + 1 <= n < j ==> w[n] == b[n - i - 1];
    assert forall n :: j + 1 <= n < |w| ==> w[n] == c[n - j - 1];
  }

  lemma PartsOfJwt(w: string, i: nat, j: nat)
    requires JwtParts(w, i, j)
    ensures DottedParts(w, w[3..i], w[i + 1..j], w[j + 1..])
  {
    assert w[..3] == "eyJ";
    assert w == w[..3] + w[3..i] + w[i..i + 1] + w[i + 1..j] + w[j..j + 1] + w[j + 1..];
  }

  lemma JwtSpelled(w: string)
    ensures Word(Jwt, w) <==> exists a, b, c :: DottedParts(w, a, b, c)
  {
    if a, b, c :| DottedParts(w, a, b, c) {
      JwtOfParts(w, a, b, c);
    }
    if JwtWord(w) {
      var i: nat, j: nat :| JwtParts(w, i, j);
      PartsOfJwt(w, i, j);
    }
  }

  ghost predicate BlockParts(w: string, m: string, body: string, n: string) {
    && w == "-----BEGIN" + m + "PRIVATE KEY-----" + body + ("-----END" + n + "PRIVATE KEY-----")
    && SpacesAndCapitals(m) && body != "" && SpacesAndCapitals(n)
  }

  lemma HeaderSpelled(lit: string, m: string)
    requires SpacesAndCapitals(m)
    ensures Header(lit, lit + m + "PRIVATE KEY-----")
  {
    assert "PRIVATE KEY-----" == "PRIVATE KEY" + "-----";
    assert lit + m + "PRIVATE KEY-----" == lit + m + PRIVATE + DASHES;
    assert HeaderParts(lit, lit + m + "PRIVATE KEY-----", m);
  }

  lemma SpelledHeader(lit: string, h: string) returns (m: string)
    requires Header(lit, h)
    ensures h == lit + m + "PRIVATE KEY-----" && SpacesAndCapitals(m)
  {
    m :| HeaderParts(lit, h, m);
    assert "PRIVATE KEY-----" == "PRIVATE KEY" + "-----";
    assert lit + m + PRIVATE + DASHES == lit + m + "PRIVATE KEY-----";
  }

  lemma RsaOfParts(w: string, m: string, body: string, n: string)
    requires BlockParts(w, m, body, n)
    ensures RsaWord(w)
  {
    var open, close := "-----BEGIN" + m + "PRIVATE KEY-----", "-----END" + n + "PRIVATE KEY-----";
    HeaderSpelled("-----BEGIN", m);
    HeaderSpelled("-----END", n);
    assert w[..|open|] == open && w[|open| + |body|..] == close;
    assert RsaParts(w, |open|, |open| + |body|);
  }

  lemma PartsOfRsa(w: string, i: nat, j: nat)
    requires RsaParts(w, i, j)
    ensures exists m, body, n :: BlockParts(w, m, body, n)
  {
    hide Header;
    var m := SpelledHeader("-----BEGIN", w[..i]);
    var n := SpelledHeader("-----END", w[j..]);
    assert w == w[..i] + w[i..j] + w[j..];
    assert BlockParts(w, m, w[i..j], n);
  }

  lemma RsaSpelled(w: string)
    ensures Word(RsaPrivateKey, w) <==> exists m, body, n :: BlockParts(w, m, body, n)
  {
    hide Header, BlockParts, RsaParts;
    if m, body, n :| BlockParts(w, m, body, n) {
      RsaOfParts(w, m, body, n);
    }
    if RsaWord(w) {
      var i: nat, j: nat :| RsaParts(w, i, j);
      PartsOfRsa(w, i, j);
    }
  }
}
