/** Removing absolute-path prefixes from what probes report. */
module Scrubber {
  import opened JsonTree
  import opened Wrappers

  /** Absolute and not the filesystem root. */
  type RepoRoot = r: string | |r| > 1 && r[0] == '/' witness "/r"

  const USERS := "/Users/"
  const HOME := "/home/"
  const ROOT_HOME := "/root/"

  /** Where the path segment that starts at `from` ends. */
  function SegmentEnd(s: string, from: nat): (to: nat)
    requires from <= |s|
    ensures from <= to <= |s| && (forall i :: from <= i < to ==> s[i] != '/') && (to < |s| ==> s[to] == '/')
    decreases |s| - from
  {
    if from == |s| || s[from] == '/' then from else SegmentEnd(s, from + 1)
  }

  /** A directory of home directories, a user's name, and the slash behind it. */
  function UserLen(dir: string, s: string): Option<nat> {
    if !(dir <= s) then None
    else
      var end := SegmentEnd(s, |dir|);
      if end == |dir| || end == |s| then None else Some(end + 1)
  }

  /** Length of the prefix that is removed at the front of `s`, if any; the repository root goes first. */
  function PrefixLen(root: RepoRoot, s: string): (r: Option<nat>)
    ensures r.Some? ==> 0 < r.value <= |s| && s[0] == '/'
  {
    if root <= s then Some(if |s| > |root| && s[|root|] == '/' then |root| + 1 else |root|)
    else if UserLen(USERS, s).Some? then UserLen(USERS, s)
    else if UserLen(HOME, s).Some? then UserLen(HOME, s)
    else if ROOT_HOME <= s then Some(|ROOT_HOME|)
    else None
  }

  function ScrubText(root: RepoRoot, s: string): string
    decreases |s|
  {
    if s == "" then ""
    else
      match PrefixLen(root, s)
      case Some(n) => ScrubText(root, s[n..])
      case None => [s[0]] + ScrubText(root, s[1..])
  }

  function ScrubSlice(root: RepoRoot, slice: Dict): Dict {
    MapKeepsCanonical(s => ScrubText(root, s), slice);
    MapStrings(s => ScrubText(root, s), slice)
  }

  lemma ScrubOneChar(root: RepoRoot, c: char, s: string)
    requires c != '/'
    ensures ScrubText(root, [c] + s) == [c] + ScrubText(root, s)
  {
    hide PrefixLen;
    assert ([c] + s)[1..] == s && ([c] + s)[0] == c;
  }

  /** What stands before the first slash stays, whatever is removed behind it. */
  lemma {:induction false} ScrubKeepsFront(root: RepoRoot, front: string, s: string)
    requires '/' !in front
    ensures ScrubText(root, front + s) == front + ScrubText(root, s)
  {
    hide ScrubText;
    if front == "" {
      assert front + s == s;
      assert front + ScrubText(root, s) == ScrubText(root, s);
    } else {
      assert front + s == [front[0]] + (front[1..] + s);
      ScrubOneChar(root, front[0], front[1..] + s);
      ScrubKeepsFront(root, front[1..], s);
      assert [front[0]] + (front[1..] + ScrubText(root, s)) == front + ScrubText(root, s);
    }
  }

  /** Text without a slash is not touched. */
  lemma ScrubPlain(root: RepoRoot, s: string)
    requires '/' !in s
    ensures ScrubText(root, s) == s
  {
    ScrubKeepsFront(root, s, "");
    assert s + "" == s;
  }

  // ---------------------------------------------------------------- what is removed, told of the four forms

  /** `w` is a directory of home directories, a user's name, and a slash. */
  ghost predicate UserDir(dir: string, w: string) {
    exists name: string :: name != "" && '/' !in name && w == dir + name + "/"
  }

  /** The four alternatives of the expression, in its order. */
  ghost predicate Form(k: nat, root: RepoRoot, w: string) {
    match k
    case 0 => w == root || w == root + "/"
    case 1 => UserDir("/Users/", w)
    case 2 => UserDir("/home/", w)
    case 3 => w == "/root/"
    case _ => false
  }

  ghost predicate Fits(k: nat, root: RepoRoot, s: string) {
    exists w :: Form(k, root, w) && w <= s
  }

  /** `w` is what is matched at the front of `s`: the longest text of the first alternative that fits. */
  ghost predicate Matched(root: RepoRoot, s: string, w: string) {
    exists k: nat :: FirstToFit(k, root, s) && LongestOf(k, root, s, w)
  }

  ghost predicate FirstToFit(k: nat, root: RepoRoot, s: string) {
    k < 4 && Fits(k, root, s) && forall j: nat :: j < k ==> !Fits(j, root, s)
  }

  ghost predicate LongestOf(k: nat, root: RepoRoot, s: string, w: string) {
    Form(k, root, w) && w <= s && forall v :: Form(k, root, v) && v <= s ==> |v| <= |w|
  }

  lemma SegmentIs(s: string, from: nat, to: nat)
    requires from <= to < |s| && s[to] == '/' && forall i :: from <= i < to ==> s[i] != '/'
    ensures SegmentEnd(s, from) == to
  {
  }

  lemma UserDirFits(dir: string, s: string, w: string)
    requires UserDir(dir, w) && w <= s
    ensures UserLen(dir, s) == Some(|w|)
  {
    var name: string :| name != "" && '/' !in name && w == dir + name + "/";
    var n := |dir| + |name|;
    assert s[..n + 1] == w;
    assert s[..|dir|] == w[..|dir|] == dir;
    assert s[n] == w[n] == '/';
    forall i | |dir| <= i < n ensures s[i] != '/' {
      assert s[i] == w[i] == name[i - |dir|];
    }
    SegmentIs(s, |dir|, n);
  }

  lemma UserLenFits(dir: string, s: string)
    requires UserLen(dir, s).Some?
    ensures UserLen(dir, s).value <= |s| && UserDir(dir, s[..UserLen(dir, s).value])
  {
    var n := UserLen(dir, s).value;
    var name := s[|dir|..n - 1];
    assert s[..n] == dir + name + "/";
  }

  /** Exactly one text is matched where one of the forms fits. */
  lemma UserForm(k: nat, dir: string, root: RepoRoot, s: string)
    requires (k == 1 && dir == "/Users/") || (k == 2 && dir == "/home/")
    ensures Fits(k, root, s) <==> UserLen(dir, s).Some?
    ensures forall w :: Form(k, root, w) && w <= s ==> UserLen(dir, s) == Some(|w|)
    ensures UserLen(dir, s).Some? ==> UserLen(dir, s).value <= |s| && Form(k, root, s[..UserLen(dir, s).value])
  {
    hide UserLen, UserDir;
    forall w | Form(k, root, w) && w <= s ensures UserLen(dir, s) == Some(|w|) {
      UserDirFits(dir, s, w);
    }
    if UserLen(dir, s).Some? {
      UserLenFits(dir, s);
      assert Form(k, root, s[..UserLen(dir, s).value]);
    }
  }

  lemma RootForm(root: RepoRoot, s: string)
    ensures Fits(0, root, s) <==> root <= s
    ensures root <= s && |s| > |root| && s[|root|] == '/' ==> Form(0, root, s[..|root| + 1])
    ensures forall w :: Form(0, root, w) && w <= s ==>
              |w| == |root| || (|w| == |root| + 1 && |s| > |root| && s[|root|] == '/')
  {
    if root <= s {
      assert Form(0, root, root);
      if |s| > |root| && s[|root|] == '/' {
        assert s[..|root| + 1] == root + "/";
      }
    }
    forall w | Form(0, root, w) && w <= s
      ensures root <= s && (|w| == |root| || (|w| == |root| + 1 && |s| > |root| && s[|root|] == '/'))
    {
      if w == root + "/" {
        assert root <= w && w[|root|] == '/' && s[|root|] == w[|root|];
      }
    }
  }

  lemma RootHomeForm(root: RepoRoot, s: string)
    ensures Fits(3, root, s) <==> "/root/" <= s
  {
    assert Form(3, root, "/root/");
  }

  /** What is matched at the front of a text is what is removed there. */
  lemma MatchedIsRemoved(root: RepoRoot, s: string, w: string)
    requires Matched(root, s, w)
    ensures PrefixLen(root, s) == Some(|w|)
  {
    hide UserLen, UserDir, Fits;
    RootForm(root, s);
    UserForm(1, "/Users/", root, s);
    UserForm(2, "/home/", root, s);
    RootHomeForm(root, s);
    var k: nat :| FirstToFit(k, root, s) && LongestOf(k, root, s, w);
    if k == 0 && |s| > |root| && s[|root|] == '/' {
      assert |s[..|root| + 1]| <= |w|;
    }
  }

  lemma NothingFits(root: RepoRoot, s: string)
    requires forall k: nat :: k < 4 ==> !Fits(k, root, s)
    ensures PrefixLen(root, s) == None
  {
    hide UserLen, UserDir;
    RootForm(root, s);
    UserForm(1, "/Users/", root, s);
    UserForm(2, "/home/", root, s);
    RootHomeForm(root, s);
    assert !Fits(0, root, s) && !Fits(1, root, s) && !Fits(2, root, s) && !Fits(3, root, s);
  }

  /** Behind text without a slash, what the expression matches disappears. */
  lemma ScrubRemoves(root: RepoRoot, front: string, w: string, rest: string)
    requires '/' !in front && Matched(root, w + rest, w)
    ensures ScrubText(root, front + w + rest) == front + ScrubText(root, rest)
  {
    hide Matched, PrefixLen;
    MatchedIsRemoved(root, w + rest, w);
    assert front + w + rest == front + (w + rest);
    ScrubKeepsFront(root, front, w + rest);
    assert (w + rest)[|w|..] == rest;
  }

  /** A slash at which nothing is matched stays. */
  lemma ScrubKeepsSlash(root: RepoRoot, front: string, rest: string)
    requires '/' !in front && forall k: nat :: k < 4 ==> !Fits(k, root, "/" + rest)
    ensures ScrubText(root, front + "/" + rest) == front + "/" + ScrubText(root, rest)
  {
    hide Fits, PrefixLen;
    NothingFits(root, "/" + rest);
    assert front + "/" + rest == front + ("/" + rest);
    ScrubKeepsFront(root, front, "/" + rest);
    assert ("/" + rest)[1..] == rest && ("/" + rest)[0] == '/';
    assert front + (['/'] + ScrubText(root, rest)) == front + "/" + ScrubText(root, rest);
  }
}
