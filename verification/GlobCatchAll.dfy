/**
 Which patterns match everything, and what the guard against such patterns in
 scripts/auditCustomizationGovernance.js rejects and lets through.
 */
module GlobCatchAll {
  import opened Prelude
  import opened Regex
  import opened GlobCompiler

  /** isUnsafeApplyToPattern. */
  predicate IsUnsafeApplyToPattern(pattern: string) {
    var normalized := Strip(pattern);
    normalized == "*" || normalized == "**" || normalized == "**/*" || normalized == "./**" || normalized == "./**/*"
  }

  /** The guard rejects, up to white space at the ends, exactly these eight spellings. */
  lemma RejectedExactlyWhen(pattern: string)
    ensures IsUnsafeApplyToPattern(pattern)
      <==> Trim(pattern) in {"*", "**", "**/*", "./*", "./**", "./**/*", "././**", "././**/*"}
  {
    var t := Trim(pattern);
    assert "*"[0] == '*' && "**"[0] == '*' && "**/*"[0] == '*';
    assert "./" + "*" == "./*" && "./" + "**" == "./**" && "./" + "**/*" == "./**/*";
    assert "./" + "./**" == "././**" && "./" + "./**/*" == "././**/*";
    if "./" <= t {
      assert t[0] == '.';
      WithDot(t, "*");
      WithDot(t, "**");
      WithDot(t, "**/*");
      WithDot(t, "./**");
      WithDot(t, "./**/*");
    } else {
      assert t != "./*" && t != "./**" && t != "./**/*" && t != "././**" && t != "././**/*";
    }
  }

  lemma WithDot(t: string, x: string)
    requires "./" <= t
    ensures t[2..] == x <==> t == "./" + x
  {
    assert t == "./" + t[2..];
    assert ("./" + x)[2..] == x;
  }

  // ---- patterns that match every text ----

  /** Nothing but `**` with a slash, `**` and `*`. */
  predicate OnlyStars(p: string) {
    if p == [] then true
    else if "**/" <= p then OnlyStars(p[3..])
    else if "**" <= p then OnlyStars(p[2..])
    else p[0] == '*' && OnlyStars(p[1..])
  }

  /**
   Any number of `**` with a slash, and then either a `**` without one and nothing but stars
   behind it, or a last `*` behind at least one of them.
   */
  predicate CatchAll(p: string) {
    if "**/" <= p then p[3..] == "*" || CatchAll(p[3..])
    else "**" <= p && OnlyStars(p[2..])
  }

  lemma {:induction false} DirectoriesThenStarMatches(p: string, s: string)
    requires "**/" <= p && p[3..] == "*" && NoNewline(s)
    ensures GlobMatch(p, s)
    decreases |s|
  {
    StarMatches(s);
    var i := FirstSlash(s);
    if i < |s| {
      NoNewlineSuffix(s, i + 1);
      DirectoriesThenStarMatches(p, s[i + 1..]);
    }
  }

  lemma {:induction false} OnlyStarsMatchNothing(p: string)
    ensures GlobMatch(p, "") <==> OnlyStars(p)
  {
    if p == [] {
    } else if "**/" <= p {
      OnlyStarsMatchNothing(p[3..]);
    } else if "**" <= p {
      OnlyStarsMatchNothing(p[2..]);
    } else {
      OnlyStarsMatchNothing(p[1..]);
    }
  }

  lemma {:induction false} CatchAllMatches(p: string, s: string)
    requires CatchAll(p) && NoNewline(s)
    ensures GlobMatch(p, s)
    decreases |p|
  {
    if "**/" <= p {
      if p[3..] == "*" {
        DirectoriesThenStarMatches(p, s);
      } else {
        CatchAllMatches(p[3..], s);
      }
    } else {
      OnlyStarsMatchNothing(p[2..]);
      TakeAll(s);
      AnywhereJoin(p, s, |s|);
    }
  }

  lemma StarsWithoutCatchAll(a: string)
    requires OnlyStars(a) && !CatchAll(a)
    ensures a == "" || a == "*" || "**/" <= a
  {
    StarPrefixes(a);
  }

  /** One step of the matcher at a pattern that starts with a star. */
  lemma StarStep(p: string, s: string)
    requires p != [] && p[0] == '*'
    ensures GlobMatch(p, s) <==>
      if "**/" <= p then GlobMatch(p[3..], s)
        || (FirstSlash(s) < |s| && NoNewline(s[..FirstSlash(s)]) && GlobMatch(p, s[FirstSlash(s) + 1..]))
      else if "**" <= p then GlobMatch(p[2..], s) || (s != [] && !IsNewline(s[0]) && GlobMatch(p, s[1..]))
      else GlobMatch(p[1..], s) || (s != [] && s[0] != '/' && GlobMatch(p, s[1..]))
  {
  }

  /** Stars that are no catch-all and not just `*` only match whole directories. */
  lemma {:induction false} OnlyDirectories(p: string, s: string)
    requires OnlyStars(p) && !CatchAll(p) && p != "*" && GlobMatch(p, s)
    ensures s == [] || s[|s| - 1] == '/'
    decreases |p|, |s|
  {
    StarsWithoutCatchAll(p);
    if p != [] {
      StarStep(p, s);
      hide GlobMatch;
      if GlobMatch(p[3..], s) {
        OnlyDirectories(p[3..], s);
      } else {
        var rest := s[FirstSlash(s) + 1..];
        OnlyDirectories(p, rest);
        assert rest != [] ==> rest[|rest| - 1] == s[|s| - 1];
      }
    }
  }

  /** A pattern accepts every newline-free path if and only if it is a catch-all. */
  lemma CatchAllExactlyWhen(p: string)
    ensures (forall path :: NoNewline(path) ==> GlobMatch(p, path)) <==> CatchAll(p)
  {
    if CatchAll(p) {
      forall path | NoNewline(path) ensures GlobMatch(p, path) {
        CatchAllMatches(p, path);
      }
    } else {
      var path := if !OnlyStars(p) then "" else if p == "*" then "/" else "a";
      OnlyStarsMatchNothing(p);
      if p == "*" {
        StarMatches(path);
      } else if OnlyStars(p) && GlobMatch(p, path) {
        OnlyDirectories(p, path);
      }
      assert NoNewline(path) && !GlobMatch(p, path);
    }
  }

  // ---- patterns that match every file ----

  /** A path as the repository lists it: segments that are not empty, with single slashes between them, on one line. */
  predicate IsFilePath(s: string) {
    && s != [] && NoNewline(s) && s[0] != '/' && s[|s| - 1] != '/'
    && forall i :: 0 < i < |s| ==> !(s[i - 1] == '/' && s[i] == '/')
  }

  /** What may stand around a single `?` in a pattern for all files. */
  predicate AroundOne(a: string, b: string) {
    OnlyStars(a) && OnlyStars(b) && (CatchAll(a) || CatchAll(b) || (a != "" && a != "*" && b == "*"))
  }

  /** A catch-all, or stars around one `?` that leave room for every file. */
  predicate MatchesEveryFile(p: string) {
    CatchAll(p) || exists i :: 0 <= i < |p| && p[i] == '?' && AroundOne(p[..i], p[i + 1..])
  }

  lemma StarsThenOne(a: string, b: string)
    requires a != []
    ensures var p := a + (['?'] + b);
      && ("**/" <= p <==> "**/" <= a) && ("**" <= p <==> "**" <= a) && p[0] == a[0]
      && ("**/" <= a ==> p[3..] == a[3..] + (['?'] + b))
      && ("**" <= a ==> p[2..] == a[2..] + (['?'] + b))
      && p[1..] == a[1..] + (['?'] + b)
  {
    StarPrefixes(a);
    StarPrefixes(a + (['?'] + b));
  }

  lemma OneMatches(b: string, s: string)
    ensures GlobMatch(['?'] + b, s) <==> s != [] && s[0] != '/' && GlobMatch(b, s[1..])
  {
    var p := ['?'] + b;
    assert p[0] == '?' && p[1..] == b;
    StarPrefixes(p);
  }

  lemma FirstSlashOf(s: string, t: string)
    requires FirstSlash(s) < |s|
    ensures FirstSlash(s + t) == FirstSlash(s)
    ensures (s + t)[..FirstSlash(s)] == s[..FirstSlash(s)]
    ensures (s + t)[FirstSlash(s) + 1..] == s[FirstSlash(s) + 1..] + t
  {
    var i, j := FirstSlash(s), FirstSlash(s + t);
    assert (s + t)[i] == s[i];
    assert forall x :: 0 <= x < i ==> (s + t)[x] == s[x];
  }

  lemma AppendHead<T>(s: seq<T>, t: seq<T>)
    requires s != []
    ensures s + t != [] && (s + t)[0] == s[0] && (s + t)[1..] == s[1..] + t
  {
  }

  /** What stars match, and behind it what the rest matches. */
  lemma {:induction false} StarsJoin(a: string, b: string, s: string, t: string)
    requires OnlyStars(a) && GlobMatch(a, s) && GlobMatch(['?'] + b, t)
    ensures GlobMatch(a + (['?'] + b), s + t)
    decreases |a|, |s|, 1
  {
    if a == [] {
      assert a + (['?'] + b) == ['?'] + b && s + t == t;
    } else if "**/" <= a {
      JoinDirectoryStars(a, b, s, t);
    } else {
      JoinOtherStars(a, b, s, t);
    }
  }

  lemma JoinDirectoryStars(a: string, b: string, s: string, t: string)
    requires "**/" <= a && OnlyStars(a) && GlobMatch(a, s) && GlobMatch(['?'] + b, t)
    ensures GlobMatch(a + (['?'] + b), s + t)
    decreases |a|, |s|, 0
  {
    StarsThenOne(a, b);
    StarStep(a, s);
    StarStep(a + (['?'] + b), s + t);
    hide GlobMatch, NoNewline;
    if GlobMatch(a[3..], s) {
      StarsJoin(a[3..], b, s, t);
    } else {
      var i := FirstSlash(s);
      FirstSlashOf(s, t);
      hide FirstSlash;
      StarsJoin(a, b, s[i + 1..], t);
    }
  }

  lemma JoinOtherStars(a: string, b: string, s: string, t: string)
    requires a != [] && !("**/" <= a) && OnlyStars(a) && GlobMatch(a, s) && GlobMatch(['?'] + b, t)
    ensures GlobMatch(a + (['?'] + b), s + t)
    decreases |a|, |s|, 0
  {
    StarsThenOne(a, b);
    StarStep(a, s);
    StarStep(a + (['?'] + b), s + t);
    hide GlobMatch, NoNewline, FirstSlash;
    var n := if "**" <= a then 2 else 1;
    if GlobMatch(a[n..], s) {
      StarsJoin(a[n..], b, s, t);
    } else {
      AppendHead(s, t);
      StarsJoin(a, b, s[1..], t);
    }
  }

  /** A match of stars and the rest falls into a match of the stars and one of the rest. */
  lemma {:induction false} StarsSplit(a: string, b: string, s: string) returns (k: nat)
    requires OnlyStars(a) && GlobMatch(a + (['?'] + b), s)
    ensures k <= |s| && GlobMatch(a, s[..k]) && GlobMatch(['?'] + b, s[k..])
    decreases |a|, |s|, 1
  {
    if a == [] {
      assert a + (['?'] + b) == ['?'] + b && s[..0] == [] && s[0..] == s;
      k := 0;
    } else if "**/" <= a {
      k := SplitDirectoryStars(a, b, s);
    } else {
      k := SplitOtherStars(a, b, s);
    }
  }

  lemma SplitDirectoryStars(a: string, b: string, s: string) returns (k: nat)
    requires "**/" <= a && OnlyStars(a) && GlobMatch(a + (['?'] + b), s)
    ensures k <= |s| && GlobMatch(a, s[..k]) && GlobMatch(['?'] + b, s[k..])
    decreases |a|, |s|, 0
  {
    StarsThenOne(a, b);
    StarStep(a + (['?'] + b), s);
    hide GlobMatch, NoNewline;
    if GlobMatch(a[3..] + (['?'] + b), s) {
      k := StarsSplit(a[3..], b, s);
      StarStep(a, s[..k]);
    } else {
      var i := FirstSlash(s);
      var j := StarsSplit(a, b, s[i + 1..]);
      DirectoryAndMore(a, s, i, j);
      hide FirstSlash;
      k := i + 1 + j;
      assert s[i + 1..][j..] == s[k..];
    }
  }

  lemma HeadOfPrefix<T>(s: seq<T>, j: nat)
    requires s != [] && j <= |s[1..]|
    ensures s[..1 + j] != [] && s[..1 + j][0] == s[0] && s[..1 + j][1..] == s[1..][..j]
    ensures s[1..][j..] == s[1 + j..]
  {
  }

  lemma SplitOtherStars(a: string, b: string, s: string) returns (k: nat)
    requires a != [] && !("**/" <= a) && OnlyStars(a) && GlobMatch(a + (['?'] + b), s)
    ensures k <= |s| && GlobMatch(a, s[..k]) && GlobMatch(['?'] + b, s[k..])
    decreases |a|, |s|, 0
  {
    StarsThenOne(a, b);
    StarStep(a + (['?'] + b), s);
    hide GlobMatch, NoNewline, FirstSlash;
    var n := if "**" <= a then 2 else 1;
    if GlobMatch(a[n..] + (['?'] + b), s) {
      k := StarsSplit(a[n..], b, s);
    } else {
      var j := StarsSplit(a, b, s[1..]);
      HeadOfPrefix(s, j);
      k := 1 + j;
    }
    StarStep(a, s[..k]);
  }

  lemma DirectoryAndMore(a: string, s: string, i: nat, j: nat)
    requires "**/" <= a && i == FirstSlash(s) < |s| && NoNewline(s[..i]) && i + 1 + j <= |s|
    requires GlobMatch(a, s[i + 1..][..j])
    ensures GlobMatch(a, s[..i + 1 + j])
  {
    var d := s[..i + 1 + j];
    assert d[i] == s[i] && forall x :: 0 <= x < i ==> d[x] == s[x];
    assert FirstSlash(d) == i;
    assert d[..i] == s[..i] && d[i + 1..] == s[i + 1..][..j];
  }

  /** Where the last segment of a path starts. */
  lemma {:induction false} LastSegment(s: string) returns (k: nat)
    ensures k <= |s| && NoSlash(s[k..]) && (k > 0 ==> s[k - 1] == '/')
  {
    if s == [] || s[|s| - 1] == '/' {
      k := |s|;
    } else {
      k := LastSegment(s[..|s| - 1]);
      assert s[k..] == s[..|s| - 1][k..] + [s[|s| - 1]];
    }
  }

  /** Directories, one character and the rest of the last segment. */
  lemma DirectoriesThenName(a: string, s: string)
    requires "**/" <= a && OnlyStars(a) && IsFilePath(s)
    ensures GlobMatch(a + (['?'] + "*"), s)
  {
    var k := LastSegment(s);
    var d, rest := s[..k], s[k..];
    assert k < |s| && rest[0] == s[k];
    DirectoriesLang(d);
    OnlyStarsMatchNothing(a[3..]);
    assert d[..|d|] == d && d[|d|..] == [];
    assert k > 0 ==> d[|d| - 1] == '/' && forall x :: 0 <= x < k ==> d[x] == s[x];
    DirectoriesJoin(a, d, |d|);
    assert forall x :: 0 <= x < |rest[1..]| ==> rest[1..][x] == rest[x + 1];
    StarMatches(rest[1..]);
    OneMatches("*", rest);
    StarsJoin(a, "*", d, rest);
    assert d + rest == s;
  }

  lemma AroundOneMatches(a: string, b: string, s: string)
    requires AroundOne(a, b) && IsFilePath(s)
    ensures GlobMatch(a + (['?'] + b), s)
  {
    OnlyStarsMatchNothing(a);
    OnlyStarsMatchNothing(b);
    var n := |s| - 1;
    if CatchAll(a) {
      NoNewlinePrefix(s, n);
      CatchAllMatches(a, s[..n]);
      assert s[n..] == [s[n]] && [s[n]][1..] == [];
      OneMatches(b, s[n..]);
      StarsJoin(a, b, s[..n], s[n..]);
      assert s[..n] + s[n..] == s;
    } else if CatchAll(b) {
      NoNewlineSuffix(s, 1);
      CatchAllMatches(b, s[1..]);
      OneMatches(b, s);
      StarsJoin(a, b, "", s);
      assert "" + s == s;
    } else {
      StarsWithoutCatchAll(a);
      DirectoriesThenName(a, s);
    }
  }

  lemma NoNewlinePrefix(s: string, n: nat)
    requires n <= |s| && NoNewline(s)
    ensures NoNewline(s[..n])
  {
  }

  /** Matching two different files of one character leaves stars, around one `?` at most. */
  lemma {:induction false} MatchesOneCharacter(p: string) returns (i: int)
    requires GlobMatch(p, "a") && GlobMatch(p, "b")
    ensures if i < 0 then OnlyStars(p)
      else i < |p| && p[i] == '?' && OnlyStars(p[..i]) && OnlyStars(p[i + 1..])
  {
    assert "a"[1..] == "" && "b"[1..] == "";
    OnlyStarsMatchNothing(p);
    if OnlyStars(p) {
      i := -1;
    } else if p[0] == '?' {
      OnlyStarsMatchNothing(p[1..]);
      assert p[..0] == [];
      i := 0;
    } else {
      StarPrefixes(p);
      var n := if "**/" <= p then 3 else if "**" <= p then 2 else 1;
      i := MatchesOneCharacter(p[n..]);
      if i >= 0 {
        MoreStars(p, n, i);
        i := i + n;
      }
    }
  }

  lemma MoreStars(p: string, n: nat, i: nat)
    requires n == (if "**/" <= p then 3 else if "**" <= p then 2 else 1) && n + i < |p| && p[0] == '*'
    requires OnlyStars(p[n..][..i]) && p[n..][i] == '?' && OnlyStars(p[n..][i + 1..])
    ensures OnlyStars(p[..n + i]) && p[n + i] == '?' && OnlyStars(p[n + i + 1..])
  {
    var q, r := p[..n + i], p[n..][..i];
    assert p[n..][i + 1..] == p[n + i + 1..];
    assert q[n..] == r;
    StarPrefixes(p);
    StarPrefixes(q);
    assert forall x :: 0 <= x < |q| ==> q[x] == p[x];
    assert i > 0 ==> r[0] == '*' == p[n];
  }

  /** Stars around a `?` that match these two files leave room for every file. */
  lemma TwoFilesDecide(a: string, b: string)
    requires OnlyStars(a) && OnlyStars(b)
    requires GlobMatch(a + (['?'] + b), "ab") && GlobMatch(a + (['?'] + b), "a/b")
    ensures AroundOne(a, b)
  {
    if !CatchAll(a) && !CatchAll(b) {
      var k := StarsSplit(a, b, "ab");
      OneMatches(b, "ab"[k..]);
      MissesName(a, b, k);
      var m := StarsSplit(a, b, "a/b");
      OneMatches(b, "a/b"[m..]);
      MissesDirectory(a, b, m);
    }
  }

  lemma MissesName(a: string, b: string, k: nat)
    requires OnlyStars(a) && OnlyStars(b) && !CatchAll(a) && !CatchAll(b)
    requires k < 2 && GlobMatch(a, "ab"[..k]) && GlobMatch(b, "ab"[k..][1..])
    ensures a == "*" || b == "*"
  {
    if k == 0 {
      assert "ab"[0..][1..] == "b";
      if b != "*" {
        OnlyDirectories(b, "b");
      }
    } else {
      assert "ab"[..1] == "a";
      if a != "*" {
        OnlyDirectories(a, "a");
      }
    }
  }

  lemma MissesDirectory(a: string, b: string, k: nat)
    requires OnlyStars(a) && OnlyStars(b) && !CatchAll(a) && !CatchAll(b)
    requires k < 3 && "a/b"[k] != '/' && GlobMatch(a, "a/b"[..k]) && GlobMatch(b, "a/b"[k..][1..])
    ensures a != "" && a != "*"
  {
    if k == 0 {
      assert "a/b"[0..][1..] == "/b";
      StarMatches("/b");
      if b != "*" {
        OnlyDirectories(b, "/b");
      }
    } else {
      assert "a/b"[..2] == "a/";
      StarMatches("a/");
    }
  }

  /** A pattern that matches these four files matches every file. */
  ghost predicate MatchesFourFiles(p: string) {
    GlobMatch(p, "a") && GlobMatch(p, "b") && GlobMatch(p, "ab") && GlobMatch(p, "a/b")
  }

  lemma FourFilesDecide(p: string)
    requires MatchesFourFiles(p)
    ensures MatchesEveryFile(p)
  {
    var i := MatchesOneCharacter(p);
    assert "a/b"[1] == '/';
    if i >= 0 {
      var a, b := p[..i], p[i + 1..];
      assert p == a + (['?'] + b);
      TwoFilesDecide(a, b);
    } else if !CatchAll(p) {
      if p == "*" {
        StarMatches("a/b");
      } else {
        OnlyDirectories(p, "a");
      }
    }
  }

  /** A pattern matches every file path if and only if it is of that form, and four files are enough to tell. */
  lemma MatchesEveryFileExactlyWhen(p: string)
    ensures (forall path :: IsFilePath(path) ==> GlobMatch(p, path)) <==> MatchesEveryFile(p)
    ensures MatchesFourFiles(p) <==> MatchesEveryFile(p)
  {
    if MatchesEveryFile(p) {
      forall path | IsFilePath(path) ensures GlobMatch(p, path) {
        if CatchAll(p) {
          CatchAllMatches(p, path);
        } else {
          var i :| 0 <= i < |p| && p[i] == '?' && AroundOne(p[..i], p[i + 1..]);
          assert p == p[..i] + (['?'] + p[i + 1..]);
          AroundOneMatches(p[..i], p[i + 1..], path);
        }
      }
    }
    assert IsFilePath("a") && IsFilePath("b") && IsFilePath("ab") && IsFilePath("a/b");
    if MatchesFourFiles(p) {
      FourFilesDecide(p);
    }
  }

  // ---- the guard ----

  /** The expression compiled from a pattern accepts every newline-free path. */
  ghost predicate AcceptsEveryPath(pattern: string) {
    forall path :: NoNewline(path) ==> Test("^" + Body(Normalize(pattern)) + "$", path)
  }

  /** It accepts every file path. */
  ghost predicate AcceptsEveryFile(pattern: string) {
    forall path :: IsFilePath(path) ==> Test("^" + Body(Normalize(pattern)) + "$", path)
  }

  lemma AcceptsEveryFileExactlyWhen(pattern: string)
    ensures AcceptsEveryFile(pattern) <==> MatchesEveryFile(Normalize(pattern))
  {
    forall path ensures Test("^" + Body(Normalize(pattern)) + "$", path) <==> GlobMatch(Normalize(pattern), path) {
      CompilationPreservesMeaning(pattern, path);
    }
    MatchesEveryFileExactlyWhen(Normalize(pattern));
  }

  lemma AcceptsEveryPathExactlyWhen(pattern: string)
    ensures AcceptsEveryPath(pattern) <==> CatchAll(Normalize(pattern))
  {
    forall path ensures Test("^" + Body(Normalize(pattern)) + "$", path) <==> GlobMatch(Normalize(pattern), path) {
      CompilationPreservesMeaning(pattern, path);
    }
    CatchAllExactlyWhen(Normalize(pattern));
  }

  /** Which of the five texts on the guard's list are catch-alls. */
  lemma ListedCatchAlls(n: string)
    requires n == "*" || n == "**" || n == "**/*" || n == "./**" || n == "./**/*"
    ensures ToPosix(n) == n
    ensures CatchAll(n) <==> n == "**" || n == "**/*"
    ensures MatchesEveryFile(n) <==> CatchAll(n)
  {
    StarPrefixes(n);
    if n == "**" {
      assert n[2..] == [];
    } else if n == "**/*" {
      assert n[3..] == "*";
    }
  }

  /** Of the patterns the guard rejects, exactly `**` and the one for all files accept every file, or every path at all. */
  lemma RejectedCatchesAllExactlyWhen(pattern: string)
    requires IsUnsafeApplyToPattern(pattern)
    ensures AcceptsEveryFile(pattern) <==> Strip(pattern) == "**" || Strip(pattern) == "**/*"
    ensures AcceptsEveryPath(pattern) <==> Strip(pattern) == "**" || Strip(pattern) == "**/*"
  {
    AcceptsEveryFileExactlyWhen(pattern);
    AcceptsEveryPathExactlyWhen(pattern);
    ListedCatchAlls(Strip(pattern));
  }

  /**
   The guard lets through a pattern that accepts every file if and only if the pattern normalizes to
   one that matches every file and is not, once stripped, one of the two such patterns on the list.
   */
  lemma GuardMissesExactlyWhen(pattern: string)
    ensures !IsUnsafeApplyToPattern(pattern) && AcceptsEveryFile(pattern)
            <==> MatchesEveryFile(Normalize(pattern)) && Strip(pattern) != "**" && Strip(pattern) != "**/*"
  {
    AcceptsEveryFileExactlyWhen(pattern);
    if IsUnsafeApplyToPattern(pattern) {
      ListedCatchAlls(Strip(pattern));
    }
  }

  lemma StripKeeps(pattern: string)
    requires pattern != [] && !IsSpace(pattern[0]) && !IsSpace(pattern[|pattern| - 1])
    ensures Strip(pattern) == if "./" <= pattern then pattern[2..] else pattern
  {
  }

  /**
   Rejected although it only matches below a directory named `.`: this frontmatter pattern is stripped
   before the guard sees it and once more by the guard, and the compiler is given what the guard is given.
   */
  lemma GuardRejectsANarrowPattern()
    ensures var pattern := Strip("./././**");
      pattern == "././**" && IsUnsafeApplyToPattern(pattern) && !AcceptsEveryFile(pattern)
  {
    StripKeeps("./././**");
    assert "./././**"[2..] == "././**";
    StripKeeps("././**");
    assert "././**"[2..] == "./**";
    RejectedCatchesAllExactlyWhen("././**");
  }

  /** Let through although they match every file. */
  lemma GuardMissesCatchAlls()
    ensures forall p :: p in {"**/**", "***", "**\\*", "**?"} ==> !IsUnsafeApplyToPattern(p) && AcceptsEveryFile(p)
  {
    forall p | p in {"**/**", "***", "**\\*", "**?"} ensures !IsUnsafeApplyToPattern(p) && AcceptsEveryFile(p) {
      StripKeeps(p);
      NormalizedCatchAlls(p);
      GuardMissesExactlyWhen(p);
    }
  }

  lemma NormalizedCatchAlls(p: string)
    requires p == "**/**" || p == "***" || p == "**\\*" || p == "**?"
    ensures MatchesEveryFile(ToPosix(p))
  {
    var n := ToPosix(p);
    StarPrefixes(n);
    if p == "***" {
      assert n == "***" && n[2..] == "*" && "*"[1..] == [];
    } else if p == "**/**" {
      assert n == "**/**" && n[3..] == "**" && "**"[2..] == [];
    } else if p == "**?" {
      assert n[2] == '?' && n[..2] == "**" && n[3..] == "" && "**"[2..] == [];
      assert AroundOne(n[..2], n[2 + 1..]);
    } else {
      assert n == "**/*" && n[3..] == "*";
    }
  }
}
