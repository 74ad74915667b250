/**
 The one-pass glob compiler of scripts/auditCustomizationGovernance.js: the expression text
 it emits means what a direct glob matcher means.
 */
module GlobCompiler {
  import opened Prelude
  import opened Regex

  // ---- the compiler ----

  /** trim, then one leading "./" off. */
  function Strip(s: string): string {
    var t := Trim(s);
    if "./" <= t then t[2..] else t
  }

  function Normalize(globPattern: string): string {
    ToPosix(Strip(globPattern))
  }

  /** `n` is `t` behind a leading "./", with slashes for backslashes. */
  ghost predicate SlashedRest(t: string, n: string) {
    var k := if |t| >= 2 && t[0] == '.' && t[1] == '/' then 2 else 0;
    |n| == |t| - k && forall i :: 0 <= i < |n| ==> n[i] == if t[k + i] == '\\' then '/' else t[k + i]
  }

  /** Normalizing takes the white space off both ends first, then one "./", and turns backslashes last. */
  lemma NormalizedExactly(p: string, n: string)
    ensures n == Normalize(p) <==> exists t :: TrimsTo(p, t) && SlashedRest(t, n)
  {
    var trimmed := Trim(p);
    TrimIsUnique(p, trimmed);
    SlashedRestIs(trimmed, n);
    hide Trim, TrimsTo, SlashedRest, ToPosix;
    if t :| TrimsTo(p, t) && SlashedRest(t, n) {
      TrimIsUnique(p, t);
    }
  }

  lemma SlashedRestIs(t: string, n: string)
    ensures SlashedRest(t, n) <==> n == ToPosix(if "./" <= t then t[2..] else t)
  {
    var rest := if "./" <= t then t[2..] else t;
    assert "./" <= t <==> |t| >= 2 && t[0] == '.' && t[1] == '/';
    if SlashedRest(t, n) {
      SamePosix(rest, n);
    }
  }

  lemma SamePosix(s: string, n: string)
    requires |n| == |s| && forall i :: 0 <= i < |s| ==> n[i] == if s[i] == '\\' then '/' else s[i]
    ensures n == ToPosix(s)
  {
  }

  /** The characters the compiler escapes. */
  predicate Escaped(c: char) {
    c in "[]{}()+.^$|\\"
  }

  /** The text emitted for the rest of a pattern. */
  function Body(p: string): string {
    if p == [] then []
    else if "**/" <= p then "(?:.*/)?" + Body(p[3..])
    else if "**" <= p then ".*" + Body(p[2..])
    else if p[0] == '*' then "[^/]*" + Body(p[1..])
    else if p[0] == '?' then "[^/]" + Body(p[1..])
    else if Escaped(p[0]) then ['\\', p[0]] + Body(p[1..])
    else [p[0]] + Body(p[1..])
  }

  method GlobToRegex(globPattern: string) returns (text: string)
    ensures text == "^" + Body(Normalize(globPattern)) + "$"
  {
    var pattern := Normalize(globPattern);
    var regexBody, index := "^", 0;
    assert pattern[0..] == pattern;
    while index < |pattern|
      invariant index <= |pattern|
      invariant regexBody + Body(pattern[index..]) == "^" + Body(pattern)
    {
      var character, rest := pattern[index], pattern[index..];
      PatternAt(pattern, index);
      if character == '*' && index + 1 < |pattern| && pattern[index + 1] == '*' {
        if index + 2 < |pattern| && pattern[index + 2] == '/' {
          Assoc(regexBody, "(?:.*/)?", Body(pattern[index + 3..]));
          regexBody := regexBody + "(?:.*/)?";
          index := index + 3;
        } else {
          Assoc(regexBody, ".*", Body(pattern[index + 2..]));
          regexBody := regexBody + ".*";
          index := index + 2;
        }
      } else if character == '*' {
        Assoc(regexBody, "[^/]*", Body(pattern[index + 1..]));
        regexBody := regexBody + "[^/]*";
        index := index + 1;
      } else if character == '?' {
        Assoc(regexBody, "[^/]", Body(pattern[index + 1..]));
        regexBody := regexBody + "[^/]";
        index := index + 1;
      } else if Escaped(character) {
        Assoc(regexBody, ['\\', character], Body(pattern[index + 1..]));
        regexBody := regexBody + ['\\', character];
        index := index + 1;
      } else {
        Assoc(regexBody, [character], Body(pattern[index + 1..]));
        regexBody := regexBody + [character];
        index := index + 1;
      }
    }
    assert pattern[index..] == [];
    assert regexBody + [] == regexBody;
    return regexBody + "$";
  }

  /** The compiler's case analysis at one position. */
  lemma PatternAt(p: string, index: nat)
    requires index < |p|
    ensures Body(p[index..]) ==
      if p[index] == '*' && index + 1 < |p| && p[index + 1] == '*' then
        if index + 2 < |p| && p[index + 2] == '/' then "(?:.*/)?" + Body(p[index + 3..])
        else ".*" + Body(p[index + 2..])
      else if p[index] == '*' then "[^/]*" + Body(p[index + 1..])
      else if p[index] == '?' then "[^/]" + Body(p[index + 1..])
      else if Escaped(p[index]) then ['\\', p[index]] + Body(p[index + 1..])
      else [p[index]] + Body(p[index + 1..])
  {
    var rest := p[index..];
    assert rest[1..] == p[index + 1..];
    assert |rest| >= 2 ==> rest[2..] == p[index + 2..];
    assert |rest| >= 3 ==> rest[3..] == p[index + 3..];
    assert "**" <= rest <==> |rest| >= 2 && rest[0] == '*' && rest[1] == '*';
    assert "**/" <= rest <==> |rest| >= 3 && rest[0] == '*' && rest[1] == '*' && rest[2] == '/';
  }

  // ---- the tree behind the text ----

  function Tree(p: string): Re {
    if p == [] then Eps
    else if "**/" <= p then Cat(Opt(DIRECTORIES), Tree(p[3..]))
    else if "**" <= p then Cat(Star(Dot), Tree(p[2..]))
    else if p[0] == '*' then Cat(Star(NotSlash), Tree(p[1..]))
    else if p[0] == '?' then Cat(NotSlash, Tree(p[1..]))
    else Cat(Lit(p[0]), Tree(p[1..]))
  }

  lemma BodyStart(p: string)
    ensures NoQuantifier(Body(p))
  {
  }

  lemma ParseStar(prefix: string, re: Re, rest: string)
    requires (prefix == ".*" && re == Star(Dot)) || (prefix == "[^/]*" && re == Star(NotSlash))
    ensures ParseTerms(prefix + rest) ==
      match ParseTerms(rest) case None => None case Some(more) => Some(Parsed(Cat(re, more.re), more.rest))
  {
    var t := prefix + rest;
    if prefix == ".*" {
      assert t[1..] == "*" + rest && ("*" + rest)[1..] == rest;
    } else {
      assert t[4..] == "*" + rest && ("*" + rest)[1..] == rest;
    }
  }

  lemma ParseOne(prefix: string, re: Re, rest: string)
    requires NoQuantifier(rest)
    requires || (prefix == "[^/]" && re == NotSlash)
             || (|prefix| == 2 && prefix[0] == '\\' && IsSyntax(prefix[1]) && re == Lit(prefix[1]))
             || (|prefix| == 1 && !IsSyntax(prefix[0]) && re == Lit(prefix[0]))
    ensures ParseTerms(prefix + rest) ==
      match ParseTerms(rest) case None => None case Some(more) => Some(Parsed(Cat(re, more.re), more.rest))
  {
    var t := prefix + rest;
    assert t[|prefix|..] == rest;
    assert t[0] == prefix[0];
  }

  lemma ParseDirectories(rest: string)
    ensures ParseTerms("(?:.*/)?" + rest) ==
      match ParseTerms(rest) case None => None case Some(more) => Some(Parsed(Cat(Opt(DIRECTORIES), more.re), more.rest))
  {
    var t, tail := "(?:.*/)?" + rest, ")?" + rest;
    GroupBody(tail);
    assert t[3..] == ".*" + ("/" + tail) && tail[1..] == "?" + rest && ("?" + rest)[1..] == rest;
    assert ParseAtom(t) == Some(Parsed(DIRECTORIES, tail[1..]));
  }

  lemma GroupBody(tail: string)
    requires tail != [] && tail[0] == ')'
    ensures ParseTerms(".*" + ("/" + tail)) == Some(Parsed(DIRECTORIES, tail))
  {
    ParseStar(".*", Star(Dot), "/" + tail);
    ParseOne("/", Lit('/'), tail);
  }

  /** The emitted text parses into the tree: every literal is one, and no literal is quantified. */
  lemma {:induction false} BodyParses(p: string)
    ensures ParseTerms(Body(p)) == Some(Parsed(Tree(p), []))
  {
    if p == [] {
    } else if "**/" <= p {
      BodyParses(p[3..]);
      ParseDirectories(Body(p[3..]));
    } else if "**" <= p {
      BodyParses(p[2..]);
      ParseStar(".*", Star(Dot), Body(p[2..]));
    } else {
      BodyParses(p[1..]);
      BodyStart(p[1..]);
      if p[0] == '*' {
        ParseStar("[^/]*", Star(NotSlash), Body(p[1..]));
      } else if p[0] == '?' {
        ParseOne("[^/]", NotSlash, Body(p[1..]));
      } else if Escaped(p[0]) {
        ParseOne(['\\', p[0]], Lit(p[0]), Body(p[1..]));
      } else {
        ParseOne([p[0]], Lit(p[0]), Body(p[1..]));
      }
    }
  }

  lemma AnchoredParses(body: string, re: Re)
    requires ParseTerms(body) == Some(Parsed(re, []))
    ensures ParseRegex("^" + body + "$") == Some(re)
  {
    var t := "^" + body + "$";
    assert t[1..|t| - 1] == body;
  }

  // ---- the direct matcher ----

  /** The position of the first slash, or the length. */
  function FirstSlash(s: string): (i: nat)
    ensures i <= |s| && (i < |s| ==> s[i] == '/')
    ensures forall j :: 0 <= j < i ==> s[j] != '/'
  {
    if s == [] || s[0] == '/' then 0 else
      assert forall j :: 1 <= j < |s| ==> s[j] == s[1..][j - 1];
      1 + FirstSlash(s[1..])
  }

  /**
   What a glob means: `*` and `?` stay within a directory, `**` goes anywhere, and `**` with a
   slash eats any number of whole directories; nothing eats a newline except `*` and `?`.
   */
  predicate GlobMatch(p: string, s: string)
    decreases |p|, |s|
  {
    if p == [] then s == []
    else if "**/" <= p then
      GlobMatch(p[3..], s)
      || (var i := FirstSlash(s); i < |s| && NoNewline(s[..i]) && GlobMatch(p, s[i + 1..]))
    else if "**" <= p then
      GlobMatch(p[2..], s) || (s != [] && !IsNewline(s[0]) && GlobMatch(p, s[1..]))
    else if p[0] == '*' then
      GlobMatch(p[1..], s) || (s != [] && s[0] != '/' && GlobMatch(p, s[1..]))
    else if p[0] == '?' then s != [] && s[0] != '/' && GlobMatch(p[1..], s[1..])
    else s != [] && s[0] == p[0] && GlobMatch(p[1..], s[1..])
  }

  lemma Shift(s: string, i: nat)
    requires i < |s|
    ensures s[1..][..i] == s[1..i + 1] && s[1..][i..] == s[i + 1..] && s[..i + 1] == [s[0]] + s[1..i + 1]
  {
  }

  lemma TailOfPrefix(s: string, i: nat)
    requires 0 < i <= |s|
    ensures s[..i][0] == s[0]
    ensures NoNewline(s[..i]) ==> NoNewline(s[1..][..i - 1])
    ensures NoSlash(s[..i]) ==> NoSlash(s[1..][..i - 1])
  {
    var t := s[..i];
    assert s[1..][..i - 1] == t[1..];
  }

  lemma {:induction false} AnywhereSplit(p: string, s: string) returns (i: nat)
    requires "**" <= p && !("**/" <= p) && GlobMatch(p, s)
    ensures i <= |s| && NoNewline(s[..i]) && GlobMatch(p[2..], s[i..])
    decreases |s|
  {
    if GlobMatch(p[2..], s) {
      i := 0;
      assert s[0..] == s;
    } else {
      i := AnywhereSplit(p, s[1..]);
      Shift(s, i);
      i := i + 1;
    }
  }

  lemma {:induction false} AnywhereJoin(p: string, s: string, i: nat)
    requires "**" <= p && !("**/" <= p) && i <= |s| && NoNewline(s[..i]) && GlobMatch(p[2..], s[i..])
    ensures GlobMatch(p, s)
    decreases |s|
  {
    if i == 0 {
      assert s[0..] == s;
    } else {
      Shift(s, i - 1);
      TailOfPrefix(s, i);
      AnywhereJoin(p, s[1..], i - 1);
    }
  }

  lemma {:induction false} WithinSplit(p: string, s: string) returns (i: nat)
    requires p != [] && p[0] == '*' && !("**" <= p) && GlobMatch(p, s)
    ensures i <= |s| && NoSlash(s[..i]) && GlobMatch(p[1..], s[i..])
    decreases |s|
  {
    if GlobMatch(p[1..], s) {
      i := 0;
      assert s[0..] == s;
    } else {
      i := WithinSplit(p, s[1..]);
      Shift(s, i);
      i := i + 1;
    }
  }

  lemma {:induction false} WithinJoin(p: string, s: string, i: nat)
    requires p != [] && p[0] == '*' && !("**" <= p) && i <= |s| && NoSlash(s[..i]) && GlobMatch(p[1..], s[i..])
    ensures GlobMatch(p, s)
    decreases |s|
  {
    if i == 0 {
      assert s[0..] == s;
    } else {
      Shift(s, i - 1);
      TailOfPrefix(s, i);
      WithinJoin(p, s[1..], i - 1);
    }
  }

  /** Whole directories, newline-free: nothing, or a text that ends in a slash. */
  ghost predicate WholeDirectories(s: string) {
    s == [] || Lang(DIRECTORIES, s)
  }

  lemma {:induction false} DirectoriesSplit(p: string, s: string) returns (i: nat)
    requires "**/" <= p && GlobMatch(p, s)
    ensures i <= |s| && WholeDirectories(s[..i]) && GlobMatch(p[3..], s[i..])
    decreases |s|
  {
    if GlobMatch(p[3..], s) {
      i := 0;
      assert s[0..] == s;
    } else {
      var k := FirstSlash(s);
      var j := DirectoriesSplit(p, s[k + 1..]);
      JoinDirectories(s, k, j);
      i := k + 1 + j;
      assert s[k + 1..][j..] == s[i..];
    }
  }

  lemma {:induction false} DirectoriesJoin(p: string, s: string, i: nat)
    requires "**/" <= p && i <= |s| && WholeDirectories(s[..i]) && GlobMatch(p[3..], s[i..])
    ensures GlobMatch(p, s)
    decreases |s|
  {
    if i == 0 {
      assert s[0..] == s;
    } else {
      var k := FirstSlash(s);
      SplitDirectories(s, i);
      assert s[k + 1..][i - k - 1..] == s[i..];
      DirectoriesJoin(p, s[k + 1..], i - k - 1);
    }
  }

  lemma NoNewlineJoin(a: string, b: string)
    requires NoNewline(a) && NoNewline(b)
    ensures NoNewline(a + ['/'] + b)
  {
  }

  lemma JoinDirectories(s: string, k: nat, j: nat)
    requires k < |s| && s[k] == '/' && NoNewline(s[..k]) && k + 1 + j <= |s| && WholeDirectories(s[k + 1..][..j])
    ensures WholeDirectories(s[..k + 1 + j])
  {
    hide Lang;
    var d, e := s[..k + 1 + j], s[k + 1..][..j];
    DirectoriesLang(d);
    DirectoriesLang(e);
    assert d == (s[..k] + ['/']) + e;
    if e != [] {
      InitOfAppend(s[..k] + ['/'], e);
      NoNewlineJoin(s[..k], e[..|e| - 1]);
      assert d[|d| - 1] == e[|e| - 1];
    } else {
      assert d == s[..k] + ['/'];
      InitOfAppend(s[..k], ['/']);
      assert s[..k] + [] == s[..k];
    }
  }

  lemma SplitDirectories(s: string, i: nat)
    requires 0 < i <= |s| && WholeDirectories(s[..i])
    ensures FirstSlash(s) < i && NoNewline(s[..FirstSlash(s)])
    ensures WholeDirectories(s[FirstSlash(s) + 1..][..i - FirstSlash(s) - 1])
  {
    DirectoriesLang(s[..i]);
    hide Lang;
    EndsInSlash(s, i);
    RestOfDirectories(s, FirstSlash(s), i);
  }

  lemma EndsInSlash(s: string, i: nat)
    requires 0 < i <= |s| && s[..i][i - 1] == '/' && NoNewline(s[..i][..i - 1])
    ensures s[i - 1] == '/' && forall x :: 0 <= x < i - 1 ==> !IsNewline(s[x])
    ensures FirstSlash(s) < i && NoNewline(s[..FirstSlash(s)])
  {
    assert forall x :: 0 <= x < i - 1 ==> s[x] == s[..i][..i - 1][x];
  }

  lemma RestOfDirectories(s: string, k: nat, i: nat)
    requires k < i <= |s| && s[i - 1] == '/' && forall x :: 0 <= x < i - 1 ==> !IsNewline(s[x])
    ensures WholeDirectories(s[k + 1..][..i - k - 1])
  {
    hide Lang;
    var e := s[k + 1..][..i - k - 1];
    assert forall x :: 0 <= x < |e| ==> e[x] == s[k + 1 + x];
    DirectoriesLang(e);
  }

  /** The language of the tree is what the direct matcher accepts. */
  lemma {:induction false} TreeMatches(p: string, s: string)
    ensures Lang(Tree(p), s) <==> GlobMatch(p, s)
    decreases |p|
  {
    if p == [] {
    } else if "**/" <= p {
      forall i | 0 <= i <= |s| ensures Lang(Opt(DIRECTORIES), s[..i]) && Lang(Tree(p[3..]), s[i..])
          <==> WholeDirectories(s[..i]) && GlobMatch(p[3..], s[i..]) {
        TreeMatches(p[3..], s[i..]);
      }
      if GlobMatch(p, s) {
        var i := DirectoriesSplit(p, s);
        assert Lang(Opt(DIRECTORIES), s[..i]) && Lang(Tree(p[3..]), s[i..]);
      }
      if Lang(Tree(p), s) {
        var i :| 0 <= i <= |s| && Lang(Opt(DIRECTORIES), s[..i]) && Lang(Tree(p[3..]), s[i..]);
        DirectoriesJoin(p, s, i);
      }
    } else if "**" <= p {
      forall i | 0 <= i <= |s| ensures Lang(Star(Dot), s[..i]) && Lang(Tree(p[2..]), s[i..])
          <==> NoNewline(s[..i]) && GlobMatch(p[2..], s[i..]) {
        StarDotLang(s[..i]);
        TreeMatches(p[2..], s[i..]);
      }
      if GlobMatch(p, s) {
        var i := AnywhereSplit(p, s);
        assert Lang(Star(Dot), s[..i]) && Lang(Tree(p[2..]), s[i..]);
      }
      if Lang(Tree(p), s) {
        var i :| 0 <= i <= |s| && Lang(Star(Dot), s[..i]) && Lang(Tree(p[2..]), s[i..]);
        AnywhereJoin(p, s, i);
      }
    } else if p[0] == '*' {
      forall i | 0 <= i <= |s| ensures Lang(Star(NotSlash), s[..i]) && Lang(Tree(p[1..]), s[i..])
          <==> NoSlash(s[..i]) && GlobMatch(p[1..], s[i..]) {
        StarNotSlashLang(s[..i]);
        TreeMatches(p[1..], s[i..]);
      }
      if GlobMatch(p, s) {
        var i := WithinSplit(p, s);
        assert Lang(Star(NotSlash), s[..i]) && Lang(Tree(p[1..]), s[i..]);
      }
      if Lang(Tree(p), s) {
        var i :| 0 <= i <= |s| && Lang(Star(NotSlash), s[..i]) && Lang(Tree(p[1..]), s[i..]);
        WithinJoin(p, s, i);
      }
    } else {
      OneCharLang(if p[0] == '?' then NotSlash else Lit(p[0]), Tree(p[1..]), s);
      if s != [] {
        TreeMatches(p[1..], s[1..]);
      }
    }
  }

  /**
   Compilation preserves meaning: for every pattern and every path, the compiled expression
   accepts the path if and only if the direct matcher does.
   */
  lemma CompilationPreservesMeaning(globPattern: string, path: string)
    ensures Test("^" + Body(Normalize(globPattern)) + "$", path) <==> GlobMatch(Normalize(globPattern), path)
  {
    BodyParses(Normalize(globPattern));
    AnchoredParses(Body(Normalize(globPattern)), Tree(Normalize(globPattern)));
    TreeMatches(Normalize(globPattern), path);
  }

  // ---- consequences ----

  function Slashes(s: string): nat {
    if s == [] then 0 else (if s[0] == '/' then 1 else 0) + Slashes(s[1..])
  }

  lemma StarPrefixes(p: string)
    ensures "**" <= p <==> |p| >= 2 && p[0] == '*' && p[1] == '*'
    ensures "**/" <= p <==> |p| >= 3 && p[0] == '*' && p[1] == '*' && p[2] == '/'
  {
  }

  predicate HasDoubleStar(p: string) {
    p != [] && ("**" <= p || HasDoubleStar(p[1..]))
  }

  /** Without `**` a pattern only matches paths of its own depth. */
  lemma {:induction false} SameDepth(p: string, s: string)
    requires !HasDoubleStar(p) && GlobMatch(p, s)
    ensures Slashes(p) == Slashes(s)
    decreases |p|, |s|
  {
    if p != [] {
      if p[0] == '*' && !GlobMatch(p[1..], s) {
        SameDepth(p, s[1..]);
      } else if p[0] == '*' {
        SameDepth(p[1..], s);
      } else {
        SameDepth(p[1..], s[1..]);
      }
    }
  }

  lemma {:induction false} DoubleStarMatches(s: string)
    ensures GlobMatch("**", s) <==> NoNewline(s)
  {
    assert "**"[2..] == [];
    assert !("**/" <= "**");
    if s != [] {
      DoubleStarMatches(s[1..]);
      assert forall i :: 0 <= i < |s[1..]| ==> s[1..][i] == s[i + 1];
    }
  }

  lemma {:induction false} StarMatches(s: string)
    ensures GlobMatch("*", s) <==> NoSlash(s)
  {
    assert "*"[1..] == [];
    assert !("**" <= "*");
    if s != [] {
      StarMatches(s[1..]);
      assert forall i :: 0 <= i < |s[1..]| ==> s[1..][i] == s[i + 1];
    }
  }

  lemma NoNewlineSuffix(s: string, i: nat)
    requires i <= |s| && NoNewline(s)
    ensures NoNewline(s[i..])
  {
  }
}
