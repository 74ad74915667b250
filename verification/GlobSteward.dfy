/**
 The multi-pass glob compiler of scripts/auditTraceabilitySteward.js: five global text
 replacements through a placeholder. What the passes add up to, when the placeholder
 collides with the pattern, and how the result compares with the one-pass compiler.
 */
module GlobSteward {
  import opened Prelude
  import opened Regex
  import opened GlobCompiler

  /** String.prototype.replace with a global literal pattern: leftmost matches, never rescanned. */
  function ReplaceAll(s: string, needle: string, value: string): string
    requires needle != []
    decreases |s|
  {
    if s == [] then []
    else if needle <= s then value + ReplaceAll(s[|needle|..], needle, value)
    else [s[0]] + ReplaceAll(s[1..], needle, value)
  }

  const PLACEHOLDER := "___DOUBLESTAR___"

  /** globToRegex of the steward. */
  function Compile(p: string): string {
    var escaped := ReplaceAll(ReplaceAll(p, "\\", "\\\\"), ".", "\\.");
    var marked := ReplaceAll(escaped, "**", PLACEHOLDER);
    var starred := ReplaceAll(marked, "*", "[^/]*");
    "^" + ReplaceAll(starred, PLACEHOLDER, ".*") + "$"
  }

  // ---- the passes on their own ----

  function Escape(c: char): string {
    if c == '\\' then "\\\\" else if c == '.' then "\\." else [c]
  }

  /** The pattern with every character escaped. */
  function AfterEscapes(p: string): string {
    if p == [] then [] else Escape(p[0]) + AfterEscapes(p[1..])
  }

  /** The pattern with `doubled` for each `**`, `single` for each remaining `*`, and the rest escaped. */
  function Render(p: string, doubled: string, single: string): string {
    if p == [] then []
    else if "**" <= p then doubled + Render(p[2..], doubled, single)
    else if p[0] == '*' then single + Render(p[1..], doubled, single)
    else Escape(p[0]) + Render(p[1..], doubled, single)
  }

  /** The text the passes are meant to produce between the anchors. */
  function Intended(p: string): string {
    Render(p, ".*", "[^/]*")
  }

  lemma ReplaceStep(s: string, needle: string, value: string, n: nat)
    requires needle != [] && n <= |s|
    requires forall i :: 0 <= i < n ==> s[i] != needle[0]
    ensures ReplaceAll(s, needle, value) == s[..n] + ReplaceAll(s[n..], needle, value)
    decreases n
  {
    if n == 0 {
      assert s[..0] == [] && s[0..] == s;
    } else {
      ReplaceStep(s[1..], needle, value, n - 1);
      assert s[1..][n - 1..] == s[n..];
      assert s[..n] == [s[0]] + s[1..][..n - 1];
    }
  }

  /** A prefix without the needle's first character is copied. */
  lemma ReplaceBehind(prefix: string, rest: string, needle: string, value: string)
    requires needle != [] && forall i :: 0 <= i < |prefix| ==> prefix[i] != needle[0]
    ensures ReplaceAll(prefix + rest, needle, value) == prefix + ReplaceAll(rest, needle, value)
  {
    ReplaceStep(prefix + rest, needle, value, |prefix|);
    assert (prefix + rest)[..|prefix|] == prefix && (prefix + rest)[|prefix|..] == rest;
  }

  lemma ReplaceHere(rest: string, needle: string, value: string)
    requires needle != []
    ensures ReplaceAll(needle + rest, needle, value) == value + ReplaceAll(rest, needle, value)
  {
    assert (needle + rest)[|needle|..] == rest;
  }

  lemma {:induction false} EscapePasses(p: string)
    ensures ReplaceAll(ReplaceAll(p, "\\", "\\\\"), ".", "\\.") == AfterEscapes(p)
  {
    if p != [] {
      EscapePasses(p[1..]);
      assert p == [p[0]] + p[1..];
      var inner := ReplaceAll(p[1..], "\\", "\\\\");
      if p[0] == '\\' {
        ReplaceHere(p[1..], "\\", "\\\\");
        ReplaceBehind("\\\\", inner, ".", "\\.");
      } else if p[0] == '.' {
        ReplaceBehind(".", p[1..], "\\", "\\\\");
        ReplaceHere(inner, ".", "\\.");
      } else {
        ReplaceBehind([p[0]], p[1..], "\\", "\\\\");
        ReplaceBehind([p[0]], inner, ".", "\\.");
      }
    }
  }

  lemma EscapedStar(p: string)
    requires p != []
    ensures AfterEscapes(p) != []
    ensures p[0] == '*' <==> AfterEscapes(p)[0] == '*'
    ensures p[0] == '*' ==> AfterEscapes(p) == "*" + AfterEscapes(p[1..])
    ensures p[0] != '*' && |AfterEscapes(p)| > 1 ==> !("**" <= AfterEscapes(p))
  {
  }

  lemma ConsStar(t: string)
    ensures "**" <= "*" + t <==> t != [] && t[0] == '*'
  {
    var u := "*" + t;
    StarPrefixes(u);
    if t != [] {
      assert u[1] == t[0];
    }
  }

  lemma EscapesStart(p: string)
    ensures "**" <= AfterEscapes(p) <==> "**" <= p
    ensures "**" <= p ==> AfterEscapes(p) == "**" + AfterEscapes(p[2..])
  {
    if p != [] {
      EscapedStar(p);
      if p[0] == '*' {
        assert p == "*" + p[1..];
        ConsStar(p[1..]);
        ConsStar(AfterEscapes(p[1..]));
        if p[1..] != [] {
          EscapedStar(p[1..]);
          assert p[1..][1..] == p[2..];
          hide AfterEscapes;
          Assoc("*", "*", AfterEscapes(p[2..]));
        }
      }
    }
  }

  lemma {:induction false} MarkPass(p: string)
    ensures ReplaceAll(AfterEscapes(p), "**", PLACEHOLDER) == Render(p, PLACEHOLDER, "*")
  {
    if p == [] {
    } else if "**" <= p {
      MarkPass(p[2..]);
      EscapesStart(p);
      ReplaceHere(AfterEscapes(p[2..]), "**", PLACEHOLDER);
    } else {
      MarkPass(p[1..]);
      EscapesStart(p);
      if p[0] == '*' {
        var s := AfterEscapes(p);
        assert s == "*" + AfterEscapes(p[1..]);
        assert s[1..] == AfterEscapes(p[1..]);
      } else {
        ReplaceBehind(Escape(p[0]), AfterEscapes(p[1..]), "**", PLACEHOLDER);
      }
    }
  }

  lemma {:induction false} StarPass(p: string)
    ensures ReplaceAll(Render(p, PLACEHOLDER, "*"), "*", "[^/]*") == Render(p, PLACEHOLDER, "[^/]*")
  {
    if p == [] {
    } else if "**" <= p {
      StarPass(p[2..]);
      ReplaceBehind(PLACEHOLDER, Render(p[2..], PLACEHOLDER, "*"), "*", "[^/]*");
    } else {
      StarPass(p[1..]);
      if p[0] == '*' {
        ReplaceHere(Render(p[1..], PLACEHOLDER, "*"), "*", "[^/]*");
      } else {
        ReplaceBehind(Escape(p[0]), Render(p[1..], PLACEHOLDER, "*"), "*", "[^/]*");
      }
    }
  }

  // ---- the placeholder pass ----

  /** The pattern goes on with `n` underscores, or with fewer and then `**`, which becomes three. */
  predicate UnderscoresFollow(p: string, n: nat) {
    n == 0 || "**" <= p || (p != [] && p[0] == '_' && UnderscoresFollow(p[1..], n - 1))
  }

  /** The pattern goes on with `v` and then with what becomes three underscores. */
  predicate SpellsOut(p: string, v: string) {
    v <= p && UnderscoresFollow(p[|v|..], 3)
  }

  /** The pattern itself spells out the start of a placeholder. */
  predicate CollidesHere(p: string) {
    SpellsOut(p, "___DOUBLESTAR")
  }

  predicate Collides(p: string) {
    p != [] && (CollidesHere(p) || Collides(p[1..]))
  }

  function Marked(p: string): string {
    Render(p, PLACEHOLDER, "[^/]*")
  }

  predicate Letter(c: char) {
    c != '*' && c != '\\' && c != '.' && c != '['
  }

  /** A letter at the start of the marked text comes from the pattern, unless a placeholder starts there. */
  lemma LetterStarts(p: string, w: string)
    requires w != [] && Letter(w[0]) && !("**" <= p)
    ensures w <= Marked(p) <==> p != [] && p[0] == w[0] && w[1..] <= Marked(p[1..])
  {
    if p != [] && p[0] != '*' {
      var m := Marked(p[1..]);
      assert Marked(p) == Escape(p[0]) + m;
      if p[0] == w[0] {
        PrefixOfCons(w, p[0], m);
      }
    }
  }

  lemma PrefixOfCons(w: string, c: char, m: string)
    requires w != [] && w[0] == c
    ensures w <= [c] + m <==> w[1..] <= m
  {
    assert w == [c] + w[1..];
    if w <= [c] + m {
      assert ([c] + m)[1..] == m;
      assert w[1..] == ([c] + m)[1..][..|w| - 1];
    }
    if w[1..] <= m {
      assert m[..|w| - 1] == w[1..];
      assert ([c] + m)[..|w|] == [c] + m[..|w| - 1];
    }
  }

  lemma {:induction false} UnderscoresStart(p: string, n: nat)
    requires n <= 3
    ensures Repeat('_', n) <= Marked(p) <==> UnderscoresFollow(p, n)
  {
    if n == 0 {
    } else if "**" <= p {
      var m := Marked(p);
      assert m == PLACEHOLDER + Marked(p[2..]);
      assert m[..n] == Repeat('_', n);
    } else {
      LetterStarts(p, Repeat('_', n));
      assert Repeat('_', n)[1..] == Repeat('_', n - 1);
      if p != [] {
        UnderscoresStart(p[1..], n - 1);
      }
    }
  }

  /** A placeholder cannot start inside another one. */
  lemma NoOverlap(k: nat, rest: string)
    requires 1 <= k <= 12
    ensures !(PLACEHOLDER[k..] <= PLACEHOLDER + rest)
  {
    var w, t := PLACEHOLDER[k..], PLACEHOLDER + rest;
    assert t[0] == '_' && t[1] == '_' && t[2] == '_';
    if k == 1 {
      assert w[2] == 'D';
    } else if k == 2 {
      assert w[1] == 'D';
    } else {
      assert w[0] == PLACEHOLDER[k] != '_';
    }
  }

  lemma SpellsOutNext(p: string, v: string)
    requires v != []
    ensures SpellsOut(p, v) <==> p != [] && p[0] == v[0] && SpellsOut(p[1..], v[1..])
  {
    if p != [] && p[0] == v[0] {
      PrefixOfCons(v, p[0], p[1..]);
      assert p == [p[0]] + p[1..];
      if v <= p {
        assert p[1..][|v| - 1..] == p[|v|..];
      }
    }
  }

  lemma PlaceholderAt(k: nat)
    requires 1 <= k < 13
    ensures Letter(PLACEHOLDER[k])
    ensures var w, v := PLACEHOLDER[k..], PLACEHOLDER[k..13];
      && w != [] && v != [] && w[0] == v[0] == PLACEHOLDER[k]
      && w[1..] == PLACEHOLDER[k + 1..] && v[1..] == PLACEHOLDER[k + 1..13]
  {
  }

  lemma {:induction false} RestStarts(p: string, k: nat)
    requires 1 <= k <= 13
    ensures PLACEHOLDER[k..] <= Marked(p) <==> SpellsOut(p, PLACEHOLDER[k..13])
    decreases 13 - k
  {
    if k == 13 {
      assert PLACEHOLDER[13..] == Repeat('_', 3);
      assert PLACEHOLDER[13..13] == [] && p[0..] == p;
      UnderscoresStart(p, 3);
    } else {
      PlaceholderAt(k);
      SpellsOutNext(p, PLACEHOLDER[k..13]);
      if "**" <= p {
        NoOverlap(k, Marked(p[2..]));
        assert PLACEHOLDER[k] != p[0];
      } else {
        LetterStarts(p, PLACEHOLDER[k..]);
        if p != [] {
          RestStarts(p[1..], k + 1);
        }
        hide SpellsOut, Marked, Letter;
      }
    }
  }

  lemma PlaceholderStarts(p: string)
    requires p != [] && p[0] == '_'
    ensures PLACEHOLDER <= Marked(p) <==> CollidesHere(p)
  {
    var v := "___DOUBLESTAR";
    LetterStarts(p, PLACEHOLDER);
    RestStarts(p[1..], 1);
    assert v[1..] == PLACEHOLDER[1..13];
    SpellsOutNext(p, v);
  }

  lemma SameStart(x: string, a: string, b: string)
    ensures x + a == x + b <==> a == b
  {
    assert (x + a)[|x|..] == a && (x + b)[|x|..] == b;
  }

  lemma StarsDoNotCollide(p: string)
    requires "**" <= p
    ensures Collides(p) <==> Collides(p[2..])
  {
    assert p[0] == '*' && p[1..][0] == '*' && "___DOUBLESTAR"[0] == '_';
    assert p[1..][1..] == p[2..];
  }

  /** The last pass restores exactly the placeholders of the third, if and only if the pattern does not collide. */
  lemma {:induction false} PlaceholderPass(p: string)
    ensures ReplaceAll(Marked(p), PLACEHOLDER, ".*") == Intended(p) <==> !Collides(p)
  {
    if p == [] {
    } else if "**" <= p {
      PlaceholderPass(p[2..]);
      ReplaceHere(Marked(p[2..]), PLACEHOLDER, ".*");
      SameStart(".*", ReplaceAll(Marked(p[2..]), PLACEHOLDER, ".*"), Intended(p[2..]));
      StarsDoNotCollide(p);
    } else {
      PlaceholderPass(p[1..]);
      var m := Marked(p[1..]);
      var piece := if p[0] == '*' then "[^/]*" else Escape(p[0]);
      SameStart(piece, ReplaceAll(m, PLACEHOLDER, ".*"), Intended(p[1..]));
      if p[0] != '_' {
        ReplaceBehind(piece, m, PLACEHOLDER, ".*");
      } else {
        PlaceholderStarts(p);
        assert Marked(p) == "_" + m && ("_" + m)[1..] == m;
        if CollidesHere(p) {
          assert ReplaceAll(Marked(p), PLACEHOLDER, ".*")[0] == '.';
          assert Intended(p)[0] == '_';
        }
      }
    }
  }

  /**
   The passes produce the intended expression if and only if the pattern nowhere spells out
   `___DOUBLESTAR` with three underscores, or up to two and then `**`, behind it.
   */
  lemma PassesAreIntended(p: string)
    ensures Compile(p) == "^" + Intended(p) + "$" <==> !Collides(p)
  {
    EscapePasses(p);
    MarkPass(p);
    StarPass(p);
    PlaceholderPass(p);
    var body := ReplaceAll(Marked(p), PLACEHOLDER, ".*");
    assert ("^" + body + "$")[1..|body| + 1] == body;
    assert ("^" + Intended(p) + "$")[1..|Intended(p)| + 1] == Intended(p);
  }

  // ---- what the intended expression means ----

  function StewardTree(p: string): Re {
    if p == [] then Eps
    else if "**" <= p then Cat(Star(Dot), StewardTree(p[2..]))
    else if p[0] == '*' then Cat(Star(NotSlash), StewardTree(p[1..]))
    else Cat(Lit(p[0]), StewardTree(p[1..]))
  }

  /** No syntax character but those the steward escapes or replaces. */
  predicate PlainPattern(p: string) {
    forall i :: 0 <= i < |p| ==> !IsSyntax(p[i]) || p[i] in "*.\\"
  }

  lemma IntendedStart(p: string)
    requires PlainPattern(p)
    ensures NoQuantifier(Intended(p))
  {
  }

  lemma {:induction false} IntendedParses(p: string)
    requires PlainPattern(p)
    ensures ParseTerms(Intended(p)) == Some(Parsed(StewardTree(p), []))
  {
    if p == [] {
    } else if "**" <= p {
      IntendedParses(p[2..]);
      ParseStar(".*", Star(Dot), Intended(p[2..]));
    } else {
      IntendedParses(p[1..]);
      IntendedStart(p[1..]);
      if p[0] == '*' {
        ParseStar("[^/]*", Star(NotSlash), Intended(p[1..]));
      } else {
        ParseOne(Escape(p[0]), Lit(p[0]), Intended(p[1..]));
      }
    }
  }

  // ---- comparison with the one-pass compiler ----

  /** A `**` of the pattern has a slash right behind it. */
  predicate HasDirectories(p: string) {
    p != [] &&
    ("**/" <= p || (if "**" <= p then HasDirectories(p[2..]) else HasDirectories(p[1..])))
  }

  lemma {:induction false} SameTrees(p: string)
    requires PlainPattern(p) && !HasDirectories(p)
    ensures StewardTree(p) == Tree(p)
  {
    if p == [] {
    } else if "**" <= p {
      SameTrees(p[2..]);
    } else {
      SameTrees(p[1..]);
    }
  }

  /** Anything without line breaks, and a slash, is a run of directories. */
  lemma DirectoriesEndHere(s: string, i: nat)
    requires i < |s| && Lang(Star(Dot), s[..i]) && s[i] == '/'
    ensures Lang(Opt(DIRECTORIES), s[..i + 1])
  {
    StarDotLang(s[..i]);
    DirectoriesLang(s[..i + 1]);
    assert s[..i + 1][..i] == s[..i];
  }

  lemma SlashComesNext(q: Re, s: string, i: nat)
    requires i <= |s| && Lang(Cat(Lit('/'), q), s[i..])
    ensures i < |s| && s[i] == '/' && Lang(q, s[i + 1..])
  {
    OneCharLang(Lit('/'), q, s[i..]);
    assert s[i..][0] == s[i] && s[i..][1..] == s[i + 1..];
  }

  lemma DirectoryFirst(q: Re, r: Re, s: string)
    requires Lang(Cat(Star(Dot), Cat(Lit('/'), q)), s)
    requires forall t :: Lang(q, t) ==> Lang(r, t)
    ensures Lang(Cat(Opt(DIRECTORIES), r), s)
  {
    var i :| 0 <= i <= |s| && Lang(Star(Dot), s[..i]) && Lang(Cat(Lit('/'), q), s[i..]);
    hide Lang;
    SlashComesNext(q, s, i);
    DirectoriesEndHere(s, i);
    CatLang(Opt(DIRECTORIES), r, s, i + 1);
  }

  lemma TreesAtDirectories(p: string)
    requires "**/" <= p
    ensures StewardTree(p) == Cat(Star(Dot), Cat(Lit('/'), StewardTree(p[3..])))
    ensures Tree(p) == Cat(Opt(DIRECTORIES), Tree(p[3..]))
  {
    assert p[2..][0] == '/' && p[2..][1..] == p[3..];
    assert "**" <= p && !("**" <= p[2..]);
  }

  lemma CatMonotone(a: Re, q: Re, r: Re, s: string)
    requires Lang(Cat(a, q), s) && forall t :: Lang(q, t) ==> Lang(r, t)
    ensures Lang(Cat(a, r), s)
  {
    var i :| 0 <= i <= |s| && Lang(a, s[..i]) && Lang(q, s[i..]);
    CatLang(a, r, s, i);
  }

  lemma {:induction false} Contained(p: string, s: string)
    requires PlainPattern(p) && Lang(StewardTree(p), s)
    ensures Lang(Tree(p), s)
    decreases |p|
  {
    if p == [] {
    } else if "**/" <= p {
      forall t | Lang(StewardTree(p[3..]), t) ensures Lang(Tree(p[3..]), t) {
        Contained(p[3..], t);
      }
      TreesAtDirectories(p);
      DirectoryFirst(StewardTree(p[3..]), Tree(p[3..]), s);
    } else if "**" <= p {
      forall t | Lang(StewardTree(p[2..]), t) ensures Lang(Tree(p[2..]), t) {
        Contained(p[2..], t);
      }
      CatMonotone(Star(Dot), StewardTree(p[2..]), Tree(p[2..]), s);
    } else {
      forall t | Lang(StewardTree(p[1..]), t) ensures Lang(Tree(p[1..]), t) {
        Contained(p[1..], t);
      }
      CatMonotone(if p[0] == '*' then Star(NotSlash) else Lit(p[0]), StewardTree(p[1..]), Tree(p[1..]), s);
    }
  }

  /** The path a pattern matches when every star and every directory is left empty. */
  function Shortest(p: string): string {
    if p == [] then []
    else if "**/" <= p then Shortest(p[3..])
    else if "**" <= p then Shortest(p[2..])
    else if p[0] == '*' then Shortest(p[1..])
    else [p[0]] + Shortest(p[1..])
  }

  lemma {:induction false} ShortestMatches(p: string)
    requires PlainPattern(p)
    ensures GlobMatch(p, Shortest(p))
    ensures Slashes(Shortest(p)) <= Slashes(p)
    ensures HasDirectories(p) ==> Slashes(Shortest(p)) < Slashes(p)
  {
    if p == [] {
    } else if "**/" <= p {
      ShortestMatches(p[3..]);
      assert p[1..][1..] == p[2..] && p[2..][1..] == p[3..];
      assert p[1..][0] == '*' && p[2..][0] == '/';
      assert Slashes(p) == Slashes(p[1..]) == Slashes(p[2..]) == 1 + Slashes(p[3..]);
    } else if "**" <= p {
      ShortestMatches(p[2..]);
      assert p[1..][1..] == p[2..] && p[1..][0] == '*';
      assert Slashes(p) == Slashes(p[1..]) == Slashes(p[2..]);
    } else {
      ShortestMatches(p[1..]);
      if p[0] != '*' {
        assert Shortest(p)[1..] == Shortest(p[1..]);
      }
    }
  }

  lemma {:induction false} SlashesAppend(a: string, b: string)
    ensures Slashes(a + b) == Slashes(a) + Slashes(b)
  {
    if a == [] {
      assert a + b == b;
    } else {
      assert (a + b)[1..] == a[1..] + b;
      SlashesAppend(a[1..], b);
    }
  }

  lemma StarHasNoSlash(p: string)
    requires p != [] && p[0] == '*'
    ensures Slashes(p) == Slashes(p[1..])
    ensures "**" <= p ==> Slashes(p) == Slashes(p[2..])
  {
    if "**" <= p {
      assert p[1..][0] == '*' && p[1..][1..] == p[2..];
    }
  }

  lemma SlashesBehind(s: string, i: nat)
    requires i <= |s|
    ensures Slashes(s) >= Slashes(s[i..])
  {
    SlashesAppend(s[..i], s[i..]);
    assert s == s[..i] + s[i..];
  }

  /** To the steward every slash of the pattern is one of the path. */
  lemma {:induction false} StewardKeepsSlashes(p: string, s: string)
    requires Lang(StewardTree(p), s)
    ensures Slashes(s) >= Slashes(p)
    decreases |p|
  {
    if p == [] {
    } else if "**" <= p || p[0] == '*' {
      var n := if "**" <= p then 2 else 1;
      var i := CatSplit(if "**" <= p then Star(Dot) else Star(NotSlash), StewardTree(p[n..]), s);
      hide Lang, StewardTree;
      StewardKeepsSlashes(p[n..], s[i..]);
      SlashesBehind(s, i);
      StarHasNoSlash(p);
    } else {
      OneCharLang(Lit(p[0]), StewardTree(p[1..]), s);
      StewardKeepsSlashes(p[1..], s[1..]);
    }
  }

  /** The patterns on which the two compilers can be compared. */
  ghost predicate Comparable(p: string) {
    PlainPattern(p) && !Collides(p) && Normalize(p) == p
  }

  ghost predicate StewardAccepts(p: string, path: string) {
    Test(Compile(p), path)
  }

  ghost predicate OnePassAccepts(p: string, path: string) {
    Test("^" + Body(Normalize(p)) + "$", path)
  }

  lemma Acceptance(p: string, path: string)
    requires Comparable(p)
    ensures StewardAccepts(p, path) <==> Lang(StewardTree(p), path)
    ensures OnePassAccepts(p, path) <==> Lang(Tree(p), path)
  {
    PassesAreIntended(p);
    IntendedParses(p);
    AnchoredParses(Intended(p), StewardTree(p));
    BodyParses(p);
    AnchoredParses(Body(p), Tree(p));
  }

  /** Whatever the steward's expression accepts, the one-pass compiler's expression accepts. */
  lemma StewardIsContained(p: string, path: string)
    requires Comparable(p) && StewardAccepts(p, path)
    ensures OnePassAccepts(p, path)
  {
    Acceptance(p, path);
    Contained(p, path);
  }

  /** The two accept the same paths if and only if no `**` of the pattern has a slash behind it. */
  lemma CompilersAgreeExactlyWhen(p: string)
    requires Comparable(p)
    ensures (forall path :: StewardAccepts(p, path) <==> OnePassAccepts(p, path)) <==> !HasDirectories(p)
  {
    if HasDirectories(p) {
      var path := Shortest(p);
      ShortestMatches(p);
      TreeMatches(p, path);
      Acceptance(p, path);
      if StewardAccepts(p, path) {
        StewardKeepsSlashes(p, path);
      }
      assert OnePassAccepts(p, path) && !StewardAccepts(p, path);
    } else {
      SameTrees(p);
      forall path ensures StewardAccepts(p, path) <==> OnePassAccepts(p, path) {
        Acceptance(p, path);
      }
    }
  }
}
