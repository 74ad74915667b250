/**
 The part of JavaScript's regular expressions that the glob compilers emit: their text is
 parsed into a syntax tree, and a tree denotes a language.
 */
module Regex {
  import opened Prelude

  datatype Re =
    | Eps
    | Lit(c: char)
    | Dot
    | NotSlash
    | Star(re: Re)
    | Opt(re: Re)
    | Cat(first: Re, second: Re)

  /** The characters `.` does not match. */
  predicate IsNewline(c: char) {
    c == '\n' || c == '\r' || c == '\U{2028}' || c == '\U{2029}'
  }

  ghost predicate Lang(re: Re, s: string)
    decreases re, |s|
  {
    match re
    case Eps => s == []
    case Lit(c) => s == [c]
    case Dot => |s| == 1 && !IsNewline(s[0])
    case NotSlash => |s| == 1 && s[0] != '/'
    case Star(r) => s == [] || exists i :: 0 < i <= |s| && Lang(r, s[..i]) && Lang(re, s[i..])
    case Opt(r) => s == [] || Lang(r, s)
    case Cat(a, b) => exists i :: 0 <= i <= |s| && Lang(a, s[..i]) && Lang(b, s[i..])
  }

  /** SyntaxCharacter of the ECMAScript grammar. */
  predicate IsSyntax(c: char) {
    c in "^$\\.*+?()[]{}|"
  }

  datatype Parsed = Parsed(re: Re, rest: string)

  /** One atom: an escaped syntax character, `.`, `[^/]`, a non-capturing group or a literal. */
  function ParseAtom(t: string): (r: Option<Parsed>)
    requires t != []
    ensures r.Some? ==> |r.value.rest| < |t|
    decreases |t|, 0
  {
    if t[0] == '\\' then
      if |t| > 1 && IsSyntax(t[1]) then Some(Parsed(Lit(t[1]), t[2..])) else None
    else if t[0] == '.' then Some(Parsed(Dot, t[1..]))
    else if "[^/]" <= t then Some(Parsed(NotSlash, t[4..]))
    else if "(?:" <= t then
      var group := ParseTerms(t[3..]);
      if group.Some? && group.value.rest != [] && group.value.rest[0] == ')'
      then Some(Parsed(group.value.re, group.value.rest[1..])) else None
    else if IsSyntax(t[0]) then None
    else Some(Parsed(Lit(t[0]), t[1..]))
  }

  /** Atoms with their quantifiers, up to the end of the text or of the group. */
  function ParseTerms(t: string): (r: Option<Parsed>)
    ensures r.Some? ==> |r.value.rest| <= |t|
    decreases |t|, 1
  {
    if t == [] || t[0] == ')' then Some(Parsed(Eps, t))
    else
      var atom := ParseAtom(t);
      if atom.None? then None
      else
        var q := Quantified(atom.value);
        if q.None? then None
        else
          var more := ParseTerms(q.value.rest);
          if more.None? then None else Some(Parsed(Cat(q.value.re, more.value.re), more.value.rest))
  }

  function Quantified(atom: Parsed): (r: Option<Parsed>)
    ensures r.Some? ==> |r.value.rest| <= |atom.rest|
  {
    if atom.rest == [] then Some(atom)
    else if atom.rest[0] == '*' then Some(Parsed(Star(atom.re), atom.rest[1..]))
    else if atom.rest[0] == '?' then Some(Parsed(Opt(atom.re), atom.rest[1..]))
    else if atom.rest[0] == '+' || atom.rest[0] == '{' then None
    else Some(atom)
  }

  /** A whole expression between its anchors. */
  function ParseRegex(text: string): Option<Re> {
    if |text| >= 2 && text[0] == '^' && text[|text| - 1] == '$' then
      var body := ParseTerms(text[1..|text| - 1]);
      if body.Some? && body.value.rest == [] then Some(body.value.re) else None
    else None
  }

  /** RegExp.prototype.test on an anchored expression. */
  ghost predicate Test(text: string, s: string) {
    ParseRegex(text).Some? && Lang(ParseRegex(text).value, s)
  }

  /** A text that may stand behind an atom without changing its meaning. */
  predicate NoQuantifier(t: string) {
    t == [] || t[0] !in "*?+{"
  }

  // ---- the languages of the pieces the compilers emit ----

  predicate NoNewline(s: string) {
    forall i :: 0 <= i < |s| ==> !IsNewline(s[i])
  }

  predicate NoSlash(s: string) {
    forall i :: 0 <= i < |s| ==> s[i] != '/'
  }

  /** `.` takes any one character but the four line terminators of ECMAScript. */
  lemma DotLang(c: char)
    ensures Lang(Dot, [c]) <==> c as int !in {0x0A, 0x0D, 0x2028, 0x2029}
  {
    assert [c][0] == c;
  }

  lemma {:induction false} StarDotLang(s: string)
    ensures Lang(Star(Dot), s) <==> NoNewline(s)
  {
    if s != [] {
      StarDotLang(s[1..]);
      assert s == [s[0]] + s[1..] && s[..1] == [s[0]];
      if NoNewline(s) {
        assert Lang(Dot, s[..1]) && Lang(Star(Dot), s[1..]);
      }
      if Lang(Star(Dot), s) {
        var i :| 0 < i <= |s| && Lang(Dot, s[..i]) && Lang(Star(Dot), s[i..]);
        assert i == 1;
      }
    }
  }

  lemma {:induction false} StarNotSlashLang(s: string)
    ensures Lang(Star(NotSlash), s) <==> NoSlash(s)
  {
    if s != [] {
      StarNotSlashLang(s[1..]);
      assert s == [s[0]] + s[1..] && s[..1] == [s[0]];
      if NoSlash(s) {
        assert Lang(NotSlash, s[..1]) && Lang(Star(NotSlash), s[1..]);
      }
      if Lang(Star(NotSlash), s) {
        var i :| 0 < i <= |s| && Lang(NotSlash, s[..i]) && Lang(Star(NotSlash), s[i..]);
        assert i == 1;
      }
    }
  }

  /** `.` any number of times, then a slash. */
  const DIRECTORIES := Cat(Star(Dot), Cat(Lit('/'), Eps))

  lemma DirectoriesLang(s: string)
    ensures Lang(DIRECTORIES, s) <==> s != [] && s[|s| - 1] == '/' && NoNewline(s[..|s| - 1])
  {
    hide Lang;
    if s != [] && s[|s| - 1] == '/' && NoNewline(s[..|s| - 1]) {
      var k := |s| - 1;
      StarDotLang(s[..k]);
      SlashLang(s[k..]);
      CatLang(Star(Dot), Cat(Lit('/'), Eps), s, k);
    }
    if Lang(DIRECTORIES, s) {
      var i := CatSplit(Star(Dot), Cat(Lit('/'), Eps), s);
      StarDotLang(s[..i]);
      SlashLang(s[i..]);
      assert s[i..][0] == s[i];
      assert i == |s| - 1;
    }
  }

  lemma CatLang(a: Re, b: Re, s: string, i: nat)
    requires i <= |s| && Lang(a, s[..i]) && Lang(b, s[i..])
    ensures Lang(Cat(a, b), s)
  {
  }

  lemma CatSplit(a: Re, b: Re, s: string) returns (i: nat)
    requires Lang(Cat(a, b), s)
    ensures i <= |s| && Lang(a, s[..i]) && Lang(b, s[i..])
  {
    i :| 0 <= i <= |s| && Lang(a, s[..i]) && Lang(b, s[i..]);
  }

  lemma SlashLang(s: string)
    ensures Lang(Cat(Lit('/'), Eps), s) <==> s == ['/']
  {
    if s == ['/'] {
      assert s[..1] == s && s[1..] == [];
      assert Lang(Lit('/'), s[..1]) && Lang(Eps, s[1..]);
    }
    if Lang(Cat(Lit('/'), Eps), s) {
      var i :| 0 <= i <= |s| && Lang(Lit('/'), s[..i]) && Lang(Eps, s[i..]);
      assert s == s[..i] + s[i..];
    }
  }

  /** A literal or a class in front takes exactly one character. */
  lemma OneCharLang(re: Re, rest: Re, s: string)
    requires re.Lit? || re.NotSlash? || re.Dot?
    ensures Lang(Cat(re, rest), s) <==> s != [] && Lang(re, [s[0]]) && Lang(rest, s[1..])
  {
    if s != [] && Lang(re, [s[0]]) && Lang(rest, s[1..]) {
      assert s[..1] == [s[0]];
    }
    if Lang(Cat(re, rest), s) {
      var i :| 0 <= i <= |s| && Lang(re, s[..i]) && Lang(rest, s[i..]);
      assert |s[..i]| == 1;
      assert s[..i] == [s[0]];
    }
  }
}
