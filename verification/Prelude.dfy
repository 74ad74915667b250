/** Result types and byte-string helpers shared by the other modules. */
module Prelude {

  datatype Option<+T> = None | Some(value: T)

  /** A value, or the message of the error the source throws. */
  datatype Result<+T> = Ok(value: T) | Err(error: string) {
    predicate IsFailure() {
      Err?
    }

    function PropagateFailure<U>(): Result<U>
      requires IsFailure()
    {
      Err(error)
    }

    function Extract(): T
      requires !IsFailure()
    {
      value
    }
  }

  function Min(a: int, b: int): int {
    if a <= b then a else b
  }

  function Max(a: int, b: int): int {
    if a >= b then a else b
  }

  // ---- String.prototype.trim ----

  predicate IsSpace(c: char) {
    || c in " \t\n\r"
    || c in ['\U{B}', '\U{C}', '\U{A0}', '\U{FEFF}', '\U{2028}', '\U{2029}']
    || c in ['\U{1680}', '\U{202F}', '\U{205F}', '\U{3000}']
    || '\U{2000}' <= c <= '\U{200A}'
  }

  function TrimStart(s: string): string {
    if s != [] && IsSpace(s[0]) then TrimStart(s[1..]) else s
  }

  function TrimEnd(s: string): string {
    if s != [] && IsSpace(s[|s| - 1]) then TrimEnd(s[..|s| - 1]) else s
  }

  function Trim(s: string): string {
    TrimEnd(TrimStart(s))
  }

  /** White space and line terminators of ECMAScript, by code point. */
  lemma SpacesAre(c: char)
    ensures IsSpace(c) <==>
      var n := c as int;
      9 <= n <= 13 || n == 32 || n == 160 || n == 0x1680 || 0x2000 <= n <= 0x200A
      || n in {0x2028, 0x2029, 0x202F, 0x205F, 0x3000, 0xFEFF}
  {
  }

  lemma {:induction false} TrimEndCuts(s: string) returns (k: nat)
    ensures k <= |s| && TrimEnd(s) == s[..k] && (k > 0 ==> !IsSpace(s[k - 1]))
    ensures forall i :: k <= i < |s| ==> IsSpace(s[i])
  {
    if s != [] && IsSpace(s[|s| - 1]) {
      k := TrimEndCuts(s[..|s| - 1]);
      assert s[..|s| - 1][..k] == s[..k];
      assert forall i :: 0 <= i < |s| - 1 ==> s[..|s| - 1][i] == s[i];
    } else {
      k := |s|;
      TakeAll(s);
    }
  }

  lemma {:induction false} TrimStartCuts(s: string) returns (j: nat)
    ensures j <= |s| && TrimStart(s) == s[j..] && (j < |s| ==> !IsSpace(s[j]))
    ensures forall i :: 0 <= i < j ==> IsSpace(s[i])
  {
    if s != [] && IsSpace(s[0]) {
      j := TrimStartCuts(s[1..]);
      assert s[1..][j..] == s[j + 1..];
      var tail := s[1..];
      assert forall i :: 0 <= i < |tail| ==> tail[i] == s[i + 1];
      forall i | 0 <= i < j + 1 ensures IsSpace(s[i]) {
        assert i > 0 ==> tail[i - 1] == s[i];
      }
      j := j + 1;
    } else {
      j := 0;
      assert s[0..] == s;
    }
  }

  /** `t` is `s` from `j` up to `k`, with white space on both sides and none at its own ends. */
  ghost predicate CutsTo(s: string, t: string, j: int, k: int) {
    && 0 <= j <= k <= |s| && t == s[j..k]
    && (forall i :: 0 <= i < j || k <= i < |s| ==> IsSpace(s[i]))
    && (j < k ==> !IsSpace(s[j]) && !IsSpace(s[k - 1]))
  }

  /** `t` is `s` without the white space at both ends. */
  ghost predicate TrimsTo(s: string, t: string) {
    exists j, k :: CutsTo(s, t, j, k)
  }

  lemma TrimTrims(s: string)
    ensures TrimsTo(s, Trim(s))
  {
    var j := TrimStartCuts(s);
    var rest := s[j..];
    var k := TrimEndCuts(rest);
    hide IsSpace;
    assert rest[..k] == s[j..j + k];
    assert forall i :: 0 <= i < |rest| ==> rest[i] == s[j + i];
    forall i | j + k <= i < |s| ensures IsSpace(s[i]) {
      assert rest[i - j] == s[i];
    }
    if k > 0 {
      assert s[j] == rest[0] && s[j + k - 1] == rest[k - 1];
    }
    assert CutsTo(s, Trim(s), j, j + k);
  }

  lemma SameCut(s: string, t: string, j: int, k: int, t': string, j': int, k': int)
    requires CutsTo(s, t, j, k) && CutsTo(s, t', j', k')
    ensures t == t'
  {
    hide IsSpace;
    if j < k && j' < k' {
      assert j == j' && k == k';
    }
  }

  /** Only `Trim(s)` is `s` without the white space at its ends. */
  lemma TrimIsUnique(s: string, t: string)
    ensures TrimsTo(s, t) <==> t == Trim(s)
  {
    TrimTrims(s);
    hide CutsTo, Trim;
    var j', k' :| CutsTo(s, Trim(s), j', k');
    if j, k :| CutsTo(s, t, j, k) {
      SameCut(s, t, j, k, Trim(s), j', k');
    }
  }

  /** Every backslash as a slash. */
  function ToPosix(s: string): (r: string)
    ensures |r| == |s| && forall i :: 0 <= i < |s| ==> r[i] == if s[i] == '\\' then '/' else s[i]
  {
    seq(|s|, i requires 0 <= i < |s| => if s[i] == '\\' then '/' else s[i])
  }

  /** `x` repeated `n` times. */
  function Repeat<T>(x: T, n: nat): (s: seq<T>)
    ensures |s| == n && forall i :: 0 <= i < n ==> s[i] == x
  {
    seq(n, _ => x)
  }

  /** The parts of `parts`, one after the other. */
  function Flatten<T>(parts: seq<seq<T>>): seq<T> {
    if parts == [] then [] else parts[0] + Flatten(parts[1..])
  }

  lemma {:induction false} FlattenAppend<T>(a: seq<seq<T>>, b: seq<seq<T>>)
    ensures Flatten(a + b) == Flatten(a) + Flatten(b)
  {
    if a == [] {
      assert a + b == b;
    } else {
      assert (a + b)[0] == a[0] && (a + b)[1..] == a[1..] + b;
      FlattenAppend(a[1..], b);
      Assoc(a[0], Flatten(a[1..]), Flatten(b));
    }
  }

  lemma Assoc<T>(a: seq<T>, b: seq<T>, c: seq<T>)
    ensures (a + b) + c == a + (b + c)
  {
  }

  lemma TakeNext<T>(s: seq<T>, k: nat)
    requires k < |s|
    ensures s[..k + 1] == s[..k] + [s[k]]
  {
  }

  lemma InitOfAppend<T>(a: seq<T>, b: seq<T>)
    requires b != []
    ensures (a + b)[..|a + b| - 1] == a + b[..|b| - 1]
  {
  }

  lemma InitAndLast<T>(s: seq<T>)
    requires s != []
    ensures s == s[..|s| - 1] + [s[|s| - 1]]
  {
  }

  lemma TakeAll<T>(s: seq<T>)
    ensures s[..|s|] == s && s[|s|..] == []
  {
  }

  lemma FlattenSingle<T>(p: seq<T>)
    ensures Flatten([p]) == p
  {
    assert [p][1..] == [];
  }

  lemma FlattenPush<T>(chunks: seq<seq<T>>, a: seq<T>, b: seq<T>)
    ensures Flatten(chunks + [a] + [b]) == Flatten(chunks) + (a + b)
  {
    FlattenAppend(chunks + [a], [b]);
    FlattenAppend(chunks, [a]);
    FlattenSingle(a);
    FlattenSingle(b);
  }
}
