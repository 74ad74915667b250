/**
 A reader of the "ustar Interchange Format" (POSIX.1, IEEE Std 1003.1, pax utility) written
 from the field table of that format, and the proof that it undoes the writer.
 */
module UstarReader {
  import opened Prelude
  import opened Ustar

  datatype Meta = Meta(path: Bytes, size: nat)
  datatype Archive = Archive(files: seq<File>, rest: Bytes)

  /** A string field ends at its first NUL, or fills the field. */
  function CString(field: Bytes): Bytes {
    if field == [] || field[0] == 0 then [] else [field[0]] + CString(field[1..])
  }

  predicate IsTerminator(b: Byte) { b == 0 || b == 32 }

  predicate IsOctalDigit(b: Byte) { 48 <= b <= 55 }

  /** Octal digits, the most significant first, ended by a NUL or a space. */
  function ReadDigits(field: Bytes, acc: nat): Option<nat> {
    if field == [] then None
    else if IsTerminator(field[0]) then Some(acc)
    else if IsOctalDigit(field[0]) then ReadDigits(field[1..], 8 * acc + (field[0] - 48))
    else None
  }

  function ReadOctal(field: Bytes): Option<nat> {
    if field == [] || IsTerminator(field[0]) then None else ReadDigits(field, 0)
  }

  predicate ChecksumVerifies(block: Bytes)
    requires |block| == 512
  {
    ReadOctal(block[148..156]) == Some(Sum(block[..148]) + 8 * 32 + Sum(block[156..]))
  }

  function ReadPath(block: Bytes): Bytes
    requires |block| == 512
  {
    var name, prefix := CString(block[0..100]), CString(block[345..500]);
    if prefix == [] then name else prefix + [47] + name
  }

  function ReadHeader(block: Bytes): Option<Meta>
    requires |block| == 512
  {
    var size := ReadOctal(block[124..136]);
    if block[257..263] == [117, 115, 116, 97, 114, 0] && block[263..265] == [48, 48] && block[156..157] == [48]
       && ChecksumVerifies(block) && size.Some?
    then Some(Meta(ReadPath(block), size.value))
    else None
  }

  predicate IsZeroBlock(block: Bytes) {
    forall i :: 0 <= i < |block| ==> block[i] == 0
  }

  /** The space that `size` bytes of content take in whole blocks. */
  function Blocks(size: nat): (n: nat)
    ensures size <= n
  {
    (size + 511) / 512 * 512
  }

  /**
   Entries up to the two zero blocks, and whatever follows these. The reader is strict: what
   fills up the last block of a content has to be zero.
   */
  function ReadArchive(image: Bytes): Option<Archive>
    decreases |image|
  {
    if |image| < 512 then None
    else if IsZeroBlock(image[..512]) then
      if |image| >= 1024 && IsZeroBlock(image[512..1024]) then Some(Archive([], image[1024..])) else None
    else
      var meta := ReadHeader(image[..512]);
      if meta.None? || |image| < 512 + Blocks(meta.value.size) then None
      else
        var content := image[512..512 + meta.value.size];
        var padding := image[512 + meta.value.size..512 + Blocks(meta.value.size)];
        var tail := ReadArchive(image[512 + Blocks(meta.value.size)..]);
        if tail.None? || !IsZeroBlock(padding) then None
        else Some(Archive([File(meta.value.path, content)] + tail.value.files, tail.value.rest))
  }

  // ---- octal fields ----

  predicate AllDigits(s: Bytes) {
    forall i :: 0 <= i < |s| ==> IsOctalDigit(s[i])
  }

  /** The number whose octal text is `s`, continued from `acc`. */
  function Eval(s: Bytes, acc: nat): nat
    requires AllDigits(s)
  {
    if s == [] then acc else Eval(s[1..], 8 * acc + (s[0] - 48))
  }

  lemma {:induction false} ReadDigitsOf(s: Bytes, rest: Bytes, acc: nat)
    requires AllDigits(s)
    ensures ReadDigits(s + rest, acc) == ReadDigits(rest, Eval(s, acc))
  {
    if s == [] {
      assert s + rest == rest;
    } else {
      assert (s + rest)[1..] == s[1..] + rest;
      ReadDigitsOf(s[1..], rest, 8 * acc + (s[0] - 48));
    }
  }

  lemma {:induction false} EvalAppend(a: Bytes, b: Bytes, acc: nat)
    requires AllDigits(a) && AllDigits(b)
    ensures AllDigits(a + b)
    ensures Eval(a + b, acc) == Eval(b, Eval(a, acc))
  {
    if a == [] {
      assert a + b == b;
    } else {
      assert (a + b)[1..] == a[1..] + b;
      EvalAppend(a[1..], b, 8 * acc + (a[0] - 48));
    }
  }

  lemma {:induction false} EvalToOctal(n: nat)
    ensures Eval(ToOctal(n), 0) == n
  {
    if n >= 8 {
      EvalToOctal(n / 8);
      EvalAppend(ToOctal(n / 8), [DIGIT0 + n % 8], 0);
    }
  }

  lemma {:induction false} EvalPadStart(n: nat, width: nat)
    ensures AllDigits(PadStart(ToOctal(n), width))
    ensures Eval(PadStart(ToOctal(n), width), 0) == n
    decreases width
  {
    EvalToOctal(n);
    var digits := ToOctal(n);
    if width > |digits| {
      EvalPadStart(n, width - 1);
      assert PadStart(digits, width) == [DIGIT0] + PadStart(digits, width - 1);
    }
  }

  lemma {:induction false} OctalWidth(n: nat, width: nat)
    requires width >= 1
    ensures |ToOctal(n)| <= width <==> n < Pow8(width)
  {
    if n >= 8 && width > 1 {
      OctalWidth(n / 8, width - 1);
    } else {
      assert Pow8(1) == 8 * Pow8(0);
    }
    if width > 1 {
      assert Pow8(width) == 8 * Pow8(width - 1) >= 8;
    }
  }

  /**
   A numeric field reads back as the number that was written exactly when the number fits
   the digits of the field; a larger one is cut off and leaves no terminator.
   */
  lemma NumberReadsBack(value: nat, digits: nat)
    requires digits >= 1
    ensures ReadOctal(Fill(Number(value, digits).Content(), digits + 1))
         == if value < Pow8(digits) then Some(value) else None
  {
    OctalWidth(value, digits);
    EvalPadStart(value, digits);
    var text := PadStart(ToOctal(value), digits);
    if value < Pow8(digits) {
      assert Fill(text + [NUL], digits + 1) == text + [NUL];
      ReadDigitsOf(text, [NUL], 0);
    } else {
      var cut := text[..digits + 1];
      assert Fill(text + [NUL], digits + 1) == cut + [];
      ReadDigitsOf(cut, [], 0);
    }
  }

  // ---- sums ----

  lemma {:induction false} SumAppend(a: Bytes, b: Bytes)
    ensures Sum(a + b) == Sum(a) + Sum(b)
  {
    if b == [] {
      assert a + b == a;
    } else {
      assert (a + b)[..|a + b| - 1] == a + b[..|b| - 1];
      SumAppend(a, b[..|b| - 1]);
    }
  }

  lemma {:induction false} SumBound(s: Bytes)
    ensures Sum(s) <= 255 * |s|
  {
    if s != [] {
      SumBound(s[..|s| - 1]);
    }
  }

  lemma {:induction false} SumSpaces(n: nat)
    requires n <= 8
    ensures Sum(CHECKSUM_SPACES[..n]) == 32 * n
  {
    if n > 0 {
      assert CHECKSUM_SPACES[..n][..n - 1] == CHECKSUM_SPACES[..n - 1];
      SumSpaces(n - 1);
    }
  }

  // ---- headers ----

  lemma {:induction false} CStringPadded(s: Bytes, n: nat)
    ensures CString(s + Zeros(n)) == CString(s)
    ensures (CString(s) == s) <==> NUL !in s
    ensures NUL !in CString(s)
  {
    if s == [] {
    } else {
      assert (s + Zeros(n))[1..] == s[1..] + Zeros(n);
      CStringPadded(s[1..], n);
      assert s == [s[0]] + s[1..];
    }
  }

  /** The checksum always fits six octal digits, so its field is digits, a NUL and a space. */
  lemma ChecksumFits(name: Bytes, prefix: Bytes, size: nat)
    ensures var checksum := HeaderChecksum(name, prefix, size);
      && checksum <= 512 * 255 < Pow8(6)
      && |ChecksumText(checksum)| == 8 && ReadOctal(Fill(ChecksumText(checksum), 8)) == Some(checksum)
  {
    var checksum := HeaderChecksum(name, prefix, size);
    HeaderParts(name, prefix, size, CHECKSUM_SPACES);
    SumBound(Layout(HeaderFields(name, prefix, size, CHECKSUM_SPACES)));
    assert Pow8(6) == 262144 by {
      assert Pow8(3) == 512;
      assert Pow8(6) == 8 * (8 * (8 * Pow8(3)));
    }
    OctalWidth(checksum, 6);
    EvalPadStart(checksum, 6);
    var digits := PadStart(ToOctal(checksum), 6);
    assert Fill(ChecksumText(checksum), 8) == digits + [NUL, SPACE];
    ReadDigitsOf(digits, [NUL, SPACE], 0);
  }

  /** The k-th field stands between the widths of the fields before it and its own. */
  lemma FieldAt(fields: seq<Field>, k: nat, offset: nat)
    requires k < |fields| && offset == Width(fields[..k])
    ensures offset + fields[k].Size() <= |Layout(fields)|
    ensures Layout(fields)[offset..offset + fields[k].Size()] == Fill(fields[k].Content(), fields[k].Size())
  {
    var a, b, c := fields[..k], fields[k], fields[k + 1..];
    assert fields == (a + [b]) + c;
    LayoutAppend(a + [b], c);
    LayoutPush(a, b);
    Middle(Layout(a), Fill(b.Content(), b.Size()), Layout(c));
  }

  lemma Middle<T>(a: seq<T>, b: seq<T>, c: seq<T>)
    ensures (a + b + c)[|a|..|a| + |b|] == b
  {
  }

  lemma BlockParts(first: Bytes, checksum: Bytes, last: Bytes)
    requires |first| == 148 && |checksum| == 8 && |last| == 356
    ensures var h := first + checksum + last;
      && h[..148] == first && h[148..156] == checksum && h[156..] == last
      && h[0..100] == first[0..100] && h[124..136] == first[124..136]
      && h[156..157] == last[0..1] && h[257..263] == last[101..107] && h[263..265] == last[107..109]
      && h[345..500] == last[189..344]
  {
  }

  lemma FirstParts(name: Bytes, size: nat)
    ensures var first := Layout(FirstFields(name, size));
      && |first| == 148 && first[0..100] == Fill(name, 100) && first[124..136] == Fill(Number(size, 11).Content(), 12)
  {
    FirstWidths(name, size);
    FieldAt(FirstFields(name, size), 0, 0);
    FieldAt(FirstFields(name, size), 4, 124);
  }

  lemma LastParts(prefix: Bytes)
    ensures var last := Layout(LastFields(prefix));
      && |last| == 356 && last[0..1] == TYPE_REGULAR && last[101..107] == MAGIC && last[107..109] == VERSION
      && last[189..344] == Fill(prefix, 155)
  {
    LastWidths(prefix);
    FieldAt(LastFields(prefix), 0, 0);
    FieldAt(LastFields(prefix), 2, 101);
    FieldAt(LastFields(prefix), 3, 107);
    FieldAt(LastFields(prefix), 5, 189);
    FillExact(TYPE_REGULAR);
    FillExact(MAGIC);
    FillExact(VERSION);
  }

  lemma FillExact(s: Bytes)
    ensures Fill(s, |s|) == s
  {
  }

  /** What the reader needs to find in a block. */
  ghost predicate HoldsFields(h: Bytes, name: Bytes, prefix: Bytes, size: nat) {
    && |h| == 512 && ChecksumVerifies(h)
    && h[0..100] == Fill(name, 100) && h[345..500] == Fill(prefix, 155)
    && h[124..136] == Fill(Number(size, 11).Content(), 12)
    && h[156..157] == [48] && h[257..263] == MAGIC && h[263..265] == VERSION
  }

  lemma ChecksumHolds(h: Bytes, first: Bytes, last: Bytes, field: Bytes, checksum: nat)
    requires |first| == 148 && |field| == 8 && |last| == 356 && h == first + field + last
    requires checksum == Sum(first + CHECKSUM_SPACES + last) && ReadOctal(field) == Some(checksum)
    ensures ChecksumVerifies(h)
  {
    BlockParts(first, field, last);
    SumAppend(first + CHECKSUM_SPACES, last);
    SumAppend(first, CHECKSUM_SPACES);
    SumSpaces(8);
    TakeAll(CHECKSUM_SPACES);
  }

  /** The stored checksum is the sum the reader takes over the finished block. */
  lemma WrittenChecksumVerifies(name: Bytes, prefix: Bytes, size: nat)
    ensures |Header(name, prefix, size)| == 512 && ChecksumVerifies(Header(name, prefix, size))
  {
    var checksum := HeaderChecksum(name, prefix, size);
    ChecksumFits(name, prefix, size);
    HeaderParts(name, prefix, size, CHECKSUM_SPACES);
    HeaderParts(name, prefix, size, ChecksumText(checksum));
    FillExact(CHECKSUM_SPACES);
    FirstParts(name, size);
    LastParts(prefix);
    ChecksumHolds(Header(name, prefix, size), Layout(FirstFields(name, size)), Layout(LastFields(prefix)),
                  Fill(ChecksumText(checksum), 8), checksum);
  }

  lemma HeaderHoldsFields(name: Bytes, prefix: Bytes, size: nat)
    ensures HoldsFields(Header(name, prefix, size), name, prefix, size)
  {
    var checksum := ChecksumText(HeaderChecksum(name, prefix, size));
    HeaderParts(name, prefix, size, checksum);
    FirstParts(name, size);
    LastParts(prefix);
    BlockParts(Layout(FirstFields(name, size)), Fill(checksum, 8), Layout(LastFields(prefix)));
    WrittenChecksumVerifies(name, prefix, size);
  }

  lemma BlockSlices(first: Bytes, checksum: Bytes, last: Bytes)
    requires |first| == 148 && |checksum| == 8 && |last| == 356
    ensures var h := first + checksum + last;
      && h[100..108] == first[100..108] && h[108..116] == first[108..116] && h[116..124] == first[116..124]
      && h[136..148] == first[136..148] && h[157..257] == last[1..101] && h[265..345] == last[109..189]
      && h[500..512] == last[344..356]
  {
  }

  lemma NumberAt(fields: seq<Field>, k: nat, offset: nat, value: nat, digits: nat)
    requires k < |fields| && offset == Width(fields[..k]) && fields[k] == Number(value, digits)
    requires digits >= 1 && value < Pow8(digits)
    ensures offset + digits + 1 <= |Layout(fields)|
    ensures ReadOctal(Layout(fields)[offset..offset + digits + 1]) == Some(value)
  {
    hide *;
    NumberSize(value, digits);
    FieldAt(fields, k, offset);
    NumberReadsBack(value, digits);
  }

  lemma NumberSize(value: nat, digits: nat)
    ensures Number(value, digits).Size() == digits + 1
  {
  }

  lemma ModeFits()
    ensures FILE_MODE == 420 < Pow8(7)
  {
    assert Pow8(7) == 8 * (8 * (8 * Pow8(4)));
  }

  lemma FixedFirstParts(name: Bytes, size: nat)
    ensures var first := Layout(FirstFields(name, size));
      && |first| == 148 && ReadOctal(first[100..108]) == Some(420) && ReadOctal(first[108..116]) == Some(0)
      && ReadOctal(first[116..124]) == Some(0) && ReadOctal(first[136..148]) == Some(0)
  {
    var f := FirstFields(name, size);
    FirstWidths(name, size);
    WidthStep(f, 0);
    WidthStep(f, 1);
    WidthStep(f, 2);
    WidthStep(f, 4);
    hide Layout, Width, ReadOctal, Pow8;
    ModeFits();
    NumberAt(f, 1, 100, 420, 7);
    NumberAt(f, 2, 108, 0, 7);
    NumberAt(f, 3, 116, 0, 7);
    NumberAt(f, 5, 136, 0, 11);
  }

  lemma FixedLastParts(prefix: Bytes)
    ensures var last := Layout(LastFields(prefix));
      && |last| == 356 && last[1..101] == Zeros(100) && last[109..189] == Zeros(80) && last[344..356] == Zeros(12)
  {
    var f := LastFields(prefix);
    LastWidths(prefix);
    WidthStep(f, 0);
    WidthStep(f, 3);
    WidthStep(f, 5);
    hide Layout, Width, Fill;
    EmptyAt(f, 1, 1, 100);
    EmptyAt(f, 4, 109, 80);
    EmptyAt(f, 6, 344, 12);
  }

  lemma EmptyAt(fields: seq<Field>, k: nat, offset: nat, width: nat)
    requires k < |fields| && offset == Width(fields[..k]) && fields[k] == Text([], width)
    ensures offset + width <= |Layout(fields)| && Layout(fields)[offset..offset + width] == Zeros(width)
  {
    FieldAt(fields, k, offset);
    assert Fill([], width) == Zeros(width);
    hide Layout, Width;
  }

  ghost predicate IsNormalized(h: Bytes) {
    && |h| == 512 && ReadOctal(h[100..108]) == Some(420) && ReadOctal(h[108..116]) == Some(0)
    && ReadOctal(h[116..124]) == Some(0) && ReadOctal(h[136..148]) == Some(0)
    && IsZeroBlock(h[157..257]) && IsZeroBlock(h[265..345]) && IsZeroBlock(h[500..512])
  }

  lemma NormalizedParts(first: Bytes, checksum: Bytes, last: Bytes)
    requires |first| == 148 && |checksum| == 8 && |last| == 356
    requires ReadOctal(first[100..108]) == Some(420) && ReadOctal(first[108..116]) == Some(0)
    requires ReadOctal(first[116..124]) == Some(0) && ReadOctal(first[136..148]) == Some(0)
    requires last[1..101] == Zeros(100) && last[109..189] == Zeros(80) && last[344..356] == Zeros(12)
    ensures IsNormalized(first + checksum + last)
  {
    hide ReadOctal;
    BlockSlices(first, checksum, last);
  }

  /** Mode 0644, owner, group and time zero, and no link, owner or group name: headers depend on path and size only. */
  lemma HeaderIsNormalized(name: Bytes, prefix: Bytes, size: nat)
    ensures IsNormalized(Header(name, prefix, size))
  {
    var checksum := ChecksumText(HeaderChecksum(name, prefix, size));
    HeaderParts(name, prefix, size, checksum);
    hide Layout, Fill, ReadOctal, IsNormalized;
    FixedFirstParts(name, size);
    FixedLastParts(prefix);
    NormalizedParts(Layout(FirstFields(name, size)), Fill(checksum, 8), Layout(LastFields(prefix)));
  }

  /** Octal digits up to a NUL in the last place. */
  predicate IsTerminated(field: Bytes) {
    field != [] && field[|field| - 1] == 0 && AllDigits(field[..|field| - 1])
  }

  lemma NumberBytes(value: nat, digits: nat)
    requires digits >= 1 && value < Pow8(digits)
    ensures IsTerminated(Fill(Number(value, digits).Content(), digits + 1))
  {
    OctalWidth(value, digits);
    EvalPadStart(value, digits);
    var text := PadStart(ToOctal(value), digits);
    assert (text + [NUL])[..digits] == text;
    assert Fill(text + [NUL], digits + 1) == text + [NUL];
  }

  lemma NumberBytesAt(fields: seq<Field>, k: nat, offset: nat, value: nat, digits: nat)
    requires k < |fields| && offset == Width(fields[..k]) && fields[k] == Number(value, digits)
    requires digits >= 1 && value < Pow8(digits)
    ensures offset + digits + 1 <= |Layout(fields)|
    ensures IsTerminated(Layout(fields)[offset..offset + digits + 1])
  {
    hide *;
    NumberSize(value, digits);
    FieldAt(fields, k, offset);
    NumberBytes(value, digits);
  }

  lemma FirstNumberBytes(name: Bytes, size: nat)
    requires size < Pow8(11)
    ensures var first := Layout(FirstFields(name, size));
      && |first| == 148 && IsTerminated(first[100..108]) && IsTerminated(first[108..116])
      && IsTerminated(first[116..124]) && IsTerminated(first[124..136]) && IsTerminated(first[136..148])
  {
    var f := FirstFields(name, size);
    FirstWidths(name, size);
    WidthStep(f, 0);
    WidthStep(f, 1);
    WidthStep(f, 2);
    WidthStep(f, 4);
    hide Layout, Width, IsTerminated, Pow8;
    ModeFits();
    NumberBytesAt(f, 1, 100, 420, 7);
    NumberBytesAt(f, 2, 108, 0, 7);
    NumberBytesAt(f, 3, 116, 0, 7);
    NumberBytesAt(f, 4, 124, size, 11);
    NumberBytesAt(f, 5, 136, 0, 11);
  }

  lemma ChecksumBytes(name: Bytes, prefix: Bytes, size: nat)
    ensures var field := Fill(ChecksumText(HeaderChecksum(name, prefix, size)), 8);
      IsTerminated(field[..7]) && field[7] == 32
  {
    var checksum := HeaderChecksum(name, prefix, size);
    ChecksumFits(name, prefix, size);
    OctalWidth(checksum, 6);
    EvalPadStart(checksum, 6);
    var digits := PadStart(ToOctal(checksum), 6);
    var text := digits + [NUL, SPACE];
    assert |digits| == 6 && text[..7][..6] == digits;
    assert Fill(ChecksumText(checksum), 8) == text;
  }

  ghost predicate NumbersTerminated(h: Bytes) {
    && |h| == 512 && IsTerminated(h[100..108]) && IsTerminated(h[108..116]) && IsTerminated(h[116..124])
    && IsTerminated(h[124..136]) && IsTerminated(h[136..148]) && IsTerminated(h[148..156][..7]) && h[148..156][7] == 32
  }

  lemma TerminatedParts(first: Bytes, checksum: Bytes, last: Bytes)
    requires |first| == 148 && |checksum| == 8 && |last| == 356
    requires IsTerminated(first[100..108]) && IsTerminated(first[108..116]) && IsTerminated(first[116..124])
    requires IsTerminated(first[124..136]) && IsTerminated(first[136..148])
    requires IsTerminated(checksum[..7]) && checksum[7] == 32
    ensures NumbersTerminated(first + checksum + last)
  {
    hide IsTerminated;
    BlockParts(first, checksum, last);
    BlockSlices(first, checksum, last);
  }

  /** Every number in a header is octal digits up to a NUL in its last place; the checksum is six digits, a NUL and a space. */
  lemma NumbersAreTerminated(name: Bytes, prefix: Bytes, size: nat)
    requires size < Pow8(11)
    ensures NumbersTerminated(Header(name, prefix, size))
  {
    var checksum := ChecksumText(HeaderChecksum(name, prefix, size));
    HeaderParts(name, prefix, size, checksum);
    LastWidths(prefix);
    hide Layout, Fill, IsTerminated, NumbersTerminated, Pow8;
    FirstNumberBytes(name, size);
    ChecksumBytes(name, prefix, size);
    TerminatedParts(Layout(FirstFields(name, size)), Fill(checksum, 8), Layout(LastFields(prefix)));
  }

  lemma JoinedAtSlash(prefix: Bytes, name: Bytes)
    requires 47 !in name
    ensures var path := prefix + [47] + name;
      LastSlash(path, |path|) == |prefix| && path[..|prefix|] == prefix && path[|prefix| + 1..] == name
  {
    var path := prefix + [47] + name;
    assert path[|prefix|] == 47;
    forall j | |prefix| < j < |path| ensures path[j] != 47 {
      assert path[j] == name[j - |prefix| - 1];
    }
    assert path[|prefix| + 1..] == name;
  }

  lemma CutRebuilds<T>(s: seq<T>, i: nat, x: T)
    requires i < |s| && forall j :: i < j < |s| ==> s[j] != x
    ensures s == s[..i] + [s[i]] + s[i + 1..] && x !in s[i + 1..]
  {
  }

  lemma CutAtSlash(path: Bytes)
    requires LastSlash(path, |path|) >= 0
    ensures var i := LastSlash(path, |path|); path == path[..i] + [47] + path[i + 1..] && 47 !in path[i + 1..]
  {
    CutRebuilds(path, LastSlash(path, |path|), 47);
    hide LastSlash;
  }

  /**
   Which paths the builder takes and how it splits them: up to 100 bytes as they are; longer ones at their
   last slash, if that is not the first byte and leaves at most 155 bytes before it and 100 behind it.
   */
  lemma SplitExactlyWhen(path: Bytes, name: Bytes, prefix: Bytes)
    ensures SplitPath(path) == Ok(Split(name, prefix))
      <==> if |path| <= 100 then name == path && prefix == []
           else 1 <= |prefix| <= 155 && |name| <= 100 && path == prefix + [47] + name && 47 !in name
  {
    if |path| > 100 {
      if LastSlash(path, |path|) >= 0 {
        CutAtSlash(path);
      }
      if path == prefix + [47] + name && 47 !in name {
        JoinedAtSlash(prefix, name);
      }
      hide LastSlash;
    }
  }

  lemma CStringFill(s: Bytes, width: nat)
    requires |s| <= width
    ensures CString(Fill(s, width)) == CString(s)
  {
    CStringPadded(s, width - |s|);
  }

  /** prefix + "/" + name rebuilds every path the writer accepts, unless a NUL cuts it short. */
  lemma PathReadsBack(h: Bytes, path: Bytes, size: nat)
    requires SplitPath(path).Ok?
    requires HoldsFields(h, SplitPath(path).value.name, SplitPath(path).value.prefix, size)
    ensures ReadPath(h) == path <==> NUL !in path
  {
    var Split(name, prefix) := SplitPath(path).value;
    CStringFill(name, 100);
    CStringFill(prefix, 155);
    CStringPadded(name, 0);
    CStringPadded(prefix, 0);
    JoinedPath(path, CString(name), CString(prefix));
  }

  lemma JoinedPath(path: Bytes, name: Bytes, prefix: Bytes)
    requires SplitPath(path).Ok? && NUL !in name && NUL !in prefix
    requires name == SplitPath(path).value.name <==> NUL !in SplitPath(path).value.name
    requires prefix == SplitPath(path).value.prefix <==> NUL !in SplitPath(path).value.prefix
    ensures (if prefix == [] then name else prefix + [47] + name) == path <==> NUL !in path
  {
    var split := SplitPath(path).value;
    if split.prefix != [] {
      assert path == split.prefix + [47] + split.name;
    }
  }

  predicate Readable(file: File) {
    NUL !in file.path && |file.content| < Pow8(11)
  }

  lemma BlockReadsBack(h: Bytes, path: Bytes, size: nat)
    requires SplitPath(path).Ok?
    requires HoldsFields(h, SplitPath(path).value.name, SplitPath(path).value.prefix, size)
    ensures !IsZeroBlock(h)
    ensures ReadHeader(h) == if size < Pow8(11) then Some(Meta(ReadPath(h), size)) else None
  {
    NumberReadsBack(size, 11);
    assert h[156..157][0] == h[156];
  }

  /** A header block reads back as its path and size exactly for NUL-free paths and sizes below 8^11. */
  lemma HeaderReadsBack(path: Bytes, size: nat) returns (h: Bytes, read: Bytes)
    requires SplitPath(path).Ok?
    ensures h == HeaderFor(path, size) && |h| == 512 && !IsZeroBlock(h)
    ensures ReadHeader(h) == if size < Pow8(11) then Some(Meta(read, size)) else None
    ensures read == path <==> NUL !in path
  {
    h := HeaderFor(path, size);
    HeaderHoldsFields(SplitPath(path).value.name, SplitPath(path).value.prefix, size);
    BlockReadsBack(h, path, size);
    PathReadsBack(h, path, size);
    read := ReadPath(h);
  }

  // ---- archives ----

  function Renamed(paths: seq<Bytes>, files: seq<File>): (r: seq<File>)
    requires |paths| == |files|
    ensures |r| == |files|
  {
    seq(|files|, i requires 0 <= i < |files| => File(paths[i], files[i].content))
  }

  /** The archive read so far, with more files in front; a content of 8^11 bytes or more stops the reader. */
  ghost function ReadOn(paths: seq<Bytes>, files: seq<File>, tail: Option<Archive>): Option<Archive>
    requires |paths| == |files|
  {
    if (forall f :: f in files ==> |f.content| < Pow8(11)) && tail.Some?
    then Some(Archive(Renamed(paths, files) + tail.value.files, tail.value.rest))
    else None
  }

  /** What the reader makes of a block `h` that is not zero, followed by padded content. */
  lemma ReadBlocks(h: Bytes, path: Bytes, file: File, body: Bytes, tail: Bytes)
    requires |h| == 512 && !IsZeroBlock(h)
    requires ReadHeader(h) == if |file.content| < Pow8(11) then Some(Meta(path, |file.content|)) else None
    requires |body| == Blocks(|file.content|) && body[..|file.content|] == file.content
    requires IsZeroBlock(body[|file.content|..])
    ensures ReadArchive(h + body + tail) == ReadOn([path], [file], ReadArchive(tail))
  {
    hide ReadHeader;
    EntrySlices(h, file.content, body, tail);
    assert Renamed([path], [file]) == [File(path, file.content)];
    assert [file][0] == file;
  }

  lemma EntrySlices(h: Bytes, content: Bytes, body: Bytes, tail: Bytes)
    requires |content| <= |body| && body[..|content|] == content
    ensures var image := h + body + tail;
      && image[..|h|] == h && image[|h|..|h| + |content|] == content && image[|h| + |body|..] == tail
      && image[|h| + |content|..|h| + |body|] == body[|content|..]
  {
  }

  lemma PaddedBlocks(content: Bytes)
    ensures |PadToBlock(content)| == Blocks(|content|) && PadToBlock(content)[..|content|] == content
    ensures IsZeroBlock(PadToBlock(content)[|content|..])
  {
  }

  /** Reading at an entry takes its header and content off and goes on behind the padding. */
  lemma ReadEntry(file: File, tail: Bytes) returns (path: Bytes)
    requires Accepted(file)
    ensures path == file.path <==> NUL !in file.path
    ensures ReadArchive(Entry(file) + tail) == ReadOn([path], [file], ReadArchive(tail))
  {
    var h;
    h, path := HeaderReadsBack(file.path, |file.content|);
    PaddedBlocks(file.content);
    ReadBlocks(h, path, file, PadToBlock(file.content), tail);
  }

  /** A path is read back as it was exactly if it holds no NUL. */
  ghost predicate SamePaths(paths: seq<Bytes>, files: seq<File>)
    requires |paths| == |files|
  {
    forall i :: 0 <= i < |files| ==> (paths[i] == files[i].path <==> NUL !in files[i].path)
  }

  lemma SamePathsPush(paths: seq<Bytes>, files: seq<File>, path: Bytes, file: File)
    requires |paths| == |files| && SamePaths(paths, files) && (path == file.path <==> NUL !in file.path)
    ensures SamePaths(paths + [path], files + [file])
  {
  }

  lemma EntriesSplit(files: seq<File>)
    requires AllAccepted(files) && files != []
    ensures AllAccepted(files[..|files| - 1]) && Accepted(files[|files| - 1])
    ensures Entries(files) == Entries(files[..|files| - 1]) + Entry(files[|files| - 1])
  {
  }

  lemma {:induction false} ReadEntries(files: seq<File>, tail: Bytes) returns (paths: seq<Bytes>)
    requires AllAccepted(files)
    ensures |paths| == |files| && SamePaths(paths, files)
    ensures ReadArchive(Entries(files) + tail) == ReadOn(paths, files, ReadArchive(tail))
  {
    if files == [] {
      assert Entries(files) + tail == tail;
      paths := [];
      ReadOnNothing(ReadArchive(tail));
    } else {
      var init, last := files[..|files| - 1], files[|files| - 1];
      EntriesSplit(files);
      hide *;
      var path := ReadEntry(last, tail);
      paths := ReadEntries(init, Entry(last) + tail);
      Assoc(Entries(init), Entry(last), tail);
      ReadOnPush(paths, init, path, last, ReadArchive(tail));
      SamePathsPush(paths, init, path, last);
      paths := paths + [path];
      InitAndLast(files);
    }
  }

  lemma ReadOnNothing(tail: Option<Archive>)
    ensures ReadOn([], [], tail) == tail
  {
    if tail.Some? {
      assert Renamed([], []) + tail.value.files == tail.value.files;
    }
  }

  lemma ReadOnPush(paths: seq<Bytes>, files: seq<File>, path: Bytes, file: File, tail: Option<Archive>)
    requires |paths| == |files|
    ensures ReadOn(paths, files, ReadOn([path], [file], tail)) == ReadOn(paths + [path], files + [file], tail)
  {
    assert Renamed(paths + [path], files + [file]) == Renamed(paths, files) + Renamed([path], [file]);
    assert (files + [file])[|files|] == file;
    if tail.Some? {
      Assoc(Renamed(paths, files), Renamed([path], [file]), tail.value.files);
    }
    assert (forall f :: f in files + [file] ==> |f.content| < Pow8(11))
      <==> (forall f :: f in files ==> |f.content| < Pow8(11)) && (forall f :: f in [file] ==> |f.content| < Pow8(11));
  }

  /**
   The archive round trip: the reader returns exactly the files that went in, in order, and
   stops right behind the two zero blocks, if and only if every path is NUL-free and
   every content is shorter than 8^11 bytes.
   */
  lemma ArchiveRoundTrip(files: seq<File>, rest: Bytes)
    requires AllAccepted(files)
    ensures ReadArchive(Image(files) + rest) == Some(Archive(files, rest)) <==> forall f :: f in files ==> Readable(f)
  {
    ReadEnd(rest);
    var paths := ReadEntries(files, Zeros(1024) + rest);
    Assoc(Entries(files), Zeros(1024), rest);
    RoundTripCondition(paths, files, rest);
  }

  lemma RoundTripCondition(paths: seq<Bytes>, files: seq<File>, rest: Bytes)
    requires |paths| == |files|
    requires SamePaths(paths, files)
    ensures ReadOn(paths, files, Some(Archive([], rest))) == Some(Archive(files, rest))
      <==> forall f :: f in files ==> Readable(f)
  {
    var renamed := Renamed(paths, files);
    assert renamed + [] == renamed;
    if renamed == files {
      forall i | 0 <= i < |files| ensures NUL !in files[i].path {
        assert renamed[i] == files[i];
      }
    }
    if forall f :: f in files ==> Readable(f) {
      forall i | 0 <= i < |files| ensures renamed[i] == files[i] {
        assert Readable(files[i]);
      }
    }
  }

  lemma ReadEnd(rest: Bytes)
    ensures ReadArchive(Zeros(1024) + rest) == Some(Archive([], rest))
  {
    var image := Zeros(1024) + rest;
    assert image[..512] == Zeros(512) && image[512..1024] == Zeros(512) && image[1024..] == rest;
  }

  /** Different lists of readable files have different archives, and neither is a prefix of the other. */
  lemma ArchivesDiffer(a: seq<File>, b: seq<File>, tail: Bytes)
    requires AllAccepted(a) && forall f :: f in a ==> Readable(f)
    requires AllAccepted(b) && forall f :: f in b ==> Readable(f)
    requires Image(a) == Image(b) + tail
    ensures a == b && tail == []
  {
    ArchiveRoundTrip(a, []);
    ArchiveRoundTrip(b, tail);
    assert Image(a) + [] == Image(a);
  }
}
