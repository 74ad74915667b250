/**
 The ustar archive writer of scripts/buildDevToolsRelease.js: octal fields, the
 self-referential header checksum, the name/prefix split, block padding and the
 two closing zero blocks. Paths and contents are byte sequences.
 */
module Ustar {
  import opened Prelude

  type Byte = b: int | 0 <= b < 256
  type Bytes = seq<Byte>

  const BLOCK := 512
  const NAME_WIDTH := 100
  const PREFIX_WIDTH := 155
  const FILE_MODE: nat := 420  // 0o644

  const NUL: Byte := 0
  const SPACE: Byte := 32
  const SLASH: Byte := 47
  const DIGIT0: Byte := 48

  const CHECKSUM_SPACES: Bytes := [32, 32, 32, 32, 32, 32, 32, 32]
  const TYPE_REGULAR: Bytes := [48]
  const MAGIC: Bytes := [117, 115, 116, 97, 114, 0]
  const VERSION: Bytes := [48, 48]

  datatype File = File(path: Bytes, content: Bytes)

  // ---- numbers as octal text ----

  function Pow8(n: nat): (p: nat)
    ensures p >= 1
  {
    if n == 0 then 1 else 8 * Pow8(n - 1)
  }

  /** Number.prototype.toString(8). */
  function ToOctal(n: nat): (s: Bytes)
    ensures |s| >= 1
    ensures forall i :: 0 <= i < |s| ==> DIGIT0 <= s[i] < DIGIT0 + 8
  {
    if n < 8 then [DIGIT0 + n] else ToOctal(n / 8) + [DIGIT0 + n % 8]
  }

  /** String.prototype.padStart with "0". */
  function PadStart(s: Bytes, width: nat): (r: Bytes)
    ensures |r| == Max(|s|, width)
  {
    if |s| >= width then s else Repeat(DIGIT0, width - |s|) + s
  }

  function Zeros(n: nat): Bytes {
    Repeat(NUL, n)
  }

  /** The bytes Buffer.write takes of `s` when at most `length` may be written. */
  function Clip(s: Bytes, length: nat): Bytes {
    if |s| <= length then s else s[..length]
  }

  /** A field of a zeroed buffer after Buffer.write put `s` into it: filled up with NULs, or clipped. */
  function Fill(s: Bytes, width: nat): (r: Bytes)
    ensures |r| == width
  {
    if |s| <= width then s + Zeros(width - |s|) else s[..width]
  }

  function Sum(s: Bytes): nat {
    if s == [] then 0 else Sum(s[..|s| - 1]) + s[|s| - 1]
  }

  // ---- the layout of a header block ----

  /** A header field: text, or a number as zero-padded octal digits and a NUL. */
  datatype Field = Text(text: Bytes, width: nat) | Number(value: nat, digits: nat) {
    function Size(): nat {
      if Text? then width else digits + 1
    }

    function Content(): Bytes {
      if Text? then text else PadStart(ToOctal(value), digits) + [NUL]
    }
  }

  function Width(fields: seq<Field>): nat {
    if fields == [] then 0 else Width(fields[..|fields| - 1]) + fields[|fields| - 1].Size()
  }

  /** The fields side by side, each filling its own width. */
  function Layout(fields: seq<Field>): (r: Bytes)
    ensures |r| == Width(fields)
  {
    if fields == [] then []
    else Layout(fields[..|fields| - 1]) + Fill(fields[|fields| - 1].Content(), fields[|fields| - 1].Size())
  }

  lemma LayoutPush(fields: seq<Field>, f: Field)
    ensures Layout(fields + [f]) == Layout(fields) + Fill(f.Content(), f.Size())
    ensures Width(fields + [f]) == Width(fields) + f.Size()
  {
    assert (fields + [f])[..|fields|] == fields;
  }

  /** Name, mode, uid, gid, size, mtime: bytes 0 to 147. */
  function FirstFields(name: Bytes, size: nat): seq<Field> {
    [Text(name, 100), Number(FILE_MODE, 7), Number(0, 7), Number(0, 7), Number(size, 11), Number(0, 11)]
  }

  /** Typeflag, linkname, magic, version, owner and device fields, prefix, filler: bytes 156 to 511. */
  function LastFields(prefix: Bytes): seq<Field> {
    [Text(TYPE_REGULAR, 1), Text([], 100), Text(MAGIC, 6), Text(VERSION, 2), Text([], 80), Text(prefix, 155), Text([], 12)]
  }

  function HeaderFields(name: Bytes, prefix: Bytes, size: nat, checksum: Bytes): seq<Field> {
    FirstFields(name, size) + [Text(checksum, 8)] + LastFields(prefix)
  }

  /** The byte sum of a header whose checksum field holds eight spaces. */
  function HeaderChecksum(name: Bytes, prefix: Bytes, size: nat): nat {
    Sum(Layout(HeaderFields(name, prefix, size, CHECKSUM_SPACES)))
  }

  function ChecksumText(checksum: nat): Bytes {
    PadStart(ToOctal(checksum), 6) + [NUL, SPACE]
  }

  function Header(name: Bytes, prefix: Bytes, size: nat): Bytes {
    Layout(HeaderFields(name, prefix, size, ChecksumText(HeaderChecksum(name, prefix, size))))
  }

  // ---- the name/prefix split ----

  /** String.prototype.lastIndexOf: the last position of "/" below `end`, or -1. */
  function LastSlash(path: Bytes, end: nat): (i: int)
    requires end <= |path|
    ensures -1 <= i < end
    ensures i >= 0 ==> path[i] == SLASH
    ensures forall j :: i < j < end ==> path[j] != SLASH
  {
    if end == 0 then -1
    else if path[end - 1] == SLASH then end - 1
    else LastSlash(path, end - 1)
  }

  datatype Split = Split(name: Bytes, prefix: Bytes)

  function SplitPath(path: Bytes): (r: Result<Split>)
    ensures r.Ok? ==> |r.value.name| <= NAME_WIDTH && |r.value.prefix| <= PREFIX_WIDTH
  {
    if |path| <= NAME_WIDTH then Ok(Split(path, []))
    else
      var slash := LastSlash(path, |path|);
      var split := if slash > 0 then Split(path[slash + 1..], path[..slash]) else Split(path, []);
      if |split.name| > NAME_WIDTH || |split.prefix| > PREFIX_WIDTH then Err("Path too long for ustar tar header")
      else Ok(split)
  }

  function HeaderFor(path: Bytes, size: nat): Bytes
    requires SplitPath(path).Ok?
  {
    Header(SplitPath(path).value.name, SplitPath(path).value.prefix, size)
  }

  // ---- writing into the header buffer ----

  /** `buffer` after Buffer.write put `s` at `offset`. */
  function Overwrite(buffer: Bytes, offset: nat, s: Bytes): (r: Bytes)
    requires offset + |s| <= |buffer|
    ensures |r| == |buffer|
  {
    buffer[..offset] + s + buffer[offset + |s|..]
  }

  method WriteAt(buffer: array<Byte>, s: Bytes, offset: nat, length: nat)
    requires offset + length <= buffer.Length
    modifies buffer
    ensures buffer[..] == Overwrite(old(buffer[..]), offset, Clip(s, length))
  {
    var n := Min(|s|, length);
    for i := 0 to n
      invariant buffer[..offset] == old(buffer[..offset])
      invariant buffer[offset..offset + i] == s[..i]
      invariant buffer[offset + i..] == old(buffer[offset + i..])
    {
      buffer[offset + i] := s[i];
    }
    assert buffer[..] == buffer[..offset] + buffer[offset..offset + n] + buffer[offset + n..];
  }

  ghost predicate StartsWith(header: Bytes, done: Bytes) {
    |done| <= |header| && header == done + Zeros(|header| - |done|)
  }

  /** The header holds `fields` and is zero behind them. */
  ghost predicate Filled(header: Bytes, fields: seq<Field>) {
    StartsWith(header, Layout(fields))
  }

  lemma FillZeros(header: Bytes, done: Bytes, s: Bytes, width: nat)
    requires StartsWith(header, done) && |done| + width <= |header|
    ensures StartsWith(Overwrite(header, |done|, Clip(s, width)), done + Fill(s, width))
  {
    var n := |header| - |done|;
    assert Zeros(n) == Zeros(width) + Zeros(n - width);
    assert Overwrite(header, |done|, Clip(s, width)) == done + Fill(s, width) + Zeros(n - width);
  }

  lemma FillNext(header: Bytes, fields: seq<Field>, f: Field, s: Bytes)
    requires Filled(header, fields) && Width(fields) + f.Size() <= |header| && s == f.Content()
    ensures Filled(Overwrite(header, Width(fields), Clip(s, f.Size())), fields + [f])
    ensures Width(fields + [f]) == Width(fields) + f.Size()
  {
    LayoutPush(fields, f);
    FillZeros(header, Layout(fields), s, f.Size());
  }

  ghost method SkipField(header: array<Byte>, fields: seq<Field>, width: nat) returns (fields': seq<Field>)
    requires Filled(header[..], fields) && Width(fields) + width <= header.Length
    ensures fields' == fields + [Text([], width)]
    ensures Filled(header[..], fields') && Width(fields') == Width(fields) + width
  {
    fields' := fields + [Text([], width)];
    LayoutPush(fields, Text([], width));
    FillZeros(header[..], Layout(fields), [], width);
    assert Overwrite(header[..], |Layout(fields)|, []) == header[..];
  }

  /** Writing right behind the filled part fills one more field. */
  method WriteField(header: array<Byte>, ghost fields: seq<Field>, ghost f: Field, s: Bytes, offset: nat, length: nat)
    requires offset + length <= header.Length
    requires Filled(header[..], fields) && Width(fields) == offset
    requires f.Content() == s && f.Size() == length
    modifies header
    ensures Filled(header[..], fields + [f])
    ensures Width(fields + [f]) == offset + length
  {
    FillNext(header[..], fields, f, s);
    WriteAt(header, s, offset, length);
  }

  method WriteText(header: array<Byte>, ghost fields: seq<Field>, s: Bytes, offset: nat, length: nat)
      returns (ghost fields': seq<Field>)
    requires offset + length <= header.Length
    requires Filled(header[..], fields) && Width(fields) == offset
    modifies header
    ensures fields' == fields + [Text(s, length)]
    ensures Filled(header[..], fields') && Width(fields') == offset + length
  {
    fields' := fields + [Text(s, length)];
    WriteField(header, fields, Text(s, length), s, offset, length);
  }

  method WriteOctalField(header: array<Byte>, ghost fields: seq<Field>, value: nat, offset: nat, length: nat)
      returns (ghost fields': seq<Field>)
    requires 1 <= length && offset + length <= header.Length
    requires Filled(header[..], fields) && Width(fields) == offset
    modifies header
    ensures fields' == fields + [Number(value, length - 1)]
    ensures Filled(header[..], fields') && Width(fields') == offset + length
  {
    fields' := fields + [Number(value, length - 1)];
    var octal := PadStart(ToOctal(value), length - 1);
    WriteField(header, fields, Number(value, length - 1), octal + [NUL], offset, length);
  }

  method WriteFirstFields(header: array<Byte>, name: Bytes, sizeBytes: nat) returns (ghost fields: seq<Field>)
    requires header.Length == BLOCK && Filled(header[..], [])
    modifies header
    ensures fields == FirstFields(name, sizeBytes)
    ensures Filled(header[..], fields) && Width(fields) == 148
  {
    fields := WriteText(header, [], name, 0, 100);
    fields := WriteOctalField(header, fields, FILE_MODE, 100, 8);
    fields := WriteOctalField(header, fields, 0, 108, 8);
    fields := WriteOctalField(header, fields, 0, 116, 8);
    fields := WriteOctalField(header, fields, sizeBytes, 124, 12);
    fields := WriteOctalField(header, fields, 0, 136, 12);
    PushSix(Text(name, 100), Number(FILE_MODE, 7), Number(0, 7), Number(0, 7), Number(sizeBytes, 11), Number(0, 11));
  }

  method WriteLastFields(header: array<Byte>, ghost first: seq<Field>, prefix: Bytes) returns (ghost fields: seq<Field>)
    requires header.Length == BLOCK && Filled(header[..], first) && Width(first) == 156
    modifies header
    ensures fields == first + LastFields(prefix)
    ensures Filled(header[..], fields) && Width(fields) == BLOCK
  {
    fields := WriteText(header, first, TYPE_REGULAR, 156, 1);
    fields := SkipField(header, fields, 100);
    fields := WriteText(header, fields, MAGIC, 257, 6);
    fields := WriteText(header, fields, VERSION, 263, 2);
    fields := SkipField(header, fields, 80);
    fields := WritePrefix(header, fields, prefix);
    fields := SkipField(header, fields, 12);
    PushSeven(first, Text(TYPE_REGULAR, 1), Text([], 100), Text(MAGIC, 6), Text(VERSION, 2), Text([], 80),
              Text(prefix, 155), Text([], 12));
  }

  lemma PushSix<T>(a: T, b: T, c: T, d: T, e: T, f: T)
    ensures [] + [a] + [b] + [c] + [d] + [e] + [f] == [a, b, c, d, e, f]
  {
  }

  lemma PushSeven<T>(s: seq<T>, a: T, b: T, c: T, d: T, e: T, f: T, g: T)
    ensures s + [a] + [b] + [c] + [d] + [e] + [f] + [g] == s + [a, b, c, d, e, f, g]
  {
  }

  method WritePrefix(header: array<Byte>, ghost first: seq<Field>, prefix: Bytes) returns (ghost fields: seq<Field>)
    requires header.Length == BLOCK && Filled(header[..], first) && Width(first) == 345
    modifies header
    ensures fields == first + [Text(prefix, 155)]
    ensures Filled(header[..], fields) && Width(fields) == 500
  {
    if prefix != [] {
      fields := WriteText(header, first, prefix, 345, 155);
    } else {
      fields := SkipField(header, first, 155);
    }
  }

  /** The block as it is summed: every field in place, the checksum field all spaces. */
  method WriteFields(header: array<Byte>, name: Bytes, prefix: Bytes, sizeBytes: nat)
    requires header.Length == BLOCK && Filled(header[..], [])
    modifies header
    ensures header[..] == Layout(HeaderFields(name, prefix, sizeBytes, CHECKSUM_SPACES))
  {
    ghost var fields := WriteFirstFields(header, name, sizeBytes);
    fields := WriteText(header, fields, CHECKSUM_SPACES, 148, 8);
    fields := WriteLastFields(header, fields, prefix);
    assert header[..] == Layout(fields) + [];
  }

  method ByteSum(header: array<Byte>) returns (checksum: nat)
    ensures checksum == Sum(header[..])
  {
    checksum := 0;
    for index := 0 to header.Length
      invariant checksum == Sum(header[..index])
    {
      assert header[..index + 1][..index] == header[..index];
      checksum := checksum + header[index];
    }
    assert header[..header.Length] == header[..];
  }

  lemma {:induction false} LayoutAppend(a: seq<Field>, b: seq<Field>)
    ensures Layout(a + b) == Layout(a) + Layout(b)
    ensures Width(a + b) == Width(a) + Width(b)
  {
    if b == [] {
      assert a + b == a;
    } else {
      var init, last := b[..|b| - 1], b[|b| - 1];
      LayoutAppend(a, init);
      InitOfAppend(a, b);
      Assoc(Layout(a), Layout(init), Fill(last.Content(), last.Size()));
    }
  }

  lemma WidthStep(fields: seq<Field>, k: nat)
    requires k < |fields|
    ensures Width(fields[..k + 1]) == Width(fields[..k]) + fields[k].Size()
  {
    assert fields[..k + 1][..k] == fields[..k];
  }

  lemma FirstWidths(name: Bytes, size: nat)
    ensures var f := FirstFields(name, size); Width(f[..4]) == 124 && Width(f) == 148
  {
    var f := FirstFields(name, size);
    WidthStep(f, 0);
    WidthStep(f, 1);
    WidthStep(f, 2);
    WidthStep(f, 3);
    WidthStep(f, 4);
    WidthStep(f, 5);
    assert f[..6] == f;
  }

  lemma LastWidths(prefix: Bytes)
    ensures var f := LastFields(prefix); Width(f[..2]) == 101 && Width(f[..3]) == 107 && Width(f[..5]) == 189 && Width(f) == 356
  {
    var f := LastFields(prefix);
    WidthStep(f, 0);
    WidthStep(f, 1);
    WidthStep(f, 2);
    WidthStep(f, 3);
    WidthStep(f, 4);
    WidthStep(f, 5);
    WidthStep(f, 6);
    assert f[..7] == f;
  }

  /** The checksum field stands alone at bytes 148 to 155. */
  lemma HeaderParts(name: Bytes, prefix: Bytes, size: nat, checksum: Bytes)
    ensures Layout(HeaderFields(name, prefix, size, checksum))
         == Layout(FirstFields(name, size)) + Fill(checksum, 8) + Layout(LastFields(prefix))
    ensures |Layout(HeaderFields(name, prefix, size, checksum))| == BLOCK
  {
    LayoutAppend(FirstFields(name, size) + [Text(checksum, 8)], LastFields(prefix));
    LayoutPush(FirstFields(name, size), Text(checksum, 8));
    FirstWidths(name, size);
    LastWidths(prefix);
  }

  lemma OverwriteMiddle(a: Bytes, b: Bytes, c: Bytes, b': Bytes)
    requires |b| == |b'|
    ensures Overwrite(a + b + c, |a|, b') == a + b' + c
  {
  }

  /** Writing the checksum text over the spaces yields the finished header. */
  lemma ReplaceChecksum(name: Bytes, prefix: Bytes, size: nat, checksum: Bytes)
    requires |checksum| >= 8
    ensures |Layout(HeaderFields(name, prefix, size, CHECKSUM_SPACES))| == BLOCK
    ensures Overwrite(Layout(HeaderFields(name, prefix, size, CHECKSUM_SPACES)), 148, Clip(checksum, 8))
         == Layout(HeaderFields(name, prefix, size, checksum))
  {
    HeaderParts(name, prefix, size, CHECKSUM_SPACES);
    HeaderParts(name, prefix, size, checksum);
    FirstWidths(name, size);
    LastWidths(prefix);
    OverwriteMiddle(Layout(FirstFields(name, size)), CHECKSUM_SPACES, Layout(LastFields(prefix)), Clip(checksum, 8));
    assert Fill(CHECKSUM_SPACES, 8) == CHECKSUM_SPACES;
    assert Fill(checksum, 8) == Clip(checksum, 8);
  }

  method BuildUstarHeader(path: Bytes, sizeBytes: nat) returns (r: Result<array<Byte>>)
    ensures r.Err? <==> SplitPath(path).Err?
    ensures r.Ok? ==> r.value[..] == HeaderFor(path, sizeBytes)
  {
    var name, prefix := path, [];
    if |name| > NAME_WIDTH {
      var slash := LastSlash(path, |path|);
      if slash > 0 {
        prefix := path[..slash];
        name := path[slash + 1..];
      }
      if |name| > NAME_WIDTH || |prefix| > PREFIX_WIDTH {
        return Err("Path too long for ustar tar header");
      }
    }
    assert SplitPath(path) == Ok(Split(name, prefix));

    var header := new Byte[BLOCK](_ => NUL);
    WriteFields(header, name, prefix, sizeBytes);
    var checksum := ByteSum(header);
    ReplaceChecksum(name, prefix, sizeBytes, ChecksumText(checksum));
    WriteAt(header, PadStart(ToOctal(checksum), 6) + [NUL, SPACE], 148, 8);
    return Ok(header);
  }

  // ---- the archive ----

  function PadToBlock(buffer: Bytes): (r: Bytes)
  {
    var remainder := |buffer| % BLOCK;
    if remainder == 0 then buffer else buffer + Zeros(BLOCK - remainder)
  }

  predicate Accepted(file: File) {
    SplitPath(file.path).Ok?
  }

  /** One file in the archive: its header block and its padded content. */
  function Entry(file: File): Bytes
    requires Accepted(file)
  {
    HeaderFor(file.path, |file.content|) + PadToBlock(file.content)
  }

  ghost predicate AllAccepted(files: seq<File>) {
    forall f :: f in files ==> Accepted(f)
  }

  function Entries(files: seq<File>): Bytes
    requires AllAccepted(files)
  {
    if files == [] then [] else Entries(files[..|files| - 1]) + Entry(files[|files| - 1])
  }

  /** The whole archive: every entry in order, then two zero blocks. */
  function Image(files: seq<File>): Bytes
    requires AllAccepted(files)
  {
    Entries(files) + Zeros(2 * BLOCK)
  }

  /** One round of buildToolsetTar's loop. */
  method PackFile(file: File) returns (r: Result<seq<Bytes>>)
    ensures r.Ok? <==> Accepted(file)
    ensures r.Ok? ==> |r.value| == 2 && r.value[0] + r.value[1] == Entry(file)
  {
    var header := BuildUstarHeader(file.path, |file.content|);
    if header.Err? {
      return Err(header.error);
    }
    return Ok([header.value[..], PadToBlock(file.content)]);
  }

  /** buildToolsetTar: the image, or the error of the first path that does not fit a header. */
  method BuildToolsetTar(files: seq<File>) returns (r: Result<Bytes>)
    ensures r.Ok? <==> AllAccepted(files)
    ensures r.Ok? ==> r.value == Image(files)
  {
    var chunks: seq<Bytes> := [];
    for k := 0 to |files|
      invariant AllAccepted(files[..k])
      invariant Flatten(chunks) == Entries(files[..k])
    {
      var packed := PackFile(files[k]);
      if packed.Err? {
        assert !Accepted(files[k]);
        return Err(packed.error);
      }
      FlattenPush(chunks, packed.value[0], packed.value[1]);
      EntriesPush(files[..k], files[k]);
      chunks := chunks + [packed.value[0]] + [packed.value[1]];
      TakeNext(files, k);
    }
    TakeAll(files);
    FlattenAppend(chunks, [Zeros(2 * BLOCK)]);
    FlattenSingle(Zeros(2 * BLOCK));
    return Ok(Flatten(chunks + [Zeros(2 * BLOCK)]));
  }

  lemma EntriesPush(files: seq<File>, file: File)
    requires AllAccepted(files) && Accepted(file)
    ensures AllAccepted(files + [file])
    ensures Entries(files + [file]) == Entries(files) + Entry(file)
  {
    assert (files + [file])[..|files|] == files;
  }
}
