/** The "New ASCII Format" archive reader of src/cpio.c.  An archive is a sequence of bytes that starts
    at a memory address; pointers are absolute addresses. */
module Cpio {
  import opened Bits
  import opened Seqs
  import opened NumberText

  const U64: int := 0x1_0000_0000_0000_0000
  const HEADER_MAGIC: string := "070701"
  const FOOTER_MAGIC: string := "TRAILER!!!"
  const HEADER_SIZE: nat := 110
  const FILESIZE_OFFSET: nat := 54
  const NAMESIZE_OFFSET: nat := 94

  /** align_up(n, 4): a 64-bit addition and the mask ~3. */
  function AlignUp4(n: nat): nat
  {
    And((n + 3) % U64, Mask(2, 64))
  }

  function Round4(n: nat): nat { (n + 3) / 4 * 4 }

  lemma FloorTo4(x: nat, a: nat)
    requires a % 4 == 0 && a <= x < a + 4
    ensures x / 4 * 4 == a
  {
  }

  lemma MaskFloors(x: nat)
    requires x < U64
    ensures And(x, Mask(2, 64)) == x / 4 * 4
  {
    Pow64();
    MaskRoundsDown(x, 2, 64);
    var a := And(x, Mask(2, 64));
    assert Pow2(2) == 4;
    AlignedIsMultiple(a, 2);
    FloorTo4(x, a);
  }

  /** The two-step bit mask rounds up to a multiple of 4, for any address below the top of memory. */
  lemma AlignUp4IsRound4(n: nat)
    requires n + 3 < U64
    ensures AlignUp4(n) == Round4(n)
  {
    DivModUnique(n + 3, U64, 0, n + 3);
    MaskFloors(n + 3);
  }

  lemma Round4Shift(base: nat, n: nat)
    requires base % 4 == 0
    ensures Round4(base + n) == base + Round4(n)
  {
  }

  lemma Pow64()
    ensures Pow2(64) == U64
  {
    assert Pow2(8) == 0x100;
    Pow2Add(8, 8);
    assert Pow2(16) == 0x1_0000;
    Pow2Add(16, 16);
    assert Pow2(32) == 0x1_0000_0000;
    Pow2Add(32, 32);
  }

  // ---------------------------------------------------------------- hexadecimal fields

  /** parse_hex_str from position i on, with r read so far.  On a character that is no digit the
      multiplication by 16 has already taken place. */
  function ParseHexFrom(s: string, i: nat, r: nat): nat
    decreases |s| - i
  {
    if i >= |s| then r
    else if A2d(s[i]) >= 0 then ParseHexFrom(s, i + 1, r * 16 + A2d(s[i]))
    else r * 16
  }

  method ParseHexStr(s: string) returns (r: nat)
    ensures r == ParseHexFrom(s, 0, 0)
  {
    r := 0;
    for i := 0 to |s|
      invariant ParseHexFrom(s, i, r) == ParseHexFrom(s, 0, 0)
    {
      r := r * 16;
      if '0' <= s[i] <= '9' {
        r := r + (s[i] as int - '0' as int);
      } else if 'a' <= s[i] <= 'f' {
        r := r + (s[i] as int - 'a' as int + 10);
      } else if 'A' <= s[i] <= 'F' {
        r := r + (s[i] as int - 'A' as int + 10);
      } else {
        return;
      }
    }
  }

  lemma PrefixValue(s: string, i: nat)
    requires i < |s|
    ensures Value(s[..i + 1], 16) == Value(s[..i], 16) * 16 + A2d(s[i])
  {
    ValueSnoc(s[..i], s[i], 16);
    assert s[..i + 1] == s[..i] + [s[i]];
  }

  lemma {:induction false} ParseHexIsValue(s: string, i: nat, r: nat)
    requires Digits(s, 16) && i <= |s| && r == Value(s[..i], 16)
    ensures ParseHexFrom(s, i, r) == Value(s, 16)
    decreases |s| - i
  {
    if i < |s| {
      PrefixValue(s, i);
      assert A2d(s[i]) >= 0;
      ParseHexIsValue(s, i + 1, r * 16 + A2d(s[i]));
    } else {
      assert s[..i] == s;
    }
  }

  /** A numeral written by ui2a in base 16 is read back when it fills the field; in a longer field whose
      next character is no digit the result is sixteen times too large. */
  lemma HexReadBack(t: string, n: nat, rest: string)
    requires IsNumeral(t, n, 16) && (rest != [] ==> A2d(rest[0]) < 0)
    ensures ParseHexFrom(t + rest, 0, 0) == if rest == [] then n else 16 * n
  {
    HexPrefix(t, rest, 0, 0);
  }

  lemma {:induction false} HexPrefix(t: string, rest: string, i: nat, r: nat)
    requires Digits(t, 16) && i <= |t| && r == Value(t[..i], 16) && (rest != [] ==> A2d(rest[0]) < 0)
    ensures ParseHexFrom(t + rest, i, r) == Value(t, 16) * if rest == [] then 1 else 16
    decreases |t| - i
  {
    if i < |t| {
      PrefixValue(t, i);
      assert (t + rest)[i] == t[i] && A2d(t[i]) >= 0;
      HexPrefix(t, rest, i + 1, r * 16 + A2d(t[i]));
    } else {
      assert t[..i] == t;
    }
  }

  // ---------------------------------------------------------------- C strings

  /** There is a NUL at or after position p. */
  predicate Terminated(s: string, p: nat)
  {
    p <= |s| && exists i :: p <= i < |s| && s[i] == '\0'
  }

  /** The string that starts at position p. */
  function CString(s: string, p: nat): (r: string)
    requires Terminated(s, p)
    ensures p + |r| < |s| && s[p + |r|] == '\0' && r == s[p..p + |r|] && '\0' !in r
    decreases |s| - p
  {
    if s[p] == '\0' then []
    else
      var r := CString(s, p + 1);
      assert s[p..p + 1 + |r|] == [s[p]] + r;
      [s[p]] + r
  }

  lemma {:induction false} CStringIs(s: string, p: nat, r: string)
    requires p + |r| < |s| && s[p..p + |r|] == r && s[p + |r|] == '\0' && '\0' !in r
    ensures Terminated(s, p) && CString(s, p) == r
    decreases |r|
  {
    if r != [] {
      assert r[0] == s[p];
      assert r[1..] == s[p + 1..p + |r|];
      CStringIs(s, p + 1, r[1..]);
    }
  }

  /** cpio_strncmp of two strings with a limit beyond the end of one of them: 0 exactly for equality. */
  method CpioStrncmp(a: string, p: nat, b: string, n: nat) returns (r: int)
    requires Terminated(a, p) && Terminated(b, 0) && n > |CString(b, 0)|
    ensures r == 0 <==> CString(a, p) == CString(b, 0)
  {
    ghost var x, y := CString(a, p), CString(b, 0);
    var i := 0;
    while i < n
      invariant 0 <= i <= |x| && i <= |y| && x[..i] == y[..i]
    {
      assert a[p + i] == if i < |x| then x[i] else '\0';
      assert b[i] == if i < |y| then y[i] else '\0';
      if a[p + i] != b[i] {
        assert i < |x| && i < |y| ==> x[i] != y[i];
        r := a[p + i] as int - b[i] as int;
        return;
      }
      if a[p + i] == '\0' {
        assert x == x[..i] == y[..i] == y;
        return 0;
      }
      i := i + 1;
    }
    r := 0;
  }

  /** cpio_strncmp against the six bytes of the header magic. */
  method MagicMatches(a: string, p: nat) returns (r: bool)
    requires p + 6 <= |a|
    ensures r <==> a[p..p + 6] == HEADER_MAGIC
  {
    var i := 0;
    while i < 6
      invariant 0 <= i <= 6 && a[p..p + i] == HEADER_MAGIC[..i]
    {
      if a[p + i] != HEADER_MAGIC[i] {
        assert a[p..p + 6][i] != HEADER_MAGIC[i];
        return false;
      }
      assert a[p..p + i + 1] == a[p..p + i] + [a[p + i]];
      assert HEADER_MAGIC[..i + 1] == HEADER_MAGIC[..i] + [HEADER_MAGIC[i]];
      i := i + 1;
    }
    r := true;
  }

  // ---------------------------------------------------------------- the format

  datatype Entry = Entry(name: string, data: string)

  /** The eight bytes at o are hexadecimal digits of n. */
  ghost predicate FieldIs(image: string, o: nat, n: nat)
  {
    o + 8 <= |image| && Digits(image[o..o + 8], 16) && Value(image[o..o + 8], 16) == n
  }

  function DataOffset(o: nat, e: Entry): nat { Round4(o + HEADER_SIZE + |e.name| + 1) }

  function NextOffset(o: nat, e: Entry): nat { Round4(DataOffset(o, e) + |e.data|) }

  /** A header with this name at offset o. */
  ghost predicate HeaderAt(image: string, o: nat, name: string)
  {
    && o + HEADER_SIZE + |name| < |image|
    && image[o..o + 6] == HEADER_MAGIC
    && '\0' !in name
    && image[o + HEADER_SIZE..o + HEADER_SIZE + |name|] == name
    && image[o + HEADER_SIZE + |name|] == '\0'
  }

  ghost predicate EntryAt(image: string, o: nat, e: Entry)
  {
    && HeaderAt(image, o, e.name) && e.name != FOOTER_MAGIC
    && FieldIs(image, o + FILESIZE_OFFSET, |e.data|)
    && FieldIs(image, o + NAMESIZE_OFFSET, |e.name| + 1)
    && DataOffset(o, e) + |e.data| <= NextOffset(o, e) <= |image|
    && image[DataOffset(o, e)..DataOffset(o, e) + |e.data|] == e.data
  }

  /** offs[i] is where the header of entry i starts; after the last entry comes the trailer. */
  ghost predicate Layout(entries: seq<Entry>, offs: seq<nat>)
  {
    && |offs| == |entries| + 1 && offs[0] == 0
    && forall i :: 0 <= i < |entries| ==> offs[i + 1] == NextOffset(offs[i], entries[i])
  }

  /** The image is an archive of these entries; all other header fields and the padding are arbitrary. */
  ghost predicate ArchiveOf(image: string, entries: seq<Entry>, offs: seq<nat>)
  {
    && Layout(entries, offs)
    && (forall i :: 0 <= i < |entries| ==> EntryAt(image, offs[i], entries[i]))
    && HeaderAt(image, offs[|entries|], FOOTER_MAGIC)
  }

  // ---------------------------------------------------------------- reading

  datatype Header = Invalid | Eof | File(filename: int, filesize: nat, data: int, next: int)

  lemma NameAt(image: string, o: nat, name: string)
    requires HeaderAt(image, o, name)
    ensures Terminated(image, o + HEADER_SIZE) && CString(image, o + HEADER_SIZE) == name
  {
    CStringIs(image, o + HEADER_SIZE, name);
  }

  /** h describes every entry that starts at offset o. */
  ghost predicate Describes(image: string, base: nat, o: nat, h: Header)
  {
    forall e :: EntryAt(image, o, e) ==>
      h == File(base + o + HEADER_SIZE, |e.data|, base + DataOffset(o, e), base + NextOffset(o, e))
  }

  /** cpio_parse_header at address base + o. */
  method CpioParseHeader(image: string, base: nat, o: nat) returns (h: Header)
    requires o + HEADER_SIZE <= |image| && Terminated(image, o + HEADER_SIZE)
    requires base % 4 == 0 && base + |image| + 3 < U64
    ensures h.Invalid? <==> image[o..o + 6] != "070701"
    ensures h.Eof? <==> image[o..o + 6] == "070701" && CString(image, o + HEADER_SIZE) == "TRAILER!!!"
    ensures Describes(image, base, o, h)
  {
    var ok := MagicMatches(image, o);
    if !ok {
      h := Invalid;
      NoEntry(image, base, o, h);
      return;
    }
    var filesize := ParseHexStr(image[o + FILESIZE_OFFSET..o + FILESIZE_OFFSET + 8]);
    var filename := o + HEADER_SIZE;
    CStringIs(FOOTER_MAGIC + ['\0'], 0, FOOTER_MAGIC);
    var c := CpioStrncmp(image, filename, FOOTER_MAGIC + ['\0'], |FOOTER_MAGIC| + 1);
    if c == 0 {
      h := Eof;
      NoEntry(image, base, o, h);
      return;
    }
    var nameLength := ParseHexStr(image[o + NAMESIZE_OFFSET..o + NAMESIZE_OFFSET + 8]);
    var data := AlignUp4(base + o + HEADER_SIZE + nameLength);
    var next := AlignUp4(data + filesize);
    h := File(base + filename, filesize, data, next);
    Described(image, base, o, nameLength, h);
  }

  lemma NoEntry(image: string, base: nat, o: nat, h: Header)
    requires o + HEADER_SIZE <= |image| && Terminated(image, o + HEADER_SIZE)
    requires image[o..o + 6] != HEADER_MAGIC || CString(image, o + HEADER_SIZE) == FOOTER_MAGIC
    ensures Describes(image, base, o, h)
  {
    forall e | EntryAt(image, o, e) ensures false { NameAt(image, o, e.name); }
  }

  lemma Described(image: string, base: nat, o: nat, nameLength: nat, h: Header)
    requires o + HEADER_SIZE <= |image| && base % 4 == 0 && base + |image| + 3 < U64
    requires nameLength == ParseHexFrom(image[o + NAMESIZE_OFFSET..o + NAMESIZE_OFFSET + 8], 0, 0)
    requires var size := ParseHexFrom(image[o + FILESIZE_OFFSET..o + FILESIZE_OFFSET + 8], 0, 0);
             var data := AlignUp4(base + o + HEADER_SIZE + nameLength);
             h == File(base + o + HEADER_SIZE, size, data, AlignUp4(data + size))
    ensures Describes(image, base, o, h)
  {
    forall e | EntryAt(image, o, e)
      ensures h == File(base + o + HEADER_SIZE, |e.data|, base + DataOffset(o, e), base + NextOffset(o, e))
    {
      ParsedFields(image, base, o, e);
    }
  }

  lemma FieldParses(image: string, o: nat, n: nat)
    requires FieldIs(image, o, n)
    ensures ParseHexFrom(image[o..o + 8], 0, 0) == n
  {
    ParseHexIsValue(image[o..o + 8], 0, 0);
  }

  lemma AlignedOffset(base: nat, n: nat)
    requires base % 4 == 0 && base + n + 3 < U64
    ensures AlignUp4(base + n) == base + Round4(n)
  {
    AlignUp4IsRound4(base + n);
    Round4Shift(base, n);
  }

  lemma ParsedFields(image: string, base: nat, o: nat, e: Entry)
    requires EntryAt(image, o, e) && base % 4 == 0 && base + |image| + 3 < U64
    ensures ParseHexFrom(image[o + FILESIZE_OFFSET..o + FILESIZE_OFFSET + 8], 0, 0) == |e.data|
    ensures ParseHexFrom(image[o + NAMESIZE_OFFSET..o + NAMESIZE_OFFSET + 8], 0, 0) == |e.name| + 1
    ensures AlignUp4(base + o + HEADER_SIZE + (|e.name| + 1)) == base + DataOffset(o, e)
    ensures AlignUp4(base + DataOffset(o, e) + |e.data|) == base + NextOffset(o, e)
  {
    FieldParses(image, o + FILESIZE_OFFSET, |e.data|);
    FieldParses(image, o + NAMESIZE_OFFSET, |e.name| + 1);
    AlignedOffset(base, o + HEADER_SIZE + |e.name| + 1);
    AlignedOffset(base, DataOffset(o, e) + |e.data|);
  }

  /** The name of header i. */
  function HeaderName(entries: seq<Entry>, i: nat): string
    requires i <= |entries|
  {
    if i == |entries| then FOOTER_MAGIC else entries[i].name
  }

  lemma HeaderOf(image: string, entries: seq<Entry>, offs: seq<nat>, i: nat)
    requires ArchiveOf(image, entries, offs) && i <= |entries|
    ensures HeaderAt(image, offs[i], HeaderName(entries, i))
    ensures HeaderName(entries, i) == FOOTER_MAGIC <==> i == |entries|
  {
    if i < |entries| { assert EntryAt(image, offs[i], entries[i]); }
  }

  /** Entry i is the first with this name, and r its address and size. */
  ghost predicate FoundAt(entries: seq<Entry>, offs: seq<nat>, base: nat, name: string, i: nat, r: (int, nat))
  {
    && i < |entries| && i < |offs| && entries[i].name == name && (forall j :: 0 <= j < i ==> entries[j].name != name)
    && r == (base + DataOffset(offs[i], entries[i]), |entries[i].data|)
  }

  datatype Outcome = Stop | Hit(addr: int, size: nat) | GoOn(next: int)

  /** The name comparison of src/cpio.c:125, with no limit on the length. */
  method NameMatches(image: string, o: nat, name: string, ghost here: string) returns (b: bool)
    requires HeaderAt(image, o, here) && '\0' !in name && |name| < U64 - 1
    ensures b <==> here == name
  {
    NameAt(image, o, here);
    CStringIs(name + ['\0'], 0, name);
    var c := CpioStrncmp(image, o + HEADER_SIZE, name + ['\0'], U64 - 1);
    b := c == 0;
  }

  /** The header at offset offs[i] of an archive. */
  method ParseEntry(image: string, base: nat, o: nat, ghost entries: seq<Entry>, ghost offs: seq<nat>, ghost i: nat)
    returns (h: Header)
    requires ArchiveOf(image, entries, offs) && i <= |entries| && o == offs[i]
    requires base % 4 == 0 && base + |image| + 3 < U64
    ensures i == |entries| ==> h == Eof
    ensures i < |entries| ==>
              h == File(base + o + HEADER_SIZE, |entries[i].data|,
                        base + DataOffset(o, entries[i]), base + NextOffset(o, entries[i]))
  {
    HeaderOf(image, entries, offs, i);
    NameAt(image, o, HeaderName(entries, i));
    assert i < |entries| ==> EntryAt(image, o, entries[i]);
    h := CpioParseHeader(image, base, o);
  }

  lemma NextHeader(entries: seq<Entry>, offs: seq<nat>, i: nat)
    requires Layout(entries, offs) && i < |entries|
    ensures offs[i + 1] == NextOffset(offs[i], entries[i])
  {
  }

  /** Header i is the trailer, or its file has this name, or the walk goes on to header i + 1. */
  ghost predicate Visited(entries: seq<Entry>, offs: seq<nat>, base: nat, name: string, i: nat, r: Outcome)
    requires i <= |entries| && |offs| == |entries| + 1
  {
    match r
    case Stop => i == |entries|
    case Hit(addr, size) =>
      i < |entries| && entries[i].name == name && addr == base + DataOffset(offs[i], entries[i]) &&
        size == |entries[i].data|
    case GoOn(next) => i < |entries| && entries[i].name != name && next == base + offs[i + 1]
  }

  /** One turn of the loop of cpio_get_file (src/cpio.c:114-128) at header i. */
  method Visit(image: string, base: nat, o: nat, name: string, ghost entries: seq<Entry>, ghost offs: seq<nat>,
               ghost i: nat)
    returns (r: Outcome)
    requires ArchiveOf(image, entries, offs) && i <= |entries| && o == offs[i] && '\0' !in name
    requires base % 4 == 0 && base + |image| + 3 < U64 && |name| < U64 - 1
    ensures Visited(entries, offs, base, name, i, r)
  {
    var h := ParseEntry(image, base, o, entries, offs, i);
    if h.Invalid? || h.Eof? { return Stop; }
    HeaderOf(image, entries, offs, i);
    var same := NameMatches(image, o, name, HeaderName(entries, i));
    r := if same then Hit(h.data, h.filesize) else GoOn(h.next);
    NextHeader(entries, offs, i);
  }

  /** The loop of cpio_get_file, and the header at which it ends. */
  method WalkHeaders(image: string, base: nat, name: string, ghost entries: seq<Entry>, ghost offs: seq<nat>)
    returns (r: Option<(int, nat)>, ghost i: nat)
    requires ArchiveOf(image, entries, offs) && '\0' !in name
    requires base % 4 == 0 && base + |image| + 3 < U64 && |name| < U64 - 1
    ensures i <= |entries| && forall j :: 0 <= j < i ==> entries[j].name != name
    ensures r.None? <==> i == |entries|
    ensures r.Some? ==> Visited(entries, offs, base, name, i, Hit(r.value.0, r.value.1))
  {
    i := 0;
    var o: nat := 0;
    while true
      invariant i <= |entries| && o == offs[i]
      invariant forall j :: 0 <= j < i ==> entries[j].name != name
      decreases |entries| - i
    {
      var v := Visit(image, base, o, name, entries, offs, i);
      match v {
        case Stop => return None, i;
        case Hit(addr, size) => return Some((addr, size)), i;
        case GoOn(next) => o, i := next - base, i + 1;
      }
    }
  }

  /** cpio_get_file: on every archive at an aligned address the walk ends, with the address and size of
      the first file of that name, or with NULL if there is no such file. */
  method CpioGetFile(image: string, base: nat, name: string, ghost entries: seq<Entry>, ghost offs: seq<nat>)
    returns (r: Option<(int, nat)>)
    requires ArchiveOf(image, entries, offs) && '\0' !in name
    requires base % 4 == 0 && base + |image| + 3 < U64 && |name| < U64 - 1
    ensures r.None? <==> forall i :: 0 <= i < |entries| ==> entries[i].name != name
    ensures r.Some? ==> exists i: nat :: FoundAt(entries, offs, base, name, i, r.value)
  {
    ghost var i: nat;
    r, i := WalkHeaders(image, base, name, entries, offs);
    if r.Some? { assert FoundAt(entries, offs, base, name, i, r.value); }
  }

  // ---------------------------------------------------------------- writing

  function HexDigits(n: nat, k: nat): (s: string)
    ensures |s| == k
  {
    if k == 0 then [] else HexDigits(n / 16, k - 1) + [Digit(n % 16, false)]
  }

  lemma {:induction false} HexDigitsValue(n: nat, k: nat)
    requires n < Power(16, k)
    ensures Digits(HexDigits(n, k), 16) && Value(HexDigits(n, k), 16) == n
    decreases k
  {
    if k > 0 {
      assert n / 16 < Power(16, k - 1);
      HexDigitsValue(n / 16, k - 1);
      ValueSnoc(HexDigits(n / 16, k - 1), Digit(n % 16, false), 16);
    }
  }

  function Pad(n: nat): (s: string)
    ensures n + |s| == Round4(n)
  {
    seq(Round4(n) - n, _ => '\0')
  }

  /** The header fields that the reader ignores: inode to modification time, the device numbers, and
      the checksum. */
  datatype Meta = Meta(inodeToMtime: string, devices: string, check: string)

  predicate MetaOk(m: Meta)
  {
    |m.inodeToMtime| == 48 && |m.devices| == 32 && |m.check| == 8
  }

  /** A header as section "New ASCII Format" of cpio(5) lays it out, with the name that follows it. */
  function EncodeHeader(m: Meta, filesize: nat, name: string): (s: string)
    requires MetaOk(m)
    ensures |s| == HEADER_SIZE + |name| + 1
  {
    HEADER_MAGIC + m.inodeToMtime + HexDigits(filesize, 8) + m.devices + HexDigits(|name| + 1, 8) + m.check
    + name + ['\0']
  }

  function EncodeEntry(m: Meta, e: Entry): (s: string)
    requires MetaOk(m)
    ensures |s| == NextOffset(0, e)
  {
    var h := EncodeHeader(m, |e.data|, e.name);
    h + Pad(|h|) + e.data + Pad(DataOffset(0, e) + |e.data|)
  }

  /** All entries, one after the other. */
  function EncodeAll(m: Meta, entries: seq<Entry>): string
    requires MetaOk(m)
  {
    if entries == [] then [] else EncodeAll(m, entries[..|entries| - 1]) + EncodeEntry(m, entries[|entries| - 1])
  }

  function Encode(m: Meta, entries: seq<Entry>): string
    requires MetaOk(m)
  {
    EncodeAll(m, entries) + EncodeHeader(m, 0, FOOTER_MAGIC)
  }

  /** Names and sizes that the format can express. */
  predicate Encodable(e: Entry)
  {
    '\0' !in e.name && e.name != FOOTER_MAGIC && |e.name| + 1 < 0x1_0000_0000 && |e.data| < 0x1_0000_0000
  }

  lemma Field8(n: nat)
    requires n < 0x1_0000_0000
    ensures Digits(HexDigits(n, 8), 16) && Value(HexDigits(n, 8), 16) == n
  {
    assert Power(16, 4) == 0x1_0000;
    assert Power(16, 8) == 0x1_0000_0000;
    HexDigitsValue(n, 8);
  }

  /** A slice in the middle of a concatenation. */
  lemma Middle(a: string, b: string, c: string)
    ensures (a + b + c)[|a|..|a| + |b|] == b
  {
  }

  lemma FieldInMiddle(a: string, n: nat, c: string)
    requires n < 0x1_0000_0000
    ensures FieldIs(a + HexDigits(n, 8) + c, |a|, n)
  {
    Field8(n);
    Middle(a, HexDigits(n, 8), c);
  }

  lemma EncodedSizes(m: Meta, filesize: nat, name: string)
    requires MetaOk(m) && filesize < 0x1_0000_0000 && |name| + 1 < 0x1_0000_0000
    ensures var h := EncodeHeader(m, filesize, name);
            FieldIs(h, FILESIZE_OFFSET, filesize) && FieldIs(h, NAMESIZE_OFFSET, |name| + 1)
  {
    var h := EncodeHeader(m, filesize, name);
    var x, y := HexDigits(filesize, 8), HexDigits(|name| + 1, 8);
    var p1 := HEADER_MAGIC + m.inodeToMtime;
    var p2 := p1 + x + m.devices;
    var q2 := m.check + name + ['\0'];
    assert h == p1 + x + (m.devices + y + q2);
    FieldInMiddle(p1, filesize, m.devices + y + q2);
    assert h == p2 + y + q2;
    FieldInMiddle(p2, |name| + 1, q2);
  }

  lemma EncodedName(m: Meta, filesize: nat, name: string)
    requires MetaOk(m) && '\0' !in name
    ensures HeaderAt(EncodeHeader(m, filesize, name), 0, name)
  {
    var h := EncodeHeader(m, filesize, name);
    var p := HEADER_MAGIC + m.inodeToMtime + HexDigits(filesize, 8) + m.devices + HexDigits(|name| + 1, 8) + m.check;
    assert h == p + name + ['\0'];
    Middle(p, name, ['\0']);
    assert h[0..6] == p[0..6] == HEADER_MAGIC;
  }

  /** What holds of bytes at the start of s holds at |a| in a + s + c. */
  lemma ShiftHeader(a: string, s: string, c: string, name: string)
    requires HeaderAt(s, 0, name)
    ensures HeaderAt(a + s + c, |a|, name)
  {
    var t := a + s + c;
    assert t[|a|..|a| + 6] == s[0..6];
    assert t[|a| + HEADER_SIZE..|a| + HEADER_SIZE + |name|] == s[HEADER_SIZE..HEADER_SIZE + |name|];
  }

  lemma ShiftField(a: string, s: string, c: string, o: nat, n: nat)
    requires FieldIs(s, o, n)
    ensures FieldIs(a + s + c, |a| + o, n)
  {
    assert (a + s + c)[|a| + o..|a| + o + 8] == s[o..o + 8];
  }

  lemma ShiftOffsets(o: nat, e: Entry)
    requires o % 4 == 0
    ensures DataOffset(o, e) == o + DataOffset(0, e) && NextOffset(o, e) == o + NextOffset(0, e)
    ensures NextOffset(o, e) % 4 == 0
  {
    Round4Shift(o, HEADER_SIZE + |e.name| + 1);
    Round4Shift(o, DataOffset(0, e) + |e.data|);
  }

  lemma EncodedData(m: Meta, a: string, e: Entry, c: string)
    requires MetaOk(m)
    ensures var image, d := a + EncodeEntry(m, e) + c, |a| + DataOffset(0, e);
            d + |e.data| <= |image| && image[d..d + |e.data|] == e.data
  {
    var h := EncodeHeader(m, |e.data|, e.name);
    var p, q := a + h + Pad(|h|), Pad(DataOffset(0, e) + |e.data|) + c;
    assert a + EncodeEntry(m, e) + c == p + e.data + q;
    Middle(p, e.data, q);
  }

  lemma FrontOfEncoded(m: Meta, a: string, h: string, tail: string, c: string, filesize: nat, name: string)
    requires MetaOk(m) && h == EncodeHeader(m, filesize, name)
    requires '\0' !in name && filesize < 0x1_0000_0000 && |name| + 1 < 0x1_0000_0000
    ensures var image := a + h + (tail + c);
            && HeaderAt(image, |a|, name)
            && FieldIs(image, |a| + FILESIZE_OFFSET, filesize) && FieldIs(image, |a| + NAMESIZE_OFFSET, |name| + 1)
  {
    EncodedSizes(m, filesize, name);
    EncodedName(m, filesize, name);
    ShiftHeader(a, h, tail + c, name);
    ShiftField(a, h, tail + c, FILESIZE_OFFSET, filesize);
    ShiftField(a, h, tail + c, NAMESIZE_OFFSET, |name| + 1);
  }

  lemma Regroup(a: string, h: string, tail: string, c: string)
    ensures a + (h + tail) + c == a + h + (tail + c)
  {
  }

  lemma EncodedFront(m: Meta, a: string, e: Entry, c: string)
    requires MetaOk(m) && Encodable(e)
    ensures var image := a + EncodeEntry(m, e) + c;
            && HeaderAt(image, |a|, e.name)
            && FieldIs(image, |a| + FILESIZE_OFFSET, |e.data|) && FieldIs(image, |a| + NAMESIZE_OFFSET, |e.name| + 1)
  {
    var h := EncodeHeader(m, |e.data|, e.name);
    var tail := Pad(|h|) + e.data + Pad(DataOffset(0, e) + |e.data|);
    assert EncodeEntry(m, e) == h + tail;
    Regroup(a, h, tail, c);
    FrontOfEncoded(m, a, h, tail, c, |e.data|, e.name);
  }

  lemma AssembleEntry(image: string, o: nat, e: Entry)
    requires o % 4 == 0 && Encodable(e) && HeaderAt(image, o, e.name)
    requires FieldIs(image, o + FILESIZE_OFFSET, |e.data|) && FieldIs(image, o + NAMESIZE_OFFSET, |e.name| + 1)
    requires o + NextOffset(0, e) <= |image|
    requires o + DataOffset(0, e) + |e.data| <= |image| &&
             image[o + DataOffset(0, e)..o + DataOffset(0, e) + |e.data|] == e.data
    ensures EntryAt(image, o, e)
  {
    ShiftOffsets(o, e);
  }

  lemma EncodedEntryAt(m: Meta, a: string, e: Entry, c: string)
    requires MetaOk(m) && |a| % 4 == 0 && Encodable(e)
    ensures EntryAt(a + EncodeEntry(m, e) + c, |a|, e)
    ensures NextOffset(|a|, e) == |a| + |EncodeEntry(m, e)| && NextOffset(|a|, e) % 4 == 0
  {
    EncodedFront(m, a, e, c);
    EncodedData(m, a, e, c);
    ShiftOffsets(|a|, e);
    AssembleEntry(a + EncodeEntry(m, e) + c, |a|, e);
  }

  /** The offsets of the headers. */
  function Offsets(entries: seq<Entry>): (offs: seq<nat>)
    ensures |offs| == |entries| + 1
  {
    if entries == [] then [0]
    else
      var init := Offsets(entries[..|entries| - 1]);
      init + [NextOffset(init[|entries| - 1], entries[|entries| - 1])]
  }

  lemma {:induction false} OffsetsLayout(entries: seq<Entry>)
    ensures Layout(entries, Offsets(entries))
    decreases |entries|
  {
    if entries != [] {
      var n := |entries| - 1;
      var init, offs := Offsets(entries[..n]), Offsets(entries);
      OffsetsLayout(entries[..n]);
      forall i | 0 <= i < |entries| ensures offs[i + 1] == NextOffset(offs[i], entries[i]) {
        if i < n { assert offs[i + 1] == init[i + 1] && offs[i] == init[i] && entries[..n][i] == entries[i]; }
      }
    }
  }

  lemma {:induction false} EncodedLength(m: Meta, entries: seq<Entry>)
    requires MetaOk(m) && forall i :: 0 <= i < |entries| ==> Encodable(entries[i])
    ensures |EncodeAll(m, entries)| == Offsets(entries)[|entries|] && |EncodeAll(m, entries)| % 4 == 0
    decreases |entries|
  {
    if entries != [] {
      var n := |entries| - 1;
      EncodedLength(m, entries[..n]);
      EncodedEntryAt(m, EncodeAll(m, entries[..n]), entries[n], []);
    }
  }

  /** The last entry, seen from the front and from the back. */
  lemma EncodeAllLast(m: Meta, entries: seq<Entry>, c: string)
    requires MetaOk(m) && entries != []
    ensures var n := |entries| - 1;
            && EncodeAll(m, entries) + c == EncodeAll(m, entries[..n]) + (EncodeEntry(m, entries[n]) + c)
            && EncodeAll(m, entries) + c == EncodeAll(m, entries[..n]) + EncodeEntry(m, entries[n]) + c
  {
  }

  lemma OffsetsInit(entries: seq<Entry>, i: nat)
    requires i < |entries|
    ensures Offsets(entries)[i] == Offsets(entries[..|entries| - 1])[i]
  {
  }

  lemma InitEncodable(entries: seq<Entry>)
    requires entries != [] && forall j :: 0 <= j < |entries| ==> Encodable(entries[j])
    ensures var init := entries[..|entries| - 1];
            Encodable(entries[|entries| - 1]) && forall j :: 0 <= j < |init| ==> Encodable(init[j])
  {
  }

  lemma {:induction false} EncodedEntries(m: Meta, entries: seq<Entry>, c: string, i: nat, image: string)
    requires MetaOk(m) && (forall j :: 0 <= j < |entries| ==> Encodable(entries[j])) && i < |entries|
    requires image == EncodeAll(m, entries) + c
    ensures EntryAt(image, Offsets(entries)[i], entries[i])
    decreases |entries|
  {
    var init, e := entries[..|entries| - 1], entries[|entries| - 1];
    EncodeAllLast(m, entries, c);
    OffsetsInit(entries, i);
    InitEncodable(entries);
    if i < |init| {
      assert init[i] == entries[i];
      EncodedEntries(m, init, EncodeEntry(m, e) + c, i, image);
    } else {
      LastEncoded(m, init, e, c, image);
    }
  }

  lemma LastEncoded(m: Meta, init: seq<Entry>, e: Entry, c: string, image: string)
    requires MetaOk(m) && (forall j :: 0 <= j < |init| ==> Encodable(init[j])) && Encodable(e)
    requires image == EncodeAll(m, init) + EncodeEntry(m, e) + c
    ensures EntryAt(image, Offsets(init)[|init|], e)
  {
    EncodedLength(m, init);
    EncodedEntryAt(m, EncodeAll(m, init), e, c);
  }

  lemma EncodedTrailer(m: Meta, entries: seq<Entry>, name: string)
    requires MetaOk(m) && '\0' !in name && forall i :: 0 <= i < |entries| ==> Encodable(entries[i])
    ensures HeaderAt(EncodeAll(m, entries) + EncodeHeader(m, 0, name), Offsets(entries)[|entries|], name)
  {
    var a, t := EncodeAll(m, entries), EncodeHeader(m, 0, name);
    EncodedLength(m, entries);
    EncodedName(m, 0, name);
    ShiftHeader(a, t, [], name);
    assert a + t + [] == a + t;
  }

  lemma EncodedBefore(m: Meta, entries: seq<Entry>, c: string)
    requires MetaOk(m) && forall i :: 0 <= i < |entries| ==> Encodable(entries[i])
    ensures forall i :: 0 <= i < |entries| ==> EntryAt(EncodeAll(m, entries) + c, Offsets(entries)[i], entries[i])
  {
    forall i | 0 <= i < |entries| ensures EntryAt(EncodeAll(m, entries) + c, Offsets(entries)[i], entries[i]) {
      EncodedEntries(m, entries, c, i, EncodeAll(m, entries) + c);
    }
  }

  /** What ArchiveOf says, for a trailer of any name. */
  lemma EncodedArchive(m: Meta, entries: seq<Entry>, name: string)
    requires MetaOk(m) && '\0' !in name && forall i :: 0 <= i < |entries| ==> Encodable(entries[i])
    ensures var image, offs := EncodeAll(m, entries) + EncodeHeader(m, 0, name), Offsets(entries);
            && Layout(entries, offs) && HeaderAt(image, offs[|entries|], name)
            && forall i :: 0 <= i < |entries| ==> EntryAt(image, offs[i], entries[i])
  {
    OffsetsLayout(entries);
    EncodedTrailer(m, entries, name);
    EncodedBefore(m, entries, EncodeHeader(m, 0, name));
  }

  lemma FooterHasNoNul()
    ensures '\0' !in FOOTER_MAGIC
  {
  }

  /** Every list of files that the format can express has an archive, so that CpioGetFile finds in it what
      was written. */
  lemma EncodeIsArchive(m: Meta, entries: seq<Entry>)
    requires MetaOk(m) && forall i :: 0 <= i < |entries| ==> Encodable(entries[i])
    ensures ArchiveOf(Encode(m, entries), entries, Offsets(entries))
  {
    FooterHasNoNul();
    EncodedArchive(m, entries, FOOTER_MAGIC);
  }
}
