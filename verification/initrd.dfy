/** The cpio archive walker of kernel/initrd.c on values: the New ASCII Format of cpio(5). */
module Cpio {
  import opened Options
  import opened Bits

  const TWO32: nat := 0x1_0000_0000
  const MAX_FILES: nat := 128
  const HEADER: nat := 110
  const FILESIZE_AT: nat := 54
  const NAMESIZE_AT: nat := 94

  /** Bytes by address. */
  type Mem = nat -> nat

  /** initrd_file_t: addresses of the name and the data. */
  datatype File = File(name: nat, size: nat, data: nat)

  const MAGIC: seq<nat> := [48, 55, 48, 55, 48, 49]
  const TRAILER: seq<nat> := [84, 82, 65, 73, 76, 69, 82, 33, 33, 33]

  predicate Holds(m: Mem, a: nat, s: seq<nat>) {
    forall i: nat | i < |s| :: m(a + i) == s[i]
  }

  /** A hexadecimal digit; other characters count as zero. */
  function Digit(c: nat): (d: nat)
    ensures d < 16
  {
    if 48 <= c <= 57 then c - 48
    else if 97 <= c <= 102 then c - 97 + 10
    else if 65 <= c <= 70 then c - 65 + 10
    else 0
  }

  /** The number that n digits at an address denote. */
  function Hex(m: Mem, a: nat, n: nat): nat {
    if n == 0 then 0 else Hex(m, a, n - 1) * 16 + Digit(m(a + n - 1))
  }

  function Align4(x: nat): (y: nat)
    ensures x <= y < x + 4 && y % 4 == 0
  {
    (x + 3) / 4 * 4
  }

  predicate IsTrailer(m: Mem, p: nat) {
    Hex(m, p + NAMESIZE_AT, 8) == 11 && Holds(m, p + HEADER, TRAILER)
  }

  function FileAt(m: Mem, p: nat): File {
    File(p + HEADER, Hex(m, p + FILESIZE_AT, 8), Align4(p + HEADER + Hex(m, p + NAMESIZE_AT, 8)))
  }

  /** Where the next header stands. */
  function After(f: File): nat {
    Align4(f.data + f.size)
  }

  /** A header at p that ends the walk, or whose contents reach past the end. */
  predicate Stops(m: Mem, p: nat, end: nat) {
    p + HEADER > end || !Holds(m, p, MAGIC) || IsTrailer(m, p) || After(FileAt(m, p)) > end
  }

  /** All entries from p on. */
  function Walk(m: Mem, p: nat, end: nat): seq<File>
    decreases if end > p then end - p else 0
  {
    if Stops(m, p, end) then [] else [FileAt(m, p)] + Walk(m, After(FileAt(m, p)), end)
  }

  /** One step of the walk, after the files already seen. */
  lemma WalkOn(m: Mem, p: nat, end: nat, seen: seq<File>)
    ensures var f := FileAt(m, p);
      && (Stops(m, p, end) ==> seen + Walk(m, p, end) == seen)
      && (!Stops(m, p, end) ==>
            && p < After(f) <= end
            && seen + Walk(m, p, end) == (seen + [f]) + Walk(m, After(f), end))
    ensures p + HEADER > end ==> Stops(m, p, end)
  {
    hide Holds, IsTrailer;
  }

  lemma FirstFilesMore(seen: seq<File>, f: File)
    ensures FirstFiles(seen + [f]) ==
            if |FirstFiles(seen)| < MAX_FILES then FirstFiles(seen) + [f] else FirstFiles(seen)
  {
  }

  lemma MagicIs(m: Mem, p: nat)
    ensures Holds(m, p, MAGIC) <==>
            m(p) == 48 && m(p + 1) == 55 && m(p + 2) == 48 && m(p + 3) == 55 && m(p + 4) == 48 && m(p + 5) == 49
  {
    if Holds(m, p, MAGIC) {
      assert m(p + 0) == MAGIC[0] && m(p + 1) == MAGIC[1] && m(p + 2) == MAGIC[2];
      assert m(p + 3) == MAGIC[3] && m(p + 4) == MAGIC[4] && m(p + 5) == MAGIC[5];
    } else {
      var i: nat :| i < 6 && m(p + i) != MAGIC[i];
      assert i == 0 || i == 1 || i == 2 || i == 3 || i == 4 || i == 5;
    }
  }

  function FirstFiles(fs: seq<File>): (r: seq<File>)
    ensures |r| <= MAX_FILES
  {
    if |fs| <= MAX_FILES then fs else fs[..MAX_FILES]
  }

  // --- arbitrary bytes ------------------------------------------------------------------------------

  /** Whatever the bytes are: every name and every data range lies between start and end,
      behind a header of its own, and entries neither overlap nor go back. */
  lemma {:induction false} WalkBounds(m: Mem, p: nat, end: nat)
    ensures var fs := Walk(m, p, end);
      && HEADER * |fs| <= (if end > p then end - p else 0)
      && (forall k | 0 <= k < |fs| :: p + HEADER <= fs[k].name <= fs[k].data && fs[k].data + fs[k].size <= end)
      && (forall k, l | 0 <= k < l < |fs| :: fs[k].data + fs[k].size + HEADER <= fs[l].name)
    decreases if end > p then end - p else 0
  {
    hide Holds, IsTrailer;
    if !Stops(m, p, end) {
      var f := FileAt(m, p);
      var rest := Walk(m, After(f), end);
      WalkBounds(m, After(f), end);
      var fs := Walk(m, p, end);
      assert fs == [f] + rest;
      forall k, l | 0 <= k < l < |fs| ensures fs[k].data + fs[k].size + HEADER <= fs[l].name {
        assert fs[l] == rest[l - 1];
        if k > 0 { assert fs[k] == rest[k - 1]; }
      }
    }
  }

  // --- hexadecimal ------------------------------------------------------------------------------------

  lemma {:induction false} HexBelow(m: Mem, a: nat, n: nat)
    ensures Hex(m, a, n) < Pow2(4 * n)
  {
    if n > 0 {
      HexBelow(m, a, n - 1);
      Times16(4 * (n - 1));
    }
  }

  lemma Times16(k: nat)
    ensures Pow2(k + 4) == 16 * Pow2(k)
  {
    assert Pow2(k + 4) == 2 * Pow2(k + 3) && Pow2(k + 3) == 2 * Pow2(k + 2);
    assert Pow2(k + 2) == 2 * Pow2(k + 1) && Pow2(k + 1) == 2 * Pow2(k);
  }

  function HexChar(d: nat, upper: bool): nat
    requires d < 16
  {
    if d < 10 then 48 + d else if upper then 65 + d - 10 else 97 + d - 10
  }

  /** A character counts as the digit it denotes, and as zero when it denotes none. */
  lemma DigitExact(c: nat)
    ensures forall d: nat, upper | d < 16 :: HexChar(d, upper) == c ==> Digit(c) == d
    ensures (forall d: nat, upper | d < 16 :: HexChar(d, upper) != c) ==> Digit(c) == 0
  {
    if 48 <= c <= 57 { assert HexChar(c - 48, true) == c; }
    if 65 <= c <= 70 { assert HexChar(c - 55, true) == c; }
    if 97 <= c <= 102 { assert HexChar(c - 87, false) == c; }
  }

  /** v in n digits. */
  function HexText(v: nat, n: nat, upper: bool): (s: seq<nat>)
    ensures |s| == n
  {
    if n == 0 then [] else HexText(v / 16, n - 1, upper) + [HexChar(v % 16, upper)]
  }

  /** Reading back a number written in hexadecimal, in either case. */
  lemma {:induction false} HexInverse(m: Mem, a: nat, v: nat, n: nat, upper: bool)
    requires v < Pow2(4 * n) && Holds(m, a, HexText(v, n, upper))
    ensures Hex(m, a, n) == v
  {
    if n > 0 {
      Times16(4 * (n - 1));
      var s := HexText(v / 16, n - 1, upper);
      assert HexText(v, n, upper) == s + [HexChar(v % 16, upper)];
      forall i: nat | i < |s| ensures m(a + i) == s[i] { assert HexText(v, n, upper)[i] == s[i]; }
      HexInverse(m, a, v / 16, n - 1, upper);
      assert m(a + (n - 1)) == HexText(v, n, upper)[n - 1];
    }
  }

  lemma Pow2Of32()
    ensures Pow2(32) == TWO32
  {
    Times16(0);
    Times16(4);
    Times16(8);
    Times16(12);
    Times16(16);
    Times16(20);
    Times16(24);
    Times16(28);
  }

  /** hex8_to_u32 inverts eight-digit hexadecimal. */
  lemma HexInverse32(m: Mem, a: nat, v: nat, upper: bool)
    requires v < TWO32 && Holds(m, a, HexText(v, 8, upper))
    ensures Hex(m, a, 8) == v
  {
    hide Hex, HexText, Holds, Pow2;
    Pow2Of32();
    HexInverse(m, a, v, 8, upper);
  }

  // --- archives ---------------------------------------------------------------------------------------

  /** A file of an archive; the other header fields may hold anything. */
  datatype Entry = Entry(name: seq<nat>, content: seq<nat>,
    before: seq<nat>, between: seq<nat>, check: seq<nat>, upper: bool)

  predicate ValidEntry(e: Entry) {
    && |e.name| + 1 < TWO32 && |e.content| < TWO32 && 0 !in e.name
    && |e.before| == 48 && |e.between| == 32 && |e.check| == 8
  }

  function Padding(n: nat): (s: seq<nat>)
    ensures (n + |s|) % 4 == 0 && |s| < 4
  {
    seq((4 - n % 4) % 4, _ => 0)
  }

  /** Header, name and its NUL, padding, contents, padding. */
  function Head(e: Entry): (s: seq<nat>)
    requires ValidEntry(e)
    ensures |s| == HEADER
  {
    MAGIC + e.before + HexText(|e.content|, 8, e.upper) + e.between + HexText(|e.name| + 1, 8, e.upper) + e.check
  }

  function Body(e: Entry): seq<nat> {
    e.name + [0] + Padding(HEADER + |e.name| + 1) + e.content + Padding(|e.content|)
  }

  function Encode(e: Entry): seq<nat>
    requires ValidEntry(e)
  {
    Head(e) + Body(e)
  }

  lemma EncodeLength(e: Entry)
    requires ValidEntry(e)
    ensures |Encode(e)| == HEADER + |Body(e)| > HEADER && |Encode(e)| % 4 == 0
  {
    hide Padding, Head;
    var pad, pad1 := Padding(HEADER + |e.name| + 1), Padding(|e.content|);
    assert |Body(e)| == |e.name| + 1 + |pad| + |e.content| + |pad1|;
  }

  function EndEntry(): (e: Entry)
    ensures ValidEntry(e) && e.name == TRAILER
  {
    Entry(TRAILER, [], seq(48, _ => 48), seq(32, _ => 48), seq(8, _ => 48), false)
  }

  function Archive(es: seq<Entry>): seq<nat>
    requires forall e | e in es :: ValidEntry(e)
  {
    if es == [] then Encode(EndEntry()) else Encode(es[0]) + Archive(es[1..])
  }

  /** The files before the first one that is named like the trailer. */
  function BeforeTrailer(es: seq<Entry>): seq<Entry> {
    if es == [] || es[0].name == TRAILER then [] else [es[0]] + BeforeTrailer(es[1..])
  }

  /** A table entry describes a file of the archive. */
  predicate Describes(m: Mem, f: File, e: Entry) {
    Holds(m, f.name, e.name + [0]) && f.size == |e.content| && Holds(m, f.data, e.content)
  }

  lemma HoldsConcat(m: Mem, a: nat, s: seq<nat>, t: seq<nat>)
    ensures Holds(m, a, s + t) <==> Holds(m, a, s) && Holds(m, a + |s|, t)
  {
    if Holds(m, a, s + t) {
      forall i: nat | i < |s| ensures m(a + i) == s[i] { assert (s + t)[i] == s[i]; }
      forall i: nat | i < |t| ensures m(a + |s| + i) == t[i] { assert (s + t)[|s| + i] == t[i] == m(a + (|s| + i)); }
    }
    if Holds(m, a, s) && Holds(m, a + |s|, t) {
      forall i: nat | i < |s + t| ensures m(a + i) == (s + t)[i] {
        if i >= |s| { assert m(a + |s| + (i - |s|)) == t[i - |s|]; }
      }
    }
  }

  lemma HeadHolds(m: Mem, p: nat, e: Entry)
    requires ValidEntry(e) && Holds(m, p, Head(e))
    ensures Holds(m, p, MAGIC)
    ensures Hex(m, p + FILESIZE_AT, 8) == |e.content| && Hex(m, p + NAMESIZE_AT, 8) == |e.name| + 1
  {
    hide Holds, Hex, HexText;
    var size, nsize := HexText(|e.content|, 8, e.upper), HexText(|e.name| + 1, 8, e.upper);
    var s1 := MAGIC + e.before;
    var s2 := s1 + size;
    var s3 := s2 + e.between;
    HoldsConcat(m, p, s3 + nsize, e.check);
    HoldsConcat(m, p, s3, nsize);
    HoldsConcat(m, p, s2, e.between);
    HoldsConcat(m, p, s1, size);
    HoldsConcat(m, p, MAGIC, e.before);
    HexInverse32(m, p + FILESIZE_AT, |e.content|, e.upper);
    HexInverse32(m, p + NAMESIZE_AT, |e.name| + 1, e.upper);
  }

  /** Padding fills up to the next multiple of four. */
  lemma AlignPads(p: nat, n: nat)
    requires p % 4 == 0
    ensures Align4(p + n) == p + n + |Padding(n)|
  {
  }

  lemma BodyHolds(m: Mem, p: nat, e: Entry)
    requires p % 4 == 0 && Holds(m, p + HEADER, Body(e))
    ensures Holds(m, p + HEADER, e.name + [0])
    ensures var data := Align4(p + HEADER + |e.name| + 1);
      Holds(m, data, e.content) && Align4(data + |e.content|) == p + HEADER + |Body(e)|
  {
    hide Holds, Align4, Padding;
    var n := HEADER + |e.name| + 1;
    var pad, pad1 := Padding(n), Padding(|e.content|);
    var s1 := e.name + [0];
    var s2 := s1 + pad;
    var s3 := s2 + e.content;
    HoldsConcat(m, p + HEADER, s3, pad1);
    HoldsConcat(m, p + HEADER, s2, e.content);
    HoldsConcat(m, p + HEADER, s1, pad);
    AlignPads(p, n);
    AlignPads(p + n + |pad|, |e.content|);
  }

  /** Only the name of the trailer looks like the trailer. */
  lemma TrailerName(m: Mem, a: nat, name: seq<nat>)
    requires Holds(m, a, name + [0])
    ensures |name| + 1 == 11 && Holds(m, a, TRAILER) <==> name == TRAILER
  {
    HoldsConcat(m, a, name, [0]);
    if |name| == 10 && Holds(m, a, TRAILER) {
      forall i | 0 <= i < 10 ensures name[i] == TRAILER[i] { assert m(a + i) == TRAILER[i]; }
    }
  }

  /** One encoded file, read back. */
  lemma EntryReadBack(m: Mem, p: nat, e: Entry)
    requires p % 4 == 0 && ValidEntry(e) && Holds(m, p, Encode(e))
    ensures Holds(m, p, MAGIC) && (IsTrailer(m, p) <==> e.name == TRAILER)
    ensures Describes(m, FileAt(m, p), e) && After(FileAt(m, p)) == p + |Encode(e)|
  {
    hide Holds, Hex, Body, Head;
    HoldsConcat(m, p, Head(e), Body(e));
    HeadHolds(m, p, e);
    BodyHolds(m, p, e);
    TrailerName(m, p + HEADER, e.name);
  }

  /** Round trip: on an archive that starts at a multiple of four, the walk finds exactly the
      files before the first one named like the trailer, in order, with their names, sizes
      and contents; so it finds all files exactly when none has that name. */
  lemma {:induction false} RoundTrip(m: Mem, p: nat, end: nat, es: seq<Entry>)
    requires p % 4 == 0 && (forall e | e in es :: ValidEntry(e))
    requires Holds(m, p, Archive(es)) && p + |Archive(es)| <= end
    ensures var fs, found := Walk(m, p, end), BeforeTrailer(es);
      && |fs| == |found|
      && (forall k | 0 <= k < |fs| :: Describes(m, fs[k], found[k]))
      && (found == es <==> forall e | e in es :: e.name != TRAILER)
    decreases es
  {
    hide Holds, Encode, IsTrailer, FileAt, After, Describes;
    if es == [] {
      EntryReadBack(m, p, EndEntry());
    } else {
      var e := es[0];
      HoldsConcat(m, p, Encode(e), Archive(es[1..]));
      EncodeLength(e);
      EntryReadBack(m, p, e);
      if e.name != TRAILER { RoundTrip(m, p + |Encode(e)|, end, es[1..]); }
    }
  }

  // --- damaged archives -----------------------------------------------------------------------------

  /** The files alone, without a trailer. */
  function Files(es: seq<Entry>): seq<nat>
    requires forall e | e in es :: ValidEntry(e)
  {
    if es == [] then [] else Encode(es[0]) + Files(es[1..])
  }

  /** Files in front of anything at all are found, and the walk goes on behind them. */
  lemma {:induction false} FilesThenRest(m: Mem, p: nat, end: nat, es: seq<Entry>)
    requires p % 4 == 0 && (forall e | e in es :: ValidEntry(e) && e.name != TRAILER)
    requires Holds(m, p, Files(es)) && p + |Files(es)| <= end
    ensures var (fs, q) := (Walk(m, p, end), p + |Files(es)|);
      && q % 4 == 0 && |fs| >= |es| && fs[|es|..] == Walk(m, q, end)
      && forall k | 0 <= k < |es| :: Describes(m, fs[k], es[k])
    decreases es
  {
    hide Holds, Encode, IsTrailer, FileAt, After, Describes;
    if es != [] {
      var e := es[0];
      HoldsConcat(m, p, Encode(e), Files(es[1..]));
      EncodeLength(e);
      EntryReadBack(m, p, e);
      FilesThenRest(m, p + |Encode(e)|, end, es[1..]);
      assert Walk(m, p, end)[1..] == Walk(m, p + |Encode(e)|, end);
    }
  }

  /** A damaged archive gives the files in front of the damage and no more, whether a header
      has a wrong character anywhere in its magic number or a file reaches past the end. */
  lemma DamagedArchive(m: Mem, p: nat, end: nat, es: seq<Entry>, e: Entry)
    requires p % 4 == 0 && (forall f | f in es :: ValidEntry(f) && f.name != TRAILER) && ValidEntry(e)
    requires Holds(m, p, Files(es)) && p + |Files(es)| <= end
    requires var q := p + |Files(es)|;
      || !Holds(m, q, MAGIC)
      || (Holds(m, q, Encode(e)) && q + |Encode(e)| > end)
    ensures var fs := Walk(m, p, end);
      |fs| == |es| && forall k | 0 <= k < |es| :: Describes(m, fs[k], es[k])
  {
    hide Holds, Encode, IsTrailer, FileAt, After, Describes, Files;
    FilesThenRest(m, p, end, es);
    var q := p + |Files(es)|;
    if Holds(m, q, Encode(e)) { EntryReadBack(m, q, e); }
    assert Walk(m, q, end) == [];
  }

  // --- finding ----------------------------------------------------------------------------------------

  /** initrd_find: the first file from k on whose NUL-terminated name is s. */
  function FindFile(m: Mem, fs: seq<File>, s: seq<nat>, k: nat): Option<nat>
    requires k <= |fs|
    decreases |fs| - k
  {
    if k == |fs| then None else if Holds(m, fs[k].name, s + [0]) then Some(k) else FindFile(m, fs, s, k + 1)
  }

  lemma HoldsNul(m: Mem, a: nat)
    requires Holds(m, a, [0])
    ensures m(a) == 0
  {
    assert m(a + 0) == [0][0];
  }

  lemma NotNul(m: Mem, a: nat, s: seq<nat>, k: nat)
    requires Holds(m, a, s) && 0 !in s && k < |s|
    ensures m(a + k) != 0
  {
    assert m(a + k) == s[k] && s[k] in s;
  }

  lemma SameName(m: Mem, a: nat, name: seq<nat>, s: seq<nat>)
    requires Holds(m, a, name + [0]) && 0 !in name && 0 !in s
    ensures Holds(m, a, s + [0]) <==> s == name
  {
    HoldsConcat(m, a, name, [0]);
    if Holds(m, a, s + [0]) {
      HoldsConcat(m, a, s, [0]);
      if |s| < |name| { NotNul(m, a, name, |s|); }
      if |name| < |s| { NotNul(m, a, s, |name|); }
      HoldsNul(m, a + |s|);
      HoldsNul(m, a + |name|);
      forall i | 0 <= i < |s| ensures s[i] == name[i] { assert m(a + i) == s[i]; }
    }
  }

  /** On the table of an archive initrd_find gives the first file with an equal name, and
      nothing when there is none. */
  lemma {:induction false} FindIsFirst(m: Mem, fs: seq<File>, es: seq<Entry>, s: seq<nat>, k: nat)
    requires |fs| <= |es| && k <= |fs| && 0 !in s
    requires forall j | 0 <= j < |fs| :: Describes(m, fs[j], es[j]) && 0 !in es[j].name
    ensures FindFile(m, fs, s, k).None? <==> forall j | k <= j < |fs| :: es[j].name != s
    ensures FindFile(m, fs, s, k).Some? ==>
              var i := FindFile(m, fs, s, k).value;
              k <= i < |fs| && es[i].name == s && forall j | k <= j < i :: es[j].name != s
    decreases |fs| - k
  {
    hide Holds;
    if k < |fs| {
      SameName(m, fs[k].name, es[k].name, s);
      FindIsFirst(m, fs, es, s, k + 1);
    }
  }

  lemma BeforeTrailerValid(es: seq<Entry>)
    requires forall e | e in es :: ValidEntry(e)
    ensures forall e | e in BeforeTrailer(es) :: ValidEntry(e) && e.name != TRAILER
  {
  }

  /** From archive to lookup: the table holds the first 128 files, and a lookup by name gives
      the first of them that has it. */
  lemma LookupInArchive(m: Mem, p: nat, end: nat, es: seq<Entry>, s: seq<nat>)
    requires p % 4 == 0 && (forall e | e in es :: ValidEntry(e)) && 0 !in s
    requires Holds(m, p, Archive(es)) && p + |Archive(es)| <= end
    ensures var table, found := FirstFiles(Walk(m, p, end)), BeforeTrailer(es);
      var k := FindFile(m, table, s, 0);
      && |table| == Min(|found|, MAX_FILES)
      && (forall j | 0 <= j < |table| :: Describes(m, table[j], found[j]))
      && (k.None? <==> forall j | 0 <= j < |table| :: found[j].name != s)
      && (k.Some? ==>
            && k.value < |table| && found[k.value].name == s
            && (forall j | 0 <= j < k.value :: found[j].name != s))
  {
    RoundTrip(m, p, end, es);
    BeforeTrailerValid(es);
    hide Holds, Describes, Walk, Archive, BeforeTrailer;
    var table, found := FirstFiles(Walk(m, p, end)), BeforeTrailer(es);
    forall j | 0 <= j < |table| ensures 0 !in found[j].name { assert found[j] in found; }
    FindIsFirst(m, table, found, s, 0);
  }

  // --- reading ----------------------------------------------------------------------------------------

  function Bytes(m: Mem, a: nat, n: nat): (s: seq<nat>)
    ensures |s| == n && forall i: nat | i < n :: s[i] == m(a + i)
  {
    seq(n, i requires 0 <= i < n => m(a + i))
  }

  /** The bytes initrd_read copies; the sum of offset and length is taken in 64 bits. */
  function ReadLen(f: File, off: nat, len: nat): nat {
    if off >= f.size then 0 else if (off + len) % TWO64 > f.size then f.size - off else len
  }

  function Read(m: Mem, f: File, off: nat, len: nat): seq<nat> {
    Bytes(m, f.data + off, ReadLen(f, off, len))
  }

  function Min(a: nat, b: nat): nat {
    if a <= b then a else b
  }

  /** initrd_read gives exactly the wanted part of the file if and only if the offset is past
      the end or offset and length together stay within 64 bits. */
  lemma ReadExact(m: Mem, f: File, off: nat, len: nat)
    requires f.size < TWO32 && off < TWO64 && len < TWO64
    ensures Read(m, f, off, len) == Bytes(m, f.data, f.size)[Min(off, f.size)..Min(off + len, f.size)]
            <==> off >= f.size || off + len < TWO64
  {
    var want := Bytes(m, f.data, f.size)[Min(off, f.size)..Min(off + len, f.size)];
    if off >= f.size || off + len < TWO64 {
      assert |Read(m, f, off, len)| == |want|;
      forall i: nat | i < |want| ensures Read(m, f, off, len)[i] == want[i] {
        assert f.data + (off + i) == f.data + off + i;
      }
      assert Read(m, f, off, len) == want;
    } else {
      assert |want| == f.size - off < len;
    }
  }

  /** Reading with the given buffer sizes one after the other, until nothing comes. */
  function ReadChunks(m: Mem, f: File, off: nat, sizes: seq<nat>): seq<nat>
    decreases sizes
  {
    if sizes == [] then []
    else
      var got := Read(m, f, off, sizes[0]);
      if got == [] then [] else got + ReadChunks(m, f, off + |got|, sizes[1..])
  }

  function Sum(sizes: seq<nat>): nat {
    if sizes == [] then 0 else sizes[0] + Sum(sizes[1..])
  }

  /** Whatever the positive buffer sizes, the chunks put together are the file from the offset
      on, as far as the buffers reach. */
  lemma {:induction false} ChunksConcatenate(m: Mem, f: File, off: nat, sizes: seq<nat>)
    requires f.size < TWO32 && off <= f.size
    requires forall n | n in sizes :: 0 < n && f.size + n < TWO64
    ensures ReadChunks(m, f, off, sizes) == Bytes(m, f.data, f.size)[off..Min(off + Sum(sizes), f.size)]
    decreases sizes
  {
    hide Bytes, Read;
    if sizes != [] {
      var n := sizes[0];
      assert n in sizes;
      ReadExact(m, f, off, n);
      var got := Read(m, f, off, n);
      assert got == Bytes(m, f.data, f.size)[off..Min(off + n, f.size)];
      if got != [] {
        assert forall k | k in sizes[1..] :: k in sizes;
        ChunksConcatenate(m, f, off + |got|, sizes[1..]);
      }
    }
  }
}

/** kernel/initrd.c: the table of files and the loops over memory. */
module InitialRamdisk {
  import opened Options
  import opened Bits
  import opened Cpio

  class Initrd {
    const mem: Mem
    const files: array<File>
    var count: nat

    ghost predicate Valid()
      reads this
    {
      files.Length == MAX_FILES && count <= MAX_FILES
    }

    constructor (m: Mem)
      ensures Valid() && fresh(files) && mem == m && count == 0
    {
      mem := m;
      files := new File[MAX_FILES](_ => File(0, 0, 0));
      count := 0;
    }

    /** hex8_to_u32, in 32 bits. */
    method Hex8(a: nat) returns (v: nat)
      ensures v == Hex(mem, a, 8)
    {
      v := 0;
      for i := 0 to 8
        invariant v == Hex(mem, a, i)
      {
        var c := mem(a + i);
        var d: nat;
        if 48 <= c <= 57 { d := c - 48; }
        else if 97 <= c <= 102 { d := c - 97 + 10; }
        else if 65 <= c <= 70 { d := c - 65 + 10; }
        else { d := 0; }
        HexBelow(mem, a, i);
        ShiftIn(v, d, i);
        v := Or(Shl(v, 4) % TWO32, d);
      }
    }

    /** memcmp_simple, against a constant. */
    method Memcmp(a: nat, s: seq<nat>) returns (diff: int)
      ensures diff == 0 <==> Holds(mem, a, s)
      ensures diff != 0 ==> exists i: nat | i < |s| :: Holds(mem, a, s[..i]) && diff == mem(a + i) - s[i]
    {
      for i := 0 to |s|
        invariant forall j: nat | j < i :: mem(a + j) == s[j]
      {
        if mem(a + i) != s[i] {
          assert Holds(mem, a, s[..i]);
          return mem(a + i) - s[i];
        }
      }
      return 0;
    }

    /** strcmp_simple, against a string given as its characters. */
    method Strcmp(a: nat, s: seq<nat>) returns (diff: int)
      requires 0 !in s
      ensures diff == 0 <==> Holds(mem, a, s + [0])
      ensures diff != 0 ==> exists i: nat | i <= |s| :: Holds(mem, a, s[..i]) && diff == mem(a + i) - (s + [0])[i]
    {
      var i := 0;
      while i < |s| && mem(a + i) != 0 && mem(a + i) == s[i]
        invariant i <= |s| && forall j: nat | j < i :: mem(a + j) == s[j]
      {
        i := i + 1;
      }
      diff := mem(a + i) - if i < |s| then s[i] else 0;
      if i < |s| { assert (s + [0])[i] == s[i] != 0; } else { assert (s + [0])[i] == 0; }
      assert Holds(mem, a, s[..i]) && diff == mem(a + i) - (s + [0])[i];
    }

    /** One round of initrd_init's loop over headers: None where it breaks off. */
    method Parse(start: nat, end: nat) returns (f: Option<File>)
      requires start + HEADER <= end && end + 2 * TWO32 + HEADER + 6 <= TWO64
      ensures f == if Stops(mem, start, end) then None else Some(FileAt(mem, start))
    {
      hide Hex;
      var p := start;
      MagicIs(mem, p);
      if mem(p) != 48 || mem(p + 1) != 55 || mem(p + 2) != 48 ||
         mem(p + 3) != 55 || mem(p + 4) != 48 || mem(p + 5) != 49 {
        return None;
      }
      var namesize := Hex8(p + NAMESIZE_AT);
      var filesize := Hex8(p + FILESIZE_AT);
      p := p + HEADER;
      var name := p;
      if namesize == 11 {
        var diff := Memcmp(name, TRAILER);
        if diff == 0 { return None; }
      }
      p := p + namesize;
      p := Align4(p);
      var data := p;
      p := p + filesize;
      p := Align4(p);
      if p > end { return None; }
      return Some(File(name, filesize, data));
    }

    /** initrd_init */
    method Init(start: nat, end: nat)
      requires Valid() && end + 2 * TWO32 + HEADER + 6 <= TWO64
      modifies this, files
      ensures Valid() && files[..count] == FirstFiles(Walk(mem, start, end))
    {
      assert FirstFiles([]) == [];
      hide Stops, Walk, FileAt, After, FirstFiles;
      count := 0;
      var p := start;
      ghost var seen: seq<File> := [];
      while p + HEADER <= end
        invariant count <= MAX_FILES && files[..count] == FirstFiles(seen)
        invariant seen + Walk(mem, p, end) == Walk(mem, start, end)
        decreases end - p
      {
        WalkOn(mem, p, end, seen);
        var f := Parse(p, end);
        if f == None { break; }
        FirstFilesMore(seen, f.value);
        if count < MAX_FILES {
          files[count] := f.value;
          count := count + 1;
        }
        seen := seen + [f.value];
        p := After(f.value);
      }
      WalkOn(mem, p, end, seen);
    }

    /** initrd_find */
    method Find(s: seq<nat>) returns (k: Option<nat>)
      requires Valid() && 0 !in s
      ensures k == FindFile(mem, files[..count], s, 0)
    {
      for i := 0 to count
        invariant FindFile(mem, files[..count], s, 0) == FindFile(mem, files[..count], s, i)
      {
        var diff := Strcmp(files[i].name, s);
        if diff == 0 { return Some(i); }
      }
      return None;
    }

    /** initrd_read */
    method Read(f: Option<File>, off: nat, buf: array<nat>, len: nat) returns (n: nat)
      requires off < TWO64 && len < TWO64 && len <= buf.Length
      modifies buf
      ensures n == if f.Some? then ReadLen(f.value, off, len) else 0
      ensures n <= buf.Length
      ensures f.Some? ==> buf[..n] == Cpio.Read(mem, f.value, off, len)
      ensures buf[n..] == old(buf[n..])
    {
      if f == None || off >= f.value.size { return 0; }
      n := len;
      if (off + n) % TWO64 > f.value.size { n := f.value.size - off; }
      var src := f.value.data + off;
      for i := 0 to n
        invariant forall j: nat | j < i :: buf[j] == mem(src + j)
        invariant buf[i..] == old(buf[i..])
      {
        buf[i] := mem(src + i);
      }
    }
  }

  /** Shifting a digit into a number of at most seven digits loses nothing. */
  lemma ShiftIn(v: nat, d: nat, i: nat)
    requires i < 8 && v < Pow2(4 * i) && d < 16
    ensures Or(Shl(v, 4) % TWO32, d) == v * 16 + d
  {
    hide Or, Shl, Pow2;
    Pow2Grows(4 * i, 28);
    Times16(28);
    Pow2Of32();
    Shl4(v);
    Pow2Of4();
    OrShl(v, d, 4);
  }

  lemma {:induction false} Pow2Grows(j: nat, k: nat)
    requires j <= k
    ensures Pow2(j) <= Pow2(k)
    decreases k - j
  {
    if j < k { Pow2Grows(j, k - 1); }
  }

  lemma Shl4(v: nat)
    ensures Shl(v, 4) == 16 * v
  {
    assert Shl(v, 3) == 8 * v by { Shl3(v); }
  }

  lemma Pow2Of4()
    ensures Pow2(4) == 16
  {
  }
}
