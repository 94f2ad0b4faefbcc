/** The ELF inspection of the release gate for Android packages. */
module ElfInspection {
  import opened ByteData
  import opened Common

  datatype Result<+T> = Ok(value: T) | Err(error: string)

  /** Class and machine each supported ABI must have. */
  const ABIS: map<string, (nat, nat)> :=
    map["armeabi-v7a" := (1, 40), "arm64-v8a" := (2, 183), "x86" := (1, 3), "x86_64" := (2, 62)]

  const PT_LOAD: nat := 1
  const PAGE_16KB: nat := 16384

  // ----- numbers

  /** The unsigned number in the `n` bytes at `at`; reading is only possible in bounds. */
  function Unpack(little: bool, data: Bytes, at: nat, n: nat): (v: nat)
    requires at + n <= |data|
    decreases n
  {
    if n == 0 then 0
    else if little then data[at] as nat + 256 * Unpack(little, data, at + 1, n - 1)
    else 256 * Unpack(little, data, at, n - 1) + data[at + n - 1] as nat
  }

  /** `a & b` on unbounded naturals. */
  function BitAnd(a: nat, b: nat): (r: nat) {
    if a == 0 || b == 0 then 0 else (if a % 2 == 1 && b % 2 == 1 then 1 else 0) + 2 * BitAnd(a / 2, b / 2)
  }

  function Pow2(k: nat): (p: nat)
    ensures p > 0
  {
    if k == 0 then 1 else 2 * Pow2(k - 1)
  }

  ghost predicate IsPow2(x: nat) {
    exists k: nat :: x == Pow2(k)
  }

  lemma {:induction false} BitAndSelf(a: nat)
    ensures BitAnd(a, a) == a
  {
    if a > 0 {
      BitAndSelf(a / 2);
    }
  }

  /** Clearing the lowest set bit leaves nothing exactly for a power of two. */
  lemma {:induction false} LowestBitTrick(x: nat)
    requires x > 0
    ensures BitAnd(x, x - 1) == 0 <==> IsPow2(x)
  {
    if x == 1 {
      assert x == Pow2(0);
    } else if x % 2 == 0 {
      LowestBitTrick(x / 2);
      assert (x - 1) / 2 == x / 2 - 1 && BitAnd(x, x - 1) == 2 * BitAnd(x / 2, x / 2 - 1);
      if IsPow2(x / 2) {
        var k: nat :| x / 2 == Pow2(k);
        assert x == Pow2(k + 1);
      }
      if IsPow2(x) {
        var k: nat :| x == Pow2(k);
        assert x / 2 == Pow2(k - 1);
      }
    } else {
      BitAndSelf(x / 2);
      assert BitAnd(x, x - 1) == 2 * BitAnd(x / 2, x / 2);
    }
  }

  // ----- what a well-formed library is

  /** The program header table, with the field positions of its class. */
  datatype Table = Table(is64: bool, little: bool, phoff: nat, entsize: nat, count: nat)
  {
    function Width(): (n: nat) { if is64 then 8 else 4 }

    function HeaderSize(): (n: nat) { if is64 then 56 else 32 }

    predicate Within(data: Bytes) {
      HeaderSize() <= entsize && phoff + count * entsize <= |data|
    }

    function At(i: nat): (at: nat) { phoff + i * entsize }
  }

  /** One program header. */
  datatype Segment = Segment(kind: nat, offset: nat, address: nat, fileSize: nat, memorySize: nat, alignment: nat)

  lemma HeaderInBounds(data: Bytes, t: Table, i: nat)
    requires t.Within(data) && i < t.count
    ensures t.At(i) + t.HeaderSize() <= |data|
  {
    assert (i + 1) * t.entsize <= t.count * t.entsize by {
      var rest := t.count - i - 1;
      assert t.count * t.entsize == (i + 1) * t.entsize + rest * t.entsize;
    }
  }

  function ReadSegment(data: Bytes, t: Table, at: nat): (s: Segment)
    requires at + t.HeaderSize() <= |data|
  {
    var w := t.Width();
    var first := at + if t.is64 then 8 else 4;
    var sizes := at + if t.is64 then 32 else 16;
    Segment(Unpack(t.little, data, at, 4),
            Unpack(t.little, data, first, w), Unpack(t.little, data, first + w, w),
            Unpack(t.little, data, sizes, w), Unpack(t.little, data, sizes + w, w),
            Unpack(t.little, data, at + if t.is64 then 48 else 28, w))
  }

  /** A loadable segment lies in the file and in its own memory image, and file offset and address
      agree modulo an alignment that is a power of two. */
  ghost predicate GoodSegment(data: Bytes, s: Segment) {
    s.kind == PT_LOAD ==>
      && s.fileSize <= s.memorySize
      && s.offset + s.fileSize <= |data|
      && (s.alignment > 1 ==> IsPow2(s.alignment) && s.offset % s.alignment == s.address % s.alignment)
  }

  function Segments(data: Bytes, t: Table, n: nat): (s: seq<Segment>)
    requires t.Within(data) && n <= t.count
    ensures |s| == n
  {
    if n == 0 then []
    else
      HeaderInBounds(data, t, n - 1);
      Segments(data, t, n - 1) + [ReadSegment(data, t, t.At(n - 1))]
  }

  function LoadAlignments(s: seq<Segment>): (a: seq<nat>) {
    if s == [] then []
    else
      var rest := LoadAlignments(s[..|s| - 1]);
      if s[|s| - 1].kind == PT_LOAD then rest + [s[|s| - 1].alignment] else rest
  }

  ghost predicate AllGood(data: Bytes, s: seq<Segment>) {
    forall i | 0 <= i < |s| :: GoodSegment(data, s[i])
  }

  /** The identification and the fixed part of the header are acceptable. */
  predicate GoodHeader(data: Bytes, abi: Option<string>) {
    && |data| >= 64
    && data[..4] == [0x7f, 0x45, 0x4c, 0x46]
    && (data[5] == 1 || data[5] == 2)
    && (data[4] == 1 || data[4] == 2)
    && data[6] == 1
    && Unpack(data[5] == 1, data, 16, 2) == 3
    && Unpack(data[5] == 1, data, 20, 4) == 1
    && (abi.Some? ==> abi.value in ABIS && data[5] == 1
                      && ABIS[abi.value] == (data[4] as nat, Unpack(data[5] == 1, data, 18, 2)))
  }

  function TableOf(data: Bytes): (t: Table)
    requires |data| >= 64
  {
    var little := data[5] == 1;
    if data[4] == 2
    then Table(true, little, Unpack(little, data, 32, 8), Unpack(little, data, 54, 2), Unpack(little, data, 56, 2))
    else Table(false, little, Unpack(little, data, 28, 4), Unpack(little, data, 42, 2), Unpack(little, data, 44, 2))
  }

  ghost predicate Accepted(data: Bytes, abi: Option<string>) {
    && GoodHeader(data, abi)
    && var t := TableOf(data);
    && 1 <= t.count <= 1024
    && t.Within(data)
    && AllGood(data, Segments(data, t, t.count))
    && LoadAlignments(Segments(data, t, t.count)) != []
  }

  // ----- the layout of the headers

  function Pow256(n: nat): (p: nat)
    ensures p > 0
  {
    if n == 0 then 1 else 256 * Pow256(n - 1)
  }

  /** A number stored in `n` bytes. */
  function Pack(little: bool, v: nat, n: nat): (b: Bytes)
    ensures |b| == n
  {
    if n == 0 then []
    else if little then [(v % 256) as byte] + Pack(little, v / 256, n - 1)
    else Pack(little, v / 256, n - 1) + [(v % 256) as byte]
  }

  lemma {:induction false} UnpackPack(little: bool, v: nat, n: nat, data: Bytes, at: nat)
    requires at + n <= |data| && data[at..at + n] == Pack(little, v, n) && v < Pow256(n)
    ensures Unpack(little, data, at, n) == v
  {
    if n > 0 {
      var b := Pack(little, v, n);
      assert forall i | 0 <= i < n :: data[at + i] == data[at..at + n][i] == b[i];
      if little {
        assert data[at + 1..at + 1 + (n - 1)] == b[1..];
        UnpackPack(little, v / 256, n - 1, data, at + 1);
      } else {
        assert data[at..at + (n - 1)] == b[..n - 1];
        UnpackPack(little, v / 256, n - 1, data, at);
      }
    }
  }

  /** A field of a header: its width in bytes and its value. */
  datatype Field = Field(width: nat, value: nat)

  /** The fields stand at `at`, one after the other. */
  predicate Stands(little: bool, fields: seq<Field>, data: Bytes, at: nat)
    decreases |fields|
  {
    fields == [] ||
    var (w, v) := (fields[0].width, fields[0].value);
    && at + w <= |data| && v < Pow256(w) && data[at..at + w] == Pack(little, v, w)
    && Stands(little, fields[1..], data, at + w)
  }

  lemma HeadField(little: bool, a: Field, rest: seq<Field>, data: Bytes, at: nat)
    requires Stands(little, [a] + rest, data, at)
    ensures at + a.width <= |data| && Unpack(little, data, at, a.width) == a.value
    ensures Stands(little, rest, data, at + a.width)
  {
    assert ([a] + rest)[1..] == rest;
    UnpackPack(little, a.value, a.width, data, at);
  }

  lemma TwoFields(little: bool, a: Field, b: Field, rest: seq<Field>, data: Bytes, at: nat)
    requires Stands(little, [a, b] + rest, data, at)
    ensures at + a.width + b.width <= |data| && Stands(little, rest, data, at + a.width + b.width)
    ensures Unpack(little, data, at, a.width) == a.value && Unpack(little, data, at + a.width, b.width) == b.value
  {
    assert [a, b] + rest == [a] + ([b] + rest);
    HeadField(little, a, [b] + rest, data, at);
    HeadField(little, b, rest, data, at + a.width);
  }

  /** The first four fields, and where the others stand. */
  lemma FourFields(little: bool, a: Field, b: Field, c: Field, d: Field, rest: seq<Field>, data: Bytes, at: nat)
    requires Stands(little, [a, b, c, d] + rest, data, at)
    ensures at + a.width + b.width + c.width + d.width <= |data|
    ensures Unpack(little, data, at, a.width) == a.value && Unpack(little, data, at + a.width, b.width) == b.value
    ensures Unpack(little, data, at + a.width + b.width, c.width) == c.value
    ensures Unpack(little, data, at + a.width + b.width + c.width, d.width) == d.value
    ensures Stands(little, rest, data, at + a.width + b.width + c.width + d.width)
  {
    assert [a, b, c, d] + rest == [a, b] + ([c, d] + rest);
    TwoFields(little, a, b, [c, d] + rest, data, at);
    TwoFields(little, c, d, rest, data, at + a.width + b.width);
  }

  /** A program header of the 64-bit class, as the System V ABI orders its fields: type, flags, offset,
      virtual and physical address, file and memory size, alignment. */
  lemma ReadsProgramHeader64(data: Bytes, t: Table, at: nat, s: Segment, flags: nat, physical: nat)
    requires t.is64 && Stands(t.little, [Field(4, s.kind), Field(4, flags), Field(8, s.offset), Field(8, s.address)]
                                        + [Field(8, physical), Field(8, s.fileSize), Field(8, s.memorySize),
                                           Field(8, s.alignment)], data, at)
    ensures at + 56 <= |data| && ReadSegment(data, t, at) == s
  {
    var rest := [Field(8, physical), Field(8, s.fileSize), Field(8, s.memorySize), Field(8, s.alignment)];
    FourFields(t.little, Field(4, s.kind), Field(4, flags), Field(8, s.offset), Field(8, s.address), rest, data, at);
    assert rest + [] == rest;
    FourFields(t.little, rest[0], rest[1], rest[2], rest[3], [], data, at + 24);
  }

  /** A program header of the 32-bit class: type, offset, virtual and physical address, file and memory
      size, flags, alignment. */
  lemma ReadsProgramHeader32(data: Bytes, t: Table, at: nat, s: Segment, flags: nat, physical: nat)
    requires !t.is64 && Stands(t.little, [Field(4, s.kind), Field(4, s.offset), Field(4, s.address), Field(4, physical)]
                                         + [Field(4, s.fileSize), Field(4, s.memorySize), Field(4, flags),
                                            Field(4, s.alignment)], data, at)
    ensures at + 32 <= |data| && ReadSegment(data, t, at) == s
  {
    var rest := [Field(4, s.fileSize), Field(4, s.memorySize), Field(4, flags), Field(4, s.alignment)];
    FourFields(t.little, Field(4, s.kind), Field(4, s.offset), Field(4, s.address), Field(4, physical), rest, data, at);
    assert rest + [] == rest;
    FourFields(t.little, rest[0], rest[1], rest[2], rest[3], [], data, at + 16);
  }

  /** The fixed part of the file header after its 16 identification bytes: type, machine, version, entry,
      program and section header offset, flags, and the sizes and counts of the two tables.  Addresses and
      offsets have the width of the class. */
  lemma ReadsFileHeader64(data: Bytes, kind: nat, machine: nat, version: nat, entry: nat, phoff: nat, shoff: nat,
                          flags: nat, ehsize: nat, phentsize: nat, phnum: nat, shentsize: nat, shnum: nat)
    requires |data| >= 64 && data[4] == 2
    requires Stands(data[5] == 1, [Field(2, kind), Field(2, machine), Field(4, version), Field(8, entry)]
                                  + ([Field(8, phoff), Field(8, shoff), Field(4, flags), Field(2, ehsize)]
                                     + [Field(2, phentsize), Field(2, phnum), Field(2, shentsize), Field(2, shnum)]),
                    data, 16)
    ensures Unpack(data[5] == 1, data, 16, 2) == kind && Unpack(data[5] == 1, data, 18, 2) == machine
    ensures Unpack(data[5] == 1, data, 20, 4) == version
    ensures TableOf(data) == Table(true, data[5] == 1, phoff, phentsize, phnum)
  {
    var le := data[5] == 1;
    var last := [Field(2, phentsize), Field(2, phnum), Field(2, shentsize), Field(2, shnum)];
    var middle := [Field(8, phoff), Field(8, shoff), Field(4, flags), Field(2, ehsize)];
    FourFields(le, Field(2, kind), Field(2, machine), Field(4, version), Field(8, entry), middle + last, data, 16);
    FourFields(le, middle[0], middle[1], middle[2], middle[3], last, data, 32);
    assert last + [] == last;
    FourFields(le, last[0], last[1], last[2], last[3], [], data, 54);
  }

  lemma ReadsFileHeader32(data: Bytes, kind: nat, machine: nat, version: nat, entry: nat, phoff: nat, shoff: nat,
                          flags: nat, ehsize: nat, phentsize: nat, phnum: nat, shentsize: nat, shnum: nat)
    requires |data| >= 64 && data[4] == 1
    requires Stands(data[5] == 1, [Field(2, kind), Field(2, machine), Field(4, version), Field(4, entry)]
                                  + ([Field(4, phoff), Field(4, shoff), Field(4, flags), Field(2, ehsize)]
                                     + [Field(2, phentsize), Field(2, phnum), Field(2, shentsize), Field(2, shnum)]),
                    data, 16)
    ensures Unpack(data[5] == 1, data, 16, 2) == kind && Unpack(data[5] == 1, data, 18, 2) == machine
    ensures Unpack(data[5] == 1, data, 20, 4) == version
    ensures TableOf(data) == Table(false, data[5] == 1, phoff, phentsize, phnum)
  {
    var le := data[5] == 1;
    var last := [Field(2, phentsize), Field(2, phnum), Field(2, shentsize), Field(2, shnum)];
    var middle := [Field(4, phoff), Field(4, shoff), Field(4, flags), Field(2, ehsize)];
    FourFields(le, Field(2, kind), Field(2, machine), Field(4, version), Field(4, entry), middle + last, data, 16);
    FourFields(le, middle[0], middle[1], middle[2], middle[3], last, data, 28);
    assert last + [] == last;
    FourFields(le, last[0], last[1], last[2], last[3], [], data, 42);
  }

  // ----- the parser

  /** The tests on the identification and the fixed part of the header. */
  method CheckHeader(data: Bytes, abi: Option<string>) returns (error: Option<string>)
    ensures error.None? <==> GoodHeader(data, abi)
  {
    if |data| < 64 || data[..4] != [0x7f, 0x45, 0x4c, 0x46] || (data[5] != 1 && data[5] != 2) {
      return Some("Malformed native ELF library");
    }
    var little := data[5] == 1;
    var kind, machine, version :=
      Unpack(little, data, 16, 2), Unpack(little, data, 18, 2), Unpack(little, data, 20, 4);
    if data[6] != 1 || version != 1 {
      return Some("Unknown ELF version");
    }
    if kind != 3 {
      return Some("Native runtime must be a shared ELF object");
    }
    if abi.Some? && (abi.value !in ABIS || ABIS[abi.value] != (data[4] as nat, machine) || data[5] != 1) {
      return Some("Native ELF ABI differs from its APK directory");
    }
    if data[4] != 1 && data[4] != 2 {
      return Some("Unknown ELF class");
    }
    return None;
  }

  /** `elf_load_alignments`: for every byte string, either an error or the alignments of the loadable
      segments of an acceptable library. */
  method ElfLoadAlignments(data: Bytes, abi: Option<string>) returns (r: Result<seq<nat>>)
    ensures r.Ok? <==> Accepted(data, abi)
    ensures r.Ok? ==> r.value == LoadAlignments(Segments(data, TableOf(data), TableOf(data).count))
  {
    var error := CheckHeader(data, abi);
    if error.Some? {
      return Err(error.value);
    }
    var t := TableOf(data);
    if t.entsize < t.HeaderSize() || t.count == 0 || t.count > 1024 || t.phoff + t.count * t.entsize > |data| {
      return Err("Invalid ELF program headers");
    }
    r := ReadLoads(data, t);
  }

  lemma {:induction false} SegmentAt(data: Bytes, t: Table, i: nat, n: nat)
    requires t.Within(data) && i < n <= t.count
    ensures t.At(i) + t.HeaderSize() <= |data|
    ensures Segments(data, t, n)[i] == ReadSegment(data, t, t.At(i))
  {
    if i < n - 1 {
      SegmentAt(data, t, i, n - 1);
    } else {
      HeaderInBounds(data, t, i);
    }
  }

  lemma OneMoreSegment(data: Bytes, t: Table, n: nat, s: Segment)
    requires t.Within(data) && n < t.count
    requires Segments(data, t, n + 1) == Segments(data, t, n) + [s]
    ensures LoadAlignments(Segments(data, t, n + 1))
            == LoadAlignments(Segments(data, t, n)) + (if s.kind == PT_LOAD then [s.alignment] else [])
    ensures AllGood(data, Segments(data, t, n + 1)) <==> AllGood(data, Segments(data, t, n)) && GoodSegment(data, s)
  {
    var before, after := Segments(data, t, n), Segments(data, t, n + 1);
    assert after[..|after| - 1] == before;
    if AllGood(data, after) {
      assert after[n] == s;
      forall i | 0 <= i < n ensures GoodSegment(data, before[i]) { assert after[i] == before[i]; }
    }
  }

  /** The two tests of one loadable segment. */
  method CheckLoad(data: Bytes, s: Segment) returns (error: Option<string>)
    requires s.kind == PT_LOAD
    ensures error.None? <==> GoodSegment(data, s)
  {
    if s.fileSize > s.memorySize || s.offset + s.fileSize > |data| {
      return Some("ELF load segment exceeds its file or memory bounds");
    }
    if s.alignment > 1 {
      LowestBitTrick(s.alignment);
      if BitAnd(s.alignment, s.alignment - 1) != 0 || s.offset % s.alignment != s.address % s.alignment {
        return Some("Invalid ELF load segment alignment");
      }
    }
    return None;
  }

  method ReadLoads(data: Bytes, t: Table) returns (r: Result<seq<nat>>)
    requires t.Within(data)
    ensures r.Ok? <==> AllGood(data, Segments(data, t, t.count)) && LoadAlignments(Segments(data, t, t.count)) != []
    ensures r.Ok? ==> r.value == LoadAlignments(Segments(data, t, t.count))
  {
    var values := [];
    for index := 0 to t.count
      invariant values == LoadAlignments(Segments(data, t, index))
      invariant AllGood(data, Segments(data, t, index))
    {
      HeaderInBounds(data, t, index);
      var s := ReadSegment(data, t, t.At(index));
      OneMoreSegment(data, t, index, s);
      if s.kind == PT_LOAD {
        var error := CheckLoad(data, s);
        if error.Some? {
          SegmentAt(data, t, index, t.count);
          return Err(error.value);
        }
        values := values + [s.alignment];
      }
    }
    if values == [] {
      return Err("ELF has no loadable segments");
    }
    return Ok(values);
  }

  // ----- the 16 KB rule

  lemma {:induction false} Pow2Split(k: nat)
    ensures k >= 14 ==> Pow2(k) == PAGE_16KB * Pow2(k - 14)
    ensures k <= 13 ==> Pow2(k) < PAGE_16KB
  {
    if k > 0 {
      Pow2Split(k - 1);
    }
    assert Pow2(0) == 1;
  }

  /** Modulo a multiple of the page, equal remainders stay equal modulo the page. */
  lemma SameRemainder(a: nat, b: nat, page: nat, m: nat)
    requires page > 0 && m > 0 && a % (page * m) == b % (page * m)
    ensures a % page == b % page
  {
    var n := page * m;
    RemainderOfRemainder(a, page, m);
    RemainderOfRemainder(b, page, m);
  }

  lemma RemainderOfRemainder(a: nat, page: nat, m: nat)
    requires page > 0 && m > 0
    ensures page * m > 0 && a % page == (a % (page * m)) % page
  {
    var n := page * m;
    var q, r := a / n, a % n;
    assert a == page * (m * q) + r by { assert n * q == page * (m * q); }
    AddMultiple(r, page, m * q);
  }

  lemma AddMultiple(r: nat, page: nat, k: nat)
    requires page > 0
    ensures (page * k + r) % page == r % page
  {
    var q := r / page;
    assert page * k + r == page * (k + q) + r % page;
    ModOf(page, k + q, r % page);
  }

  lemma LargePow2(a: nat) returns (m: nat)
    requires IsPow2(a) && a >= PAGE_16KB
    ensures m > 0 && a == PAGE_16KB * m && a % PAGE_16KB == 0
  {
    var k: nat :| a == Pow2(k);
    Pow2Split(k);
    m := Pow2(k - 14);
    ModOf(PAGE_16KB, m, 0);
  }

  /** The alignments of an accepted library are 0, 1 or powers of two. */
  lemma {:induction false} AlignmentsArePowers(data: Bytes, s: seq<Segment>)
    requires AllGood(data, s)
    ensures forall a | a in LoadAlignments(s) :: a <= 1 || IsPow2(a)
  {
    if s != [] {
      AlignmentsArePowers(data, s[..|s| - 1]);
    }
  }

  /** `any(a < 16384 or a % 16384 for a in alignments)` */
  method Lacks16Kb(alignments: seq<nat>) returns (lacks: bool)
    ensures lacks <==> exists i :: 0 <= i < |alignments|
                                   && (alignments[i] < PAGE_16KB || alignments[i] % PAGE_16KB != 0)
  {
    for i := 0 to |alignments|
      invariant forall j | 0 <= j < i :: alignments[j] >= PAGE_16KB && alignments[j] % PAGE_16KB == 0
    {
      if alignments[i] < PAGE_16KB || alignments[i] % PAGE_16KB != 0 {
        return true;
      }
    }
    return false;
  }

  /** For a library the parser accepted, the second half of the 16 KB test follows from the first. */
  lemma LargeAlignmentsAreWholePages(data: Bytes, abi: Option<string>, a: nat)
    requires Accepted(data, abi)
    requires a in LoadAlignments(Segments(data, TableOf(data), TableOf(data).count))
    ensures a >= PAGE_16KB ==> a % PAGE_16KB == 0
  {
    AlignmentsArePowers(data, Segments(data, TableOf(data), TableOf(data).count));
    if a >= PAGE_16KB {
      var m := LargePow2(a);
    }
  }

  lemma {:induction false} AlignmentListed(s: seq<Segment>, i: nat)
    requires i < |s| && s[i].kind == PT_LOAD
    ensures s[i].alignment in LoadAlignments(s)
  {
    if i < |s| - 1 {
      AlignmentListed(s[..|s| - 1], i);
    }
  }

  /** The header, in full: a shared object of version 1 and of either byte order and class; in the directory
      of an ABI it is little-endian and has the class and machine of that ABI. */
  lemma HeaderIff(data: Bytes, abi: Option<string>)
    ensures GoodHeader(data, abi) <==>
              && |data| >= 64
              && data[0] == 0x7f && data[1] == 0x45 && data[2] == 0x4c && data[3] == 0x46
              && 1 <= data[4] <= 2 && 1 <= data[5] <= 2 && data[6] == 1
              && Unpack(data[5] == 1, data, 16, 2) == 3 && Unpack(data[5] == 1, data, 20, 4) == 1
              && (abi.Some? ==>
                    && data[5] == 1
                    && var machine := Unpack(true, data, 18, 2);
                       || (abi.value == "armeabi-v7a" && data[4] == 1 && machine == 40)
                       || (abi.value == "arm64-v8a" && data[4] == 2 && machine == 183)
                       || (abi.value == "x86" && data[4] == 1 && machine == 3)
                       || (abi.value == "x86_64" && data[4] == 2 && machine == 62))
  {
    if |data| >= 64 {
      assert data[..4] == [0x7f, 0x45, 0x4c, 0x46] <==>
             data[0] == 0x7f && data[1] == 0x45 && data[2] == 0x4c && data[3] == 0x46;
    }
  }

  /** What is accepted beyond the header: 1 to 1024 program headers that lie in the file, of which the loadable
      ones fit, and at least one is loadable. */
  lemma AcceptedIff(data: Bytes, abi: Option<string>)
    requires GoodHeader(data, abi)
    ensures var t := TableOf(data);
            Accepted(data, abi) <==>
              && 1 <= t.count <= 1024 && (if data[4] == 2 then 56 else 32) <= t.entsize
              && t.phoff + t.count * t.entsize <= |data|
              && (forall i | 0 <= i < t.count && Loadable(data, t, i) :: Fits(data, ReadSegment(data, t, t.At(i))))
              && (exists i :: 0 <= i < t.count && Loadable(data, t, i))
  {
    var t := TableOf(data);
    if t.Within(data) {
      SegmentsIff(data, t);
    }
  }

  predicate Loadable(data: Bytes, t: Table, i: nat) {
    t.At(i) + t.HeaderSize() <= |data| && Unpack(t.little, data, t.At(i), 4) == 1
  }

  /** The segment lies in the file and in its memory image, and its alignment is 0, 1 or a power of two
      modulo which file offset and address agree. */
  ghost predicate Fits(data: Bytes, s: Segment) {
    && s.fileSize <= s.memorySize && s.offset + s.fileSize <= |data|
    && (s.alignment <= 1 || exists k: nat :: s.alignment == Pow2(k)
                                            && s.offset % s.alignment == s.address % s.alignment)
  }

  lemma SegmentIff(data: Bytes, t: Table, i: nat)
    requires t.Within(data) && i < t.count
    ensures Loadable(data, t, i) <==> Segments(data, t, t.count)[i].kind == PT_LOAD
    ensures GoodSegment(data, Segments(data, t, t.count)[i])
            <==> (Loadable(data, t, i) ==> Fits(data, ReadSegment(data, t, t.At(i))))
  {
    SegmentAt(data, t, i, t.count);
    var s := ReadSegment(data, t, t.At(i));
    assert s.kind == Unpack(t.little, data, t.At(i), 4);
    GoodIff(data, s);
  }

  lemma GoodIff(data: Bytes, s: Segment)
    ensures GoodSegment(data, s) <==> (s.kind == PT_LOAD ==> Fits(data, s))
  {
  }

  lemma SegmentsIff(data: Bytes, t: Table)
    requires t.Within(data)
    ensures AllGood(data, Segments(data, t, t.count)) <==>
            forall i | 0 <= i < t.count && Loadable(data, t, i) :: Fits(data, ReadSegment(data, t, t.At(i)))
    ensures LoadAlignments(Segments(data, t, t.count)) != [] <==> exists i :: 0 <= i < t.count && Loadable(data, t, i)
  {
    var s := Segments(data, t, t.count);
    forall i | 0 <= i < t.count
      ensures Loadable(data, t, i) <==> s[i].kind == PT_LOAD
      ensures GoodSegment(data, s[i]) <==> (Loadable(data, t, i) ==> Fits(data, ReadSegment(data, t, t.At(i))))
    {
      SegmentIff(data, t, i);
    }
    if LoadAlignments(s) != [] {
      var i := SomeLoad(s);
      assert Loadable(data, t, i);
    }
    if i :| 0 <= i < t.count && Loadable(data, t, i) {
      AlignmentListed(s, i);
    }
  }

  lemma {:induction false} SomeLoad(s: seq<Segment>) returns (i: nat)
    requires LoadAlignments(s) != []
    ensures i < |s| && s[i].kind == PT_LOAD
  {
    if s[|s| - 1].kind == PT_LOAD {
      i := |s| - 1;
    } else {
      i := SomeLoad(s[..|s| - 1]);
    }
  }

  /** What the gate is for: a library that passes can be mapped with 16 KB pages, every loadable segment
      having the same position within a page in the file and in memory. */
  lemma PassingMeansMappable(data: Bytes, abi: Option<string>, i: nat)
    requires Accepted(data, abi)
    requires var t := TableOf(data); i < t.count && Segments(data, t, t.count)[i].kind == PT_LOAD
    requires forall a | a in LoadAlignments(Segments(data, TableOf(data), TableOf(data).count)) :: a >= PAGE_16KB
    ensures var s := Segments(data, TableOf(data), TableOf(data).count)[i];
            s.offset % PAGE_16KB == s.address % PAGE_16KB
  {
    var all := Segments(data, TableOf(data), TableOf(data).count);
    var s := all[i];
    AlignmentListed(all, i);
    assert GoodSegment(data, s);
    var m := LargePow2(s.alignment);
    SameRemainder(s.offset, s.address, PAGE_16KB, m);
  }
}
