/**
 * Section headers of 64-bit little-endian ELF images (System V ABI, chapter 4): the copying
 * loader, the in-place scanner, the symbol-table locator and the reader of same-named sections.
 */
module Elf {
  import opened Bytes
  import opened Seqs

  const EHDR_SIZE: nat := 64
  const SHDR_SIZE: nat := 64
  const SHT_SYMTAB: nat := 2

  /** A file image; no container reaches half the address space. */
  type Buffer = b: seq<byte> | |b| < 0x8000_0000_0000_0000

  /** Headers stay as the raw bytes that the source reinterprets; fields are read out of them. */
  type Ehdr = b: seq<byte> | |b| == EHDR_SIZE witness seq(EHDR_SIZE, i => 0)
  type Shdr = b: seq<byte> | |b| == SHDR_SIZE witness seq(SHDR_SIZE, i => 0)

  function Shoff(h: Ehdr): nat { FromLe(h[40..48]) }
  function Ehsize(h: Ehdr): nat { FromLe(h[52..54]) }
  function Phentsize(h: Ehdr): nat { FromLe(h[54..56]) }
  function Phnum(h: Ehdr): nat { FromLe(h[56..58]) }
  function Shentsize(h: Ehdr): nat { FromLe(h[58..60]) }
  function Shnum(h: Ehdr): nat { FromLe(h[60..62]) }
  function Shstrndx(h: Ehdr): nat { FromLe(h[62..64]) }

  function ShName(s: Shdr): nat { FromLe(s[0..4]) }
  function ShType(s: Shdr): nat { FromLe(s[4..8]) }
  function ShOffset(s: Shdr): nat { FromLe(s[24..32]) }
  function ShSize(s: Shdr): nat { FromLe(s[32..40]) }
  function ShLink(s: Shdr): nat { FromLe(s[40..44]) }

  lemma FieldBounds(h: Ehdr)
    ensures Shoff(h) < U64 && Shnum(h) < U16 && Shentsize(h) < U16 && Shstrndx(h) < U16
  {
    Widths();
    FromLeBound(h[40..48]);
    FromLeBound(h[58..60]);
    FromLeBound(h[60..62]);
    FromLeBound(h[62..64]);
  }

  /** What size_t arithmetic leaves of an unbounded result. */
  function Wrap(x: nat): nat { x % U64 }

  /** The range lies in the buffer, in unbounded arithmetic. */
  predicate InRange(data: Buffer, offset: nat, size: nat) {
    offset + size <= |data|
  }

  /** ReadValue and ReadArray<char>: `size` bytes at `offset`, or nothing. */
  function ReadBytes(data: Buffer, offset: nat, size: nat): (r: Option<seq<byte>>)
    ensures r.Some? <==> offset + size <= |data|
    ensures r.Some? ==> r.value == data[offset..offset + size]
  {
    if offset > |data| || |data| - offset < size then None else Some(data[offset..offset + size])
  }

  predicate ValidHeader(h: Ehdr) {
    && h[0..4] == [0x7f, 0x45, 0x4c, 0x46]
    && h[4] == 2 && h[5] == 1
    && Shnum(h) > Shstrndx(h)
  }

  predicate SafeHeader(h: Ehdr, maxSafeSize: nat) {
    && Ehsize(h) <= maxSafeSize && Phentsize(h) <= maxSafeSize && Phnum(h) <= maxSafeSize
    && Shentsize(h) <= maxSafeSize && Shnum(h) <= maxSafeSize && Shstrndx(h) <= maxSafeSize
    && Wrap(Shoff(h) + Wrap((if Shnum(h) == 0 then U64 - 1 else Shnum(h) - 1) * Shentsize(h))) <= maxSafeSize
  }

  predicate TabularHeader(h: Ehdr) {
    Shentsize(h) == SHDR_SIZE && Shoff(h) != 0 && Shnum(h) != 0
  }

  /** The section table lies in the buffer at its true, unwrapped place. */
  predicate HasTable(data: Buffer, h: Ehdr) {
    TabularHeader(h) && Shoff(h) + SHDR_SIZE * Shnum(h) <= |data|
  }

  function SectionAt(data: Buffer, h: Ehdr, i: nat): Shdr
    requires HasTable(data, h) && i < Shnum(h)
  {
    data[Shoff(h) + SHDR_SIZE * i..Shoff(h) + SHDR_SIZE * i + SHDR_SIZE]
  }

  function Sections(data: Buffer, h: Ehdr): (r: seq<Shdr>)
    requires HasTable(data, h)
    ensures |r| == Shnum(h)
  {
    seq(Shnum(h), i requires 0 <= i < Shnum(h) => SectionAt(data, h, i))
  }

  /**
   * ReadSectionHeaders succeeds exactly when the whole table lies in the buffer, and decodes every
   * header from its unwrapped offset, although the offsets are computed modulo 2^64.
   */
  method ReadSectionHeaders(data: Buffer, h: Ehdr) returns (ok: bool, headers: seq<Shdr>)
    ensures ok <==> HasTable(data, h)
    ensures ok ==> headers == Sections(data, h)
  {
    headers := [];
    FieldBounds(h);
    if Shentsize(h) != SHDR_SIZE || Shoff(h) == 0 || Shnum(h) == 0 {
      return false, headers;
    }
    for i := 0 to Shnum(h)
      invariant |headers| == i
      invariant i > 0 ==> Shoff(h) + SHDR_SIZE * i <= |data|
      invariant forall j :: 0 <= j < i ==>
        headers[j] == data[Shoff(h) + SHDR_SIZE * j..Shoff(h) + SHDR_SIZE * j + SHDR_SIZE]
    {
      var offset := Wrap(Shoff(h) + Wrap(i * Shentsize(h)));
      assert offset == Shoff(h) + SHDR_SIZE * i;
      var value := ReadBytes(data, offset, SHDR_SIZE);
      if value.None? {
        assert !HasTable(data, h);
        return false, headers;
      }
      headers := headers + [value.value];
    }
    ok := true;
  }

  /** Once the table is known to lie in the buffer, the wrapping sum of the safety check says nothing new. */
  lemma SafetyGivenTable(data: Buffer, h: Ehdr)
    requires HasTable(data, h) && Shstrndx(h) < Shnum(h)
    ensures SafeHeader(h, |data|) <==> Ehsize(h) <= |data| && Phentsize(h) <= |data| && Phnum(h) <= |data|
  {
    FieldBounds(h);
    var last := (Shnum(h) - 1) * Shentsize(h);
    assert last == SHDR_SIZE * Shnum(h) - SHDR_SIZE;
    assert Wrap(last) == last && Wrap(Shoff(h) + last) == Shoff(h) + last;
  }

  // ---------------------------------------------------------------- the layout of the headers

  /** Elf64_Ehdr, field by field in the order of the System V ABI. */
  function EhdrBytes(ident: seq<byte>, kind: nat, machine: nat, version: nat, entry: nat, phoff: nat, shoff: nat,
                     flags: nat, ehsize: nat, phentsize: nat, phnum: nat, shentsize: nat, shnum: nat, shstrndx: nat)
    : (r: seq<byte>)
    requires |ident| == 16
  {
    ident + Le(kind, 2) + Le(machine, 2) + Le(version, 4) + Le(entry, 8) + Le(phoff, 8) + Le(shoff, 8) + Le(flags, 4)
    + Le(ehsize, 2) + Le(phentsize, 2) + Le(phnum, 2) + Le(shentsize, 2) + Le(shnum, 2) + Le(shstrndx, 2)
  }

  /** Elf64_Shdr likewise. */
  function ShdrBytes(name: nat, kind: nat, flags: nat, addr: nat, offset: nat, size: nat, link: nat, info: nat,
                     align: nat, entsize: nat): (r: seq<byte>)
  {
    Le(name, 4) + Le(kind, 4) + Le(flags, 8) + Le(addr, 8) + Le(offset, 8) + Le(size, 8) + Le(link, 4) + Le(info, 4)
    + Le(align, 8) + Le(entsize, 8)
  }

  /** The fields read out of an ELF header are those written into it. */
  lemma EhdrFields(ident: seq<byte>, kind: nat, machine: nat, version: nat, entry: nat, phoff: nat, shoff: nat,
                   flags: nat, ehsize: nat, phentsize: nat, phnum: nat, shentsize: nat, shnum: nat, shstrndx: nat)
    requires |ident| == 16 && shoff < U64
    requires ehsize < U16 && phentsize < U16 && phnum < U16 && shentsize < U16 && shnum < U16 && shstrndx < U16
    ensures var h := EhdrBytes(ident, kind, machine, version, entry, phoff, shoff, flags, ehsize, phentsize, phnum,
                               shentsize, shnum, shstrndx);
            && |h| == 64 && h[..16] == ident
            && Shoff(h) == shoff && Ehsize(h) == ehsize && Phentsize(h) == phentsize && Phnum(h) == phnum
            && Shentsize(h) == shentsize && Shnum(h) == shnum && Shstrndx(h) == shstrndx
  {
    hide Le, FromLe;
    Widths();
    FromLeLe(shoff, 8);
    FromLeLe(ehsize, 2);
    FromLeLe(phentsize, 2);
    FromLeLe(phnum, 2);
    FromLeLe(shentsize, 2);
    FromLeLe(shnum, 2);
    FromLeLe(shstrndx, 2);
    var head := ident + Le(kind, 2) + Le(machine, 2) + Le(version, 4) + Le(entry, 8) + Le(phoff, 8);
    EhdrSlices(head, Le(shoff, 8), Le(flags, 4), Le(ehsize, 2), Le(phentsize, 2), Le(phnum, 2), Le(shentsize, 2),
               Le(shnum, 2), Le(shstrndx, 2));
    assert head[..16] == ident;
  }

  lemma EhdrSlices(head: seq<byte>, shoff: seq<byte>, flags: seq<byte>, ehsize: seq<byte>, phentsize: seq<byte>,
                   phnum: seq<byte>, shentsize: seq<byte>, shnum: seq<byte>, shstrndx: seq<byte>)
    requires |head| == 40 && |shoff| == 8 && |flags| == 4
    requires |ehsize| == |phentsize| == |phnum| == |shentsize| == |shnum| == |shstrndx| == 2
    ensures var h := head + shoff + flags + ehsize + phentsize + phnum + shentsize + shnum + shstrndx;
            && h[..16] == head[..16] && h[40..48] == shoff && h[52..54] == ehsize && h[54..56] == phentsize
            && h[56..58] == phnum && h[58..60] == shentsize && h[60..62] == shnum && h[62..64] == shstrndx
  {
  }

  /** And so are those read out of a section header. */
  lemma ShdrFields(name: nat, kind: nat, flags: nat, addr: nat, offset: nat, size: nat, link: nat, info: nat,
                   align: nat, entsize: nat)
    requires name < U32 && kind < U32 && offset < U64 && size < U64 && link < U32
    ensures var s := ShdrBytes(name, kind, flags, addr, offset, size, link, info, align, entsize);
            && |s| == 64 && ShName(s) == name && ShType(s) == kind && ShOffset(s) == offset && ShSize(s) == size
            && ShLink(s) == link
  {
    hide Le, FromLe;
    Widths();
    FromLeLe(name, 4);
    FromLeLe(kind, 4);
    FromLeLe(offset, 8);
    FromLeLe(size, 8);
    FromLeLe(link, 4);
    var tail := Le(info, 4) + Le(align, 8) + Le(entsize, 8);
    var s := ShdrBytes(name, kind, flags, addr, offset, size, link, info, align, entsize);
    ShdrSlices(Le(name, 4), Le(kind, 4), Le(flags, 8) + Le(addr, 8), Le(offset, 8), Le(size, 8), Le(link, 4), tail);
    assert s == Le(name, 4) + Le(kind, 4) + (Le(flags, 8) + Le(addr, 8)) + Le(offset, 8) + Le(size, 8) + Le(link, 4)
                + tail;
  }

  lemma ShdrSlices(name: seq<byte>, kind: seq<byte>, middle: seq<byte>, offset: seq<byte>, size: seq<byte>,
                   link: seq<byte>, tail: seq<byte>)
    requires |name| == |kind| == |link| == 4 && |middle| == 16 && |offset| == |size| == 8 && |tail| == 20
    ensures var s := name + kind + middle + offset + size + link + tail;
            && s[0..4] == name && s[4..8] == kind && s[24..32] == offset && s[32..40] == size && s[40..44] == link
  {
  }

  // ---------------------------------------------------------------- names

  /** The C string that starts at offset `off`. */
  function CStr(buf: seq<byte>, off: nat): (s: seq<byte>)
    requires off <= |buf|
    decreases |buf| - off
  {
    if off == |buf| || buf[off] == 0 then [] else [buf[off]] + CStr(buf, off + 1)
  }

  /** In a table that ends in NUL every string stops inside the table, at its first NUL. */
  lemma {:induction false} CStrStopsInside(buf: seq<byte>, off: nat)
    requires off < |buf| && buf[|buf| - 1] == 0
    ensures var n := |CStr(buf, off)|;
            && off + n < |buf| && buf[off + n] == 0
            && CStr(buf, off) == buf[off..off + n] && 0 !in CStr(buf, off)
    decreases |buf| - off
  {
    if buf[off] != 0 {
      CStrStopsInside(buf, off + 1);
    }
  }

  /** The section name table, if it is in the buffer, non-empty and NUL-terminated. */
  function NameTable(data: Buffer, nameSection: Shdr): (r: Option<seq<byte>>)
    ensures r.Some? ==> r.value != [] && r.value[|r.value| - 1] == 0
  {
    var names := ReadBytes(data, ShOffset(nameSection), ShSize(nameSection));
    if names.None? || names.value == [] || names.value[|names.value| - 1] != 0 then None else names
  }

  datatype Entry = Entry(name: seq<byte>, header: Shdr)

  /** The (name, header) pairs in table order, up to the first name offset outside the table. */
  function NamedUpTo(names: seq<byte>, headers: seq<Shdr>): (r: seq<Entry>)
    ensures |r| <= |headers|
  {
    if headers == [] || ShName(headers[0]) >= |names| then []
    else [Entry(CStr(names, ShName(headers[0])), headers[0])] + NamedUpTo(names, headers[1..])
  }

  /** The headers of one name, in table order. */
  function Named(entries: seq<Entry>, name: seq<byte>): (r: seq<Shdr>)
  {
    if entries == [] then [] else
    var e := entries[|entries| - 1];
    Named(entries[..|entries| - 1], name) + (if e.name == name then [e.header] else [])
  }

  type SectionMap = map<seq<byte>, Shdr>
  type SectionMultimap = map<seq<byte>, seq<Shdr>>

  function Emplace(all: SectionMultimap, e: Entry): SectionMultimap {
    all[e.name := (if e.name in all then all[e.name] else []) + [e.header]]
  }

  /** The maps after inserting the entries one by one into maps that may hold something already. */
  function MapOn(base: SectionMap, entries: seq<Entry>): SectionMap {
    if entries == [] then base else
    var e := entries[|entries| - 1];
    MapOn(base, entries[..|entries| - 1])[e.name := e.header]
  }

  function MultiOn(base: SectionMultimap, entries: seq<Entry>): SectionMultimap {
    if entries == [] then base else
    Emplace(MultiOn(base, entries[..|entries| - 1]), entries[|entries| - 1])
  }

  /** The map keeps the last section of each name, the multimap all of them in table order. */
  lemma {:induction false} MapsKeepLastAndAll(base: SectionMap, multi: SectionMultimap, entries: seq<Entry>,
                                              name: seq<byte>)
    ensures var n := Named(entries, name);
            && (name in MapOn(base, entries) <==> name in base || n != [])
            && (n != [] ==> MapOn(base, entries)[name] == n[|n| - 1])
            && (n == [] && name in base ==> MapOn(base, entries)[name] == base[name])
            && (name in MultiOn(multi, entries) <==> name in multi || n != [])
            && (name in MultiOn(multi, entries) ==>
                  MultiOn(multi, entries)[name] == (if name in multi then multi[name] else []) + n)
  {
    if entries != [] {
      MapsKeepLastAndAll(base, multi, entries[..|entries| - 1], name);
    }
  }

  /** The same for a fresh pair of maps. */
  lemma FreshMapsKeepLastAndAll(entries: seq<Entry>, name: seq<byte>)
    ensures var n := Named(entries, name);
            && (name in MapOn(map[], entries) <==> n != [])
            && (name in MultiOn(map[], entries) <==> n != [])
            && (n != [] ==> MapOn(map[], entries)[name] == n[|n| - 1] && MultiOn(map[], entries)[name] == n)
  {
    MapsKeepLastAndAll(map[], map[], entries, name);
  }

  lemma NamedUpToStep(names: seq<byte>, headers: seq<Shdr>, i: nat)
    requires i < |headers| && |NamedUpTo(names, headers[..i])| == i
    ensures NamedUpTo(names, headers[..i + 1]) ==
            if ShName(headers[i]) >= |names| then NamedUpTo(names, headers[..i])
            else NamedUpTo(names, headers[..i]) + [Entry(CStr(names, ShName(headers[i])), headers[i])]
    ensures ShName(headers[i]) >= |names| ==> NamedUpTo(names, headers) == NamedUpTo(names, headers[..i])
  {
    if i > 0 {
      assert headers[..i][1..] == headers[1..][..i - 1];
      assert headers[..i + 1][1..] == headers[1..][..i];
      NamedUpToStep(names, headers[1..], i - 1);
    }
  }

  // ---------------------------------------------------------------- building the maps

  /** What BuildSectionMap inserts, also when it then fails on a later name. */
  function Inserted(data: Buffer, h: Ehdr): seq<Entry>
    requires Shstrndx(h) < Shnum(h)
  {
    if !HasTable(data, h) then [] else
    var names := NameTable(data, SectionAt(data, h, Shstrndx(h)));
    if names.None? then [] else NamedUpTo(names.value, Sections(data, h))
  }

  predicate Buildable(data: Buffer, h: Ehdr)
    requires Shstrndx(h) < Shnum(h)
  {
    && HasTable(data, h)
    && NameTable(data, SectionAt(data, h, Shstrndx(h))).Some?
    && |Inserted(data, h)| == Shnum(h)
  }

  method BuildSectionMap(data: Buffer, h: Ehdr, sections: SectionMap, all: SectionMultimap)
    returns (ok: bool, sections': SectionMap, all': SectionMultimap)
    requires Shstrndx(h) < Shnum(h)
    ensures ok <==> Buildable(data, h)
    ensures sections' == MapOn(sections, Inserted(data, h)) && all' == MultiOn(all, Inserted(data, h))
  {
    sections', all' := sections, all;
    var read, shdrs := ReadSectionHeaders(data, h);
    if !read {
      return false, sections, all;
    }
    var nameSection := shdrs[Shstrndx(h)];
    assert nameSection == SectionAt(data, h, Shstrndx(h));
    var nameBuffer := ReadBytes(data, ShOffset(nameSection), ShSize(nameSection));
    if nameBuffer.None? {
      return false, sections, all;
    }
    var names := nameBuffer.value;
    if names == [] || names[|names| - 1] != 0 {
      return false, sections, all;
    }
    ok, sections', all' := InsertNames(names, shdrs, sections, all);
  }

  /** The insertion loop of BuildSectionMap. */
  method InsertNames(names: seq<byte>, shdrs: seq<Shdr>, sections: SectionMap, all: SectionMultimap)
    returns (ok: bool, sections': SectionMap, all': SectionMultimap)
    ensures ok <==> |NamedUpTo(names, shdrs)| == |shdrs|
    ensures sections' == MapOn(sections, NamedUpTo(names, shdrs))
    ensures all' == MultiOn(all, NamedUpTo(names, shdrs))
  {
    sections', all' := sections, all;
    ghost var done: seq<Entry> := [];
    assert shdrs[..0] == [];
    for i := 0 to |shdrs|
      invariant |done| == i && done == NamedUpTo(names, shdrs[..i])
      invariant sections' == MapOn(sections, done) && all' == MultiOn(all, done)
    {
      NamedUpToStep(names, shdrs, i);
      if ShName(shdrs[i]) >= |names| {
        return false, sections', all';
      }
      var e := Entry(CStr(names, ShName(shdrs[i])), shdrs[i]);
      assert (done + [e])[..i] == done;
      done := done + [e];
      sections' := sections'[e.name := e.header];
      all' := Emplace(all', e);
    }
    assert shdrs[..|shdrs|] == shdrs;
    ok := true;
  }

  // ---------------------------------------------------------------- loader and scanner

  predicate Loadable(data: Buffer) {
    && |data| >= EHDR_SIZE && ValidHeader(data[..EHDR_SIZE]) && SafeHeader(data[..EHDR_SIZE], |data|)
    && Buildable(data, data[..EHDR_SIZE])
  }

  function LoadEntries(data: Buffer): seq<Entry> {
    if |data| >= EHDR_SIZE && ValidHeader(data[..EHDR_SIZE]) && SafeHeader(data[..EHDR_SIZE], |data|)
    then Inserted(data, data[..EHDR_SIZE])
    else []
  }

  /** The longest run of names inside the table is inserted; what follows it starts with one outside. */
  lemma {:induction false} NamedUpToStops(names: seq<byte>, headers: seq<Shdr>)
    ensures var n := |NamedUpTo(names, headers)|;
            && (forall j :: 0 <= j < n ==>
                  && ShName(headers[j]) < |names|
                  && NamedUpTo(names, headers)[j] == Entry(CStr(names, ShName(headers[j])), headers[j]))
            && (n < |headers| ==> ShName(headers[n]) >= |names|)
  {
    hide CStr;
    if headers != [] && ShName(headers[0]) < |names| {
      NamedUpToStops(names, headers[1..]);
      var tail := NamedUpTo(names, headers[1..]);
      assert NamedUpTo(names, headers) == [Entry(CStr(names, ShName(headers[0])), headers[0])] + tail;
    }
  }

  /**
   * In unbounded arithmetic: a 64-bit little-endian header with its table inside the image, sizes below
   * the image's, and a name table inside that ends in NUL.
   */
  predicate ReadableImage(data: Buffer) {
    && |data| >= 64
    && var h := data[..64];
       && h[0] == 0x7f && h[1] == 0x45 && h[2] == 0x4c && h[3] == 0x46 && h[4] == 2 && h[5] == 1
       && Shentsize(h) == 64 && Shoff(h) > 0 && Shstrndx(h) < Shnum(h) && Shoff(h) + 64 * Shnum(h) <= |data|
       && Ehsize(h) <= |data| && Phentsize(h) <= |data| && Phnum(h) <= |data|
       && var table := ImageSection(data, Shoff(h), Shstrndx(h));
          && 0 < ShSize(table) && ShOffset(table) + ShSize(table) <= |data|
          && data[ShOffset(table) + ShSize(table) - 1] == 0
  }

  function ImageSection(data: Buffer, shoff: nat, i: nat): (r: Shdr)
  {
    if shoff + 64 * i + 64 <= |data| then data[shoff + 64 * i..shoff + 64 * i + 64] else seq(64, j => 0)
  }

  /** Exactly these images have a readable section table and name table. */
  lemma ParsableIff(data: Buffer)
    ensures Parsable(data) <==> ReadableImage(data)
    ensures Parsable(data) ==>
              var h := data[..64];
              var table := ImageSection(data, Shoff(h), Shstrndx(h));
              && |Headers(data)| == Shnum(h)
              && (forall i: nat :: i < Shnum(h) ==> Headers(data)[i] == ImageSection(data, Shoff(h), i))
              && Names(data) == data[ShOffset(table)..ShOffset(table) + ShSize(table)]
  {
    hide FromLe, Shoff, Ehsize, Phentsize, Phnum, Shentsize, Shnum, Shstrndx, ShSize, ShOffset, SafeHeader;
    if |data| >= 64 {
      var h := data[..64];
      MagicIs(h);
      if HasTable(data, h) && Shstrndx(h) < Shnum(h) {
        SafetyGivenTable(data, h);
        NameTableIff(data, ImageSection(data, Shoff(h), Shstrndx(h)));
      }
    }
  }

  lemma NameTableIff(data: Buffer, table: Shdr)
    ensures NameTable(data, table).Some? <==>
              && 0 < ShSize(table) && ShOffset(table) + ShSize(table) <= |data|
              && data[ShOffset(table) + ShSize(table) - 1] == 0
    ensures NameTable(data, table).Some? ==>
              NameTable(data, table).value == data[ShOffset(table)..ShOffset(table) + ShSize(table)]
  {
    hide ShSize, ShOffset;
  }

  /** Loader and scanner accept exactly those whose section names all start inside the name table. */
  lemma LoadableIff(data: Buffer)
    ensures Loadable(data) <==>
              Parsable(data) && forall i :: 0 <= i < |Headers(data)| ==> ShName(Headers(data)[i]) < |Names(data)|
  {
    hide NamedUpTo, FromLe, CStr;
    if Parsable(data) {
      NamedUpToStops(Names(data), Headers(data));
    }
  }

  lemma MagicIs(h: Ehdr)
    ensures h[0..4] == [0x7f, 0x45, 0x4c, 0x46] <==> h[0] == 0x7f && h[1] == 0x45 && h[2] == 0x4c && h[3] == 0x46
  {
    if h[0] == 0x7f && h[1] == 0x45 && h[2] == 0x4c && h[3] == 0x46 {
      assert h[0..4] == [0x7f, 0x45, 0x4c, 0x46];
    } else {
      assert h[0..4][0] == h[0] && h[0..4][1] == h[1] && h[0..4][2] == h[2] && h[0..4][3] == h[3];
    }
  }

  class ElfLoader {
    var header: Ehdr
    var buffer: Buffer
    var sections: SectionMap
    var allSections: SectionMultimap

    constructor ()
      ensures sections == map[] && allSections == map[]
    {
      header := seq(EHDR_SIZE, i => 0);
      buffer := [];
      sections, allSections := map[], map[];
    }

    /** FromBuffer adds to whatever the loader holds; a fresh loader holds nothing. */
    method FromBuffer(data: Buffer) returns (ok: bool)
      modifies this
      ensures ok <==> Loadable(data)
      ensures ok ==> buffer == data
      ensures sections == MapOn(old(sections), LoadEntries(data))
      ensures allSections == MultiOn(old(allSections), LoadEntries(data))
    {
      if data == [] {
        return false;
      }
      buffer := data;
      var h := ReadBytes(data, 0, EHDR_SIZE);
      if h.None? {
        return false;
      }
      header := h.value;
      if !ValidHeader(header) {
        return false;
      }
      if !SafeHeader(header, |buffer|) {
        return false;
      }
      ok, sections, allSections := BuildSectionMap(buffer, header, sections, allSections);
    }
  }

  /** ScanSectionHeaders: the same answer as a fresh loader on every byte string, maps included. */
  method ScanSectionHeaders(data: Buffer) returns (ok: bool, sections: SectionMap, all: SectionMultimap)
    ensures ok <==> Loadable(data)
    ensures sections == MapOn(map[], LoadEntries(data)) && all == MultiOn(map[], LoadEntries(data))
  {
    ok, sections, all := false, map[], map[];
    if data == [] {
      return;
    }
    var h := ReadBytes(data, 0, EHDR_SIZE);
    if h.None? {
      return;
    }
    var header: Ehdr := h.value;
    if Shentsize(header) != SHDR_SIZE || Shoff(header) == 0 || Shnum(header) == 0 {
      return;
    }
    if !ValidHeader(header) {
      return;
    }
    if !SafeHeader(header, |data|) {
      return;
    }
    ok, sections, all := BuildSectionMap(data, header, sections, all);
  }

  /** A fresh loader and the scanner, run on the same bytes. */
  method ScannerRefinesLoader(data: Buffer)
    returns (accepted: (bool, bool), maps: (SectionMap, SectionMap), multimaps: (SectionMultimap, SectionMultimap))
    ensures accepted.0 == accepted.1 && maps.0 == maps.1 && multimaps.0 == multimaps.1
    ensures accepted.0 <==> Loadable(data)
    ensures forall name :: name in maps.0 <==> Named(LoadEntries(data), name) != []
    ensures forall name :: name in maps.0 ==>
              var n := Named(LoadEntries(data), name);
              name in multimaps.0 && multimaps.0[name] == n && maps.0[name] == n[|n| - 1]
  {
    var loader := new ElfLoader();
    var loaded := loader.FromBuffer(data);
    var scanned, sections, all := ScanSectionHeaders(data);
    accepted, maps := (loaded, scanned), (loader.sections, sections);
    multimaps := (loader.allSections, all);
    forall name
      ensures name in maps.0 <==> Named(LoadEntries(data), name) != []
      ensures name in maps.0 ==>
                var n := Named(LoadEntries(data), name);
                name in multimaps.0 && multimaps.0[name] == n && maps.0[name] == n[|n| - 1]
    {
      FreshMapsKeepLastAndAll(LoadEntries(data), name);
    }
  }

  // ---------------------------------------------------------------- symbol table

  const TEXT: seq<byte> := [0x2e, 0x74, 0x65, 0x78, 0x74]

  predicate IsText(names: seq<byte>, s: Shdr) {
    ShName(s) < |names| && CStr(names, ShName(s)) == TEXT
  }

  function FirstSymtab(headers: seq<Shdr>): (i: nat)
    ensures i <= |headers| && (i < |headers| ==> ShType(headers[i]) == SHT_SYMTAB)
    ensures forall j :: 0 <= j < i ==> ShType(headers[j]) != SHT_SYMTAB
  {
    if headers == [] || ShType(headers[0]) == SHT_SYMTAB then 0 else 1 + FirstSymtab(headers[1..])
  }

  function FirstText(names: seq<byte>, headers: seq<Shdr>): (i: nat)
    ensures i <= |headers| && (i < |headers| ==> IsText(names, headers[i]))
    ensures forall j :: 0 <= j < i ==> !IsText(names, headers[j])
  {
    if headers == [] || IsText(names, headers[0]) then 0 else 1 + FirstText(names, headers[1..])
  }

  /** The image has a readable section table and name table. */
  predicate Parsable(data: Buffer) {
    && |data| >= EHDR_SIZE && ValidHeader(data[..EHDR_SIZE]) && SafeHeader(data[..EHDR_SIZE], |data|)
    && HasTable(data, data[..EHDR_SIZE])
    && NameTable(data, SectionAt(data, data[..EHDR_SIZE], Shstrndx(data[..EHDR_SIZE]))).Some?
  }

  function Headers(data: Buffer): seq<Shdr>
    requires Parsable(data)
  {
    Sections(data, data[..EHDR_SIZE])
  }

  function Names(data: Buffer): seq<byte>
    requires Parsable(data)
  {
    NameTable(data, SectionAt(data, data[..EHDR_SIZE], Shstrndx(data[..EHDR_SIZE]))).value
  }

  /** There is a symbol table, its linked string table exists, and both lie in the buffer. */
  predicate HasSymtab(data: Buffer) {
    && Parsable(data)
    && var headers := Headers(data);
       var i := FirstSymtab(headers);
       && i < |headers|
       && ShLink(headers[i]) < |headers|
       && InRange(data, ShOffset(headers[i]), ShSize(headers[i]))
       && InRange(data, ShOffset(headers[ShLink(headers[i])]), ShSize(headers[ShLink(headers[i])]))
  }

  /** The table is of type 2, no section before it is, and both ranges end inside the image. */
  lemma HasSymtabIff(data: Buffer)
    ensures HasSymtab(data) <==>
              Parsable(data)
              && exists i :: 0 <= i < |Headers(data)| && IsFirstSymtab(data, i)
  {
    hide FromLe;
    if Parsable(data) {
      var headers := Headers(data);
      var i := FirstSymtab(headers);
      if HasSymtab(data) {
        assert IsFirstSymtab(data, i);
      }
      if j :| 0 <= j < |headers| && IsFirstSymtab(data, j) {
        assert i == j;
      }
    }
  }

  predicate IsFirstSymtab(data: Buffer, i: nat)
    requires Parsable(data) && i < |Headers(data)|
  {
    var headers := Headers(data);
    && ShType(headers[i]) == 2 && (forall j :: 0 <= j < i ==> ShType(headers[j]) != 2)
    && ShOffset(headers[i]) + ShSize(headers[i]) <= |data|
    && ShLink(headers[i]) < |headers|
    && var strings := headers[ShLink(headers[i])];
       ShOffset(strings) + ShSize(strings) <= |data|
  }

  /** The name that LocateKernelSymtab looks for, letter by letter. */
  lemma TextName()
    ensures |TEXT| == |".text"| && forall i :: 0 <= i < |TEXT| ==> TEXT[i] == ".text"[i] as int
  {
  }

  method LocateKernelSymtab(data: Buffer)
    returns (ok: bool, symtab: Shdr, strtab: Shdr, textIndex: nat, foundText: bool)
    ensures ok <==> HasSymtab(data)
    ensures ok ==>
              && symtab == Headers(data)[FirstSymtab(Headers(data))]
              && strtab == Headers(data)[ShLink(symtab)]
              && ShOffset(symtab) + ShSize(symtab) <= |data| && ShOffset(strtab) + ShSize(strtab) <= |data|
    ensures ok ==>
              && (foundText <==> FirstText(Names(data), Headers(data)) < |Headers(data)|)
              && textIndex == if foundText then FirstText(Names(data), Headers(data)) else 0
  {
    hide SafeHeader, FirstSymtab, FirstText, SectionAt, FromLe;
    ok, textIndex, foundText := false, 0, false;
    symtab, strtab := seq(SHDR_SIZE, i => 0), seq(SHDR_SIZE, i => 0);
    if data == [] {
      return;
    }
    var h := ReadBytes(data, 0, EHDR_SIZE);
    if h.None? {
      return;
    }
    var ehdr: Ehdr := h.value;
    if Shentsize(ehdr) != SHDR_SIZE || Shoff(ehdr) == 0 || Shnum(ehdr) == 0 || Shstrndx(ehdr) >= Shnum(ehdr) {
      return;
    }
    if !ValidHeader(ehdr) || !SafeHeader(ehdr, |data|) {
      return;
    }
    var read, shdrs := ReadSectionHeaders(data, ehdr);
    if !read {
      return;
    }
    var nameSection := shdrs[Shstrndx(ehdr)];
    if ShSize(nameSection) == 0 {
      return;
    }
    var nameBuffer := ReadBytes(data, ShOffset(nameSection), ShSize(nameSection));
    if nameBuffer.None? || nameBuffer.value == [] || nameBuffer.value[|nameBuffer.value| - 1] != 0 {
      return;
    }
    assert Parsable(data) && shdrs == Headers(data) && nameBuffer.value == Names(data);
    var symtabIndex, foundSymtab;
    symtabIndex, foundSymtab, textIndex, foundText := Locate(nameBuffer.value, shdrs);
    if !foundSymtab {
      return;
    }
    symtab := shdrs[symtabIndex];
    if ShLink(symtab) >= Shnum(ehdr) {
      return;
    }
    strtab := shdrs[ShLink(symtab)];
    if ShOffset(symtab) > |data| || ShSize(symtab) > |data| - ShOffset(symtab)
       || ShOffset(strtab) > |data| || ShSize(strtab) > |data| - ShOffset(strtab) {
      return;
    }
    ok := true;
  }

  /** The single pass over the headers: first SHT_SYMTAB, first section named .text. */
  method Locate(names: seq<byte>, shdrs: seq<Shdr>)
    returns (symtabIndex: nat, foundSymtab: bool, textIndex: nat, foundText: bool)
    ensures foundSymtab <==> FirstSymtab(shdrs) < |shdrs|
    ensures foundSymtab ==> symtabIndex == FirstSymtab(shdrs)
    ensures foundText <==> FirstText(names, shdrs) < |shdrs|
    ensures textIndex == if foundText then FirstText(names, shdrs) else 0
  {
    symtabIndex, foundSymtab, textIndex, foundText := 0, false, 0, false;
    for i := 0 to |shdrs|
      invariant foundSymtab ==> symtabIndex == FirstSymtab(shdrs) < i
      invariant !foundSymtab ==> i <= FirstSymtab(shdrs)
      invariant foundText ==> textIndex == FirstText(names, shdrs) < i
      invariant !foundText ==> textIndex == 0 && i <= FirstText(names, shdrs)
    {
      var sh := shdrs[i];
      if ShType(sh) == SHT_SYMTAB && !foundSymtab {
        symtabIndex, foundSymtab := i, true;
      }
      if !foundText && ShName(sh) < |names| && CStr(names, ShName(sh)) == TEXT {
        textIndex, foundText := i, true;
      }
    }
  }

  lemma {:induction false} NamedOfUnique(names: seq<byte>, headers: seq<Shdr>, i: nat)
    requires i < |headers| && |NamedUpTo(names, headers)| == |headers|
    requires forall j :: 0 <= j < |headers| ==> (IsText(names, headers[j]) <==> j == i)
    ensures Named(NamedUpTo(names, headers), TEXT) == [headers[i]]
  {
    EntriesPointwise(names, headers);
    NamedAt(NamedUpTo(names, headers), TEXT, i);
  }

  lemma {:induction false} EntriesPointwise(names: seq<byte>, headers: seq<Shdr>)
    requires |NamedUpTo(names, headers)| == |headers|
    ensures forall j :: 0 <= j < |headers| ==>
              && ShName(headers[j]) < |names|
              && NamedUpTo(names, headers)[j] == Entry(CStr(names, ShName(headers[j])), headers[j])
  {
    if headers != [] {
      EntriesPointwise(names, headers[1..]);
    }
  }

  lemma {:induction false} NamedAt(entries: seq<Entry>, name: seq<byte>, i: nat)
    requires forall j :: 0 <= j < |entries| ==> (entries[j].name == name <==> j == i)
    ensures Named(entries, name) == if i < |entries| then [entries[i].header] else []
  {
    if entries != [] {
      NamedAt(entries[..|entries| - 1], name, i);
    }
  }

  /** The section at this index is the only one named .text. */
  predicate OnlyText(data: Buffer, textIndex: nat)
    requires Parsable(data)
  {
    && textIndex < |Headers(data)|
    && forall j :: 0 <= j < |Headers(data)| ==> (IsText(Names(data), Headers(data)[j]) <==> j == textIndex)
  }

  /** When the scanner accepts too and .text is unique, both agree on the .text header. */
  lemma TextAgreesWithScanner(data: Buffer, textIndex: nat)
    ensures HasSymtab(data) && Loadable(data) && OnlyText(data, textIndex) ==>
              && FirstText(Names(data), Headers(data)) == textIndex
              && TEXT in MapOn(map[], LoadEntries(data))
              && MapOn(map[], LoadEntries(data))[TEXT] == Headers(data)[textIndex]
  {
    if HasSymtab(data) && Loadable(data) && OnlyText(data, textIndex) {
      NamedOfUnique(Names(data), Headers(data), textIndex);
      FreshMapsKeepLastAndAll(LoadEntries(data), TEXT);
    }
  }

  // ---------------------------------------------------------------- reading sections back

  predicate AllInRange(data: Buffer, headers: seq<Shdr>) {
    forall i :: 0 <= i < |headers| ==> InRange(data, ShOffset(headers[i]), ShSize(headers[i]))
  }

  function Contents(data: Buffer, headers: seq<Shdr>): (r: seq<byte>)
    requires AllInRange(data, headers)
  {
    if headers == [] then [] else
    var s := headers[|headers| - 1];
    assert AllInRange(data, headers[..|headers| - 1]);
    Contents(data, headers[..|headers| - 1]) + data[ShOffset(s)..ShOffset(s) + ShSize(s)]
  }

  lemma AllInRangeConcat(data: Buffer, a: seq<Shdr>, b: seq<Shdr>)
    requires AllInRange(data, a + b)
    ensures AllInRange(data, a) && AllInRange(data, b)
  {
    hide ShSize, ShOffset;
    assert forall i :: 0 <= i < |a| ==> (a + b)[i] == a[i];
    assert forall i :: 0 <= i < |b| ==> (a + b)[|a| + i] == b[i];
  }

  lemma ContentsSnoc(data: Buffer, headers: seq<Shdr>, s: Shdr)
    requires AllInRange(data, headers + [s])
    ensures AllInRange(data, headers) && ShOffset(s) + ShSize(s) <= |data|
    ensures Contents(data, headers + [s]) == Contents(data, headers) + data[ShOffset(s)..ShOffset(s) + ShSize(s)]
  {
    hide ShSize, ShOffset;
    AllInRangeConcat(data, headers, [s]);
    assert (headers + [s])[|headers|] == s;
    assert (headers + [s])[..|headers|] == headers;
  }

  /** The bytes of the sections stand one behind the other, first to last. */
  lemma {:induction false} ContentsConcat(data: Buffer, a: seq<Shdr>, b: seq<Shdr>)
    requires AllInRange(data, a + b)
    ensures AllInRange(data, a) && AllInRange(data, b)
    ensures Contents(data, a + b) == Contents(data, a) + Contents(data, b)
  {
    hide ShSize, ShOffset, AllInRange, Contents;
    AllInRangeConcat(data, a, b);
    if b == [] {
      ContentsNone(data);
      assert a + b == a;
    } else {
      var front, s := b[..|b| - 1], b[|b| - 1];
      assert b == front + [s] && a + b == (a + front) + [s];
      ContentsSnoc(data, a + front, s);
      ContentsSnoc(data, front, s);
      ContentsConcat(data, a, front);
    }
  }

  lemma ContentsNone(data: Buffer)
    ensures AllInRange(data, []) && Contents(data, []) == []
  {
  }

  function Sizes(headers: seq<Shdr>): (r: nat) {
    if headers == [] then 0 else ShSize(headers[0]) + Sizes(headers[1..])
  }

  /** The bytes of section i stand behind those of all sections before it. */
  lemma {:induction false} ContentsAt(data: Buffer, headers: seq<Shdr>, i: nat)
    requires AllInRange(data, headers) && i < |headers|
    ensures |Contents(data, headers)| == Sizes(headers)
    ensures var at, s := Sizes(headers[..i]), headers[i];
            && at + ShSize(s) <= Sizes(headers)
            && Contents(data, headers)[at..at + ShSize(s)] == data[ShOffset(s)..ShOffset(s) + ShSize(s)]
  {
    hide ShSize, ShOffset, Contents, Sizes, AllInRange;
    var s := headers[i];
    var front, back := headers[..i], headers[i + 1..];
    assert headers == front + ([s] + back);
    ContentsConcat(data, front, [s] + back);
    ContentsConcat(data, [s], back);
    ContentsOne(data, s);
    ContentsSize(data, front);
    ContentsSize(data, headers);
    Middle(Contents(data, front), Contents(data, [s]), Contents(data, back));
  }

  lemma Middle(a: seq<byte>, b: seq<byte>, c: seq<byte>)
    ensures (a + (b + c))[|a|..|a| + |b|] == b
  {
  }

  lemma ContentsOne(data: Buffer, s: Shdr)
    requires AllInRange(data, [s])
    ensures ShOffset(s) + ShSize(s) <= |data|
    ensures Contents(data, [s]) == data[ShOffset(s)..ShOffset(s) + ShSize(s)]
  {
    assert InRange(data, ShOffset([s][0]), ShSize([s][0]));
    var none: seq<Shdr> := [];
    assert [s][..0] == none;
  }

  lemma {:induction false} ContentsSize(data: Buffer, headers: seq<Shdr>)
    requires AllInRange(data, headers)
    ensures |Contents(data, headers)| == Sizes(headers)
  {
    hide ShSize, ShOffset;
    if headers != [] {
      assert headers == [headers[0]] + headers[1..];
      ContentsConcat(data, [headers[0]], headers[1..]);
      ContentsOne(data, headers[0]);
      ContentsSize(data, headers[1..]);
    }
  }

  method ReadAllRawData(data: Buffer, all: SectionMultimap, name: seq<byte>) returns (ok: bool, out: seq<byte>)
    requires name in all ==> all[name] != []
    ensures ok <==> name in all && AllInRange(data, all[name])
    ensures out == if ok then Contents(data, all[name]) else []
  {
    out := [];
    if name !in all {
      return false, out;
    }
    var headers := all[name];
    for i := 0 to |headers|
      invariant AllInRange(data, headers[..i]) && out == Contents(data, headers[..i])
    {
      var s := headers[i];
      if ShSize(s) > |data| || ShOffset(s) > |data| - ShSize(s) {
        assert !InRange(data, ShOffset(headers[i]), ShSize(headers[i]));
        return false, [];
      }
      assert headers[..i + 1][..i] == headers[..i];
      out := out + data[ShOffset(s)..ShOffset(s) + ShSize(s)];
    }
    assert headers[..|headers|] == headers;
    ok := true;
  }

  /** Loading an image and reading a section name back: all its bytes, in section-table order. */
  method LoadAndReadAll(data: Buffer, name: seq<byte>) returns (loaded: bool, ok: bool, out: seq<byte>)
    ensures loaded <==> Loadable(data)
    ensures ok <==> loaded && Named(LoadEntries(data), name) != [] && AllInRange(data, Named(LoadEntries(data), name))
    ensures out == if ok then Contents(data, Named(LoadEntries(data), name)) else []
  {
    var loader := new ElfLoader();
    ok, out := false, [];
    loaded := loader.FromBuffer(data);
    hide *;
    FreshMapsKeepLastAndAll(LoadEntries(data), name);
    if loaded {
      ok, out := ReadAllRawData(loader.buffer, loader.allSections, name);
    }
  }
}
