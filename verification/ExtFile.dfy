/** Whole `.BTF.ext` data, written field by field as section 4.2 of the Linux kernel BTF format document
    lays it out, and what the program reads of it (src/seeds.c). */
module ExtFile {
  import opened Btf
  import opened ExtInfo
  import opened Seeds
  import opened Objects

  /** A relocation record: instruction offset, type id, offset of the access string, kind. */
  function ReloBytes(insn_off: nat, type_id: nat, access_str_off: nat, kind: nat): (s: Bytes)
    requires insn_off <= UINT32_MAX && type_id <= UINT32_MAX && access_str_off <= UINT32_MAX && kind <= UINT32_MAX
    ensures |s| == 16
  {
    PutU32(insn_off) + PutU32(type_id) + PutU32(access_str_off) + PutU32(kind)
  }

  /** A line record: instruction offset, offset of the file name, offset of the line's text, and the line
      and column, in 22 and 10 bits. */
  function LineBytes(insn_off: nat, file_name_off: nat, line_off: nat, line: nat, column: nat): (s: Bytes)
    requires insn_off <= UINT32_MAX && file_name_off <= UINT32_MAX && line_off <= UINT32_MAX
    requires line < 0x40_0000 && column < 0x400
    ensures |s| == 16
  {
    PutU32(insn_off) + PutU32(file_name_off) + PutU32(line_off) + PutU32(0x400 * line + column)
  }

  /** The least byte comes first. */
  lemma LeastFirst(a: byte, b: byte, c: byte, d: byte)
    ensures PutU32(a + 0x100 * b + 0x1_0000 * c + 0x100_0000 * d) == [a, b, c, d]
  {
    WordWrites(a, b, c, d);
  }

  /** A number is read back where it was written. */
  lemma ReadsAt(before: Bytes, n: nat, after: Bytes)
    requires n <= UINT32_MAX
    ensures U32At(before + PutU32(n) + after, |before|) == n
  {
    U32Reads(n, []);
    hide PutU32;
    var raw := before + PutU32(n) + after;
    assert raw[|before|..|before| + 4] == PutU32(n) == PutU32(n) + [];
    assert raw[|before|..|before| + 4][0] == raw[|before|];
  }

  /** Four numbers, and whatever follows, are read back. */
  lemma FourRead(a: nat, b: nat, c: nat, d: nat, pad: Bytes)
    requires a <= UINT32_MAX && b <= UINT32_MAX && c <= UINT32_MAX && d <= UINT32_MAX
    ensures var s := PutU32(a) + PutU32(b) + PutU32(c) + PutU32(d) + pad;
            U32At(s, 0) == a && U32At(s, 4) == b && U32At(s, 8) == c && U32At(s, 12) == d
  {
    ReadsAt([], a, PutU32(b) + PutU32(c) + PutU32(d) + pad);
    ReadsAt(PutU32(a), b, PutU32(c) + PutU32(d) + pad);
    ReadsAt(PutU32(a) + PutU32(b), c, PutU32(d) + pad);
    ReadsAt(PutU32(a) + PutU32(b) + PutU32(c), d, pad);
    hide PutU32, U32At;
    var s := PutU32(a) + PutU32(b) + PutU32(c) + PutU32(d) + pad;
    assert s == [] + PutU32(a) + (PutU32(b) + PutU32(c) + PutU32(d) + pad);
    assert s == PutU32(a) + PutU32(b) + (PutU32(c) + PutU32(d) + pad);
    assert s == PutU32(a) + PutU32(b) + PutU32(c) + (PutU32(d) + pad);
  }

  /** A relocation record, of 16 bytes or more, is read as what it was written for. */
  lemma ReloReads(insn_off: nat, type_id: nat, access_str_off: nat, kind: nat, pad: Bytes, strings: map<nat, string>)
    requires insn_off <= UINT32_MAX && type_id <= UINT32_MAX && access_str_off <= UINT32_MAX && kind <= UINT32_MAX
    ensures var record := ReloBytes(insn_off, type_id, access_str_off, kind) + pad;
            && ReloOf(record, strings) ==
               Relo(type_id, if access_str_off in strings then strings[access_str_off] else "", ReloKindOf(kind))
            && InsnOff(record) == insn_off
  {
    FourRead(insn_off, type_id, access_str_off, kind, pad);
    hide PutU32, U32At;
  }

  /** So is a line record; without a file name there is no position. */
  lemma LineReads(insn_off: nat, file_name_off: nat, line_off: nat, line: nat, column: nat, pad: Bytes,
                  strings: map<nat, string>)
    requires insn_off <= UINT32_MAX && file_name_off <= UINT32_MAX && line_off <= UINT32_MAX
    requires line < 0x40_0000 && column < 0x400
    ensures var record := LineBytes(insn_off, file_name_off, line_off, line, column) + pad;
            && LocationOf(record, strings) ==
               (if file_name_off in strings && strings[file_name_off] != ""
                then Location(strings[file_name_off], line, column) else NoLocation)
            && InsnOff(record) == insn_off
  {
    FourRead(insn_off, file_name_off, line_off, 0x400 * line + column, pad);
    hide PutU32, U32At;
  }

  /** The parts of the data: what the header has beyond its 32 bytes, what lies before the relocations
      and behind them, and where the two other kinds of records are. */
  datatype Layout = Layout(flags: byte, others: Bytes, extra: Bytes, before: Bytes, after: Bytes)

  function FileBytes(l: Layout, size: nat, body: Bytes): Bytes
    requires |l.others| == 16 && size <= UINT32_MAX
    requires 32 + |l.extra| <= UINT32_MAX && |l.before| <= UINT32_MAX && 4 + |body| <= UINT32_MAX
  {
    HeadBytes(l, 4 + |body|) + l.extra + l.before + PutU32(size) + body + l.after
  }

  /** Magic number, version, flags, header length, the places of the other records, and the place of
      the relocations. */
  function HeadBytes(l: Layout, core_relo_len: nat): (s: Bytes)
    requires |l.others| == 16 && 32 + |l.extra| <= UINT32_MAX && |l.before| <= UINT32_MAX
    requires core_relo_len <= UINT32_MAX
    ensures |s| == 32
  {
    var start: Bytes := [0x9F, 0xEB, 1, l.flags];
    start + PutU32(32 + |l.extra|) + l.others + PutU32(|l.before|) + PutU32(core_relo_len)
  }

  lemma HeadReads(l: Layout, core_relo_len: nat, rest: Bytes)
    requires |l.others| == 16 && 32 + |l.extra| <= UINT32_MAX && |l.before| <= UINT32_MAX
    requires core_relo_len <= UINT32_MAX
    ensures var raw := HeadBytes(l, core_relo_len) + rest;
            && raw[0] == 0x9F && raw[1] == 0xEB && raw[2] == 1
            && U32At(raw, 4) == 32 + |l.extra| && U32At(raw, 24) == |l.before| && U32At(raw, 28) == core_relo_len
  {
    var start: Bytes := [0x9F, 0xEB, 1, l.flags];
    var a, b, n := PutU32(32 + |l.extra|), PutU32(|l.before|), PutU32(core_relo_len);
    ReadsAt(start, 32 + |l.extra|, l.others + b + n + rest);
    ReadsAt(start + a + l.others, |l.before|, n + rest);
    ReadsAt(start + a + l.others + b, core_relo_len, rest);
    hide PutU32, U32At;
    var raw := HeadBytes(l, core_relo_len) + rest;
    assert raw == start + a + (l.others + b + n + rest);
    assert raw == (start + a + l.others) + b + (n + rest);
    assert raw == (start + a + l.others + b) + n + rest;
  }

  lemma Slices(head: Bytes, extra: Bytes, before: Bytes, word: Bytes, body: Bytes, after: Bytes)
    ensures var raw := head + extra + before + word + body + after;
            var at := |head| + |extra| + |before|;
            && raw == head + (extra + before + word + body + after)
            && raw == (head + extra + before) + word + (body + after)
            && raw[at + |word|..at + |word| + |body|] == body
  {
  }

  /** What the header says of the place of the relocations is where they are read. */
  lemma PartReads(raw: Bytes, hdr_len: nat, off: nat, len: nat, size: nat)
    requires 32 <= |raw| && raw[0] == 0x9F && raw[1] == 0xEB && raw[2] == 1
    requires U32At(raw, 4) == hdr_len >= 32 && U32At(raw, 24) == off && U32At(raw, 28) == len >= 4
    requires hdr_len + off + len <= |raw| && U32At(raw, hdr_len + off) == size >= 16
    ensures CoreRecords(raw) == Records(size, 0, raw[hdr_len + off + 4..hdr_len + off + len])
  {
    hide U32At, Records;
  }

  lemma FileHead(l: Layout, size: nat, body: Bytes)
    requires |l.others| == 16 && size <= UINT32_MAX
    requires 32 + |l.extra| <= UINT32_MAX && |l.before| <= UINT32_MAX && 4 + |body| <= UINT32_MAX
    ensures var raw := FileBytes(l, size, body);
            && |raw| >= 32 + |l.extra| + |l.before| + 4 + |body|
            && raw[0] == 0x9F && raw[1] == 0xEB && raw[2] == 1
            && U32At(raw, 4) == 32 + |l.extra| && U32At(raw, 24) == |l.before| && U32At(raw, 28) == 4 + |body|
  {
    hide HeadBytes, PutU32, U32At;
    Slices(HeadBytes(l, 4 + |body|), l.extra, l.before, PutU32(size), body, l.after);
    HeadReads(l, 4 + |body|, l.extra + l.before + PutU32(size) + body + l.after);
  }

  lemma FileBody(l: Layout, size: nat, body: Bytes)
    requires |l.others| == 16 && size <= UINT32_MAX
    requires 32 + |l.extra| <= UINT32_MAX && |l.before| <= UINT32_MAX && 4 + |body| <= UINT32_MAX
    ensures var raw, at := FileBytes(l, size, body), 32 + |l.extra| + |l.before|;
            |raw| >= at + 4 + |body| && U32At(raw, at) == size && raw[at + 4..at + 4 + |body|] == body
  {
    hide HeadBytes, PutU32, U32At;
    Slices(HeadBytes(l, 4 + |body|), l.extra, l.before, PutU32(size), body, l.after);
    ReadsAt(HeadBytes(l, 4 + |body|) + l.extra + l.before, size, body + l.after);
  }

  /** The records of the relocation part are read, one after the other, whatever surrounds it. */
  lemma FileReads(l: Layout, size: nat, sections: seq<Section>)
    requires |l.others| == 16 && 16 <= size <= UINT32_MAX && forall s | s in sections :: Fits(size, s)
    requires 32 + |l.extra| <= UINT32_MAX && |l.before| <= UINT32_MAX && 4 + |Encode(size, sections)| <= UINT32_MAX
    ensures CoreRecords(FileBytes(l, size, Encode(size, sections))) == Frames(AllRecords(sections))
  {
    var body := Encode(size, sections);
    EncodeDecodes(size, sections);
    RecordsAreSections(size, body);
    hide Encode, FileBytes, Decode, Records, AllRecords, U32At, CoreRecords, Fits;
    FileHead(l, size, body);
    FileBody(l, size, body);
    PartReads(FileBytes(l, size, body), 32 + |l.extra|, |l.before|, 4 + |body|, size);
  }

  /** The data is accepted exactly if it has a header with the magic number, the version and a length
      that lies within it, and either no relocations or, within it, relocation records of 16 bytes or
      more in sections that fit. */
  lemma CoreExactly(raw: Bytes)
    ensures CoreRecords(raw).Frames? <==>
              && |raw| >= 32 && raw[0] == 0x9F && raw[1] == 0xEB && raw[2] == 1
              && 32 <= U32At(raw, 4) <= |raw|
              && var start, len := U32At(raw, 4) + U32At(raw, 24), U32At(raw, 28);
              (len == 0 ||
               (len >= 4 && start + len <= |raw| && U32At(raw, start) >= 16
                && Decode(U32At(raw, start), raw[start + 4..start + len]).complete))
  {
    hide Records, U32At, Decode;
    if |raw| >= 32 {
      var start, len := U32At(raw, 4) + U32At(raw, 24), U32At(raw, 28);
      if len >= 4 && start + len <= |raw| && U32At(raw, start) >= 16 {
        RecordsAreSections(U32At(raw, start), raw[start + 4..start + len]);
      }
    }
  }

  /** An object's relocations hold exactly if it has no such data, or has it in the host's byte order, it
      is accepted, and every relocation resolves. */
  lemma HoldExactly(g: Graph, ob: Object)
    ensures RelocationsHold(g, ob) <==>
              || ob.ext.NoExt?
              || (ob.ext.native && CoreRecords(ob.ext.raw).Frames?
                  && forall r | r in CoreRecords(ob.ext.raw).records ::
                       ReloResolves(g, ob.types, ReloOf(r, ob.strings)))
  {
    hide CoreRecords, ReloResolves, ReloOf;
    if ob.ext.Ext? && ob.ext.native && CoreRecords(ob.ext.raw).Frames? {
      var records, relos := CoreRecords(ob.ext.raw).records, Relos(ob);
      forall i | 0 <= i < |records|
        ensures relos[i] == ReloOf(records[i], ob.strings) && relos[i] in relos && records[i] in records
      {
      }
    }
  }
}
