/** The framing of the `.BTF.ext` data (src/seeds.c): a header, and in each of its parts a record
    size followed by sections of records. See section 4.2 of the Linux kernel BTF format document. */
module ExtInfo {

  type byte = b: int | 0 <= b < 256
  type Bytes = seq<byte>

  const UINT32_MAX: nat := 0xFFFF_FFFF
  const SECTION_SIZE: nat := 8
  const HEADER_SIZE: nat := 32
  const BTF_MAGIC: nat := 0xEB9F
  const BTF_VERSION: nat := 1
  const CORE_RELO_SIZE: nat := 16
  const LINE_INFO_SIZE: nat := 16

  /** The number of four bytes, the least first. */
  function Word(a: int, b: int, c: int, d: int): int {
    a + 0x100 * (b + 0x100 * (c + 0x100 * d))
  }

  function PutWord(n: nat): (w: (byte, byte, byte, byte))
    requires n <= UINT32_MAX
  {
    (n % 0x100, n / 0x100 % 0x100, n / 0x100 / 0x100 % 0x100, n / 0x100 / 0x100 / 0x100)
  }

  /** A 32-bit number in the byte order of a little-endian host. */
  function U32At(s: Bytes, pos: nat): (n: nat)
    requires pos + 4 <= |s|
    ensures n <= UINT32_MAX
  {
    Word(s[pos], s[pos + 1], s[pos + 2], s[pos + 3])
  }

  function PutU32(n: nat): (s: Bytes)
    requires n <= UINT32_MAX
    ensures |s| == 4
  {
    var w := PutWord(n);
    [w.0, w.1, w.2, w.3]
  }

  lemma WordReads(n: nat)
    requires n <= UINT32_MAX
    ensures var w := PutWord(n); Word(w.0, w.1, w.2, w.3) == n
  {
  }

  lemma WordWrites(a: byte, b: byte, c: byte, d: byte)
    ensures 0 <= Word(a, b, c, d) <= UINT32_MAX && PutWord(Word(a, b, c, d)) == (a, b, c, d)
  {
    var n := Word(a, b, c, d);
    assert n / 0x100 == b + 0x100 * (c + 0x100 * d);
    assert n / 0x100 / 0x100 == c + 0x100 * d;
  }

  lemma U32Reads(n: nat, rest: Bytes)
    requires n <= UINT32_MAX
    ensures U32At(PutU32(n) + rest, 0) == n
  {
    hide Word, PutWord;
    WordReads(n);
  }

  lemma U32Writes(s: Bytes)
    requires |s| == 4
    ensures PutU32(U32At(s, 0)) == s
  {
    hide Word, PutWord;
    WordWrites(s[0], s[1], s[2], s[3]);
  }

  /** The size of `count` records. */
  function Span(size: nat, count: nat): nat {
    if count == 0 then 0 else size + Span(size, count - 1)
  }

  lemma {:induction false} SpanIsProduct(size: nat, count: nat)
    ensures Span(size, count) == count * size
  {
    if count > 0 {
      SpanIsProduct(size, count - 1);
    }
  }

  /** One section: the offset of its name, and its records. */
  datatype Section = Section(name_off: nat, records: seq<Bytes>)

  predicate Sized(size: nat, records: seq<Bytes>) {
    forall r | r in records :: |r| == size
  }

  ghost predicate Fits(size: nat, s: Section) {
    s.name_off <= UINT32_MAX && |s.records| <= UINT32_MAX && Sized(size, s.records)
  }

  function Flatten(records: seq<Bytes>): Bytes {
    if records == [] then [] else records[0] + Flatten(records[1..])
  }

  function EncodeOne(s: Section): Bytes
    requires s.name_off <= UINT32_MAX && |s.records| <= UINT32_MAX
  {
    PutU32(s.name_off) + PutU32(|s.records|) + Flatten(s.records)
  }

  ghost function Encode(size: nat, sections: seq<Section>): Bytes
    requires forall s | s in sections :: Fits(size, s)
  {
    if sections == [] then []
    else
      assert Fits(size, sections[0]);
      EncodeOne(sections[0]) + Encode(size, sections[1..])
  }

  /** The first `count` records of `s`. */
  function Cut(size: nat, s: Bytes, count: nat): (records: seq<Bytes>)
    requires Span(size, count) <= |s|
    ensures |records| == count
    decreases count
  {
    if count == 0 then []
    else
      [s[..size]] + Cut(size, s[size..], count - 1)
  }

  /** The sections read up to the end or to the first one that does not fit, and which it was. */
  datatype Decoding = Decoding(sections: seq<Section>, complete: bool)

  predicate Whole(size: nat, s: Bytes) {
    |s| >= SECTION_SIZE && Span(size, U32At(s, 4)) <= |s| - SECTION_SIZE
  }

  /** The section that `s` starts with, and what follows it. */
  function First(size: nat, s: Bytes): (r: (Section, Bytes))
    requires Whole(size, s)
    ensures |r.1| < |s|
  {
    var count := U32At(s, 4);
    var body := s[SECTION_SIZE..];
    (Section(U32At(s, 0), Cut(size, body, count)), body[Span(size, count)..])
  }

  function Decode(size: nat, s: Bytes): Decoding
    decreases |s|
  {
    if !Whole(size, s) then Decoding([], s == [])
    else
      var (section, rest) := First(size, s);
      var later := Decode(size, rest);
      Decoding([section] + later.sections, later.complete)
  }

  lemma Assoc(a: Bytes, b: Bytes, c: Bytes)
    ensures (a + b) + c == a + (b + c)
  {
  }

  lemma Parts(a: Bytes, b: Bytes)
    ensures (a + b)[..|a|] == a && (a + b)[|a|..] == b
  {
  }

  lemma Rejoined(s: Bytes, i: nat, j: nat)
    requires i <= j <= |s|
    ensures s[..i] + s[i..][..j - i] == s[..j] && s[i..][j - i..] == s[j..] && s[..i] + s[i..] == s
  {
  }

  lemma {:induction false} CutFlatten(size: nat, records: seq<Bytes>, rest: Bytes)
    requires Sized(size, records)
    ensures |Flatten(records)| == Span(size, |records|)
    ensures Span(size, |records|) <= |Flatten(records) + rest|
    ensures Cut(size, Flatten(records) + rest, |records|) == records
  {
    if records != [] {
      var head, tail := records[0], Flatten(records[1..]);
      assert head in records;
      CutFlatten(size, records[1..], rest);
      Assoc(head, tail, rest);
      Parts(head, tail + rest);
      hide Flatten;
      assert Cut(size, head + (tail + rest), |records|) == [head] + records[1..];
    }
  }

  lemma {:induction false} FlattenCut(size: nat, s: Bytes, count: nat)
    requires Span(size, count) <= |s|
    ensures Flatten(Cut(size, s, count)) == s[..Span(size, count)] && Sized(size, Cut(size, s, count))
    decreases count
  {
    if count > 0 {
      FlattenCut(size, s[size..], count - 1);
      Rejoined(s, size, Span(size, count));
      var later := Cut(size, s[size..], count - 1);
      assert ([s[..size]] + later)[1..] == later;
    }
  }

  lemma HeadReads(name_off: nat, count: nat, body: Bytes)
    requires name_off <= UINT32_MAX && count <= UINT32_MAX
    ensures var s := PutU32(name_off) + PutU32(count) + body;
            U32At(s, 0) == name_off && U32At(s, 4) == count && s[SECTION_SIZE..] == body
  {
    U32Reads(name_off, PutU32(count) + body);
    U32Reads(count, body);
    hide PutU32;
  }

  lemma HeadWrites(s: Bytes)
    requires |s| >= SECTION_SIZE
    ensures PutU32(U32At(s, 0)) + PutU32(U32At(s, 4)) + s[SECTION_SIZE..] == s
  {
    U32Writes(s[..4]);
    U32Writes(s[4..8]);
    hide PutU32;
    assert U32At(s, 0) == U32At(s[..4], 0) && U32At(s, 4) == U32At(s[4..8], 0);
    assert s == s[..4] + s[4..8] + s[8..];
  }

  lemma OneDecodes(size: nat, section: Section, later: Bytes)
    requires Fits(size, section)
    ensures Whole(size, EncodeOne(section) + later) && First(size, EncodeOne(section) + later) == (section, later)
  {
    var body := Flatten(section.records);
    CutFlatten(size, section.records, later);
    HeadReads(section.name_off, |section.records|, body + later);
    hide U32At, PutU32, Flatten, Cut;
    Assoc(PutU32(section.name_off) + PutU32(|section.records|), body, later);
    Parts(body, later);
  }

  lemma OnlyOneDecodes(size: nat, s: Bytes)
    requires Whole(size, s)
    ensures Fits(size, First(size, s).0) && EncodeOne(First(size, s).0) + First(size, s).1 == s
  {
    var count, body := U32At(s, 4), s[SECTION_SIZE..];
    FlattenCut(size, body, count);
    HeadWrites(s);
    Rejoined(body, Span(size, count), |body|);
    hide U32At, PutU32, Flatten, Cut;
    Assoc(PutU32(U32At(s, 0)) + PutU32(count), body[..Span(size, count)], body[Span(size, count)..]);
  }

  /** Encoded sections are read back in order, records and all. */
  lemma {:induction false} EncodeDecodes(size: nat, sections: seq<Section>)
    requires forall s | s in sections :: Fits(size, s)
    ensures Decode(size, Encode(size, sections)) == Decoding(sections, true)
    decreases |sections|
  {
    if sections != [] {
      var later := Encode(size, sections[1..]);
      assert Fits(size, sections[0]);
      OneDecodes(size, sections[0], later);
      EncodeDecodes(size, sections[1..]);
      hide EncodeOne, Whole, First;
      assert [sections[0]] + sections[1..] == sections;
    }
  }

  /** Only encodings are read to the end. */
  lemma {:induction false} OnlyEncodingsDecode(size: nat, s: Bytes)
    requires Decode(size, s).complete
    ensures (forall t | t in Decode(size, s).sections :: Fits(size, t)) && Encode(size, Decode(size, s).sections) == s
    decreases |s|
  {
    if Whole(size, s) {
      var (section, rest) := First(size, s);
      OnlyOneDecodes(size, s);
      OnlyEncodingsDecode(size, rest);
      hide EncodeOne, Whole, First, Fits;
      var later := Decode(size, rest).sections;
      assert ([section] + later)[1..] == later;
    }
  }

  /** The records of a part, one by one: with `left` to go in the current section. */
  datatype Frames = Broken | Frames(records: seq<Bytes>)

  function Behind(records: seq<Bytes>, f: Frames): Frames {
    if f.Broken? then Broken else Frames(records + f.records)
  }

  function Records(size: nat, left: nat, s: Bytes): (f: Frames)
    requires size > 0
    ensures f.Frames? ==> Sized(size, f.records)
    decreases |s|, left
  {
    if left > 0 then if |s| < size then Broken else Behind([s[..size]], Records(size, left - 1, s[size..]))
    else if s == [] then Frames([])
    else if |s| < SECTION_SIZE then Broken
    else Records(size, U32At(s, 4), s[SECTION_SIZE..])
  }

  function AllRecords(sections: seq<Section>): seq<Bytes> {
    if sections == [] then [] else sections[0].records + AllRecords(sections[1..])
  }

  lemma BehindTwice(first: seq<Bytes>, second: seq<Bytes>, f: Frames)
    ensures Behind(first, Behind(second, f)) == Behind(first + second, f)
    ensures Behind([], f) == f
  {
    if f.Frames? {
      assert first + (second + f.records) == (first + second) + f.records;
    }
  }

  lemma {:induction false} SectionRecords(size: nat, left: nat, s: Bytes)
    requires size > 0
    ensures Records(size, left, s) ==
            if Span(size, left) <= |s| then Behind(Cut(size, s, left), Records(size, 0, s[Span(size, left)..]))
            else Broken
    decreases left
  {
    hide Behind, Records, Cut;
    RecordsStep(size, left, s);
    if left == 0 {
      BehindTwice([], [], Records(size, 0, s));
    } else if |s| >= size {
      SectionRecords(size, left - 1, s[size..]);
      BehindBroken([s[..size]]);
      if Span(size, left) <= |s| {
        Rejoined(s, size, Span(size, left));
        BehindTwice([s[..size]], Cut(size, s[size..], left - 1), Records(size, 0, s[Span(size, left)..]));
      }
    }
  }

  lemma RecordsStep(size: nat, left: nat, s: Bytes)
    requires size > 0
    ensures left == 0 ==> Cut(size, s, 0) == [] && s[0..] == s
    ensures left > 0 && |s| < size ==> Records(size, left, s) == Broken && Span(size, left) > |s|
    ensures left > 0 && |s| >= size ==>
              Records(size, left, s) == Behind([s[..size]], Records(size, left - 1, s[size..]))
    ensures left > 0 && Span(size, left) <= |s| ==> Cut(size, s, left) == [s[..size]] + Cut(size, s[size..], left - 1)
  {
  }

  lemma BehindBroken(first: seq<Bytes>)
    ensures Behind(first, Broken) == Broken
  {
  }

  /** Reading record by record gives the records of the sections, exactly if the sections fit. */
  lemma {:induction false} RecordsAreSections(size: nat, s: Bytes)
    requires size > 0
    ensures Records(size, 0, s) ==
            if Decode(size, s).complete then Frames(AllRecords(Decode(size, s).sections)) else Broken
    decreases |s|
  {
    if |s| >= SECTION_SIZE {
      SectionRecords(size, U32At(s, 4), s[SECTION_SIZE..]);
      if Whole(size, s) {
        var (section, rest) := First(size, s);
        RecordsAreSections(size, rest);
        var later := Decode(size, rest).sections;
        assert ([section] + later)[1..] == later;
      }
    }
  }

  /** One part of the data: where its sections lie, and the size of its records. */
  datatype Area = NoArea | Area(pos: nat, end: nat, rec_size: nat)

  /** Whether a part lies within the data and its records are large enough. */
  predicate Framed(raw: Bytes, hdr_len: nat, off: nat, len: nat, min_rec_size: nat) {
    hdr_len + off + len <= |raw| && 4 <= len && U32At(raw, hdr_len + off) >= min_rec_size
  }

  /** `init_ext_info`. The subtractions stay within the unsigned range. */
  method InitExtInfo(raw: Bytes, hdr_len: nat, off: nat, len: nat, min_rec_size: nat, required: bool)
    returns (ok: bool, info: Area)
    ensures ok <==> len == 0 || Framed(raw, hdr_len, off, len, min_rec_size) || !required
    ensures info == if len != 0 && Framed(raw, hdr_len, off, len, min_rec_size)
                    then Area(hdr_len + off + 4, hdr_len + off + len, U32At(raw, hdr_len + off)) else NoArea
  {
    var raw_size := |raw|;
    if len == 0 {
      return true, NoArea;
    }
    if hdr_len > raw_size {
      return !required, NoArea;
    }
    var behind: nat := raw_size - hdr_len;
    if off > behind {
      return !required, NoArea;
    }
    var room: nat := behind - off;
    if len > room {
      return !required, NoArea;
    }
    var data := hdr_len + off;
    if len < 4 {
      return !required, NoArea;
    }
    var rec_size := U32At(raw, data);
    if rec_size < min_rec_size {
      return !required, NoArea;
    }
    return true, Area(data + 4, data + len, rec_size);
  }

  lemma {:induction false} SpanGrows(size: nat, count: nat, more: nat)
    requires count <= more
    ensures Span(size, count) <= Span(size, more)
    decreases more
  {
    if count < more {
      SpanGrows(size, count, more - 1);
    }
  }

  lemma FitsByDivision(size: nat, count: nat, room: nat)
    requires size > 0
    ensures count <= room / size <==> Span(size, count) <= room
  {
    var most: nat := room / size;
    SpanIsProduct(size, most);
    assert Span(size, most) <= room < Span(size, most + 1);
    if count <= most {
      SpanGrows(size, count, most);
    } else {
      SpanGrows(size, most + 1, count);
    }
  }

  /** The first section of a name, or the number of sections. */
  function FirstNamed(sections: seq<Section>, name_off: nat): (k: nat)
    ensures k <= |sections| && (k < |sections| ==> sections[k].name_off == name_off)
    ensures forall j | 0 <= j < k :: sections[j].name_off != name_off
  {
    if sections == [] || sections[0].name_off == name_off then 0 else FirstNamed(sections[1..], name_off) + 1
  }

  ghost predicate Holds(raw: Bytes, info: Area) {
    info.Area? ==> info.pos <= info.end <= |raw|
  }

  /** The guard by division, and the product it keeps within the room left. */
  method ByteCount(size: nat, count: nat, room: nat) returns (fits: bool, byte_count: nat)
    ensures fits <==> Span(size, count) <= room
    ensures fits ==> byte_count == Span(size, count)
  {
    SpanIsProduct(size, count);
    byte_count := 0;
    if size != 0 {
      FitsByDivision(size, count, room);
      if count > room / size {
        return false, 0;
      }
    }
    return true, count * size;
  }

  /** `find_ext_info_section`: where the records of the first section of a name start, and how many
      there are. Sections past one that does not fit are not found. */
  method FindExtInfoSection(raw: Bytes, info: Area, name_off: nat) returns (found: bool, at: nat, num_info: nat)
    requires Holds(raw, info)
    ensures info.NoArea? ==> !found
    ensures info.Area? ==>
              var sections := Decode(info.rec_size, raw[info.pos..info.end]).sections;
              var k := FirstNamed(sections, name_off);
              && found == (k < |sections|)
              && (found ==>
                    && at <= info.end && Span(info.rec_size, num_info) <= info.end - at
                    && Cut(info.rec_size, raw[at..info.end], num_info) == sections[k].records)
  {
    hide U32At, Cut, Decode, FirstNamed, Span;
    found, at, num_info := false, 0, 0;
    if info.NoArea? {
      return;
    }
    var pos, end, size := info.pos, info.end, info.rec_size;
    ghost var sections := Decode(size, raw[pos..end]).sections;
    ghost var passed := 0;
    while pos < end
      invariant info.pos <= pos <= end && passed <= |sections|
      invariant sections[passed..] == Decode(size, raw[pos..end]).sections
      invariant FirstNamed(sections, name_off) == passed + FirstNamed(sections[passed..], name_off)
    {
      SectionAt(size, raw, pos, end);
      if end - pos < SECTION_SIZE {
        NothingNamed(name_off);
        return;
      }
      var sec_name_off, count := U32At(raw, pos), U32At(raw, pos + 4);
      pos := pos + SECTION_SIZE;
      var fits, byte_count := ByteCount(size, count, end - pos);
      if !fits {
        NothingNamed(name_off);
        return;
      }
      FirstNamedNext(sections[passed..], name_off);
      if sec_name_off == name_off {
        return true, pos, count;
      }
      assert sections[passed..][1..] == sections[passed + 1..];
      passed := passed + 1;
      pos := pos + byte_count;
    }
    SectionAt(size, raw, end, end);
    NothingNamed(name_off);
  }

  lemma NothingNamed(name_off: nat)
    ensures FirstNamed([], name_off) == 0
  {
  }

  lemma FirstNamedNext(sections: seq<Section>, name_off: nat)
    requires sections != []
    ensures FirstNamed(sections, name_off) ==
            if sections[0].name_off == name_off then 0 else 1 + FirstNamed(sections[1..], name_off)
  {
  }

  /** What the bytes at a cursor decode to: a section and the rest, or nothing. */
  lemma SectionAt(size: nat, raw: Bytes, pos: nat, end: nat)
    requires pos <= end <= |raw|
    ensures var sections := Decode(size, raw[pos..end]).sections;
            var body := pos + SECTION_SIZE;
            if end < body || Span(size, U32At(raw, pos + 4)) > end - body then sections == []
            else
              var count := U32At(raw, pos + 4);
              sections == [Section(U32At(raw, pos), Cut(size, raw[body..end], count))]
                          + Decode(size, raw[body + Span(size, count)..end]).sections
  {
    hide U32At, Cut;
    if pos + SECTION_SIZE <= end {
      SectionHead(raw, pos, end);
      var body, count := pos + SECTION_SIZE, U32At(raw, pos + 4);
      if Span(size, count) <= end - body {
        assert raw[body..end][Span(size, count)..] == raw[body + Span(size, count)..end];
      }
    }
  }

  lemma SectionHead(raw: Bytes, pos: nat, end: nat)
    requires pos + SECTION_SIZE <= end <= |raw|
    ensures var s := raw[pos..end];
            && U32At(s, 0) == U32At(raw, pos) && U32At(s, 4) == U32At(raw, pos + 4)
            && s[SECTION_SIZE..] == raw[pos + SECTION_SIZE..end]
  {
  }

  /** The instruction offset that a function or line record starts with. */
  function InsnOff(record: Bytes): nat
    requires |record| >= 4
  {
    U32At(record, 0)
  }

  /** The record that covers an instruction: the last of those that start latest, at or before it. */
  ghost predicate Covers(records: seq<Bytes>, insn_off: nat, k: nat)
    requires forall r | r in records :: |r| >= 4
  {
    && k < |records| && InsnOff(records[k]) <= insn_off
    && forall j | 0 <= j < |records| && InsnOff(records[j]) <= insn_off ::
         InsnOff(records[j]) < InsnOff(records[k]) || (InsnOff(records[j]) == InsnOff(records[k]) && j <= k)
  }

  /** The search of `find_line_location` and `find_function_name` among the records of a section. */
  method BestRecord(records: seq<Bytes>, insn_off: nat) returns (found: bool, best: nat)
    requires forall r | r in records :: |r| >= 4
    ensures found ==> Covers(records, insn_off, best)
    ensures !found ==> forall r | r in records :: InsnOff(r) > insn_off
  {
    hide U32At;
    found, best := false, 0;
    for i := 0 to |records|
      invariant found ==> Covers(records[..i], insn_off, best)
      invariant !found ==> forall j | 0 <= j < i :: InsnOff(records[j]) > insn_off
    {
      if InsnOff(records[i]) > insn_off {
        continue;
      }
      if !found || InsnOff(records[i]) >= InsnOff(records[best]) {
        found, best := true, i;
      }
    }
    assert records[..|records|] == records;
  }

  /** The source position of an instruction: file, line and column. */
  datatype Location = NoLocation | Location(file: string, line: nat, column: nat)

  function LocationOf(record: Bytes, strings: map<nat, string>): Location
    requires |record| >= LINE_INFO_SIZE
  {
    var file := StringAt(strings, U32At(record, 4));
    var line_col := U32At(record, 12);
    if file == "" then NoLocation else Location(file, line_col / 1024, line_col % 1024)
  }

  function StringAt(strings: map<nat, string>, off: nat): string {
    if off in strings then strings[off] else ""
  }

  /** `find_line_location`: the position that the covering record of the section gives. */
  method FindLineLocation(raw: Bytes, info: Area, strings: map<nat, string>, name_off: nat, insn_off: nat)
    returns (where: Location)
    requires Holds(raw, info) && (info.Area? ==> info.rec_size >= LINE_INFO_SIZE)
    ensures info.NoArea? ==> where.NoLocation?
    ensures info.Area? ==>
              var sections := Decode(info.rec_size, raw[info.pos..info.end]).sections;
              var k := FirstNamed(sections, name_off);
              && (forall s | s in sections :: Sized(info.rec_size, s.records))
              && (k == |sections| ==> where.NoLocation?)
              && (k < |sections| ==>
                    var records := sections[k].records;
                    || (where.NoLocation? && forall r | r in records :: InsnOff(r) > insn_off)
                    || exists i: nat :: Covers(records, insn_off, i) && where == LocationOf(records[i], strings))
  {
    hide U32At, Cut, Covers, InsnOff;
    if info.Area? {
      DecodedSized(info.rec_size, raw[info.pos..info.end]);
    }
    var found, at, num_info := FindExtInfoSection(raw, info, name_off);
    if !found {
      return NoLocation;
    }
    var records := Cut(info.rec_size, raw[at..info.end], num_info);
    var covered, best := BestRecord(records, insn_off);
    if !covered {
      return NoLocation;
    }
    CoversIsIndex(records, insn_off, best);
    return LocationOf(records[best], strings);
  }

  lemma CoversIsIndex(records: seq<Bytes>, insn_off: nat, k: nat)
    requires (forall r | r in records :: |r| >= 4) && Covers(records, insn_off, k)
    ensures k < |records|
  {
  }

  lemma {:induction false} DecodedSized(size: nat, s: Bytes)
    ensures forall t | t in Decode(size, s).sections :: Sized(size, t.records)
    decreases |s|
  {
    if Whole(size, s) {
      var (section, rest) := First(size, s);
      OnlyOneDecodes(size, s);
      DecodedSized(size, rest);
    }
  }

  /** The CO-RE relocation records of `.BTF.ext` data, if the framing is accepted. */
  function CoreRecords(raw: Bytes): (f: Frames)
    ensures f.Frames? ==> forall r | r in f.records :: |r| >= CORE_RELO_SIZE
  {
    if |raw| < HEADER_SIZE || raw[0] + 0x100 * (raw[1] as int) != BTF_MAGIC || raw[2] != BTF_VERSION then Broken
    else
      var hdr_len, off, len := U32At(raw, 4), U32At(raw, 24), U32At(raw, 28);
      if hdr_len < HEADER_SIZE || hdr_len > |raw| then Broken
      else if len == 0 then Frames([])
      else if !Framed(raw, hdr_len, off, len, CORE_RELO_SIZE) then Broken
      else Records(U32At(raw, hdr_len + off), 0, raw[hdr_len + off + 4..hdr_len + off + len])
  }
}
