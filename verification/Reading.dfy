/** How the grammar reads the pieces the printer puts together. */
module Reading {
  import opened Btf
  import opened CSyntax
  import opened Printer
  import opened Grammar

  /** What may follow a whole declarator; a wide stop may even be a name. */
  predicate Stops(rest: Text, wide: bool) {
    if wide then rest != [] && rest[0] != LBrk && rest[0] != LPar
    else rest != [] && rest[0] in {Semi, Comma, RPar, Colon}
  }

  /** What may follow the beginning of a direct declarator: nothing at all must not be mistaken for a name. */
  predicate Follow(d: Text, rest: Text) {
    d == [] ==> !OpensGroup(rest) && (rest != [] ==> !rest[0].Ident?)
  }

  /** A reading that fails, or that comes to a name where none can stand. */
  predicate Stuck<T>(r: Read<T>) {
    r.Fail? || (r.rest != [] && r.rest[0].Ident?)
  }

  /** Text in which the suffixes of a declarator get stuck. */
  ghost predicate Jam(z: Text) {
    z != [] && forall dt :: Stuck(ReadSuffixes(dt, z))
  }

  predicate Unqualified(d: Text) {
    d != [] ==> !d[0].QualWord?
  }

  /** `d` is the beginning of a direct declarator, and says `dt`, whatever suffixes come after. */
  ghost predicate DirectReads(d: Text, dt: Dtor) {
    && Unqualified(d) && !StartsWithStar(d)
    && forall rest | Follow(d, rest) :: ReadDirect(d + rest) == ReadSuffixes(dt, rest)
  }

  /** `d` is a whole declarator, and says `dt`; a wide one has an end that nothing can be taken for. */
  ghost predicate DtorReads(d: Text, dt: Dtor, wide: bool) {
    && Unqualified(d)
    && (forall rest | Stops(rest, wide) :: ReadDtor(d + rest) == Got(dt, rest))
    && (wide ==> forall z | Jam(z) :: Stuck(ReadDtor(d + z)))
  }

  /** `d` is a declarator that a type on the way to the specifiers may extend. */
  ghost predicate Reads(d: Text, dt: Dtor, wide: bool) {
    if StartsWithStar(d) then DtorReads(d, dt, wide) else DirectReads(d, dt) && (wide ==> d != [])
  }

  lemma Assoc(a: Text, b: Text, c: Text)
    ensures (a + b) + c == a + (b + c)
  {
  }

  lemma NameReads(name: string)
    ensures DirectReads(NameText(name), Named(name)) && Reads(NameText(name), Named(name), false)
  {
    forall rest | Follow(NameText(name), rest)
      ensures ReadDirect(NameText(name) + rest) == ReadSuffixes(Named(name), rest)
    {
      if name == "" {
        assert NameText(name) + rest == rest;
      } else {
        assert (NameText(name) + rest)[1..] == rest;
      }
    }
  }

  lemma ReadsWhole(d: Text, dt: Dtor, wide: bool)
    requires Reads(d, dt, wide)
    ensures DtorReads(d, dt, wide)
  {
    if !StartsWithStar(d) {
      forall rest | Stops(rest, wide)
        ensures ReadDtor(d + rest) == Got(dt, rest)
      {
        assert d == [] ==> d + rest == rest;
        assert ReadDirect(d + rest) == ReadSuffixes(dt, rest);
      }
      if wide {
        DirectJams(d, dt);
      }
    }
  }

  lemma DirectJams(d: Text, dt: Dtor)
    requires DirectReads(d, dt) && d != []
    ensures forall z | Jam(z) :: Stuck(ReadDtor(d + z))
  {
    hide ReadSuffixes, ReadDirect;
    forall z | Jam(z)
      ensures Stuck(ReadDtor(d + z))
    {
      assert ReadDirect(d + z) == ReadSuffixes(dt, z);
    }
  }

  lemma QualRead(quals: Quals, q: Qual, ts: Text, before: Quals, rest: Text)
    requires ReadQuals(ts) == Got(before, rest)
    ensures ReadQuals(QualWordIf(quals, q) + ts) == Got(before + quals * {q}, rest)
  {
    if q in quals {
      assert (QualWordIf(quals, q) + ts)[1..] == ts;
      assert {q} + before == before + quals * {q};
    } else {
      assert QualWordIf(quals, q) + ts == ts;
      assert before + quals * {q} == before;
    }
  }

  lemma AllQuals(before: Quals, quals: Quals)
    ensures before + quals * {Restrict} + quals * {Volatile} + quals * {Const} == quals + before
  {
    forall q | q in quals
      ensures q == Const || q == Volatile || q == Restrict
    {
    }
  }

  lemma Regroup(a: Text, b: Text, c: Text, rest: Text)
    ensures (a + b + c) + rest == a + (b + (c + rest))
  {
  }

  lemma QualsRead(quals: Quals, ts: Text)
    ensures ReadQuals(QualText(quals) + ts) == Got(quals + ReadQuals(ts).value, ReadQuals(ts).rest)
  {
    hide QualWordIf;
    var before := ReadQuals(ts).value;
    var rest := ReadQuals(ts).rest;
    var r := QualWordIf(quals, Restrict) + ts;
    var v := QualWordIf(quals, Volatile) + r;
    QualRead(quals, Restrict, ts, before, rest);
    QualRead(quals, Volatile, r, before + quals * {Restrict}, rest);
    QualRead(quals, Const, v, before + quals * {Restrict} + quals * {Volatile}, rest);
    Regroup(QualWordIf(quals, Const), QualWordIf(quals, Volatile), QualWordIf(quals, Restrict), ts);
    AllQuals(before, quals);
  }

  lemma PointerReads(q: Quals, d: Text, dt: Dtor, wide: bool)
    requires Reads(d, dt, wide)
    ensures Reads([Star] + QualText(q) + d, Deref(q, dt), wide)
  {
    hide QualText, ReadDirect, ReadDtor, Jam;
    ReadsWhole(d, dt, wide);
    var all := [Star] + QualText(q) + d;
    forall rest | Stops(rest, wide)
      ensures ReadDtor(all + rest) == Got(Deref(q, dt), rest)
    {
      assert d == [] ==> d + rest == rest;
      StarRead(q, d, rest);
    }
    forall z | wide && Jam(z)
      ensures Stuck(ReadDtor(all + z))
    {
      StarRead(q, d, z);
    }
  }

  lemma StarRead(q: Quals, d: Text, rest: Text)
    requires (d + rest) != [] ==> !(d + rest)[0].QualWord?
    ensures ReadDtor([Star] + QualText(q) + d + rest) ==
            match ReadDtor(d + rest)
            case Fail => Fail
            case Got(dt, after) => Got(Deref(q, dt), after)
  {
    hide QualText, ReadDirect;
    var all := [Star] + QualText(q) + d;
    assert (all + rest)[1..] == QualText(q) + (d + rest);
    assert ReadQuals(d + rest) == Got({}, d + rest);
    QualsRead(q, d + rest);
    assert q + {} == q;
  }

  lemma GroupRead(d: Text, dt: Dtor, wide: bool, rest: Text)
    requires StartsWithStar(d) && DtorReads(d, dt, wide)
    ensures ReadDirect(Group(d) + rest) == ReadSuffixes(dt, rest)
  {
    hide ReadDtor, ReadSuffixes, Jam;
    var ts := Group(d) + rest;
    var close := [RPar] + rest;
    assert ts[0] == LPar && ts[1] == Star;
    assert ts[1..] == d + close;
    assert close[1..] == rest;
    assert ReadDtor(d + close) == Got(dt, close);
  }

  lemma GroupReads(d: Text, dt: Dtor, wide: bool)
    requires Reads(d, dt, wide)
    ensures DirectReads(Group(d), dt)
  {
    if StartsWithStar(d) {
      forall rest | Follow(Group(d), rest)
        ensures ReadDirect(Group(d) + rest) == ReadSuffixes(dt, rest)
      {
        GroupRead(d, dt, wide, rest);
      }
    }
  }

  /** A suffix closes a declarator: no name can come after it. */
  lemma ArrayReads(d: Text, dt: Dtor, wide: bool, n: nat)
    requires Reads(d, dt, wide)
    ensures Reads(Group(d) + [LBrk, Number(n), RBrk], Indexed(dt, n), true)
  {
    GroupReads(d, dt, wide);
    var g := Group(d);
    var suffix := [LBrk, Number(n), RBrk];
    forall rest | Follow(g + suffix, rest)
      ensures ReadDirect((g + suffix) + rest) == ReadSuffixes(Indexed(dt, n), rest)
    {
      assert (g + suffix) + rest == g + (suffix + rest);
      assert (suffix + rest)[3..] == rest;
      assert ReadDirect(g + (suffix + rest)) == ReadSuffixes(dt, suffix + rest);
    }
  }

  /** A word that specifiers may begin with. */
  predicate Opens(t: Token) {
    t.QualWord? || OneWord(t) || t.RecordWord?
  }

  ghost predicate ParamsRead(list: Text, ps: seq<CParam>) {
    && list != [] && Opens(list[0])
    && forall rest :: ReadParams(list + ([RPar] + rest)) == Got(ps, [RPar] + rest)
  }

  lemma CallReads(d: Text, dt: Dtor, wide: bool, list: Text, ps: seq<CParam>)
    requires Reads(d, dt, wide) && ParamsRead(list, ps)
    ensures Reads(WithParams(d, list), Called(dt, ps), true)
  {
    hide Reads;
    GroupReads(d, dt, wide);
    forall rest | Follow(WithParams(d, list), rest)
      ensures ReadDirect(WithParams(d, list) + rest) == ReadSuffixes(Called(dt, ps), rest)
    {
      CallRead(Group(d), dt, list, ps, rest);
    }
    CallStarts(d, list);
    DirectIsRead(WithParams(d, list), Called(dt, ps));
  }

  lemma DirectIsRead(d: Text, dt: Dtor)
    requires DirectReads(d, dt) && d != []
    ensures Reads(d, dt, true)
  {
  }

  lemma CallStarts(d: Text, list: Text)
    requires Unqualified(Group(d)) && !StartsWithStar(Group(d))
    ensures WithParams(d, list) != []
    ensures Unqualified(WithParams(d, list)) && !StartsWithStar(WithParams(d, list))
  {
  }

  lemma CallRead(g: Text, dt: Dtor, list: Text, ps: seq<CParam>, rest: Text)
    requires DirectReads(g, dt) && ParamsRead(list, ps)
    ensures ReadDirect(g + ([LPar] + (list + [RPar])) + rest) == ReadSuffixes(Called(dt, ps), rest)
  {
    hide ReadParams, ReadDirect;
    var tail := [LPar] + (list + ([RPar] + rest));
    var close := [RPar] + rest;
    Assoc(list, [RPar], rest);
    Assoc([LPar], list + [RPar], rest);
    Assoc(g, [LPar] + (list + [RPar]), rest);
    assert tail[1..] == list + close;
    assert close[1..] == rest;
    assert Follow(g, tail);
  }
}
