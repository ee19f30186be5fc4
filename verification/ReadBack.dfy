/** Reading back what the printer wrote: the types whose text the reader gets through. */
module ReadBack {
  import opened Btf
  import opened CSyntax
  import opened Meaning
  import opened Declarators
  import opened Walk
  import opened Printer
  import opened Grammar
  import opened Reading
  import opened RoundTrip

  /** A reading of the type `t` and the declarator `dt` around it, up to `rest`. */
  ghost predicate ReadsAs(r: Read<Declared>, dt: Dtor, t: CType, rest: Text) {
    && r.Got? && r.rest == rest
    && TypeIn(r.value) == Apply(dt, t) && NameIn(r.value.dtor) == NameIn(dt)
  }

  /** A text that reads as such, wherever it stands. */
  ghost predicate Says(text: Text, dt: Dtor, t: CType, wide: bool) {
    && text != [] && Opens(text[0])
    && (forall rest | Stops(rest, wide) :: ReadsAs(ReadDeclared(text + rest), dt, t, rest))
    && (wide ==> forall z | Jam(z) :: Stuck(ReadDeclared(text + z)))
  }

  /** Specifiers read, and then a declarator. */
  lemma SpecsSay(text: Text, s: Specs, d: Text, dt: Dtor, wide: bool)
    requires text != [] && Opens(text[0]) && Reads(d, dt, wide)
    requires forall rest :: ReadSpecs(text + rest) == Got(s, d + rest)
    ensures Says(text, dt, Plain(s.quals, s.spec), wide)
  {
    hide ReadDtor, ReadSpecs, Reads, Jam;
    ReadsWhole(d, dt, wide);
    forall rest | Stops(rest, wide)
      ensures ReadsAs(ReadDeclared(text + rest), dt, Plain(s.quals, s.spec), rest)
    {
      assert ReadSpecs(text + rest) == Got(s, d + rest);
    }
    forall z | wide && Jam(z)
      ensures Stuck(ReadDeclared(text + z))
    {
      assert ReadSpecs(text + z) == Got(s, d + z);
    }
  }

  lemma WordSpecs(word: Token, after: Text)
    requires OneWord(word)
    ensures ReadSpecs([word] + after) == Got(Specs({}, SpecFor(word)), after)
  {
    var ts := [word] + after;
    assert ts[1..] == after;
    assert ReadQuals(ts) == Got({}, ts);
  }

  lemma WordsSpecs(word: Token, d: Text)
    requires OneWord(word)
    ensures forall rest :: ReadSpecs([word] + d + rest) == Got(Specs({}, SpecFor(word)), d + rest)
  {
    hide ReadSpecs, SpecFor;
    forall rest
      ensures ReadSpecs([word] + d + rest) == Got(Specs({}, SpecFor(word)), d + rest)
    {
      Assoc([word], d, rest);
      WordSpecs(word, d + rest);
    }
  }

  lemma LeafSays(word: Token, d: Text, dt: Dtor, wide: bool)
    requires Reads(d, dt, wide) && OneWord(word)
    ensures Says([word] + d, dt, Plain({}, SpecFor(word)), wide)
  {
    hide ReadSpecs, SpecFor, Reads, Says;
    WordsSpecs(word, d);
    SpecsSay([word] + d, Specs({}, SpecFor(word)), d, dt, wide);
  }

  lemma ApplyInner(d: Dtor, w: Quals, t: CType)
    ensures Apply(d, AddInner(w, t)) == AddInner(w, Apply(d, t))
  {
  }

  /** Qualifiers in front add to the specifiers, and change nothing else. */
  lemma QualifiedReads(w: Quals, ts: Text)
    ensures ReadDeclared(QualText(w) + ts) ==
            match ReadDeclared(ts)
            case Fail => Fail
            case Got(d, after) => Got(Declared(Specs(w + d.specs.quals, d.specs.spec), d.dtor), after)
  {
    hide QualText, ReadFields, ReadDtor;
    QualsRead(w, ts);
  }

  lemma QualifiedSays(w: Quals, text: Text, dt: Dtor, t: CType, wide: bool)
    requires Says(text, dt, t, wide)
    ensures Says(QualText(w) + text, dt, AddInner(w, t), wide)
  {
    hide ReadDeclared, QualText, Jam;
    forall rest
      ensures QualText(w) + text + rest == QualText(w) + (text + rest)
    {
      Assoc(QualText(w), text, rest);
    }
    forall rest | Stops(rest, wide)
      ensures ReadsAs(ReadDeclared(QualText(w) + text + rest), dt, AddInner(w, t), rest)
    {
      QualifiedReads(w, text + rest);
      var d := ReadDeclared(text + rest).value;
      ApplyInner(d.dtor, w, Plain(d.specs.quals, d.specs.spec));
      ApplyInner(dt, w, t);
    }
    forall z | wide && Jam(z)
      ensures Stuck(ReadDeclared(QualText(w) + text + z))
    {
      QualifiedReads(w, text + z);
    }
    QualsOpen(w, text);
  }

  lemma QualsOpen(w: Quals, text: Text)
    requires text != [] && Opens(text[0])
    ensures (QualText(w) + text) != [] && Opens((QualText(w) + text)[0])
  {
  }

  /** A record body reads as these fields. */
  ghost predicate BodyReads(body: Text, fields: seq<Field>) {
    forall rest :: ReadFields(body + ([RBrace] + rest)) == Got(fields, [RBrace] + rest)
  }

  lemma BracedText(isUnion: bool, body: Text, d: Text, rest: Text)
    ensures Braced(isUnion, body, d) + rest == [RecordWord(isUnion), LBrace] + (body + ([RBrace] + (d + rest)))
  {
    Assoc([RecordWord(isUnion), LBrace], body + ([RBrace] + d), rest);
    Assoc(body, [RBrace] + d, rest);
    Assoc([RBrace], d, rest);
  }

  lemma BracedSpecs(isUnion: bool, body: Text, rest: Text)
    ensures ReadSpecs([RecordWord(isUnion), LBrace] + (body + ([RBrace] + rest))) ==
            match ReadFields(body + ([RBrace] + rest))
            case Fail => Fail
            case Got(fields, after) =>
              if Next(after, RBrace) then Got(Specs({}, Inline(isUnion, fields)), after[1..]) else Fail
  {
    hide ReadFields;
    var ts := [RecordWord(isUnion), LBrace] + (body + ([RBrace] + rest));
    assert ReadQuals(ts) == Got({}, ts);
    assert ts[1..][1..] == body + ([RBrace] + rest);
  }

  lemma InlineSpecs(isUnion: bool, body: Text, fields: seq<Field>, d: Text)
    requires BodyReads(body, fields)
    ensures forall rest ::
              ReadSpecs(Braced(isUnion, body, d) + rest) == Got(Specs({}, Inline(isUnion, fields)), d + rest)
  {
    hide ReadFields, ReadSpecs;
    forall rest
      ensures ReadSpecs(Braced(isUnion, body, d) + rest) == Got(Specs({}, Inline(isUnion, fields)), d + rest)
    {
      BracedText(isUnion, body, d, rest);
      BracedSpecs(isUnion, body, d + rest);
      assert ([RBrace] + (d + rest))[1..] == d + rest;
    }
  }

  lemma InlineSays(isUnion: bool, body: Text, fields: seq<Field>, d: Text, dt: Dtor, wide: bool)
    requires Reads(d, dt, wide) && BodyReads(body, fields)
    ensures Says(Braced(isUnion, body, d), dt, Plain({}, Inline(isUnion, fields)), wide)
  {
    hide ReadSpecs, Reads, Says, BodyReads;
    InlineSpecs(isUnion, body, fields, d);
    SpecsSay(Braced(isUnion, body, d), Specs({}, Inline(isUnion, fields)), d, dt, wide);
  }

  /** A type behind pointers only is written in front: what comes after the name comes last. */
  lemma {:induction false} PointersAppend(c: Base, id: nat, y: Text, x: Text)
    requires Ranked(c) && PointersOnly(c, id) && Printable(c, id)
    ensures DeclText(c, id, y + x) == Printed(DeclText(c, id, y).text + x)
    decreases Height(c, id)
  {
    if 0 < id < |c.g| {
      match c.g[id]
      case Ptr(to) =>
        assert [Star] + (y + x) == ([Star] + y) + x;
        PointersAppend(c, to, [Star] + y, x);
      case Qualified(_, _) =>
        var end := ChainEnd(c, id);
        var w := QualText(WrittenQuals(c, id));
        PointersChain(c, id);
        ChainPrintable(c, id);
        if c.g[end].Ptr? {
          assert Follows(c, end, c.g[end].to);
          assert [Star] + w + (y + x) == ([Star] + w + y) + x;
          PointersAppend(c, c.g[end].to, [Star] + w + y, x);
        } else {
          PointersAppend(c, end, y, x);
          assert w + (DeclText(c, end, y).text + x) == (w + DeclText(c, end, y).text) + x;
        }
      case Tag(_, to) => PointersAppend(c, to, y, x);
      case Typedef(alias, to) =>
        if alias == "" {
          PointersAppend(c, to, y, x);
        }
      case _ =>
    }
  }

  lemma PointersChain(c: Base, id: nat)
    requires Ranked(c)
    ensures PointersOnly(c, ChainEnd(c, id)) == PointersOnly(c, id)
    decreases Height(c, id)
  {
    if 0 < id < |c.g| && c.g[id].Qualified? {
      PointersChain(c, c.g[id].to);
    }
  }

  /** What is said of a declarator and the type it is applied to can be said of its inner one. */
  lemma SaysInside(text: Text, dt: Dtor, t: CType, inner: Dtor, outer: CType, wide: bool)
    requires Says(text, dt, t, wide) && Apply(dt, t) == Apply(inner, outer) && NameIn(dt) == NameIn(inner)
    ensures Says(text, inner, outer, wide)
  {
    hide ReadDeclared, Jam;
  }

  lemma SaysNarrow(text: Text, dt: Dtor, t: CType, wide: bool)
    requires Says(text, dt, t, wide)
    ensures Says(text, dt, t, false)
  {
    hide ReadDeclared, Jam;
    assert forall rest | Stops(rest, false) :: Stops(rest, true);
  }

  /** The text of a readable type reads as what is heard of it. */
  lemma {:induction false} TypeSays(c: Base, id: nat, d: Text, dt: Dtor, wide: bool)
    requires Ranked(c) && Readable(c, id) && Printable(c, id) && Reads(d, dt, wide)
    ensures Says(DeclText(c, id, d).text, dt, Heard(c, id), wide || !PointersOnly(c, id))
    decreases Height(c, id), 1, 0
  {
    hide Says, Reads, CTypeOf;
    if id == 0 {
      LeafSays(VoidWord, d, dt, wide);
      return;
    }
    match c.g[id]
    case Ptr(to) => 
      PointerSays(c, to, {}, d, dt, wide);
      assert [Star] + QualText({}) + d == [Star] + d;
    case Array(elem, _, n) =>
      ArrayReads(d, dt, wide, n);
      TypeSays(c, elem, Group(d) + [LBrk, Number(n), RBrk], Indexed(dt, n), true);
      SaysInside(DeclText(c, id, d).text, Indexed(dt, n), Heard(c, elem), dt, Heard(c, id), true);
    case Qualified(_, _) => QualifiedTypeSays(c, id, d, dt, wide);
    case Tag(_, to) => TypeSays(c, to, d, dt, wide);
    case Proto(_, _) => FunctionSays(c, id, d, dt, wide);
    case Typedef(alias, to) =>
      if alias == "" {
        TypeSays(c, to, d, dt, wide);
      } else {
        SpecifierSays(c, id, d, dt, wide);
      }
    case Scalar(_, _) => SpecifierSays(c, id, d, dt, wide);
    case Record(_, _, _) => SpecifierSays(c, id, d, dt, wide);
    case Fwd(_, _) => SpecifierSays(c, id, d, dt, wide);
    case Enum(_, _, _, _, _) => SpecifierSays(c, id, d, dt, wide);
    case _ =>
  }

  lemma {:induction false} PointerSays(c: Base, to: nat, q: Quals, d: Text, dt: Dtor, wide: bool)
    requires Ranked(c) && Readable(c, to) && Printable(c, to) && Reads(d, dt, wide)
    ensures Says(DeclText(c, to, [Star] + QualText(q) + d).text, dt, Pointer(q, Heard(c, to)),
                 wide || !PointersOnly(c, to))
    decreases Height(c, to), 2, 0
  {
    hide Says, Reads, CTypeOf;
    var text := DeclText(c, to, [Star] + QualText(q) + d).text;
    PointerReads(q, d, dt, wide);
    TypeSays(c, to, [Star] + QualText(q) + d, Deref(q, dt), wide);
    SaysInside(text, Deref(q, dt), Heard(c, to), dt, Pointer(q, Heard(c, to)), wide || !PointersOnly(c, to));
  }

  /** Types that are specifiers by themselves. */
  lemma {:induction false} SpecifierSays(c: Base, id: nat, d: Text, dt: Dtor, wide: bool)
    requires Ranked(c) && Readable(c, id) && Printable(c, id) && Reads(d, dt, wide) && 0 < id < |c.g|
    requires c.g[id].Scalar? || c.g[id].Record? || c.g[id].Fwd? || c.g[id].Enum? || NamedTypedef(c.g[id])
    ensures Says(DeclText(c, id, d).text, dt, Heard(c, id), wide || !PointersOnly(c, id))
    decreases Height(c, id), 0, 1
  {
    hide Says, Reads, Braced;
    match c.g[id]
    case Scalar(_, spelling) => LeafSays(BaseWord(spelling), d, dt, wide);
    case Typedef(_, _) => LeafSays(AliasWord(id), d, dt, wide);
    case Record(isUnion, tag, _) =>
      if tag != "" {
        LeafSays(TagWord(isUnion, id), d, dt, wide);
      } else {
        AnonymousSays(c, id, d, dt, wide);
      }
    case Fwd(isUnion, _) => LeafSays(TagWord(isUnion, id), d, dt, wide);
    case Enum(is64, tag, _, _, _) =>
      if tag != "" {
        LeafSays(EnumWord(id), d, dt, wide);
      } else {
        LeafSays(BaseWord(if is64 then "unsigned long long" else "int"), d, dt, wide);
      }
  }

  lemma {:induction false} AnonymousSays(c: Base, id: nat, d: Text, dt: Dtor, wide: bool)
    requires Ranked(c) && Readable(c, id) && Printable(c, id) && Reads(d, dt, wide) && 0 < id < |c.g|
    requires c.g[id].Record? && c.g[id].tag == ""
    ensures Says(DeclText(c, id, d).text, dt, Heard(c, id), wide || !PointersOnly(c, id))
    decreases Height(c, id), 0, 0
  {
    hide Says, Reads, Braced, BodyReads;
    assert forall m | m in Body(c, id) :: Follows(c, id, m.ty);
    FieldsSay(c, Body(c, id));
    InlineSays(c.g[id].isUnion, FieldsText(c, Body(c, id)).text, HeardFields(c, Body(c, id)), d, dt, wide);
  }

  lemma {:induction false} QualifiedTypeSays(c: Base, id: nat, d: Text, dt: Dtor, wide: bool)
    requires Ranked(c) && Readable(c, id) && Printable(c, id) && Reads(d, dt, wide)
    requires 0 < id < |c.g| && c.g[id].Qualified?
    ensures Says(DeclText(c, id, d).text, dt, Heard(c, id), wide || !PointersOnly(c, id))
    decreases Height(c, id), 0, 0
  {
    hide Says, Reads, CTypeOf;
    PointersChain(c, id);
    ChainReadable(c, id);
    ChainPrintable(c, id);
    var end := ChainEnd(c, id);
    var w := WrittenQuals(c, id);
    if c.g[end].Ptr? {
      assert Follows(c, end, c.g[end].to);
      PointerSays(c, c.g[end].to, w, d, dt, wide);
    } else {
      TypeSays(c, end, d, dt, wide);
      QualifiedSays(w, DeclText(c, end, d).text, dt, Heard(c, end), wide || !PointersOnly(c, end));
    }
  }

  /** A result of pointers is written out whole before the function's own declarator. */
  lemma ResultText(c: Base, id: nat, d: Text)
    requires Ranked(c) && Printable(c, id) && 0 < id < |c.g| && c.g[id].Proto? && PointersOnly(c, c.g[id].ret)
    ensures AllPrintable(c, ParamTypes(c.g[id].params))
    ensures DeclText(c, id, d) == DeclText(c, c.g[id].ret, WithParams(d, ListText(c, c.g[id].params)))
  {
    hide WithParams, PointersOnly;
    PrintableList(c, id);
    var after := WithParams(d, ListText(c, c.g[id].params));
    PointersAppend(c, c.g[id].ret, [], after);
    assert [] + after == after;
  }

  lemma PrintableList(c: Base, id: nat)
    requires Ranked(c) && Printable(c, id) && 0 < id < |c.g| && c.g[id].Proto?
    ensures Printable(c, c.g[id].ret) && AllPrintable(c, ParamTypes(c.g[id].params))
    ensures forall p | p in c.g[id].params :: Height(c, p.ty) < Height(c, id)
    ensures Top(c, ParamTypes(c.g[id].params)) < Height(c, id)
  {
    assert forall p | p in c.g[id].params :: Follows(c, id, p.ty);
  }

  lemma ReadableFunction(c: Base, id: nat)
    requires Ranked(c) && Readable(c, id) && 0 < id < |c.g| && c.g[id].Proto?
    ensures PointersOnly(c, c.g[id].ret) && Readable(c, c.g[id].ret) && AllReadable(c, ParamTypes(c.g[id].params))
    ensures Heard(c, id) == Function(Heard(c, c.g[id].ret), HeardList(c, c.g[id].params)) && !PointersOnly(c, id)
  {
  }

  lemma {:induction false} FunctionSays(c: Base, id: nat, d: Text, dt: Dtor, wide: bool)
    requires Ranked(c) && Readable(c, id) && Printable(c, id) && Reads(d, dt, wide)
    requires 0 < id < |c.g| && c.g[id].Proto?
    ensures Says(DeclText(c, id, d).text, dt, Heard(c, id), wide || !PointersOnly(c, id))
    decreases Height(c, id), 0, 1
  {
    var ret, params := c.g[id].ret, c.g[id].params;
    hide Says, Reads, ParamsRead, WithParams, Heard, HeardList, DeclText, ListText, Readable, AllReadable, PointersOnly;
    hide Printable, AllPrintable, Top, Ranked;
    ReadableFunction(c, id);
    PrintableList(c, id);
    ResultText(c, id, d);
    ListSays(c, params);
    CallReads(d, dt, wide, ListText(c, params), HeardList(c, params));
    ResultSays(c, id, d, dt, ListText(c, params), HeardList(c, params));
  }

  lemma {:induction false} ResultSays(c: Base, id: nat, d: Text, dt: Dtor, list: Text, ps: seq<CParam>)
    requires Ranked(c) && Printable(c, id) && 0 < id < |c.g| && c.g[id].Proto?
    requires var ret := c.g[id].ret;
             && Readable(c, ret) && Printable(c, ret) && Reads(WithParams(d, list), Called(dt, ps), true)
             && DeclText(c, id, d) == DeclText(c, ret, WithParams(d, list))
             && Heard(c, id) == Function(Heard(c, ret), ps)
    ensures Says(DeclText(c, id, d).text, dt, Heard(c, id), true)
    decreases Height(c, id), 0, 0
  {
    var ret := c.g[id].ret;
    hide Says, Reads, WithParams, Heard, DeclText, Readable, Printable;
    assert Follows(c, id, ret);
    TypeSays(c, ret, WithParams(d, list), Called(dt, ps), true);
    SaysInside(DeclText(c, id, d).text, Called(dt, ps), Heard(c, ret), dt, Heard(c, id), true);
  }

  lemma {:induction false} FieldsSay(c: Base, members: seq<Member>)
    requires Ranked(c) && AllReadable(c, MemberTypes(members)) && AllPrintable(c, MemberTypes(members))
    ensures BodyReads(FieldsText(c, members).text, HeardFields(c, members))
    decreases Top(c, MemberTypes(members)), 5, |members|
  {
    forall rest
      ensures ReadFields(FieldsText(c, members).text + ([RBrace] + rest)) ==
                Got(HeardFields(c, members), [RBrace] + rest)
    {
      BodySays(c, members, [RBrace] + rest);
    }
  }

  /** The text of a body of readable members reads as what is heard of them. */
  lemma {:induction false} BodySays(c: Base, members: seq<Member>, close: Text)
    requires Ranked(c) && AllReadable(c, MemberTypes(members)) && AllPrintable(c, MemberTypes(members))
    requires close != [] && close[0] == RBrace
    ensures ReadFields(FieldsText(c, members).text + close) == Got(HeardFields(c, members), close)
    decreases Top(c, MemberTypes(members)), 4, |members|
  {
    hide Heard, DeclText, ReadDeclared, Readable, Printable, AllReadable, AllPrintable, NameText, Top, EndField;
    if members == [] {
      assert FieldsText(c, members).text + close == close;
    } else {
      var m := members[0];
      MemberTop(c, members);
      AllReadableNext(c, MemberTypes(members));
      AllPrintableNext(c, MemberTypes(members));
      var later := FieldsText(c, members[1..]).text;
      BodySays(c, members[1..], close);
      FieldSays(c, m, later + close);
      Assoc(FieldText(c, m), later, close);
    }
  }

  ghost function FieldText(c: Base, m: Member): Text
    requires Ranked(c) && Printable(c, m.ty)
  {
    EndField(DeclText(c, m.ty, NameText(m.name)).text, m.bits)
  }

  lemma {:induction false} FieldSays(c: Base, m: Member, rest: Text)
    requires Ranked(c) && Readable(c, m.ty) && Printable(c, m.ty)
    ensures ReadFields(FieldText(c, m) + rest) ==
            (var more := ReadFields(rest);
             if more.Fail? then Fail else Got([Field(m.name, Heard(c, m.ty), m.bits)] + more.value, more.rest))
    decreases Height(c, m.ty), 3, 0
  {
    hide ReadDeclared, ReadFields, Heard, DeclText;
    var text := DeclText(c, m.ty, NameText(m.name)).text;
    DeclarationHeard(c, m.ty, m.name, FieldEnd(m.bits) + rest);
    FieldReads(text, m.bits, rest);
  }

  /** A whole declaration of a readable type reads as what is heard of it. */
  lemma {:induction false} DeclarationHeard(c: Base, id: nat, name: string, rest: Text)
    requires Ranked(c) && Readable(c, id) && Printable(c, id) && Stops(rest, false)
    ensures var text := DeclText(c, id, NameText(name)).text;
            text != [] && Opens(text[0]) &&
            var r := ReadDeclared(text + rest);
            r.Got? && r.rest == rest && NameIn(r.value.dtor) == name && TypeIn(r.value) == Heard(c, id)
    decreases Height(c, id), 2, 0
  {
    hide ReadDeclared, Reads, Jam;
    NameReads(name);
    TypeSays(c, id, NameText(name), Named(name), false);
    SaysNarrow(DeclText(c, id, NameText(name)).text, Named(name), Heard(c, id), !PointersOnly(c, id));
  }

  function FieldEnd(bits: nat): Text {
    if bits != 0 then [Colon, Number(bits), Semi] else [Semi]
  }

  /** The reader's step, once the declaration of a field is read. */
  lemma FieldReads(text: Text, bits: nat, rest: Text)
    requires text != [] && text[0] != RBrace
    requires var d := ReadDeclared(text + (FieldEnd(bits) + rest)); d.Got? && d.rest == FieldEnd(bits) + rest
    ensures var d := ReadDeclared(text + (FieldEnd(bits) + rest)).value;
            ReadFields(EndField(text, bits) + rest) ==
            match ReadFields(rest)
            case Fail => Fail
            case Got(more, after) => Got([Field(NameIn(d.dtor), TypeIn(d), bits)] + more, after)
  {
    hide ReadDeclared;
    var end := FieldEnd(bits);
    var tail := end + rest;
    Assoc(text, end, rest);
    assert (text + tail)[0] == text[0];
    if bits != 0 {
      assert tail[2..][1..] == rest;
    } else {
      assert tail[1..] == rest;
    }
  }

  /** The words between a function's parentheses. */
  ghost function ListText(c: Base, params: seq<Param>): Text
    requires Ranked(c) && AllPrintable(c, ParamTypes(params))
  {
    if params == [] then [VoidWord] else ParamsText(c, params, 0).text
  }

  /** The words of one parameter, without the comma before it. */
  ghost function FirstText(c: Base, p: Param, position: nat): Text
    requires Ranked(c) && Printable(c, p.ty)
  {
    if p.ty == 0 then [VoidWord] else DeclText(c, p.ty, [Ident(ParamName(p.name, position))]).text
  }

  /** The words of a non-empty list of parameters, without the comma that continues a longer one. */
  ghost function SomeText(c: Base, params: seq<Param>, from: nat): Text
    requires Ranked(c) && params != [] && AllPrintable(c, ParamTypes(params))
  {
    var text := ParamsText(c, params, from).text;
    if from > 0 then text[1..] else text
  }

  /** A list is its first parameter, and then nothing or a comma and the rest. */
  lemma SomeTextNext(c: Base, params: seq<Param>, from: nat, close: Text)
    requires Ranked(c) && params != [] && AllPrintable(c, ParamTypes(params))
    ensures Printable(c, params[0].ty) && AllPrintable(c, ParamTypes(params[1..]))
    ensures SomeText(c, params, from) + close == FirstText(c, params[0], from) + Later(c, params[1..], from + 1, close)
  {
    hide DeclText, ParamName, Printable, Top;
    ParamTop(c, params);
    AllPrintableNext(c, ParamTypes(params));
    var first, later := FirstText(c, params[0], from), ParamsText(c, params[1..], from + 1).text;
    assert SomeText(c, params, from) == first + later;
    Assoc(first, later, close);
    LaterText(c, params[1..], from + 1, close);
  }

  /** What follows a parameter. */
  ghost function Later(c: Base, params: seq<Param>, from: nat, close: Text): Text
    requires Ranked(c) && AllPrintable(c, ParamTypes(params))
  {
    if params == [] then close else [Comma] + (SomeText(c, params, from) + close)
  }

  lemma LaterText(c: Base, params: seq<Param>, from: nat, close: Text)
    requires Ranked(c) && AllPrintable(c, ParamTypes(params)) && from > 0
    ensures ParamsText(c, params, from).text + close == Later(c, params, from, close)
  {
    hide DeclText, ParamName, Printable;
    if params != [] {
      var text := ParamsText(c, params, from).text;
      assert text == [Comma] + text[1..];
      Assoc([Comma], text[1..], close);
    } else {
      assert [] + close == close;
    }
  }

  /** One readable parameter. */
  lemma {:induction false} ParamSays(c: Base, p: Param, position: nat, after: Text)
    requires Ranked(c) && Readable(c, p.ty) && Printable(c, p.ty) && after != [] && after[0] in {Comma, RPar}
    ensures FirstText(c, p, position) != [] && Opens(FirstText(c, p, position)[0])
    ensures var r := ReadDeclared(FirstText(c, p, position) + after);
            r.Got? && r.rest == after && CParam(NameIn(r.value.dtor), TypeIn(r.value)) == HeardParam(c, p, position)
    ensures ReadParams(FirstText(c, p, position) + after) ==
            if p.ty == 0 && after[0] == RPar then Got([], after) else ReadParamList(FirstText(c, p, position) + after)
    decreases Height(c, p.ty), 3, 0
  {
    var ts := FirstText(c, p, position) + after;
    if p.ty == 0 {
      VoidAlone(ts);
      assert ts[1..] == after;
    } else {
      DeclarationHeard(c, p.ty, ParamName(p.name, position), after);
      if |ts| > 1 && ts[0] == VoidWord && ts[1] == RPar {
        VoidAlone(ts);
      }
    }
  }

  /** `void` read as a declaration has no name. */
  lemma VoidAlone(ts: Text)
    requires |ts| > 1 && ts[0] == VoidWord && ts[1] in {RPar, Comma}
    ensures var r := ReadDeclared(ts);
            r.Got? && r.rest == ts[1..] && NameIn(r.value.dtor) == "" && TypeIn(r.value) == NO_TYPE
  {
    assert ReadQuals(ts) == Got({}, ts);
    NoDeclarator(ts[1..]);
    hide ReadDtor, ReadFields;
  }

  lemma NoDeclarator(after: Text)
    requires after != [] && after[0] in {RPar, Comma}
    ensures ReadDtor(after) == Got(Named(""), after)
  {
    hide ReadParams, ReadQuals;
    assert ReadSuffixes(Named(""), after) == Got(Named(""), after);
    assert ReadDirect(after) == Got(Named(""), after);
  }

  /** The reader's step in a list of parameters. */
  lemma ListStep(ts: Text)
    ensures ReadParamList(ts) ==
            match ReadDeclared(ts)
            case Fail => Fail
            case Got(d, after) =>
              if !Next(after, Comma) then Got([CParam(NameIn(d.dtor), TypeIn(d))], after)
              else
                match ReadParamList(after[1..])
                case Fail => Fail
                case Got(more, rest) => Got([CParam(NameIn(d.dtor), TypeIn(d))] + more, rest)
  {
    hide ReadDeclared;
  }

  /** A list of readable parameters reads as what is heard of them; only a nameless `void` can be a
      whole list that means none. */
  lemma {:induction false} ParamsSay(c: Base, params: seq<Param>, from: nat, rest: Text)
    requires Ranked(c) && params != [] && AllReadable(c, ParamTypes(params)) && AllPrintable(c, ParamTypes(params))
    ensures SomeText(c, params, from) != [] && Opens(SomeText(c, params, from)[0])
    ensures var ts := SomeText(c, params, from) + ([RPar] + rest);
            && ReadParamList(ts) == Got(HeardParams(c, params, from), [RPar] + rest)
            && ReadParams(ts) ==
               if |params| == 1 && params[0].ty == 0 then Got([], [RPar] + rest) else ReadParamList(ts)
    decreases Top(c, ParamTypes(params)), 4, |params|
  {
    hide ReadDeclared, ReadParams, Heard, HeardParam, Readable, Printable, AllReadable, AllPrintable, Top, SomeText;
    hide FirstText;
    hide ReadParamList;
    ParamTop(c, params);
    AllReadableNext(c, ParamTypes(params));
    AllPrintableNext(c, ParamTypes(params));
    var close := [RPar] + rest;
    var later := Later(c, params[1..], from + 1, close);
    SomeTextNext(c, params, from, close);
    FirstStarts(c, params, from);
    ParamSays(c, params[0], from, later);
    ListStep(FirstText(c, params[0], from) + later);
    if params[1..] == [] {
      assert [HeardParam(c, params[0], from)] + [] == [HeardParam(c, params[0], from)];
    } else {
      ParamsSay(c, params[1..], from + 1, rest);
      assert later[1..] == SomeText(c, params[1..], from + 1) + close;
    }
  }

  lemma FirstStarts(c: Base, params: seq<Param>, from: nat)
    requires Ranked(c) && params != [] && AllPrintable(c, ParamTypes(params)) && Printable(c, params[0].ty)
    ensures FirstText(c, params[0], from) <= SomeText(c, params, from)
  {
    SomeTextNext(c, params, from, []);
    hide SomeText, FirstText, Printable;
    var first := FirstText(c, params[0], from);
    assert SomeText(c, params, from) + [] == SomeText(c, params, from);
  }

  lemma EmptyList()
    ensures ParamsRead([VoidWord], [])
  {
    forall rest
      ensures ReadParams([VoidWord] + ([RPar] + rest)) == Got([], [RPar] + rest)
    {
      assert ([VoidWord] + ([RPar] + rest))[1..] == [RPar] + rest;
    }
  }

  lemma {:induction false} ListSays(c: Base, params: seq<Param>)
    requires Ranked(c) && AllReadable(c, ParamTypes(params)) && AllPrintable(c, ParamTypes(params))
    ensures ParamsRead(ListText(c, params), HeardList(c, params))
    decreases Top(c, ParamTypes(params)), 5, |params|
  {
    if params == [] {
      EmptyList();
    } else {
      hide Heard, HeardParam, Readable, Printable, AllReadable, AllPrintable, Top, ReadParamList, ReadParams;
      assert SomeText(c, params, 0) == ListText(c, params);
      forall rest
        ensures ReadParams(ListText(c, params) + ([RPar] + rest)) == Got(HeardList(c, params), [RPar] + rest)
      {
        ParamsSay(c, params, 0, rest);
      }
      ParamsSay(c, params, 0, []);
    }
  }
}
