/** What the reader makes of a type's declarator, and when that is the type. */
module RoundTrip {
  import opened Btf
  import opened CSyntax
  import opened Meaning
  import opened Declarators
  import opened Walk

  /** Whether a type is its specifiers behind pointers only. */
  ghost predicate PointersOnly(c: Base, id: nat)
    requires Ranked(c)
    decreases Height(c, id)
  {
    0 < id < |c.g| ==>
      match c.g[id]
      case Ptr(to) => PointersOnly(c, to)
      case Qualified(_, to) => PointersOnly(c, to)
      case Tag(_, to) => PointersOnly(c, to)
      case Typedef(alias, to) => alias == "" ==> PointersOnly(c, to)
      case Array(_, _, _) => false
      case Proto(_, _) => false
      case _ => true
  }

  /** Whether a type is its specifiers in arrays only. */
  ghost predicate ArraysOnly(c: Base, id: nat)
    requires Ranked(c)
    decreases Height(c, id)
  {
    0 < id < |c.g| ==>
      match c.g[id]
      case Array(elem, _, _) => ArraysOnly(c, elem)
      case Qualified(_, to) => ArraysOnly(c, to)
      case Tag(_, to) => ArraysOnly(c, to)
      case Typedef(alias, to) => alias == "" ==> ArraysOnly(c, to)
      case Ptr(_) => false
      case Proto(_, _) => false
      case _ => true
  }

  /** The qualifiers at the bottom of a type's arrays. */
  function BottomQuals(t: CType): Quals {
    match t
    case Plain(quals, _) => quals
    case Pointer(quals, _) => quals
    case ArrayOf(elem, _) => BottomQuals(elem)
    case Function(_, _) => {Const, Volatile, Restrict}
  }

  /** The qualifiers of a type's specifiers. */
  function InnerQuals(t: CType): Quals {
    match t
    case Plain(quals, _) => quals
    case Pointer(_, to) => InnerQuals(to)
    case ArrayOf(elem, _) => InnerQuals(elem)
    case Function(ret, _) => InnerQuals(ret)
  }

  /** Qualifiers in front of a declaration are the specifiers'. */
  function AddInner(w: Quals, t: CType): CType {
    match t
    case Plain(quals, spec) => Plain(w + quals, spec)
    case Pointer(quals, to) => Pointer(quals, AddInner(w, to))
    case ArrayOf(elem, n) => ArrayOf(AddInner(w, elem), n)
    case Function(ret, params) => Function(AddInner(w, ret), params)
  }

  /** Qualifiers not on a pointer are written before the specifier. They then mean what they
      should if only arrays come in between, if none are left to write, or if the type they stand
      on and the specifier have them already. */
  ghost predicate QualsLand(c: Base, id: nat)
    requires Ranked(c)
  {
    var end := ChainEnd(c, id);
    var written := WrittenQuals(c, id);
    0 < end < |c.g| ==>
      || c.g[end].Ptr?
      || written == {}
      || ArraysOnly(c, end)
      || (ChainQuals(c, id) <= BottomQuals(CTypeOf(c, end)) && written <= InnerQuals(CTypeOf(c, end)))
  }

  /** The types the printer can write: a function's result is written out whole before the
      function's own declarator, so it must be a specifier behind pointers; a parameter of type
      void is written without its name. */
  ghost predicate Writable(c: Base, id: nat)
    requires Ranked(c)
    decreases Height(c, id)
  {
    0 < id < |c.g| ==>
      match c.g[id]
      case Ptr(to) => Writable(c, to)
      case Array(elem, _, _) => Writable(c, elem)
      case Qualified(_, to) => QualsLand(c, id) && Writable(c, ChainEnd(c, id))
      case Tag(_, to) => Writable(c, to)
      case Typedef(alias, to) => alias == "" ==> Writable(c, to)
      case Record(_, tag, _) =>
        tag == "" ==>
          assert forall m | m in Body(c, id) :: Follows(c, id, m.ty);
          forall i | 0 <= i < |Body(c, id)| :: Writable(c, Body(c, id)[i].ty)
      case Proto(ret, params) =>
        assert forall p | p in params :: Follows(c, id, p.ty);
        && PointersOnly(c, ret) && Writable(c, ret)
        && forall i | 0 <= i < |params| :: params[i].ty != 0 && Writable(c, params[i].ty)
      case _ => true
  }

  /** The types whose text the reader gets through: the result of every function in them is a
      specifier behind pointers. */
  ghost predicate Readable(c: Base, id: nat)
    requires Ranked(c)
    decreases Height(c, id)
  {
    0 < id < |c.g| ==>
      match c.g[id]
      case Ptr(to) => Readable(c, to)
      case Array(elem, _, _) => Readable(c, elem)
      case Qualified(_, to) => Readable(c, to)
      case Tag(_, to) => Readable(c, to)
      case Typedef(alias, to) => alias == "" ==> Readable(c, to)
      case Record(_, tag, _) =>
        tag == "" ==>
          assert forall m | m in Body(c, id) :: Follows(c, id, m.ty);
          forall i | 0 <= i < |Body(c, id)| :: Readable(c, Body(c, id)[i].ty)
      case Proto(ret, params) =>
        assert forall p | p in params :: Follows(c, id, p.ty);
        && PointersOnly(c, ret) && Readable(c, ret)
        && forall i | 0 <= i < |params| :: Readable(c, params[i].ty)
      case _ => true
  }

  lemma ChainReadable(c: Base, id: nat)
    requires Ranked(c)
    ensures Readable(c, ChainEnd(c, id)) == Readable(c, id)
    decreases Height(c, id)
  {
    if 0 < id < |c.g| && c.g[id].Qualified? {
      ChainReadable(c, c.g[id].to);
    }
  }

  ghost predicate AllReadable(c: Base, ids: seq<nat>)
    requires Ranked(c)
  {
    forall i | 0 <= i < |ids| :: Readable(c, ids[i])
  }

  lemma AllReadableNext(c: Base, ids: seq<nat>)
    requires Ranked(c) && ids != []
    ensures AllReadable(c, ids) <==> Readable(c, ids[0]) && AllReadable(c, ids[1..])
  {
    hide Readable;
    if Readable(c, ids[0]) && AllReadable(c, ids[1..]) {
      assert forall i | 0 < i < |ids| :: ids[i] == ids[1..][i - 1];
    }
  }

  ghost predicate AllWritable(c: Base, ids: seq<nat>)
    requires Ranked(c)
  {
    forall i | 0 <= i < |ids| :: Writable(c, ids[i])
  }

  lemma AllWritableNext(c: Base, ids: seq<nat>)
    requires Ranked(c) && ids != []
    ensures AllWritable(c, ids) <==> Writable(c, ids[0]) && AllWritable(c, ids[1..])
  {
    hide Writable;
    if Writable(c, ids[0]) && AllWritable(c, ids[1..]) {
      assert forall i | 0 < i < |ids| :: ids[i] == ids[1..][i - 1];
    }
  }

  /** The type the reader gets: qualifiers that are not on a pointer go to the specifiers, parameters
      of type void have no name. */
  ghost function Heard(c: Base, id: nat): CType
    requires Ranked(c)
    decreases Height(c, id), 1, 0
  {
    if id == 0 || id >= |c.g| then NO_TYPE
    else
      match c.g[id]
      case Ptr(to) => Pointer({}, Heard(c, to))
      case Array(elem, _, n) => ArrayOf(Heard(c, elem), n)
      case Record(isUnion, tag, _) =>
        if tag != "" then CTypeOf(c, id)
        else
          assert forall m | m in Body(c, id) :: Follows(c, id, m.ty);
          Plain({}, Inline(isUnion, HeardFields(c, Body(c, id))))
      case Typedef(alias, to) => if alias != "" then CTypeOf(c, id) else Heard(c, to)
      case Qualified(_, _) =>
        var end := ChainEnd(c, id);
        if end < |c.g| && c.g[end].Ptr? then
          assert Follows(c, end, c.g[end].to);
          Pointer(WrittenQuals(c, id), Heard(c, c.g[end].to))
        else AddInner(WrittenQuals(c, id), Heard(c, end))
      case Tag(_, to) => Heard(c, to)
      case Proto(ret, params) =>
        assert forall p | p in params :: Follows(c, id, p.ty);
        Function(Heard(c, ret), HeardList(c, params))
      case _ => CTypeOf(c, id)
  }

  ghost function HeardFields(c: Base, members: seq<Member>): (fields: seq<Field>)
    requires Ranked(c)
    ensures |fields| == |members|
    decreases Top(c, MemberTypes(members)), 2, |members|
  {
    if members == [] then []
    else
      MemberTop(c, members);
      [Field(members[0].name, Heard(c, members[0].ty), members[0].bits)] + HeardFields(c, members[1..])
  }

  /** What one parameter is read as. */
  ghost function HeardParam(c: Base, p: Param, position: nat): CParam
    requires Ranked(c)
    decreases Height(c, p.ty), 1, 1
  {
    if p.ty == 0 then CParam("", NO_TYPE) else CParam(ParamName(p.name, position), Heard(c, p.ty))
  }

  ghost function HeardParams(c: Base, params: seq<Param>, from: nat): (ps: seq<CParam>)
    requires Ranked(c)
    ensures |ps| == |params|
    decreases Top(c, ParamTypes(params)), 2, |params|
  {
    if params == [] then []
    else
      ParamTop(c, params);
      [HeardParam(c, params[0], from)] + HeardParams(c, params[1..], from + 1)
  }

  /** What a printed parameter list reads as: one parameter of type void is none. */
  ghost function HeardList(c: Base, params: seq<Param>): seq<CParam>
    requires Ranked(c)
    decreases Top(c, ParamTypes(params)), 3
  {
    if |params| == 1 && params[0].ty == 0 then [] else HeardParams(c, params, 0)
  }

  lemma EveryQual(quals: Quals)
    ensures quals <= {Const, Volatile, Restrict}
  {
    forall q | q in quals
      ensures q in {Const, Volatile, Restrict}
    {
      match q case Const => case Volatile => case Restrict =>
    }
  }

  lemma QualifyTwice(a: Quals, b: Quals, t: CType)
    ensures Qualify(a, Qualify(b, t)) == Qualify(a + b, t)
    ensures a <= BottomQuals(t) + b ==> Qualify(a + b, t) == Qualify(b, t)
    ensures BottomQuals(t) + a <= BottomQuals(Qualify(a, t))
  {
    match t
    case Plain(quals, _) => assert quals + b + a == quals + (a + b);
    case Pointer(quals, _) => assert quals + b + a == quals + (a + b);
    case ArrayOf(elem, _) => QualifyTwice(a, b, elem);
    case Function(_, _) => EveryQual(BottomQuals(t) + a);
  }

  lemma QualifyNone(t: CType)
    ensures Qualify({}, t) == t && AddInner({}, t) == t
  {
    match t
    case Plain(quals, _) => assert quals + {} == quals == {} + quals;
    case Pointer(quals, to) => assert quals + {} == quals; QualifyNone(to);
    case ArrayOf(elem, _) => QualifyNone(elem);
    case Function(ret, _) => QualifyNone(ret);
  }

  lemma ChainType(c: Base, id: nat)
    requires Ranked(c) && id != 0
    ensures CTypeOf(c, id) == Qualify(ChainQuals(c, id), CTypeOf(c, ChainEnd(c, id)))
    decreases Height(c, id)
  {
    if id < |c.g| && c.g[id].Qualified? {
      var to := c.g[id].to;
      if to != 0 {
        ChainType(c, to);
      } else {
        QualifyNone(CTypeOf(c, to));
      }
      QualifyTwice({c.g[id].qual}, ChainQuals(c, to), CTypeOf(c, ChainEnd(c, id)));
    } else {
      QualifyNone(CTypeOf(c, id));
    }
  }

  lemma LeadingInChain(c: Base, id: nat, depth: nat)
    requires Ranked(c) && depth <= CHAIN_LIMIT
    ensures LeadingQuals(c.g, id, depth) <= ChainQuals(c, id)
    decreases CHAIN_LIMIT - depth
  {
    if id < |c.g| && c.g[id].Qualified? && depth < CHAIN_LIMIT {
      LeadingInChain(c, c.g[id].to, depth + 1);
    }
  }

  /** The qualifiers left unwritten are those the elements have anyway. */
  lemma UnwrittenAreThere(c: Base, id: nat)
    requires Ranked(c) && id != 0
    ensures ChainQuals(c, id) <= BottomQuals(CTypeOf(c, ChainEnd(c, id))) + WrittenQuals(c, id)
    ensures WrittenQuals(c, id) <= ChainQuals(c, id)
  {
    var end := ChainEnd(c, id);
    if 0 < end < |c.g| && c.g[end].Array? {
      var elem := c.g[end].elem;
      LeadingInChain(c, elem, 0);
      if elem != 0 {
        ChainType(c, elem);
        QualifyTwice(ChainQuals(c, elem), {}, CTypeOf(c, ChainEnd(c, elem)));
      }
    }
  }

  predicate PlainBottom(t: CType) {
    match t
    case Plain(_, _) => true
    case ArrayOf(elem, _) => PlainBottom(elem)
    case _ => false
  }

  lemma QualifyBottom(q: Quals, t: CType)
    ensures PlainBottom(Qualify(q, t)) == PlainBottom(t)
    ensures PlainBottom(t) ==> InnerQuals(Qualify(q, t)) == q + InnerQuals(t) && BottomQuals(t) == InnerQuals(t)
    ensures PlainBottom(t) ==> Qualify(q, t) == AddInner(q, t)
  {
    match t
    case Plain(quals, _) => assert quals + q == q + quals;
    case ArrayOf(elem, _) => QualifyBottom(q, elem);
    case _ =>
  }

  lemma ArraysOnlyType(c: Base, id: nat)
    requires Ranked(c)
    ensures PlainBottom(CTypeOf(c, id)) == ArraysOnly(c, id)
    decreases Height(c, id)
  {
    if 0 < id < |c.g| {
      match c.g[id]
      case Array(elem, _, _) => ArraysOnlyType(c, elem);
      case Qualified(q, to) =>
        QualifyBottom({q}, CTypeOf(c, to));
        ArraysOnlyType(c, to);
      case Tag(_, to) => ArraysOnlyType(c, to);
      case Typedef(alias, to) =>
        if alias == "" {
          ArraysOnlyType(c, to);
        }
      case _ =>
    }
  }

  lemma AddInnerSame(w: Quals, t: CType)
    ensures AddInner(w, t) == t <==> w <= InnerQuals(t)
    ensures InnerQuals(AddInner(w, t)) == w + InnerQuals(t)
  {
  }

  /** Qualifiers put on the specifiers of a type that is not just arrays of them are misplaced,
      unless they were there already in both places. */
  lemma {:induction false} Misplaced(w: Quals, q: Quals, t: CType)
    requires !PlainBottom(t) && AddInner(w, t) == Qualify(q, t)
    ensures q <= BottomQuals(t) && w <= InnerQuals(t)
  {
    match t
    case Pointer(quals, to) => AddInnerSame(w, to);
    case ArrayOf(elem, _) => Misplaced(w, q, elem);
    case Function(ret, _) =>
      AddInnerSame(w, ret);
      EveryQual(q);
  }

  /** Qualifiers added to the specifiers are those of the type if and only if they land. */
  lemma LandsExactly(c: Base, id: nat)
    requires Ranked(c) && 0 < id < |c.g| && c.g[id].Qualified? && 0 < ChainEnd(c, id) < |c.g|
    requires !c.g[ChainEnd(c, id)].Ptr?
    ensures var t := CTypeOf(c, ChainEnd(c, id));
            AddInner(WrittenQuals(c, id), t) == Qualify(ChainQuals(c, id), t) <==> QualsLand(c, id)
  {
    hide CTypeOf, WrittenQuals, ChainQuals, ArraysOnly;
    var end := ChainEnd(c, id);
    var t, w, q := CTypeOf(c, end), WrittenQuals(c, id), ChainQuals(c, id);
    UnwrittenAreThere(c, id);
    ArraysOnlyType(c, end);
    QualifyTwice(q, {}, t);
    QualifyTwice(q, w, t);
    QualifyNone(t);
    AddInnerSame(w, t);
    assert q + {} == q && q + w == q;
    if PlainBottom(t) {
      QualifyBottom(w, t);
    } else if AddInner(w, t) == Qualify(q, t) {
      Misplaced(w, q, t);
    }
  }

  /** The reader hears no qualifier where there is none, except on the specifiers, and there it
      misses none. */
  predicate HeardUnder(h: CType, t: CType) {
    match (h, t)
    case (Plain(a, _), Plain(b, _)) => b <= a
    case (Pointer(a, to), Pointer(b, of)) => a <= b && HeardUnder(to, of)
    case (ArrayOf(elem, _), ArrayOf(of, _)) => HeardUnder(elem, of)
    case (Function(ret, _), Function(of, _)) => HeardUnder(ret, of)
    case _ => false
  }

  /** Where a type is arrays of specifiers, it hears them all right. */
  predicate HeardFlat(h: CType, t: CType) {
    PlainBottom(t) ==> InnerQuals(h) == InnerQuals(t)
  }

  lemma UnderGrows(w: Quals, q: Quals, h: CType, t: CType)
    requires HeardUnder(h, t) && HeardFlat(h, t)
    requires w <= q && q <= BottomQuals(t) + w
    ensures HeardUnder(AddInner(w, h), Qualify(q, t)) && HeardFlat(AddInner(w, h), Qualify(q, t))
  {
    QualifyBottom(q, t);
    AddInnerSame(w, h);
    match t
    case Plain(_, _) =>
    case Pointer(_, to) => UnderMore(w, h.to, to);
    case ArrayOf(elem, _) => UnderGrows(w, q, h.elem, elem);
    case Function(ret, _) => UnderMore(w, h.ret, ret);
  }

  lemma UnderMore(w: Quals, h: CType, t: CType)
    requires HeardUnder(h, t)
    ensures HeardUnder(AddInner(w, h), t)
  {
  }

  /** More qualifiers in front do not make up for what was misplaced. */
  lemma {:induction false} NotMadeUp(w: Quals, h: CType, t: CType)
    requires HeardUnder(h, t) && AddInner(w, h) == t
    ensures h == t
  {
    match t
    case Plain(_, _) =>
    case Pointer(_, to) => NotMadeUp(w, h.to, to);
    case ArrayOf(elem, _) => NotMadeUp(w, h.elem, elem);
    case Function(ret, _) => NotMadeUp(w, h.ret, ret);
  }

  lemma {:induction false} NotMadeUpBy(w: Quals, q: Quals, h: CType, t: CType)
    requires HeardUnder(h, t) && HeardFlat(h, t) && AddInner(w, h) == Qualify(q, t)
    ensures h == t
  {
    match t
    case Plain(_, _) =>
    case Pointer(_, to) => NotMadeUp(w, h.to, to);
    case ArrayOf(elem, _) => NotMadeUpBy(w, q, h.elem, elem);
    case Function(ret, _) => NotMadeUp(w, h.ret, ret);
  }

  lemma {:induction false} TypeUnder(c: Base, id: nat)
    requires Ranked(c)
    ensures HeardUnder(Heard(c, id), CTypeOf(c, id)) && HeardFlat(Heard(c, id), CTypeOf(c, id))
    decreases Height(c, id), 1
  {
    hide HeardFields, FieldsOf, HeardList, ParamsOf, WrittenQuals;
    if 0 < id < |c.g| {
      match c.g[id]
      case Ptr(to) => TypeUnder(c, to);
      case Array(elem, _, _) => TypeUnder(c, elem);
      case Qualified(_, _) => QualifiedUnder(c, id);
      case Tag(_, to) => TypeUnder(c, to);
      case Typedef(alias, to) =>
        if alias == "" {
          TypeUnder(c, to);
        }
      case Proto(ret, _) => TypeUnder(c, ret);
      case _ =>
    }
  }

  lemma {:induction false} QualifiedUnder(c: Base, id: nat)
    requires Ranked(c) && 0 < id < |c.g| && c.g[id].Qualified?
    ensures HeardUnder(Heard(c, id), CTypeOf(c, id)) && HeardFlat(Heard(c, id), CTypeOf(c, id))
    decreases Height(c, id), 0
  {
    var end := ChainEnd(c, id);
    ChainType(c, id);
    UnwrittenAreThere(c, id);
    if end < |c.g| && c.g[end].Ptr? {
      assert Follows(c, end, c.g[end].to);
      TypeUnder(c, c.g[end].to);
    } else {
      TypeUnder(c, end);
      hide CTypeOf, WrittenQuals, ChainQuals, HeardUnder, HeardFlat, Qualify, AddInner;
      UnderGrows(WrittenQuals(c, id), ChainQuals(c, id), Heard(c, end), CTypeOf(c, end));
    }
  }

  /** The reader hears the type that is meant if and only if it can be written. */
  lemma {:induction false} HeardIsMeant(c: Base, id: nat)
    requires Ranked(c) && Readable(c, id)
    ensures Heard(c, id) == CTypeOf(c, id) <==> Writable(c, id)
    decreases Height(c, id), 1, 0
  {
    hide QualsLand, HeardFields, FieldsOf, HeardList, ParamsOf, WrittenQuals, PointersOnly;
    if 0 < id < |c.g| {
      match c.g[id]
      case Ptr(to) => HeardIsMeant(c, to);
      case Array(elem, _, _) => HeardIsMeant(c, elem);
      case Qualified(_, _) => QualifiedIsMeant(c, id);
      case Tag(_, to) => HeardIsMeant(c, to);
      case Typedef(alias, to) =>
        if alias == "" {
          HeardIsMeant(c, to);
        }
      case Record(_, tag, _) =>
        if tag == "" {
          AnonymousIsMeant(c, id);
        }
      case Proto(_, _) => FunctionIsMeant(c, id);
      case _ =>
    }
  }

  lemma {:induction false} AnonymousIsMeant(c: Base, id: nat)
    requires Ranked(c) && Readable(c, id) && 0 < id < |c.g| && c.g[id].Record? && c.g[id].tag == ""
    ensures Heard(c, id) == CTypeOf(c, id) <==> Writable(c, id)
    decreases Height(c, id), 0, 0
  {
    hide HeardFields, FieldsOf;
    assert forall m | m in Body(c, id) :: Follows(c, id, m.ty);
    FieldsAreMeant(c, Body(c, id));
  }

  lemma {:induction false} FunctionIsMeant(c: Base, id: nat)
    requires Ranked(c) && Readable(c, id) && 0 < id < |c.g| && c.g[id].Proto?
    ensures Heard(c, id) == CTypeOf(c, id) <==> Writable(c, id)
    decreases Height(c, id), 0, 0
  {
    hide HeardList, ParamsOf, PointersOnly;
    assert forall p | p in c.g[id].params :: Follows(c, id, p.ty);
    HeardIsMeant(c, c.g[id].ret);
    ListIsMeant(c, c.g[id].params);
  }

  lemma {:induction false} QualifiedIsMeant(c: Base, id: nat)
    requires Ranked(c) && Readable(c, id) && 0 < id < |c.g| && c.g[id].Qualified?
    ensures Heard(c, id) == CTypeOf(c, id) <==> Writable(c, id)
    decreases Height(c, id), 0, 0
  {
    var end := ChainEnd(c, id);
    ChainType(c, id);
    ChainReadable(c, id);
    TypeUnder(c, end);
    HeardIsMeant(c, end);
    if end < |c.g| && c.g[end].Ptr? {
      assert {} + ChainQuals(c, id) == ChainQuals(c, id);
    } else if 0 < end < |c.g| {
      LandsExactly(c, id);
      hide WrittenQuals, ChainQuals, HeardUnder, HeardFlat, Qualify, AddInner;
      if AddInner(WrittenQuals(c, id), Heard(c, end)) == Qualify(ChainQuals(c, id), CTypeOf(c, end)) {
        NotMadeUpBy(WrittenQuals(c, id), ChainQuals(c, id), Heard(c, end), CTypeOf(c, end));
      }
    }
  }

  lemma {:induction false} FieldsAreMeant(c: Base, members: seq<Member>)
    requires Ranked(c) && AllReadable(c, MemberTypes(members))
    ensures HeardFields(c, members) == FieldsOf(c, members) <==> AllWritable(c, MemberTypes(members))
    decreases Top(c, MemberTypes(members)), 2, |members|
  {
    hide Heard, CTypeOf, Readable, Writable, AllReadable, AllWritable;
    if members == [] {
      NoneWritable(c);
      assert MemberTypes(members) == [];
    } else {
      MemberTop(c, members);
      AllReadableNext(c, MemberTypes(members));
      AllWritableNext(c, MemberTypes(members));
      HeardIsMeant(c, members[0].ty);
      FieldsAreMeant(c, members[1..]);
      var heard, meant := HeardFields(c, members), FieldsOf(c, members);
      assert heard[1..] == HeardFields(c, members[1..]) && meant[1..] == FieldsOf(c, members[1..]);
      if heard == meant {
        assert heard[0] == meant[0] && heard[1..] == meant[1..];
      }
    }
  }

  lemma NoneWritable(c: Base)
    requires Ranked(c)
    ensures AllWritable(c, []) && AllReadable(c, [])
  {
  }

  /** Parameters are heard as they are meant if and only if none has type void and all can be written. */
  lemma {:induction false} ParamsAreMeant(c: Base, params: seq<Param>, from: nat)
    requires Ranked(c) && AllReadable(c, ParamTypes(params))
    ensures HeardParams(c, params, from) == ParamsOf(c, params, from) <==>
              0 !in ParamTypes(params) && AllWritable(c, ParamTypes(params))
    decreases Top(c, ParamTypes(params)), 2, |params|
  {
    hide Heard, CTypeOf, Readable, Writable, AllReadable, AllWritable, ParamName;
    if params == [] {
      NoneWritable(c);
      assert ParamTypes(params) == [];
    } else {
      ParamTop(c, params);
      AllReadableNext(c, ParamTypes(params));
      AllWritableNext(c, ParamTypes(params));
      HeardIsMeant(c, params[0].ty);
      ParamsAreMeant(c, params[1..], from + 1);
      assert ParamTypes(params) == [params[0].ty] + ParamTypes(params[1..]);
      var heard, meant := HeardParams(c, params, from), ParamsOf(c, params, from);
      assert heard[1..] == HeardParams(c, params[1..], from + 1) && meant[1..] == ParamsOf(c, params[1..], from + 1);
      if heard == meant {
        assert heard[0] == meant[0] && heard[1..] == meant[1..];
      }
    }
  }

  lemma {:induction false} ListIsMeant(c: Base, params: seq<Param>)
    requires Ranked(c) && AllReadable(c, ParamTypes(params))
    ensures HeardList(c, params) == ParamsOf(c, params, 0) <==>
              forall i | 0 <= i < |params| :: params[i].ty != 0 && Writable(c, params[i].ty)
    decreases Top(c, ParamTypes(params)), 3
  {
    hide Heard, CTypeOf, Readable, Writable, AllReadable, ParamName;
    ParamsAreMeant(c, params, 0);
    forall i | 0 <= i < |params|
      ensures ParamTypes(params)[i] == params[i].ty
    {
    }
  }

  /** What can be written can be read. */
  lemma {:induction false} WritableIsReadable(c: Base, id: nat)
    requires Ranked(c) && Writable(c, id)
    ensures Readable(c, id)
    decreases Height(c, id)
  {
    hide QualsLand, PointersOnly;
    if 0 < id < |c.g| {
      match c.g[id]
      case Ptr(to) => WritableIsReadable(c, to);
      case Array(elem, _, _) => WritableIsReadable(c, elem);
      case Qualified(_, _) =>
        WritableIsReadable(c, ChainEnd(c, id));
        ChainReadable(c, id);
      case Tag(_, to) => WritableIsReadable(c, to);
      case Typedef(_, to) =>
        if c.g[id].alias == "" {
          WritableIsReadable(c, to);
        }
      case Record(_, tag, _) =>
        if tag == "" {
          assert forall m | m in Body(c, id) :: Follows(c, id, m.ty);
          forall i | 0 <= i < |Body(c, id)|
            ensures Readable(c, Body(c, id)[i].ty)
          {
            WritableIsReadable(c, Body(c, id)[i].ty);
          }
        }
      case Proto(ret, params) =>
        assert forall p | p in params :: Follows(c, id, p.ty);
        WritableIsReadable(c, ret);
        forall i | 0 <= i < |params|
          ensures Readable(c, params[i].ty)
        {
          WritableIsReadable(c, params[i].ty);
        }
      case _ =>
    }
  }
}
