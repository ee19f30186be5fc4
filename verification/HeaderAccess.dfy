/** Field accesses in the printed header: the member that an access resolved is found by following the
    names through the declarations. */
module HeaderAccess {
  import opened Btf
  import opened CSyntax
  import opened Scope
  import opened Meaning
  import opened Walk
  import opened WalkOnce
  import opened WalkScope
  import opened InPlay
  import opened HeaderScope
  import opened HeaderExact
  import opened HeaderLegal
  import opened Access
  import opened AccessString

  datatype Maybe<T> = None | Some(value: T)

  /** The fields that a header gives a tag, or the type it gives a typedef name. */
  ghost function TagFields(ds: seq<CDecl>, id: nat): Maybe<seq<Field>> {
    if exists u, fields :: RecordDefinition(u, id, fields) in ds then
      var u, fields :| RecordDefinition(u, id, fields) in ds;
      Some(fields)
    else None
  }

  ghost function AliasType(ds: seq<CDecl>, id: nat): Maybe<CType> {
    if exists ty :: TypedefOf(id, ty) in ds then
      var ty :| TypedefOf(id, ty) in ds;
      Some(ty)
    else None
  }

  /** The fields of the record that a type is or leads to, by pointers, arrays and at most `left` typedefs. */
  ghost function FieldsAt(ds: seq<CDecl>, t: CType, left: nat): Maybe<seq<Field>>
    decreases left, t
  {
    match t
    case Pointer(_, to) => FieldsAt(ds, to, left)
    case ArrayOf(elem, _) => FieldsAt(ds, elem, left)
    case Plain(_, TagName(_, id)) => TagFields(ds, id)
    case Plain(_, Inline(_, fields)) => Some(fields)
    case Plain(_, AliasName(id)) =>
      if left == 0 || AliasType(ds, id).None? then None else FieldsAt(ds, AliasType(ds, id).value, left - 1)
    case _ => None
  }

  /** A field of that name and type, in the record itself or in an unnamed member of it. */
  ghost predicate HasMember(ds: seq<CDecl>, fields: seq<Field>, name: string, ty: CType, depth: nat)
    decreases depth, 0
  {
    || (exists f :: f in fields && (name == "" || f.name == name) && f.ty == ty)
    || (depth > 0 && exists f :: f in fields && f.name == "" && InUnnamed(ds, f, name, ty, depth - 1))
  }

  ghost predicate InUnnamed(ds: seq<CDecl>, f: Field, name: string, ty: CType, depth: nat)
    decreases depth, 1
  {
    FieldsAt(ds, f.ty, PEEL_LIMIT).Some? && HasMember(ds, FieldsAt(ds, f.ty, PEEL_LIMIT).value, name, ty, depth)
  }

  /** Following names from a type finds the types in turn. */
  ghost predicate Finds(ds: seq<CDecl>, t: CType, names: seq<(string, CType)>)
    decreases |names|
  {
    names == [] ||
    (&& FieldsAt(ds, t, PEEL_LIMIT).Some?
     && HasMember(ds, FieldsAt(ds, t, PEEL_LIMIT).value, names[0].0, names[0].1, SEARCH_LIMIT + 1)
     && Finds(ds, names[0].1, names[1..]))
  }

  lemma {:induction false} FieldsAtQualified(ds: seq<CDecl>, q: Quals, t: CType, left: nat)
    ensures FieldsAt(ds, Qualify(q, t), left) == FieldsAt(ds, t, left)
    decreases t
  {
    match t
    case ArrayOf(elem, _) => FieldsAtQualified(ds, q, elem, left);
    case _ =>
  }

  lemma {:induction false} FieldsAtMore(ds: seq<CDecl>, t: CType, left: nat, more: nat)
    requires FieldsAt(ds, t, left).Some? && left <= more
    ensures FieldsAt(ds, t, more) == FieldsAt(ds, t, left)
    decreases left, t
  {
    match t
    case Pointer(_, to) => FieldsAtMore(ds, to, left, more);
    case ArrayOf(elem, _) => FieldsAtMore(ds, elem, left, more);
    case Plain(_, AliasName(id)) => FieldsAtMore(ds, AliasType(ds, id).value, left - 1, more - 1);
    case _ =>
  }

  lemma SaysIn(c: Base, out: seq<Decl>, d: Decl)
    requires Ranked(c) && (forall x | x in out :: OfKind(c, x)) && d in out
    ensures Says(c, d) in SaysAll(c, out)
    decreases |out|
  {
    var before, last := out[..|out| - 1], out[|out| - 1];
    assert out == before + [last];
    SaysMore(c, before, last);
    if d != last {
      SaysIn(c, before, d);
    }
  }

  lemma SaysFrom(c: Base, out: seq<Decl>, s: CDecl)
    requires Ranked(c) && (forall x | x in out :: OfKind(c, x)) && s in SaysAll(c, out)
    ensures exists d :: d in out && OfKind(c, d) && Says(c, d) == s
    decreases |out|
  {
    var before, last := out[..|out| - 1], out[|out| - 1];
    assert out == before + [last];
    SaysMore(c, before, last);
    if s != Says(c, last) {
      SaysFrom(c, before, s);
    }
  }

  /** A printed record has the fields of its shown members. */
  lemma TagFieldsAre(c: Base, out: seq<Decl>, id: nat)
    requires Ranked(c) && (forall x | x in out :: OfKind(c, x)) && RecordBody(id) in out
    ensures id < |c.g| && c.g[id].Record? && TagFields(SaysAll(c, out), id) == Some(FieldsOf(c, Body(c, id)))
  {
    hide FieldsOf, Body, SaysAll;
    var ds := SaysAll(c, out);
    SaysIn(c, out, RecordBody(id));
    assert RecordDefinition(c.g[id].isUnion, id, FieldsOf(c, Body(c, id))) in ds;
    forall u, fields | RecordDefinition(u, id, fields) in ds
      ensures fields == FieldsOf(c, Body(c, id))
    {
      SaysFrom(c, out, RecordDefinition(u, id, fields));
    }
  }

  lemma AliasTypeIs(c: Base, out: seq<Decl>, id: nat)
    requires Ranked(c) && (forall x | x in out :: OfKind(c, x)) && Alias(id) in out
    ensures id < |c.g| && c.g[id].Typedef? && AliasType(SaysAll(c, out), id) == Some(CTypeOf(c, c.g[id].to))
  {
    hide CTypeOf, SaysAll;
    var ds := SaysAll(c, out);
    SaysIn(c, out, Alias(id));
    assert TypedefOf(id, CTypeOf(c, c.g[id].to)) in ds;
    forall ty | TypedefOf(id, ty) in ds
      ensures ty == CTypeOf(c, c.g[id].to)
    {
      SaysFrom(c, out, TypedefOf(id, ty));
    }
  }

  /** Types that the printed declarations give their meaning: what they lead to is among them, and
      their typedefs were printed. */
  ghost predicate Backed(c: Base, out: seq<Decl>, k: iset<nat>)
    requires Ranked(c)
  {
    && (forall d | d in out :: OfKind(c, d))
    && forall id | id in k && 0 < id < |c.g| ::
         && (IsTransparent(c.g[id]) ==> Inner(c.g[id]) in k)
         && (NamedTypedef(c.g[id]) ==> Alias(id) in out)
         && (c.g[id].Record? && (c.g[id].tag == "" || RecordBody(id) in out) ==> BodyIn(c, k, id))
  }

  /** The members of a record are all of such types. */
  ghost predicate BodyIn(c: Base, k: iset<nat>, id: nat) {
    id < |c.g| && c.g[id].Record? && forall m | m in Body(c, id) :: m.ty in k
  }

  /** Where the program peels such a type down to a record that was printed or has no name, the
      header gives the fields of its shown members. */
  lemma {:induction false} PeelFields(c: Base, out: seq<Decl>, k: iset<nat>, id: nat, left: nat)
    requires Ranked(c) && Backed(c, out, k) && id in k && Peel(c.g, id, left).Peeled?
    requires var r := Peel(c.g, id, left).id; c.g[r].Record? && (c.g[r].tag != "" ==> RecordBody(r) in out)
    ensures var r := Peel(c.g, id, left).id;
            FieldsAt(SaysAll(c, out), CTypeOf(c, id), left) == Some(FieldsOf(c, Body(c, r))) && BodyIn(c, k, r)
    decreases left
  {
    hide FieldsOf, Body, SaysAll, OfKind;
    var ds := SaysAll(c, out);
    match c.g[id]
    case Record(_, tag, _) =>
      if tag != "" {
        TagFieldsAre(c, out, id);
      }
    case Typedef(alias, to) =>
      PeelFields(c, out, k, to, left - 1);
      if alias == "" {
        FieldsAtMore(ds, CTypeOf(c, to), left - 1, left);
      } else {
        AliasTypeIs(c, out, id);
      }
    case Qualified(q, to) =>
      PeelFields(c, out, k, to, left - 1);
      FieldsAtMore(ds, CTypeOf(c, to), left - 1, left);
      FieldsAtQualified(ds, {q}, CTypeOf(c, to), left);
    case Tag(_, to) =>
      PeelFields(c, out, k, to, left - 1);
      FieldsAtMore(ds, CTypeOf(c, to), left - 1, left);
    case Ptr(to) =>
      PeelFields(c, out, k, to, left - 1);
      FieldsAtMore(ds, CTypeOf(c, to), left - 1, left);
    case Array(elem, _, _) =>
      PeelFields(c, out, k, elem, left - 1);
      FieldsAtMore(ds, CTypeOf(c, elem), left - 1, left);
    case _ =>
  }

  /** The named records of these members were printed. */
  ghost predicate Printed(c: Base, out: seq<Decl>, pairs: set<(nat, nat)>) {
    forall p | p in pairs && p.0 < |c.g| && NamedRecord(c.g[p.0]) :: RecordBody(p.0) in out
  }

  lemma {:induction false} PathEnds(g: Graph, view: Marks, record: nat, name: string, fallback: nat, depth: nat)
    requires record < |g| && g[record].Record? && depth <= SEARCH_LIMIT + 1
    ensures var f := Search(g, view, record, name, fallback, depth);
            f.Found? ==> f.path != [] && f.path[|f.path| - 1].0 == record
  {
    if depth <= SEARCH_LIMIT && name != "" {
      WrapperEnds(g, view, record, name, depth, 0);
    }
  }

  lemma {:induction false} WrapperEnds(g: Graph, view: Marks, record: nat, name: string, depth: nat, from: nat)
    requires record < |g| && g[record].Record? && depth <= SEARCH_LIMIT && from <= |g[record].members|
    ensures var f := SearchWrappers(g, view, record, name, depth, from);
            f.Found? ==> f.path != [] && f.path[|f.path| - 1].0 == record
    decreases |g[record].members| - from
  {
    hide Search, IsWrapper;
    if from < |g[record].members| {
      WrapperEnds(g, view, record, name, depth, from + 1);
    }
  }

  /** A shown member has its field. */
  lemma FieldShown(c: Base, k: iset<nat>, id: nat, i: nat)
    requires Ranked(c) && BodyIn(c, k, id) && i < |c.g[id].members| && Shown(c.marks, id, i)
    ensures var m := c.g[id].members[i];
            && m in Body(c, id) && m.ty in k
            && Field(m.name, CTypeOf(c, m.ty), m.bits) in FieldsOf(c, Body(c, id))
  {
    var m := c.g[id].members[i];
    assert m in Body(c, id);
    var k :| 0 <= k < |Body(c, id)| && Body(c, id)[k] == m;
    FieldAt(c, Body(c, id), k);
    assert FieldsOf(c, Body(c, id))[k] in FieldsOf(c, Body(c, id));
  }

  /** What the program finds in the shown records, the header has. */
  lemma {:induction false} SearchInHeader(c: Base, out: seq<Decl>, k: iset<nat>, record: nat, name: string,
                                          fallback: nat, depth: nat)
    requires Ranked(c) && Backed(c, out, k) && BodyIn(c, k, record) && depth <= SEARCH_LIMIT + 1
    requires var f := Search(c.g, c.marks, record, name, fallback, depth);
             f.Found? && Printed(c, out, PathPairs(f.path))
    ensures var ty := Search(c.g, c.marks, record, name, fallback, depth).ty;
            && ty in k
            && HasMember(SaysAll(c, out), FieldsOf(c, Body(c, record)), name, CTypeOf(c, ty), SEARCH_LIMIT + 1 - depth)
    decreases SEARCH_LIMIT + 1 - depth, |c.g[record].members| + 1
  {
    hide FieldsOf, Body, SaysAll, CTypeOf, Known;
    var members := c.g[record].members;
    var i := FindMember(c.marks, record, members, name, fallback);
    if i < |members| {
      FieldShown(c, k, record, i);
    } else {
      WrappersInHeader(c, out, k, record, name, depth, 0);
    }
  }

  lemma {:induction false} WrappersInHeader(c: Base, out: seq<Decl>, k: iset<nat>, record: nat, name: string,
                                            depth: nat, from: nat)
    requires Ranked(c) && Backed(c, out, k) && BodyIn(c, k, record) && depth <= SEARCH_LIMIT
    requires from <= |c.g[record].members|
    requires var f := SearchWrappers(c.g, c.marks, record, name, depth, from);
             f.Found? && Printed(c, out, PathPairs(f.path))
    ensures var ty := SearchWrappers(c.g, c.marks, record, name, depth, from).ty;
            && ty in k
            && HasMember(SaysAll(c, out), FieldsOf(c, Body(c, record)), name, CTypeOf(c, ty), SEARCH_LIMIT + 1 - depth)
    decreases SEARCH_LIMIT + 1 - depth, |c.g[record].members| - from
  {
    hide FieldsOf, Body, SaysAll, CTypeOf, Ranked, OfKind;
    var members := c.g[record].members;
    if !IsWrapper(c.g, c.marks, record, from) {
      WrappersInHeader(c, out, k, record, name, depth, from + 1);
    } else {
      var nested := Peel(c.g, members[from].ty, PEEL_LIMIT).id;
      var f := Search(c.g, c.marks, nested, name, UINT32_MAX, depth + 1);
      if f.Missing? {
        WrappersInHeader(c, out, k, record, name, depth, from + 1);
      } else {
        WrapperInHeader(c, out, k, record, name, depth, from);
      }
    }
  }

  lemma {:induction false} WrapperInHeader(c: Base, out: seq<Decl>, k: iset<nat>, record: nat, name: string,
                                           depth: nat, from: nat)
    requires Ranked(c) && Backed(c, out, k) && BodyIn(c, k, record) && depth <= SEARCH_LIMIT
    requires from < |c.g[record].members|
    requires IsWrapper(c.g, c.marks, record, from)
    requires var nested := Peel(c.g, c.g[record].members[from].ty, PEEL_LIMIT).id;
             var f := Search(c.g, c.marks, nested, name, UINT32_MAX, depth + 1);
             f.Found? && Printed(c, out, PathPairs(f.path + [(record, from)]))
    ensures var nested := Peel(c.g, c.g[record].members[from].ty, PEEL_LIMIT).id;
            var f := Search(c.g, c.marks, nested, name, UINT32_MAX, depth + 1);
            && f.ty in k
            && HasMember(SaysAll(c, out), FieldsOf(c, Body(c, record)), name, CTypeOf(c, f.ty),
                         SEARCH_LIMIT + 1 - depth)
    decreases SEARCH_LIMIT + 1 - depth, 0
  {
    hide FieldsOf, Body, SaysAll, CTypeOf, Ranked, OfKind, Search;
    var m := c.g[record].members[from];
    var nested := Peel(c.g, m.ty, PEEL_LIMIT).id;
    var f := Search(c.g, c.marks, nested, name, UINT32_MAX, depth + 1);
    PathEnds(c.g, c.marks, nested, name, UINT32_MAX, depth + 1);
    assert forall p | p in f.path :: p in f.path + [(record, from)];
    assert f.path[|f.path| - 1] in f.path;
    FieldShown(c, k, record, from);
    PeelFields(c, out, k, m.ty, PEEL_LIMIT);
    SearchInHeader(c, out, k, nested, name, UINT32_MAX, depth + 1);
    assert InUnnamed(SaysAll(c, out), Field(m.name, CTypeOf(c, m.ty), m.bits), name, CTypeOf(c, f.ty),
                     SEARCH_LIMIT - depth);
  }

  /** What the steps of an access name, with the C types they lead to. */
  ghost function Names(c: Base, steps: seq<Step>): seq<(string, CType)>
    requires Ranked(c) && forall step | step in steps :: step.Step?
  {
    if steps == [] then [] else [(steps[0].name, CTypeOf(c, steps[0].base))] + Names(c, steps[1..])
  }

  lemma StepInHeader(c: Base, o: Graph, out: seq<Decl>, k: iset<nat>, object_id: nat, base_id: nat, component: nat)
    requires Ranked(c) && Backed(c, out, k) && base_id in k
    requires var step := StepTo(o, c.g, c.marks, object_id, base_id, component);
             step.Step? && Printed(c, out, PathPairs(step.path))
    ensures var ds, step := SaysAll(c, out), StepTo(o, c.g, c.marks, object_id, base_id, component);
            && step.base in k
            && FieldsAt(ds, CTypeOf(c, base_id), PEEL_LIMIT).Some?
            && HasMember(ds, FieldsAt(ds, CTypeOf(c, base_id), PEEL_LIMIT).value, step.name, CTypeOf(c, step.base),
                         SEARCH_LIMIT + 1)
  {
    hide FieldsOf, Body, SaysAll, CTypeOf, Ranked, OfKind, Search;
    var name := o[Peel(o, object_id, PEEL_LIMIT).id].members[component].name;
    var record := Peel(c.g, base_id, PEEL_LIMIT).id;
    var f := Search(c.g, c.marks, record, name, component, 0);
    PathEnds(c.g, c.marks, record, name, component, 0);
    assert f.path[|f.path| - 1] in f.path;
    PeelFields(c, out, k, base_id, PEEL_LIMIT);
    SearchInHeader(c, out, k, record, name, component, 0);
  }

  /** Following the names of a resolved access through the header finds the types it resolved to. */
  lemma {:induction false} FollowInHeader(c: Base, o: Graph, out: seq<Decl>, k: iset<nat>, object_id: nat,
                                          base_id: nat, s: string)
    requires Ranked(c) && Backed(c, out, k)
    requires var steps := Follow(o, c.g, c.marks, object_id, base_id, s).steps;
             (steps != [] ==> base_id in k) && Printed(c, out, StepPairs(steps))
    ensures Finds(SaysAll(c, out), CTypeOf(c, base_id), Names(c, Follow(o, c.g, c.marks, object_id, base_id, s).steps))
    decreases |s|
  {
    hide SaysAll, CTypeOf, Ranked, OfKind, StepTo, FieldsAt, HasMember, FirstComponent, PathPairs;
    var steps := Follow(o, c.g, c.marks, object_id, base_id, s).steps;
    if steps != [] {
      var first := FirstComponent(s);
      var later := Follow(o, c.g, c.marks, steps[0].object_type, steps[0].base, first.rest).steps;
      assert steps[1..] == later;
      assert forall p | p in PathPairs(steps[0].path) :: p in StepPairs(steps);
      assert forall p | p in StepPairs(later) :: p in StepPairs(steps);
      StepInHeader(c, o, out, k, object_id, base_id, first.value);
      FollowInHeader(c, o, out, k, steps[0].object_type, steps[0].base, first.rest);
      var names := Names(c, steps);
      assert names[1..] == Names(c, later);
    }
  }

  /** The same of declarations that have every named record and typedef of a closed set. */
  lemma ClosedBacks(c: Base, out: seq<Decl>, u: set<nat>)
    requires Ranked(c) && Closed(c, u) && forall d | d in out :: OfKind(c, d)
    requires forall id | id in u && id < |c.g| && NamedTypedef(c.g[id]) :: Alias(id) in out
    ensures Backed(c, out, (iset id | id in u))
  {
    hide OfKind;
    forall id | id in u && 0 < id < |c.g| && IsTransparent(c.g[id])
      ensures Inner(c.g[id]) in u
    {
      assert Follows(c, id, Inner(c.g[id]));
    }
  }

  /** The declarations of a legal header give their meaning to all types that the checker then knows. */
  lemma LegalBacks(c: Base, free: set<nat>, out: seq<Decl>)
    requires Ranked(c) && (forall d | d in out :: OfKind(c, d)) && Judged(c, free, out).Legal?
    ensures Backed(c, out, KnownTypes(c, Judged(c, free, out).env))
    ensures forall id | 0 < id < |c.g| && (RecordBody(id) in out || Alias(id) in out) ::
              id in KnownTypes(c, Judged(c, free, out).env)
  {
    hide Judged, Known, CTypeOf, OfKind, Body;
    var e := Judged(c, free, out).env;
    LegalSees(c, free, out);
    forall id | id in KnownTypes(c, e) && 0 < id < |c.g|
      ensures IsTransparent(c.g[id]) ==> Inner(c.g[id]) in KnownTypes(c, e)
      ensures NamedTypedef(c.g[id]) ==> Alias(id) in out
      ensures c.g[id].Record? && (c.g[id].tag == "" || RecordBody(id) in out) ==> BodyIn(c, KnownTypes(c, e), id)
    {
      KnownBacks(c, free, out, id);
    }
    forall id | 0 < id < |c.g| && (RecordBody(id) in out || Alias(id) in out)
      ensures Known(e, CTypeOf(c, id))
    {
      PrintedKnown(c, free, out, e, id);
    }
  }

  lemma PrintedKnown(c: Base, free: set<nat>, out: seq<Decl>, e: Env, id: nat)
    requires Ranked(c) && (forall d | d in out :: OfKind(c, d)) && Sees(free, out, e) && 0 < id < |c.g|
    requires RecordBody(id) in out || Alias(id) in out
    ensures Known(e, CTypeOf(c, id))
  {
    assert RecordBody(id) in out ==> OfKind(c, RecordBody(id));
    assert Alias(id) in out ==> OfKind(c, Alias(id));
  }

  ghost function KnownTypes(c: Base, e: Env): iset<nat>
    requires Ranked(c)
  {
    iset id: nat | Known(e, CTypeOf(c, id))
  }

  lemma KnownBacks(c: Base, free: set<nat>, out: seq<Decl>, id: nat)
    requires Ranked(c) && (forall d | d in out :: OfKind(c, d)) && Judged(c, free, out).Legal? && 0 < id < |c.g|
    requires var e := Judged(c, free, out).env; Sees(free, out, e) && Sound(c, e) && Known(e, CTypeOf(c, id))
    ensures var e := Judged(c, free, out).env;
            && (IsTransparent(c.g[id]) ==> Known(e, CTypeOf(c, Inner(c.g[id]))))
            && (NamedTypedef(c.g[id]) ==> Alias(id) in out)
            && (c.g[id].Record? && (c.g[id].tag == "" || RecordBody(id) in out) ==>
                  forall m | m in Body(c, id) :: Known(e, CTypeOf(c, m.ty)))
  {
    var e := Judged(c, free, out).env;
    if c.g[id].Qualified? {
      QualifyKeeps(e, {c.g[id].qual}, CTypeOf(c, c.g[id].to));
    } else if c.g[id].Record? && RecordBody(id) in out {
      DefinedKnown(c, out, NOTHING.(enums := free), RecordBody(id));
    } else if c.g[id].Record? && c.g[id].tag == "" {
      forall m | m in Body(c, id)
        ensures Known(e, CTypeOf(c, m.ty))
      {
        OneFieldKnown(c, e, id, m);
      }
    }
  }
}
