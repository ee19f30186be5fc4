/** Headers by name: the declarations of a header are proper, so the checker by name has its say on them. */
module HeaderNames {
  import opened Btf
  import opened CSyntax
  import opened Scope
  import opened Meaning
  import opened Walk
  import opened WalkOnce
  import opened WalkScope
  import opened HeaderScope
  import opened HeaderExact
  import opened PlainWalk
  import opened HeaderLegal
  import NameScope

  /** Forward declarations have names. */
  predicate ForwardsNamed(g: Graph) {
    forall t | t in g && t.Fwd? :: t.tag != ""
  }

  lemma QualifySpoken(g: Graph, q: Quals, t: CType)
    ensures NameScope.Spoken(g, Qualify(q, t)) == NameScope.Spoken(g, t)
  {
  }

  lemma {:induction false} TypeSpoken(c: Base, id: nat)
    requires Ranked(c) && ForwardsNamed(c.g)
    ensures NameScope.Spoken(c.g, CTypeOf(c, id))
    decreases Height(c, id)
  {
    if 0 < id < |c.g| {
      match c.g[id]
      case Ptr(to) => TypeSpoken(c, to);
      case Array(elem, _, _) => TypeSpoken(c, elem);
      case Typedef(_, to) => TypeSpoken(c, to);
      case Tag(_, to) => TypeSpoken(c, to);
      case Qualified(q, to) =>
        TypeSpoken(c, to);
        QualifySpoken(c.g, {q}, CTypeOf(c, to));
      case Record(_, tag, _) =>
        if tag == "" {
          forall m | m in Body(c, id)
            ensures NameScope.Spoken(c.g, CTypeOf(c, m.ty))
          {
            assert Follows(c, id, m.ty);
            TypeSpoken(c, m.ty);
          }
          FieldsSpoken(c, Body(c, id));
        }
      case Proto(ret, params) =>
        TypeSpoken(c, ret);
        forall p | p in params
          ensures NameScope.Spoken(c.g, CTypeOf(c, p.ty))
        {
          assert Follows(c, id, p.ty);
          TypeSpoken(c, p.ty);
        }
        ParamsSpoken(c, params);
      case Fwd(_, tag) => assert c.g[id] in c.g;
      case _ =>
    }
  }

  lemma FieldsSpoken(c: Base, members: seq<Member>)
    requires Ranked(c) && forall m | m in members :: NameScope.Spoken(c.g, CTypeOf(c, m.ty))
    ensures forall f | f in FieldsOf(c, members) :: NameScope.Spoken(c.g, f.ty)
  {
    hide CTypeOf, NameScope.Spoken;
    forall i | 0 <= i < |members|
      ensures NameScope.Spoken(c.g, FieldsOf(c, members)[i].ty)
    {
      FieldAt(c, members, i);
    }
  }

  lemma ParamsSpoken(c: Base, params: seq<Param>)
    requires Ranked(c) && forall p | p in params :: NameScope.Spoken(c.g, CTypeOf(c, p.ty))
    ensures forall p | p in ParamsOf(c, params, 0) :: NameScope.Spoken(c.g, p.ty)
  {
    hide CTypeOf, NameScope.Spoken;
    forall i | 0 <= i < |params|
      ensures NameScope.Spoken(c.g, ParamsOf(c, params, 0)[i].ty)
    {
      ParamAt(c, params, 0, i);
    }
  }

  lemma SaysProper(c: Base, d: Decl)
    requires Ranked(c) && ForwardsNamed(c.g) && OfKind(c, d)
    ensures NameScope.Proper(c.g, Says(c, d))
  {
    hide CTypeOf, NameScope.Spoken, FieldsOf, Body;
    match d
    case RecordBody(id) =>
      forall m | m in Body(c, id)
        ensures NameScope.Spoken(c.g, CTypeOf(c, m.ty))
      {
        TypeSpoken(c, m.ty);
      }
      FieldsSpoken(c, Body(c, id));
    case Alias(id) => TypeSpoken(c, c.g[id].to);
    case _ =>
  }

  lemma {:induction false} SaysAt(c: Base, ds: seq<Decl>, i: nat)
    requires Ranked(c) && (forall d | d in ds :: OfKind(c, d)) && i < |ds|
    ensures SaysAll(c, ds)[i] == Says(c, ds[i])
    decreases |ds|
  {
    hide Says;
    if i < |ds| - 1 {
      SaysAt(c, ds[..|ds| - 1], i);
    }
  }

  lemma AllSaysProper(c: Base, ds: seq<Decl>)
    requires Ranked(c) && ForwardsNamed(c.g) && (forall d | d in ds :: OfKind(c, d)) && Distinct(ds)
    ensures forall d | d in SaysAll(c, ds) :: NameScope.Proper(c.g, d)
    ensures var cs := SaysAll(c, ds); forall i, j | 0 <= i < j < |cs| && cs[i].EnumDefinition? :: cs[i] != cs[j]
  {
    hide NameScope.Proper, OfKind, SaysAll;
    var cs := SaysAll(c, ds);
    forall i | 0 <= i < |cs|
      ensures NameScope.Proper(c.g, cs[i]) && cs[i] == Says(c, ds[i])
    {
      SaysAt(c, ds, i);
      SaysProper(c, ds[i]);
    }
    forall i, j | 0 <= i < j < |cs| && cs[i].EnumDefinition?
      ensures cs[i] != cs[j]
    {
      assert ds[i] != ds[j];
    }
  }

  /** A header that mentions no two tags and no two typedefs of one name is legal by name exactly if it
      is by type id. */
  lemma LegalByName(c: Base, ord: nat -> nat, ids: seq<nat>)
    requires InRange(c.g, ids) && Distinct(ids) && Ranked(c) && Named(c, PlayOf(c, ids)) && ForwardsNamed(c.g)
    requires Ordered(c, ord, PlayOf(c, ids)) && Header(c, ids).Done?
    ensures var out := Header(c, ids).st.out;
            && (forall d | d in out :: OfKind(c, d))
            && var ds := SaysAll(c, out);
               NameScope.Apart(c.g, NameScope.AllTags(ds)) && NameScope.Apart(c.g, NameScope.AllAliases(ds)) ==>
                 (NameScope.CheckNames(c.g, ds).Allowed? <==> EnumsCovered(c, {}, ids) && Provided(c, {}, out))
  {
    HeaderLegalIff(c, ord, {}, ids);
    JudgedFromNothing(c, Header(c, ids).st.out);
    HeaderOnce(c, ids);
    hide Ranked, Named, Ordered, Header, Check, EnumsCovered, PlayOf, OfKind, Says, SaysAll, InRange, Judged;
    hide PlainHeader, Provided;
    hide NameScope.Apart, NameScope.Proper, NameScope.CheckNames, NameScope.AllTags, NameScope.AllAliases;
    var ds := SaysAll(c, Header(c, ids).st.out);
    AllSaysProper(c, Header(c, ids).st.out);
    if NameScope.Apart(c.g, NameScope.AllTags(ds)) && NameScope.Apart(c.g, NameScope.AllAliases(ds)) {
      NameScope.NamesAgree(c.g, ds);
    }
  }

  /** Two required records of one name make a header that is not. */
  lemma SameNameBreaks(c: Base, ids: seq<nat>, a: nat, b: nat)
    requires Ranked(c) && InRange(c.g, ids) && Distinct(ids) && Header(c, ids).Done?
    requires a in ids && b in ids && a != b && NamedRecord(c.g[a]) && NamedRecord(c.g[b]) && c.g[a].tag == c.g[b].tag
    ensures var out := Header(c, ids).st.out;
            && (forall d | d in out :: OfKind(c, d))
            && NameScope.CheckNames(c.g, SaysAll(c, out)).Refused?
  {
    HeaderOfKind(c, ids);
    HeaderOnce(c, ids);
    hide Header, OfKind, SaysAll, NameScope.CheckNames, Ranked, InRange, Distinct;
    TwoOfOneName(c, Header(c, ids).st.out, a, b);
  }

  lemma TwoOfOneName(c: Base, out: seq<Decl>, a: nat, b: nat)
    requires Ranked(c) && (forall d | d in out :: OfKind(c, d)) && RecordBody(a) in out && RecordBody(b) in out
    requires a != b
    requires OfKind(c, RecordBody(a)) && OfKind(c, RecordBody(b)) && c.g[a].tag == c.g[b].tag
    ensures NameScope.CheckNames(c.g, SaysAll(c, out)).Refused?
  {
    var i :| 0 <= i < |out| && out[i] == RecordBody(a);
    var j :| 0 <= j < |out| && out[j] == RecordBody(b);
    SaysAt(c, out, i);
    SaysAt(c, out, j);
    hide SaysAll, NameScope.CheckNames, Ranked, FieldsOf;
    NameScope.SameNameRefused(c.g, SaysAll(c, out), if i < j then i else j, if i < j then j else i);
  }
}
