/** The scope checker by name: the names of structs, unions and enums are in one name space, those of
    typedefs in another (section 6.2.3 of ISO/IEC 9899:2018). Where no two types that a header
    mentions share a name, it agrees with the checker by type id. */
module NameScope {
  import opened Btf
  import opened CSyntax
  import opened Scope

  /** `needs` gives, for each typedef name, the tags that must be complete for it to be. */
  datatype Table = Table(tags: set<string>, complete: set<string>, enums: set<string>, needs: map<string, set<string>>)

  const NO_NAMES := Table({}, {}, {}, map[])

  function NameAt(g: Graph, id: nat): string {
    if id < |g| then NameOf(g[id]) else ""
  }

  function TagNeeds(g: Graph, n: Table, t: CType): set<string> {
    match t
    case Plain(_, TagName(_, id)) => {NameAt(g, id)}
    case Plain(_, AliasName(id)) => if NameAt(g, id) in n.needs then n.needs[NameAt(g, id)] else {}
    case ArrayOf(elem, _) => TagNeeds(g, n, elem)
    case _ => {}
  }

  predicate Named(g: Graph, n: Table, t: CType) {
    match t
    case Plain(_, spec) =>
      (match spec
       case TagName(_, id) => NameAt(g, id) in n.tags
       case EnumName(id) => NameAt(g, id) in n.enums
       case AliasName(id) => NameAt(g, id) in n.needs
       case Inline(_, fields) => forall f | f in fields :: Named(g, n, f.ty) && TagNeeds(g, n, f.ty) <= n.complete
       case _ => true)
    case Pointer(_, to) => Named(g, n, to)
    case ArrayOf(elem, _) => Named(g, n, elem)
    case Function(ret, params) => Named(g, n, ret) && forall p | p in params :: Named(g, n, p.ty)
  }

  /** A tag is that of an enum or of a struct or union, not of both; an enum may have none. */
  predicate Allows(g: Graph, n: Table, d: CDecl) {
    match d
    case ForwardTag(_, id) => NameAt(g, id) !in n.enums
    case EnumDefinition(id) => NameAt(g, id) == "" || (NameAt(g, id) !in n.enums && NameAt(g, id) !in n.tags)
    case RecordDefinition(_, id, fields) =>
      && NameAt(g, id) !in n.complete && NameAt(g, id) !in n.enums
      && forall f | f in fields ::
           Named(g, n.(tags := n.tags + {NameAt(g, id)}), f.ty) && TagNeeds(g, n, f.ty) <= n.complete
    case TypedefOf(id, ty) =>
      && NameAt(g, id) !in n.needs
      && Named(g, n, ty)
      && (ty.ArrayOf? ==> TagNeeds(g, n, ty) <= n.complete)
  }

  function Add(g: Graph, n: Table, d: CDecl): Table {
    match d
    case ForwardTag(_, id) => n.(tags := n.tags + {NameAt(g, id)})
    case EnumDefinition(id) => if NameAt(g, id) == "" then n else n.(enums := n.enums + {NameAt(g, id)})
    case RecordDefinition(_, id, _) =>
      n.(tags := n.tags + {NameAt(g, id)}, complete := n.complete + {NameAt(g, id)})
    case TypedefOf(id, ty) => n.(needs := n.needs[NameAt(g, id) := TagNeeds(g, n, ty)])
  }

  datatype NameVerdict = Allowed(table: Table) | Refused

  function CheckNames(g: Graph, decls: seq<CDecl>): NameVerdict {
    if decls == [] then Allowed(NO_NAMES)
    else
      match CheckNames(g, decls[..|decls| - 1])
      case Refused => Refused
      case Allowed(n) =>
        var d := decls[|decls| - 1];
        if Allows(g, n, d) then Allowed(Add(g, n, d)) else Refused
  }

  /** The types that a declaration mentions by a tag, and those by a typedef name. */
  function TagsIn(t: CType): set<nat> {
    match t
    case Plain(_, spec) =>
      (match spec
       case TagName(_, id) => {id}
       case EnumName(id) => {id}
       case Inline(_, fields) => FieldTags(fields)
       case _ => {})
    case Pointer(_, to) => TagsIn(to)
    case ArrayOf(elem, _) => TagsIn(elem)
    case Function(ret, params) => TagsIn(ret) + set p, id | p in params && id in TagsIn(p.ty) :: id
  }

  function FieldTags(fields: seq<Field>): set<nat> {
    set f, id | f in fields && id in TagsIn(f.ty) :: id
  }

  function AliasesIn(t: CType): set<nat> {
    match t
    case Plain(_, spec) =>
      (match spec
       case AliasName(id) => {id}
       case Inline(_, fields) => FieldAliases(fields)
       case _ => {})
    case Pointer(_, to) => AliasesIn(to)
    case ArrayOf(elem, _) => AliasesIn(elem)
    case Function(ret, params) => AliasesIn(ret) + set p, id | p in params && id in AliasesIn(p.ty) :: id
  }

  function FieldAliases(fields: seq<Field>): set<nat> {
    set f, id | f in fields && id in AliasesIn(f.ty) :: id
  }

  function TagsOf(d: CDecl): set<nat> {
    match d
    case ForwardTag(_, id) => {id}
    case EnumDefinition(id) => {id}
    case RecordDefinition(_, id, fields) => {id} + FieldTags(fields)
    case TypedefOf(_, ty) => TagsIn(ty)
  }

  function AliasesOf(d: CDecl): set<nat> {
    match d
    case RecordDefinition(_, _, fields) => FieldAliases(fields)
    case TypedefOf(id, ty) => {id} + AliasesIn(ty)
    case _ => {}
  }

  /** No two types of a set share a name. */
  ghost predicate Apart(g: Graph, s: set<nat>) {
    forall a, b | a in s && b in s && NameAt(g, a) == NameAt(g, b) && NameAt(g, a) != "" :: a == b
  }

  /** Every type that is mentioned has a name. */
  predicate Spoken(g: Graph, t: CType) {
    match t
    case Plain(_, spec) =>
      (match spec
       case TagName(_, id) => NameAt(g, id) != ""
       case EnumName(id) => NameAt(g, id) != ""
       case AliasName(id) => NameAt(g, id) != ""
       case Inline(_, fields) => forall f | f in fields :: Spoken(g, f.ty)
       case _ => true)
    case Pointer(_, to) => Spoken(g, to)
    case ArrayOf(elem, _) => Spoken(g, elem)
    case Function(ret, params) => Spoken(g, ret) && forall p | p in params :: Spoken(g, p.ty)
  }

  /** A declaration of a type of its kind, with names for all types but an enum. */
  predicate Proper(g: Graph, d: CDecl) {
    match d
    case ForwardTag(_, id) => id < |g| && !g[id].Enum? && NameAt(g, id) != ""
    case EnumDefinition(id) => id < |g| && g[id].Enum?
    case RecordDefinition(_, id, fields) =>
      id < |g| && !g[id].Enum? && NameAt(g, id) != "" && forall f | f in fields :: Spoken(g, f.ty)
    case TypedefOf(id, ty) => NameAt(g, id) != "" && Spoken(g, ty)
  }

  /** Two symbol tables say the same of the tags in `tags` and the typedefs in `aliases`. */
  ghost predicate Mirrors(g: Graph, tags: set<nat>, aliases: set<nat>, e: Env, n: Table) {
    && (forall id | id in e.tags :: id in tags && id < |g| && !g[id].Enum?)
    && (forall id | id in e.enums :: id in tags && id < |g| && g[id].Enum?)
    && (forall id | id in tags && NameAt(g, id) != "" :: MirrorsTag(g, e, n, id))
    && (forall id | id in aliases :: MirrorsAlias(g, tags, e, n, id))
  }

  ghost predicate MirrorsTag(g: Graph, e: Env, n: Table, id: nat) {
    var name := NameAt(g, id);
    && (id in e.tags <==> name in n.tags)
    && (id in e.complete <==> name in n.complete)
    && (id in e.enums <==> name in n.enums)
  }

  ghost predicate MirrorsAlias(g: Graph, tags: set<nat>, e: Env, n: Table, id: nat) {
    && (id in e.needs <==> NameAt(g, id) in n.needs)
    && (id in e.needs ==> SameTags(g, tags, e.needs[id], n.needs[NameAt(g, id)]))
  }

  /** The same tags, by type id and by name. */
  ghost predicate SameTags(g: Graph, tags: set<nat>, ids: set<nat>, names: set<string>) {
    && (forall id | id in ids :: id in tags && NameAt(g, id) != "" && NameAt(g, id) in names)
    && (forall name | name in names :: exists id :: id in ids && NameAt(g, id) == name)
  }

  lemma NeedsMirror(g: Graph, tags: set<nat>, aliases: set<nat>, e: Env, n: Table, t: CType)
    requires Mirrors(g, tags, aliases, e, n) && Spoken(g, t) && TagsIn(t) <= tags && AliasesIn(t) <= aliases
    ensures SameTags(g, tags, Needs(e, t), TagNeeds(g, n, t))
  {
    match t
    case Plain(_, AliasName(id)) =>
      assert id in AliasesIn(t);
      assert MirrorsAlias(g, tags, e, n, id);
    case Plain(_, TagName(_, id)) => assert id in TagsIn(t);
    case _ =>
  }

  lemma CompleteMirror(g: Graph, tags: set<nat>, aliases: set<nat>, e: Env, n: Table, t: CType)
    requires Mirrors(g, tags, aliases, e, n) && Spoken(g, t) && TagsIn(t) <= tags && AliasesIn(t) <= aliases
    ensures Complete(e, t) <==> TagNeeds(g, n, t) <= n.complete
  {
    NeedsMirror(g, tags, aliases, e, n, t);
    forall id | id in Needs(e, t)
      ensures id in e.complete <==> NameAt(g, id) in n.complete
    {
      assert MirrorsTag(g, e, n, id);
    }
  }

  lemma {:induction false} KnownMirror(g: Graph, tags: set<nat>, aliases: set<nat>, e: Env, n: Table, t: CType)
    requires Mirrors(g, tags, aliases, e, n) && Spoken(g, t) && TagsIn(t) <= tags && AliasesIn(t) <= aliases
    ensures Known(e, t) <==> Named(g, n, t)
  {
    hide Mirrors;
    match t
    case Plain(_, Inline(_, fields)) => FieldsMirror(g, tags, aliases, e, n, fields);
    case Plain(_, _) => SpecMirror(g, tags, aliases, e, n, t);
    case Pointer(_, to) => KnownMirror(g, tags, aliases, e, n, to);
    case ArrayOf(elem, _) => KnownMirror(g, tags, aliases, e, n, elem);
    case Function(ret, params) =>
      KnownMirror(g, tags, aliases, e, n, ret);
      forall p | p in params
        ensures Known(e, p.ty) <==> Named(g, n, p.ty)
      {
        assert TagsIn(p.ty) <= TagsIn(t) && AliasesIn(p.ty) <= AliasesIn(t);
        KnownMirror(g, tags, aliases, e, n, p.ty);
      }
  }

  lemma SpecMirror(g: Graph, tags: set<nat>, aliases: set<nat>, e: Env, n: Table, t: CType)
    requires Mirrors(g, tags, aliases, e, n) && Spoken(g, t) && TagsIn(t) <= tags && AliasesIn(t) <= aliases
    requires t.Plain? && !t.spec.Inline?
    ensures Known(e, t) <==> Named(g, n, t)
  {
    match t.spec
    case TagName(_, id) => assert id in TagsIn(t) && MirrorsTag(g, e, n, id);
    case EnumName(id) => assert id in TagsIn(t) && MirrorsTag(g, e, n, id);
    case AliasName(id) => assert id in AliasesIn(t) && MirrorsAlias(g, tags, e, n, id);
    case _ =>
  }

  lemma {:induction false} FieldsMirror(g: Graph, tags: set<nat>, aliases: set<nat>, e: Env, n: Table,
                                        fields: seq<Field>)
    requires Mirrors(g, tags, aliases, e, n) && forall f | f in fields :: Spoken(g, f.ty)
    requires FieldTags(fields) <= tags && FieldAliases(fields) <= aliases
    ensures (forall f | f in fields :: Known(e, f.ty) && Complete(e, f.ty)) <==>
            (forall f | f in fields :: Named(g, n, f.ty) && TagNeeds(g, n, f.ty) <= n.complete)
  {
    hide Mirrors;
    forall f | f in fields
      ensures Known(e, f.ty) <==> Named(g, n, f.ty)
      ensures Complete(e, f.ty) <==> TagNeeds(g, n, f.ty) <= n.complete
    {
      assert TagsIn(f.ty) <= FieldTags(fields) && AliasesIn(f.ty) <= FieldAliases(fields);
      KnownMirror(g, tags, aliases, e, n, f.ty);
      CompleteMirror(g, tags, aliases, e, n, f.ty);
    }
  }

  /** One more tag, in both tables. */
  lemma TagMirror(g: Graph, tags: set<nat>, aliases: set<nat>, e: Env, n: Table, id: nat, whole: bool)
    requires Mirrors(g, tags, aliases, e, n) && Apart(g, tags) && id in tags && id < |g| && !g[id].Enum?
    requires NameAt(g, id) != ""
    ensures var e' := e.(tags := e.tags + {id}, complete := if whole then e.complete + {id} else e.complete);
            var name := NameAt(g, id);
            var n' := n.(tags := n.tags + {name}, complete := if whole then n.complete + {name} else n.complete);
            Mirrors(g, tags, aliases, e', n')
  {
    hide SameTags;
    var e' := e.(tags := e.tags + {id}, complete := if whole then e.complete + {id} else e.complete);
    var name := NameAt(g, id);
    var n' := n.(tags := n.tags + {name}, complete := if whole then n.complete + {name} else n.complete);
    forall i | i in tags && NameAt(g, i) != ""
      ensures MirrorsTag(g, e', n', i)
    {
      assert MirrorsTag(g, e, n, i);
    }
    forall i | i in aliases
      ensures MirrorsAlias(g, tags, e', n', i)
    {
      assert MirrorsAlias(g, tags, e, n, i);
    }
  }

  lemma EnumMirror(g: Graph, tags: set<nat>, aliases: set<nat>, e: Env, n: Table, id: nat)
    requires Mirrors(g, tags, aliases, e, n) && Apart(g, tags) && id in tags && id < |g| && g[id].Enum?
    ensures NameAt(g, id) != "" ==> (Allows(g, n, EnumDefinition(id)) <==> id !in e.enums)
    ensures Mirrors(g, tags, aliases, Enter(e, EnumDefinition(id)), Add(g, n, EnumDefinition(id)))
  {
    hide SameTags;
    var e', n' := Enter(e, EnumDefinition(id)), Add(g, n, EnumDefinition(id));
    assert NameAt(g, id) != "" ==> MirrorsTag(g, e, n, id);
    forall i | i in tags && NameAt(g, i) != ""
      ensures MirrorsTag(g, e', n', i)
    {
      assert MirrorsTag(g, e, n, i);
    }
    forall i | i in aliases
      ensures MirrorsAlias(g, tags, e', n', i)
    {
      assert MirrorsAlias(g, tags, e, n, i);
    }
  }

  lemma AliasMirror(g: Graph, tags: set<nat>, aliases: set<nat>, e: Env, n: Table, id: nat, ty: CType)
    requires Mirrors(g, tags, aliases, e, n) && Apart(g, aliases) && id in aliases && NameAt(g, id) != ""
    requires Spoken(g, ty) && TagsIn(ty) <= tags && AliasesIn(ty) <= aliases
    ensures Mirrors(g, tags, aliases, Enter(e, TypedefOf(id, ty)), Add(g, n, TypedefOf(id, ty)))
  {
    NeedsMirror(g, tags, aliases, e, n, ty);
    hide SameTags;
    var e', n' := Enter(e, TypedefOf(id, ty)), Add(g, n, TypedefOf(id, ty));
    forall i | i in tags && NameAt(g, i) != ""
      ensures MirrorsTag(g, e', n', i)
    {
      assert MirrorsTag(g, e, n, i);
    }
    forall i | i in aliases
      ensures MirrorsAlias(g, tags, e', n', i)
    {
      assert MirrorsAlias(g, tags, e, n, i);
    }
  }

  /** One declaration: the checkers agree on it, and so do their tables after it. */
  lemma DeclMirror(g: Graph, tags: set<nat>, aliases: set<nat>, e: Env, n: Table, d: CDecl)
    requires Mirrors(g, tags, aliases, e, n) && Apart(g, tags) && Apart(g, aliases)
    requires Proper(g, d) && TagsOf(d) <= tags && AliasesOf(d) <= aliases
    requires d.EnumDefinition? && NameAt(g, d.id) == "" ==> d.id !in e.enums
    ensures Accepts(e, d) <==> Allows(g, n, d)
    ensures Mirrors(g, tags, aliases, Enter(e, d), Add(g, n, d))
  {
    hide SameTags;
    match d
    case ForwardTag(_, id) =>
      assert id in TagsOf(d) && MirrorsTag(g, e, n, id);
      TagMirror(g, tags, aliases, e, n, id, false);
    case EnumDefinition(id) =>
      assert id in TagsOf(d);
      EnumMirror(g, tags, aliases, e, n, id);
    case RecordDefinition(_, id, fields) => RecordMirror(g, tags, aliases, e, n, d);
    case TypedefOf(id, ty) =>
      assert id in AliasesOf(d) && MirrorsAlias(g, tags, e, n, id);
      KnownMirror(g, tags, aliases, e, n, ty);
      CompleteMirror(g, tags, aliases, e, n, ty);
      AliasMirror(g, tags, aliases, e, n, id, ty);
  }

  lemma RecordMirror(g: Graph, tags: set<nat>, aliases: set<nat>, e: Env, n: Table, d: CDecl)
    requires Mirrors(g, tags, aliases, e, n) && Apart(g, tags) && d.RecordDefinition?
    requires Proper(g, d) && TagsOf(d) <= tags && AliasesOf(d) <= aliases
    ensures Accepts(e, d) <==> Allows(g, n, d)
    ensures Mirrors(g, tags, aliases, Enter(e, d), Add(g, n, d))
  {
    hide SameTags;
    var id := d.id;
    assert id in TagsOf(d) && MirrorsTag(g, e, n, id);
    TagMirror(g, tags, aliases, e, n, id, false);
    TagMirror(g, tags, aliases, e, n, id, true);
    var inside, within := e.(tags := e.tags + {id}), n.(tags := n.tags + {NameAt(g, id)});
    FieldsMirror(g, tags, aliases, inside, within, d.fields);
    hide Mirrors;
    forall f | f in d.fields
      ensures Complete(inside, f.ty) == Complete(e, f.ty) && TagNeeds(g, within, f.ty) == TagNeeds(g, n, f.ty)
    {
      TagsApart(g, e, n, inside, within, f.ty);
    }
  }

  /** What a type needs does not rest on the tags that are declared. */
  lemma TagsApart(g: Graph, e: Env, n: Table, e': Env, n': Table, t: CType)
    requires e'.needs == e.needs && n'.needs == n.needs
    ensures Needs(e', t) == Needs(e, t) && TagNeeds(g, n', t) == TagNeeds(g, n, t)
  {
    match t
    case ArrayOf(elem, _) => TagsApart(g, e, n, e', n', elem);
    case _ =>
  }

  ghost predicate AllProper(g: Graph, tags: set<nat>, aliases: set<nat>, ds: seq<CDecl>) {
    && (forall d | d in ds :: Proper(g, d) && TagsOf(d) <= tags && AliasesOf(d) <= aliases)
    && forall i, j | 0 <= i < j < |ds| && ds[i].EnumDefinition? :: ds[i] != ds[j]
  }

  lemma {:induction false} CheckMirror(g: Graph, tags: set<nat>, aliases: set<nat>, ds: seq<CDecl>)
    requires Apart(g, tags) && Apart(g, aliases) && AllProper(g, tags, aliases, ds)
    ensures Check(NOTHING, ds).Legal? <==> CheckNames(g, ds).Allowed?
    ensures Check(NOTHING, ds).Legal? ==> Mirrors(g, tags, aliases, Check(NOTHING, ds).env, CheckNames(g, ds).table)
    ensures Check(NOTHING, ds).Legal? ==>
              forall id | id in Check(NOTHING, ds).env.enums :: EnumDefinition(id) in ds
    decreases |ds|
  {
    hide Accepts, Allows, Mirrors, Apart, Proper, TagsOf, AliasesOf;
    if ds == [] {
      NothingMirrors(g, tags, aliases);
    } else {
      var before, last := ds[..|ds| - 1], ds[|ds| - 1];
      CheckMirror(g, tags, aliases, before);
      if Check(NOTHING, before).Legal? {
        var e := Check(NOTHING, before).env;
        assert last in ds && (last.EnumDefinition? ==> last !in before);
        DeclMirror(g, tags, aliases, e, CheckNames(g, before).table, last);
        assert ds == before + [last];
      }
    }
  }

  lemma NothingMirrors(g: Graph, tags: set<nat>, aliases: set<nat>)
    ensures Mirrors(g, tags, aliases, NOTHING, NO_NAMES)
  {
  }

  /** The tags and the typedef names that declarations mention. */
  function AllTags(ds: seq<CDecl>): set<nat> {
    set d, id | d in ds && id in TagsOf(d) :: id
  }

  function AllAliases(ds: seq<CDecl>): set<nat> {
    set d, id | d in ds && id in AliasesOf(d) :: id
  }

  /** Declarations that mention no two tags, and no two typedefs, of one name are legal by name if and
      only if they are legal by type id. */
  lemma NamesAgree(g: Graph, ds: seq<CDecl>)
    requires (forall d | d in ds :: Proper(g, d)) && Apart(g, AllTags(ds)) && Apart(g, AllAliases(ds))
    requires forall i, j | 0 <= i < j < |ds| && ds[i].EnumDefinition? :: ds[i] != ds[j]
    ensures CheckNames(g, ds).Allowed? <==> Check(NOTHING, ds).Legal?
  {
    hide Apart, Proper, TagsOf, AliasesOf;
    forall d | d in ds
      ensures TagsOf(d) <= AllTags(ds) && AliasesOf(d) <= AllAliases(ds)
    {
    }
    CheckMirror(g, AllTags(ds), AllAliases(ds), ds);
  }

  /** Two definitions of records of one name are never legal by name. */
  lemma {:induction false} SameNameRefused(g: Graph, ds: seq<CDecl>, i: nat, j: nat)
    requires i < j < |ds| && ds[i].RecordDefinition? && ds[j].RecordDefinition?
    requires NameAt(g, ds[i].id) == NameAt(g, ds[j].id)
    ensures CheckNames(g, ds).Refused?
    decreases |ds|
  {
    hide Named, TagNeeds;
    var before := ds[..|ds| - 1];
    if j < |ds| - 1 {
      SameNameRefused(g, before, i, j);
    } else if CheckNames(g, before).Allowed? {
      DefinedStays(g, before, i);
    }
  }

  lemma {:induction false} DefinedStays(g: Graph, ds: seq<CDecl>, i: nat)
    requires i < |ds| && ds[i].RecordDefinition? && CheckNames(g, ds).Allowed?
    ensures NameAt(g, ds[i].id) in CheckNames(g, ds).table.complete
    decreases |ds|
  {
    hide Named, TagNeeds;
    if i < |ds| - 1 {
      DefinedStays(g, ds[..|ds| - 1], i);
    }
  }
}
