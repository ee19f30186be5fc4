/**
 Abstract C: what the declarations of a header say, and whether every name in
 them is declared, and every object in them sized, before it is used.
 A tag, an enum or a typedef name is identified by the type id that introduces it.
 */
module CSyntax {
  import opened Btf

  type Quals = set<Qual>

  datatype Spec =
    | CVoid
    | Keyword(spelling: string)
    | TagName(isUnion: bool, id: nat)
    | EnumName(id: nat)
    | AliasName(id: nat)
    | Inline(isUnion: bool, fields: seq<Field>)

  datatype Field = Field(name: string, ty: CType, bits: nat)
  datatype CParam = CParam(name: string, ty: CType)

  datatype CType =
    | Plain(quals: Quals, spec: Spec)
    | Pointer(quals: Quals, to: CType)
    | ArrayOf(elem: CType, n: nat)
    | Function(ret: CType, params: seq<CParam>)

  datatype CDecl =
    | ForwardTag(isUnion: bool, id: nat)
    | EnumDefinition(id: nat)
    | RecordDefinition(isUnion: bool, id: nat, fields: seq<Field>)
    | TypedefOf(id: nat, ty: CType)

  /** Qualifying an array qualifies its elements (section 6.7.3 of ISO/IEC 9899:2018). */
  function Qualify(q: Quals, t: CType): CType {
    match t
    case Plain(quals, spec) => Plain(quals + q, spec)
    case Pointer(quals, to) => Pointer(quals + q, to)
    case ArrayOf(elem, n) => ArrayOf(Qualify(q, elem), n)
    case Function(_, _) => t
  }
}

/** The scope checker: one pass over the declarations with a symbol table. */
module Scope {
  import opened Btf
  import opened CSyntax

  /** `needs` gives, for each typedef name, the tags that must be complete for it to be. */
  datatype Env = Env(tags: set<nat>, complete: set<nat>, enums: set<nat>, needs: map<nat, set<nat>>)

  const NOTHING := Env({}, {}, {}, map[])

  ghost predicate Grows(a: Env, b: Env) {
    && a.tags <= b.tags && a.complete <= b.complete && a.enums <= b.enums
    && a.needs.Keys <= b.needs.Keys
    && forall k | k in a.needs :: b.needs[k] == a.needs[k]
  }

  /** The tags whose completeness the completeness of `t` rests on. */
  function Needs(e: Env, t: CType): set<nat> {
    match t
    case Plain(_, TagName(_, id)) => {id}
    case Plain(_, AliasName(id)) => if id in e.needs then e.needs[id] else {}
    case ArrayOf(elem, _) => Needs(e, elem)
    case _ => {}
  }

  predicate Complete(e: Env, t: CType) {
    Needs(e, t) <= e.complete
  }

  /** Every name in `t` is declared, and the fields of an inline record are complete. (The elements of
      an array are asked to be complete where the array itself is: in `Complete`.) */
  predicate Known(e: Env, t: CType) {
    match t
    case Plain(_, spec) =>
      (match spec
       case TagName(_, id) => id in e.tags
       case EnumName(id) => id in e.enums
       case AliasName(id) => id in e.needs
       case Inline(_, fields) => forall f | f in fields :: Known(e, f.ty) && Complete(e, f.ty)
       case _ => true)
    case Pointer(_, to) => Known(e, to)
    case ArrayOf(elem, _) => Known(e, elem)
    case Function(ret, params) => Known(e, ret) && forall p | p in params :: Known(e, p.ty)
  }

  predicate Accepts(e: Env, d: CDecl) {
    match d
    case ForwardTag(_, id) => true
    case EnumDefinition(id) => id !in e.enums
    case RecordDefinition(_, id, fields) =>
      && id !in e.complete
      && forall f | f in fields :: Known(e.(tags := e.tags + {id}), f.ty) && Complete(e, f.ty)
    case TypedefOf(id, ty) =>
      && id !in e.needs
      && Known(e, ty)
      && (ty.ArrayOf? ==> Complete(e, ty))
  }

  function Enter(e: Env, d: CDecl): Env {
    match d
    case ForwardTag(_, id) => e.(tags := e.tags + {id})
    case EnumDefinition(id) => e.(enums := e.enums + {id})
    case RecordDefinition(_, id, _) => e.(tags := e.tags + {id}, complete := e.complete + {id})
    case TypedefOf(id, ty) => e.(needs := e.needs[id := Needs(e, ty)])
  }

  datatype Verdict = Legal(env: Env) | Illegal

  /** Checks the declarations in order, starting from the names in `start`. */
  function Check(start: Env, decls: seq<CDecl>): Verdict {
    if decls == [] then Legal(start)
    else
      match Check(start, decls[..|decls| - 1])
      case Illegal => Illegal
      case Legal(e) =>
        var d := decls[|decls| - 1];
        if Accepts(e, d) then Legal(Enter(e, d)) else Illegal
  }

  lemma CheckMore(start: Env, decls: seq<CDecl>, d: CDecl)
    ensures Check(start, decls + [d]) ==
            match Check(start, decls)
            case Illegal => Illegal
            case Legal(e) => if Accepts(e, d) then Legal(Enter(e, d)) else Illegal
  {
    assert (decls + [d])[..|decls|] == decls;
  }

  lemma NeedsStable(a: Env, b: Env, t: CType)
    requires Grows(a, b) && Known(a, t)
    ensures Needs(b, t) == Needs(a, t)
  {
  }

  lemma KnownGrows(a: Env, b: Env, t: CType)
    requires Grows(a, b) && Known(a, t)
    ensures Known(b, t)
    ensures Complete(a, t) ==> Complete(b, t)
  {
    NeedsStable(a, b, t);
  }

  lemma QualifyKeeps(e: Env, q: Quals, t: CType)
    ensures Known(e, Qualify(q, t)) == Known(e, t)
    ensures Needs(e, Qualify(q, t)) == Needs(e, t)
  {
  }
}
