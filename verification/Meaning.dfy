/** What a BTF type says in C, for graphs whose recursion goes through named records only. */
module Meaning {
  import opened Btf
  import opened CSyntax
  import opened Numerals

  /** A base graph, the members it shows, and a rank that bounds the emitter's recursion. */
  datatype Base = Base(g: Graph, marks: Marks, rank: seq<nat>)

  /** The ids the emitter goes on to from a type, the body of a named record aside. */
  ghost predicate Follows(c: Base, id: nat, to: nat)
    requires id < |c.g|
  {
    match c.g[id]
    case Ptr(target) => to == target
    case Array(elem, _, _) => to == elem
    case Record(_, tag, members) => tag == "" && exists m :: m in ShownMembers(c.marks, id, members, 0) && m.ty == to
    case Typedef(_, target) => to == target
    case Qualified(_, target) => to == target
    case Tag(_, target) => to == target
    case Proto(ret, params) => to == ret || exists p :: p in params && p.ty == to
    case _ => false
  }

  /** The rank drops along every such edge: recursion goes through named records. */
  ghost predicate Ranked(c: Base) {
    && |c.rank| == |c.g|
    && forall id, to | 0 <= id < |c.g| && 0 <= to < |c.g| && Follows(c, id, to) :: c.rank[to] < c.rank[id]
  }

  ghost function Height(c: Base, id: nat): nat {
    if id < |c.rank| then c.rank[id] + 1 else 0
  }

  ghost function Top(c: Base, ids: seq<nat>): (top: nat)
    ensures forall id :: id in ids ==> Height(c, id) <= top
    ensures top == 0 || exists id :: id in ids && top == Height(c, id)
  {
    if ids == [] then 0
    else
      var rest := Top(c, ids[1..]);
      if Height(c, ids[0]) > rest then Height(c, ids[0]) else rest
  }

  function MemberTypes(members: seq<Member>): (ids: seq<nat>)
    ensures |ids| == |members|
    ensures forall i :: 0 <= i < |ids| ==> ids[i] == members[i].ty
  {
    seq(|members|, i requires 0 <= i < |members| => members[i].ty)
  }

  function ParamTypes(params: seq<Param>): (ids: seq<nat>)
    ensures |ids| == |params|
    ensures forall i :: 0 <= i < |ids| ==> ids[i] == params[i].ty
  {
    seq(|params|, i requires 0 <= i < |params| => params[i].ty)
  }

  lemma MemberTop(c: Base, members: seq<Member>)
    requires members != []
    ensures Height(c, members[0].ty) <= Top(c, MemberTypes(members))
    ensures MemberTypes(members[1..]) == MemberTypes(members)[1..]
    ensures Top(c, MemberTypes(members[1..])) <= Top(c, MemberTypes(members))
  {
    assert members[0].ty == MemberTypes(members)[0];
    assert MemberTypes(members[1..]) == MemberTypes(members)[1..];
  }

  lemma ParamTop(c: Base, params: seq<Param>)
    requires params != []
    ensures Height(c, params[0].ty) <= Top(c, ParamTypes(params))
    ensures ParamTypes(params[1..]) == ParamTypes(params)[1..]
    ensures Top(c, ParamTypes(params[1..])) <= Top(c, ParamTypes(params))
  {
    assert params[0].ty == ParamTypes(params)[0];
    assert ParamTypes(params[1..]) == ParamTypes(params)[1..];
  }

  /** The members of a record that its printed body has. */
  function Body(c: Base, id: nat): seq<Member>
    requires id < |c.g| && c.g[id].Record?
  {
    ShownMembers(c.marks, id, c.g[id].members, 0)
  }

  const NO_TYPE := Plain({}, CVoid)

  ghost function CTypeOf(c: Base, id: nat): CType
    requires Ranked(c)
    decreases Height(c, id), 1, 0
  {
    if id == 0 || id >= |c.g| then NO_TYPE
    else
      match c.g[id]
      case Scalar(_, spelling) => Plain({}, Keyword(spelling))
      case Ptr(to) => Pointer({}, CTypeOf(c, to))
      case Array(elem, _, n) => ArrayOf(CTypeOf(c, elem), n)
      case Record(isUnion, tag, _) =>
        if tag != "" then Plain({}, TagName(isUnion, id))
        else
          assert forall m | m in Body(c, id) :: Follows(c, id, m.ty);
          Plain({}, Inline(isUnion, FieldsOf(c, Body(c, id))))
      case Fwd(isUnion, _) => Plain({}, TagName(isUnion, id))
      case Enum(wide, tag, _, _, _) =>
        if tag != "" then Plain({}, EnumName(id))
        else Plain({}, Keyword(if wide then "unsigned long long" else "int"))
      case Typedef(alias, to) => if alias != "" then Plain({}, AliasName(id)) else CTypeOf(c, to)
      case Qualified(q, to) => Qualify({q}, CTypeOf(c, to))
      case Tag(_, to) => CTypeOf(c, to)
      case Proto(ret, params) =>
        assert forall p | p in params :: Follows(c, id, p.ty);
        Function(CTypeOf(c, ret), ParamsOf(c, params, 0))
      case _ => NO_TYPE
  }

  ghost function FieldsOf(c: Base, members: seq<Member>): (fields: seq<Field>)
    requires Ranked(c)
    ensures |fields| == |members|
    decreases Top(c, MemberTypes(members)), 2, |members|
  {
    if members == [] then []
    else
      MemberTop(c, members);
      [Field(members[0].name, CTypeOf(c, members[0].ty), members[0].bits)] + FieldsOf(c, members[1..])
  }

  ghost function ParamsOf(c: Base, params: seq<Param>, from: nat): (ps: seq<CParam>)
    requires Ranked(c)
    ensures |ps| == |params|
    decreases Top(c, ParamTypes(params)), 2, |params|
  {
    if params == [] then []
    else
      ParamTop(c, params);
      [CParam(ParamName(params[0].name, from), CTypeOf(c, params[0].ty))] + ParamsOf(c, params[1..], from + 1)
  }

  /** A parameter without a name is given the fallback name of its position. */
  function ParamName(name: string, position: nat): (s: string)
    ensures s != ""
  {
    if name == "" then "arg" + Decimal(position) else name
  }
}
