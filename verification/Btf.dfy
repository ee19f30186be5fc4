/** The BTF type graph: one type per id, id 0 standing for void. */
module Btf {

  datatype Qual = Const | Volatile | Restrict

  datatype Member = Member(name: string, ty: nat, bits: nat)
  datatype Param = Param(name: string, ty: nat)
  datatype Enumerator = Enumerator(name: string, bits: nat)

  datatype Type =
    | Void
    | Scalar(isFloat: bool, spelling: string)
    | Ptr(to: nat)
    | Array(elem: nat, index: nat, nelems: nat)
    | Record(isUnion: bool, tag: string, members: seq<Member>)
    | Fwd(isUnion: bool, tag: string)
    | Enum(wide: bool, tag: string, size: nat, signed: bool, values: seq<Enumerator>)
    | Typedef(alias: string, to: nat)
    | Qualified(qual: Qual, to: nat)
    | Tag(onDecl: bool, to: nat)
    | Proto(ret: nat, params: seq<Param>)
    | Func(fname: string, to: nat)
    | Var(vname: string, to: nat)
    | DataSec(secname: string, vars: seq<nat>)

  datatype Kind =
    | KVoid | KInt | KFloat | KPtr | KArray | KStruct | KUnion | KFwd | KEnum | KEnum64
    | KTypedef | KConst | KVolatile | KRestrict | KTypeTag | KDeclTag | KProto | KFunc | KVar | KDataSec

  function KindOf(t: Type): Kind {
    match t
    case Void => KVoid
    case Scalar(isFloat, _) => if isFloat then KFloat else KInt
    case Ptr(_) => KPtr
    case Array(_, _, _) => KArray
    case Record(isUnion, _, _) => if isUnion then KUnion else KStruct
    case Fwd(_, _) => KFwd
    case Enum(wide, _, _, _, _) => if wide then KEnum64 else KEnum
    case Typedef(_, _) => KTypedef
    case Qualified(q, _) => if q == Const then KConst else if q == Volatile then KVolatile else KRestrict
    case Tag(onDecl, _) => if onDecl then KDeclTag else KTypeTag
    case Proto(_, _) => KProto
    case Func(_, _) => KFunc
    case Var(_, _) => KVar
    case DataSec(_, _) => KDataSec
  }

  function NameOf(t: Type): string {
    match t
    case Scalar(_, spelling) => spelling
    case Record(_, tag, _) => tag
    case Fwd(_, tag) => tag
    case Enum(_, tag, _, _, _) => tag
    case Typedef(alias, _) => alias
    case Func(fname, _) => fname
    case Var(vname, _) => vname
    case DataSec(secname, _) => secname
    case _ => ""
  }

  type Graph = g: seq<Type> | |g| > 0 && g[0] == Void witness [Void]

  /** The record members an object needs; a record that is not a key shows all of its members. */
  type Marks = map<nat, set<nat>>

  predicate Marked(marks: Marks, id: nat, member: nat) {
    id in marks && member in marks[id]
  }

  predicate Shown(marks: Marks, id: nat, member: nat) {
    id !in marks || member in marks[id]
  }

  /** The shown members from the `from`th on, in order. */
  function ShownMembers(marks: Marks, id: nat, members: seq<Member>, from: nat): (shown: seq<Member>)
    requires from <= |members|
    ensures forall m :: m in shown <==>
              exists i :: from <= i < |members| && Shown(marks, id, i) && members[i] == m
    decreases |members| - from
  {
    if from == |members| then []
    else if Shown(marks, id, from) then [members[from]] + ShownMembers(marks, id, members, from + 1)
    else ShownMembers(marks, id, members, from + 1)
  }

  ghost predicate Ascends(at: seq<nat>) {
    forall k, l | 0 <= k < l < |at| :: at[k] < at[l]
  }

  lemma AscendsBehind(first: nat, at: seq<nat>)
    requires Ascends(at) && forall i | i in at :: first < i
    ensures Ascends([first] + at) && forall i :: i in [first] + at <==> i == first || i in at
  {
    assert forall k | 0 <= k < |at| :: at[k] in at;
  }

  /** The shown members stand at the indexes that are shown, in ascending order. */
  lemma {:induction false} ShownAscend(marks: Marks, id: nat, members: seq<Member>, from: nat) returns (at: seq<nat>)
    requires from <= |members|
    ensures Ascends(at) && forall i :: i in at <==> from <= i < |members| && Shown(marks, id, i)
    ensures var shown := ShownMembers(marks, id, members, from);
            |at| == |shown| && forall k | 0 <= k < |at| :: at[k] < |members| && shown[k] == members[at[k]]
    decreases |members| - from
  {
    hide Ascends, Shown;
    if from == |members| {
      at := [];
      AscendsNone();
    } else {
      at := ShownAscend(marks, id, members, from + 1);
      if Shown(marks, id, from) {
        AscendsBehind(from, at);
        at := [from] + at;
      }
    }
  }

  lemma AscendsNone()
    ensures Ascends([])
  {
  }

  predicate NamedRecord(t: Type) {
    t.Record? && t.tag != ""
  }

  predicate NamedTypedef(t: Type) {
    t.Typedef? && t.alias != ""
  }
}
