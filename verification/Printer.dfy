/** The declarator printer (`emit_decl_ex` and its helpers, src/emitter.c): C declarations are
    written inside out, the text of the declarator so far being wrapped by each type on the way
    to the specifier. */
module Printer {
  import opened Btf
  import opened CSyntax
  import opened Meaning
  import opened Declarators
  import opened Walk

  datatype Token =
    | Star | LPar | RPar | LBrk | RBrk | LBrace | RBrace | Comma | Semi | Colon
    | Number(n: nat)
    | QualWord(q: Qual)
    | VoidWord
    | BaseWord(spelling: string)
    | TagWord(isUnion: bool, id: nat)
    | EnumWord(id: nat)
    | AliasWord(id: nat)
    | RecordWord(isUnion: bool)
    | TypedefWord
    | Ident(name: string)
    | EnumKeyword
    | Assign
    | Constant(value: int, ull: bool)

  type Text = seq<Token>

  function NameText(name: string): Text {
    if name == "" then [] else [Ident(name)]
  }

  function QualWordIf(quals: Quals, q: Qual): Text {
    if q in quals then [QualWord(q)] else []
  }

  /** The words of a set of qualifiers, always in the same order. */
  function QualText(quals: Quals): Text {
    QualWordIf(quals, Const) + QualWordIf(quals, Volatile) + QualWordIf(quals, Restrict)
  }

  /** A declarator so far: the words of the buffer, and its length in bytes. */
  datatype Declarator = Declarator(words: Text, bytes: nat)

  /** What the buffer's limit asks about it. */
  function SizeOf(d: Declarator): Size {
    Size(d.bytes, StartsWithStar(d.words))
  }

  predicate StartsWithStar(d: Text) {
    d != [] && d[0] == Star
  }

  /** Parentheses around a pointer declarator that a suffix follows. */
  function Group(d: Text): Text {
    if StartsWithStar(d) then [LPar] + d + [RPar] else d
  }

  /** A declarator followed by a parameter list. */
  function WithParams(d: Text, list: Text): Text {
    Group(d) + ([LPar] + (list + [RPar]))
  }

  /** A record body between its keyword and a declarator. */
  function Braced(isUnion: bool, body: Text, d: Text): Text {
    [RecordWord(isUnion), LBrace] + (body + ([RBrace] + d))
  }

  datatype Print = Printed(text: Text) | Refused

  function Then(before: Text, p: Print): Print {
    if p.Printed? then Printed(before + p.text) else Refused
  }

  /** `emit_decl_ex`. */
  ghost function DeclText(c: Base, id: nat, d: Text): (p: Print)
    requires Ranked(c)
    ensures p.Printed? <==> Printable(c, id)
    decreases Height(c, id), 1, 0
  {
    if id == 0 then Printed([VoidWord] + d)
    else if id >= |c.g| then Refused
    else
      match c.g[id]
      case Scalar(_, spelling) => Printed([BaseWord(spelling)] + d)
      case Ptr(to) => DeclText(c, to, [Star] + d)
      case Array(elem, _, n) => DeclText(c, elem, Group(d) + [LBrk, Number(n), RBrk])
      case Qualified(_, _) => QualifiedText(c, id, d)
      case Tag(_, to) => DeclText(c, to, d)
      case Typedef(alias, to) => if alias == "" then DeclText(c, to, d) else Printed([AliasWord(id)] + d)
      case Record(isUnion, tag, _) =>
        if tag != "" then Printed([TagWord(isUnion, id)] + d)
        else InlineText(c, id, d)
      case Fwd(isUnion, _) => Printed([TagWord(isUnion, id)] + d)
      case Enum(wide, tag, _, _, _) =>
        if tag != "" then Printed([EnumWord(id)] + d)
        else Printed([BaseWord(if wide then "unsigned long long" else "int")] + d)
      case Proto(_, _) => FunctionText(c, id, d)
      case _ => Refused
  }

  /** `emit_inline_record`. */
  ghost function InlineText(c: Base, id: nat, d: Text): (p: Print)
    requires Ranked(c) && 0 < id < |c.g| && c.g[id].Record? && c.g[id].tag == ""
    ensures p.Printed? <==> Printable(c, id)
    decreases Height(c, id), 0, 0
  {
    assert forall m | m in Body(c, id) :: Follows(c, id, m.ty);
    var fields := FieldsText(c, Body(c, id));
    if fields.Refused? then Refused else Printed(Braced(c.g[id].isUnion, fields.text, d))
  }

  /** `emit_func_decl`. */
  ghost function FunctionText(c: Base, id: nat, d: Text): (p: Print)
    requires Ranked(c) && 0 < id < |c.g| && c.g[id].Proto?
    ensures p.Printed? <==> Printable(c, id)
    decreases Height(c, id), 0, 0
  {
    var params := c.g[id].params;
    assert forall p | p in params :: Follows(c, id, p.ty);
    var result := DeclText(c, c.g[id].ret, []);
    var list := if params == [] then Printed([VoidWord]) else ParamsText(c, params, 0);
    if result.Refused? || list.Refused? then Refused else Printed(result.text + WithParams(d, list.text))
  }

  /** `emit_qualified_decl`. */
  ghost function QualifiedText(c: Base, id: nat, d: Text): (p: Print)
    requires Ranked(c) && id < |c.g| && c.g[id].Qualified?
    ensures p.Printed? <==> Printable(c, id)
    decreases Height(c, id), 0, 0
  {
    var end := ChainEnd(c, id);
    ChainPrintable(c, id);
    if end >= |c.g| then Refused
    else if c.g[end].Ptr? then DeclText(c, c.g[end].to, [Star] + QualText(WrittenQuals(c, id)) + d)
    else Then(QualText(WrittenQuals(c, id)), DeclText(c, end, d))
  }

  lemma ChainPrintable(c: Base, id: nat)
    requires Ranked(c)
    ensures Printable(c, id) <==> Printable(c, ChainEnd(c, id))
    decreases Height(c, id)
  {
    if id < |c.g| && c.g[id].Qualified? {
      ChainPrintable(c, c.g[id].to);
    }
  }

  /** A member's declaration with its bit-field width. */
  function EndField(text: Text, bits: nat): Text {
    text + (if bits != 0 then [Colon, Number(bits), Semi] else [Semi])
  }

  /** The members of a printed body (`emit_record_body`). */
  ghost function FieldsText(c: Base, members: seq<Member>): (p: Print)
    requires Ranked(c)
    ensures p.Printed? <==> AllPrintable(c, MemberTypes(members))
    decreases Top(c, MemberTypes(members)), 2, |members|
  {
    if members == [] then Printed([])
    else
      var m := members[0];
      MemberTop(c, members);
      AllPrintableNext(c, MemberTypes(members));
      var first := DeclText(c, m.ty, NameText(m.name));
      var rest := FieldsText(c, members[1..]);
      if first.Refused? || rest.Refused? then Refused
      else Printed(EndField(first.text, m.bits) + rest.text)
  }

  /** The parameters of a prototype (`emit_params`), `from` being the position of the first. */
  ghost function ParamsText(c: Base, params: seq<Param>, from: nat): (p: Print)
    requires Ranked(c)
    ensures p.Printed? <==> AllPrintable(c, ParamTypes(params))
    decreases Top(c, ParamTypes(params)), 2, |params|
  {
    if params == [] then Printed([])
    else
      var q := params[0];
      ParamTop(c, params);
      AllPrintableNext(c, ParamTypes(params));
      var first := if q.ty == 0 then Printed([VoidWord]) else DeclText(c, q.ty, [Ident(ParamName(q.name, from))]);
      var rest := ParamsText(c, params[1..], from + 1);
      if first.Refused? || rest.Refused? then Refused
      else Printed((if from > 0 then [Comma] else []) + (first.text + rest.text))
  }

  /** Text that is refused if a buffer would not hold it. */
  ghost function Within(p: Print, fits: bool): Print {
    if fits then p else Refused
  }

  /** Writing `p` after `before` leaves `after`, or fails because `p` is refused. */
  ghost predicate Wrote(before: Text, p: Print, after: Text, ok: bool) {
    if ok then p.Printed? && after == before + p.text else p.Refused?
  }

  function Both(p: Print, q: Print): Print {
    if p.Refused? then Refused else Then(p.text, q)
  }

  lemma BothWritten(before: Text, p: Print, q: Print)
    ensures Then(before, Both(p, q)) == if p.Refused? then Refused else Then(before + p.text, q)
  {
    if p.Printed? && q.Printed? {
      assert before + (p.text + q.text) == (before + p.text) + q.text;
    }
  }

  ghost function MemberText(c: Base, m: Member): Print
    requires Ranked(c)
  {
    var d := DeclText(c, m.ty, NameText(m.name));
    if d.Refused? then Refused else Printed(EndField(d.text, m.bits))
  }

  lemma FieldsTextNext(c: Base, members: seq<Member>)
    requires Ranked(c) && members != []
    ensures FieldsText(c, members) == Both(MemberText(c, members[0]), FieldsText(c, members[1..]))
    ensures Height(c, members[0].ty) <= Top(c, MemberTypes(members))
    ensures Top(c, MemberTypes(members[1..])) <= Top(c, MemberTypes(members))
  {
    MemberTop(c, members);
  }

  ghost function ParamText(c: Base, p: Param, position: nat): Print
    requires Ranked(c)
  {
    Then(if position > 0 then [Comma] else [],
         if p.ty == 0 then Printed([VoidWord]) else DeclText(c, p.ty, [Ident(ParamName(p.name, position))]))
  }

  lemma BothAfter(before: Text, p: Print, rest: Print)
    ensures Both(Then(before, p), rest) ==
            if p.Refused? || rest.Refused? then Refused else Printed(before + (p.text + rest.text))
  {
    if p.Printed? && rest.Printed? {
      assert before + (p.text + rest.text) == (before + p.text) + rest.text;
    }
  }

  lemma ParamsTextNext(c: Base, params: seq<Param>, from: nat)
    requires Ranked(c) && params != []
    ensures ParamsText(c, params, from) == Both(ParamText(c, params[0], from), ParamsText(c, params[1..], from + 1))
    ensures Height(c, params[0].ty) <= Top(c, ParamTypes(params))
    ensures Top(c, ParamTypes(params[1..])) <= Top(c, ParamTypes(params))
  {
    hide DeclText, Then, Both, AllPrintable, Printable, Top, Height, ParamName;
    ParamTop(c, params);
    var rest := ParamsText(c, params[1..], from + 1);
    var q := params[0];
    var p := if q.ty == 0 then Printed([VoidWord]) else DeclText(c, q.ty, [Ident(ParamName(q.name, from))]);
    BothAfter(if from > 0 then [Comma] else [], p, rest);
  }
}
