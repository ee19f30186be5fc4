/** The text of a header, and what it reads as. */
module HeaderText {
  import opened Btf
  import opened CSyntax
  import opened Meaning
  import opened Walk
  import opened WalkOnce
  import opened Printer
  import opened Grammar
  import opened Reading
  import opened EnumDefinitions
  import opened RoundTrip
  import opened ReadBack
  import opened ReadStuck
  import opened RoundTripExact

  function TextOf(p: Print): Text {
    match p
    case Printed(text) => text
    case Refused => []
  }

  /** The words of one declaration. */
  ghost function Render(c: Base, d: Decl): Text
    requires Ranked(c) && OfKind(c, d)
  {
    match d
    case Forward(id) => [TagWord(c.g[id].isUnion, id), Semi]
    case EnumBody(id) => EnumText(c.g[id], id)
    case RecordBody(id) =>
      [TagWord(c.g[id].isUnion, id), LBrace] + (TextOf(FieldsText(c, Body(c, id))) + [RBrace, Semi])
    case Alias(id) => [TypedefWord] + (TextOf(DeclText(c, c.g[id].to, NameText(c.g[id].alias))) + [Semi])
  }

  ghost function RenderAll(c: Base, ds: seq<Decl>): Text
    requires Ranked(c) && forall d | d in ds :: OfKind(c, d)
  {
    if ds == [] then [] else RenderAll(c, ds[..|ds| - 1]) + Render(c, ds[|ds| - 1])
  }

  lemma RenderMore(c: Base, ds: seq<Decl>, d: Decl)
    requires Ranked(c) && OfKind(c, d) && forall e | e in ds :: OfKind(c, e)
    ensures forall e | e in ds + [d] :: OfKind(c, e)
    ensures RenderAll(c, ds + [d]) == RenderAll(c, ds) + Render(c, d)
  {
    assert (ds + [d])[..|ds|] == ds;
  }

  /** A declaration as written: a typedef by the name it introduces, an enum without a tag by id 0. */
  datatype Statement =
    | TagSaid(isUnion: bool, id: nat)
    | EnumSaid(id: nat, values: seq<(string, int)>)
    | RecordSaid(isUnion: bool, id: nat, fields: seq<Field>)
    | TypedefSaid(name: string, ty: CType)

  /** external-declaration */
  function ReadStatement(ts: Text): (r: Read<Statement>)
    ensures r.Got? ==> |r.rest| < |ts|
  {
    if |ts| < 2 then Fail
    else if ts[0].EnumWord? || ts[0].EnumKeyword? then
      var e := ReadEnum(ts);
      if e.Fail? then Fail else Got(EnumSaid(e.value.0, e.value.1), e.rest)
    else if ts[0].TagWord? && ts[1] == Semi then Got(TagSaid(ts[0].isUnion, ts[0].id), ts[2..])
    else if ts[0].TagWord? && ts[1] == LBrace then
      var fields := ReadFields(ts[2..]);
      if fields.Fail? || |fields.rest| < 2 || fields.rest[0] != RBrace || fields.rest[1] != Semi then Fail
      else Got(RecordSaid(ts[0].isUnion, ts[0].id, fields.value), fields.rest[2..])
    else if ts[0] == TypedefWord then
      var d := ReadDeclared(ts[1..]);
      if d.Fail? || !Next(d.rest, Semi) then Fail
      else Got(TypedefSaid(NameIn(d.value.dtor), TypeIn(d.value)), d.rest[1..])
    else Fail
  }

  /** translation-unit */
  function ReadStatements(ts: Text): Read<seq<Statement>>
    decreases |ts|
  {
    if ts == [] then Got([], [])
    else
      var s := ReadStatement(ts);
      if s.Fail? then Fail
      else
        var more := ReadStatements(s.rest);
        if more.Fail? then Fail else Got([s.value] + more.value, [])
  }

  ghost function Meant(c: Base, d: Decl): Statement
    requires Ranked(c) && OfKind(c, d)
  {
    match d
    case Forward(id) => TagSaid(c.g[id].isUnion, id)
    case EnumBody(id) => EnumSaid(if c.g[id].tag != "" then id else 0, NamesAndValues(c.g[id], 0))
    case RecordBody(id) => RecordSaid(c.g[id].isUnion, id, FieldsOf(c, Body(c, id)))
    case Alias(id) => TypedefSaid(c.g[id].alias, CTypeOf(c, c.g[id].to))
  }

  /** The printer knows all kinds in the declaration. */
  ghost predicate Prints(c: Base, d: Decl)
    requires Ranked(c) && OfKind(c, d)
  {
    match d
    case RecordBody(id) => AllPrintable(c, MemberTypes(Body(c, id)))
    case Alias(id) => Printable(c, c.g[id].to)
    case _ => true
  }

  /** Everything in the declaration can be written. */
  ghost predicate Spelled(c: Base, d: Decl)
    requires Ranked(c) && OfKind(c, d)
  {
    match d
    case RecordBody(id) => AllWritable(c, MemberTypes(Body(c, id)))
    case Alias(id) => Writable(c, c.g[id].to)
    case EnumBody(id) => c.g[id].values != [] && forall e | e in c.g[id].values :: Sayable(c.g[id], e)
    case _ => true
  }

  /** A statement reads as what was meant if and only if all of it can be written. If it is read
      otherwise, it is so to its end. */
  lemma StatementExact(c: Base, d: Decl, rest: Text)
    requires Ranked(c) && AllQuiet(c) && OfKind(c, d) && Prints(c, d)
    ensures var r := ReadStatement(Render(c, d) + rest);
            && (r.Got? ==> r.rest == rest)
            && (r == Got(Meant(c, d), rest) <==> Spelled(c, d))
  {
    match d
    case Forward(id) =>
      assert (Render(c, d) + rest)[2..] == rest;
    case EnumBody(id) =>
      hide ReadEnum, NamesAndValues, Sayable;
      EnumStatement(c.g[id], id, rest);
    case RecordBody(id) =>
      hide AllQuiet, ReadFields, FieldsText, AllWritable, FieldsOf, AllPrintable;
      RecordExact(c, id, rest);
    case Alias(id) =>
      hide AllQuiet, ReadDeclared, DeclText, Writable, CTypeOf, Printable;
      AliasExact(c, id, rest);
  }

  lemma EnumStatement(t: Type, id: nat, rest: Text)
    requires t.Enum?
    ensures var r := ReadStatement(EnumText(t, id) + rest);
            && (r.Got? ==> r.rest == rest)
            && (r == Got(EnumSaid(if t.tag != "" then id else 0, NamesAndValues(t, 0)), rest) <==>
                  t.values != [] && forall e | e in t.values :: Sayable(t, e))
  {
    EnumExact(t, id, rest);
    assert EnumText(t, id)[0] == EnumHead(t, id)[0];
    hide ReadEnum, EnumeratorsText, NamesAndValues, Sayable;
  }

  lemma RecordExact(c: Base, id: nat, rest: Text)
    requires Ranked(c) && AllQuiet(c) && OfKind(c, RecordBody(id)) && Prints(c, RecordBody(id))
    ensures var r := ReadStatement(Render(c, RecordBody(id)) + rest);
            && (r.Got? ==> r.rest == rest)
            && (r == Got(Meant(c, RecordBody(id)), rest) <==> Spelled(c, RecordBody(id)))
  {
    hide ReadFields, FieldsOf, FieldsText, AllWritable, AllPrintable, Quiet;
    var body := FieldsText(c, Body(c, id)).text;
    var head := [TagWord(c.g[id].isUnion, id), LBrace];
    var close := [RBrace, Semi] + rest;
    Assoc(body, [RBrace, Semi], rest);
    Assoc(head, body + [RBrace, Semi], rest);
    assert (head + (body + close))[2..] == body + close;
    assert close[2..] == rest;
    BodyExact(c, Body(c, id), close);
  }

  lemma AliasExact(c: Base, id: nat, rest: Text)
    requires Ranked(c) && AllQuiet(c) && OfKind(c, Alias(id)) && Prints(c, Alias(id))
    ensures var r := ReadStatement(Render(c, Alias(id)) + rest);
            && (r.Got? ==> r.rest == rest)
            && (r == Got(Meant(c, Alias(id)), rest) <==> Spelled(c, Alias(id)))
  {
    hide ReadFields, ReadDeclared, CTypeOf, NameText, DeclText, Writable, Readable, AllQuiet, Printable, Heard;
    var name := c.g[id].alias;
    var text := DeclText(c, c.g[id].to, NameText(name)).text;
    var close := [Semi] + rest;
    Assoc(text, [Semi], rest);
    Assoc([TypedefWord], text + [Semi], rest);
    assert ([TypedefWord] + (text + close))[1..] == text + close;
    assert close[1..] == rest;
    DeclarationExact(c, c.g[id].to, name, close);
  }

  ghost function MeantAll(c: Base, ds: seq<Decl>): (said: seq<Statement>)
    requires Ranked(c) && forall d | d in ds :: OfKind(c, d)
    ensures |said| == |ds|
  {
    if ds == [] then [] else MeantAll(c, ds[..|ds| - 1]) + [Meant(c, ds[|ds| - 1])]
  }

  /** The text of a header reads, to the end, as the declarations it was printed for if and only if
      all of them can be written. */
  lemma HeaderReads(c: Base, ds: seq<Decl>)
    requires Ranked(c) && AllQuiet(c) && forall d | d in ds :: OfKind(c, d) && Prints(c, d)
    ensures ReadStatements(RenderAll(c, ds)) == Got(MeantAll(c, ds), []) <==> forall d | d in ds :: Spelled(c, d)
  {
    hide AllQuiet, Prints, Spelled, Meant, Render;
    StatementsRead(c, ds, []);
    assert RenderAll(c, ds) + [] == RenderAll(c, ds);
    assert MeantAll(c, ds) + [] == MeantAll(c, ds);
  }

  /** Two readings, one after the other. */
  function Joined(before: seq<Statement>, after: Read<seq<Statement>>): Read<seq<Statement>> {
    if after.Fail? then Fail else Got(before + after.value, after.rest)
  }

  /** What the rest of a text reads as comes after what was meant, or does not come to that: the
      reader fails, or reads something else in the place of what was meant. */
  lemma {:induction false} StatementsRead(c: Base, ds: seq<Decl>, rest: Text)
    requires Ranked(c) && AllQuiet(c) && forall d | d in ds :: OfKind(c, d) && Prints(c, d)
    ensures var r := ReadStatements(RenderAll(c, ds) + rest);
            if forall d | d in ds :: Spelled(c, d) then r == Joined(MeantAll(c, ds), ReadStatements(rest))
            else r.Got? ==> !(MeantAll(c, ds) <= r.value)
    decreases |ds|
  {
    hide Render, Meant, Spelled, ReadStatement, AllQuiet, Prints;
    if ds == [] {
      assert RenderAll(c, ds) + rest == rest;
      if ReadStatements(rest).Got? {
        assert [] + ReadStatements(rest).value == ReadStatements(rest).value;
      }
    } else {
      var before, last := ds[..|ds| - 1], ds[|ds| - 1];
      var ts := Render(c, last) + rest;
      assert forall d :: d in ds <==> d in before || d == last;
      StatementExact(c, last, rest);
      StatementsRead(c, before, ts);
      Assoc(RenderAll(c, before), Render(c, last), rest);
      LastRead(c, before, last, rest);
    }
  }

  lemma LastRead(c: Base, before: seq<Decl>, last: Decl, rest: Text)
    requires Ranked(c) && OfKind(c, last) && forall d | d in before :: OfKind(c, d)
    requires var r := ReadStatement(Render(c, last) + rest);
             (r.Got? ==> r.rest == rest) && (r == Got(Meant(c, last), rest) <==> Spelled(c, last))
    ensures var r := Joined(MeantAll(c, before), ReadStatements(Render(c, last) + rest));
            if Spelled(c, last) then r == Joined(MeantAll(c, before) + [Meant(c, last)], ReadStatements(rest))
            else r.Got? ==> !(MeantAll(c, before) + [Meant(c, last)] <= r.value)
  {
    hide Render, Meant, Spelled, ReadStatement, OfKind;
    var all := MeantAll(c, before);
    var ts := Render(c, last) + rest;
    var r := ReadStatement(ts);
    if r.Got? && ReadStatements(rest).Got? {
      var more := ReadStatements(rest).value;
      assert all + ([r.value] + more) == (all + [r.value]) + more;
      assert (all + ([r.value] + more))[|all|] == r.value;
      assert (all + [Meant(c, last)])[|all|] == Meant(c, last);
    }
  }
}
