/** The round trip of whole declarations: the condition under which it holds, exactly, and inputs on
    which it fails. */
module RoundTripExact {
  import opened Btf
  import opened CSyntax
  import opened Meaning
  import opened Declarators
  import opened Walk
  import opened Printer
  import opened Grammar
  import opened Reading
  import opened RoundTrip
  import opened ReadBack
  import opened ReadStuck

  /** A declaration read as this name and type, up to `rest`. */
  ghost predicate Recovers(r: Read<Declared>, name: string, t: CType, rest: Text) {
    r.Got? && r.rest == rest && NameIn(r.value.dtor) == name && TypeIn(r.value) == t
  }

  /** Every type that is printed under a name is read back as that name and that type, up to what
      follows, if and only if it can be written. (Without a name, if no function is on the way to
      its specifiers.) */
  lemma DeclarationExact(c: Base, id: nat, name: string, rest: Text)
    requires Ranked(c) && AllQuiet(c) && Printable(c, id) && Stops(rest, false)
    requires name == "" ==> Calm(c, id)
    ensures var r := ReadDeclared(DeclText(c, id, NameText(name)).text + rest);
            && (Recovers(r, name, CTypeOf(c, id), rest) <==> Writable(c, id))
            && (Recovers(r, name, Heard(c, id), rest) <==> Readable(c, id))
            && (Stuck(r) <==> !Readable(c, id))
  {
    hide CTypeOf, Heard, Writable, Readable, DeclText, ReadDeclared, AllQuiet, Calm;
    if Readable(c, id) {
      HeardIsMeant(c, id);
      DeclarationHeard(c, id, name, rest);
    } else {
      DeclarationHangs(c, id, name, rest);
      if Writable(c, id) {
        WritableIsReadable(c, id);
      }
    }
  }

  lemma DeclarationHangs(c: Base, id: nat, name: string, rest: Text)
    requires Ranked(c) && AllQuiet(c) && Printable(c, id) && !Readable(c, id)
    requires name == "" ==> Calm(c, id)
    ensures Stuck(ReadDeclared(DeclText(c, id, NameText(name)).text + rest))
  {
    hide Readable, DeclText, ReadDeclared, AllQuiet, Calm, Hook, Ends, Jam;
    NamedEnds(name);
    NameHooks(name);
    TypeHangs(c, id, NameText(name), Named(name), false, false, name != "");
  }

  /** A record body is read back as its fields if and only if all their types can be written. If it
      is read otherwise, it is so to its end. */
  lemma BodyExact(c: Base, members: seq<Member>, close: Text)
    requires Ranked(c) && AllQuiet(c) && Quiet(c, members) && AllPrintable(c, MemberTypes(members))
    requires close != [] && close[0] == RBrace
    ensures var r := ReadFields(FieldsText(c, members).text + close);
            && (r.Got? ==> r.rest == close)
            && (r == Got(FieldsOf(c, members), close) <==> AllWritable(c, MemberTypes(members)))
  {
    hide AllQuiet, Quiet, AllPrintable, FieldsOf, HeardFields, FieldsText, ReadFields, Writable, Readable;
    if AllReadable(c, MemberTypes(members)) {
      FieldsAreMeant(c, members);
      BodySays(c, members, close);
    } else {
      BodyStuck(c, members, close);
      if AllWritable(c, MemberTypes(members)) {
        forall i | 0 <= i < |members|
          ensures Readable(c, MemberTypes(members)[i])
        {
          WritableIsReadable(c, members[i].ty);
        }
      }
    }
  }

  /** const applied to int *[4], as a base can have it: the qualifier of an array of pointers. */
  ghost predicate QualifiesArray(c: Base) {
    && |c.g| == 5 == |c.rank|
    && c.g[1] == Scalar(false, "int") && c.g[2] == Ptr(1) && c.g[3] == Array(2, 1, 4) && c.g[4] == Qualified(Const, 3)
    && c.rank[1] < c.rank[2] < c.rank[3] < c.rank[4]
  }

  lemma QualifiesArrayExists() returns (c: Base)
    ensures QualifiesArray(c)
  {
    var g: Graph := [Void, Scalar(false, "int"), Ptr(1), Array(2, 1, 4), Qualified(Const, 3)];
    c := Base(g, map[], [0, 0, 1, 2, 3]);
  }

  /** It is printed before the specifier, and read back as an array of pointers to const int. */
  lemma QualifierMisplaced(c: Base, rest: Text)
    requires QualifiesArray(c) && Stops(rest, false)
    ensures Ranked(c) && Printable(c, 4) && !Writable(c, 4)
    ensures var const_int := Plain({Const}, Keyword("int"));
            Recovers(ReadDeclared(DeclText(c, 4, NameText("x")).text + rest), "x",
                     ArrayOf(Pointer({}, const_int), 4), rest)
    ensures CTypeOf(c, 4) == ArrayOf(Pointer({Const}, Plain({}, Keyword("int"))), 4)
  {
    QualifiesArrayRanked(c);
    QualifiesArrayHeard(c);
    hide DeclText, CTypeOf, Heard, QualsLand, ReadDeclared, Writable, Readable;
    HeardIsMeant(c, 4);
    DeclarationHeard(c, 4, "x", rest);
  }

  lemma QualifiesArrayRanked(c: Base)
    requires QualifiesArray(c)
    ensures Ranked(c) && ChainEnd(c, 4) == 3 && ChainQuals(c, 4) == {Const}
  {
    forall id, to | 0 <= id < |c.g| && 0 <= to < |c.g| && Follows(c, id, to)
      ensures c.rank[to] < c.rank[id]
    {
      assert id in {0, 1, 2, 3, 4};
    }
    assert ChainEnd(c, 3) == 3 && ChainQuals(c, 3) == {};
  }

  lemma QualifiesArrayHeard(c: Base)
    requires QualifiesArray(c) && Ranked(c) && ChainEnd(c, 4) == 3 && ChainQuals(c, 4) == {Const}
    ensures Printable(c, 4) && Readable(c, 4)
    ensures Heard(c, 4) == ArrayOf(Pointer({}, Plain({Const}, Keyword("int"))), 4)
    ensures CTypeOf(c, 4) == ArrayOf(Pointer({Const}, Plain({}, Keyword("int"))), 4)
  {
    var number := Plain({}, Keyword("int"));
    assert Printable(c, 1) && Printable(c, 2) && Printable(c, 3);
    assert Readable(c, 1) && Readable(c, 2) && Readable(c, 3);
    assert LeadingQuals(c.g, 2, 0) == {};
    assert WrittenQuals(c, 4) == {Const} - {} == {Const};
    assert Heard(c, 1) == number == CTypeOf(c, 1) && Heard(c, 2) == Pointer({}, number) == CTypeOf(c, 2);
    assert Heard(c, 3) == ArrayOf(Pointer({}, number), 4) == CTypeOf(c, 3);
    assert {} + {Const} == {Const} == {Const} + {};
    assert AddInner({Const}, number) == Plain({Const}, Keyword("int"));
    assert AddInner({Const}, Pointer({}, number)) == Pointer({}, Plain({Const}, Keyword("int")));
    assert Qualify({Const}, Pointer({}, number)) == Pointer({Const}, number);
  }

  /** A function that returns a pointer to a function: int (*f(void))(void) in C. */
  ghost predicate ReturnsPointer(c: Base) {
    && |c.g| == 5 == |c.rank|
    && c.g[1] == Scalar(false, "int") && c.g[2] == Proto(1, []) && c.g[3] == Ptr(2) && c.g[4] == Proto(3, [])
    && c.rank[1] < c.rank[2] < c.rank[3] < c.rank[4]
  }

  lemma ReturnsPointerExists() returns (c: Base)
    ensures ReturnsPointer(c)
  {
    var g: Graph := [Void, Scalar(false, "int"), Proto(1, []), Ptr(2), Proto(3, [])];
    c := Base(g, map[], [0, 0, 1, 2, 3]);
  }

  /** Its result is printed whole before its name, and the reader gets stuck there. */
  lemma ResultMisplaced(c: Base, rest: Text)
    requires ReturnsPointer(c) && Stops(rest, false)
    ensures Ranked(c) && Printable(c, 4) && !Writable(c, 4)
    ensures Stuck(ReadDeclared(DeclText(c, 4, NameText("f")).text + rest))
  {
    ReturnsPointerRanked(c);
    ReturnsPointerWrites(c);
    hide DeclText, ReadDeclared, Writable, Readable, AllQuiet;
    DeclarationHangs(c, 4, "f", rest);
  }

  lemma ReturnsPointerRanked(c: Base)
    requires ReturnsPointer(c)
    ensures Ranked(c) && AllQuiet(c)
  {
    forall id, to | 0 <= id < |c.g| && 0 <= to < |c.g| && Follows(c, id, to)
      ensures c.rank[to] < c.rank[id]
    {
      assert id in {0, 1, 2, 3, 4};
    }
    forall id | 0 <= id < |c.g|
      ensures !c.g[id].Record?
    {
      assert id in {0, 1, 2, 3, 4};
    }
  }

  lemma ReturnsPointerWrites(c: Base)
    requires ReturnsPointer(c) && Ranked(c)
    ensures Printable(c, 4) && !Readable(c, 4) && !Writable(c, 4)
  {
    assert Printable(c, 1) && Printable(c, 2) && Printable(c, 3);
    assert !PointersOnly(c, 2) && !PointersOnly(c, 3);
  }

  /** A parameter of type void, with a name: int f(int a, void b), as a base can have it. */
  ghost predicate TakesVoid(c: Base) {
    && |c.g| == 3 == |c.rank|
    && c.g[1] == Scalar(false, "int") && c.g[2] == Proto(1, [Param("a", 1), Param("b", 0)])
    && c.rank[0] < c.rank[2] && c.rank[1] < c.rank[2]
  }

  lemma TakesVoidExists() returns (c: Base)
    ensures TakesVoid(c)
  {
    var g: Graph := [Void, Scalar(false, "int"), Proto(1, [Param("a", 1), Param("b", 0)])];
    c := Base(g, map[], [0, 0, 1]);
  }

  /** The name is not printed, and what is read back has none. */
  lemma VoidLosesName(c: Base, rest: Text)
    requires TakesVoid(c) && Stops(rest, false)
    ensures Ranked(c) && Printable(c, 2) && !Writable(c, 2)
    ensures var number, nothing := Plain({}, Keyword("int")), Plain({}, CVoid);
            Recovers(ReadDeclared(DeclText(c, 2, NameText("f")).text + rest), "f",
                     Function(number, [CParam("a", number), CParam("", nothing)]), rest)
    ensures var number, nothing := Plain({}, Keyword("int")), Plain({}, CVoid);
            CTypeOf(c, 2) == Function(number, [CParam("a", number), CParam("b", nothing)])
  {
    TakesVoidRanked(c);
    TakesVoidHeard(c);
    TakesVoidMeant(c);
    hide DeclText, CTypeOf, Heard, ReadDeclared, Writable, Readable;
    HeardIsMeant(c, 2);
    DeclarationHeard(c, 2, "f", rest);
    assert CParam("a", Plain({}, Keyword("int"))) == CParam("a", Plain({}, Keyword("int")));
    var ps := [CParam("a", Plain({}, Keyword("int"))), CParam("", Plain({}, CVoid))];
    assert ps[1].name == "";
  }

  lemma TakesVoidRanked(c: Base)
    requires TakesVoid(c)
    ensures Ranked(c)
  {
    forall id, to | 0 <= id < |c.g| && 0 <= to < |c.g| && Follows(c, id, to)
      ensures c.rank[to] < c.rank[id]
    {
      assert id in {0, 1, 2};
    }
  }

  lemma TakesVoidHeard(c: Base)
    requires TakesVoid(c) && Ranked(c)
    ensures Printable(c, 2) && Readable(c, 2)
    ensures var number, nothing := Plain({}, Keyword("int")), Plain({}, CVoid);
            Heard(c, 2) == Function(number, [CParam("a", number), CParam("", nothing)])
  {
    var params := c.g[2].params;
    assert Printable(c, 0) && Printable(c, 1) && Readable(c, 0) && Readable(c, 1) && PointersOnly(c, 1);
    assert Heard(c, 1) == Plain({}, Keyword("int"));
    assert params[1..] == [Param("b", 0)] && params[1..][1..] == [];
    assert HeardParams(c, params[1..], 1) == [CParam("", NO_TYPE)];
    assert HeardParam(c, params[0], 0) == CParam("a", Plain({}, Keyword("int")));
    assert HeardParams(c, params, 0) == [HeardParam(c, params[0], 0)] + [CParam("", NO_TYPE)];
  }

  lemma TakesVoidMeant(c: Base)
    requires TakesVoid(c) && Ranked(c)
    ensures var number, nothing := Plain({}, Keyword("int")), Plain({}, CVoid);
            CTypeOf(c, 2) == Function(number, [CParam("a", number), CParam("b", nothing)])
  {
    var params := c.g[2].params;
    assert CTypeOf(c, 1) == Plain({}, Keyword("int"));
    assert params[1..] == [Param("b", 0)] && params[1..][1..] == [];
    assert ParamsOf(c, params[1..], 1) == [CParam("b", NO_TYPE)];
  }

  /** A member without a name of type function that returns a function, which C has not. */
  ghost predicate NamelessFunction(c: Base) {
    && |c.g| == 5 == |c.rank|
    && c.g[1] == Scalar(false, "int") && c.g[2] == Proto(1, []) && c.g[3] == Proto(2, [])
    && c.g[4] == Record(false, "", [Member("", 3, 0)]) && 4 !in c.marks
    && c.rank[1] < c.rank[2] < c.rank[3] < c.rank[4]
  }

  lemma NamelessFunctionExists() returns (c: Base)
    ensures NamelessFunction(c)
  {
    var g: Graph := [Void, Scalar(false, "int"), Proto(1, []), Proto(2, []), Record(false, "", [Member("", 3, 0)])];
    c := Base(g, map[], [0, 0, 1, 2, 3]);
  }

  /** Its two empty lists of parameters are the same in either order, so it is read back as meant,
      though no function of its kind can be written: the condition is exact for members that C has. */
  lemma NamelessReads(c: Base, rest: Text)
    requires NamelessFunction(c) && Stops(rest, false)
    ensures Ranked(c) && Printable(c, 4) && !AllQuiet(c) && !Writable(c, 4)
    ensures Recovers(ReadDeclared(DeclText(c, 4, NameText("x")).text + rest), "x", CTypeOf(c, 4), rest)
  {
    NamelessRanked(c);
    NamelessText(c);
    NamelessSays(c);
    var body := FieldsText(c, Body(c, 4)).text;
    forall close
      ensures ReadFields(body + ([RBrace] + close)) == Got(FieldsOf(c, Body(c, 4)), [RBrace] + close)
    {
      NamelessField(c, [RBrace] + close);
    }
    hide FieldsText, FieldsOf, ReadFields, ReadDeclared, Jam, AllQuiet, Writable;
    NameReads("x");
    InlineSays(false, body, FieldsOf(c, Body(c, 4)), NameText("x"), Named("x"), false);
  }

  lemma NamelessRanked(c: Base)
    requires NamelessFunction(c)
    ensures Ranked(c) && Body(c, 4) == [Member("", 3, 0)]
    ensures Printable(c, 3) && Printable(c, 4) && !AllQuiet(c) && !Writable(c, 4)
  {
    assert ShownMembers(c.marks, 4, c.g[4].members, 1) == [];
    assert Body(c, 4) == [Member("", 3, 0)];
    forall id, to | 0 <= id < |c.g| && 0 <= to < |c.g| && Follows(c, id, to)
      ensures c.rank[to] < c.rank[id]
    {
      assert id in {0, 1, 2, 3, 4};
    }
    assert Printable(c, 1) && Printable(c, 2) && Printable(c, 3);
    assert !PointersOnly(c, 2) && !Calm(c, 3) && !Writable(c, 3);
    assert !Quiet(c, Body(c, 4)) by {
      assert Body(c, 4)[0].name == "";
    }
  }

  ghost function NoParams(): Text {
    WithParams([], [VoidWord])
  }

  lemma NamelessText(c: Base)
    requires NamelessFunction(c) && Ranked(c)
    ensures Printable(c, 3)
    ensures DeclText(c, 3, []).text == [BaseWord("int")] + WithParams(NoParams(), [VoidWord])
  {
    var none := NoParams();
    assert DeclText(c, 1, []) == Printed([BaseWord("int")]) by {
      assert [BaseWord("int")] + [] == [BaseWord("int")];
    }
    assert DeclText(c, 2, []) == Printed([BaseWord("int")] + none);
    assert Group(none) == none;
    assert DeclText(c, 3, []).text == [BaseWord("int")] + none + none;
    Assoc([BaseWord("int")], none, none);
    assert none == [LPar] + ([VoidWord] + [RPar]);
  }

  lemma NamelessSays(c: Base)
    requires NamelessFunction(c) && Ranked(c) && Printable(c, 3)
    requires DeclText(c, 3, []).text == [BaseWord("int")] + WithParams(NoParams(), [VoidWord])
    ensures Says(DeclText(c, 3, []).text, Named(""), CTypeOf(c, 3), true)
  {
    var once, twice := Called(Named(""), []), Called(Called(Named(""), []), []);
    var number := Plain({}, Keyword("int"));
    NamelessType(c);
    hide DeclText, Says, Reads, ParamsRead, WithParams, CTypeOf, NamelessFunction, Ranked;
    EmptyList();
    NameReads("");
    CallReads([], Named(""), false, [VoidWord], []);
    CallReads(NoParams(), once, true, [VoidWord], []);
    LeafSays(BaseWord("int"), WithParams(NoParams(), [VoidWord]), twice, true);
    SaysInside(DeclText(c, 3, []).text, twice, number, Named(""), CTypeOf(c, 3), true);
  }

  lemma NamelessType(c: Base)
    requires NamelessFunction(c) && Ranked(c)
    ensures CTypeOf(c, 3) == Function(Function(Plain({}, Keyword("int")), []), [])
  {
    assert CTypeOf(c, 1) == Plain({}, Keyword("int")) && CTypeOf(c, 2) == Function(Plain({}, Keyword("int")), []);
  }

  lemma NamelessField(c: Base, close: Text)
    requires NamelessFunction(c) && Ranked(c) && Printable(c, 3) && Body(c, 4) == [Member("", 3, 0)]
    requires Says(DeclText(c, 3, []).text, Named(""), CTypeOf(c, 3), true) && Next(close, RBrace)
    ensures ReadFields(FieldsText(c, Body(c, 4)).text + close) == Got(FieldsOf(c, Body(c, 4)), close)
  {
    hide DeclText, CTypeOf, ReadDeclared, Jam;
    var text := DeclText(c, 3, []).text;
    assert Body(c, 4)[1..] == [];
    assert FieldsText(c, []) == Printed([]) && FieldsOf(c, []) == [];
    assert FieldsText(c, Body(c, 4)).text == EndField(text, 0) + [];
    assert EndField(text, 0) + [] == EndField(text, 0);
    assert Stops(FieldEnd(0) + close, true);
    FieldReads(text, 0, close);
  }
}
