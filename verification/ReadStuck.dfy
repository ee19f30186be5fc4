/** The types whose text the reader does not get through: a function whose result is more than
    specifiers behind pointers is written as that result, whole, and then the function's own
    declarator, in which no reader can find the name. */
module ReadStuck {
  import opened Btf
  import opened CSyntax
  import opened Meaning
  import opened Declarators
  import opened Walk
  import opened Printer
  import opened Grammar
  import opened Reading
  import opened RoundTrip
  import opened ReadBack

  /** No function on the way to the specifiers. */
  ghost predicate Calm(c: Base, id: nat)
    requires Ranked(c)
    decreases Height(c, id)
  {
    0 < id < |c.g| ==>
      match c.g[id]
      case Ptr(to) => Calm(c, to)
      case Array(elem, _, _) => Calm(c, elem)
      case Qualified(_, to) => Calm(c, to)
      case Tag(_, to) => Calm(c, to)
      case Typedef(alias, to) => alias == "" ==> Calm(c, to)
      case Proto(_, _) => false
      case _ => true
  }

  lemma ChainCalm(c: Base, id: nat)
    requires Ranked(c)
    ensures Calm(c, ChainEnd(c, id)) == Calm(c, id)
    decreases Height(c, id)
  {
    if 0 < id < |c.g| && c.g[id].Qualified? {
      ChainCalm(c, c.g[id].to);
    }
  }

  /** No member without a name is or has a function on the way to its specifiers. */
  ghost predicate Quiet(c: Base, members: seq<Member>)
    requires Ranked(c)
  {
    forall i | 0 <= i < |members| :: members[i].name == "" ==> Calm(c, members[i].ty)
  }

  /** That is so in all records, as C demands. */
  ghost predicate AllQuiet(c: Base)
    requires Ranked(c)
  {
    forall id | 0 <= id < |c.g| && c.g[id].Record? :: Quiet(c, Body(c, id))
  }

  lemma QuietNext(c: Base, members: seq<Member>)
    requires Ranked(c) && members != [] && Quiet(c, members)
    ensures members[0].name == "" ==> Calm(c, members[0].ty)
    ensures Quiet(c, members[1..])
  {
    hide Calm;
  }

  /** A declarator in which the reader gets stuck. */
  ghost predicate Hangs(d: Text) {
    && d != [] && Unqualified(d)
    && forall rest :: Stuck(ReadDtor(d + rest))
  }

  /** After a complete declarator, this one brings the reader to a halt: by itself, or with what follows. */
  ghost predicate Hook(d: Text, sure: bool) {
    forall z | sure || Jam(z) :: Jam(Group(d) + z)
  }

  /** A text in which the reader gets stuck: by itself, or with what follows. */
  ghost predicate Hung(text: Text, sure: bool) {
    && text != []
    && forall z | sure || Jam(z) :: Stuck(ReadDeclared(text + z))
  }

  lemma NameJams(name: string, rest: Text)
    ensures Jam([Ident(name)] + rest)
  {
    var z := [Ident(name)] + rest;
    forall dt
      ensures Stuck(ReadSuffixes(dt, z))
    {
      assert ReadSuffixes(dt, z) == Got(dt, z);
    }
  }

  lemma NameHooks(name: string)
    ensures Hook(NameText(name), name != "")
  {
    hide Jam;
    if name == "" {
      forall z
        ensures Group(NameText(name)) + z == z
      {
      }
    } else {
      forall z
        ensures Jam(Group(NameText(name)) + z)
      {
        NameJams(name, z);
      }
    }
  }

  /** A parenthesis with a star is no parameter list. */
  lemma StarJams(d: Text, rest: Text)
    requires StartsWithStar(d)
    ensures Jam(Group(d) + rest)
  {
    var z := Group(d) + rest;
    assert z[0] == LPar && z[1..] != [] && z[1..][0] == Star;
    NoSpecs(z[1..]);
    forall dt
      ensures Stuck(ReadSuffixes(dt, z))
    {
      hide ReadParams;
      assert ReadSuffixes(dt, z).Fail?;
    }
  }

  lemma NoSpecs(ts: Text)
    requires ts != [] && ts[0] == Star
    ensures ReadParams(ts).Fail?
  {
    assert ReadQuals(ts) == Got({}, ts);
    assert ReadSpecs(ts).Fail?;
    assert ReadDeclared(ts).Fail?;
  }

  lemma StarHooks(d: Text)
    requires StartsWithStar(d)
    ensures Hook(d, true)
  {
    hide Jam;
    forall z
      ensures Jam(Group(d) + z)
    {
      StarJams(d, z);
    }
  }

  lemma IndexJams(n: nat, z: Text)
    requires Jam(z)
    ensures Jam([LBrk, Number(n), RBrk] + z)
  {
    var ts := [LBrk, Number(n), RBrk] + z;
    assert ts[3..] == z;
    forall dt
      ensures Stuck(ReadSuffixes(dt, ts))
    {
      assert ReadSuffixes(dt, ts) == ReadSuffixes(Indexed(dt, n), z);
    }
  }

  lemma IndexHooks(d: Text, n: nat, sure: bool)
    requires Hook(d, sure)
    ensures Hook(Group(d) + [LBrk, Number(n), RBrk], sure)
  {
    hide Jam;
    var suffix := [LBrk, Number(n), RBrk];
    assert Group(Group(d) + suffix) == Group(d) + suffix;
    forall z | sure || Jam(z)
      ensures Jam(Group(d) + suffix + z)
    {
      if Jam(z) {
        IndexJams(n, z);
      }
      Assoc(Group(d), suffix, z);
    }
  }

  /** A list of words that the reader gets stuck in. */
  ghost predicate ListHangs(list: Text) {
    && list != [] && Opens(list[0])
    && forall rest :: Stuck(ReadParams(list + ([RPar] + rest)))
  }

  lemma ListJams(list: Text, z: Text, sure: bool)
    requires if sure then ListHangs(list) else Jam(z) && exists ps :: ParamsRead(list, ps)
    ensures Jam([LPar] + (list + [RPar]) + z)
  {
    var ts := [LPar] + (list + [RPar]) + z;
    var close := [RPar] + z;
    assert ts[1..] == list + close;
    assert close[1..] == z;
    hide ReadParams;
    if sure {
      forall dt
        ensures Stuck(ReadSuffixes(dt, ts))
      {
        assert Stuck(ReadParams(list + close));
      }
    } else {
      var ps :| ParamsRead(list, ps);
      forall dt
        ensures Stuck(ReadSuffixes(dt, ts))
      {
        assert ReadSuffixes(dt, ts) == ReadSuffixes(Called(dt, ps), z);
      }
    }
  }

  /** The parameters are read, or the reader gets stuck in them. */
  ghost predicate ListEnds(list: Text, ps: seq<CParam>, bad: bool) {
    if bad then ListHangs(list) else ParamsRead(list, ps)
  }

  lemma CallHooks(d: Text, list: Text, ps: seq<CParam>, bad: bool, sure: bool)
    requires Hook(d, sure) && ListEnds(list, ps, bad)
    ensures Hook(WithParams(d, list), sure || bad)
  {
    hide Jam, ParamsRead, ListHangs;
    var suffix := [LPar] + (list + [RPar]);
    assert Group(WithParams(d, list)) == WithParams(d, list);
    forall z | sure || bad || Jam(z)
      ensures Jam(WithParams(d, list) + z)
    {
      if bad || Jam(z) {
        ListJams(list, z, bad);
      }
      Assoc(Group(d), suffix, z);
    }
  }

  lemma StarHangs(q: Quals, d: Text)
    requires Hangs(d)
    ensures Hangs([Star] + QualText(q) + d)
  {
    hide QualText, ReadDtor;
    forall rest
      ensures Stuck(ReadDtor([Star] + QualText(q) + d + rest))
    {
      StarRead(q, d, rest);
    }
  }

  /** Whatever is put after it. */
  lemma GroupHangs(d: Text, suffix: Text)
    requires Hangs(d)
    ensures Hangs(Group(d) + suffix)
  {
    hide ReadSuffixes;
    forall rest
      ensures Stuck(ReadDtor(Group(d) + suffix + rest))
    {
      Assoc(Group(d), suffix, rest);
      GroupStuck(d, suffix + rest);
    }
  }

  lemma GroupStuck(d: Text, rest: Text)
    requires Hangs(d)
    ensures Stuck(ReadDtor(Group(d) + rest))
  {
    hide ReadSuffixes, ReadQuals;
    if StartsWithStar(d) {
      var ts := Group(d) + rest;
      var close := [RPar] + rest;
      assert ts[0] == LPar && ts[1] == Star;
      assert ts[1..] == d + close;
      NoGroup(ts, d + close);
    }
  }

  /** A parenthesis that is not closed where the reader comes to. */
  lemma NoGroup(ts: Text, inner: Text)
    requires OpensGroup(ts) && ts[1..] == inner && Stuck(ReadDtor(inner))
    ensures ReadDtor(ts).Fail?
  {
    hide ReadDtor, ReadSuffixes;
    assert ReadDirect(ts).Fail?;
    DirectAlone(ts);
  }

  lemma DirectAlone(ts: Text)
    requires !Next(ts, Star)
    ensures ReadDtor(ts) == ReadDirect(ts)
  {
    hide ReadDirect;
  }

  /** A list that the reader gets stuck in makes a declarator that it gets stuck in. */
  lemma BadListHangs(d: Text, dt: Dtor, wide: bool, list: Text)
    requires Reads(d, dt, wide) && ListHangs(list)
    ensures Hangs(WithParams(d, list))
  {
    hide Reads;
    GroupReads(d, dt, wide);
    CallStarts(d, list);
    hide ReadSuffixes, ReadDirect, Jam;
    forall rest
      ensures Stuck(ReadDtor(WithParams(d, list) + rest))
    {
      var tail := [LPar] + (list + [RPar]) + rest;
      Assoc(Group(d), [LPar] + (list + [RPar]), rest);
      assert Follow(Group(d), tail);
      assert ReadDirect(Group(d) + tail) == ReadSuffixes(dt, tail);
      ListJams(list, rest, true);
      JamStuck(dt, tail);
    }
  }

  lemma JamStuck(dt: Dtor, z: Text)
    requires Jam(z)
    ensures Stuck(ReadSuffixes(dt, z))
  {
  }

  /** A declarator that reads as `dt`, or that the reader gets stuck in. */
  ghost predicate Ends(d: Text, dt: Dtor, wide: bool, bad: bool) {
    if bad then Hangs(d) else Reads(d, dt, wide)
  }

  lemma StarEnds(q: Quals, d: Text, dt: Dtor, wide: bool, bad: bool)
    requires Ends(d, dt, wide, bad)
    ensures Ends([Star] + QualText(q) + d, Deref(q, dt), wide, bad) && Hook([Star] + QualText(q) + d, true)
  {
    hide Hangs, Reads, QualText;
    if bad {
      StarHangs(q, d);
    } else {
      PointerReads(q, d, dt, wide);
    }
    StarHooks([Star] + QualText(q) + d);
  }

  lemma IndexEnds(d: Text, dt: Dtor, wide: bool, bad: bool, n: nat)
    requires Ends(d, dt, wide, bad)
    ensures Ends(Group(d) + [LBrk, Number(n), RBrk], Indexed(dt, n), true, bad)
  {
    hide Hangs, Reads;
    if bad {
      GroupHangs(d, [LBrk, Number(n), RBrk]);
    } else {
      ArrayReads(d, dt, wide, n);
    }
  }

  lemma CallEnds(d: Text, dt: Dtor, wide: bool, bad: bool, list: Text, ps: seq<CParam>, badList: bool)
    requires Ends(d, dt, wide, bad) && ListEnds(list, ps, badList)
    ensures Ends(WithParams(d, list), Called(dt, ps), true, bad || badList)
  {
    hide Hangs, Reads, ParamsRead, ListHangs;
    if bad {
      GroupHangs(d, [LPar] + (list + [RPar]));
    } else if badList {
      BadListHangs(d, dt, wide, list);
    } else {
      CallReads(d, dt, wide, list, ps);
    }
  }

  /** Specifiers are no help against a declarator that the reader gets stuck in. */
  lemma SpecsHang(text: Text, s: Specs, d: Text)
    requires text != [] && Hangs(d) && forall rest :: ReadSpecs(text + rest) == Got(s, d + rest)
    ensures Hung(text, true)
  {
    hide ReadDtor, ReadSpecs;
  }

  lemma LeafHangs(word: Token, d: Text)
    requires Hangs(d) && OneWord(word)
    ensures Hung([word] + d, true)
  {
    hide ReadSpecs, SpecFor, Hangs, Hung;
    WordsSpecs(word, d);
    SpecsHang([word] + d, Specs({}, SpecFor(word)), d);
  }

  lemma QualifiedHangs(w: Quals, text: Text, sure: bool)
    requires Hung(text, sure)
    ensures Hung(QualText(w) + text, sure)
  {
    hide ReadDeclared, QualText, Jam;
    forall z | sure || Jam(z)
      ensures Stuck(ReadDeclared(QualText(w) + text + z))
    {
      Assoc(QualText(w), text, z);
      QualifiedReads(w, text + z);
    }
  }

  /** The reader gets stuck in a record body. */
  ghost predicate BodyHangs(body: Text) {
    forall rest :: ReadFields(body + ([RBrace] + rest)).Fail?
  }

  lemma BadBodyHangs(isUnion: bool, body: Text, d: Text)
    requires BodyHangs(body)
    ensures Hung(Braced(isUnion, body, d), true)
  {
    hide ReadFields, ReadSpecs;
    forall z
      ensures Stuck(ReadDeclared(Braced(isUnion, body, d) + z))
    {
      BracedText(isUnion, body, d, z);
      BracedSpecs(isUnion, body, d + z);
    }
  }

  lemma BodyThenHangs(isUnion: bool, body: Text, fields: seq<Field>, d: Text)
    requires Hangs(d) && BodyReads(body, fields)
    ensures Hung(Braced(isUnion, body, d), true)
  {
    hide ReadSpecs, Hangs, Hung, BodyReads;
    InlineSpecs(isUnion, body, fields, d);
    SpecsHang(Braced(isUnion, body, d), Specs({}, Inline(isUnion, fields)), d);
  }

  /** A result that is complete by itself, and then the declarator of the function. */
  lemma ResultHangs(result: Text, d: Text, sure: bool)
    requires Hung(result, false) && Hook(d, sure) && !StartsWithStar(d)
    ensures Hung(result + d, sure)
  {
    hide ReadDeclared, Jam;
    forall z | sure || Jam(z)
      ensures Stuck(ReadDeclared(result + d + z))
    {
      Assoc(result, d, z);
      assert Jam(Group(d) + z);
    }
  }

  lemma SaysHangs(text: Text, dt: Dtor, t: CType)
    requires Says(text, dt, t, true)
    ensures Hung(text, false)
  {
    hide ReadDeclared, Jam;
  }

  lemma HungMore(text: Text, sure: bool, less: bool)
    requires Hung(text, sure) && (less ==> sure)
    ensures Hung(text, less)
  {
    hide ReadDeclared, Jam;
  }

  /** A type with a function in it that cannot be read, or a declarator that cannot: the reader gets
      stuck in the text. */
  lemma {:induction false} TypeHangs(c: Base, id: nat, d: Text, dt: Dtor, wide: bool, bad: bool, sure: bool)
    requires Ranked(c) && AllQuiet(c) && Printable(c, id)
    requires Ends(d, dt, wide, bad) && Hook(d, sure) && (bad ==> sure) && (bad || !Readable(c, id))
    ensures Hung(DeclText(c, id, d).text, sure || Calm(c, id))
    decreases Height(c, id), 1, 0
  {
    hide AllQuiet, Hook, Hung, Ends, Hangs, Reads;
    if id == 0 {
      EndsBadly(d, dt, wide);
      LeafHangs(VoidWord, d);
      return;
    }
    match c.g[id]
    case Ptr(to) =>
      StarEnds({}, d, dt, wide, bad);
      assert [Star] + QualText({}) + d == [Star] + d;
      TypeHangs(c, to, [Star] + d, Deref({}, dt), wide, bad, true);
      HungMore(DeclText(c, id, d).text, true, sure || Calm(c, id));
    case Array(elem, _, n) =>
      IndexEnds(d, dt, wide, bad, n);
      IndexHooks(d, n, sure);
      TypeHangs(c, elem, Group(d) + [LBrk, Number(n), RBrk], Indexed(dt, n), true, bad, sure);
    case Qualified(_, _) => QualifiedTypeHangs(c, id, d, dt, wide, bad, sure);
    case Tag(_, to) => TypeHangs(c, to, d, dt, wide, bad, sure);
    case Proto(_, _) => FunctionHangs(c, id, d, dt, wide, bad, sure);
    case Typedef(alias, to) =>
      if alias == "" {
        TypeHangs(c, to, d, dt, wide, bad, sure);
      } else {
        SpecifierHangs(c, id, d, dt, wide, bad);
      }
    case Scalar(_, _) => SpecifierHangs(c, id, d, dt, wide, bad);
    case Record(_, _, _) => SpecifierHangs(c, id, d, dt, wide, bad);
    case Fwd(_, _) => SpecifierHangs(c, id, d, dt, wide, bad);
    case Enum(_, _, _, _, _) => SpecifierHangs(c, id, d, dt, wide, bad);
    case _ =>
  }

  lemma EndsBadly(d: Text, dt: Dtor, wide: bool)
    requires Ends(d, dt, wide, true)
    ensures Hangs(d)
  {
  }

  lemma {:induction false} SpecifierHangs(c: Base, id: nat, d: Text, dt: Dtor, wide: bool, bad: bool)
    requires Ranked(c) && AllQuiet(c) && Printable(c, id) && 0 < id < |c.g|
    requires c.g[id].Scalar? || c.g[id].Record? || c.g[id].Fwd? || c.g[id].Enum? || NamedTypedef(c.g[id])
    requires Ends(d, dt, wide, bad) && (bad || !Readable(c, id))
    ensures Hung(DeclText(c, id, d).text, true)
    decreases Height(c, id), 0, 1
  {
    hide AllQuiet, Hung, Ends, Hangs, Braced;
    if c.g[id].Record? && c.g[id].tag == "" {
      AnonymousHangs(c, id, d, dt, wide, bad);
      return;
    }
    EndsBadly(d, dt, wide);
    match c.g[id]
    case Scalar(_, spelling) => LeafHangs(BaseWord(spelling), d);
    case Typedef(_, _) => LeafHangs(AliasWord(id), d);
    case Record(isUnion, _, _) => LeafHangs(TagWord(isUnion, id), d);
    case Fwd(isUnion, _) => LeafHangs(TagWord(isUnion, id), d);
    case Enum(is64, tag, _, _, _) =>
      LeafHangs(if tag != "" then EnumWord(id) else BaseWord(if is64 then "unsigned long long" else "int"), d);
  }

  lemma {:induction false} AnonymousHangs(c: Base, id: nat, d: Text, dt: Dtor, wide: bool, bad: bool)
    requires Ranked(c) && AllQuiet(c) && Printable(c, id) && 0 < id < |c.g|
    requires c.g[id].Record? && c.g[id].tag == ""
    requires Ends(d, dt, wide, bad) && (bad || !Readable(c, id))
    ensures Hung(DeclText(c, id, d).text, true)
    decreases Height(c, id), 0, 0
  {
    var members := Body(c, id);
    AnonymousParts(c, id, d);
    var body := FieldsText(c, members).text;
    hide Hung, Ends, Hangs, Braced, BodyReads, BodyHangs, Quiet, Readable, AllReadable, AllPrintable, DeclText, Top;
    if AllReadable(c, MemberTypes(members)) {
      EndsBadly(d, dt, wide);
      FieldsSay(c, members);
      BodyThenHangs(c.g[id].isUnion, body, HeardFields(c, members), d);
    } else {
      FieldsHang(c, members);
      BadBodyHangs(c.g[id].isUnion, body, d);
    }
  }

  lemma AnonymousParts(c: Base, id: nat, d: Text)
    requires Ranked(c) && AllQuiet(c) && Printable(c, id) && 0 < id < |c.g| && c.g[id].Record? && c.g[id].tag == ""
    ensures var members := Body(c, id);
            && Quiet(c, members) && AllPrintable(c, MemberTypes(members))
            && (Readable(c, id) <==> AllReadable(c, MemberTypes(members)))
            && Top(c, MemberTypes(members)) < Height(c, id)
            && DeclText(c, id, d).text == Braced(c.g[id].isUnion, FieldsText(c, members).text, d)
  {
    hide Braced, Quiet;
    var members := Body(c, id);
    assert forall m | m in members :: Follows(c, id, m.ty);
    if AllReadable(c, MemberTypes(members)) {
      forall i | 0 <= i < |members|
        ensures Readable(c, members[i].ty)
      {
        assert MemberTypes(members)[i] == members[i].ty;
      }
    }
  }

  lemma {:induction false} QualifiedTypeHangs(c: Base, id: nat, d: Text, dt: Dtor, wide: bool, bad: bool, sure: bool)
    requires Ranked(c) && AllQuiet(c) && Printable(c, id) && 0 < id < |c.g| && c.g[id].Qualified?
    requires Ends(d, dt, wide, bad) && Hook(d, sure) && (bad ==> sure) && (bad || !Readable(c, id))
    ensures Hung(DeclText(c, id, d).text, sure || Calm(c, id))
    decreases Height(c, id), 0, 0
  {
    hide AllQuiet, Hook, Hung, Ends;
    ChainCalm(c, id);
    ChainReadable(c, id);
    ChainPrintable(c, id);
    var end := ChainEnd(c, id);
    var w := WrittenQuals(c, id);
    if c.g[end].Ptr? {
      assert Follows(c, end, c.g[end].to);
      StarEnds(w, d, dt, wide, bad);
      var starred := [Star] + QualText(w) + d;
      TypeHangs(c, c.g[end].to, starred, Deref(w, dt), wide, bad, true);
      assert DeclText(c, id, d) == DeclText(c, c.g[end].to, starred);
      HungMore(DeclText(c, id, d).text, true, sure || Calm(c, id));
    } else {
      TypeHangs(c, end, d, dt, wide, bad, sure);
      QualifiedHangs(w, DeclText(c, end, d).text, sure || Calm(c, end));
    }
  }

  lemma UnreadableFunction(c: Base, id: nat)
    requires Ranked(c) && 0 < id < |c.g| && c.g[id].Proto?
    ensures var ret := c.g[id].ret;
            Readable(c, id) <==> PointersOnly(c, ret) && Readable(c, ret) && AllReadable(c, ParamTypes(c.g[id].params))
    ensures !Calm(c, id)
  {
    var params := c.g[id].params;
    if AllReadable(c, ParamTypes(params)) {
      forall i | 0 <= i < |params|
        ensures Readable(c, params[i].ty)
      {
        assert ParamTypes(params)[i] == params[i].ty;
      }
    }
  }

  /** A declarator with the parameter list of a function. */
  lemma {:induction false} CallIs(c: Base, params: seq<Param>, d: Text, dt: Dtor, wide: bool, bad: bool, sure: bool)
    requires Ranked(c) && AllQuiet(c) && AllPrintable(c, ParamTypes(params))
    requires Ends(d, dt, wide, bad) && Hook(d, sure)
    ensures var list, badList := ListText(c, params), !AllReadable(c, ParamTypes(params));
            && Ends(WithParams(d, list), Called(dt, HeardList(c, params)), true, bad || badList)
            && Hook(WithParams(d, list), sure || badList)
    decreases Top(c, ParamTypes(params)), 6, |params|
  {
    hide AllQuiet, Hook, Ends, AllReadable, ListEnds, WithParams, ListText, HeardList;
    var list, badList := ListText(c, params), !AllReadable(c, ParamTypes(params));
    ListIs(c, params);
    CallEnds(d, dt, wide, bad, list, HeardList(c, params), badList);
    CallHooks(d, list, HeardList(c, params), badList, sure);
  }

  lemma {:induction false} FunctionHangs(c: Base, id: nat, d: Text, dt: Dtor, wide: bool, bad: bool, sure: bool)
    requires Ranked(c) && AllQuiet(c) && Printable(c, id) && 0 < id < |c.g| && c.g[id].Proto?
    requires Ends(d, dt, wide, bad) && Hook(d, sure) && (bad ==> sure) && (bad || !Readable(c, id))
    ensures Hung(DeclText(c, id, d).text, sure || Calm(c, id))
    decreases Height(c, id), 0, 1
  {
    hide AllQuiet, Hook, Hung, Ends, Calm, Readable, AllReadable, PointersOnly, WithParams, ListText, HeardList;
    hide DeclText;
    var ret, params := c.g[id].ret, c.g[id].params;
    PrintableList(c, id);
    UnreadableFunction(c, id);
    var badList := !AllReadable(c, ParamTypes(params));
    var after := WithParams(d, ListText(c, params));
    CallIs(c, params, d, dt, wide, bad, sure);
    if PointersOnly(c, ret) {
      ResultText(c, id, d);
      TypeHangs(c, ret, after, Called(dt, HeardList(c, params)), true, bad || badList, sure || badList);
      HungMore(DeclText(c, id, d).text, sure || badList || Calm(c, ret), sure);
    } else {
      WholeResultHangs(c, ret);
      WholeText(c, id, d);
      NotStarred(d, ListText(c, params));
      ResultHangs(DeclText(c, ret, []).text, after, sure || badList);
      HungMore(DeclText(c, id, d).text, sure || badList, sure);
    }
  }

  lemma NotStarred(d: Text, list: Text)
    ensures !StartsWithStar(WithParams(d, list))
  {
  }

  lemma WholeText(c: Base, id: nat, d: Text)
    requires Ranked(c) && Printable(c, id) && 0 < id < |c.g| && c.g[id].Proto?
    ensures Printable(c, c.g[id].ret) && AllPrintable(c, ParamTypes(c.g[id].params))
    ensures DeclText(c, id, d).text == DeclText(c, c.g[id].ret, []).text + WithParams(d, ListText(c, c.g[id].params))
  {
    hide WithParams;
    PrintableList(c, id);
  }

  lemma {:induction false} WholeResultHangs(c: Base, ret: nat)
    requires Ranked(c) && AllQuiet(c) && Printable(c, ret) && !PointersOnly(c, ret)
    ensures Hung(DeclText(c, ret, []).text, false)
    decreases Height(c, ret), 2, 0
  {
    hide AllQuiet, Hook, Hung, Ends, Calm, Readable, DeclText, Says, Reads;
    var text := DeclText(c, ret, []).text;
    NameReads("");
    if Readable(c, ret) {
      TypeSays(c, ret, [], Named(""), false);
      SaysHangs(text, Named(""), Heard(c, ret));
    } else {
      NameHooks("");
      NamelessEnds();
      TypeHangs(c, ret, [], Named(""), false, false, false);
      HungMore(text, Calm(c, ret), false);
    }
  }

  lemma NamelessEnds()
    ensures Ends([], Named(""), false, false)
  {
    NameReads("");
  }

  lemma NamedEnds(name: string)
    ensures Ends(NameText(name), Named(name), false, false)
  {
    NameReads(name);
  }

  /** Every declaration begins with a word for its specifiers. */
  lemma {:induction false} TextOpens(c: Base, id: nat, d: Text)
    requires Ranked(c) && Printable(c, id)
    ensures DeclText(c, id, d).text != [] && Opens(DeclText(c, id, d).text[0])
    decreases Height(c, id)
  {
    if 0 < id < |c.g| {
      match c.g[id]
      case Ptr(to) => TextOpens(c, to, [Star] + d);
      case Array(elem, _, n) => TextOpens(c, elem, Group(d) + [LBrk, Number(n), RBrk]);
      case Qualified(_, _) =>
        var end := ChainEnd(c, id);
        ChainPrintable(c, id);
        if c.g[end].Ptr? {
          assert Follows(c, end, c.g[end].to);
          TextOpens(c, c.g[end].to, [Star] + QualText(WrittenQuals(c, id)) + d);
        } else {
          TextOpens(c, end, d);
          QualsOpen(WrittenQuals(c, id), DeclText(c, end, d).text);
        }
      case Tag(_, to) => TextOpens(c, to, d);
      case Typedef(alias, to) =>
        if alias == "" {
          TextOpens(c, to, d);
        }
      case Proto(ret, _) =>
        WholeText(c, id, d);
        TextOpens(c, ret, []);
      case _ =>
    }
  }

  /** The list of a function with a parameter that cannot be read. */
  lemma {:induction false} ListIs(c: Base, params: seq<Param>)
    requires Ranked(c) && AllQuiet(c) && AllPrintable(c, ParamTypes(params))
    ensures ListEnds(ListText(c, params), HeardList(c, params), !AllReadable(c, ParamTypes(params)))
    decreases Top(c, ParamTypes(params)), 5, |params|
  {
    hide AllQuiet, ParamsRead, AllReadable, AllPrintable, Top, ReadParams;
    if AllReadable(c, ParamTypes(params)) {
      ListSays(c, params);
    } else {
      NoneReadable(c, params);
      forall rest
        ensures Stuck(ReadParams(ListText(c, params) + ([RPar] + rest)))
      {
        ParamsHang(c, params, 0, rest);
      }
      ParamsHang(c, params, 0, []);
    }
  }

  lemma NoneReadable(c: Base, params: seq<Param>)
    requires Ranked(c) && !AllReadable(c, ParamTypes(params))
    ensures params != []
  {
  }

  lemma {:induction false} ParamsHang(c: Base, params: seq<Param>, from: nat, rest: Text)
    requires Ranked(c) && AllQuiet(c) && AllPrintable(c, ParamTypes(params))
    requires params != [] && !AllReadable(c, ParamTypes(params))
    ensures SomeText(c, params, from) != [] && Opens(SomeText(c, params, from)[0])
    ensures var ts := SomeText(c, params, from) + ([RPar] + rest); Stuck(ReadParams(ts)) && Stuck(ReadParamList(ts))
    decreases Top(c, ParamTypes(params)), 4, |params|
  {
    hide AllQuiet, ReadDeclared, ReadParams, Heard, HeardParam, Readable, Printable, AllReadable, AllPrintable, Top;
    hide SomeText;
    hide FirstText, ReadParamList;
    ParamTop(c, params);
    AllReadableNext(c, ParamTypes(params));
    AllPrintableNext(c, ParamTypes(params));
    var close := [RPar] + rest;
    var later := Later(c, params[1..], from + 1, close);
    SomeTextNext(c, params, from, close);
    FirstStarts(c, params, from);
    ListStep(FirstText(c, params[0], from) + later);
    if Readable(c, params[0].ty) {
      NoneReadable(c, params[1..]);
      ParamSays(c, params[0], from, later);
      ParamsHang(c, params[1..], from + 1, rest);
      assert later[1..] == SomeText(c, params[1..], from + 1) + close;
    } else {
      ParamHangs(c, params[0], from, later);
    }
  }

  /** One parameter that cannot be read. */
  lemma {:induction false} ParamHangs(c: Base, p: Param, position: nat, after: Text)
    requires Ranked(c) && AllQuiet(c) && Printable(c, p.ty) && !Readable(c, p.ty)
    ensures FirstText(c, p, position) != [] && Opens(FirstText(c, p, position)[0])
    ensures Stuck(ReadDeclared(FirstText(c, p, position) + after))
    ensures Stuck(ReadParams(FirstText(c, p, position) + after))
    decreases Height(c, p.ty), 3, 0
  {
    var name := ParamName(p.name, position);
    var ts := FirstText(c, p, position) + after;
    assert p.ty != 0;
    hide DeclText, AllQuiet, Readable, Ends, Hook, Calm, ParamName, Jam, ReadDeclared;
    TextOpens(c, p.ty, [Ident(name)]);
    NamedEnds(name);
    NameHooks(name);
    TypeHangs(c, p.ty, NameText(name), Named(name), false, false, true);
    assert Stuck(ReadDeclared(ts));
    if |ts| > 1 && ts[0] == VoidWord && ts[1] == RPar {
      VoidAlone(ts);
    }
  }

  lemma {:induction false} FieldsHang(c: Base, members: seq<Member>)
    requires Ranked(c) && AllQuiet(c) && Quiet(c, members)
    requires AllPrintable(c, MemberTypes(members)) && !AllReadable(c, MemberTypes(members))
    ensures BodyHangs(FieldsText(c, members).text)
    decreases Top(c, MemberTypes(members)), 5, |members|
  {
    forall rest
      ensures ReadFields(FieldsText(c, members).text + ([RBrace] + rest)).Fail?
    {
      BodyStuck(c, members, [RBrace] + rest);
    }
  }

  /** A body with a member that cannot be read is not read. */
  lemma {:induction false} BodyStuck(c: Base, members: seq<Member>, close: Text)
    requires Ranked(c) && AllQuiet(c) && Quiet(c, members)
    requires AllPrintable(c, MemberTypes(members)) && !AllReadable(c, MemberTypes(members))
    ensures ReadFields(FieldsText(c, members).text + close).Fail?
    decreases Top(c, MemberTypes(members)), 4, |members|
  {
    hide AllQuiet, Quiet, Heard, DeclText, ReadDeclared, ReadFields, Readable, Printable, AllReadable, AllPrintable;
    hide Top, EndField;
    NoFieldReadable(c, members);
    var m := members[0];
    MemberTop(c, members);
    QuietNext(c, members);
    AllReadableNext(c, MemberTypes(members));
    AllPrintableNext(c, MemberTypes(members));
    var later := FieldsText(c, members[1..]).text;
    Assoc(FieldText(c, m), later, close);
    if Readable(c, m.ty) {
      BodyStuck(c, members[1..], close);
      FieldSays(c, m, later + close);
    } else {
      FieldHangs(c, m, later + close);
    }
  }

  lemma NoFieldReadable(c: Base, members: seq<Member>)
    requires Ranked(c) && !AllReadable(c, MemberTypes(members))
    ensures members != []
  {
  }

  lemma {:induction false} FieldHangs(c: Base, m: Member, rest: Text)
    requires Ranked(c) && AllQuiet(c) && Printable(c, m.ty) && !Readable(c, m.ty) && (m.name == "" ==> Calm(c, m.ty))
    ensures ReadFields(FieldText(c, m) + rest).Fail?
    decreases Height(c, m.ty), 3, 0
  {
    hide DeclText, AllQuiet, Readable, Ends, Hook, Calm, Jam, ReadDeclared;
    var text := DeclText(c, m.ty, NameText(m.name)).text;
    TextOpens(c, m.ty, NameText(m.name));
    NamedEnds(m.name);
    NameHooks(m.name);
    TypeHangs(c, m.ty, NameText(m.name), Named(m.name), false, false, m.name != "");
    Assoc(text, FieldEnd(m.bits), rest);
    assert Stuck(ReadDeclared(text + (FieldEnd(m.bits) + rest)));
    assert (text + (FieldEnd(m.bits) + rest))[0] == text[0];
  }
}
