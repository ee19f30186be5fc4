/** The names of parameters (`emit_params` of src/emitter.c): those given are kept, and those made up
    say the position. */
module ParamNames {
  import opened Btf
  import opened CSyntax
  import opened Meaning
  import opened Numerals
  import opened WalkScope
  import opened Walk
  import opened RoundTrip
  import opened Printer
  import opened Grammar
  import opened ReadBack

  /** `arg` and digits that read as the position, the first of them no zero before others. */
  predicate SaysPosition(name: string, position: nat) {
    && |name| > 3 && name[..3] == "arg"
    && (forall i | 0 <= i < |name[3..]| :: IsDigit(name[3..][i]))
    && ValueFrom(0, name[3..]) == position
    && (|name| > 4 ==> name[3] != '0')
  }

  lemma {:induction false} NoLeadingZero(n: nat)
    ensures n > 0 ==> DigitValue(Decimal(n)[0]) > 0
    ensures |Decimal(n)| > 1 ==> n > 0
  {
    if n >= 10 {
      NoLeadingZero(n / 10);
      assert Decimal(n)[0] == Decimal(n / 10)[0];
    }
  }

  /** A parameter without a name gets one that says its position; a name that was given is kept. */
  lemma NameSaysPosition(name: string, position: nat)
    ensures name == "" ==> SaysPosition(ParamName(name, position), position)
    ensures name != "" ==> ParamName(name, position) == name
  {
    var digits := Decimal(position);
    DecimalReads(position);
    NoLeadingZero(position);
    hide Decimal, ValueFrom;
    assert ("arg" + digits)[3..] == digits && ("arg" + digits)[..3] == "arg" && ("arg" + digits)[3] == digits[0];
  }

  lemma {:induction false} ValueBounds(before: nat, s: string)
    requires forall i | 0 <= i < |s| :: IsDigit(s[i])
    ensures before > 0 ==> ValueFrom(before, s) > 0
    ensures s != "" && s[0] != '0' ==> ValueFrom(before, s) > 0
    decreases |s|
  {
    if s != "" {
      ValueBounds(before * 10 + DigitValue(s[0]), s[1..]);
    }
  }

  /** Without leading zeros a number has one numeral. */
  lemma {:induction false} OneNumeral(s: string)
    requires s != "" && (forall i | 0 <= i < |s| :: IsDigit(s[i])) && (|s| > 1 ==> s[0] != '0')
    ensures s == Decimal(ValueFrom(0, s))
    decreases |s|
  {
    var t, ch := s[..|s| - 1], s[|s| - 1];
    assert s == t + [ch];
    ValueMore(0, t, ch);
    var n := ValueFrom(0, s);
    assert n % 10 == DigitValue(ch) && n / 10 == ValueFrom(0, t);
    if t != "" {
      ValueBounds(0, t);
      OneNumeral(t);
    } else {
      assert ValueFrom(0, t) == 0;
    }
  }

  /** A position is said by one name, and a name says one position. */
  lemma OneName(a: string, b: string, i: nat, j: nat)
    requires SaysPosition(a, i) && SaysPosition(b, j)
    ensures a == b <==> i == j
  {
    OneNumeral(a[3..]);
    OneNumeral(b[3..]);
    assert a == a[..3] + a[3..] && b == b[..3] + b[3..];
  }

  /** The parameter that a list of C parameters has for each of the type's: the same type, and its
      name or one that says its position. */
  ghost predicate NamesParams(c: Base, params: seq<Param>, ps: seq<CParam>)
    requires Ranked(c)
  {
    && |ps| == |params|
    && forall i | 0 <= i < |ps| ::
         && ps[i].ty == CTypeOf(c, params[i].ty)
         && if params[i].name != "" then ps[i].name == params[i].name else SaysPosition(ps[i].name, i)
  }

  lemma PrototypeNames(c: Base, id: nat)
    requires Ranked(c) && 0 < id < |c.g| && c.g[id].Proto?
    ensures var t := CTypeOf(c, id); t.Function? && NamesParams(c, c.g[id].params, t.params)
  {
    var params, ps := c.g[id].params, ParamsOf(c, c.g[id].params, 0);
    hide SaysPosition, ParamName, ParamsOf;
    assert CTypeOf(c, id).params == ps;
    hide CTypeOf, Ranked;
    forall i | 0 <= i < |params|
      ensures ps[i].ty == CTypeOf(c, params[i].ty)
      ensures if params[i].name != "" then ps[i].name == params[i].name else SaysPosition(ps[i].name, i)
    {
      ParamAt(c, params, 0, i);
      NameSaysPosition(params[i].name, i);
    }
  }

  ghost predicate DistinctNames(ps: seq<CParam>) {
    forall i, j | 0 <= i < j < |ps| :: ps[i].name != ps[j].name
  }

  /** No name is given twice, and none says the position of a parameter without a name. */
  ghost predicate GivenApart(params: seq<Param>) {
    && (forall i, j | 0 <= i < j < |params| && params[i].name != "" :: params[i].name != params[j].name)
    && forall i, j | 0 <= i < |params| && 0 <= j < |params| && params[j].name == "" && params[i].name != "" ::
         !SaysPosition(params[i].name, j)
  }

  /** Names that were made up are distinct; all names of a prototype are, exactly if those given are
      apart from each other and from those made up. */
  lemma NamesDistinctExactly(c: Base, params: seq<Param>, ps: seq<CParam>)
    requires Ranked(c) && NamesParams(c, params, ps)
    ensures forall i, j | 0 <= i < j < |ps| && params[i].name == params[j].name == "" :: ps[i].name != ps[j].name
    ensures DistinctNames(ps) <==> GivenApart(params)
  {
    hide CTypeOf, SaysPosition;
    forall i, j | 0 <= i < |ps| && 0 <= j < |ps| && params[j].name == "" && SaysPosition(ps[i].name, j)
      ensures ps[i].name == ps[j].name
    {
      OneName(ps[i].name, ps[j].name, j, j);
    }
    forall i, j | 0 <= i < j < |ps| && params[i].name == params[j].name == ""
      ensures ps[i].name != ps[j].name
    {
      OneName(ps[i].name, ps[j].name, i, j);
    }
  }

  /** A given name can be the one made up for another parameter: (int, int arg0) is printed with arg0
      twice. */
  lemma GivenNameClashes(c: Base, id: nat)
    requires Ranked(c) && 0 < id < |c.g| && c.g[id] == Proto(0, [Param("", 1), Param("arg0", 1)])
    ensures CTypeOf(c, id).Function? && !DistinctNames(CTypeOf(c, id).params)
  {
    var params, ps := c.g[id].params, CTypeOf(c, id).params;
    PrototypeNames(c, id);
    assert SaysPosition("arg0", 0) by {
      assert "arg0"[3..] == "0" && "arg0"[..3] == "arg";
      assert ValueFrom(0, "0") == ValueFrom(0, "") == 0;
    }
    hide CTypeOf, SaysPosition;
    OneName(ps[0].name, "arg0", 0, 0);
    assert ps[0].name == ps[1].name;
  }

  lemma {:induction false} HeardAt(c: Base, params: seq<Param>, from: nat, i: nat)
    requires Ranked(c) && i < |params|
    ensures HeardParams(c, params, from)[i] == HeardParam(c, params[i], from + i)
    decreases i
  {
    hide HeardParam, Top;
    ParamTop(c, params);
    if i > 0 {
      HeardAt(c, params[1..], from + 1, i - 1);
    }
  }

  /** The text of a parameter list reads back with the names that were given, and with the position of
      every other parameter; only a parameter of type void loses its name. */
  lemma ReadNames(c: Base, params: seq<Param>, rest: Text) returns (ps: seq<CParam>)
    requires Ranked(c) && AllReadable(c, ParamTypes(params)) && AllPrintable(c, ParamTypes(params))
    requires forall p | p in params :: p.ty != 0
    ensures ReadParams(ListText(c, params) + ([RPar] + rest)) == Got(ps, [RPar] + rest)
    ensures |ps| == |params| && forall i | 0 <= i < |ps| ::
              if params[i].name != "" then ps[i].name == params[i].name else SaysPosition(ps[i].name, i)
  {
    ps := HeardParams(c, params, 0);
    ListSays(c, params);
    hide AllReadable, AllPrintable, Top, ReadParams, ListText, HeardParams, SaysPosition, ParamName, Ranked, Heard;
    assert HeardList(c, params) == ps by {
      assert |params| == 1 ==> params[0] in params;
    }
    forall i | 0 <= i < |ps|
      ensures if params[i].name != "" then ps[i].name == params[i].name else SaysPosition(ps[i].name, i)
    {
      assert params[i] in params;
      HeardAt(c, params, 0, i);
      NameSaysPosition(params[i].name, i);
    }
  }
}
