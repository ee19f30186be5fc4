/**
 A recursive-descent reader of C declarations (sections 6.7.2, 6.7.6 and 6.7.7 of ISO/IEC
 9899:2018), written without reference to the printer: specifiers first, then a declarator
 read from its name outwards.
 */
module Grammar {
  import opened Btf
  import opened CSyntax
  import opened Printer

  datatype Dtor =
    | Named(name: string)
    | Deref(quals: Quals, inner: Dtor)
    | Indexed(inner: Dtor, n: nat)
    | Called(inner: Dtor, params: seq<CParam>)

  /** The type a declarator gives its name, from the type its specifiers give. */
  function Apply(d: Dtor, t: CType): CType {
    match d
    case Named(_) => t
    case Deref(quals, inner) => Apply(inner, Pointer(quals, t))
    case Indexed(inner, n) => Apply(inner, ArrayOf(t, n))
    case Called(inner, params) => Apply(inner, Function(t, params))
  }

  function NameIn(d: Dtor): string {
    match d
    case Named(name) => name
    case Deref(_, inner) => NameIn(inner)
    case Indexed(inner, _) => NameIn(inner)
    case Called(inner, _) => NameIn(inner)
  }

  /** A reading and what follows it, or nothing. */
  datatype Read<T> = Got(value: T, rest: Text) | Fail

  datatype Specs = Specs(quals: Quals, spec: Spec)
  datatype Declared = Declared(specs: Specs, dtor: Dtor)

  function TypeIn(d: Declared): CType {
    Apply(d.dtor, Plain(d.specs.quals, d.specs.spec))
  }

  predicate Next(ts: Text, t: Token) {
    ts != [] && ts[0] == t
  }

  function ReadQuals(ts: Text): (r: Read<Quals>)
    ensures r.Got? && |r.rest| <= |ts|
  {
    if ts != [] && ts[0].QualWord? then
      var r := ReadQuals(ts[1..]);
      Got({ts[0].q} + r.value, r.rest)
    else Got({}, ts)
  }

  /** A type specifier of one word. */
  predicate OneWord(t: Token) {
    t.VoidWord? || t.BaseWord? || t.TagWord? || t.EnumWord? || t.AliasWord?
  }

  function SpecFor(t: Token): Spec
    requires OneWord(t)
  {
    match t
    case VoidWord => CVoid
    case BaseWord(spelling) => Keyword(spelling)
    case TagWord(isUnion, id) => TagName(isUnion, id)
    case EnumWord(id) => EnumName(id)
    case AliasWord(id) => AliasName(id)
  }

  /** declaration-specifiers: qualifiers, then one type specifier */
  function ReadSpecs(ts: Text): (r: Read<Specs>)
    ensures r.Got? ==> |r.rest| < |ts|
    decreases |ts|, 3
  {
    var q := ReadQuals(ts);
    if q.rest == [] then Fail
    else
      var word := q.rest[0];
      var rest := q.rest[1..];
      if OneWord(word) then Got(Specs(q.value, SpecFor(word)), rest)
      else if word.RecordWord? && Next(rest, LBrace) then
        var fields := ReadFields(rest[1..]);
        if fields.Fail? || !Next(fields.rest, RBrace) then Fail
        else Got(Specs(q.value, Inline(word.isUnion, fields.value)), fields.rest[1..])
      else Fail
  }

  /** struct-declaration-list */
  function ReadFields(ts: Text): (r: Read<seq<Field>>)
    ensures r.Got? ==> |r.rest| <= |ts|
    decreases |ts|, 5
  {
    if ts == [] || ts[0] == RBrace then Got([], ts)
    else
      var d := ReadDeclared(ts);
      if d.Fail? then Fail
      else
        var bits := if |d.rest| > 1 && d.rest[0] == Colon && d.rest[1].Number? then d.rest[1].n else 0;
        var after := if |d.rest| > 1 && d.rest[0] == Colon && d.rest[1].Number? then d.rest[2..] else d.rest;
        if !Next(after, Semi) then Fail
        else
          var more := ReadFields(after[1..]);
          if more.Fail? then Fail
          else Got([Field(NameIn(d.value.dtor), TypeIn(d.value), bits)] + more.value, more.rest)
  }

  /** declaration-specifiers followed by a declarator, which may be abstract */
  function ReadDeclared(ts: Text): (r: Read<Declared>)
    ensures r.Got? ==> |r.rest| < |ts|
    decreases |ts|, 4
  {
    var s := ReadSpecs(ts);
    if s.Fail? then Fail
    else
      var d := ReadDtor(s.rest);
      if d.Fail? then Fail else Got(Declared(s.value, d.value), d.rest)
  }

  /** declarator: pointers, then a direct declarator */
  function ReadDtor(ts: Text): (r: Read<Dtor>)
    ensures r.Got? ==> |r.rest| <= |ts|
    decreases |ts|, 2
  {
    if Next(ts, Star) then
      var q := ReadQuals(ts[1..]);
      var d := ReadDtor(q.rest);
      if d.Fail? then Fail else Got(Deref(q.value, d.value), d.rest)
    else ReadDirect(ts)
  }

  /** Whether a parenthesis opens a nested declarator, and not a parameter list. */
  predicate OpensGroup(ts: Text) {
    |ts| > 1 && ts[0] == LPar && (ts[1] == Star || ts[1] == LPar || ts[1] == LBrk || ts[1].Ident?)
  }

  /** direct-declarator: a name, a parenthesized declarator or nothing, then suffixes */
  function ReadDirect(ts: Text): (r: Read<Dtor>)
    ensures r.Got? ==> |r.rest| <= |ts|
    decreases |ts|, 1
  {
    if ts != [] && ts[0].Ident? then ReadSuffixes(Named(ts[0].name), ts[1..])
    else if OpensGroup(ts) then
      var d := ReadDtor(ts[1..]);
      if d.Fail? || !Next(d.rest, RPar) then Fail else ReadSuffixes(d.value, d.rest[1..])
    else ReadSuffixes(Named(""), ts)
  }

  function ReadSuffixes(d: Dtor, ts: Text): (r: Read<Dtor>)
    ensures r.Got? ==> |r.rest| <= |ts|
    decreases |ts|, 0
  {
    if |ts| > 2 && ts[0] == LBrk && ts[1].Number? && ts[2] == RBrk then
      ReadSuffixes(Indexed(d, ts[1].n), ts[3..])
    else if Next(ts, LPar) then
      var ps := ReadParams(ts[1..]);
      if ps.Fail? || !Next(ps.rest, RPar) then Fail else ReadSuffixes(Called(d, ps.value), ps.rest[1..])
    else Got(d, ts)
  }

  /** parameter-type-list: `void` alone says there are none */
  function ReadParams(ts: Text): (r: Read<seq<CParam>>)
    ensures r.Got? ==> |r.rest| <= |ts|
    decreases |ts|, 6
  {
    if |ts| > 1 && ts[0] == VoidWord && ts[1] == RPar then Got([], ts[1..]) else ReadParamList(ts)
  }

  function ReadParamList(ts: Text): (r: Read<seq<CParam>>)
    ensures r.Got? ==> |r.rest| <= |ts|
    decreases |ts|, 5
  {
    var d := ReadDeclared(ts);
    if d.Fail? then Fail
    else
      var p := CParam(NameIn(d.value.dtor), TypeIn(d.value));
      if Next(d.rest, Comma) then
        var more := ReadParamList(d.rest[1..]);
        if more.Fail? then Fail else Got([p] + more.value, more.rest)
      else Got([p], d.rest)
  }
}
