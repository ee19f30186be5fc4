/** How declarators fit the program's buffers (src/emitter.c): each step inwards writes the
    declarator so far, with what the type adds to it, into a buffer of 512 bytes. */
module Declarators {
  import opened Btf
  import opened CSyntax
  import opened Meaning
  import opened Numerals

  const CHAIN_LIMIT := 32
  const BUFFER: nat := 512

  /** `leading_qualifier_mask`. */
  function LeadingQuals(g: Graph, id: nat, depth: nat): Quals
    requires depth <= CHAIN_LIMIT
    decreases CHAIN_LIMIT - depth
  {
    if depth == CHAIN_LIMIT || id >= |g| then {}
    else if g[id].Qualified? then {g[id].qual} + LeadingQuals(g, g[id].to, depth + 1)
    else {}
  }

  /** The end of a chain of qualifiers. */
  ghost function ChainEnd(c: Base, id: nat): (end: nat)
    requires Ranked(c)
    ensures end < |c.g| ==> !c.g[end].Qualified?
    ensures id < |c.g| && c.g[id].Qualified? ==> Height(c, end) < Height(c, id)
    ensures !(id < |c.g| && c.g[id].Qualified?) ==> end == id
    decreases Height(c, id)
  {
    if id < |c.g| && c.g[id].Qualified? then ChainEnd(c, c.g[id].to) else id
  }

  /** The qualifiers along that chain. */
  ghost function ChainQuals(c: Base, id: nat): Quals
    requires Ranked(c)
    decreases Height(c, id)
  {
    if id < |c.g| && c.g[id].Qualified? then {c.g[id].qual} + ChainQuals(c, c.g[id].to) else {}
  }

  /** What of the chain's qualifiers is written: not those the elements of an array repeat. */
  ghost function WrittenQuals(c: Base, id: nat): Quals
    requires Ranked(c)
  {
    var end := ChainEnd(c, id);
    if end < |c.g| && c.g[end].Array? then ChainQuals(c, id) - LeadingQuals(c.g, c.g[end].elem, 0)
    else ChainQuals(c, id)
  }

  /** What the limit asks about a declarator: its bytes, and whether it starts with a star. */
  datatype Size = Size(bytes: nat, star: bool)

  function NameSize(name: string): Size {
    Size(|name|, false)
  }

  /** With a suffix `[n]`, and parentheses around a pointer. */
  function IndexedSize(d: Size, n: nat): Size {
    Size(d.bytes + (if d.star then 2 else 0) + |Decimal(n)| + 2, false)
  }

  /** Behind a star and the words of the qualifiers, with the spaces between them. */
  function StarredSize(d: Size, quals: Quals): Size {
    Size(QualBytes(quals) + 2 + (if d.bytes > 0 then 1 else 0) + d.bytes, true)
  }

  /** The length of the qualifiers, a space between each two. */
  function QualBytes(quals: Quals): nat {
    var const_, volatile_ := if Const in quals then 5 else 0, if Volatile in quals then 8 else 0;
    var restrict_ := if Restrict in quals then 8 else 0;
    const_ + volatile_ + restrict_
    + (if const_ > 0 && volatile_ + restrict_ > 0 then 1 else 0) + (if volatile_ > 0 && restrict_ > 0 then 1 else 0)
  }

  predicate Holds(d: Size) {
    d.bytes < BUFFER
  }

  /** Every declarator on the way from `d` to the specifiers of a type fits its buffer. */
  ghost predicate Roomy(c: Base, id: nat, d: Size)
    requires Ranked(c)
    decreases Height(c, id)
  {
    0 < id < |c.g| ==>
      match c.g[id]
      case Ptr(to) => Holds(Size(d.bytes + 1, true)) && Roomy(c, to, Size(d.bytes + 1, true))
      case Array(elem, _, n) => Holds(IndexedSize(d, n)) && Roomy(c, elem, IndexedSize(d, n))
      case Qualified(_, _) =>
        var end := ChainEnd(c, id);
        if end < |c.g| && c.g[end].Ptr? then
          var next := StarredSize(d, WrittenQuals(c, id));
          Holds(next) && Roomy(c, c.g[end].to, next)
        else Roomy(c, end, d)
      case Tag(_, to) => Roomy(c, to, d)
      case Typedef(alias, to) => alias == "" ==> Roomy(c, to, d)
      case Record(_, tag, _) =>
        tag == "" ==>
          assert forall m | m in Body(c, id) :: Follows(c, id, m.ty);
          forall i | 0 <= i < |Body(c, id)| :: Roomy(c, Body(c, id)[i].ty, NameSize(Body(c, id)[i].name))
      case Proto(ret, params) =>
        assert forall p | p in params :: Follows(c, id, p.ty);
        && Roomy(c, ret, NameSize(""))
        && forall i | 0 <= i < |params| && params[i].ty != 0 ::
             Roomy(c, params[i].ty, NameSize(ParamName(params[i].name, i)))
      case _ => true
  }

  ghost predicate AllRoomy(c: Base, members: seq<Member>)
    requires Ranked(c)
  {
    forall i | 0 <= i < |members| :: Roomy(c, members[i].ty, NameSize(members[i].name))
  }

  lemma AllRoomyNext(c: Base, members: seq<Member>)
    requires Ranked(c) && members != []
    ensures AllRoomy(c, members) <==>
              Roomy(c, members[0].ty, NameSize(members[0].name)) && AllRoomy(c, members[1..])
  {
    hide Roomy;
    if Roomy(c, members[0].ty, NameSize(members[0].name)) && AllRoomy(c, members[1..]) {
      assert forall i | 1 <= i < |members| :: members[i] == members[1..][i - 1];
    }
  }

  ghost predicate RoomyParam(c: Base, p: Param, position: nat)
    requires Ranked(c)
  {
    p.ty != 0 ==> Roomy(c, p.ty, NameSize(ParamName(p.name, position)))
  }

  /** The parameters from the one at position `from` on. */
  ghost predicate AllRoomyParams(c: Base, params: seq<Param>, from: nat)
    requires Ranked(c)
  {
    forall i | 0 <= i < |params| :: RoomyParam(c, params[i], from + i)
  }

  lemma AllRoomyParamsNext(c: Base, params: seq<Param>, from: nat)
    requires Ranked(c) && params != []
    ensures AllRoomyParams(c, params, from) <==>
              RoomyParam(c, params[0], from) && AllRoomyParams(c, params[1..], from + 1)
  {
    hide RoomyParam;
    if RoomyParam(c, params[0], from) && AllRoomyParams(c, params[1..], from + 1) {
      forall i | 0 < i < |params|
        ensures RoomyParam(c, params[i], from + i)
      {
        assert params[i] == params[1..][i - 1] && from + i == from + 1 + (i - 1);
      }
    }
    if AllRoomyParams(c, params, from) {
      forall i | 0 <= i < |params[1..]|
        ensures RoomyParam(c, params[1..][i], from + 1 + i)
      {
        assert params[1..][i] == params[i + 1] && from + 1 + i == from + (i + 1);
      }
    }
  }

  lemma ProtoRoomy(c: Base, id: nat, d: Size)
    requires Ranked(c) && 0 < id < |c.g| && c.g[id].Proto?
    ensures Roomy(c, id, d) <==> Roomy(c, c.g[id].ret, NameSize("")) && AllRoomyParams(c, c.g[id].params, 0)
  {
    assert forall i: nat | i < |c.g[id].params| ::
             RoomyParam(c, c.g[id].params[i], 0 + i) == RoomyParam(c, c.g[id].params[i], i);
  }

  /** Names of at most `most` bytes, and array lengths of 32 bits. */
  predicate NamesWithin(t: Type, most: nat) {
    match t
    case Array(_, _, n) => n < 0x1_0000_0000
    case Record(_, _, members) => forall m | m in members :: |m.name| <= most
    case Typedef(alias, _) => |alias| <= most
    case Proto(_, params) => forall i | 0 <= i < |params| :: |ParamName(params[i].name, i)| <= most
    case _ => true
  }

  lemma {:induction false} DecimalWithin(n: nat, k: nat, top: nat)
    requires n < top && 1 <= k && top == PowerOfTen(k)
    ensures |Decimal(n)| <= k
    decreases k
  {
    if n >= 10 {
      DecimalWithin(n / 10, k - 1, PowerOfTen(k - 1));
    }
  }

  function PowerOfTen(k: nat): nat {
    if k == 0 then 1 else 10 * PowerOfTen(k - 1)
  }

  lemma Decimal32(n: nat)
    requires n < 0x1_0000_0000
    ensures |Decimal(n)| <= 10
  {
    assert PowerOfTen(5) == 100_000;
    assert PowerOfTen(10) == 10_000_000_000;
    DecimalWithin(n, 10, PowerOfTen(10));
  }

  /** No step adds more than 26 bytes. */
  const STEP: nat := 26

  lemma StepAdds(d: Size, quals: Quals, n: nat)
    ensures StarredSize(d, quals).bytes <= d.bytes + STEP
    ensures n < 0x1_0000_0000 ==> IndexedSize(d, n).bytes <= d.bytes + STEP
  {
    if n < 0x1_0000_0000 {
      Decimal32(n);
    }
  }

  /** Declarators fit if names are short enough for the height of the type. */
  lemma {:induction false} RoomyByHeight(c: Base, id: nat, d: Size, most: nat)
    requires Ranked(c) && forall t | t in c.g :: NamesWithin(t, most)
    requires d.bytes + STEP * Height(c, id) < BUFFER && most + STEP * Height(c, id) < BUFFER
    ensures Roomy(c, id, d)
    decreases Height(c, id)
  {
    hide StarredSize, IndexedSize, WrittenQuals, ParamName;
    if 0 < id < |c.g| {
      assert NamesWithin(c.g[id], most);
      match c.g[id]
      case Ptr(to) => RoomyByHeight(c, to, Size(d.bytes + 1, true), most);
      case Array(elem, _, n) =>
        StepAdds(d, {}, n);
        RoomyByHeight(c, elem, IndexedSize(d, n), most);
      case Qualified(_, _) =>
        var end := ChainEnd(c, id);
        if end < |c.g| && c.g[end].Ptr? {
          assert Follows(c, end, c.g[end].to);
          StepAdds(d, WrittenQuals(c, id), 0);
          RoomyByHeight(c, c.g[end].to, StarredSize(d, WrittenQuals(c, id)), most);
        } else {
          RoomyByHeight(c, end, d, most);
        }
      case Tag(_, to) => RoomyByHeight(c, to, d, most);
      case Typedef(_, to) => RoomyByHeight(c, to, d, most);
      case Record(_, tag, _) =>
        if tag == "" {
          forall i | 0 <= i < |Body(c, id)|
            ensures Roomy(c, Body(c, id)[i].ty, NameSize(Body(c, id)[i].name))
          {
            var m := Body(c, id)[i];
            assert m in Body(c, id) && Follows(c, id, m.ty);
            RoomyByHeight(c, m.ty, NameSize(m.name), most);
          }
        }
      case Proto(ret, params) =>
        assert Follows(c, id, ret);
        RoomyByHeight(c, ret, NameSize(""), most);
        forall i | 0 <= i < |params|
          ensures Roomy(c, params[i].ty, NameSize(ParamName(params[i].name, i)))
        {
          assert params[i] in params && Follows(c, id, params[i].ty);
          RoomyByHeight(c, params[i].ty, NameSize(ParamName(params[i].name, i)), most);
        }
      case _ =>
    }
  }
}
