/** What the resolution of an object type comes to (`resolve_object_type_to_base` of src/seeds.c), said
    of the kinds of the types on its chain and of the base types that are like them, without the index
    and without the walk. */
module ResolveExact {
  import opened Btf
  import opened BtfIndex
  import opened Resolve

  /** A base type that an object type can stand for: it has the kind and the name, whatever the two are
      made of; where an enum has no name, all must agree. */
  predicate Alike(t: Type, u: Type) {
    match t
    case Record(isUnion, tag, _) => u.Record? && u.isUnion == isUnion && u.tag == tag != ""
    case Fwd(_, tag) => u.Fwd? && u.tag == tag != ""
    case Typedef(alias, _) => u.Typedef? && u.alias == alias != ""
    case Enum(wide, tag, _, _, _) => if tag != "" then u.Enum? && u.wide == wide && u.tag == tag else u == t
    case _ => false
  }

  /** The only base type like `t`. */
  ghost predicate OnlyAlike(g: Graph, t: Type, b: nat) {
    0 < b < |g| && Alike(t, g[b]) && forall i | 0 < i < |g| && Alike(t, g[i]) :: i == b
  }

  ghost predicate NoneAlike(g: Graph, t: Type) {
    forall b | 0 < b < |g| :: !Alike(t, g[b])
  }

  /** Names and kinds decide for the types that the index has, equality for enums without a name. */
  lemma AlikeIsKey(t: Type, u: Type)
    ensures IsIndexedKind(KindOf(t)) <==> t.Record? || t.Fwd? || t.Typedef? || t.Enum?
    ensures Alike(t, u) <==>
              if IsIndexedKind(KindOf(t)) && NameOf(t) != "" then KindOf(u) == KindOf(t) && NameOf(u) == NameOf(t)
              else t.Enum? && u == t
  {
  }

  lemma PickIs(among: set<nat>)
    ensures Pick(among).NoMatch? <==> among == {}
    ensures forall b: nat :: Pick(among) == Only(b) <==> among == {b}
  {
    forall b: nat
      ensures Pick(among) == Only(b) <==> among == {b}
    {
      if among == {b} {
        assert b in among;
      }
    }
  }

  /** The match of a node is the only base type like it; there is none if no base type is like it. */
  lemma MatchIsAlike(g: Graph, t: Type)
    ensures MatchOf(g, t).NoMatch? <==> NoneAlike(g, t)
    ensures forall b: nat :: MatchOf(g, t) == Only(b) <==> OnlyAlike(g, t, b)
  {
    var among := set b: nat | 0 < b < |g| && Alike(t, g[b]);
    forall b: nat | 0 < b < |g|
      ensures Alike(t, g[b]) <==> b in if IsIndexedKind(KindOf(t)) && NameOf(t) != "" then
                                         Candidates(g, NameOf(t), KindOf(t))
                                       else if t.Enum? then Twins(g, t) else {}
    {
      AlikeIsKey(t, g[b]);
    }
    AlikeIsKey(t, t);
    PickIs(among);
    hide Pick, IsIndexedKind, KindOf, NameOf;
    if IsIndexedKind(KindOf(t)) && NameOf(t) != "" {
      assert among == Candidates(g, NameOf(t), KindOf(t));
    } else if t.Enum? {
      assert among == Twins(g, t);
    }
    hide Alike;
    forall b: nat
      ensures among == {b} <==> OnlyAlike(g, t, b)
    {
      if OnlyAlike(g, t, b) {
        assert among == {b};
      }
      if among == {b} {
        assert b in among;
      }
    }
  }

  /** A type that stands for its target where no base type is like it: a typedef, a qualifier, a type tag. */
  predicate LeadsTo(t: Type, to: nat) {
    match t
    case Typedef(_, target) => to == target
    case Qualified(_, target) => to == target
    case Tag(onDecl, target) => !onDecl && to == target
    case _ => false
  }

  ghost predicate LeadsNowhere(t: Type) {
    forall to: nat :: !LeadsTo(t, to)
  }

  /** Types that the object has and no base type is like, each leading to the next. */
  ghost predicate Descends(g: Graph, o: Graph, path: seq<nat>) {
    path != [] && forall k | 0 <= k < |path| - 1 ::
      0 < path[k] < |o| && NoneAlike(g, o[path[k]]) && LeadsTo(o[path[k]], path[k + 1])
  }

  /** A type that no base type is like resolves, with one less to go, to whatever it leads to. */
  lemma LeadingOn(g: Graph, o: Graph, id: nat, to: nat, left: nat, allow: bool)
    requires 0 < id < |o| && left > 0 && NoneAlike(g, o[id]) && LeadsTo(o[id], to)
    ensures Resolved(g, o, id, left, allow) == Resolved(g, o, to, left - 1, allow)
  {
    hide MatchOf, NoneAlike;
    MatchIsAlike(g, o[id]);
  }

  /** What the last type on the chain decides. */
  lemma Deciding(g: Graph, o: Graph, id: nat, left: nat, allow: bool)
    requires left > 0
    ensures var r := Resolved(g, o, id, left, allow);
            if id == 0 || id >= |o| then r == Invalid
            else if NoneAlike(g, o[id]) then
              LeadsNowhere(o[id]) ==> r == if allow then ProgramLocal else Unresolved
            else (r == Ambiguous || r.BaseType?) && forall b: nat :: r == BaseType(b) <==> OnlyAlike(g, o[id], b)
  {
    if 0 < id < |o| {
      hide MatchOf, NoneAlike, OnlyAlike;
      MatchIsAlike(g, o[id]);
      assert IsChain(o[id]) ==> LeadsTo(o[id], o[id].to);
    }
  }

  lemma {:induction false} DescentResolves(g: Graph, o: Graph, path: seq<nat>, left: nat, allow: bool)
    requires Descends(g, o, path) && |path| <= left + 1
    ensures Resolved(g, o, path[0], left, allow) ==
            Resolved(g, o, path[|path| - 1], left + 1 - |path|, allow)
    decreases |path|
  {
    if |path| > 1 {
      hide NoneAlike, LeadsTo, Resolved;
      LeadingOn(g, o, path[0], path[1], left, allow);
      assert path[1..][0] == path[1];
      DescentResolves(g, o, path[1..], left - 1, allow);
    }
  }

  /** The chain of an object type, as far as it goes. */
  lemma {:induction false} Descent(g: Graph, o: Graph, id: nat, left: nat) returns (path: seq<nat>)
    ensures Descends(g, o, path) && path[0] == id && |path| <= left + 1
    ensures var last := path[|path| - 1];
            |path| <= left && 0 < last < |o| && NoneAlike(g, o[last]) ==> LeadsNowhere(o[last])
    decreases left
  {
    hide NoneAlike;
    if left > 0 && 0 < id < |o| && NoneAlike(g, o[id]) && exists to: nat :: LeadsTo(o[id], to) {
      var to: nat :| LeadsTo(o[id], to);
      var rest := Descent(g, o, to, left - 1);
      hide LeadsTo;
      path := [id] + rest;
      assert path[1..] == rest;
    } else {
      path := [id];
    }
  }

  /** An object type resolves by the end of its chain of typedefs, qualifiers and type tags without a
      base type like them: too deep if there are 32 of them; invalid if the chain leaves the object's
      types; else by the base types like the last one, the only one or an ambiguity, or, if there is
      none and it leads no further, as the caller asks. */
  lemma ResolvedExactly(g: Graph, o: Graph, id: nat, allow: bool) returns (path: seq<nat>)
    ensures Descends(g, o, path) && path[0] == id && |path| <= 33
    ensures var last, r := path[|path| - 1], Resolved(g, o, id, CHAIN_LIMIT, allow);
            if |path| == 33 then r == TooDeep
            else if last == 0 || last >= |o| then r == Invalid
            else if NoneAlike(g, o[last]) then
              LeadsNowhere(o[last]) && r == if allow then ProgramLocal else Unresolved
            else (r == Ambiguous || r.BaseType?) && forall b: nat :: r == BaseType(b) <==> OnlyAlike(g, o[last], b)
  {
    hide NoneAlike, LeadsTo, OnlyAlike, LeadsNowhere;
    path := Descent(g, o, id, CHAIN_LIMIT);
    DescentResolves(g, o, path, CHAIN_LIMIT, allow);
    if |path| <= CHAIN_LIMIT {
      Deciding(g, o, path[|path| - 1], CHAIN_LIMIT + 1 - |path|, allow);
    }
  }

  /** A base type is the only one like some type on the chain, within the first 32. */
  ghost predicate StandsFor(g: Graph, o: Graph, id: nat, b: nat) {
    exists path :: Descends(g, o, path) && path[0] == id && |path| <= 32 &&
                   0 < path[|path| - 1] < |o| && OnlyAlike(g, o[path[|path| - 1]], b)
  }

  /** That is when an object type resolves to it. */
  lemma BaseTypeExactly(g: Graph, o: Graph, id: nat, allow: bool, b: nat)
    ensures Resolved(g, o, id, CHAIN_LIMIT, allow) == BaseType(b) <==> StandsFor(g, o, id, b)
  {
    hide LeadsTo, OnlyAlike, Resolved, NoneAlike;
    forall path | Descends(g, o, path) && path[0] == id && |path| <= 32 &&
                  0 < path[|path| - 1] < |o| && OnlyAlike(g, o[path[|path| - 1]], b)
      ensures Resolved(g, o, id, CHAIN_LIMIT, allow) == BaseType(b)
    {
      OnlyIsSome(g, o[path[|path| - 1]], b);
      DescentResolves(g, o, path, CHAIN_LIMIT, allow);
      Deciding(g, o, path[|path| - 1], CHAIN_LIMIT + 1 - |path|, allow);
    }
    var path := ResolvedExactly(g, o, id, allow);
  }

  /** A chain that ends, within 32 types, in a type that leads nowhere, with no base type like any of it. */
  ghost predicate StandsAlone(g: Graph, o: Graph, id: nat) {
    exists path :: Descends(g, o, path) && path[0] == id && |path| <= 32 && 0 < path[|path| - 1] < |o| &&
                   NoneAlike(g, o[path[|path| - 1]]) && LeadsNowhere(o[path[|path| - 1]])
  }

  /** That is when a type is the program's own, for a caller who allows it. */
  lemma LocalExactly(g: Graph, o: Graph, id: nat)
    ensures Resolved(g, o, id, CHAIN_LIMIT, true) == ProgramLocal <==> StandsAlone(g, o, id)
  {
    hide OnlyAlike, Resolved, NoneAlike, LeadsNowhere;
    forall path | Descends(g, o, path) && path[0] == id && |path| <= 32 && 0 < path[|path| - 1] < |o| &&
                  NoneAlike(g, o[path[|path| - 1]]) && LeadsNowhere(o[path[|path| - 1]])
      ensures Resolved(g, o, id, CHAIN_LIMIT, true) == ProgramLocal
    {
      DescentResolves(g, o, path, CHAIN_LIMIT, true);
      Deciding(g, o, path[|path| - 1], CHAIN_LIMIT + 1 - |path|, true);
    }
    var path := ResolvedExactly(g, o, id, true);
  }

  lemma OnlyIsSome(g: Graph, t: Type, b: nat)
    requires OnlyAlike(g, t, b)
    ensures !NoneAlike(g, t)
  {
  }
}
