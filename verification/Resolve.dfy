/** Which base type an object type stands for (`resolve_object_type_to_base` of src/seeds.c). */
module Resolve {
  import opened Btf
  import opened BtfIndex

  const CHAIN_LIMIT: nat := 32

  datatype Match = NoMatch | Several | Only(id: nat)

  ghost function Pick(among: set<nat>): Match {
    if among == {} then NoMatch
    else if exists id :: among == {id} then
      var id :| among == {id};
      Only(id)
    else Several
  }

  /** The base types a node of an object's chain stands for by itself. */
  ghost function MatchOf(g: Graph, t: Type): Match {
    if IsIndexedKind(KindOf(t)) && NameOf(t) != "" then Pick(Candidates(g, NameOf(t), KindOf(t)))
    else if t.Enum? && t.tag == "" then Pick(Twins(g, t))
    else NoMatch
  }

  lemma VerdictPicks(among: set<nat>, found: int, type_id: nat)
    requires Verdict(among, found, type_id)
    ensures Pick(among) == if found == 0 then NoMatch else if found < 0 then Several else Only(type_id)
  {
    if exists id :: among == {id} {
      var id :| among == {id};
      assert forall i, j | i in among && j in among :: i == id && j == id;
    }
  }

  predicate IsChain(t: Type) {
    t.Typedef? || t.Qualified? || (t.Tag? && !t.onDecl)
  }

  datatype Resolution = Invalid | Ambiguous | TooDeep | Unresolved | ProgramLocal | BaseType(id: nat)

  /** What the walk along the chain of `id` decides, with `left` nodes to go. */
  ghost function Resolved(g: Graph, o: Graph, id: nat, left: nat, allow_program_local: bool): Resolution
    decreases left
  {
    if left == 0 then TooDeep
    else if PassesOver(g, o, id) then Resolved(g, o, o[id].to, left - 1, allow_program_local)
    else Decision(g, o, id, allow_program_local)
  }

  /** A node that decides nothing: it has no match and leads on. */
  ghost predicate PassesOver(g: Graph, o: Graph, id: nat) {
    0 < id < |o| && MatchOf(g, o[id]).NoMatch? && IsChain(o[id])
  }

  ghost function Decision(g: Graph, o: Graph, id: nat, allow_program_local: bool): Resolution
    requires !PassesOver(g, o, id)
  {
    if id == 0 || id >= |o| then Invalid
    else
      match MatchOf(g, o[id])
      case Several => Ambiguous
      case Only(b) => BaseType(b)
      case NoMatch => if allow_program_local then ProgramLocal else Unresolved
  }

  /** The first `k` nodes from `id` on decide nothing. */
  ghost predicate PassedOver(g: Graph, o: Graph, id: nat, k: nat)
    decreases k
  {
    k == 0 || (PassesOver(g, o, id) && PassedOver(g, o, o[id].to, k - 1))
  }

  ghost function NodeAt(g: Graph, o: Graph, id: nat, k: nat): nat
    requires PassedOver(g, o, id, k)
    decreases k
  {
    if k == 0 then id else NodeAt(g, o, o[id].to, k - 1)
  }

  /** The resolution is the decision of the first node that decides, if there is one in reach. */
  lemma {:induction false} FirstDecides(g: Graph, o: Graph, id: nat, left: nat, allow: bool, k: nat)
    requires k < left && PassedOver(g, o, id, k) && !PassesOver(g, o, NodeAt(g, o, id, k))
    ensures Resolved(g, o, id, left, allow) == Decision(g, o, NodeAt(g, o, id, k), allow)
    decreases k
  {
    if k > 0 {
      FirstDecides(g, o, o[id].to, left - 1, allow, k - 1);
    }
  }

  /** A chain is too deep exactly if none of the nodes in reach decides. */
  lemma {:induction false} NoneDecides(g: Graph, o: Graph, id: nat, left: nat, allow: bool)
    ensures Resolved(g, o, id, left, allow) == TooDeep <==> PassedOver(g, o, id, left)
    decreases left
  {
    if left > 0 && PassesOver(g, o, id) {
      NoneDecides(g, o, o[id].to, left - 1, allow);
    }
  }

  lemma {:induction false} PassedFurther(g: Graph, o: Graph, id: nat, k: nat, more: nat)
    requires PassedOver(g, o, id, k) && PassedOver(g, o, NodeAt(g, o, id, k), more)
    ensures PassedOver(g, o, id, k + more)
    decreases k
  {
    if k > 0 {
      PassedFurther(g, o, o[id].to, k - 1, more);
    }
  }

  lemma {:induction false} PassedLess(g: Graph, o: Graph, id: nat, k: nat, less: nat)
    requires PassedOver(g, o, id, k) && less <= k
    ensures PassedOver(g, o, id, less)
    decreases k
  {
    if less > 0 {
      PassedLess(g, o, o[id].to, k - 1, less - 1);
    }
  }

  lemma {:induction false} CycleGoesOn(g: Graph, o: Graph, id: nat, k: nat, n: nat)
    requires 0 < k && PassedOver(g, o, id, k) && NodeAt(g, o, id, k) == id
    ensures PassedOver(g, o, id, n)
    decreases n
  {
    if n <= k {
      PassedLess(g, o, id, k, n);
    } else {
      CycleGoesOn(g, o, id, k, n - k);
      PassedFurther(g, o, id, k, n - k);
    }
  }

  /** A cycle without a match is reported as too deep. */
  lemma CycleTooDeep(g: Graph, o: Graph, id: nat, k: nat, allow: bool)
    requires 0 < k && PassedOver(g, o, id, k) && NodeAt(g, o, id, k) == id
    ensures Resolved(g, o, id, CHAIN_LIMIT, allow) == TooDeep
  {
    CycleGoesOn(g, o, id, k, CHAIN_LIMIT);
    NoneDecides(g, o, id, CHAIN_LIMIT, allow);
  }

  /** The only base type with the name and kind of `t`, or the only one that agrees with an enum `t`. */
  ghost predicate IsOnlyMatch(g: Graph, t: Type, b: nat) {
    && 0 < b < |g|
    && if IsIndexedKind(KindOf(t)) && NameOf(t) != "" then
         && NameOf(g[b]) == NameOf(t) && KindOf(g[b]) == KindOf(t)
         && forall i | 0 < i < |g| && NameOf(g[i]) == NameOf(t) && KindOf(g[i]) == KindOf(t) :: i == b
       else
         t.Enum? && t.tag == "" && g[b] == t && forall i | 0 < i < |g| && g[i] == t :: i == b
  }

  lemma OnlyIsMatch(g: Graph, t: Type, b: nat)
    requires MatchOf(g, t) == Only(b)
    ensures IsOnlyMatch(g, t, b)
  {
    var named := IsIndexedKind(KindOf(t)) && NameOf(t) != "";
    var among := if named then Candidates(g, NameOf(t), KindOf(t)) else Twins(g, t);
    assert among == {b} && b in among;
    if IsIndexedKind(KindOf(t)) && NameOf(t) != "" {
      forall i | 0 < i < |g| && NameOf(g[i]) == NameOf(t) && KindOf(g[i]) == KindOf(t)
        ensures i == b
      {
        assert IsCandidate(g, NameOf(t), KindOf(t), i) && i in among;
      }
    } else {
      assert forall i | 0 < i < |g| && g[i] == t :: i in among;
    }
  }

  /** A resolved type has the name and kind of a node on the chain, and no other base type has them;
      no node before it has a match. */
  lemma {:induction false} BaseTypeIsOnly(g: Graph, o: Graph, id: nat, left: nat, allow: bool) returns (k: nat)
    requires Resolved(g, o, id, left, allow).BaseType?
    ensures k < left && PassedOver(g, o, id, k) && 0 < NodeAt(g, o, id, k) < |o|
    ensures IsOnlyMatch(g, o[NodeAt(g, o, id, k)], Resolved(g, o, id, left, allow).id)
    ensures 0 < Resolved(g, o, id, left, allow).id < |g|
    decreases left
  {
    if PassesOver(g, o, id) {
      k := BaseTypeIsOnly(g, o, o[id].to, left - 1, allow);
      k := k + 1;
    } else {
      k := 0;
      OnlyIsMatch(g, o[id], Resolved(g, o, id, left, allow).id);
    }
  }

  lemma BaseTypeInRange(g: Graph, o: Graph, id: nat, left: nat, allow: bool)
    requires Resolved(g, o, id, left, allow).BaseType?
    ensures 0 < Resolved(g, o, id, left, allow).id < |g|
  {
    var k := BaseTypeIsOnly(g, o, id, left, allow);
  }

  /** The match of one node, found through the index. */
  method LookupNode(index: Index, t: Type) returns (found: int, base_id: nat)
    requires index.Valid() && index.log == Indexed(index.g, |index.g|)
    ensures found in {-1, 0, 1}
    ensures MatchOf(index.g, t) == if found == 0 then NoMatch else if found < 0 then Several else Only(base_id)
  {
    hide Verdict, Pick, Candidates, Twins;
    found, base_id := 0, 0;
    if IsIndexedKind(KindOf(t)) && NameOf(t) != "" {
      found, base_id := index.Lookup(NameOf(t), KindOf(t));
      VerdictPicks(Candidates(index.g, NameOf(t), KindOf(t)), found, base_id);
      FoundIsVerdict(Candidates(index.g, NameOf(t), KindOf(t)), found, base_id);
    } else if t.Enum? && NameOf(t) == "" {
      found, base_id := index.LookupAnonymousEnum(t);
      VerdictPicks(Twins(index.g, t), found, base_id);
      FoundIsVerdict(Twins(index.g, t), found, base_id);
    }
  }

  lemma FoundIsVerdict(among: set<nat>, found: int, type_id: nat)
    requires Verdict(among, found, type_id)
    ensures found in {-1, 0, 1}
  {
  }

  method ResolveObjectTypeToBase(index: Index, o: Graph, object_type_id: nat, allow_program_local: bool)
    returns (r: Resolution)
    requires index.Valid() && index.log == Indexed(index.g, |index.g|)
    ensures r == Resolved(index.g, o, object_type_id, CHAIN_LIMIT, allow_program_local)
  {
    hide Index.Valid, MatchOf;
    var id: nat := object_type_id;
    for depth := 0 to CHAIN_LIMIT
      invariant Resolved(index.g, o, object_type_id, CHAIN_LIMIT, allow_program_local)
             == Resolved(index.g, o, id, CHAIN_LIMIT - depth, allow_program_local)
    {
      if id == 0 || id >= |o| {
        return Invalid;
      }
      var found, base_id := LookupNode(index, o[id]);
      if found < 0 {
        return Ambiguous;
      }
      if found != 0 {
        return BaseType(base_id);
      }
      if IsChain(o[id]) {
        id := o[id].to;
        continue;
      }
      if allow_program_local {
        return ProgramLocal;
      }
      return Unresolved;
    }
    return TooDeep;
  }
}
