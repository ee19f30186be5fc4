/** What an object asks for (src/seeds.c), said of its types and relocations without the index, the
    search or the walk: which base types it requires, which members it marks, and when it fails. */
module Contributions {
  import opened Btf
  import opened BtfIndex
  import opened Requirement
  import opened Access
  import opened MemberSearch
  import opened Seeds
  import opened Resolve
  import opened ResolveExact
  import opened Objects

  /** The types of an object that are looked up in the base: all enums, and the records, forward
      declarations and typedefs that have a name. */
  predicate LooksUp(t: Type) {
    match t
    case Enum(_, _, _, _, _) => true
    case Record(_, tag, _) => tag != ""
    case Fwd(_, tag) => tag != ""
    case Typedef(alias, _) => alias != ""
    case _ => false
  }

  lemma SeedLooksUp(t: Type)
    ensures IsSeed(t) <==> LooksUp(t)
  {
    AlikeIsKey(t, t);
  }

  /** An object requires the base types that its own types and its relocations stand for. */
  lemma RootsExactly(g: Graph, ob: Object, b: nat)
    ensures b in Roots(g, ob) <==>
              || (exists id: nat :: 0 < id < |ob.types| && LooksUp(ob.types[id]) && StandsFor(g, ob.types, id, b))
              || (exists r :: r in Relos(ob) && StandsFor(g, ob.types, r.type_id, b))
  {
    hide Resolved, Relos, IsSeed, LooksUp, StandsFor;
    forall id: nat
      ensures SeedBase(g, ob.types, id) == BaseType(b) <==> StandsFor(g, ob.types, id, b)
      ensures 0 < id < |ob.types| ==> (IsSeed(ob.types[id]) <==> LooksUp(ob.types[id]))
    {
      BaseTypeExactly(g, ob.types, id, true, b);
      if 0 < id < |ob.types| {
        SeedLooksUp(ob.types[id]);
      }
    }
    forall r: Relo
      ensures ReloBase(g, ob.types, r) == BaseType(b) <==> StandsFor(g, ob.types, r.type_id, b)
    {
      BaseTypeExactly(g, ob.types, r.type_id, false, b);
    }
    hide SeedBase, ReloBase;
    RootOf(g, ob, b);
  }

  lemma RootOf(g: Graph, ob: Object, b: nat)
    ensures b in Roots(g, ob) <==>
              || (exists id: nat ::
                    0 < id < |ob.types| && IsSeed(ob.types[id]) && SeedBase(g, ob.types, id) == BaseType(b))
              || (exists r :: r in Relos(ob) && ReloBase(g, ob.types, r) == BaseType(b))
  {
    hide Relos, IsSeed, SeedBase, ReloBase;
  }

  lemma {:induction false} StepPairsAre(steps: seq<Step>, p: (nat, nat))
    requires forall step | step in steps :: step.Step?
    ensures p in StepPairs(steps) <==> exists step :: step in steps && p in step.path
  {
    if steps != [] {
      StepPairsAre(steps[1..], p);
      assert steps == [steps[0]] + steps[1..];
    }
  }

  /** A member that some step of a relocation passes, from the base type that it stands for. */
  ghost predicate Passes(g: Graph, o: Graph, r: Relo, p: (nat, nat)) {
    exists b, step :: StandsFor(g, o, r.type_id, b) && step in ReloTrail(o, g, map[], r, b).steps && p in step.path
  }

  lemma PassesExactly(g: Graph, o: Graph, r: Relo, p: (nat, nat))
    ensures p in OnePairs(g, o, r) <==> Passes(g, o, r, p)
  {
    hide ReloTrail, Resolved, StandsFor;
    forall b: nat
      ensures ReloBase(g, o, r) == BaseType(b) <==> StandsFor(g, o, r.type_id, b)
    {
      BaseTypeExactly(g, o, r.type_id, false, b);
    }
    hide ReloBase, StepPairs;
    if ReloBase(g, o, r).BaseType? {
      StepPairsAre(ReloTrail(o, g, map[], r, ReloBase(g, o, r).id).steps, p);
    }
  }

  /** An object marks the members that the steps of its relocations pass. */
  lemma PairsExactly(g: Graph, ob: Object, p: (nat, nat))
    ensures p in Pairs(g, ob) <==> exists r :: r in Relos(ob) && Passes(g, ob.types, r, p)
  {
    hide Relos, OnePairs, Passes;
    forall r: Relo
      ensures p in OnePairs(g, ob.types, r) <==> Passes(g, ob.types, r, p)
    {
      PassesExactly(g, ob.types, r, p);
    }
  }

  /** An object's own types resolve if each that is looked up stands for one base type, or neither it nor
      what it leads to is like any. */
  lemma SeedsResolveExactly(g: Graph, o: Graph)
    ensures SeedsResolve(g, o, |o|) <==>
              forall id: nat | 0 < id < |o| && LooksUp(o[id]) ::
                (exists b: nat :: StandsFor(g, o, id, b)) || StandsAlone(g, o, id)
  {
    hide Resolved, IsSeed, LooksUp, StandsFor, StandsAlone;
    forall id: nat | 0 < id < |o|
      ensures IsSeed(o[id]) <==> LooksUp(o[id])
      ensures SeedBase(g, o, id).BaseType? <==> exists b: nat :: StandsFor(g, o, id, b)
      ensures SeedBase(g, o, id).ProgramLocal? <==> StandsAlone(g, o, id)
    {
      SeedLooksUp(o[id]);
      LocalExactly(g, o, id);
      forall b: nat
        ensures SeedBase(g, o, id) == BaseType(b) <==> StandsFor(g, o, id, b)
      {
        BaseTypeExactly(g, o, id, true, b);
      }
    }
  }

  /** A relocation resolves if its type stands for a base type from which all of its steps are taken. */
  lemma ReloResolvesExactly(g: Graph, o: Graph, r: Relo)
    ensures ReloResolves(g, o, r) <==>
              exists b: nat :: StandsFor(g, o, r.type_id, b) && ReloTrail(o, g, map[], r, b).ok
  {
    hide ReloTrail, Resolved, StandsFor;
    forall b: nat
      ensures ReloBase(g, o, r) == BaseType(b) <==> StandsFor(g, o, r.type_id, b)
    {
      BaseTypeExactly(g, o, r.type_id, false, b);
    }
  }

  /** What a trace says is so: the object it names has a type, or a relocation with the access it names,
      that stands for the type or passes the member that it requires. */
  ghost predicate Explains(g: Graph, ob: Object, t: Trace) {
    && t.origin.object_path == ob.path
    && match t.origin.source
       case Unknown => false
       case ObjectBtf =>
         t.kind == TypeRoot &&
         exists id: nat :: 0 < id < |ob.types| && LooksUp(ob.types[id]) && StandsFor(g, ob.types, id, t.type_id)
       case CoreRelo =>
         exists r ::
           && r in Relos(ob) && r.access == t.origin.access
           && if t.kind == TypeRoot then StandsFor(g, ob.types, r.type_id, t.type_id)
              else Passes(g, ob.types, r, (t.type_id, t.member_index))
  }

  /** Everything that is recorded of some objects is explained by one of them. */
  lemma TracesExplain(g: Graph, obs: seq<Object>, t: Trace)
    requires t in AllTraces(g, obs)
    ensures exists ob :: ob in obs && Explains(g, ob, t)
  {
    hide SeedTraces, ListTraces, Explains;
    var ob :| ob in obs && t in ObjectTraces(g, ob);
    if t in SeedTraces(g, ob.types, ob.path, |ob.types|) {
      SeedExplains(g, ob, t);
    } else {
      ReloExplains(g, ob, t);
    }
  }

  lemma SeedExplains(g: Graph, ob: Object, t: Trace)
    requires t in SeedTraces(g, ob.types, ob.path, |ob.types|)
    ensures Explains(g, ob, t)
  {
    hide LooksUp, StandsFor, IsSeed, Resolved, Passes;
    var id: nat :| 0 < id < |ob.types| && IsSeed(ob.types[id]) && SeedBase(g, ob.types, id) == BaseType(t.type_id);
    SeedLooksUp(ob.types[id]);
    BaseTypeExactly(g, ob.types, id, true, t.type_id);
  }

  lemma ReloExplains(g: Graph, ob: Object, t: Trace)
    requires t in ListTraces(g, ob.types, ob.path, Relos(ob))
    ensures Explains(g, ob, t)
  {
    hide StandsFor, Resolved, Passes, OnePairs, Relos;
    var r :| r in Relos(ob) && t in ReloTraces(g, ob.types, r, ReloOrigin(ob.path, r));
    BaseTypeExactly(g, ob.types, r.type_id, false, t.type_id);
    PassesExactly(g, ob.types, r, (t.type_id, t.member_index));
  }
}
