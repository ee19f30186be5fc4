/** The whole program (src/main.c): from a base type graph and some objects to the text of a header,
    and what the user is promised of it. */
module Pipeline {
  import opened Btf
  import opened Bitset
  import opened TypeSets
  import opened Meaning
  import opened Walk
  import opened WalkOnce
  import opened HeaderScope
  import opened HeaderPruned
  import opened HeaderText
  import opened Printer
  import opened Closure
  import opened BtfIndex
  import opened Seeds
  import opened Objects
  import opened Emission
  import Requirement

  /** What the objects prune the records to. */
  ghost function Kept(g: Graph, obs: seq<Object>): Marks {
    MarkAll(map[], AllPairs(g, obs))
  }

  ghost function Seeded(g: Graph, obs: seq<Object>): set<nat> {
    AllRoots(g, obs) + Firsts(AllPairs(g, obs))
  }

  ghost function OptionsOf(g: Graph, obs: seq<Object>, expand: bool): Options {
    Options(Kept(g, obs), expand)
  }

  /** The types the header is about: all that the seeds depend on. */
  ghost function Needed(g: Graph, obs: seq<Object>, expand: bool): set<nat> {
    set id: nat | id < |g| && Reached(g, OptionsOf(g, obs, expand), Seeded(g, obs), id)
  }

  ghost predicate NeedsInRange(g: Graph, obs: seq<Object>, expand: bool) {
    forall id: nat | Reached(g, OptionsOf(g, obs, expand), Seeded(g, obs), id) :: id < |g|
  }

  ghost function BaseOf(g: Graph, obs: seq<Object>, rank: seq<nat>): Base {
    Base(g, Kept(g, obs), rank)
  }

  ghost function IdsOf(g: Graph, obs: seq<Object>, expand: bool): (ids: seq<nat>)
    ensures InRange(g, ids) && forall id :: id in ids <==> id in Needed(g, obs, expand) && id != 0
  {
    var ids := Listing(Needed(g, obs, expand), 1, |g|);
    assert forall i | 0 <= i < |ids| :: ids[i] in ids;
    ids
  }

  ghost function HeaderOf(g: Graph, obs: seq<Object>, expand: bool, rank: seq<nat>): Outcome
    requires Ranked(BaseOf(g, obs, rank))
  {
    Header(BaseOf(g, obs, rank), IdsOf(g, obs, expand))
  }

  ghost predicate Succeeds(g: Graph, obs: seq<Object>, expand: bool, rank: seq<nat>)
    requires Ranked(BaseOf(g, obs, rank))
  {
    AllResolve(g, obs) && NeedsInRange(g, obs, expand) && HeaderOf(g, obs, expand, rank).Done?
  }

  /** The declarations of the header. */
  ghost function Declared(g: Graph, obs: seq<Object>, expand: bool, rank: seq<nat>): seq<Decl>
    requires Ranked(BaseOf(g, obs, rank)) && Succeeds(g, obs, expand, rank)
  {
    HeaderOf(g, obs, expand, rank).st.out
  }

  /** The graph as the source has it, all members shown. */
  ghost function SourceOf(g: Graph, rank: seq<nat>): Base {
    Base(g, map[], rank)
  }

  /** The declarations of a successful header are all about types of the right kind. */
  lemma DeclaredOfKind(g: Graph, obs: seq<Object>, expand: bool, rank: seq<nat>)
    requires Ranked(BaseOf(g, obs, rank)) && Succeeds(g, obs, expand, rank)
    ensures forall d | d in Declared(g, obs, expand, rank) :: OfKind(BaseOf(g, obs, rank), d)
  {
    var c, ids := BaseOf(g, obs, rank), IdsOf(g, obs, expand);
    IdsDistinct(g, obs, expand);
    PrologueOnce(c, ids);
    AllOnce(c, HeaderJobs(c.g, ids), Prologue(c.g, ids));
  }

  lemma IdsDistinct(g: Graph, obs: seq<Object>, expand: bool)
    ensures Distinct(IdsOf(g, obs, expand))
  {
    ListingAscends(Needed(g, obs, expand), 1, |g|);
  }

  /** The text of the header. */
  ghost function TextOfHeader(g: Graph, obs: seq<Object>, expand: bool, rank: seq<nat>): Text
    requires Ranked(BaseOf(g, obs, rank)) && Succeeds(g, obs, expand, rank)
  {
    DeclaredOfKind(g, obs, expand, rank);
    RenderAll(BaseOf(g, obs, rank), Declared(g, obs, expand, rank))
  }

  /** The header does not depend on the order of the objects: permuting them changes neither whether
      it is printed nor a word of it. */
  lemma ObjectOrderIsFree(g: Graph, obs: seq<Object>, others: seq<Object>, expand: bool, rank: seq<nat>)
    requires Ranked(SourceOf(g, rank)) && multiset(obs) == multiset(others)
    ensures Ranked(BaseOf(g, obs, rank)) && Ranked(BaseOf(g, others, rank))
    ensures Succeeds(g, obs, expand, rank) <==> Succeeds(g, others, expand, rank)
    ensures Succeeds(g, obs, expand, rank) ==>
              TextOfHeader(g, obs, expand, rank) == TextOfHeader(g, others, expand, rank)
  {
    hide Ranked, Kept, Needed, NeedsInRange, Header, InRange, RenderAll, AllResolve, IdsOf, OfKind;
    RankedPruned(SourceOf(g, rank), BaseOf(g, obs, rank));
    OrderIsFree(g, obs, others);
    OrderIsFreeForNeeds(g, obs, others, expand);
  }

  lemma OrderIsFreeForNeeds(g: Graph, obs: seq<Object>, others: seq<Object>, expand: bool)
    requires multiset(obs) == multiset(others)
    ensures Kept(g, obs) == Kept(g, others) && Needed(g, obs, expand) == Needed(g, others, expand)
    ensures NeedsInRange(g, obs, expand) <==> NeedsInRange(g, others, expand)
    ensures IdsOf(g, obs, expand) == IdsOf(g, others, expand)
  {
    hide AllRoots, AllPairs, MarkAll, Firsts, Reached, AllResolve;
    OrderIsFree(g, obs, others);
    assert OptionsOf(g, obs, expand) == OptionsOf(g, others, expand) && Seeded(g, obs) == Seeded(g, others);
  }

  /** The first half of the program: the index of the base types, and what each object asks for. */
  method CollectRequirements(g: Graph, obs: seq<Object>, hash: Hash) returns (ok: bool, x: Extraction)
    requires Encodable(g) && forall ob | ob in obs :: Terminated(ob.strings)
    ensures x.g == g && fresh(x.seeds) && fresh(x.seeds.words)
    ensures ok ==> AllResolve(g, obs) && Stands(x, AllRoots(g, obs), AllPairs(g, obs))
    ensures ok ==> forall t | t in x.requirements.traces :: t in AllTraces(g, obs)
    ensures AllResolve(g, obs) && |g| <= 0x4000_0001 ==> ok
  {
    hide AllTraces, AllResolve, AllRoots, AllPairs, MarkAll, Firsts, BtfIndex.Table, Requirement.Witness, Members;
    hide Terminated;
    x := new Extraction(g);
    var index := new Index(g, hash);
    ok := index.Init();
    if ok {
      Nothing();
      ok := ExtractAll(index, x, obs);
    }
  }

  /** The second half: the closure of the seeds, and the header. */
  method EmitNeeded(g: Graph, obs: seq<Object>, expand_pointers: bool, x: Extraction, ghost rank: seq<nat>)
    returns (ok: bool, text: Text)
    requires Ranked(BaseOf(g, obs, rank)) && AllResolve(g, obs)
    requires x.g == g && Stands(x, AllRoots(g, obs), AllPairs(g, obs))
    modifies x.seeds`selected, x.seeds.words
    ensures ok <==> Succeeds(g, obs, expand_pointers, rank)
    ensures ok ==> text == TextOfHeader(g, obs, expand_pointers, rank)
  {
    hide Ranked, Header, RenderAll, Reached, AllRoots, AllPairs, MarkAll, Firsts, Members, AllResolve, Listing;
    hide Requirement.Witness;
    text := [];
    var options := Options(x.requirements.Pruned(), expand_pointers);
    assert options == OptionsOf(g, obs, expand_pointers) && x.seeds.Ids() == Seeded(g, obs);
    var added_types;
    ghost var steps;
    ok, added_types, steps := ComputeDependencyClosure(g, options, x.seeds);
    if !ok {
      assert !NeedsInRange(g, obs, expand_pointers);
      return;
    }
    ClosureIsNeeded(g, obs, expand_pointers, x.seeds.Ids());
    var emitter := new Emitter(g, options.marks, rank);
    ok := emitter.EmitHeader(x.seeds);
    if ok {
      text := emitter.out;
    }
  }

  lemma ClosureIsNeeded(g: Graph, obs: seq<Object>, expand: bool, s: set<nat>)
    requires NeedsInRange(g, obs, expand) && IsClosure(g, OptionsOf(g, obs, expand), Seeded(g, obs), s)
    ensures s == Needed(g, obs, expand) && IdsOf(g, obs, expand) == Listing(s, 1, |g|)
  {
    hide Reached, Kept, Seeded;
  }

  /** The program: index, seeds and requirements of each object, closure, header. */
  method GenerateHeader(g: Graph, obs: seq<Object>, expand_pointers: bool, hash: Hash, ghost rank: seq<nat>)
    returns (ok: bool, text: Text)
    requires Encodable(g) && Ranked(SourceOf(g, rank)) && forall ob | ob in obs :: Terminated(ob.strings)
    ensures Ranked(BaseOf(g, obs, rank))
    ensures ok ==> Succeeds(g, obs, expand_pointers, rank) && text == TextOfHeader(g, obs, expand_pointers, rank)
    ensures Succeeds(g, obs, expand_pointers, rank) && |g| <= 0x4000_0001 ==> ok
  {
    hide Ranked, Encodable, AllResolve, Terminated, Stands, Kept, TextOfHeader, AllRoots, AllPairs;
    RankedPruned(SourceOf(g, rank), BaseOf(g, obs, rank));
    text := [];
    var x;
    ok, x := CollectRequirements(g, obs, hash);
    if ok {
      ok, text := EmitNeeded(g, obs, expand_pointers, x, rank);
    }
  }

  lemma Nothing()
    ensures MarkAll(map[], {}) == map[] && Firsts({}) == {}
  {
    MarkNone(map[]);
  }
}
