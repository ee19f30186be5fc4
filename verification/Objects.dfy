/** What each input object contributes (`mch_extract_object_seeds_with_requirements` and
    `mch_extract_core_relo_seeds_with_requirements` of src/seeds.c, and the loop over the objects in
    src/main.c): it depends on the object and the base types alone, never on the objects before. */
module Objects {
  import opened Btf
  import opened Bitset
  import opened TypeSets
  import opened BtfIndex
  import opened Requirement
  import opened Access
  import opened Seeds
  import opened Resolve
  import opened ExtInfo

  /** An object file: its types, its `.BTF.ext` data if it has any, and its strings by offset. */
  datatype Object = Object(types: Graph, ext: Ext, strings: map<nat, string>, path: string)

  /** The `.BTF.ext` data, and whether its byte order is the host's. */
  datatype Ext = NoExt | Ext(raw: Bytes, native: bool)

  /** Strings of the file end at their first zero byte. */
  ghost predicate Terminated(strings: map<nat, string>) {
    forall off | off in strings :: '\0' !in strings[off]
  }

  function ReloOf(record: Bytes, strings: map<nat, string>): Relo
    requires |record| >= CORE_RELO_SIZE
  {
    Relo(U32At(record, 4), StringAt(strings, U32At(record, 8)), ReloKindOf(U32At(record, 12)))
  }

  function ReloList(records: seq<Bytes>, strings: map<nat, string>): (relos: seq<Relo>)
    requires forall r | r in records :: |r| >= CORE_RELO_SIZE
    ensures |relos| == |records| && forall i | 0 <= i < |relos| :: relos[i] == ReloOf(records[i], strings)
  {
    seq(|records|, i requires 0 <= i < |records| => ReloOf(records[i], strings))
  }

  /** The relocation records of an object, if the framing of its data is accepted. */
  function ObjectRecords(ob: Object): (f: Frames)
    ensures f.Frames? ==> forall r | r in f.records :: |r| >= CORE_RELO_SIZE
  {
    if ob.ext.NoExt? then Frames([]) else if !ob.ext.native then Broken else CoreRecords(ob.ext.raw)
  }

  function Relos(ob: Object): seq<Relo> {
    var f := ObjectRecords(ob);
    if f.Broken? then [] else ReloList(f.records, ob.strings)
  }

  predicate IsSeed(t: Type) {
    IsIndexedKind(KindOf(t)) && (NameOf(t) != "" || t.Enum?)
  }

  ghost function SeedBase(g: Graph, o: Graph, id: nat): Resolution {
    Resolved(g, o, id, CHAIN_LIMIT, true)
  }

  ghost function ReloBase(g: Graph, o: Graph, r: Relo): Resolution {
    Resolved(g, o, r.type_id, CHAIN_LIMIT, false)
  }

  /** The base types of an object's named types and enums, among those below `n`. */
  ghost function SeedRoots(g: Graph, o: Graph, n: nat): set<nat>
    requires n <= |o|
  {
    set id: nat | 0 < id < n && IsSeed(o[id]) && SeedBase(g, o, id).BaseType? :: SeedBase(g, o, id).id
  }

  ghost predicate SeedsResolve(g: Graph, o: Graph, n: nat)
    requires n <= |o|
  {
    forall id: nat | 0 < id < n && IsSeed(o[id]) :: SeedBase(g, o, id).BaseType? || SeedBase(g, o, id).ProgramLocal?
  }

  /** The base types of relocations. */
  ghost function ReloRoots(g: Graph, o: Graph, relos: seq<Relo>): set<nat> {
    set r | r in relos && ReloBase(g, o, r).BaseType? :: ReloBase(g, o, r).id
  }

  /** The members one relocation marks. */
  ghost function OnePairs(g: Graph, o: Graph, r: Relo): set<(nat, nat)> {
    if ReloBase(g, o, r).BaseType? then StepPairs(ReloTrail(o, g, map[], r, ReloBase(g, o, r).id).steps) else {}
  }

  ghost function ReloPairs(g: Graph, o: Graph, relos: seq<Relo>): set<(nat, nat)> {
    set r, p | r in relos && p in OnePairs(g, o, r) :: p
  }

  ghost predicate ReloResolves(g: Graph, o: Graph, r: Relo) {
    ReloBase(g, o, r).BaseType? && ReloTrail(o, g, map[], r, ReloBase(g, o, r).id).ok
  }

  ghost predicate RelosResolve(g: Graph, o: Graph, relos: seq<Relo>) {
    forall r | r in relos :: ReloResolves(g, o, r)
  }

  ghost function Roots(g: Graph, ob: Object): set<nat> {
    SeedRoots(g, ob.types, |ob.types|) + ReloRoots(g, ob.types, Relos(ob))
  }

  ghost function Pairs(g: Graph, ob: Object): set<(nat, nat)> {
    ReloPairs(g, ob.types, Relos(ob))
  }

  ghost predicate Resolves(g: Graph, ob: Object) {
    && SeedsResolve(g, ob.types, |ob.types|)
    && RelocationsHold(g, ob)
  }

  ghost function AllRoots(g: Graph, obs: seq<Object>): set<nat> {
    set ob, id | ob in obs && id in Roots(g, ob) :: id
  }

  ghost function AllPairs(g: Graph, obs: seq<Object>): set<(nat, nat)> {
    set ob, p | ob in obs && p in Pairs(g, ob) :: p
  }

  ghost predicate AllResolve(g: Graph, obs: seq<Object>) {
    forall ob | ob in obs :: Resolves(g, ob)
  }

  /** The order of the objects changes neither what is required nor whether they all resolve. */
  lemma OrderIsFree(g: Graph, obs: seq<Object>, others: seq<Object>)
    requires multiset(obs) == multiset(others)
    ensures AllRoots(g, obs) == AllRoots(g, others) && AllPairs(g, obs) == AllPairs(g, others)
    ensures AllResolve(g, obs) <==> AllResolve(g, others)
  {
    hide Roots, Pairs, Resolves;
    forall ob
      ensures ob in obs <==> ob in others
    {
      assert ob in obs <==> ob in multiset(obs);
    }
  }

  lemma SeedStart(g: Graph, o: Graph)
    ensures SeedRoots(g, o, 1) == {} && SeedsResolve(g, o, 1)
  {
  }

  lemma SeedsSoFar(g: Graph, o: Graph, n: nat)
    requires n <= |o| && SeedsResolve(g, o, |o|)
    ensures SeedsResolve(g, o, n)
  {
  }

  lemma SeedNext(g: Graph, o: Graph, id: nat)
    requires 0 < id < |o|
    ensures var found := IsSeed(o[id]) && SeedBase(g, o, id).BaseType?;
            SeedRoots(g, o, id + 1) == SeedRoots(g, o, id) + if found then {SeedBase(g, o, id).id} else {}
    ensures SeedsResolve(g, o, id + 1) <==>
              SeedsResolve(g, o, id) &&
              (IsSeed(o[id]) ==> SeedBase(g, o, id).BaseType? || SeedBase(g, o, id).ProgramLocal?)
  {
    hide SeedBase, IsSeed;
  }

  lemma ReloNext(g: Graph, o: Graph, relos: seq<Relo>, r: Relo)
    ensures ReloRoots(g, o, relos + [r]) ==
            ReloRoots(g, o, relos) + if ReloBase(g, o, r).BaseType? then {ReloBase(g, o, r).id} else {}
    ensures ReloPairs(g, o, relos + [r]) == ReloPairs(g, o, relos) + OnePairs(g, o, r)
    ensures RelosResolve(g, o, relos + [r]) <==> RelosResolve(g, o, relos) && ReloResolves(g, o, r)
  {
    hide ReloBase, OnePairs, ReloResolves;
    assert forall s :: s in relos + [r] <==> s in relos || s == r;
  }

  lemma ObjectNext(g: Graph, obs: seq<Object>, ob: Object)
    ensures AllRoots(g, obs + [ob]) == AllRoots(g, obs) + Roots(g, ob)
    ensures AllPairs(g, obs + [ob]) == AllPairs(g, obs) + Pairs(g, ob)
    ensures AllResolve(g, obs + [ob]) <==> AllResolve(g, obs) && Resolves(g, ob)
  {
    hide Roots, Pairs, Resolves;
    assert forall s :: s in obs + [ob] <==> s in obs || s == ob;
  }

  /** One relocation marks members only. */
  lemma OnePairsAreMembers(g: Graph, o: Graph, r: Relo)
    ensures forall p | p in OnePairs(g, o, r) :: IsMember(g, p)
  {
    hide FieldAccess, IsMember, StepPairs, Resolved;
    AccessMarksMembers(o, g, r.type_id, if ReloBase(g, o, r).BaseType? then ReloBase(g, o, r).id else 0, r.access);
    NoStepPairs();
  }

  lemma PairsAreMembers(g: Graph, obs: seq<Object>)
    ensures forall p | p in AllPairs(g, obs) :: IsMember(g, p)
  {
    hide OnePairs, IsMember, Relos;
    forall p | p in AllPairs(g, obs)
      ensures IsMember(g, p)
    {
      var ob :| ob in obs && p in Pairs(g, ob);
      var r :| r in Relos(ob) && p in OnePairs(g, ob.types, r);
      OnePairsAreMembers(g, ob.types, r);
    }
  }

  lemma NoStepPairs()
    ensures StepPairs([]) == {}
  {
  }

  /** Every relocation of every object, replayed on the records pruned to what all of them marked,
      still takes the same steps. */
  lemma RelosSurvive(g: Graph, obs: seq<Object>, ob: Object, r: Relo)
    requires AllResolve(g, obs) && ob in obs && r in Relos(ob)
    ensures var base := ReloBase(g, ob.types, r);
            && base.BaseType?
            && ReloTrail(ob.types, g, map[], r, base.id).ok
            && ReloTrail(ob.types, g, MarkAll(map[], AllPairs(g, obs)), r, base.id) ==
               ReloTrail(ob.types, g, map[], r, base.id)
  {
    hide FieldAccess, MarkAll, StepPairs;
    assert Resolves(g, ob) && ReloResolves(g, ob.types, r);
    var base := ReloBase(g, ob.types, r).id;
    var view := MarkAll(map[], AllPairs(g, obs));
    MarkedShown(map[], AllPairs(g, obs));
    forall p | p in OnePairs(g, ob.types, r)
      ensures Shown(view, p.0, p.1)
    {
      assert p in Pairs(g, ob);
      assert p in AllPairs(g, obs);
    }
    if IsFieldKind(r.kind) {
      AccessSurvives(ob.types, g, view, r.type_id, base, r.access);
    }
  }

  /** What one relocation accounts for: its base type, and the members that it marks. */
  ghost function ReloTraces(g: Graph, o: Graph, r: Relo, origin: Origin): iset<Trace> {
    (if ReloBase(g, o, r).BaseType? then OneRoot(ReloBase(g, o, r).id, origin) else iset{})
    + MemberTraces(OnePairs(g, o, r), origin)
  }

  /** The origin that a relocation of an object is recorded with. */
  function ReloOrigin(path: string, r: Relo): Origin {
    Origin(CoreRelo, path, "", r.access, "")
  }

  ghost function ListTraces(g: Graph, o: Graph, path: string, relos: seq<Relo>): iset<Trace> {
    iset r, t | r in relos && t in ReloTraces(g, o, r, ReloOrigin(path, r)) :: t
  }

  function SeedOrigin(path: string): Origin {
    Origin(ObjectBtf, path, "seed", "", "")
  }

  /** What the types of an object below `n` account for. */
  ghost function SeedTraces(g: Graph, o: Graph, path: string, n: nat): iset<Trace>
    requires n <= |o|
  {
    iset t: Trace | t == Trace(TypeRoot, t.type_id, 0, SeedOrigin(path)) && t.type_id in SeedRoots(g, o, n)
  }

  /** What an object accounts for: each trace names the object, and what in it asks for the requirement. */
  ghost function ObjectTraces(g: Graph, ob: Object): iset<Trace> {
    SeedTraces(g, ob.types, ob.path, |ob.types|) + ListTraces(g, ob.types, ob.path, Relos(ob))
  }

  ghost function AllTraces(g: Graph, obs: seq<Object>): iset<Trace> {
    iset ob, t | ob in obs && t in ObjectTraces(g, ob) :: t
  }

  lemma AddsRoot(a: seq<Trace>, id: nat, origin: Origin)
    ensures Adds(a, a, OneRoot(id, origin)) && Adds(a, a + [Trace(TypeRoot, id, 0, origin)], OneRoot(id, origin))
  {
  }

  ghost function OneRoot(id: nat, origin: Origin): iset<Trace> {
    iset{Trace(TypeRoot, id, 0, origin)}
  }

  /** The state of an extraction: the roots are required, the pairs are marked, and the seeds are the
      roots and the marked records. */
  ghost predicate Stands(x: Extraction, roots: set<nat>, pairs: set<(nat, nat)>)
    reads x, x.seeds, x.seeds.words, x.requirements
    reads x.requirements.type_root_words, x.requirements.record_member_words, x.requirements.record_member_counts
  {
    && x.Valid()
    && x.requirements.Roots() == roots
    && x.requirements.Pruned() == MarkAll(map[], pairs)
    && x.seeds.Ids() == roots + Firsts(pairs)
  }

  /** The index is of the base types, and shares no memory with the extraction. */
  ghost predicate Usable(index: Index, x: Extraction)
    reads index, index.buckets, index.entries
  {
    && index.Valid() && index.g == x.g && index.log == Indexed(index.g, |index.g|)
    && index.buckets != x.requirements.record_member_counts
  }

  /** Requires a base type and seeds it. */
  method RequireType(x: Extraction, id: nat, origin: Origin, ghost roots: set<nat>, ghost pairs: set<(nat, nat)>)
    returns (ok: bool)
    requires Stands(x, roots, pairs) && id < |x.g|
    modifies x.requirements`traces, x.requirements`type_roots, x.requirements.type_root_words
    modifies x.seeds`selected, x.seeds.words
    ensures ok && Stands(x, roots + {id}, pairs)
    ensures Adds(old(x.requirements.traces), x.requirements.traces, OneRoot(id, origin))
  {
    hide Witness, Members, MarkAll, Firsts, Adds;
    AddsRoot(x.requirements.traces, id, origin);
    ok := x.requirements.AddTypeRoot(id, origin);
    var added := x.seeds.Add(id);
    assert roots + Firsts(pairs) + {id} == roots + {id} + Firsts(pairs);
  }

  method ExtractObjectSeeds(index: Index, x: Extraction, o: Graph, path: string, ghost roots: set<nat>,
                            ghost pairs: set<(nat, nat)>)
    returns (ok: bool)
    requires Usable(index, x)
    requires Stands(x, roots, pairs)
    modifies x.requirements`traces, x.requirements`type_roots, x.requirements.type_root_words
    modifies x.seeds`selected, x.seeds.words
    ensures ok <==> SeedsResolve(x.g, o, |o|)
    ensures ok ==> Stands(x, roots + SeedRoots(x.g, o, |o|), pairs)
    ensures ok ==> Adds(old(x.requirements.traces), x.requirements.traces, SeedTraces(x.g, o, path, |o|))
  {
    hide Stands, Index.Valid, SeedRoots, SeedsResolve, Adds, SeedTraces;
    SeedStart(x.g, o);
    NoSeedTraces(x.g, o, path, x.requirements.traces);
    assert roots + {} == roots;
    for id := 1 to |o|
      invariant Stands(x, roots + SeedRoots(x.g, o, id), pairs)
      invariant SeedsResolve(x.g, o, id)
      invariant Adds(old(x.requirements.traces), x.requirements.traces, SeedTraces(x.g, o, path, id))
    {
      SeedNext(x.g, o, id);
      ghost var so_far := x.requirements.traces;
      NextSeedTraces(x.g, o, path, id, old(x.requirements.traces), so_far);
      ghost var before := roots + SeedRoots(x.g, o, id);
      if !IsSeed(o[id]) {
        assert SeedRoots(x.g, o, id + 1) == SeedRoots(x.g, o, id);
        continue;
      }
      var r := ResolveObjectTypeToBase(index, o, id, true);
      if r.ProgramLocal? {
        assert SeedRoots(x.g, o, id + 1) == SeedRoots(x.g, o, id);
        continue;
      }
      if !r.BaseType? {
        if SeedsResolve(x.g, o, |o|) {
          SeedsSoFar(x.g, o, id + 1);
        }
        return false;
      }
      BaseTypeInRange(x.g, o, id, CHAIN_LIMIT, true);
      ok := RequireType(x, r.id, SeedOrigin(path), before, pairs);
      SeedTraced(x.g, o, path, id, old(x.requirements.traces), so_far, x.requirements.traces);
      assert before + {r.id} == roots + SeedRoots(x.g, o, id + 1);
    }
    ok := true;
  }

  lemma NoSeedTraces(g: Graph, o: Graph, path: string, a: seq<Trace>)
    ensures Adds(a, a, SeedTraces(g, o, path, 1))
  {
  }

  lemma NextSeedTraces(g: Graph, o: Graph, path: string, id: nat, a: seq<Trace>, b: seq<Trace>)
    requires 0 < id < |o| && Adds(a, b, SeedTraces(g, o, path, id))
    ensures Adds(a, b, SeedTraces(g, o, path, id + 1))
  {
    SeedNext(g, o, id);
    hide SeedRoots;
  }

  lemma SeedTraced(g: Graph, o: Graph, path: string, id: nat, a: seq<Trace>, b: seq<Trace>, c: seq<Trace>)
    requires 0 < id < |o| && IsSeed(o[id]) && SeedBase(g, o, id).BaseType?
    requires Adds(a, b, SeedTraces(g, o, path, id + 1)) && Adds(b, c, OneRoot(SeedBase(g, o, id).id, SeedOrigin(path)))
    ensures Adds(a, c, SeedTraces(g, o, path, id + 1))
  {
    hide IsSeed, SeedBase, Adds;
    SeedNext(g, o, id);
    AddsBoth(a, b, c, SeedTraces(g, o, path, id + 1), OneRoot(SeedBase(g, o, id).id, SeedOrigin(path)));
    hide SeedRoots;
    assert SeedTraces(g, o, path, id + 1) + OneRoot(SeedBase(g, o, id).id, SeedOrigin(path)) ==
           SeedTraces(g, o, path, id + 1);
  }

  lemma WordsApart(x: Extraction)
    requires x.Valid()
    ensures x.seeds.words != x.requirements.type_root_words
  {
  }

  /** The body of the relocation loop: one record is resolved, required and marked. */
  method ProcessRelo(index: Index, x: Extraction, o: Graph, relo: Relo, origin: Origin,
                     ghost roots: set<nat>, ghost pairs: set<(nat, nat)>)
    returns (ok: bool)
    requires Usable(index, x)
    requires Stands(x, roots, pairs) && '\0' !in relo.access
    modifies x.requirements, x.requirements.type_root_words, x.seeds`selected, x.seeds.words
    modifies x.requirements.record_member_words, x.requirements.record_member_counts
    ensures ok <==> ReloResolves(x.g, o, relo)
    ensures ok ==> Stands(x, roots + {ReloBase(x.g, o, relo).id}, pairs + OnePairs(x.g, o, relo))
    ensures ok ==> Adds(old(x.requirements.traces), x.requirements.traces, ReloTraces(x.g, o, relo, origin))
  {
    hide Index.Valid, Extraction.Valid, ReloTrail, Requirements.Pruned, TypeSet.Ids, Requirements.Roots, MarkAll;
    hide Firsts, Adds, MemberTraces;
    var r := ResolveObjectTypeToBase(index, o, relo.type_id, false);
    if !r.BaseType? {
      return false;
    }
    BaseTypeInRange(x.g, o, relo.type_id, CHAIN_LIMIT, false);
    ok := RequireType(x, r.id, origin, roots, pairs);
    ghost var so_far := x.requirements.traces;
    WordsApart(x);
    ok := x.RecordCoreReloRequirements(o, relo, r.id, origin);
    x.MarkedMore(map[], roots + {r.id}, pairs, OnePairs(x.g, o, relo));
    AddsBoth(old(x.requirements.traces), so_far, x.requirements.traces, OneRoot(r.id, origin),
             MemberTraces(OnePairs(x.g, o, relo), origin));
  }

  lemma BehindOne(whole: Frames, before: seq<Bytes>, r: Bytes, f: Frames)
    requires whole == Behind(before, Behind([r], f))
    ensures whole == Behind(before + [r], f)
  {
    assert f.Frames? ==> before + ([r] + f.records) == (before + [r]) + f.records;
  }

  lemma ListMore(records: seq<Bytes>, r: Bytes, strings: map<nat, string>)
    requires |r| >= CORE_RELO_SIZE && forall s | s in records :: |s| >= CORE_RELO_SIZE
    ensures forall s | s in records + [r] :: |s| >= CORE_RELO_SIZE
    ensures ReloList(records + [r], strings) == ReloList(records, strings) + [ReloOf(r, strings)]
  {
  }

  /** One relocation that does not resolve fails all of them. */
  lemma OneFails(g: Graph, ob: Object, before: seq<Bytes>, r: Bytes, f: Frames)
    requires |r| >= CORE_RELO_SIZE && ObjectRecords(ob) == Behind(before + [r], f)
    requires !ReloResolves(g, ob.types, ReloOf(r, ob.strings))
    ensures !(ObjectRecords(ob).Frames? && RelosResolve(g, ob.types, Relos(ob)))
  {
    hide ReloResolves, ReloOf, ObjectRecords;
    if ObjectRecords(ob).Frames? {
      assert ObjectRecords(ob).records[|before|] == r;
      assert Relos(ob)[|before|] == ReloOf(r, ob.strings);
    }
  }

  ghost predicate RelocationsHold(g: Graph, ob: Object) {
    ObjectRecords(ob).Frames? && RelosResolve(g, ob.types, Relos(ob))
  }

  /** The relocation loop has taken the records `before`, and `rest` is to come. */
  ghost predicate Walking(x: Extraction, ob: Object, roots: set<nat>, pairs: set<(nat, nat)>, before: seq<Bytes>,
                          rest: Frames)
    reads x, x.seeds, x.seeds.words, x.requirements
    reads x.requirements.type_root_words, x.requirements.record_member_words, x.requirements.record_member_counts
  {
    && (forall r | r in before :: |r| >= CORE_RELO_SIZE)
    && ObjectRecords(ob) == Behind(before, rest)
    && var relos := ReloList(before, ob.strings);
    && RelosResolve(x.g, ob.types, relos)
    && Stands(x, roots + ReloRoots(x.g, ob.types, relos), pairs + ReloPairs(x.g, ob.types, relos))
  }

  method NextRecord(index: Index, x: Extraction, ob: Object, record: Bytes, ghost rest: Frames,
                    ghost before: seq<Bytes>, ghost roots: set<nat>, ghost pairs: set<(nat, nat)>)
    returns (ok: bool)
    requires Usable(index, x) && Terminated(ob.strings) && |record| >= CORE_RELO_SIZE
    requires Walking(x, ob, roots, pairs, before, Behind([record], rest))
    modifies x.requirements, x.requirements.type_root_words, x.seeds`selected, x.seeds.words
    modifies x.requirements.record_member_words, x.requirements.record_member_counts
    ensures Usable(index, x)
    ensures ok ==> Walking(x, ob, roots, pairs, before + [record], rest)
    ensures !ok ==> !RelocationsHold(x.g, ob)
    ensures ok ==>
              var relo := ReloOf(record, ob.strings);
              Adds(old(x.requirements.traces), x.requirements.traces,
                   ReloTraces(x.g, ob.types, relo, ReloOrigin(ob.path, relo)))
  {
    hide Stands, Index.Valid, ReloRoots, ReloPairs, RelosResolve, ReloOf, OnePairs, ObjectRecords, ReloResolves;
    hide ReloBase, Adds, ReloTraces;
    BehindOne(ObjectRecords(ob), before, record, rest);
    var relo := ReloOf(record, ob.strings);
    AccessEnds(record, ob.strings);
    ghost var relos := ReloList(before, ob.strings);
    ghost var r, p := roots + ReloRoots(x.g, ob.types, relos), pairs + ReloPairs(x.g, ob.types, relos);
    ok := ProcessRelo(index, x, ob.types, relo, ReloOrigin(ob.path, relo), r, p);
    if !ok {
      OneFails(x.g, ob, before, record, rest);
      return;
    }
    ReloNext(x.g, ob.types, relos, relo);
    ListMore(before, record, ob.strings);
    ResolvedBase(x.g, ob.types, relo);
    Gathered(x, roots, pairs, r, p, relos, ob.types, relo);
  }

  lemma ResolvedBase(g: Graph, o: Graph, r: Relo)
    requires ReloResolves(g, o, r)
    ensures ReloBase(g, o, r).BaseType?
  {
  }

  /** The loop has taken `before`, which read as `relos`, and has recorded what they account for. */
  ghost predicate Taken(x: Extraction, ob: Object, roots: set<nat>, pairs: set<(nat, nat)>, before: seq<Bytes>,
                        relos: seq<Relo>, traces: seq<Trace>, rest: Frames)
    reads x, x.seeds, x.seeds.words, x.requirements
    reads x.requirements.type_root_words, x.requirements.record_member_words, x.requirements.record_member_counts
  {
    && Walking(x, ob, roots, pairs, before, rest) && ReadAs(before, relos, ob.strings)
    && Adds(traces, x.requirements.traces, ListTraces(x.g, ob.types, ob.path, relos))
  }

  /** One record of the loop. */
  method TakeRecord(index: Index, x: Extraction, ob: Object, record: Bytes, ghost rest: Frames,
                    ghost before: seq<Bytes>, ghost relos: seq<Relo>, ghost traces: seq<Trace>,
                    ghost roots: set<nat>, ghost pairs: set<(nat, nat)>)
    returns (ok: bool)
    requires Usable(index, x) && Terminated(ob.strings) && |record| >= CORE_RELO_SIZE
    requires Taken(x, ob, roots, pairs, before, relos, traces, Behind([record], rest))
    modifies x.requirements, x.requirements.type_root_words, x.seeds`selected, x.seeds.words
    modifies x.requirements.record_member_words, x.requirements.record_member_counts
    ensures Usable(index, x)
    ensures ok ==> Taken(x, ob, roots, pairs, before + [record], relos + [ReloOf(record, ob.strings)], traces, rest)
    ensures !ok ==> !RelocationsHold(x.g, ob)
  {
    hide Usable, Walking, ReadAs, Adds, ListTraces, ReloTraces, RelocationsHold, Terminated, Behind, ReloOf;
    ghost var so_far := x.requirements.traces;
    ok := NextRecord(index, x, ob, record, rest, before, roots, pairs);
    if ok {
      ListTraced(x.g, ob, before, relos, record, traces, so_far, x.requirements.traces);
    }
  }

  /** The records of one section. */
  method WalkSection(index: Index, x: Extraction, ob: Object, start: nat, end: nat, size: nat, num_info: nat,
                     ghost before: seq<Bytes>, ghost relos: seq<Relo>, ghost traces: seq<Trace>,
                     ghost roots: set<nat>, ghost pairs: set<(nat, nat)>)
    returns (ok: bool, pos: nat, ghost after: seq<Bytes>, ghost read: seq<Relo>)
    requires Usable(index, x) && Terminated(ob.strings)
    requires ob.ext.Ext? && start <= end <= |ob.ext.raw| && size >= CORE_RELO_SIZE
    requires Taken(x, ob, roots, pairs, before, relos, traces, Records(size, num_info, ob.ext.raw[start..end]))
    modifies x.requirements, x.requirements.type_root_words, x.seeds`selected, x.seeds.words
    modifies x.requirements.record_member_words, x.requirements.record_member_counts
    ensures Usable(index, x) && start <= pos <= end
    ensures ok ==> Taken(x, ob, roots, pairs, after, read, traces, Records(size, 0, ob.ext.raw[pos..end]))
    ensures !ok ==> !RelocationsHold(x.g, ob)
  {
    hide Usable, Taken, RelocationsHold, Terminated, Behind, Records, ReloOf;
    var raw := ob.ext.raw;
    pos, after, read := start, before, relos;
    for i := 0 to num_info
      invariant start <= pos <= end && Usable(index, x)
      invariant Taken(x, ob, roots, pairs, after, read, traces, Records(size, num_info - i, raw[pos..end]))
    {
      RecordNext(size, num_info - i, raw, pos, end);
      if end - pos < size {
        WalkBreaks(x, ob, roots, pairs, after, read, traces);
        ok := false;
        return;
      }
      var record := raw[pos..pos + size];
      pos := pos + size;
      ok := TakeRecord(index, x, ob, record, Records(size, num_info - i - 1, raw[pos..end]), after, read, traces, roots,
                       pairs);
      if !ok {
        return;
      }
      after, read := after + [record], read + [ReloOf(record, ob.strings)];
    }
    ok := true;
  }

  /** The relocation loop. The check for trailing bytes that follows it can never fail. */
  method WalkRecords(index: Index, x: Extraction, ob: Object, start: nat, end: nat, size: nat,
                     ghost roots: set<nat>, ghost pairs: set<(nat, nat)>)
    returns (ok: bool)
    requires Usable(index, x)
    requires Stands(x, roots, pairs) && Terminated(ob.strings)
    requires ob.ext.Ext? && start <= end <= |ob.ext.raw| && size >= CORE_RELO_SIZE
    requires ObjectRecords(ob) == Records(size, 0, ob.ext.raw[start..end])
    modifies x.requirements, x.requirements.type_root_words, x.seeds`selected, x.seeds.words
    modifies x.requirements.record_member_words, x.requirements.record_member_counts
    ensures ok <==> RelocationsHold(x.g, ob)
    ensures ok ==> Stands(x, roots + ReloRoots(x.g, ob.types, Relos(ob)), pairs + ReloPairs(x.g, ob.types, Relos(ob)))
    ensures ok ==> Adds(old(x.requirements.traces), x.requirements.traces,
                        ListTraces(x.g, ob.types, ob.path, Relos(ob)))
  {
    hide Usable, Taken, Stands, ObjectRecords, RelocationsHold, U32At, ReloRoots, ReloPairs, Terminated;
    hide Behind, Records, Adds, ListTraces;
    var raw, pos := ob.ext.raw, start;
    ghost var before: seq<Bytes>, relos: seq<Relo> := [], [];
    WalkStarts(x, ob, roots, pairs, Records(size, 0, raw[pos..end]));
    while pos < end
      invariant start <= pos <= end && Usable(index, x)
      invariant Taken(x, ob, roots, pairs, before, relos, old(x.requirements.traces), Records(size, 0, raw[pos..end]))
    {
      HeadNext(size, raw, pos, end);
      if end - pos < SECTION_SIZE {
        WalkBreaks(x, ob, roots, pairs, before, relos, old(x.requirements.traces));
        return false;
      }
      var num_info := U32At(raw, pos + 4);
      ok, pos, before, relos := WalkSection(index, x, ob, pos + SECTION_SIZE, end, size, num_info, before, relos,
                                            old(x.requirements.traces), roots, pairs);
      if !ok {
        return;
      }
    }
    if pos != end {
      return false;
    }
    EndReads(size, raw[pos..end]);
    WalkEnds(x, ob, roots, pairs, before, relos, old(x.requirements.traces));
    return true;
  }

  /** The relocations that some records read as. */
  ghost predicate ReadAs(records: seq<Bytes>, relos: seq<Relo>, strings: map<nat, string>) {
    && |relos| == |records|
    && forall i | 0 <= i < |records| :: |records[i]| >= CORE_RELO_SIZE && relos[i] == ReloOf(records[i], strings)
  }

  lemma NoListTraces(g: Graph, ob: Object, a: seq<Trace>)
    ensures ReadAs([], [], ob.strings) && Adds(a, a, ListTraces(g, ob.types, ob.path, []))
  {
  }

  lemma ListTraced(g: Graph, ob: Object, before: seq<Bytes>, relos: seq<Relo>, record: Bytes,
                   a: seq<Trace>, b: seq<Trace>, c: seq<Trace>)
    requires |record| >= CORE_RELO_SIZE && ReadAs(before, relos, ob.strings)
    requires Adds(a, b, ListTraces(g, ob.types, ob.path, relos))
    requires var r := ReloOf(record, ob.strings); Adds(b, c, ReloTraces(g, ob.types, r, ReloOrigin(ob.path, r)))
    ensures var more := relos + [ReloOf(record, ob.strings)];
            ReadAs(before + [record], more, ob.strings) && Adds(a, c, ListTraces(g, ob.types, ob.path, more))
  {
    hide Adds, ReloTraces, ReloOf, ReloOrigin;
    var r := ReloOf(record, ob.strings);
    AddsBoth(a, b, c, ListTraces(g, ob.types, ob.path, relos), ReloTraces(g, ob.types, r, ReloOrigin(ob.path, r)));
    assert forall q :: q in relos + [r] <==> q in relos || q == r;
    assert ListTraces(g, ob.types, ob.path, relos + [r]) ==
           ListTraces(g, ob.types, ob.path, relos) + ReloTraces(g, ob.types, r, ReloOrigin(ob.path, r));
  }

  lemma WalkStarts(x: Extraction, ob: Object, roots: set<nat>, pairs: set<(nat, nat)>, f: Frames)
    requires ObjectRecords(ob) == f && Stands(x, roots, pairs)
    ensures Taken(x, ob, roots, pairs, [], [], x.requirements.traces, f)
  {
    hide Stands, ObjectRecords, Records, ListTraces, Adds;
    NothingYet(x, ob, roots, pairs, f);
    NoListTraces(x.g, ob, x.requirements.traces);
  }

  lemma WalkBreaks(x: Extraction, ob: Object, roots: set<nat>, pairs: set<(nat, nat)>, before: seq<Bytes>,
                   relos: seq<Relo>, traces: seq<Trace>)
    requires Taken(x, ob, roots, pairs, before, relos, traces, Broken)
    ensures !RelocationsHold(x.g, ob)
  {
    hide Adds, ListTraces, Stands;
  }

  lemma WalkEnds(x: Extraction, ob: Object, roots: set<nat>, pairs: set<(nat, nat)>, before: seq<Bytes>,
                 relos: seq<Relo>, traces: seq<Trace>)
    requires Taken(x, ob, roots, pairs, before, relos, traces, Frames([]))
    ensures RelocationsHold(x.g, ob) && Relos(ob) == relos
    ensures Stands(x, roots + ReloRoots(x.g, ob.types, Relos(ob)), pairs + ReloPairs(x.g, ob.types, Relos(ob)))
    ensures Adds(traces, x.requirements.traces, ListTraces(x.g, ob.types, ob.path, Relos(ob)))
  {
    hide Stands, ReloRoots, ReloPairs, RelosResolve, ReloOf, Adds, ListTraces, ObjectRecords;
    assert before + [] == before;
  }

  lemma NothingYet(x: Extraction, ob: Object, roots: set<nat>, pairs: set<(nat, nat)>, f: Frames)
    ensures f == Behind([], f) && ReloList([], ob.strings) == [] && RelosResolve(x.g, ob.types, [])
    ensures roots + ReloRoots(x.g, ob.types, []) == roots && pairs + ReloPairs(x.g, ob.types, []) == pairs
  {
    assert f.Frames? ==> [] + f.records == f.records;
    assert ReloRoots(x.g, ob.types, []) == {} && ReloPairs(x.g, ob.types, []) == {};
  }

  lemma EndReads(size: nat, s: Bytes)
    requires size > 0 && s == []
    ensures Records(size, 0, s) == Frames([])
  {
  }

  lemma HeadNext(size: nat, raw: Bytes, pos: nat, end: nat)
    requires pos < end <= |raw| && size > 0
    ensures Records(size, 0, raw[pos..end]) ==
            if end - pos < SECTION_SIZE then Broken
            else Records(size, U32At(raw, pos + 4), raw[pos + SECTION_SIZE..end])
  {
    if end - pos >= SECTION_SIZE {
      SectionHead(raw, pos, end);
    }
  }

  lemma RecordNext(size: nat, left: nat, raw: Bytes, pos: nat, end: nat)
    requires pos <= end <= |raw| && size > 0 && left > 0
    ensures Records(size, left, raw[pos..end]) ==
            if end - pos < size then Broken
            else Behind([raw[pos..pos + size]], Records(size, left - 1, raw[pos + size..end]))
  {
    if end - pos >= size {
      assert raw[pos..end][..size] == raw[pos..pos + size] && raw[pos..end][size..] == raw[pos + size..end];
    }
  }

  lemma AccessEnds(record: Bytes, strings: map<nat, string>)
    requires |record| >= CORE_RELO_SIZE && Terminated(strings)
    ensures '\0' !in ReloOf(record, strings).access
  {
  }

  lemma Gathered(x: Extraction, roots: set<nat>, pairs: set<(nat, nat)>, r: set<nat>, p: set<(nat, nat)>,
                 relos: seq<Relo>, o: Graph, relo: Relo)
    requires r == roots + ReloRoots(x.g, o, relos) && p == pairs + ReloPairs(x.g, o, relos)
    requires ReloBase(x.g, o, relo).BaseType?
    ensures r + {ReloBase(x.g, o, relo).id} == roots + ReloRoots(x.g, o, relos + [relo])
    ensures p + OnePairs(x.g, o, relo) == pairs + ReloPairs(x.g, o, relos + [relo])
  {
    hide ReloRoots, ReloPairs, ReloBase, OnePairs;
    ReloNext(x.g, o, relos, relo);
  }

  lemma NoRecords(x: Extraction, ob: Object, roots: set<nat>, pairs: set<(nat, nat)>)
    requires ObjectRecords(ob) == Frames([])
    ensures RelocationsHold(x.g, ob)
    ensures roots + ReloRoots(x.g, ob.types, Relos(ob)) == roots && pairs + ReloPairs(x.g, ob.types, Relos(ob)) == pairs
    ensures Relos(ob) == []
  {
    assert Relos(ob) == [];
    NothingYet(x, ob, roots, pairs, ObjectRecords(ob));
  }

  /** `mch_extract_core_relo_seeds_with_requirements`. */
  method ExtractCoreReloSeeds(index: Index, x: Extraction, ob: Object, ghost roots: set<nat>,
                              ghost pairs: set<(nat, nat)>)
    returns (ok: bool)
    requires Usable(index, x)
    requires Stands(x, roots, pairs) && Terminated(ob.strings)
    modifies x.requirements, x.requirements.type_root_words, x.seeds`selected, x.seeds.words
    modifies x.requirements.record_member_words, x.requirements.record_member_counts
    ensures ok <==> RelocationsHold(x.g, ob)
    ensures ok ==> Stands(x, roots + ReloRoots(x.g, ob.types, Relos(ob)), pairs + ReloPairs(x.g, ob.types, Relos(ob)))
    ensures ok ==> Adds(old(x.requirements.traces), x.requirements.traces,
                        ListTraces(x.g, ob.types, ob.path, Relos(ob)))
  {
    hide Usable, Stands, ReloRoots, ReloPairs, RelosResolve, U32At, Records, ListTraces;
    NoListTraces(x.g, ob, x.requirements.traces);
    hide Adds;
    if ob.ext.NoExt? {
      NoRecords(x, ob, roots, pairs);
      return true;
    }
    if !ob.ext.native {
      return false;
    }
    var raw := ob.ext.raw;
    if |raw| < HEADER_SIZE {
      return false;
    }
    if raw[0] + 0x100 * (raw[1] as int) != BTF_MAGIC || raw[2] != BTF_VERSION {
      return false;
    }
    var hdr_len := U32At(raw, 4);
    if hdr_len < HEADER_SIZE || hdr_len > |raw| {
      return false;
    }
    var core_relo_off, core_relo_len := U32At(raw, 24), U32At(raw, 28);
    if core_relo_len == 0 {
      NoRecords(x, ob, roots, pairs);
      return true;
    }
    var core_info;
    ok, core_info := InitExtInfo(raw, hdr_len, core_relo_off, core_relo_len, CORE_RELO_SIZE, true);
    if !ok {
      return;
    }
    ok := WalkRecords(index, x, ob, core_info.pos, core_info.end, core_info.rec_size, roots, pairs);
  }

  /** The loop over the objects: each adds what it asks for to what the others did. */
  method ExtractAll(index: Index, x: Extraction, obs: seq<Object>) returns (ok: bool)
    requires Usable(index, x) && Stands(x, {}, {}) && forall ob | ob in obs :: Terminated(ob.strings)
    modifies x.requirements, x.requirements.type_root_words, x.seeds`selected, x.seeds.words
    modifies x.requirements.record_member_words, x.requirements.record_member_counts
    ensures ok <==> AllResolve(x.g, obs)
    ensures ok ==> Stands(x, AllRoots(x.g, obs), AllPairs(x.g, obs))
    ensures ok ==> Adds(old(x.requirements.traces), x.requirements.traces, AllTraces(x.g, obs))
  {
    hide Index.Valid, Stands, AllRoots, AllPairs, SeedRoots, SeedsResolve, ReloRoots, ReloPairs, RelocationsHold;
    hide AllResolve, Terminated, SeedTraces, ListTraces;
    NoObjects(x.g);
    NoObjectTraces(x.g, x.requirements.traces);
    hide Adds, AllTraces;
    for i := 0 to |obs|
      invariant Usable(index, x) && AllResolve(x.g, obs[..i])
      invariant Stands(x, AllRoots(x.g, obs[..i]), AllPairs(x.g, obs[..i]))
      invariant Adds(old(x.requirements.traces), x.requirements.traces, AllTraces(x.g, obs[..i]))
    {
      var ob := obs[i];
      ghost var so_far := x.requirements.traces;
      assert obs[..i + 1] == obs[..i] + [ob];
      ObjectNext(x.g, obs[..i], ob);
      ghost var roots, pairs := AllRoots(x.g, obs[..i]), AllPairs(x.g, obs[..i]);
      ok := ExtractObjectSeeds(index, x, ob.types, ob.path, roots, pairs);
      if !ok {
        SomeFails(x.g, obs, ob);
        return;
      }
      roots := roots + SeedRoots(x.g, ob.types, |ob.types|);
      ghost var seeded := x.requirements.traces;
      ok := ExtractCoreReloSeeds(index, x, ob, roots, pairs);
      if !ok {
        SomeFails(x.g, obs, ob);
        return;
      }
      RootsAssoc(x.g, AllRoots(x.g, obs[..i]), ob);
      ObjectTraced(x.g, obs[..i], ob, old(x.requirements.traces), so_far, seeded, x.requirements.traces);
    }
    assert obs[..|obs|] == obs;
    ok := true;
  }

  lemma NoObjectTraces(g: Graph, a: seq<Trace>)
    ensures Adds(a, a, AllTraces(g, []))
  {
  }

  lemma ObjectTraced(g: Graph, obs: seq<Object>, ob: Object, a: seq<Trace>, b: seq<Trace>, c: seq<Trace>, d: seq<Trace>)
    requires Adds(a, b, AllTraces(g, obs)) && Adds(b, c, SeedTraces(g, ob.types, ob.path, |ob.types|))
    requires Adds(c, d, ListTraces(g, ob.types, ob.path, Relos(ob)))
    ensures Adds(a, d, AllTraces(g, obs + [ob]))
  {
    hide Adds, SeedTraces, ListTraces;
    AddsBoth(b, c, d, SeedTraces(g, ob.types, ob.path, |ob.types|), ListTraces(g, ob.types, ob.path, Relos(ob)));
    AddsBoth(a, b, d, AllTraces(g, obs), ObjectTraces(g, ob));
    assert forall o :: o in obs + [ob] <==> o in obs || o == ob;
    hide ObjectTraces;
    assert AllTraces(g, obs + [ob]) == AllTraces(g, obs) + ObjectTraces(g, ob);
  }

  lemma NoObjects(g: Graph)
    ensures AllRoots(g, []) == {} && AllPairs(g, []) == {} && AllResolve(g, [])
  {
  }

  lemma SomeFails(g: Graph, obs: seq<Object>, ob: Object)
    requires ob in obs && !Resolves(g, ob)
    ensures !AllResolve(g, obs)
  {
  }

  lemma RootsAssoc(g: Graph, before: set<nat>, ob: Object)
    ensures before + SeedRoots(g, ob.types, |ob.types|) + ReloRoots(g, ob.types, Relos(ob)) == before + Roots(g, ob)
  {
  }
}
