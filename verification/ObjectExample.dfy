/** One object with one relocation against a small base: all hypotheses hold of it, the record is
    pruned to the member it accesses, and the header is printed, legal, and has that member. */
module ObjectExample {
  import opened Btf
  import opened Bitset
  import opened CSyntax
  import opened Scope
  import opened Meaning
  import opened Declarators
  import opened Walk
  import opened InPlay
  import opened WalkOnce
  import opened WalkScope
  import opened HeaderScope
  import opened HeaderExact
  import opened HeaderSuccess
  import opened HeaderLegal
  import opened HeaderRegular
  import opened Closure
  import opened Access
  import opened AccessString
  import opened Numerals
  import opened Seeds
  import opened Requirement
  import opened BtfIndex
  import opened Resolve
  import opened ExtInfo
  import opened Objects
  import opened Pipeline
  import opened Promises
  import opened Hypotheses

  /** struct task { int pid; struct task *next; }; */
  ghost predicate IsBase(g: Graph) {
    && |g| == 4 && g[1] == Scalar(false, "int") && g[3] == Ptr(2)
    && g[2] == Record(false, "task", [Member("pid", 1, 0), Member("next", 3, 0)])
  }

  /** struct task { int pid; }; as the object has it */
  ghost predicate IsLocal(o: Graph) {
    |o| == 3 && o[1] == Scalar(false, "int") && o[2] == Record(false, "task", [Member("pid", 1, 0)])
  }

  /** A header of 32 bytes, the record size, and one section of one relocation: the offset of member 0
      of type 2, the access string at offset 1. */
  ghost predicate IsRaw(raw: Bytes) {
    && |raw| == 60
    && raw[0] == 0x9F && raw[1] == 0xEB && raw[2] == 1 && raw[3] == 0
    && U32At(raw, 4) == 32 && U32At(raw, 24) == 0 && U32At(raw, 28) == 28
    && U32At(raw, 32) == 16 && U32At(raw, 40) == 1
    && U32At(raw, 48) == 2 && U32At(raw, 52) == 1 && U32At(raw, 56) == 0
  }

  ghost predicate IsObject(ob: Object) {
    IsLocal(ob.types) && ob.ext.Ext? && ob.ext.native && IsRaw(ob.ext.raw) && ob.strings == map[1 := "0:0"]
  }

  lemma ObjectExists() returns (g: Graph, ob: Object)
    ensures IsBase(g) && IsObject(ob)
  {
    g := [Void, Scalar(false, "int"), Record(false, "task", [Member("pid", 1, 0), Member("next", 3, 0)]), Ptr(2)];
    var types: Graph := [Void, Scalar(false, "int"), Record(false, "task", [Member("pid", 1, 0)])];
    var raw := RawExists();
    ob := Object(types, Ext(raw, true), map[1 := "0:0"], "probe.o");
  }

  /** The bytes of the data. */
  function ByteAt(i: nat): byte {
    match i
    case 0 => 0x9F
    case 1 => 0xEB
    case 2 => 1
    case 4 => 32
    case 28 => 28
    case 32 => 16
    case 40 => 1
    case 48 => 2
    case 52 => 1
    case _ => 0
  }

  ghost predicate HasBytes(raw: Bytes) {
    |raw| == 60 && forall i | 0 <= i < 60 :: raw[i] == ByteAt(i)
  }

  lemma RawExists() returns (raw: Bytes)
    ensures IsRaw(raw)
  {
    raw := seq(60, i requires 0 <= i < 60 => ByteAt(i));
    assert HasBytes(raw);
    assert raw[0] == ByteAt(0) && raw[1] == ByteAt(1) && raw[2] == ByteAt(2) && raw[3] == ByteAt(3);
    hide U32At, HasBytes;
    ReadsByte(raw, 4);
    ReadsByte(raw, 24);
    ReadsByte(raw, 28);
    ReadsByte(raw, 32);
    ReadsByte(raw, 40);
    ReadsByte(raw, 48);
    ReadsByte(raw, 52);
    ReadsByte(raw, 56);
  }

  lemma ReadsByte(raw: Bytes, pos: nat)
    requires HasBytes(raw) && pos + 4 <= 60 && ByteAt(pos + 1) == ByteAt(pos + 2) == ByteAt(pos + 3) == 0
    ensures |raw| == 60 && U32At(raw, pos) == ByteAt(pos)
  {
    hide ByteAt;
  }

  lemma RawRecords(raw: Bytes)
    requires IsRaw(raw)
    ensures CoreRecords(raw) == Frames([raw[44..60]])
  {
    hide U32At, ExtInfo.Records;
    HeadNext(16, raw, 36, 60);
    RecordNext(16, 1, raw, 44, 60);
    EndReads(16, raw[60..60]);
    assert [raw[44..60]] + [] == [raw[44..60]];
  }

  /** Its one relocation. */
  function Pid(): Relo {
    Relo(2, "0:0", FieldByteOffset)
  }

  lemma OneRelo(ob: Object)
    requires IsObject(ob)
    ensures ObjectRecords(ob).Frames? && Relos(ob) == [Pid()]
  {
    var raw := ob.ext.raw;
    RawRecords(raw);
    PidRecord(raw, ob.strings);
    hide IsRaw, CoreRecords, ReloOf;
  }

  lemma PidRecord(raw: Bytes, strings: map<nat, string>)
    requires IsRaw(raw) && strings == map[1 := "0:0"]
    ensures ReloOf(raw[44..60], strings) == Pid()
  {
    var record := raw[44..60];
    assert U32At(record, 4) == U32At(raw, 48);
    assert U32At(record, 8) == U32At(raw, 52) && U32At(record, 12) == U32At(raw, 56);
    hide U32At;
  }

  /** The record's name and kind decide. */
  lemma OnlyTask(g: Graph, o: Graph, allow: bool)
    requires IsBase(g) && IsLocal(o)
    ensures Resolved(g, o, 2, Resolve.CHAIN_LIMIT, allow) == BaseType(2)
  {
    forall id: nat
      ensures id in Candidates(g, "task", KStruct) <==> id == 2
    {
      assert id < |g| ==> id in {0, 1, 2, 3};
    }
    assert Candidates(g, "task", KStruct) == {2};
    hide Candidates;
    assert Pick({2}) == Only(2) by {
      var id :| {2} == {id};
      assert 2 in {id};
    }
    assert MatchOf(g, o[2]) == Only(2);
  }

  lemma OneSeed(g: Graph, o: Graph)
    requires IsBase(g) && IsLocal(o)
    ensures SeedRoots(g, o, 3) == {2} && SeedsResolve(g, o, 3)
  {
    OnlyTask(g, o, true);
    assert IsSeed(o[2]) && !IsSeed(o[1]) && SeedBase(g, o, 2) == BaseType(2);
    hide IsBase, IsLocal, SeedBase, IsSeed;
    SeedStart(g, o);
    SeedNext(g, o, 1);
    SeedNext(g, o, 2);
  }

  lemma AccessReads()
    ensures FirstComponent("0:0") == Component(0, "0") && FirstComponent("0") == Component(0, "")
  {
    assert DigitRun("0") == 1 by { assert "0"[1..] == ""; }
    assert DigitRun("0:0") == 1 by { assert "0:0"[1..] == ":0"; }
    assert "0:0"[..1] == "0" && "0:0"[2..] == "0" && "0"[..1] == "0";
    assert "0"[1..] == "" && ValueFrom(0, "0") == ValueFrom(0, "") == 0;
  }

  /** The relocation takes one step, to the member. */
  lemma OneStep(g: Graph, o: Graph)
    requires IsBase(g) && IsLocal(o)
    ensures ReloTrail(o, g, map[], Pid(), 2) == Trail(true, [Step("pid", [(2, 0)], 1, 1)])
  {
    AccessReads();
    assert FindMember(map[], 2, g[2].members, "pid", 0) == 0;
    assert Search(g, map[], 2, "pid", 0, 0) == Found([(2, 0)], 1);
    assert Peel(o, 2, PEEL_LIMIT) == Peeled(2) && Peel(g, 2, PEEL_LIMIT) == Peeled(2);
    assert StepTo(o, g, map[], 2, 2, 0) == Step("pid", [(2, 0)], 1, 1);
    hide StepTo, FirstComponent;
    assert Follow(o, g, map[], 1, 1, "") == Trail(true, []);
    assert Follow(o, g, map[], 2, 2, "0") == Trail(true, [Step("pid", [(2, 0)], 1, 1)]);
  }

  lemma Asked(g: Graph, ob: Object)
    requires IsBase(g) && IsObject(ob)
    ensures Resolves(g, ob) && Roots(g, ob) == {2} && Pairs(g, ob) == {(2, 0)}
  {
    OneRelo(ob);
    OneSeed(g, ob.types);
    OnlyTask(g, ob.types, false);
    OneStep(g, ob.types);
    hide Resolved, ReloTrail, ObjectRecords, SeedsResolve, SeedRoots, Relos;
    StepPairsOne();
    OneRoot(g, ob.types);
  }

  lemma StepPairsOne()
    ensures StepPairs([Step("pid", [(2, 0)], 1, 1)]) == {(2, 0)}
  {
    OnePair((2, 0));
    PairsMore([], Step("pid", [(2, 0)], 1, 1));
    NoStepPairs();
    assert [] + [Step("pid", [(2, 0)], 1, 1)] == [Step("pid", [(2, 0)], 1, 1)];
  }

  lemma OneRoot(g: Graph, o: Graph)
    requires ReloBase(g, o, Pid()) == BaseType(2) && OnePairs(g, o, Pid()) == {(2, 0)}
    ensures ReloRoots(g, o, [Pid()]) == {2} && ReloPairs(g, o, [Pid()]) == {(2, 0)}
  {
    hide ReloBase, OnePairs, ReloResolves;
    ReloNext(g, o, [], Pid());
    assert [] + [Pid()] == [Pid()];
  }

  lemma NothingAsked(g: Graph)
    ensures AllRoots(g, []) == {} && AllPairs(g, []) == {} && AllResolve(g, [])
  {
  }

  /** The object asks for the record and its first member. */
  lemma AllAsked(g: Graph, ob: Object)
    requires IsBase(g) && IsObject(ob)
    ensures AllResolve(g, [ob]) && AllRoots(g, [ob]) == {2} && AllPairs(g, [ob]) == {(2, 0)}
  {
    hide Resolves, Roots, Pairs, IsObject, IsBase, AllRoots, AllPairs, AllResolve;
    Asked(g, ob);
    NothingAsked(g);
    ObjectNext(g, [], ob);
    assert [] + [ob] == [ob];
  }

  lemma KeptIs(g: Graph, obs: seq<Object>)
    requires AllRoots(g, obs) == {2} && AllPairs(g, obs) == {(2, 0)}
    ensures Seeded(g, obs) == {2} && Kept(g, obs) == map[2 := {0}]
  {
    hide AllRoots, AllPairs, MarkAll;
    FirstOfOne((2, 0));
    MarkOne(map[], 2, 0);
    var none: Marks := map[];
    assert {} + {0} == {0} && Keep(none, 2, 0) == map[2 := {0}];
  }

  ghost predicate LowRanks(rank: seq<nat>) {
    |rank| == 4 && rank[2] < rank[3] && forall i | 0 <= i < 4 :: rank[i] < 10
  }

  /** The base records, pruned to what the object accesses. */
  ghost predicate IsPruned(c: Base) {
    IsBase(c.g) && c.marks == map[2 := {0}] && LowRanks(c.rank)
  }

  lemma PrunedBody(c: Base)
    requires IsPruned(c)
    ensures Body(c, 2) == [Member("pid", 1, 0)]
  {
    assert ShownMembers(c.marks, 2, c.g[2].members, 2) == [];
    assert ShownMembers(c.marks, 2, c.g[2].members, 1) == [];
  }

  /** It needs the record and the type of the member, but not the other member. */
  lemma PrunedNeeds(c: Base, expand: bool)
    requires IsPruned(c)
    ensures IsClosure(c.g, Options(c.marks, expand), {2}, {1, 2})
  {
    PrunedBody(c);
    var o := Options(c.marks, expand);
    assert Deps(c.g, o, 2) == [1] && Deps(c.g, o, 1) == [];
    hide Deps, IsPruned;
    assert 1 in [1];
    SeedReached(c.g, o, {2}, 2);
    NextReached(c.g, o, {2}, 2, 1);
    ClosedIsClosure(c.g, o, {2}, {1, 2});
  }

  lemma PrunedRanked(c: Base)
    requires IsPruned(c)
    ensures Ranked(c) && Low(c) && Closed(c, {0, 1, 2}) && Kinds(c, {0, 1, 2})
    ensures forall t | t in c.g :: !t.Typedef? && !t.Fwd? && !t.Enum? && (t.Record? ==> t.tag != "")
  {
    PrunedBody(c);
    forall t | t in c.g
      ensures !t.Typedef? && !t.Fwd? && !t.Enum? && (t.Record? ==> t.tag != "")
    {
      var i :| 0 <= i < |c.g| && c.g[i] == t;
    }
  }

  lemma PrunedOrdered(c: Base, p: Play)
    requires IsPruned(c) && Ranked(c)
    ensures Ordered(c, Self, p)
  {
    PrunedBody(c);
    OneHard(Member("pid", 1, 0));
    assert PlanOf(c, Hard(1)) == Jobs([]);
    forall j, n | j in p.jobs && (j.DefineRecord? || j.DefineTypedef?) && Leads(c, j, n)
      ensures Under(c, Self, n, j.id)
    {
      assert j.id in {0, 1, 2, 3};
    }
  }

  lemma PrunedShort(c: Base, u: set<nat>)
    requires IsPruned(c) && Ranked(c) && Low(c)
    ensures Short(c, u)
  {
    hide Ranked, Short, Low;
    LowFits(c, u);
  }

  lemma PrunedFits(c: Base, ids: seq<nat>)
    requires IsPruned(c) && InRange(c.g, ids) && forall id :: id in ids <==> id == 1 || id == 2
    ensures AllRegular(c, Self, ids) && Supported(c, PlayOf(c, ids)) && EnumsCovered(c, {}, ids)
  {
    PrunedRanked(c);
    var p := PlayOf(c, ids);
    PrunedOrdered(c, p);
    AllNamed(c, p);
    ListNodePointees(c, p);
    PointeesOf(c, ids);
    PrunedShort(c, {0, 1, 2});
    NoEnums(c, ids);
    hide Ranked, Named, Pointees, Ordered, Closed, Kinds, Short, Low, Supported, EnumsCovered, PlayOf, IsPruned;
    hide StillPointees;
    KindsSupported(c, ids, {0, 1, 2});
  }

  /** The needed types of the object. */
  lemma ObjectNeeds(g: Graph, ob: Object, expand: bool, rank: seq<nat>)
    requires IsBase(g) && IsObject(ob) && LowRanks(rank)
    ensures IsPruned(BaseOf(g, [ob], rank)) && AllResolve(g, [ob]) && NeedsInRange(g, [ob], expand)
    ensures forall id :: id in IdsOf(g, [ob], expand) <==> id == 1 || id == 2
  {
    hide AllRoots, AllPairs, Kept, Seeded, IsObject, AllResolve, IsBase, IsClosure, NeedsInRange, IdsOf;
    AllAsked(g, ob);
    KeptIs(g, [ob]);
    assert IsPruned(BaseOf(g, [ob], rank));
    PrunedNeeds(BaseOf(g, [ob], rank), expand);
    NeedsAre(g, [ob], expand);
  }

  lemma NeedsAre(g: Graph, obs: seq<Object>, expand: bool)
    requires IsBase(g) && IsClosure(g, OptionsOf(g, obs, expand), Seeded(g, obs), {1, 2})
    ensures NeedsInRange(g, obs, expand)
    ensures forall id :: id in IdsOf(g, obs, expand) <==> id == 1 || id == 2
  {
    hide Reached, Kept, Seeded;
    assert forall id :: id in Needed(g, obs, expand) <==> id == 1 || id == 2;
  }

  /** The hypotheses hold of an object with a relocation, in either mode: the header is printed and is
      legal, and the access finds its member in it. */
  lemma ObjectHeader(g: Graph, ob: Object, expand: bool, rank: seq<nat>)
    requires IsBase(g) && IsObject(ob) && LowRanks(rank)
    ensures var obs, c := [ob], BaseOf(g, [ob], rank);
            && Ranked(c) && Succeeds(g, obs, expand, rank) && AllRegular(c, Self, IdsOf(g, obs, expand))
            && (forall d | d in Declared(g, obs, expand, rank) :: OfKind(c, d))
            && Check(NOTHING, SaysAll(c, Declared(g, obs, expand, rank))).Legal?
            && Relos(ob) == [Pid()] && AccessInHeader(g, obs, expand, rank, ob, Pid())
  {
    var obs, c, ids := [ob], BaseOf(g, [ob], rank), IdsOf(g, [ob], expand);
    ObjectNeeds(g, ob, expand, rank);
    PrunedFits(c, ids);
    OneRelo(ob);
    IdsDistinct(g, obs, expand);
    hide Ranked, Named, Pointees, Ordered, Supported, EnumsCovered, PlayOf, IsPruned, IsObject, AllResolve, Needed;
    hide Kept, IdsOf;
    hide Relos, Header, AccessInHeader, OfKind, Check, NeedsInRange;
    HeaderSucceeds(c, Self, ids);
    HeaderLegalExactly(c, Self, ids);
    JudgedFromNothing(c, Declared(g, obs, expand, rank));
    AccessesAreInHeader(g, obs, expand, rank, {}, ob, Pid());
  }
}
