/** The hypotheses on the type graph allow what C allows: a small recursive graph that meets them. */
module Hypotheses {
  import opened Btf
  import opened CSyntax
  import opened Scope
  import opened Meaning
  import opened Declarators
  import opened Walk
  import opened InPlay
  import opened WalkOnce
  import opened WalkScope
  import opened HeaderScope
  import opened HeaderExact
  import opened HeaderSuccess
  import opened HeaderRegular

  ghost function Self(i: nat): nat { i }

  lemma UnderOne(c: Base, ord: nat -> nat, job: Job, other: Job, b: nat)
    requires Ranked(c) && PlanOf(c, job) == Jobs([other]) && Under(c, ord, other, b)
    ensures Under(c, ord, job, b)
  {
    hide PlanOf;
    assert forall j | j in [other] :: j == other;
  }

  /** A graph with small ranks. */
  ghost predicate Low(c: Base) {
    forall i | 0 <= i < |c.rank| :: c.rank[i] < 10
  }

  /** With short names, declarators in it fit. */
  lemma LowFits(c: Base, u: set<nat>)
    requires Ranked(c) && Low(c) && forall i | 0 <= i < |c.g| :: NamesWithin(c.g[i], 8)
    ensures Short(c, u)
  {
    forall t | t in c.g
      ensures NamesWithin(t, 8)
    {
      var i :| 0 <= i < |c.g| && c.g[i] == t;
    }
    ShortByHeight(c, u, 8, 10);
  }

  lemma OneShown(marks: Marks, id: nat, m: Member)
    requires id !in marks
    ensures ShownMembers(marks, id, [m], 0) == [m]
  {
    assert ShownMembers(marks, id, [m], 1) == [];
  }

  lemma OneHard(m: Member)
    ensures Hards([m]) == [Hard(m.ty)]
  {
  }

  /** A graph without enums covers them all. */
  lemma NoEnums(c: Base, ids: seq<nat>)
    requires InRange(c.g, ids) && forall t | t in c.g :: !t.Enum?
    ensures EnumsCovered(c, {}, ids)
  {
    hide PlayOf;
    assert forall i | 0 <= i < |c.g| :: c.g[i] in c.g;
  }

  /** All typedefs and forward declarations of a graph have names. */
  lemma AllNamed(c: Base, p: Play)
    requires forall t | t in c.g :: (t.Typedef? ==> t.alias != "") && (t.Fwd? ==> t.tag != "")
    ensures Named(c, p)
  {
    forall j | j in p.jobs && j.id < |c.g|
      ensures (c.g[j.id].Typedef? ==> c.g[j.id].alias != "") && (c.g[j.id].Fwd? ==> c.g[j.id].tag != "")
    {
      assert c.g[j.id] in c.g;
    }
  }

  /** struct node { struct node *next; int value; }, its pointer type being number 3. */
  ghost predicate IsListNode(c: Base) {
    && |c.g| == 4 == |c.rank|
    && c.g[1] == Scalar(false, "int") && c.g[3] == Ptr(2)
    && c.g[2] == Record(false, "node", [Member("next", 3, 0), Member("value", 1, 0)])
    && 2 !in c.marks && c.rank[2] < c.rank[3] && Low(c)
  }

  lemma ListNodeExists() returns (c: Base)
    ensures IsListNode(c)
  {
    var members := [Member("next", 3, 0), Member("value", 1, 0)];
    var g: Graph := [Void, Scalar(false, "int"), Record(false, "node", members), Ptr(2)];
    c := Base(g, map[], [0, 0, 0, 1]);
  }

  lemma ListNodeRanked(c: Base)
    requires IsListNode(c)
    ensures Ranked(c) && Closed(c, {0, 1, 2, 3}) && Kinds(c, {0, 1, 2, 3})
    ensures forall t | t in c.g :: !t.Typedef? && !t.Fwd? && !t.Enum? && (t.Record? ==> t.tag != "")
    ensures forall m | m in Body(c, 2) :: m == Member("next", 3, 0) || m == Member("value", 1, 0)
  {
    forall t | t in c.g
      ensures !t.Typedef? && !t.Fwd? && !t.Enum? && (t.Record? ==> t.tag != "")
    {
      var i :| 0 <= i < |c.g| && c.g[i] == t;
    }
  }

  lemma ListNodeMembers(c: Base)
    requires IsListNode(c) && Ranked(c)
    ensures Under(c, Self, Hard(3), 2) && Under(c, Self, Hard(1), 2)
  {
    assert PlanOf(c, Hard(3)) == Jobs([Soft(3)]) && PlanOf(c, Soft(3)) == Jobs([Soft(2)]);
    assert PlanOf(c, Soft(2)) == Declaration && PlanOf(c, Hard(1)) == Jobs([]);
    hide PlanOf;
    UnderOne(c, Self, Soft(3), Soft(2), 2);
    UnderOne(c, Self, Hard(3), Soft(3), 2);
  }

  lemma ListNodeOrdered(c: Base, p: Play)
    requires IsListNode(c) && Ranked(c)
    requires forall m | m in Body(c, 2) :: m == Member("next", 3, 0) || m == Member("value", 1, 0)
    ensures Ordered(c, Self, p)
  {
    ListNodeMembers(c);
    hide Under;
    forall j, n | j in p.jobs && (j.DefineRecord? || j.DefineTypedef?) && Leads(c, j, n)
      ensures Under(c, Self, n, j.id)
    {
      assert j.id == 2;
      var i :| 0 <= i < |Body(c, 2)| && Hards(Body(c, 2))[i] == n;
      assert Body(c, 2)[i] in Body(c, 2);
    }
  }

  lemma ListNodeShort(c: Base)
    requires IsListNode(c) && Ranked(c)
    ensures Short(c, {0, 1, 2, 3})
  {
    hide Ranked, Short, Low;
    LowFits(c, {0, 1, 2, 3});
  }

  /** The hypotheses allow recursive records: such a header is printed, and is legal. */
  lemma ListNodeHeader(c: Base)
    requires IsListNode(c)
    ensures Ranked(c) && Header(c, [1, 2, 3]).Done?
    ensures forall d | d in Header(c, [1, 2, 3]).st.out :: OfKind(c, d)
    ensures Check(NOTHING, SaysAll(c, Header(c, [1, 2, 3]).st.out)).Legal?
  {
    var ids := [1, 2, 3];
    assert InRange(c.g, ids) && Distinct(ids);
    ListNodeRanked(c);
    var p := PlayOf(c, ids);
    ListNodeOrdered(c, p);
    AllNamed(c, p);
    ListNodePointees(c, p);
    PointeesOf(c, ids);
    ListNodeShort(c);
    KindsSupported(c, ids, {0, 1, 2, 3});
    NoEnums(c, ids);
    hide Ranked, Named, Pointees, Ordered, Closed, Kinds, Short, Low, Supported, Header, EnumsCovered, PlayOf, Check;
    hide OfKind;
    HeaderSucceeds(c, Self, ids);
    HeaderLegalExactly(c, Self, ids);
  }

  lemma ListNodePointees(c: Base, p: Play)
    requires Ranked(c) && forall t | t in c.g :: t.Record? ==> t.tag != ""
    ensures StillPointees(c, p)
  {
    hide Still;
    assert forall i | 0 <= i < |c.g| :: c.g[i] in c.g;
  }

  /** typedef struct { int x; } *t; */
  ghost predicate IsHandle(c: Base) {
    && |c.g| == 5 == |c.rank|
    && c.g[1] == Scalar(false, "int") && c.g[2] == Record(false, "", [Member("x", 1, 0)])
    && c.g[3] == Ptr(2) && c.g[4] == Typedef("t", 3)
    && 2 !in c.marks && c.rank[1] < c.rank[2] < c.rank[3] < c.rank[4]
  }

  lemma HandleExists() returns (c: Base)
    ensures IsHandle(c)
  {
    var g: Graph := [Void, Scalar(false, "int"), Record(false, "", [Member("x", 1, 0)]), Ptr(2), Typedef("t", 3)];
    c := Base(g, map[], [0, 0, 1, 2, 3]);
  }

  lemma HandleRanked(c: Base)
    requires IsHandle(c)
    ensures Ranked(c) && Body(c, 2) == [Member("x", 1, 0)]
  {
    OneShown(c.marks, 2, Member("x", 1, 0));
  }

  /** An anonymous record behind a pointer is no harm if its members ask for nothing. */
  lemma HandlePointees(c: Base, p: Play)
    requires IsHandle(c) && Ranked(c) && Body(c, 2) == [Member("x", 1, 0)]
    ensures StillPointees(c, p)
  {
    assert Still(c, p.seen, 1, true);
    hide Still;
    assert forall i | 0 < i < |c.g| && c.g[i].Record? :: i == 2;
  }

  lemma AtIn(ids: seq<nat>, k: nat)
    requires k < |ids|
    ensures ids[k] in ids
  {
  }

  lemma Singleton(ids: seq<nat>, id: nat)
    requires id in ids && forall i | i in ids :: i == id
    requires forall i, j | 0 <= i < j < |ids| :: ids[i] != ids[j]
    ensures ids == [id]
  {
    AtIn(ids, 0);
    if |ids| >= 2 {
      AtIn(ids, 1);
    }
  }

  lemma OnlyOne(g: Graph, ids: seq<nat>, group: GroupKind, id: nat)
    requires InRange(g, ids) && Distinct(ids) && id in ids && id < |g|
    requires forall i | i in ids && i < |g| :: InGroup(g[i], group) <==> i == id
    ensures Select(g, ids, group) == [id]
  {
    hide Select, InGroup;
    Singleton(Select(g, ids, group), id);
  }

  lemma NoneAtAll(g: Graph, ids: seq<nat>, group: GroupKind)
    requires InRange(g, ids) && forall i | i in ids && i < |g| :: !InGroup(g[i], group)
    ensures Select(g, ids, group) == []
  {
    hide Select, InGroup;
    var chosen := Select(g, ids, group);
    if chosen != [] {
      AtIn(chosen, 0);
    }
  }

  /** typedef int u32; struct r { struct { u32 x; } *p; }; */
  ghost predicate UsesAlias(c: Base) {
    && |c.g| == 6 == |c.rank|
    && c.g[1] == Scalar(false, "int") && c.g[2] == Typedef("u32", 1)
    && c.g[3] == Record(false, "", [Member("x", 2, 0)])
    && c.g[4] == Ptr(3) && c.g[5] == Record(false, "r", [Member("p", 4, 0)])
    && 3 !in c.marks && 5 !in c.marks
    && c.rank[1] < c.rank[2] < c.rank[3] < c.rank[4] && Low(c)
  }

  lemma UsesAliasExists() returns (c: Base)
    ensures UsesAlias(c)
  {
    var g: Graph := [Void, Scalar(false, "int"), Typedef("u32", 1), Record(false, "", [Member("x", 2, 0)]), Ptr(3),
                     Record(false, "r", [Member("p", 4, 0)])];
    c := Base(g, map[], [0, 0, 1, 2, 3, 0]);
  }

  lemma UsesAliasBodies(c: Base)
    requires UsesAlias(c)
    ensures Body(c, 3) == [Member("x", 2, 0)] && Body(c, 5) == [Member("p", 4, 0)]
  {
    OneShown(c.marks, 3, Member("x", 2, 0));
    OneShown(c.marks, 5, Member("p", 4, 0));
  }

  lemma UsesAliasRanked(c: Base)
    requires UsesAlias(c)
    ensures Ranked(c) && Closed(c, {0, 1, 2, 3, 4, 5}) && Kinds(c, {0, 1, 2, 3, 4, 5})
    ensures forall t | t in c.g :: (t.Typedef? ==> t.alias != "") && (t.Fwd? ==> t.tag != "") && !t.Enum?
  {
    UsesAliasBodies(c);
    forall t | t in c.g
      ensures (t.Typedef? ==> t.alias != "") && (t.Fwd? ==> t.tag != "") && !t.Enum?
    {
      var i :| 0 <= i < |c.g| && c.g[i] == t;
    }
    forall id, to | 0 <= id < |c.g| && 0 <= to < |c.g| && Follows(c, id, to)
      ensures c.rank[to] < c.rank[id]
    {
      assert id in {0, 1, 2, 3, 4, 5};
    }
  }

  lemma UsesAliasShort(c: Base)
    requires UsesAlias(c) && Ranked(c)
    ensures Short(c, {0, 1, 2, 3, 4, 5})
  {
    hide Ranked, Short, Low;
    LowFits(c, {0, 1, 2, 3, 4, 5});
  }

  lemma UsesAliasDefines(c: Base)
    requires UsesAlias(c) && Body(c, 5) == [Member("p", 4, 0)]
    ensures forall j: Job, n: Job | (j.DefineRecord? || j.DefineTypedef?) && Leads(c, j, n) ::
              (j == DefineRecord(5) && n == Hard(4)) || (j == DefineTypedef(2) && n == Soft(1))
  {
    OneHard(Member("p", 4, 0));
    assert Target(c.g, 1) == Soft(1);
    forall j: Job, n: Job | (j.DefineRecord? || j.DefineTypedef?) && Leads(c, j, n)
      ensures (j == DefineRecord(5) && n == Hard(4)) || (j == DefineTypedef(2) && n == Soft(1))
    {
      assert j.id in {0, 1, 2, 3, 4, 5};
    }
  }

  lemma UsesAliasOrdered(c: Base, p: Play)
    requires UsesAlias(c) && Ranked(c)
    ensures Ordered(c, Self, p)
  {
    UsesAliasBodies(c);
    UsesAliasDefines(c);
    assert PlanOf(c, Hard(4)) == Jobs([Soft(4)]) && PlanOf(c, Soft(4)) == Jobs([Soft(3)]);
    assert PlanOf(c, Soft(3)) == Declaration && PlanOf(c, Soft(1)) == Jobs([]);
    assert Under(c, Self, Soft(3), 5) && Under(c, Self, Soft(1), 2);
    hide PlanOf;
    UnderOne(c, Self, Soft(4), Soft(3), 5);
    UnderOne(c, Self, Hard(4), Soft(4), 5);
    hide Under;
  }

  lemma UsesAliasKinds(c: Base, ids: seq<nat>)
    requires UsesAlias(c) && ids == [1, 2, 3, 4, 5]
    ensures InRange(c.g, ids) && Distinct(ids) && 2 in ids && 5 in ids
    ensures forall i | i in ids && i < |c.g| :: InGroup(c.g[i], Typedefs) <==> i == 2
    ensures forall i | i in ids && i < |c.g| :: InGroup(c.g[i], Records) <==> i == 5
    ensures forall i | i in ids :: i in {0, 1, 2, 3, 4, 5}
  {
    assert ids[1] == 2 && ids[4] == 5;
    assert forall i | i in ids :: i == 1 || i == 2 || i == 3 || i == 4 || i == 5;
  }

  lemma UsesAliasJobs(c: Base, ids: seq<nat>)
    requires UsesAlias(c) && ids == [1, 2, 3, 4, 5]
    ensures InRange(c.g, ids) && HeaderJobs(c.g, ids) == [DefineTypedef(2), DefineRecord(5)]
  {
    UsesAliasKinds(c, ids);
    hide Select, InGroup, HeaderJobs, InRange, Distinct;
    TwoJobs(c.g, ids, 2, 5);
  }

  lemma TwoJobs(g: Graph, ids: seq<nat>, typedef: nat, record: nat)
    requires InRange(g, ids) && Distinct(ids) && typedef in ids && record in ids
    requires forall i | i in ids && i < |g| :: InGroup(g[i], Typedefs) <==> i == typedef
    requires forall i | i in ids && i < |g| :: InGroup(g[i], Records) <==> i == record
    ensures HeaderJobs(g, ids) == [DefineTypedef(typedef), DefineRecord(record)]
  {
    hide Select, InGroup;
    OnlyOne(g, ids, Typedefs, typedef);
    OnlyOne(g, ids, Records, record);
  }

  /** The typedef is printed before the record, so the pointee asks for nothing when the record is. */
  lemma UsesAliasPointees(c: Base, ids: seq<nat>)
    requires UsesAlias(c) && Ranked(c) && InRange(c.g, ids)
    requires HeaderJobs(c.g, ids) == [DefineTypedef(2), DefineRecord(5)]
    ensures Pointees(c, ids)
  {
    UsesAliasBodies(c);
    AliasPlay(c);
    var jobs := HeaderJobs(c.g, ids);
    FirstIdsNext(jobs, 0);
    hide PlaySet, HeaderJobs, StillPointees, Ranked, Leads, PlanOf, UsesAlias;
    forall k | 0 <= k < |jobs|
      ensures StillPointees(c, PlayAt(c, ids, k))
    {
      PointeeOfAlias(c, PlayAt(c, ids, k));
    }
  }

  lemma PointeeOfAlias(c: Base, p: Play)
    requires UsesAlias(c) && Ranked(c) && Body(c, 3) == [Member("x", 2, 0)]
    requires Soft(3) !in p.jobs || 2 in p.seen.defined
    ensures StillPointees(c, p)
  {
    assert Still(c, p.seen, 1, true);
    assert 2 in p.seen.defined ==> Still(c, p.seen, 2, true);
    hide Still, Ranked;
    assert forall i | 0 < i < |c.g| && c.g[i].Record? && c.g[i].tag == "" :: i == 3;
  }

  /** The typedef alone does not lead to the pointee. */
  lemma AliasPlay(c: Base)
    requires UsesAlias(c) && Body(c, 5) == [Member("p", 4, 0)]
    ensures Soft(3) !in PlaySet(c, [DefineTypedef(2)])
  {
    UsesAliasDefines(c);
    var k: iset<Job> := iset{DefineTypedef(2), Soft(1)};
    assert PlanOf(c, Soft(1)) == Jobs([]);
    forall j, n | j in k && Leads(c, j, n)
      ensures n in k
    {
    }
    hide PlaySet, Leads;
    PlayIsLeast(c, [DefineTypedef(2)], k);
  }

  /** Nor is one whose members are of typedef names: the required typedefs come before the records. */
  lemma UsesAliasHeader(c: Base)
    requires UsesAlias(c)
    ensures InRange(c.g, [1, 2, 3, 4, 5]) && AllRegular(c, Self, [1, 2, 3, 4, 5])
    ensures !StillPointees(c, PlayOf(c, [1, 2, 3, 4, 5]))
    ensures Header(c, [1, 2, 3, 4, 5]).Done?
    ensures forall d | d in Header(c, [1, 2, 3, 4, 5]).st.out :: OfKind(c, d)
    ensures Check(NOTHING, SaysAll(c, Header(c, [1, 2, 3, 4, 5]).st.out)).Legal?
  {
    var ids := [1, 2, 3, 4, 5];
    UsesAliasKinds(c, ids);
    UsesAliasRanked(c);
    UsesAliasJobs(c, ids);
    UsesAliasPointees(c, ids);
    UsesAliasAsks(c, ids);
    UsesAliasShort(c);
    var p := PlayOf(c, ids);
    UsesAliasOrdered(c, p);
    AllNamed(c, p);
    NoEnums(c, ids);
    hide Ranked, Named, Pointees, StillPointees, Ordered, Closed, Kinds, Short, Low, Supported, Header, EnumsCovered;
    hide PlayOf;
    hide Check, OfKind, Distinct, InGroup, HeaderJobs;
    KindsSupported(c, ids, {0, 1, 2, 3, 4, 5});
    HeaderSucceeds(c, Self, ids);
    HeaderLegalExactly(c, Self, ids);
  }

  /** What the header declares at its start is not enough for it. */
  lemma UsesAliasAsks(c: Base, ids: seq<nat>)
    requires UsesAlias(c) && Ranked(c) && InRange(c.g, ids)
    requires HeaderJobs(c.g, ids) == [DefineTypedef(2), DefineRecord(5)]
    ensures !StillPointees(c, PlayOf(c, ids))
  {
    UsesAliasBodies(c);
    UsesAliasLeads(c);
    var jobs := HeaderJobs(c.g, ids);
    assert jobs[1] in jobs;
    hide PlaySet, HeaderJobs, Leads, UsesAlias, Ranked, StillPointees;
    PlayClosed(c, jobs);
    AliasChain(c, PlayOf(c, ids).jobs);
    AliasAsks(c, PlayOf(c, ids));
  }

  lemma AliasAsks(c: Base, p: Play)
    requires UsesAlias(c) && Ranked(c) && Body(c, 3) == [Member("x", 2, 0)]
    requires Soft(3) in p.jobs && p.seen.defined == {}
    ensures !StillPointees(c, p)
  {
    assert !Still(c, p.seen, 2, true);
    assert Member("x", 2, 0) in Body(c, 3);
    hide Still;
  }

  lemma UsesAliasLeads(c: Base)
    requires UsesAlias(c) && Body(c, 5) == [Member("p", 4, 0)]
    ensures Leads(c, DefineRecord(5), Hard(4)) && Leads(c, Hard(4), Soft(4)) && Leads(c, Soft(4), Soft(3))
  {
    OneHard(Member("p", 4, 0));
  }

  lemma AliasChain(c: Base, k: iset<Job>)
    requires JobClosed(c, k) && DefineRecord(5) in k
    requires Leads(c, DefineRecord(5), Hard(4)) && Leads(c, Hard(4), Soft(4)) && Leads(c, Soft(4), Soft(3))
    ensures Soft(3) in k
  {
    hide Leads;
  }
}
