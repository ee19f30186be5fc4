/** Where the program falls short of a legal header, or of printing only what is required: small
    graphs with what the emitter makes of them. */
module Shortfalls {
  import opened Btf
  import opened CSyntax
  import opened Scope
  import opened Meaning
  import opened Declarators
  import opened Walk
  import opened InPlay
  import opened WalkOnce
  import opened WalkScope
  import opened HeaderScope
  import opened HeaderExact
  import opened HeaderSuccess
  import opened HeaderRegular
  import opened Hypotheses
  import Closure

  /** enum e; typedef struct { enum e x; } t; struct r { t *p; }; */
  ghost predicate UsesEnum(c: Base) {
    && |c.g| == 6 == |c.rank|
    && c.g[1].Enum? && c.g[1].tag == "e"
    && c.g[2] == Record(false, "r", [Member("p", 3, 0)])
    && c.g[3] == Ptr(4) && c.g[4] == Typedef("t", 5) && c.g[5] == Record(false, "", [Member("x", 1, 0)])
    && 2 !in c.marks && 5 !in c.marks
    && c.rank[1] < c.rank[5] < c.rank[4] < c.rank[3] && Low(c)
  }

  lemma UsesEnumExists() returns (c: Base)
    ensures UsesEnum(c)
  {
    var g: Graph := [Void, Enum(false, "e", 4, false, [Enumerator("A", 0)]), Record(false, "r", [Member("p", 3, 0)]),
                     Ptr(4), Typedef("t", 5), Record(false, "", [Member("x", 1, 0)])];
    c := Base(g, map[], [0, 0, 0, 3, 2, 1]);
  }

  lemma UsesEnumRanked(c: Base)
    requires UsesEnum(c)
    ensures Body(c, 2) == [Member("p", 3, 0)] && Body(c, 5) == [Member("x", 1, 0)]
    ensures Ranked(c) && Closed(c, {0, 1, 2, 3, 4, 5}) && Kinds(c, {0, 1, 2, 3, 4, 5})
  {
    hide ShownMembers;
    OneShown(c.marks, 2, Member("p", 3, 0));
    OneShown(c.marks, 5, Member("x", 1, 0));
  }

  lemma UsesEnumClosed(c: Base)
    requires UsesEnum(c)
    ensures Closure.ClosedUnder(c.g, Closure.Options(c.marks, false), {2, 3})
  {
    OneShown(c.marks, 2, Member("p", 3, 0));
  }

  lemma UsesEnumNamed(c: Base, p: Play)
    requires UsesEnum(c) && Ranked(c)
    ensures Named(c, p)
  {
    forall t | t in c.g
      ensures (t.Typedef? ==> t.alias != "") && (t.Fwd? ==> t.tag != "")
    {
      var i :| 0 <= i < |c.g| && c.g[i] == t;
    }
    AllNamed(c, p);
  }

  lemma UsesEnumLeads(c: Base, j: Job, n: Job)
    requires UsesEnum(c) && Ranked(c) && Body(c, 2) == [Member("p", 3, 0)] && Body(c, 5) == [Member("x", 1, 0)]
    ensures j == DefineRecord(2) && Leads(c, j, n) ==> n == Hard(3)
    ensures j == DefineTypedef(4) && Leads(c, j, n) ==> n == Hard(5)
    ensures Leads(c, DefineRecord(2), Hard(3)) && Leads(c, Hard(3), Soft(3)) && Leads(c, Soft(3), Soft(4))
    ensures Leads(c, Soft(4), DefineTypedef(4)) && Leads(c, DefineTypedef(4), Hard(5)) && Leads(c, Hard(5), Hard(1))
    ensures PlanOf(c, Hard(5)) == Jobs([Hard(1)]) && PlanOf(c, Hard(1)) == Jobs([])
    ensures PlanOf(c, Hard(3)) == Jobs([Soft(3)]) && PlanOf(c, Soft(3)) == Jobs([Soft(4)])
    ensures PlanOf(c, Soft(4)) == Jobs([DefineTypedef(4)]) && PlanOf(c, DefineTypedef(4)) == Define
  {
    OneHard(Member("p", 3, 0));
    OneHard(Member("x", 1, 0));
    assert Target(c.g, 5) == Hard(5);
  }

  /** The numbering puts the typedef before the record. */
  ghost function Backwards(i: nat): nat {
    if i < 6 then 6 - i else 0
  }

  lemma UsesEnumOrdered(c: Base, p: Play)
    requires UsesEnum(c) && Ranked(c) && Body(c, 2) == [Member("p", 3, 0)] && Body(c, 5) == [Member("x", 1, 0)]
    ensures Ordered(c, Backwards, p)
  {
    UsesEnumLeads(c, DefineRecord(2), Hard(3));
    assert Under(c, Backwards, DefineTypedef(4), 4) && Under(c, Backwards, Hard(1), 2);
    hide PlanOf;
    UnderOne(c, Backwards, Soft(4), DefineTypedef(4), 4);
    UnderOne(c, Backwards, Soft(3), Soft(4), 4);
    UnderOne(c, Backwards, Hard(3), Soft(3), 4);
    UnderOne(c, Backwards, Hard(5), Hard(1), 2);
    hide Under;
    forall j, n | j in p.jobs && (j.DefineRecord? || j.DefineTypedef?) && Leads(c, j, n)
      ensures Under(c, Backwards, n, Backwards(j.id))
    {
      UsesEnumDefines(c, j, n);
      UsesEnumLeads(c, j, n);
    }
  }

  lemma UsesEnumDefines(c: Base, j: Job, n: Job)
    requires UsesEnum(c) && (j.DefineRecord? || j.DefineTypedef?) && Leads(c, j, n)
    ensures j == DefineRecord(2) || j == DefineTypedef(4)
  {
    assert j.id in {0, 1, 2, 3, 4, 5};
  }

  /** What is in play when the record and its pointer are required. */
  ghost function EnumJobs(): iset<Job> {
    iset{DefineRecord(2), Hard(3), Soft(3), Soft(4), DefineTypedef(4), Hard(5), Hard(1)}
  }

  lemma EnumJobsClosed(c: Base)
    requires UsesEnum(c) && Ranked(c) && Body(c, 2) == [Member("p", 3, 0)] && Body(c, 5) == [Member("x", 1, 0)]
    ensures JobClosed(c, EnumJobs())
  {
    UsesEnumLeads(c, DefineRecord(2), Hard(3));
    hide PlanOf;
    forall j, n | j in EnumJobs() && Leads(c, j, n)
      ensures n in EnumJobs()
    {
      UsesEnumLeads(c, j, n);
      LeadsByPlan(c, j, n);
    }
  }

  lemma LeadsByPlan(c: Base, j: Job, n: Job)
    requires Leads(c, j, n)
    ensures PlanOf(c, j).Jobs? ==> n in PlanOf(c, j).jobs
  {
  }

  /** The anonymous record is reached by value only, through its typedef. */
  lemma UsesEnumPointees(c: Base, p: Play)
    requires UsesEnum(c) && Ranked(c) && p.jobs <= EnumJobs()
    ensures StillPointees(c, p)
  {
    hide Still;
    assert forall i | 0 < i < |c.g| && c.g[i].Record? && c.g[i].tag == "" :: i == 5;
    assert Soft(5) !in EnumJobs();
  }

  lemma UsesEnumPlay(c: Base, ids: seq<nat>)
    requires UsesEnum(c) && Ranked(c) && Body(c, 2) == [Member("p", 3, 0)] && Body(c, 5) == [Member("x", 1, 0)]
    requires ids == [2, 3]
    ensures InRange(c.g, ids) && PlayOf(c, ids).jobs == EnumJobs()
  {
    var start := HeaderJobs(c.g, ids);
    UsesEnumStart(c, ids);
    PlayClosed(c, start);
    EnumJobsClosed(c);
    UsesEnumLeads(c, DefineRecord(2), Hard(3));
    hide PlaySet, Leads, HeaderJobs, PlanOf, EnumJobs, Ranked, Body;
    InEnumJobs(DefineRecord(2));
    PlayIsLeast(c, start, EnumJobs());
    EnumJobsIn(c, PlaySet(c, start));
  }

  lemma InEnumJobs(j: Job)
    requires j == DefineRecord(2)
    ensures j in EnumJobs()
  {
  }

  lemma UsesEnumStart(c: Base, ids: seq<nat>)
    requires UsesEnum(c) && ids == [2, 3]
    ensures InRange(c.g, ids) && DefineRecord(2) in HeaderJobs(c.g, ids)
    ensures forall j | j in HeaderJobs(c.g, ids) :: j == DefineRecord(2)
  {
    assert ids[0] == 2;
    JobsAre(c.g, ids, DefineRecord(2));
    hide HeaderJobs;
    forall j | j in HeaderJobs(c.g, ids)
      ensures j == DefineRecord(2)
    {
      JobsAre(c.g, ids, j);
    }
  }

  lemma EnumJobsIn(c: Base, k: iset<Job>)
    requires JobClosed(c, k) && DefineRecord(2) in k
    requires Leads(c, DefineRecord(2), Hard(3)) && Leads(c, Hard(3), Soft(3)) && Leads(c, Soft(3), Soft(4))
    requires Leads(c, Soft(4), DefineTypedef(4)) && Leads(c, DefineTypedef(4), Hard(5)) && Leads(c, Hard(5), Hard(1))
    ensures EnumJobs() <= k
  {
    hide Leads;
  }

  lemma UsesEnumFits(c: Base, ids: seq<nat>)
    requires UsesEnum(c) && ids == [2, 3]
    ensures InRange(c.g, ids) && AllRegular(c, Backwards, ids)
  {
    UsesEnumRanked(c);
    UsesEnumPlay(c, ids);
    hide Ranked, Named, StillPointees, Pointees, Ordered, Closed, Kinds, PlayOf, EnumJobs;
    UsesEnumNamed(c, PlayOf(c, ids));
    UsesEnumPointees(c, PlayOf(c, ids));
    PointeesOf(c, ids);
    UsesEnumOrdered(c, PlayOf(c, ids));
  }

  lemma UsesEnumShort(c: Base)
    requires UsesEnum(c) && Ranked(c)
    ensures Short(c, {0, 1, 2, 3, 4, 5})
  {
    hide Ranked, Short, Low;
    LowFits(c, {0, 1, 2, 3, 4, 5});
  }

  lemma UsesEnumSupported(c: Base, ids: seq<nat>)
    requires UsesEnum(c) && Ranked(c) && ids == [2, 3]
    ensures InRange(c.g, ids) && Distinct(ids) && Supported(c, PlayOf(c, ids))
  {
    UsesEnumRanked(c);
    assert forall i | i in ids :: i == 2 || i == 3;
    UsesEnumShort(c);
    hide Ranked, Closed, Kinds, Short, Supported, PlayOf, Low;
    KindsSupported(c, ids, {0, 1, 2, 3, 4, 5});
  }

  lemma UsesEnumUncovered(c: Base, ids: seq<nat>)
    requires UsesEnum(c) && ids == [2, 3] && Ranked(c)
    ensures InRange(c.g, ids) && DefineTypedef(4) in PlayOf(c, ids).jobs && !EnumsCovered(c, {}, ids)
    ensures 4 < |c.g| && NamedTypedef(c.g[4])
  {
    UsesEnumRanked(c);
    UsesEnumPlay(c, ids);
    hide PlayOf, Ranked, Closed, Kinds, Body;
    assert NamesEnum(c, Hard(1)) && Hard(1) in EnumJobs();
  }

  /** Without expanded pointers a header can be illegal for want of an enum: the required types are
      closed under the default edges and all hypotheses hold, but the typedef that the header prints
      behind the pointer has an enum by value that is not required and never declared. */
  lemma DefaultEnumBreaks(c: Base)
    requires UsesEnum(c)
    ensures Closure.ClosedUnder(c.g, Closure.Options(c.marks, false), {2, 3})
    ensures AllRegular(c, Backwards, [2, 3]) && Header(c, [2, 3]).Done?
    ensures forall d | d in Header(c, [2, 3]).st.out :: OfKind(c, d)
    ensures Alias(4) in Header(c, [2, 3]).st.out
    ensures Check(NOTHING, SaysAll(c, Header(c, [2, 3]).st.out)).Illegal?
  {
    var ids := [2, 3];
    UsesEnumRanked(c);
    UsesEnumClosed(c);
    UsesEnumFits(c, ids);
    UsesEnumSupported(c, ids);
    UsesEnumUncovered(c, ids);
    hide AllRegular, UsesEnum, Supported, Header, PlayOf, Check, OfKind, Closure.ClosedUnder, EnumsCovered, Distinct;
    hide Ranked;
    UncoveredBreaks(c, ids);
  }

  lemma UncoveredBreaks(c: Base, ids: seq<nat>)
    requires InRange(c.g, ids) && Distinct(ids) && AllRegular(c, Backwards, ids) && Supported(c, PlayOf(c, ids))
    requires 4 < |c.g| && NamedTypedef(c.g[4]) && DefineTypedef(4) in PlayOf(c, ids).jobs && !EnumsCovered(c, {}, ids)
    ensures Header(c, ids).Done? && Alias(4) in Header(c, ids).st.out
    ensures forall d | d in Header(c, ids).st.out :: OfKind(c, d)
    ensures Check(NOTHING, SaysAll(c, Header(c, ids).st.out)).Illegal?
  {
    hide Named, Pointees, Ordered, Supported, Header, PlayOf, Check, OfKind, EnumsCovered, Distinct;
    HeaderSucceeds(c, Backwards, ids);
    HeaderDefinesPlay(c, ids);
    HeaderLegalExactly(c, Backwards, ids);
  }

  /** struct a { int x; }; typedef struct { struct a m; } *t; */
  ghost predicate HidesRecord(c: Base) {
    && |c.g| == 6 == |c.rank|
    && c.g[1] == Scalar(false, "int")
    && c.g[2] == Record(false, "a", [Member("x", 1, 0)])
    && c.g[3] == Record(false, "", [Member("m", 2, 0)])
    && c.g[4] == Ptr(3) && c.g[5] == Typedef("t", 4)
    && 2 !in c.marks && 3 !in c.marks
    && c.rank[2] < c.rank[3] < c.rank[4] < c.rank[5] && Low(c)
  }

  lemma HidesRecordExists() returns (c: Base)
    ensures HidesRecord(c)
  {
    var g: Graph := [Void, Scalar(false, "int"), Record(false, "a", [Member("x", 1, 0)]),
                     Record(false, "", [Member("m", 2, 0)]), Ptr(3), Typedef("t", 4)];
    c := Base(g, map[], [0, 0, 0, 1, 2, 3]);
  }

  lemma HidesRecordBodies(c: Base)
    requires HidesRecord(c)
    ensures Body(c, 2) == [Member("x", 1, 0)] && Body(c, 3) == [Member("m", 2, 0)]
  {
    OneShown(c.marks, 2, Member("x", 1, 0));
    OneShown(c.marks, 3, Member("m", 2, 0));
  }

  /** It meets the other hypotheses. */
  lemma HidesRecordRanked(c: Base)
    requires HidesRecord(c)
    ensures Ranked(c) && Closed(c, {0, 1, 2, 3, 4, 5}) && Kinds(c, {0, 1, 2, 3, 4, 5})
    ensures forall t | t in c.g :: (t.Typedef? ==> t.alias != "") && (t.Fwd? ==> t.tag != "") && !t.Enum?
  {
    HidesRecordBodies(c);
    forall t | t in c.g
      ensures (t.Typedef? ==> t.alias != "") && (t.Fwd? ==> t.tag != "") && !t.Enum?
    {
      var i :| 0 <= i < |c.g| && c.g[i] == t;
    }
    forall id, to | 0 <= id < |c.g| && 0 <= to < |c.g| && Follows(c, id, to)
      ensures c.rank[to] < c.rank[id]
    {
      assert id in {0, 1, 2, 3, 4, 5};
    }
  }

  lemma HidesRecordOrdered(c: Base, p: Play)
    requires HidesRecord(c) && Ranked(c)
    ensures Ordered(c, Self, p)
  {
    HidesRecordBodies(c);
    OneHard(Member("x", 1, 0));
    assert Target(c.g, 4) == Soft(4);
    assert PlanOf(c, Soft(4)) == Jobs([Soft(3)]) && PlanOf(c, Soft(3)) == Declaration && PlanOf(c, Hard(1)) == Jobs([]);
    assert Under(c, Self, Hard(1), 2) && Under(c, Self, Soft(3), 5);
    HidesRecordDefines(c);
    hide PlanOf, Target;
    UnderOne(c, Self, Soft(4), Soft(3), 5);
    hide Under;
  }

  lemma HidesRecordDefines(c: Base)
    requires HidesRecord(c) && Body(c, 2) == [Member("x", 1, 0)]
    ensures forall j: Job, n: Job | (j.DefineRecord? || j.DefineTypedef?) && Leads(c, j, n) ::
              (j == DefineRecord(2) && n == Hard(1)) || (j == DefineTypedef(5) && n == Soft(4))
  {
    OneHard(Member("x", 1, 0));
    assert Target(c.g, 4) == Soft(4);
    forall j: Job, n: Job | (j.DefineRecord? || j.DefineTypedef?) && Leads(c, j, n)
      ensures (j == DefineRecord(2) && n == Hard(1)) || (j == DefineTypedef(5) && n == Soft(4))
    {
      assert j.id in {0, 1, 2, 3, 4, 5};
    }
  }

  lemma HidesRecordKinds(c: Base, ids: seq<nat>)
    requires HidesRecord(c) && ids == [1, 2, 3, 4, 5]
    ensures InRange(c.g, ids) && Distinct(ids) && 2 in ids && 5 in ids
    ensures forall i | i in ids && i < |c.g| :: InGroup(c.g[i], Tags) <==> i == 2
    ensures forall i | i in ids && i < |c.g| :: InGroup(c.g[i], Typedefs) <==> i == 5
    ensures forall i | i in ids && i < |c.g| :: InGroup(c.g[i], Records) <==> i == 2
    ensures forall i | i in ids && i < |c.g| :: !InGroup(c.g[i], Enums)
  {
    assert ids[1] == 2 && ids[4] == 5;
    assert forall i | i in ids :: i == 1 || i == 2 || i == 3 || i == 4 || i == 5;
  }

  lemma HidesRecordGroups(c: Base, ids: seq<nat>)
    requires HidesRecord(c) && ids == [1, 2, 3, 4, 5]
    ensures InRange(c.g, ids)
    ensures Prologue(c.g, ids) == Declare(c.g, 2, Start(6))
    ensures HeaderJobs(c.g, ids) == [DefineTypedef(5), DefineRecord(2)]
  {
    hide Select, InGroup;
    HidesRecordKinds(c, ids);
    OnlyOne(c.g, ids, Tags, 2);
    OnlyOne(c.g, ids, Typedefs, 5);
    OnlyOne(c.g, ids, Records, 2);
    NoneAtAll(c.g, ids, Enums);
    assert DeclareAll(c.g, [2], Start(6)) == Declare(c.g, 2, Start(6));
  }

  /** The typedef is printed before the record that its inline body holds by value. */
  lemma HidesRecordHeader(c: Base)
    requires HidesRecord(c) && Ranked(c)
    ensures Header(c, [1, 2, 3, 4, 5]).Done?
    ensures Header(c, [1, 2, 3, 4, 5]).st.out == [Forward(2), Alias(5), RecordBody(2)]
  {
    hide Walk.Walk, WalkAll, HeaderJobs, Prologue;
    HidesRecordGroups(c, [1, 2, 3, 4, 5]);
    var s := Declare(c.g, 2, Start(6));
    var t := LeaveTypedef(EnterTypedef(s, 5), 5);
    HidesRecordTypedef(c, s);
    HidesRecordRecord(c, t);
    TwoJobs(c, DefineTypedef(5), DefineRecord(2), s);
    assert s.out == [Forward(2)];
  }

  lemma TwoJobs(c: Base, first: Job, second: Job, s: State)
    requires Ranked(c) && Fits(c, s) && Walk.Walk(c, first, s).Done?
    ensures WalkAll(c, [first, second], s) == Walk.Walk(c, second, Walk.Walk(c, first, s).st)
  {
    hide Walk.Walk;
    NextJob(c, [first, second], s);
    assert [first, second][1..] == [second];
    OneJob(c, second, Walk.Walk(c, first, s).st);
  }

  lemma HidesRecordTypedef(c: Base, s: State)
    requires HidesRecord(c) && Ranked(c) && Fits(c, s) && s.td[5] == White
    ensures Walk.Walk(c, DefineTypedef(5), s) == Done(LeaveTypedef(EnterTypedef(s, 5), 5))
  {
    HidesRecordBodies(c);
    var entered := EnterTypedef(s, 5);
    assert Target(c.g, 4) == Soft(4);
    SameJob(c, Soft(4), Soft(3), entered);
    WalkPlanned(c, Soft(3), entered);
    assert Declare(c.g, 3, entered) == entered;
    HidesRecordPrints(c);
    hide AliasPrints;
  }

  lemma HidesRecordShort(c: Base)
    requires HidesRecord(c) && Ranked(c)
    ensures Short(c, {0, 1, 2, 3, 4, 5})
  {
    hide Ranked, Short, Low;
    LowFits(c, {0, 1, 2, 3, 4, 5});
  }

  lemma HidesRecordPrints(c: Base)
    requires HidesRecord(c) && Ranked(c)
    ensures AliasPrints(c, 5) && BodyPrints(c, 2)
  {
    HidesRecordBodies(c);
    HidesRecordShort(c);
    hide Roomy;
    assert Printable(c, 1);
    assert Printable(c, 2);
    assert Printable(c, 3);
    assert Printable(c, 4);
  }

  lemma HidesRecordRecord(c: Base, s: State)
    requires HidesRecord(c) && Ranked(c) && Fits(c, s) && s.rec[2] == White
    ensures Walk.Walk(c, DefineRecord(2), s) == Done(LeaveRecord(EnterRecord(s, 2), 2))
  {
    HidesRecordBodies(c);
    var entered := EnterRecord(s, 2);
    assert Hards(Body(c, 2)) == [Hard(1)];
    OneJob(c, Hard(1), entered);
    WalkPlanned(c, Hard(1), entered);
    HidesRecordPrints(c);
    hide BodyPrints;
  }

  /** Without the hypothesis on pointers to anonymous records a header can be illegal: all else holds
      of this graph, and the header uses a record by value before it is complete. */
  lemma AnonymousPointeeBreaks(c: Base)
    requires HidesRecord(c)
    ensures var ids := [1, 2, 3, 4, 5];
            && Ranked(c) && InRange(c.g, ids) && EnumsCovered(c, {}, ids) && Supported(c, PlayOf(c, ids))
            && Named(c, PlayOf(c, ids)) && Ordered(c, Self, PlayOf(c, ids)) && !Pointees(c, ids)
            && Header(c, ids).Done? && (forall d | d in Header(c, ids).st.out :: OfKind(c, d))
            && Check(NOTHING, SaysAll(c, Header(c, ids).st.out)).Illegal?
  {
    var ids := [1, 2, 3, 4, 5];
    HidesRecordRanked(c);
    hide Ranked;
    HidesRecordFits(c, ids);
    HidesRecordHeader(c);
    HidesRecordVerdict(c);
    HidesRecordPointee(c, ids);
    hide Named, Ordered, Pointees, Supported, Header, Check, PlayOf, EnumsCovered, OfKind, HidesRecord;
  }

  lemma HidesRecordFits(c: Base, ids: seq<nat>)
    requires HidesRecord(c) && Ranked(c) && ids == [1, 2, 3, 4, 5]
    ensures InRange(c.g, ids) && EnumsCovered(c, {}, ids) && Supported(c, PlayOf(c, ids))
    ensures Named(c, PlayOf(c, ids)) && Ordered(c, Self, PlayOf(c, ids))
  {
    HidesRecordRanked(c);
    assert forall i | i in ids :: i in {0, 1, 2, 3, 4, 5};
    HidesRecordOrdered(c, PlayOf(c, ids));
    HidesRecordShort(c);
    hide Ranked, Named, Ordered, Closed, Kinds, Short, Supported, PlayOf, EnumsCovered, Low;
    AllNamed(c, PlayOf(c, ids));
    NoEnums(c, ids);
    KindsSupported(c, ids, {0, 1, 2, 3, 4, 5});
  }

  lemma HidesRecordPointee(c: Base, ids: seq<nat>)
    requires HidesRecord(c) && Ranked(c) && ids == [1, 2, 3, 4, 5]
    ensures InRange(c.g, ids) && !Pointees(c, ids)
  {
    HidesRecordGroups(c, ids);
    HidesRecordSoft(c, ids);
    HidesRecordBodies(c);
    assert SeenBefore(c, ids, 0).defined == {};
    WholeIsNotStill(c, SeenBefore(c, ids, 0));
    hide PlaySet, HeaderJobs, Still, Prologue, Ranked, Select;
    assert Soft(3) in PlayAt(c, ids, 0).jobs && Member("m", 2, 0) in Body(c, 3);
    assert !StillPointees(c, PlayAt(c, ids, 0));
  }

  lemma WholeIsNotStill(c: Base, seen: Seen)
    requires HidesRecord(c) && Ranked(c) && seen.defined == {}
    ensures !Still(c, seen, 2, true)
  {
  }

  lemma HidesRecordSoft(c: Base, ids: seq<nat>)
    requires HidesRecord(c) && Ranked(c) && InRange(c.g, ids)
    requires HeaderJobs(c.g, ids) == [DefineTypedef(5), DefineRecord(2)]
    ensures Soft(3) in PlayAt(c, ids, 0).jobs
  {
    var start := [HeaderJobs(c.g, ids)[0]];
    assert Target(c.g, 4) == Soft(4);
    assert Leads(c, DefineTypedef(5), Soft(4)) && Leads(c, Soft(4), Soft(3));
    PlayClosed(c, start);
    hide PlaySet, HeaderJobs, Leads, HidesRecord, Ranked;
    assert start[0] in start;
    assert Soft(4) in PlaySet(c, start);
  }

  lemma HidesRecordVerdict(c: Base)
    requires HidesRecord(c) && Ranked(c)
    ensures forall d | d in [Forward(2), Alias(5), RecordBody(2)] :: OfKind(c, d)
    ensures Check(NOTHING, SaysAll(c, [Forward(2), Alias(5), RecordBody(2)])).Illegal?
  {
    SaysThree(c, Forward(2), Alias(5), RecordBody(2));
    HidesRecordUnknown(c, Enter(NOTHING, Says(c, Forward(2))));
    SecondFails(Says(c, Forward(2)), Says(c, Alias(5)), Says(c, RecordBody(2)));
  }

  lemma SaysThree(c: Base, x: Decl, y: Decl, z: Decl)
    requires Ranked(c) && OfKind(c, x) && OfKind(c, y) && OfKind(c, z)
    ensures forall d | d in [x, y, z] :: OfKind(c, d)
    ensures SaysAll(c, [x, y, z]) == [Says(c, x), Says(c, y), Says(c, z)]
  {
    hide Says, OfKind;
    SaysMore(c, [], x);
    SaysMore(c, [x], y);
    SaysMore(c, [x, y], z);
    assert [] + [x] == [x] && [x] + [y] == [x, y] && [x, y] + [z] == [x, y, z];
  }

  lemma SecondFails(x: CDecl, y: CDecl, z: CDecl)
    requires Accepts(NOTHING, x) && !Accepts(Enter(NOTHING, x), y)
    ensures Check(NOTHING, [x, y, z]).Illegal?
  {
    hide Accepts, Enter;
    CheckMore(NOTHING, [], x);
    CheckMore(NOTHING, [x], y);
    CheckMore(NOTHING, [x, y], z);
    assert [] + [x] == [x] && [x] + [y] == [x, y] && [x, y] + [z] == [x, y, z];
  }

  lemma HidesRecordUnknown(c: Base, e: Env)
    requires HidesRecord(c) && Ranked(c) && 2 !in e.complete
    ensures !Known(e, CTypeOf(c, 4))
  {
    HidesRecordBodies(c);
    FieldAt(c, Body(c, 3), 0);
    var f := FieldsOf(c, Body(c, 3))[0];
    assert f in FieldsOf(c, Body(c, 3)) && f.ty == Plain({}, TagName(false, 2));
    assert 2 in Needs(e, f.ty);
    assert !Known(e, CTypeOf(c, 3));
  }

  /** typedef int t; struct r { t *p; }; */
  ghost predicate PointsToTypedef(c: Base) {
    && |c.g| == 5 == |c.rank|
    && c.g[1] == Scalar(false, "int")
    && c.g[2] == Record(false, "r", [Member("p", 3, 0)])
    && c.g[3] == Ptr(4) && c.g[4] == Typedef("t", 1)
    && 2 !in c.marks && c.rank[1] < c.rank[4] < c.rank[3] && Low(c)
  }

  lemma PointsToTypedefExists() returns (c: Base)
    ensures PointsToTypedef(c)
  {
    var g: Graph := [Void, Scalar(false, "int"), Record(false, "r", [Member("p", 3, 0)]), Ptr(4), Typedef("t", 1)];
    c := Base(g, map[], [0, 0, 0, 2, 1]);
  }

  lemma PointsToTypedefRanked(c: Base)
    requires PointsToTypedef(c)
    ensures Ranked(c) && Body(c, 2) == [Member("p", 3, 0)]
  {
    OneShown(c.marks, 2, Member("p", 3, 0));
  }

  /** Walking to the pointer defines the typedef behind it. */
  lemma PointerDefinesTypedef(c: Base, s: State)
    requires PointsToTypedef(c) && Ranked(c) && Fits(c, s) && s.td[4] == White
    ensures Walk.Walk(c, Hard(3), s) == Done(LeaveTypedef(EnterTypedef(s, 4), 4))
  {
    SameJob(c, Hard(3), Soft(3), s);
    SameJob(c, Soft(3), Soft(4), s);
    SameJob(c, Soft(4), DefineTypedef(4), s);
    assert Target(c.g, 1) == Soft(1);
    WalkPlanned(c, Soft(1), EnterTypedef(s, 4));
    assert Printable(c, 1);
    assert Roomy(c, 1, NameSize("t"));
  }

  lemma PointsToTypedefRecord(c: Base, s: State)
    requires PointsToTypedef(c) && Ranked(c) && Fits(c, s) && s.td[4] == White && s.rec[2] == White
    requires Body(c, 2) == [Member("p", 3, 0)]
    ensures Walk.Walk(c, DefineRecord(2), s).Done? && Alias(4) in Walk.Walk(c, DefineRecord(2), s).st.out
  {
    var entered := EnterRecord(s, 2);
    assert Hards(Body(c, 2)) == [Hard(3)];
    OneJob(c, Hard(3), entered);
    PointerDefinesTypedef(c, entered);
    PointsToTypedefPrints(c);
    hide BodyPrints;
  }

  lemma PointsToTypedefPrints(c: Base)
    requires PointsToTypedef(c) && Ranked(c) && Body(c, 2) == [Member("p", 3, 0)]
    ensures BodyPrints(c, 2)
  {
    assert Printable(c, 4);
    assert Printable(c, 3);
    assert Roomy(c, 4, Size(2, true));
    assert Roomy(c, 3, NameSize("p"));
  }

  lemma PointsToTypedefEdges(c: Base)
    requires PointsToTypedef(c) && Body(c, 2) == [Member("p", 3, 0)]
    ensures Closure.ClosedUnder(c.g, Closure.Options(c.marks, false), {2, 3})
  {
  }

  lemma PointsToTypedefKinds(c: Base, ids: seq<nat>)
    requires PointsToTypedef(c) && ids == [2, 3]
    ensures InRange(c.g, ids) && Distinct(ids) && 2 in ids
    ensures forall i | i in ids && i < |c.g| :: InGroup(c.g[i], Tags) <==> i == 2
    ensures forall i | i in ids && i < |c.g| :: InGroup(c.g[i], Records) <==> i == 2
    ensures forall i | i in ids && i < |c.g| :: !InGroup(c.g[i], Typedefs) && !InGroup(c.g[i], Enums)
  {
    assert ids[0] == 2;
    assert forall i | i in ids :: i == 2 || i == 3;
  }

  lemma PointsToTypedefGroups(c: Base, ids: seq<nat>)
    requires PointsToTypedef(c) && ids == [2, 3]
    ensures InRange(c.g, ids)
    ensures Prologue(c.g, ids) == Declare(c.g, 2, Start(5)) && HeaderJobs(c.g, ids) == [DefineRecord(2)]
  {
    hide Select, InGroup;
    PointsToTypedefKinds(c, ids);
    OnlyOne(c.g, ids, Tags, 2);
    OnlyOne(c.g, ids, Records, 2);
    NoneAtAll(c.g, ids, Enums);
    NoneAtAll(c.g, ids, Typedefs);
    assert DeclareAll(c.g, [2], Start(5)) == Declare(c.g, 2, Start(5));
  }

  /** Without expanded pointers the header can define a typedef that is not required: the default
      edges do not leave the record and its pointer, yet the typedef behind the pointer is printed. */
  lemma TypedefOutsideRequired(c: Base)
    requires PointsToTypedef(c)
    ensures Ranked(c) && Closure.ClosedUnder(c.g, Closure.Options(c.marks, false), {2, 3})
    ensures Header(c, [2, 3]).Done? && Alias(4) in Header(c, [2, 3]).st.out
  {
    PointsToTypedefRanked(c);
    PointsToTypedefEdges(c);
    PointsToTypedefGroups(c, [2, 3]);
    hide Walk.Walk, WalkAll, HeaderJobs, Prologue, Closure.ClosedUnder, Ranked;
    var s := Declare(c.g, 2, Start(5));
    PointsToTypedefRecord(c, s);
    OneJob(c, DefineRecord(2), s);
  }

  /** struct s { int x; }; typedef struct s a[4]; struct r { a *p; }; */
  ghost predicate PointsToArray(c: Base) {
    && |c.g| == 7 == |c.rank|
    && c.g[1] == Scalar(false, "int")
    && c.g[2] == Record(false, "s", [Member("x", 1, 0)])
    && c.g[3] == Array(2, 1, 4) && c.g[4] == Typedef("a", 3) && c.g[5] == Ptr(4)
    && c.g[6] == Record(false, "r", [Member("p", 5, 0)])
    && 2 !in c.marks && 6 !in c.marks
    && c.rank[2] < c.rank[3] < c.rank[4] < c.rank[5] && Low(c)
  }

  lemma PointsToArrayExists() returns (c: Base)
    ensures PointsToArray(c)
  {
    var g: Graph := [Void, Scalar(false, "int"), Record(false, "s", [Member("x", 1, 0)]), Array(2, 1, 4),
                     Typedef("a", 3),
                     Ptr(4), Record(false, "r", [Member("p", 5, 0)])];
    c := Base(g, map[], [0, 0, 0, 1, 2, 3, 0]);
  }

  lemma PointsToArrayRanked(c: Base)
    requires PointsToArray(c)
    ensures Body(c, 2) == [Member("x", 1, 0)] && Body(c, 6) == [Member("p", 5, 0)]
    ensures Ranked(c) && Closed(c, {0, 1, 2, 3, 4, 5, 6}) && Kinds(c, {0, 1, 2, 3, 4, 5, 6})
    ensures Closure.ClosedUnder(c.g, Closure.Options(c.marks, false), {5, 6})
  {
    OneShown(c.marks, 2, Member("x", 1, 0));
    OneShown(c.marks, 6, Member("p", 5, 0));
  }

  lemma PointsToArrayKinds(c: Base)
    requires PointsToArray(c)
    ensures forall t | t in c.g ::
              (t.Typedef? ==> t.alias != "") && (t.Fwd? ==> t.tag != "") && (t.Record? ==> t.tag != "")
  {
    forall t | t in c.g
      ensures (t.Typedef? ==> t.alias != "") && (t.Fwd? ==> t.tag != "") && (t.Record? ==> t.tag != "")
    {
      var i :| 0 <= i < |c.g| && c.g[i] == t;
    }
  }

  lemma PointsToArrayPlans(c: Base)
    requires PointsToArray(c) && Ranked(c) && Body(c, 2) == [Member("x", 1, 0)] && Body(c, 6) == [Member("p", 5, 0)]
    ensures PlanOf(c, Hard(5)) == Jobs([Soft(5)]) && PlanOf(c, Soft(5)) == Jobs([Soft(4)])
    ensures PlanOf(c, Soft(4)) == Jobs([DefineTypedef(4)]) && PlanOf(c, Hard(3)) == Jobs([Hard(2)])
    ensures PlanOf(c, Hard(2)) == Jobs([DefineRecord(2)]) && PlanOf(c, Hard(1)) == Jobs([])
    ensures Leads(c, DefineRecord(6), Hard(5)) && Leads(c, Hard(5), Soft(5)) && Leads(c, Soft(5), Soft(4))
    ensures Leads(c, Soft(4), DefineTypedef(4)) && Leads(c, DefineTypedef(4), Hard(3))
    ensures Leads(c, Hard(3), Hard(2)) && Leads(c, Hard(2), DefineRecord(2))
  {
    OneHard(Member("p", 5, 0));
    assert Target(c.g, 3) == Hard(3);
  }

  lemma PointsToArrayDefines(c: Base, j: Job, n: Job)
    requires PointsToArray(c) && Body(c, 2) == [Member("x", 1, 0)] && Body(c, 6) == [Member("p", 5, 0)]
    requires (j.DefineRecord? || j.DefineTypedef?) && Leads(c, j, n)
    ensures (j == DefineRecord(2) && n == Hard(1)) || (j == DefineRecord(6) && n == Hard(5)) ||
            (j == DefineTypedef(4) && n == Hard(3))
  {
    OneHard(Member("x", 1, 0));
    OneHard(Member("p", 5, 0));
    assert Target(c.g, 3) == Hard(3);
    assert j.id in {0, 1, 2, 3, 4, 5, 6};
  }

  lemma PointsToArrayOrdered(c: Base, p: Play)
    requires PointsToArray(c) && Ranked(c) && Body(c, 2) == [Member("x", 1, 0)] && Body(c, 6) == [Member("p", 5, 0)]
    ensures Ordered(c, Self, p)
  {
    PointsToArrayPlans(c);
    assert Under(c, Self, Hard(1), 2) && Under(c, Self, DefineRecord(2), 4) && Under(c, Self, DefineTypedef(4), 6);
    hide PlanOf;
    UnderOne(c, Self, Hard(2), DefineRecord(2), 4);
    UnderOne(c, Self, Hard(3), Hard(2), 4);
    UnderOne(c, Self, Soft(4), DefineTypedef(4), 6);
    UnderOne(c, Self, Soft(5), Soft(4), 6);
    UnderOne(c, Self, Hard(5), Soft(5), 6);
    hide Under;
    forall j, n | j in p.jobs && (j.DefineRecord? || j.DefineTypedef?) && Leads(c, j, n)
      ensures Under(c, Self, n, j.id)
    {
      PointsToArrayDefines(c, j, n);
    }
  }

  lemma PointsToArrayPlay(c: Base, ids: seq<nat>)
    requires PointsToArray(c) && Ranked(c) && Body(c, 2) == [Member("x", 1, 0)] && Body(c, 6) == [Member("p", 5, 0)]
    requires ids == [5, 6]
    ensures InRange(c.g, ids) && DefineRecord(2) in PlayOf(c, ids).jobs
  {
    PointsToArrayStart(c, ids);
    PlayClosed(c, HeaderJobs(c.g, ids));
    PointsToArrayPlans(c);
    hide PlaySet, HeaderJobs, Leads, PointsToArray, Ranked, PlanOf;
    ArrayChain(c, PlayOf(c, ids).jobs);
  }

  lemma PointsToArrayStart(c: Base, ids: seq<nat>)
    requires PointsToArray(c) && ids == [5, 6]
    ensures InRange(c.g, ids) && DefineRecord(6) in HeaderJobs(c.g, ids)
  {
    assert ids[1] == 6;
    JobsAre(c.g, ids, DefineRecord(6));
  }

  lemma ArrayChain(c: Base, k: iset<Job>)
    requires JobClosed(c, k) && DefineRecord(6) in k
    requires Leads(c, DefineRecord(6), Hard(5)) && Leads(c, Hard(5), Soft(5)) && Leads(c, Soft(5), Soft(4))
    requires Leads(c, Soft(4), DefineTypedef(4)) && Leads(c, DefineTypedef(4), Hard(3))
    requires Leads(c, Hard(3), Hard(2)) && Leads(c, Hard(2), DefineRecord(2))
    ensures DefineRecord(2) in k
  {
    hide Leads;
  }

  /** Without expanded pointers the header can define a record that is not required, too: an array
      typedef named behind a pointer takes its elements by value. */
  lemma RecordOutsideRequired(c: Base)
    requires PointsToArray(c)
    ensures Ranked(c) && Closure.ClosedUnder(c.g, Closure.Options(c.marks, false), {5, 6})
    ensures Header(c, [5, 6]).Done? && RecordBody(2) in Header(c, [5, 6]).st.out
  {
    var ids := [5, 6];
    PointsToArrayRanked(c);
    PointsToArrayPlay(c, ids);
    PointsToArrayFits(c, ids);
    hide Ordered, Ranked, Closed, Kinds, Supported, Header, PlayOf, Closure.ClosedUnder;
    HeaderSucceeds(c, Self, ids);
    HeaderDefinesPlay(c, ids);
  }

  lemma PointsToArrayShort(c: Base)
    requires PointsToArray(c) && Ranked(c)
    ensures Short(c, {0, 1, 2, 3, 4, 5, 6})
  {
    hide Ranked, Short, Low;
    LowFits(c, {0, 1, 2, 3, 4, 5, 6});
  }

  lemma PointsToArrayFits(c: Base, ids: seq<nat>)
    requires PointsToArray(c) && Ranked(c) && ids == [5, 6]
    ensures InRange(c.g, ids) && Distinct(ids) && Ordered(c, Self, PlayOf(c, ids)) && Supported(c, PlayOf(c, ids))
  {
    PointsToArrayRanked(c);
    PointsToArrayKinds(c);
    PointsToArrayOrdered(c, PlayOf(c, ids));
    PointsToArrayShort(c);
    assert forall i | i in ids :: i in {0, 1, 2, 3, 4, 5, 6};
    hide Ranked, Ordered, Closed, Kinds, Short, Supported, PlayOf, Low;
    KindsSupported(c, ids, {0, 1, 2, 3, 4, 5, 6});
  }

  /** struct a { int x; }; typedef struct a arr[2]; typedef struct { struct a m; } *t; the typedefs in
      either order of their ids. */
  ghost predicate TwoTypedefs(c: Base, arr: nat, t: nat) {
    && |c.g| == 8 == |c.rank| && {arr, t} == {6, 7}
    && c.g[1] == Scalar(false, "int")
    && c.g[2] == Record(false, "a", [Member("x", 1, 0)])
    && c.g[3] == Record(false, "", [Member("m", 2, 0)])
    && c.g[4] == Ptr(3) && c.g[5] == Array(2, 1, 2)
    && c.g[arr] == Typedef("arr", 5) && c.g[t] == Typedef("t", 4)
    && 2 !in c.marks && 3 !in c.marks
    && c.rank[2] < c.rank[3] < c.rank[4] < c.rank[t] && c.rank[2] < c.rank[5] < c.rank[arr] && Low(c)
  }

  lemma AllLow(c: Base)
    requires |c.rank| == 8 && c.rank[0] < 10 && c.rank[1] < 10 && c.rank[2] < 10 && c.rank[3] < 10
    requires c.rank[4] < 10 && c.rank[5] < 10 && c.rank[6] < 10 && c.rank[7] < 10
    ensures Low(c)
  {
  }

  lemma TwoTypedefsExist() returns (c: Base, d: Base)
    ensures TwoTypedefs(c, 6, 7) && TwoTypedefs(d, 7, 6)
  {
    c := ArrayComesFirst();
    d := PointerComesFirst();
  }

  lemma ArrayComesFirst() returns (c: Base)
    ensures TwoTypedefs(c, 6, 7)
  {
    hide Low;
    var g: Graph := [Void, Scalar(false, "int"), Record(false, "a", [Member("x", 1, 0)]),
                     Record(false, "", [Member("m", 2, 0)]),
                     Ptr(3), Array(2, 1, 2), Typedef("arr", 5), Typedef("t", 4)];
    c := Base(g, map[], [0, 0, 0, 1, 2, 1, 2, 3]);
    AllLow(c);
  }

  lemma PointerComesFirst() returns (c: Base)
    ensures TwoTypedefs(c, 7, 6)
  {
    hide Low;
    var g: Graph := [Void, Scalar(false, "int"), Record(false, "a", [Member("x", 1, 0)]),
                     Record(false, "", [Member("m", 2, 0)]),
                     Ptr(3), Array(2, 1, 2), Typedef("t", 4), Typedef("arr", 5)];
    c := Base(g, map[], [0, 0, 0, 1, 2, 1, 3, 2]);
    AllLow(c);
  }

  lemma TwoTypedefsRanked(c: Base, arr: nat, t: nat)
    requires TwoTypedefs(c, arr, t)
    ensures Body(c, 2) == [Member("x", 1, 0)] && Body(c, 3) == [Member("m", 2, 0)]
    ensures Ranked(c) && arr != t
    ensures forall u | u in c.g :: (u.Typedef? ==> u.alias != "") && (u.Fwd? ==> u.tag != "") && !u.Enum?
  {
    OneShown(c.marks, 2, Member("x", 1, 0));
    OneShown(c.marks, 3, Member("m", 2, 0));
    assert arr in {6, 7} && t in {6, 7};
    assert 6 in {arr, t} && 7 in {arr, t};
    forall u | u in c.g
      ensures (u.Typedef? ==> u.alias != "") && (u.Fwd? ==> u.tag != "") && !u.Enum?
    {
      var i :| 0 <= i < |c.g| && c.g[i] == u;
    }
  }

  ghost function Seven(): seq<nat> {
    [1, 2, 3, 4, 5, 6, 7]
  }

  lemma SevenIs()
    ensures Distinct(Seven()) && 2 in Seven() && 7 in Seven()
    ensures forall i | i in Seven() :: 1 <= i <= 7
  {
    assert Seven()[1] == 2 && Seven()[6] == 7;
  }

  lemma TwoTypedefsKind(c: Base, arr: nat, t: nat, i: nat)
    requires TwoTypedefs(c, arr, t) && 1 <= i <= 7
    ensures InGroup(c.g[i], Tags) <==> i == 2
    ensures InGroup(c.g[i], Typedefs) <==> i == 6 || i == 7
    ensures InGroup(c.g[i], Records) <==> i == 2
    ensures !InGroup(c.g[i], Enums)
  {
    assert arr in {6, 7} && t in {6, 7} && 6 in {arr, t} && 7 in {arr, t};
  }

  lemma TwoTypedefsKinds(c: Base, arr: nat, t: nat)
    requires TwoTypedefs(c, arr, t)
    ensures InRange(c.g, Seven()) && Distinct(Seven()) && 2 in Seven() && |c.g| == 8
    ensures forall i | i in Seven() && i < |c.g| :: InGroup(c.g[i], Tags) <==> i == 2
    ensures forall i | i in Seven() && i < |c.g| :: InGroup(c.g[i], Typedefs) <==> i == 6 || i == 7
    ensures forall i | i in Seven() && i < |c.g| :: InGroup(c.g[i], Records) <==> i == 2
    ensures forall i | i in Seven() && i < |c.g| :: !InGroup(c.g[i], Enums)
  {
    assert |c.g| == 8;
    SevenIs();
    hide InGroup, Seven, TwoTypedefs, Distinct;
    forall i | i in Seven() && i < |c.g|
      ensures InGroup(c.g[i], Tags) <==> i == 2
      ensures InGroup(c.g[i], Typedefs) <==> i == 6 || i == 7
      ensures InGroup(c.g[i], Records) <==> i == 2
      ensures !InGroup(c.g[i], Enums)
    {
      TwoTypedefsKind(c, arr, t, i);
    }
    assert forall k | 0 <= k < |Seven()| :: Seven()[k] in Seven();
  }

  lemma TwoChosen(g: Graph, before: seq<nat>, id: nat, last: nat)
    requires InRange(g, before) && Distinct(before) && id in before && last < |g| && InGroup(g[last], Typedefs)
    requires forall i | i in before && i < |g| :: InGroup(g[i], Typedefs) <==> i == id
    ensures InRange(g, before + [last]) && Select(g, before + [last], Typedefs) == [id, last]
  {
    hide InGroup, Distinct;
    OnlyOne(g, before, Typedefs, id);
    hide Select;
    SelectMore(g, before, last, Typedefs);
  }

  lemma SixBefore(before: seq<nat>)
    requires before == [1, 2, 3, 4, 5, 6]
    ensures Distinct(before) && 6 in before && before + [7] == Seven()
    ensures forall i | i in before :: i in Seven() && i != 7 && i < 7
  {
    assert before[5] == 6;
    assert before + [7] == Seven();
    assert forall i | i in before :: i in before + [7];
  }

  lemma TwoTypedefsChosen(c: Base, arr: nat, t: nat)
    requires TwoTypedefs(c, arr, t)
    ensures InRange(c.g, Seven()) && Select(c.g, Seven(), Typedefs) == [6, 7]
  {
    var before := [1, 2, 3, 4, 5, 6];
    TwoTypedefsKinds(c, arr, t);
    SixBefore(before);
    SevenIs();
    hide Select, InGroup, TwoTypedefs, Distinct, Seven;
    TwoChosen(c.g, before, 6, 7);
  }

  lemma GroupsByKind(g: Graph, ids: seq<nat>)
    requires InRange(g, ids) && Distinct(ids) && 2 in ids && 2 < |g|
    requires forall i | i in ids && i < |g| :: InGroup(g[i], Tags) <==> i == 2
    requires forall i | i in ids && i < |g| :: InGroup(g[i], Records) <==> i == 2
    requires forall i | i in ids && i < |g| :: !InGroup(g[i], Enums)
    requires Select(g, ids, Typedefs) == [6, 7]
    ensures Prologue(g, ids) == Declare(g, 2, Start(|g|))
    ensures HeaderJobs(g, ids) == [DefineTypedef(6), DefineTypedef(7), DefineRecord(2)]
  {
    hide Select, InGroup, Distinct;
    OnlyOne(g, ids, Tags, 2);
    OnlyOne(g, ids, Records, 2);
    NoneAtAll(g, ids, Enums);
    assert DeclareAll(g, [2], Start(|g|)) == Declare(g, 2, Start(|g|));
  }

  lemma TwoTypedefsGroups(c: Base, arr: nat, t: nat)
    requires TwoTypedefs(c, arr, t)
    ensures InRange(c.g, Seven())
    ensures Prologue(c.g, Seven()) == Declare(c.g, 2, Start(8))
    ensures HeaderJobs(c.g, Seven()) == [DefineTypedef(6), DefineTypedef(7), DefineRecord(2)]
  {
    TwoTypedefsKinds(c, arr, t);
    TwoTypedefsChosen(c, arr, t);
    assert |c.g| == 8;
    hide Select, InGroup, TwoTypedefs, Distinct, Seven, Prologue, HeaderJobs;
    GroupsByKind(c.g, Seven());
  }

  lemma TwoTypedefsRecord(c: Base, arr: nat, t: nat, s: State)
    requires TwoTypedefs(c, arr, t) && Ranked(c) && Fits(c, s)
    ensures s.rec[2] == White ==> Walk.Walk(c, DefineRecord(2), s) == Done(LeaveRecord(EnterRecord(s, 2), 2))
    ensures s.rec[2] != White ==> Walk.Walk(c, DefineRecord(2), s) == Done(s)
  {
    TwoTypedefsRanked(c, arr, t);
    OneHard(Member("x", 1, 0));
    var entered := EnterRecord(s, 2);
    OneJob(c, Hard(1), entered);
    WalkPlanned(c, Hard(1), entered);
    TwoTypedefsPrint(c, arr, t);
    hide BodyPrints;
  }

  lemma TwoTypedefsShort(c: Base, arr: nat, t: nat)
    requires TwoTypedefs(c, arr, t) && Ranked(c)
    ensures Short(c, {2, arr, t})
  {
    forall i | 0 <= i < |c.g|
      ensures NamesWithin(c.g[i], 8)
    {
      assert i == arr || i == t || i < 6;
    }
    hide Ranked, Short, Low;
    LowFits(c, {2, arr, t});
  }

  lemma TwoTypedefsPrint(c: Base, arr: nat, t: nat)
    requires TwoTypedefs(c, arr, t) && Ranked(c)
    ensures AliasPrints(c, arr) && AliasPrints(c, t) && BodyPrints(c, 2)
  {
    TwoTypedefsRanked(c, arr, t);
    TwoTypedefsShort(c, arr, t);
    hide Roomy;
    assert Printable(c, 1);
    assert Printable(c, 2);
    assert Printable(c, 3);
    assert Printable(c, 4);
    assert Printable(c, 5);
  }

  /** The array typedef finishes the record first. */
  lemma TwoTypedefsArray(c: Base, arr: nat, t: nat, s: State)
    requires TwoTypedefs(c, arr, t) && Ranked(c) && Fits(c, s) && s.td[arr] == White && s.rec[2] == White
    ensures var r := Walk.Walk(c, DefineTypedef(arr), s);
            && r.Done? && Fits(c, r.st) && r.st.out == s.out + [RecordBody(2), Alias(arr)]
            && r.st.rec[2] == Black && r.st.td[t] == s.td[t]
  {
    var entered := EnterTypedef(s, arr);
    assert Target(c.g, 5) == Hard(5);
    SameJob(c, Hard(5), Hard(2), entered);
    SameJob(c, Hard(2), DefineRecord(2), entered);
    TwoTypedefsRecord(c, arr, t, entered);
    TwoTypedefsPrint(c, arr, t);
    hide AliasPrints, BodyPrints, Ranked, PlanOf;
    TypedefWalked(c, arr, s);
    assert s.out + [RecordBody(2)] + [Alias(arr)] == s.out + [RecordBody(2), Alias(arr)];
  }

  /** A fresh typedef, once its target is walked. */
  lemma TypedefWalked(c: Base, id: nat, s: State)
    requires Ranked(c) && Fits(c, s) && id < |c.g| && NamedTypedef(c.g[id]) && s.td[id] == White && AliasPrints(c, id)
    requires Walk.Walk(c, Target(c.g, c.g[id].to), EnterTypedef(s, id)).Done?
    ensures Walk.Walk(c, DefineTypedef(id), s) ==
            Done(LeaveTypedef(Walk.Walk(c, Target(c.g, c.g[id].to), EnterTypedef(s, id)).st, id))
  {
    hide AliasPrints;
  }

  lemma TwoTypedefsPointer(c: Base, arr: nat, t: nat, s: State)
    requires TwoTypedefs(c, arr, t) && Ranked(c) && Fits(c, s) && s.td[t] == White
    ensures var r := Walk.Walk(c, DefineTypedef(t), s);
            && r.Done? && Fits(c, r.st) && r.st.out == s.out + [Alias(t)]
            && r.st.rec[2] == s.rec[2] && r.st.td[arr] == s.td[arr]
  {
    TwoTypedefsRanked(c, arr, t);
    var entered := EnterTypedef(s, t);
    assert Target(c.g, 4) == Soft(4);
    SameJob(c, Soft(4), Soft(3), entered);
    WalkPlanned(c, Soft(3), entered);
    assert Declare(c.g, 3, entered) == entered;
    TwoTypedefsPrint(c, arr, t);
    hide AliasPrints;
  }

  lemma StartOf(c: Base, arr: nat, t: nat)
    requires TwoTypedefs(c, arr, t)
    ensures var s := Declare(c.g, 2, Start(8));
            Fits(c, s) && s.out == [Forward(2)] && s.rec[2] == White && s.td[arr] == s.td[t] == White
  {
    assert arr in {6, 7} && t in {6, 7};
  }

  lemma ThreeJobs(c: Base, x: Job, y: Job, z: Job, s: State)
    requires Ranked(c) && Fits(c, s) && Walk.Walk(c, x, s).Done?
    requires Walk.Walk(c, y, Walk.Walk(c, x, s).st).Done?
    ensures WalkAll(c, [x, y, z], s) == Walk.Walk(c, z, Walk.Walk(c, y, Walk.Walk(c, x, s).st).st)
  {
    hide Walk.Walk;
    NextJob(c, [x, y, z], s);
    assert [x, y, z][1..] == [y, z];
    TwoJobs(c, y, z, Walk.Walk(c, x, s).st);
  }

  lemma ArrayFirst(c: Base)
    requires TwoTypedefs(c, 6, 7) && Ranked(c) && InRange(c.g, Seven())
    ensures Header(c, Seven()).Done?
    ensures Header(c, Seven()).st.out == [Forward(2), RecordBody(2), Alias(6), Alias(7)]
  {
    hide Walk.Walk, WalkAll, HeaderJobs, Prologue, TwoTypedefs, Ranked, Seven;
    TwoTypedefsGroups(c, 6, 7);
    StartOf(c, 6, 7);
    var s := Declare(c.g, 2, Start(8));
    TwoTypedefsArray(c, 6, 7, s);
    var r := Walk.Walk(c, DefineTypedef(6), s).st;
    TwoTypedefsPointer(c, 6, 7, r);
    TwoTypedefsRecord(c, 6, 7, Walk.Walk(c, DefineTypedef(7), r).st);
    ThreeJobs(c, DefineTypedef(6), DefineTypedef(7), DefineRecord(2), s);
    assert [Forward(2)] + [RecordBody(2), Alias(6)] + [Alias(7)] == [Forward(2), RecordBody(2), Alias(6), Alias(7)];
  }

  lemma PointerFirst(c: Base)
    requires TwoTypedefs(c, 7, 6) && Ranked(c) && InRange(c.g, Seven())
    ensures Header(c, Seven()).Done?
    ensures Header(c, Seven()).st.out == [Forward(2), Alias(6), RecordBody(2), Alias(7)]
  {
    hide Walk.Walk, WalkAll, HeaderJobs, Prologue, TwoTypedefs, Ranked, Seven;
    TwoTypedefsGroups(c, 7, 6);
    StartOf(c, 7, 6);
    var s := Declare(c.g, 2, Start(8));
    TwoTypedefsPointer(c, 7, 6, s);
    var t := Walk.Walk(c, DefineTypedef(6), s).st;
    TwoTypedefsArray(c, 7, 6, t);
    TwoTypedefsRecord(c, 7, 6, Walk.Walk(c, DefineTypedef(7), t).st);
    ThreeJobs(c, DefineTypedef(6), DefineTypedef(7), DefineRecord(2), s);
    assert [Forward(2)] + [Alias(6)] + [RecordBody(2), Alias(7)] == [Forward(2), Alias(6), RecordBody(2), Alias(7)];
  }

  /** What the pointer typedef says: a pointer to a record that holds struct a by value. */
  lemma PointerSays(c: Base, arr: nat, t: nat, e: Env)
    requires TwoTypedefs(c, arr, t) && Ranked(c) && 2 in e.tags
    ensures Known(e, CTypeOf(c, 4)) <==> 2 in e.complete
  {
    TwoTypedefsRanked(c, arr, t);
    FieldAt(c, Body(c, 3), 0);
    var f := FieldsOf(c, Body(c, 3))[0];
    assert FieldsOf(c, Body(c, 3)) == [f] && f in [f] && f.ty == Plain({}, TagName(false, 2));
    assert Needs(e, f.ty) == {2};
    assert CTypeOf(c, 3) == Plain({}, Inline(false, [f]));
    assert Known(e, CTypeOf(c, 3)) <==> 2 in e.complete;
  }

  lemma SaysFour(c: Base, w: Decl, x: Decl, y: Decl, z: Decl)
    requires Ranked(c) && OfKind(c, w) && OfKind(c, x) && OfKind(c, y) && OfKind(c, z)
    ensures forall d | d in [w, x, y, z] :: OfKind(c, d)
    ensures SaysAll(c, [w, x, y, z]) == [Says(c, w), Says(c, x), Says(c, y), Says(c, z)]
  {
    hide Says, OfKind;
    SaysThree(c, w, x, y);
    SaysMore(c, [w, x, y], z);
    assert [w, x, y] + [z] == [w, x, y, z];
  }

  lemma CheckFour(w: CDecl, x: CDecl, y: CDecl, z: CDecl)
    requires Accepts(NOTHING, w)
    ensures !Accepts(Enter(NOTHING, w), x) ==> Check(NOTHING, [w, x, y, z]).Illegal?
    ensures var a := Enter(NOTHING, w); var b := Enter(a, x); var e := Enter(b, y);
            Accepts(a, x) && Accepts(b, y) && Accepts(e, z) ==> Check(NOTHING, [w, x, y, z]).Legal?
  {
    hide Accepts, Enter;
    CheckMore(NOTHING, [], w);
    CheckMore(NOTHING, [w], x);
    CheckMore(NOTHING, [w, x], y);
    CheckMore(NOTHING, [w, x, y], z);
    assert [] + [w] == [w] && [w] + [x] == [w, x] && [w, x] + [y] == [w, x, y] && [w, x, y] + [z] == [w, x, y, z];
  }

  lemma RecordSays(c: Base, e: Env)
    requires TwoTypedefs(c, 6, 7) && Ranked(c) && e == Env({2}, {}, {}, map[])
    ensures Accepts(e, Says(c, RecordBody(2))) && Enter(e, Says(c, RecordBody(2))) == Env({2}, {2}, {}, map[])
  {
    TwoTypedefsRanked(c, 6, 7);
    FieldAt(c, Body(c, 2), 0);
    var f := FieldsOf(c, Body(c, 2))[0];
    assert FieldsOf(c, Body(c, 2)) == [f] && f.ty == Plain({}, Keyword("int"));
    assert Says(c, RecordBody(2)) == RecordDefinition(false, 2, [f]);
    hide Ranked, TwoTypedefs, CTypeOf, FieldsOf, Says;
  }

  lemma ArraySays(c: Base, e: Env)
    requires TwoTypedefs(c, 6, 7) && Ranked(c) && e == Env({2}, {2}, {}, map[])
    ensures var after := Enter(e, Says(c, Alias(6)));
            Accepts(e, Says(c, Alias(6))) && after.tags == {2} && after.complete == {2} && 7 !in after.needs
  {
    assert CTypeOf(c, 5) == ArrayOf(Plain({}, TagName(false, 2)), 2);
  }

  lemma PointerSaysLast(c: Base, e: Env)
    requires TwoTypedefs(c, 6, 7) && Ranked(c) && e.tags == {2} && e.complete == {2} && 7 !in e.needs
    ensures Accepts(e, Says(c, Alias(7)))
  {
    PointerSays(c, 6, 7, e);
    hide Known;
    assert CTypeOf(c, 4).Pointer?;
  }

  lemma ArrayFirstLegal(c: Base)
    requires TwoTypedefs(c, 6, 7) && Ranked(c)
    ensures forall d | d in [Forward(2), RecordBody(2), Alias(6), Alias(7)] :: OfKind(c, d)
    ensures Check(NOTHING, SaysAll(c, [Forward(2), RecordBody(2), Alias(6), Alias(7)])).Legal?
  {
    SaysFour(c, Forward(2), RecordBody(2), Alias(6), Alias(7));
    var w := Says(c, Forward(2));
    assert Enter(NOTHING, w) == Env({2}, {}, {}, map[]);
    RecordSays(c, Enter(NOTHING, w));
    ArraySays(c, Env({2}, {2}, {}, map[]));
    PointerSaysLast(c, Enter(Env({2}, {2}, {}, map[]), Says(c, Alias(6))));
    CheckFour(w, Says(c, RecordBody(2)), Says(c, Alias(6)), Says(c, Alias(7)));
    hide Says, Accepts, Enter, Check, OfKind;
  }

  lemma PointerFirstIllegal(c: Base)
    requires TwoTypedefs(c, 7, 6) && Ranked(c)
    ensures forall d | d in [Forward(2), Alias(6), RecordBody(2), Alias(7)] :: OfKind(c, d)
    ensures Check(NOTHING, SaysAll(c, [Forward(2), Alias(6), RecordBody(2), Alias(7)])).Illegal?
  {
    SaysFour(c, Forward(2), Alias(6), RecordBody(2), Alias(7));
    var w := Says(c, Forward(2));
    PointerSays(c, 7, 6, Enter(NOTHING, w));
    hide CTypeOf, Known, FieldsOf;
    CheckFour(w, Says(c, Alias(6)), Says(c, RecordBody(2)), Says(c, Alias(7)));
  }

  /** Whether a header with such a pointee is legal can rest on the order of the ids alone: the same
      three definitions are legal one way round, illegal the other. */
  lemma OrderOfIdsDecides(c: Base, d: Base)
    requires TwoTypedefs(c, 6, 7) && TwoTypedefs(d, 7, 6)
    ensures var ids := Seven();
            && Ranked(c) && InRange(c.g, ids) && Header(c, ids).Done?
            && (forall x | x in Header(c, ids).st.out :: OfKind(c, x))
            && Check(NOTHING, SaysAll(c, Header(c, ids).st.out)).Legal?
    ensures var ids := Seven();
            && Ranked(d) && InRange(d.g, ids) && Header(d, ids).Done?
            && (forall x | x in Header(d, ids).st.out :: OfKind(d, x))
            && Check(NOTHING, SaysAll(d, Header(d, ids).st.out)).Illegal?
  {
    TwoTypedefsRanked(c, 6, 7);
    TwoTypedefsRanked(d, 7, 6);
    TwoTypedefsGroups(c, 6, 7);
    TwoTypedefsGroups(d, 7, 6);
    hide Ranked, Check, Header, OfKind, TwoTypedefs, Seven, Prologue, HeaderJobs;
    ArrayFirst(c);
    ArrayFirstLegal(c);
    PointerFirst(d);
    PointerFirstIllegal(d);
  }

  /** A pointer member whose name fills the buffer makes the header fail, however well formed its type. */
  lemma LongNameFails(c: Base, ids: seq<nat>, id: nat, i: nat)
    requires Ranked(c) && InRange(c.g, ids) && Distinct(ids) && id in ids && NamedRecord(c.g[id])
    requires i < |Body(c, id)| && 0 < Body(c, id)[i].ty < |c.g| && c.g[Body(c, id)[i].ty].Ptr?
    requires |Body(c, id)[i].name| >= 511
    ensures Header(c, ids).Failed?
  {
    assert !Roomy(c, Body(c, id)[i].ty, NameSize(Body(c, id)[i].name));
    if Header(c, ids).Done? {
      hide Roomy;
      DonePrints(c, ids, id);
    }
  }
}
