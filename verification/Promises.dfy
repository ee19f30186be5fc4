/** What the user of a header is promised: when it is printed, what it defines, when it is legal, and
    that it has what the objects access. */
module Promises {
  import opened Btf
  import opened CSyntax
  import opened Scope
  import opened Meaning
  import opened Walk
  import opened InPlay
  import opened WalkOnce
  import opened WalkScope
  import opened HeaderScope
  import opened HeaderExact
  import opened HeaderSuccess
  import opened HeaderPruned
  import opened PlainWalk
  import opened HeaderLegal
  import opened HeaderRegular
  import opened HeaderLeast
  import opened HeaderAccess
  import opened HeaderText
  import opened ReadStuck
  import opened Closure
  import opened Dependencies
  import opened Access
  import opened AccessString
  import opened Seeds
  import opened BtfIndex
  import opened Resolve
  import opened Objects
  import opened Pipeline
  import Grammar

  /** The jobs that a header of these objects sets off. */
  ghost function InPlayFor(g: Graph, obs: seq<Object>, expand: bool, rank: seq<nat>): Play {
    PlayOf(BaseOf(g, obs, rank), IdsOf(g, obs, expand))
  }

  /** It is enough that the source's own graph has its names, pointees and numbering in order, before
      any object prunes it. */
  lemma SourceSuffices(g: Graph, obs: seq<Object>, expand: bool, rank: seq<nat>, ord: nat -> nat)
    requires AllRegular(SourceOf(g, rank), ord, IdsOf(g, obs, expand))
    ensures AllRegular(BaseOf(g, obs, rank), ord, IdsOf(g, obs, expand))
  {
    RegularPruned(SourceOf(g, rank), BaseOf(g, obs, rank), ord, IdsOf(g, obs, expand));
  }

  lemma NeededIsClosure(g: Graph, obs: seq<Object>, expand: bool)
    requires NeedsInRange(g, obs, expand)
    ensures IsClosure(g, OptionsOf(g, obs, expand), Seeded(g, obs), Needed(g, obs, expand))
  {
  }

  /** In either mode what the needed types are made of is needed, the targets of pointers aside unless
      pointers are expanded. */
  lemma PartsAreNeeded(g: Graph, obs: seq<Object>, expand: bool, id: nat, part: nat)
    requires NeedsInRange(g, obs, expand) && id in Needed(g, obs, expand)
    requires HasPart(g, Kept(g, obs), id, part) && (g[id].Ptr? ==> expand)
    ensures part in Needed(g, obs, expand) + {0}
  {
    hide HasPart, Kept, Reached;
    PartsReached(g, OptionsOf(g, obs, expand), Seeded(g, obs), id, part);
  }

  /** So is what the emitter follows from them. */
  lemma FollowedIsNeeded(g: Graph, obs: seq<Object>, expand: bool, rank: seq<nat>, id: nat, to: nat)
    requires NeedsInRange(g, obs, expand) && id in Needed(g, obs, expand)
    requires Follows(BaseOf(g, obs, rank), id, to) && (g[id].Ptr? ==> expand)
    ensures to in Needed(g, obs, expand) + {0}
  {
    hide HasPart, Kept, NeedsInRange;
    FollowedIsPart(BaseOf(g, obs, rank), id, to);
    PartsAreNeeded(g, obs, expand, id, to);
  }

  /** A needed type that no object asks for is part of one that is needed. */
  lemma NeededHasUser(g: Graph, obs: seq<Object>, expand: bool, id: nat)
    requires NeedsInRange(g, obs, expand) && id in Needed(g, obs, expand) && id !in Seeded(g, obs)
    ensures exists user: nat ::
              && user in Needed(g, obs, expand) && user < |g| && HasPart(g, Kept(g, obs), user, id)
              && (g[user].Ptr? ==> expand)
  {
    hide HasPart, Kept, Reached, Seeded;
    ReachedHasUser(g, OptionsOf(g, obs, expand), Seeded(g, obs), id);
  }

  /** With pointers expanded, the edges the emitter follows do not leave the closure. */
  lemma ExpandedIsClosed(c: Base, seeds: set<nat>, s: set<nat>)
    requires IsClosure(c.g, Options(c.marks, true), seeds, s)
    ensures Closed(c, s + {0})
  {
    var o := Options(c.marks, true);
    ClosureIsLeast(c.g, o, seeds, s);
    forall id, to: nat | id in s && 0 < id < |c.g| && Follows(c, id, to)
      ensures to in s + {0}
    {
      if to != 0 {
        FollowedIsPart(c, id, to);
        EdgesAreParts(c.g, o, id, to);
      }
    }
    forall id, m | id in s && id < |c.g| && c.g[id].Record? && m in Body(c, id)
      ensures m.ty in s + {0}
    {
      if m.ty != 0 {
        BodyEdge(c, true, id, m);
      }
    }
  }

  lemma BodyEdge(c: Base, expand: bool, id: nat, m: Member)
    requires id < |c.g| && c.g[id].Record? && m in Body(c, id) && m.ty != 0
    ensures Edge(c.g, Options(c.marks, expand), id, m.ty)
  {
    var k :| 0 <= k < |Body(c, id)| && Body(c, id)[k] == m;
    var ids := MemberTypes(Body(c, id));
    assert Deps(c.g, Options(c.marks, expand), id) == ids;
    assert ids[k] == m.ty;
  }

  lemma {:induction false} TrailSplits(c: Base, start: seq<Job>, trail: seq<Job>)
    requires IsTrail(c, trail) && trail[0] in start
    requires exists j :: j in trail && j.Soft?
    ensures exists j :: j in PlaySet(c, start) && j.Soft? && trail[|trail| - 1] in PlaySet(c, [j])
  {
    hide Leads;
    var i :| 0 <= i < |trail| && trail[i].Soft?;
    var before, after := trail[..i + 1], trail[i..];
    assert IsTrail(c, before) && before[0] in start && before[|before| - 1] == trail[i];
    assert IsTrail(c, after) && after[0] in [trail[i]] && after[|after| - 1] == trail[|trail| - 1];
  }

  /** A step between jobs that are not about names alone is a dependency, in either mode. */
  lemma WholeEdge(c: Base, expand: bool, j: Job, n: Job)
    requires Ranked(c) && Leads(c, j, n) && !j.Soft? && !n.Soft? && n.id != 0
    ensures j.id < |c.g| && (n.id == j.id || Edge(c.g, Options(c.marks, expand), j.id, n.id))
  {
    if c.g[j.id].Record? && n.Hard? {
      var i :| 0 <= i < |Body(c, j.id)| && Hards(Body(c, j.id))[i] == n;
      BodyEdge(c, expand, j.id, Body(c, j.id)[i]);
    }
  }

  /** With or without pointers expanded, jobs that are not about names alone stay in the closure. */
  lemma {:induction false} ByValueStays(c: Base, expand: bool, seeds: set<nat>, s: set<nat>, trail: seq<Job>)
    requires Ranked(c) && IsClosure(c.g, Options(c.marks, expand), seeds, s)
    requires IsTrail(c, trail) && trail[0].id in s + {0} && forall j | j in trail :: !j.Soft?
    ensures trail[|trail| - 1].id in s + {0}
    decreases |trail|
  {
    if |trail| > 1 {
      ClosureIsLeast(c.g, Options(c.marks, expand), seeds, s);
      var j, n := trail[0], trail[1];
      assert Leads(c, j, n) && j in trail && n in trail;
      hide Leads, Ranked, IsClosure;
      if n.id != 0 {
        VoidIsLast(c, j, n);
        WholeEdge(c, expand, j, n);
      }
      TrailTail(c, trail);
      ByValueStays(c, expand, seeds, s, trail[1..]);
    }
  }

  lemma VoidIsLast(c: Base, j: Job, n: Job)
    requires Leads(c, j, n)
    ensures j.id != 0
  {
  }

  lemma TrailTail(c: Base, trail: seq<Job>)
    requires IsTrail(c, trail) && |trail| > 1
    ensures IsTrail(c, trail[1..]) && forall j | j in trail[1..] :: j in trail
  {
    hide Leads;
  }

  /** In every mode the header defines exactly the required enums and the records and typedefs in play. */
  lemma HeaderDefinesExactly(g: Graph, obs: seq<Object>, expand: bool, rank: seq<nat>)
    requires Ranked(BaseOf(g, obs, rank)) && Succeeds(g, obs, expand, rank)
    ensures var ds, k := Declared(g, obs, expand, rank), InPlayFor(g, obs, expand, rank).jobs;
            && (forall id: nat :: RecordBody(id) in ds <==> DefineRecord(id) in k && id < |g| && NamedRecord(g[id]))
            && (forall id: nat :: Alias(id) in ds <==> DefineTypedef(id) in k && id < |g| && NamedTypedef(g[id]))
            && (forall id: nat :: EnumBody(id) in ds <==> id in Needed(g, obs, expand) && g[id].Enum?)
  {
    hide Kept, Reached, Header, Ranked, PlayOf;
    IdsDistinct(g, obs, expand);
    HeaderDefinesPlay(BaseOf(g, obs, rank), IdsOf(g, obs, expand));
  }

  /** What is in play outside the needed types is there for a pointer or a prototype that names it. */
  lemma OutsideIsNamed(g: Graph, obs: seq<Object>, expand: bool, rank: seq<nat>, job: Job)
    requires Ranked(BaseOf(g, obs, rank)) && NeedsInRange(g, obs, expand)
    requires job in InPlayFor(g, obs, expand, rank).jobs && job.id !in Needed(g, obs, expand) + {0}
    ensures exists j ::
              j in InPlayFor(g, obs, expand, rank).jobs && j.Soft? && job in PlaySet(BaseOf(g, obs, rank), [j])
  {
    var c, ids := BaseOf(g, obs, rank), IdsOf(g, obs, expand);
    var start := HeaderJobs(g, ids);
    var trail :| IsTrail(c, trail) && trail != [] && trail[0] in start && trail[|trail| - 1] == job;
    JobsAre(g, ids, trail[0]);
    NeededIsClosure(g, obs, expand);
    hide Ranked, Leads, IsTrail, Needed, HeaderJobs, PlaySet, IsClosure;
    if exists j :: j in trail && j.Soft? {
      TrailSplits(c, start, trail);
    } else {
      ByValueStays(c, expand, Seeded(g, obs), Needed(g, obs, expand), trail);
    }
  }

  /** With or without expanded pointers: unless a typedef in play leads back to itself, the header is
      printed if and only if every type in play is in range and every definition in play can be printed. */
  lemma HeaderSucceedsExactly(g: Graph, obs: seq<Object>, expand: bool, rank: seq<nat>)
    requires Ranked(BaseOf(g, obs, rank)) && NoneReturns(BaseOf(g, obs, rank), InPlayFor(g, obs, expand, rank).jobs)
    requires AllResolve(g, obs) && NeedsInRange(g, obs, expand)
    ensures Succeeds(g, obs, expand, rank) <==> Supported(BaseOf(g, obs, rank), InPlayFor(g, obs, expand, rank))
  {
    hide Kept, Reached, Ranked, NoneReturns, AllResolve, Supported, PlayOf, NeedsInRange;
    IdsDistinct(g, obs, expand);
    HeaderSucceedsUnlessCyclic(BaseOf(g, obs, rank), IdsOf(g, obs, expand));
  }

  /** A numbering of the definitions in play excludes such a typedef. */
  lemma OrderedNoneReturns(g: Graph, obs: seq<Object>, expand: bool, rank: seq<nat>, ord: nat -> nat)
    requires Ranked(BaseOf(g, obs, rank)) && Ordered(BaseOf(g, obs, rank), ord, InPlayFor(g, obs, expand, rank))
    ensures NoneReturns(BaseOf(g, obs, rank), InPlayFor(g, obs, expand, rank).jobs)
  {
    PlayClosed(BaseOf(g, obs, rank), HeaderJobs(g, IdsOf(g, obs, expand)));
    hide Ordered, HeaderJobs, PlaySet, NoneReturns, Kept, IdsOf, Ranked;
    NumberedNoneReturns(BaseOf(g, obs, rank), ord, InPlayFor(g, obs, expand, rank));
  }

  /** The types in play have ranks, names and a numbering. */
  ghost predicate Arranged(g: Graph, obs: seq<Object>, expand: bool, rank: seq<nat>, ord: nat -> nat) {
    && Ranked(BaseOf(g, obs, rank))
    && Named(BaseOf(g, obs, rank), InPlayFor(g, obs, expand, rank))
    && Ordered(BaseOf(g, obs, rank), ord, InPlayFor(g, obs, expand, rank))
  }

  /** The declarations of the header, as known before it is printed. */
  ghost function Expected(g: Graph, obs: seq<Object>, expand: bool, rank: seq<nat>, ord: nat -> nat): seq<Decl>
    requires Ranked(BaseOf(g, obs, rank))
  {
    PlainHeader(BaseOf(g, obs, rank), ord, IdsOf(g, obs, expand))
  }

  /** A header has the declarations that are expected, in that order. */
  lemma HeaderIsExpected(g: Graph, obs: seq<Object>, expand: bool, rank: seq<nat>, ord: nat -> nat)
    requires Ranked(BaseOf(g, obs, rank)) && Ordered(BaseOf(g, obs, rank), ord, InPlayFor(g, obs, expand, rank))
    requires Succeeds(g, obs, expand, rank)
    ensures Declared(g, obs, expand, rank) == Expected(g, obs, expand, rank, ord)
    ensures forall d | d in Declared(g, obs, expand, rank) :: OfKind(BaseOf(g, obs, rank), d)
  {
    DeclaredOfKind(g, obs, expand, rank);
    hide Kept, Needed, IdsOf, Ranked, Ordered, AllResolve, PlayOf, NeedsInRange, Header, PlainHeader, Tidy, OfKind;
    IdsDistinct(g, obs, expand);
    HeaderIsPlain(BaseOf(g, obs, rank), ord, IdsOf(g, obs, expand));
  }

  /** With or without expanded pointers: a header is legal if and only if every named enum in play is
      needed and, in the expected order, every anonymous record behind a pointer asks for nothing but
      what comes before. */
  lemma HeaderIsLegalExactly(g: Graph, obs: seq<Object>, expand: bool, rank: seq<nat>, ord: nat -> nat)
    requires Arranged(g, obs, expand, rank, ord) && Succeeds(g, obs, expand, rank)
    ensures var c, ds := BaseOf(g, obs, rank), Declared(g, obs, expand, rank);
            && (forall d | d in ds :: OfKind(c, d)) && ds == Expected(g, obs, expand, rank, ord)
            && (Check(NOTHING, SaysAll(c, ds)).Legal? <==>
                  && Provided(c, {}, Expected(g, obs, expand, rank, ord))
                  && forall j | j in InPlayFor(g, obs, expand, rank).jobs && NamesEnum(c, j) ::
                       j.id in Needed(g, obs, expand))
  {
    hide Kept, Reached, Ranked, Named, Ordered, AllResolve, PlaySet, HeaderJobs, NeedsInRange, Header, PlainHeader;
    hide Check, OfKind, Provided, Judged;
    IdsDistinct(g, obs, expand);
    HeaderLegalIff(BaseOf(g, obs, rank), ord, {}, IdsOf(g, obs, expand));
    JudgedFromNothing(BaseOf(g, obs, rank), Declared(g, obs, expand, rank));
  }

  /** In either mode the header defines no more than it must: any legal list of declarations, whatever
      enums are taken as declared, that defines the needed named records and typedefs defines all that
      the header does. */
  lemma HeaderDefinesLeast(g: Graph, obs: seq<Object>, expand: bool, rank: seq<nat>, free: set<nat>, ds: seq<Decl>,
                           d: Decl)
    requires Ranked(BaseOf(g, obs, rank)) && Succeeds(g, obs, expand, rank)
    requires ShortChains(BaseOf(g, obs, rank), InPlayFor(g, obs, expand, rank).jobs)
    requires (forall x | x in ds :: OfKind(BaseOf(g, obs, rank), x)) && Judged(BaseOf(g, obs, rank), free, ds).Legal?
    requires forall id: nat | id in Needed(g, obs, expand) && id < |g| ::
               (NamedRecord(g[id]) ==> RecordBody(id) in ds) && (NamedTypedef(g[id]) ==> Alias(id) in ds)
    requires d in Declared(g, obs, expand, rank) && (d.RecordBody? || d.Alias?)
    ensures d in ds
  {
    var c, ids := BaseOf(g, obs, rank), IdsOf(g, obs, expand);
    IdsDistinct(g, obs, expand);
    assert DefinesAll(c, ids, ds);
    hide Kept, Needed, IdsOf, Ranked, ShortChains, OfKind, Judged, DefinesAll, Header, NeedsInRange, AllResolve, PlayOf;
    HeaderIsLeast(c, free, ids, ds, d);
  }

  lemma EnumsElsewhere(g: Graph, obs: seq<Object>, expand: bool, rank: seq<nat>, free: set<nat>)
    requires forall id: nat :: id in free <==> id < |g| && g[id].Enum? && id !in Needed(g, obs, expand)
    ensures EnumsCovered(BaseOf(g, obs, rank), free, IdsOf(g, obs, expand))
  {
    hide Kept, Needed, PlayOf;
  }

  /** For whoever has the enums that are not needed, it is legal if and only if the pointees are. */
  lemma HeaderIsLegalGivenEnums(g: Graph, obs: seq<Object>, expand: bool, rank: seq<nat>, ord: nat -> nat,
                                free: set<nat>)
    requires Arranged(g, obs, expand, rank, ord) && Succeeds(g, obs, expand, rank)
    requires forall id: nat :: id in free <==> id < |g| && g[id].Enum? && id !in Needed(g, obs, expand)
    ensures var c, ds := BaseOf(g, obs, rank), Declared(g, obs, expand, rank);
            && (forall d | d in ds :: OfKind(c, d)) && ds == Expected(g, obs, expand, rank, ord)
            && (Check(NOTHING.(enums := free), SaysAll(c, ds)).Legal? <==>
                  Provided(c, free, Expected(g, obs, expand, rank, ord)))
  {
    EnumsElsewhere(g, obs, expand, rank, free);
    hide Kept, Needed, IdsOf, Ranked, Named, Ordered, AllResolve, PlayOf, NeedsInRange, Header, Check, PlainHeader;
    hide OfKind, EnumsCovered, Provided;
    IdsDistinct(g, obs, expand);
    HeaderLegalIff(BaseOf(g, obs, rank), ord, free, IdsOf(g, obs, expand));
  }

  /** That they are is sure if, by the graph before any object prunes it, they ask for nothing but what
      the header declares first and the required ids before have defined. */
  lemma SourceProvides(g: Graph, obs: seq<Object>, expand: bool, rank: seq<nat>, ord: nat -> nat, free: set<nat>)
    requires AllRegular(SourceOf(g, rank), ord, IdsOf(g, obs, expand))
    ensures Arranged(g, obs, expand, rank, ord)
    ensures Settled(BaseOf(g, obs, rank), free, Expected(g, obs, expand, rank, ord))
  {
    SourceSuffices(g, obs, expand, rank, ord);
    hide Kept, Needed, IdsOf, Ranked, Named, Ordered, Pointees, PlayOf, PlainHeader, Settled;
    IdsDistinct(g, obs, expand);
    PointeesProvide(BaseOf(g, obs, rank), ord, free, IdsOf(g, obs, expand));
  }

  /** With pointers expanded no enum is taken for granted, and the header defines the named records and
      typedefs that are needed and no others. */
  lemma ExpandedHeaderIsLegal(g: Graph, obs: seq<Object>, rank: seq<nat>, ord: nat -> nat)
    requires Arranged(g, obs, true, rank, ord) && Succeeds(g, obs, true, rank)
    ensures var c, ds := BaseOf(g, obs, rank), Declared(g, obs, true, rank);
            && (forall d | d in ds :: OfKind(c, d)) && ds == Expected(g, obs, true, rank, ord)
            && (Check(NOTHING, SaysAll(c, ds)).Legal? <==> Provided(c, {}, Expected(g, obs, true, rank, ord)))
            && (forall id: nat :: RecordBody(id) in ds <==> id in Needed(g, obs, true) && NamedRecord(g[id]))
            && (forall id: nat :: Alias(id) in ds <==> id in Needed(g, obs, true) && NamedTypedef(g[id]))
  {
    var c, ids, u := BaseOf(g, obs, rank), IdsOf(g, obs, true), Needed(g, obs, true) + {0};
    ExpandedPlay(g, obs, rank);
    HeaderIsLegalExactly(g, obs, true, rank, ord);
    hide Kept, Needed, IdsOf, Header, Ranked, Named, Ordered, Closed, PlayOf, Check, OfKind, Provided, PlainHeader;
    IdsDistinct(g, obs, true);
    NeededHasBase(g, obs);
    HeaderDefinesRequired(c, ids, u);
  }

  /** With pointers expanded, what is in play is needed. */
  lemma ExpandedPlay(g: Graph, obs: seq<Object>, rank: seq<nat>)
    requires Ranked(BaseOf(g, obs, rank)) && NeedsInRange(g, obs, true)
    ensures Closed(BaseOf(g, obs, rank), Needed(g, obs, true) + {0})
    ensures forall j | j in InPlayFor(g, obs, true, rank).jobs :: j.id in Needed(g, obs, true) + {0}
    ensures forall j | j in InPlayFor(g, obs, true, rank).jobs && NamesEnum(BaseOf(g, obs, rank), j) ::
              j.id in Needed(g, obs, true)
  {
    hide Kept, Needed, Ranked, Closed, PlayOf, NeedsInRange;
    NeededIsClosure(g, obs, true);
    ExpandedIsClosed(BaseOf(g, obs, rank), Seeded(g, obs), Needed(g, obs, true));
    PlayInside(BaseOf(g, obs, rank), IdsOf(g, obs, true), Needed(g, obs, true) + {0});
  }

  /** The needed ids, void aside, are the ids of the header; void is neither record nor typedef. */
  lemma NeededHasBase(g: Graph, obs: seq<Object>)
    ensures forall id: nat :: id in Needed(g, obs, true) + {0} <==> id == 0 || id in IdsOf(g, obs, true)
    ensures forall id | id in IdsOf(g, obs, true) :: id in Needed(g, obs, true)
    ensures forall id: nat | id in Needed(g, obs, true) && id !in IdsOf(g, obs, true) :: g[id] == Void
    ensures forall id | id in Needed(g, obs, true) :: id < |g|
  {
  }

  /** With pointers expanded, types of printable kinds, none with a declarator too long for the buffers
      and no typedef that leads back to itself, always make a header. */
  lemma ExpandedHeaderSucceeds(g: Graph, obs: seq<Object>, rank: seq<nat>)
    requires Ranked(BaseOf(g, obs, rank)) && NoneReturns(BaseOf(g, obs, rank), InPlayFor(g, obs, true, rank).jobs)
    requires AllResolve(g, obs) && NeedsInRange(g, obs, true)
    requires Kinds(BaseOf(g, obs, rank), Needed(g, obs, true) + {0})
    requires Short(BaseOf(g, obs, rank), Needed(g, obs, true) + {0})
    ensures Succeeds(g, obs, true, rank)
  {
    var c, ids, u := BaseOf(g, obs, rank), IdsOf(g, obs, true), Needed(g, obs, true) + {0};
    hide Kept, Needed, Header, Ranked, NoneReturns, Closed, PlayOf, Kinds, Short, AllResolve, Supported;
    ExpandedPlay(g, obs, rank);
    KindsSupported(c, ids, u);
    HeaderSucceedsExactly(g, obs, true, rank);
  }

  lemma MarkedIsShown(g: Graph, obs: seq<Object>, rank: seq<nat>, id: nat, member: nat)
    requires (id, member) in AllPairs(g, obs)
    ensures IsMember(g, (id, member)) && g[id].members[member] in Body(BaseOf(g, obs, rank), id)
  {
    PairsAreMembers(g, obs);
    hide AllPairs, MarkAll;
    MarkedShown(map[], AllPairs(g, obs));
  }

  /** A record of which some access marked a member shows, in their order, the members that were marked
      and no others; any other record shows all of its members. */
  lemma BodyIsMarked(g: Graph, obs: seq<Object>, rank: seq<nat>, id: nat) returns (at: seq<nat>)
    requires id < |g| && g[id].Record?
    ensures var body := Body(BaseOf(g, obs, rank), id);
            && Ascends(at) && |at| == |body|
            && forall k | 0 <= k < |at| :: at[k] < |g[id].members| && body[k] == g[id].members[at[k]]
    ensures if id in Firsts(AllPairs(g, obs)) then forall i :: i in at <==> (id, i) in AllPairs(g, obs)
            else forall i :: i in at <==> 0 <= i < |g[id].members|
  {
    PairsAreMembers(g, obs);
    hide AllPairs, MarkAll, Firsts, ShownMembers, Shown;
    at := ShownAscend(Kept(g, obs), id, g[id].members, 0);
    forall i: nat
      ensures Shown(Kept(g, obs), id, i) <==> id !in Firsts(AllPairs(g, obs)) || (id, i) in AllPairs(g, obs)
    {
      MarkedAlone(AllPairs(g, obs), id, i);
    }
    forall i: nat | (id, i) in AllPairs(g, obs)
      ensures i < |g[id].members|
    {
      assert IsMember(g, (id, i));
    }
  }

  lemma MarkedNeeded(g: Graph, obs: seq<Object>, expand: bool, id: nat, member: nat)
    requires NeedsInRange(g, obs, expand) && (id, member) in AllPairs(g, obs)
    ensures id in Needed(g, obs, expand)
  {
    hide AllPairs, AllRoots, Kept, Reached;
    assert (id, member).0 in Firsts(AllPairs(g, obs));
    SeedReached(g, OptionsOf(g, obs, expand), Seeded(g, obs), id);
  }

  /** Every member that some access resolved is in the header: its record is needed and, if it has a
      name, defined, with the member among those shown. */
  lemma MarkedMembersDeclared(g: Graph, obs: seq<Object>, expand: bool, rank: seq<nat>, id: nat, member: nat)
    requires Ranked(BaseOf(g, obs, rank)) && Succeeds(g, obs, expand, rank)
    requires (id, member) in AllPairs(g, obs)
    ensures IsMember(g, (id, member)) && id in Needed(g, obs, expand)
    ensures g[id].members[member] in Body(BaseOf(g, obs, rank), id)
    ensures g[id].tag != "" ==> RecordBody(id) in Declared(g, obs, expand, rank)
  {
    MarkedIsShown(g, obs, rank, id, member);
    MarkedNeeded(g, obs, expand, id, member);
    hide AllPairs, Kept, AllResolve, Ranked, Needed, Header, NeedsInRange, Body;
    IdsDistinct(g, obs, expand);
    HeaderOnce(BaseOf(g, obs, rank), IdsOf(g, obs, expand));
  }

  /** The base type of a relocation has a name, or is an enum. */
  lemma BaseIsNamed(g: Graph, o: Graph, r: Relo)
    requires ReloBase(g, o, r).BaseType?
    ensures var b := ReloBase(g, o, r).id;
            0 < b < |g| && (NamedRecord(g[b]) || NamedTypedef(g[b]) || g[b].Enum? || g[b].Fwd?)
  {
    hide PassesOver;
    var k := BaseTypeIsOnly(g, o, r.type_id, Resolve.CHAIN_LIMIT, false);
    KindShows(g[ReloBase(g, o, r).id]);
  }

  lemma KindShows(t: Type)
    ensures IsIndexedKind(KindOf(t)) ==> t.Record? || t.Enum? || t.Typedef? || t.Fwd?
  {
  }

  /** A step is taken only from a base type that peels to a record. */
  lemma StepNeedsRecord(o: Graph, c: Base, r: Relo, b: nat)
    requires 0 < b < |c.g| && (c.g[b].Enum? || c.g[b].Fwd?)
    ensures ReloTrail(o, c.g, c.marks, r, b).steps == []
  {
  }

  /** Every named record whose members some object marked was printed. */
  lemma PairsPrinted(g: Graph, obs: seq<Object>, expand: bool, rank: seq<nat>)
    requires Ranked(BaseOf(g, obs, rank)) && Succeeds(g, obs, expand, rank)
    ensures Printed(BaseOf(g, obs, rank), Declared(g, obs, expand, rank), AllPairs(g, obs))
  {
    hide AllPairs, Ranked, Succeeds, Declared, Body;
    forall p | p in AllPairs(g, obs) && p.0 < |g| && NamedRecord(g[p.0])
      ensures RecordBody(p.0) in Declared(g, obs, expand, rank)
    {
      MarkedMembersDeclared(g, obs, expand, rank, p.0, p.1);
    }
  }

  lemma TrailPairs(g: Graph, obs: seq<Object>, ob: Object, r: Relo)
    requires AllResolve(g, obs) && ob in obs && r in Relos(ob)
    ensures var base, view := ReloBase(g, ob.types, r), Kept(g, obs);
            base.BaseType? && StepPairs(ReloTrail(ob.types, g, view, r, base.id).steps) <= AllPairs(g, obs)
  {
    RelosSurvive(g, obs, ob, r);
    hide ReloTrail, MarkAll, StepPairs, Relos, ReloBase;
    assert OnePairs(g, ob.types, r) <= Pairs(g, ob) <= AllPairs(g, obs);
  }

  lemma TrailInHeader(c: Base, o: Graph, out: seq<Decl>, k: iset<nat>, r: Relo, b: nat, pairs: set<(nat, nat)>)
    requires Ranked(c) && Backed(c, out, k) && Printed(c, out, pairs)
    requires var steps := ReloTrail(o, c.g, c.marks, r, b).steps; (steps != [] ==> b in k) && StepPairs(steps) <= pairs
    ensures Finds(SaysAll(c, out), CTypeOf(c, b), Names(c, ReloTrail(o, c.g, c.marks, r, b).steps))
  {
    if IsFieldKind(r.kind) && r.access != "" && FirstComponent(r.access).Component? {
      FollowInHeader(c, o, out, k, r.type_id, b, FirstComponent(r.access).rest);
    }
  }

  /** What an object accesses is in the header: from the C type of the base type of a relocation,
      following the names of its members through the printed declarations finds, step by step, the
      types that the access resolved to. */
  ghost predicate AccessInHeader(g: Graph, obs: seq<Object>, expand: bool, rank: seq<nat>, ob: Object, r: Relo)
    requires Ranked(BaseOf(g, obs, rank)) && Succeeds(g, obs, expand, rank)
  {
    var c, ds, base := BaseOf(g, obs, rank), Declared(g, obs, expand, rank), ReloBase(g, ob.types, r);
    && (forall d | d in ds :: OfKind(c, d))
    && base.BaseType?
    && Finds(SaysAll(c, ds), CTypeOf(c, base.id), Names(c, ReloTrail(ob.types, g, map[], r, base.id).steps))
  }

  /** With pointers expanded every needed named typedef is printed. */
  lemma ExpandedAliases(g: Graph, obs: seq<Object>, rank: seq<nat>)
    requires Ranked(BaseOf(g, obs, rank)) && Succeeds(g, obs, true, rank)
    ensures forall id | id in Needed(g, obs, true) + {0} && id < |g| && NamedTypedef(g[id]) ::
              Alias(id) in Declared(g, obs, true, rank)
  {
    var c, ids := BaseOf(g, obs, rank), IdsOf(g, obs, true);
    hide Kept, Needed, IdsOf, Header, Ranked, NeedsInRange, AllResolve;
    NeededHasBase(g, obs);
    IdsDistinct(g, obs, true);
    HeaderOnce(c, ids);
  }

  /** The declarations then give their meaning to all needed types. */
  lemma ExpandedBacks(g: Graph, obs: seq<Object>, rank: seq<nat>)
    requires Ranked(BaseOf(g, obs, rank)) && Succeeds(g, obs, true, rank)
    ensures Backed(BaseOf(g, obs, rank), Declared(g, obs, true, rank), (iset id | id in Needed(g, obs, true) + {0}))
  {
    hide Needed, Declared, Kept, Ranked, Closed, PlayOf, OfKind, Backed, AllResolve, HeaderOf, NeedsInRange;
    ExpandedPlay(g, obs, rank);
    ExpandedAliases(g, obs, rank);
    DeclaredOfKind(g, obs, true, rank);
    ClosedBacks(BaseOf(g, obs, rank), Declared(g, obs, true, rank), Needed(g, obs, true) + {0});
  }

  /** With pointers expanded that is so of every relocation of every object. */
  lemma ExpandedAccessesAreInHeader(g: Graph, obs: seq<Object>, rank: seq<nat>, ob: Object, r: Relo)
    requires Ranked(BaseOf(g, obs, rank)) && Succeeds(g, obs, true, rank) && ob in obs && r in Relos(ob)
    ensures AccessInHeader(g, obs, true, rank, ob, r)
  {
    var k := (iset id | id in Needed(g, obs, true) + {0});
    NeededHasBase(g, obs);
    hide Kept, Needed, IdsOf, Header, Ranked, AccessInHeader, NeedsInRange, AllResolve, Relos, Backed;
    ExpandedBacks(g, obs, rank);
    AccessIsInHeader(g, obs, true, rank, k, ob, r);
  }

  /** In either mode it is so in every legal header, whatever enums are taken as declared. */
  lemma AccessesAreInHeader(g: Graph, obs: seq<Object>, expand: bool, rank: seq<nat>, free: set<nat>,
                            ob: Object, r: Relo)
    requires Ranked(BaseOf(g, obs, rank)) && Succeeds(g, obs, expand, rank) && ob in obs && r in Relos(ob)
    requires forall d | d in Declared(g, obs, expand, rank) :: OfKind(BaseOf(g, obs, rank), d)
    requires Judged(BaseOf(g, obs, rank), free, Declared(g, obs, expand, rank)).Legal?
    ensures AccessInHeader(g, obs, expand, rank, ob, r)
  {
    var c, ids, ds := BaseOf(g, obs, rank), IdsOf(g, obs, expand), Declared(g, obs, expand, rank);
    hide Kept, Needed, IdsOf, Header, Ranked, OfKind, AccessInHeader, NeedsInRange, AllResolve, ReloBase, Relos, Judged;
    hide Backed, Known;
    IdsDistinct(g, obs, expand);
    HeaderOnce(c, ids);
    LegalBacks(c, free, ds);
    AccessIsInHeader(g, obs, expand, rank, KnownTypes(c, Judged(c, free, ds).env), ob, r);
  }

  /** The base type of a relocation is required. */
  lemma BaseNeeded(g: Graph, obs: seq<Object>, expand: bool, ob: Object, r: Relo, b: nat)
    requires NeedsInRange(g, obs, expand) && ob in obs && r in Relos(ob) && ReloBase(g, ob.types, r) == BaseType(b)
    ensures b in Needed(g, obs, expand)
  {
    hide Reached, ReloBase, SeedRoots, AllPairs, MarkAll, Relos;
    assert b in Roots(g, ob) && b in AllRoots(g, obs);
    SeedReached(g, OptionsOf(g, obs, expand), Seeded(g, obs), b);
  }

  /** It is so wherever the declarations give their meaning to the required records and typedefs. */
  lemma AccessIsInHeader(g: Graph, obs: seq<Object>, expand: bool, rank: seq<nat>, k: iset<nat>, ob: Object, r: Relo)
    requires Ranked(BaseOf(g, obs, rank)) && Succeeds(g, obs, expand, rank) && ob in obs && r in Relos(ob)
    requires Backed(BaseOf(g, obs, rank), Declared(g, obs, expand, rank), k)
    requires forall b | b in IdsOf(g, obs, expand) && (NamedRecord(g[b]) || NamedTypedef(g[b])) :: b in k
    ensures AccessInHeader(g, obs, expand, rank, ob, r)
  {
    var c, ds := BaseOf(g, obs, rank), Declared(g, obs, expand, rank);
    RelosSurvive(g, obs, ob, r);
    TrailPairs(g, obs, ob, r);
    var b := ReloBase(g, ob.types, r).id;
    PairsPrinted(g, obs, expand, rank);
    BaseIsNamed(g, ob.types, r);
    BaseNeeded(g, obs, expand, ob, r, b);
    hide MarkAll, Needed, SaysAll, Ranked, AllResolve, OfKind, CTypeOf, Header, NeedsInRange, ReloBase, Relos;
    hide StepPairs, AllPairs, Follow, Finds;
    if !NamedRecord(g[b]) && !NamedTypedef(g[b]) {
      StepNeedsRecord(ob.types, c, r, b);
    }
    TrailInHeader(c, ob.types, ds, k, r, b, AllPairs(g, obs));
  }

  /** What a header defines could be printed. */
  lemma DeclaredPrints(c: Base, ids: seq<nat>)
    requires Ranked(c) && InRange(c.g, ids) && Distinct(ids) && Header(c, ids).Done?
    ensures forall d | d in Header(c, ids).st.out :: OfKind(c, d) && Prints(c, d)
  {
    HeaderOnce(c, ids);
    HeaderFollowed(c, ids);
    var s := Header(c, ids).st;
    hide Header, AtRest, Met, AllPrintable, Printable, PlayOf;
    forall d | d in s.out
      ensures OfKind(c, d) && Prints(c, d)
    {
      assert OfKind(c, d);
      assert d.RecordBody? ==> BodyMet(c, s, d.id);
      assert d.Alias? ==> TargetMet(c, s, d.id);
    }
  }

  /** The text of a header reads back, to the last word, as the declarations it was printed for if and
      only if all types in them can be written. */
  lemma HeaderTextReads(g: Graph, obs: seq<Object>, expand: bool, rank: seq<nat>)
    requires Ranked(BaseOf(g, obs, rank)) && AllQuiet(BaseOf(g, obs, rank)) && Succeeds(g, obs, expand, rank)
    ensures var c, ds := BaseOf(g, obs, rank), Declared(g, obs, expand, rank);
            && (forall d | d in ds :: OfKind(c, d))
            && (ReadStatements(TextOfHeader(g, obs, expand, rank)) == Grammar.Got(MeantAll(c, ds), []) <==>
                  forall d | d in ds :: Spelled(c, d))
  {
    hide Kept, IdsOf, Ranked, AllQuiet, Header, NeedsInRange, AllResolve, OfKind, Prints, Spelled, RenderAll, MeantAll;
    hide ReadStatements;
    IdsDistinct(g, obs, expand);
    DeclaredPrints(BaseOf(g, obs, rank), IdsOf(g, obs, expand));
    HeaderReads(BaseOf(g, obs, rank), Declared(g, obs, expand, rank));
  }
}
