/** What holds of a source graph holds of the graph with its records pruned. */
module HeaderPruned {
  import opened Btf
  import opened Meaning
  import opened Walk
  import opened InPlay
  import opened WalkScope
  import opened HeaderScope

  /** The same graph, showing all members and showing some. */
  ghost predicate Prunes(all: Base, some: Base) {
    all.g == some.g && all.rank == some.rank && all.marks == map[]
  }

  lemma BodyFewer(all: Base, some: Base, id: nat)
    requires Prunes(all, some) && id < |all.g| && all.g[id].Record?
    ensures forall m | m in Body(some, id) :: m in Body(all, id)
    ensures forall j | j in Hards(Body(some, id)) :: j in Hards(Body(all, id))
  {
    forall m | m in Body(some, id)
      ensures m in Body(all, id)
    {
      var i :| 0 <= i < |all.g[id].members| && all.g[id].members[i] == m;
      assert Shown(all.marks, id, i);
    }
    forall j | j in Hards(Body(some, id))
      ensures j in Hards(Body(all, id))
    {
      var i :| 0 <= i < |Body(some, id)| && Hards(Body(some, id))[i] == j;
      assert Body(some, id)[i] in Body(all, id);
      var k :| 0 <= k < |Body(all, id)| && Body(all, id)[k] == Body(some, id)[i];
      assert Hards(Body(all, id))[k] == j;
    }
  }

  /** A rank for all members is one for any part of them. */
  lemma RankedPruned(all: Base, some: Base)
    requires Prunes(all, some) && Ranked(all)
    ensures Ranked(some)
  {
    forall id, to | 0 <= id < |all.g| && 0 <= to < |all.g| && Follows(some, id, to)
      ensures Follows(all, id, to)
    {
      if all.g[id].Record? {
        BodyFewer(all, some, id);
      }
    }
  }

  /** A job of the pruned graph leads to nothing new. */
  lemma LeadsFewer(all: Base, some: Base, j: Job, n: Job)
    requires Prunes(all, some) && Leads(some, j, n)
    ensures Leads(all, j, n)
  {
    if j.id < |all.g| && all.g[j.id].Record? {
      BodyFewer(all, some, j.id);
    }
  }

  lemma PlayFewer(all: Base, some: Base, start: seq<Job>)
    requires Prunes(all, some)
    ensures PlaySet(some, start) <= PlaySet(all, start)
  {
    hide Leads, PlaySet, Prunes;
    PlayClosed(all, start);
    forall j, n | j in PlaySet(all, start) && Leads(some, j, n)
      ensures n in PlaySet(all, start)
    {
      LeadsFewer(all, some, j, n);
    }
    PlayIsLeast(some, start, PlaySet(all, start));
  }

  lemma {:induction false} StillFewer(all: Base, some: Base, seen: Seen, id: nat, whole: bool)
    requires Prunes(all, some) && Ranked(all) && Ranked(some) && Still(all, seen, id, whole)
    ensures Still(some, seen, id, whole)
    decreases Height(all, id), 1
  {
    hide Body;
    if 0 < id < |all.g| {
      match all.g[id]
      case Qualified(_, to) => StillFewer(all, some, seen, to, whole);
      case Tag(_, to) => StillFewer(all, some, seen, to, whole);
      case Ptr(to) => StillFewer(all, some, seen, to, false);
      case Array(elem, _, _) => StillFewer(all, some, seen, elem, whole);
      case Typedef(alias, to) =>
        if alias == "" || whole {
          StillFewer(all, some, seen, to, whole);
        }
      case Proto(_, _) => ProtoStillFewer(all, some, seen, id);
      case Record(_, _, _) => RecordStillFewer(all, some, seen, id, whole);
      case _ =>
    }
  }

  lemma {:induction false} ProtoStillFewer(all: Base, some: Base, seen: Seen, id: nat)
    requires Prunes(all, some) && Ranked(all) && Ranked(some) && 0 < id < |all.g| && all.g[id].Proto?
    requires Still(all, seen, id, true) || Still(all, seen, id, false)
    ensures Still(some, seen, id, true) && Still(some, seen, id, false)
    decreases Height(all, id), 0
  {
    var params := all.g[id].params;
    StillFewer(all, some, seen, all.g[id].ret, false);
    forall q | q in params
      ensures Still(some, seen, q.ty, false)
    {
      assert Follows(all, id, q.ty);
      StillFewer(all, some, seen, q.ty, false);
    }
  }

  lemma {:induction false} RecordStillFewer(all: Base, some: Base, seen: Seen, id: nat, whole: bool)
    requires Prunes(all, some) && Ranked(all) && Ranked(some) && 0 < id < |all.g| && all.g[id].Record?
    requires Still(all, seen, id, whole)
    ensures Still(some, seen, id, whole)
    decreases Height(all, id), 0
  {
    if all.g[id].tag == "" {
      BodyFewer(all, some, id);
      hide Body;
      forall m | m in Body(some, id)
        ensures Still(some, seen, m.ty, true)
      {
        assert m in Body(all, id);
        MemberFollows(all, id, m);
        StillFewer(all, some, seen, m.ty, true);
      }
    }
  }

  lemma MemberFollows(c: Base, id: nat, m: Member)
    requires id < |c.g| && c.g[id].Record? && c.g[id].tag == "" && m in Body(c, id)
    ensures Follows(c, id, m.ty)
  {
  }

  lemma {:induction false} UnderFewer(all: Base, some: Base, ord: nat -> nat, job: Job, b: nat)
    requires Prunes(all, some) && Ranked(all) && Ranked(some) && Under(all, ord, job, b)
    ensures Under(some, ord, job, b)
    decreases Weight(all, job)
  {
    if PlanOf(some, job).Jobs? {
      PlanIsLighter(all, job);
      forall j | j in PlanOf(some, job).jobs
        ensures Under(some, ord, j, b)
      {
        LeadsFewer(all, some, job, j);
        UnderFewer(all, some, ord, j, b);
      }
    }
  }

  /** The names, the pointees and the numbering of a source graph serve for the pruned one. */
  lemma RegularPruned(all: Base, some: Base, ord: nat -> nat, ids: seq<nat>)
    requires Prunes(all, some) && InRange(all.g, ids) && AllRegular(all, ord, ids)
    ensures AllRegular(some, ord, ids)
  {
    RankedPruned(all, some);
    PlayFewer(all, some, HeaderJobs(all.g, ids));
    var p, q := PlayOf(all, ids), PlayOf(some, ids);
    hide HeaderJobs, PlaySet, Still, Under, Leads, StillPointees;
    assert Named(some, q);
    forall k | 0 <= k < |HeaderJobs(some.g, ids)|
      ensures StillPointees(some, PlayAt(some, ids, k))
    {
      PlayFewer(all, some, [HeaderJobs(all.g, ids)[k]]);
      PointeesPruned(all, some, PlayAt(all, ids, k), PlayAt(some, ids, k));
    }
    OrderedPruned(all, some, ord, p, q);
  }

  lemma PointeesPruned(all: Base, some: Base, p: Play, q: Play)
    requires Prunes(all, some) && Ranked(all) && Ranked(some) && StillPointees(all, p)
    requires q.jobs <= p.jobs && q.seen == p.seen
    ensures StillPointees(some, q)
  {
    hide Still;
    forall j | j in q.jobs && j.Soft? && 0 < j.id < |some.g| && some.g[j.id].Record? && some.g[j.id].tag == ""
      ensures forall m | m in Body(some, j.id) :: Still(some, q.seen, m.ty, true)
    {
      BodyFewer(all, some, j.id);
      forall m | m in Body(some, j.id)
        ensures Still(some, q.seen, m.ty, true)
      {
        StillFewer(all, some, q.seen, m.ty, true);
      }
    }
  }

  /** A numbering for all members is one for any part of them. */
  lemma OrderedPruned(all: Base, some: Base, ord: nat -> nat, p: Play, q: Play)
    requires Prunes(all, some) && Ranked(all) && Ranked(some) && q.jobs <= p.jobs && Ordered(all, ord, p)
    ensures Ordered(some, ord, q)
  {
    hide Under, Leads;
    forall j, n | j in q.jobs && (j.DefineRecord? || j.DefineTypedef?) && Leads(some, j, n)
      ensures Under(some, ord, n, ord(j.id))
    {
      LeadsFewer(all, some, j, n);
      UnderFewer(all, some, ord, n, ord(j.id));
    }
  }
}
