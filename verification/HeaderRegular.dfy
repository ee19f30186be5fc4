/** A condition on the graph and the required ids that is enough for a header to be legal: anonymous
    records behind pointers ask for nothing but what the jobs before have defined. */
module HeaderRegular {
  import opened Btf
  import opened CSyntax
  import opened Scope
  import opened Meaning
  import opened Walk
  import opened WalkOnce
  import opened InPlay
  import opened WalkScope
  import opened HeaderScope
  import opened HeaderSuccess
  import opened PlainWalk
  import opened HeaderLegal

  lemma {:induction false} UnfoldFrom(c: Base, ord: nat -> nat, b: nat, job: Job, k: iset<Job>)
    requires Ranked(c) && JobClosed(c, k) && job in k
    ensures PrintedFrom(k, Unfold(c, ord, b, job)) && forall d | d in Unfold(c, ord, b, job) :: OfKind(c, d)
    decreases b, Weight(c, job), 0, 0
  {
    match PlanOf(c, job)
    case Unknown =>
    case Declaration =>
    case Jobs(jobs) =>
      PlanIsLighter(c, job);
      assert forall j | j in jobs :: Leads(c, job, j);
      UnfoldAllFrom(c, ord, b, jobs, k);
    case Define =>
      var id := job.id;
      if ord(id) < b {
        if job.DefineRecord? && NamedRecord(c.g[id]) {
          assert forall j | j in Hards(Body(c, id)) :: Leads(c, job, j);
          UnfoldAllFrom(c, ord, ord(id), Hards(Body(c, id)), k);
        } else if job.DefineTypedef? && NamedTypedef(c.g[id]) {
          assert Leads(c, job, Target(c.g, c.g[id].to));
          UnfoldFrom(c, ord, ord(id), Target(c.g, c.g[id].to), k);
        }
      }
  }

  lemma {:induction false} UnfoldAllFrom(c: Base, ord: nat -> nat, b: nat, jobs: seq<Job>, k: iset<Job>)
    requires Ranked(c) && JobClosed(c, k) && forall j | j in jobs :: j in k
    ensures PrintedFrom(k, UnfoldAll(c, ord, b, jobs)) && forall d | d in UnfoldAll(c, ord, b, jobs) :: OfKind(c, d)
    decreases b, TopWeight(c, jobs), 1, |jobs|
  {
    hide OfKind, JobClosed, Unfold;
    if jobs != [] {
      UnfoldFrom(c, ord, b, jobs[0], k);
      UnfoldAllFrom(c, ord, b, jobs[1..], k);
    }
  }

  /** Whose pointees ask for nothing more is served. */
  lemma {:induction false} StillServed(c: Base, p: Play, job: Job)
    requires Ranked(c) && JobClosed(c, p.jobs) && StillPointees(c, p) && job in p.jobs
    ensures Served(c, p.seen, job)
    decreases Weight(c, job)
  {
    hide Still;
    match PlanOf(c, job)
    case Jobs(jobs) =>
      PlanIsLighter(c, job);
      forall j | j in jobs && (j.Hard? || j.Soft?)
        ensures Served(c, p.seen, j)
      {
        assert Leads(c, job, j);
        StillServed(c, p, j);
      }
    case _ =>
  }

  /** What is served where less was seen is served where more was. */
  lemma {:induction false} ServedMore(c: Base, a: Seen, b: Seen, job: Job)
    requires Ranked(c) && Covers(c, a, b) && Served(c, a, job)
    ensures Served(c, b, job)
    decreases Weight(c, job)
  {
    hide Still, Covers;
    match PlanOf(c, job)
    case Jobs(jobs) =>
      PlanIsLighter(c, job);
      if !NamedTypedef(c.g[job.id]) {
        forall j | j in jobs && (j.Hard? || j.Soft?)
          ensures Served(c, b, j)
        {
          ServedMore(c, a, b, j);
        }
      }
    case Declaration =>
      if c.g[job.id].Record? && c.g[job.id].tag == "" {
        forall m | m in Body(c, job.id)
          ensures Still(c, b, m.ty, true)
        {
          StillMore(c, a, b, m.ty, true);
        }
      }
    case _ =>
  }

  /** The header up to one of its jobs. */
  ghost function Upto(c: Base, ord: nat -> nat, ids: seq<nat>, k: nat): seq<Decl>
    requires Ranked(c) && InRange(c.g, ids) && k <= |HeaderJobs(c.g, ids)|
  {
    var jobs := HeaderJobs(c.g, ids);
    Fresh(Prologue(c.g, ids).out, UnfoldAll(c, ord, Bound(ord, jobs), jobs[..k]))
  }

  lemma UnfoldLast(c: Base, ord: nat -> nat, b: nat, jobs: seq<Job>, job: Job)
    requires Ranked(c)
    ensures UnfoldAll(c, ord, b, jobs + [job]) == UnfoldAll(c, ord, b, jobs) + Unfold(c, ord, b, job)
    decreases |jobs|
  {
    hide Unfold;
    if jobs == [] {
      assert [job][1..] == [] && [] + [job] == [job];
      assert Unfold(c, ord, b, job) + [] == Unfold(c, ord, b, job) == [] + Unfold(c, ord, b, job);
    } else {
      UnfoldLast(c, ord, b, jobs[1..], job);
      assert (jobs + [job])[1..] == jobs[1..] + [job];
    }
  }

  lemma UptoNext(c: Base, ord: nat -> nat, ids: seq<nat>, k: nat)
    requires Ranked(c) && InRange(c.g, ids) && k < |HeaderJobs(c.g, ids)|
    ensures var jobs := HeaderJobs(c.g, ids);
            Upto(c, ord, ids, k + 1) == Fresh(Upto(c, ord, ids, k), Unfold(c, ord, Bound(ord, jobs), jobs[k]))
  {
    hide Unfold, HeaderJobs, Prologue, InRange;
    var jobs := HeaderJobs(c.g, ids);
    assert jobs[..k + 1] == jobs[..k] + [jobs[k]];
    UnfoldLast(c, ord, Bound(ord, jobs), jobs[..k], jobs[k]);
    FreshBoth(Prologue(c.g, ids).out, UnfoldAll(c, ord, Bound(ord, jobs), jobs[..k]),
              Unfold(c, ord, Bound(ord, jobs), jobs[k]));
  }

  /** What an added declaration comes after. */
  lemma {:induction false} FreshAt(out: seq<Decl>, ds: seq<Decl>, i: nat)
    requires |out| <= i < |Fresh(out, ds)|
    ensures Fresh(out, ds)[i] in ds && out <= Fresh(out, ds)[..i]
    decreases |ds|
  {
    if ds != [] {
      var more := if ds[0] in out then out else out + [ds[0]];
      if i < |more| {
        assert Fresh(out, ds)[i] == more[i];
      } else {
        FreshAt(more, ds[1..], i);
      }
    }
  }

  /** What the header declares first, and what the jobs before have defined. */
  lemma UptoHas(c: Base, ord: nat -> nat, free: set<nat>, ids: seq<nat>, k: nat, before: seq<Decl>, d: Decl)
    requires Ranked(c) && InRange(c.g, ids) && Distinct(ids) && k <= |HeaderJobs(c.g, ids)|
    requires Upto(c, ord, ids, k) <= before
    ensures Covers(c, SeenBefore(c, ids, k), SeenAt(c, free, before, d))
  {
    var a, b := SeenBefore(c, ids, k), SeenAt(c, free, before, d);
    hide HeaderJobs, Unfold, UnfoldAll;
    forall x | x in Upto(c, ord, ids, k)
      ensures x in before
    {
      var i :| 0 <= i < |Upto(c, ord, ids, k)| && Upto(c, ord, ids, k)[i] == x;
      assert before[i] == x;
    }
    FirstSeen(c, ids);
    forall id | id in a.defined && id < |c.g| && (NamedRecord(c.g[id]) || NamedTypedef(c.g[id]))
      ensures id in b.defined
    {
      DefinedUpto(c, ord, ids, k, id);
    }
  }

  lemma FirstSeen(c: Base, ids: seq<nat>)
    requires InRange(c.g, ids) && Distinct(ids)
    ensures forall id | id in ids && Taggable(c.g[id]) :: Forward(id) in Prologue(c.g, ids).out
    ensures forall id | id in ids && c.g[id].Enum? :: EnumBody(id) in Prologue(c.g, ids).out
  {
    PrologueOnce(c, ids);
    var tags, enums := Select(c.g, ids, Tags), Select(c.g, ids, Enums);
    DeclareAllDeclares(c, tags, Start(|c.g|));
    hide Select;
  }

  lemma DefinedUpto(c: Base, ord: nat -> nat, ids: seq<nat>, k: nat, id: nat)
    requires Ranked(c) && InRange(c.g, ids) && k <= |HeaderJobs(c.g, ids)| && id in FirstIds(HeaderJobs(c.g, ids), k)
    requires id < |c.g| && (NamedRecord(c.g[id]) || NamedTypedef(c.g[id]))
    ensures RecordBody(id) in Upto(c, ord, ids, k) || Alias(id) in Upto(c, ord, ids, k)
  {
    var jobs := HeaderJobs(c.g, ids);
    var i: nat :| i < k && jobs[i].id == id;
    var b := Bound(ord, jobs);
    assert jobs[i] in jobs;
    JobsAre(c.g, ids, jobs[i]);
    var d := if jobs[i].DefineRecord? then RecordBody(id) else Alias(id);
    assert d in Unfold(c, ord, b, jobs[i]);
    hide HeaderJobs, Unfold;
    UnfoldHas(c, ord, b, jobs[..k], i, d);
  }

  lemma UnfoldHas(c: Base, ord: nat -> nat, b: nat, jobs: seq<Job>, i: nat, d: Decl)
    requires Ranked(c) && i < |jobs| && d in Unfold(c, ord, b, jobs[i])
    ensures d in UnfoldAll(c, ord, b, jobs)
    decreases |jobs|
  {
    hide Unfold;
    if i > 0 {
      UnfoldHas(c, ord, b, jobs[1..], i - 1, d);
    }
  }

  /** A declaration that a job adds is served. */
  lemma AddedServed(c: Base, p: Play, seen: Seen, d: Decl)
    requires Ranked(c) && JobClosed(c, p.jobs) && StillPointees(c, p) && OfKind(c, d) && Covers(c, p.seen, seen)
    requires (d.RecordBody? ==> DefineRecord(d.id) in p.jobs) && (d.Alias? ==> DefineTypedef(d.id) in p.jobs)
    ensures ServedIn(c, seen, d)
  {
    hide Served, Covers, StillPointees;
    match d
    case RecordBody(id) =>
      forall j | j in Hards(Body(c, id))
        ensures Served(c, seen, j)
      {
        assert Leads(c, DefineRecord(id), j);
        StillServed(c, p, j);
        ServedMore(c, p.seen, seen, j);
      }
    case Alias(id) =>
      var target := Target(c.g, c.g[id].to);
      assert Leads(c, DefineTypedef(id), target);
      StillServed(c, p, target);
      ServedMore(c, p.seen, seen, target);
    case _ =>
  }

  /** Declarations of types of their kinds, in which every pointee finds what it asks for. */
  ghost predicate Settled(c: Base, free: set<nat>, ds: seq<Decl>)
    requires Ranked(c)
  {
    (forall d | d in ds :: OfKind(c, d)) && Provided(c, free, ds)
  }

  lemma {:induction false} UptoProvided(c: Base, ord: nat -> nat, free: set<nat>, ids: seq<nat>, k: nat)
    requires Ranked(c) && InRange(c.g, ids) && Distinct(ids) && Pointees(c, ids) && k <= |HeaderJobs(c.g, ids)|
    ensures Settled(c, free, Upto(c, ord, ids, k))
    decreases k
  {
    hide HeaderJobs, Unfold, Settled, Upto, Pointees, PlayAt, InRange, Distinct, JobClosed, PrintedFrom, OfKind;
    if k == 0 {
      PrologueProvided(c, free, ids);
      UptoStart(c, ord, ids);
    } else {
      UptoProvided(c, ord, free, ids, k - 1);
      UptoNext(c, ord, ids, k - 1);
      JobUnfolds(c, ord, ids, k - 1);
      OneProvided(c, ord, free, ids, k - 1);
    }
  }

  lemma UptoStart(c: Base, ord: nat -> nat, ids: seq<nat>)
    requires Ranked(c) && InRange(c.g, ids)
    ensures Upto(c, ord, ids, 0) == Prologue(c.g, ids).out
  {
    hide HeaderJobs, Prologue;
    assert HeaderJobs(c.g, ids)[..0] == [];
  }

  lemma JobUnfolds(c: Base, ord: nat -> nat, ids: seq<nat>, k: nat)
    requires Ranked(c) && InRange(c.g, ids) && k < |HeaderJobs(c.g, ids)|
    ensures JobClosed(c, PlayAt(c, ids, k).jobs)
    ensures var jobs := HeaderJobs(c.g, ids);
            var ds := Unfold(c, ord, Bound(ord, jobs), jobs[k]);
            PrintedFrom(PlayAt(c, ids, k).jobs, ds) && forall d | d in ds :: OfKind(c, d)
  {
    hide HeaderJobs, PlaySet, Unfold, OfKind;
    var job := HeaderJobs(c.g, ids)[k];
    PlayClosed(c, [job]);
    assert job in [job];
    UnfoldFrom(c, ord, Bound(ord, HeaderJobs(c.g, ids)), job, PlayAt(c, ids, k).jobs);
  }

  lemma PrologueProvided(c: Base, free: set<nat>, ids: seq<nat>)
    requires Ranked(c) && InRange(c.g, ids) && Distinct(ids)
    ensures Settled(c, free, Prologue(c.g, ids).out)
  {
    PrologueOnce(c, ids);
    var out := Prologue(c.g, ids).out;
    hide Prologue, SeenAt;
    forall i | 0 <= i < |out|
      ensures ServedIn(c, SeenAt(c, free, out[..i], out[i]), out[i])
    {
      assert out[i] in out;
      assert RecordBody(out[i].id) !in out && Alias(out[i].id) !in out;
    }
  }

  lemma OneProvided(c: Base, ord: nat -> nat, free: set<nat>, ids: seq<nat>, k: nat)
    requires Ranked(c) && InRange(c.g, ids) && Distinct(ids) && Pointees(c, ids) && k < |HeaderJobs(c.g, ids)|
    requires Settled(c, free, Upto(c, ord, ids, k)) && JobClosed(c, PlayAt(c, ids, k).jobs)
    requires var jobs := HeaderJobs(c.g, ids);
             var ds := Unfold(c, ord, Bound(ord, jobs), jobs[k]);
             && Upto(c, ord, ids, k + 1) == Fresh(Upto(c, ord, ids, k), ds)
             && PrintedFrom(PlayAt(c, ids, k).jobs, ds) && forall d | d in ds :: OfKind(c, d)
    ensures Settled(c, free, Upto(c, ord, ids, k + 1))
  {
    hide HeaderJobs, StillPointees, PlaySet, Unfold, OfKind, ServedIn, Upto, JobClosed, SeenAt, SeenBefore, Fresh;
    var out, all := Upto(c, ord, ids, k), Upto(c, ord, ids, k + 1);
    var jobs := HeaderJobs(c.g, ids);
    var ds := Unfold(c, ord, Bound(ord, jobs), jobs[k]);
    forall i | 0 <= i < |all|
      ensures ServedIn(c, SeenAt(c, free, all[..i], all[i]), all[i])
    {
      if i < |out| {
        assert all[i] == out[i] && all[..i] == out[..i];
      } else {
        FreshAt(out, ds, i);
        UptoHas(c, ord, free, ids, k, all[..i], all[i]);
        AddedServed(c, PlayAt(c, ids, k), SeenAt(c, free, all[..i], all[i]), all[i]);
      }
    }
  }

  /** If pointees ask for nothing but what the jobs before have defined, every pointee finds what it
      asks for where it stands. */
  lemma PointeesProvide(c: Base, ord: nat -> nat, free: set<nat>, ids: seq<nat>)
    requires Ranked(c) && InRange(c.g, ids) && Distinct(ids) && Pointees(c, ids)
    ensures Settled(c, free, PlainHeader(c, ord, ids))
  {
    hide Settled, HeaderJobs, Unfold, Pointees;
    var jobs := HeaderJobs(c.g, ids);
    UptoProvided(c, ord, free, ids, |jobs|);
    assert jobs[..|jobs|] == jobs;
  }

  /** A header that meets the hypotheses passes the scope checker if and only if every named enum in
      play is required. */
  lemma HeaderLegalExactly(c: Base, ord: nat -> nat, ids: seq<nat>)
    requires InRange(c.g, ids) && Distinct(ids) && AllRegular(c, ord, ids) && Header(c, ids).Done?
    ensures forall d | d in Header(c, ids).st.out :: OfKind(c, d)
    ensures Check(NOTHING, SaysAll(c, Header(c, ids).st.out)).Legal? <==> EnumsCovered(c, {}, ids)
  {
    hide Ranked, Named, Ordered, PlayOf, Header, Judged, EnumsCovered, Provided, OfKind, PlainHeader, Pointees, Check;
    HeaderLegalIff(c, ord, {}, ids);
    PointeesProvide(c, ord, {}, ids);
    JudgedFromNothing(c, Header(c, ids).st.out);
  }
}
