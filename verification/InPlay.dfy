/** The jobs that a header sets off: a static set, which decides exactly what the header defines. */
module InPlay {
  import opened Btf
  import opened Meaning
  import opened Walk

  /** What a job sets off: its plan, the members of the record it defines, the target of its typedef. */
  ghost predicate Leads(c: Base, job: Job, next: Job) {
    match PlanOf(c, job)
    case Jobs(jobs) => next in jobs
    case Define =>
      || (job.DefineRecord? && NamedRecord(c.g[job.id]) && next in Hards(Body(c, job.id)))
      || (job.DefineTypedef? && NamedTypedef(c.g[job.id]) && next == Target(c.g, c.g[job.id].to))
    case _ => false
  }

  ghost predicate IsTrail(c: Base, trail: seq<Job>) {
    trail != [] && forall i | 0 <= i < |trail| - 1 :: Leads(c, trail[i], trail[i + 1])
  }

  /** A job that some job of `start` leads to. */
  ghost predicate Reaches(c: Base, start: seq<Job>, job: Job) {
    exists trail :: IsTrail(c, trail) && trail != [] && trail[0] in start && trail[|trail| - 1] == job
  }

  ghost predicate JobClosed(c: Base, k: iset<Job>) {
    forall j, n | j in k && Leads(c, j, n) :: n in k
  }

  /** The least closed set of jobs that contains `start`. */
  ghost function PlaySet(c: Base, start: seq<Job>): iset<Job> {
    iset j | Reaches(c, start, j)
  }

  lemma PlayClosed(c: Base, start: seq<Job>)
    ensures JobClosed(c, PlaySet(c, start)) && forall j | j in start :: j in PlaySet(c, start)
  {
    hide Leads;
    forall j | j in start
      ensures Reaches(c, start, j)
    {
      assert IsTrail(c, [j]);
    }
    forall j, n | j in PlaySet(c, start) && Leads(c, j, n)
      ensures n in PlaySet(c, start)
    {
      ReachesNext(c, start, j, n);
    }
  }

  lemma ReachesNext(c: Base, start: seq<Job>, j: Job, n: Job)
    requires Reaches(c, start, j) && Leads(c, j, n)
    ensures Reaches(c, start, n)
  {
    hide Leads, IsTrail;
    var trail :| IsTrail(c, trail) && trail != [] && trail[0] in start && trail[|trail| - 1] == j;
    TrailMore(c, trail, n);
    assert (trail + [n])[0] == trail[0];
  }

  lemma TrailMore(c: Base, trail: seq<Job>, n: Job)
    requires IsTrail(c, trail) && Leads(c, trail[|trail| - 1], n)
    ensures IsTrail(c, trail + [n]) && (trail + [n])[|trail + [n]| - 1] == n
  {
    hide Leads;
  }

  lemma {:induction false} TrailStays(c: Base, k: iset<Job>, trail: seq<Job>)
    requires JobClosed(c, k) && IsTrail(c, trail) && trail[0] in k
    ensures trail[|trail| - 1] in k
    decreases |trail|
  {
    if |trail| > 1 {
      assert Leads(c, trail[0], trail[1]);
      assert IsTrail(c, trail[1..]);
      TrailStays(c, k, trail[1..]);
    }
  }

  lemma PlayIsLeast(c: Base, start: seq<Job>, k: iset<Job>)
    requires JobClosed(c, k) && forall j | j in start :: j in k
    ensures PlaySet(c, start) <= k
  {
    forall j | j in PlaySet(c, start)
      ensures j in k
    {
      var trail :| IsTrail(c, trail) && trail != [] && trail[0] in start && trail[|trail| - 1] == j;
      TrailStays(c, k, trail);
    }
  }

  /** A job has been done, or is being done: everything it comes down to has been entered. */
  ghost predicate Met(c: Base, s: State, job: Job)
    requires Ranked(c) && Fits(c, s)
    decreases Weight(c, job)
  {
    match PlanOf(c, job)
    case Unknown => false
    case Declaration => c.g[job.id].tag != "" ==> s.fwd[job.id]
    case Jobs(jobs) => PlanIsLighter(c, job); forall j | j in jobs :: Met(c, s, j)
    case Define =>
      && (job.DefineRecord? && NamedRecord(c.g[job.id]) ==> s.rec[job.id] != White)
      && (job.DefineTypedef? && NamedTypedef(c.g[job.id]) ==> s.td[job.id] != White)
  }

  ghost predicate BodyMet(c: Base, s: State, id: nat)
    requires Ranked(c) && Fits(c, s) && id < |c.g| && c.g[id].Record?
  {
    BodyPrints(c, id) && forall j | j in Hards(Body(c, id)) :: Met(c, s, j)
  }

  ghost predicate TargetMet(c: Base, s: State, id: nat)
    requires Ranked(c) && Fits(c, s) && id < |c.g| && c.g[id].Typedef?
  {
    AliasPrints(c, id) && Met(c, s, Target(c.g, c.g[id].to))
  }

  /** What has been defined was walked to the end and could be printed. */
  ghost predicate Followed(c: Base, s: State)
    requires Ranked(c) && Fits(c, s)
  {
    && (forall id | 0 <= id < |c.g| && NamedRecord(c.g[id]) && s.rec[id] == Black :: BodyMet(c, s, id))
    && (forall id | 0 <= id < |c.g| && NamedTypedef(c.g[id]) && s.td[id] == Black :: TargetMet(c, s, id))
  }

  lemma {:induction false} MetOnward(c: Base, s: State, t: State, job: Job)
    requires Ranked(c) && Fits(c, s) && Onward(s, t) && Met(c, s, job)
    ensures Met(c, t, job)
    decreases Weight(c, job)
  {
    var plan := PlanOf(c, job);
    if plan.Jobs? {
      PlanIsLighter(c, job);
      forall j | j in plan.jobs
        ensures Met(c, t, j)
      {
        MetOnward(c, s, t, j);
      }
    }
  }

  /** Going on from a state keeps what was followed, as long as nothing more is finished. */
  lemma FollowedOnward(c: Base, s: State, t: State)
    requires Ranked(c) && Fits(c, s) && Onward(s, t) && Followed(c, s)
    ensures forall id | 0 <= id < |c.g| && NamedRecord(c.g[id]) && s.rec[id] == Black :: BodyMet(c, t, id)
    ensures forall id | 0 <= id < |c.g| && NamedTypedef(c.g[id]) && s.td[id] == Black :: TargetMet(c, t, id)
  {
    hide Met, BodyPrints, AliasPrints;
    forall id | 0 <= id < |c.g| && NamedRecord(c.g[id]) && s.rec[id] == Black
      ensures BodyMet(c, t, id)
    {
      assert BodyMet(c, s, id);
      forall j | j in Hards(Body(c, id))
        ensures Met(c, t, j)
      {
        MetOnward(c, s, t, j);
      }
    }
    forall id | 0 <= id < |c.g| && NamedTypedef(c.g[id]) && s.td[id] == Black
      ensures TargetMet(c, t, id)
    {
      assert TargetMet(c, s, id);
      MetOnward(c, s, t, Target(c.g, c.g[id].to));
    }
  }

  lemma {:induction false} JobFollowed(c: Base, job: Job, s: State)
    requires Ranked(c) && Fits(c, s) && Followed(c, s) && Walk.Walk(c, job, s).Done?
    ensures Followed(c, Walk.Walk(c, job, s).st) && Met(c, Walk.Walk(c, job, s).st, job)
    decreases Pending(c, s), Weight(c, job), 0, 0
  {
    hide Followed;
    var id := job.id;
    match PlanOf(c, job)
    case Unknown =>
    case Declaration => StepFollowed(c, s, Declare(c.g, id, s));
    case Jobs(jobs) =>
      PlanIsLighter(c, job);
      AllFollowed(c, jobs, s);
    case Define =>
      if job.DefineRecord? {
        RecordFollowed(c, id, s);
      } else {
        TypedefFollowed(c, id, s);
      }
  }

  /** A step that finishes nothing. */
  lemma StepFollowed(c: Base, s: State, t: State)
    requires Ranked(c) && Fits(c, s) && Onward(s, t) && Followed(c, s)
    requires forall id | 0 <= id < |c.g| ::
               (t.rec[id] == Black ==> s.rec[id] == Black) && (t.td[id] == Black ==> s.td[id] == Black)
    ensures Followed(c, t)
  {
    hide Met, BodyMet, TargetMet;
    FollowedOnward(c, s, t);
  }

  lemma {:induction false} RecordFollowed(c: Base, id: nat, s: State)
    requires Ranked(c) && Fits(c, s) && Followed(c, s) && id < |c.g| && WalkRecord(c, id, s).Done?
    ensures Followed(c, WalkRecord(c, id, s).st) && Met(c, WalkRecord(c, id, s).st, DefineRecord(id))
    decreases Pending(c, s), 0, 0, 0
  {
    if NamedRecord(c.g[id]) && s.rec[id] == White {
      hide Followed, Met, BodyPrints;
      var jobs := Hards(Body(c, id));
      EnteringShrinks(c, s, id);
      StepFollowed(c, s, EnterRecord(s, id));
      AllFollowed(c, jobs, EnterRecord(s, id));
      RecordLeft(c, id, WalkAll(c, jobs, EnterRecord(s, id)).st);
    }
  }

  lemma RecordLeft(c: Base, id: nat, s: State)
    requires Ranked(c) && Fits(c, s) && Followed(c, s) && id < |c.g| && NamedRecord(c.g[id]) && s.rec[id] != White
    requires BodyMet(c, s, id)
    ensures Followed(c, LeaveRecord(s, id)) && Met(c, LeaveRecord(s, id), DefineRecord(id))
  {
    hide BodyPrints, AliasPrints, TargetMet;
    var t := LeaveRecord(s, id);
    FollowedOnward(c, s, t);
    forall j | j in Hards(Body(c, id))
      ensures Met(c, t, j)
    {
      MetOnward(c, s, t, j);
    }
    assert BodyMet(c, t, id);
    hide BodyMet;
  }

  lemma {:induction false} TypedefFollowed(c: Base, id: nat, s: State)
    requires Ranked(c) && Fits(c, s) && Followed(c, s) && id < |c.g| && WalkTypedef(c, id, s).Done?
    ensures Followed(c, WalkTypedef(c, id, s).st) && Met(c, WalkTypedef(c, id, s).st, DefineTypedef(id))
    decreases Pending(c, s), 0, 0, 0
  {
    if NamedTypedef(c.g[id]) && s.td[id] == White {
      hide Followed, Met, AliasPrints;
      var target := Target(c.g, c.g[id].to);
      EnteringShrinks(c, s, id);
      StepFollowed(c, s, EnterTypedef(s, id));
      JobFollowed(c, target, EnterTypedef(s, id));
      TypedefLeft(c, id, Walk.Walk(c, target, EnterTypedef(s, id)).st);
    }
  }

  lemma TypedefLeft(c: Base, id: nat, s: State)
    requires Ranked(c) && Fits(c, s) && Followed(c, s) && id < |c.g| && NamedTypedef(c.g[id]) && s.td[id] != White
    requires TargetMet(c, s, id)
    ensures Followed(c, LeaveTypedef(s, id)) && Met(c, LeaveTypedef(s, id), DefineTypedef(id))
  {
    hide AliasPrints, BodyMet;
    var t := LeaveTypedef(s, id);
    FollowedOnward(c, s, t);
    MetOnward(c, s, t, Target(c.g, c.g[id].to));
    assert TargetMet(c, t, id);
    hide TargetMet;
  }

  lemma {:induction false} AllFollowed(c: Base, jobs: seq<Job>, s: State)
    requires Ranked(c) && Fits(c, s) && Followed(c, s) && WalkAll(c, jobs, s).Done?
    ensures Followed(c, WalkAll(c, jobs, s).st)
    ensures forall j | j in jobs :: Met(c, WalkAll(c, jobs, s).st, j)
    decreases Pending(c, s), TopWeight(c, jobs), 1, |jobs|
  {
    hide Followed, Met;
    if jobs != [] {
      var t := Walk.Walk(c, jobs[0], s).st;
      JobFollowed(c, jobs[0], s);
      OnwardPending(c, s, t);
      AllFollowed(c, jobs[1..], t);
      MetOnward(c, t, WalkAll(c, jobs, s).st, jobs[0]);
      assert forall j | j in jobs :: j == jobs[0] || j in jobs[1..];
    }
  }

  /** Nothing is in progress. */
  ghost predicate AtRest(s: State) {
    (forall i | 0 <= i < |s.rec| :: s.rec[i] != Grey) && (forall i | 0 <= i < |s.td| :: s.td[i] != Grey)
  }

  /** At rest, a job that was done has had all done that it leads to. */
  lemma MetLeads(c: Base, s: State, job: Job, next: Job)
    requires Ranked(c) && Fits(c, s) && Followed(c, s) && AtRest(s) && Met(c, s, job) && Leads(c, job, next)
    ensures Met(c, s, next)
  {
    if job.DefineRecord? && PlanOf(c, job).Define? {
      assert BodyMet(c, s, job.id);
    } else if job.DefineTypedef? && PlanOf(c, job).Define? {
      assert TargetMet(c, s, job.id);
    }
  }

  /** Everything in play has been done. */
  lemma AllMet(c: Base, s: State, start: seq<Job>, job: Job)
    requires Ranked(c) && Fits(c, s) && Followed(c, s) && AtRest(s)
    requires (forall j | j in start :: Met(c, s, j)) && job in PlaySet(c, start)
    ensures Met(c, s, job)
  {
    hide Met, Followed, AtRest, Leads;
    var k := iset j | Met(c, s, j);
    forall j, n | j in k && Leads(c, j, n)
      ensures n in k
    {
      MetLeads(c, s, j, n);
    }
    PlayIsLeast(c, start, k);
  }

  /** Every definition printed is a job of `k`. */
  ghost predicate PrintedFrom(k: iset<Job>, out: seq<Decl>) {
    forall d | d in out :: (d.RecordBody? ==> DefineRecord(d.id) in k) && (d.Alias? ==> DefineTypedef(d.id) in k)
  }

  lemma {:induction false} JobPrints(c: Base, k: iset<Job>, job: Job, s: State)
    requires Ranked(c) && Fits(c, s) && JobClosed(c, k) && job in k && PrintedFrom(k, s.out)
    requires Walk.Walk(c, job, s).Done?
    ensures PrintedFrom(k, Walk.Walk(c, job, s).st.out)
    decreases Pending(c, s), Weight(c, job), 0, 0
  {
    var id := job.id;
    match PlanOf(c, job)
    case Unknown =>
    case Declaration =>
    case Jobs(jobs) =>
      PlanIsLighter(c, job);
      assert forall j | j in jobs :: Leads(c, job, j);
      AllPrint(c, k, jobs, s);
    case Define =>
      EnteringShrinks(c, s, id);
      if job.DefineRecord? && NamedRecord(c.g[id]) && s.rec[id] == White {
        assert forall j | j in Hards(Body(c, id)) :: Leads(c, job, j);
        AllPrint(c, k, Hards(Body(c, id)), EnterRecord(s, id));
      } else if job.DefineTypedef? && NamedTypedef(c.g[id]) && s.td[id] == White {
        assert Leads(c, job, Target(c.g, c.g[id].to));
        JobPrints(c, k, Target(c.g, c.g[id].to), EnterTypedef(s, id));
      }
  }

  lemma {:induction false} AllPrint(c: Base, k: iset<Job>, jobs: seq<Job>, s: State)
    requires Ranked(c) && Fits(c, s) && JobClosed(c, k) && PrintedFrom(k, s.out)
    requires (forall j | j in jobs :: j in k) && WalkAll(c, jobs, s).Done?
    ensures PrintedFrom(k, WalkAll(c, jobs, s).st.out)
    decreases Pending(c, s), TopWeight(c, jobs), 1, |jobs|
  {
    if jobs != [] {
      var t := Walk.Walk(c, jobs[0], s).st;
      JobPrints(c, k, jobs[0], s);
      OnwardPending(c, s, t);
      AllPrint(c, k, jobs[1..], t);
    }
  }
}
