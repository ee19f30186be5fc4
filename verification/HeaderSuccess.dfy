/** When the emitter succeeds: unless a typedef leads back to itself the error about cycles cannot
    fire, and types in range and of printable kinds leave nothing else to fail. */
module HeaderSuccess {
  import opened Btf
  import opened Meaning
  import opened Declarators
  import opened Walk
  import opened InPlay
  import opened WalkOnce
  import opened WalkScope
  import opened HeaderScope
  import opened HeaderExact

  /** A job is about a type in range, and what it defines can be printed. */
  ghost predicate CanDo(c: Base, j: Job)
    requires Ranked(c)
  {
    && !PlanOf(c, j).Unknown?
    && (j.DefineRecord? && NamedRecord(c.g[j.id]) ==> BodyPrints(c, j.id))
    && (j.DefineTypedef? && NamedTypedef(c.g[j.id]) ==> AliasPrints(c, j.id))
  }

  ghost predicate Supported(c: Base, p: Play)
    requires Ranked(c)
  {
    forall j | j in p.jobs :: CanDo(c, j)
  }

  lemma UnderPlan(c: Base, ord: nat -> nat, job: Job, b: nat)
    requires Ranked(c) && Under(c, ord, job, b)
    ensures PlanOf(c, job).Jobs? ==> forall j | j in PlanOf(c, job).jobs :: Under(c, ord, j, b)
    ensures PlanOf(c, job).Define? ==> ord(job.id) < b
  {
  }

  lemma EnterKeeps(c: Base, ord: nat -> nat, b: nat, s: State, t: State, id: nat)
    requires Tally(c, s) && Above(c, ord, s, b) && id < |c.g| && ord(id) < b
    requires || (NamedRecord(c.g[id]) && s.rec[id] == White && t == EnterRecord(s, id))
             || (NamedTypedef(c.g[id]) && s.td[id] == White && t == EnterTypedef(s, id))
    ensures Tally(c, t) && Above(c, ord, t, ord(id))
  {
  }

  /** A typedef in play that leads back to itself. */
  ghost predicate Returns(c: Base, id: nat) {
    exists trail :: IsTrail(c, trail) && |trail| > 1 && trail[0] == DefineTypedef(id) == trail[|trail| - 1]
  }

  ghost predicate NoneReturns(c: Base, k: iset<Job>) {
    forall id: nat | DefineTypedef(id) in k && id < |c.g| && NamedTypedef(c.g[id]) :: !Returns(c, id)
  }

  /** A job that a typedef leads to, in one step or more. */
  ghost predicate Behind(c: Base, id: nat, job: Job) {
    exists trail :: IsTrail(c, trail) && |trail| > 1 && trail[0] == DefineTypedef(id) && trail[|trail| - 1] == job
  }

  /** Every typedef in progress leads to the job. */
  ghost predicate AllBehind(c: Base, s: State, job: Job)
    requires Fits(c, s)
  {
    forall id | 0 <= id < |c.g| && s.td[id] == Grey :: Behind(c, id, job)
  }

  lemma BehindNext(c: Base, s: State, job: Job, next: Job)
    requires Fits(c, s) && AllBehind(c, s, job) && Leads(c, job, next)
    ensures AllBehind(c, s, next)
  {
    hide Leads, IsTrail;
    forall id | 0 <= id < |c.g| && s.td[id] == Grey
      ensures Behind(c, id, next)
    {
      var trail :| IsTrail(c, trail) && |trail| > 1 && trail[0] == DefineTypedef(id) && trail[|trail| - 1] == job;
      TrailMore(c, trail, next);
      assert (trail + [next])[0] == trail[0];
    }
  }

  lemma BehindKept(c: Base, s: State, t: State, job: Job)
    requires Fits(c, s) && Fits(c, t) && AllBehind(c, s, job) && SameGreys(s, t)
    ensures AllBehind(c, t, job)
  {
  }

  lemma BehindTarget(c: Base, id: nat, s: State)
    requires Fits(c, s) && id < |c.g| && NamedTypedef(c.g[id]) && AllBehind(c, s, DefineTypedef(id))
    ensures AllBehind(c, EnterTypedef(s, id), Target(c.g, c.g[id].to))
  {
    var target := Target(c.g, c.g[id].to);
    hide Target;
    assert Leads(c, DefineTypedef(id), target);
    BehindNext(c, s, DefineTypedef(id), target);
    hide Leads;
    assert IsTrail(c, [DefineTypedef(id), target]);
  }

  /** A typedef that has not returned to itself is not in progress when its turn comes. */
  lemma NotGrey(c: Base, id: nat, s: State)
    requires Fits(c, s) && id < |c.g| && AllBehind(c, s, DefineTypedef(id)) && !Returns(c, id)
    ensures s.td[id] != Grey
  {
  }

  lemma {:induction false} JobCompletes(c: Base, k: iset<Job>, job: Job, s: State)
    requires Ranked(c) && JobClosed(c, k) && NoneReturns(c, k) && Supported(c, Play(k, Seen({}, {}))) && Tally(c, s)
    requires job in k && AllBehind(c, s, job)
    ensures Walk.Walk(c, job, s).Done?
    decreases Pending(c, s), Weight(c, job), 0, 0
  {
    hide Consistent, BodyPrints, AliasPrints, AllBehind;
    var id := job.id;
    assert CanDo(c, job);
    match PlanOf(c, job)
    case Unknown =>
    case Declaration =>
    case Jobs(jobs) =>
      PlanIsLighter(c, job);
      forall j | j in jobs
        ensures j in k && AllBehind(c, s, j)
      {
        assert Leads(c, job, j);
        BehindNext(c, s, job, j);
      }
      AllComplete(c, k, jobs, s);
    case Define =>
      if job.DefineRecord? {
        RecordCompletes(c, k, id, s);
      } else {
        TypedefCompletes(c, k, id, s);
      }
  }

  lemma {:induction false} RecordCompletes(c: Base, k: iset<Job>, id: nat, s: State)
    requires Ranked(c) && JobClosed(c, k) && NoneReturns(c, k) && Supported(c, Play(k, Seen({}, {}))) && Tally(c, s)
    requires id < |c.g| && DefineRecord(id) in k && AllBehind(c, s, DefineRecord(id))
    ensures WalkRecord(c, id, s).Done?
    decreases Pending(c, s), 0, 0, 0
  {
    hide BodyPrints, AliasPrints, JobClosed, NoneReturns, AllBehind, Consistent;
    if NamedRecord(c.g[id]) && s.rec[id] == White {
      EnteringShrinks(c, s, id);
      EnterRecordTally(c, id, s);
      forall j | j in Hards(Body(c, id))
        ensures j in k && AllBehind(c, EnterRecord(s, id), j)
      {
        LedIn(c, k, DefineRecord(id), j);
        BehindNext(c, s, DefineRecord(id), j);
        BehindSame(c, s, EnterRecord(s, id), j);
      }
      AllComplete(c, k, Hards(Body(c, id)), EnterRecord(s, id));
      assert CanDo(c, DefineRecord(id));
    }
  }

  lemma LedIn(c: Base, k: iset<Job>, j: Job, n: Job)
    requires JobClosed(c, k) && j in k && Leads(c, j, n)
    ensures n in k
  {
  }

  lemma BehindSame(c: Base, s: State, t: State, job: Job)
    requires Fits(c, s) && Fits(c, t) && AllBehind(c, s, job) && t.td == s.td
    ensures AllBehind(c, t, job)
  {
  }

  lemma EnterRecordTally(c: Base, id: nat, s: State)
    requires Tally(c, s) && id < |c.g| && NamedRecord(c.g[id]) && s.rec[id] == White
    ensures Tally(c, EnterRecord(s, id))
  {
  }

  lemma EnterTypedefTally(c: Base, id: nat, s: State)
    requires Tally(c, s) && id < |c.g| && NamedTypedef(c.g[id]) && s.td[id] == White
    ensures Tally(c, EnterTypedef(s, id))
  {
  }

  lemma {:induction false} TypedefCompletes(c: Base, k: iset<Job>, id: nat, s: State)
    requires Ranked(c) && JobClosed(c, k) && NoneReturns(c, k) && Supported(c, Play(k, Seen({}, {}))) && Tally(c, s)
    requires id < |c.g| && DefineTypedef(id) in k && AllBehind(c, s, DefineTypedef(id))
    ensures WalkTypedef(c, id, s).Done?
    decreases Pending(c, s), 0, 0, 0
  {
    hide BodyPrints, AliasPrints, JobClosed, AllBehind, Consistent, Returns, NeedsHard;
    if NamedTypedef(c.g[id]) {
      NotGrey(c, id, s);
      if s.td[id] == White {
        EnteringShrinks(c, s, id);
        EnterTypedefTally(c, id, s);
        LedIn(c, k, DefineTypedef(id), Target(c.g, c.g[id].to));
        BehindTarget(c, id, s);
        JobCompletes(c, k, Target(c.g, c.g[id].to), EnterTypedef(s, id));
        assert CanDo(c, DefineTypedef(id));
      }
    } else {
      NoGrey(c, id, s);
    }
  }

  lemma NoGrey(c: Base, id: nat, s: State)
    requires Tally(c, s) && id < |c.g| && !NamedTypedef(c.g[id])
    ensures s.td[id] == White
  {
  }

  lemma {:induction false} AllComplete(c: Base, k: iset<Job>, jobs: seq<Job>, s: State)
    requires Ranked(c) && JobClosed(c, k) && NoneReturns(c, k) && Supported(c, Play(k, Seen({}, {}))) && Tally(c, s)
    requires forall j | j in jobs :: j in k && AllBehind(c, s, j)
    ensures WalkAll(c, jobs, s).Done?
    decreases Pending(c, s), TopWeight(c, jobs), 1, |jobs|
  {
    hide Consistent, SameGreys, Supported, AllBehind, NoneReturns, JobClosed;
    if jobs != [] {
      JobCompletes(c, k, jobs[0], s);
      var t := Walk.Walk(c, jobs[0], s).st;
      JobOnce(c, jobs[0], s);
      OnwardPending(c, s, t);
      forall j | j in jobs[1..]
        ensures AllBehind(c, t, j)
      {
        BehindKept(c, s, t, j);
      }
      AllComplete(c, k, jobs[1..], t);
    }
  }

  /** Unless some typedef in play leads back to itself, a header is printed if and only if every type in
      play is in range and every definition in play can be printed. */
  lemma HeaderSucceedsUnlessCyclic(c: Base, ids: seq<nat>)
    requires InRange(c.g, ids) && Distinct(ids) && Ranked(c) && NoneReturns(c, PlayOf(c, ids).jobs)
    ensures Header(c, ids).Done? <==> Supported(c, PlayOf(c, ids))
  {
    if Supported(c, PlayOf(c, ids)) {
      SupportedSucceeds(c, ids);
    }
    if Header(c, ids).Done? {
      HeaderFollowed(c, ids);
      hide NoneReturns, Header, HeaderJobs, PlaySet, CanDo, Met, AtRest, Followed;
      forall j | j in PlayOf(c, ids).jobs
        ensures CanDo(c, j)
      {
        MetCanDo(c, Header(c, ids).st, j);
      }
    }
  }

  lemma SupportedSucceeds(c: Base, ids: seq<nat>)
    requires InRange(c.g, ids) && Distinct(ids) && Ranked(c) && NoneReturns(c, PlayOf(c, ids).jobs)
    requires Supported(c, PlayOf(c, ids))
    ensures Header(c, ids).Done?
  {
    var jobs, s, k := HeaderJobs(c.g, ids), Prologue(c.g, ids), PlayOf(c, ids).jobs;
    PrologueOnce(c, ids);
    PlayClosed(c, jobs);
    hide HeaderJobs, Prologue, PlaySet, CanDo, Consistent, NoneReturns;
    assert Supported(c, Play(k, Seen({}, {})));
    forall j | j in jobs
      ensures j in k && AllBehind(c, s, j)
    {
    }
    AllComplete(c, k, jobs, s);
  }

  lemma UnderMore(c: Base, ord: nat -> nat, job: Job, b: nat, more: nat)
    requires Ranked(c) && Under(c, ord, job, b) && b <= more
    ensures Under(c, ord, job, more)
    decreases Weight(c, job)
  {
    if PlanOf(c, job).Jobs? {
      PlanIsLighter(c, job);
      forall j | j in PlanOf(c, job).jobs
        ensures Under(c, ord, j, more)
      {
        UnderMore(c, ord, j, b, more);
      }
    }
  }

  /** Under a numbering, what a job below a bound leads to stays below it. */
  lemma {:induction false} TrailUnder(c: Base, ord: nat -> nat, u: Play, trail: seq<Job>, b: nat)
    requires Numbered(c, ord, u) && IsTrail(c, trail) && trail[0] in u.jobs && Under(c, ord, trail[0], b)
    ensures Under(c, ord, trail[|trail| - 1], b)
    decreases |trail|
  {
    if |trail| > 1 {
      var j, n := trail[0], trail[1];
      assert Leads(c, j, n);
      if PlanOf(c, j).Jobs? {
        UnderPlan(c, ord, j, b);
      } else {
        UnderMore(c, ord, n, ord(j.id), b);
      }
      hide Under, Leads, Ordered;
      assert IsTrail(c, trail[1..]);
      TrailUnder(c, ord, u, trail[1..], b);
    }
  }

  /** So a numbering excludes that a typedef leads back to itself. */
  lemma NumberedNoneReturns(c: Base, ord: nat -> nat, u: Play)
    requires Numbered(c, ord, u)
    ensures NoneReturns(c, u.jobs)
  {
    forall id: nat, trail | DefineTypedef(id) in u.jobs && id < |c.g| && IsTrail(c, trail) && |trail| > 1 &&
                            trail[0] == DefineTypedef(id) == trail[|trail| - 1]
      ensures false
    {
      assert Leads(c, trail[0], trail[1]);
      assert IsTrail(c, trail[1..]);
      assert trail[1] in u.jobs && Under(c, ord, trail[1], ord(id));
      hide Leads, Ordered;
      TrailUnder(c, ord, u, trail[1..], ord(id));
    }
  }

  /** Under a numbering the error about typedef cycles never fires. */
  lemma HeaderSucceeds(c: Base, ord: nat -> nat, ids: seq<nat>)
    requires InRange(c.g, ids) && Distinct(ids) && Ranked(c) && Ordered(c, ord, PlayOf(c, ids))
    ensures Header(c, ids).Done? <==> Supported(c, PlayOf(c, ids))
  {
    PlayClosed(c, HeaderJobs(c.g, ids));
    hide Ordered, Header, HeaderJobs, PlaySet, Supported, NoneReturns;
    NumberedNoneReturns(c, ord, PlayOf(c, ids));
    HeaderSucceedsUnlessCyclic(c, ids);
  }

  lemma MetCanDo(c: Base, s: State, j: Job)
    requires Ranked(c) && Tally(c, s) && Followed(c, s) && AtRest(s) && Met(c, s, j)
    ensures CanDo(c, j)
  {
    hide Consistent, BodyPrints, AliasPrints;
    if j.DefineRecord? && PlanOf(c, j).Define? && NamedRecord(c.g[j.id]) {
      assert BodyMet(c, s, j.id);
    } else if j.DefineTypedef? && PlanOf(c, j).Define? && NamedTypedef(c.g[j.id]) {
      assert TargetMet(c, s, j.id);
    }
  }

  /** What a header defines for a required record could be printed. */
  lemma DonePrints(c: Base, ids: seq<nat>, id: nat)
    requires Ranked(c) && InRange(c.g, ids) && Distinct(ids) && id in ids && NamedRecord(c.g[id])
    requires Header(c, ids).Done?
    ensures BodyPrints(c, id)
  {
    HeaderOnce(c, ids);
    HeaderFollowed(c, ids);
    hide Header, AtRest, Met, BodyPrints, PlayOf;
    assert BodyMet(c, Header(c, ids).st, id);
  }

  /** Every type of `u` is in range, and of a kind that declarations are made of. */
  ghost predicate Kinds(c: Base, u: set<nat>) {
    forall id | id in u && id > 0 ::
      id < |c.g| && !c.g[id].Void? && !c.g[id].Func? && !c.g[id].Var? && !c.g[id].DataSec?
  }

  /** Every declaration of a named record or typedef of `u` fits the buffers. */
  ghost predicate Short(c: Base, u: set<nat>)
    requires Ranked(c)
  {
    forall id | id in u && id < |c.g| ::
      && (NamedRecord(c.g[id]) ==> AllRoomy(c, Body(c, id)))
      && (NamedTypedef(c.g[id]) ==> Roomy(c, c.g[id].to, NameSize(c.g[id].alias)))
  }

  /** They do if names are short enough for the height of the types. */
  lemma ShortByHeight(c: Base, u: set<nat>, most: nat, top: nat)
    requires Ranked(c) && (forall t | t in c.g :: NamesWithin(t, most))
    requires (forall id | 0 <= id < |c.g| :: Height(c, id) <= top) && most + STEP * top < 512
    ensures Short(c, u)
  {
    hide Roomy, Body;
    forall id | id in u && id < |c.g|
      ensures NamedRecord(c.g[id]) ==> AllRoomy(c, Body(c, id))
      ensures NamedTypedef(c.g[id]) ==> Roomy(c, c.g[id].to, NameSize(c.g[id].alias))
    {
      assert NamesWithin(c.g[id], most);
      if NamedTypedef(c.g[id]) {
        LowEnough(c, c.g[id].to, top);
        RoomyByHeight(c, c.g[id].to, NameSize(c.g[id].alias), most);
      } else if NamedRecord(c.g[id]) {
        BodyRoomy(c, id, most, top);
      }
    }
  }

  lemma LowEnough(c: Base, id: nat, top: nat)
    requires Ranked(c) && forall i | 0 <= i < |c.g| :: Height(c, i) <= top
    ensures STEP * Height(c, id) <= STEP * top
  {
    assert Height(c, id) <= top;
  }

  lemma BodyRoomy(c: Base, id: nat, most: nat, top: nat)
    requires Ranked(c) && (forall t | t in c.g :: NamesWithin(t, most)) && id < |c.g| && c.g[id].Record?
    requires (forall i | 0 <= i < |c.g| :: Height(c, i) <= top) && most + STEP * top < BUFFER
    ensures AllRoomy(c, Body(c, id))
  {
    hide Roomy;
    assert NamesWithin(c.g[id], most);
    forall i | 0 <= i < |Body(c, id)|
      ensures Roomy(c, Body(c, id)[i].ty, NameSize(Body(c, id)[i].name))
    {
      var m := Body(c, id)[i];
      assert m in Body(c, id);
      LowEnough(c, m.ty, top);
      RoomyByHeight(c, m.ty, NameSize(m.name), most);
    }
  }

  lemma {:induction false} KindsPrintable(c: Base, u: set<nat>, id: nat)
    requires Ranked(c) && Closed(c, u) && Kinds(c, u) && id in u
    ensures Printable(c, id)
    decreases Height(c, id)
  {
    if id == 0 {
      return;
    }
    match c.g[id]
    case Record(_, tag, _) =>
      if tag == "" {
        forall i | 0 <= i < |Body(c, id)|
          ensures Printable(c, Body(c, id)[i].ty)
        {
          assert Body(c, id)[i] in Body(c, id) && Follows(c, id, Body(c, id)[i].ty);
          KindsPrintable(c, u, Body(c, id)[i].ty);
        }
      }
    case Proto(ret, params) =>
      assert Follows(c, id, ret);
      KindsPrintable(c, u, ret);
      forall i | 0 <= i < |params|
        ensures Printable(c, params[i].ty)
      {
        assert params[i] in params && Follows(c, id, params[i].ty);
        KindsPrintable(c, u, params[i].ty);
      }
    case Ptr(to) => KindsPrintable(c, u, to);
    case Array(elem, _, _) => KindsPrintable(c, u, elem);
    case Typedef(_, to) => KindsPrintable(c, u, to);
    case Qualified(_, to) => KindsPrintable(c, u, to);
    case Tag(_, to) => KindsPrintable(c, u, to);
    case _ =>
  }

  /** What is in play on behalf of a closed set is about types of the set. */
  lemma PlayInside(c: Base, ids: seq<nat>, u: set<nat>)
    requires Ranked(c) && InRange(c.g, ids) && Closed(c, u) && forall id | id in ids :: id in u
    ensures forall j | j in PlayOf(c, ids).jobs :: j.id in u
  {
    var jobs, k := HeaderJobs(c.g, ids), iset j: Job | j.id in u;
    forall j, n | j in k && Leads(c, j, n)
      ensures n in k
    {
      LeadsInside(c, u, j, n);
    }
    hide PlaySet, HeaderJobs, Leads;
    forall j | j in jobs
      ensures j in k
    {
      JobsAre(c.g, ids, j);
    }
    PlayIsLeast(c, jobs, k);
  }

  lemma LeadsInside(c: Base, u: set<nat>, j: Job, n: Job)
    requires Ranked(c) && Closed(c, u) && j.id in u && Leads(c, j, n)
    ensures n.id in u
  {
    if PlanOf(c, j).Jobs? {
      PlanFollows(c, j, n);
    } else if j.DefineRecord? {
      var i :| 0 <= i < |Body(c, j.id)| && Hards(Body(c, j.id))[i] == n;
      assert Body(c, j.id)[i] in Body(c, j.id);
    } else {
      assert Follows(c, j.id, c.g[j.id].to);
    }
  }

  /** Types of a closed set, in range, of printable kinds and short enough, leave nothing unsupported. */
  lemma KindsSupported(c: Base, ids: seq<nat>, u: set<nat>)
    requires Ranked(c) && InRange(c.g, ids) && Closed(c, u) && Kinds(c, u) && Short(c, u)
    requires forall id | id in ids :: id in u
    ensures Supported(c, PlayOf(c, ids))
  {
    PlayInside(c, ids, u);
    hide PlayOf, Closed, Kinds, Short, CanDo;
    forall j | j in PlayOf(c, ids).jobs
      ensures CanDo(c, j)
    {
      KindCanDo(c, u, j);
    }
  }

  lemma KindCanDo(c: Base, u: set<nat>, j: Job)
    requires Ranked(c) && Closed(c, u) && Kinds(c, u) && Short(c, u) && j.id in u
    ensures CanDo(c, j)
  {
    hide Printable, Roomy;
    assert 0 < |c.g|;
    if j.DefineRecord? && NamedRecord(c.g[j.id]) {
      forall i | 0 <= i < |Body(c, j.id)|
        ensures Printable(c, Body(c, j.id)[i].ty)
      {
        assert Body(c, j.id)[i] in Body(c, j.id);
        KindsPrintable(c, u, Body(c, j.id)[i].ty);
      }
    } else if j.DefineTypedef? && NamedTypedef(c.g[j.id]) {
      assert Follows(c, j.id, c.g[j.id].to);
      KindsPrintable(c, u, c.g[j.id].to);
    }
  }
}
