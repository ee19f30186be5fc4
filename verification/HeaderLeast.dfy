/** A header defines no more than it must: whatever legal list of declarations defines the required
    records and typedefs, it defines all that the header does. */
module HeaderLeast {
  import opened Btf
  import opened CSyntax
  import opened Scope
  import opened Meaning
  import opened Declarators
  import opened Walk
  import opened WalkOnce
  import opened InPlay
  import opened WalkScope
  import opened HeaderScope
  import opened HeaderExact
  import opened HeaderLegal

  /** The first `left` types from `id` on are qualifiers and tags: where the program stops looking what
      they are of, and takes it for something that must be complete. */
  predicate Runs(g: Graph, id: nat, left: nat)
    decreases left
  {
    left == 0 ||
    (id < |g| &&
     match g[id]
     case Qualified(_, to) => Runs(g, to, left - 1)
     case Tag(_, to) => Runs(g, to, left - 1)
     case _ => false)
  }

  /** Behind 32 qualifiers and tags it does so whatever comes next. */
  lemma {:induction false} RunsHard(g: Graph, id: nat, depth: nat)
    requires depth <= 32 && Runs(g, id, 32 - depth)
    ensures NeedsHard(g, id, depth)
    decreases 32 - depth
  {
    if depth < 32 {
      RunsHard(g, g[id].to, depth + 1);
    }
  }

  /** What a definition stands on in C, a job has achieved. */
  ghost predicate Achieved(c: Base, ds: seq<Decl>, e: Env, job: Job)
    requires Ranked(c)
  {
    match job
    case Hard(id) => Known(e, CTypeOf(c, id)) && Complete(e, CTypeOf(c, id))
    case Soft(id) => Known(e, CTypeOf(c, id))
    case DefineRecord(id) => id < |c.g| && NamedRecord(c.g[id]) ==> RecordBody(id) in ds
    case DefineTypedef(id) => id < |c.g| && NamedTypedef(c.g[id]) ==> Alias(id) in ds
  }

  /** The target of a typedef that must be complete is an array, whose elements must be, or a record
      without a name. */
  lemma {:induction false} HardTarget(c: Base, e: Env, id: nat, depth: nat)
    requires Ranked(c) && depth <= 32 && NeedsHard(c.g, id, depth) && !Runs(c.g, id, 32 - depth)
    requires CTypeOf(c, id).ArrayOf? ==> Complete(e, CTypeOf(c, id))
    ensures Complete(e, CTypeOf(c, id))
    decreases 32 - depth
  {
    if 0 < id < |c.g| {
      match c.g[id]
      case Qualified(q, to) =>
        QualifyKeeps(e, {q}, CTypeOf(c, to));
        HardTarget(c, e, to, depth + 1);
      case Tag(_, to) => HardTarget(c, e, to, depth + 1);
      case _ =>
    }
  }

  /** The members of a record that was defined are known and complete; so is what a typedef names, if it
      is an array. */
  ghost predicate Whole(c: Base, e: Env, d: Decl)
    requires Ranked(c) && OfKind(c, d)
  {
    match d
    case RecordBody(id) => forall m | m in Body(c, id) :: Known(e, CTypeOf(c, m.ty)) && Complete(e, CTypeOf(c, m.ty))
    case Alias(id) => var t := CTypeOf(c, c.g[id].to); Known(e, t) && (t.ArrayOf? ==> Complete(e, t))
    case _ => true
  }

  lemma WholeGrows(c: Base, a: Env, b: Env, d: Decl)
    requires Ranked(c) && OfKind(c, d) && Grows(a, b) && Whole(c, a, d)
    ensures Whole(c, b, d)
  {
    hide CTypeOf, Known, Grows, Body, Ranked, Complete;
    match d
    case RecordBody(id) =>
      forall m | m in Body(c, id)
        ensures Known(b, CTypeOf(c, m.ty)) && Complete(b, CTypeOf(c, m.ty))
      {
        KnownGrows(a, b, CTypeOf(c, m.ty));
      }
    case Alias(id) => KnownGrows(a, b, CTypeOf(c, c.g[id].to));
    case _ =>
  }

  lemma AcceptedWhole(c: Base, e: Env, d: Decl)
    requires Ranked(c) && OfKind(c, d) && Accepts(e, Says(c, d))
    ensures Grows(e, Enter(e, Says(c, d))) && Whole(c, Enter(e, Says(c, d)), d)
  {
    AcceptedKnown(c, e, d);
    hide CTypeOf, Known, Body, FieldsOf;
    var after := Enter(e, Says(c, d));
    match d
    case RecordBody(id) =>
      var inside := e.(tags := e.tags + {id});
      forall m | m in Body(c, id)
        ensures Known(after, CTypeOf(c, m.ty)) && Complete(after, CTypeOf(c, m.ty))
      {
        var i :| 0 <= i < |Body(c, id)| && Body(c, id)[i] == m;
        FieldAt(c, Body(c, id), i);
        assert FieldsOf(c, Body(c, id))[i] in FieldsOf(c, Body(c, id));
        InsideGrows(inside, after, CTypeOf(c, m.ty), e);
      }
    case Alias(id) => KnownGrows(e, after, CTypeOf(c, c.g[id].to));
    case _ =>
  }

  lemma InsideGrows(inside: Env, after: Env, t: CType, e: Env)
    requires Grows(inside, after) && inside.complete == e.complete && inside.needs == e.needs
    requires Known(inside, t) && Complete(e, t)
    ensures Known(after, t) && Complete(after, t)
  {
    SameNeeds(e, inside, t);
    KnownGrows(inside, after, t);
  }

  lemma SameNeeds(a: Env, b: Env, t: CType)
    requires a.needs == b.needs
    ensures Needs(a, t) == Needs(b, t)
  {
  }

  /** So it is of all declarations in a list that the checker passes. */
  lemma {:induction false} LegalWhole(c: Base, free: set<nat>, ds: seq<Decl>, d: Decl)
    requires Ranked(c) && (forall x | x in ds :: OfKind(c, x)) && Judged(c, free, ds).Legal? && d in ds
    ensures Whole(c, Judged(c, free, ds).env, d)
    decreases |ds|
  {
    hide Whole, Judged, OfKind, Accepts, Enter, Says, Grows;
    var before, last := ds[..|ds| - 1], ds[|ds| - 1];
    assert ds == before + [last];
    JudgedMore(c, free, before, last);
    var e := Judged(c, free, before).env;
    AcceptedWhole(c, e, last);
    if d != last {
      LegalWhole(c, free, before, d);
      WholeGrows(c, e, Enter(e, Says(c, last)), d);
    }
  }

  /** The list has what the header must define. */
  ghost predicate DefinesAll(c: Base, ids: seq<nat>, ds: seq<Decl>)
    requires InRange(c.g, ids)
  {
    && (forall id | id in ids && NamedRecord(c.g[id]) :: RecordBody(id) in ds)
    && forall id | id in ids && NamedTypedef(c.g[id]) :: Alias(id) in ds
  }

  /** What a job leads to has been achieved with it, in any legal list. */
  lemma AchievedLeads(c: Base, free: set<nat>, ds: seq<Decl>, j: Job, n: Job)
    requires Ranked(c) && (forall d | d in ds :: OfKind(c, d)) && Judged(c, free, ds).Legal?
    requires Achieved(c, ds, Judged(c, free, ds).env, j) && Leads(c, j, n)
    requires j.DefineTypedef? && j.id < |c.g| && NamedTypedef(c.g[j.id]) ==> !Runs(c.g, c.g[j.id].to, 32)
    ensures Achieved(c, ds, Judged(c, free, ds).env, n)
  {
    LegalSees(c, free, ds);
    var e := Judged(c, free, ds).env;
    if PlanOf(c, j).Define? {
      hide CTypeOf, Known, Judged, Complete, NeedsHard;
      var d := if j.DefineRecord? then RecordBody(j.id) else Alias(j.id);
      LegalWhole(c, free, ds, d);
      if j.DefineTypedef? {
        var to := c.g[j.id].to;
        if NeedsHard(c.g, to, 0) {
          HardTarget(c, e, to, 0);
        }
      } else {
        var i :| 0 <= i < |Body(c, j.id)| && Hards(Body(c, j.id))[i] == n;
        assert Body(c, j.id)[i] in Body(c, j.id);
      }
    } else if n.Hard? || n.Soft? {
      hide Judged;
      PlannedAchieved(c, e, ds, j, n);
    } else {
      hide Judged;
      DefinedAchieved(c, free, e, ds, j, n);
    }
  }

  lemma PlannedAchieved(c: Base, e: Env, ds: seq<Decl>, j: Job, n: Job)
    requires Ranked(c) && Sound(c, e) && Achieved(c, ds, e, j)
    requires PlanOf(c, j).Jobs? && n in PlanOf(c, j).jobs && (n.Hard? || n.Soft?)
    ensures Achieved(c, ds, e, n)
  {
    hide FieldsOf, ParamsOf, Body;
    if j.id == 0 {
      VoidLeads(c, j);
    } else {
      KnownLeads(c, e, j, n);
      if n.Hard? {
        HardAchieved(c, e, j, n);
      }
    }
  }

  lemma HardAchieved(c: Base, e: Env, j: Job, n: Job)
    requires Ranked(c) && Sound(c, e) && 0 < j.id && j.Hard? && n.Hard?
    requires PlanOf(c, j).Jobs? && n in PlanOf(c, j).jobs
    requires Known(e, CTypeOf(c, j.id)) && Complete(e, CTypeOf(c, j.id))
    ensures Complete(e, CTypeOf(c, n.id))
  {
    var id := j.id;
    match c.g[id]
    case Qualified(q, to) => QualifyKeeps(e, {q}, CTypeOf(c, to));
    case Record(_, tag, _) =>
      var i :| 0 <= i < |Body(c, id)| && Hards(Body(c, id))[i] == n;
      OneFieldKnown(c, e, id, Body(c, id)[i]);
    case _ =>
  }

  /** A record that is complete was defined, and a typedef name that is known. */
  lemma DefinedAchieved(c: Base, free: set<nat>, e: Env, ds: seq<Decl>, j: Job, n: Job)
    requires Ranked(c) && Sees(free, ds, e) && Achieved(c, ds, e, j)
    requires PlanOf(c, j).Jobs? && n in PlanOf(c, j).jobs && !n.Hard? && !n.Soft?
    ensures Achieved(c, ds, e, n)
  {
    hide FieldsOf, ParamsOf, Body;
  }

  /** No typedef in play names a type behind 32 qualifiers. */
  ghost predicate ShortChains(c: Base, k: iset<Job>) {
    forall j | j in k && j.DefineTypedef? && j.id < |c.g| && NamedTypedef(c.g[j.id]) :: !Runs(c.g, c.g[j.id].to, 32)
  }

  lemma JobsAchieved(c: Base, e: Env, ids: seq<nat>, ds: seq<Decl>, j: Job)
    requires Ranked(c) && InRange(c.g, ids) && DefinesAll(c, ids, ds) && j in HeaderJobs(c.g, ids)
    ensures Achieved(c, ds, e, j)
  {
    JobsAre(c.g, ids, j);
    hide HeaderJobs, CTypeOf, Ranked, Known, Complete;
  }

  /** What is in play has been achieved in any legal list that defines what is required. */
  lemma PlayAchieved(c: Base, free: set<nat>, ids: seq<nat>, ds: seq<Decl>, job: Job)
    requires Ranked(c) && InRange(c.g, ids) && ShortChains(c, PlayOf(c, ids).jobs)
    requires (forall d | d in ds :: OfKind(c, d)) && Judged(c, free, ds).Legal? && DefinesAll(c, ids, ds)
    requires job in PlayOf(c, ids).jobs
    ensures Achieved(c, ds, Judged(c, free, ds).env, job)
  {
    hide HeaderJobs, PlaySet, Judged, CTypeOf, Achieved, Ranked, OfKind, Leads, Runs, DefinesAll, InRange;
    var jobs, k, e := HeaderJobs(c.g, ids), PlayOf(c, ids).jobs, Judged(c, free, ds).env;
    var done := iset j | j in k && Achieved(c, ds, e, j);
    PlayClosed(c, jobs);
    forall j | j in jobs
      ensures j in done
    {
      JobsAchieved(c, e, ids, ds, j);
    }
    forall j, n | j in done && Leads(c, j, n)
      ensures n in done
    {
      AchievedLeads(c, free, ds, j, n);
    }
    PlayIsLeast(c, jobs, done);
  }

  /** The job that prints a definition. */
  function JobFor(d: Decl): Job {
    if d.RecordBody? then DefineRecord(d.id) else DefineTypedef(d.id)
  }

  lemma DefinedInPlay(c: Base, ids: seq<nat>, d: Decl)
    requires Ranked(c) && InRange(c.g, ids) && Distinct(ids) && Header(c, ids).Done?
    requires d in Header(c, ids).st.out && (d.RecordBody? || d.Alias?)
    ensures JobFor(d) in PlayOf(c, ids).jobs && OfKind(c, d)
  {
    HeaderDefinesPlay(c, ids);
    HeaderOfKind(c, ids);
    hide PlaySet, HeaderJobs, Header, Ranked, InRange;
  }

  /** Any legal list, for any enums taken as declared, that defines the required records and typedefs
      defines all records and typedefs that the header defines. */
  lemma HeaderIsLeast(c: Base, free: set<nat>, ids: seq<nat>, ds: seq<Decl>, d: Decl)
    requires Ranked(c) && InRange(c.g, ids) && Distinct(ids) && Header(c, ids).Done?
    requires ShortChains(c, PlayOf(c, ids).jobs)
    requires (forall x | x in ds :: OfKind(c, x)) && Judged(c, free, ds).Legal? && DefinesAll(c, ids, ds)
    requires d in Header(c, ids).st.out && (d.RecordBody? || d.Alias?)
    ensures d in ds
  {
    hide PlayOf, Header, Judged, Known, Complete, CTypeOf, Ranked, InRange, DefinesAll, ShortChains, Distinct;
    DefinedInPlay(c, ids, d);
    PlayAchieved(c, free, ids, ds, JobFor(d));
  }
}
