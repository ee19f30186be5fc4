/** Exactly when a header is legal, whatever anonymous records there are behind pointers: what their
    members ask for must be printed before the declaration they stand in. */
module HeaderLegal {
  import opened Btf
  import opened CSyntax
  import opened Scope
  import opened Meaning
  import opened Walk
  import opened WalkOnce
  import opened InPlay
  import opened WalkScope
  import opened HeaderScope
  import opened HeaderExact
  import opened HeaderSuccess
  import opened PlainWalk

  /** What has been seen where a declaration stands: what comes before it, the enums that are taken as
      declared, and in a record its own tag. */
  ghost function SeenAt(c: Base, free: set<nat>, before: seq<Decl>, d: Decl): (seen: Seen)
    ensures forall id: nat :: id in seen.declared <==>
              || Forward(id) in before || EnumBody(id) in before || d == RecordBody(id)
              || (id in free && id < |c.g| && c.g[id].Enum?)
    ensures forall id: nat :: id in seen.defined <==> RecordBody(id) in before || Alias(id) in before
  {
    var own: set<nat> := if d.RecordBody? then {d.id} else {};
    var enums := set x | x in free && x < |c.g| && c.g[x].Enum?;
    Seen((set x | x in before && (x.Forward? || x.EnumBody?) :: x.id) + enums + own,
         (set x | x in before && (x.RecordBody? || x.Alias?) :: x.id))
  }

  /** The anonymous records behind pointers in the type a job is about ask for nothing more. */
  ghost predicate Served(c: Base, seen: Seen, job: Job)
    requires Ranked(c)
    decreases Weight(c, job)
  {
    match PlanOf(c, job)
    case Jobs(jobs) =>
      PlanIsLighter(c, job);
      NamedTypedef(c.g[job.id]) || forall j | j in jobs && (j.Hard? || j.Soft?) :: Served(c, seen, j)
    case Declaration =>
      c.g[job.id].Record? && c.g[job.id].tag == "" ==> forall m | m in Body(c, job.id) :: Still(c, seen, m.ty, true)
    case _ => true
  }

  /** Those in a declaration do. */
  ghost predicate ServedIn(c: Base, seen: Seen, d: Decl)
    requires Ranked(c) && OfKind(c, d)
  {
    match d
    case RecordBody(id) => forall j | j in Hards(Body(c, id)) :: Served(c, seen, j)
    case Alias(id) => Served(c, seen, Target(c.g, c.g[id].to))
    case _ => true
  }

  /** Those in every declaration do, where it stands. */
  ghost predicate Provided(c: Base, free: set<nat>, ds: seq<Decl>)
    requires Ranked(c) && forall d | d in ds :: OfKind(c, d)
  {
    forall k | 0 <= k < |ds| :: ServedIn(c, SeenAt(c, free, ds[..k], ds[k]), ds[k])
  }

  ghost function Judged(c: Base, free: set<nat>, ds: seq<Decl>): Verdict
    requires Ranked(c) && forall d | d in ds :: OfKind(c, d)
  {
    Check(NOTHING.(enums := free), SaysAll(c, ds))
  }

  lemma JudgedFromNothing(c: Base, ds: seq<Decl>)
    requires Ranked(c) && forall d | d in ds :: OfKind(c, d)
    ensures Judged(c, {}, ds) == Check(NOTHING, SaysAll(c, ds))
  {
    assert NOTHING.(enums := {}) == NOTHING;
  }

  /** The symbol table has what was printed. */
  ghost predicate Sees(free: set<nat>, ds: seq<Decl>, e: Env) {
    && (forall id: nat :: id in e.tags <==> Forward(id) in ds || RecordBody(id) in ds)
    && (forall id: nat :: id in e.complete <==> RecordBody(id) in ds)
    && (forall id: nat :: id in e.needs <==> Alias(id) in ds)
    && (forall id: nat :: id in e.enums <==> id in free || EnumBody(id) in ds)
  }

  lemma SeesMore(c: Base, free: set<nat>, ds: seq<Decl>, e: Env, d: Decl)
    requires Ranked(c) && OfKind(c, d) && Sees(free, ds, e)
    ensures Sees(free, ds + [d], Enter(e, Says(c, d)))
  {
    hide CTypeOf, FieldsOf, OfKind, Ranked;
    assert forall x :: x in ds + [d] <==> x in ds || x == d;
  }

  lemma SoundMore(c: Base, e: Env, d: Decl)
    requires Ranked(c) && OfKind(c, d) && Sound(c, e) && Accepts(e, Says(c, d))
    ensures Sound(c, Enter(e, Says(c, d)))
  {
    hide Sound, CTypeOf, FieldsOf, Known, Ranked;
    if d.Alias? {
      SoundTypedef(c, e, d.id);
    } else {
      SoundGrows(c, e, Enter(e, Says(c, d)));
    }
  }

  lemma JudgedMore(c: Base, free: set<nat>, ds: seq<Decl>, d: Decl)
    requires Ranked(c) && OfKind(c, d) && forall x | x in ds :: OfKind(c, x)
    ensures forall x | x in ds + [d] :: OfKind(c, x)
    ensures Judged(c, free, ds + [d]) ==
            match Judged(c, free, ds)
            case Illegal => Illegal
            case Legal(e) => if Accepts(e, Says(c, d)) then Legal(Enter(e, Says(c, d))) else Illegal
  {
    hide Says, SaysAll, Accepts, Enter, OfKind;
    SaysMore(c, ds, d);
    CheckMore(NOTHING.(enums := free), SaysAll(c, ds), Says(c, d));
  }

  /** The symbol table of a legal list is sound and has what was printed. */
  lemma {:induction false} LegalSees(c: Base, free: set<nat>, ds: seq<Decl>)
    requires Ranked(c) && (forall d | d in ds :: OfKind(c, d)) && Judged(c, free, ds).Legal?
    ensures Sees(free, ds, Judged(c, free, ds).env) && Sound(c, Judged(c, free, ds).env)
    decreases |ds|
  {
    if ds != [] {
      hide Judged, Sees, Sound, Says, Enter, Accepts, OfKind;
      var before, last := ds[..|ds| - 1], ds[|ds| - 1];
      assert ds == before + [last];
      JudgedMore(c, free, before, last);
      LegalSees(c, free, before);
      SeesMore(c, free, before, Judged(c, free, before).env, last);
      SoundMore(c, Judged(c, free, before).env, last);
    }
  }

  /** Every part of it is legal, and accepts what comes next. */
  lemma {:induction false} LegalPrefix(c: Base, free: set<nat>, ds: seq<Decl>, k: nat)
    requires Ranked(c) && (forall d | d in ds :: OfKind(c, d)) && Judged(c, free, ds).Legal? && k < |ds|
    ensures Judged(c, free, ds[..k]).Legal? && Accepts(Judged(c, free, ds[..k]).env, Says(c, ds[k]))
    decreases |ds|
  {
    hide Judged, Says, Enter, Accepts, OfKind;
    var before, last := ds[..|ds| - 1], ds[|ds| - 1];
    assert ds == before + [last];
    JudgedMore(c, free, before, last);
    if k < |before| {
      LegalPrefix(c, free, before, k);
      assert before[..k] == ds[..k];
    } else {
      assert before == ds[..k];
    }
  }

  /** What is in the symbol table has been seen. */
  ghost predicate Tells(c: Base, seen: Seen, e: Env) {
    && (forall id | id in e.tags ::
          && id < |c.g| && Taggable(c.g[id])
          && (id in seen.declared || (id in seen.defined && c.g[id].Record?)))
    && (forall id | id in e.complete :: id in seen.defined && id < |c.g| && c.g[id].Record?)
    && (forall id | id in e.needs :: id in seen.defined)
    && (forall id | id in e.enums && id < |c.g| && c.g[id].Enum? :: id in seen.declared)
  }

  /** A type that the checker knows, and finds whole if it is used so, asks for nothing more. */
  lemma {:induction false} KnownStill(c: Base, seen: Seen, e: Env, id: nat, whole: bool)
    requires Ranked(c) && Sound(c, e) && Tells(c, seen, e)
    requires Known(e, CTypeOf(c, id)) && (whole ==> Complete(e, CTypeOf(c, id)))
    ensures Still(c, seen, id, whole)
    decreases Height(c, id), 1
  {
    hide Sound, Tells;
    if 0 < id < |c.g| {
      match c.g[id]
      case Qualified(q, to) =>
        QualifyKeeps(e, {q}, CTypeOf(c, to));
        KnownStill(c, seen, e, to, whole);
      case Tag(_, to) => KnownStill(c, seen, e, to, whole);
      case Ptr(to) => KnownStill(c, seen, e, to, false);
      case Array(elem, _, _) => KnownStill(c, seen, e, elem, whole);
      case Typedef(alias, to) =>
        if alias == "" {
          KnownStill(c, seen, e, to, whole);
        } else {
          AliasKnown(c, seen, e, id);
          if whole {
            KnownStill(c, seen, e, to, true);
          }
        }
      case Proto(_, _) => FunctionStill(c, seen, e, id);
      case Record(_, tag, _) =>
        if tag == "" {
          AnonymousStill(c, seen, e, id);
        } else {
          TagStill(c, seen, e, id, whole);
        }
      case Fwd(_, _) => TagStill(c, seen, e, id, whole);
      case Enum(_, _, _, _, _) => TagStill(c, seen, e, id, whole);
      case _ =>
    }
  }

  lemma AliasKnown(c: Base, seen: Seen, e: Env, id: nat)
    requires Ranked(c) && Sound(c, e) && Tells(c, seen, e) && 0 < id < |c.g| && NamedTypedef(c.g[id])
    requires Known(e, CTypeOf(c, id))
    ensures id in seen.defined && Known(e, CTypeOf(c, c.g[id].to))
    ensures Complete(e, CTypeOf(c, id)) <==> Complete(e, CTypeOf(c, c.g[id].to))
  {
  }

  lemma TagStill(c: Base, seen: Seen, e: Env, id: nat, whole: bool)
    requires Ranked(c) && Tells(c, seen, e) && 0 < id < |c.g|
    requires NamedRecord(c.g[id]) || c.g[id].Fwd? || c.g[id].Enum?
    requires Known(e, CTypeOf(c, id)) && (whole ==> Complete(e, CTypeOf(c, id)))
    ensures Still(c, seen, id, whole)
  {
  }

  lemma {:induction false} FunctionStill(c: Base, seen: Seen, e: Env, id: nat)
    requires Ranked(c) && Sound(c, e) && Tells(c, seen, e) && 0 < id < |c.g| && c.g[id].Proto?
    requires Known(e, CTypeOf(c, id))
    ensures forall whole :: Still(c, seen, id, whole)
    decreases Height(c, id), 0
  {
    hide Sound, Tells;
    KnownStill(c, seen, e, c.g[id].ret, false);
    forall p | p in c.g[id].params
      ensures Still(c, seen, p.ty, false)
    {
      assert Follows(c, id, p.ty);
      OneParamKnown(c, e, id, p);
      KnownStill(c, seen, e, p.ty, false);
    }
  }

  lemma {:induction false} AnonymousStill(c: Base, seen: Seen, e: Env, id: nat)
    requires Ranked(c) && Sound(c, e) && Tells(c, seen, e) && 0 < id < |c.g| && c.g[id].Record? && c.g[id].tag == ""
    requires Known(e, CTypeOf(c, id))
    ensures forall whole :: Still(c, seen, id, whole)
    decreases Height(c, id), 0
  {
    hide Sound, Tells;
    forall m | m in Body(c, id)
      ensures Still(c, seen, m.ty, true)
    {
      assert Follows(c, id, m.ty);
      OneFieldKnown(c, e, id, m);
      KnownStill(c, seen, e, m.ty, true);
    }
  }

  lemma {:induction false} KnownServed(c: Base, seen: Seen, e: Env, job: Job)
    requires Ranked(c) && Sound(c, e) && Tells(c, seen, e) && (job.Hard? || job.Soft?)
    requires Known(e, CTypeOf(c, job.id))
    ensures Served(c, seen, job)
    decreases Weight(c, job)
  {
    hide Sound, Tells, Known, CTypeOf, Still;
    match PlanOf(c, job)
    case Jobs(jobs) =>
      PlanIsLighter(c, job);
      if !NamedTypedef(c.g[job.id]) {
        forall j | j in jobs && (j.Hard? || j.Soft?)
          ensures Served(c, seen, j)
        {
          UnnamedKnown(c, e, job.id);
          KnownLeads(c, e, job, j);
          KnownServed(c, seen, e, j);
        }
      }
    case Declaration =>
      if c.g[job.id].Record? && c.g[job.id].tag == "" {
        PointeeKnown(c, seen, e, job.id);
      }
    case _ =>
  }

  lemma UnnamedKnown(c: Base, e: Env, id: nat)
    requires Ranked(c) && id < |c.g| && !NamedTypedef(c.g[id]) && Known(e, CTypeOf(c, id))
    ensures c.g[id].Typedef? ==> Known(e, CTypeOf(c, c.g[id].to))
  {
  }

  lemma PointeeKnown(c: Base, seen: Seen, e: Env, id: nat)
    requires Ranked(c) && Sound(c, e) && Tells(c, seen, e) && 0 < id < |c.g| && c.g[id].Record? && c.g[id].tag == ""
    requires Known(e, CTypeOf(c, id))
    ensures forall m | m in Body(c, id) :: Still(c, seen, m.ty, true)
  {
    hide Sound, Tells, Known, CTypeOf, Still;
    forall m | m in Body(c, id)
      ensures Still(c, seen, m.ty, true)
    {
      OneFieldKnown(c, e, id, m);
      KnownStill(c, seen, e, m.ty, true);
    }
  }

  /** The symbol table in which the types of a declaration are judged: a record sees its own tag. */
  ghost function Inside(e: Env, d: Decl): Env {
    if d.RecordBody? then e.(tags := e.tags + {d.id}) else e
  }

  lemma InsideTells(c: Base, free: set<nat>, before: seq<Decl>, d: Decl, e: Env)
    requires Ranked(c) && OfKind(c, d) && (forall x | x in before :: OfKind(c, x)) && Sees(free, before, e)
    requires Sound(c, e)
    ensures Tells(c, SeenAt(c, free, before, d), Inside(e, d)) && Sound(c, Inside(e, d)) && Grows(e, Inside(e, d))
  {
    hide Sound, Ranked;
    SoundGrows(c, e, Inside(e, d));
  }

  lemma AcceptedServed(c: Base, seen: Seen, e: Env, d: Decl)
    requires Ranked(c) && OfKind(c, d) && Accepts(e, Says(c, d))
    requires Sound(c, Inside(e, d)) && Tells(c, seen, Inside(e, d))
    ensures ServedIn(c, seen, d)
  {
    hide Sound, Tells, Known, CTypeOf, Served, Ranked;
    match d
    case RecordBody(id) =>
      forall j | j in Hards(Body(c, id))
        ensures Served(c, seen, j)
      {
        var i :| 0 <= i < |Body(c, id)| && Hards(Body(c, id))[i] == j;
        FieldAt(c, Body(c, id), i);
        assert FieldsOf(c, Body(c, id))[i] in FieldsOf(c, Body(c, id));
        KnownServed(c, seen, Inside(e, d), j);
      }
    case Alias(id) => KnownServed(c, seen, e, Target(c.g, c.g[id].to));
    case _ =>
  }

  /** In a legal header every pointee finds what it asks for. */
  lemma LegalProvides(c: Base, free: set<nat>, ds: seq<Decl>)
    requires Ranked(c) && (forall d | d in ds :: OfKind(c, d)) && Judged(c, free, ds).Legal?
    ensures Provided(c, free, ds)
  {
    hide Judged, Sees, Sound, Tells, Says, Accepts, ServedIn, OfKind;
    forall k | 0 <= k < |ds|
      ensures ServedIn(c, SeenAt(c, free, ds[..k], ds[k]), ds[k])
    {
      LegalPrefix(c, free, ds, k);
      LegalSees(c, free, ds[..k]);
      var e := Judged(c, free, ds[..k]).env;
      InsideTells(c, free, ds[..k], ds[k], e);
      AcceptedServed(c, SeenAt(c, free, ds[..k], ds[k]), e, ds[k]);
    }
  }

  /** What was printed is in the symbol table. */
  ghost predicate Has(before: seq<Decl>, e: Env) {
    forall d | d in before ::
      && (d.Forward? ==> d.id in e.tags)
      && (d.RecordBody? ==> d.id in e.tags && d.id in e.complete)
      && (d.Alias? ==> d.id in e.needs)
  }

  /** All that the recursion prints for a job was printed. */
  ghost predicate Ran(c: Base, ord: nat -> nat, b: nat, job: Job, before: seq<Decl>)
    requires Ranked(c)
  {
    Under(c, ord, job, b) && forall d | d in Unfold(c, ord, b, job) :: d in before
  }

  lemma RanAll(c: Base, ord: nat -> nat, b: nat, jobs: seq<Job>, before: seq<Decl>, j: Job)
    requires Ranked(c) && (forall d | d in UnfoldAll(c, ord, b, jobs) :: d in before) && j in jobs
    requires Under(c, ord, j, b)
    ensures Ran(c, ord, b, j, before)
    decreases |jobs|
  {
    hide Unfold, Under;
    if j != jobs[0] {
      RanAll(c, ord, b, jobs[1..], before, j);
    }
  }

  lemma RanPlan(c: Base, ord: nat -> nat, b: nat, job: Job, before: seq<Decl>)
    requires Ranked(c) && Ran(c, ord, b, job, before) && PlanOf(c, job).Jobs?
    ensures forall j | j in PlanOf(c, job).jobs :: Ran(c, ord, b, j, before)
  {
    hide Ran;
    forall j | j in PlanOf(c, job).jobs
      ensures Ran(c, ord, b, j, before)
    {
      RanOne(c, ord, b, job, before, j);
    }
  }

  lemma RanOne(c: Base, ord: nat -> nat, b: nat, job: Job, before: seq<Decl>, j: Job)
    requires Ranked(c) && Ran(c, ord, b, job, before) && PlanOf(c, job).Jobs? && j in PlanOf(c, job).jobs
    ensures Ran(c, ord, b, j, before)
  {
    UnderPlan(c, ord, job, b);
    hide Under;
    RanAll(c, ord, b, PlanOf(c, job).jobs, before, j);
  }

  /** A record or typedef that was defined is in the symbol table. */
  lemma RanDefine(c: Base, ord: nat -> nat, b: nat, job: Job, before: seq<Decl>, e: Env)
    requires Ranked(c) && Ran(c, ord, b, job, before) && Has(before, e) && job.id < |c.g|
    requires (job.DefineRecord? && NamedRecord(c.g[job.id])) || (job.DefineTypedef? && NamedTypedef(c.g[job.id]))
    ensures Ready(c, e, job)
  {
    var d := if job.DefineRecord? then RecordBody(job.id) else Alias(job.id);
    assert d in Unfold(c, ord, b, job);
  }

  /** A type used by value is whole once all that the recursion prints for it was printed. */
  lemma {:induction false} RanComplete(c: Base, ord: nat -> nat, b: nat, id: nat, before: seq<Decl>, e: Env)
    requires Ranked(c) && Sound(c, e) && Has(before, e) && Ran(c, ord, b, Hard(id), before)
    ensures Complete(e, CTypeOf(c, id))
    decreases Height(c, id)
  {
    hide Sound, Has, Ran;
    if 0 < id < |c.g| && PlanOf(c, Hard(id)).Jobs? {
      RanPlan(c, ord, b, Hard(id), before);
      match c.g[id]
      case Qualified(q, to) =>
        RanComplete(c, ord, b, to, before, e);
        QualifyKeeps(e, {q}, CTypeOf(c, to));
      case Tag(_, to) => RanComplete(c, ord, b, to, before, e);
      case Array(elem, _, _) => RanComplete(c, ord, b, elem, before, e);
      case Typedef(alias, to) =>
        assert PlanOf(c, Hard(id)).jobs[0] == Hard(to) && PlanOf(c, Hard(id)).jobs[1] == DefineTypedef(id);
        RanComplete(c, ord, b, to, before, e);
        if alias != "" {
          RanDefine(c, ord, b, DefineTypedef(id), before, e);
          AliasNeeds(c, e, id);
        }
      case Record(_, tag, _) =>
        if tag != "" {
          RanDefine(c, ord, b, DefineRecord(id), before, e);
        }
      case _ =>
    } else if 0 < id < |c.g| {
      NoForward(c, ord, b, id, before);
    }
  }

  lemma AliasNeeds(c: Base, e: Env, id: nat)
    requires Ranked(c) && Sound(c, e) && id < |c.g| && NamedTypedef(c.g[id]) && id in e.needs && id > 0
    ensures Needs(e, CTypeOf(c, id)) == Needs(e, CTypeOf(c, c.g[id].to)) && Known(e, CTypeOf(c, id))
  {
  }

  /** A bare forward declaration is never used by value. */
  lemma NoForward(c: Base, ord: nat -> nat, b: nat, id: nat, before: seq<Decl>)
    requires Ranked(c) && Ran(c, ord, b, Hard(id), before) && id < |c.g|
    ensures PlanOf(c, Hard(id)).Jobs?
  {
  }

  /** Where all was printed that the recursion prints for a job, and its pointees are served, the
      checker is ready for it. */
  lemma {:induction false} RanReady(c: Base, ord: nat -> nat, b: nat, u: Play, job: Job, before: seq<Decl>, e: Env)
    requires Ranked(c) && Named(c, u) && JobClosed(c, u.jobs) && Fine(c, u, job)
    requires Sound(c, e) && Listed(c, u, e) && Has(before, e) && Ran(c, ord, b, job, before)
    requires job.Hard? || job.Soft? ==> Served(c, u.seen, job)
    ensures Ready(c, e, job)
    decreases Weight(c, job)
  {
    hide Sound, Listed, Has, Ran, Ready, JobClosed, Still;
    match PlanOf(c, job)
    case Unknown => UnknownReady(c, e, job);
    case Declaration => DeclarationRan(c, ord, b, u, job, before, e);
    case Define => DefineRan(c, ord, b, u, job, before, e);
    case Jobs(jobs) =>
      PlanIsLighter(c, job);
      RanPlan(c, ord, b, job, before);
      if job.id == 0 {
        ZeroReady(c, e, job);
      } else if job.Hard? && NamedTypedef(c.g[job.id]) {
        TypedefRan(c, ord, b, job.id, before, e);
      } else {
        forall j | j in jobs
          ensures Ready(c, e, j)
        {
          PlanFine(c, u, job, j);
          SoftTypedef(c, u, job, j);
          RanReady(c, ord, b, u, j, before, e);
        }
        if job.Hard? {
          HardReady(c, u, e, job.id);
        } else {
          SoftReady(c, u, e, job.id);
        }
      }
  }

  lemma UnknownReady(c: Base, e: Env, job: Job)
    requires Ranked(c) && PlanOf(c, job).Unknown? && (job.Hard? || job.Soft?)
    ensures Ready(c, e, job)
  {
  }

  lemma ZeroReady(c: Base, e: Env, job: Job)
    requires Ranked(c) && PlanOf(c, job).Jobs? && job.id == 0
    ensures Ready(c, e, job)
  {
  }

  /** A named typedef is only defined, not looked into. */
  lemma SoftTypedef(c: Base, u: Play, job: Job, j: Job)
    requires Ranked(c) && PlanOf(c, job).Jobs? && j in PlanOf(c, job).jobs && Served(c, u.seen, job)
    requires !(job.Hard? && NamedTypedef(c.g[job.id]))
    ensures j.Hard? || j.Soft? ==> Served(c, u.seen, j)
  {
    hide Still;
  }

  lemma DeclarationRan(c: Base, ord: nat -> nat, b: nat, u: Play, job: Job, before: seq<Decl>, e: Env)
    requires Ranked(c) && Named(c, u) && Fine(c, u, job) && PlanOf(c, job).Declaration?
    requires Sound(c, e) && Listed(c, u, e) && Has(before, e) && Ran(c, ord, b, job, before) && Served(c, u.seen, job)
    ensures Ready(c, e, job)
  {
    var id := job.id;
    assert c.g[id].Fwd? ==> c.g[id].tag != "";
    assert Taggable(c.g[id]) ==> Forward(id) in before && id in e.tags;
    assert job.Soft?;
    hide Listed, Still, Sound, Ran, Has;
    if c.g[id].Record? && c.g[id].tag == "" {
      PointeeReady(c, u, e, id);
    }
  }

  lemma PointeeReady(c: Base, u: Play, e: Env, id: nat)
    requires Ranked(c) && Sound(c, e) && Listed(c, u, e) && 0 < id < |c.g| && c.g[id].Record? && c.g[id].tag == ""
    requires forall m | m in Body(c, id) :: Still(c, u.seen, m.ty, true)
    ensures Known(e, CTypeOf(c, id))
  {
    hide Listed, Still, Sound;
    forall m | m in Body(c, id)
      ensures Known(e, CTypeOf(c, m.ty)) && Complete(e, CTypeOf(c, m.ty))
    {
      StillKnown(c, u, e, m.ty, true);
    }
    FieldsKnown(c, e, Body(c, id));
  }

  lemma DefineRan(c: Base, ord: nat -> nat, b: nat, u: Play, job: Job, before: seq<Decl>, e: Env)
    requires Ranked(c) && Named(c, u) && Fine(c, u, job) && PlanOf(c, job).Define?
    requires Has(before, e) && Ran(c, ord, b, job, before)
    ensures Ready(c, e, job)
  {
    assert job.DefineTypedef? ==> c.g[job.id].alias != "";
    hide Ran, Has;
    RanDefine(c, ord, b, job, before, e);
  }

  lemma TypedefRan(c: Base, ord: nat -> nat, b: nat, id: nat, before: seq<Decl>, e: Env)
    requires Ranked(c) && 0 < id < |c.g| && NamedTypedef(c.g[id])
    requires Sound(c, e) && Has(before, e) && Ran(c, ord, b, Hard(id), before)
    ensures Ready(c, e, Hard(id))
  {
    hide Sound, Has, Ran;
    RanComplete(c, ord, b, id, before, e);
    RanPlan(c, ord, b, Hard(id), before);
    assert PlanOf(c, Hard(id)).jobs[1] == DefineTypedef(id);
    RanDefine(c, ord, b, DefineTypedef(id), before, e);
    AliasNeeds(c, e, id);
  }

  lemma InsideComplete(e: Env, tags: set<nat>, t: CType)
    ensures Needs(e.(tags := tags), t) == Needs(e, t)
  {
  }

  /** What has been seen is in the symbol table. */
  lemma SeenListed(c: Base, jobs: iset<Job>, free: set<nat>, before: seq<Decl>, d: Decl, e: Env)
    requires OfKind(c, d) && (forall x | x in before :: OfKind(c, x)) && Sees(free, before, e)
    requires forall j | j in jobs && NamesEnum(c, j) :: j.id in e.enums
    ensures Listed(c, Play(jobs, SeenAt(c, free, before, d)), Inside(e, d)) && Has(before, Inside(e, d))
  {
    var seen := SeenAt(c, free, before, d);
    hide NamesEnum;
    forall id | id in seen.declared && id < |c.g| && (Taggable(c.g[id]) || c.g[id].Enum?)
      ensures if c.g[id].Enum? then id in e.enums else id in Inside(e, d).tags
    {
      assert Forward(id) in before ==> OfKind(c, Forward(id));
      assert EnumBody(id) in before ==> OfKind(c, EnumBody(id));
    }
    forall id | id in seen.defined && id < |c.g|
      ensures NamedRecord(c.g[id]) ==> RecordBody(id) in before
      ensures NamedTypedef(c.g[id]) ==> Alias(id) in before
    {
      assert RecordBody(id) in before ==> OfKind(c, RecordBody(id));
      assert Alias(id) in before ==> OfKind(c, Alias(id));
    }
  }

  /** The numbering, and the names, of what is in play. */
  ghost predicate Sorted(c: Base, ord: nat -> nat, u: Play) {
    Numbered(c, ord, u) && Named(c, u)
  }

  lemma SortedAgain(c: Base, ord: nat -> nat, u: Play, seen: Seen)
    requires Sorted(c, ord, u)
    ensures Sorted(c, ord, Play(u.jobs, seen))
  {
    hide Under, Leads;
  }

  lemma RecordAccepted(c: Base, ord: nat -> nat, u: Play, id: nat, before: seq<Decl>, e: Env)
    requires Sorted(c, ord, u) && OfKind(c, RecordBody(id)) && DefineRecord(id) in u.jobs
    requires var inside := Inside(e, RecordBody(id)); Sound(c, inside) && Listed(c, u, inside) && Has(before, inside)
    requires (forall d | d in Basis(c, ord, RecordBody(id)) :: d in before) && ServedIn(c, u.seen, RecordBody(id))
    requires id !in e.complete
    ensures Accepts(e, Says(c, RecordBody(id)))
  {
    hide Sound, Listed, Has, Served, Ready, Under, Named, Fine, Known, CTypeOf;
    var inside, jobs := Inside(e, RecordBody(id)), Hards(Body(c, id));
    BodyFine(c, ord, u, id);
    forall j | j in jobs
      ensures Ready(c, inside, j)
    {
      RanAll(c, ord, ord(id), jobs, before, j);
      RanReady(c, ord, ord(id), u, j, before, inside);
    }
    FieldsReady(c, inside, Body(c, id));
    forall f | f in FieldsOf(c, Body(c, id))
      ensures Complete(e, f.ty)
    {
      InsideComplete(e, inside.tags, f.ty);
    }
  }

  lemma AliasIsAccepted(c: Base, ord: nat -> nat, u: Play, id: nat, before: seq<Decl>, e: Env)
    requires Sorted(c, ord, u) && OfKind(c, Alias(id)) && DefineTypedef(id) in u.jobs
    requires Sound(c, e) && Listed(c, u, e) && Has(before, e)
    requires (forall d | d in Basis(c, ord, Alias(id)) :: d in before) && ServedIn(c, u.seen, Alias(id))
    requires id !in e.needs
    ensures Accepts(e, Says(c, Alias(id)))
  {
    hide Sound, Listed, Has, Served, Ready, Under, Named, Fine, Known, CTypeOf;
    var target := Target(c.g, c.g[id].to);
    TargetFine(c, ord, u, id);
    assert Leads(c, DefineTypedef(id), target);
    RanReady(c, ord, ord(id), u, target, before, e);
    AliasAccepted(c, u, e, id);
  }

  /** Each definition comes after the enums in play. */
  ghost predicate EnumsFirst(c: Base, jobs: iset<Job>, free: set<nat>, ds: seq<Decl>) {
    forall k | 0 <= k < |ds| && (ds[k].RecordBody? || ds[k].Alias?) ::
      forall j | j in jobs && NamesEnum(c, j) :: j.id in free || EnumBody(j.id) in ds[..k]
  }

  /** The list of a header, as far as its legality rests on it. */
  ghost predicate InOrder(c: Base, ord: nat -> nat, u: Play, free: set<nat>, ds: seq<Decl>) {
    && Sorted(c, ord, u) && (forall d | d in ds :: OfKind(c, d)) && Distinct(ds)
    && Nested(c, ord, ds) && PrintedFrom(u.jobs, ds) && EnumsFirst(c, u.jobs, free, ds)
    && forall d | d in ds && d.EnumBody? :: d.id !in free
  }

  lemma NotYet(ds: seq<Decl>, k: nat)
    requires Distinct(ds) && k < |ds|
    ensures ds[k] !in ds[..k] && ds[k] in ds
  {
  }

  lemma StepAccepted(c: Base, ord: nat -> nat, u: Play, free: set<nat>, ds: seq<Decl>, k: nat, e: Env)
    requires InOrder(c, ord, u, free, ds) && Provided(c, free, ds) && k < |ds|
    requires Sees(free, ds[..k], e) && Sound(c, e)
    ensures Accepts(e, Says(c, ds[k]))
  {
    hide Sound, Ranked, Named, Ordered, JobClosed, ServedIn, Basis, Listed, Has, Tells, NamesEnum, Says, Accepts;
    hide OfKind;
    var d, before := ds[k], ds[..k];
    NotYet(ds, k);
    if d.RecordBody? || d.Alias? {
      var seen := SeenAt(c, free, before, d);
      var v := Play(u.jobs, seen);
      InsideTells(c, free, before, d, e);
      SeenListed(c, u.jobs, free, before, d, e);
      SortedAgain(c, ord, u, seen);
      hide Sorted, SeenAt;
      if d.RecordBody? {
        RecordAccepted(c, ord, v, d.id, before, e);
      } else {
        AliasIsAccepted(c, ord, v, d.id, before, e);
      }
    } else {
      FirstAccepted(c, e, d);
    }
  }

  lemma FirstAccepted(c: Base, e: Env, d: Decl)
    requires Ranked(c) && OfKind(c, d) && (d.Forward? || (d.EnumBody? && d.id !in e.enums))
    ensures Accepts(e, Says(c, d))
  {
  }

  /** A list in order in which every pointee finds what it asks for is legal. */
  lemma {:induction false} ProvidedIsLegal(c: Base, ord: nat -> nat, u: Play, free: set<nat>, ds: seq<Decl>, k: nat)
    requires InOrder(c, ord, u, free, ds) && Provided(c, free, ds) && k <= |ds|
    ensures Judged(c, free, ds[..k]).Legal?
    decreases k
  {
    hide InOrder, Provided, Sees, Sound, Says, Accepts, Enter;
    InOrderKinds(c, ord, u, free, ds);
    if k == 0 {
      assert ds[..k] == [];
    } else {
      hide Judged, OfKind;
      ProvidedIsLegal(c, ord, u, free, ds, k - 1);
      LegalSees(c, free, ds[..k - 1]);
      StepAccepted(c, ord, u, free, ds, k - 1, Judged(c, free, ds[..k - 1]).env);
      JudgedMore(c, free, ds[..k - 1], ds[k - 1]);
      assert ds[..k] == ds[..k - 1] + [ds[k - 1]];
    }
  }

  lemma InOrderKinds(c: Base, ord: nat -> nat, u: Play, free: set<nat>, ds: seq<Decl>)
    requires InOrder(c, ord, u, free, ds)
    ensures Ranked(c) && forall d | d in ds :: OfKind(c, d)
  {
  }

  lemma HeaderInOrder(c: Base, ord: nat -> nat, free: set<nat>, ids: seq<nat>)
    requires InRange(c.g, ids) && Distinct(ids) && Ranked(c) && Named(c, PlayOf(c, ids))
    requires Ordered(c, ord, PlayOf(c, ids)) && Header(c, ids).Done? && EnumsCovered(c, free, ids)
    ensures InOrder(c, ord, PlayOf(c, ids), free, Header(c, ids).st.out)
  {
    HeaderTidy(c, ord, ids);
    HeaderEnumsFirst(c, free, ids);
    PlayClosed(c, HeaderJobs(c.g, ids));
    hide Header, PlaySet, HeaderJobs, Named, Ordered, Nested, EnumsFirst, OfKind, Distinct, Ranked;
    HeaderFrom(c, free, ids);
  }

  lemma HeaderTidy(c: Base, ord: nat -> nat, ids: seq<nat>)
    requires InRange(c.g, ids) && Distinct(ids) && Ranked(c) && Ordered(c, ord, PlayOf(c, ids)) && Header(c, ids).Done?
    ensures var out := Header(c, ids).st.out;
            (forall d | d in out :: OfKind(c, d)) && Distinct(out) && Nested(c, ord, out)
  {
    HeaderIsPlain(c, ord, ids);
    hide Header, PlayOf, Ordered, Nested, PlainHeader;
  }

  lemma HeaderFrom(c: Base, free: set<nat>, ids: seq<nat>)
    requires InRange(c.g, ids) && Distinct(ids) && Ranked(c) && Header(c, ids).Done? && EnumsCovered(c, free, ids)
    ensures PrintedFrom(PlayOf(c, ids).jobs, Header(c, ids).st.out)
    ensures forall d | d in Header(c, ids).st.out && d.EnumBody? :: d.id !in free
  {
    HeaderDefinesPlay(c, ids);
    hide Header, PlayOf, Ranked, Distinct;
    var out := Header(c, ids).st.out;
    forall d | d in out
      ensures d.RecordBody? ==> DefineRecord(d.id) in PlayOf(c, ids).jobs
      ensures d.Alias? ==> DefineTypedef(d.id) in PlayOf(c, ids).jobs
      ensures d.EnumBody? ==> d.id !in free
    {
      assert d == RecordBody(d.id) || d == Alias(d.id) || d == EnumBody(d.id) || d == Forward(d.id);
    }
  }

  /** A list that starts with another, up to an element that is not in that. */
  lemma LaterStarts(first: seq<Decl>, out: seq<Decl>, k: nat)
    requires first <= out && k < |out| && out[k] !in first
    ensures first <= out[..k]
  {
    assert forall i | 0 <= i < |first| :: out[i] == first[i];
  }

  lemma HeaderEnumsFirst(c: Base, free: set<nat>, ids: seq<nat>)
    requires InRange(c.g, ids) && Distinct(ids) && Ranked(c) && Header(c, ids).Done? && EnumsCovered(c, free, ids)
    ensures EnumsFirst(c, PlayOf(c, ids).jobs, free, Header(c, ids).st.out)
  {
    var first, out := Prologue(c.g, ids).out, Header(c, ids).st.out;
    assert first <= out;
    PrologueOnce(c, ids);
    assert forall d | d in first :: !d.RecordBody? && !d.Alias?;
    hide Header, PlayOf, Prologue;
    forall k, j | 0 <= k < |out| && (out[k].RecordBody? || out[k].Alias?) && j in PlayOf(c, ids).jobs && NamesEnum(c, j)
      ensures j.id in free || EnumBody(j.id) in out[..k]
    {
      LaterStarts(first, out, k);
      if j.id !in free {
        assert EnumBody(j.id) in first;
      }
    }
  }

  /** A legal header has all enums in play, and none of those that are taken as declared. */
  lemma LegalHasEnums(c: Base, free: set<nat>, ids: seq<nat>)
    requires InRange(c.g, ids) && Distinct(ids) && Ranked(c) && Header(c, ids).Done?
    requires (forall d | d in Header(c, ids).st.out :: OfKind(c, d)) && Judged(c, free, Header(c, ids).st.out).Legal?
    ensures EnumsCovered(c, free, ids)
  {
    var ds := Header(c, ids).st.out;
    var e := Judged(c, free, ds).env;
    HeaderDefinesPlay(c, ids);
    hide Header, PlayOf, OfKind, Ranked;
    LegalSees(c, free, ds);
    forall j | j in PlayOf(c, ids).jobs && NamesEnum(c, j)
      ensures j.id in free || j.id in ids
    {
      PlayKnown(c, ids, NOTHING.(enums := free), j);
      EnumNameKnown(c, e, j);
      assert EnumBody(j.id) in ds ==> j.id in ids;
    }
    forall id | id in ids && c.g[id].Enum?
      ensures id !in free
    {
      EnumFresh(c, free, ds, id);
    }
  }

  lemma EnumFresh(c: Base, free: set<nat>, ds: seq<Decl>, id: nat)
    requires Ranked(c) && (forall d | d in ds :: OfKind(c, d)) && Judged(c, free, ds).Legal? && EnumBody(id) in ds
    ensures id !in free
  {
    hide Judged, OfKind, Ranked;
    var k :| 0 <= k < |ds| && ds[k] == EnumBody(id);
    LegalPrefix(c, free, ds, k);
    LegalSees(c, free, ds[..k]);
  }

  /** Whether a header is legal, with the enums in `free` taken as declared, can be told before it is
      printed: if and only if every named enum in play is required or in `free`, and in the order in
      which the plain recursion prints, every anonymous record behind a pointer asks for nothing but
      what comes before. */
  lemma HeaderLegalIff(c: Base, ord: nat -> nat, free: set<nat>, ids: seq<nat>)
    requires InRange(c.g, ids) && Distinct(ids) && Ranked(c) && Named(c, PlayOf(c, ids))
    requires Ordered(c, ord, PlayOf(c, ids)) && Header(c, ids).Done?
    ensures Header(c, ids).st.out == PlainHeader(c, ord, ids)
    ensures forall d | d in Header(c, ids).st.out :: OfKind(c, d)
    ensures Judged(c, free, Header(c, ids).st.out).Legal? <==>
              EnumsCovered(c, free, ids) && Provided(c, free, PlainHeader(c, ord, ids))
  {
    var ds := Header(c, ids).st.out;
    HeaderOfKind(c, ids);
    hide Ranked, Named, Ordered, PlayOf, Header, Judged, EnumsCovered, Provided, OfKind, PlainHeader, InOrder;
    HeaderIsPlain(c, ord, ids);
    if Judged(c, free, ds).Legal? {
      LegalHasEnums(c, free, ids);
      LegalProvides(c, free, ds);
    }
    if EnumsCovered(c, free, ids) && Provided(c, free, ds) {
      HeaderInOrder(c, ord, free, ids);
      ProvidedIsLegal(c, ord, PlayOf(c, ids), free, ds, |ds|);
      assert ds[..|ds|] == ds;
    }
  }
}
