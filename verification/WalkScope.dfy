/** The hypotheses on what is in play, and when the scope checker is ready for a type. */
module WalkScope {
  import opened Btf
  import opened CSyntax
  import opened Scope
  import opened Meaning
  import opened Declarators
  import opened Walk
  import opened WalkOnce
  import opened InPlay

  /** What a header has before a job is done: the tags and enums that it declares first, and the
      records and typedefs that it defined. */
  datatype Seen = Seen(declared: set<nat>, defined: set<nat>)

  /** The jobs in play, and what has been seen when they are done. */
  datatype Play = Play(ghost jobs: iset<Job>, seen: Seen)

  /** Typedefs and forward declarations have names. */
  ghost predicate Named(c: Base, p: Play) {
    forall j | j in p.jobs && j.id < |c.g| ::
      (c.g[j.id].Typedef? ==> c.g[j.id].alias != "") && (c.g[j.id].Fwd? ==> c.g[j.id].tag != "")
  }

  /** All names in a type, and all objects in it if it is used whole, are known by what has been
      seen: it asks for no further definition. */
  ghost predicate Still(c: Base, seen: Seen, id: nat, whole: bool)
    requires Ranked(c)
    decreases Height(c, id)
  {
    (0 < id < |c.g|) ==>
      match c.g[id]
      case Qualified(_, to) => Still(c, seen, to, whole)
      case Tag(_, to) => Still(c, seen, to, whole)
      case Ptr(to) => Still(c, seen, to, false)
      case Array(elem, _, _) => Still(c, seen, elem, whole)
      case Typedef(alias, to) =>
        if alias != "" then id in seen.defined && (whole ==> Still(c, seen, to, true))
        else Still(c, seen, to, whole)
      case Proto(ret, params) =>
        && Still(c, seen, ret, false)
        && forall p | p in params :: assert Follows(c, id, p.ty); Still(c, seen, p.ty, false)
      case Record(_, tag, _) =>
        if tag != "" then id in seen.defined || (!whole && id in seen.declared)
        else forall m | m in Body(c, id) :: assert Follows(c, id, m.ty); Still(c, seen, m.ty, true)
      case Fwd(_, tag) => !whole && tag != "" && id in seen.declared
      case Enum(_, tag, _, _, _) => tag != "" ==> id in seen.declared
      case _ => true
  }

  /** The members of an anonymous record behind a pointer or in a prototype, which are printed but
      not walked, ask for nothing. */
  ghost predicate StillPointees(c: Base, p: Play)
    requires Ranked(c)
  {
    forall j | j in p.jobs && j.Soft? && 0 < j.id < |c.g| && c.g[j.id].Record? && c.g[j.id].tag == "" ::
      forall m | m in Body(c, j.id) :: Still(c, p.seen, m.ty, true)
  }

  /** Every definition a job finishes has a number below `b`. A bare forward declaration can
      never be completed, so no number makes a by-value use of it precede anything. */
  ghost predicate Under(c: Base, ord: nat -> nat, job: Job, b: nat)
    requires Ranked(c)
    decreases Weight(c, job)
  {
    match PlanOf(c, job)
    case Jobs(jobs) => PlanIsLighter(c, job); forall j | j in jobs :: Under(c, ord, j, b)
    case Declaration => !job.Hard?
    case Define => ord(job.id) < b
    case Unknown => true
  }

  /** The numbering of the original source: it drops from a definition to all it rests on. */
  ghost predicate Ordered(c: Base, ord: nat -> nat, p: Play)
    requires Ranked(c)
  {
    forall j, n | j in p.jobs && (j.DefineRecord? || j.DefineTypedef?) && Leads(c, j, n) :: Under(c, ord, n, ord(j.id))
  }

  /** A set of types that the shown edges do not leave. */
  ghost predicate Closed(c: Base, u: set<nat>) {
    && 0 in u
    && (forall id, to | id in u && id < |c.g| && Follows(c, id, to) :: to in u)
    && (forall id, m | id in u && id < |c.g| && c.g[id].Record? && m in Body(c, id) :: m.ty in u)
  }

  /** Those of them that the success of the walk rests on. */
  ghost predicate Numbered(c: Base, ord: nat -> nat, p: Play) {
    Ranked(c) && Ordered(c, ord, p) && JobClosed(c, p.jobs)
  }

  ghost function Says(c: Base, d: Decl): CDecl
    requires Ranked(c) && OfKind(c, d)
  {
    match d
    case Forward(id) => ForwardTag(c.g[id].isUnion, id)
    case EnumBody(id) => EnumDefinition(id)
    case RecordBody(id) => RecordDefinition(c.g[id].isUnion, id, FieldsOf(c, Body(c, id)))
    case Alias(id) => TypedefOf(id, CTypeOf(c, c.g[id].to))
  }

  ghost function SaysAll(c: Base, ds: seq<Decl>): (cs: seq<CDecl>)
    requires Ranked(c) && forall d | d in ds :: OfKind(c, d)
    ensures |cs| == |ds|
  {
    if ds == [] then [] else SaysAll(c, ds[..|ds| - 1]) + [Says(c, ds[|ds| - 1])]
  }

  lemma SaysMore(c: Base, ds: seq<Decl>, d: Decl)
    requires Ranked(c) && OfKind(c, d) && forall e | e in ds :: OfKind(c, e)
    ensures forall e | e in ds + [d] :: OfKind(c, e)
    ensures SaysAll(c, ds + [d]) == SaysAll(c, ds) + [Says(c, d)]
  {
    assert (ds + [d])[..|ds|] == ds;
  }

  /** The symbol table says what the graph says. */
  ghost predicate Sound(c: Base, e: Env)
    requires Ranked(c)
  {
    forall a | a in e.needs ::
      && a < |c.g| && NamedTypedef(c.g[a])
      && Known(e, CTypeOf(c, c.g[a].to))
      && e.needs[a] == Needs(e, CTypeOf(c, c.g[a].to))
  }

  /** What has been seen is in the symbol table, and so is every enum in play. */
  ghost predicate Listed(c: Base, p: Play, e: Env) {
    && (forall id | id in p.seen.declared && id < |c.g| && Taggable(c.g[id]) :: id in e.tags)
    && (forall id | id in p.seen.declared && id < |c.g| && c.g[id].Enum? :: id in e.enums)
    && (forall id | id in p.seen.defined && id < |c.g| && NamedRecord(c.g[id]) :: id in e.tags && id in e.complete)
    && (forall id | id in p.seen.defined && id < |c.g| && NamedTypedef(c.g[id]) :: id in e.needs)
    && (forall j | j in p.jobs && NamesEnum(c, j) :: j.id in e.enums)
  }

  /** A job on a type whose text names an enum. */
  ghost predicate NamesEnum(c: Base, j: Job) {
    (j.Hard? || j.Soft?) && j.id < |c.g| && c.g[j.id].Enum? && c.g[j.id].tag != ""
  }

  /** What a job has achieved when it is done. */
  ghost predicate Ready(c: Base, e: Env, job: Job)
    requires Ranked(c)
  {
    match job
    case Hard(id) => Known(e, CTypeOf(c, id)) && Complete(e, CTypeOf(c, id))
    case Soft(id) => Known(e, CTypeOf(c, id))
    case DefineRecord(id) => id in e.complete && id in e.tags
    case DefineTypedef(id) => id in e.needs
  }

  /** A job in play; one that defines is about a type it can define. */
  ghost predicate Fine(c: Base, p: Play, job: Job) {
    && job in p.jobs
    && (job.DefineRecord? ==> job.id < |c.g| && NamedRecord(c.g[job.id]))
    && (job.DefineTypedef? ==> job.id < |c.g| && c.g[job.id].Typedef?)
  }

  /** Everything in progress comes at or after `b` in the numbering. */
  ghost predicate Above(c: Base, ord: nat -> nat, s: State, b: nat)
    requires Fits(c, s)
  {
    forall i | 0 <= i < |c.g| && (s.rec[i] == Grey || s.td[i] == Grey) :: b <= ord(i)
  }

  lemma FieldAt(c: Base, members: seq<Member>, i: nat)
    requires Ranked(c) && i < |members|
    ensures FieldsOf(c, members)[i] == Field(members[i].name, CTypeOf(c, members[i].ty), members[i].bits)
    decreases i
  {
    if i > 0 {
      FieldAt(c, members[1..], i - 1);
    }
  }

  lemma ParamAt(c: Base, params: seq<Param>, from: nat, i: nat)
    requires Ranked(c) && i < |params|
    ensures ParamsOf(c, params, from)[i] == CParam(ParamName(params[i].name, from + i), CTypeOf(c, params[i].ty))
    decreases i
  {
    if i > 0 {
      ParamAt(c, params[1..], from + 1, i - 1);
    }
  }

  lemma FieldsReady(c: Base, e: Env, members: seq<Member>)
    requires Ranked(c) && forall j | j in Hards(members) :: Ready(c, e, j)
    ensures forall f | f in FieldsOf(c, members) :: Known(e, f.ty) && Complete(e, f.ty)
  {
    forall i | 0 <= i < |members|
      ensures Known(e, FieldsOf(c, members)[i].ty) && Complete(e, FieldsOf(c, members)[i].ty)
    {
      FieldAt(c, members, i);
      assert Hards(members)[i] in Hards(members);
    }
  }

  lemma ParamsReady(c: Base, e: Env, params: seq<Param>)
    requires Ranked(c) && forall j | j in Softs(params) :: Ready(c, e, j)
    ensures forall p | p in ParamsOf(c, params, 0) :: Known(e, p.ty)
  {
    forall i | 0 <= i < |params|
      ensures Known(e, ParamsOf(c, params, 0)[i].ty)
    {
      ParamAt(c, params, 0, i);
      assert Softs(params)[i] in Softs(params);
    }
  }

  /** A type that asks for nothing is known, and whole if used so, by what has been seen. */
  lemma {:induction false} StillKnown(c: Base, p: Play, e: Env, id: nat, whole: bool)
    requires Ranked(c) && Sound(c, e) && Listed(c, p, e) && Still(c, p.seen, id, whole)
    ensures Known(e, CTypeOf(c, id)) && (whole ==> Complete(e, CTypeOf(c, id)))
    decreases Height(c, id), 1
  {
    hide Listed, Sound;
    if 0 < id < |c.g| {
      match c.g[id]
      case Qualified(q, to) =>
        StillKnown(c, p, e, to, whole);
        QualifyKeeps(e, {q}, CTypeOf(c, to));
      case Tag(_, to) => StillKnown(c, p, e, to, whole);
      case Ptr(to) => StillKnown(c, p, e, to, false);
      case Array(elem, _, _) => StillKnown(c, p, e, elem, whole);
      case Typedef(alias, to) => StillTypedef(c, p, e, id, whole);
      case Proto(ret, params) =>
        StillKnown(c, p, e, ret, false);
        forall q | q in params
          ensures Known(e, CTypeOf(c, q.ty))
        {
          assert Follows(c, id, q.ty);
          StillKnown(c, p, e, q.ty, false);
        }
        ParamsKnown(c, e, params);
      case Record(_, tag, _) =>
        if tag == "" {
          forall m | m in Body(c, id)
            ensures Known(e, CTypeOf(c, m.ty)) && Complete(e, CTypeOf(c, m.ty))
          {
            assert Follows(c, id, m.ty);
            StillKnown(c, p, e, m.ty, true);
          }
          FieldsKnown(c, e, Body(c, id));
        } else {
          SeenListed(c, p, e, id);
        }
      case _ => SeenListed(c, p, e, id);
    }
  }

  lemma {:induction false} StillTypedef(c: Base, p: Play, e: Env, id: nat, whole: bool)
    requires Ranked(c) && Sound(c, e) && Listed(c, p, e) && Still(c, p.seen, id, whole)
    requires 0 < id < |c.g| && c.g[id].Typedef?
    ensures Known(e, CTypeOf(c, id)) && (whole ==> Complete(e, CTypeOf(c, id)))
    decreases Height(c, id), 0
  {
    hide Listed;
    var to := c.g[id].to;
    if c.g[id].alias == "" {
      StillKnown(c, p, e, to, whole);
    } else {
      SeenListed(c, p, e, id);
      if whole {
        StillKnown(c, p, e, to, true);
      }
    }
  }

  lemma SeenListed(c: Base, p: Play, e: Env, id: nat)
    requires Listed(c, p, e) && id < |c.g|
    ensures id in p.seen.declared && Taggable(c.g[id]) ==> id in e.tags
    ensures id in p.seen.declared && c.g[id].Enum? ==> id in e.enums
    ensures id in p.seen.defined && NamedRecord(c.g[id]) ==> id in e.tags && id in e.complete
    ensures id in p.seen.defined && NamedTypedef(c.g[id]) ==> id in e.needs
  {
  }

  lemma FieldsKnown(c: Base, e: Env, members: seq<Member>)
    requires Ranked(c) && forall m | m in members :: Known(e, CTypeOf(c, m.ty)) && Complete(e, CTypeOf(c, m.ty))
    ensures forall f | f in FieldsOf(c, members) :: Known(e, f.ty) && Complete(e, f.ty)
  {
    hide Known, Complete, CTypeOf;
    forall i | 0 <= i < |members|
      ensures Known(e, FieldsOf(c, members)[i].ty) && Complete(e, FieldsOf(c, members)[i].ty)
    {
      FieldAt(c, members, i);
    }
  }

  lemma ParamsKnown(c: Base, e: Env, params: seq<Param>)
    requires Ranked(c) && forall p | p in params :: Known(e, CTypeOf(c, p.ty))
    ensures forall p | p in ParamsOf(c, params, 0) :: Known(e, p.ty)
  {
    hide Known, CTypeOf;
    forall i | 0 <= i < |params|
      ensures Known(e, ParamsOf(c, params, 0)[i].ty)
    {
      ParamAt(c, params, 0, i);
    }
  }

  lemma HardReady(c: Base, p: Play, e: Env, id: nat)
    requires Ranked(c) && Named(c, p) && Sound(c, e) && Listed(c, p, e) && Hard(id) in p.jobs && 0 < id < |c.g|
    requires PlanOf(c, Hard(id)).Jobs? && forall j | j in PlanOf(c, Hard(id)).jobs :: Ready(c, e, j)
    ensures Ready(c, e, Hard(id))
  {
    var jobs := PlanOf(c, Hard(id)).jobs;
    assert NamesEnum(c, Hard(id)) ==> id in e.enums;
    assert c.g[id].Typedef? ==> c.g[id].alias != "";
    hide Listed, Named;
    if |jobs| > 0 {
      assert jobs[0] in jobs && jobs[|jobs| - 1] in jobs;
    }
    match c.g[id]
    case Qualified(q, to) => QualifyKeeps(e, {q}, CTypeOf(c, to));
    case Typedef(alias, to) => assert jobs[0] == Hard(to) && jobs[1] == DefineTypedef(id);
    case Record(_, tag, members) =>
      if tag == "" {
        FieldsReady(c, e, Body(c, id));
      }
    case _ =>
  }

  lemma SoftReady(c: Base, p: Play, e: Env, id: nat)
    requires Ranked(c) && Named(c, p) && Listed(c, p, e) && Soft(id) in p.jobs && 0 < id < |c.g|
    requires PlanOf(c, Soft(id)).Jobs? && forall j | j in PlanOf(c, Soft(id)).jobs :: Ready(c, e, j)
    ensures Ready(c, e, Soft(id))
  {
    var jobs := PlanOf(c, Soft(id)).jobs;
    assert NamesEnum(c, Soft(id)) ==> id in e.enums;
    assert c.g[id].Typedef? ==> c.g[id].alias != "";
    if |jobs| > 0 {
      assert jobs[0] in jobs;
    }
    match c.g[id]
    case Qualified(q, to) => QualifyKeeps(e, {q}, CTypeOf(c, to));
    case Proto(ret, params) =>
      assert forall j | j in Softs(params) :: j in jobs;
      ParamsReady(c, e, params);
    case _ =>
  }

  lemma AboveKept(c: Base, ord: nat -> nat, s: State, t: State, b: nat)
    requires Fits(c, s) && Fits(c, t) && SameGreys(s, t) && Above(c, ord, s, b)
    ensures Above(c, ord, t, b)
  {
  }

  lemma SoundGrows(c: Base, a: Env, b: Env)
    requires Ranked(c) && Sound(c, a) && Grows(a, b) && b.needs.Keys == a.needs.Keys
    ensures Sound(c, b)
  {
    forall k | k in b.needs
      ensures Known(b, CTypeOf(c, c.g[k].to)) && b.needs[k] == Needs(b, CTypeOf(c, c.g[k].to))
    {
      KnownGrows(a, b, CTypeOf(c, c.g[k].to));
      NeedsStable(a, b, CTypeOf(c, c.g[k].to));
    }
  }

  lemma PlanFine(c: Base, u: Play, job: Job, j: Job)
    requires JobClosed(c, u.jobs) && Fine(c, u, job)
    requires PlanOf(c, job).Jobs? && j in PlanOf(c, job).jobs
    ensures Fine(c, u, j)
  {
    assert Leads(c, job, j);
    if c.g[job.id].Proto? && job.Soft? {
      assert j.Soft?;
    }
  }

  lemma SoundTypedef(c: Base, e: Env, id: nat)
    requires Ranked(c) && Sound(c, e) && id !in e.needs
    requires id < |c.g| && NamedTypedef(c.g[id]) && Known(e, CTypeOf(c, c.g[id].to))
    ensures Sound(c, Enter(e, TypedefOf(id, CTypeOf(c, c.g[id].to))))
  {
    var after := Enter(e, TypedefOf(id, CTypeOf(c, c.g[id].to)));
    forall k | k in after.needs
      ensures Known(after, CTypeOf(c, c.g[k].to)) && after.needs[k] == Needs(after, CTypeOf(c, c.g[k].to))
    {
      KnownGrows(e, after, CTypeOf(c, c.g[k].to));
      NeedsStable(e, after, CTypeOf(c, c.g[k].to));
    }
  }

  lemma AliasAccepted(c: Base, u: Play, e: Env, id: nat)
    requires Ranked(c) && Named(c, u) && JobClosed(c, u.jobs) && id < |c.g| && NamedTypedef(c.g[id])
    requires Target(c.g, c.g[id].to) in u.jobs && Ready(c, e, Target(c.g, c.g[id].to)) && id !in e.needs
    ensures Known(e, CTypeOf(c, c.g[id].to)) && Accepts(e, TypedefOf(id, CTypeOf(c, c.g[id].to)))
  {
    hide CTypeOf, Known, NeedsHard;
    ArrayTargets(c, u, c.g[id].to, 0);
  }

  /** Only a target walked by value is an array. */
  lemma ArrayTargets(c: Base, u: Play, to: nat, depth: nat)
    requires Ranked(c) && Named(c, u) && JobClosed(c, u.jobs) && depth <= CHAIN_LIMIT
    requires !NeedsHard(c.g, to, depth) ==> Soft(to) in u.jobs
    ensures CTypeOf(c, to).ArrayOf? ==> NeedsHard(c.g, to, depth)
    decreases CHAIN_LIMIT - depth
  {
    if 0 < to < |c.g| && !NeedsHard(c.g, to, depth) {
      match c.g[to]
      case Qualified(_, next) =>
        assert Leads(c, Soft(to), Soft(next));
        ArrayTargets(c, u, next, depth + 1);
      case Tag(_, next) =>
        assert Leads(c, Soft(to), Soft(next));
        ArrayTargets(c, u, next, depth + 1);
      case _ =>
        assert Soft(to) in u.jobs;
    }
  }

  /** The members of a record in play are in play, and come before it. */
  lemma BodyFine(c: Base, ord: nat -> nat, u: Play, id: nat)
    requires Numbered(c, ord, u) && id < |c.g| && NamedRecord(c.g[id]) && DefineRecord(id) in u.jobs
    ensures forall j | j in Hards(Body(c, id)) :: Under(c, ord, j, ord(id)) && Fine(c, u, j)
  {
    hide Under;
    assert forall j | j in Hards(Body(c, id)) :: Leads(c, DefineRecord(id), j) && j.Hard?;
  }

  /** So does the target of a typedef in play. */
  lemma TargetFine(c: Base, ord: nat -> nat, u: Play, id: nat)
    requires Numbered(c, ord, u) && id < |c.g| && NamedTypedef(c.g[id]) && DefineTypedef(id) in u.jobs
    ensures Under(c, ord, Target(c.g, c.g[id].to), ord(id)) && Fine(c, u, Target(c.g, c.g[id].to))
  {
    hide Under, NeedsHard;
    assert Leads(c, DefineTypedef(id), Target(c.g, c.g[id].to));
  }
}
