/** Exactly what a header defines, and exactly when it is legal (`mch_emit_header_with_options` of
    src/emitter.c), with and without expanded pointers. */
module HeaderExact {
  import opened Btf
  import opened CSyntax
  import opened Scope
  import opened Meaning
  import opened Walk
  import opened InPlay
  import opened WalkOnce
  import opened WalkScope
  import opened HeaderScope

  /** What a successful walk has defined, it has followed up, and nothing is left in progress. */
  lemma HeaderFollowed(c: Base, ids: seq<nat>)
    requires Ranked(c) && InRange(c.g, ids) && Distinct(ids) && Header(c, ids).Done?
    ensures var s := Header(c, ids).st;
            && Tally(c, s) && Followed(c, s) && AtRest(s)
            && forall j | j in PlayOf(c, ids).jobs :: Met(c, s, j)
  {
    hide Ranked, InRange, Distinct;
    var jobs, s := HeaderJobs(c.g, ids), Prologue(c.g, ids);
    PrologueOnce(c, ids);
    AllOnce(c, jobs, s);
    assert Followed(c, s);
    AllFollowed(c, jobs, s);
    hide Followed, Met, HeaderJobs, Prologue, PlaySet;
    var t := WalkAll(c, jobs, s).st;
    assert AtRest(t);
    forall j | j in PlayOf(c, ids).jobs
      ensures Met(c, t, j)
    {
      AllMet(c, t, jobs, j);
    }
  }

  /** In every mode the header defines exactly what is in play: the named records and typedefs that
      the required ones lead to, and the required enums. */
  lemma HeaderDefinesPlay(c: Base, ids: seq<nat>)
    requires Ranked(c) && InRange(c.g, ids) && Distinct(ids) && Header(c, ids).Done?
    ensures forall id: nat :: RecordBody(id) in Header(c, ids).st.out <==>
              DefineRecord(id) in PlayOf(c, ids).jobs && id < |c.g| && NamedRecord(c.g[id])
    ensures forall id: nat :: Alias(id) in Header(c, ids).st.out <==>
              DefineTypedef(id) in PlayOf(c, ids).jobs && id < |c.g| && NamedTypedef(c.g[id])
    ensures forall id: nat :: EnumBody(id) in Header(c, ids).st.out <==> id in ids && c.g[id].Enum?
  {
    var jobs, s, k := HeaderJobs(c.g, ids), Prologue(c.g, ids), PlayOf(c, ids).jobs;
    HeaderFollowed(c, ids);
    HeaderOnce(c, ids);
    PlayClosed(c, jobs);
    ProloguePrints(c, k, ids);
    hide HeaderJobs, Prologue, PlaySet, Followed;
    AllPrint(c, k, jobs, s);
    MetPrinted(c, k, Header(c, ids).st);
  }

  lemma MetPrinted(c: Base, k: iset<Job>, s: State)
    requires Ranked(c) && Tally(c, s) && AtRest(s) && PrintedFrom(k, s.out) && forall j | j in k :: Met(c, s, j)
    ensures forall id: nat :: RecordBody(id) in s.out <==> DefineRecord(id) in k && id < |c.g| && NamedRecord(c.g[id])
    ensures forall id: nat :: Alias(id) in s.out <==> DefineTypedef(id) in k && id < |c.g| && NamedTypedef(c.g[id])
  {
    forall id: nat | DefineRecord(id) in k && id < |c.g| && NamedRecord(c.g[id])
      ensures RecordBody(id) in s.out
    {
      assert Met(c, s, DefineRecord(id));
    }
    forall id: nat | DefineTypedef(id) in k && id < |c.g| && NamedTypedef(c.g[id])
      ensures Alias(id) in s.out
    {
      assert Met(c, s, DefineTypedef(id));
    }
  }

  /** Nothing is defined before the first job but enums. */
  lemma ProloguePrints(c: Base, k: iset<Job>, ids: seq<nat>)
    requires InRange(c.g, ids) && Distinct(ids)
    ensures PrintedFrom(k, Prologue(c.g, ids).out)
  {
    PrologueOnce(c, ids);
    hide Prologue;
  }

  lemma DefinedKnown(c: Base, ds: seq<Decl>, start: Env, d: Decl)
    requires Ranked(c) && (forall x | x in ds :: OfKind(c, x)) && Check(start, SaysAll(c, ds)).Legal? && d in ds
    ensures var e := Check(start, SaysAll(c, ds)).env;
            && (d.RecordBody? ==> d.id in e.tags && forall m | m in Body(c, d.id) :: Known(e, CTypeOf(c, m.ty)))
            && (d.Alias? ==> d.id in e.needs && Known(e, CTypeOf(c, c.g[d.id].to)))
    decreases |ds|
  {
    hide CTypeOf, Known, FieldsOf, Body;
    var before, last := ds[..|ds| - 1], ds[|ds| - 1];
    assert ds == before + [last];
    SaysMore(c, before, last);
    CheckMore(start, SaysAll(c, before), Says(c, last));
    var e := Check(start, SaysAll(c, before)).env;
    AcceptedKnown(c, e, last);
    if d != last {
      DefinedKnown(c, before, start, d);
      KnownLater(c, e, Enter(e, Says(c, last)), d);
    }
  }

  lemma KnownLater(c: Base, a: Env, b: Env, d: Decl)
    requires Ranked(c) && OfKind(c, d) && Grows(a, b)
    ensures d.RecordBody? && (forall m | m in Body(c, d.id) :: Known(a, CTypeOf(c, m.ty))) ==>
              forall m | m in Body(c, d.id) :: Known(b, CTypeOf(c, m.ty))
    ensures d.Alias? && Known(a, CTypeOf(c, c.g[d.id].to)) ==> Known(b, CTypeOf(c, c.g[d.id].to))
  {
    hide CTypeOf;
    if d.RecordBody? {
      forall m | m in Body(c, d.id) && Known(a, CTypeOf(c, m.ty))
        ensures Known(b, CTypeOf(c, m.ty))
      {
        KnownGrows(a, b, CTypeOf(c, m.ty));
      }
    } else if d.Alias? && Known(a, CTypeOf(c, c.g[d.id].to)) {
      KnownGrows(a, b, CTypeOf(c, c.g[d.id].to));
    }
  }

  /** A definition that is accepted uses only known types. */
  lemma AcceptedKnown(c: Base, e: Env, d: Decl)
    requires Ranked(c) && OfKind(c, d) && Accepts(e, Says(c, d))
    ensures Grows(e, Enter(e, Says(c, d)))
    ensures var after := Enter(e, Says(c, d));
            && (d.RecordBody? ==> d.id in after.tags && forall m | m in Body(c, d.id) :: Known(after, CTypeOf(c, m.ty)))
            && (d.Alias? ==> d.id in after.needs && Known(after, CTypeOf(c, c.g[d.id].to)))
  {
    hide CTypeOf, Known;
    var after := Enter(e, Says(c, d));
    if d.RecordBody? {
      var inside := e.(tags := e.tags + {d.id});
      forall m | m in Body(c, d.id)
        ensures Known(after, CTypeOf(c, m.ty))
      {
        var i :| 0 <= i < |Body(c, d.id)| && Body(c, d.id)[i] == m;
        FieldAt(c, Body(c, d.id), i);
        assert FieldsOf(c, Body(c, d.id))[i] in FieldsOf(c, Body(c, d.id));
        KnownGrows(inside, after, CTypeOf(c, m.ty));
      }
    } else if d.Alias? {
      KnownGrows(e, after, CTypeOf(c, c.g[d.id].to));
    }
  }

  /** Jobs on types that the checker knows. */
  ghost function KnownJobs(c: Base, e: Env, k: iset<Job>): iset<Job>
    requires Ranked(c)
  {
    iset j | j in k && (j.Hard? || j.Soft? ==> Known(e, CTypeOf(c, j.id)))
  }

  /** What is known of a type is known of the types its text is made of. */
  lemma KnownLeads(c: Base, e: Env, j: Job, n: Job)
    requires Ranked(c) && PlanOf(c, j).Jobs? && n in PlanOf(c, j).jobs && (n.Hard? || n.Soft?)
    requires Known(e, CTypeOf(c, j.id))
    requires c.g[j.id].Typedef? ==> Known(e, CTypeOf(c, c.g[j.id].to))
    ensures Known(e, CTypeOf(c, n.id))
  {
    var id := j.id;
    if id == 0 {
      VoidLeads(c, j);
      return;
    }
    match c.g[id]
    case Qualified(q, to) => QualifyKeeps(e, {q}, CTypeOf(c, to));
    case Record(_, tag, _) => BodyKnown(c, e, id, n);
    case Proto(ret, params) =>
      if j.Soft? && n != Soft(ret) {
        ParamKnown(c, e, id, n);
      }
    case _ =>
  }

  /** Void leads to nothing. */
  lemma VoidLeads(c: Base, j: Job)
    requires PlanOf(c, j).Jobs? && j.id == 0
    ensures PlanOf(c, j).jobs == []
  {
  }

  lemma BodyKnown(c: Base, e: Env, id: nat, n: Job)
    requires Ranked(c) && 0 < id < |c.g| && c.g[id].Record? && c.g[id].tag == "" && Known(e, CTypeOf(c, id))
    requires n in Hards(Body(c, id))
    ensures Known(e, CTypeOf(c, n.id))
  {
    hide CTypeOf, Known, FieldsOf;
    var body := Body(c, id);
    var i :| 0 <= i < |body| && Hards(body)[i] == n;
    OneFieldKnown(c, e, id, body[i]);
  }

  lemma OneFieldKnown(c: Base, e: Env, id: nat, m: Member)
    requires Ranked(c) && 0 < id < |c.g| && c.g[id].Record? && c.g[id].tag == "" && m in Body(c, id)
    requires Known(e, CTypeOf(c, id))
    ensures Known(e, CTypeOf(c, m.ty)) && Complete(e, CTypeOf(c, m.ty))
  {
    hide Needs;
    var i :| 0 <= i < |Body(c, id)| && Body(c, id)[i] == m;
    FieldAt(c, Body(c, id), i);
    assert FieldsOf(c, Body(c, id))[i] in FieldsOf(c, Body(c, id));
  }

  lemma ParamKnown(c: Base, e: Env, id: nat, n: Job)
    requires Ranked(c) && 0 < id < |c.g| && c.g[id].Proto? && Known(e, CTypeOf(c, id)) && n in Softs(c.g[id].params)
    ensures Known(e, CTypeOf(c, n.id))
  {
    hide CTypeOf, Known, ParamsOf;
    var params := c.g[id].params;
    var i :| 0 <= i < |params| && Softs(params)[i] == n;
    OneParamKnown(c, e, id, params[i]);
  }

  lemma OneParamKnown(c: Base, e: Env, id: nat, p: Param)
    requires Ranked(c) && 0 < id < |c.g| && c.g[id].Proto? && p in c.g[id].params && Known(e, CTypeOf(c, id))
    ensures Known(e, CTypeOf(c, p.ty))
  {
    var params, ps := c.g[id].params, ParamsOf(c, c.g[id].params, 0);
    assert CTypeOf(c, id) == Function(CTypeOf(c, c.g[id].ret), ps);
    assert forall q | q in ps :: Known(e, q.ty);
    hide CTypeOf, Known, ParamsOf;
    var i :| 0 <= i < |params| && params[i] == p;
    ParamAt(c, params, 0, i);
    assert ps[i] in ps;
  }

  /** In a legal header every type in play is known at the end. */
  lemma PlayKnown(c: Base, ids: seq<nat>, start: Env, j: Job)
    requires Ranked(c) && InRange(c.g, ids) && Distinct(ids) && Header(c, ids).Done?
    requires (forall d | d in Header(c, ids).st.out :: OfKind(c, d))
    requires Check(start, SaysAll(c, Header(c, ids).st.out)).Legal?
    requires j in PlayOf(c, ids).jobs && (j.Hard? || j.Soft?)
    ensures Known(Check(start, SaysAll(c, Header(c, ids).st.out)).env, CTypeOf(c, j.id))
  {
    hide Ranked, InRange, Distinct, OfKind;
    var jobs, k := HeaderJobs(c.g, ids), PlayOf(c, ids).jobs;
    var ds := Header(c, ids).st.out;
    var e := Check(start, SaysAll(c, ds)).env;
    PlayClosed(c, jobs);
    HeaderDefinesPlay(c, ids);
    JobsDefine(c.g, ids);
    hide HeaderJobs, PlaySet, Header, CTypeOf, Known, Check, Ranked, InRange, Distinct, SaysAll, OfKind;
    forall i, n | i in KnownJobs(c, e, k) && Leads(c, i, n)
      ensures n in KnownJobs(c, e, k)
    {
      LeadsKnown(c, ds, start, k, i, n);
    }
    PlayIsLeast(c, jobs, KnownJobs(c, e, k));
  }

  lemma JobsDefine(g: Graph, ids: seq<nat>)
    requires InRange(g, ids)
    ensures forall j | j in HeaderJobs(g, ids) :: j.DefineRecord? || j.DefineTypedef?
  {
    hide HeaderJobs;
    forall j | j in HeaderJobs(g, ids)
      ensures j.DefineRecord? || j.DefineTypedef?
    {
      JobsAre(g, ids, j);
    }
  }

  lemma LeadsKnown(c: Base, ds: seq<Decl>, start: Env, k: iset<Job>, i: Job, n: Job)
    requires Ranked(c) && (forall d | d in ds :: OfKind(c, d)) && Check(start, SaysAll(c, ds)).Legal? && JobClosed(c, k)
    requires forall id: nat | DefineRecord(id) in k && id < |c.g| && NamedRecord(c.g[id]) :: RecordBody(id) in ds
    requires forall id: nat | DefineTypedef(id) in k && id < |c.g| && NamedTypedef(c.g[id]) :: Alias(id) in ds
    requires var e := Check(start, SaysAll(c, ds)).env; i in KnownJobs(c, e, k) && Leads(c, i, n)
    ensures n in KnownJobs(c, Check(start, SaysAll(c, ds)).env, k)
  {
    hide CTypeOf, Known, Check, SaysAll, OfKind;
    var e := Check(start, SaysAll(c, ds)).env;
    if n.Hard? || n.Soft? {
      if PlanOf(c, i).Define? {
        DefinedKnown(c, ds, start, if i.DefineRecord? then RecordBody(i.id) else Alias(i.id));
      } else {
        if i.Hard? && c.g[i.id].Typedef? {
          TypedefTargetKnown(c, ds, start, k, i.id);
        }
        KnownLeads(c, e, i, n);
      }
    }
  }

  lemma TypedefTargetKnown(c: Base, ds: seq<Decl>, start: Env, k: iset<Job>, id: nat)
    requires Ranked(c) && (forall d | d in ds :: OfKind(c, d)) && Check(start, SaysAll(c, ds)).Legal? && JobClosed(c, k)
    requires forall i: nat | DefineTypedef(i) in k && i < |c.g| && NamedTypedef(c.g[i]) :: Alias(i) in ds
    requires 0 < id < |c.g| && c.g[id].Typedef? && Hard(id) in k
    requires Known(Check(start, SaysAll(c, ds)).env, CTypeOf(c, id))
    ensures Known(Check(start, SaysAll(c, ds)).env, CTypeOf(c, c.g[id].to))
  {
    hide Check, SaysAll, OfKind;
    if c.g[id].alias != "" {
      assert Leads(c, Hard(id), DefineTypedef(id));
      DefinedKnown(c, ds, start, Alias(id));
    }
  }

  lemma EnumsPrinted(c: Base, ds: seq<Decl>, start: Env)
    requires Ranked(c) && (forall d | d in ds :: OfKind(c, d)) && Check(start, SaysAll(c, ds)).Legal?
    ensures forall id | id in Check(start, SaysAll(c, ds)).env.enums :: id in start.enums || EnumBody(id) in ds
    decreases |ds|
  {
    if ds != [] {
      var before, last := ds[..|ds| - 1], ds[|ds| - 1];
      assert ds == before + [last];
      SaysMore(c, before, last);
      CheckMore(start, SaysAll(c, before), Says(c, last));
      hide Accepts, Known, CTypeOf, FieldsOf, OfKind;
      EnumsPrinted(c, before, start);
    }
  }

  lemma HeaderOfKind(c: Base, ids: seq<nat>)
    requires Ranked(c) && InRange(c.g, ids) && Distinct(ids) && Header(c, ids).Done?
    ensures forall d | d in Header(c, ids).st.out :: OfKind(c, d)
  {
    HeaderFollowed(c, ids);
    hide Followed, Header, AtRest, PlayOf, Met;
  }

  lemma EnumNameKnown(c: Base, e: Env, j: Job)
    requires Ranked(c) && NamesEnum(c, j) && j.id > 0 && Known(e, CTypeOf(c, j.id))
    ensures j.id in e.enums
  {
  }
}
