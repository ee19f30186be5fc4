/** The walk without its colours: what the recursion alone prints, with all repetitions. The coloured
    walk prints the first occurrences of it, so the order of a header is known before it is printed. */
module PlainWalk {
  import opened Btf
  import opened Meaning
  import opened Walk
  import opened WalkOnce
  import opened InPlay
  import opened WalkScope
  import opened HeaderScope
  import opened HeaderSuccess

  /** What a job prints if nothing is remembered. Definitions not numbered below `b` are cut off. */
  ghost function Unfold(c: Base, ord: nat -> nat, b: nat, job: Job): seq<Decl>
    requires Ranked(c)
    decreases b, Weight(c, job), 0, 0
  {
    match PlanOf(c, job)
    case Unknown => []
    case Declaration => if Taggable(c.g[job.id]) then [Forward(job.id)] else []
    case Jobs(jobs) => PlanIsLighter(c, job); UnfoldAll(c, ord, b, jobs)
    case Define =>
      var id := job.id;
      if ord(id) >= b then []
      else if job.DefineRecord? && NamedRecord(c.g[id]) then
        UnfoldAll(c, ord, ord(id), Hards(Body(c, id))) + [RecordBody(id)]
      else if job.DefineTypedef? && NamedTypedef(c.g[id]) then
        Unfold(c, ord, ord(id), Target(c.g, c.g[id].to)) + [Alias(id)]
      else []
  }

  ghost function UnfoldAll(c: Base, ord: nat -> nat, b: nat, jobs: seq<Job>): seq<Decl>
    requires Ranked(c)
    decreases b, TopWeight(c, jobs), 1, |jobs|
  {
    if jobs == [] then [] else Unfold(c, ord, b, jobs[0]) + UnfoldAll(c, ord, b, jobs[1..])
  }

  /** What comes before a declaration. */
  ghost function Basis(c: Base, ord: nat -> nat, d: Decl): seq<Decl>
    requires Ranked(c) && OfKind(c, d)
  {
    match d
    case RecordBody(id) => UnfoldAll(c, ord, ord(id), Hards(Body(c, id)))
    case Alias(id) => Unfold(c, ord, ord(id), Target(c.g, c.g[id].to))
    case _ => []
  }

  /** Declarations, and then the first occurrences of others. */
  function Fresh(out: seq<Decl>, ds: seq<Decl>): (all: seq<Decl>)
    ensures out <= all && forall d :: d in all <==> d in out || d in ds
    decreases |ds|
  {
    if ds == [] then out else Fresh(if ds[0] in out then out else out + [ds[0]], ds[1..])
  }

  lemma {:induction false} FreshBoth(out: seq<Decl>, a: seq<Decl>, b: seq<Decl>)
    ensures Fresh(out, a + b) == Fresh(Fresh(out, a), b)
    decreases |a|
  {
    if a == [] {
      assert a + b == b;
    } else {
      assert (a + b)[1..] == a[1..] + b;
      FreshBoth(if a[0] in out then out else out + [a[0]], a[1..], b);
    }
  }

  lemma {:induction false} FreshNothing(out: seq<Decl>, ds: seq<Decl>)
    requires forall d | d in ds :: d in out
    ensures Fresh(out, ds) == out
    decreases |ds|
  {
    if ds != [] {
      FreshNothing(out, ds[1..]);
    }
  }

  lemma FreshOne(out: seq<Decl>, d: Decl)
    ensures Fresh(out, [d]) == if d in out then out else out + [d]
  {
    var more := if d in out then out else out + [d];
    assert [d][1..] == [];
    assert Fresh(more, []) == more;
  }

  /** Every declaration comes after all that comes before it in the recursion. */
  ghost predicate Nested(c: Base, ord: nat -> nat, out: seq<Decl>)
    requires Ranked(c) && forall d | d in out :: OfKind(c, d)
  {
    forall k | 0 <= k < |out| :: forall d | d in Basis(c, ord, out[k]) :: d in out[..k]
  }

  lemma NestedMore(c: Base, ord: nat -> nat, out: seq<Decl>, d: Decl)
    requires Ranked(c) && (forall x | x in out :: OfKind(c, x)) && OfKind(c, d)
    requires Nested(c, ord, out) && forall x | x in Basis(c, ord, d) :: x in out
    ensures Nested(c, ord, out + [d])
  {
    hide Basis, OfKind;
    var more := out + [d];
    forall k, x | 0 <= k < |more| && x in Basis(c, ord, more[k])
      ensures x in more[..k]
    {
      if k < |out| {
        assert more[..k] == out[..k];
      } else {
        assert more[..k] == out;
      }
    }
  }

  lemma NestedHas(c: Base, ord: nat -> nat, out: seq<Decl>, d: Decl)
    requires Ranked(c) && (forall x | x in out :: OfKind(c, x)) && Nested(c, ord, out) && d in out
    ensures forall x | x in Basis(c, ord, d) :: x in out
  {
    hide Basis, OfKind;
    var k :| 0 <= k < |out| && out[k] == d;
    forall x | x in Basis(c, ord, d)
      ensures x in out
    {
      assert x in out[..k];
    }
  }

  /** The state is consistent, and what was printed is nested. */
  ghost predicate Tidy(c: Base, ord: nat -> nat, s: State) {
    Ranked(c) && Tally(c, s) && Nested(c, ord, s.out)
  }

  /** The coloured walk adds the first occurrences of what the plain one prints. */
  ghost predicate Adds(c: Base, ord: nat -> nat, s: State, t: State, ds: seq<Decl>) {
    Tidy(c, ord, t) && t.out == Fresh(s.out, ds)
  }

  lemma AddsBoth(c: Base, ord: nat -> nat, s: State, t: State, v: State, a: seq<Decl>, b: seq<Decl>)
    requires Adds(c, ord, s, t, a) && Adds(c, ord, t, v, b)
    ensures Adds(c, ord, s, v, a + b)
  {
    hide Tidy;
    FreshBoth(s.out, a, b);
  }

  lemma AddsNothing(c: Base, ord: nat -> nat, s: State, ds: seq<Decl>)
    requires Tidy(c, ord, s) && forall d | d in ds :: d in s.out
    ensures Adds(c, ord, s, s, ds)
  {
    hide Tidy;
    FreshNothing(s.out, ds);
  }

  /** A declaration is added after all that comes before it. */
  lemma AddsOne(c: Base, ord: nat -> nat, s: State, t: State, v: State, d: Decl)
    requires Ranked(c) && OfKind(c, d) && Adds(c, ord, s, t, Basis(c, ord, d)) && d !in t.out
    requires Tally(c, v) && v.out == t.out + [d]
    ensures Adds(c, ord, s, v, Basis(c, ord, d) + [d])
  {
    hide Basis, Consistent, Nested;
    FreshBoth(s.out, Basis(c, ord, d), [d]);
    FreshOne(t.out, d);
    KindsOf(c, t);
    NestedMore(c, ord, t.out, d);
  }

  lemma KindsOf(c: Base, s: State)
    requires Tally(c, s)
    ensures forall d | d in s.out :: OfKind(c, d)
  {
  }

  lemma DeclareAdds(c: Base, ord: nat -> nat, id: nat, s: State)
    requires Tidy(c, ord, s) && id < |c.g|
    ensures Adds(c, ord, s, Declare(c.g, id, s), if Taggable(c.g[id]) then [Forward(id)] else [])
  {
    DeclareOnce(c, id, s);
    var t := Declare(c.g, id, s);
    assert Taggable(c.g[id]) ==> (s.fwd[id] <==> Forward(id) in s.out);
    hide Nested, Consistent;
    if Taggable(c.g[id]) {
      FreshOne(s.out, Forward(id));
      if !s.fwd[id] {
        KindsOf(c, s);
        NestedMore(c, ord, s.out, Forward(id));
      }
    }
  }

  lemma {:induction false} JobAdds(c: Base, ord: nat -> nat, u: Play, b: nat, job: Job, s: State)
    requires Numbered(c, ord, u) && Tidy(c, ord, s)
    requires Under(c, ord, job, b) && Above(c, ord, s, b) && Fine(c, u, job)
    requires Walk.Walk(c, job, s).Done?
    ensures Adds(c, ord, s, Walk.Walk(c, job, s).st, Unfold(c, ord, b, job))
    decreases Pending(c, s), Weight(c, job), 0, 0
  {
    hide Consistent, Nested, Under, Above, Adds;
    match PlanOf(c, job)
    case Unknown =>
    case Declaration => DeclareAdds(c, ord, job.id, s);
    case Jobs(jobs) =>
      PlanIsLighter(c, job);
      UnderPlan(c, ord, job, b);
      forall j | j in jobs
        ensures Fine(c, u, j)
      {
        PlanFine(c, u, job, j);
      }
      AllAdd(c, ord, u, b, jobs, s);
    case Define =>
      UnderPlan(c, ord, job, b);
      if job.DefineRecord? {
        RecordAdds(c, ord, u, b, job.id, s);
      } else {
        TypedefAdds(c, ord, u, b, job.id, s);
      }
  }

  lemma {:induction false} RecordAdds(c: Base, ord: nat -> nat, u: Play, b: nat, id: nat, s: State)
    requires Numbered(c, ord, u) && Tidy(c, ord, s) && Above(c, ord, s, b)
    requires id < |c.g| && NamedRecord(c.g[id]) && DefineRecord(id) in u.jobs && ord(id) < b
    requires WalkRecord(c, id, s).Done?
    ensures Adds(c, ord, s, WalkRecord(c, id, s).st, Basis(c, ord, RecordBody(id)) + [RecordBody(id)])
    decreases Pending(c, s), 0, 0, 0
  {
    hide Nested, Unfold, UnfoldAll, Under, Adds, Numbered;
    if s.rec[id] == White {
      EnteringShrinks(c, s, id);
      EnterTidy(c, ord, b, s, EnterRecord(s, id), id);
      BodyFine(c, ord, u, id);
      AllAdd(c, ord, u, ord(id), Hards(Body(c, id)), EnterRecord(s, id));
      RecordOnce(c, id, s);
      RecordAdded(c, ord, id, s);
    } else {
      AgainAdds(c, ord, s, RecordBody(id));
    }
  }

  /** What was printed before is not printed again. */
  lemma AgainAdds(c: Base, ord: nat -> nat, s: State, d: Decl)
    requires Tidy(c, ord, s) && d in s.out
    ensures OfKind(c, d) && Adds(c, ord, s, s, Basis(c, ord, d) + [d])
  {
    KindsOf(c, s);
    hide Nested, Consistent, Basis;
    NestedHas(c, ord, s.out, d);
    AddsNothing(c, ord, s, Basis(c, ord, d) + [d]);
  }

  lemma EnterTidy(c: Base, ord: nat -> nat, b: nat, s: State, t: State, id: nat)
    requires Tidy(c, ord, s) && Above(c, ord, s, b) && id < |c.g| && ord(id) < b
    requires || (NamedRecord(c.g[id]) && s.rec[id] == White && t == EnterRecord(s, id))
             || (NamedTypedef(c.g[id]) && s.td[id] == White && t == EnterTypedef(s, id))
    ensures Tidy(c, ord, t) && Above(c, ord, t, ord(id))
  {
    EnterKeeps(c, ord, b, s, t, id);
    hide Nested, Consistent;
  }

  lemma RecordAdded(c: Base, ord: nat -> nat, id: nat, s: State)
    requires Tidy(c, ord, s) && id < |c.g| && NamedRecord(c.g[id]) && s.rec[id] == White && WalkRecord(c, id, s).Done?
    requires var t := WalkAll(c, Hards(Body(c, id)), EnterRecord(s, id)).st;
             Adds(c, ord, EnterRecord(s, id), t, UnfoldAll(c, ord, ord(id), Hards(Body(c, id))))
    requires Tally(c, WalkRecord(c, id, s).st)
    ensures Adds(c, ord, s, WalkRecord(c, id, s).st, Basis(c, ord, RecordBody(id)) + [RecordBody(id)])
  {
    var t := WalkAll(c, Hards(Body(c, id)), EnterRecord(s, id)).st;
    assert RecordBody(id) !in t.out by {
      LastIsNew(t.out, RecordBody(id), WalkRecord(c, id, s).st.out);
    }
    hide Unfold, UnfoldAll, Nested, Consistent;
    AddsOne(c, ord, s, t, WalkRecord(c, id, s).st, RecordBody(id));
  }

  lemma LastIsNew(out: seq<Decl>, d: Decl, all: seq<Decl>)
    requires all == out + [d] && Distinct(all)
    ensures d !in out
  {
    assert all[|out|] == d;
    forall k | 0 <= k < |out|
      ensures out[k] != d
    {
      assert all[k] == out[k];
    }
  }

  lemma {:induction false} TypedefAdds(c: Base, ord: nat -> nat, u: Play, b: nat, id: nat, s: State)
    requires Numbered(c, ord, u) && Tidy(c, ord, s) && Above(c, ord, s, b)
    requires id < |c.g| && c.g[id].Typedef? && DefineTypedef(id) in u.jobs && ord(id) < b
    requires WalkTypedef(c, id, s).Done?
    ensures Adds(c, ord, s, WalkTypedef(c, id, s).st,
                 if c.g[id].alias != "" then Basis(c, ord, Alias(id)) + [Alias(id)] else [])
    decreases Pending(c, s), 0, 0, 0
  {
    hide Nested, Unfold, UnfoldAll, Under, Adds, Numbered;
    if c.g[id].alias == "" {
      AddsNothing(c, ord, s, []);
    } else if s.td[id] == White {
      EnteringShrinks(c, s, id);
      EnterTidy(c, ord, b, s, EnterTypedef(s, id), id);
      TargetFine(c, ord, u, id);
      JobAdds(c, ord, u, ord(id), Target(c.g, c.g[id].to), EnterTypedef(s, id));
      TypedefOnce(c, id, s);
      TypedefAdded(c, ord, id, s);
    } else {
      AgainAdds(c, ord, s, Alias(id));
    }
  }

  lemma TypedefAdded(c: Base, ord: nat -> nat, id: nat, s: State)
    requires Tidy(c, ord, s) && id < |c.g| && NamedTypedef(c.g[id]) && s.td[id] == White && WalkTypedef(c, id, s).Done?
    requires var t := Walk.Walk(c, Target(c.g, c.g[id].to), EnterTypedef(s, id)).st;
             Adds(c, ord, EnterTypedef(s, id), t, Unfold(c, ord, ord(id), Target(c.g, c.g[id].to)))
    requires Tally(c, WalkTypedef(c, id, s).st)
    ensures Adds(c, ord, s, WalkTypedef(c, id, s).st, Basis(c, ord, Alias(id)) + [Alias(id)])
  {
    var t := Walk.Walk(c, Target(c.g, c.g[id].to), EnterTypedef(s, id)).st;
    assert Alias(id) !in t.out by {
      LastIsNew(t.out, Alias(id), WalkTypedef(c, id, s).st.out);
    }
    hide Unfold, UnfoldAll, Nested, Consistent;
    AddsOne(c, ord, s, t, WalkTypedef(c, id, s).st, Alias(id));
  }

  lemma {:induction false} AllAdd(c: Base, ord: nat -> nat, u: Play, b: nat, jobs: seq<Job>, s: State)
    requires Numbered(c, ord, u) && Tidy(c, ord, s) && Above(c, ord, s, b)
    requires forall j | j in jobs :: Under(c, ord, j, b) && Fine(c, u, j)
    requires WalkAll(c, jobs, s).Done?
    ensures Adds(c, ord, s, WalkAll(c, jobs, s).st, UnfoldAll(c, ord, b, jobs))
    decreases Pending(c, s), TopWeight(c, jobs), 1, |jobs|
  {
    hide Nested, Consistent, Under, Fine, Numbered, Above, Adds, SameGreys;
    if jobs == [] {
      AddsNothing(c, ord, s, []);
    } else {
      var t := Walk.Walk(c, jobs[0], s).st;
      JobAdds(c, ord, u, b, jobs[0], s);
      JobOnce(c, jobs[0], s);
      OnwardPending(c, s, t);
      AboveKept(c, ord, s, t, b);
      AddsTidy(c, ord, s, t, Unfold(c, ord, b, jobs[0]));
      AllAdd(c, ord, u, b, jobs[1..], t);
      AddsBoth(c, ord, s, t, WalkAll(c, jobs, s).st, Unfold(c, ord, b, jobs[0]), UnfoldAll(c, ord, b, jobs[1..]));
    }
  }

  lemma AddsTidy(c: Base, ord: nat -> nat, s: State, t: State, ds: seq<Decl>)
    requires Adds(c, ord, s, t, ds)
    ensures Tidy(c, ord, t)
  {
  }

  /** A header, as known from the type graph, the required ids and a numbering: the forward
      declarations and enums, and then the first occurrences of what the recursion prints. */
  ghost function PlainHeader(c: Base, ord: nat -> nat, ids: seq<nat>): seq<Decl>
    requires Ranked(c) && InRange(c.g, ids)
  {
    var jobs := HeaderJobs(c.g, ids);
    Fresh(Prologue(c.g, ids).out, UnfoldAll(c, ord, Bound(ord, jobs), jobs))
  }

  lemma PrologueTidy(c: Base, ord: nat -> nat, ids: seq<nat>)
    requires Ranked(c) && InRange(c.g, ids) && Distinct(ids)
    ensures Tidy(c, ord, Prologue(c.g, ids)) && forall b: nat :: Above(c, ord, Prologue(c.g, ids), b)
  {
    PrologueOnce(c, ids);
    var s := Prologue(c.g, ids);
    hide Prologue;
    forall k | 0 <= k < |s.out|
      ensures Basis(c, ord, s.out[k]) == []
    {
      var d := s.out[k];
      assert d in s.out;
      assert RecordBody(d.id) !in s.out && Alias(d.id) !in s.out;
    }
  }

  /** The walk with its three colours prints the first occurrences of what the plain recursion prints,
      in the same order. */
  lemma HeaderIsPlain(c: Base, ord: nat -> nat, ids: seq<nat>)
    requires InRange(c.g, ids) && Distinct(ids) && Ranked(c) && Ordered(c, ord, PlayOf(c, ids)) && Header(c, ids).Done?
    ensures Header(c, ids).st.out == PlainHeader(c, ord, ids)
    ensures Tidy(c, ord, Header(c, ids).st)
  {
    var jobs, s := HeaderJobs(c.g, ids), Prologue(c.g, ids);
    PrologueTidy(c, ord, ids);
    PlayClosed(c, jobs);
    JobsFine(c, ord, ids);
    hide Ordered, HeaderJobs, Prologue, PlaySet, Fine, Under, Consistent, Nested, Above;
    AllAdd(c, ord, PlayOf(c, ids), Bound(ord, jobs), jobs, s);
  }
}
