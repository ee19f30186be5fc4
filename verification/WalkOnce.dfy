/** On any ranked graph: a successful walk prints each declaration at most once, finishes what it
    enters, and leaves what was in progress in progress. */
module WalkOnce {
  import opened Btf
  import opened Meaning
  import opened Walk

  ghost predicate Distinct<T>(s: seq<T>) {
    forall i, j | 0 <= i < j < |s| :: s[i] != s[j]
  }

  predicate Taggable(t: Type) {
    (t.Record? || t.Fwd?) && t.tag != ""
  }

  /** A declaration is about a type of the right kind. */
  predicate OfKind(c: Base, d: Decl) {
    d.id < |c.g| &&
    match d
    case Forward(id) => Taggable(c.g[id])
    case EnumBody(id) => c.g[id].Enum?
    case RecordBody(id) => NamedRecord(c.g[id])
    case Alias(id) => NamedTypedef(c.g[id])
  }

  /** The colours say exactly what has been printed, and nothing was printed twice. */
  ghost predicate Tally(c: Base, s: State) {
    Fits(c, s) && Consistent(c, s)
  }

  ghost predicate Consistent(c: Base, s: State)
    requires Fits(c, s)
  {
    && Distinct(s.out)
    && (forall d | d in s.out :: OfKind(c, d))
    && (forall i | 0 <= i < |c.g| :: s.rec[i] == Black <==> RecordBody(i) in s.out)
    && (forall i | 0 <= i < |c.g| :: s.td[i] == Black <==> Alias(i) in s.out)
    && (forall i | 0 <= i < |c.g| :: s.fwd[i] <==> Forward(i) in s.out)
    && (forall i | 0 <= i < |c.g| && s.rec[i] != White :: NamedRecord(c.g[i]))
    && (forall i | 0 <= i < |c.g| && s.td[i] != White :: NamedTypedef(c.g[i]))
  }

  ghost predicate SameGreys(s: State, t: State) {
    && |s.rec| == |t.rec| && |s.td| == |t.td|
    && (forall i | 0 <= i < |s.rec| :: s.rec[i] == Grey <==> t.rec[i] == Grey)
    && (forall i | 0 <= i < |s.td| :: s.td[i] == Grey <==> t.td[i] == Grey)
  }

  ghost predicate SameEnums(s: State, t: State) {
    forall i :: EnumBody(i) in s.out <==> EnumBody(i) in t.out
  }

  /** What a walk leaves as it was, and keeps true. */
  ghost predicate Clean(c: Base, s: State, t: State) {
    Tally(c, t) && SameGreys(s, t) && SameEnums(s, t)
  }

  /** A definition that was asked for has at least been entered. */
  ghost predicate Visited(c: Base, s: State, job: Job)
    requires Fits(c, s)
  {
    job.id < |c.g| ==>
      && (job.DefineRecord? && NamedRecord(c.g[job.id]) ==> s.rec[job.id] != White)
      && (job.DefineTypedef? && NamedTypedef(c.g[job.id]) ==> s.td[job.id] != White)
  }

  lemma CleanTrans(c: Base, s: State, t: State, u: State)
    requires Clean(c, s, t) && Clean(c, t, u)
    ensures Clean(c, s, u)
  {
  }

  lemma DeclareOnce(c: Base, id: nat, s: State)
    requires Tally(c, s) && id < |c.g|
    ensures Clean(c, s, Declare(c.g, id, s))
  {
  }

  lemma LeaveRecordOnce(c: Base, id: nat, s: State, t: State)
    requires Tally(c, s) && id < |c.g| && NamedRecord(c.g[id]) && s.rec[id] == White
    requires Clean(c, EnterRecord(s, id), t)
    ensures Clean(c, s, LeaveRecord(t, id))
  {
    assert EnterRecord(s, id).rec[id] == Grey;
    assert t.rec[id] == Grey;
    assert RecordBody(id) !in t.out;
  }

  lemma LeaveTypedefOnce(c: Base, id: nat, s: State, t: State)
    requires Tally(c, s) && id < |c.g| && NamedTypedef(c.g[id]) && s.td[id] == White
    requires Clean(c, EnterTypedef(s, id), t)
    ensures Clean(c, s, LeaveTypedef(t, id))
  {
    assert EnterTypedef(s, id).td[id] == Grey;
    assert t.td[id] == Grey;
    assert Alias(id) !in t.out;
  }

  lemma {:induction false} JobOnce(c: Base, job: Job, s: State)
    requires Ranked(c) && Tally(c, s) && Walk.Walk(c, job, s).Done?
    ensures Clean(c, s, Walk.Walk(c, job, s).st)
    ensures Visited(c, Walk.Walk(c, job, s).st, job)
    decreases Pending(c, s), Weight(c, job), 0, 0
  {
    match PlanOf(c, job)
    case Unknown =>
    case Declaration => DeclareOnce(c, job.id, s);
    case Jobs(jobs) =>
      PlanIsLighter(c, job);
      AllOnce(c, jobs, s);
    case Define =>
      if job.DefineRecord? {
        RecordOnce(c, job.id, s);
      } else {
        TypedefOnce(c, job.id, s);
      }
  }

  lemma {:induction false} RecordOnce(c: Base, id: nat, s: State)
    requires Ranked(c) && Tally(c, s) && id < |c.g| && WalkRecord(c, id, s).Done?
    ensures Clean(c, s, WalkRecord(c, id, s).st)
    ensures NamedRecord(c.g[id]) ==> WalkRecord(c, id, s).st.rec[id] != White
    decreases Pending(c, s), 0, 0, 0
  {
    if NamedRecord(c.g[id]) && s.rec[id] == White {
      EnteringShrinks(c, s, id);
      AllOnce(c, Hards(Body(c, id)), EnterRecord(s, id));
      LeaveRecordOnce(c, id, s, WalkAll(c, Hards(Body(c, id)), EnterRecord(s, id)).st);
    }
  }

  lemma {:induction false} TypedefOnce(c: Base, id: nat, s: State)
    requires Ranked(c) && Tally(c, s) && id < |c.g| && WalkTypedef(c, id, s).Done?
    ensures Clean(c, s, WalkTypedef(c, id, s).st)
    ensures NamedTypedef(c.g[id]) ==> WalkTypedef(c, id, s).st.td[id] == Black
    decreases Pending(c, s), 0, 0, 0
  {
    if NamedTypedef(c.g[id]) && s.td[id] == White {
      EnteringShrinks(c, s, id);
      var target := Target(c.g, c.g[id].to);
      JobOnce(c, target, EnterTypedef(s, id));
      LeaveTypedefOnce(c, id, s, Walk.Walk(c, target, EnterTypedef(s, id)).st);
    }
  }

  lemma {:induction false} AllOnce(c: Base, jobs: seq<Job>, s: State)
    requires Ranked(c) && Tally(c, s) && WalkAll(c, jobs, s).Done?
    ensures Clean(c, s, WalkAll(c, jobs, s).st)
    ensures forall j | j in jobs :: Visited(c, WalkAll(c, jobs, s).st, j)
    decreases Pending(c, s), TopWeight(c, jobs), 1, |jobs|
  {
    if jobs != [] {
      var t := Walk.Walk(c, jobs[0], s).st;
      JobOnce(c, jobs[0], s);
      OnwardPending(c, s, t);
      AllOnce(c, jobs[1..], t);
      CleanTrans(c, s, t, WalkAll(c, jobs, s).st);
    }
  }
}
