/**
 The depth-first walk that decides which declaration a header prints next
 (the four mutually recursive functions of src/emitter.c), as one function of
 the job to do and the colours of the types met so far.
 */
module Walk {
  import opened Btf
  import opened Meaning
  import opened Declarators

  datatype Color = White | Grey | Black

  datatype Decl = Forward(id: nat) | EnumBody(id: nat) | RecordBody(id: nat) | Alias(id: nat)

  datatype Job = Hard(id: nat) | Soft(id: nat) | DefineRecord(id: nat) | DefineTypedef(id: nat)

  datatype State = State(rec: seq<Color>, fwd: seq<bool>, td: seq<Color>, out: seq<Decl>)

  datatype Outcome = Done(st: State) | Failed

  ghost predicate Fits(c: Base, s: State) {
    |s.rec| == |s.fwd| == |s.td| == |c.g|
  }

  function Start(size: nat): State {
    State(seq(size, i => White), seq(size, i => false), seq(size, i => White), [])
  }

  /** The named records and typedefs the walk has not entered. */
  ghost function Pending(c: Base, s: State): set<nat>
    requires Fits(c, s)
  {
    set i: nat | i < |c.g| && ((NamedRecord(c.g[i]) && s.rec[i] == White) || (NamedTypedef(c.g[i]) && s.td[i] == White))
  }

  function Hards(members: seq<Member>): (jobs: seq<Job>)
    ensures |jobs| == |members|
    ensures forall i :: 0 <= i < |jobs| ==> jobs[i] == Hard(members[i].ty)
  {
    seq(|members|, i requires 0 <= i < |members| => Hard(members[i].ty))
  }

  function Softs(params: seq<Param>): (jobs: seq<Job>)
    ensures |jobs| == |params|
    ensures forall i :: 0 <= i < |jobs| ==> jobs[i] == Soft(params[i].ty)
  {
    seq(|params|, i requires 0 <= i < |params| => Soft(params[i].ty))
  }

  /** Whether a typedef's target must be complete before the typedef is printed. */
  predicate NeedsHard(g: Graph, id: nat, depth: nat)
    requires depth <= CHAIN_LIMIT
    decreases CHAIN_LIMIT - depth
  {
    if depth == CHAIN_LIMIT then true
    else if id >= |g| then false
    else
      match g[id]
      case Qualified(_, to) => NeedsHard(g, to, depth + 1)
      case Tag(_, to) => NeedsHard(g, to, depth + 1)
      case Array(_, _, _) => true
      case Record(_, tag, _) => tag == ""
      case _ => false
  }

  /** Whether the declarator printer knows every kind below a type. */
  ghost predicate Printable(c: Base, id: nat)
    requires Ranked(c)
    decreases Height(c, id)
  {
    id == 0 || (id < |c.g| &&
      match c.g[id]
      case Ptr(to) => Printable(c, to)
      case Array(elem, _, _) => Printable(c, elem)
      case Record(_, tag, _) =>
        tag == "" ==>
          assert forall m | m in Body(c, id) :: Follows(c, id, m.ty);
          forall i | 0 <= i < |Body(c, id)| :: Printable(c, Body(c, id)[i].ty)
      case Typedef(alias, to) => alias == "" ==> Printable(c, to)
      case Qualified(_, to) => Printable(c, to)
      case Tag(_, to) => Printable(c, to)
      case Proto(ret, params) =>
        assert forall p | p in params :: Follows(c, id, p.ty);
        Printable(c, ret) && forall i | 0 <= i < |params| :: Printable(c, params[i].ty)
      case Void => false
      case Func(_, _) => false
      case Var(_, _) => false
      case DataSec(_, _) => false
      case _ => true)
  }

  ghost predicate AllPrintable(c: Base, ids: seq<nat>)
    requires Ranked(c)
  {
    forall i | 0 <= i < |ids| :: Printable(c, ids[i])
  }

  lemma AllPrintableNext(c: Base, ids: seq<nat>)
    requires Ranked(c) && ids != []
    ensures AllPrintable(c, ids) <==> Printable(c, ids[0]) && AllPrintable(c, ids[1..])
  {
    if Printable(c, ids[0]) && AllPrintable(c, ids[1..]) {
      assert forall i | 1 <= i < |ids| :: ids[i] == ids[1..][i - 1];
    }
  }

  /** The declarations of a record's shown members are of known kinds and fit their buffers. */
  ghost predicate BodyPrints(c: Base, id: nat)
    requires Ranked(c) && id < |c.g| && c.g[id].Record?
  {
    AllPrintable(c, MemberTypes(Body(c, id))) && AllRoomy(c, Body(c, id))
  }

  /** The same of a typedef's. */
  ghost predicate AliasPrints(c: Base, id: nat)
    requires Ranked(c) && id < |c.g| && c.g[id].Typedef?
  {
    Printable(c, c.g[id].to) && Roomy(c, c.g[id].to, NameSize(c.g[id].alias))
  }

  /** `emit_forward_decl`: a named tag is forward-declared unless it already was. */
  function Declare(g: Graph, id: nat, s: State): State
    requires id < |g| && |s.fwd| == |g|
  {
    if ((g[id].Record? || g[id].Fwd?) && g[id].tag != "" && !s.fwd[id])
    then s.(fwd := s.fwd[id := true], out := s.out + [Forward(id)])
    else s
  }

  /** States only go forward: nothing entered becomes white again, nothing finished is reopened,
      and the output only gets longer. */
  ghost predicate Onward(s: State, t: State) {
    && |t.rec| == |s.rec| && |t.fwd| == |s.fwd| && |t.td| == |s.td|
    && (forall i | 0 <= i < |s.rec| ::
          (s.rec[i] != White ==> t.rec[i] != White) && (s.rec[i] == Black ==> t.rec[i] == Black))
    && (forall i | 0 <= i < |s.td| ::
          (s.td[i] != White ==> t.td[i] != White) && (s.td[i] == Black ==> t.td[i] == Black))
    && (forall i | 0 <= i < |s.fwd| && s.fwd[i] :: t.fwd[i])
    && s.out <= t.out
  }

  lemma OnwardPending(c: Base, s: State, t: State)
    requires Fits(c, s) && Onward(s, t)
    ensures Pending(c, t) <= Pending(c, s)
  {
  }

  function EnterRecord(s: State, id: nat): State
    requires id < |s.rec|
  {
    s.(rec := s.rec[id := Grey])
  }

  function LeaveRecord(s: State, id: nat): State
    requires id < |s.rec|
  {
    s.(rec := s.rec[id := Black], out := s.out + [RecordBody(id)])
  }

  function EnterTypedef(s: State, id: nat): State
    requires id < |s.td|
  {
    s.(td := s.td[id := Grey])
  }

  function LeaveTypedef(s: State, id: nat): State
    requires id < |s.td|
  {
    s.(td := s.td[id := Black], out := s.out + [Alias(id)])
  }

  lemma EnteringShrinks(c: Base, s: State, id: nat)
    requires Fits(c, s) && id < |c.g|
    ensures NamedRecord(c.g[id]) && s.rec[id] == White ==> Pending(c, EnterRecord(s, id)) < Pending(c, s)
    ensures NamedTypedef(c.g[id]) && s.td[id] == White ==> Pending(c, EnterTypedef(s, id)) < Pending(c, s)
  {
    if NamedRecord(c.g[id]) && s.rec[id] == White {
      assert id in Pending(c, s) && id !in Pending(c, EnterRecord(s, id));
    }
    if NamedTypedef(c.g[id]) && s.td[id] == White {
      assert id in Pending(c, s) && id !in Pending(c, EnterTypedef(s, id));
    }
  }

  /** What a job comes down to: further jobs in order, a forward declaration, or an error. */
  datatype Plan = Jobs(jobs: seq<Job>) | Declaration | Define | Unknown

  /** The cases of `emit_hard_deps` and `emit_soft_deps`. */
  ghost function PlanOf(c: Base, job: Job): Plan {
    var id := job.id;
    if job.Soft? && id == 0 then Jobs([])
    else if id >= |c.g| then Unknown
    else
      match job
      case Hard(_) =>
        (match c.g[id]
         case Ptr(_) => Jobs([Soft(id)])
         case Proto(_, _) => Jobs([Soft(id)])
         case Fwd(_, _) => Declaration
         case Array(elem, _, _) => Jobs([Hard(elem)])
         case Typedef(_, to) => Jobs([Hard(to), DefineTypedef(id)])
         case Qualified(_, to) => Jobs([Hard(to)])
         case Tag(_, to) => Jobs([Hard(to)])
         case Record(_, tag, _) => if tag != "" then Jobs([DefineRecord(id)]) else Jobs(Hards(Body(c, id)))
         case _ => Jobs([]))
      case Soft(_) =>
        (match c.g[id]
         case Typedef(_, _) => Jobs([DefineTypedef(id)])
         case Qualified(_, to) => Jobs([Soft(to)])
         case Tag(_, to) => Jobs([Soft(to)])
         case Ptr(to) => Jobs([Soft(to)])
         case Array(elem, _, _) => Jobs([Soft(elem)])
         case Proto(ret, params) => Jobs([Soft(ret)] + Softs(params))
         case Record(_, _, _) => Declaration
         case Fwd(_, _) => Declaration
         case _ => Jobs([]))
      case _ => Define
  }

  ghost function Weight(c: Base, job: Job): nat {
    Height(c, job.id) * 4 + Stage(job)
  }

  ghost function TopWeight(c: Base, jobs: seq<Job>): (top: nat)
    ensures forall j :: j in jobs ==> Weight(c, j) <= top
    ensures top == 0 || exists j :: j in jobs && top == Weight(c, j)
  {
    if jobs == [] then 0
    else
      var rest := TopWeight(c, jobs[1..]);
      if Weight(c, jobs[0]) > rest then Weight(c, jobs[0]) else rest
  }

  function Stage(job: Job): nat {
    match job case Hard(_) => 3 case Soft(_) => 2 case _ => 1
  }

  /** A planned job is about a type the walk follows to, or a later stage of the same type. */
  lemma PlanFollows(c: Base, job: Job, j: Job)
    requires PlanOf(c, job).Jobs? && j in PlanOf(c, job).jobs
    ensures job.id < |c.g|
    ensures Follows(c, job.id, j.id) || (j.id == job.id && Stage(j) < Stage(job))
  {
    var t := c.g[job.id];
    if t.Record? && t.tag == "" && job.Hard? {
      assert exists m :: m in Body(c, job.id) && m.ty == j.id;
    } else if t.Proto? && job.Soft? {
      assert j.id == t.ret || exists p :: p in t.params && p.ty == j.id;
    }
  }

  lemma PlanIsLighter(c: Base, job: Job)
    requires Ranked(c) && PlanOf(c, job).Jobs?
    ensures TopWeight(c, PlanOf(c, job).jobs) < Weight(c, job)
  {
    forall j | j in PlanOf(c, job).jobs
      ensures Weight(c, j) < Weight(c, job)
    {
      PlanFollows(c, job, j);
    }
  }

  /** What a typedef's target is walked as. */
  function Target(g: Graph, to: nat): Job {
    if NeedsHard(g, to, 0) then Hard(to) else Soft(to)
  }

  ghost function Walk(c: Base, job: Job, s: State): (r: Outcome)
    requires Ranked(c) && Fits(c, s)
    ensures r.Done? ==> Onward(s, r.st)
    decreases Pending(c, s), Weight(c, job), 0, 0
  {
    var id := job.id;
    match PlanOf(c, job)
    case Unknown => Failed
    case Declaration => Done(Declare(c.g, id, s))
    case Jobs(jobs) => PlanIsLighter(c, job); WalkAll(c, jobs, s)
    case Define => if job.DefineRecord? then WalkRecord(c, id, s) else WalkTypedef(c, id, s)
  }

  /** `emit_record_definition`: a record that is finished or in progress is left alone. */
  ghost function WalkRecord(c: Base, id: nat, s: State): (r: Outcome)
    requires Ranked(c) && Fits(c, s) && id < |c.g|
    ensures r.Done? ==> Onward(s, r.st)
    decreases Pending(c, s), 0, 0, 0
  {
    if !NamedRecord(c.g[id]) || s.rec[id] != White then Done(s)
    else
      EnteringShrinks(c, s, id);
      var r := WalkAll(c, Hards(Body(c, id)), EnterRecord(s, id));
      if r.Failed? || !BodyPrints(c, id) then Failed else Done(LeaveRecord(r.st, id))
  }

  /** `emit_typedef_definition`: a typedef met while in progress is an error. */
  ghost function WalkTypedef(c: Base, id: nat, s: State): (r: Outcome)
    requires Ranked(c) && Fits(c, s) && id < |c.g|
    ensures r.Done? ==> Onward(s, r.st)
    decreases Pending(c, s), 0, 0, 0
  {
    if !c.g[id].Typedef? || s.td[id] == Black then Done(s)
    else if s.td[id] == Grey then Failed
    else if c.g[id].alias == "" then Done(s)
    else
      EnteringShrinks(c, s, id);
      var r := Walk(c, Target(c.g, c.g[id].to), EnterTypedef(s, id));
      if r.Failed? || !AliasPrints(c, id) then Failed else Done(LeaveTypedef(r.st, id))
  }

  ghost function WalkAll(c: Base, jobs: seq<Job>, s: State): (r: Outcome)
    requires Ranked(c) && Fits(c, s)
    ensures r.Done? ==> Onward(s, r.st)
    decreases Pending(c, s), TopWeight(c, jobs), 1, |jobs|
  {
    if jobs == [] then Done(s)
    else
      var r := Walk(c, jobs[0], s);
      if r.Failed? then r
      else
        OnwardPending(c, s, r.st);
        WalkAll(c, jobs[1..], r.st)
  }

  lemma OneJob(c: Base, job: Job, s: State)
    requires Ranked(c) && Fits(c, s)
    ensures WalkAll(c, [job], s) == Walk(c, job, s)
  {
    var r := Walk(c, job, s);
    if r.Done? {
      assert [job][1..] == [];
      assert WalkAll(c, [], r.st) == r;
    }
  }

  /** A job planned as one other is that other. */
  lemma SameJob(c: Base, job: Job, other: Job, s: State)
    requires Ranked(c) && Fits(c, s) && PlanOf(c, job) == Jobs([other])
    ensures Walk(c, job, s) == Walk(c, other, s)
    ensures Weight(c, other) < Weight(c, job)
  {
    PlanIsLighter(c, job);
    assert other in [other];
    OneJob(c, other, s);
  }

  lemma NextJob(c: Base, jobs: seq<Job>, s: State)
    requires Ranked(c) && Fits(c, s) && jobs != []
    ensures WalkAll(c, jobs, s) ==
            (var r := Walk(c, jobs[0], s); if r.Failed? then r else WalkAll(c, jobs[1..], r.st))
    ensures Weight(c, jobs[0]) <= TopWeight(c, jobs) && TopWeight(c, jobs[1..]) <= TopWeight(c, jobs)
    ensures Walk(c, jobs[0], s).Done? ==> Pending(c, Walk(c, jobs[0], s).st) <= Pending(c, s)
  {
    if Walk(c, jobs[0], s).Done? {
      OnwardPending(c, s, Walk(c, jobs[0], s).st);
    }
  }

  /** What a job does, by its plan. */
  lemma WalkPlanned(c: Base, job: Job, s: State)
    requires Ranked(c) && Fits(c, s)
    ensures match PlanOf(c, job)
            case Unknown => Walk(c, job, s) == Failed
            case Declaration => Walk(c, job, s) == Done(Declare(c.g, job.id, s))
            case Jobs(jobs) =>
              && Walk(c, job, s) == WalkAll(c, jobs, s)
              && (jobs == [] ==> Walk(c, job, s) == Done(s))
              && TopWeight(c, jobs) < Weight(c, job)
            case Define => true
  {
    if PlanOf(c, job).Jobs? {
      PlanIsLighter(c, job);
    }
  }

  /** Two lists of jobs, one after the other. */
  lemma {:induction false} WalkBoth(c: Base, first: seq<Job>, second: seq<Job>, s: State)
    requires Ranked(c) && Fits(c, s)
    ensures WalkAll(c, first + second, s) ==
            (var r := WalkAll(c, first, s); if r.Failed? then r else WalkAll(c, second, r.st))
    decreases |first|
  {
    if first == [] {
      assert first + second == second;
    } else {
      assert (first + second)[1..] == first[1..] + second;
      NextJob(c, first, s);
      NextJob(c, first + second, s);
      var r := Walk(c, first[0], s);
      if r.Done? {
        WalkBoth(c, first[1..], second, r.st);
      }
    }
  }
}
