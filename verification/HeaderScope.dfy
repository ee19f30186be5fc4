/** The whole header: forward declarations, enums, typedefs and records of a required set, in
    ascending id order (`mch_emit_header_with_options` of src/emitter.c), and its properties. */
module HeaderScope {
  import opened Btf
  import opened Bitset
  import opened CSyntax
  import opened Scope
  import opened Meaning
  import opened Walk
  import opened WalkOnce
  import opened InPlay
  import opened WalkScope

  predicate InRange(g: Graph, ids: seq<nat>) {
    forall i | 0 <= i < |ids| :: ids[i] < |g|
  }

  datatype GroupKind = Tags | Enums | Typedefs | Records

  predicate InGroup(t: Type, group: GroupKind) {
    match group
    case Tags => Taggable(t)
    case Enums => t.Enum?
    case Typedefs => t.Typedef?
    case Records => NamedRecord(t)
  }

  /** The ids of one group, in order. */
  function Select(g: Graph, ids: seq<nat>, group: GroupKind): (chosen: seq<nat>)
    requires InRange(g, ids)
    ensures InRange(g, chosen) && |chosen| <= |ids|
    ensures forall id :: id in chosen <==> id in ids && InGroup(g[id], group)
    ensures Distinct(ids) ==> Distinct(chosen)
  {
    if ids == [] then []
    else
      var last := ids[|ids| - 1];
      var before := ids[..|ids| - 1];
      assert ids == before + [last];
      Select(g, before, group) + if InGroup(g[last], group) then [last] else []
  }

  lemma SelectMore(g: Graph, ids: seq<nat>, id: nat, group: GroupKind)
    requires InRange(g, ids) && id < |g|
    ensures InRange(g, ids + [id])
    ensures Select(g, ids + [id], group) == Select(g, ids, group) + if InGroup(g[id], group) then [id] else []
  {
    assert (ids + [id])[..|ids|] == ids;
  }

  function DeclareAll(g: Graph, ids: seq<nat>, s: State): (t: State)
    requires InRange(g, ids) && |s.fwd| == |g|
    ensures t.rec == s.rec && t.td == s.td && |t.fwd| == |s.fwd|
  {
    if ids == [] then s else Declare(g, ids[|ids| - 1], DeclareAll(g, ids[..|ids| - 1], s))
  }

  function ListEnums(ids: seq<nat>, s: State): (t: State)
    ensures t == s.(out := t.out)
  {
    if ids == [] then s
    else
      var t := ListEnums(ids[..|ids| - 1], s);
      t.(out := t.out + [EnumBody(ids[|ids| - 1])])
  }

  function TypedefJobs(ids: seq<nat>): (jobs: seq<Job>)
    ensures |jobs| == |ids| && forall i | 0 <= i < |ids| :: jobs[i] == DefineTypedef(ids[i])
  {
    seq(|ids|, i requires 0 <= i < |ids| => DefineTypedef(ids[i]))
  }

  function RecordJobs(ids: seq<nat>): (jobs: seq<Job>)
    ensures |jobs| == |ids| && forall i | 0 <= i < |ids| :: jobs[i] == DefineRecord(ids[i])
  {
    seq(|ids|, i requires 0 <= i < |ids| => DefineRecord(ids[i]))
  }

  function HeaderJobs(g: Graph, ids: seq<nat>): (jobs: seq<Job>)
    requires InRange(g, ids)
  {
    TypedefJobs(Select(g, ids, Typedefs)) + RecordJobs(Select(g, ids, Records))
  }

  /** The state before any definition: every required tag declared, every required enum printed. */
  function Prologue(g: Graph, ids: seq<nat>): (s: State)
    requires InRange(g, ids)
    ensures |s.rec| == |s.fwd| == |s.td| == |g|
  {
    ListEnums(Select(g, ids, Enums), DeclareAll(g, Select(g, ids, Tags), Start(|g|)))
  }

  ghost function Header(c: Base, ids: seq<nat>): (r: Outcome)
    requires Ranked(c) && InRange(c.g, ids)
    ensures r.Done? ==> Onward(Prologue(c.g, ids), r.st)
  {
    WalkAll(c, HeaderJobs(c.g, ids), Prologue(c.g, ids))
  }

  ghost predicate Untouched(c: Base, s: State)
    requires Fits(c, s)
  {
    forall i | 0 <= i < |c.g| :: s.rec[i] == White && s.td[i] == White
  }

  lemma {:induction false} DeclareAllOnce(c: Base, ids: seq<nat>)
    requires InRange(c.g, ids)
    ensures Tally(c, DeclareAll(c.g, ids, Start(|c.g|))) && Untouched(c, DeclareAll(c.g, ids, Start(|c.g|)))
    ensures forall i :: EnumBody(i) !in DeclareAll(c.g, ids, Start(|c.g|)).out
  {
    if ids != [] {
      DeclareAllOnce(c, ids[..|ids| - 1]);
      DeclareOnce(c, ids[|ids| - 1], DeclareAll(c.g, ids[..|ids| - 1], Start(|c.g|)));
    }
  }

  lemma ListEnumOnce(c: Base, id: nat, s: State)
    requires Tally(c, s) && id < |c.g| && c.g[id].Enum? && EnumBody(id) !in s.out
    ensures Tally(c, s.(out := s.out + [EnumBody(id)]))
  {
  }

  lemma {:induction false} ListEnumsOnce(c: Base, ids: seq<nat>, s: State)
    requires Tally(c, s) && InRange(c.g, ids) && Distinct(ids)
    requires forall id | id in ids :: c.g[id].Enum? && EnumBody(id) !in s.out
    ensures Tally(c, ListEnums(ids, s))
    ensures forall i :: EnumBody(i) in ListEnums(ids, s).out <==> EnumBody(i) in s.out || i in ids
  {
    if ids != [] {
      var before := ids[..|ids| - 1];
      var last := ids[|ids| - 1];
      assert ids == before + [last];
      assert last in ids && last !in before;
      hide Consistent;
      ListEnumsOnce(c, before, s);
      ListEnumOnce(c, last, ListEnums(before, s));
    }
  }

  lemma PrologueOnce(c: Base, ids: seq<nat>)
    requires InRange(c.g, ids) && Distinct(ids)
    ensures Tally(c, Prologue(c.g, ids)) && Untouched(c, Prologue(c.g, ids))
    ensures forall i: nat :: EnumBody(i) in Prologue(c.g, ids).out <==> i in ids && c.g[i].Enum?
  {
    DeclareAllOnce(c, Select(c.g, ids, Tags));
    ListEnumsOnce(c, Select(c.g, ids, Enums), DeclareAll(c.g, Select(c.g, ids, Tags), Start(|c.g|)));
  }

  lemma JobsAre(g: Graph, ids: seq<nat>, j: Job)
    requires InRange(g, ids)
    ensures j in HeaderJobs(g, ids) <==>
            j.id in ids && ((j.DefineTypedef? && g[j.id].Typedef?) || (j.DefineRecord? && NamedRecord(g[j.id])))
  {
    var typedefs := Select(g, ids, Typedefs);
    var records := Select(g, ids, Records);
    var jobs := HeaderJobs(g, ids);
    if j.DefineTypedef? && j.id in typedefs {
      var k :| 0 <= k < |typedefs| && typedefs[k] == j.id;
      assert jobs[k] == j;
    }
    if j.DefineRecord? && j.id in records {
      var k :| 0 <= k < |records| && records[k] == j.id;
      assert jobs[|typedefs| + k] == j;
    }
  }

  lemma {:induction false} SelectAscends(g: Graph, ids: seq<nat>, group: GroupKind)
    requires InRange(g, ids) && Ascends(ids)
    ensures Ascends(Select(g, ids, group))
  {
    if ids != [] {
      SelectAscends(g, ids[..|ids| - 1], group);
      var before := Select(g, ids[..|ids| - 1], group);
      assert forall k | 0 <= k < |before| :: before[k] in before && before[k] in ids[..|ids| - 1];
    }
  }

  lemma {:induction false} DeclareAllIs(g: Graph, ids: seq<nat>)
    requires InRange(g, ids) && Ascends(ids) && forall id | id in ids :: Taggable(g[id])
    ensures var s := DeclareAll(g, ids, Start(|g|));
            && |s.out| == |ids| && (forall k | 0 <= k < |ids| :: s.out[k] == Forward(ids[k]))
            && forall id | 0 <= id < |g| :: s.fwd[id] <==> id in ids
  {
    if ids != [] {
      var before, last := ids[..|ids| - 1], ids[|ids| - 1];
      assert ids == before + [last];
      DeclareAllIs(g, before);
      assert last !in before;
    }
  }

  lemma {:induction false} ListEnumsIs(ids: seq<nat>, s: State)
    ensures var t := ListEnums(ids, s);
            && |t.out| == |s.out| + |ids| && s.out <= t.out
            && forall k | 0 <= k < |ids| :: t.out[|s.out| + k] == EnumBody(ids[k])
  {
    if ids != [] {
      ListEnumsIs(ids[..|ids| - 1], s);
    }
  }

  /** A header starts with the forward declarations of all required records and forward declarations
      that have a name, followed by all required enums, each in the order of the ids. */
  lemma HeaderStarts(c: Base, ids: seq<nat>) returns (tags: seq<nat>, enums: seq<nat>)
    requires Ranked(c) && InRange(c.g, ids) && Ascends(ids) && Header(c, ids).Done?
    ensures Ascends(tags) && Ascends(enums)
    ensures forall id :: id in tags <==> id in ids && (c.g[id].Record? || c.g[id].Fwd?) && c.g[id].tag != ""
    ensures forall id :: id in enums <==> id in ids && c.g[id].Enum?
    ensures var out := Header(c, ids).st.out;
            && |tags| + |enums| <= |out|
            && (forall k | 0 <= k < |tags| :: out[k] == Forward(tags[k]))
            && forall k | 0 <= k < |enums| :: out[|tags| + k] == EnumBody(enums[k])
  {
    hide Select, HeaderJobs;
    tags, enums := Select(c.g, ids, Tags), Select(c.g, ids, Enums);
    SelectAscends(c.g, ids, Tags);
    SelectAscends(c.g, ids, Enums);
    DeclareAllIs(c.g, tags);
    ListEnumsIs(enums, DeclareAll(c.g, tags, Start(|c.g|)));
  }

  /** After that come the required typedefs, and then the required records, each in the order of the ids,
      with whatever they set off. */
  lemma JobsInOrder(g: Graph, ids: seq<nat>)
    requires InRange(g, ids) && Ascends(ids)
    ensures forall i, j | 0 <= i < j < |HeaderJobs(g, ids)| ::
              var a, b := HeaderJobs(g, ids)[i], HeaderJobs(g, ids)[j];
              if a.DefineTypedef? then b.DefineRecord? || (b.DefineTypedef? && a.id < b.id)
              else a.DefineRecord? && b.DefineRecord? && a.id < b.id
  {
    hide Select;
    SelectAscends(g, ids, Typedefs);
    SelectAscends(g, ids, Records);
    var typedefs, records := Select(g, ids, Typedefs), Select(g, ids, Records);
    forall k | 0 <= k < |HeaderJobs(g, ids)|
      ensures HeaderJobs(g, ids)[k] ==
              if k < |typedefs| then DefineTypedef(typedefs[k]) else DefineRecord(records[k - |typedefs|])
    {
    }
  }

  /** Every required named record, typedef and enum is defined, and no declaration is repeated:
      each id is defined once and forward-declared at most once. */
  lemma HeaderOnce(c: Base, ids: seq<nat>)
    requires Ranked(c) && InRange(c.g, ids) && Distinct(ids) && Header(c, ids).Done?
    ensures Distinct(Header(c, ids).st.out)
    ensures forall id | id in ids && NamedRecord(c.g[id]) :: RecordBody(id) in Header(c, ids).st.out
    ensures forall id | id in ids && NamedTypedef(c.g[id]) :: Alias(id) in Header(c, ids).st.out
    ensures forall id: nat :: EnumBody(id) in Header(c, ids).st.out <==> id in ids && c.g[id].Enum?
  {
    hide Distinct, HeaderJobs, Prologue, Onward;
    PrologueOnce(c, ids);
    AllOnce(c, HeaderJobs(c.g, ids), Prologue(c.g, ids));
    forall id | id in ids
      ensures NamedRecord(c.g[id]) ==> DefineRecord(id) in HeaderJobs(c.g, ids)
      ensures NamedTypedef(c.g[id]) ==> DefineTypedef(id) in HeaderJobs(c.g, ids)
    {
      JobsAre(c.g, ids, DefineRecord(id));
      JobsAre(c.g, ids, DefineTypedef(id));
    }
  }

  /** Every id named by a declaration lies in `u`. */
  ghost predicate Inside(u: set<nat>, out: seq<Decl>) {
    forall d | d in out :: d.id in u
  }

  /** A walk that starts in a set the shown edges do not leave prints nothing outside it. */
  lemma {:induction false} JobStays(c: Base, u: set<nat>, job: Job, s: State)
    requires Ranked(c) && Fits(c, s) && Closed(c, u) && job.id in u && Inside(u, s.out)
    requires Walk.Walk(c, job, s).Done?
    ensures Inside(u, Walk.Walk(c, job, s).st.out)
    decreases Pending(c, s), Weight(c, job), 0, 0
  {
    var id := job.id;
    match PlanOf(c, job)
    case Unknown =>
    case Declaration =>
    case Jobs(jobs) =>
      PlanIsLighter(c, job);
      forall j | j in jobs
        ensures j.id in u
      {
        PlanFollows(c, job, j);
      }
      AllStay(c, u, jobs, s);
    case Define =>
      EnteringShrinks(c, s, id);
      if job.DefineRecord? && NamedRecord(c.g[id]) && s.rec[id] == White {
        AllStay(c, u, Hards(Body(c, id)), EnterRecord(s, id));
      } else if job.DefineTypedef? && NamedTypedef(c.g[id]) && s.td[id] == White {
        assert Follows(c, id, c.g[id].to);
        JobStays(c, u, Target(c.g, c.g[id].to), EnterTypedef(s, id));
      }
  }

  lemma {:induction false} AllStay(c: Base, u: set<nat>, jobs: seq<Job>, s: State)
    requires Ranked(c) && Fits(c, s) && Closed(c, u) && Inside(u, s.out)
    requires forall j | j in jobs :: j.id in u
    requires WalkAll(c, jobs, s).Done?
    ensures Inside(u, WalkAll(c, jobs, s).st.out)
    decreases Pending(c, s), TopWeight(c, jobs), 1, |jobs|
  {
    if jobs != [] {
      var t := Walk.Walk(c, jobs[0], s).st;
      JobStays(c, u, jobs[0], s);
      OnwardPending(c, s, t);
      AllStay(c, u, jobs[1..], t);
    }
  }

  lemma {:induction false} PrologueStays(c: Base, u: set<nat>, ids: seq<nat>, s: State)
    requires InRange(c.g, ids) && |s.fwd| == |c.g| && Inside(u, s.out) && forall id | id in ids :: id in u
    ensures Inside(u, DeclareAll(c.g, ids, s).out) && Inside(u, ListEnums(ids, s).out)
  {
    if ids != [] {
      assert ids == ids[..|ids| - 1] + [ids[|ids| - 1]];
      PrologueStays(c, u, ids[..|ids| - 1], s);
    }
  }

  /** When the shown edges do not leave the required set, the header defines exactly its named
      records and typedefs, and mentions nothing outside it. */
  lemma HeaderDefinesRequired(c: Base, ids: seq<nat>, u: set<nat>)
    requires Ranked(c) && InRange(c.g, ids) && Distinct(ids) && Header(c, ids).Done?
    requires Closed(c, u) && forall id: nat :: id in u <==> id == 0 || id in ids
    ensures Inside(u, Header(c, ids).st.out)
    ensures forall id: nat :: RecordBody(id) in Header(c, ids).st.out <==> id in ids && NamedRecord(c.g[id])
    ensures forall id: nat :: Alias(id) in Header(c, ids).st.out <==> id in ids && NamedTypedef(c.g[id])
  {
    HeaderOnce(c, ids);
    var tags := Select(c.g, ids, Tags);
    var enums := Select(c.g, ids, Enums);
    PrologueStays(c, u, tags, Start(|c.g|));
    PrologueStays(c, u, enums, DeclareAll(c.g, tags, Start(|c.g|)));
    forall j | j in HeaderJobs(c.g, ids)
      ensures j.id in u
    {
      JobsAre(c.g, ids, j);
    }
    AllStay(c, u, HeaderJobs(c.g, ids), Prologue(c.g, ids));
    PrologueOnce(c, ids);
    AllOnce(c, HeaderJobs(c.g, ids), Prologue(c.g, ids));
  }

  ghost function SetOf(ids: seq<nat>): set<nat> {
    set id | id in ids
  }

  /** What the header of a list of ids is about. */
  ghost function PlayOf(c: Base, ids: seq<nat>): Play
    requires InRange(c.g, ids)
  {
    Play(PlaySet(c, HeaderJobs(c.g, ids)), Seen(SetOf(ids), {}))
  }

  function FirstIds(jobs: seq<Job>, k: nat): set<nat>
    requires k <= |jobs|
  {
    set i | 0 <= i < k :: jobs[i].id
  }

  lemma FirstIdsNext(jobs: seq<Job>, k: nat)
    requires k < |jobs|
    ensures FirstIds(jobs, k + 1) == FirstIds(jobs, k) + {jobs[k].id}
  {
  }

  /** What the first `k` of the jobs define: with the required ids in order, all required typedefs
      come before any record. */
  ghost function SeenBefore(c: Base, ids: seq<nat>, k: nat): Seen
    requires InRange(c.g, ids) && k <= |HeaderJobs(c.g, ids)|
  {
    Seen(SetOf(ids), FirstIds(HeaderJobs(c.g, ids), k))
  }

  /** What one of the jobs is about. */
  ghost function PlayAt(c: Base, ids: seq<nat>, k: nat): Play
    requires InRange(c.g, ids) && k < |HeaderJobs(c.g, ids)|
  {
    Play(PlaySet(c, [HeaderJobs(c.g, ids)[k]]), SeenBefore(c, ids, k))
  }

  ghost predicate Pointees(c: Base, ids: seq<nat>)
    requires Ranked(c) && InRange(c.g, ids)
  {
    forall k | 0 <= k < |HeaderJobs(c.g, ids)| :: StillPointees(c, PlayAt(c, ids, k))
  }

  /** The hypotheses, for the header of a list of ids. */
  ghost predicate AllRegular(c: Base, ord: nat -> nat, ids: seq<nat>)
    requires InRange(c.g, ids)
  {
    Ranked(c) && Named(c, PlayOf(c, ids)) && Pointees(c, ids) && Ordered(c, ord, PlayOf(c, ids))
  }

  /** More has been seen, of what has a name. */
  ghost predicate Covers(c: Base, a: Seen, b: Seen) {
    && (forall id | id in a.declared && id < |c.g| && (Taggable(c.g[id]) || c.g[id].Enum?) :: id in b.declared)
    && (forall id | id in a.defined && id < |c.g| && (NamedRecord(c.g[id]) || NamedTypedef(c.g[id])) :: id in b.defined)
  }

  /** What asks for nothing asks for nothing where more has been seen. */
  lemma {:induction false} StillMore(c: Base, a: Seen, b: Seen, id: nat, whole: bool)
    requires Ranked(c) && Covers(c, a, b) && Still(c, a, id, whole)
    ensures Still(c, b, id, whole)
    decreases Height(c, id)
  {
    if 0 < id < |c.g| {
      match c.g[id]
      case Qualified(_, to) => StillMore(c, a, b, to, whole);
      case Tag(_, to) => StillMore(c, a, b, to, whole);
      case Ptr(to) => StillMore(c, a, b, to, false);
      case Array(elem, _, _) => StillMore(c, a, b, elem, whole);
      case Typedef(alias, to) =>
        if alias == "" || whole {
          StillMore(c, a, b, to, whole);
        }
      case Proto(ret, params) =>
        StillMore(c, a, b, ret, false);
        forall q | q in params
          ensures Still(c, b, q.ty, false)
        {
          assert Follows(c, id, q.ty);
          StillMore(c, a, b, q.ty, false);
        }
      case Record(_, tag, _) =>
        if tag == "" {
          forall m | m in Body(c, id)
            ensures Still(c, b, m.ty, true)
          {
            assert Follows(c, id, m.ty);
            StillMore(c, a, b, m.ty, true);
          }
        }
      case _ =>
    }
  }

  /** It is enough that pointees ask for nothing but what the header declares first. */
  lemma PointeesOf(c: Base, ids: seq<nat>)
    requires Ranked(c) && InRange(c.g, ids) && StillPointees(c, PlayOf(c, ids))
    ensures Pointees(c, ids)
  {
    hide HeaderJobs, PlaySet, Still, Ranked, InRange;
    forall k | 0 <= k < |HeaderJobs(c.g, ids)|
      ensures StillPointees(c, PlayAt(c, ids, k))
    {
      var p, q := PlayOf(c, ids), PlayAt(c, ids, k);
      OneInPlay(c, HeaderJobs(c.g, ids), k);
      forall j | j in q.jobs && j.Soft? && 0 < j.id < |c.g| && c.g[j.id].Record? && c.g[j.id].tag == ""
        ensures forall m | m in Body(c, j.id) :: Still(c, q.seen, m.ty, true)
      {
        forall m | m in Body(c, j.id)
          ensures Still(c, q.seen, m.ty, true)
        {
          StillMore(c, p.seen, q.seen, m.ty, true);
        }
      }
    }
  }

  /** What one job of many sets off, they all set off. */
  lemma OneInPlay(c: Base, jobs: seq<Job>, k: nat)
    requires k < |jobs|
    ensures PlaySet(c, [jobs[k]]) <= PlaySet(c, jobs)
  {
    hide PlaySet;
    PlayClosed(c, jobs);
    PlayIsLeast(c, [jobs[k]], PlaySet(c, jobs));
  }

  /** The enums in play are all required or taken as declared. */
  ghost predicate EnumsCovered(c: Base, free: set<nat>, ids: seq<nat>)
    requires InRange(c.g, ids)
  {
    && (forall j | j in PlayOf(c, ids).jobs && NamesEnum(c, j) :: j.id in free || j.id in ids)
    && (forall id | id in ids && c.g[id].Enum? :: id !in free)
  }

  lemma {:induction false} DeclareAllDeclares(c: Base, ids: seq<nat>, s: State)
    requires InRange(c.g, ids) && |s.fwd| == |c.g|
    ensures forall id | 0 <= id < |c.g| && s.fwd[id] :: DeclareAll(c.g, ids, s).fwd[id]
    ensures forall id | id in ids && Taggable(c.g[id]) :: DeclareAll(c.g, ids, s).fwd[id]
  {
    if ids != [] {
      assert ids == ids[..|ids| - 1] + [ids[|ids| - 1]];
      DeclareAllDeclares(c, ids[..|ids| - 1], s);
    }
  }

  ghost function Bound(ord: nat -> nat, jobs: seq<Job>): (b: nat)
    ensures forall j | j in jobs :: ord(j.id) < b
  {
    if jobs == [] then 0
    else
      var b := Bound(ord, jobs[1..]);
      assert forall j | j in jobs :: j == jobs[0] || j in jobs[1..];
      if ord(jobs[0].id) < b then b else ord(jobs[0].id) + 1
  }

  lemma JobsFine(c: Base, ord: nat -> nat, ids: seq<nat>)
    requires Ranked(c) && InRange(c.g, ids)
    ensures forall j | j in HeaderJobs(c.g, ids) ::
              Under(c, ord, j, Bound(ord, HeaderJobs(c.g, ids))) && Fine(c, PlayOf(c, ids), j)
  {
    var jobs := HeaderJobs(c.g, ids);
    PlayClosed(c, jobs);
    hide PlaySet, HeaderJobs, Under, Fine;
    forall j | j in jobs
      ensures Under(c, ord, j, Bound(ord, jobs)) && Fine(c, PlayOf(c, ids), j)
    {
      JobsAre(c.g, ids, j);
      DefineFine(c, ord, PlayOf(c, ids), j, Bound(ord, jobs));
    }
  }

  lemma DefineFine(c: Base, ord: nat -> nat, p: Play, j: Job, b: nat)
    requires Ranked(c) && j in p.jobs && j.id < |c.g| && ord(j.id) < b
    requires (j.DefineTypedef? && c.g[j.id].Typedef?) || (j.DefineRecord? && NamedRecord(c.g[j.id]))
    ensures Under(c, ord, j, b) && Fine(c, p, j)
  {
  }
}
