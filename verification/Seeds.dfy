/** What the input objects ask of the base types (src/seeds.c): seeds, root types and members. */
module Seeds {
  import opened Btf
  import opened Bitset
  import opened TypeSets
  import opened Requirement
  import opened AccessString
  import opened Access

  /** The pruned records once all of `pairs` are kept too. */
  function MarkAll(marks: Marks, pairs: set<(nat, nat)>): Marks {
    map id: nat | id in marks.Keys + Firsts(pairs) :: (if id in marks then marks[id] else {}) + MembersOf(pairs, id)
  }

  function Firsts(pairs: set<(nat, nat)>): set<nat> {
    set p | p in pairs :: p.0
  }

  function MembersOf(pairs: set<(nat, nat)>, id: nat): set<nat> {
    set p | p in pairs && p.0 == id :: p.1
  }

  lemma MarkNone(marks: Marks)
    ensures MarkAll(marks, {}) == marks && Firsts({}) == {}
  {
    forall id | id in marks
      ensures MarkAll(marks, {})[id] == marks[id]
    {
      assert MembersOf({}, id) == {};
    }
    assert Firsts({}) == {};
    assert MarkAll(marks, {}).Keys == marks.Keys;
  }

  lemma PairsUnion(p: set<(nat, nat)>, q: set<(nat, nat)>)
    ensures Firsts(p + q) == Firsts(p) + Firsts(q)
    ensures forall id :: MembersOf(p + q, id) == MembersOf(p, id) + MembersOf(q, id)
  {
  }

  lemma MarkTwice(marks: Marks, p: set<(nat, nat)>, q: set<(nat, nat)>)
    ensures MarkAll(MarkAll(marks, p), q) == MarkAll(marks, p + q)
  {
    PairsUnion(p, q);
    var once, twice := MarkAll(marks, p), MarkAll(marks, p + q);
    forall id | id in twice
      ensures MarkAll(once, q)[id] == twice[id]
    {
      assert id !in Firsts(p) ==> MembersOf(p, id) == {};
    }
  }

  lemma MarkOne(marks: Marks, id: nat, member: nat)
    ensures Keep(marks, id, member) == MarkAll(marks, {(id, member)})
  {
    var pairs := {(id, member)};
    assert (id, member) in pairs;
    assert Firsts(pairs) == {id};
    assert MembersOf(pairs, id) == {member};
    var kept, marked := Keep(marks, id, member), MarkAll(marks, pairs);
    assert marked.Keys == kept.Keys;
    forall other | other in kept
      ensures marked[other] == kept[other]
    {
      assert other != id ==> MembersOf(pairs, other) == {};
    }
  }

  /** A marked member is shown, whatever else is marked. */
  lemma MarkedShown(marks: Marks, pairs: set<(nat, nat)>)
    ensures ShowsPairs(MarkAll(marks, pairs), pairs)
  {
    forall p | p in pairs
      ensures Shown(MarkAll(marks, pairs), p.0, p.1)
    {
      assert p.1 in MembersOf(pairs, p.0);
    }
  }

  /** Where nothing was marked before, a record with a mark shows what is marked and nothing else. */
  lemma MarkedAlone(pairs: set<(nat, nat)>, id: nat, member: nat)
    ensures Shown(MarkAll(map[], pairs), id, member) <==> id !in Firsts(pairs) || (id, member) in pairs
  {
    assert member in MembersOf(pairs, id) <==> (id, member) in pairs;
  }

  /** What the format can hold: 32-bit type ids, 16-bit member counts. */
  ghost predicate Encodable(g: Graph) {
    && |g| <= Requirement.UINT32_MAX + 1
    && forall t | t in g && t.Record? :: |t.members| <= 0xFFFF
  }

  lemma FirstOfOne(p: (nat, nat))
    ensures Firsts({p}) == {p.0}
  {
    assert p in {p};
  }

  lemma OnePair(p: (nat, nat))
    ensures PathPairs([p]) == {p}
  {
  }

  lemma MorePairs(path: seq<(nat, nat)>, p: (nat, nat))
    ensures PathPairs(path + [p]) == PathPairs(path) + {p}
  {
    assert forall q :: q in path + [p] <==> q in path || q == p;
  }

  lemma {:induction false} PairsMore(steps: seq<Step>, step: Step)
    requires step.Step? && forall s | s in steps :: s.Step?
    ensures forall s | s in steps + [step] :: s.Step?
    ensures StepPairs(steps + [step]) == StepPairs(steps) + PathPairs(step.path)
  {
    if steps == [] {
      assert steps + [step] == [step];
    } else {
      assert (steps + [step])[1..] == steps[1..] + [step];
      PairsMore(steps[1..], step);
    }
  }

  datatype ReloKind =
    | FieldByteOffset | FieldByteSize | FieldExists | FieldSigned | FieldLshift | FieldRshift
    | TypeIdLocal | TypeIdTarget | TypeExists | TypeSize | EnumvalExists | EnumvalValue | TypeMatches
    | OtherKind

  /** The kinds in the order of their codes. */
  function ReloKindOf(code: nat): ReloKind {
    var kinds := [FieldByteOffset, FieldByteSize, FieldExists, FieldSigned, FieldLshift, FieldRshift,
                  TypeIdLocal, TypeIdTarget, TypeExists, TypeSize, EnumvalExists, EnumvalValue, TypeMatches];
    if code < |kinds| then kinds[code] else OtherKind
  }

  predicate IsFieldKind(k: ReloKind) {
    k in {FieldByteOffset, FieldByteSize, FieldExists, FieldSigned, FieldLshift, FieldRshift}
  }

  datatype Relo = Relo(type_id: nat, access: string, kind: ReloKind)

  /** The steps of a relocation against the part of the base records that `view` shows. */
  function ReloTrail(o: Graph, g: Graph, view: Marks, relo: Relo, base_id: nat): (t: Trail)
    ensures forall step | step in t.steps :: step.Step?
  {
    if IsFieldKind(relo.kind) then FieldAccess(o, g, view, relo.type_id, base_id, relo.access) else Trail(true, [])
  }

  /** A walk has taken `steps` and goes on with `s`. */
  ghost predicate Underway(o: Graph, g: Graph, object_id: nat, base_id: nat, s: string, steps: seq<Step>,
                           whole: Trail)
  {
    && (forall step | step in steps :: step.Step?)
    && var later := Follow(o, g, map[], object_id, base_id, s);
       whole == Trail(later.ok, steps + later.steps)
  }

  lemma UnderwayStarts(o: Graph, g: Graph, object_id: nat, base_id: nat, s: string)
    ensures Underway(o, g, object_id, base_id, s, [], Follow(o, g, map[], object_id, base_id, s))
    ensures StepPairs([]) == {}
  {
    var whole := Follow(o, g, map[], object_id, base_id, s);
    assert [] + whole.steps == whole.steps;
  }

  lemma UnderwayNext(o: Graph, g: Graph, object_id: nat, base_id: nat, s: string, steps: seq<Step>, whole: Trail)
    requires Underway(o, g, object_id, base_id, s, steps, whole)
    ensures s == "" ==> whole == Trail(true, steps)
    ensures s != "" && FirstComponent(s).NoComponent? ==> whole == Trail(false, steps)
    ensures s != "" && FirstComponent(s).Component? ==>
              var c := FirstComponent(s);
              var step := StepTo(o, g, map[], object_id, base_id, c.value);
              if step.NoStep? then whole == Trail(false, steps)
              else Underway(o, g, step.object_type, step.base, c.rest, steps + [step], whole)
  {
    hide StepTo, FirstComponent;
    assert steps + [] == steps;
    if s != "" && FirstComponent(s).Component? {
      var c := FirstComponent(s);
      var step := StepTo(o, g, map[], object_id, base_id, c.value);
      if step.Step? {
        var next := Follow(o, g, map[], step.object_type, step.base, c.rest);
        assert steps + ([step] + next.steps) == (steps + [step]) + next.steps;
      }
    }
  }

  class Extraction {
    const g: Graph
    const seeds: TypeSet
    const requirements: Requirements

    ghost predicate Valid()
      reads this, seeds, seeds.words, requirements
      reads requirements.type_root_words, requirements.record_member_words, requirements.record_member_counts
    {
      && Encodable(g)
      && seeds.Valid() && seeds.count == |g|
      && requirements.Valid() && requirements.RowsFit(g) && requirements.NoEmptyRow()
      && seeds.words != requirements.type_root_words
    }

    /** The members in `pairs` have been marked since the marks and seeds were these. */
    ghost predicate Marked(marks: Marks, ids: set<nat>, pairs: set<(nat, nat)>)
      reads this, seeds, seeds.words, requirements
      reads requirements.type_root_words, requirements.record_member_words, requirements.record_member_counts
    {
      && Valid()
      && requirements.Pruned() == MarkAll(marks, pairs)
      && seeds.Ids() == ids + Firsts(pairs)
    }

    lemma NothingMarked()
      requires Valid()
      ensures Marked(requirements.Pruned(), seeds.Ids(), {})
    {
      MarkNone(requirements.Pruned());
    }

    lemma MarkedMore(marks: Marks, ids: set<nat>, p: set<(nat, nat)>, q: set<(nat, nat)>)
      requires Marked(MarkAll(marks, p), ids + Firsts(p), q)
      ensures Marked(marks, ids, p + q)
    {
      hide MarkAll;
      MarkTwice(marks, p, q);
      PairsUnion(p, q);
    }

    constructor (g: Graph)
      requires Encodable(g)
      ensures Valid() && this.g == g
      ensures seeds.Ids() == {} && requirements.Roots() == {} && requirements.Pruned() == map[]
      ensures requirements.traces == []
      ensures fresh(seeds) && fresh(seeds.words) && fresh(requirements)
      ensures fresh(requirements.type_root_words) && fresh(requirements.record_member_words)
      ensures fresh(requirements.record_member_counts)
    {
      this.g := g;
      seeds := new TypeSet(|g|);
      requirements := new Requirements(|g|);
    }

    /** Requires a member and seeds its record. */
    method Mark(record: nat, member: nat, origin: Origin) returns (ok: bool)
      requires Valid() && record < |g| && g[record].Record? && member < |g[record].members|
      modifies requirements`traces, requirements`record_members, seeds`selected, seeds.words
      modifies requirements.record_member_words, requirements.record_member_counts
      ensures Marked(old(requirements.Pruned()), old(seeds.Ids()), {(record, member)}) && ok
      ensures Adds(old(requirements.traces), requirements.traces, MemberTraces({(record, member)}, origin))
    {
      hide Witness, Members, MarkAll, Adds;
      assert g[record] in g;
      AddsMember(requirements.traces, record, member, origin);
      MarkOne(requirements.Pruned(), record, member);
      FirstOfOne((record, member));
      ok := requirements.AddRecordMember(g, record, member, origin);
      var added := seeds.Add(record);
    }

    /** `mark_base_member_path`: marks the member a search finds, and the wrappers it went through. */
    method MarkBaseMemberPath(record: nat, name: string, fallback: nat, depth: nat, origin: Origin)
      returns (rc: int, member_type: nat)
      requires Valid() && record < |g| && g[record].Record? && depth <= SEARCH_LIMIT + 1
      modifies requirements`traces, requirements`record_members, seeds`selected, seeds.words
      modifies requirements.record_member_words, requirements.record_member_counts
      ensures var f := Search(g, map[], record, name, fallback, depth);
              && rc == (if f.TooDeep? then -1 else if f.Missing? then 0 else 1)
              && (f.Found? ==>
                    member_type == f.ty && Marked(old(requirements.Pruned()), old(seeds.Ids()), PathPairs(f.path)))
      ensures rc <= 0 ==>
                Valid() && requirements.Pruned() == old(requirements.Pruned()) && seeds.Ids() == old(seeds.Ids())
      ensures rc <= 0 ==> requirements.traces == old(requirements.traces)
      ensures var f := Search(g, map[], record, name, fallback, depth);
              f.Found? ==> Adds(old(requirements.traces), requirements.traces, MemberTraces(PathPairs(f.path), origin))
      decreases SEARCH_LIMIT + 1 - depth
    {
      hide Extraction.Valid, TypeSet.Ids, Requirements.Pruned, MarkAll, Firsts, Peel, FindMember, PathPairs, Adds;
      hide MemberTraces;
      rc, member_type := 0, 0;
      var members := g[record].members;
      if depth > SEARCH_LIMIT {
        return -1, 0;
      }
      var found, index := FindBaseMember(record, members, name, fallback);
      if found {
        OnePair((record, index));
        var ok := Mark(record, index, origin);
        if !ok {
          rc := -1;
          return;
        }
        return 1, members[index].ty;
      }
      if name == "" {
        return;
      }
      for i := 0 to |members|
        invariant Valid() && rc == 0
        invariant Search(g, map[], record, name, fallback, depth) == SearchWrappers(g, map[], record, name, depth, i)
        invariant requirements.Pruned() == old(requirements.Pruned()) && seeds.Ids() == old(seeds.Ids())
        invariant requirements.traces == old(requirements.traces)
      {
        if members[i].name != "" {
          continue;
        }
        var nested := PeelAccessType(g, members[i].ty);
        if nested.NoType? || !g[nested.id].Record? {
          continue;
        }
        rc, member_type := MarkBaseMemberPath(nested.id, name, AccessString.UINT32_MAX, depth + 1, origin);
        if rc < 0 {
          return -1, 0;
        }
        if rc > 0 {
          ghost var path := Search(g, map[], nested.id, name, AccessString.UINT32_MAX, depth + 1).path;
          MorePairs(path, (record, i));
          ghost var inner := requirements.traces;
          var ok := Mark(record, i, origin);
          if !ok {
            rc := -1;
            return;
          }
          MarkedMore(old(requirements.Pruned()), old(seeds.Ids()), PathPairs(path), {(record, i)});
          AddsMembers(old(requirements.traces), inner, requirements.traces, PathPairs(path), {(record, i)}, origin);
          return 1, member_type;
        }
      }
    }

    /** One component of an access: the base and object types it leads to, and the marks it leaves. */
    method TakeStep(o: Graph, object_id: nat, base_id: nat, component: nat, origin: Origin)
      returns (ok: bool, base: nat, object_type: nat, ghost step: Step)
      requires Valid()
      modifies requirements`traces, requirements`record_members, seeds`selected, seeds.words
      modifies requirements.record_member_words, requirements.record_member_counts
      ensures step == StepTo(o, g, map[], object_id, base_id, component)
      ensures ok == step.Step? && (ok ==> base == step.base && object_type == step.object_type)
      ensures var pairs := if ok then PathPairs(step.path) else {};
              && Marked(old(requirements.Pruned()), old(seeds.Ids()), pairs)
              && Adds(old(requirements.traces), requirements.traces, MemberTraces(pairs, origin))
    {
      hide Extraction.Valid, Peel, Search, PathPairs, MarkAll, Firsts, Adds, MemberTraces;
      MarkNone(requirements.Pruned());
      AddsNothing(requirements.traces, origin);
      ok, base, object_type, step := false, 0, 0, StepTo(o, g, map[], object_id, base_id, component);
      var from := PeelAccessType(o, object_id);
      var at := PeelAccessType(g, base_id);
      if !IsRecord(o, from) || !IsRecord(g, at) || component >= |o[from.id].members| {
        return;
      }
      var member := o[from.id].members[component];
      var rc, member_type := MarkBaseMemberPath(at.id, member.name, component, 0, origin);
      if rc <= 0 {
        return;
      }
      ok, base, object_type := true, member_type, member.ty;
    }

    /** The loop of `record_core_relo_requirements`: follows the components from the cursor on. */
    method FollowAccess(o: Graph, type_id: nat, base_id: nat, access: string, start: nat, origin: Origin)
      returns (ok: bool)
      requires Valid() && '\0' !in access && start <= |access|
      modifies requirements`traces, requirements`record_members, seeds`selected, seeds.words
      modifies requirements.record_member_words, requirements.record_member_counts
      ensures ok == Follow(o, g, map[], type_id, base_id, access[start..]).ok
      ensures var pairs := StepPairs(Follow(o, g, map[], type_id, base_id, access[start..]).steps);
              && Marked(old(requirements.Pruned()), old(seeds.Ids()), pairs)
              && Adds(old(requirements.traces), requirements.traces, MemberTraces(pairs, origin))
    {
      hide Extraction.Valid, TypeSet.Ids, Requirements.Pruned, StepTo, FirstComponent, MarkAll, Firsts, Follow, Adds;
      hide MemberTraces;
      AddsNothing(requirements.traces, origin);
      NothingMarked();
      ghost var steps: seq<Step> := [];
      ghost var whole := Follow(o, g, map[], type_id, base_id, access[start..]);
      UnderwayStarts(o, g, type_id, base_id, access[start..]);
      hide Underway, StepPairs;
      var cursor, object_id, current_base_id := start, type_id, base_id;
      while cursor < |access|
        invariant Valid() && cursor <= |access|
        invariant forall step | step in steps :: step.Step?
        invariant Underway(o, g, object_id, current_base_id, access[cursor..], steps, whole)
        invariant Marked(old(requirements.Pruned()), old(seeds.Ids()), StepPairs(steps))
        invariant Adds(old(requirements.traces), requirements.traces, MemberTraces(StepPairs(steps), origin))
        decreases |access| - cursor
      {
        UnderwayNext(o, g, object_id, current_base_id, access[cursor..], steps, whole);
        var parsed, component;
        parsed, cursor, component := ParseAccessComponent(access, cursor);
        if !parsed {
          return false;
        }
        ghost var step, so_far := *, requirements.traces;
        ok, current_base_id, object_id, step := TakeStep(o, object_id, current_base_id, component, origin);
        ghost var pairs := if ok then PathPairs(step.path) else {};
        MarkedMore(old(requirements.Pruned()), old(seeds.Ids()), StepPairs(steps), pairs);
        AddsMembers(old(requirements.traces), so_far, requirements.traces, StepPairs(steps), pairs, origin);
        if !ok {
          assert StepPairs(steps) + {} == StepPairs(steps);
          return;
        }
        PairsMore(steps, step);
        steps := steps + [step];
      }
      UnderwayNext(o, g, object_id, current_base_id, access[cursor..], steps, whole);
      return true;
    }

    /** `record_core_relo_requirements`: follows the access of a field relocation through the object
        and base types, marking the base members on the way. */
    method RecordCoreReloRequirements(o: Graph, relo: Relo, base_id: nat, origin: Origin) returns (ok: bool)
      requires Valid() && '\0' !in relo.access
      modifies requirements`traces, requirements`record_members, seeds`selected, seeds.words
      modifies requirements.record_member_words, requirements.record_member_counts
      ensures ok == ReloTrail(o, g, map[], relo, base_id).ok
      ensures var pairs := StepPairs(ReloTrail(o, g, map[], relo, base_id).steps);
              && Marked(old(requirements.Pruned()), old(seeds.Ids()), pairs)
              && Adds(old(requirements.traces), requirements.traces, MemberTraces(pairs, origin))
    {
      hide Extraction.Valid, Extraction.Marked, FirstComponent, Follow, Adds, MemberTraces;
      NothingMarked();
      AddsNothing(requirements.traces, origin);
      var access := relo.access;
      if !IsFieldKind(relo.kind) || access == "" {
        return true;
      }
      assert access[0..] == access;
      var parsed, cursor, ignored_root := ParseAccessComponent(access, 0);
      if !parsed {
        return false;
      }
      ok := FollowAccess(o, relo.type_id, base_id, access, cursor, origin);
    }
  }
}
