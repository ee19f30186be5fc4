/** Field accesses (src/seeds.c): an access string is walked through the object and the base types in
    lock step, and the base members on the way are marked. What was resolved once stays resolved on
    the pruned records. */
module Access {
  import opened Btf
  import opened AccessString

  const PEEL_LIMIT: nat := 64
  const SEARCH_LIMIT: nat := 16

  datatype Peeled = NoType | Peeled(id: nat)

  predicate IsTransparent(t: Type) {
    t.Typedef? || t.Qualified? || t.Tag? || t.Ptr? || t.Array?
  }

  function Inner(t: Type): nat
    requires IsTransparent(t)
  {
    if t.Array? then t.elem else t.to
  }

  /** The type under typedefs, qualifiers, tags, pointers and arrays, at most `left` nodes away. */
  function Peel(g: Graph, id: nat, left: nat): (p: Peeled)
    ensures p.Peeled? ==> 0 < p.id < |g| && !IsTransparent(g[p.id])
    decreases left
  {
    if left == 0 || id == 0 || id >= |g| then NoType
    else if IsTransparent(g[id]) then Peel(g, Inner(g[id]), left - 1)
    else Peeled(id)
  }

  /** The first `k` types from `id` on are transparent. */
  ghost predicate SeenThrough(g: Graph, id: nat, k: nat)
    decreases k
  {
    k == 0 || (0 < id < |g| && IsTransparent(g[id]) && SeenThrough(g, Inner(g[id]), k - 1))
  }

  ghost function SeenAt(g: Graph, id: nat, k: nat): nat
    requires SeenThrough(g, id, k)
    decreases k
  {
    if k == 0 then id else SeenAt(g, Inner(g[id]), k - 1)
  }

  /** Peeling gives the first type in reach that is not transparent, if there is one. */
  lemma {:induction false} PeelIsFirst(g: Graph, id: nat, left: nat, k: nat)
    requires k <= left && SeenThrough(g, id, k)
    requires k < left ==> !SeenThrough(g, SeenAt(g, id, k), 1)
    ensures var at := SeenAt(g, id, k);
            Peel(g, id, left) == if k < left && 0 < at < |g| then Peeled(at) else NoType
    decreases left
  {
    if k > 0 {
      PeelIsFirst(g, Inner(g[id]), left - 1, k - 1);
    }
  }

  method PeelAccessType(g: Graph, id: nat) returns (p: Peeled)
    ensures p == Peel(g, id, PEEL_LIMIT)
  {
    var current: nat := id;
    for depth := 0 to PEEL_LIMIT
      invariant Peel(g, id, PEEL_LIMIT) == Peel(g, current, PEEL_LIMIT - depth)
    {
      if current == 0 || current >= |g| {
        return NoType;
      }
      if !IsTransparent(g[current]) {
        return Peeled(current);
      }
      current := Inner(g[current]);
    }
    return NoType;
  }

  predicate IsRecord(g: Graph, p: Peeled) {
    p.Peeled? && p.id < |g| && g[p.id].Record?
  }

  /** The first shown member of that name from `from` on, or the number of members. */
  function FirstNamed(view: Marks, record: nat, members: seq<Member>, name: string, from: nat): (i: nat)
    requires from <= |members|
    ensures from <= i <= |members|
    ensures i < |members| ==> Shown(view, record, i) && members[i].name == name
    ensures forall k | from <= k < i :: !(Shown(view, record, k) && members[k].name == name)
    decreases |members| - from
  {
    if from == |members| || (Shown(view, record, from) && members[from].name == name) then from
    else FirstNamed(view, record, members, name, from + 1)
  }

  /** The member an access names, or the one at the same index if it has no name. */
  function FindMember(view: Marks, record: nat, members: seq<Member>, name: string, fallback: nat): (i: nat)
    ensures i <= |members| && (i < |members| ==> Shown(view, record, i))
  {
    if name != "" then FirstNamed(view, record, members, name, 0)
    else if fallback < |members| && Shown(view, record, fallback) then fallback
    else |members|
  }

  method FindBaseMember(ghost record: nat, members: seq<Member>, name: string, fallback: nat)
    returns (found: bool, index: nat)
    ensures found == (FindMember(map[], record, members, name, fallback) < |members|)
    ensures found ==> index == FindMember(map[], record, members, name, fallback)
  {
    found, index := false, 0;
    if name != "" {
      for i := 0 to |members|
        invariant FirstNamed(map[], record, members, name, 0) == FirstNamed(map[], record, members, name, i)
      {
        if members[i].name == name {
          return true, i;
        }
      }
      return;
    }
    if fallback >= |members| {
      return;
    }
    return true, fallback;
  }

  /** The result of a member search: the marks it leaves, innermost record first, and the type. */
  datatype Found = TooDeep | Missing | Found(path: seq<(nat, nat)>, ty: nat)

  /** The search for a member in the part of the records that `view` shows. */
  function Search(g: Graph, view: Marks, record: nat, name: string, fallback: nat, depth: nat): Found
    requires record < |g| && g[record].Record? && depth <= SEARCH_LIMIT + 1
    decreases SEARCH_LIMIT + 1 - depth, |g[record].members| + 1
  {
    var members := g[record].members;
    var i := FindMember(view, record, members, name, fallback);
    if depth > SEARCH_LIMIT then TooDeep
    else if i < |members| then Found([(record, i)], members[i].ty)
    else if name == "" then Missing
    else SearchWrappers(g, view, record, name, depth, 0)
  }

  /** Whether a search looks inside member `i`: it is shown, has no name and leads to a record. */
  predicate IsWrapper(g: Graph, view: Marks, record: nat, i: nat)
    requires record < |g| && g[record].Record? && i < |g[record].members|
  {
    var m := g[record].members[i];
    Shown(view, record, i) && m.name == "" && IsRecord(g, Peel(g, m.ty, PEEL_LIMIT))
  }

  function SearchWrappers(g: Graph, view: Marks, record: nat, name: string, depth: nat, from: nat): Found
    requires record < |g| && g[record].Record? && depth <= SEARCH_LIMIT && from <= |g[record].members|
    decreases SEARCH_LIMIT + 1 - depth, |g[record].members| - from
  {
    var members := g[record].members;
    if from == |members| then Missing
    else if !IsWrapper(g, view, record, from) then SearchWrappers(g, view, record, name, depth, from + 1)
    else
      var nested := Peel(g, members[from].ty, PEEL_LIMIT).id;
      match Search(g, view, nested, name, UINT32_MAX, depth + 1)
      case TooDeep => TooDeep
      case Missing => SearchWrappers(g, view, record, name, depth, from + 1)
      case Found(path, ty) => Found(path + [(record, from)], ty)
  }

  /** One view shows nothing that another hides. */
  ghost predicate Within(less: Marks, more: Marks) {
    forall r: nat, m: nat | Shown(less, r, m) :: Shown(more, r, m)
  }

  ghost predicate ShowsPath(view: Marks, path: seq<(nat, nat)>) {
    forall p | p in path :: Shown(view, p.0, p.1)
  }

  /** Showing less loses no member whose path is shown, and finds none that was missing. */
  lemma {:induction false} SearchStable(g: Graph, less: Marks, more: Marks, record: nat, name: string, fallback: nat,
                                        depth: nat)
    requires record < |g| && g[record].Record? && depth <= SEARCH_LIMIT + 1 && Within(less, more)
    ensures var f := Search(g, more, record, name, fallback, depth);
            f.Missing? || (f.Found? && ShowsPath(less, f.path)) ==> Search(g, less, record, name, fallback, depth) == f
    decreases SEARCH_LIMIT + 1 - depth, |g[record].members| + 1
  {
    var members := g[record].members;
    var f := Search(g, more, record, name, fallback, depth);
    var i := FindMember(more, record, members, name, fallback);
    if depth <= SEARCH_LIMIT {
      if i < |members| {
        assert f.path[0] == (record, i);
        assert ShowsPath(less, f.path) ==> Shown(less, record, i);
      } else if name != "" {
        WrappersStable(g, less, more, record, name, depth, 0);
      }
    }
  }

  lemma {:induction false} WrappersStable(g: Graph, less: Marks, more: Marks, record: nat, name: string, depth: nat,
                                          from: nat)
    requires record < |g| && g[record].Record? && depth <= SEARCH_LIMIT && from <= |g[record].members|
    requires name != "" && Within(less, more)
    ensures var f := SearchWrappers(g, more, record, name, depth, from);
            f.Missing? || (f.Found? && ShowsPath(less, f.path)) ==>
              SearchWrappers(g, less, record, name, depth, from) == f
    decreases SEARCH_LIMIT + 1 - depth, |g[record].members| - from
  {
    var members := g[record].members;
    if from < |members| {
      WrappersStable(g, less, more, record, name, depth, from + 1);
      if IsWrapper(g, more, record, from) {
        var nested := Peel(g, members[from].ty, PEEL_LIMIT).id;
        SearchStable(g, less, more, nested, name, UINT32_MAX, depth + 1);
        var f := Search(g, more, nested, name, UINT32_MAX, depth + 1);
        if f.Found? {
          var path := f.path + [(record, from)];
          assert (record, from) in path && forall p | p in f.path :: p in path;
        }
      }
    }
  }

  /** One component of an access: what is marked, the base type and the object type it leads to. */
  datatype Step = NoStep | Step(name: string, path: seq<(nat, nat)>, base: nat, object_type: nat)

  function StepTo(o: Graph, g: Graph, view: Marks, object_id: nat, base_id: nat, component: nat): Step {
    var from := Peel(o, object_id, PEEL_LIMIT);
    var at := Peel(g, base_id, PEEL_LIMIT);
    if !IsRecord(o, from) || !IsRecord(g, at) || component >= |o[from.id].members| then NoStep
    else
      var member := o[from.id].members[component];
      match Search(g, view, at.id, member.name, component, 0)
      case Found(path, ty) => Step(member.name, path, ty, member.ty)
      case _ => NoStep
  }

  /** The steps of an access, up to the first that fails. */
  datatype Trail = Trail(ok: bool, steps: seq<Step>)

  function Follow(o: Graph, g: Graph, view: Marks, object_id: nat, base_id: nat, s: string): (t: Trail)
    ensures forall step | step in t.steps :: step.Step?
    decreases |s|
  {
    if s == "" then Trail(true, [])
    else
      var c := FirstComponent(s);
      var step := if c.Component? then StepTo(o, g, view, object_id, base_id, c.value) else NoStep;
      if step.NoStep? then Trail(false, [])
      else
        var later := Follow(o, g, view, step.object_type, step.base, c.rest);
        Trail(later.ok, [step] + later.steps)
  }

  /** A field access from an object type and its base type; the first component is not a member. */
  function FieldAccess(o: Graph, g: Graph, view: Marks, type_id: nat, base_id: nat, access: string): (t: Trail)
    ensures forall step | step in t.steps :: step.Step?
  {
    if access == "" then Trail(true, [])
    else
      var root := FirstComponent(access);
      if root.NoComponent? then Trail(false, []) else Follow(o, g, view, type_id, base_id, root.rest)
  }

  /** The members a walk marks. */
  function PathPairs(path: seq<(nat, nat)>): set<(nat, nat)> {
    set p | p in path
  }

  function StepPairs(steps: seq<Step>): (pairs: set<(nat, nat)>)
    requires forall step | step in steps :: step.Step?
  {
    if steps == [] then {} else PathPairs(steps[0].path) + StepPairs(steps[1..])
  }

  ghost predicate ShowsPairs(view: Marks, pairs: set<(nat, nat)>) {
    forall p | p in pairs :: Shown(view, p.0, p.1)
  }

  lemma {:induction false} FollowStable(o: Graph, g: Graph, view: Marks, object_id: nat, base_id: nat, s: string)
    requires ShowsPairs(view, StepPairs(Follow(o, g, map[], object_id, base_id, s).steps))
    requires Follow(o, g, map[], object_id, base_id, s).ok
    ensures Follow(o, g, view, object_id, base_id, s) == Follow(o, g, map[], object_id, base_id, s)
    decreases |s|
  {
    if s != "" {
      hide Search, Peel;
      var c := FirstComponent(s);
      var step := StepTo(o, g, map[], object_id, base_id, c.value);
      var trail := Follow(o, g, map[], object_id, base_id, s);
      assert trail.steps[1..] == Follow(o, g, map[], step.object_type, step.base, c.rest).steps;
      var from := Peel(o, object_id, PEEL_LIMIT);
      var at := Peel(g, base_id, PEEL_LIMIT);
      SearchStable(g, view, map[], at.id, o[from.id].members[c.value].name, c.value, 0);
      assert forall p | p in step.path :: p in PathPairs(step.path);
      FollowStable(o, g, view, step.object_type, step.base, c.rest);
    }
  }

  /** Every access already resolved survives pruning: on any view that shows what it marked, it takes
      the same steps, through the same records and members, to the same types. */
  lemma AccessSurvives(o: Graph, g: Graph, view: Marks, type_id: nat, base_id: nat, access: string)
    requires FieldAccess(o, g, map[], type_id, base_id, access).ok
    requires ShowsPairs(view, StepPairs(FieldAccess(o, g, map[], type_id, base_id, access).steps))
    ensures FieldAccess(o, g, view, type_id, base_id, access) == FieldAccess(o, g, map[], type_id, base_id, access)
  {
    if access != "" {
      FollowStable(o, g, view, type_id, base_id, FirstComponent(access).rest);
    }
  }

  /** The steps of a well-formed access string are those of its list of components. */
  function FollowAll(o: Graph, g: Graph, view: Marks, object_id: nat, base_id: nat, components: seq<nat>): (t: Trail)
    ensures forall step | step in t.steps :: step.Step?
    decreases |components|
  {
    if components == [] then Trail(true, [])
    else
      var step := StepTo(o, g, view, object_id, base_id, components[0]);
      if step.NoStep? then Trail(false, [])
      else
        var later := FollowAll(o, g, view, step.object_type, step.base, components[1..]);
        Trail(later.ok, [step] + later.steps)
  }

  lemma {:induction false} FollowReads(o: Graph, g: Graph, view: Marks, object_id: nat, base_id: nat, s: string)
    ensures var t := Follow(o, g, view, object_id, base_id, s);
            match Components(s)
            case Malformed => !t.ok
            case Parsed(values) => t == FollowAll(o, g, view, object_id, base_id, values)
    decreases |s|
  {
    if s != "" {
      var c := FirstComponent(s);
      if c.Component? {
        var step := StepTo(o, g, view, object_id, base_id, c.value);
        if step.Step? {
          FollowReads(o, g, view, step.object_type, step.base, c.rest);
        }
      }
    }
  }

  /** A mark names a member of a record. */
  predicate IsMember(g: Graph, p: (nat, nat)) {
    0 < p.0 < |g| && g[p.0].Record? && p.1 < |g[p.0].members|
  }

  lemma {:induction false} SearchMarksMembers(g: Graph, view: Marks, record: nat, name: string, fallback: nat,
                                              depth: nat)
    requires 0 < record < |g| && g[record].Record? && depth <= SEARCH_LIMIT + 1
    ensures var f := Search(g, view, record, name, fallback, depth);
            f.Found? ==> f.path != [] && forall p | p in f.path :: IsMember(g, p)
    decreases SEARCH_LIMIT + 1 - depth, |g[record].members| + 1
  {
    var members := g[record].members;
    if depth <= SEARCH_LIMIT && name != "" && FindMember(view, record, members, name, fallback) == |members| {
      WrappersMarkMembers(g, view, record, name, depth, 0);
    }
  }

  lemma {:induction false} WrappersMarkMembers(g: Graph, view: Marks, record: nat, name: string, depth: nat, from: nat)
    requires 0 < record < |g| && g[record].Record? && depth <= SEARCH_LIMIT && from <= |g[record].members|
    ensures var f := SearchWrappers(g, view, record, name, depth, from);
            f.Found? ==> f.path != [] && forall p | p in f.path :: IsMember(g, p)
    decreases SEARCH_LIMIT + 1 - depth, |g[record].members| - from
  {
    if from < |g[record].members| {
      WrappersMarkMembers(g, view, record, name, depth, from + 1);
      if IsWrapper(g, view, record, from) {
        SearchMarksMembers(g, view, Peel(g, g[record].members[from].ty, PEEL_LIMIT).id, name, UINT32_MAX, depth + 1);
      }
    }
  }

  lemma StepMarksMembers(o: Graph, g: Graph, object_id: nat, base_id: nat, component: nat)
    ensures var step := StepTo(o, g, map[], object_id, base_id, component);
            step.Step? ==> forall p | p in PathPairs(step.path) :: IsMember(g, p)
  {
    hide Search, Peel;
    var from, at := Peel(o, object_id, PEEL_LIMIT), Peel(g, base_id, PEEL_LIMIT);
    if StepTo(o, g, map[], object_id, base_id, component).Step? {
      PeelInRange(g, base_id);
      SearchMarksMembers(g, map[], at.id, o[from.id].members[component].name, component, 0);
    }
  }

  lemma PeelInRange(g: Graph, id: nat)
    ensures Peel(g, id, PEEL_LIMIT).Peeled? ==> 0 < Peel(g, id, PEEL_LIMIT).id < |g|
  {
  }

  lemma {:induction false} FollowMarksMembers(o: Graph, g: Graph, object_id: nat, base_id: nat, s: string)
    ensures forall p | p in StepPairs(Follow(o, g, map[], object_id, base_id, s).steps) :: IsMember(g, p)
    decreases |s|
  {
    if s != "" {
      hide StepTo, IsMember;
      var c := FirstComponent(s);
      if c.Component? {
        var step := StepTo(o, g, map[], object_id, base_id, c.value);
        StepMarksMembers(o, g, object_id, base_id, c.value);
        if step.Step? {
          FollowMarksMembers(o, g, step.object_type, step.base, c.rest);
          var later := Follow(o, g, map[], step.object_type, step.base, c.rest).steps;
          assert ([step] + later)[1..] == later;
        }
      }
    }
  }

  /** An access marks nothing but members of records. */
  lemma AccessMarksMembers(o: Graph, g: Graph, type_id: nat, base_id: nat, access: string)
    ensures forall p | p in StepPairs(FieldAccess(o, g, map[], type_id, base_id, access).steps) :: IsMember(g, p)
  {
    var root := FirstComponent(access);
    if access != "" && root.Component? {
      FollowMarksMembers(o, g, type_id, base_id, root.rest);
    }
  }
}
