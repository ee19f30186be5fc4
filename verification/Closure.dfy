/** The dependency closure (src/closure.c): a worklist over the edges of the type graph, which
    depend on the pruned records and on whether pointers are expanded. */
module Closure {
  import opened Btf
  import opened Bitset
  import opened TypeSets
  import opened Requirement
  import opened Meaning

  datatype Options = Options(marks: Marks, expand_pointers: bool)

  /** The types a type depends on, in the order they are added. */
  function Deps(g: Graph, o: Options, id: nat): seq<nat>
    requires id < |g|
  {
    match g[id]
    case Ptr(to) => if o.expand_pointers then [to] else []
    case Typedef(_, to) => [to]
    case Qualified(_, to) => [to]
    case Func(_, to) => [to]
    case Var(_, to) => [to]
    case Tag(_, to) => [to]
    case Array(elem, index, _) => [elem, index]
    case Record(_, _, members) => MemberTypes(ShownMembers(o.marks, id, members, 0))
    case Proto(ret, params) => [ret] + ParamTypes(params)
    case DataSec(_, vars) => vars
    case _ => []
  }

  ghost predicate Edge(g: Graph, o: Options, from: nat, to: nat) {
    from < |g| && to != 0 && to in Deps(g, o, from)
  }

  ghost predicate IsPath(g: Graph, o: Options, path: seq<nat>) {
    path != [] && forall i | 0 <= i < |path| - 1 :: Edge(g, o, path[i], path[i + 1])
  }

  /** A type that some path of dependencies leads to from a seed. */
  ghost predicate Reached(g: Graph, o: Options, seeds: set<nat>, id: nat) {
    exists path :: IsPath(g, o, path) && path[0] in seeds && path[|path| - 1] == id
  }

  ghost predicate ClosedUnder(g: Graph, o: Options, s: set<nat>) {
    forall from: nat, to: nat | from in s && Edge(g, o, from, to) :: to in s
  }

  lemma SeedReached(g: Graph, o: Options, seeds: set<nat>, id: nat)
    requires id in seeds
    ensures Reached(g, o, seeds, id)
  {
    assert IsPath(g, o, [id]);
  }

  lemma NextReached(g: Graph, o: Options, seeds: set<nat>, from: nat, to: nat)
    requires Reached(g, o, seeds, from) && Edge(g, o, from, to)
    ensures Reached(g, o, seeds, to)
  {
    var path :| IsPath(g, o, path) && path[0] in seeds && path[|path| - 1] == from;
    var longer := path + [to];
    assert IsPath(g, o, longer);
  }

  /** Nothing outside a closed set that contains the seeds is reached. */
  lemma {:induction false} ReachedStays(g: Graph, o: Options, s: set<nat>, path: seq<nat>)
    requires ClosedUnder(g, o, s) && IsPath(g, o, path) && path[0] in s
    ensures path[|path| - 1] in s
    decreases |path|
  {
    if |path| > 1 {
      assert Edge(g, o, path[0], path[1]);
      assert IsPath(g, o, path[1..]);
      ReachedStays(g, o, s, path[1..]);
    }
  }

  /** The set of reached types: the least closed set that contains the seeds. */
  ghost predicate IsClosure(g: Graph, o: Options, seeds: set<nat>, s: set<nat>) {
    forall id: nat :: id in s <==> Reached(g, o, seeds, id)
  }

  lemma ClosureIsLeast(g: Graph, o: Options, seeds: set<nat>, s: set<nat>)
    requires IsClosure(g, o, seeds, s)
    ensures seeds <= s && ClosedUnder(g, o, s)
    ensures forall t: set<nat> | seeds <= t && ClosedUnder(g, o, t) :: s <= t
  {
    forall id | id in seeds
      ensures id in s
    {
      SeedReached(g, o, seeds, id);
    }
    forall from: nat, to: nat | from in s && Edge(g, o, from, to)
      ensures to in s
    {
      NextReached(g, o, seeds, from, to);
    }
    forall t: set<nat>, id | seeds <= t && ClosedUnder(g, o, t) && id in s
      ensures id in t
    {
      var path :| IsPath(g, o, path) && path[0] in seeds && path[|path| - 1] == id;
      ReachedStays(g, o, t, path);
    }
  }

  lemma ClosedIsClosure(g: Graph, o: Options, seeds: set<nat>, s: set<nat>)
    requires seeds <= s && ClosedUnder(g, o, s) && forall id | id in s :: Reached(g, o, seeds, id)
    ensures IsClosure(g, o, seeds, s)
  {
    forall id | Reached(g, o, seeds, id)
      ensures id in s
    {
      var path :| IsPath(g, o, path) && path[0] in seeds && path[|path| - 1] == id;
      ReachedStays(g, o, s, path);
    }
  }

  /** More edges reach more. */
  lemma {:induction false} ReachedMore(g: Graph, o: Options, p: Options, seeds: set<nat>, more: set<nat>, id: nat)
    requires seeds <= more && Reached(g, o, seeds, id)
    requires forall from, to | Edge(g, o, from, to) :: Edge(g, p, from, to)
    ensures Reached(g, p, more, id)
  {
    var path :| IsPath(g, o, path) && path[0] in seeds && path[|path| - 1] == id;
    assert IsPath(g, p, path);
  }

  /** Pruning only removes types, and expanding pointers only adds them. */
  lemma PrunedWithinUnpruned(g: Graph, o: Options, seeds: set<nat>, id: nat)
    requires Reached(g, o, seeds, id)
    ensures Reached(g, o.(marks := map[]), seeds, id)
    ensures Reached(g, o.(expand_pointers := true), seeds, id)
  {
    forall from: nat, to: nat | Edge(g, o, from, to)
      ensures Edge(g, o.(marks := map[]), from, to)
    {
      if g[from].Record? {
        ShownTypes(g, o.marks, from, to);
        ShownTypes(g, map[], from, to);
      }
    }
    ReachedMore(g, o, o.(marks := map[]), seeds, seeds, id);
    ReachedMore(g, o, o.(expand_pointers := true), seeds, seeds, id);
  }

  lemma ShownTypes(g: Graph, marks: Marks, id: nat, to: nat)
    requires id < |g| && g[id].Record?
    ensures to in MemberTypes(ShownMembers(marks, id, g[id].members, 0)) <==>
            exists i :: 0 <= i < |g[id].members| && Shown(marks, id, i) && g[id].members[i].ty == to
  {
    var shown := ShownMembers(marks, id, g[id].members, 0);
    if to in MemberTypes(shown) {
      var k :| 0 <= k < |shown| && MemberTypes(shown)[k] == to;
      assert shown[k] in shown;
    }
    forall i | 0 <= i < |g[id].members| && Shown(marks, id, i) && g[id].members[i].ty == to
      ensures to in MemberTypes(shown)
    {
      assert g[id].members[i] in shown;
      var k :| 0 <= k < |shown| && shown[k] == g[id].members[i];
      assert MemberTypes(shown)[k] == to;
    }
  }

  /** Keeping more members of records that are pruned already only adds types. */
  lemma MoreMarksReachMore(g: Graph, o: Options, more: Marks, seeds: set<nat>, id: nat)
    requires Reached(g, o, seeds, id)
    requires more.Keys == o.marks.Keys && forall r | r in more :: o.marks[r] <= more[r]
    ensures Reached(g, o.(marks := more), seeds, id)
  {
    forall from: nat, to: nat | Edge(g, o, from, to)
      ensures Edge(g, o.(marks := more), from, to)
    {
      if g[from].Record? {
        ShownTypes(g, o.marks, from, to);
        ShownTypes(g, more, from, to);
      }
    }
    ReachedMore(g, o, o.(marks := more), seeds, seeds, id);
  }

  /** The first mark on a record takes types away: the closure is not monotone in the marks. */
  lemma FirstMarkShrinks()
    ensures var g: Graph := [Void, Scalar(false, "int"), Scalar(false, "short"),
                             Record(false, "r", [Member("a", 1, 0), Member("b", 2, 0)])];
            && Reached(g, Options(map[], false), {3}, 2)
            && !Reached(g, Options(map[3 := {0}], false), {3}, 2)
  {
    var g: Graph := [Void, Scalar(false, "int"), Scalar(false, "short"),
                     Record(false, "r", [Member("a", 1, 0), Member("b", 2, 0)])];
    var all := Options(map[], false);
    var one := Options(map[3 := {0}], false);
    ShownTypes(g, all.marks, 3, 2);
    assert Shown(all.marks, 3, 1) && g[3].members[1].ty == 2;
    assert Edge(g, all, 3, 2);
    assert IsPath(g, all, [3, 2]);
    forall from: nat, to: nat | from in {1, 3} && Edge(g, one, from, to)
      ensures to in {1, 3}
    {
      if from == 3 {
        ShownTypes(g, one.marks, 3, to);
      }
    }
    forall path | IsPath(g, one, path) && path[0] in {3}
      ensures path[|path| - 1] != 2
    {
      ReachedStays(g, one, {1, 3}, path);
    }
  }

  ghost predicate Unrepeated(ids: seq<nat>) {
    forall i, j | 0 <= i < j < |ids| :: ids[i] != ids[j]
  }

  ghost function Elements(ids: seq<nat>): set<nat> {
    set id | id in ids
  }

  /** No more ids below `n` than `n`, without repetition. */
  lemma {:induction false} FewEnough(ids: seq<nat>, n: nat)
    requires Unrepeated(ids) && forall id | id in ids :: id < n
    ensures |ids| <= n
  {
    ElementCount(ids);
    BelowCount(Elements(ids), n);
  }

  lemma {:induction false} ElementCount(ids: seq<nat>)
    requires Unrepeated(ids)
    ensures |Elements(ids)| == |ids|
  {
    if ids == [] {
      assert Elements(ids) == {};
    } else {
      var before := ids[..|ids| - 1];
      ElementCount(before);
      assert ids == before + [ids[|ids| - 1]];
      assert Elements(ids) == Elements(before) + {ids[|ids| - 1]};
    }
  }

  lemma {:induction false} BelowCount(s: set<nat>, n: nat)
    requires forall id | id in s :: id < n
    ensures |s| <= n
  {
    if n == 0 {
      assert s == {};
    } else {
      BelowCount(s - {n - 1}, n - 1);
    }
  }

  /** Each required id but void is listed once, all are reached, and the growth is counted. */
  ghost predicate Progress(g: Graph, o: Options, seeds: set<nat>, s: set<nat>, ids: seq<nat>, added: nat) {
    && Unrepeated(ids) && 0 !in ids
    && (forall id: nat | id != 0 :: id in s <==> id in ids)
    && (forall id | id in s :: Reached(g, o, seeds, id))
    && seeds <= s
    && |s| == |seeds| + added
  }

  lemma ProgressMore(g: Graph, o: Options, seeds: set<nat>, s: set<nat>, ids: seq<nat>, added: nat, id: nat)
    requires Progress(g, o, seeds, s, ids, added) && Reached(g, o, seeds, id) && id !in s && id != 0
    ensures Progress(g, o, seeds, s + {id}, ids + [id], added + 1)
  {
    hide Reached;
  }

  lemma ProgressReached(g: Graph, o: Options, seeds: set<nat>, s: set<nat>, ids: seq<nat>, added: nat, id: nat)
    requires Progress(g, o, seeds, s, ids, added)
    ensures id in s ==> Reached(g, o, seeds, id)
    ensures id in ids ==> id in s
  {
  }

  lemma ProgressStart(g: Graph, o: Options, s: set<nat>)
    requires forall id | id in s :: id < |g|
    ensures Progress(g, o, s, s, Listing(s, 1, |g|), 0)
  {
    hide Reached;
    ListingAscends(s, 1, |g|);
    forall id | id in s
      ensures Reached(g, o, s, id)
    {
      SeedReached(g, o, s, id);
    }
  }

  lemma Moved(done: seq<nat>, id: nat, rest: seq<nat>)
    ensures done + ([id] + rest) == (done + [id]) + rest
  {
  }

  class Worklist {
    const g: Graph
    const options: Options
    const required: TypeSet
    ghost const seeds: set<nat>
    var ids: seq<nat>
    var added_types: nat

    ghost predicate Valid()
      reads this, required, required.words
    {
      && required.Valid() && required.count == |g|
      && Progress(g, options, seeds, required.Ids(), ids, added_types)
    }

    constructor (g: Graph, options: Options, required: TypeSet)
      requires required.Valid() && required.count == |g|
      ensures Valid() && fresh(this)
      ensures this.g == g && this.options == options && this.required == required && seeds == required.Ids()
      ensures added_types == 0 && ids == Listing(required.Ids(), 1, |g|)
    {
      hide Progress, Members;
      this.g, this.options, this.required := g, options, required;
      seeds := required.Ids();
      ids, added_types := [], 0;
      new;
      ghost var s, n := required.Ids(), |g|;
      ghost var at: nat := 1;
      var more, id, cursor := required.Next(1);
      assert ids + Listing(s, 1, n) == Listing(s, 1, n);
      while more
        invariant added_types == 0
        invariant Stepped(s, at, more, id, cursor)
        invariant Listing(s, 1, n) == ids + Listing(s, at, n)
        decreases if more then n - id else -1
      {
        ListingStep(s, at, n, more, id, cursor);
        at := cursor;
        Moved(ids, id, Listing(s, at, n));
        ids := ids + [id];
        more, id, cursor := required.Next(cursor);
      }
      ListingDone(s, at, n);
      assert ids + [] == ids;
      ProgressStart(g, options, s);
    }

    /** `add_dep`. */
    method AddDep(id: nat) returns (ok: bool)
      requires Valid()
      requires id != 0 ==> Reached(g, options, seeds, id)
      modifies this`ids, this`added_types, required`selected, required.words
      ensures Valid() && old(ids) <= ids && old(required.Ids()) <= required.Ids()
      ensures ok == (id == 0 || id < |g|)
      ensures ok && id != 0 ==> id in required.Ids()
    {
      hide Progress, Members, Reached;
      if id == 0 {
        return true;
      }
      if id >= |g| {
        return false;
      }
      ghost var before := required.Ids();
      var added := required.Add(id);
      if added {
        ProgressMore(g, options, seeds, before, ids, added_types, id);
        ids := ids + [id];
        added_types := added_types + 1;
      } else {
        assert before + {id} == before;
      }
      return true;
    }

    /** `add_type_deps`: adds the dependencies of `id` in order, up to the first out of range. */
    method AddTypeDeps(id: nat) returns (ok: bool)
      requires Valid() && id in required.Ids() && id < |g|
      modifies this`ids, this`added_types, required`selected, required.words
      ensures Valid() && old(ids) <= ids && old(required.Ids()) <= required.Ids()
      ensures ok ==> forall to: nat | Edge(g, options, id, to) :: to in required.Ids()
      ensures !ok ==> exists to: nat :: Edge(g, options, id, to) && to >= |g|
    {
      hide Progress, Members, Reached;
      ProgressReached(g, options, seeds, required.Ids(), ids, added_types, id);
      var deps := Deps(g, options, id);
      for i := 0 to |deps|
        invariant Valid() && old(ids) <= ids && old(required.Ids()) <= required.Ids()
        invariant forall k | 0 <= k < i && deps[k] != 0 :: deps[k] in required.Ids()
      {
        if deps[i] != 0 {
          assert Edge(g, options, id, deps[i]);
          NextReached(g, options, seeds, id, deps[i]);
        }
        ok := AddDep(deps[i]);
        if !ok {
          return false;
        }
      }
      ok := true;
    }

    /** The loop of `mch_compute_dependency_closure_with_options`; `steps` counts its rounds. */
    method Run() returns (ok: bool, ghost steps: nat)
      requires Valid() && ids == Listing(required.Ids(), 1, |g|)
      modifies this`ids, this`added_types, required`selected, required.words
      ensures Valid() && steps <= |g|
      ensures ok ==> IsClosure(g, options, seeds, required.Ids())
      ensures !ok ==> exists id: nat :: Reached(g, options, seeds, id) && id >= |g|
    {
      hide Members, Reached;
      var next := 0;
      steps := 0;
      while next < |ids|
        invariant Valid() && steps == next <= |ids|
        invariant forall k, to: nat | 0 <= k < next && Edge(g, options, ids[k], to) :: to in required.Ids()
        decreases |g| - next
      {
        FewEnough(ids, |g|);
        var current := ids[next];
        next, steps := next + 1, steps + 1;
        ok := AddTypeDeps(current);
        if !ok {
          ghost var to: nat :| Edge(g, options, current, to) && to >= |g|;
          NextReached(g, options, seeds, current, to);
          return;
        }
      }
      FewEnough(ids, |g|);
      ok := true;
      assert ClosedUnder(g, options, required.Ids());
      ClosedIsClosure(g, options, seeds, required.Ids());
    }
  }

  /** Grows the required set to everything its types depend on, and counts what was added. It fails
      exactly when some dependency is out of range. */
  method ComputeDependencyClosure(g: Graph, options: Options, required: TypeSet)
    returns (ok: bool, added_types: nat, ghost steps: nat)
    requires required.Valid() && required.count == |g|
    modifies required`selected, required.words
    ensures required.Valid() && steps <= |g|
    ensures ok <==> forall id: nat | Reached(g, options, old(required.Ids()), id) :: id < |g|
    ensures ok ==> IsClosure(g, options, old(required.Ids()), required.Ids())
    ensures ok ==> added_types == |required.Ids()| - |old(required.Ids())|
  {
    var worklist := new Worklist(g, options, required);
    ok, steps := worklist.Run();
    added_types := worklist.added_types;
  }
}
