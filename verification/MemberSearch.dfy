/** What the search for a member finds (`mark_base_member_path` of src/seeds.c), said of the ways that
    lead to a member of that name through records without names, and without the search. */
module MemberSearch {
  import opened Btf
  import opened AccessString
  import opened Access

  /** Members by their records, the outermost first. */
  type Way = seq<(nat, nat)>

  predicate IsShown(g: Graph, view: Marks, p: (nat, nat)) {
    p.0 < |g| && g[p.0].Record? && p.1 < |g[p.0].members| && Shown(view, p.0, p.1)
  }

  /** A shown member without a name, of a type that peels to a record. */
  predicate Opens(g: Graph, view: Marks, p: (nat, nat), inner: nat) {
    && IsShown(g, view, p) && g[p.0].members[p.1].name == ""
    && Peel(g, g[p.0].members[p.1].ty, 64) == Peeled(inner) && inner < |g| && g[inner].Record?
  }

  ghost predicate OpensSome(g: Graph, view: Marks, p: (nat, nat)) {
    exists inner :: Opens(g, view, p, inner)
  }

  /** Members each of which, but for the last, opens the record of the next. */
  ghost predicate Nested(g: Graph, view: Marks, record: nat, way: Way) {
    && (way != [] ==> way[0].0 == record)
    && forall k | 0 <= k < |way| - 1 :: Opens(g, view, way[k], way[k + 1].0)
  }

  /** A way to a shown member of that name. */
  ghost predicate Reaches(g: Graph, view: Marks, record: nat, name: string, way: Way) {
    && way != [] && Nested(g, view, record, way)
    && IsShown(g, view, way[|way| - 1]) && g[way[|way| - 1].0].members[way[|way| - 1].1].name == name
  }

  /** Records nested deeper than a search goes. */
  ghost predicate Falls(g: Graph, view: Marks, record: nat, way: Way) {
    Nested(g, view, record, way) && (way != [] ==> OpensSome(g, view, way[|way| - 1]))
  }

  /** What ends a search that may go `room` records deep: a member, or a record too many. */
  ghost predicate Ends(g: Graph, view: Marks, record: nat, name: string, room: nat, way: Way) {
    || (|way| <= room && Reaches(g, view, record, name, way))
    || (|way| == room && Falls(g, view, record, way))
  }

  /** Of two members of one record, one that has the name before one that has not, and otherwise in order. */
  predicate Sooner(g: Graph, name: string, p: (nat, nat), q: (nat, nat)) {
    && p.0 == q.0 < |g| && g[p.0].Record? && p.1 < |g[p.0].members| && q.1 < |g[p.0].members|
    && var named, other := g[p.0].members[p.1].name == name, g[p.0].members[q.1].name == name;
       (named && !other) || (named == other && p.1 < q.1)
  }

  /** One way comes before another: sooner where they part. */
  ghost predicate Before(g: Graph, name: string, a: Way, b: Way) {
    exists k :: 0 <= k < |a| && k < |b| && a[..k] == b[..k] && Sooner(g, name, a[k], b[k])
  }

  /** The first of all that end the search. */
  ghost predicate IsFirst(g: Graph, view: Marks, record: nat, name: string, room: nat, way: Way) {
    && Ends(g, view, record, name, room, way)
    && forall other: Way | Ends(g, view, record, name, room, other) :: other == way || Before(g, name, way, other)
  }

  function Reversed(way: Way): (r: Way)
    ensures |r| == |way|
    ensures forall i | 0 <= i < |way| :: r[i] == way[|way| - 1 - i]
  {
    if way == [] then [] else Reversed(way[1..]) + [way[0]]
  }

  /** A way to a member, as the marks that are left on it, innermost first, and the member's type. */
  ghost predicate LeadsTo(g: Graph, view: Marks, record: nat, name: string, way: Way, path: Way, ty: nat) {
    && Reaches(g, view, record, name, way)
    && path == Reversed(way) && ty == g[way[|way| - 1].0].members[way[|way| - 1].1].ty
  }

  ghost predicate NoEnd(g: Graph, view: Marks, record: nat, name: string, room: nat) {
    forall way: Way :: !Ends(g, view, record, name, room, way)
  }

  /** What a search comes to. */
  ghost predicate Settles(g: Graph, view: Marks, record: nat, name: string, room: nat, f: Found) {
    match f
    case Missing => NoEnd(g, view, record, name, room)
    case TooDeep =>
      exists way: Way ::
        IsFirst(g, view, record, name, room, way) && |way| == room && Falls(g, view, record, way)
    case Found(path, ty) =>
      exists way: Way ::
        IsFirst(g, view, record, name, room, way) && |way| <= room && LeadsTo(g, view, record, name, way, path, ty)
  }

  lemma NestedOne(g: Graph, view: Marks, p: (nat, nat), inner: nat, way: Way)
    requires Opens(g, view, p, inner)
    ensures Nested(g, view, p.0, [p] + way) <==> Nested(g, view, inner, way)
  {
    hide IsShown;
    var whole := [p] + way;
    if Nested(g, view, p.0, whole) {
      assert way != [] ==> Opens(g, view, whole[0], whole[1].0);
      forall k | 0 <= k < |way| - 1
        ensures Opens(g, view, way[k], way[k + 1].0)
      {
        assert way[k] == whole[k + 1] && way[k + 1] == whole[k + 2];
      }
    }
  }

  /** Behind a member that opens a record, the ways go on from that record. */
  lemma BehindOpened(g: Graph, view: Marks, p: (nat, nat), inner: nat, name: string, room: nat, way: Way)
    requires Opens(g, view, p, inner) && name != "" && room > 0
    ensures Reaches(g, view, p.0, name, [p] + way) <==> Reaches(g, view, inner, name, way)
    ensures Falls(g, view, p.0, [p] + way) <==> Falls(g, view, inner, way)
    ensures Ends(g, view, p.0, name, room, [p] + way) <==> Ends(g, view, inner, name, room - 1, way)
  {
    hide Nested;
    NestedOne(g, view, p, inner, way);
    assert way != [] ==> ([p] + way)[|way|] == way[|way| - 1];
  }

  /** What ends a search with room left starts with a member of the record: the member itself, or one
      that opens a record. */
  lemma Starts(g: Graph, view: Marks, record: nat, name: string, room: nat, way: Way)
    requires Ends(g, view, record, name, room, way) && room > 0
    ensures way != [] && way[0].0 == record && IsShown(g, view, way[0])
    ensures way == [way[0]] + way[1..]
    ensures || (|way| == 1 && g[record].members[way[0].1].name == name)
            || OpensSome(g, view, way[0])
  {
    if |way| > 1 {
      assert Opens(g, view, way[0], way[1].0);
    }
  }

  lemma BeforeBehind(g: Graph, name: string, p: (nat, nat), a: Way, b: Way)
    requires Before(g, name, a, b)
    ensures Before(g, name, [p] + a, [p] + b)
  {
    var k :| 0 <= k < |a| && k < |b| && a[..k] == b[..k] && Sooner(g, name, a[k], b[k]);
    assert ([p] + a)[..k + 1] == [p] + a[..k] && ([p] + b)[..k + 1] == [p] + b[..k];
    assert Sooner(g, name, ([p] + a)[k + 1], ([p] + b)[k + 1]);
  }

  lemma FirstBySooner(g: Graph, name: string, a: Way, b: Way)
    requires a != [] && b != [] && Sooner(g, name, a[0], b[0])
    ensures Before(g, name, a, b)
  {
    assert a[..0] == b[..0];
  }

  /** The first shown member of the name is the first of all ends. */
  lemma NamedIsFirst(g: Graph, view: Marks, record: nat, name: string, room: nat, i: nat)
    requires record < |g| && g[record].Record? && name != "" && room > 0
    requires i == FirstNamed(view, record, g[record].members, name, 0) < |g[record].members|
    ensures IsFirst(g, view, record, name, room, [(record, i)]) && Reaches(g, view, record, name, [(record, i)])
  {
    var way := [(record, i)];
    assert Ends(g, view, record, name, room, way);
    forall other: Way | Ends(g, view, record, name, room, other) && other != way
      ensures Before(g, name, way, other)
    {
      Starts(g, view, record, name, room, other);
      FirstBySooner(g, name, way, other);
    }
  }

  /** The first of the ends whose first member is not before `from`. */
  ghost predicate IsFirstFrom(g: Graph, view: Marks, record: nat, name: string, room: nat, from: nat, way: Way) {
    && Ends(g, view, record, name, room, way) && way != [] && way[0].1 >= from
    && forall other: Way | Ends(g, view, record, name, room, other) && other != [] && other[0].1 >= from ::
         other == way || Before(g, name, way, other)
  }

  ghost predicate NoneFrom(g: Graph, view: Marks, record: nat, name: string, room: nat, from: nat) {
    forall way: Way | Ends(g, view, record, name, room, way) && way != [] :: way[0].1 < from
  }

  ghost predicate NoneNamed(g: Graph, view: Marks, record: nat, name: string)
    requires record < |g| && g[record].Record?
  {
    forall i | 0 <= i < |g[record].members| :: !(Shown(view, record, i) && g[record].members[i].name == name)
  }

  /** What opens a record is what the search looks into. */
  lemma OpensIsWrapper(g: Graph, view: Marks, record: nat, i: nat)
    requires record < |g| && g[record].Record? && i < |g[record].members|
    ensures IsWrapper(g, view, record, i) <==> OpensSome(g, view, (record, i))
    ensures IsWrapper(g, view, record, i) ==>
              Opens(g, view, (record, i), Peel(g, g[record].members[i].ty, PEEL_LIMIT).id)
  {
    hide Peel;
    if IsWrapper(g, view, record, i) {
      assert Opens(g, view, (record, i), Peel(g, g[record].members[i].ty, PEEL_LIMIT).id);
    }
  }

  /** No end starts with a member that neither has the name nor opens a record. */
  lemma SkipOne(g: Graph, view: Marks, record: nat, name: string, room: nat, from: nat, way: Way)
    requires record < |g| && g[record].Record? && from < |g[record].members| && room > 0
    requires NoneNamed(g, view, record, name) && !IsWrapper(g, view, record, from)
    requires Ends(g, view, record, name, room, way)
    ensures way != [] && way[0].1 != from
  {
    hide Opens, Ends, IsWrapper;
    Starts(g, view, record, name, room, way);
    OpensIsWrapper(g, view, record, from);
  }

  /** What the part of a search from member `from` on comes to. */
  ghost predicate SettlesFrom(g: Graph, view: Marks, record: nat, name: string, room: nat, from: nat, f: Found) {
    match f
    case Missing => NoneFrom(g, view, record, name, room, from)
    case TooDeep =>
      exists way: Way ::
        IsFirstFrom(g, view, record, name, room, from, way) && |way| == room && Falls(g, view, record, way)
    case Found(path, ty) =>
      exists way: Way ::
        && IsFirstFrom(g, view, record, name, room, from, way) && |way| <= room
        && LeadsTo(g, view, record, name, way, path, ty)
  }

  /** The first end behind a member that opens a record is the first of all from that member on. */
  lemma FirstBehind(g: Graph, view: Marks, record: nat, name: string, room: nat, from: nat, inner: nat, way: Way)
    requires record < |g| && g[record].Record? && name != "" && room > 0 && NoneNamed(g, view, record, name)
    requires Opens(g, view, (record, from), inner) && IsFirst(g, view, inner, name, room - 1, way)
    ensures IsFirstFrom(g, view, record, name, room, from, [(record, from)] + way)
  {
    var p := (record, from);
    BehindOpened(g, view, p, inner, name, room, way);
    hide Reaches, Falls, Nested;
    forall other: Way | Ends(g, view, record, name, room, other) && other != [] && other[0].1 >= from
      ensures other == [p] + way || Before(g, name, [p] + way, other)
    {
      Starts(g, view, record, name, room, other);
      if other[0].1 == from {
        BehindOpened(g, view, p, inner, name, room, other[1..]);
        if other[1..] != way {
          BeforeBehind(g, name, p, way, other[1..]);
        }
      } else {
        FirstBySooner(g, name, [p] + way, other);
      }
    }
  }

  lemma NoneBehind(g: Graph, view: Marks, record: nat, name: string, room: nat, from: nat, inner: nat, way: Way)
    requires record < |g| && g[record].Record? && name != "" && room > 0 && NoneNamed(g, view, record, name)
    requires Opens(g, view, (record, from), inner) && NoEnd(g, view, inner, name, room - 1)
    requires Ends(g, view, record, name, room, way)
    ensures way != [] && way[0].1 != from
  {
    hide Ends, Opens, Reaches, Falls;
    Starts(g, view, record, name, room, way);
    if way[0].1 == from {
      BehindOpened(g, view, (record, from), inner, name, room, way[1..]);
    }
  }

  /** Ends that do not start with member `from` start after it. */
  lemma SettlesNext(g: Graph, view: Marks, record: nat, name: string, room: nat, from: nat, f: Found)
    requires SettlesFrom(g, view, record, name, room, from + 1, f)
    requires forall way: Way | Ends(g, view, record, name, room, way) :: way != [] && way[0].1 != from
    ensures SettlesFrom(g, view, record, name, room, from, f)
  {
    hide Ends, Reaches, Falls, Before, LeadsTo;
    forall way: Way | IsFirstFrom(g, view, record, name, room, from + 1, way)
      ensures IsFirstFrom(g, view, record, name, room, from, way)
    {
    }
  }

  lemma ReversedMore(p: (nat, nat), way: Way)
    ensures Reversed([p] + way) == Reversed(way) + [p]
  {
    assert ([p] + way)[1..] == way;
  }

  /** What was found behind a member that opens a record. */
  lemma SettlesBehind(g: Graph, view: Marks, record: nat, name: string, room: nat, from: nat, inner: nat, f: Found)
    requires record < |g| && g[record].Record? && name != "" && room > 0 && NoneNamed(g, view, record, name)
    requires Opens(g, view, (record, from), inner) && Settles(g, view, inner, name, room - 1, f) && !f.Missing?
    ensures SettlesFrom(g, view, record, name, room, from,
                        if f.Found? then Found(f.path + [(record, from)], f.ty) else f)
  {
    hide Opens, Ends, Reaches, Falls, IsFirst, IsFirstFrom, NoneNamed, LeadsTo;
    if f.TooDeep? {
      var way: Way :| IsFirst(g, view, inner, name, room - 1, way) && |way| == room - 1 && Falls(g, view, inner, way);
      FirstBehind(g, view, record, name, room, from, inner, way);
      BehindOpened(g, view, (record, from), inner, name, room, way);
    } else {
      var way: Way :| IsFirst(g, view, inner, name, room - 1, way) && |way| <= room - 1
                      && LeadsTo(g, view, inner, name, way, f.path, f.ty);
      FirstBehind(g, view, record, name, room, from, inner, way);
      LeadsBehind(g, view, (record, from), inner, name, way, f.path, f.ty);
    }
  }

  lemma LeadsBehind(g: Graph, view: Marks, p: (nat, nat), inner: nat, name: string, way: Way, path: Way, ty: nat)
    requires Opens(g, view, p, inner) && name != "" && LeadsTo(g, view, inner, name, way, path, ty)
    ensures LeadsTo(g, view, p.0, name, [p] + way, path + [p], ty)
  {
    BehindOpened(g, view, p, inner, name, 1, way);
    ReversedMore(p, way);
    hide Opens, Nested;
    var whole := [p] + way;
    assert whole[|whole| - 1] == way[|way| - 1];
  }

  lemma {:induction false} SearchSettles(g: Graph, view: Marks, record: nat, name: string, fallback: nat, depth: nat)
    requires record < |g| && g[record].Record? && depth <= SEARCH_LIMIT + 1 && name != ""
    ensures Settles(g, view, record, name, SEARCH_LIMIT + 1 - depth, Search(g, view, record, name, fallback, depth))
    decreases SEARCH_LIMIT + 1 - depth, |g[record].members| + 1
  {
    var room, members := SEARCH_LIMIT + 1 - depth, g[record].members;
    var i := FindMember(view, record, members, name, fallback);
    if depth > SEARCH_LIMIT {
      assert IsFirst(g, view, record, name, room, []);
    } else if i < |members| {
      NamedIsFirst(g, view, record, name, room, i);
      hide IsFirst, Ends, Reaches;
      assert Reversed([(record, i)]) == [(record, i)];
    } else {
      WrappersSettle(g, view, record, name, depth, 0);
      hide Ends, Falls, Reaches, Before, LeadsTo;
      FromStart(g, view, record, name, room, SearchWrappers(g, view, record, name, depth, 0));
    }
  }

  lemma FromStart(g: Graph, view: Marks, record: nat, name: string, room: nat, f: Found)
    requires SettlesFrom(g, view, record, name, room, 0, f) && room > 0
    ensures Settles(g, view, record, name, room, f)
  {
    forall way: Way | Ends(g, view, record, name, room, way)
      ensures way != []
    {
      Starts(g, view, record, name, room, way);
    }
    hide Ends, Falls, Reaches, Before, LeadsTo;
    forall way: Way | IsFirstFrom(g, view, record, name, room, 0, way)
      ensures IsFirst(g, view, record, name, room, way)
    {
    }
  }

  lemma {:induction false} WrappersSettle(g: Graph, view: Marks, record: nat, name: string, depth: nat, from: nat)
    requires record < |g| && g[record].Record? && depth <= SEARCH_LIMIT && from <= |g[record].members| && name != ""
    requires NoneNamed(g, view, record, name)
    ensures SettlesFrom(g, view, record, name, SEARCH_LIMIT + 1 - depth, from,
                        SearchWrappers(g, view, record, name, depth, from))
    decreases SEARCH_LIMIT + 1 - depth, |g[record].members| - from
  {
    hide Ends, Opens, Settles, SettlesFrom, IsWrapper, Search, NoneNamed, LeadsTo;
    var room, members := SEARCH_LIMIT + 1 - depth, g[record].members;
    if from == |members| {
      NothingBeyond(g, view, record, name, room);
    } else if !IsWrapper(g, view, record, from) {
      WrappersSettle(g, view, record, name, depth, from + 1);
      forall way: Way | Ends(g, view, record, name, room, way)
        ensures way != [] && way[0].1 != from
      {
        SkipOne(g, view, record, name, room, from, way);
      }
      SettlesNext(g, view, record, name, room, from, SearchWrappers(g, view, record, name, depth, from));
    } else {
      OpensIsWrapper(g, view, record, from);
      WrapperSettles(g, view, record, name, depth, from);
    }
  }

  lemma NothingBeyond(g: Graph, view: Marks, record: nat, name: string, room: nat)
    requires record < |g| && g[record].Record? && room > 0
    ensures SettlesFrom(g, view, record, name, room, |g[record].members|, Missing)
  {
    forall way: Way | Ends(g, view, record, name, room, way)
      ensures way != [] && way[0].1 < |g[record].members|
    {
      Starts(g, view, record, name, room, way);
    }
  }

  lemma {:induction false} WrapperSettles(g: Graph, view: Marks, record: nat, name: string, depth: nat, from: nat)
    requires record < |g| && g[record].Record? && depth <= SEARCH_LIMIT && from < |g[record].members| && name != ""
    requires NoneNamed(g, view, record, name) && IsWrapper(g, view, record, from)
    requires Opens(g, view, (record, from), Peel(g, g[record].members[from].ty, PEEL_LIMIT).id)
    ensures SettlesFrom(g, view, record, name, SEARCH_LIMIT + 1 - depth, from,
                        SearchWrappers(g, view, record, name, depth, from))
    decreases SEARCH_LIMIT + 1 - depth, |g[record].members| - from, 0
  {
    var room := SEARCH_LIMIT + 1 - depth;
    var inner := Peel(g, g[record].members[from].ty, PEEL_LIMIT).id;
    var f := Search(g, view, inner, name, UINT32_MAX, depth + 1);
    SearchSettles(g, view, inner, name, UINT32_MAX, depth + 1);
    hide Ends, Opens, SettlesFrom, Search, NoneNamed;
    if f.Missing? {
      WrappersSettle(g, view, record, name, depth, from + 1);
      forall way: Way | Ends(g, view, record, name, room, way)
        ensures way != [] && way[0].1 != from
      {
        NoneBehind(g, view, record, name, room, from, inner, way);
      }
      SettlesNext(g, view, record, name, room, from, SearchWrappers(g, view, record, name, depth, from));
    } else {
      SettlesBehind(g, view, record, name, room, from, inner, f);
    }
  }

  lemma NotBoth(g: Graph, name: string, a: Way, b: Way)
    requires Before(g, name, a, b)
    ensures !Before(g, name, b, a)
  {
    var k :| 0 <= k < |a| && k < |b| && a[..k] == b[..k] && Sooner(g, name, a[k], b[k]);
    forall l | 0 <= l < |a| && l < |b| && b[..l] == a[..l]
      ensures !Sooner(g, name, b[l], a[l])
    {
      if l < k {
        assert a[l] == a[..k][l] && b[l] == b[..k][l];
      }
    }
  }

  /** Of all ends one is the first, and it is not both a member and a record too many. */
  lemma FirstIsOne(g: Graph, view: Marks, record: nat, name: string, room: nat, a: Way, b: Way)
    requires IsFirst(g, view, record, name, room, a) && IsFirst(g, view, record, name, room, b) && name != ""
    ensures a == b
    ensures Reaches(g, view, record, name, a) ==> !Falls(g, view, record, a)
  {
    if a != b {
      NotBoth(g, name, a, b);
    }
  }

  /** The search goes 17 records deep, and a member that is there is found: it takes the first way to a
      member of the name, unless a record too many comes before; only if there is neither is the member
      missing. For a member without a name it takes the one at the same place, if it is shown. */
  lemma SearchExactly(g: Graph, view: Marks, record: nat, name: string, fallback: nat)
    requires record < |g| && g[record].Record?
    ensures var f := Search(g, view, record, name, fallback, 0);
            if name != "" then Settles(g, view, record, name, 17, f)
            else if IsShown(g, view, (record, fallback)) then
              f == Found([(record, fallback)], g[record].members[fallback].ty)
            else f == Missing
  {
    if name != "" {
      SearchSettles(g, view, record, name, fallback, 0);
    }
  }

  /** A member that the search finds for a name, by the ways to it. */
  ghost predicate IsFound(g: Graph, view: Marks, record: nat, name: string, path: Way, ty: nat) {
    exists way: Way ::
      IsFirst(g, view, record, name, 17, way) && |way| <= 17 && LeadsTo(g, view, record, name, way, path, ty)
  }

  lemma FoundExactly(g: Graph, view: Marks, record: nat, name: string, fallback: nat, path: Way, ty: nat)
    requires record < |g| && g[record].Record? && name != ""
    ensures Search(g, view, record, name, fallback, 0) == Found(path, ty) <==> IsFound(g, view, record, name, path, ty)
  {
    var f := Search(g, view, record, name, fallback, 0);
    SearchExactly(g, view, record, name, fallback);
    hide Search, IsFirst, Falls;
    if IsFound(g, view, record, name, path, ty) {
      var way: Way :| IsFirst(g, view, record, name, 17, way) && |way| <= 17
                      && LeadsTo(g, view, record, name, way, path, ty);
      FirstEnds(g, view, record, name, 17, way);
      if !f.Missing? {
        var other: Way :| IsFirst(g, view, record, name, 17, other)
                          && (f.TooDeep? ==> Falls(g, view, record, other))
                          && (f.Found? ==> LeadsTo(g, view, record, name, other, f.path, f.ty));
        FirstIsOne(g, view, record, name, 17, way, other);
      }
    }
  }

  lemma FirstEnds(g: Graph, view: Marks, record: nat, name: string, room: nat, way: Way)
    requires IsFirst(g, view, record, name, room, way)
    ensures !NoEnd(g, view, record, name, room)
  {
  }

  /** What one component of an access asks of both sides: at most 64 types down they come to records,
      the object's has a member there, and the base's has it by name, or at the same place if it has no
      name. The step goes on with the types of the two members, each on its own side. */
  ghost predicate StepsTo(o: Graph, g: Graph, view: Marks, object_id: nat, base_id: nat, component: nat, step: Step) {
    exists from: nat, at: nat ::
      && Peel(o, object_id, 64) == Peeled(from) && Peel(g, base_id, 64) == Peeled(at)
      && StepsFrom(o, g, view, from, at, component, step)
  }

  ghost predicate StepsFrom(o: Graph, g: Graph, view: Marks, from: nat, at: nat, component: nat, step: Step) {
    && IsShown(o, map[], (from, component)) && at < |g| && g[at].Record?
    && var m := o[from].members[component];
    && step.Step? && step.name == m.name && step.object_type == m.ty
    && if m.name != "" then IsFound(g, view, at, m.name, step.path, step.base)
       else IsShown(g, view, (at, component)) && step.path == [(at, component)]
            && step.base == g[at].members[component].ty
  }

  lemma StepFrom(o: Graph, g: Graph, view: Marks, object_id: nat, base_id: nat, component: nat, step: Step,
                 from: nat, at: nat)
    requires Peel(o, object_id, PEEL_LIMIT) == Peeled(from) && Peel(g, base_id, PEEL_LIMIT) == Peeled(at)
    ensures step.Step? && StepTo(o, g, view, object_id, base_id, component) == step <==>
            StepsFrom(o, g, view, from, at, component, step)
  {
    hide Peel, Search, IsFound;
    if from < |o| && o[from].Record? && at < |g| && g[at].Record? && component < |o[from].members| && step.Step? {
      var m := o[from].members[component];
      SearchExactly(g, view, at, m.name, component);
      if m.name != "" {
        FoundExactly(g, view, at, m.name, component, step.path, step.base);
      }
    }
  }

  /** A step is taken exactly if all of that is there. */
  lemma StepExactly(o: Graph, g: Graph, view: Marks, object_id: nat, base_id: nat, component: nat, step: Step)
    ensures step.Step? && StepTo(o, g, view, object_id, base_id, component) == step <==>
            StepsTo(o, g, view, object_id, base_id, component, step)
  {
    hide Peel, StepsFrom;
    var from, at := Peel(o, object_id, PEEL_LIMIT), Peel(g, base_id, PEEL_LIMIT);
    if from.Peeled? && at.Peeled? {
      StepFrom(o, g, view, object_id, base_id, component, step, from.id, at.id);
    }
  }
}
