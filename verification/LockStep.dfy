/** The lock step of a field access through the types of an object and those of the base
    (`record_core_relo_requirements` of src/seeds.c): which relocations are followed, what each step
    takes, and what the object's own declarations say of it. */
module LockStep {
  import opened Btf
  import opened CSyntax
  import opened Scope
  import opened Meaning
  import opened Walk
  import opened WalkOnce
  import opened WalkScope
  import opened AccessString
  import opened Access
  import opened MemberSearch
  import opened HeaderAccess
  import opened Seeds

  /** The object type that a walk from `id` is at before step `i`. */
  function ObjectAt(id: nat, steps: seq<Step>, i: nat): nat
    requires i <= |steps| && forall step | step in steps :: step.Step?
  {
    if i == 0 then id else steps[i - 1].object_type
  }

  function BaseAt(id: nat, steps: seq<Step>, i: nat): nat
    requires i <= |steps| && forall step | step in steps :: step.Step?
  {
    if i == 0 then id else steps[i - 1].base
  }

  /** The steps for the first components, as many as can be taken; it is well if that is all of them. */
  ghost predicate Takes(o: Graph, g: Graph, view: Marks, object_id: nat, base_id: nat, components: seq<nat>, t: Trail) {
    && (forall step | step in t.steps :: step.Step?)
    && |t.steps| <= |components| && (t.ok <==> |t.steps| == |components|)
    && (forall i | 0 <= i < |t.steps| ::
          StepsTo(o, g, view, ObjectAt(object_id, t.steps, i), BaseAt(base_id, t.steps, i), components[i], t.steps[i]))
    && (!t.ok ==> forall step :: !StepsTo(o, g, view, ObjectAt(object_id, t.steps, |t.steps|),
                                          BaseAt(base_id, t.steps, |t.steps|), components[|t.steps|], step))
  }

  lemma {:induction false} FollowTakes(o: Graph, g: Graph, view: Marks, object_id: nat, base_id: nat,
                                       components: seq<nat>)
    ensures Takes(o, g, view, object_id, base_id, components, FollowAll(o, g, view, object_id, base_id, components))
    decreases |components|
  {
    if components != [] {
      hide StepTo, StepsTo;
      var step := StepTo(o, g, view, object_id, base_id, components[0]);
      forall s: Step
        ensures s.Step? && step == s <==> StepsTo(o, g, view, object_id, base_id, components[0], s)
      {
        StepExactly(o, g, view, object_id, base_id, components[0], s);
      }
      if step.Step? {
        FollowTakes(o, g, view, step.object_type, step.base, components[1..]);
        var later := FollowAll(o, g, view, step.object_type, step.base, components[1..]);
        TakesMore(o, g, view, object_id, base_id, components, step, later);
      }
    }
  }

  lemma TakesMore(o: Graph, g: Graph, view: Marks, object_id: nat, base_id: nat, components: seq<nat>, step: Step,
                  later: Trail)
    requires components != [] && step.Step? && StepsTo(o, g, view, object_id, base_id, components[0], step)
    requires Takes(o, g, view, step.object_type, step.base, components[1..], later)
    ensures Takes(o, g, view, object_id, base_id, components, Trail(later.ok, [step] + later.steps))
  {
    hide StepsTo;
    var steps := [step] + later.steps;
    assert forall s | s in steps :: s.Step?;
    forall i | 0 <= i <= |later.steps|
      ensures ObjectAt(object_id, steps, i + 1) == ObjectAt(step.object_type, later.steps, i)
      ensures BaseAt(base_id, steps, i + 1) == BaseAt(step.base, later.steps, i)
    {
    }
    forall i | 0 <= i < |steps|
      ensures StepsTo(o, g, view, ObjectAt(object_id, steps, i), BaseAt(base_id, steps, i), components[i], steps[i])
    {
      if i > 0 {
        assert components[i] == components[1..][i - 1] && steps[i] == later.steps[i - 1];
      }
    }
    if !later.ok {
      forall s: Step
        ensures !StepsTo(o, g, view, ObjectAt(object_id, steps, |steps|), BaseAt(base_id, steps, |steps|),
                         components[|steps|], s)
      {
        assert components[|steps|] == components[1..][|later.steps|];
        assert ObjectAt(object_id, steps, |later.steps| + 1) == ObjectAt(step.object_type, later.steps, |later.steps|);
      }
    }
  }

  /** The codes of the relocations that are about fields are those up to 5. */
  lemma FieldCodes(code: nat, other: nat)
    ensures IsFieldKind(ReloKindOf(code)) <==> code <= 5
    ensures ReloKindOf(code) == ReloKindOf(other) <==> code == other || (code > 12 && other > 12)
  {
  }

  /** A relocation about a field takes the steps of its access string after the first component, if all
      of it reads as components; any other takes none, and so does one without an access string. */
  lemma ReloTakes(o: Graph, g: Graph, view: Marks, type_id: nat, access: string, code: nat, base_id: nat)
    ensures var t := ReloTrail(o, g, view, Relo(type_id, access, ReloKindOf(code)), base_id);
            if code > 5 || access == "" then t == Trail(true, [])
            else
              match Components(access)
              case Malformed => !t.ok
              case Parsed(values) => values != [] && Takes(o, g, view, type_id, base_id, values[1..], t)
  {
    FieldCodes(code, code);
    if code <= 5 && access != "" && FirstComponent(access).Component? {
      var rest := FirstComponent(access).rest;
      hide FirstComponent, Takes, ReloKindOf;
      FollowReads(o, g, view, type_id, base_id, rest);
      if Components(rest).Parsed? {
        FollowTakes(o, g, view, type_id, base_id, Components(rest).values);
      }
    }
  }

  /** The declarations of all named records and typedefs below `n`. */
  ghost function OwnDecls(g: Graph, n: nat): seq<Decl>
    requires n <= |g|
  {
    if n == 0 then []
    else
      OwnDecls(g, n - 1) + if NamedRecord(g[n - 1]) then [RecordBody(n - 1)]
                           else if NamedTypedef(g[n - 1]) then [Alias(n - 1)] else []
  }

  lemma {:induction false} OwnDeclsAre(c: Base, n: nat)
    requires n <= |c.g|
    ensures forall d | d in OwnDecls(c.g, n) :: OfKind(c, d)
    ensures forall id | 0 <= id < n && NamedRecord(c.g[id]) :: RecordBody(id) in OwnDecls(c.g, n)
    ensures forall id | 0 <= id < n && NamedTypedef(c.g[id]) :: Alias(id) in OwnDecls(c.g, n)
  {
    if n > 0 {
      OwnDeclsAre(c, n - 1);
    }
  }

  lemma {:induction false} AllShown(id: nat, members: seq<Member>, from: nat)
    requires from <= |members|
    ensures ShownMembers(map[], id, members, from) == members[from..]
    decreases |members| - from
  {
    if from < |members| {
      AllShown(id, members, from + 1);
      assert members[from..] == [members[from]] + members[from + 1..];
    }
  }

  /** The declarations of an object as C, with all their members. */
  ghost function OwnSays(c: Base): seq<CDecl>
    requires Ranked(c)
  {
    OwnDeclsAre(c, |c.g|);
    SaysAll(c, OwnDecls(c.g, |c.g|))
  }

  /** Each component is the index of a field, of the record that the type is or leads to, with that
      name and that type, and the next goes on from this type. */
  ghost predicate Indexes(ds: seq<CDecl>, t: CType, components: seq<nat>, names: seq<(string, CType)>)
    decreases |names|
  {
    names == [] ||
    (&& components != []
     && FieldsAt(ds, t, PEEL_LIMIT).Some?
     && var fields := FieldsAt(ds, t, PEEL_LIMIT).value;
     && components[0] < |fields| && fields[components[0]].name == names[0].0 && fields[components[0]].ty == names[0].1
     && Indexes(ds, names[0].1, components[1..], names[1..]))
  }

  /** What the steps name, with the C types that they go on with in the object. */
  ghost function OwnNames(c: Base, steps: seq<Step>): seq<(string, CType)>
    requires Ranked(c) && forall step | step in steps :: step.Step?
  {
    if steps == [] then [] else [(steps[0].name, CTypeOf(c, steps[0].object_type))] + OwnNames(c, steps[1..])
  }

  /** Where an object's type peels down to a record, its own declarations give the record's fields. */
  lemma OwnFields(c: Base, id: nat)
    requires Ranked(c) && c.marks == map[] && IsRecord(c.g, Peel(c.g, id, PEEL_LIMIT))
    ensures var members := c.g[Peel(c.g, id, PEEL_LIMIT).id].members;
            FieldsAt(OwnSays(c), CTypeOf(c, id), PEEL_LIMIT) == Some(FieldsOf(c, members))
  {
    var r, out := Peel(c.g, id, PEEL_LIMIT).id, OwnDecls(c.g, |c.g|);
    OwnDeclsAre(c, |c.g|);
    AllShown(r, c.g[r].members, 0);
    hide OwnDecls, FieldsAt, CTypeOf, FieldsOf, SaysAll, Ranked, Peel, OfKind;
    var k := (iset i: nat | Height(c, i) >= 0);
    assert Backed(c, out, k);
    PeelFields(c, out, k, id, PEEL_LIMIT);
  }

  lemma StepIndexes(c: Base, g: Graph, view: Marks, object_id: nat, base_id: nat, component: nat)
    requires Ranked(c) && c.marks == map[] && StepTo(c.g, g, view, object_id, base_id, component).Step?
    ensures var step := StepTo(c.g, g, view, object_id, base_id, component);
            var fields := FieldsAt(OwnSays(c), CTypeOf(c, object_id), PEEL_LIMIT);
            && fields.Some? && component < |fields.value| && fields.value[component].name == step.name
            && fields.value[component].ty == CTypeOf(c, step.object_type)
  {
    hide FieldsAt, CTypeOf, FieldsOf, OwnSays, Ranked, Peel, Search;
    OwnFields(c, object_id);
    FieldAt(c, c.g[Peel(c.g, object_id, PEEL_LIMIT).id].members, component);
  }

  /** Through the object's own declarations, the components of an access are the indexes of the members
      that its steps name, and these have the types that the steps go on with. */
  lemma {:induction false} FollowIndexes(c: Base, g: Graph, view: Marks, object_id: nat, base_id: nat,
                                         components: seq<nat>)
    requires Ranked(c) && c.marks == map[]
    ensures Indexes(OwnSays(c), CTypeOf(c, object_id), components,
                    OwnNames(c, FollowAll(c.g, g, view, object_id, base_id, components).steps))
    decreases |components|
  {
    hide FieldsAt, CTypeOf, OwnSays, Ranked, StepTo;
    if components != [] {
      var step := StepTo(c.g, g, view, object_id, base_id, components[0]);
      if step.Step? {
        StepIndexes(c, g, view, object_id, base_id, components[0]);
        FollowIndexes(c, g, view, step.object_type, step.base, components[1..]);
        var later := FollowAll(c.g, g, view, step.object_type, step.base, components[1..]).steps;
        NamesMore(c, step, later);
      }
    }
  }

  lemma NamesMore(c: Base, step: Step, later: seq<Step>)
    requires Ranked(c) && step.Step? && forall s | s in later :: s.Step?
    ensures forall s | s in [step] + later :: s.Step?
    ensures OwnNames(c, [step] + later) == [(step.name, CTypeOf(c, step.object_type))] + OwnNames(c, later)
  {
    hide CTypeOf, Ranked;
    assert ([step] + later)[1..] == later;
  }

  /** So it is for every relocation about a field whose access string reads as components. */
  lemma ReloIndexes(c: Base, g: Graph, view: Marks, r: Relo, base_id: nat)
    requires Ranked(c) && c.marks == map[] && Components(r.access).Parsed?
    ensures var steps := ReloTrail(c.g, g, view, r, base_id).steps;
            steps != [] ==>
              Indexes(OwnSays(c), CTypeOf(c, r.type_id), Components(r.access).values[1..], OwnNames(c, steps))
  {
    var steps := ReloTrail(c.g, g, view, r, base_id).steps;
    if steps != [] {
      var rest := FirstComponent(r.access).rest;
      hide FieldsAt, CTypeOf, OwnSays, Ranked, Indexes, OwnNames, FollowAll, FirstComponent;
      FollowReads(c.g, g, view, r.type_id, base_id, rest);
      FollowIndexes(c, g, view, r.type_id, base_id, Components(rest).values);
      assert Components(r.access).values[1..] == Components(rest).values;
    }
  }

  lemma {:induction false} PeelMore(g: Graph, id: nat, left: nat, more: nat)
    requires Peel(g, id, left).Peeled? && left <= more
    ensures Peel(g, id, more) == Peel(g, id, left)
    decreases left
  {
    if IsTransparent(g[id]) {
      PeelMore(g, Inner(g[id]), left - 1, more - 1);
    }
  }

  /** A tag has fields in an object's own declarations only if it is that of a record. */
  lemma OwnTag(c: Base, id: nat)
    requires Ranked(c) && TagFields(OwnSays(c), id).Some?
    ensures id < |c.g| && NamedRecord(c.g[id])
  {
    OwnDeclsAre(c, |c.g|);
    hide OwnDecls, SaysAll, Ranked, FieldsOf;
    var u, fields :| RecordDefinition(u, id, fields) in OwnSays(c);
    SaysFrom(c, OwnDecls(c.g, |c.g|), RecordDefinition(u, id, fields));
  }

  lemma OwnAlias(c: Base, id: nat)
    requires Ranked(c) && 0 < id < |c.g| && NamedTypedef(c.g[id])
    ensures AliasType(OwnSays(c), id) == Some(CTypeOf(c, c.g[id].to))
  {
    OwnDeclsAre(c, |c.g|);
    hide OwnDecls, SaysAll, Ranked, CTypeOf, OfKind, AliasType;
    AliasTypeIs(c, OwnDecls(c.g, |c.g|), id);
  }

  /** A type that has fields in C peels down to a record. */
  lemma {:induction false} FieldsPeel(c: Base, id: nat, left: nat)
    requires Ranked(c) && FieldsAt(OwnSays(c), CTypeOf(c, id), left).Some?
    ensures IsRecord(c.g, Peel(c.g, id, Height(c, id)))
    decreases Height(c, id)
  {
    var ds := OwnSays(c);
    hide OwnSays, FieldsOf, ParamsOf, TagFields, AliasType, Body;
    if 0 < id < |c.g| {
      match c.g[id]
      case Fwd(_, _) => OwnTag(c, id);
      case Ptr(to) => FieldsPeelThrough(c, id, to, left);
      case Array(elem, _, _) => FieldsPeelThrough(c, id, elem, left);
      case Qualified(q, to) =>
        FieldsAtQualified(ds, {q}, CTypeOf(c, to), left);
        FieldsPeelThrough(c, id, to, left);
      case Tag(_, to) => FieldsPeelThrough(c, id, to, left);
      case Typedef(alias, to) =>
        if alias != "" {
          OwnAlias(c, id);
          FieldsPeelThrough(c, id, to, left - 1);
        } else {
          FieldsPeelThrough(c, id, to, left);
        }
      case _ =>
    }
  }

  lemma {:induction false} FieldsPeelThrough(c: Base, id: nat, to: nat, left: nat)
    requires Ranked(c) && 0 < id < |c.g| && IsTransparent(c.g[id]) && to == Inner(c.g[id])
    requires Follows(c, id, to) && FieldsAt(OwnSays(c), CTypeOf(c, to), left).Some?
    ensures IsRecord(c.g, Peel(c.g, id, Height(c, id)))
    decreases Height(c, id), 0
  {
    hide OwnSays, FieldsAt, CTypeOf, Body;
    FieldsPeel(c, to, left);
    PeelMore(c.g, to, Height(c, to), Height(c, id) - 1);
  }

  /** On a ranked graph, a type within 64 ranks peels to a record exactly if, by its own declarations, it
      is, or leads by names, pointers and arrays to, a type with fields. */
  lemma PeelsExactly(c: Base, id: nat)
    requires Ranked(c) && c.marks == map[] && Height(c, id) <= 64
    ensures IsRecord(c.g, Peel(c.g, id, PEEL_LIMIT)) <==> FieldsAt(OwnSays(c), CTypeOf(c, id), PEEL_LIMIT).Some?
  {
    hide OwnSays, FieldsAt, CTypeOf, Ranked;
    if FieldsAt(OwnSays(c), CTypeOf(c, id), PEEL_LIMIT).Some? {
      FieldsPeel(c, id, PEEL_LIMIT);
      PeelMore(c.g, id, Height(c, id), PEEL_LIMIT);
    }
    if IsRecord(c.g, Peel(c.g, id, PEEL_LIMIT)) {
      OwnFields(c, id);
    }
  }
}
