/** What the edges of the dependency closure are (`add_type_deps` of src/closure.c), said of each kind
    of type by its parts and without the list that the worklist goes through. */
module Dependencies {
  import opened Btf
  import opened Meaning
  import opened Closure

  /** A type has another among its parts: as what it points to, names, qualifies, tags or returns, as
      its elements, array index or a parameter, or as a member that is shown. */
  ghost predicate HasPart(g: Graph, marks: Marks, id: nat, part: nat)
    requires id < |g|
  {
    match g[id]
    case Ptr(to) => part == to
    case Typedef(_, to) => part == to
    case Qualified(_, to) => part == to
    case Tag(_, to) => part == to
    case Func(_, to) => part == to
    case Var(_, to) => part == to
    case Array(elem, index, _) => part == elem || part == index
    case Record(_, _, members) => exists i :: 0 <= i < |members| && Shown(marks, id, i) && members[i].ty == part
    case Proto(ret, params) => part == ret || exists i :: 0 <= i < |params| && params[i].ty == part
    case DataSec(_, vars) => exists i :: 0 <= i < |vars| && vars[i] == part
    case _ => false
  }

  /** The edges are the parts that are not void; those of a pointer count only if pointers are expanded. */
  lemma EdgesAreParts(g: Graph, o: Options, id: nat, part: nat)
    ensures Edge(g, o, id, part) <==>
              && id < |g| && part != 0 && HasPart(g, o.marks, id, part)
              && (g[id].Ptr? ==> o.expand_pointers)
  {
    if id < |g| {
      match g[id]
      case Record(_, _, _) => ShownTypes(g, o.marks, id, part);
      case Proto(ret, params) =>
        forall i | 0 <= i < |params| && params[i].ty == part
          ensures part in ParamTypes(params)
        {
          assert ParamTypes(params)[i] == part;
        }
      case _ =>
    }
  }

  /** Expanding pointers changes the edges of pointers and no others. */
  lemma OnlyPointersDiffer(g: Graph, o: Options, id: nat, part: nat)
    requires id < |g| && !g[id].Ptr?
    ensures Edge(g, o, id, part) <==> Edge(g, o.(expand_pointers := true), id, part)
  {
    hide HasPart;
    EdgesAreParts(g, o, id, part);
    EdgesAreParts(g, o.(expand_pointers := true), id, part);
  }

  /** In either mode, what the emitter follows from a type other than through a pointer is an edge. */
  lemma FollowedIsPart(c: Base, id: nat, to: nat)
    requires id < |c.g| && Follows(c, id, to)
    ensures HasPart(c.g, c.marks, id, to)
  {
    match c.g[id]
    case Record(_, _, members) =>
      var m :| m in ShownMembers(c.marks, id, members, 0) && m.ty == to;
    case _ =>
  }

  /** What is reached is closed under parts, pointers aside unless they are expanded. */
  lemma PartsReached(g: Graph, o: Options, seeds: set<nat>, id: nat, part: nat)
    requires Reached(g, o, seeds, id) && id < |g| && HasPart(g, o.marks, id, part)
    requires g[id].Ptr? ==> o.expand_pointers
    ensures part == 0 || Reached(g, o, seeds, part)
  {
    hide HasPart, Reached;
    if part != 0 {
      EdgesAreParts(g, o, id, part);
      NextReached(g, o, seeds, id, part);
    }
  }

  /** What is reached is a seed, or a part of something reached. */
  lemma ReachedHasUser(g: Graph, o: Options, seeds: set<nat>, id: nat)
    requires Reached(g, o, seeds, id)
    ensures id in seeds || exists user: nat ::
              && user < |g| && Reached(g, o, seeds, user) && HasPart(g, o.marks, user, id)
              && (g[user].Ptr? ==> o.expand_pointers)
  {
    hide HasPart, Edge;
    var path :| IsPath(g, o, path) && path[0] in seeds && path[|path| - 1] == id;
    if |path| > 1 {
      var before := path[..|path| - 1];
      var user := path[|path| - 2];
      assert IsPath(g, o, before) && before[0] in seeds && before[|before| - 1] == user;
      assert Edge(g, o, user, id);
      EdgesAreParts(g, o, user, id);
    }
  }
}
