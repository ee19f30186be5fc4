/** The emitter itself (src/emitter.c): colour arrays, an output that grows word by word, and the
    mutually recursive procedures over them. */
module Emission {
  import opened Btf
  import opened Bitset
  import opened CSyntax
  import opened Meaning
  import opened Declarators
  import opened Walk
  import opened WalkOnce
  import opened WalkScope
  import opened HeaderScope
  import opened Printer
  import opened Spelling
  import opened EnumDefinitions
  import opened Reading
  import opened HeaderText
  import opened TypeSets

  class Emitter {
    const g: Graph
    const marks: Marks
    ghost const rank: seq<nat>
    const record_state: array<Color>
    const fwd_state: array<bool>
    const typedef_state: array<Color>
    var out: Text
    ghost var log: seq<Decl>

    /** The graph as the specification sees it. */
    ghost function C(): Base {
      Base(g, marks, rank)
    }

    ghost function St(): State
      reads this, record_state, fwd_state, typedef_state
    {
      State(record_state[..], fwd_state[..], typedef_state[..], log)
    }

    ghost predicate Shaped() {
      && Ranked(C())
      && record_state != typedef_state
      && record_state.Length == fwd_state.Length == typedef_state.Length == |g|
    }

    /** Between declarations, the output is the text of the declarations printed. */
    ghost predicate Valid()
      reads this, record_state, fwd_state, typedef_state
    {
      && Shaped()
      && (forall d | d in log :: OfKind(C(), d))
      && out == RenderAll(C(), log)
    }

    constructor (g: Graph, marks: Marks, ghost rank: seq<nat>)
      requires Ranked(Base(g, marks, rank))
      ensures Valid() && St() == Start(|g|)
      ensures this.g == g && this.marks == marks && this.rank == rank
      ensures fresh(record_state) && fresh(fwd_state) && fresh(typedef_state)
    {
      this.g, this.marks, this.rank := g, marks, rank;
      record_state := new Color[|g|](_ => White);
      fwd_state := new bool[|g|](_ => false);
      typedef_state := new Color[|g|](_ => White);
      out, log := [], [];
      new;
      assert record_state[..] == seq(|g|, i => White);
      assert fwd_state[..] == seq(|g|, i => false);
      assert typedef_state[..] == seq(|g|, i => White);
    }

    method Put(words: Text)
      modifies this`out
      ensures out == old(out) + words
    {
      out := out + words;
    }

    /** `leading_qualifier_mask`. */
    method LeadingMask(id: nat) returns (mask: Quals)
      ensures mask == LeadingQuals(g, id, 0)
    {
      mask := {};
      var current: nat := id;
      for depth := 0 to CHAIN_LIMIT
        invariant mask + LeadingQuals(g, current, depth) == LeadingQuals(g, id, 0)
      {
        if current >= |g| || !g[current].Qualified? {
          return;
        }
        mask := mask + {g[current].qual};
        current := g[current].to;
      }
    }

    /** `typedef_target_needs_hard_deps`. */
    method TargetNeedsHardDeps(id: nat) returns (hard: bool)
      ensures hard == NeedsHard(g, id, 0)
    {
      var current: nat := id;
      for depth := 0 to CHAIN_LIMIT
        invariant NeedsHard(g, current, depth) == NeedsHard(g, id, 0)
      {
        if current >= |g| {
          return false;
        }
        match g[current]
        case Qualified(_, to) => current := to;
        case Tag(_, to) => current := to;
        case Array(_, _, _) => return true;
        case Record(_, tag, _) => return tag == "";
        case _ => return false;
      }
      return true;
    }

    /** `emit_decl_ex`. What would not fit its buffer is an error. */
    method EmitDecl(id: nat, d: Declarator) returns (ok: bool)
      requires Shaped() && Sized(d)
      modifies this`out
      ensures Wrote(old(out), Within(DeclText(C(), id, d.words), Roomy(C(), id, SizeOf(d))), out, ok)
      decreases Height(C(), id), 1, 0
    {
      hide Spell, Sized, IndexedSize, StarredSize, AllPrintable, Printable, Printer.Group, InlineText, FunctionText;
      hide QualifiedText;
      if id == 0 {
        Put([VoidWord] + d.words);
        return true;
      }
      if id >= |g| {
        return false;
      }
      ok := true;
      match g[id]
      case Scalar(_, spelling) => Put([BaseWord(spelling)] + d.words);
      case Ptr(to) =>
        var next := Pointed(d);
        PointedSized(d);
        if next.bytes >= BUFFER {
          return false;
        }
        ok := EmitDecl(to, next);
      case Array(elem, _, n) =>
        var next := Suffixed(d, n);
        SuffixedSized(d, n);
        if next.bytes >= BUFFER {
          return false;
        }
        ok := EmitDecl(elem, next);
      case Qualified(_, _) => ok := EmitQualifiedDecl(id, d);
      case Tag(_, to) => ok := EmitDecl(to, d);
      case Typedef(alias, to) =>
        if alias == "" {
          ok := EmitDecl(to, d);
        } else {
          Put([AliasWord(id)] + d.words);
        }
      case Record(isUnion, tag, _) =>
        if tag == "" {
          ok := EmitInlineRecord(id, d);
        } else {
          Put([TagWord(isUnion, id)] + d.words);
        }
      case Fwd(isUnion, _) => Put([TagWord(isUnion, id)] + d.words);
      case Enum(wide, tag, _, _, _) =>
        if tag == "" {
          Put([BaseWord(if wide then "unsigned long long" else "int")] + d.words);
        } else {
          Put([EnumWord(id)] + d.words);
        }
      case Proto(_, _) => ok := EmitFuncDecl(id, d);
      case Void => ok := false;
      case Func(_, _) => ok := false;
      case Var(_, _) => ok := false;
      case DataSec(_, _) => ok := false;
    }

    /** The loop of `emit_qualified_decl`: the end of the chain, and its qualifiers. */
    method FollowQualifiers(id: nat) returns (end: nat, mask: Quals)
      requires Shaped()
      ensures end == ChainEnd(C(), id) && mask == ChainQuals(C(), id)
    {
      mask, end := {}, id;
      while end < |g| && g[end].Qualified?
        invariant mask + ChainQuals(C(), end) == ChainQuals(C(), id)
        invariant ChainEnd(C(), end) == ChainEnd(C(), id)
        decreases Height(C(), end)
      {
        assert Follows(C(), end, g[end].to);
        mask := mask + {g[end].qual};
        end := g[end].to;
      }
    }

    /** `emit_qualified_decl`. */
    method EmitQualifiedDecl(id: nat, d: Declarator) returns (ok: bool)
      requires Shaped() && Sized(d) && id < |g| && g[id].Qualified?
      modifies this`out
      ensures Wrote(old(out), Within(QualifiedText(C(), id, d.words), Roomy(C(), id, SizeOf(d))), out, ok)
      decreases Height(C(), id), 0, 0
    {
      hide Spell, Sized, StarredSize;
      var end, mask := FollowQualifiers(id);
      if end >= |g| {
        return false;
      }
      if g[end].Array? {
        var leading := LeadingMask(g[end].elem);
        mask := mask - leading;
      }
      if g[end].Ptr? {
        assert Follows(C(), end, g[end].to);
        var next := Starred(d, mask);
        StarredSized(d, mask);
        if next.bytes >= BUFFER {
          return false;
        }
        ok := EmitDecl(g[end].to, next);
      } else {
        BothWritten(out, Printed(QualText(mask)), DeclText(C(), end, d.words));
        Put(QualText(mask));
        ok := EmitDecl(end, d);
      }
    }

    /** `emit_inline_record`. */
    method EmitInlineRecord(id: nat, d: Declarator) returns (ok: bool)
      requires Shaped() && 0 < id < |g| && g[id].Record? && g[id].tag == ""
      modifies this`out
      ensures Wrote(old(out), Within(InlineText(C(), id, d.words), AllRoomy(C(), Body(C(), id))), out, ok)
      decreases Height(C(), id), 0, 0
    {
      hide FieldsText, AllPrintable, AllRoomy;
      ghost var before := out;
      ghost var body := FieldsText(C(), Body(C(), id));
      assert forall m | m in Body(C(), id) :: Follows(C(), id, m.ty);
      Put([RecordWord(g[id].isUnion), LBrace]);
      ok := EmitMembers(id);
      if ok {
        Put([RBrace] + d.words);
        BracedWritten(before, g[id].isUnion, body.text, d.words);
      }
    }

    static lemma BracedWritten(before: Text, isUnion: bool, body: Text, d: Text)
      ensures before + [RecordWord(isUnion), LBrace] + body + ([RBrace] + d) == before + Braced(isUnion, body, d)
    {
    }

    method EmitMember(m: Member) returns (ok: bool)
      requires Shaped()
      modifies this`out
      ensures Wrote(old(out), Within(MemberText(C(), m), Roomy(C(), m.ty, NameSize(m.name))), out, ok)
      decreases Height(C(), m.ty), 2, 0
    {
      hide Spell, Sized;
      ghost var before := out;
      NameSized(m.name);
      ok := EmitDecl(m.ty, Declarator(NameText(m.name), |m.name|));
      if ok {
        ghost var text := DeclText(C(), m.ty, NameText(m.name)).text;
        var end := if m.bits != 0 then [Colon, Number(m.bits), Semi] else [Semi];
        Put(end);
        assert (before + text) + end == before + (text + end);
      }
    }

    /** The loop of `emit_record_body`: hidden members are passed over. */
    method EmitMembers(id: nat) returns (ok: bool)
      requires Shaped() && id < |g| && g[id].Record?
      modifies this`out
      ensures Wrote(old(out), Within(FieldsText(C(), Body(C(), id)), AllRoomy(C(), Body(C(), id))), out, ok)
      decreases Top(C(), MemberTypes(Body(C(), id))), 3, 0
    {
      hide DeclText, FieldsText, Top, AllPrintable, ShownMembers, MemberText, Roomy, AllRoomy, Ranked, Shown, Height;
      ghost var c := C();
      ghost var all := Within(FieldsText(c, Body(c, id)), AllRoomy(c, Body(c, id)));
      var members := g[id].members;
      var i := 0;
      while i < |members|
        invariant i <= |members|
        invariant var left := ShownMembers(marks, id, members, i);
                  Then(out, Within(FieldsText(c, left), AllRoomy(c, left))) == Then(old(out), all)
        invariant Top(c, MemberTypes(ShownMembers(marks, id, members, i))) <= Top(c, MemberTypes(Body(c, id)))
      {
        MemberNext(c, id, members, i);
        if Shown(marks, id, i) {
          ghost var later := ShownMembers(marks, id, members, i + 1);
          BothWritten(out, Within(MemberText(c, members[i]), Roomy(c, members[i].ty, NameSize(members[i].name))),
                      Within(FieldsText(c, later), AllRoomy(c, later)));
          ok := EmitMember(members[i]);
          if !ok {
            return false;
          }
        }
        i := i + 1;
      }
      NoMember(c, id, members);
      NothingMore(c, out);
      ok := true;
    }

    /** The text from member `i` on: the member's own, if it is shown, and the rest. */
    static lemma MemberNext(c: Base, id: nat, members: seq<Member>, i: nat)
      requires Ranked(c) && i < |members|
      ensures Shown(c.marks, id, i) ==>
                var shown, later := ShownMembers(c.marks, id, members, i), ShownMembers(c.marks, id, members, i + 1);
                && Within(FieldsText(c, shown), AllRoomy(c, shown)) ==
                   Both(Within(MemberText(c, members[i]), Roomy(c, members[i].ty, NameSize(members[i].name))),
                        Within(FieldsText(c, later), AllRoomy(c, later)))
                && Height(c, members[i].ty) <= Top(c, MemberTypes(shown))
                && Top(c, MemberTypes(later)) <= Top(c, MemberTypes(shown))
      ensures !Shown(c.marks, id, i) ==>
                ShownMembers(c.marks, id, members, i) == ShownMembers(c.marks, id, members, i + 1)
    {
      hide FieldsText, MemberText, Top, Height, Roomy, AllRoomy;
      if Shown(c.marks, id, i) {
        var shown := ShownMembers(c.marks, id, members, i);
        assert shown[0] == members[i] && shown[1..] == ShownMembers(c.marks, id, members, i + 1);
        FieldsTextNext(c, shown);
        AllRoomyNext(c, shown);
      }
    }

    static lemma NoMember(c: Base, id: nat, members: seq<Member>)
      ensures ShownMembers(c.marks, id, members, |members|) == []
    {
    }

    static lemma NothingMore(c: Base, text: Text)
      requires Ranked(c)
      ensures Then(text, Within(FieldsText(c, []), AllRoomy(c, []))) == Printed(text)
      ensures forall from: nat ::
                Then(text, Within(ParamsText(c, [], from), AllRoomyParams(c, [], from))) == Printed(text)
    {
      assert text + [] == text;
    }

    /** `emit_func_decl`. */
    method EmitFuncDecl(id: nat, d: Declarator) returns (ok: bool)
      requires Shaped() && Sized(d) && 0 < id < |g| && g[id].Proto?
      modifies this`out
      ensures Wrote(old(out), Within(FunctionText(C(), id, d.words), Roomy(C(), id, SizeOf(d))), out, ok)
      decreases Height(C(), id), 0, 0
    {
      hide Spell, Sized, Roomy, AllRoomyParams, DeclText, ParamsText, AllPrintable, Printable;
      ghost var before := out;
      var params := g[id].params;
      ghost var result := DeclText(C(), g[id].ret, []);
      ghost var list := if params == [] then Printed([VoidWord]) else ParamsText(C(), params, 0);
      assert Follows(C(), id, g[id].ret);
      assert forall p | p in params :: Follows(C(), id, p.ty);
      ProtoRoomy(C(), id, SizeOf(d));
      NameSized("");
      ok := EmitDecl(g[id].ret, Declarator([], 0));
      if !ok {
        return false;
      }
      Put(Printer.Group(d.words) + [LPar]);
      ok := EmitParams(params);
      if ok {
        Put([RPar]);
        CallWritten(before, result.text, d.words, list.text);
      }
    }

    static lemma CallWritten(before: Text, result: Text, d: Text, list: Text)
      ensures before + result + (Printer.Group(d) + [LPar]) + list + [RPar] == before + (result + WithParams(d, list))
    {
    }

    method EmitParam(p: Param, position: nat) returns (ok: bool)
      requires Shaped()
      modifies this`out
      ensures Wrote(old(out), Within(ParamText(C(), p, position), RoomyParam(C(), p, position)), out, ok)
      decreases Height(C(), p.ty), 2, 0
    {
      hide Spell, Sized;
      ghost var before := out;
      var comma := if position > 0 then [Comma] else [];
      Put(comma);
      if p.ty == 0 {
        Put([VoidWord]);
        ok := true;
      } else {
        var name := ParamName(p.name, position);
        NameSized(name);
        ok := EmitDecl(p.ty, Declarator(NameText(name), |name|));
      }
      assert forall text: Text :: (before + comma) + text == before + (comma + text);
    }

    /** `emit_params`. */
    method EmitParams(params: seq<Param>) returns (ok: bool)
      requires Shaped()
      modifies this`out
      ensures var list := if params == [] then Printed([VoidWord]) else ParamsText(C(), params, 0);
              Wrote(old(out), Within(list, AllRoomyParams(C(), params, 0)), out, ok)
      decreases Top(C(), ParamTypes(params)), 3, 0
    {
      hide DeclText, ParamsText, Top, AllPrintable, RoomyParam;
      if params == [] {
        Put([VoidWord]);
        return true;
      }
      ghost var c := C();
      ghost var all := Within(ParamsText(c, params, 0), AllRoomyParams(c, params, 0));
      hide AllRoomyParams;
      var i := 0;
      while i < |params|
        invariant i <= |params|
        invariant Then(out, Within(ParamsText(c, params[i..], i), AllRoomyParams(c, params[i..], i))) ==
                    Then(old(out), all)
        invariant Top(c, ParamTypes(params[i..])) <= Top(c, ParamTypes(params))
      {
        assert params[i..][1..] == params[i + 1..];
        ParamsTextNext(c, params[i..], i);
        AllRoomyParamsNext(c, params[i..], i);
        BothWritten(out, Within(ParamText(c, params[i], i), RoomyParam(c, params[i], i)),
                    Within(ParamsText(c, params[i + 1..], i + 1), AllRoomyParams(c, params[i + 1..], i + 1)));
        ok := EmitParam(params[i], i);
        if !ok {
          return false;
        }
        i := i + 1;
      }
      NothingMore(c, out);
      ok := true;
    }

    /** The state a walk ends in, or its failure. */
    ghost predicate Walked(r: Outcome, ok: bool)
      reads this, record_state, fwd_state, typedef_state
    {
      if ok then Valid() && r == Done(St()) else r.Failed?
    }

    /** `emit_forward_decl`. */
    method EmitForwardDecl(id: nat) returns (ok: bool)
      requires Valid()
      modifies this`out, this`log, fwd_state
      ensures ok == (id < |g|)
      ensures ok ==> Valid() && St() == Declare(g, id, old(St()))
      ensures !ok ==> St() == old(St()) && out == old(out)
    {
      if id >= |g| {
        return false;
      }
      ok := true;
      if !g[id].Record? && !g[id].Fwd? {
        return;
      }
      if NameOf(g[id]) == "" || fwd_state[id] {
        return;
      }
      Put([TagWord(g[id].isUnion, id), Semi]);
      fwd_state[id] := true;
      RenderMore(C(), log, Forward(id));
      log := log + [Forward(id)];
      assert fwd_state[..] == old(fwd_state[..])[id := true];
    }

    /** `emit_soft_deps`. */
    method EmitSoftDeps(id: nat) returns (ok: bool)
      requires Valid()
      modifies this`out, this`log, record_state, fwd_state, typedef_state
      ensures Shaped() && Walked(Walk.Walk(C(), Soft(id), old(St())), ok)
      decreases Pending(C(), St()), Weight(C(), Soft(id)), 0
    {
      hide Walk.Walk, WalkAll, RenderAll, TopWeight, Pending, Weight, Onward;
      ghost var c, s := C(), St();
      WalkPlanned(c, Soft(id), s);
      if id == 0 {
        return true;
      }
      if id >= |g| {
        return false;
      }
      var t := g[id];
      ok := true;
      if t.Typedef? {
        SameJob(c, Soft(id), DefineTypedef(id), s);
        ok := EmitTypedefDefinition(id);
      } else if t.Qualified? || t.Tag? || t.Ptr? {
        SameJob(c, Soft(id), Soft(t.to), s);
        ok := EmitSoftDeps(t.to);
      } else if t.Array? {
        SameJob(c, Soft(id), Soft(t.elem), s);
        ok := EmitSoftDeps(t.elem);
      } else if t.Proto? {
        ok := EmitPrototypeDeps(id);
      } else if t.Record? || t.Fwd? {
        ok := EmitForwardDecl(id);
      }
    }

    /** The result and the parameters of a prototype, in `emit_soft_deps`. */
    method EmitPrototypeDeps(id: nat) returns (ok: bool)
      requires Valid() && id < |g| && g[id].Proto?
      modifies this`out, this`log, record_state, fwd_state, typedef_state
      ensures Shaped() && Walked(WalkAll(C(), [Soft(g[id].ret)] + Softs(g[id].params), old(St())), ok)
      decreases Pending(C(), St()), TopWeight(C(), [Soft(g[id].ret)] + Softs(g[id].params)), 2
    {
      hide Walk.Walk, WalkAll, RenderAll, TopWeight, Pending, Onward, Ranked;
      ghost var c, s := C(), St();
      ghost var jobs := [Soft(g[id].ret)] + Softs(g[id].params);
      NextJob(c, jobs, s);
      ok := EmitSoftDeps(g[id].ret);
      if ok {
        assert jobs[1..] == Softs(g[id].params);
        ok := EmitParamDeps(g[id].params);
      }
    }

    method EmitParamDeps(params: seq<Param>) returns (ok: bool)
      requires Valid()
      modifies this`out, this`log, record_state, fwd_state, typedef_state
      ensures Shaped() && Walked(WalkAll(C(), Softs(params), old(St())), ok)
      decreases Pending(C(), St()), TopWeight(C(), Softs(params)), 1
    {
      hide Walk.Walk, WalkAll, RenderAll, TopWeight, Pending, Onward, Ranked;
      ghost var c, s := C(), St();
      ghost var all := WalkAll(c, Softs(params), s);
      var i := 0;
      while i < |params|
        invariant i <= |params| && Valid()
        invariant WalkAll(c, Softs(params[i..]), St()) == all
        invariant Pending(c, St()) <= Pending(c, s)
        invariant TopWeight(c, Softs(params[i..])) <= TopWeight(c, Softs(params))
      {
        NextJob(c, Softs(params[i..]), St());
        assert Softs(params[i..])[1..] == Softs(params[i + 1..]);
        ok := EmitSoftDeps(params[i].ty);
        if !ok {
          return false;
        }
        i := i + 1;
      }
      NoJobs(c, St());
      ok := true;
    }

    /** The jobs from member `i` on: the member's own, if it is shown, and the rest. */
    static lemma MemberJobs(marks: Marks, id: nat, members: seq<Member>, i: nat)
      requires i < |members|
      ensures Shown(marks, id, i) ==>
                var jobs := Hards(ShownMembers(marks, id, members, i));
                && jobs != [] && jobs[0] == Hard(members[i].ty)
                && jobs[1..] == Hards(ShownMembers(marks, id, members, i + 1))
      ensures !Shown(marks, id, i) ==> ShownMembers(marks, id, members, i) == ShownMembers(marks, id, members, i + 1)
    {
    }

    static lemma NoMemberJobs(marks: Marks, id: nat, members: seq<Member>)
      ensures Hards(ShownMembers(marks, id, members, |members|)) == []
    {
    }

    static lemma NoJobs(c: Base, s: State)
      requires Ranked(c) && Fits(c, s)
      ensures WalkAll(c, [], s) == Done(s)
    {
    }

    /** `emit_hard_deps`. */
    method EmitHardDeps(id: nat) returns (ok: bool)
      requires Valid()
      modifies this`out, this`log, record_state, fwd_state, typedef_state
      ensures Shaped() && Walked(Walk.Walk(C(), Hard(id), old(St())), ok)
      decreases Pending(C(), St()), Weight(C(), Hard(id)), 0
    {
      hide Walk.Walk, WalkAll, RenderAll, TopWeight, Pending, Weight, Onward;
      ghost var c, s := C(), St();
      WalkPlanned(c, Hard(id), s);
      if id >= |g| {
        return false;
      }
      var t := g[id];
      ok := true;
      if t.Ptr? || t.Proto? {
        SameJob(c, Hard(id), Soft(id), s);
        ok := EmitSoftDeps(id);
      } else if t.Fwd? {
        ok := EmitForwardDecl(id);
      } else if t.Array? {
        SameJob(c, Hard(id), Hard(t.elem), s);
        ok := EmitHardDeps(t.elem);
      } else if t.Typedef? {
        ghost var jobs := [Hard(t.to), DefineTypedef(id)];
        NextJob(c, jobs, s);
        ok := EmitHardDeps(t.to);
        if !ok {
          return false;
        }
        assert jobs[1..] == [DefineTypedef(id)];
        OneJob(c, DefineTypedef(id), St());
        LaterStage(c, id);
        ok := EmitTypedefDefinition(id);
      } else if t.Qualified? || t.Tag? {
        SameJob(c, Hard(id), Hard(t.to), s);
        ok := EmitHardDeps(t.to);
      } else if t.Record? {
        if t.tag != "" {
          SameJob(c, Hard(id), DefineRecord(id), s);
          ok := EmitRecordDefinition(id);
        } else {
          ok := EmitMemberDeps(id);
        }
      }
    }

    static lemma LaterStage(c: Base, id: nat)
      ensures Weight(c, DefineTypedef(id)) < Weight(c, Hard(id))
    {
    }

    /** The loop over the shown members in `emit_record_definition` and `emit_hard_deps`. */
    method EmitMemberDeps(id: nat) returns (ok: bool)
      requires Valid() && id < |g| && g[id].Record?
      modifies this`out, this`log, record_state, fwd_state, typedef_state
      ensures Shaped() && Walked(WalkAll(C(), Hards(Body(C(), id)), old(St())), ok)
      decreases Pending(C(), St()), TopWeight(C(), Hards(Body(C(), id))), 1
    {
      hide Walk.Walk, WalkAll, RenderAll, TopWeight, Pending, Onward, ShownMembers, Hards, Ranked;
      var members := g[id].members;
      ghost var c, s := C(), St();
      ghost var all := WalkAll(c, Hards(Body(c, id)), s);
      var i := 0;
      while i < |members|
        invariant i <= |members| && Valid()
        invariant WalkAll(c, Hards(ShownMembers(marks, id, members, i)), St()) == all
        invariant Pending(c, St()) <= Pending(c, s)
        invariant TopWeight(c, Hards(ShownMembers(marks, id, members, i))) <= TopWeight(c, Hards(Body(c, id)))
      {
        MemberJobs(marks, id, members, i);
        if Shown(marks, id, i) {
          ghost var jobs := Hards(ShownMembers(marks, id, members, i));
          NextJob(c, jobs, St());
          ok := EmitHardDeps(members[i].ty);
          if !ok {
            return false;
          }
        }
        i := i + 1;
      }
      NoMemberJobs(marks, id, members);
      NoJobs(c, St());
      ok := true;
    }

    /** The declaration that `emit_record_definition` prints. */
    method EmitRecordText(id: nat) returns (ok: bool)
      requires Shaped() && id < |g| && NamedRecord(g[id])
      modifies this`out
      ensures ok == BodyPrints(C(), id)
      ensures ok ==> out == old(out) + Render(C(), RecordBody(id))
    {
      ghost var start := out;
      ghost var body := FieldsText(C(), Body(C(), id));
      Put([TagWord(g[id].isUnion, id), LBrace]);
      ok := EmitMembers(id);
      if ok {
        Put([RBrace, Semi]);
        RecordWritten(start, [TagWord(g[id].isUnion, id), LBrace], body.text, [RBrace, Semi]);
      }
    }

    /** `emit_record_definition`. */
    method EmitRecordDefinition(id: nat) returns (ok: bool)
      requires Valid()
      modifies this`out, this`log, record_state, fwd_state, typedef_state
      ensures Shaped() && Walked(Walk.Walk(C(), DefineRecord(id), old(St())), ok)
      decreases Pending(C(), St()), Weight(C(), DefineRecord(id)), 0
    {
      ghost var c, s := C(), St();
      if id >= |g| {
        return false;
      }
      if !NamedRecord(g[id]) || record_state[id] == Black || record_state[id] == Grey {
        return true;
      }
      EnteringShrinks(c, s, id);
      record_state[id] := Grey;
      assert St() == EnterRecord(s, id);
      ok := EmitMemberDeps(id);
      if !ok {
        return false;
      }
      ghost var t := St();
      ok := EmitRecordText(id);
      if !ok {
        return false;
      }
      RenderMore(c, log, RecordBody(id));
      record_state[id] := Black;
      log := log + [RecordBody(id)];
      assert St() == LeaveRecord(t, id);
    }

    static lemma RecordWritten(start: Text, head: Text, body: Text, end: Text)
      ensures start + head + body + end == start + (head + (body + end))
    {
    }

    /** The declaration that `emit_typedef_definition` prints. */
    method EmitTypedefText(id: nat) returns (ok: bool)
      requires Shaped() && id < |g| && NamedTypedef(g[id])
      modifies this`out
      ensures ok == AliasPrints(C(), id)
      ensures ok ==> out == old(out) + Render(C(), Alias(id))
    {
      hide Spell, Sized;
      ghost var start := out;
      ghost var text := DeclText(C(), g[id].to, NameText(g[id].alias));
      Put([TypedefWord]);
      NameSized(g[id].alias);
      ok := EmitDecl(g[id].to, Declarator(NameText(g[id].alias), |g[id].alias|));
      if ok {
        Put([Semi]);
        RecordWritten(start, [TypedefWord], text.text, [Semi]);
      }
    }

    /** `emit_typedef_definition`. */
    method EmitTypedefDefinition(id: nat) returns (ok: bool)
      requires Valid()
      modifies this`out, this`log, record_state, fwd_state, typedef_state
      ensures Shaped() && Walked(Walk.Walk(C(), DefineTypedef(id), old(St())), ok)
      decreases Pending(C(), St()), Weight(C(), DefineTypedef(id)), 0
    {
      hide RenderAll, Render, WalkAll, Onward, TopWeight, AliasPrints, NeedsHard;
      ghost var c, s := C(), St();
      if id >= |g| {
        return false;
      }
      if !g[id].Typedef? || typedef_state[id] == Black {
        return true;
      }
      if typedef_state[id] == Grey {
        return false;
      }
      if g[id].alias == "" {
        return true;
      }
      EnteringShrinks(c, s, id);
      typedef_state[id] := Grey;
      assert St() == EnterTypedef(s, id);
      var hard := TargetNeedsHardDeps(g[id].to);
      if hard {
        ok := EmitHardDeps(g[id].to);
      } else {
        ok := EmitSoftDeps(g[id].to);
      }
      if !ok {
        return false;
      }
      ghost var t := St();
      ok := EmitTypedefText(id);
      if !ok {
        return false;
      }
      RenderMore(c, log, Alias(id));
      typedef_state[id] := Black;
      log := log + [Alias(id)];
      assert St() == LeaveTypedef(t, id);
    }

    static lemma EnumeratorNext(before: Text, t: Type, i: nat)
      requires t.Enum? && i < |t.values|
      ensures before + EnumeratorsText(t, i) == (before + EnumeratorText(t, i)) + EnumeratorsText(t, i + 1)
    {
      hide EnumeratorText;
      Assoc(before, EnumeratorText(t, i), EnumeratorsText(t, i + 1));
    }

    static lemma NoEnumerator(before: Text, t: Type)
      requires t.Enum?
      ensures before + EnumeratorsText(t, |t.values|) == before
    {
      assert before + [] == before;
    }

    /** The enumerators: those of 32 bits in one loop, those of 64 in another. */
    method PutEnumerators(t: Type)
      requires t.Enum?
      modifies this`out
      ensures out == old(out) + EnumeratorsText(t, 0)
    {
      hide EnumeratorsText;
      if !t.wide {
        for i := 0 to |t.values|
          invariant out + EnumeratorsText(t, i) == old(out) + EnumeratorsText(t, 0)
        {
          EnumeratorNext(out, t, i);
          Put(NameText(t.values[i].name) + [Assign, Constant(Signed(t.values[i].bits, INT_SIZE), false)]
              + (if i + 1 == |t.values| then [] else [Comma]));
        }
      } else {
        for i := 0 to |t.values|
          invariant out + EnumeratorsText(t, i) == old(out) + EnumeratorsText(t, 0)
        {
          EnumeratorNext(out, t, i);
          if t.signed {
            Put(NameText(t.values[i].name) + [Assign, Constant(Signed(t.values[i].bits, LONG_SIZE), false)]
                + (if i + 1 == |t.values| then [] else [Comma]));
          } else {
            Put(NameText(t.values[i].name) + [Assign, Constant(t.values[i].bits % LONG_SIZE, true)]
                + (if i + 1 == |t.values| then [] else [Comma]));
          }
        }
      }
      NoEnumerator(out, t);
    }

    /** `emit_enum_definition`. */
    method EmitEnumDefinition(id: nat)
      requires Valid() && id < |g| && g[id].Enum?
      modifies this`out, this`log
      ensures Valid() && St() == old(St()).(out := old(log) + [EnumBody(id)])
    {
      hide Ranked, RenderAll, EnumHead, EnumeratorsText;
      RenderMore(C(), log, EnumBody(id));
      var t := g[id];
      Put(EnumHead(t, id));
      PutEnumerators(t);
      Put([RBrace, Semi]);
      Assoc(old(out), EnumHead(t, id), EnumeratorsText(t, 0) + [RBrace, Semi]);
      Assoc(old(out) + EnumHead(t, id), EnumeratorsText(t, 0), [RBrace, Semi]);
      log := log + [EnumBody(id)];
    }

    static lemma Shift(ids: seq<nat>, id: nat, rest: seq<nat>)
      ensures ids + ([id] + rest) == (ids + [id]) + rest
    {
    }

    ghost predicate Grouped(ids: seq<nat>, tags: seq<nat>, enums: seq<nat>, typedefs: seq<nat>, records: seq<nat>) {
      && InRange(g, ids)
      && tags == Select(g, ids, Tags) && enums == Select(g, ids, Enums)
      && typedefs == Select(g, ids, Typedefs) && records == Select(g, ids, Records)
    }

    lemma GroupedMore(ids: seq<nat>, id: nat, tags: seq<nat>, enums: seq<nat>, typedefs: seq<nat>, records: seq<nat>)
      requires Grouped(ids, tags, enums, typedefs, records) && id < |g|
      ensures Grouped(ids + [id], tags + if Taggable(g[id]) then [id] else [], enums + if g[id].Enum? then [id] else [],
                      typedefs + if g[id].Typedef? then [id] else [], records + if NamedRecord(g[id]) then [id] else [])
    {
      hide Select;
      SelectMore(g, ids, id, Tags);
      SelectMore(g, ids, id, Enums);
      SelectMore(g, ids, id, Typedefs);
      SelectMore(g, ids, id, Records);
    }

    /** `collect_emit_groups`: one pass over the required set fills the four groups, none of which
        outgrows the capacity `selected`. */
    method CollectEmitGroups(required: TypeSet)
      returns (tags: seq<nat>, enums: seq<nat>, typedefs: seq<nat>, records: seq<nat>)
      requires required.Valid() && required.count == |g|
      ensures Grouped(Listing(required.Ids(), 1, required.count), tags, enums, typedefs, records)
      ensures |tags| <= required.selected && |enums| <= required.selected
      ensures |typedefs| <= required.selected && |records| <= required.selected
    {
      hide Listing, Grouped, Members, Taggable, NamedRecord, InRange;
      tags, enums, typedefs, records := [], [], [], [];
      ghost var s, count := required.Ids(), required.count;
      ghost var ids: seq<nat>, at: nat := [], 1;
      var more, id, cursor := required.Next(1);
      NothingGrouped();
      assert ids + Listing(s, 1, count) == Listing(s, 1, count);
      while more
        invariant Grouped(ids, tags, enums, typedefs, records)
        invariant Stepped(s, at, more, id, cursor)
        invariant Listing(s, 1, count) == ids + Listing(s, at, count)
        decreases if more then count - id else -1
      {
        ListingStep(s, at, count, more, id, cursor);
        GroupedMore(ids, id, tags, enums, typedefs, records);
        Shift(ids, id, Listing(s, cursor, count));
        ids, at := ids + [id], cursor;
        tags := tags + if Taggable(g[id]) then [id] else [];
        enums := enums + if g[id].Enum? then [id] else [];
        records := records + if NamedRecord(g[id]) then [id] else [];
        typedefs := typedefs + if g[id].Typedef? then [id] else [];
        more, id, cursor := required.Next(cursor);
      }
      ListingDone(s, at, count);
      assert ids + [] == ids;
      ListingFits(s, 1, count);
      GroupsFit(ids, tags, enums, typedefs, records);
    }

    lemma NothingGrouped()
      ensures Grouped([], [], [], [], [])
    {
    }

    lemma GroupsFit(ids: seq<nat>, tags: seq<nat>, enums: seq<nat>, typedefs: seq<nat>, records: seq<nat>)
      requires Grouped(ids, tags, enums, typedefs, records)
      ensures |tags| <= |ids| && |enums| <= |ids| && |typedefs| <= |ids| && |records| <= |ids|
    {
    }

    method EmitForwards(tags: seq<nat>)
      requires Valid() && InRange(g, tags) && St() == Start(|g|)
      modifies this`out, this`log, fwd_state
      ensures Valid() && St() == DeclareAll(g, tags, Start(|g|))
    {
      hide RenderAll, Declare;
      for i := 0 to |tags|
        invariant Valid() && St() == DeclareAll(g, tags[..i], Start(|g|))
      {
        assert tags[..i + 1][..i] == tags[..i];
        var _ := EmitForwardDecl(tags[i]);
      }
      assert tags[..|tags|] == tags;
    }

    method EmitEnums(enums: seq<nat>)
      requires Valid() && InRange(g, enums) && forall id | id in enums :: g[id].Enum?
      modifies this`out, this`log
      ensures Valid() && St() == ListEnums(enums, old(St()))
    {
      hide RenderAll;
      for i := 0 to |enums|
        invariant Valid() && St() == ListEnums(enums[..i], old(St()))
      {
        assert enums[..i + 1][..i] == enums[..i];
        assert enums[i] in enums;
        EmitEnumDefinition(enums[i]);
      }
      assert enums[..|enums|] == enums;
    }

    method EmitTypedefs(ids: seq<nat>) returns (ok: bool)
      requires Valid()
      modifies this`out, this`log, record_state, fwd_state, typedef_state
      ensures Shaped() && Walked(WalkAll(C(), TypedefJobs(ids), old(St())), ok)
    {
      hide Walk.Walk, WalkAll, RenderAll;
      ghost var c, all := C(), WalkAll(C(), TypedefJobs(ids), St());
      for i := 0 to |ids|
        invariant Valid() && WalkAll(c, TypedefJobs(ids)[i..], St()) == all
      {
        ghost var jobs := TypedefJobs(ids)[i..];
        NextJob(c, jobs, St());
        assert jobs[1..] == TypedefJobs(ids)[i + 1..];
        ok := EmitTypedefDefinition(ids[i]);
        if !ok {
          return false;
        }
      }
      assert TypedefJobs(ids)[|ids|..] == [];
      NoJobs(c, St());
      ok := true;
    }

    method EmitRecords(ids: seq<nat>) returns (ok: bool)
      requires Valid()
      modifies this`out, this`log, record_state, fwd_state, typedef_state
      ensures Shaped() && Walked(WalkAll(C(), RecordJobs(ids), old(St())), ok)
    {
      hide Walk.Walk, WalkAll, RenderAll;
      ghost var c, all := C(), WalkAll(C(), RecordJobs(ids), St());
      for i := 0 to |ids|
        invariant Valid() && WalkAll(c, RecordJobs(ids)[i..], St()) == all
      {
        ghost var jobs := RecordJobs(ids)[i..];
        NextJob(c, jobs, St());
        assert jobs[1..] == RecordJobs(ids)[i + 1..];
        ok := EmitRecordDefinition(ids[i]);
        if !ok {
          return false;
        }
      }
      assert RecordJobs(ids)[|ids|..] == [];
      NoJobs(c, St());
      ok := true;
    }

    /** `mch_emit_header_with_options`: the header of a required set, or failure. */
    method EmitHeader(required: TypeSet) returns (ok: bool)
      requires Valid() && St() == Start(|g|)
      requires required.Valid() && required.count == |g|
      modifies this`out, this`log, record_state, fwd_state, typedef_state
      ensures Shaped() && InRange(g, Listing(old(required.Ids()), 1, |g|))
      ensures Walked(Header(C(), Listing(old(required.Ids()), 1, |g|)), ok)
    {
      hide WalkAll, Walk.Walk, RenderAll, Members, Select, Listing;
      ghost var c := C();
      ghost var ids := Listing(required.Ids(), 1, |g|);
      var tags, enums, typedefs, records := CollectEmitGroups(required);
      EmitForwards(tags);
      EmitEnums(enums);
      WalkBoth(c, TypedefJobs(typedefs), RecordJobs(records), St());
      ok := EmitTypedefs(typedefs);
      if ok {
        ok := EmitRecords(records);
      }
    }
  }
}
