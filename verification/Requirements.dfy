/** The explicit requirements of the input objects: required root types, required record members,
    and the witness of where each came from (src/requirements.c). */
module Requirement {
  import opened Btf
  import opened Bits
  import opened Bitset

  const UINT32_MAX: nat := 0xFFFF_FFFF

  datatype Source = Unknown | ObjectBtf | CoreRelo

  datatype Origin = Origin(source: Source, object_path: string, detail: string, access: string, location: string)

  datatype TraceKind = TypeRoot | RecordMember

  datatype Trace = Trace(kind: TraceKind, type_id: nat, member_index: nat, origin: Origin)

  /** What a trace is about, wherever it came from. */
  function Key(t: Trace): (TraceKind, nat, nat) {
    (t.kind, t.type_id, t.member_index)
  }

  /** The members marked on a record, once it has any. */
  datatype Row = NoRow | Row(words: seq<Word>)

  ghost function Keys(traces: seq<Trace>): set<(TraceKind, nat, nat)> {
    set t | t in traces :: Key(t)
  }

  ghost predicate OncePerKey(traces: seq<Trace>) {
    forall i, j | 0 <= i < j < |traces| :: Key(traces[i]) != Key(traces[j])
  }

  ghost function PairsIn(traces: seq<Trace>): set<(nat, nat)> {
    set t | t in traces && t.kind == RecordMember :: (t.type_id, t.member_index)
  }

  /** Traces and requirements correspond one to one, and the counters count them. */
  ghost predicate Witness(traces: seq<Trace>, roots: set<nat>, pruned: Marks, type_roots: nat, record_members: nat) {
    && OncePerKey(traces)
    && (forall id: nat :: (TypeRoot, id, 0) in Keys(traces) <==> id in roots)
    && (forall id: nat, m: nat :: (RecordMember, id, m) in Keys(traces) <==> Marked(pruned, id, m))
    && (forall t | t in traces && t.kind == TypeRoot :: t.member_index == 0)
    && type_roots == |roots|
    && record_members == |PairsIn(traces)|
    && |traces| == type_roots + record_members
  }

  lemma TraceAdded(before: seq<Trace>, t: Trace)
    ensures Keys(before + [t]) == Keys(before) + {Key(t)}
    ensures PairsIn(before + [t]) ==
            PairsIn(before) + if t.kind == RecordMember then {(t.type_id, t.member_index)} else {}
    ensures OncePerKey(before) && Key(t) !in Keys(before) ==> OncePerKey(before + [t])
  {
    var after := before + [t];
    assert forall u :: u in after <==> u in before || u == t;
    if OncePerKey(before) && Key(t) !in Keys(before) {
      forall i, j | 0 <= i < j < |after|
        ensures Key(after[i]) != Key(after[j])
      {
        assert after[i] in before;
      }
    }
  }

  lemma RootWitnessed(traces: seq<Trace>, roots: set<nat>, pruned: Marks, r: nat, m: nat, id: nat, origin: Origin)
    requires Witness(traces, roots, pruned, r, m) && id !in roots
    ensures Witness(traces + [Trace(TypeRoot, id, 0, origin)], roots + {id}, pruned, r + 1, m)
  {
    hide Keys, PairsIn, OncePerKey;
    TraceAdded(traces, Trace(TypeRoot, id, 0, origin));
  }

  /** Nothing recorded was lost, and what was recorded since is among these. */
  ghost predicate Adds(before: seq<Trace>, after: seq<Trace>, may: iset<Trace>) {
    before <= after && forall i | |before| <= i < |after| :: after[i] in may
  }

  /** The traces of members that one origin requires. */
  ghost function MemberTraces(pairs: set<(nat, nat)>, origin: Origin): iset<Trace> {
    iset t: Trace | t.kind == RecordMember && t.origin == origin && (t.type_id, t.member_index) in pairs
  }

  lemma AddsBoth(a: seq<Trace>, b: seq<Trace>, c: seq<Trace>, first: iset<Trace>, second: iset<Trace>)
    requires Adds(a, b, first) && Adds(b, c, second)
    ensures Adds(a, c, first + second)
  {
    forall i | |a| <= i < |c|
      ensures c[i] in first + second
    {
      if i < |b| {
        assert c[i] == b[i];
      }
    }
  }

  lemma AddsMembers(a: seq<Trace>, b: seq<Trace>, c: seq<Trace>, p: set<(nat, nat)>, q: set<(nat, nat)>, origin: Origin)
    requires Adds(a, b, MemberTraces(p, origin)) && Adds(b, c, MemberTraces(q, origin))
    ensures Adds(a, c, MemberTraces(p + q, origin))
  {
    AddsBoth(a, b, c, MemberTraces(p, origin), MemberTraces(q, origin));
  }

  lemma AddsNothing(a: seq<Trace>, origin: Origin)
    ensures Adds(a, a, MemberTraces({}, origin))
  {
  }

  lemma AddsMember(a: seq<Trace>, id: nat, member: nat, origin: Origin)
    ensures Adds(a, a, MemberTraces({(id, member)}, origin))
    ensures Adds(a, a + [Trace(RecordMember, id, member, origin)], MemberTraces({(id, member)}, origin))
  {
  }

  /** The pruned records once `member` of `id` is kept too. */
  function Keep(pruned: Marks, id: nat, member: nat): Marks {
    pruned[id := (if id in pruned then pruned[id] else {}) + {member}]
  }

  /** A pruned record keeps at least one member. */
  ghost predicate NoneEmpty(pruned: Marks) {
    forall id | id in pruned :: pruned[id] != {}
  }

  lemma KeepFacts(pruned: Marks, id: nat, member: nat)
    ensures NoneEmpty(pruned) ==> NoneEmpty(Keep(pruned, id, member))
    ensures id !in pruned ==>
              Keep(pruned[id := {}], id, member) == Keep(pruned, id, member) && !Marked(pruned[id := {}], id, member)
    ensures forall i :: i in Keep(pruned, id, member) <==> i in pruned || i == id
    ensures id !in pruned ==> !Marked(pruned, id, member)
  {
  }

  lemma KeepAgain(pruned: Marks, id: nat, member: nat)
    requires Marked(pruned, id, member)
    ensures Keep(pruned, id, member) == pruned
  {
    assert pruned[id] + {member} == pruned[id];
  }

  lemma PairHasKey(traces: seq<Trace>, id: nat, member: nat)
    ensures (id, member) in PairsIn(traces) ==> (RecordMember, id, member) in Keys(traces)
  {
    if (id, member) in PairsIn(traces) {
      var t :| t in traces && t.kind == RecordMember && (t.type_id, t.member_index) == (id, member);
      assert Key(t) in Keys(traces);
      assert t.member_index == member;
    }
  }

  lemma KeptPairs(pruned: Marks, id: nat, member: nat)
    ensures forall i: nat, m: nat :: Marked(Keep(pruned, id, member), i, m) <==>
                                     Marked(pruned, i, m) || (i == id && m == member)
  {
  }

  lemma MemberWitnessed(traces: seq<Trace>, roots: set<nat>, pruned: Marks, r: nat, m: nat, id: nat, member: nat,
                        origin: Origin)
    requires Witness(traces, roots, pruned, r, m) && !Marked(pruned, id, member)
    ensures Witness(traces + [Trace(RecordMember, id, member, origin)], roots, Keep(pruned, id, member), r, m + 1)
  {
    hide Keys, PairsIn, OncePerKey, Keep, Marked;
    TraceAdded(traces, Trace(RecordMember, id, member, origin));
    PairHasKey(traces, id, member);
    KeptPairs(pruned, id, member);
  }

  /** A record newly counted as pruned, with nothing kept yet. */
  lemma RowWitnessed(traces: seq<Trace>, roots: set<nat>, pruned: Marks, r: nat, m: nat, id: nat)
    requires Witness(traces, roots, pruned, r, m) && id !in pruned
    ensures Witness(traces, roots, pruned[id := {}], r, m)
  {
  }

  class Requirements {
    const type_count: nat
    const type_root_words: array<Word>
    const record_member_words: array<Row>
    const record_member_counts: array<nat>
    var traces: seq<Trace>
    var type_roots: nat
    var record_members: nat

    /** The required root types. */
    ghost function Roots(): set<nat>
      reads type_root_words
    {
      Members(type_root_words[..])
    }

    /** The pruned records, each with the members it keeps. */
    function Pruned(): Marks
      reads record_member_words
    {
      map id: nat | id < record_member_words.Length && record_member_words[id].Row? ::
        Members(record_member_words[id].words)
    }

    ghost predicate BitsFit()
      reads this, type_root_words, record_member_words, record_member_counts
    {
      && type_root_words.Length == WordCount(type_count)
      && record_member_words.Length == record_member_counts.Length == type_count
      && (forall id | id in Roots() :: id < type_count)
      && forall id | 0 <= id < type_count && record_member_words[id].Row? ::
           && |record_member_words[id].words| == WordCount(record_member_counts[id])
           && forall m | m in Members(record_member_words[id].words) :: m < record_member_counts[id]
    }

    ghost predicate Valid()
      reads this, type_root_words, record_member_words, record_member_counts
    {
      BitsFit() && Witness(traces, Roots(), Pruned(), type_roots, record_members)
    }

    /** A record that counts as pruned keeps at least one member. */
    ghost predicate NoEmptyRow()
      reads record_member_words
    {
      NoneEmpty(Pruned())
    }

    /** The pruned types are records of `g`, with room for all of their members. */
    ghost predicate RowsFit(g: Graph)
      reads record_member_words, record_member_counts
    {
      && type_count == |g| == record_member_counts.Length
      && forall i | i in Pruned() :: i < |g| && g[i].Record? && record_member_counts[i] == |g[i].members|
    }

    constructor (type_count: nat)
      ensures Valid() && NoEmptyRow() && this.type_count == type_count
      ensures Roots() == {} && Pruned() == map[] && traces == []
      ensures fresh(type_root_words) && fresh(record_member_words) && fresh(record_member_counts)
    {
      this.type_count := type_count;
      type_root_words := new Word[WordCount(type_count)](_ => 0);
      record_member_words := new Row[type_count](_ => NoRow);
      record_member_counts := new nat[type_count](_ => 0);
      traces := [];
      type_roots, record_members := 0, 0;
      new;
      NoMembers(WordCount(type_count));
      assert type_root_words[..] == seq(WordCount(type_count), i => 0 as Word);
    }

    method ContainsTypeRoot(id: nat) returns (found: bool)
      requires BitsFit()
      ensures found == (id in Roots())
    {
      if id >= type_count {
        return false;
      }
      MaskTest(type_root_words[id / BITS], id % BITS);
      found := And(type_root_words[id / BITS], Mask(id % BITS)) != 0;
    }

    method HasRecordMembers(id: nat) returns (found: bool)
      requires BitsFit()
      ensures found == (id in Pruned())
    {
      found := id < type_count && record_member_words[id].Row?;
    }

    method ContainsRecordMember(id: nat, member: nat) returns (found: bool)
      requires BitsFit()
      ensures found == Marked(Pruned(), id, member)
    {
      if id >= type_count || record_member_words[id].NoRow? || member >= record_member_counts[id] {
        return false;
      }
      var words := record_member_words[id].words;
      MaskTest(words[member / BITS], member % BITS);
      found := And(words[member / BITS], Mask(member % BITS)) != 0;
    }

    /** `append_trace`. */
    method AppendTrace(kind: TraceKind, id: nat, member: nat, origin: Origin) returns (ok: bool)
      modifies this`traces
      ensures ok == (id <= 0xFFFF_FFFF && member <= 0xFFFF_FFFF)
      ensures traces == if ok then old(traces) + [Trace(kind, id, member, origin)] else old(traces)
    {
      if id > UINT32_MAX || member > UINT32_MAX {
        return false;
      }
      traces := traces + [Trace(kind, id, member, origin)];
      return true;
    }

    /** Requires a root type. The first origin recorded for it stays. */
    method AddTypeRoot(id: nat, origin: Origin) returns (ok: bool)
      requires Valid()
      modifies this`traces, this`type_roots, type_root_words
      ensures Valid()
      ensures ok == (id < type_count && (id in old(Roots()) || id <= UINT32_MAX))
      ensures Roots() == if ok then old(Roots()) + {id} else old(Roots())
      ensures traces ==
              if ok && id !in old(Roots()) then old(traces) + [Trace(TypeRoot, id, 0, origin)] else old(traces)
    {
      hide Witness, Members;
      if id >= type_count {
        return false;
      }
      var present := ContainsTypeRoot(id);
      if present {
        assert Roots() == Roots() + {id};
        return true;
      }
      ok := AppendTrace(TypeRoot, id, 0, origin);
      if !ok {
        return false;
      }
      SetRoot(id, origin, old(traces));
    }

    method SetRoot(id: nat, origin: Origin, ghost before: seq<Trace>)
      requires BitsFit() && id < type_count && id !in Roots()
      requires Witness(before, Roots(), Pruned(), type_roots, record_members)
      requires traces == before + [Trace(TypeRoot, id, 0, origin)]
      modifies this`type_roots, type_root_words
      ensures Valid() && Roots() == old(Roots()) + {id}
    {
      hide Witness, Members;
      ghost var words := type_root_words[..];
      type_root_words[id / BITS] := WordOr(type_root_words[id / BITS], Mask(id % BITS));
      type_roots := type_roots + 1;
      assert type_root_words[..] == words[id / BITS := WordOr(words[id / BITS], Mask(id % BITS))];
      MembersOfSet(words, id);
      RootWitnessed(before, old(Roots()), Pruned(), old(type_roots), record_members, id, origin);
    }

    /** Makes room for the member bits of a record on its first mark. */
    method PruneRecord(id: nat, member_count: nat)
      requires Valid() && id < type_count && id !in Pruned()
      modifies record_member_words, record_member_counts
      ensures Valid() && Pruned() == old(Pruned())[id := {}]
      ensures record_member_words[id].Row? && record_member_counts[id] == member_count
      ensures forall i | 0 <= i < type_count && i != id :: record_member_counts[i] == old(record_member_counts[i])
    {
      hide Witness, Members;
      NoMembers(WordCount(member_count));
      record_member_words[id] := Row(seq(WordCount(member_count), i => 0 as Word));
      record_member_counts[id] := member_count;
      assert Pruned() == old(Pruned())[id := {}];
      RowWitnessed(traces, Roots(), old(Pruned()), type_roots, record_members, id);
    }

    /** Requires a member of a record; the first one prunes the record to what is required. */
    method AddRecordMember(g: Graph, id: nat, member: nat, origin: Origin) returns (ok: bool)
      requires Valid() && RowsFit(g)
      modifies this`traces, this`record_members, record_member_words, record_member_counts
      ensures Valid() && RowsFit(g)
      ensures ok ==> id < |g| && g[id].Record? && member < |g[id].members|
      ensures id < |g| && g[id].Record? && member < |g[id].members| && id <= UINT32_MAX && member <= UINT32_MAX ==> ok
      ensures ok ==> Pruned() == Keep(old(Pruned()), id, member)
      ensures !ok ==> Pruned() == old(Pruned()) || (id !in old(Pruned()) && Pruned() == old(Pruned())[id := {}])
      ensures old(NoEmptyRow()) && ok ==> NoEmptyRow()
      ensures traces == if ok && !Marked(old(Pruned()), id, member)
                        then old(traces) + [Trace(RecordMember, id, member, origin)] else old(traces)
    {
      hide Witness, Members, Keep, Btf.Marked, NoneEmpty, PairsIn;
      KeepFacts(Pruned(), id, member);
      if id >= type_count || !g[id].Record? || member >= |g[id].members| {
        return false;
      }
      if record_member_words[id].NoRow? {
        PruneRecord(id, |g[id].members|);
      }
      var present := ContainsRecordMember(id, member);
      if present {
        KeepAgain(Pruned(), id, member);
        return true;
      }
      ok := AppendTrace(RecordMember, id, member, origin);
      if ok {
        SetMember(id, member, origin, old(traces));
      }
    }

    method SetMember(id: nat, member: nat, origin: Origin, ghost before: seq<Trace>)
      requires BitsFit() && id in Pruned() && member < record_member_counts[id] && !Marked(Pruned(), id, member)
      requires Witness(before, Roots(), Pruned(), type_roots, record_members)
      requires traces == before + [Trace(RecordMember, id, member, origin)]
      modifies this`record_members, record_member_words
      ensures Valid() && Pruned() == Keep(old(Pruned()), id, member)
    {
      hide Witness;
      var words := record_member_words[id].words;
      record_member_words[id] := Row(words[member / BITS := WordOr(words[member / BITS], Mask(member % BITS))]);
      record_members := record_members + 1;
      MembersOfSet(words, member);
      assert Pruned() == Keep(old(Pruned()), id, member);
      MemberWitnessed(before, Roots(), old(Pruned()), type_roots, old(record_members), id, member, origin);
    }
  }
}
