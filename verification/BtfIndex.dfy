/** The index of the base types by name and kind (src/btf_index.c): a table of chained buckets. */
module BtfIndex {
  import opened Bits
  import opened Btf

  const SIZE_MAX: nat := 0xFFFF_FFFF_FFFF_FFFF
  const HALF_WORD: nat := 0x8000_0000_0000_0000
  const UINT32_MAX: nat := 0xFFFF_FFFF
  const NONE: nat := UINT32_MAX

  predicate IsIndexedKind(k: Kind) {
    k in {KStruct, KUnion, KEnum, KEnum64, KTypedef, KFwd}
  }

  datatype Row = Row(name: string, kind: Kind, id: nat)
  datatype Entry = Entry(name: string, type_id: nat, next: nat, kind: Kind, ambiguous: bool)

  type Hash = (string, Kind) -> nat

  /** The ids recorded under a name and kind, in order. */
  function Matches(log: seq<Row>, name: string, kind: Kind): seq<nat> {
    if log == [] then []
    else
      var last := log[|log| - 1];
      Matches(log[..|log| - 1], name, kind) + if last.name == name && last.kind == kind then [last.id] else []
  }

  lemma MatchesMore(log: seq<Row>, r: Row, name: string, kind: Kind)
    ensures Matches(log + [r], name, kind) ==
            Matches(log, name, kind) + if r.name == name && r.kind == kind then [r.id] else []
  {
    assert (log + [r])[..|log|] == log;
  }

  /** Links go from newer entries to older ones. */
  ghost predicate Linked(buckets: seq<nat>, entries: seq<Entry>) {
    && |entries| <= NONE
    && (forall b | 0 <= b < |buckets| :: buckets[b] == NONE || buckets[b] < |entries|)
    && (forall e | 0 <= e < |entries| :: entries[e].next == NONE || entries[e].next < e)
  }

  /** Whether the chain that starts at `from` passes through entry `e`. */
  ghost predicate OnChain(entries: seq<Entry>, from: nat, e: nat)
    requires forall i | 0 <= i < |entries| :: entries[i].next == NONE || entries[i].next < i
    decreases from
  {
    from < |entries| && (from == e || (entries[from].next < from && OnChain(entries, entries[from].next, e)))
  }

  ghost predicate SameKey(e: Entry, name: string, kind: Kind) {
    e.name == name && e.kind == kind
  }

  /** The bucket of a key: its hash, masked by the number of buckets less one. */
  function BucketOf(hash: Hash, buckets: nat, name: string, kind: Kind): (b: nat)
    requires buckets > 0
    ensures b < buckets
  {
    And(hash(name, kind), buckets - 1)
  }

  /** With a power of two of buckets, masking spreads the hashes over all of them. */
  lemma BucketIsRemainder(hash: Hash, buckets: nat, name: string, kind: Kind)
    requires IsPowerOfTwo(buckets)
    ensures BucketOf(hash, buckets, name, kind) == hash(name, kind) % buckets
  {
    MaskIsRemainder(hash(name, kind), buckets);
  }

  /** Every entry is on the chain of its bucket. */
  ghost predicate Reachable(hash: Hash, buckets: seq<nat>, entries: seq<Entry>)
    requires |buckets| > 0 && Linked(buckets, entries)
  {
    forall e | 0 <= e < |entries| ::
      OnChain(entries, buckets[BucketOf(hash, |buckets|, entries[e].name, entries[e].kind)], e)
  }

  ghost predicate UniqueKeys(entries: seq<Entry>) {
    forall e, f | 0 <= e < f < |entries| :: !SameKey(entries[e], entries[f].name, entries[f].kind)
  }

  ghost predicate HasEntry(entries: seq<Entry>, name: string, kind: Kind) {
    exists e :: 0 <= e < |entries| && SameKey(entries[e], name, kind)
  }

  /** Each entry sums up the records of its key, and each record has an entry. */
  ghost predicate Summary(entries: seq<Entry>, log: seq<Row>) {
    && (forall e | 0 <= e < |entries| :: Sums(entries[e], log))
    && (forall name, kind | Matches(log, name, kind) != [] :: HasEntry(entries, name, kind))
  }

  ghost predicate Table(hash: Hash, buckets: seq<nat>, entries: seq<Entry>, log: seq<Row>) {
    && |buckets| > 0 && Linked(buckets, entries)
    && Reachable(hash, buckets, entries) && UniqueKeys(entries) && Summary(entries, log)
  }

  ghost predicate Sums(e: Entry, log: seq<Row>) {
    var ids := Matches(log, e.name, e.kind);
    if e.ambiguous then |ids| >= 2 else ids == [e.type_id]
  }

  /** Every entry of a key is on the chain from `from` on. */
  ghost predicate KeyAhead(entries: seq<Entry>, from: nat, name: string, kind: Kind) {
    && (forall i | 0 <= i < |entries| :: entries[i].next == NONE || entries[i].next < i)
    && forall e: nat | e < |entries| && SameKey(entries[e], name, kind) :: OnChain(entries, from, e)
  }

  lemma KeyStarts(hash: Hash, buckets: seq<nat>, entries: seq<Entry>, name: string, kind: Kind)
    requires |buckets| > 0 && Linked(buckets, entries) && Reachable(hash, buckets, entries)
    ensures var head := buckets[BucketOf(hash, |buckets|, name, kind)];
            (head == NONE || head < |entries|) && KeyAhead(entries, head, name, kind)
  {
    hide OnChain;
  }

  lemma KeyNext(entries: seq<Entry>, at: nat, name: string, kind: Kind)
    requires KeyAhead(entries, at, name, kind) && at < |entries|
    ensures var next := entries[at].next;
            && (next == NONE || next < at)
            && (!SameKey(entries[at], name, kind) ==> KeyAhead(entries, next, name, kind))
  {
  }

  lemma KeyEnds(entries: seq<Entry>, name: string, kind: Kind)
    ensures |entries| <= NONE && KeyAhead(entries, NONE, name, kind) ==> !HasEntry(entries, name, kind)
  {
  }

  lemma {:induction false} ChainKept(before: seq<Entry>, after: seq<Entry>, from: nat, e: nat)
    requires forall i | 0 <= i < |before| :: before[i].next == NONE || before[i].next < i
    requires forall i | 0 <= i < |after| :: after[i].next == NONE || after[i].next < i
    requires |before| <= |after| && forall i | 0 <= i < |before| :: after[i].next == before[i].next
    requires OnChain(before, from, e)
    ensures OnChain(after, from, e)
    decreases from
  {
    if from != e {
      ChainKept(before, after, before[from].next, e);
    }
  }

  lemma NothingListed(hash: Hash, buckets: seq<nat>)
    requires |buckets| > 0 && forall b | 0 <= b < |buckets| :: buckets[b] == NONE
    ensures Table(hash, buckets, [], [])
  {
  }

  /** A record of a new key gets an entry at the head of its bucket. */
  lemma NewEntry(hash: Hash, buckets: seq<nat>, entries: seq<Entry>, log: seq<Row>, r: Row)
    requires Table(hash, buckets, entries, log) && |entries| < NONE && !HasEntry(entries, r.name, r.kind)
    ensures var b := BucketOf(hash, |buckets|, r.name, r.kind);
            Table(hash, buckets[b := |entries|],
                  entries + [Entry(r.name, r.id, buckets[b], r.kind, false)], log + [r])
  {
    var b := BucketOf(hash, |buckets|, r.name, r.kind);
    var entry := Entry(r.name, r.id, buckets[b], r.kind, false);
    NewReachable(hash, buckets, entries, entry);
    NewSummary(entries, log, r, entry);
    NewKey(entries, r, entry);
    hide Summary, Reachable, Linked, UniqueKeys, BucketOf;
  }

  lemma NewKey(entries: seq<Entry>, r: Row, entry: Entry)
    requires UniqueKeys(entries) && !HasEntry(entries, r.name, r.kind) && SameKey(entry, r.name, r.kind)
    ensures UniqueKeys(entries + [entry])
  {
    forall e | 0 <= e < |entries|
      ensures !SameKey(entries[e], r.name, r.kind)
    {
    }
  }

  lemma NewReachable(hash: Hash, buckets: seq<nat>, entries: seq<Entry>, entry: Entry)
    requires |buckets| > 0 && Linked(buckets, entries) && Reachable(hash, buckets, entries) && |entries| < NONE
    requires entry.next == buckets[BucketOf(hash, |buckets|, entry.name, entry.kind)]
    ensures var heads := buckets[BucketOf(hash, |buckets|, entry.name, entry.kind) := |entries|];
            Linked(heads, entries + [entry]) && Reachable(hash, heads, entries + [entry])
  {
    hide OnChain, BucketOf;
    var after := entries + [entry];
    var heads := buckets[BucketOf(hash, |buckets|, entry.name, entry.kind) := |entries|];
    forall e | 0 <= e < |after|
      ensures OnChain(after, heads[BucketOf(hash, |heads|, after[e].name, after[e].kind)], e)
    {
      if e < |entries| {
        ChainKept(entries, after, buckets[BucketOf(hash, |buckets|, entries[e].name, entries[e].kind)], e);
      }
      FromLast(after, e);
    }
  }

  /** The last entry's chain passes through it, and through all that its link leads to. */
  lemma FromLast(entries: seq<Entry>, e: nat)
    requires (forall i | 0 <= i < |entries| :: entries[i].next == NONE || entries[i].next < i) && entries != []
    ensures e == |entries| - 1 ==> OnChain(entries, |entries| - 1, e)
    ensures OnChain(entries, entries[|entries| - 1].next, e) && |entries| <= NONE ==> OnChain(entries, |entries| - 1, e)
  {
  }

  lemma NewSummary(entries: seq<Entry>, log: seq<Row>, r: Row, entry: Entry)
    requires Summary(entries, log) && !HasEntry(entries, r.name, r.kind)
    requires SameKey(entry, r.name, r.kind) && entry.type_id == r.id && !entry.ambiguous
    ensures Summary(entries + [entry], log + [r])
  {
    var after := entries + [entry];
    assert Matches(log, r.name, r.kind) == [];
    forall e | 0 <= e < |after|
      ensures Sums(after[e], log + [r])
    {
      MatchesMore(log, r, after[e].name, after[e].kind);
    }
    forall name, kind | Matches(log + [r], name, kind) != []
      ensures HasEntry(after, name, kind)
    {
      MatchesMore(log, r, name, kind);
      EntryKept(entries, after, name, kind);
      assert SameKey(after[|entries|], r.name, r.kind);
    }
  }

  lemma EntryKept(before: seq<Entry>, after: seq<Entry>, name: string, kind: Kind)
    requires |before| <= |after|
    requires forall e | 0 <= e < |before| :: after[e].name == before[e].name && after[e].kind == before[e].kind
    ensures HasEntry(before, name, kind) ==> HasEntry(after, name, kind)
  {
    if HasEntry(before, name, kind) {
      var e :| 0 <= e < |before| && SameKey(before[e], name, kind);
      assert SameKey(after[e], name, kind);
    }
  }

  /** A record of a known key makes its entry ambiguous. */
  lemma KnownEntry(hash: Hash, buckets: seq<nat>, entries: seq<Entry>, log: seq<Row>, r: Row, e: nat)
    requires Table(hash, buckets, entries, log) && e < |entries| && SameKey(entries[e], r.name, r.kind)
    ensures Table(hash, buckets, entries[e := entries[e].(ambiguous := true, type_id := 0)], log + [r])
  {
    KnownReachable(hash, buckets, entries, e);
    KnownSummary(entries, log, r, e);
    hide Summary, Reachable, Linked;
  }

  lemma KnownReachable(hash: Hash, buckets: seq<nat>, entries: seq<Entry>, e: nat)
    requires |buckets| > 0 && Linked(buckets, entries) && Reachable(hash, buckets, entries) && e < |entries|
    ensures var after := entries[e := entries[e].(ambiguous := true, type_id := 0)];
            Linked(buckets, after) && Reachable(hash, buckets, after)
  {
    hide OnChain, Linked, Reachable, BucketOf;
    SameLinks(hash, buckets, entries, entries[e := entries[e].(ambiguous := true, type_id := 0)]);
  }

  /** What is reachable depends on the keys and links of the entries alone. */
  lemma SameLinks(hash: Hash, buckets: seq<nat>, before: seq<Entry>, after: seq<Entry>)
    requires |buckets| > 0 && Linked(buckets, before) && Reachable(hash, buckets, before) && |after| == |before|
    requires forall f | 0 <= f < |before| ::
               after[f].next == before[f].next && after[f].name == before[f].name && after[f].kind == before[f].kind
    ensures Linked(buckets, after) && Reachable(hash, buckets, after)
  {
    hide OnChain, BucketOf;
    forall f | 0 <= f < |after|
      ensures OnChain(after, buckets[BucketOf(hash, |buckets|, after[f].name, after[f].kind)], f)
    {
      ChainKept(before, after, buckets[BucketOf(hash, |buckets|, before[f].name, before[f].kind)], f);
    }
  }

  lemma KnownSummary(entries: seq<Entry>, log: seq<Row>, r: Row, e: nat)
    requires UniqueKeys(entries) && Summary(entries, log) && e < |entries| && SameKey(entries[e], r.name, r.kind)
    ensures Summary(entries[e := entries[e].(ambiguous := true, type_id := 0)], log + [r])
  {
    var after := entries[e := entries[e].(ambiguous := true, type_id := 0)];
    forall f | 0 <= f < |after|
      ensures Sums(after[f], log + [r])
    {
      MatchesMore(log, r, after[f].name, after[f].kind);
      assert Sums(entries[f], log);
      assert f < e || f == e || e < f;
    }
    forall name, kind | Matches(log + [r], name, kind) != []
      ensures HasEntry(after, name, kind)
    {
      MatchesMore(log, r, name, kind);
      EntryKept(entries, after, name, kind);
      assert SameKey(after[e], r.name, r.kind);
    }
  }

  lemma {:induction false} NextIsTwice(a: nat, b: nat)
    requires IsPowerOfTwo(a) && IsPowerOfTwo(b) && a < b
    ensures 2 * a <= b
  {
    if a > 1 {
      NextIsTwice(a / 2, b / 2);
    }
  }

  lemma {:induction false} PowerTimes(a: nat, b: nat)
    requires IsPowerOfTwo(a) && IsPowerOfTwo(b)
    ensures IsPowerOfTwo(a * b)
  {
    if a > 1 {
      PowerTimes(a / 2, b);
      assert a * b == 2 * (a / 2 * b);
    }
  }

  lemma HalfWordIsPower()
    ensures IsPowerOfTwo(HALF_WORD)
  {
    assert IsPowerOfTwo(2) && IsPowerOfTwo(4) by { assert IsPowerOfTwo(1); }
    PowerTimes(2, 4);
    PowerTimes(8, 8);
    PowerTimes(8, 64);
    PowerTimes(0x200, 0x200);
    PowerTimes(0x200, 0x4_0000);
    PowerTimes(0x800_0000, 0x800_0000);
    PowerTimes(0x200, 0x40_0000_0000_0000);
  }

  method NextPowerOfTwo(value: nat) returns (result: nat)
    requires value <= SIZE_MAX
    ensures value <= result && 0 < result
    ensures value <= HALF_WORD ==> IsPowerOfTwo(result)
    ensures value > HALF_WORD ==> result == value
    ensures value <= 1 ==> result == 1
    ensures 1 < value <= HALF_WORD ==> result < 2 * value
  {
    HalfWordIsPower();
    result := 1;
    while result < value && result <= SIZE_MAX / 2
      invariant IsPowerOfTwo(result) && 0 < result
      invariant (result == 1 || result < 2 * value) && result <= HALF_WORD
      decreases 2 * value - result
    {
      NextIsTwice(result, HALF_WORD);
      result := result * 2;
    }
    if result < value {
      result := value;
    }
  }

  /** The named types of the indexed kinds among the ids below `n`, in order. */
  function Indexed(g: Graph, n: nat): seq<Row>
    requires n <= |g|
  {
    if n <= 1 then []
    else
      var t := g[n - 1];
      Indexed(g, n - 1)
      + if IsIndexedKind(KindOf(t)) && NameOf(t) != "" then [Row(NameOf(t), KindOf(t), n - 1)] else []
  }

  /** The base types of a name and kind. */
  predicate IsCandidate(g: Graph, name: string, kind: Kind, id: nat) {
    0 < id < |g| && NameOf(g[id]) == name && KindOf(g[id]) == kind
  }

  ghost predicate AscendingBelow(ids: seq<nat>, n: nat) {
    && (forall i | 0 <= i < |ids| :: ids[i] < n)
    && (forall i, j | 0 <= i < j < |ids| :: ids[i] < ids[j])
  }

  lemma MatchesStep(g: Graph, n: nat, name: string, kind: Kind)
    requires 1 < n <= |g| && name != "" && IsIndexedKind(kind)
    ensures Matches(Indexed(g, n), name, kind) ==
            Matches(Indexed(g, n - 1), name, kind) + if IsCandidate(g, name, kind, n - 1) then [n - 1] else []
  {
    var t := g[n - 1];
    if IsIndexedKind(KindOf(t)) && NameOf(t) != "" {
      MatchesMore(Indexed(g, n - 1), Row(NameOf(t), KindOf(t), n - 1), name, kind);
    } else {
      assert Indexed(g, n) == Indexed(g, n - 1);
    }
  }

  lemma AscendingMore(ids: seq<nat>, n: nat, more: bool)
    requires AscendingBelow(ids, n)
    ensures AscendingBelow(ids + if more then [n] else [], n + 1)
  {
  }

  /** The index records each id once, in ascending order. */
  lemma {:induction false} MatchesAscend(g: Graph, n: nat, name: string, kind: Kind)
    requires n <= |g| && name != "" && IsIndexedKind(kind)
    ensures AscendingBelow(Matches(Indexed(g, n), name, kind), n)
  {
    if n > 1 {
      hide AscendingBelow, Matches, Indexed, IsCandidate;
      MatchesAscend(g, n - 1, name, kind);
      MatchesStep(g, n, name, kind);
      AscendingMore(Matches(Indexed(g, n - 1), name, kind), n - 1, IsCandidate(g, name, kind, n - 1));
    }
  }

  /** The index records what a scan of the graph finds. */
  lemma {:induction false} MatchesAreCandidates(g: Graph, n: nat, name: string, kind: Kind, id: nat)
    requires n <= |g| && name != "" && IsIndexedKind(kind)
    ensures id in Matches(Indexed(g, n), name, kind) <==> id < n && IsCandidate(g, name, kind, id)
  {
    hide Matches, Indexed, IsCandidate, IsIndexedKind;
    if n <= 1 {
      NoCandidateYet(g, n, name, kind, id);
    } else {
      MatchesAreCandidates(g, n - 1, name, kind, id);
      MatchesStep(g, n, name, kind);
    }
  }

  lemma NoCandidateYet(g: Graph, n: nat, name: string, kind: Kind, id: nat)
    requires n <= |g| && n <= 1
    ensures Matches(Indexed(g, n), name, kind) == [] && (id < n ==> !IsCandidate(g, name, kind, id))
  {
  }

  function Candidates(g: Graph, name: string, kind: Kind): set<nat> {
    set id: nat | id < |g| && IsCandidate(g, name, kind, id)
  }

  /** The base enums that agree with an anonymous enum in every respect. */
  function Twins(g: Graph, t: Type): set<nat> {
    set id: nat | 0 < id < |g| && g[id] == t
  }

  /** What a lookup says of the types it may pick from: 1 and the only one, -1 for several, 0 for none. */
  ghost predicate Verdict(among: set<nat>, found: int, type_id: nat) {
    && found in {-1, 0, 1}
    && (found == 1 ==> among == {type_id})
    && (found == -1 ==> exists i, j :: i in among && j in among && i != j)
    && (found == 0 ==> among == {})
  }

  lemma MatchesVerdict(g: Graph, name: string, kind: Kind, ids: seq<nat>)
    requires name != "" && IsIndexedKind(kind) && ids == Matches(Indexed(g, |g|), name, kind)
    ensures ids == [] ==> Verdict(Candidates(g, name, kind), 0, 0)
    ensures |ids| == 1 ==> Verdict(Candidates(g, name, kind), 1, ids[0])
    ensures |ids| >= 2 ==> Verdict(Candidates(g, name, kind), -1, 0)
  {
    hide Matches, Indexed, IsCandidate;
    MatchesAscend(g, |g|, name, kind);
    forall id: nat
      ensures id in ids <==> id in Candidates(g, name, kind)
    {
      MatchesAreCandidates(g, |g|, name, kind, id);
    }
    if |ids| >= 2 {
      assert ids[0] in ids && ids[1] in ids;
    }
  }

  /** The entry of a key, or its absence, gives the verdict. */
  lemma EntryVerdict(g: Graph, rows: seq<Entry>, name: string, kind: Kind, e: nat)
    requires name != "" && IsIndexedKind(kind) && Summary(rows, Indexed(g, |g|))
    requires e < |rows| ==> SameKey(rows[e], name, kind)
    requires e >= |rows| ==> !HasEntry(rows, name, kind)
    ensures e >= |rows| ==> Verdict(Candidates(g, name, kind), 0, 0)
    ensures e < |rows| && rows[e].ambiguous ==> Verdict(Candidates(g, name, kind), -1, 0)
    ensures e < |rows| && !rows[e].ambiguous ==> Verdict(Candidates(g, name, kind), 1, rows[e].type_id)
  {
    hide Matches, Indexed, HasEntry, Verdict, Candidates;
    MatchesVerdict(g, name, kind, Matches(Indexed(g, |g|), name, kind));
    assert e < |rows| ==> Sums(rows[e], Indexed(g, |g|));
  }

  /** `anonymous_enum_matches`: agreement of a base type with an anonymous object enum, field by field. */
  method AnonymousEnumMatches(base: Type, wanted: Type) returns (same: bool)
    requires wanted.Enum? && wanted.tag == ""
    ensures same == (base == wanted)
  {
    if KindOf(base) != KindOf(wanted) || base.size != wanted.size || base.signed != wanted.signed
      || |base.values| != |wanted.values| || base.tag != "" {
      return false;
    }
    for i := 0 to |wanted.values|
      invariant base.values[..i] == wanted.values[..i]
    {
      if base.values[i].name != wanted.values[i].name || base.values[i].bits != wanted.values[i].bits {
        return false;
      }
    }
    return true;
  }

  class Index {
    const hash: Hash
    const g: Graph
    var buckets: array<nat>
    var entries: array<Entry>
    var entry_count: nat
    ghost var log: seq<Row>

    ghost predicate Valid()
      reads this, buckets, entries
    {
      && entry_count <= entries.Length
      && Table(hash, buckets[..], entries[..entry_count], log)
    }

    constructor (g: Graph, hash: Hash)
      ensures this.g == g && this.hash == hash && fresh(buckets) && fresh(entries)
      ensures entry_count == 0 && buckets.Length == 0
    {
      this.g, this.hash := g, hash;
      buckets, entries := new nat[0], new Entry[0];
      entry_count, log := 0, [];
    }

    /** The walk along a bucket's chain: the entry of a key, or none. */
    method FindEntry(name: string, kind: Kind) returns (entry_id: nat)
      requires Valid()
      ensures entry_id == NONE ==> !HasEntry(entries[..entry_count], name, kind)
      ensures entry_id != NONE ==> entry_id < entry_count && SameKey(entries[entry_id], name, kind)
    {
      ghost var rows := entries[..entry_count];
      entry_id := buckets[BucketOf(hash, buckets.Length, name, kind)];
      KeyStarts(hash, buckets[..], rows, name, kind);
      hide Table, Summary, UniqueKeys, Reachable, BucketOf, OnChain, HasEntry, IsPowerOfTwo;
      while entry_id != NONE
        invariant (entry_id == NONE || entry_id < entry_count) && KeyAhead(rows, entry_id, name, kind)
        decreases if entry_id == NONE then 0 else entry_id + 1
      {
        KeyNext(rows, entry_id, name, kind);
        if entries[entry_id].kind == kind && entries[entry_id].name == name {
          return;
        }
        entry_id := entries[entry_id].next;
      }
      KeyEnds(rows, name, kind);
    }

    /** `index_insert`: a second type of a name and kind makes its entry ambiguous. */
    method Insert(r: Row)
      requires Valid() && entry_count < entries.Length <= NONE
      modifies this`entry_count, this`log, buckets, entries
      ensures Valid() && log == old(log) + [r]
      ensures entry_count <= old(entry_count) + 1
    {
      hide Table, HasEntry;
      TableFits();
      ghost var heads, rows := buckets[..], entries[..entry_count];
      var entry_id := FindEntry(r.name, r.kind);
      log := log + [r];
      if entry_id != NONE {
        KnownEntry(hash, heads, rows, old(log), r, entry_id);
        entries[entry_id] := entries[entry_id].(ambiguous := true, type_id := 0);
        assert entries[..entry_count] == rows[entry_id := rows[entry_id].(ambiguous := true, type_id := 0)];
        return;
      }
      NewEntry(hash, heads, rows, old(log), r);
      var bucket := BucketOf(hash, buckets.Length, r.name, r.kind);
      entries[entry_count] := Entry(r.name, r.id, buckets[bucket], r.kind, false);
      buckets[bucket] := entry_count;
      entry_count := entry_count + 1;
      assert buckets[..] == heads[bucket := |rows|];
      assert entries[..entry_count] == rows + [Entry(r.name, r.id, heads[bucket], r.kind, false)];
    }

    lemma TableFits()
      requires Valid()
      ensures buckets.Length > 0 && entry_count <= NONE
    {
    }

    /** `mch_btf_index_init`: the index of a graph's named types, unless the graph is too large. */
    method Init() returns (ok: bool)
      requires entry_count == 0
      modifies this
      ensures ok ==> Valid() && log == Indexed(g, |g|) && fresh(buckets) && fresh(entries)
      ensures ok ==> IsPowerOfTwo(buckets.Length)
      ensures |g| <= 0x4000_0001 ==> ok
    {
      var entry_capacity := if |g| > 1 then |g| - 1 else 1;
      if entry_capacity > UINT32_MAX || entry_capacity > SIZE_MAX / 2 {
        return false;
      }
      var bucket_count := NextPowerOfTwo(entry_capacity * 2);
      if bucket_count > UINT32_MAX {
        return false;
      }
      buckets := new nat[bucket_count](_ => NONE);
      entries := new Entry[entry_capacity](_ => Entry("", 0, 0, KVoid, false));
      log := [];
      NothingListed(hash, buckets[..]);
      assert entries[..0] == [];
      hide Table, IsPowerOfTwo;
      for id := 1 to |g|
        invariant fresh(buckets) && fresh(entries) && entries.Length == entry_capacity && buckets.Length == bucket_count
        invariant Valid() && log == Indexed(g, id) && entry_count <= id - 1
      {
        var name := NameOf(g[id]);
        if IsIndexedKind(KindOf(g[id])) && name != "" {
          Insert(Row(name, KindOf(g[id]), id));
        }
      }
      ok := true;
    }

    /** `mch_btf_index_lookup`: 1 and the id if just one type has the name and kind, -1 if several
        do, 0 if none does. */
    method Lookup(name: string, kind: Kind) returns (found: int, type_id: nat)
      requires Valid() && log == Indexed(g, |g|)
      ensures IsIndexedKind(kind) && name != "" ==> Verdict(Candidates(g, name, kind), found, type_id)
      ensures name == "" ==> found == 0
    {
      hide Verdict, Candidates, HasEntry, Linked, Reachable, UniqueKeys, Summary, IsIndexedKind;
      type_id := 0;
      if name == "" {
        return 0, 0;
      }
      ghost var rows := entries[..entry_count];
      var entry_id := FindEntry(name, kind);
      if IsIndexedKind(kind) {
        EntryVerdict(g, rows, name, kind, if entry_id == NONE then |rows| else entry_id);
      }
      if entry_id == NONE {
        return 0, 0;
      }
      if entries[entry_id].ambiguous {
        return -1, 0;
      }
      return 1, entries[entry_id].type_id;
    }

    /** `mch_btf_index_lookup_anonymous_enum`: the same verdict on the base enums that agree with an
        anonymous enum. */
    method LookupAnonymousEnum(wanted: Type) returns (found: int, type_id: nat)
      ensures if wanted.Enum? && wanted.tag == "" then Verdict(Twins(g, wanted), found, type_id) else found == 0
    {
      type_id, found := 0, 0;
      if !wanted.Enum? || wanted.tag != "" {
        return;
      }
      for id := 1 to |g|
        invariant found == 0 ==> forall i | 0 < i < id :: g[i] != wanted
        invariant found == 1 ==>
                    0 < type_id < id && g[type_id] == wanted && forall i | 0 < i < id :: g[i] == wanted ==> i == type_id
        invariant found in {0, 1}
      {
        var same := AnonymousEnumMatches(g[id], wanted);
        if same {
          if found == 1 {
            assert type_id in Twins(g, wanted) && id in Twins(g, wanted);
            return -1, 0;
          }
          found, type_id := 1, id;
        }
      }
    }
  }
}
