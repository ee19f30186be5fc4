/** Bitsets: 64-bit words, and the set of type ids kept in them (src/type_set.c). */
module Bitset {
  import opened Bits

  const BITS: nat := 64
  const WORD_SIZE: nat := 0x1_0000_0000_0000_0000

  /** A 64-bit word. */
  type Word = w: nat | w < WORD_SIZE

  lemma WordSize()
    ensures Pow2(BITS) == WORD_SIZE
  {
    assert Pow2(8) == 0x100;
    PowTimes(8, 8);
    PowTimes(16, 16);
    PowTimes(32, 32);
  }

  lemma {:induction false} PowTimes(j: nat, k: nat)
    ensures Pow2(j) * Pow2(k) == Pow2(j + k)
  {
    if j > 0 {
      PowTimes(j - 1, k);
      Doubled(Pow2(j - 1), Pow2(k));
    }
  }

  lemma Doubled(a: nat, b: nat)
    ensures (2 * a) * b == 2 * (a * b)
  {
  }

  /** One shifted left by `i`. */
  function Mask(i: nat): (m: Word)
    requires i < BITS
  {
    WordSize();
    PowGrows(i, BITS - 1);
    Pow2(i)
  }

  /** All ones shifted left by `k`, as far as they fit the word. */
  function OnesFrom(k: nat): (m: Word)
    requires k < BITS
  {
    WordSize();
    PowGrows(k, BITS);
    WORD_SIZE - Pow2(k)
  }

  function WordOr(a: Word, b: Word): (w: Word) {
    WordSize();
    OrFits(a, b, BITS);
    Or(a, b)
  }

  lemma OnesFromBit(k: nat, i: nat)
    requires k < BITS
    ensures Bit(OnesFrom(k), i) == (k <= i < BITS)
  {
    WordSize();
    OnesBit(k, BITS, i);
  }

  lemma WordBit(w: Word, i: nat)
    ensures Bit(w, i) ==> i < BITS
  {
    WordSize();
    if i >= BITS {
      HighBit(w, BITS, i);
    }
  }

  lemma MaskTest(w: Word, b: nat)
    requires b < BITS
    ensures (And(w, Mask(b)) != 0) == Bit(w, b)
  {
    AndBit(w, Mask(b), b);
    PowBit(b, b);
    if And(w, Mask(b)) != 0 {
      var i := SomeBit(And(w, Mask(b)));
      AndBit(w, Mask(b), i);
      PowBit(b, i);
    }
    ZeroBit(b);
  }

  function WordCount(count: nat): nat {
    if count == 0 then 1 else (count + BITS - 1) / BITS
  }

  /** The numbers whose bit is set in a row of words. */
  function Members(words: seq<Word>): set<nat> {
    set i: nat | i < |words| * BITS && Bit(words[i / BITS], i % BITS)
  }

  lemma MemberBit(words: seq<Word>, id: nat)
    ensures id in Members(words) <==> id / BITS < |words| && Bit(words[id / BITS], id % BITS)
  {
    assert id == BITS * (id / BITS) + id % BITS;
  }

  lemma MembersOfSet(words: seq<Word>, id: nat)
    requires id / BITS < |words|
    ensures Members(words[id / BITS := WordOr(words[id / BITS], Mask(id % BITS))]) == Members(words) + {id}
  {
    var w := id / BITS;
    var after := words[w := WordOr(words[w], Mask(id % BITS))];
    forall i: nat
      ensures i in Members(after) <==> i in Members(words) + {id}
    {
      assert i == BITS * (i / BITS) + i % BITS;
      assert id == BITS * (id / BITS) + id % BITS;
      OrBit(words[w], Mask(id % BITS), i % BITS);
      PowBit(id % BITS, i % BITS);
    }
  }

  /** A row of zero words has no members. */
  lemma NoMembers(n: nat)
    ensures Members(seq(n, i => 0 as Word)) == {}
  {
    var words := seq(n, i => 0 as Word);
    if Members(words) != {} {
      var i :| i in Members(words);
      ZeroBit(i % BITS);
    }
  }

  /** The members of `s` from `lo` up to `hi`, ascending. */
  ghost function Listing(s: set<nat>, lo: nat, hi: nat): (ids: seq<nat>)
    ensures forall i :: i in ids <==> i in s && lo <= i < hi
    decreases hi - lo
  {
    if lo >= hi then []
    else if lo in s then [lo] + Listing(s, lo + 1, hi)
    else Listing(s, lo + 1, hi)
  }

  ghost predicate Ascending(ids: seq<nat>) {
    forall j, k | 0 <= j < k < |ids| :: ids[j] < ids[k]
  }

  lemma {:induction false} ListingAscends(s: set<nat>, lo: nat, hi: nat)
    ensures Ascending(Listing(s, lo, hi))
    decreases hi - lo
  {
    if lo < hi {
      var later := Listing(s, lo + 1, hi);
      ListingAscends(s, lo + 1, hi);
      assert forall k | 0 <= k < |later| :: later[k] in later;
      assert Ascending([lo] + later);
    }
  }

  lemma ListingDone(s: set<nat>, lo: nat, hi: nat)
    requires forall i | i in s :: i < lo
    ensures Listing(s, lo, hi) == []
  {
    if Listing(s, lo, hi) != [] {
      assert Listing(s, lo, hi)[0] in Listing(s, lo, hi);
    }
  }

  lemma ListingNext(s: set<nat>, lo: nat, hi: nat, id: nat)
    requires id in s && lo <= id < hi
    requires forall i | i in s && lo <= i :: id <= i
    ensures Listing(s, lo, hi) == [id] + Listing(s, id + 1, hi)
    decreases id - lo
  {
    if lo < id {
      ListingNext(s, lo + 1, hi, id);
    }
  }

  /** One step of a cursor through a set: the first member from the cursor on, or the end. */
  ghost predicate Stepped(s: set<nat>, cursor: nat, found: bool, id: nat, next: nat) {
    if found then id in s && cursor <= id && next == id + 1 && forall i | i in s && cursor <= i :: id <= i
    else forall i | i in s :: i < cursor
  }

  /** Repeated steps list the members from the cursor on. */
  lemma ListingStep(s: set<nat>, lo: nat, hi: nat, found: bool, id: nat, next: nat)
    requires Stepped(s, lo, found, id, next) && forall i | i in s :: i < hi
    ensures Listing(s, lo, hi) == if found then [id] + Listing(s, next, hi) else []
  {
    if found {
      ListingNext(s, lo, hi, id);
    } else {
      ListingDone(s, lo, hi);
    }
  }

  /** The members of `s` from `lo` up to `hi`. */
  ghost function Between(s: set<nat>, lo: nat, hi: nat): set<nat> {
    set i | i in s && lo <= i < hi
  }

  lemma BetweenNext(s: set<nat>, lo: nat, hi: nat)
    requires lo < hi
    ensures Between(s, lo, hi) == (if lo in s then {lo} else {}) + Between(s, lo + 1, hi)
  {
  }

  lemma {:induction false} ListingSize(s: set<nat>, lo: nat, hi: nat)
    ensures |Listing(s, lo, hi)| == |Between(s, lo, hi)|
    decreases hi - lo
  {
    if lo < hi {
      BetweenNext(s, lo, hi);
      ListingSize(s, lo + 1, hi);
      assert lo !in Between(s, lo + 1, hi);
    }
  }

  lemma SubsetSize(a: set<nat>, b: set<nat>)
    requires a <= b
    ensures |a| <= |b|
  {
    assert b == a + (b - a);
  }

  lemma ListingFits(s: set<nat>, lo: nat, hi: nat)
    ensures |Listing(s, lo, hi)| <= |s|
  {
    ListingSize(s, lo, hi);
    SubsetSize(Between(s, lo, hi), s);
  }

  /** No member from the cursor on lies in a word before `index`. */
  ghost predicate NoneBefore(words: seq<Word>, cursor: nat, index: nat) {
    forall i | i in Members(words) && cursor <= i :: index <= i / BITS
  }

  lemma NoneInWord(words: seq<Word>, cursor: nat, index: nat, word: Word)
    requires index < |words| && NoneBefore(words, cursor, index) && word == 0
    requires forall b: nat :: Bit(word, b) <==> Bit(words[index], b) && cursor <= index * BITS + b
    ensures NoneBefore(words, cursor, index + 1)
  {
    forall i | i in Members(words) && cursor <= i
      ensures index + 1 <= i / BITS
    {
      assert i == (i / BITS) * BITS + i % BITS;
      ZeroBit(i % BITS);
    }
  }

  lemma FirstInWord(words: seq<Word>, cursor: nat, index: nat, bit: nat)
    requires index < |words| && NoneBefore(words, cursor, index)
    requires Bit(words[index], bit) && cursor <= index * BITS + bit
    requires forall b: nat | Bit(words[index], b) && cursor <= index * BITS + b :: bit <= b
    ensures index * BITS + bit in Members(words)
    ensures forall i | i in Members(words) && cursor <= i :: index * BITS + bit <= i
  {
    WordBit(words[index], bit);
    assert (index * BITS + bit) / BITS == index && (index * BITS + bit) % BITS == bit;
    forall i | i in Members(words) && cursor <= i
      ensures index * BITS + bit <= i
    {
      assert i == (i / BITS) * BITS + i % BITS;
    }
  }

  /** The part of the word at the cursor that is still to come. */
  lemma RestOfWord(word: Word, cursor: nat, b: nat)
    ensures Bit(And(word, OnesFrom(cursor % BITS)), b) <==> Bit(word, b) && cursor % BITS <= b
  {
    AndBit(word, OnesFrom(cursor % BITS), b);
    OnesFromBit(cursor % BITS, b);
    WordBit(word, b);
  }

  /** `bit_index`: the number of zero bits below the lowest one bit. */
  method TrailingZeros(w: Word) returns (bit: nat)
    requires w != 0
    ensures Bit(w, bit) && forall i: nat | Bit(w, i) :: bit <= i
  {
    bit := 0;
    var word := w;
    ShiftedBits(w, word, 0);
    while word % 2 == 0
      invariant word != 0 && Shifted(w, word, bit)
      invariant forall i: nat | i < bit :: !Bit(w, i)
      decreases word
    {
      ShiftedNext(w, word, bit);
      word := word / 2;
      bit := bit + 1;
    }
    ShiftedNext(w, word, bit);
  }

  /** `word` is `w` shifted right by `k`. */
  ghost predicate Shifted(w: nat, word: nat, k: nat) {
    forall i: nat :: Bit(word, i) == Bit(w, k + i)
  }

  lemma ShiftedBits(w: nat, word: nat, k: nat)
    requires w == word && k == 0
    ensures Shifted(w, word, k)
  {
  }

  lemma ShiftedNext(w: nat, word: nat, k: nat)
    requires Shifted(w, word, k)
    ensures Shifted(w, word / 2, k + 1) && Bit(w, k) == (word % 2 == 1)
  {
    assert Bit(word, 0) == Bit(w, k + 0);
    forall i: nat
      ensures Bit(word / 2, i) == Bit(w, k + 1 + i)
    {
      assert Bit(word, i + 1) == Bit(w, k + (i + 1));
    }
  }
}

module TypeSets {
  import opened Bits
  import opened Bitset

  class TypeSet {
    var words: array<Word>
    var count: nat
    var selected: nat

    ghost predicate Valid()
      reads this, words
    {
      && words.Length == WordCount(count)
      && (forall i | i in Members(words[..]) :: i < count)
      && selected == |Members(words[..])|
    }

    /** The ids in the set. */
    ghost function Ids(): set<nat>
      reads this, words
    {
      Members(words[..])
    }

    constructor (count: nat)
      ensures Valid() && fresh(words)
      ensures Ids() == {} && this.count == count
    {
      words := new Word[WordCount(count)](_ => 0);
      this.count := count;
      selected := 0;
      new;
      NoMembers(WordCount(count));
      assert words[..] == seq(WordCount(count), i => 0 as Word);
    }

    method Contains(id: nat) returns (found: bool)
      requires Valid()
      ensures found == (id in Ids())
    {
      if id >= count {
        return false;
      }
      found := And(words[id / BITS], Mask(id % BITS)) != 0;
      MaskTest(words[id / BITS], id % BITS);
    }

    /** Adds `id`; tells whether it was new. An id past the end is refused. */
    method Add(id: nat) returns (added: bool)
      requires Valid()
      modifies this`selected, words
      ensures Valid()
      ensures added == (id < count && id !in old(Ids()))
      ensures Ids() == if id < count then old(Ids()) + {id} else old(Ids())
    {
      if id >= count {
        return false;
      }
      hide Members, WordOr, Mask, And, Bit;
      var word := id / BITS;
      var mask := Mask(id % BITS);
      ghost var before := words[..];
      MemberBit(before, id);
      MaskTest(words[word], id % BITS);
      if And(words[word], mask) != 0 {
        assert Ids() == Ids() + {id};
        return false;
      }
      words[word] := WordOr(words[word], mask);
      selected := selected + 1;
      assert words[..] == before[word := WordOr(before[word], mask)];
      MembersOfSet(before, id);
      return true;
    }

    /** The first member at or after the cursor, which moves past it. */
    method Next(cursor: nat) returns (found: bool, id: nat, next: nat)
      requires Valid()
      ensures Stepped(Ids(), cursor, found, id, next)
    {
      id, next := 0, cursor;
      if cursor >= count {
        return false, id, next;
      }
      var index := cursor / BITS;
      var word: Word := And(words[index], OnesFrom(cursor % BITS));
      forall b: nat {
        RestOfWord(words[index], cursor, b);
      }
      while index < words.Length
        invariant cursor / BITS <= index < words.Length
        invariant NoneBefore(words[..], cursor, index)
        invariant forall b: nat :: Bit(word, b) <==> Bit(words[index], b) && cursor <= index * BITS + b
        decreases words.Length - index
      {
        if word != 0 {
          var bit := TrailingZeros(word);
          id := index * BITS + bit;
          FirstInWord(words[..], cursor, index, bit);
          if id >= count {
            return false, id, next;
          }
          return true, id, id + 1;
        }
        NoneInWord(words[..], cursor, index, word);
        index := index + 1;
        if index >= words.Length {
          break;
        }
        word := words[index];
      }
      next := count;
      return false, id, next;
    }
  }
}
