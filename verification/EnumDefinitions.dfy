/** Enum definitions (`emit_enum_definition`, src/emitter.c): their text, what it reads as, and when
    that is what the type graph has. */
module EnumDefinitions {
  import opened Btf
  import opened Printer
  import opened Grammar
  import opened Reading

  const INT_SIZE: nat := 0x1_0000_0000
  const LONG_SIZE: nat := 0x1_0000_0000_0000_0000

  /** The low bits of a number in two's complement, `size` being two to their number. */
  function Signed(bits: nat, size: nat): int
    requires size > 0
  {
    if bits % size < size / 2 then bits % size else bits % size - size
  }

  /** Every number of 32 or 64 bits with a sign is read from its bits. */
  lemma SignedReads(v: int, size: nat)
    requires size in {0x1_0000_0000, 0x1_0000_0000_0000_0000} && 0 <= size + 2 * v < 2 * size
    ensures Signed(if v < 0 then v + size else v, size) == v
  {
  }

  /** The value of an enumerator: its bits, with a sign if the enum has one. */
  function ValueOf(t: Type, bits: nat): int
    requires t.Enum?
  {
    var size := if t.wide then LONG_SIZE else INT_SIZE;
    if t.signed then Signed(bits, size) else bits % size
  }

  /** What is printed for it: a narrow enum's always with a sign. */
  function PrintedValue(t: Type, bits: nat): int
    requires t.Enum?
  {
    if !t.wide then Signed(bits, INT_SIZE)
    else if t.signed then Signed(bits, LONG_SIZE)
    else bits % LONG_SIZE
  }

  function EnumHead(t: Type, id: nat): Text
    requires t.Enum?
  {
    [if t.tag != "" then EnumWord(id) else EnumKeyword, LBrace]
  }

  function EnumeratorText(t: Type, i: nat): Text
    requires t.Enum? && i < |t.values|
  {
    NameText(t.values[i].name)
    + [Assign, Constant(PrintedValue(t, t.values[i].bits), t.wide && !t.signed)]
    + (if i + 1 == |t.values| then [] else [Comma])
  }

  function EnumeratorsText(t: Type, from: nat): Text
    requires t.Enum? && from <= |t.values|
    decreases |t.values| - from
  {
    if from == |t.values| then [] else EnumeratorText(t, from) + EnumeratorsText(t, from + 1)
  }

  function EnumText(t: Type, id: nat): Text
    requires t.Enum?
  {
    EnumHead(t, id) + (EnumeratorsText(t, 0) + [RBrace, Semi])
  }

  /** The names and values from the `from`th on. */
  function NamesAndValues(t: Type, from: nat): seq<(string, int)>
    requires t.Enum? && from <= |t.values|
    decreases |t.values| - from
  {
    if from == |t.values| then []
    else [(t.values[from].name, ValueOf(t, t.values[from].bits))] + NamesAndValues(t, from + 1)
  }

  /** Whether a decimal constant has a type: with its suffix one of 64 bits without a sign, else one of at
      most 64 bits with a sign, before any minus is applied (section 6.4.4.1 of ISO/IEC 9899:2018). */
  predicate HasType(value: int, ull: bool) {
    if ull then 0 <= value < 0x1_0000_0000_0000_0000 else -0x8000_0000_0000_0000 < value < 0x8000_0000_0000_0000
  }

  /** enumerator-list: at least one, each with its value, with or without a comma at the end */
  function ReadEnumerators(ts: Text): (r: Read<seq<(string, int)>>)
    ensures r.Got? ==> |r.rest| < |ts|
  {
    if |ts| < 3 || !ts[0].Ident? || ts[1] != Assign then Fail
    else if !ts[2].Constant? || !HasType(ts[2].value, ts[2].ull) then Fail
    else
      var e, rest := (ts[0].name, ts[2].value), ts[3..];
      if !Next(rest, Comma) then Got([e], rest)
      else if Next(rest[1..], RBrace) then Got([e], rest[1..])
      else
        var more := ReadEnumerators(rest[1..]);
        if more.Fail? then Fail else Got([e] + more.value, more.rest)
  }

  /** enum-specifier with a list, and the semicolon: the tag's id, or 0 for no tag, and the enumerators */
  function ReadEnum(ts: Text): (r: Read<(nat, seq<(string, int)>)>)
    ensures r.Got? ==> |r.rest| < |ts|
  {
    if |ts| < 2 || !(ts[0].EnumWord? || ts[0].EnumKeyword?) || ts[1] != LBrace then Fail
    else
      var list := ReadEnumerators(ts[2..]);
      if list.Fail? || |list.rest| < 2 || list.rest[0] != RBrace || list.rest[1] != Semi then Fail
      else Got((if ts[0].EnumWord? then ts[0].id else 0, list.value), list.rest[2..])
  }

  /** An enumerator whose text says what it is: it has a name, the value is printed with the right
      sign, and it is not the least of 64 bits, which has no suffix that gives it a type. */
  predicate Sayable(t: Type, e: Enumerator)
    requires t.Enum?
  {
    && e.name != "" && (t.wide || t.signed || e.bits % INT_SIZE < INT_SIZE / 2)
    && !(t.wide && t.signed && e.bits % LONG_SIZE == LONG_SIZE / 2)
  }

  lemma PrintedRight(t: Type, bits: nat)
    requires t.Enum?
    ensures PrintedValue(t, bits) == ValueOf(t, bits) <==> t.wide || t.signed || bits % INT_SIZE < INT_SIZE / 2
  {
  }

  lemma PrintedTyped(t: Type, bits: nat)
    requires t.Enum?
    ensures HasType(PrintedValue(t, bits), t.wide && !t.signed) <==>
              !(t.wide && t.signed && bits % LONG_SIZE == LONG_SIZE / 2)
  {
  }

  lemma OneEnumerator(t: Type, i: nat, rest: Text)
    requires t.Enum? && i < |t.values| && t.values[i].name != ""
    ensures var ts := EnumeratorText(t, i) + rest;
            && |ts| > 2 && ts[0] == Ident(t.values[i].name) && ts[1] == Assign
            && ts[2] == Constant(PrintedValue(t, t.values[i].bits), t.wide && !t.signed)
            && ts[3..] == (if i + 1 == |t.values| then [] else [Comma]) + rest
  {
    hide PrintedValue;
  }

  lemma {:induction false} EnumeratorsStart(t: Type, i: nat, rest: Text)
    requires t.Enum? && i < |t.values|
    ensures EnumeratorsText(t, i) + rest == EnumeratorText(t, i) + (EnumeratorsText(t, i + 1) + rest)
  {
    hide EnumeratorText;
  }

  /** The reader's step, once the name and value are read. */
  lemma ReadOne(ts: Text, name: string, v: int, ull: bool, after: Text)
    requires |ts| > 2 && ts[0] == Ident(name) && ts[1] == Assign && ts[2] == Constant(v, ull) && ts[3..] == after
    requires HasType(v, ull)
    ensures Next(after, RBrace) ==> ReadEnumerators(ts) == Got([(name, v)], after)
    ensures Next(after, Comma) && !Next(after[1..], RBrace) ==>
              ReadEnumerators(ts) ==
              match ReadEnumerators(after[1..])
              case Fail => Fail
              case Got(more, rest) => Got([(name, v)] + more, rest)
  {
  }

  lemma NamelessFails(t: Type, i: nat, rest: Text)
    requires t.Enum? && i < |t.values| && t.values[i].name == ""
    ensures ReadEnumerators(EnumeratorsText(t, i) + rest).Fail?
  {
    EnumeratorsStart(t, i, rest);
    assert (EnumeratorText(t, i) + (EnumeratorsText(t, i + 1) + rest))[0] == Assign;
  }

  lemma UntypedFails(t: Type, i: nat, rest: Text)
    requires t.Enum? && i < |t.values| && t.values[i].name != ""
    requires !HasType(PrintedValue(t, t.values[i].bits), t.wide && !t.signed)
    ensures ReadEnumerators(EnumeratorsText(t, i) + rest).Fail?
  {
    hide PrintedValue, HasType;
    EnumeratorsStart(t, i, rest);
    OneEnumerator(t, i, EnumeratorsText(t, i + 1) + rest);
  }

  lemma LastReads(t: Type, i: nat, rest: Text)
    requires t.Enum? && i + 1 == |t.values| && t.values[i].name != "" && Next(rest, RBrace)
    requires HasType(PrintedValue(t, t.values[i].bits), t.wide && !t.signed)
    ensures ReadEnumerators(EnumeratorsText(t, i) + rest) ==
            Got([(t.values[i].name, PrintedValue(t, t.values[i].bits))], rest)
  {
    hide PrintedValue, EnumeratorText, ReadEnumerators, HasType;
    EnumeratorsStart(t, i, rest);
    assert EnumeratorsText(t, i + 1) + rest == rest && [] + rest == rest;
    OneEnumerator(t, i, rest);
    var v, ull := PrintedValue(t, t.values[i].bits), t.wide && !t.signed;
    ReadOne(EnumeratorText(t, i) + rest, t.values[i].name, v, ull, rest);
  }

  lemma MoreRead(t: Type, i: nat, rest: Text)
    requires t.Enum? && i + 1 < |t.values| && t.values[i].name != ""
    requires HasType(PrintedValue(t, t.values[i].bits), t.wide && !t.signed)
    ensures ReadEnumerators(EnumeratorsText(t, i) + rest) ==
            match ReadEnumerators(EnumeratorsText(t, i + 1) + rest)
            case Fail => Fail
            case Got(more, after) => Got([(t.values[i].name, PrintedValue(t, t.values[i].bits))] + more, after)
  {
    hide PrintedValue, EnumeratorText, ReadEnumerators, EnumeratorsText, HasType;
    var tail := EnumeratorsText(t, i + 1) + rest;
    EnumeratorsStart(t, i, rest);
    OneEnumerator(t, i, tail);
    assert ([Comma] + tail)[1..] == tail;
    NotClosed(t, i + 1, rest);
    var v, ull := PrintedValue(t, t.values[i].bits), t.wide && !t.signed;
    ReadOne(EnumeratorText(t, i) + tail, t.values[i].name, v, ull, [Comma] + tail);
  }

  /** A list of enumerators reads as the list it was printed for if and only if there is at least
      one, and all can be said. If it is read otherwise, it is so to its end. */
  lemma {:induction false} EnumeratorsExact(t: Type, i: nat, rest: Text)
    requires t.Enum? && i <= |t.values| && Next(rest, RBrace)
    ensures var r := ReadEnumerators(EnumeratorsText(t, i) + rest); r.Got? ==> r.rest == rest
    ensures ReadEnumerators(EnumeratorsText(t, i) + rest) == Got(NamesAndValues(t, i), rest) <==>
              i < |t.values| && forall k | i <= k < |t.values| :: Sayable(t, t.values[k])
    decreases |t.values| - i
  {
    hide PrintedValue, ValueOf, ReadEnumerators, EnumeratorsText, NamesAndValues, HasType;
    if i == |t.values| {
      NoneFails(t, rest);
    } else {
      PrintedRight(t, t.values[i].bits);
      PrintedTyped(t, t.values[i].bits);
      FirstOf(t, i);
      if t.values[i].name == "" {
        NamelessFails(t, i, rest);
      } else if !HasType(PrintedValue(t, t.values[i].bits), t.wide && !t.signed) {
        UntypedFails(t, i, rest);
      } else if i + 1 == |t.values| {
        LastReads(t, i, rest);
        LastOf(t, i);
      } else {
        MoreRead(t, i, rest);
        EnumeratorsExact(t, i + 1, rest);
      }
    }
  }

  lemma NoneFails(t: Type, rest: Text)
    requires t.Enum? && Next(rest, RBrace)
    ensures ReadEnumerators(EnumeratorsText(t, |t.values|) + rest).Fail?
  {
    assert [] + rest == rest;
  }

  lemma LastOf(t: Type, i: nat)
    requires t.Enum? && i + 1 == |t.values|
    ensures NamesAndValues(t, i + 1) == []
    ensures forall v: int :: [(t.values[i].name, v)] == NamesAndValues(t, i) <==> v == ValueOf(t, t.values[i].bits)
  {
    hide ValueOf;
    forall v: int
      ensures [(t.values[i].name, v)] == NamesAndValues(t, i) <==> v == ValueOf(t, t.values[i].bits)
    {
      assert NamesAndValues(t, i) == [(t.values[i].name, ValueOf(t, t.values[i].bits))];
      assert [(t.values[i].name, v)][0].1 == v;
    }
  }

  lemma NotClosed(t: Type, i: nat, rest: Text)
    requires t.Enum? && i < |t.values|
    ensures !Next(EnumeratorsText(t, i) + rest, RBrace)
  {
    EnumeratorsStart(t, i, rest);
  }

  lemma FirstOf(t: Type, i: nat)
    requires t.Enum? && i < |t.values|
    ensures forall v: int, more: seq<(string, int)> ::
              [(t.values[i].name, v)] + more == NamesAndValues(t, i) <==>
                v == ValueOf(t, t.values[i].bits) && more == NamesAndValues(t, i + 1)
  {
    hide ValueOf;
    forall v: int, more: seq<(string, int)>
      ensures [(t.values[i].name, v)] + more == NamesAndValues(t, i) <==>
                v == ValueOf(t, t.values[i].bits) && more == NamesAndValues(t, i + 1)
    {
      var whole := [(t.values[i].name, v)] + more;
      assert whole[1..] == more && whole[0].1 == v;
      assert NamesAndValues(t, i)[1..] == NamesAndValues(t, i + 1);
    }
  }

  /** The text of an enum definition reads as its tag, names and values if and only if it has an
      enumerator and all of them can be said. If it is read otherwise, it is so to its end. */
  lemma EnumExact(t: Type, id: nat, rest: Text)
    requires t.Enum?
    ensures var r := ReadEnum(EnumText(t, id) + rest); r.Got? ==> r.rest == rest
    ensures ReadEnum(EnumText(t, id) + rest) == Got((if t.tag != "" then id else 0, NamesAndValues(t, 0)), rest) <==>
              t.values != [] && forall e | e in t.values :: Sayable(t, e)
  {
    hide EnumeratorsText, ReadEnumerators, NamesAndValues, Sayable;
    var list, close := EnumeratorsText(t, 0), [RBrace, Semi];
    var ts := EnumText(t, id) + rest;
    Assoc(EnumHead(t, id), list + close, rest);
    Assoc(list, close, rest);
    assert ts[2..] == list + (close + rest);
    assert (close + rest)[2..] == rest;
    EnumeratorsExact(t, 0, close + rest);
    CloseOnly(ReadEnumerators(ts[2..]), list, rest);
  }

  /** If the list is read up to the brace, what follows the definition is what was left. */
  lemma CloseOnly(list: Read<seq<(string, int)>>, text: Text, rest: Text)
    ensures list.Got? && |list.rest| >= 2 && list.rest[0] == RBrace && list.rest[1] == Semi &&
            list.rest[2..] == rest ==>
              list.rest == [RBrace, Semi] + rest
  {
    if list.Got? && |list.rest| >= 2 {
      assert list.rest == list.rest[..2] + list.rest[2..];
    }
  }

  /** All bits set, in an enum of 32 bits without a sign, is printed as minus one. */
  lemma PrintedNegative(t: Type)
    requires t.Enum? && !t.wide && !t.signed
    ensures PrintedValue(t, 0xFFFF_FFFF) == -1 && ValueOf(t, 0xFFFF_FFFF) == 0xFFFF_FFFF
  {
  }

  /** The least value of 64 bits is printed right, but as a constant that has no type. */
  lemma LeastHasNoType(t: Type)
    requires t.Enum? && t.wide && t.signed
    ensures PrintedValue(t, 0x8000_0000_0000_0000) == ValueOf(t, 0x8000_0000_0000_0000) == -0x8000_0000_0000_0000
    ensures !HasType(PrintedValue(t, 0x8000_0000_0000_0000), t.wide && !t.signed)
  {
  }
}
