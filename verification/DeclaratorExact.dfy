/** Exactly which declarators are refused (the buffers of src/emitter.c): where a type ends in a single
    word, those whose spelling has 512 characters or more. And why no qualifier of an array is written
    that its elements repeat. */
module DeclaratorExact {
  import opened Btf
  import opened CSyntax
  import opened Meaning
  import opened Declarators
  import opened Walk
  import opened Printer
  import opened Grammar
  import opened Spelling
  import opened RoundTrip

  /** Behind its pointers, arrays, qualifiers and nameless typedefs a type is a single word: it is no
      function and no record without a name. */
  ghost predicate EndsInWord(c: Base, id: nat)
    requires Ranked(c)
    decreases Height(c, id)
  {
    0 < id < |c.g| ==>
      match c.g[id]
      case Ptr(to) => EndsInWord(c, to)
      case Array(elem, _, _) => EndsInWord(c, elem)
      case Qualified(_, to) => EndsInWord(c, to)
      case Tag(_, to) => EndsInWord(c, to)
      case Typedef(alias, to) => alias != "" || EndsInWord(c, to)
      case Record(_, tag, _) => tag != ""
      case Proto(_, _) => false
      case _ => true
  }

  lemma ChainEndsInWord(c: Base, id: nat)
    requires Ranked(c)
    ensures EndsInWord(c, id) <==> EndsInWord(c, ChainEnd(c, id))
    decreases Height(c, id)
  {
    if id < |c.g| && c.g[id].Qualified? {
      ChainEndsInWord(c, c.g[id].to);
    }
  }

  /** The text is qualifiers, one word, and a declarator: the longest of those on the way, and the one
      that decides whether they all fit. */
  ghost predicate Splits(c: Base, id: nat, d: Declarator, quals: Text, word: Token, last: Text)
    requires Ranked(c)
  {
    && DeclText(c, id, d.words) == Printed(quals + ([word] + last))
    && (forall t | t in quals :: t.QualWord?) && OneWord(word)
    && d.bytes <= |Spell(last)|
    && (Roomy(c, id, SizeOf(d)) ==> last == d.words || |Spell(last)| < 512)
    && (|Spell(last)| < 512 ==> Roomy(c, id, SizeOf(d)))
  }

  lemma Unqualified(word: Token, d: Text)
    ensures [] + ([word] + d) == [word] + d
  {
  }

  /** A step that writes a longer declarator keeps the split. */
  lemma StepSplits(c: Base, id: nat, to: nat, d: Declarator, next: Declarator, quals: Text, word: Token, last: Text)
    requires Ranked(c) && Splits(c, to, next, quals, word, last) && Sized(next) && d.bytes <= next.bytes
    requires DeclText(c, id, d.words) == DeclText(c, to, next.words)
    requires Roomy(c, id, SizeOf(d)) <==> next.bytes < 512 && Roomy(c, to, SizeOf(next))
    ensures Splits(c, id, d, quals, word, last)
  {
    hide DeclText, Roomy, Spell;
  }

  lemma Requalified(c: Base, id: nat, end: nat, d: Declarator, more: Text, quals: Text, word: Token, last: Text)
    requires Ranked(c) && Splits(c, end, d, quals, word, last)
    requires DeclText(c, id, d.words) == Then(more, DeclText(c, end, d.words)) && forall t | t in more :: t.QualWord?
    requires Roomy(c, id, SizeOf(d)) <==> Roomy(c, end, SizeOf(d))
    ensures Splits(c, id, d, more + quals, word, last)
  {
    hide DeclText, Roomy, Spell, OneWord;
    assert more + (quals + ([word] + last)) == (more + quals) + ([word] + last);
  }

  lemma QualWords(quals: Quals)
    ensures forall t | t in QualText(quals) :: t.QualWord?
  {
  }

  lemma LongerSteps(d: Declarator, n: nat, quals: Quals)
    ensures d.bytes <= Pointed(d).bytes && d.bytes <= Suffixed(d, n).bytes && d.bytes <= Starred(d, quals).bytes
  {
  }

  lemma WordSplits(c: Base, id: nat, d: Declarator, word: Token)
    requires Ranked(c) && Sized(d) && OneWord(word)
    requires DeclText(c, id, d.words) == Printed([word] + d.words) && Roomy(c, id, SizeOf(d))
    ensures Splits(c, id, d, [], word, d.words)
  {
    hide DeclText, Roomy, Spell, OneWord;
    Unqualified(word, d.words);
  }

  /** The word that a type ends in. */
  function WordFor(g: Graph, id: nat): Token {
    if id == 0 || id >= |g| then VoidWord
    else
      match g[id]
      case Scalar(_, spelling) => BaseWord(spelling)
      case Record(isUnion, _, _) => TagWord(isUnion, id)
      case Fwd(isUnion, _) => TagWord(isUnion, id)
      case Enum(wide, tag, _, _, _) =>
        if tag != "" then EnumWord(id) else BaseWord(if wide then "unsigned long long" else "int")
      case _ => AliasWord(id)
  }

  lemma WordTypes(c: Base, id: nat, d: Declarator)
    requires Ranked(c) && Sized(d) && Printable(c, id) && EndsInWord(c, id)
    requires 0 < id < |c.g| ==>
               var t := c.g[id];
               !t.Ptr? && !t.Array? && !t.Qualified? && !t.Tag? && !t.Proto? && (t.Typedef? ==> t.alias != "")
    ensures Splits(c, id, d, [], WordFor(c.g, id), d.words)
  {
    hide Spell, Sized, Splits;
    WordSplits(c, id, d, WordFor(c.g, id));
  }

  /** A declarator is written exactly if the last one, which is in the text, has less than 512 characters. */
  lemma {:induction false} FitsExactly(c: Base, id: nat, d: Declarator) returns (quals: Text, word: Token, last: Text)
    requires Ranked(c) && Sized(d) && Printable(c, id) && EndsInWord(c, id)
    ensures Splits(c, id, d, quals, word, last)
    decreases Height(c, id)
  {
    hide Spell, Sized, IndexedSize, StarredSize, Printer.Group, Splits, OneWord;
    if 0 < id < |c.g| && c.g[id].Ptr? {
      PointedSized(d);
      quals, word, last := FitsExactly(c, c.g[id].to, Pointed(d));
      StepSplits(c, id, c.g[id].to, d, Pointed(d), quals, word, last);
    } else if 0 < id < |c.g| && c.g[id].Array? {
      SuffixedSized(d, c.g[id].nelems);
      LongerSteps(d, c.g[id].nelems, {});
      quals, word, last := FitsExactly(c, c.g[id].elem, Suffixed(d, c.g[id].nelems));
      StepSplits(c, id, c.g[id].elem, d, Suffixed(d, c.g[id].nelems), quals, word, last);
    } else if 0 < id < |c.g| && c.g[id].Qualified? {
      quals, word, last := QualifiedFits(c, id, d);
    } else if 0 < id < |c.g| && (c.g[id].Tag? || (c.g[id].Typedef? && c.g[id].alias == "")) {
      quals, word, last := FitsExactly(c, c.g[id].to, d);
      SameSplits(c, id, c.g[id].to, d, quals, word, last);
    } else {
      quals, word, last := [], WordFor(c.g, id), d.words;
      WordTypes(c, id, d);
    }
  }

  lemma SameSplits(c: Base, id: nat, to: nat, d: Declarator, quals: Text, word: Token, last: Text)
    requires Ranked(c) && Splits(c, to, d, quals, word, last)
    requires DeclText(c, id, d.words) == DeclText(c, to, d.words)
    requires Roomy(c, id, SizeOf(d)) <==> Roomy(c, to, SizeOf(d))
    ensures Splits(c, id, d, quals, word, last)
  {
    hide DeclText, Roomy, Spell;
  }

  lemma {:induction false} QualifiedFits(c: Base, id: nat, d: Declarator) returns (quals: Text, word: Token, last: Text)
    requires Ranked(c) && Sized(d) && Printable(c, id) && EndsInWord(c, id) && 0 < id < |c.g| && c.g[id].Qualified?
    ensures Splits(c, id, d, quals, word, last)
    decreases Height(c, id), 0
  {
    hide Spell, Sized, StarredSize, Splits, OneWord, WrittenQuals, QualText;
    var end, w := ChainEnd(c, id), WrittenQuals(c, id);
    ChainPrintable(c, id);
    ChainEndsInWord(c, id);
    if c.g[end].Ptr? {
      var to, next := c.g[end].to, Starred(d, w);
      assert Follows(c, end, to);
      SomeQuals(c, id);
      StarredSized(d, w);
      LongerSteps(d, 0, w);
      quals, word, last := FitsExactly(c, to, next);
      StepSplits(c, id, to, d, next, quals, word, last);
    } else {
      QualWords(w);
      quals, word, last := FitsExactly(c, end, d);
      Requalified(c, id, end, d, QualText(w), quals, word, last);
      quals := QualText(w) + quals;
    }
  }

  lemma SomeQuals(c: Base, id: nat)
    requires Ranked(c) && id < |c.g| && c.g[id].Qualified? && ChainEnd(c, id) < |c.g| && c.g[ChainEnd(c, id)].Ptr?
    ensures WrittenQuals(c, id) != {}
  {
    assert c.g[id].qual in ChainQuals(c, id);
  }

  function PlaceOf(q: Qual): nat {
    match q case Const => 0 case Volatile => 1 case Restrict => 2
  }

  /** A set of qualifiers is written as const, volatile and restrict, those of them that there are, in
      this order. */
  lemma QualifiersInOrder(quals: Quals)
    ensures var ts := QualText(quals);
            && (forall t | t in ts :: t.QualWord? && t.q in quals) && (forall q | q in quals :: QualWord(q) in ts)
            && forall i, j | 0 <= i < j < |ts| :: PlaceOf(ts[i].q) < PlaceOf(ts[j].q)
  {
    EveryQual(quals);
  }

  lemma {:induction false} LeadingIsChain(c: Base, id: nat, depth: nat)
    requires Ranked(c) && depth + Height(c, id) <= 32
    ensures LeadingQuals(c.g, id, depth) == ChainQuals(c, id)
    decreases Height(c, id)
  {
    if id < |c.g| && c.g[id].Qualified? {
      LeadingIsChain(c, c.g[id].to, depth + 1);
    }
  }

  lemma QualsFirst(c: Base, id: nat, d: Text)
    requires Ranked(c) && Printable(c, id) && 0 < id < |c.g| && c.g[id].Qualified?
    requires ChainEnd(c, id) < |c.g| && !c.g[ChainEnd(c, id)].Ptr?
    ensures Printable(c, ChainEnd(c, id))
    ensures DeclText(c, id, d) ==
            Printed(QualText(WrittenQuals(c, id)) + DeclText(c, ChainEnd(c, id), d).text)
  {
    ChainPrintable(c, id);
    hide QualText, WrittenQuals, Printable;
  }

  lemma ElementsNext(c: Base, id: nat, d: Text)
    requires Ranked(c) && Printable(c, id) && 0 < id < |c.g| && c.g[id].Array?
    ensures Printable(c, c.g[id].elem)
    ensures DeclText(c, id, d) == DeclText(c, c.g[id].elem, Printer.Group(d) + [LBrk, Number(c.g[id].nelems), RBrk])
  {
  }

  lemma WrittenApart(c: Base, id: nat)
    requires Ranked(c) && ChainEnd(c, id) < |c.g| && c.g[ChainEnd(c, id)].Array?
    requires var elem := c.g[ChainEnd(c, id)].elem;
             && Height(c, elem) <= 32 && (ChainEnd(c, elem) < |c.g| ==> !c.g[ChainEnd(c, elem)].Array?)
    ensures var elem := c.g[ChainEnd(c, id)].elem;
            && WrittenQuals(c, id) * WrittenQuals(c, elem) == {} && WrittenQuals(c, elem) == ChainQuals(c, elem)
            && WrittenQuals(c, id) + WrittenQuals(c, elem) == ChainQuals(c, id) + ChainQuals(c, elem)
  {
    LeadingIsChain(c, c.g[ChainEnd(c, id)].elem, 0);
    hide LeadingQuals, ChainQuals, ChainEnd;
  }

  /** The declaration of a qualified array of qualified elements starts with the qualifiers of both, each
      of them once. */
  lemma QualifiersOnce(c: Base, id: nat, d: Text) returns (first: Quals, second: Quals, rest: Text)
    requires Ranked(c) && Printable(c, id) && 0 < id < |c.g| && c.g[id].Qualified?
    requires ChainEnd(c, id) < |c.g| && c.g[ChainEnd(c, id)].Array?
    requires var elem := c.g[ChainEnd(c, id)].elem;
             && 0 < elem < |c.g| && c.g[elem].Qualified? && Height(c, elem) <= 32
             && ChainEnd(c, elem) < |c.g| && !c.g[ChainEnd(c, elem)].Ptr? && !c.g[ChainEnd(c, elem)].Array?
    ensures DeclText(c, id, d) == Printed(QualText(first) + (QualText(second) + rest))
    ensures first * second == {} && second == ChainQuals(c, c.g[ChainEnd(c, id)].elem)
    ensures first + second == ChainQuals(c, id) + ChainQuals(c, c.g[ChainEnd(c, id)].elem)
  {
    hide DeclText, QualText, WrittenQuals, Printable, ChainQuals, Printer.Group;
    var end := ChainEnd(c, id);
    var elem := c.g[end].elem;
    WrittenApart(c, id);
    first, second := WrittenQuals(c, id), WrittenQuals(c, elem);
    QualsFirst(c, id, d);
    var inner := Printer.Group(d) + [LBrk, Number(c.g[end].nelems), RBrk];
    ElementsNext(c, end, d);
    QualsFirst(c, elem, inner);
    rest := DeclText(c, ChainEnd(c, elem), inner).text;
  }
}
