/** Declarators as characters: the bytes that the emitter counts are the length of the string in its
    buffer. */
module Spelling {
  import opened Btf
  import opened CSyntax
  import opened Numerals
  import opened Declarators
  import opened Printer

  function QualName(q: Qual): string {
    match q
    case Const => "const"
    case Volatile => "volatile"
    case Restrict => "restrict"
  }

  /** A word of a declarator. */
  function Letters(t: Token): string {
    match t
    case Star => "*"
    case LPar => "("
    case RPar => ")"
    case LBrk => "["
    case RBrk => "]"
    case Number(n) => Decimal(n)
    case QualWord(q) => QualName(q)
    case Ident(name) => name
    case _ => ""
  }

  /** A space sets a qualifier off from what comes before it, and from what follows but a closing
      parenthesis. */
  function Gap(t: Token, rest: Text): string {
    if rest != [] && ((t.QualWord? && rest[0] != RPar) || rest[0].QualWord?) then " " else ""
  }

  function Spell(ts: Text): string {
    if ts == [] then "" else Letters(ts[0]) + Gap(ts[0], ts[1..]) + Spell(ts[1..])
  }

  lemma {:induction false} SpellAppend(a: Text, b: Text)
    ensures |Spell(a + b)| == |Spell(a)| + |Spell(b)| + if a == [] then 0 else |Gap(a[|a| - 1], b)|
  {
    if a == [] {
      assert a + b == b;
    } else {
      assert (a + b)[1..] == a[1..] + b;
      SpellAppend(a[1..], b);
      if |a| == 1 {
        assert a[1..] + b == b;
      }
    }
  }

  /** The bytes are the length of the words; no qualifier starts the declarator, or ends it but
      behind a star. */
  predicate Sized(d: Declarator) {
    && d.bytes == |Spell(d.words)|
    && (d.words == [] <==> d.bytes == 0)
    && (d.words != [] ==> !d.words[0].QualWord? && d.words[0] != RPar)
    && (d.words != [] && d.words[0] != Star ==> !d.words[|d.words| - 1].QualWord?)
  }

  lemma NameSized(name: string)
    ensures Sized(Declarator(NameText(name), |name|)) && SizeOf(Declarator(NameText(name), |name|)) == NameSize(name)
  {
    if name != "" {
      assert NameText(name)[1..] == [];
      assert Spell(NameText(name)) == name + "" + "";
    }
  }

  function Pointed(d: Declarator): Declarator {
    Declarator([Star] + d.words, d.bytes + 1)
  }

  lemma PointedSized(d: Declarator)
    requires Sized(d)
    ensures Sized(Pointed(d)) && SizeOf(Pointed(d)) == Size(d.bytes + 1, true)
  {
    assert ([Star] + d.words)[1..] == d.words;
  }

  function Suffixed(d: Declarator, n: nat): Declarator {
    Declarator(Group(d.words) + [LBrk, Number(n), RBrk], IndexedSize(SizeOf(d), n).bytes)
  }

  lemma SuffixedSized(d: Declarator, n: nat)
    requires Sized(d)
    ensures Sized(Suffixed(d, n)) && SizeOf(Suffixed(d, n)) == IndexedSize(SizeOf(d), n)
  {
    SuffixLength(n);
    GroupLength(d.words);
    SpellAppend(Group(d.words), [LBrk, Number(n), RBrk]);
  }

  lemma SuffixLength(n: nat)
    ensures |Spell([LBrk, Number(n), RBrk])| == |Decimal(n)| + 2
  {
    assert [LBrk, Number(n), RBrk][1..] == [Number(n), RBrk];
    assert [Number(n), RBrk][1..] == [RBrk];
    assert Spell([RBrk]) == "]";
    assert Spell([Number(n), RBrk]) == Decimal(n) + "" + Spell([RBrk]);
  }

  lemma GroupLength(d: Text)
    requires d != [] ==> !d[0].QualWord?
    ensures |Spell(Group(d))| == |Spell(d)| + if StartsWithStar(d) then 2 else 0
  {
    if StartsWithStar(d) {
      var inner := [LPar] + d;
      assert inner[1..] == d;
      assert Spell([RPar]) == ")";
      SpellAppend(inner, [RPar]);
    }
  }

  function Starred(d: Declarator, quals: Quals): Declarator {
    Declarator([Star] + QualText(quals) + d.words, StarredSize(SizeOf(d), quals).bytes)
  }

  lemma StarredSized(d: Declarator, quals: Quals)
    requires Sized(d) && quals != {}
    ensures Sized(Starred(d, quals)) && SizeOf(Starred(d, quals)) == StarredSize(SizeOf(d), quals)
  {
    var qs := QualText(quals);
    QualLength(quals);
    assert ([Star] + qs)[1..] == qs;
    SpellAppend([Star] + qs, d.words);
    assert ([Star] + qs)[|qs|] == qs[|qs| - 1];
    AfterQual(qs[|qs| - 1], d.words);
  }

  lemma AfterQual(t: Token, d: Text)
    requires t.QualWord? && (d != [] ==> d[0] != RPar)
    ensures |Gap(t, d)| == if d == [] then 0 else 1
  {
  }

  lemma QualLength(quals: Quals)
    requires quals != {}
    ensures var qs := QualText(quals);
            qs != [] && qs[0].QualWord? && qs[|qs| - 1].QualWord? && |Spell(qs)| == QualBytes(quals)
  {
    var a, b, c := QualWordIf(quals, Const), QualWordIf(quals, Volatile), QualWordIf(quals, Restrict);
    OneQual(quals, Const);
    OneQual(quals, Volatile);
    OneQual(quals, Restrict);
    QualsAppend(a, b);
    QualsAppend(a + b, c);
    var q :| q in quals;
    assert q.Const? || q.Volatile? || q.Restrict?;
    hide Spell, QualWordIf;
  }

  /** Qualifiers after one another have a space between them. */
  lemma QualsAppend(a: Text, b: Text)
    requires forall t | t in a + b :: t.QualWord?
    ensures |Spell(a + b)| == |Spell(a)| + |Spell(b)| + if a != [] && b != [] then 1 else 0
    ensures forall t | t in a + b :: t.QualWord?
  {
    SpellAppend(a, b);
    if a != [] && b != [] {
      assert (a + b)[|a|] == b[0] && b[0] in a + b && (a + b)[|a| - 1] == a[|a| - 1] && a[|a| - 1] in a + b;
    }
  }

  lemma OneQual(quals: Quals, q: Qual)
    ensures var qs := QualWordIf(quals, q);
            && |Spell(qs)| == (if q in quals then |QualName(q)| else 0)
            && (qs == [] <==> q !in quals) && forall t | t in qs :: t.QualWord?
  {
    if q in quals {
      assert Spell([QualWord(q)]) == QualName(q) + "" + "";
    }
  }
}
