/** Access strings: member indexes in decimal, separated by colons (`parse_access_component` of
    src/seeds.c). */
module AccessString {
  import opened Numerals

  const UINT32_MAX: nat := 0xFFFF_FFFF
  const UINT64_SIZE: nat := 0x1_0000_0000_0000_0000

  /** The length of the run of digits a string starts with. */
  function DigitRun(s: string): (n: nat)
    ensures n <= |s| && (forall i | 0 <= i < n :: IsDigit(s[i])) && (n < |s| ==> !IsDigit(s[n]))
  {
    if s != "" && IsDigit(s[0]) then DigitRun(s[1..]) + 1 else 0
  }

  datatype Component = NoComponent | Component(value: nat, rest: string)

  /** The number a string starts with, and what follows it and its colon. */
  function FirstComponent(s: string): (c: Component)
    ensures c.Component? ==> |c.rest| < |s| && c.value <= UINT32_MAX
  {
    var n := DigitRun(s);
    if n == 0 || ValueFrom(0, s[..n]) > UINT32_MAX then NoComponent
    else if n == |s| then Component(ValueFrom(0, s[..n]), "")
    else if s[n] == ':' then Component(ValueFrom(0, s[..n]), s[n + 1..])
    else NoComponent
  }

  datatype Parsed = Malformed | Parsed(values: seq<nat>)

  /** The numbers of a whole access string. */
  function Components(s: string): Parsed
    decreases |s|
  {
    if s == "" then Parsed([])
    else
      var c := FirstComponent(s);
      if c.NoComponent? then Malformed
      else
        var later := Components(c.rest);
        if later.Malformed? then Malformed else Parsed([c.value] + later.values)
  }

  lemma {:induction false} ValueSplit(before: nat, s: string, t: string)
    requires forall i | 0 <= i < |s| :: IsDigit(s[i])
    requires forall i | 0 <= i < |t| :: IsDigit(t[i])
    ensures forall i | 0 <= i < |s + t| :: IsDigit((s + t)[i])
    ensures ValueFrom(before, s + t) == ValueFrom(ValueFrom(before, s), t)
    decreases |s|
  {
    if s == "" {
      assert s + t == t;
    } else {
      assert (s + t)[1..] == s[1..] + t;
      ValueSplit(before * 10 + DigitValue(s[0]), s[1..], t);
    }
  }

  lemma OnlyGrows(s: string, k: nat, n: nat)
    requires k <= n <= |s| && forall i | 0 <= i < n :: IsDigit(s[i])
    ensures ValueFrom(0, s[..k]) <= ValueFrom(0, s[..n])
  {
    assert s[..n] == s[..k] + s[k..n];
    ValueSplit(0, s[..k], s[k..n]);
  }

  /** The digits from the cursor up to `pos`, and their value so far. */
  ghost predicate Reading(access: string, cursor: nat, pos: nat, parsed: nat) {
    && cursor <= pos <= |access|
    && (forall i | cursor <= i < pos :: IsDigit(access[i]))
    && parsed == ValueFrom(0, access[cursor..pos])
  }

  lemma ReadsOn(access: string, cursor: nat, pos: nat, parsed: nat)
    requires Reading(access, cursor, pos, parsed) && pos < |access| && IsDigit(access[pos])
    ensures Reading(access, cursor, pos + 1, parsed * 10 + DigitValue(access[pos]))
  {
    assert access[cursor..pos + 1] == access[cursor..pos] + [access[pos]];
    ValueMore(0, access[cursor..pos], access[pos]);
  }

  lemma ReadsNothing(access: string, cursor: nat)
    requires cursor <= |access|
    ensures Reading(access, cursor, cursor, 0)
    ensures cursor == |access| || !IsDigit(access[cursor]) ==> FirstComponent(access[cursor..]) == NoComponent
  {
    assert access[cursor..cursor] == "";
  }

  /** A number that is too large stays so, whatever digits follow. */
  lemma ReadsTooMuch(access: string, cursor: nat, pos: nat, parsed: nat)
    requires Reading(access, cursor, pos, parsed) && parsed > UINT32_MAX
    ensures FirstComponent(access[cursor..]) == NoComponent
  {
    var s := access[cursor..];
    RunCovers(s, pos - cursor);
    assert s[..pos - cursor] == access[cursor..pos];
    OnlyGrows(s, pos - cursor, DigitRun(s));
  }

  lemma RunCovers(s: string, k: nat)
    requires k <= |s| && forall i | 0 <= i < k :: IsDigit(s[i])
    ensures k <= DigitRun(s)
  {
  }

  /** What the digits are, once they end. */
  lemma ReadsAll(access: string, cursor: nat, pos: nat, parsed: nat)
    requires Reading(access, cursor, pos, parsed) && cursor < pos && parsed <= UINT32_MAX
    requires pos < |access| ==> !IsDigit(access[pos])
    ensures FirstComponent(access[cursor..]) ==
            if pos == |access| then Component(parsed, access[pos..])
            else if access[pos] == ':' then Component(parsed, access[pos + 1..])
            else NoComponent
  {
    var s, n := access[cursor..], pos - cursor;
    RunCovers(s, n);
    assert n < |s| ==> s[n] == access[pos];
    assert DigitRun(s) == n;
    assert s[..n] == access[cursor..pos];
    assert n < |s| ==> s[n + 1..] == access[pos + 1..];
  }

  /** Reads one component at the cursor and moves past it. The 64-bit accumulator stays far below
      the point where it would wrap. */
  method ParseAccessComponent(access: string, cursor: nat) returns (ok: bool, next: nat, value: nat)
    requires cursor <= |access| && '\0' !in access
    ensures ok ==> cursor < next <= |access| && FirstComponent(access[cursor..]) == Component(value, access[next..])
    ensures !ok ==> next == cursor && FirstComponent(access[cursor..]) == NoComponent
  {
    hide FirstComponent, Reading, IsDigit;
    var pos: nat, parsed: nat := cursor, 0;
    ok, next, value := false, cursor, 0;
    ReadsNothing(access, cursor);
    if pos == |access| || !IsDigit(access[pos]) {
      return;
    }
    while pos < |access| && IsDigit(access[pos])
      invariant cursor <= pos <= |access| && Reading(access, cursor, pos, parsed) && parsed <= UINT32_MAX
      invariant pos == cursor ==> pos < |access| && IsDigit(access[pos])
      decreases |access| - pos
    {
      ReadsOn(access, cursor, pos, parsed);
      parsed := (parsed * 10 + DigitValue(access[pos])) % UINT64_SIZE;
      pos := pos + 1;
      if parsed > UINT32_MAX {
        ReadsTooMuch(access, cursor, pos, parsed);
        return;
      }
    }
    ReadsAll(access, cursor, pos, parsed);
    if pos < |access| {
      if access[pos] != ':' {
        return;
      }
      pos := pos + 1;
    }
    return true, pos, parsed;
  }

  ghost predicate IsGroup(s: string) {
    s != "" && (forall i | 0 <= i < |s| :: IsDigit(s[i])) && ValueFrom(0, s) <= 0xFFFF_FFFF
  }

  /** Digit groups joined by colons, with or without a colon at the end. */
  function Join(groups: seq<string>, trailing: bool): string {
    if groups == [] then ""
    else groups[0] + (if |groups| > 1 || trailing then ":" else "") + Join(groups[1..], trailing)
  }

  ghost function Values(groups: seq<string>): seq<nat>
    requires forall s | s in groups :: IsGroup(s)
  {
    if groups == [] then []
    else
      assert IsGroup(groups[0]);
      [ValueFrom(0, groups[0])] + Values(groups[1..])
  }

  lemma {:induction false} RunStops(group: string, rest: string)
    requires forall i | 0 <= i < |group| :: IsDigit(group[i])
    requires rest == "" || !IsDigit(rest[0])
    ensures DigitRun(group + rest) == |group|
  {
    if group == "" {
      assert group + rest == rest;
    } else {
      assert (group + rest)[1..] == group[1..] + rest;
      RunStops(group[1..], rest);
    }
  }

  /** Any groups of digits joined by colons are read back as their values. */
  lemma {:induction false} JoinedReads(groups: seq<string>, trailing: bool)
    requires forall s | s in groups :: IsGroup(s)
    ensures Components(Join(groups, trailing)) == Parsed(Values(groups))
  {
    if groups != [] {
      var tail := Join(groups[1..], trailing);
      var rest := (if |groups| > 1 || trailing then ":" else "") + tail;
      var s := Join(groups, trailing);
      assert IsGroup(groups[0]);
      assert s == groups[0] + rest;
      RunStops(groups[0], rest);
      assert s[..|groups[0]|] == groups[0];
      assert s[|groups[0]|..] == rest;
      assert rest != "" ==> s[|groups[0]| + 1..] == tail;
      JoinedReads(groups[1..], trailing);
    }
  }

  /** Nothing else is accepted: a string that parses is made of such groups. */
  lemma {:induction false} OnlyJoinedReads(s: string) returns (groups: seq<string>, trailing: bool)
    requires Components(s).Parsed?
    ensures forall t | t in groups :: IsGroup(t)
    ensures Join(groups, trailing) == s && Values(groups) == Components(s).values
    decreases |s|
  {
    groups, trailing := [], false;
    if s != "" {
      var group, rest := s[..DigitRun(s)], FirstComponent(s).rest;
      FirstIsGroup(s);
      groups, trailing := OnlyJoinedReads(rest);
      if rest == "" {
        groups, trailing := [], |group| < |s|;
      }
      hide FirstComponent, IsGroup;
      assert ([group] + groups)[1..] == groups;
      assert forall t | t in [group] + groups :: t == group || t in groups;
      groups := [group] + groups;
    }
  }

  lemma FirstIsGroup(s: string)
    requires FirstComponent(s).Component?
    ensures var c := FirstComponent(s); var group := s[..DigitRun(s)];
            && IsGroup(group) && c.value == ValueFrom(0, group)
            && s == group + (if |group| < |s| then ":" else "") + c.rest
            && (|group| == |s| ==> c.rest == "")
  {
  }

  function Decimals(ns: seq<nat>): (groups: seq<string>)
    ensures |groups| == |ns| && forall i | 0 <= i < |ns| :: groups[i] == Decimal(ns[i])
  {
    seq(|ns|, i requires 0 <= i < |ns| => Decimal(ns[i]))
  }

  /** 32-bit numbers written in decimal and joined by colons are read back unchanged. */
  lemma {:induction false} NumbersRead(ns: seq<nat>)
    requires forall n | n in ns :: n <= 0xFFFF_FFFF
    ensures Components(Join(Decimals(ns), false)) == Parsed(ns)
  {
    forall i | 0 <= i < |ns|
      ensures IsGroup(Decimal(ns[i]))
    {
      DecimalReads(ns[i]);
      assert ns[i] in ns;
    }
    JoinedReads(Decimals(ns), false);
    DecimalValues(ns);
  }

  lemma {:induction false} DecimalValues(ns: seq<nat>)
    requires forall s | s in Decimals(ns) :: IsGroup(s)
    ensures Values(Decimals(ns)) == ns
  {
    if ns != [] {
      DecimalReads(ns[0]);
      assert Decimals(ns)[1..] == Decimals(ns[1..]);
      DecimalValues(ns[1..]);
    }
  }
}
