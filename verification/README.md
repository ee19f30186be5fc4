# A verified model of min-corehdr

min-corehdr reads the type graph of a base BTF (a kernel's types) and some BPF object files, works
out which base types and record members those objects need, and prints a reduced C header for them.
This project models that pipeline in Dafny and proves what a user of the header relies on. For
graphs that meet the hypotheses below, as those of C programs do, in both modes of pointer expansion:

* a header is printed if and only if every type that comes into play is in range, of a kind that
  declarations are made of, and short enough for the declarator buffers;
* it defines no more than it must: every legal list of declarations that defines what is required
  defines all that the header does;
* its declarations are those that the emitter's recursion would print without its colours, each where
  it first comes, so their order is known before the header is printed;
* it is legal if and only if every named enum that comes into play is required and, in that order,
  every anonymous record behind a pointer asks for nothing but what comes before it. With pointers
  expanded the enums always are; a pointee can break it in either mode:
  `struct a { int x; }; typedef struct { struct a m; } *t;` is C, and its header is not legal;
* it defines exactly the records and typedefs that come into play; with pointers expanded these are
  exactly those required, without, what is more is there for a pointer or a prototype that names it;
* its text reads back, by the grammar of C, as the declarations it was printed for, if and only if
  the printer can write all their types;
* every field access of the objects still resolves in the pruned records, and following its names
  through the declarations of the header finds the types it resolved to, in every legal header, and
  with pointers expanded in every header;
* the order of the objects does not matter.

`dafny verify dfyconfig.toml` checks all of it.

## How the model is laid out

* `Btf`, `Meaning`: the type graph (one datatype constructor per BTF kind, ids as indexes, id 0 for
  void), the members that a set of marks shows, and the C type that a type id stands for.
* `CSyntax`, `Scope`: C types and declarations, and a scope checker for them. The checker is written
  from the rules of C (which names must be declared, which types complete, at each point) and knows
  nothing of the emitter. It identifies a name by the type id that introduces it; `NameScope` is the
  same checker by the names themselves, and `HeaderNames` says when the two agree on a header.
* `Walk`, `WalkOnce`, `InPlay`: the mutually recursive walk of the emitter as one function on its
  three colour arrays and the list of declarations so far, with its termination measure; and the
  static set of jobs that a header sets off, which decides what it defines.
* `WalkScope`, `HeaderScope`, `HeaderExact`, `HeaderSuccess`, `PlainWalk`, `HeaderLegal`,
  `HeaderRegular`, `HeaderLeast`, `HeaderPruned`: the theorems about whole headers: what they define,
  when they are printed, in which order, when they are legal, a condition that is enough for that, that
  no legal header defines less, and why the graph before pruning is enough to tell.
* `Declarators`, `Spelling`, `DeclaratorExact`: the 512-byte buffers of the declarator printer, why the
  bytes that are counted are the length of the string in the buffer, and exactly which declarators are
  refused. `ParamNames`: what parameters are called.
* `Printer`: the declarator printer, inside out, as words. `Grammar`: a recursive-descent reader for
  the declarations of section 6.7 of ISO/IEC 9899:2018, written independently of the printer.
  `Reading`, `RoundTrip`, `ReadBack`, `ReadStuck`, `RoundTripExact`, `EnumDefinitions`, `HeaderText`:
  reading back what was printed. `RoundTrip` has the type that the reader hears and the condition
  for it to be the one meant, `ReadBack` the types whose text is read, `ReadStuck` those in whose
  text the reader gets stuck.
* `Emitter`: the emitter as the code has it, a class with three arrays and an output that grows,
  each method proved equal to the walk and the printer.
* `Bits`, `TypeSet`, `Requirements`, `Closure`, `BtfIndex`: words of 64 bits, the bitsets over them,
  the requirement witness, the worklist and the chained hash table, as classes over arrays, each
  against a specification.
* `Numerals`, `AccessString`, `Access`, `Seeds`, `Resolve`, `ExtInfo`, `Objects`: access strings, the
  lock-step walk of object and base types, type resolution, the `.BTF.ext` framing, and what each
  object contributes.
* `Dependencies`, `MemberSearch`, `LockStep`, `ResolveExact`, `Contributions`, `ExtFile`: what the edges
  of the closure, the search for a member, the lock step, the resolution, the contributions of an object
  and the reading of `.BTF.ext` data come to, said by the kinds of the types and by the bytes, without
  the functions that the methods are specified by.
* `HeaderAccess`: field accesses followed through the declarations of a header.
* `Pipeline`: `main`. `Promises`: the promises above about its result.
* `Hypotheses`, `ObjectExample`: graphs that meet the hypotheses below, and an object with a
  relocation for which all of the promises hold. `Shortfalls`: graphs on which the program
  prints a header that is not legal or holds more than was required, and one it cannot print.

## Hypotheses

Stated once each and used by name. They ask only about the types that come into play: the jobs that
the required ids lead to (`InPlay.PlaySet`), a set that can be computed before the header is. Each
promise asks only for those it rests on, and the graphs of C programs meet them.

* `Meaning.Ranked`: some rank drops along every edge that does not leave a named record. C types
  recurse only through tags. The walk terminates on every ranked graph, whether ids are in range or
  not.
* `WalkScope.Named`: typedefs and forward declarations have names.
* `WalkScope.Ordered`: some numbering drops from each definition to every definition the walk must
  finish first. The order of the original source is one. A bare forward declaration cannot be
  completed, so `Ordered` also excludes using one by value. In which order a header is printed rests on
  `Ranked` and `Ordered` alone; that it is printed at all asks less than `Ordered`, that no typedef in
  play leads back to itself (`HeaderSuccess.NoneReturns`).
* `HeaderLeast.ShortChains`, for the theorem that nothing is defined in vain only: no typedef in play
  names a type behind 32 qualifiers or tags, where the program stops looking and walks it by value.
* `ReadStuck.AllQuiet`, for reading the text back only: a member without a name has no function on the
  way to its specifiers. C has no other members without a name. Without it a type that the printer
  cannot write can happen to be read back right (`RoundTripExact.NamelessReads`).

What C does not guarantee is not a hypothesis but the condition of the theorem,
`HeaderLegal.Provided`: the members of an anonymous record behind a pointer or in a prototype ask for
nothing but what comes before. The walk skips these members (src/emitter.c:477-480) although it prints
the body inline (src/emitter.c:394-395), so without this the code falls short of a valid C header
(`Shortfalls.AnonymousPointeeBreaks`), and whether it does can rest on the order of two ids alone
(`Shortfalls.OrderOfIdsDecides`). `HeaderScope.Pointees` is enough for it and asks less of a reader: no
tag or enum that the header does not declare at its start, and no definition but those of the required
typedefs and records that it defines before, which are the ones of lower id, and all typedefs for a
record. It is enough, too, that all this holds of the source's own graph, before any object prunes it
(`Promises.SourceProvides`).

`HeaderScope.AllRegular` is `Ranked`, `Named`, `Ordered` and `Pointees` together.
`Hypotheses.ListNodeHeader` shows that a recursive record meets them, `Hypotheses.HandlePointees` that
an anonymous record behind a pointer can, `Hypotheses.UsesAliasHeader` that it can even if its members
are of typedef names, and `ObjectExample.ObjectHeader` that a base with an object that has a relocation
does.

`WalkScope.Closed` (the shown edges do not leave a set) is not assumed of the program: with pointers
expanded it is proved of the closure (`Promises.ExpandedIsClosed`).

## What the code does not do

Where the code falls short of what a user of the header may expect, and exactly when:

* Without expanded pointers a header can use an enum that it never declares, even by value
  (`Shortfalls.DefaultEnumBreaks`); it does so exactly if a named enum in play is not required
  (`HeaderLegal.HeaderLegalIff`).
* Without expanded pointers it can define typedefs and records that are not required
  (`Shortfalls.TypedefOutsideRequired`, `Shortfalls.RecordOutsideRequired`); it defines exactly what is
  in play (`Promises.HeaderDefinesExactly`).
* An anonymous record behind a pointer can use what the header does not have by then: exactly if it is
  not `HeaderLegal.Provided` (see above).
* A declarator of 512 bytes or more is an error (`Shortfalls.LongNameFails`); a header is printed
  exactly if none in play is that long (`Promises.HeaderSucceedsExactly`).
* An enum without enumerators is printed with an empty list, which is not C, an enum of 32 bits without
  a sign is printed as if it had one, and the least value of 64 bits with a sign as a constant that has
  no type: `EnumDefinitions.EnumExact` says exactly which definitions read back as what they stand for.
* A parameter that has the name `arg0` clashes with the name made up for a first parameter without one
  (`ParamNames.GivenNameClashes`), and so on; exactly then can names be equal that were not given twice
  (`ParamNames.NamesDistinctExactly`).
* Qualifiers of arrays of pointers, results of functions that are more than specifiers behind
  pointers, and parameters of type void (as which BTF has the `...` of a prototype) are written in
  the wrong place or without their name:
  `RoundTripExact.QualifierMisplaced`, `RoundTripExact.ResultMisplaced`, `RoundTripExact.VoidLosesName`.
  Everything else reads back: `RoundTripExact.DeclarationExact`.
* Two required records of one name make a header that defines a tag twice
  (`HeaderNames.SameNameBreaks`).
* The closure is not monotone in the marks (`Closure.FirstMarkShrinks`).

## Model

| member | source | states |
|---|---|---|
| Pipeline.GenerateHeader | src/main.c:140-216 | The whole program succeeds exactly if every object resolves, no dependency is out of range and the walk is done (given a base that the index can hold), and prints the text that the specification gives for them |
| Pipeline.CollectRequirements | src/main.c:140-187 | For any hash function: succeeds exactly if every object resolves, and leaves the union of the objects' roots and marks, with nothing recorded that one of them does not account for |
| Pipeline.EmitNeeded | src/main.c:200-211 | Closure and emission succeed exactly as specified, and the text is that of the header of the closure |
| Pipeline.ObjectOrderIsFree | src/main.c:154-203 | Permuting the objects changes neither whether a header is printed nor a word of it |
| Promises.HeaderIsLegalExactly | src/emitter.c:804-876 | In either mode, a header is the list expected before it is printed, and passes the scope checker with nothing taken as declared if and only if every named enum in play is needed and, in that list, every anonymous pointee asks for nothing but what comes before |
| Promises.HeaderDefinesExactly | src/emitter.c:490-643 | In either mode, on any ranked graph, the header defines exactly the named records and typedefs in play and the needed enums |
| Promises.HeaderSucceedsExactly | src/emitter.c:490-725 | In either mode, on any ranked graph on which no typedef in play leads back to itself, a header is printed if and only if every type in play is in range and every definition in play is of known kinds and fits the buffers |
| Promises.OrderedNoneReturns | src/emitter.c:699-702 | A numbering of the definitions in play excludes a typedef that leads back to itself |
| Promises.HeaderIsExpected | src/emitter.c:804-876 | In either mode a header has the declarations that are expected before it is printed, in that order |
| Promises.OutsideIsNamed | src/closure.c:86-167 | What is in play outside the needed types is there for a pointer or a prototype that names it |
| Promises.HeaderDefinesLeast | src/emitter.c:490-643 | In either mode the header defines no more than it must: any legal list of declarations, whatever enums are taken as declared, that defines the needed named records and typedefs defines all records and typedefs that the header does |
| HeaderLeast.HeaderIsLeast | src/emitter.c:432-643 | The same of any required ids: what the walk takes to be complete, C asks to be complete, and what it takes to be known, C asks to be known |
| Promises.BodyIsMarked | src/emitter.c:276-305 | A record that some access marked shows, in their order, exactly the members that were marked; any other record shows all of its members |
| Promises.AccessesAreInHeader | src/seeds.c:541-624 | In either mode, in every header that is legal for whatever enums: for every relocation of every object, from the C type of its base type, following the names of its members through the declarations of the header finds, step by step, the types it resolved to, inside anonymous records too |
| Promises.ExpandedAccessesAreInHeader | src/seeds.c:541-624 | With expanded pointers that is so on any ranked graph whose header is printed |
| Promises.SourceSuffices | src/main.c:154-211 | The hypotheses, and the condition on pointees, on the source's own graph give them on the graph pruned by the objects |
| Promises.SourceProvides | src/main.c:154-211 | Then every pointee finds what it asks for in the expected list of the pruned graph |
| Promises.ExpandedHeaderIsLegal | src/emitter.c:804-876 | With expanded pointers the header passes the scope checker with nothing taken as declared if and only if every anonymous pointee asks for nothing but what comes before, and defines exactly the needed named records and typedefs |
| Promises.ExpandedHeaderSucceeds | src/emitter.c:545-725 | With expanded pointers, needed types of a ranked graph on which no typedef leads back to itself, of kinds that declarations are made of and short enough for the buffers, always make a header |
| Promises.HeaderIsLegalGivenEnums | src/emitter.c:804-876 | In either mode the header passes the scope checker for whoever declares the enums that are not needed if and only if every anonymous pointee asks for nothing but what comes before |
| Promises.MarkedMembersDeclared | src/emitter.c:276-305 | Every member an access marked is needed with its record, shown in its body, and defined with it if the record has a name |
| Promises.HeaderTextReads | src/emitter.c:804-876 | The whole text reads back, to the last word, as the declarations it was printed for, if and only if all their types can be written and all their enums are printed with the right signs |
| Promises.ExpandedIsClosed | src/closure.c:86-167 | With expanded pointers, no edge that the emitter follows leaves the closure |
| Promises.ByValueStays | src/closure.c:86-167 | In either mode, a trail of jobs none of which is about names alone stays in the closure |
| Promises.PartsAreNeeded | src/closure.c:86-167 | In either mode what the needed types are made of is needed: targets, elements and array indexes, shown members, results and parameters, variables; the targets of pointers only if pointers are expanded |
| Promises.FollowedIsNeeded | src/closure.c:86-167 | In either mode what the emitter follows from a needed type other than through a pointer is needed |
| Promises.NeededHasUser | src/closure.c:86-167 | A needed type that no object asks for is such a part of a needed type |
| PlainWalk.HeaderIsPlain | src/emitter.c:490-643 | The walk with its three colours prints exactly the first occurrences, in order, of what the plain recursion without them prints, after the forward declarations and enums |
| HeaderLegal.HeaderLegalIff | src/emitter.c:545-643 | For any enums taken as declared, a header passes the scope checker (every record used by value complete before, every typedef defined before, every tag declared before) if and only if these and the required ones are exactly enough for the enums in play and, in the order of the plain recursion, every anonymous pointee asks for nothing but what comes before |
| HeaderLegal.LegalProvides | src/emitter.c:477-480 | In any list of declarations that passes the checker every anonymous pointee finds what it asks for, on any ranked graph |
| HeaderLegal.ProvidedIsLegal | src/emitter.c:588-643 | A list in which every declaration comes after all that the recursion prints for it, the enums first, and every pointee finds what it asks for, passes the checker |
| HeaderLegal.RanReady | src/emitter.c:588-643 | Where all was printed that the recursion prints for a job, a hard job's type is complete and known to the checker, a soft job's known |
| HeaderLegal.KnownStill | src/emitter.c:477-480 | A type that the checker knows, and finds whole if it is used so, asks for nothing more than what was printed |
| HeaderRegular.PointeesProvide | src/emitter.c:849-872 | If pointees ask for nothing but what the header declares first and the jobs before have defined, every pointee finds what it asks for where it stands |
| HeaderRegular.HeaderLegalExactly | src/emitter.c:804-876 | Then the header is legal exactly if the required ids cover the named enums in play |
| HeaderScope.HeaderOnce | src/emitter.c:463-488 | No declaration is repeated, and each required named record, typedef and enum is defined, on any ranked graph |
| HeaderScope.HeaderStarts | src/emitter.c:849-860 | A header starts with the forward declarations of exactly the required records and forward declarations that have a name, followed by exactly the required enums, each in the order of the ids |
| HeaderScope.JobsInOrder | src/emitter.c:862-872 | Then come the required typedefs, and then the required records, each in the order of the ids |
| HeaderScope.AllStay | src/emitter.c:490-643 | A walk from jobs in a closed set prints nothing outside it |
| HeaderExact.HeaderDefinesPlay | src/emitter.c:490-643 | On any ranked graph a header that is printed has exactly the definitions in play |
| HeaderExact.PlayKnown | src/emitter.c:490-643 | In a legal header every type in play is known to the checker at the end: the half of the equivalence that finds the missing enum |
| HeaderNames.LegalByName | src/emitter.c:804-876 | Judged by names instead of type ids, a header that mentions no two tags and no two typedefs of one name is legal exactly under the same condition |
| HeaderNames.SameNameBreaks | src/emitter.c:849-872 | Two required records of one name make a header that is not legal by name |
| NameScope.NamesAgree | src/emitter.c:804-876 | On declarations that mention no two tags and no two typedefs of one name, the checker by names and the checker by type ids agree |
| InPlay.PlayIsLeast | src/emitter.c:490-643 | What is in play is contained in every set of jobs that has the required ones and is closed under what jobs lead to |
| InPlay.AllMet | src/emitter.c:490-643 | In a state that has followed up all it defined, every job that a job of the header leads to has been done |
| HeaderPruned.RegularPruned | src/emitter.c:276-305 | Hiding members keeps every hypothesis |
| HeaderPruned.OrderedPruned | src/emitter.c:276-305 | A numbering for all members is one for any part of them |
| WalkScope.StillKnown | src/emitter.c:477-480 | A type that asks for nothing beyond what has been seen is known to the checker, and whole if used so, once that has been declared and defined |
| HeaderSuccess.HeaderSucceeds | src/emitter.c:686-725 | On any ranked graph with a numbering the typedef-cycle error never fires: a header is printed if and only if what is in play is in range, of known kinds and short enough |
| HeaderSuccess.HeaderSucceedsUnlessCyclic | src/emitter.c:686-725 | That is so wherever no typedef in play leads back to itself, by whatever records: a record met while in progress is no error |
| HeaderSuccess.ShortByHeight | src/emitter.c:319-428 | Declarators fit their buffers if names of at most n bytes and types of height at most h give n + 26 h < 512 |
| Declarators.RoomyByHeight | src/emitter.c:319-428 | The same for one type and one declarator, array lengths being of 32 bits |
| DeclaratorExact.FitsExactly | src/emitter.c:345-373 | Of a type that ends in one word, a declaration is written if and only if the declarator in its text, as a string, has less than 512 characters |
| DeclaratorExact.QualifiersOnce | src/emitter.c:187-192 | The declaration of a qualified array of qualified elements starts with the qualifiers of both, each of them once |
| DeclaratorExact.QualifiersInOrder | src/emitter.c:127-144 | A set of qualifiers is written as const, volatile and restrict, those of them that there are, in this order |
| Walk.Walk | src/emitter.c:490-643 | Total on every ranked graph, by the measure (named records and typedefs not entered, rank, stage), with states that only go forward and output that only grows |
| Walk.WalkRecord | src/emitter.c:545-586 | The same for a record definition, which entered twice is left alone |
| Walk.WalkTypedef | src/emitter.c:686-725 | The same for a typedef definition, an error when met while in progress |
| Walk.PlanIsLighter | src/emitter.c:490-643 | What a type's dependencies come down to is of smaller weight: the heart of termination |
| WalkOnce.AllOnce | src/emitter.c:557-585 | After any successful walk the colours say exactly what was printed, nothing was printed twice, and nothing new is left in progress |
| Emission.Emitter.EmitHeader | src/emitter.c:804-876 | The emitter over its arrays ends as the specified walk of the ascending required ids, its output being the text of the declarations |
| Emission.Emitter.CollectEmitGroups | src/emitter.c:742-802 | The four groups are the required ids of each group, ascending, and none outgrows the number of required ids |
| Emission.Emitter.EmitHardDeps | src/emitter.c:588-643 | Ends in the state of the walk, or fails with it |
| Emission.Emitter.EmitSoftDeps | src/emitter.c:490-543 | Ends in the state of the walk, or fails with it |
| Emission.Emitter.EmitRecordDefinition | src/emitter.c:545-586 | Ends in the state of the walk, its text appended, or fails with it |
| Emission.Emitter.EmitTypedefDefinition | src/emitter.c:686-725 | Ends in the state of the walk, its text appended, or fails with it |
| Emission.Emitter.EmitForwardDecl | src/emitter.c:463-488 | Declares a named tag unless it was declared before |
| Emission.Emitter.EmitEnumDefinition | src/emitter.c:645-684 | Appends the enum's definition: its tag or none, and its enumerators with the values that the code prints for their width and sign |
| Emission.Emitter.PutEnumerators | src/emitter.c:657-681 | The two loops append the enumerators in order, with commas between them and none after the last |
| EnumDefinitions.EnumExact | src/emitter.c:645-684 | The text of an enum reads back as its tag, names and values if and only if it has an enumerator, all have names, none of 32 bits without a sign has its top bit set, and none of 64 bits with a sign has the least value |
| EnumDefinitions.PrintedRight | src/emitter.c:657-681 | The value printed is the value meant except for a value of 32 bits without a sign whose top bit is set |
| EnumDefinitions.PrintedTyped | src/emitter.c:667-680 | The constant printed has a type in C except for the least value of 64 bits with a sign |
| EnumDefinitions.LeastHasNoType | src/emitter.c:673-675 | That value is printed right, but as a constant that has no type |
| EnumDefinitions.SignedReads | src/emitter.c:663-675 | Every number of 32 or 64 bits with a sign is what its bits are read as |
| Emission.Emitter.EmitDecl | src/emitter.c:319-428 | Appends exactly the specified words of a declaration; fails exactly if a kind is unknown or a declarator, counted in bytes, does not fit its buffer of 512 |
| Emission.Emitter.EmitQualifiedDecl | src/emitter.c:167-213 | The same for a chain of qualifiers, which are written once each in a fixed order |
| Spelling.StarredSized | src/emitter.c:197-208 | A pointer behind qualifiers takes as many bytes as its string is long |
| Spelling.SuffixedSized | src/emitter.c:356-373 | So does an array suffix, with the parentheses a pointer needs |
| Spelling.SpellAppend | src/emitter.c:54-63 | The length of words put together, with the spaces that qualifiers need |
| Emission.Emitter.EmitFuncDecl | src/emitter.c:250-274 | The same for a function type |
| Emission.Emitter.EmitParams | src/emitter.c:215-248 | The same for its parameters, in order, with commas between them; `ParamNames` says what they are called |
| ParamNames.PrototypeNames | src/emitter.c:215-248 | The C type of a prototype has its parameters in order, each with the name given or, without one, `arg` and digits that read as its position |
| ParamNames.NamesDistinctExactly | src/emitter.c:237-240 | Names made up are pairwise distinct; all names are if and only if no name is given twice and none that is given says the position of a parameter without one |
| ParamNames.ReadNames | src/emitter.c:215-248 | The text of a parameter list is read back with those names |
| ParamNames.GivenNameClashes | src/emitter.c:237-240 | A parameter named arg0 behind one without a name: two parameters of one name |
| Emission.Emitter.EmitMembers | src/emitter.c:276-305 | The same for the shown members of a record |
| Emission.Emitter.EmitInlineRecord | src/emitter.c:307-317 | The same for an anonymous record |
| Emission.Emitter.LeadingMask | src/emitter.c:146-165 | The loop collects the leading qualifiers, at most 32 deep |
| Emission.Emitter.TargetNeedsHardDeps | src/emitter.c:432-461 | The loop decides as the specification whether a typedef's target must be complete |
| RoundTripExact.DeclarationExact | src/emitter.c:319-428 | Every printed type under every name is read back by the C grammar as that name and that type, up to what follows, if and only if it can be written; the reader gets through the text at all if and only if the result of every function in it is a specifier behind pointers |
| RoundTripExact.BodyExact | src/emitter.c:276-305 | The text of a record's body reads back as its fields if and only if all their types can be written |
| RoundTrip.HeardIsMeant | src/emitter.c:319-428 | What the reader makes of a type whose text it gets through is that type if and only if it can be written |
| RoundTrip.LandsExactly | src/emitter.c:167-213 | Qualifiers in front of a declaration are those of the type if and only if only arrays come between them and the specifier, none are left to write, or the right places have them anyway |
| RoundTrip.NotMadeUpBy | src/emitter.c:167-213 | Further qualifiers in front never make up for one that was misplaced deeper in the type |
| RoundTrip.ParamsAreMeant | src/emitter.c:215-248 | Parameters are heard as meant if and only if none has type void and all can be written |
| ReadBack.TypeSays | src/emitter.c:319-428 | Around any declarator that reads as such, the text of a readable type reads as the type that is heard |
| ReadStuck.TypeHangs | src/emitter.c:250-274 | In the text of any other type the reader gets stuck: it fails, or stops at a name before the end |
| RoundTripExact.QualifierMisplaced | src/emitter.c:167-213 | A const array of pointers is read back as an array of pointers to const |
| RoundTripExact.ResultMisplaced | src/emitter.c:250-274 | In the text of a function that returns a pointer to a function the reader gets stuck |
| RoundTripExact.VoidLosesName | src/emitter.c:224-232 | A second parameter of type void is read back without its name |
| RoundTripExact.NamelessReads | src/emitter.c:250-274 | A nameless function member with two equal parameter lists is read back right though it cannot be written: why the condition asks for quiet members |
| HeaderText.HeaderReads | src/emitter.c:804-876 | The text of any list of declarations reads back as the list if and only if all of them can be written |
| HeaderText.StatementExact | src/emitter.c:545-725 | One declaration reads back as itself, whatever follows, if and only if it can be written; if it is read otherwise, it is so to its end |
| Closure.ComputeDependencyClosure | src/closure.c:176-215 | At most as many rounds as types; fails exactly if a reached type is out of range; on success the set is exactly what the seeds reach by the edges of `EdgesAreParts`, and the growth is counted |
| Closure.Worklist.Run | src/closure.c:190-211 | The loop ends with a set closed under the option-dependent, member-filtered edges |
| Closure.Worklist.AddTypeDeps | src/closure.c:86-167 | Adds the targets of all edges of a type, or stops at one out of range; `EdgesAreParts` says what the edges are |
| Dependencies.EdgesAreParts | src/closure.c:86-167 | The edges of a type are its parts that are not void, kind by kind: what it points to (with expanded pointers only), names, qualifies or tags, elements and array index, shown members, result and parameters, variables; and nothing else |
| Dependencies.OnlyPointersDiffer | src/closure.c:93-97 | Expanding pointers changes the edges of pointers and no others |
| Dependencies.ReachedHasUser | src/closure.c:176-215 | What is reached is a seed or such a part of something reached |
| Closure.Worklist.AddDep | src/closure.c:66-84 | An id enters the worklist only when it enters the set, and is then counted |
| Closure.ClosureIsLeast | src/closure.c:176-215 | What the seeds reach contains them, is closed, and lies in every such set |
| Closure.PrunedWithinUnpruned | src/closure.c:116-131 | The pruned closure lies within the unpruned one, the default one within the pointer-expanded one |
| Closure.MoreMarksReachMore | src/closure.c:116-131 | More marks on records already pruned only add types |
| Closure.FirstMarkShrinks | src/closure.c:116-131 | The first mark on a record takes types away: closure is not monotone in the marks |
| Closure.FewEnough | src/closure.c:77-82 | No more distinct ids than types: the bound on the worklist |
| TypeSets.TypeSet.Contains | src/type_set.c:39-50 | Membership in the set of ids, by shift and mask of a 64-bit word |
| TypeSets.TypeSet.Add | src/type_set.c:52-69 | Adds the id if it is below the count, tells whether it was new, and keeps `selected` the number of ids |
| TypeSets.TypeSet.Next | src/type_set.c:71-106 | The least id at or after the cursor, or the end |
| Bitset.TrailingZeros | src/type_set.c:108-120 | Shifting a 64-bit word that is not zero until its low bit is set counts to its lowest set bit |
| Bitset.ListingStep | src/type_set.c:71-106 | Stepping the cursor lists exactly the ids from it on, once each, ascending |
| Bitset.ListingFits | src/emitter.c:742-767 | A listing is no longer than the set is large |
| Requirement.Requirements.AddTypeRoot | src/requirements.c:215-234 | Adds one root and one trace, or nothing if it was there: the first origin wins |
| Requirement.Requirements.AddRecordMember | src/requirements.c:252-305 | Keeps one more member and adds one trace, or nothing if it was there; refuses non-records and members out of range; no pruned record is left without members |
| Requirement.Requirements.AppendTrace | src/requirements.c:91-138 | Appends one trace, or refuses ids over 32 bits |
| Requirement.Requirements.ContainsTypeRoot | src/requirements.c:207-213 | Whether a root is required |
| Requirement.Requirements.HasRecordMembers | src/requirements.c:236-240 | Whether a record is pruned |
| Requirement.Requirements.ContainsRecordMember | src/requirements.c:242-250 | Whether a member of a pruned record is kept |
| Requirement.RootWitnessed | src/requirements.c:215-234 | Traces stay pairwise distinct and one to one with the requirements, and the counters count them, when a root is added |
| Requirement.MemberWitnessed | src/requirements.c:252-305 | The same when a member is added |
| BtfIndex.Index.Init | src/btf_index.c:79-126 | Builds a table of all named types of the indexed kinds, within capacity, over a power of two of buckets; never fails for a graph of up to 2^30 types |
| BtfIndex.Index.Insert | src/btf_index.c:53-77 | Chains stay acyclic, keys unique and in their buckets; a second type of a key makes its entry ambiguous |
| BtfIndex.Index.Lookup | src/btf_index.c:137-161 | For any hash function: 1 and the id if exactly one base type has the name and kind, -1 if several do, 0 if none |
| BtfIndex.Index.FindEntry | src/btf_index.c:141-158 | The walk along a chain finds the entry of a key if there is one |
| BtfIndex.Index.LookupAnonymousEnum | src/btf_index.c:209-246 | The same verdict on the base enums that agree with an anonymous enum in every respect |
| BtfIndex.AnonymousEnumMatches | src/btf_index.c:163-207 | Comparing field by field decides equality with an anonymous enum |
| BtfIndex.NextPowerOfTwo | src/btf_index.c:20-27 | The power of two from the value up to less than twice it, or the value itself where none fits the word |
| BtfIndex.EntryVerdict | src/btf_index.c:137-161 | One table entry, or its absence, sums up a scan of all base types |
| BtfIndex.NewEntry | src/btf_index.c:66-76 | A new entry at the head of its chain keeps the table right |
| BtfIndex.KnownEntry | src/btf_index.c:57-65 | Marking an entry ambiguous keeps the table right |
| BtfIndex.BucketIsRemainder | src/btf_index.c:53-56 | With a power of two of buckets, masking a hash by their number less one is taking the remainder |
| Bits.MaskIsRemainder | src/btf_index.c:145 | The same of any number and any power of two |
| AccessString.ParseAccessComponent | src/seeds.c:427-452 | Reads one component of at most 2^32-1 and strictly advances, or refuses; the 64-bit accumulator never wraps |
| AccessString.NumbersRead | src/seeds.c:427-452 | Any 32-bit numbers joined by colons are read back unchanged |
| AccessString.JoinedReads | src/seeds.c:427-452 | Any groups of digits joined by colons, with or without a colon at the end, are read as their values |
| AccessString.OnlyJoinedReads | src/seeds.c:427-452 | Nothing else is accepted |
| Access.PeelAccessType | src/seeds.c:391-425 | The type under typedefs, qualifiers, tags, pointers and arrays, at most 64 nodes away |
| Access.PeelIsFirst | src/seeds.c:391-425 | That is the first type on the chain that is none of these, if it is in range and among the first 64 |
| Access.FindBaseMember | src/seeds.c:454-477 | The first member of a name, or the one at the same index for a member without a name |
| Access.SearchStable | src/seeds.c:479-539 | Showing less of the records loses no member whose path is still shown, and finds none that was missing |
| Access.AccessSurvives | src/seeds.c:541-624 | An access that resolved takes the same steps, through the same records and members to the same types, on any view that shows what it marked |
| Access.FollowReads | src/seeds.c:560-624 | An access walks exactly the list of its components, and fails if it is malformed |
| Access.AccessMarksMembers | src/seeds.c:479-539 | Accesses mark only members of records |
| MemberSearch.SearchExactly | src/seeds.c:479-539 | A search finds a member if it is there: the first, in order, of all ways to a shown member of the name through shown members without names that peel to records, at most 17 records deep, unless the way into an 18th comes before; it reports none only if there is neither; a member without a name is the one at the same index, if it is shown |
| MemberSearch.StepExactly | src/seeds.c:565-621 | One component is a step exactly if both types peel to records within 64 nodes, the object's has a member at that index, and the base's has it by that search; the step goes on with the types of the two members, each on its own side |
| LockStep.ReloTakes | src/seeds.c:541-624 | A relocation of a code up to 5 whose access string reads as components takes one such step for each but the first, as far as there are steps, and succeeds if it takes all; other codes and empty strings take none; other strings fail |
| LockStep.ReloIndexes | src/seeds.c:600-619 | Through the object's own declarations in C, from the type of the relocation, each component is the index of a field with the name of its step and the type that the step goes on with |
| LockStep.PeelsExactly | src/seeds.c:391-425 | On a ranked graph a type within 64 ranks peels to a record exactly if, by the object's own declarations, it is or leads by names, pointers and arrays to a type with fields |
| Seeds.Extraction.MarkBaseMemberPath | src/seeds.c:479-539 | The result of the search, which `SearchExactly` says, with exactly the members on the path marked, their records seeded, and nothing recorded but them and this origin; nothing changes if none is found or the search is too deep |
| Seeds.Extraction.RecordCoreReloRequirements | src/seeds.c:541-624 | Succeeds exactly if the access does, which `ReloTakes` says, having marked exactly the members of its steps |
| Seeds.Extraction.TakeStep | src/seeds.c:565-621 | One component: the base and object types and the marks of the step, which `StepExactly` says |
| Seeds.MarkTwice | src/requirements.c:252-305 | Marking is union: marks made one after the other are marks made together |
| Seeds.MarkedShown | src/requirements.c:242-250 | A marked member is shown, whatever else is marked |
| Resolve.ResolveObjectTypeToBase | src/seeds.c:626-725 | The loop over at most 32 nodes decides as specified, which `ResolvedExactly` says by the kinds of the nodes |
| Resolve.LookupNode | src/seeds.c:662-699 | The match of one node, by name and kind or as an anonymous enum |
| Resolve.FirstDecides | src/seeds.c:626-725 | The resolution is the decision of the first node on the chain that decides: its only match, ambiguity, an id out of range, or no match at the end |
| Resolve.NoneDecides | src/seeds.c:718-724 | A chain is too deep if and only if none of the first 32 nodes decides |
| Resolve.CycleTooDeep | src/seeds.c:718-724 | A cycle without a match is reported as too deep |
| Resolve.BaseTypeIsOnly | src/seeds.c:662-699 | A resolved type has the name and kind of a node on the chain, no other base type has them, and no node before it has a match |
| ResolveExact.ResolvedExactly | src/seeds.c:626-725 | An object type resolves by the end of its chain of typedefs, qualifiers and type tags that no base type is like: too deep if there are 32 of them, invalid if it leaves the object's types, else by the base types like the last one: the only one, an ambiguity, or, if there is none and it is of another kind, program-local or unresolved as asked |
| ResolveExact.BaseTypeExactly | src/seeds.c:626-725 | It resolves to a base type if and only if that is the only one like some type on the chain, within the first 32 |
| ResolveExact.LocalExactly | src/seeds.c:701-703 | It is the program's own if and only if the chain ends within 32 types with no base type like any of it |
| ResolveExact.LeadingOn | src/seeds.c:696-699 | A typedef, qualifier or type tag that no base type is like resolves, with one node fewer to go, to whatever its target does |
| ResolveExact.MatchIsAlike | src/seeds.c:662-694 | The match of a node is the only base type like it: of the same kind and name, with a name; for an enum without one, equal |
| ExtInfo.InitExtInfo | src/seeds.c:99-144 | A part is taken up exactly if it lies within the data and its records are large enough; the subtractions never wrap |
| ExtInfo.FindExtInfoSection | src/seeds.c:146-177 | The records of the first section of that name in the decoding, or none if there is no such section |
| ExtInfo.FindLineLocation | src/seeds.c:179-215 | The position in the last record that starts latest at or before the instruction |
| ExtInfo.BestRecord | src/seeds.c:195-204 | That record is found if any starts at or before the instruction |
| ExtInfo.EncodeDecodes | src/seeds.c:887-952 | Encoding sections and walking them gives the same records in order |
| ExtInfo.OnlyEncodingsDecode | src/seeds.c:887-952 | Bytes that the walk accepts are the encoding of what it found |
| ExtInfo.RecordsAreSections | src/seeds.c:887-952 | Reading record by record gives the records of the sections, exactly if the sections fit |
| ExtFile.FileReads | src/seeds.c:811-952 | Data written field by field, with a header of any length and anything around the relocation part, is read as the records of its sections |
| ExtFile.LeastFirst | src/seeds.c:822-846 | Numbers are read with the least byte first |
| ExtFile.CoreExactly | src/seeds.c:838-900 | Data is accepted if and only if it has 32 bytes, the magic number, the version, a header length within it, and no relocations or, within it, records of 16 bytes or more in sections that fit |
| ExtFile.ReloReads | src/seeds.c:913-917 | A relocation record is read as the type, access string and kind that it was written for |
| ExtFile.LineReads | src/seeds.c:206-213 | A line record is read as the file, line and column that it was written for |
| Objects.WalkRecords | src/seeds.c:887-958 | The relocation loop succeeds exactly if the framing is accepted and every relocation resolves; the check for trailing bytes after it cannot fail |
| Objects.ProcessRelo | src/seeds.c:900-950 | One relocation adds its base type and the members of its access, or fails |
| Objects.ExtractCoreReloSeeds | src/seeds.c:811-961 | The same from the comparison of byte orders and the header on |
| Objects.ExtractObjectSeeds | src/seeds.c:742-801 | Adds the base types of an object's named types and enums; fails exactly if one is neither resolved nor the program's own |
| Objects.ExtractAll | src/main.c:154-187 | All objects together contribute the union of what each does alone |
| Objects.OrderIsFree | src/main.c:154-187 | That union does not depend on their order |
| Objects.RelosSurvive | src/seeds.c:541-624 | After all objects succeed, every relocation of every one, replayed on the records pruned to what all marked, takes the same steps |
| ExtFile.HoldExactly | src/seeds.c:811-961 | The relocations of an object hold if and only if it has no data, or has it in the host's byte order, it is accepted and every relocation resolves |
| Contributions.RootsExactly | src/seeds.c:742-800 | An object requires exactly the base types that its enums, its named records, forward declarations and typedefs, and the types of its relocations stand for |
| Contributions.PairsExactly | src/seeds.c:541-624 | It marks exactly the members that the steps of its relocations pass |
| Contributions.SeedsResolveExactly | src/seeds.c:755-782 | Its own types resolve if and only if each that is looked up stands for one base type, or neither it nor what it leads to is like any |
| Contributions.ReloResolvesExactly | src/seeds.c:926-949 | A relocation resolves if and only if its type stands for a base type from which all of its steps are taken |
| Contributions.TracesExplain | src/seeds.c:783-793 | Everything that is recorded of the objects is so: one of them, which it names, has a type, or a relocation with the access it names, that stands for the type or passes the member it requires |
| HeaderAccess.FollowInHeader | src/seeds.c:560-624 | Through any declarations that give their meaning to a set of types and have the named records that an access marks, following the names of its steps from a type of the set finds the types of its steps |
| HeaderAccess.LegalBacks | src/emitter.c:490-643 | The declarations of a legal header give their meaning to all types that the checker then knows |
| HeaderAccess.SearchInHeader | src/seeds.c:479-539 | The member that the search finds is in the fields that the header gives the record, or in those of its unnamed members |
| HeaderAccess.PeelFields | src/seeds.c:391-425 | Where the program peels a type down to a record, following typedef names through the header ends at the fields of its shown members |
| Hypotheses.ListNodeHeader | src/emitter.c:545-586 | The hypotheses allow a recursive record, whose header is printed and legal |
| Hypotheses.UsesAliasHeader | src/emitter.c:849-872 | They allow an anonymous record behind a pointer with a member of a required typedef name, which is defined before: its header is printed and legal |
| ObjectExample.ObjectHeader | src/main.c:140-216 | They hold of a base and an object with one relocation, in either mode: the record is pruned to the member accessed, the header is printed and legal, and the access is found in it |
| Shortfalls.TypedefOutsideRequired | src/emitter.c:490-543 | Without expanded pointers a typedef outside the required set can be printed: the default edges do not reach it and the walk does |
| Shortfalls.AnonymousPointeeBreaks | src/emitter.c:477-480 | A header can be illegal for an anonymous record behind a pointer alone, all hypotheses holding |
| Shortfalls.OrderOfIdsDecides | src/emitter.c:477-480 | The same definitions give a legal header or an illegal one by the order of two ids |
| Shortfalls.DefaultEnumBreaks | src/emitter.c:490-543 | Without expanded pointers a header can be illegal for an enum used by value and never declared, all hypotheses holding |
| Shortfalls.RecordOutsideRequired | src/emitter.c:490-543 | Without expanded pointers a record outside the required set can be printed |
| Shortfalls.LongNameFails | src/emitter.c:345-355 | A required record with a shown pointer member whose name has 511 bytes or more makes the header fail |

## Left out

- libbpf and ELF loading, file output and renaming, the command line, statistics, error wording and
  the explanation text: foreign calls, I/O or one-line facts. Loaded types, `.BTF.ext` bytes and
  strings are inputs.
- Allocation failure: no model of it.
- Memory layout of `btf_type`: one datatype constructor per kind instead.
- Spelling tables of integers and floats: one word each.
- The include guard, pragma and blank lines of the header.
- Text as characters: the output is a list of words; bytes are counted where a buffer limits them, one
  for each character of a name.
- Names in the text: a tag or enum is written with its id as well. `HeaderNames` judges the declarations
  by their names alone, where no two types that are mentioned share one, and where two required
  records do; not where a forward declaration shares the name of a record.
- The FNV hash is any function of name and kind.
- Closure and emitter take the marks of the requirements as a value, not as a shared object.
- Byte order: a little-endian host. Whether an object has the host's order is an input.
- The human-readable location and relocation kind in an origin: left empty. `find_line_location` is
  modelled by itself.
- The LLVM meaning of array indexes in an access string: components are read as member indexes, as
  the code does.
- Validity of pointers to arrays of incomplete records, of functions or void used by value, and of enums
  without enumerators: the scope checker does not ask for it (the reader does of the last).
- HeaderIsLegalGivenEnums: takes the enums that are not needed as declared; `HeaderIsLegalExactly` does
  without.
- MarkedMembersDeclared: of an anonymous record it does not say where its body is printed;
  `AccessesAreInHeader` finds the member there.
- ExpandedHeaderSucceeds: goes one way; `HeaderSucceedsExactly` goes both.
- AccessesAreInHeader: of a member without a name it says that the record has a field of its type.
- FindLineLocation: gives the position of a covering record; how locations are formatted is left out,
  and of `find_function_name` only the same search for the record.
