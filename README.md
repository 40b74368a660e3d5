# CSharpViaTest exercises: member report, card ordering, stride-2 enumerator

This project models three small algorithms from the CSharpViaTest exercise
repository in Dafny and proves what they promise.

- **Member report** (`member_report.dfy`). `GetInstanceMemberInformation` lists a type's
  instance members as text lines, with `paramterString` as its helper.
  - Live reflection is replaced by a type descriptor `TypeInfo`. It holds the
    full name, the instance constructors, the properties `GetProperties()`
    returns, and the instance methods, with the flags the
    `BindingFlags` queries test.
  - The report is the header, then non-public constructors, public
    constructors, indexed properties, normal properties and the public,
    declared, non-special methods. Each group keeps the descriptor's order;
    the code does not sort.
  - `p.GetGetMethod().IsPublic` dereferences null when a property has no
    public getter. The whole report then fails, modelled as
    `Err(NullReference)`.
- **Card ordering** (`poker.dfy`). `Card` is a suit and a rank, with the
  constructor's "only a Joker has no suit" check. `PokerComparer` is a class
  holding the two dictionaries its constructor builds with
  `ListToReverseIndexedDict`:
  - that method reverses its list in place and numbers the elements 1..n;
  - `Compare` looks up ranks first, then suits.
  
  Lookups that fail (`KeyNotFoundException`) are `Err(KeyNotFound)`. The module
  `PokerOrder` proves the order properties. `PokerDeck` reproduces the test:
  `OrderBy` is an insertion sort that calls `Compare`, and the eleven-card deck
  is proved to come out in the expected order.
- **Stride-2 enumerator** (`skipped_enumeration.dfy`).
  - `SkippedEnumerable` refuses a null collection. `GetEnumerator` hands out a
    fresh `SkippedEnumerator`.
  - The enumerator keeps a reference to the collection and an integer cursor.
    `MoveNext` advances the cursor by two, so the enumerator yields the
    elements at indices 1, 3, 5, ….
  - The enumerator's bodies in the repository are stubs. The behaviour comes
    from the test: `{1,…,6}` yields `{2,4,6}`, in forward order despite the
    test's name.

The exercise's doc comment (GetMemberInformation.cs:14-18) asks for a sorted
report: constructors by accessibility and then by parameter count, properties
by name, and methods by name and then by parameter count. The code does not
sort, and the model follows the code.

`wrappers.dfy` holds `Option` and `Result`. A C# `null` is `None`, and a
thrown exception is `Err`.

## Model

| member | source | states |
|---|---|---|
| MemberReport.Report | src/CSharpViaTest.OtherBCLs/HandleReflections/GetMemberInformation.cs:62-85 | The report fails exactly when some property has no public getter (the null dereference); otherwise its first line is "Member information for " followed by the full name |
| MemberReport.ParameterString | src/CSharpViaTest.OtherBCLs/HandleReflections/GetMemberInformation.cs:87-92 | An empty list renders as "no parameter"; one parameter renders as "<type> <name>"; a longer list starts with its first parameter rendered |
| MemberReport.ParameterStringSnoc | src/CSharpViaTest.OtherBCLs/HandleReflections/GetMemberInformation.cs:90 | Parameters are joined with ", " in declaration order: one more parameter appends ", <type> <name>" |
| MemberReport.GetGetMethod | src/CSharpViaTest.OtherBCLs/HandleReflections/GetMemberInformation.cs:73 | The accessor returned is public; null exactly when the getter is absent or not public |
| MemberReport.WherePublicGetter | src/CSharpViaTest.OtherBCLs/HandleReflections/GetMemberInformation.cs:72-78 | Fails exactly when a property lacks a public getter; otherwise drops nothing and keeps the order |
| MemberReport.Filter | src/CSharpViaTest.OtherBCLs/HandleReflections/GetMemberInformation.cs:68-82 | `Where` keeps exactly the elements that pass the test, and never adds any |
| MemberReport.Select | src/CSharpViaTest.OtherBCLs/HandleReflections/GetMemberInformation.cs:68-82 | `Select` gives one line per element, the i-th line rendered from the i-th element |
| MemberReport.Join | src/CSharpViaTest.OtherBCLs/HandleReflections/GetMemberInformation.cs:90 | `String.Join` of no parts is empty, of one part is that part, and otherwise starts with the first part; `JoinSnoc` gives the separator between parts |
| MemberReport.JoinSnoc | src/CSharpViaTest.OtherBCLs/HandleReflections/GetMemberInformation.cs:90 | Appending a part appends the separator and that part to the joined string |
| MemberReport.FilterConcat | src/CSharpViaTest.OtherBCLs/HandleReflections/GetMemberInformation.cs:68-82 | Filtering distributes over concatenation, so each group keeps the descriptor's relative order |
| MemberReportProperties.SectionsOfPrefixes | src/CSharpViaTest.OtherBCLs/HandleReflections/GetMemberInformation.cs:66-82 | The six line prefixes cannot be confused: a line's group is determined by its prefix, whatever follows it |
| MemberReportProperties.ReportSections | src/CSharpViaTest.OtherBCLs/HandleReflections/GetMemberInformation.cs:65-83 | The lines of each group, picked out of the report by their prefix alone, are exactly that group's members rendered in the descriptor's order: nothing sorted, dropped or repeated |
| MemberReportProperties.ReportGroupsOrdered | src/CSharpViaTest.OtherBCLs/HandleReflections/GetMemberInformation.cs:65-83 | The header comes first, and group numbers never decrease along the report: non-public constructors, public constructors, indexed properties, normal properties, methods |
| MemberReportProperties.ReportLength | src/CSharpViaTest.OtherBCLs/HandleReflections/GetMemberInformation.cs:64-83 | The report has 1 + constructors + properties + public, declared, non-special methods lines |
| MemberReportProperties.UnreportedMethodInvisible | src/CSharpViaTest.OtherBCLs/HandleReflections/GetMemberInformation.cs:80-82 | Inserting a special-named, non-public or inherited method anywhere leaves the report unchanged |
| MemberReportProperties.PropertyLineShape | src/CSharpViaTest.OtherBCLs/HandleReflections/GetMemberInformation.cs:72-78 | A property line ends in ": Public getter." and starts with "Indexed property " exactly when the property has index parameters ("Normal property " otherwise) |
| MemberReportProperties.ReportedConstructors | src/CSharpViaTest.OtherBCLs/HandleReflections/GetMemberInformation.cs:68-71 | Every constructor gets its line; every constructor line comes from a constructor of the matching accessibility |
| MemberReportProperties.ReportedProperties | src/CSharpViaTest.OtherBCLs/HandleReflections/GetMemberInformation.cs:72-78 | Every property gets its line; every property line comes from a property |
| MemberReportProperties.ReportedMethods | src/CSharpViaTest.OtherBCLs/HandleReflections/GetMemberInformation.cs:80-82 | Exactly the public, declared, non-special methods get a line |
| MemberReportScenarios.ForTestCtorPropertyReport | src/CSharpViaTest.OtherBCLs/HandleReflections/GetMemberInformation.cs:100-109 | The `ForTestCtorProperty` descriptor yields exactly the test's five expected lines |
| MemberReportScenarios.ForTestMethodReport | src/CSharpViaTest.OtherBCLs/HandleReflections/GetMemberInformation.cs:110-118 | The `ForTestMethod` descriptor yields exactly the test's three expected lines |
| MemberReportScenarios.ProviderOrderKept | src/CSharpViaTest.OtherBCLs/HandleReflections/GetMemberInformation.cs:67-78 | Nothing is sorted: a two-parameter constructor listed before a one-parameter one, and a property "b" before "a", keep that order |
| Poker.NewCard | src/CSharpViaTest.Collections/40_CommonManipulation/DefineHowToOrder.cs:36-45 | A card is refused exactly when its suit is None and it is not a Joker; an accepted card keeps the given suit and rank |
| Poker.Equals | src/CSharpViaTest.Collections/40_CommonManipulation/DefineHowToOrder.cs:50-55 | False for null; otherwise true exactly when both rank and suit agree |
| Poker.PokerComparer.constructor | src/CSharpViaTest.Collections/40_CommonManipulation/DefineHowToOrder.cs:107-125 | The rank table gives every rank its stated precedence, and the suit table holds every suit except None |
| Poker.PokerComparer.Reverse | src/CSharpViaTest.Collections/40_CommonManipulation/DefineHowToOrder.cs:129 | The list is reversed in place |
| Poker.ReversedTwice | src/CSharpViaTest.Collections/40_CommonManipulation/DefineHowToOrder.cs:129 | Reversal is its own inverse |
| Poker.PokerComparer.NumberFromOne | src/CSharpViaTest.Collections/40_CommonManipulation/DefineHowToOrder.cs:130-131 | Fails exactly on a repeated element; otherwise the keys are the list's elements and index j maps to j + 1 |
| Poker.PokerComparer.ListToReverseIndexedDict | src/CSharpViaTest.Collections/40_CommonManipulation/DefineHowToOrder.cs:127-132 | Leaves the argument reversed; fails exactly when the list has a repeat; otherwise maps the element at index i of an n-element list to n - i |
| Poker.ReverseIndexedBijection | src/CSharpViaTest.Collections/40_CommonManipulation/DefineHowToOrder.cs:127-132 | The numbering is a bijection onto 1..n, and an earlier element gets the larger number |
| Poker.CompareTo | src/CSharpViaTest.Collections/40_CommonManipulation/DefineHowToOrder.cs:140-143 | `int.CompareTo` is negative, zero or positive exactly when the first number is below, equal to or above the second, and is always -1, 0 or 1 |
| Poker.PokerComparer.Compare | src/CSharpViaTest.Collections/40_CommonManipulation/DefineHowToOrder.cs:138-144 | A defined result is -1, 0 or 1 |
| Poker.RankOrderValues | src/CSharpViaTest.Collections/40_CommonManipulation/DefineHowToOrder.cs:109-116 | The rank list agrees with the stated order Joker, 3, 2, A, K, …, 4, and lists every rank |
| Poker.RankTableFromOrder | src/CSharpViaTest.Collections/40_CommonManipulation/DefineHowToOrder.cs:109-117 | The dictionary built from the rank list gives each rank its stated precedence |
| Poker.SuitTableFromOrder | src/CSharpViaTest.Collections/40_CommonManipulation/DefineHowToOrder.cs:119-124 | The dictionary built from the suit list holds exactly the four real suits, with precedence Hearts > Diamonds > Spades > Clubs |
| PokerOrder.CompareByKey | src/CSharpViaTest.Collections/40_CommonManipulation/DefineHowToOrder.cs:138-144 | `Compare` fails exactly on a rank tie involving a suitless card; otherwise it is the sign of the difference of the rank-then-suit keys |
| PokerOrder.RankDominates | src/CSharpViaTest.Collections/40_CommonManipulation/DefineHowToOrder.cs:140-142 | When ranks differ, the sign of the result is that of the rank precedences, whatever the suits |
| PokerOrder.JokerHighestFourLowest | src/CSharpViaTest.Collections/40_CommonManipulation/DefineHowToOrder.cs:109-117 | A Joker is above, and a 4 is below, every card of another rank |
| PokerOrder.SuitOrderOnTies | src/CSharpViaTest.Collections/40_CommonManipulation/DefineHowToOrder.cs:119-124 | On equal ranks, Hearts > Diamonds > Spades > Clubs |
| PokerOrder.CompareReflexive | src/CSharpViaTest.Collections/40_CommonManipulation/DefineHowToOrder.cs:138-144 | A card compares as 0 with itself exactly when it has a suit; a suitless Joker cannot be compared even with itself |
| PokerOrder.CompareAntisymmetric | src/CSharpViaTest.Collections/40_CommonManipulation/DefineHowToOrder.cs:138-144 | Swapping a defined comparison's arguments negates it |
| PokerOrder.CompareTransitive | src/CSharpViaTest.Collections/40_CommonManipulation/DefineHowToOrder.cs:138-144 | "Not above" and "below" are transitive, and the composed comparison is defined |
| PokerOrder.CompareZeroIffEquals | src/CSharpViaTest.Collections/40_CommonManipulation/DefineHowToOrder.cs:50-55 | `Compare` gives 0 exactly when `Equals` holds and the card has a suit |
| PokerDeck.InsertionPoint | src/CSharpViaTest.Collections/40_CommonManipulation/DefineHowToOrder.cs:182 | The position found is past every card not above the new one and before the first card above it; a failure means a suitless rank tie |
| PokerDeck.OrderBy | src/CSharpViaTest.Collections/40_CommonManipulation/DefineHowToOrder.cs:182 | A successful sort is ordered and a permutation of its input; with no suitless rank tie it always succeeds |
| PokerDeck.OrderedUnique | src/CSharpViaTest.Collections/40_CommonManipulation/DefineHowToOrder.cs:182 | Two ordered permutations of the same cards are equal, so the order `OrderBy` produces does not depend on how it sorts |
| PokerDeck.DeckCardsValid | src/CSharpViaTest.Collections/40_CommonManipulation/DefineHowToOrder.cs:152-165 | Every card of the test deck passes the card constructor's check |
| PokerDeck.DeckHasNoSuitlessTies | src/CSharpViaTest.Collections/40_CommonManipulation/DefineHowToOrder.cs:152-165 | The test deck holds no pair the comparer cannot decide |
| PokerDeck.ExpectedIsPermutation | src/CSharpViaTest.Collections/40_CommonManipulation/DefineHowToOrder.cs:152-180 | The expected sequence holds exactly the deck's cards |
| PokerDeck.DeckSortsToExpected | src/CSharpViaTest.Collections/40_CommonManipulation/DefineHowToOrder.cs:167-182 | Any ordered permutation of the deck is exactly the expected sequence |
| PokerDeck.ShouldOrderCardsCorrectly | src/CSharpViaTest.Collections/40_CommonManipulation/DefineHowToOrder.cs:149-183 | A fresh comparer orders the test deck into exactly the expected eleven cards |
| SkippedEnumeration.OddIndexed | src/CSharpViaTest.Collections/10_SkippedEnumeratorPractice.cs:72-75 | An n-element collection yields n / 2 elements |
| SkippedEnumeration.OddIndexedAt | src/CSharpViaTest.Collections/10_SkippedEnumeratorPractice.cs:72-75 | The k-th element yielded is the one at index 2k + 1 |
| SkippedEnumeration.SkippedEnumerable.constructor | src/CSharpViaTest.Collections/10_SkippedEnumeratorPractice.cs:17-20 | Stores the collection it is given |
| SkippedEnumeration.SkippedEnumerable.Create | src/CSharpViaTest.Collections/10_SkippedEnumeratorPractice.cs:17-20 | Fails exactly when the collection is null; otherwise gives a new enumerable over that collection |
| SkippedEnumeration.SkippedEnumerable.GetEnumerator | src/CSharpViaTest.Collections/10_SkippedEnumeratorPractice.cs:22-25 | Each call gives a fresh enumerator over the same collection that has yielded nothing yet |
| SkippedEnumeration.SkippedEnumerator.constructor | src/CSharpViaTest.Collections/10_SkippedEnumeratorPractice.cs:42-45 | Starts before the first element, having yielded nothing |
| SkippedEnumeration.SkippedEnumerator.MoveNext | src/CSharpViaTest.Collections/10_SkippedEnumeratorPractice.cs:47-50 | Returns true exactly while odd-indexed elements remain, in which case the cursor moves by two and the yielded sequence grows by the new current element; otherwise the enumerator is exhausted, having yielded every odd-indexed element |
| SkippedEnumeration.SkippedEnumerator.Current | src/CSharpViaTest.Collections/10_SkippedEnumeratorPractice.cs:57 | The current element sits at an odd index and is the next element of the odd-indexed sequence |
| SkippedEnumeration.SkippedEnumerator.Reset | src/CSharpViaTest.Collections/10_SkippedEnumeratorPractice.cs:52-55 | Back before the first element, having yielded nothing |
| SkippedEnumeration.ToSeq | src/CSharpViaTest.Collections/10_SkippedEnumeratorPractice.cs:73 | Enumerating to the end yields exactly the elements at odd indices, in order |
| SkippedEnumeration.ShouldVisitElements | src/CSharpViaTest.Collections/10_SkippedEnumeratorPractice.cs:69-76 | `{1, 2, 3, 4, 5, 6}` yields exactly `{2, 4, 6}` |

## Left out

- Reflection itself is not modelled: `GetConstructors`, `GetProperties`, `GetMethods`, `BindingFlags`, `ParameterType.Name` and `FullName`. The descriptor holds what these return, in the order they return it.
- src/CSharpViaTest.OtherBCLs/HandleReflections/InvokeMemberReflectively.cs is not part of this model. It is a thin layer over runtime reflection.
- The unused `var property = type.GetProperties()` at the start of `GetInstanceMemberInformation` has no effect and is not modelled.
- The sort that the exercise's description asks for is not modelled, because the code does not sort. `ProviderOrderKept` shows this.
- LINQ laziness is not modelled. `ToArray` forces the whole expression, so the failure is taken to be a failure of the whole report.
- MemberReport.ParameterString: its own contract states only the empty, single and first-parameter cases. The full ", "-join in declaration order is stated by `ParameterStringSnoc`.
- `Card.GetHashCode` (unchecked 32-bit arithmetic) and `Card.Equals(object)` are not modelled. The latter checks the runtime type and then defers to `Equals(Card)`. Cards are values here, so `ReferenceEquals` coincides with equal fields.
- Poker.PokerComparer.ListToReverseIndexedDict: it is a static method over an array. The C# version is a private instance method over `List<T>`, and it uses no instance state.
- Poker.PokerComparer.Compare: null cards are not modelled; it takes two cards. The C# `Compare` throws `NullReferenceException` at `x.Rank` or `y.Rank` when either card is null.
- The comparer's dictionaries can be reassigned through their public setters. The order lemmas therefore assume the tables the constructor builds (`Valid()`).
- PokerDeck.OrderBy: `OrderBy` is modelled by an insertion sort, not by LINQ's algorithm. Stability is not stated: cards that compare equal are equal values. `OrderedUnique` shows that any sort yields the same order.
- PokerDeck.OrderBy: it passes on a comparer failure at the first failing comparison its own insertion order makes. LINQ may compare other pairs, so the model promises success only when no two distinct cards form a suitless rank tie. That promise also rests on the sort never comparing a card with itself. The insertion sort never does, but LINQ's sort does not guarantee this. `CompareReflexive` shows that a suitless Joker cannot be compared even with itself, and the test deck holds one at `Deck[5]`. A sort that calls `Compare(Deck[5], Deck[5])` throws `KeyNotFoundException` on `SuitDict[None]`, and neither `OrderBy` nor `ShouldOrderCardsCorrectly` covers that.
- The enumerator's source is an array. The C# enumerable takes an `ICollection<T>`, and the test passes an `int[]`.
- Changes to the collection during enumeration are not modelled.
- The non-generic `IEnumerator.Current`, `IEnumerable.GetEnumerator` and `Dispose` are left out: they only forward or release nothing.
- The O(1) memory of the enumerator holds by construction and is not stated as a contract: its only fields are the collection reference and an integer cursor.
- SkippedEnumeration.SkippedEnumerator.Current: it requires a positioned enumerator, which is the caller's duty under `IEnumerator<T>`. Outside that range the C# `Current` is undefined.
