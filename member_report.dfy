/** The member-information report of the reflection exercise
    (GetMemberInformation.cs): a type's constructors, properties and methods
    rendered as text lines. The live reflection queries are replaced by a
    descriptor that holds what those queries would return. */
module MemberReport {
  import opened Wrappers

  /** A parameter as reflection reports it: `ParameterType.Name` and `Name`. */
  datatype Parameter = Parameter(typeName: string, name: string)

  /** An instance constructor of the type. */
  datatype ConstructorInfo = ConstructorInfo(isPublic: bool, parameters: seq<Parameter>)

  /** A property accessor; only its accessibility matters to the report. */
  datatype Accessor = Accessor(isPublic: bool)

  /** A property as `GetProperties()` returns it: its name, its index
      parameters and its get accessor, absent for a write-only property. */
  datatype PropertyInfo = PropertyInfo(name: string, indexParameters: seq<Parameter>, getter: Option<Accessor>)

  /** An instance method of the type; `isDeclaredOnly` is false for one inherited from a base type. */
  datatype MethodInfo = MethodInfo(
    name: string,
    isPublic: bool,
    isSpecialName: bool,
    isDeclaredOnly: bool,
    parameters: seq<Parameter>)

  /** Everything the report reads from a `Type`. */
  datatype TypeInfo = TypeInfo(
    fullName: string,
    constructors: seq<ConstructorInfo>,
    properties: seq<PropertyInfo>,
    methods: seq<MethodInfo>)

  /** The one way the report can fail: `.IsPublic` on the null that `GetGetMethod()` returns. */
  datatype ReportError = NullReference

  const HeaderPrefix := "Member information for "
  const NonPublicConstructorPrefix := "Non-public constructor: "
  const PublicConstructorPrefix := "Public constructor: "
  const IndexedPropertyPrefix := "Indexed property "
  const NormalPropertyPrefix := "Normal property "
  const PublicGetterSuffix := ": Public getter."
  const MethodPrefix := "Public method "
  const NoParameter := "no parameter"

  // ---------------------------------------------------------------------
  // The LINQ operators the report is written with

  /** `Where`: the elements that pass `keep`, in their original order. */
  function Filter<T(!new)>(keep: T -> bool, xs: seq<T>): (r: seq<T>)
    ensures |r| <= |xs|
    ensures forall x :: x in r <==> x in xs && keep(x)
  {
    if xs == [] then []
    else if keep(xs[0]) then [xs[0]] + Filter(keep, xs[1..])
    else Filter(keep, xs[1..])
  }

  /** `Select`: one line per element, element by element. */
  function Select<T>(render: T -> string, xs: seq<T>): (r: seq<string>)
    ensures |r| == |xs|
    ensures forall i :: 0 <= i < |xs| ==> r[i] == render(xs[i])
  {
    if xs == [] then [] else [render(xs[0])] + Select(render, xs[1..])
  }

  /** `String.Join`: the parts separated by `sep`; the empty string for no parts. */
  function Join(sep: string, parts: seq<string>): (r: string)
    ensures parts == [] ==> r == ""
    ensures |parts| == 1 ==> r == parts[0]
    ensures parts != [] ==> parts[0] <= r
  {
    if |parts| == 0 then ""
    else if |parts| == 1 then parts[0]
    else parts[0] + sep + Join(sep, parts[1..])
  }

  /** Filtering distributes over concatenation: `Where` keeps the input order. */
  lemma {:induction false} FilterConcat<T(!new)>(keep: T -> bool, xs: seq<T>, ys: seq<T>)
    ensures Filter(keep, xs + ys) == Filter(keep, xs) + Filter(keep, ys)
  {
    if xs == [] {
      assert xs + ys == ys;
    } else {
      assert (xs + ys)[0] == xs[0];
      assert (xs + ys)[1..] == xs[1..] + ys;
      FilterConcat(keep, xs[1..], ys);
    }
  }

  /** A filter and its complement split a sequence between them. */
  lemma {:induction false} FilterComplement<T(!new)>(keep: T -> bool, drop: T -> bool, xs: seq<T>)
    requires forall x :: drop(x) == !keep(x)
    ensures |Filter(keep, xs)| + |Filter(drop, xs)| == |xs|
  {
    if xs != [] {
      FilterComplement(keep, drop, xs[1..]);
    }
  }

  /** Appending one more part extends the joined string at its end. */
  lemma {:induction false} JoinSnoc(sep: string, parts: seq<string>, last: string)
    requires parts != []
    ensures Join(sep, parts + [last]) == Join(sep, parts) + sep + last
  {
    if |parts| == 1 {
      assert parts + [last] == [parts[0], last];
    } else {
      assert (parts + [last])[1..] == parts[1..] + [last];
      JoinSnoc(sep, parts[1..], last);
    }
  }

  // ---------------------------------------------------------------------
  // paramterString

  function RenderParameter(p: Parameter): string
  {
    p.typeName + " " + p.name
  }

  /** `paramterString`: "no parameter" for an empty list, otherwise each
      parameter as "<type> <name>", separated by ", ". */
  function ParameterString(parameters: seq<Parameter>): (r: string)
    ensures parameters == [] ==> r == NoParameter
    ensures parameters != [] ==> RenderParameter(parameters[0]) <= r
    ensures |parameters| == 1 ==> r == RenderParameter(parameters[0])
  {
    if |parameters| > 0 then Join(", ", Select(RenderParameter, parameters)) else NoParameter
  }

  /** Parameters are rendered in declaration order: one more parameter adds
      ", <type> <name>" at the end. */
  lemma ParameterStringSnoc(parameters: seq<Parameter>, p: Parameter)
    requires parameters != []
    ensures ParameterString(parameters + [p]) == ParameterString(parameters) + ", " + RenderParameter(p)
  {
    assert Select(RenderParameter, parameters + [p]) == Select(RenderParameter, parameters) + [RenderParameter(p)];
    JoinSnoc(", ", Select(RenderParameter, parameters), RenderParameter(p));
  }

  // ---------------------------------------------------------------------
  // The reflection queries, over the descriptor

  predicate IsNonPublicConstructor(c: ConstructorInfo) { !c.isPublic }

  predicate IsPublicConstructor(c: ConstructorInfo) { c.isPublic }

  predicate IsIndexed(p: PropertyInfo) { |p.indexParameters| > 0 }

  predicate IsNormal(p: PropertyInfo) { |p.indexParameters| == 0 }

  /** `GetGetMethod()`: the get accessor if it is public, null otherwise. */
  function GetGetMethod(p: PropertyInfo): (r: Option<Accessor>)
    ensures r.Some? ==> r.value.isPublic
    ensures r.None? <==> p.getter.None? || !p.getter.value.isPublic
  {
    if p.getter.Some? && p.getter.value.isPublic then p.getter else None
  }

  predicate HasPublicGetter(p: PropertyInfo) { GetGetMethod(p).Some? }

  /** `GetMethods(Public | Instance | DeclaredOnly)` */
  predicate IsPublicDeclared(m: MethodInfo) { m.isPublic && m.isDeclaredOnly }

  predicate IsNotSpecialName(m: MethodInfo) { !m.isSpecialName }

  /** A method the report lists. */
  predicate IsReportedMethod(m: MethodInfo) { m.isPublic && m.isDeclaredOnly && !m.isSpecialName }

  /** `.Where(p => p.GetGetMethod().IsPublic)`: fails on the first property
      without a public getter; since `GetGetMethod` only ever returns a public
      accessor, it never drops a property. */
  function WherePublicGetter(ps: seq<PropertyInfo>): (r: Result<seq<PropertyInfo>, ReportError>)
    ensures r.Err? <==> exists p :: p in ps && !HasPublicGetter(p)
    ensures r.Ok? ==> r.value == ps
  {
    if ps == [] then Ok([])
    else match GetGetMethod(ps[0])
      case None => assert ps[0] in ps; Err(NullReference)
      case Some(getter) =>
        match WherePublicGetter(ps[1..])
        case Err(e) => Err(e)
        case Ok(rest) => Ok(if getter.isPublic then [ps[0]] + rest else rest)
  }

  // ---------------------------------------------------------------------
  // The lines

  function NonPublicConstructorLine(c: ConstructorInfo): string
  {
    NonPublicConstructorPrefix + ParameterString(c.parameters)
  }

  function PublicConstructorLine(c: ConstructorInfo): string
  {
    PublicConstructorPrefix + ParameterString(c.parameters)
  }

  function IndexedPropertyLine(p: PropertyInfo): string
  {
    IndexedPropertyPrefix + p.name + PublicGetterSuffix
  }

  function NormalPropertyLine(p: PropertyInfo): string
  {
    NormalPropertyPrefix + p.name + PublicGetterSuffix
  }

  function MethodLine(m: MethodInfo): string
  {
    MethodPrefix + m.name + ": " + ParameterString(m.parameters)
  }

  /** `GetInstanceMemberInformation`: the header, then non-public
      constructors, public constructors, indexed properties, normal
      properties and reported methods, each group in the order the
      descriptor lists them. */
  function Report(t: TypeInfo): (r: Result<seq<string>, ReportError>)
    ensures r.Err? <==> exists p :: p in t.properties && !HasPublicGetter(p)
    ensures r.Ok? ==> |r.value| >= 1 && r.value[0] == HeaderPrefix + t.fullName
  {
    var indexed := WherePublicGetter(Filter(IsIndexed, t.properties));
    var normal := WherePublicGetter(Filter(IsNormal, t.properties));
    if indexed.Err? then Err(indexed.error)
    else if normal.Err? then Err(normal.error)
    else Ok([HeaderPrefix + t.fullName]
            + Select(NonPublicConstructorLine, Filter(IsNonPublicConstructor, t.constructors))
            + Select(PublicConstructorLine, Filter(IsPublicConstructor, t.constructors))
            + Select(IndexedPropertyLine, indexed.value)
            + Select(NormalPropertyLine, normal.value)
            + Select(MethodLine, Filter(IsNotSpecialName, Filter(IsPublicDeclared, t.methods))))
  }
}

module MemberReportProperties {
  import opened MemberReport

  // ---------------------------------------------------------------------
  // Helpers about filtering and prefixes

  /** Two chained `Where`s keep what their conjunction keeps. */
  lemma {:induction false} FilterFilter<T(!new)>(first: T -> bool, second: T -> bool, both: T -> bool, xs: seq<T>)
    requires forall x :: both(x) == (first(x) && second(x))
    ensures Filter(second, Filter(first, xs)) == Filter(both, xs)
  {
    if xs != [] {
      FilterFilter(first, second, both, xs[1..]);
    }
  }

  lemma FilterNone<T(!new)>(keep: T -> bool, xs: seq<T>)
    requires forall x :: x in xs ==> !keep(x)
    ensures Filter(keep, xs) == []
  {
  }

  lemma {:induction false} FilterAll<T(!new)>(keep: T -> bool, xs: seq<T>)
    requires forall x :: x in xs ==> keep(x)
    ensures Filter(keep, xs) == xs
  {
    if xs != [] {
      FilterAll(keep, xs[1..]);
    }
  }

  lemma PrefixOfConcat(a: string, b: string)
    ensures a <= a + b
  {
    assert (a + b)[..|a|] == a;
  }

  lemma NotPrefixAt(a: string, b: string, k: nat)
    requires k < |a| && k < |b| && a[k] != b[k]
    ensures !(a <= b)
  {
  }

  predicate EndsWith(s: string, suffix: string)
  {
    |suffix| <= |s| && s[|s| - |suffix|..] == suffix
  }

  // ---------------------------------------------------------------------
  // Report groups

  /** The group of a report line, told by its prefix alone: 1 to 5 for
      non-public constructors, public constructors, indexed properties,
      normal properties and methods; 0 for anything else (the header). */
  function Section(line: string): nat
  {
    if NonPublicConstructorPrefix <= line then 1
    else if PublicConstructorPrefix <= line then 2
    else if IndexedPropertyPrefix <= line then 3
    else if NormalPropertyPrefix <= line then 4
    else if MethodPrefix <= line then 5
    else 0
  }

  /** No two of the six line prefixes can be confused, whatever follows them. */
  lemma SectionsOfPrefixes(rest: string)
    ensures Section(HeaderPrefix + rest) == 0
    ensures Section(NonPublicConstructorPrefix + rest) == 1
    ensures Section(PublicConstructorPrefix + rest) == 2
    ensures Section(IndexedPropertyPrefix + rest) == 3
    ensures Section(NormalPropertyPrefix + rest) == 4
    ensures Section(MethodPrefix + rest) == 5
  {
    var header := HeaderPrefix + rest;
    NotPrefixAt(NonPublicConstructorPrefix, header, 0);
    NotPrefixAt(PublicConstructorPrefix, header, 0);
    NotPrefixAt(IndexedPropertyPrefix, header, 0);
    NotPrefixAt(NormalPropertyPrefix, header, 0);
    NotPrefixAt(MethodPrefix, header, 0);

    PrefixOfConcat(NonPublicConstructorPrefix, rest);

    var publicCtor := PublicConstructorPrefix + rest;
    NotPrefixAt(NonPublicConstructorPrefix, publicCtor, 0);
    PrefixOfConcat(PublicConstructorPrefix, rest);

    var indexed := IndexedPropertyPrefix + rest;
    NotPrefixAt(NonPublicConstructorPrefix, indexed, 0);
    NotPrefixAt(PublicConstructorPrefix, indexed, 0);
    PrefixOfConcat(IndexedPropertyPrefix, rest);

    var normal := NormalPropertyPrefix + rest;
    NotPrefixAt(NonPublicConstructorPrefix, normal, 2);
    NotPrefixAt(PublicConstructorPrefix, normal, 0);
    NotPrefixAt(IndexedPropertyPrefix, normal, 0);
    PrefixOfConcat(NormalPropertyPrefix, rest);

    var methodLine := MethodPrefix + rest;
    NotPrefixAt(NonPublicConstructorPrefix, methodLine, 0);
    NotPrefixAt(PublicConstructorPrefix, methodLine, 7);
    NotPrefixAt(IndexedPropertyPrefix, methodLine, 0);
    NotPrefixAt(NormalPropertyPrefix, methodLine, 0);
    PrefixOfConcat(MethodPrefix, rest);
  }

  /** Every line lies in groups lo..hi, and the groups never decrease. */
  ghost predicate GroupsOrdered(lines: seq<string>, lo: nat, hi: nat)
  {
    && (forall i :: 0 <= i < |lines| ==> lo <= Section(lines[i]) <= hi)
    && (forall i, j :: 0 <= i < j < |lines| ==> Section(lines[i]) <= Section(lines[j]))
  }

  lemma GroupsOrderedConcat(a: seq<string>, b: seq<string>, lo: nat, mid1: nat, mid2: nat, hi: nat)
    requires GroupsOrdered(a, lo, mid1) && GroupsOrdered(b, mid2, hi)
    requires lo <= mid1 <= mid2 <= hi
    ensures GroupsOrdered(a + b, lo, hi)
  {
    forall i | 0 <= i < |a + b|
      ensures lo <= Section((a + b)[i]) <= hi
    {
      if i >= |a| {
        assert (a + b)[i] == b[i - |a|];
      }
    }
    forall i, j | 0 <= i < j < |a + b|
      ensures Section((a + b)[i]) <= Section((a + b)[j])
    {
      if j < |a| {
      } else if i >= |a| {
        assert (a + b)[i] == b[i - |a|] && (a + b)[j] == b[j - |a|];
      } else {
        assert Section(a[i]) <= mid1 && mid2 <= Section(b[j - |a|]);
      }
    }
  }

  lemma NonPublicConstructorLineGroup(c: ConstructorInfo)
    ensures Section(NonPublicConstructorLine(c)) == 1
  {
    var rest := ParameterString(c.parameters);
    assert NonPublicConstructorLine(c) == NonPublicConstructorPrefix + rest;
    SectionsOfPrefixes(rest);
  }

  lemma NonPublicConstructorGroup(cs: seq<ConstructorInfo>)
    ensures GroupsOrdered(Select(NonPublicConstructorLine, cs), 1, 1)
  {
    var lines := Select(NonPublicConstructorLine, cs);
    forall i | 0 <= i < |lines| ensures Section(lines[i]) == 1 {
      NonPublicConstructorLineGroup(cs[i]);
    }
  }

  lemma PublicConstructorLineGroup(c: ConstructorInfo)
    ensures Section(PublicConstructorLine(c)) == 2
  {
    var rest := ParameterString(c.parameters);
    assert PublicConstructorLine(c) == PublicConstructorPrefix + rest;
    SectionsOfPrefixes(rest);
  }

  lemma PublicConstructorGroup(cs: seq<ConstructorInfo>)
    ensures GroupsOrdered(Select(PublicConstructorLine, cs), 2, 2)
  {
    var lines := Select(PublicConstructorLine, cs);
    forall i | 0 <= i < |lines| ensures Section(lines[i]) == 2 {
      PublicConstructorLineGroup(cs[i]);
    }
  }

  lemma IndexedPropertyLineGroup(p: PropertyInfo)
    ensures Section(IndexedPropertyLine(p)) == 3
  {
    var rest := p.name + PublicGetterSuffix;
    assert IndexedPropertyLine(p) == IndexedPropertyPrefix + rest;
    SectionsOfPrefixes(rest);
  }

  lemma IndexedPropertyGroup(ps: seq<PropertyInfo>)
    ensures GroupsOrdered(Select(IndexedPropertyLine, ps), 3, 3)
  {
    var lines := Select(IndexedPropertyLine, ps);
    forall i | 0 <= i < |lines| ensures Section(lines[i]) == 3 {
      IndexedPropertyLineGroup(ps[i]);
    }
  }

  lemma NormalPropertyLineGroup(p: PropertyInfo)
    ensures Section(NormalPropertyLine(p)) == 4
  {
    var rest := p.name + PublicGetterSuffix;
    assert NormalPropertyLine(p) == NormalPropertyPrefix + rest;
    SectionsOfPrefixes(rest);
  }

  lemma NormalPropertyGroup(ps: seq<PropertyInfo>)
    ensures GroupsOrdered(Select(NormalPropertyLine, ps), 4, 4)
  {
    var lines := Select(NormalPropertyLine, ps);
    forall i | 0 <= i < |lines| ensures Section(lines[i]) == 4 {
      NormalPropertyLineGroup(ps[i]);
    }
  }

  lemma MethodLineGroup(m: MethodInfo)
    ensures Section(MethodLine(m)) == 5
  {
    var rest := m.name + ": " + ParameterString(m.parameters);
    assert MethodLine(m) == MethodPrefix + rest;
    SectionsOfPrefixes(rest);
  }

  lemma MethodGroup(ms: seq<MethodInfo>)
    ensures GroupsOrdered(Select(MethodLine, ms), 5, 5)
  {
    var lines := Select(MethodLine, ms);
    forall i | 0 <= i < |lines| ensures Section(lines[i]) == 5 {
      MethodLineGroup(ms[i]);
    }
  }

  /** On success the report is the concatenation of its six parts. */
  lemma ReportLines(t: TypeInfo)
    requires Report(t).Ok?
    ensures Report(t).value ==
      [HeaderPrefix + t.fullName]
      + Select(NonPublicConstructorLine, Filter(IsNonPublicConstructor, t.constructors))
      + Select(PublicConstructorLine, Filter(IsPublicConstructor, t.constructors))
      + Select(IndexedPropertyLine, Filter(IsIndexed, t.properties))
      + Select(NormalPropertyLine, Filter(IsNormal, t.properties))
      + Select(MethodLine, Filter(IsNotSpecialName, Filter(IsPublicDeclared, t.methods)))
  {
  }

  /** The test "this line belongs to group k". */
  function InSection(k: nat): string -> bool
  {
    line => Section(line) == k
  }

  /** Picking group k out of lines that all belong to group j keeps all of
      them when j == k and none otherwise. */
  lemma FilterGroup(g: seq<string>, j: nat, k: nat)
    requires GroupsOrdered(g, j, j)
    ensures Filter(InSection(k), g) == if j == k then g else []
  {
    if j == k {
      FilterAll(InSection(k), g);
    } else {
      FilterNone(InSection(k), g);
    }
  }

  lemma NonPublicConstructorSection(cs: seq<ConstructorInfo>, k: nat)
    ensures Filter(InSection(k), Select(NonPublicConstructorLine, cs))
         == if k == 1 then Select(NonPublicConstructorLine, cs) else []
  {
    NonPublicConstructorGroup(cs);
    FilterGroup(Select(NonPublicConstructorLine, cs), 1, k);
  }

  lemma PublicConstructorSection(cs: seq<ConstructorInfo>, k: nat)
    ensures Filter(InSection(k), Select(PublicConstructorLine, cs))
         == if k == 2 then Select(PublicConstructorLine, cs) else []
  {
    PublicConstructorGroup(cs);
    FilterGroup(Select(PublicConstructorLine, cs), 2, k);
  }

  lemma IndexedPropertySection(ps: seq<PropertyInfo>, k: nat)
    ensures Filter(InSection(k), Select(IndexedPropertyLine, ps))
         == if k == 3 then Select(IndexedPropertyLine, ps) else []
  {
    IndexedPropertyGroup(ps);
    FilterGroup(Select(IndexedPropertyLine, ps), 3, k);
  }

  lemma NormalPropertySection(ps: seq<PropertyInfo>, k: nat)
    ensures Filter(InSection(k), Select(NormalPropertyLine, ps))
         == if k == 4 then Select(NormalPropertyLine, ps) else []
  {
    NormalPropertyGroup(ps);
    FilterGroup(Select(NormalPropertyLine, ps), 4, k);
  }

  lemma MethodSection(ms: seq<MethodInfo>, k: nat)
    ensures Filter(InSection(k), Select(MethodLine, ms))
         == if k == 5 then Select(MethodLine, ms) else []
  {
    MethodGroup(ms);
    FilterGroup(Select(MethodLine, ms), 5, k);
  }

  lemma HeaderSection(fullName: string, k: nat)
    requires 1 <= k
    ensures Filter(InSection(k), [HeaderPrefix + fullName]) == []
  {
    SectionsOfPrefixes(fullName);
  }

  /** Filtering a header and five groups filters each part on its own. */
  lemma FilterParts(keep: string -> bool, header: string, g1: seq<string>, g2: seq<string>, g3: seq<string>, g4: seq<string>, g5: seq<string>)
    ensures Filter(keep, [header] + g1 + g2 + g3 + g4 + g5)
         == Filter(keep, [header]) + Filter(keep, g1) + Filter(keep, g2) + Filter(keep, g3) + Filter(keep, g4) + Filter(keep, g5)
  {
    FilterConcat(keep, [header] + g1 + g2 + g3 + g4, g5);
    FilterConcat(keep, [header] + g1 + g2 + g3, g4);
    FilterConcat(keep, [header] + g1 + g2, g3);
    FilterConcat(keep, [header] + g1, g2);
    FilterConcat(keep, [header], g1);
  }

  /** The lines of group k of a successful report. */
  lemma ReportSection(t: TypeInfo, k: nat)
    requires Report(t).Ok? && 1 <= k <= 5
    ensures Filter(InSection(k), Report(t).value) ==
      if k == 1 then Select(NonPublicConstructorLine, Filter(IsNonPublicConstructor, t.constructors))
      else if k == 2 then Select(PublicConstructorLine, Filter(IsPublicConstructor, t.constructors))
      else if k == 3 then Select(IndexedPropertyLine, Filter(IsIndexed, t.properties))
      else if k == 4 then Select(NormalPropertyLine, Filter(IsNormal, t.properties))
      else Select(MethodLine, Filter(IsNotSpecialName, Filter(IsPublicDeclared, t.methods)))
  {
    var nonPublic := Filter(IsNonPublicConstructor, t.constructors);
    var public := Filter(IsPublicConstructor, t.constructors);
    var indexed := Filter(IsIndexed, t.properties);
    var normal := Filter(IsNormal, t.properties);
    var reported := Filter(IsNotSpecialName, Filter(IsPublicDeclared, t.methods));
    ReportLines(t);
    FilterParts(InSection(k), HeaderPrefix + t.fullName, Select(NonPublicConstructorLine, nonPublic),
      Select(PublicConstructorLine, public), Select(IndexedPropertyLine, indexed),
      Select(NormalPropertyLine, normal), Select(MethodLine, reported));
    HeaderSection(t.fullName, k);
    NonPublicConstructorSection(nonPublic, k);
    PublicConstructorSection(public, k);
    IndexedPropertySection(indexed, k);
    NormalPropertySection(normal, k);
    MethodSection(reported, k);
  }

  /** Read off by their prefixes, the report's lines of each group are
      exactly that group's members rendered in the order the descriptor
      lists them: nothing is sorted, dropped or repeated. */
  lemma ReportSections(t: TypeInfo)
    requires Report(t).Ok?
    ensures Filter(InSection(1), Report(t).value)
         == Select(NonPublicConstructorLine, Filter(IsNonPublicConstructor, t.constructors))
    ensures Filter(InSection(2), Report(t).value)
         == Select(PublicConstructorLine, Filter(IsPublicConstructor, t.constructors))
    ensures Filter(InSection(3), Report(t).value) == Select(IndexedPropertyLine, Filter(IsIndexed, t.properties))
    ensures Filter(InSection(4), Report(t).value) == Select(NormalPropertyLine, Filter(IsNormal, t.properties))
    ensures Filter(InSection(5), Report(t).value)
         == Select(MethodLine, Filter(IsReportedMethod, t.methods))
  {
    ReportSection(t, 1);
    ReportSection(t, 2);
    ReportSection(t, 3);
    ReportSection(t, 4);
    ReportSection(t, 5);
    FilterFilter(IsPublicDeclared, IsNotSpecialName, IsReportedMethod, t.methods);
  }

  lemma ConcatAssoc<T>(head: T, g1: seq<T>, g2: seq<T>, g3: seq<T>, g4: seq<T>, g5: seq<T>)
    ensures [head] + g1 + g2 + g3 + g4 + g5 == [head] + (g1 + g2 + g3 + g4 + g5)
  {
  }

  lemma ConsTail<T>(head: T, tail: seq<T>)
    ensures ([head] + tail)[1..] == tail
  {
  }

  /** A header followed by five groups of lines, group k all in section k. */
  lemma FiveGroupsOrdered(header: string, g1: seq<string>, g2: seq<string>, g3: seq<string>, g4: seq<string>, g5: seq<string>)
    requires Section(header) == 0
    requires GroupsOrdered(g1, 1, 1) && GroupsOrdered(g2, 2, 2) && GroupsOrdered(g3, 3, 3)
    requires GroupsOrdered(g4, 4, 4) && GroupsOrdered(g5, 5, 5)
    ensures GroupsOrdered([header] + (g1 + g2 + g3 + g4 + g5), 0, 5)
    ensures GroupsOrdered(g1 + g2 + g3 + g4 + g5, 1, 5)
  {
    GroupsOrderedConcat(g1, g2, 1, 1, 2, 2);
    GroupsOrderedConcat(g1 + g2, g3, 1, 2, 3, 3);
    GroupsOrderedConcat(g1 + g2 + g3, g4, 1, 3, 4, 4);
    GroupsOrderedConcat(g1 + g2 + g3 + g4, g5, 1, 4, 5, 5);
    assert GroupsOrdered([header], 0, 0);
    GroupsOrderedConcat([header], g1 + g2 + g3 + g4 + g5, 0, 0, 1, 5);
  }

  /** The report's groups come in the fixed order header, non-public
      constructors, public constructors, indexed properties, normal
      properties, methods. */
  lemma ReportGroupsOrdered(t: TypeInfo)
    requires Report(t).Ok?
    ensures Section(Report(t).value[0]) == 0
    ensures GroupsOrdered(Report(t).value[1..], 1, 5)
    ensures GroupsOrdered(Report(t).value, 0, 5)
  {
    var header := HeaderPrefix + t.fullName;
    var ctors, props := t.constructors, t.properties;
    var reported := Filter(IsNotSpecialName, Filter(IsPublicDeclared, t.methods));
    var g1 := Select(NonPublicConstructorLine, Filter(IsNonPublicConstructor, ctors));
    var g2 := Select(PublicConstructorLine, Filter(IsPublicConstructor, ctors));
    var g3 := Select(IndexedPropertyLine, Filter(IsIndexed, props));
    var g4 := Select(NormalPropertyLine, Filter(IsNormal, props));
    var g5 := Select(MethodLine, reported);
    ReportLines(t);
    var lines := Report(t).value;
    var rest := g1 + g2 + g3 + g4 + g5;
    ConcatAssoc(header, g1, g2, g3, g4, g5);
    assert lines[1..] == rest by { ConsTail(header, rest); }
    SectionsOfPrefixes(t.fullName);
    NonPublicConstructorGroup(Filter(IsNonPublicConstructor, ctors));
    PublicConstructorGroup(Filter(IsPublicConstructor, ctors));
    IndexedPropertyGroup(Filter(IsIndexed, props));
    NormalPropertyGroup(Filter(IsNormal, props));
    MethodGroup(reported);
    FiveGroupsOrdered(header, g1, g2, g3, g4, g5);
  }

  // ---------------------------------------------------------------------
  // Size of the report, and what it leaves out

  /** One header line, one line per constructor and per property, and one
      per public, declared, non-special method. */
  lemma ReportLength(t: TypeInfo)
    requires Report(t).Ok?
    ensures |Report(t).value| == 1 + |t.constructors| + |t.properties| + |Filter(IsReportedMethod, t.methods)|
  {
    ReportLines(t);
    FilterComplement(IsPublicConstructor, IsNonPublicConstructor, t.constructors);
    FilterComplement(IsIndexed, IsNormal, t.properties);
    FilterFilter(IsPublicDeclared, IsNotSpecialName, IsReportedMethod, t.methods);
  }

  /** Adding a method the report does not list (special-named, non-public or
      inherited) anywhere in the descriptor leaves the report unchanged. */
  lemma UnreportedMethodInvisible(t: TypeInfo, i: nat, m: MethodInfo)
    requires i <= |t.methods|
    requires !IsReportedMethod(m)
    ensures Report(t.(methods := t.methods[..i] + [m] + t.methods[i..])) == Report(t)
  {
    var before, after := t.methods[..i], t.methods[i..];
    assert before + after == t.methods;
    UnreportedMethodDropped(before, m, after);
    var u := t.(methods := before + [m] + after);
    SameReportedMethods(t, u);
    assert Report(u) == Report(t);
  }

  lemma UnreportedMethodDropped(before: seq<MethodInfo>, m: MethodInfo, after: seq<MethodInfo>)
    requires !IsReportedMethod(m)
    ensures Filter(IsNotSpecialName, Filter(IsPublicDeclared, before + [m] + after))
         == Filter(IsNotSpecialName, Filter(IsPublicDeclared, before + after))
  {
    FilterFilter(IsPublicDeclared, IsNotSpecialName, IsReportedMethod, before + [m] + after);
    FilterFilter(IsPublicDeclared, IsNotSpecialName, IsReportedMethod, before + after);
    FilterSkips(IsReportedMethod, before, m, after);
  }

  /** An element the filter rejects can be dropped before filtering. */
  lemma FilterSkips<T(!new)>(keep: T -> bool, before: seq<T>, x: T, after: seq<T>)
    requires !keep(x)
    ensures Filter(keep, before + [x] + after) == Filter(keep, before + after)
  {
    FilterConcat(keep, before + [x], after);
    FilterConcat(keep, before, [x]);
    FilterConcat(keep, before, after);
    assert Filter(keep, [x]) == [];
    assert Filter(keep, before) + [] == Filter(keep, before);
  }

  /** The report reads the methods only through the ones it lists. */
  lemma SameReportedMethods(t: TypeInfo, u: TypeInfo)
    requires t.fullName == u.fullName && t.constructors == u.constructors && t.properties == u.properties
    requires Filter(IsNotSpecialName, Filter(IsPublicDeclared, t.methods))
          == Filter(IsNotSpecialName, Filter(IsPublicDeclared, u.methods))
    ensures Report(t) == Report(u)
  {
  }

  // ---------------------------------------------------------------------
  // Which line each member gets

  lemma SelectMember<T>(render: T -> string, xs: seq<T>, x: T)
    requires x in xs
    ensures render(x) in Select(render, xs)
  {
    var i :| 0 <= i < |xs| && xs[i] == x;
    assert Select(render, xs)[i] == render(x);
  }

  lemma SelectSource<T>(render: T -> string, xs: seq<T>, line: string) returns (x: T)
    requires line in Select(render, xs)
    ensures x in xs && render(x) == line
  {
    var i :| 0 <= i < |Select(render, xs)| && Select(render, xs)[i] == line;
    x := xs[i];
  }

  lemma InGroup(g: seq<string>, k: nat, line: string)
    requires GroupsOrdered(g, k, k) && line in g
    ensures Section(line) == k
  {
    var i :| 0 <= i < |g| && g[i] == line;
  }

  /** A constructor's line, whichever group it falls in: the report picks
      the line format by the group, this picks it by the constructor. */
  function ConstructorLine(c: ConstructorInfo): string
  {
    if c.isPublic then PublicConstructorLine(c) else NonPublicConstructorLine(c)
  }

  /** A property's line, whichever group it falls in. */
  function PropertyLine(p: PropertyInfo): string
  {
    if IsIndexed(p) then IndexedPropertyLine(p) else NormalPropertyLine(p)
  }

  /** Every property line ends in ": Public getter." and starts with
      "Indexed property " exactly when the property has index parameters. */
  lemma PropertyLineShape(p: PropertyInfo)
    ensures EndsWith(PropertyLine(p), PublicGetterSuffix)
    ensures IndexedPropertyPrefix <= PropertyLine(p) <==> |p.indexParameters| > 0
    ensures NormalPropertyPrefix <= PropertyLine(p) <==> |p.indexParameters| == 0
  {
    var line := PropertyLine(p);
    var prefix := if |p.indexParameters| > 0 then IndexedPropertyPrefix else NormalPropertyPrefix;
    var rest := p.name + PublicGetterSuffix;
    assert line == prefix + p.name + PublicGetterSuffix;
    assert line == prefix + rest;
    assert line[|line| - |PublicGetterSuffix|..] == PublicGetterSuffix;
    PrefixOfConcat(prefix, rest);
    NotPrefixAt(IndexedPropertyPrefix, NormalPropertyPrefix + rest, 0);
    NotPrefixAt(NormalPropertyPrefix, IndexedPropertyPrefix + rest, 0);
  }

  /** Each constructor of the descriptor gets its line, and every constructor
      line of the report comes from a constructor of the matching accessibility. */
  lemma ReportedConstructors(t: TypeInfo)
    requires Report(t).Ok?
    ensures forall c :: c in t.constructors ==> ConstructorLine(c) in Report(t).value
    ensures forall line :: line in Report(t).value && Section(line) == 1 ==>
      exists c :: c in t.constructors && !c.isPublic && line == ConstructorLine(c)
    ensures forall line :: line in Report(t).value && Section(line) == 2 ==>
      exists c :: c in t.constructors && c.isPublic && line == ConstructorLine(c)
  {
    ReportLines(t);
    var lines := Report(t).value;
    var nonPublic := Filter(IsNonPublicConstructor, t.constructors);
    var public := Filter(IsPublicConstructor, t.constructors);
    forall c | c in t.constructors
      ensures ConstructorLine(c) in lines
    {
      if c.isPublic {
        SelectMember(PublicConstructorLine, public, c);
      } else {
        SelectMember(NonPublicConstructorLine, nonPublic, c);
      }
    }
    SectionsOfPrefixes(t.fullName);
    NonPublicConstructorGroup(nonPublic);
    PublicConstructorGroup(public);
    IndexedPropertyGroup(Filter(IsIndexed, t.properties));
    NormalPropertyGroup(Filter(IsNormal, t.properties));
    MethodGroup(Filter(IsNotSpecialName, Filter(IsPublicDeclared, t.methods)));
    forall line | line in lines && (Section(line) == 1 || Section(line) == 2)
      ensures exists c :: c in t.constructors && (c.isPublic <==> Section(line) == 2) && line == ConstructorLine(c)
    {
      if line in Select(NonPublicConstructorLine, nonPublic) {
        var c := SelectSource(NonPublicConstructorLine, nonPublic, line);
        InGroup(Select(NonPublicConstructorLine, nonPublic), 1, line);
      } else if line in Select(PublicConstructorLine, public) {
        var c := SelectSource(PublicConstructorLine, public, line);
        InGroup(Select(PublicConstructorLine, public), 2, line);
      }
    }
  }

  /** Each property of the descriptor gets its line, and every property line
      of the report (group 3 or 4) comes from a property of the descriptor. */
  lemma ReportedProperties(t: TypeInfo)
    requires Report(t).Ok?
    ensures forall p :: p in t.properties ==> PropertyLine(p) in Report(t).value
    ensures forall line :: line in Report(t).value && (Section(line) == 3 || Section(line) == 4) ==>
      exists p :: p in t.properties && line == PropertyLine(p)
  {
    ReportLines(t);
    var lines := Report(t).value;
    var indexed := Filter(IsIndexed, t.properties);
    var normal := Filter(IsNormal, t.properties);
    forall p | p in t.properties
      ensures PropertyLine(p) in lines
    {
      if IsIndexed(p) {
        SelectMember(IndexedPropertyLine, indexed, p);
      } else {
        SelectMember(NormalPropertyLine, normal, p);
      }
    }
    SectionsOfPrefixes(t.fullName);
    NonPublicConstructorGroup(Filter(IsNonPublicConstructor, t.constructors));
    PublicConstructorGroup(Filter(IsPublicConstructor, t.constructors));
    IndexedPropertyGroup(indexed);
    NormalPropertyGroup(normal);
    MethodGroup(Filter(IsNotSpecialName, Filter(IsPublicDeclared, t.methods)));
    forall line | line in lines && (Section(line) == 3 || Section(line) == 4)
      ensures exists p :: p in t.properties && line == PropertyLine(p)
    {
      if line in Select(IndexedPropertyLine, indexed) {
        var p := SelectSource(IndexedPropertyLine, indexed, line);
      } else if line in Select(NormalPropertyLine, normal) {
        var p := SelectSource(NormalPropertyLine, normal, line);
      }
    }
  }

  /** Each public, declared, non-special method gets its line, and every
      method line of the report comes from such a method: a special-named,
      non-public or inherited method never produces one. */
  lemma ReportedMethods(t: TypeInfo)
    requires Report(t).Ok?
    ensures forall m :: m in t.methods && IsReportedMethod(m) ==> MethodLine(m) in Report(t).value
    ensures forall line :: line in Report(t).value && Section(line) == 5 ==>
      exists m :: m in t.methods && IsReportedMethod(m) && line == MethodLine(m)
  {
    ReportLines(t);
    var lines := Report(t).value;
    var reported := Filter(IsNotSpecialName, Filter(IsPublicDeclared, t.methods));
    forall m | m in t.methods && IsReportedMethod(m)
      ensures MethodLine(m) in lines
    {
      SelectMember(MethodLine, reported, m);
    }
    SectionsOfPrefixes(t.fullName);
    NonPublicConstructorGroup(Filter(IsNonPublicConstructor, t.constructors));
    PublicConstructorGroup(Filter(IsPublicConstructor, t.constructors));
    IndexedPropertyGroup(Filter(IsIndexed, t.properties));
    NormalPropertyGroup(Filter(IsNormal, t.properties));
    MethodGroup(reported);
    forall line | line in lines && Section(line) == 5
      ensures exists m :: m in t.methods && IsReportedMethod(m) && line == MethodLine(m)
    {
      if line in Select(MethodLine, reported) {
        var m := SelectSource(MethodLine, reported, line);
      }
    }
  }
}

/** The two types the exercise's test inspects, as descriptors, and the
    reports it expects for them. */
module MemberReportScenarios {
  import opened Wrappers
  import opened MemberReport
  import opened MemberReportProperties

  /** The public methods every class inherits from `object`. */
  const InheritedFromObject: seq<MethodInfo> := [
    MethodInfo("ToString", true, false, false, []),
    MethodInfo("Equals", true, false, false, [Parameter("Object", "obj")]),
    MethodInfo("GetHashCode", true, false, false, []),
    MethodInfo("GetType", true, false, false, [])
  ]

  const ForTestCtorPropertyName := "CSharpViaTest.OtherBCLs.HandleReflections.GetMemberInformation+ForTestCtorProperty"
  const ForTestMethodName := "CSharpViaTest.OtherBCLs.HandleReflections.GetMemberInformation+ForTestMethod"

  /** `ForTestCtorProperty`: a public constructor `(string name)`, a private
      one `(string name, string optional)`, a get-only `Name` and an indexer
      `this[int index]`, whose getters appear as special-named methods. */
  const ForTestCtorProperty := TypeInfo(
    ForTestCtorPropertyName,
    [ ConstructorInfo(true, [Parameter("String", "name")]),
      ConstructorInfo(false, [Parameter("String", "name"), Parameter("String", "optional")]) ],
    [ PropertyInfo("Name", [], Some(Accessor(true))),
      PropertyInfo("Item", [Parameter("Int32", "index")], Some(Accessor(true))) ],
    [ MethodInfo("get_Name", true, true, true, []),
      MethodInfo("get_Item", true, true, true, [Parameter("Int32", "index")]) ]
    + InheritedFromObject)

  /** `ForTestMethod`: only the default constructor and `CalculateSomething(int @base, string name)`. */
  const ForTestMethod := TypeInfo(
    ForTestMethodName,
    [ ConstructorInfo(true, []) ],
    [],
    [ MethodInfo("CalculateSomething", true, false, true, [Parameter("Int32", "base"), Parameter("String", "name")]) ]
    + InheritedFromObject)

  // The expected lines below are written as the pieces the report glues
  // together (prefix, name or parameter list, suffix); each piece is the
  // literal text of the exercise's test.

  lemma ForTestCtorPropertyFilters()
    ensures Filter(IsNonPublicConstructor, ForTestCtorProperty.constructors) == [ForTestCtorProperty.constructors[1]]
    ensures Filter(IsPublicConstructor, ForTestCtorProperty.constructors) == [ForTestCtorProperty.constructors[0]]
    ensures Filter(IsIndexed, ForTestCtorProperty.properties) == [ForTestCtorProperty.properties[1]]
    ensures Filter(IsNormal, ForTestCtorProperty.properties) == [ForTestCtorProperty.properties[0]]
    ensures Filter(IsNotSpecialName, Filter(IsPublicDeclared, ForTestCtorProperty.methods)) == []
  {
    var t := ForTestCtorProperty;
    assert t.constructors[1..] == [t.constructors[1]];
    assert t.properties[1..] == [t.properties[1]];
    FilterNone(IsReportedMethod, t.methods);
    FilterFilter(IsPublicDeclared, IsNotSpecialName, IsReportedMethod, t.methods);
  }

  /** Two parameters are rendered as "<type> <name>, <type> <name>". */
  lemma ParameterStringPair(a: Parameter, b: Parameter)
    ensures ParameterString([a, b]) == RenderParameter(a) + ", " + RenderParameter(b)
  {
    ParameterStringSnoc([a], b);
    assert [a] + [b] == [a, b];
  }

  lemma ForTestCtorPropertyLines()
    ensures NonPublicConstructorLine(ForTestCtorProperty.constructors[1])
         == "Non-public constructor: " + ("String name" + ", " + "String optional")
    ensures PublicConstructorLine(ForTestCtorProperty.constructors[0]) == "Public constructor: " + "String name"
    ensures IndexedPropertyLine(ForTestCtorProperty.properties[1]) == "Indexed property " + "Item" + ": Public getter."
    ensures NormalPropertyLine(ForTestCtorProperty.properties[0]) == "Normal property " + "Name" + ": Public getter."
  {
    var name, optional := Parameter("String", "name"), Parameter("String", "optional");
    ParameterStringPair(name, optional);
    assert RenderParameter(name) == "String name";
    assert RenderParameter(optional) == "String optional";
  }

  /** The report the exercise's test expects for `ForTestCtorProperty`:
      the header, the private constructor before the public one, the
      indexer before the normal property, and no method line, since the
      only declared methods are the special-named getters. */
  lemma ForTestCtorPropertyReport()
    ensures Report(ForTestCtorProperty) == Ok([
      "Member information for " + ForTestCtorPropertyName,
      "Non-public constructor: " + ("String name" + ", " + "String optional"),
      "Public constructor: " + "String name",
      "Indexed property " + "Item" + ": Public getter.",
      "Normal property " + "Name" + ": Public getter."
    ])
  {
    var t := ForTestCtorProperty;
    ForTestCtorPropertyFilters();
    ForTestCtorPropertyLines();
    ReportLines(t);
    assert Report(t).value == [HeaderPrefix + t.fullName, NonPublicConstructorLine(t.constructors[1]),
                               PublicConstructorLine(t.constructors[0]),
                               IndexedPropertyLine(t.properties[1]), NormalPropertyLine(t.properties[0])];
  }

  lemma ForTestMethodFilters()
    ensures Filter(IsNonPublicConstructor, ForTestMethod.constructors) == []
    ensures Filter(IsPublicConstructor, ForTestMethod.constructors) == ForTestMethod.constructors
    ensures Filter(IsNotSpecialName, Filter(IsPublicDeclared, ForTestMethod.methods)) == [ForTestMethod.methods[0]]
  {
    var t := ForTestMethod;
    var calculate := t.methods[0];
    assert t.methods == [calculate] + InheritedFromObject;
    FilterFilter(IsPublicDeclared, IsNotSpecialName, IsReportedMethod, t.methods);
    FilterNone(IsReportedMethod, InheritedFromObject);
    FilterConcat(IsReportedMethod, [calculate], InheritedFromObject);
  }

  lemma ForTestMethodLines()
    ensures PublicConstructorLine(ForTestMethod.constructors[0]) == "Public constructor: " + "no parameter"
    ensures MethodLine(ForTestMethod.methods[0])
         == "Public method " + "CalculateSomething" + ": " + ("Int32 base" + ", " + "String name")
  {
    var base, name := Parameter("Int32", "base"), Parameter("String", "name");
    ParameterStringPair(base, name);
    assert RenderParameter(base) == "Int32 base";
    assert RenderParameter(name) == "String name";
  }

  /** The report the exercise's test expects for `ForTestMethod`: the
      parameterless constructor reads "no parameter", and of all the public
      methods only the one the type declares itself is listed. */
  lemma ForTestMethodReport()
    ensures Report(ForTestMethod) == Ok([
      "Member information for " + ForTestMethodName,
      "Public constructor: " + "no parameter",
      "Public method " + "CalculateSomething" + ": " + ("Int32 base" + ", " + "String name")
    ])
  {
    var t := ForTestMethod;
    ForTestMethodFilters();
    ForTestMethodLines();
    ReportLines(t);
    assert Report(t).value == [HeaderPrefix + t.fullName, PublicConstructorLine(t.constructors[0]), MethodLine(t.methods[0])];
  }

  /** A type whose members are listed out of the order a sort would give:
      a two-parameter public constructor before a one-parameter one, and a
      property "b" before a property "a". */
  const UnsortedType := TypeInfo(
    "T",
    [ ConstructorInfo(true, [Parameter("A", "a"), Parameter("B", "b")]),
      ConstructorInfo(true, [Parameter("C", "c")]) ],
    [ PropertyInfo("b", [], Some(Accessor(true))),
      PropertyInfo("a", [], Some(Accessor(true))) ],
    [])

  lemma UnsortedTypeFilters()
    ensures Filter(IsNonPublicConstructor, UnsortedType.constructors) == []
    ensures Filter(IsPublicConstructor, UnsortedType.constructors) == UnsortedType.constructors
    ensures Filter(IsIndexed, UnsortedType.properties) == []
    ensures Filter(IsNormal, UnsortedType.properties) == UnsortedType.properties
  {
  }

  lemma UnsortedTypeLines()
    ensures PublicConstructorLine(UnsortedType.constructors[0]) == "Public constructor: " + ("A a" + ", " + "B b")
    ensures PublicConstructorLine(UnsortedType.constructors[1]) == "Public constructor: " + "C c"
    ensures NormalPropertyLine(UnsortedType.properties[0]) == "Normal property " + "b" + ": Public getter."
    ensures NormalPropertyLine(UnsortedType.properties[1]) == "Normal property " + "a" + ": Public getter."
  {
    ParameterStringPair(Parameter("A", "a"), Parameter("B", "b"));
    assert RenderParameter(Parameter("A", "a")) == "A a";
    assert RenderParameter(Parameter("B", "b")) == "B b";
  }

  /** The report does not sort: within a group the descriptor's order is
      kept, whatever the parameter counts or names. */
  lemma ProviderOrderKept()
    ensures Report(UnsortedType) == Ok([
      "Member information for " + "T",
      "Public constructor: " + ("A a" + ", " + "B b"),
      "Public constructor: " + "C c",
      "Normal property " + "b" + ": Public getter.",
      "Normal property " + "a" + ": Public getter."
    ])
  {
    var t := UnsortedType;
    UnsortedTypeFilters();
    UnsortedTypeLines();
    ReportLines(t);
    assert Report(t).value == [HeaderPrefix + t.fullName, PublicConstructorLine(t.constructors[0]),
                               PublicConstructorLine(t.constructors[1]),
                               NormalPropertyLine(t.properties[0]), NormalPropertyLine(t.properties[1])];
  }
}
