/** The application context: the filter selection, the derived list of
    filtered agreements, the toggle and reset operations, and lookup by id. */
module UACContext {
  import opened Seqs
  import opened Text
  import opened Types

  /** The four filter categories (`keyof selectedFilters`). */
  datatype Category = ByType | ByDomain | ByCountry | ByStatus

  /** The selected values per category, in the order they were chosen. */
  datatype Filters = Filters(types: seq<string>, domains: seq<string>, countries: seq<string>, status: seq<string>)
  {
    function Get(c: Category): seq<string> {
      match c
      case ByType => types
      case ByDomain => domains
      case ByCountry => countries
      case ByStatus => status
    }

    /** `{...prev, [c]: l}`: replaces one category and keeps the others. */
    function With(c: Category, l: seq<string>): (r: Filters)
      ensures r.Get(c) == l
      ensures forall d :: d != c ==> r.Get(d) == Get(d)
    {
      match c
      case ByType => this.(types := l)
      case ByDomain => this.(domains := l)
      case ByCountry => this.(countries := l)
      case ByStatus => this.(status := l)
    }

    /** No category lists a value twice. */
    ghost predicate Valid() {
      forall c :: NoDup(Get(c))
    }
  }

  /** The initial selection and the one `clearFilters` restores. */
  const NoFilters := Filters([], [], [], [])

  lemma NoFiltersValid()
    ensures NoFilters.Valid()
  {
  }

  /** The field of a record that a category's values are compared with. */
  function CategoryValue(a: Agreement, c: Category): string {
    match c
    case ByType => TypeLabel(a.kind)
    case ByDomain => a.domain
    case ByCountry => a.country
    case ByStatus => StatusLabel(a.status)
  }

  /** The text criterion: an empty query matches everything; otherwise the
      lower-cased query must occur in the lower-cased title, country or domain. */
  predicate MatchesSearch(a: Agreement, query: string): (b: bool)
    ensures b <==> query == "" ||
                   (exists i :: OccursAt(Lower(a.title), Lower(query), i)) ||
                   (exists i :: OccursAt(Lower(a.country), Lower(query), i)) ||
                   (exists i :: OccursAt(Lower(a.domain), Lower(query), i))
  {
    query == "" ||
    Includes(Lower(a.title), Lower(query)) ||
    Includes(Lower(a.country), Lower(query)) ||
    Includes(Lower(a.domain), Lower(query))
  }

  /** A category criterion: an empty list is no constraint, otherwise any listed value matches. */
  predicate Allows(selected: seq<string>, value: string): (b: bool)
    ensures b <==> selected == [] || exists i :: 0 <= i < |selected| && selected[i] == value
  {
    |selected| == 0 || value in selected
  }

  /** All five criteria at once: the text matches and every category admits
      the record's value. */
  predicate Matches(a: Agreement, query: string, f: Filters): (b: bool)
    ensures b <==> MatchesSearch(a, query) && forall c :: Allows(f.Get(c), CategoryValue(a, c))
  {
    AllCategories(a, f);
    MatchesSearch(a, query) &&
    Allows(f.types, TypeLabel(a.kind)) &&
    Allows(f.domains, a.domain) &&
    Allows(f.countries, a.country) &&
    Allows(f.status, StatusLabel(a.status))
  }

  /** Every category admits a record exactly when each of the four does. */
  lemma AllCategories(a: Agreement, f: Filters)
    ensures (forall c :: Allows(f.Get(c), CategoryValue(a, c))) <==>
      Allows(f.types, TypeLabel(a.kind)) && Allows(f.domains, a.domain) &&
      Allows(f.countries, a.country) && Allows(f.status, StatusLabel(a.status))
  {
    assert f.types == f.Get(ByType) && f.domains == f.Get(ByDomain);
    assert f.countries == f.Get(ByCountry) && f.status == f.Get(ByStatus);
  }

  /** `filteredAgreements`: the agreements meeting every criterion, as an
      order-preserving subsequence that keeps every matching record with its
      multiplicity and nothing else. */
  function FilterAgreements(agreements: seq<Agreement>, query: string, f: Filters): (r: seq<Agreement>)
    ensures IsSubsequence(r, agreements)
    ensures forall a :: a in r <==> a in agreements && Matches(a, query, f)
    ensures forall a :: Matches(a, query, f) ==> multiset(r)[a] == multiset(agreements)[a]
    ensures forall a :: !Matches(a, query, f) ==> multiset(r)[a] == 0
  {
    Filter(agreements, a => Matches(a, query, f))
  }

  /** Every occurrence of `v` dropped, the other values kept in order. */
  function Remove(l: seq<string>, v: string): (r: seq<string>)
    ensures IsSubsequence(r, l)
    ensures v !in r
    ensures forall x :: x != v ==> multiset(r)[x] == multiset(l)[x]
  {
    Filter(l, x => x != v)
  }

  /** The toggle inside `updateFilter`: a present value is removed (every
      occurrence), an absent one is appended at the end. */
  function Toggle(l: seq<string>, v: string): (r: seq<string>)
    ensures forall x :: x in r <==> (if x == v then v !in l else x in l)
    ensures v !in l ==> r == l + [v]
    ensures v in l ==> r == Remove(l, v)
  {
    if v in l then Remove(l, v) else l + [v]
  }

  /** The new selection after `updateFilter(c, v)`. */
  function UpdateFilters(f: Filters, c: Category, v: string): (r: Filters)
    ensures r.Get(c) == Toggle(f.Get(c), v)
    ensures forall d :: d != c ==> r.Get(d) == f.Get(d)
  {
    f.With(c, Toggle(f.Get(c), v))
  }

  // ---------------------------------------------------------------------------
  // Properties of the filter predicate

  /** With an empty query and no category selected, every agreement is kept,
      in the original order. */
  lemma FilterEmptySelection(agreements: seq<Agreement>)
    ensures FilterAgreements(agreements, "", NoFilters) == agreements
  {
    FilterAll(agreements, a => Matches(a, "", NoFilters));
  }

  /** A record is kept exactly when all five criteria hold, with the text
      criterion spelled out as "the lower-cased query occurs in one of the
      lower-cased fields". */
  lemma FilterCriteria(agreements: seq<Agreement>, query: string, f: Filters, a: Agreement)
    ensures a in FilterAgreements(agreements, query, f) <==>
      a in agreements &&
      (query == "" ||
       (exists i :: OccursAt(Lower(a.title), Lower(query), i)) ||
       (exists i :: OccursAt(Lower(a.country), Lower(query), i)) ||
       (exists i :: OccursAt(Lower(a.domain), Lower(query), i))) &&
      (f.types == [] || TypeLabel(a.kind) in f.types) &&
      (f.domains == [] || a.domain in f.domains) &&
      (f.countries == [] || a.country in f.countries) &&
      (f.status == [] || StatusLabel(a.status) in f.status)
  {
  }

  /** The search ignores the case of ASCII letters: two queries that differ
      only in letter case keep the same records. */
  lemma SearchCaseInsensitive(agreements: seq<Agreement>, q1: string, q2: string, f: Filters)
    requires SameUpToCase(q1, q2)
    ensures FilterAgreements(agreements, q1, f) == FilterAgreements(agreements, q2, f)
  {
    LowerEqual(q1, q2);
    FilterExt(agreements, a => Matches(a, q1, f), a => Matches(a, q2, f));
  }

  /** If every record `f` admits is admitted by `g`, filtering by `f` keeps a
      subsequence of what filtering by `g` keeps. */
  lemma FilterNarrower(agreements: seq<Agreement>, query: string, f: Filters, g: Filters)
    requires forall a :: Matches(a, query, f) ==> Matches(a, query, g)
    ensures IsSubsequence(FilterAgreements(agreements, query, f), FilterAgreements(agreements, query, g))
  {
    FilterMonotone(agreements, a => Matches(a, query, f), a => Matches(a, query, g));
  }

  /** Selecting a value: the first value in a category can only narrow the
      result; a further value in the same category can only widen it, since
      the values of one category are alternatives. */
  lemma SelectValueEffect(agreements: seq<Agreement>, query: string, f: Filters, c: Category, v: string)
    requires v !in f.Get(c)
    ensures f.Get(c) == [] ==>
      IsSubsequence(FilterAgreements(agreements, query, UpdateFilters(f, c, v)), FilterAgreements(agreements, query, f))
    ensures f.Get(c) != [] ==>
      IsSubsequence(FilterAgreements(agreements, query, f), FilterAgreements(agreements, query, UpdateFilters(f, c, v)))
  {
    var g := UpdateFilters(f, c, v);
    assert forall d :: d != c ==> g.Get(d) == f.Get(d);
    if f.Get(c) == [] {
      forall a | Matches(a, query, g) ensures Matches(a, query, f) {
        match c
        case ByType =>
        case ByDomain =>
        case ByCountry =>
        case ByStatus =>
      }
      FilterNarrower(agreements, query, g, f);
    } else {
      forall a | Matches(a, query, f) ensures Matches(a, query, g) {
        match c
        case ByType =>
        case ByDomain =>
        case ByCountry =>
        case ByStatus =>
      }
      FilterNarrower(agreements, query, f, g);
    }
  }

  /** Deselecting a value: while other values of the category remain the
      result can only shrink; deselecting the last one lifts the constraint
      and can only widen it. */
  lemma DeselectValueEffect(agreements: seq<Agreement>, query: string, f: Filters, c: Category, v: string)
    requires v in f.Get(c)
    ensures Remove(f.Get(c), v) != [] ==>
      IsSubsequence(FilterAgreements(agreements, query, UpdateFilters(f, c, v)), FilterAgreements(agreements, query, f))
    ensures Remove(f.Get(c), v) == [] ==>
      IsSubsequence(FilterAgreements(agreements, query, f), FilterAgreements(agreements, query, UpdateFilters(f, c, v)))
  {
    var g := UpdateFilters(f, c, v);
    assert forall d :: d != c ==> g.Get(d) == f.Get(d);
    if Remove(f.Get(c), v) != [] {
      forall a | Matches(a, query, g) ensures Matches(a, query, f) {
        match c
        case ByType =>
        case ByDomain =>
        case ByCountry =>
        case ByStatus =>
      }
      FilterNarrower(agreements, query, g, f);
    } else {
      forall a | Matches(a, query, f) ensures Matches(a, query, g) {
        match c
        case ByType =>
        case ByDomain =>
        case ByCountry =>
        case ByStatus =>
      }
      FilterNarrower(agreements, query, f, g);
    }
  }

  /** Adding a type can enlarge the result: with `'Convention'` selected, a
      convention and a framework agreement give one record; selecting
      `'Accord cadre'` as well gives both. */
  lemma SecondTypeWidens(a: Agreement, b: Agreement)
    requires a.kind == Convention && b.kind == FrameworkAgreement
    ensures |FilterAgreements([a, b], "", NoFilters.With(ByType, ["Convention"]))| == 1
    ensures |FilterAgreements([a, b], "", UpdateFilters(NoFilters.With(ByType, ["Convention"]), ByType, "Accord cadre"))| == 2
  {
    var f := NoFilters.With(ByType, ["Convention"]);
    var g := UpdateFilters(f, ByType, "Accord cadre");
    assert g.types == ["Convention", "Accord cadre"];
    assert Matches(a, "", f) && !Matches(b, "", f);
    assert Matches(a, "", g) && Matches(b, "", g);
    FilterCons([a, b], (x: Agreement) => Matches(x, "", f));
    FilterCons([b], (x: Agreement) => Matches(x, "", f));
    FilterCons([a, b], (x: Agreement) => Matches(x, "", g));
    FilterCons([b], (x: Agreement) => Matches(x, "", g));
  }

  // ---------------------------------------------------------------------------
  // Properties of the toggle

  /** The toggle keeps a duplicate-free list duplicate-free. */
  lemma ToggleNoDup(l: seq<string>, v: string)
    requires NoDup(l)
    ensures NoDup(Toggle(l, v))
  {
    if v in l {
      FilterNoDup(l, x => x != v);
    } else {
      AppendNoDup(l, v);
    }
  }

  /** Toggling twice: an absent value leaves the list exactly as it was; a
      present value comes back at the end, so a duplicate-free list gets back
      the same members with the same multiplicities. */
  lemma ToggleTwice(l: seq<string>, v: string)
    ensures v !in l ==> Toggle(Toggle(l, v), v) == l
    ensures v in l ==> Toggle(Toggle(l, v), v) == Remove(l, v) + [v]
    ensures forall x :: x in Toggle(Toggle(l, v), v) <==> x in l
    ensures NoDup(l) ==> multiset(Toggle(Toggle(l, v), v)) == multiset(l)
  {
    var once := Toggle(l, v);
    if v !in l {
      assert once == l + [v] && v in once;
      RemoveAppended(l, v);
    } else {
      assert once == Remove(l, v) && v !in once;
      if NoDup(l) {
        var r := once + [v];
        forall x ensures multiset(r)[x] == multiset(l)[x] {
          NoDupCount(l, x);
        }
      }
    }
  }

  /** Removing `v` from `l + [v]`, when `l` does not hold `v`, gives back `l`. */
  lemma {:induction false} RemoveAppended(l: seq<string>, v: string)
    requires v !in l
    ensures Remove(l + [v], v) == l
    decreases |l|
  {
    if l == [] {
      assert [] + [v] == [v];
    } else {
      assert l + [v] == [l[0]] + (l[1..] + [v]);
      RemoveAppended(l[1..], v);
    }
  }

  /** A category criterion depends only on which values are listed. */
  lemma AllowsSameMembers(l: seq<string>, m: seq<string>, value: string)
    requires forall x :: x in l <==> x in m
    ensures Allows(l, value) == Allows(m, value)
  {
    if l != [] {
      assert l[0] in m;
    }
    if m != [] {
      assert m[0] in l;
    }
  }

  /** Whether a record passes depends only on which values each category
      lists, not on their order or repetition. */
  lemma FilterDependsOnMembers(agreements: seq<Agreement>, query: string, f: Filters, g: Filters)
    requires forall c, x :: x in f.Get(c) <==> x in g.Get(c)
    ensures FilterAgreements(agreements, query, f) == FilterAgreements(agreements, query, g)
  {
    forall a: Agreement ensures Matches(a, query, f) == Matches(a, query, g) {
      AllowsSameMembers(f.Get(ByType), g.Get(ByType), TypeLabel(a.kind));
      AllowsSameMembers(f.Get(ByDomain), g.Get(ByDomain), a.domain);
      AllowsSameMembers(f.Get(ByCountry), g.Get(ByCountry), a.country);
      AllowsSameMembers(f.Get(ByStatus), g.Get(ByStatus), StatusLabel(a.status));
    }
    FilterExt(agreements, a => Matches(a, query, f), a => Matches(a, query, g));
  }

  /** Toggling the same value twice never changes the filtered result, even
      where it changes the order of the selected values. */
  lemma ToggleTwiceSameResult(agreements: seq<Agreement>, query: string, f: Filters, c: Category, v: string)
    ensures FilterAgreements(agreements, query, UpdateFilters(UpdateFilters(f, c, v), c, v)) ==
            FilterAgreements(agreements, query, f)
  {
    var g := UpdateFilters(UpdateFilters(f, c, v), c, v);
    ToggleTwice(f.Get(c), v);
    assert forall d, x :: x in g.Get(d) <==> x in f.Get(d);
    FilterDependsOnMembers(agreements, query, g, f);
  }

  /** `updateFilter` keeps the no-duplicates invariant of the selection. */
  lemma UpdateFiltersValid(f: Filters, c: Category, v: string)
    requires f.Valid()
    ensures UpdateFilters(f, c, v).Valid()
  {
    ToggleNoDup(f.Get(c), v);
  }

  // ---------------------------------------------------------------------------
  // The provider's state

  /** The context provider: records it never replaces, plus the mutable
      query and selection. */
  class UACProvider {
    const agreements: seq<Agreement>
    /** Never replaced by the provider. The statistics screen sorts this
        list in place, which this model does not capture. */
    const partners: seq<Partner>
    const statistics: Statistics
    var searchQuery: string
    var selectedFilters: Filters

    ghost predicate Valid()
      reads this
    {
      selectedFilters.Valid()
    }

    constructor (agreements: seq<Agreement>, partners: seq<Partner>, statistics: Statistics)
      ensures Valid()
      ensures this.agreements == agreements && this.partners == partners && this.statistics == statistics
      ensures searchQuery == "" && selectedFilters == NoFilters
      ensures FilteredAgreements() == agreements
    {
      FilterEmptySelection(agreements);
      NoFiltersValid();
      this.agreements := agreements;
      this.partners := partners;
      this.statistics := statistics;
      searchQuery := "";
      selectedFilters := NoFilters;
    }

    /** The memoised `filteredAgreements` of the current state. */
    function FilteredAgreements(): seq<Agreement>
      reads this
    {
      FilterAgreements(agreements, searchQuery, selectedFilters)
    }

    /** `getAgreementById`: the first agreement with that id, or `None`. */
    function GetAgreementById(id: string): (r: Option<Agreement>)
      ensures r.None? <==> forall i :: 0 <= i < |agreements| ==> agreements[i].id != id
      ensures r.Some? ==> r.value.id == id
      ensures r.Some? ==> exists i :: 0 <= i < |agreements| && agreements[i] == r.value &&
                                      forall j :: 0 <= j < i ==> agreements[j].id != id
    {
      Find(agreements, (a: Agreement) => a.id == id)
    }

    /** `setSearchQuery`: replaces the query, nothing else. */
    method SetSearchQuery(query: string)
      requires Valid()
      modifies this
      ensures Valid()
      ensures searchQuery == query && selectedFilters == old(selectedFilters)
    {
      searchQuery := query;
    }

    /** `updateFilter`: toggles one value in one category; the other
      categories and the query are untouched. */
    method UpdateFilter(c: Category, v: string)
      requires Valid()
      modifies this
      ensures Valid()
      ensures selectedFilters.Get(c) == Toggle(old(selectedFilters.Get(c)), v)
      ensures forall d :: d != c ==> selectedFilters.Get(d) == old(selectedFilters.Get(d))
      ensures searchQuery == old(searchQuery)
    {
      UpdateFiltersValid(selectedFilters, c, v);
      selectedFilters := UpdateFilters(selectedFilters, c, v);
    }

    /** `clearFilters`: empties every category and the query at once, after
      which every agreement is shown. */
    method ClearFilters()
      modifies this
      ensures Valid()
      ensures selectedFilters == NoFilters && searchQuery == ""
      ensures FilteredAgreements() == agreements
    {
      FilterEmptySelection(agreements);
      NoFiltersValid();
      selectedFilters := NoFilters;
      searchQuery := "";
    }
  }
}
