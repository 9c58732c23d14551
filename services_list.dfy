/** The query pipeline of the services list view: the sort toggle, the
    three-way comparator and the sort of a copy of the records, the
    category/status/search filter applied to the sorted copy, and the small
    mappings that drive the table (sort icon, status badge, filter inputs). */
module ServicesList {
  import opened Strings
  import opened ServiceModel
  import ApiService

  datatype Direction = Asc | Desc

  datatype SortConfig = SortConfig(key: SortKey, direction: Direction)

  /** The view opens sorted by creation date, newest first. */
  const InitialSortConfig := SortConfig(CreatedAt, Desc)

  // ---------------------------------------------------------------------
  // Sort toggle

  /** `requestSort(key)`: the clicked column becomes the key; the direction
      becomes descending only when that column was already the key and
      was ascending. */
  function RequestSort(current: SortConfig, key: SortKey): (next: SortConfig)
    ensures next.key == key
    ensures next.direction == Desc <==> current.key == key && current.direction == Asc
  {
    var direction := if current.key == key && current.direction == Asc then Desc else Asc;
    SortConfig(key, direction)
  }

  /** Clicking the current column twice returns to the same configuration. */
  lemma RequestSortTwiceOnCurrentKey(current: SortConfig)
    ensures RequestSort(RequestSort(current, current.key), current.key) == current
  {
  }

  /** Clicking a new column twice ends at that column, descending. */
  lemma RequestSortTwiceOnOtherKey(current: SortConfig, key: SortKey)
    requires key != current.key
    ensures RequestSort(current, key) == SortConfig(key, Asc)
    ensures RequestSort(RequestSort(current, key), key) == SortConfig(key, Desc)
  {
  }

  // ---------------------------------------------------------------------
  // Comparator and sort

  /** The comparator passed to `sort`: -1, 0 or 1 by the chosen field, its
      sign flipped for descending order. */
  function Compare(a: Service, b: Service, config: SortConfig): (r: int)
    ensures -1 <= r <= 1
    ensures r == 0 <==> Field(a, config.key) == Field(b, config.key)
    ensures r < 0 <==> if config.direction == Asc then Less(Field(a, config.key), Field(b, config.key))
                       else Less(Field(b, config.key), Field(a, config.key))
  {
    var x, y := Field(a, config.key), Field(b, config.key);
    LessAsymmetric(x, y);
    LessIrreflexive(x);
    LessTotal(x, y);
    if Less(x, y) then (if config.direction == Asc then -1 else 1)
    else if Less(y, x) then (if config.direction == Asc then 1 else -1)
    else 0
  }

  /** Swapping the arguments negates the comparison. */
  lemma CompareAntisymmetric(a: Service, b: Service, config: SortConfig)
    ensures Compare(b, a, config) == -Compare(a, b, config)
  {
    LessAsymmetric(Field(a, config.key), Field(b, config.key));
  }

  /** Descending order is ascending order reversed. */
  lemma CompareDescNegatesAsc(a: Service, b: Service, key: SortKey)
    ensures Compare(a, b, SortConfig(key, Desc)) == -Compare(a, b, SortConfig(key, Asc))
  {
    LessAsymmetric(Field(a, key), Field(b, key));
  }

  /** "May come before" under the comparator is transitive. */
  lemma CompareLeTransitive(a: Service, b: Service, c: Service, config: SortConfig)
    requires Compare(a, b, config) <= 0 && Compare(b, c, config) <= 0
    ensures Compare(a, c, config) <= 0
  {
    var x, y, z := Field(a, config.key), Field(b, config.key), Field(c, config.key);
    LessTotal(x, y);
    LessTotal(y, z);
    if Less(x, y) && Less(y, z) {
      LessTransitive(x, y, z);
    } else if Less(y, x) && Less(z, y) {
      LessTransitive(z, y, x);
    }
    LessAsymmetric(x, z);
  }

  /** Every adjacent pair of `s[lo..hi]` is in comparator order. */
  predicate SortedRange(s: seq<Service>, lo: int, hi: int, config: SortConfig)
  {
    forall k :: lo <= k && k + 1 < hi && 0 <= k && k + 1 < |s| ==> Compare(s[k], s[k + 1], config) <= 0
  }

  /** The comparator never puts an adjacent pair out of order. */
  predicate Sorted(s: seq<Service>, config: SortConfig)
  {
    SortedRange(s, 0, |s|, config)
  }

  /** In a sorted sequence, ascending means no adjacent pair has
      `a[key] > b[key]`, descending means no adjacent pair has `a[key] < b[key]`. */
  lemma SortedMeansOrderedFields(s: seq<Service>, config: SortConfig)
    requires Sorted(s, config)
    ensures config.direction == Asc ==>
      forall k :: 0 <= k < |s| - 1 ==> !Less(Field(s[k + 1], config.key), Field(s[k], config.key))
    ensures config.direction == Desc ==>
      forall k :: 0 <= k < |s| - 1 ==> !Less(Field(s[k], config.key), Field(s[k + 1], config.key))
  {
    forall k | 0 <= k < |s| - 1
      ensures config.direction == Asc ==> !Less(Field(s[k + 1], config.key), Field(s[k], config.key))
      ensures config.direction == Desc ==> !Less(Field(s[k], config.key), Field(s[k + 1], config.key))
    {
      assert Compare(s[k], s[k + 1], config) <= 0;
      LessAsymmetric(Field(s[k], config.key), Field(s[k + 1], config.key));
    }
  }

  /** A sorted sequence is in comparator order for every pair, not only
      adjacent ones. */
  lemma {:induction false} SortedAllPairs(s: seq<Service>, config: SortConfig, i: int, j: int)
    requires Sorted(s, config)
    requires 0 <= i < j < |s|
    ensures Compare(s[i], s[j], config) <= 0
    decreases j - i
  {
    if i + 1 < j {
      SortedAllPairs(s, config, i + 1, j);
      CompareLeTransitive(s[i], s[i + 1], s[j], config);
    }
  }

  /** The records of `s` whose `key` column equals `v`, in their order in `s`. */
  function WithKey(s: seq<Service>, key: SortKey, v: string): seq<Service>
  {
    if s == [] then []
    else if Field(s[0], key) == v then [s[0]] + WithKey(s[1..], key, v)
    else WithKey(s[1..], key, v)
  }

  /** Records that tie on `key` appear in the same relative order in `s`
      and `t`: what a stable sort keeps of its input. */
  ghost predicate SameTieOrder(s: seq<Service>, t: seq<Service>, key: SortKey)
  {
    forall v :: WithKey(s, key, v) == WithKey(t, key, v)
  }

  lemma {:induction false} WithKeyAppend(s: seq<Service>, t: seq<Service>, key: SortKey, v: string)
    ensures WithKey(s + t, key, v) == WithKey(s, key, v) + WithKey(t, key, v)
  {
    if s == [] {
      assert s + t == t;
    } else {
      var st := s + t;
      assert st[0] == s[0] && st[1..] == s[1..] + t;
      WithKeyAppend(s[1..], t, key, v);
      if Field(s[0], key) == v {
        calc {
          WithKey(st, key, v);
          [s[0]] + WithKey(s[1..] + t, key, v);
          [s[0]] + (WithKey(s[1..], key, v) + WithKey(t, key, v));
          ([s[0]] + WithKey(s[1..], key, v)) + WithKey(t, key, v);
        }
      }
    }
  }

  lemma {:induction false} WithKeyMembers(s: seq<Service>, key: SortKey, v: string, x: Service)
    requires x in WithKey(s, key, v)
    ensures x in s && Field(x, key) == v
  {
    if s != [] && !(Field(s[0], key) == v && x == s[0]) {
      WithKeyMembers(s[1..], key, v, x);
    }
  }

  /** Swapping two neighbours with different keys keeps the order of ties. */
  lemma SwapKeepsTieOrder(s: seq<Service>, j: int, key: SortKey)
    requires 0 < j < |s| && Field(s[j - 1], key) != Field(s[j], key)
    ensures SameTieOrder(s[j - 1 := s[j]][j := s[j - 1]], s, key)
  {
    var t := s[j - 1 := s[j]][j := s[j - 1]];
    var pre, post := s[..j - 1], s[j + 1..];
    assert s == pre + [s[j - 1], s[j]] + post;
    assert t == pre + [s[j], s[j - 1]] + post;
    forall v
      ensures WithKey(t, key, v) == WithKey(s, key, v)
    {
      WithKeyAppend(pre + [s[j - 1], s[j]], post, key, v);
      WithKeyAppend(pre, [s[j - 1], s[j]], key, v);
      WithKeyAppend(pre + [s[j], s[j - 1]], post, key, v);
      WithKeyAppend(pre, [s[j], s[j - 1]], key, v);
      assert [s[j - 1], s[j]][1..] == [s[j]];
      assert [s[j], s[j - 1]][1..] == [s[j - 1]];
    }
  }

  /** One step of the insertion: `s[j]` is out of order with `s[j - 1]`;
      swapping them moves the gap one place left and keeps both sorted runs. */
  lemma {:induction false} InsertionStep(s: seq<Service>, i: int, j: int, config: SortConfig)
    requires 0 < j <= i < |s|
    requires SortedRange(s, 0, j, config) && SortedRange(s, j, i + 1, config)
    requires j < i ==> Compare(s[j - 1], s[j + 1], config) <= 0
    requires Compare(s[j - 1], s[j], config) > 0
    ensures var t := s[j - 1 := s[j]][j := s[j - 1]];
      SortedRange(t, 0, j - 1, config) && SortedRange(t, j - 1, i + 1, config) &&
      (0 < j - 1 ==> Compare(t[j - 2], t[j], config) <= 0) &&
      multiset(t) == multiset(s) &&
      SameTieOrder(t, s, config.key)
  {
    CompareAntisymmetric(s[j - 1], s[j], config);
    SwapKeepsTieOrder(s, j, config.key);
    var t := s[j - 1 := s[j]][j := s[j - 1]];
    forall k | j - 1 <= k && k + 1 < i + 1
      ensures Compare(t[k], t[k + 1], config) <= 0
    {
      if k > j {
        assert t[k] == s[k] && t[k + 1] == s[k + 1];
      }
    }
  }

  /** Once the insertion stops, the two runs join into one. */
  lemma JoinRuns(s: seq<Service>, i: int, j: int, config: SortConfig)
    requires 0 <= j <= i < |s|
    requires SortedRange(s, 0, j, config) && SortedRange(s, j, i + 1, config)
    requires 0 < j ==> Compare(s[j - 1], s[j], config) <= 0
    ensures SortedRange(s, 0, i + 1, config)
  {
  }

  /** `sort` on the copy. `Array.prototype.sort` is stable, so the model
      is an insertion sort by adjacent swaps, which never swaps a tie: the
      result is sorted, a permutation, and keeps tied records in input order. */
  method SortInPlace(a: array<Service>, config: SortConfig)
    modifies a
    ensures Sorted(a[..], config)
    ensures multiset(a[..]) == multiset(old(a[..]))
    ensures SameTieOrder(a[..], old(a[..]), config.key)
  {
    var i := 0;
    while i < a.Length
      invariant 0 <= i <= a.Length
      invariant SortedRange(a[..], 0, i, config)
      invariant multiset(a[..]) == multiset(old(a[..]))
      invariant SameTieOrder(a[..], old(a[..]), config.key)
    {
      Insert(a, i, config);
      i := i + 1;
    }
  }

  /** Moves `a[i]` left past every element it must precede, extending the
      sorted prefix `a[..i]` to `a[..i + 1]`. */
  method Insert(a: array<Service>, i: int, config: SortConfig)
    requires 0 <= i < a.Length
    requires SortedRange(a[..], 0, i, config)
    modifies a
    ensures SortedRange(a[..], 0, i + 1, config)
    ensures multiset(a[..]) == multiset(old(a[..]))
    ensures SameTieOrder(a[..], old(a[..]), config.key)
  {
    var j := i;
    while 0 < j && Compare(a[j - 1], a[j], config) > 0
      invariant 0 <= j <= i
      invariant SortedRange(a[..], 0, j, config)
      invariant SortedRange(a[..], j, i + 1, config)
      invariant 0 < j < i ==> Compare(a[j - 1], a[j + 1], config) <= 0
      invariant multiset(a[..]) == multiset(old(a[..]))
      invariant SameTieOrder(a[..], old(a[..]), config.key)
    {
      ghost var before := a[..];
      InsertionStep(before, i, j, config);
      a[j - 1], a[j] := a[j], a[j - 1];
      assert a[..] == before[j - 1 := before[j]][j := before[j - 1]];
      j := j - 1;
    }
    JoinRuns(a[..], i, j, config);
  }

  /** `getSortedServices`: copies the records into a fresh array and sorts
      the copy, leaving `services` itself as it was. The result is a sorted
      permutation that keeps tied records in input order, which by
      `StableSortIsUnique` fixes it completely. */
  method SortedServices(services: seq<Service>, config: SortConfig) returns (sorted: seq<Service>)
    ensures multiset(sorted) == multiset(services)
    ensures Sorted(sorted, config)
    ensures SameTieOrder(sorted, services, config.key)
  {
    var copy := new Service[|services|](k requires 0 <= k < |services| => services[k]);
    assert copy[..] == services;
    SortInPlace(copy, config);
    sorted := copy[..];
  }

  /** Dropping the first record removes it from its own key's tie group
      and leaves every other group as it was. */
  lemma WithKeyTail(s: seq<Service>, key: SortKey, v: string)
    requires s != []
    ensures WithKey(s[1..], key, v) ==
      if Field(s[0], key) == v then WithKey(s, key, v)[1..] else WithKey(s, key, v)
  {
  }

  /** A non-empty sequence's first record heads its own tie group. */
  lemma WithKeyHead(s: seq<Service>, key: SortKey)
    ensures s != [] ==> WithKey(s, key, Field(s[0], key)) != [] && WithKey(s, key, Field(s[0], key))[0] == s[0]
  {
  }

  /** A stable sort has exactly one possible result: two sorted sequences
      that keep the same order among ties are equal. */
  lemma {:induction false} StableSortIsUnique(r1: seq<Service>, r2: seq<Service>, config: SortConfig)
    requires Sorted(r1, config) && Sorted(r2, config)
    requires SameTieOrder(r1, r2, config.key)
    ensures r1 == r2
    decreases |r1| + |r2|
  {
    var key := config.key;
    WithKeyHead(r1, key);
    WithKeyHead(r2, key);
    if r1 == [] && r2 != [] {
      assert false;
    } else if r1 != [] && r2 == [] {
      assert false;
    } else if r1 != [] {
      var k1, k2 := Field(r1[0], key), Field(r2[0], key);
      // r2 holds a record with key k1, and r1 one with key k2
      assert r1[0] in WithKey(r2, key, k1);
      assert r2[0] in WithKey(r1, key, k2);
      WithKeyMembers(r2, key, k1, r1[0]);
      WithKeyMembers(r1, key, k2, r2[0]);
      var m :| 0 <= m < |r2| && Field(r2[m], key) == k1;
      var p :| 0 <= p < |r1| && Field(r1[p], key) == k2;
      if k1 != k2 {
        if m > 0 { SortedAllPairs(r2, config, 0, m); }
        if p > 0 { SortedAllPairs(r1, config, 0, p); }
        CompareAntisymmetric(r1[0], r1[p], config);
        assert false;
      }
      assert r1[0] == WithKey(r1, key, k1)[0] == WithKey(r2, key, k1)[0] == r2[0];
      forall v
        ensures WithKey(r1[1..], key, v) == WithKey(r2[1..], key, v)
      {
        WithKeyTail(r1, key, v);
        WithKeyTail(r2, key, v);
      }
      StableSortIsUnique(r1[1..], r2[1..], config);
      assert r1 == [r1[0]] + r1[1..];
      assert r2 == [r2[0]] + r2[1..];
    }
  }

  /** On the initial data sorted by category, the two "Design" records
      keep their store order: "Mobile App Design" before "Logo Design". */
  lemma StableTieExample(sorted: seq<Service>)
    requires SameTieOrder(sorted, ApiService.MockServices, Category)
    ensures WithKey(sorted, Category, "Design") == [ApiService.MockServices[1], ApiService.MockServices[3]]
    ensures ApiService.MockServices[1].name == "Mobile App Design"
    ensures ApiService.MockServices[3].name == "Logo Design"
  {
    var s := ApiService.MockServices;
    var d := "Design";
    assert WithKey(sorted, Category, d) == WithKey(s, Category, d);
    assert s[4..][1..] == [];
    assert WithKey(s[4..], Category, d) == [] by {
      assert s[4].category == "Content" != d;
    }
    assert s[3..][1..] == s[4..];
    assert WithKey(s[3..], Category, d) == [s[3]] by {
      assert s[3].category == d;
    }
    assert s[2..][1..] == s[3..];
    assert WithKey(s[2..], Category, d) == [s[3]] by {
      assert s[2].category == "Marketing" != d;
    }
    assert s[1..][1..] == s[2..];
    assert WithKey(s[1..], Category, d) == [s[1], s[3]] by {
      assert s[1].category == d;
    }
    assert s[0].category == "Development" != d;
  }

  /** Sorting by name ascending orders the two sample names "Logo Design"
      before "SEO Optimization"; descending reverses them. */
  lemma {:induction false} SortByNameExample(seo: Service, logo: Service, sorted: seq<Service>, direction: Direction)
    requires seo.name == "SEO Optimization" && logo.name == "Logo Design"
    requires multiset(sorted) == multiset([seo, logo])
    requires Sorted(sorted, SortConfig(Name, direction))
    ensures sorted == if direction == Asc then [logo, seo] else [seo, logo]
  {
    var config := SortConfig(Name, direction);
    assert |sorted| == 2 by {
      assert |multiset(sorted)| == |multiset([seo, logo])|;
    }
    assert sorted[0] in multiset(sorted) && sorted[1] in multiset(sorted);
    assert Less(logo.name, seo.name);
    assert Compare(sorted[0], sorted[1], config) <= 0;
    assert sorted[0] != sorted[1];
    assert sorted == [sorted[0], sorted[1]];
  }

  // ---------------------------------------------------------------------
  // Filters

  datatype Filters = Filters(category: string, status: string, search: string)

  /** Each filter starts empty, which constrains nothing. */
  const InitialFilters := Filters("", "", "")

  /** The `name` attribute of the three filter inputs. */
  datatype FilterField = CategoryField | StatusField | SearchField

  function FilterValue(filters: Filters, field: FilterField): string
  {
    match field
    case CategoryField => filters.category
    case StatusField => filters.status
    case SearchField => filters.search
  }

  /** `handleFilterChange`: `{ ...filters, [name]: value }`. */
  function HandleFilterChange(filters: Filters, name: FilterField, value: string): (r: Filters)
    ensures FilterValue(r, name) == value
    ensures forall other :: other != name ==> FilterValue(r, other) == FilterValue(filters, other)
  {
    match name
    case CategoryField => filters.(category := value)
    case StatusField => filters.(status := value)
    case SearchField => filters.(search := value)
  }

  /** A later change to the same input overrides an earlier one. */
  lemma HandleFilterChangeLastWins(filters: Filters, name: FilterField, v1: string, v2: string)
    ensures HandleFilterChange(HandleFilterChange(filters, name, v1), name, v2)
         == HandleFilterChange(filters, name, v2)
  {
  }

  /** A category or status choice constrains the list unless it is empty
      or "All". */
  predicate Constrains(choice: string)
  {
    choice != "" && choice != "All"
  }

  predicate CategoryPasses(s: Service, filters: Filters)
  {
    !(Constrains(filters.category) && s.category != filters.category)
  }

  predicate StatusPasses(s: Service, filters: Filters)
  {
    !(Constrains(filters.status) && s.status != filters.status)
  }

  predicate SearchPasses(s: Service, filters: Filters)
  {
    !(filters.search != "" &&
      !Includes(ToLower(s.name), ToLower(filters.search)) &&
      !Includes(ToLower(s.description), ToLower(filters.search)))
  }

  /** The predicate given to `filter`: all three checks pass. */
  predicate Passes(s: Service, filters: Filters)
  {
    CategoryPasses(s, filters) && StatusPasses(s, filters) && SearchPasses(s, filters)
  }

  /** A specific category (or status) keeps exactly the records with that
      value; an empty or "All" choice keeps every record. */
  lemma ChoiceChecks(s: Service, filters: Filters)
    ensures Constrains(filters.category) ==> (CategoryPasses(s, filters) <==> s.category == filters.category)
    ensures !Constrains(filters.category) ==> CategoryPasses(s, filters)
    ensures Constrains(filters.status) ==> (StatusPasses(s, filters) <==> s.status == filters.status)
    ensures !Constrains(filters.status) ==> StatusPasses(s, filters)
  {
  }

  /** The lower-cased `search` occurs somewhere in the lower-cased `text`. */
  ghost predicate OccursIgnoringCase(text: string, search: string)
  {
    exists i :: OccursAt(ToLower(text), ToLower(search), i)
  }

  /** A non-empty search passes exactly when the lower-cased search text
      occurs in the lower-cased name or in the lower-cased description. */
  lemma SearchCheck(s: Service, filters: Filters)
    requires filters.search != ""
    ensures SearchPasses(s, filters) <==>
      OccursIgnoringCase(s.name, filters.search) || OccursIgnoringCase(s.description, filters.search)
  {
    IncludesIffOccurs(ToLower(s.name), ToLower(filters.search));
    IncludesIffOccurs(ToLower(s.description), ToLower(filters.search));
  }

  /** The search is case-insensitive: search texts that agree once
      lower-cased select the same records. */
  lemma SearchIgnoresCase(s: Service, filters: Filters, search: string)
    requires ToLower(search) == ToLower(filters.search)
    ensures SearchPasses(s, filters.(search := search)) == SearchPasses(s, filters)
  {
  }

  /** `sorted.filter(Passes)`. */
  function FilterServices(s: seq<Service>, filters: Filters): (r: seq<Service>)
    ensures IsSubsequence(r, s)
    ensures forall x :: x in r ==> Passes(x, filters)
    ensures forall x :: x in s && Passes(x, filters) ==> x in r
    ensures forall x :: x in r ==> x in s
  {
    if s == [] then []
    else if Passes(s[0], filters) then
      var rest := FilterServices(s[1..], filters);
      assert ([s[0]] + rest)[1..] == rest;
      [s[0]] + rest
    else
      FilterServices(s[1..], filters)
  }

  /** `r` is `s` with some elements removed, the rest in their order. */
  predicate IsSubsequence(r: seq<Service>, s: seq<Service>)
    decreases |s|
  {
    if r == [] then true
    else if s == [] then false
    else (r[0] == s[0] && IsSubsequence(r[1..], s[1..])) || IsSubsequence(r, s[1..])
  }

  lemma {:induction false} SubsequenceMembers(r: seq<Service>, s: seq<Service>, x: Service)
    requires IsSubsequence(r, s) && x in r
    ensures x in s
    decreases |s|
  {
    if r[0] == s[0] && IsSubsequence(r[1..], s[1..]) {
      if x != r[0] {
        SubsequenceMembers(r[1..], s[1..], x);
      }
    } else {
      SubsequenceMembers(r, s[1..], x);
    }
  }

  /** Removing elements from a sorted sequence leaves it sorted. */
  lemma {:induction false} SubsequenceOfSortedIsSorted(r: seq<Service>, s: seq<Service>, config: SortConfig)
    requires IsSubsequence(r, s) && Sorted(s, config)
    ensures Sorted(r, config)
    decreases |s|
  {
    if r != [] {
      assert Sorted(s[1..], config);
      if r[0] == s[0] && IsSubsequence(r[1..], s[1..]) {
        SubsequenceOfSortedIsSorted(r[1..], s[1..], config);
        if |r| > 1 {
          SubsequenceMembers(r[1..], s[1..], r[1]);
          var j :| 0 <= j < |s[1..]| && s[1..][j] == r[1];
          SortedAllPairs(s, config, 0, j + 1);
        }
        assert forall k :: 1 <= k < |r| - 1 ==> r[k] == r[1..][k - 1] && r[k + 1] == r[1..][k];
      } else {
        SubsequenceOfSortedIsSorted(r, s[1..], config);
      }
    }
  }

  /** Filtering counts each record as often as the input does when it
      passes, and not at all otherwise. */
  lemma {:induction false} FilterMultiset(s: seq<Service>, filters: Filters, x: Service)
    ensures multiset(FilterServices(s, filters))[x] == if Passes(x, filters) then multiset(s)[x] else 0
  {
    if s != [] {
      FilterMultiset(s[1..], filters, x);
      assert s == [s[0]] + s[1..];
    }
  }

  /** Filtering two permutations of each other gives permutations of each other. */
  lemma FilterPermutation(a: seq<Service>, b: seq<Service>, filters: Filters)
    requires multiset(a) == multiset(b)
    ensures multiset(FilterServices(a, filters)) == multiset(FilterServices(b, filters))
  {
    forall x
      ensures multiset(FilterServices(a, filters))[x] == multiset(FilterServices(b, filters))[x]
    {
      FilterMultiset(a, filters, x);
      FilterMultiset(b, filters, x);
    }
  }

  /** With category and status empty or "All" and an empty search, the
      filter keeps the whole list in its order. */
  lemma {:induction false} NoFilterKeepsAll(s: seq<Service>, filters: Filters)
    requires !Constrains(filters.category) && !Constrains(filters.status) && filters.search == ""
    ensures FilterServices(s, filters) == s
  {
    if s != [] {
      NoFilterKeepsAll(s[1..], filters);
      assert s == [s[0]] + s[1..];
    }
  }

  /** Taking one key's tie group and filtering commute. */
  lemma {:induction false} WithKeyOfFilter(s: seq<Service>, filters: Filters, key: SortKey, v: string)
    ensures WithKey(FilterServices(s, filters), key, v) == FilterServices(WithKey(s, key, v), filters)
  {
    if s != [] {
      WithKeyOfFilter(s[1..], filters, key, v);
      var r := FilterServices(s[1..], filters);
      assert ([s[0]] + r)[1..] == r;
      var w := WithKey(s[1..], key, v);
      assert ([s[0]] + w)[1..] == w;
    }
  }

  /** Filtering keeps the order of ties. */
  lemma FilterKeepsTieOrder(s: seq<Service>, t: seq<Service>, filters: Filters, key: SortKey)
    requires SameTieOrder(s, t, key)
    ensures SameTieOrder(FilterServices(s, filters), FilterServices(t, filters), key)
  {
    forall v
      ensures WithKey(FilterServices(s, filters), key, v) == WithKey(FilterServices(t, filters), key, v)
    {
      WithKeyOfFilter(s, filters, key, v);
      WithKeyOfFilter(t, filters, key, v);
    }
  }

  /** The view opens showing every record, newest first, with the arrow on
      the date column pointing down; the first click on that column sorts
      it oldest first. */
  lemma InitialView(services: seq<Service>)
    ensures FilterServices(services, InitialFilters) == services
    ensures SortIcon(InitialSortConfig, CreatedAt) == Descending
    ensures RequestSort(InitialSortConfig, CreatedAt) == SortConfig(CreatedAt, Asc)
  {
    NoFilterKeepsAll(services, InitialFilters);
  }

  /** `getFilteredServices`: sort a copy, then filter it. The result is in
      comparator order, holds exactly the passing records, each as often
      as in the input, and keeps tied records in input order; by
      `StableSortIsUnique` that fixes it completely. */
  method FilteredServices(services: seq<Service>, filters: Filters, config: SortConfig)
    returns (r: seq<Service>)
    ensures Sorted(r, config)
    ensures multiset(r) == multiset(FilterServices(services, filters))
    ensures forall x :: x in r <==> x in services && Passes(x, filters)
    ensures SameTieOrder(r, FilterServices(services, filters), config.key)
  {
    var sorted := SortedServices(services, config);
    r := FilterServices(sorted, filters);
    SubsequenceOfSortedIsSorted(r, sorted, config);
    FilterPermutation(sorted, services, filters);
    FilterKeepsTieOrder(sorted, services, filters, config.key);
    forall x | x in r
      ensures x in services
    {
      assert x in multiset(FilterServices(services, filters));
    }
    forall x | x in services && Passes(x, filters)
      ensures x in r
    {
      assert x in multiset(sorted);
    }
  }

  /** On the initial data, status "active" and category "Design" leave only
      "Logo Design". */
  lemma ActiveDesignExample()
    ensures FilterServices(ApiService.MockServices, Filters("Design", "active", "")) == [ApiService.MockServices[3]]
    ensures ApiService.MockServices[3].name == "Logo Design"
  {
    var s := ApiService.MockServices;
    var f := Filters("Design", "active", "");
    assert !Passes(s[0], f) && !Passes(s[1], f) && !Passes(s[2], f) && Passes(s[3], f) && !Passes(s[4], f);
    assert FilterServices(s[4..], f) == [];
    assert s[4..][1..] == [];
    assert s[3..][1..] == s[4..];
    assert s[2..][1..] == s[3..];
    assert s[1..][1..] == s[2..];
  }

  /** On the initial data, the search "seo" finds "SEO Optimization"
      although the case differs. */
  lemma SearchExample()
    ensures SearchPasses(ApiService.MockServices[2], Filters("", "", "seo"))
  {
    var name := ApiService.MockServices[2].name;
    assert name == "SEO" + " Optimization";
    ToLowerAppend("SEO", " Optimization");
    assert ToLower("SEO") == "seo";
    assert StartsWith(ToLower(name), ToLower("seo"));
  }

  // ---------------------------------------------------------------------
  // Table helpers

  const Unsorted := "\U{21C5}"
  const Ascending := "\U{2191}"
  const Descending := "\U{2193}"

  /** `getSortIcon(key)`. */
  function SortIcon(config: SortConfig, key: SortKey): (icon: string)
    ensures icon == Unsorted <==> key != config.key
    ensures icon == Ascending <==> key == config.key && config.direction == Asc
    ensures icon == Descending <==> key == config.key && config.direction == Desc
  {
    assert Unsorted[0] != Ascending[0] && Ascending[0] != Descending[0] && Unsorted[0] != Descending[0];
    if config.key != key then Unsorted
    else match config.direction
      case Asc => Ascending
      case Desc => Descending
  }

  /** After clicking a column, it is the only one with a direction arrow,
      and the arrow points down exactly when it was already ascending. */
  lemma SortIconAfterRequest(current: SortConfig, clicked: SortKey, key: SortKey)
    ensures key != clicked ==> SortIcon(RequestSort(current, clicked), key) == Unsorted
    ensures key == clicked ==>
      SortIcon(RequestSort(current, clicked), key) ==
        if current.key == clicked && current.direction == Asc then Descending else Ascending
  {
  }

  const ActiveClass := "bg-green-100 text-green-800"
  const PendingClass := "bg-yellow-100 text-yellow-800"
  const CompletedClass := "bg-blue-100 text-blue-800"
  const CancelledClass := "bg-red-100 text-red-800"
  const OtherClass := "bg-gray-100 text-gray-800"

  /** `getStatusClass(status)`: one badge style per known status, grey for
      anything else. */
  function StatusClass(status: string): (cls: string)
    ensures cls in {ActiveClass, PendingClass, CompletedClass, CancelledClass, OtherClass}
    ensures cls == OtherClass <==> status !in {"active", "pending", "completed", "cancelled"}
    ensures status == "active" ==> cls == ActiveClass
    ensures status == "pending" ==> cls == PendingClass
    ensures status == "completed" ==> cls == CompletedClass
    ensures status == "cancelled" ==> cls == CancelledClass
  {
    match status
    case "active" => ActiveClass
    case "pending" => PendingClass
    case "completed" => CompletedClass
    case "cancelled" => CancelledClass
    case _ => OtherClass
  }

  /** The four known statuses get four different badges. */
  lemma StatusClassDistinguishesStatuses(s1: string, s2: string)
    requires s1 in {"active", "pending", "completed", "cancelled"}
    requires s2 in {"active", "pending", "completed", "cancelled"}
    requires s1 != s2
    ensures StatusClass(s1) != StatusClass(s2)
  {
  }
}
