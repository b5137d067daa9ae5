/** From a tool call to the upstream query: validation, presets, page default,
    and the multimap of query parameters. */
module SearchQuery {

  datatype SearchParams = SearchParams(
    query: string, categories: seq<string>, language: string,
    page: int, timeRange: string, safeSearch: int)

  /** The parameters a query can have. */
  datatype Key = Q | Categories | Language | PageNo | TimeRange | SafeSearch | Format

  function Name(key: Key): string {
    match key
    case Q => "q"
    case Categories => "categories"
    case Language => "language"
    case PageNo => "pageno"
    case TimeRange => "time_range"
    case SafeSearch => "safesearch"
    case Format => "format"
  }

  /** Different parameters have different names, so none writes over another. */
  lemma NamesAreDistinct()
    ensures forall a, b :: Name(a) == Name(b) ==> a == b
  {
    forall a, b | Name(a) == Name(b)
      ensures a == b
    {
      assert |Name(a)| == |Name(b)|;
      assert |Name(a)| == 10 ==> Name(a)[0] == Name(b)[0];
    }
  }

  /** Values by parameter name. */
  type Multimap = map<string, seq<string>>

  // --- decimal numbers ------------------------------------------------------

  function Digit(d: nat): char
    requires d < 10
  {
    '0' + d as char
  }

  function Itoa(n: nat): (s: string)
    ensures s != ""
  {
    (if n < 10 then "" else Itoa(n / 10)) + [Digit(n % 10)]
  }

  function ParseDecimal(s: string): int {
    if s == "" then 0
    else ParseDecimal(s[..|s| - 1]) * 10 + (s[|s| - 1] as int - '0' as int)
  }

  lemma {:induction false} ParseUndoesItoa(n: nat)
    ensures ParseDecimal(Itoa(n)) == n
  {
    var init := if n < 10 then "" else Itoa(n / 10);
    assert Itoa(n)[..|Itoa(n)| - 1] == init;
    if 10 <= n {
      ParseUndoesItoa(n / 10);
    }
  }

  /** Digits only, and no zero in front of others. */
  predicate Decimal(s: string) {
    && s != "" && (forall k :: 0 <= k < |s| ==> '0' <= s[k] <= '9')
    && (s[0] == '0' ==> |s| == 1)
  }

  lemma {:induction false} ItoaIsDecimal(n: nat)
    ensures Decimal(Itoa(n)) && (Itoa(n)[0] == '0' <==> n == 0)
  {
    if 10 <= n {
      ItoaIsDecimal(n / 10);
    }
  }

  /** Every decimal numeral is the print of the number it stands for. */
  lemma {:induction false} ItoaUndoesParse(s: string)
    requires Decimal(s)
    ensures 0 <= ParseDecimal(s) && Itoa(ParseDecimal(s)) == s
    ensures s[0] != '0' ==> 0 < ParseDecimal(s)
  {
    hide Itoa, ParseDecimal, Digit;
    var n := |s| - 1;
    var init, d := s[..n], s[n] as int - '0' as int;
    DigitOf(s[n]);
    assert s == init + [Digit(d)];
    ParseAppends(init, d);
    ItoaOfDigit(d);
    if n != 0 {
      ItoaUndoesParse(init);
      ItoaAppends(ParseDecimal(init), d);
    }
  }

  lemma DigitOf(c: char)
    requires '0' <= c <= '9'
    ensures Digit(c as int - '0' as int) == c
    ensures Digit(c as int - '0' as int) == '0' <==> c as int - '0' as int == 0
  {
  }

  lemma ParseAppends(init: string, d: nat)
    requires d < 10
    ensures ParseDecimal(init + [Digit(d)]) == ParseDecimal(init) * 10 + d
    ensures init == "" ==> ParseDecimal(init) == 0
  {
    assert (init + [Digit(d)])[..|init|] == init;
  }

  lemma ItoaOfDigit(d: nat)
    requires d < 10
    ensures Itoa(d) == [Digit(d)]
  {
    hide Digit;
    assert d % 10 == d;
    assert Itoa(d) == "" + [Digit(d % 10)];
  }

  lemma ItoaAppends(n: nat, d: nat)
    requires 0 < n && d < 10
    ensures Itoa(n * 10 + d) == Itoa(n) + [Digit(d)]
  {
    assert (n * 10 + d) / 10 == n && (n * 10 + d) % 10 == d;
  }

  lemma SampleNumerals()
    ensures Itoa(1) == "1" && Itoa(10) == "10" && Itoa(100) == "100"
    ensures ParseDecimal("2") == 2 && ParseDecimal("98") == 98
  {
    assert "98"[..1] == "9" && "9"[..0] == "" && "2"[..0] == "";
  }

  // --- the query ----------------------------------------------------------------

  function OneUnlessEmpty(s: string): seq<string> {
    if s == "" then [] else [s]
  }

  function OneIfPositive(n: int): seq<string> {
    if 0 < n then [Itoa(n)] else []
  }

  /** The values each parameter name gets. */
  function ValuesFor(p: SearchParams, key: Key): seq<string> {
    match key
    case Q => OneUnlessEmpty(p.query)
    case Categories => p.categories
    case Language => OneUnlessEmpty(p.language)
    case PageNo => OneIfPositive(p.page)
    case TimeRange => OneUnlessEmpty(p.timeRange)
    case SafeSearch => OneIfPositive(p.safeSearch)
    case Format => ["json"]
  }

  /** The order in which the code adds them. */
  function Rank(key: Key): nat {
    match key
    case Q => 0
    case Categories => 1
    case Language => 2
    case PageNo => 3
    case TimeRange => 4
    case SafeSearch => 5
    case Format => 6
  }

  /** The part of the query made from the first `n` parameters. Those without
      values are absent. */
  function QueryUpTo(p: SearchParams, n: nat): Multimap {
    NamesAreDistinct();
    var present := set key: Key | Rank(key) < n && ValuesFor(p, key) != [];
    map key | key in present :: Name(key) := ValuesFor(p, key)
  }

  function QueryOf(p: SearchParams): Multimap {
    QueryUpTo(p, 7)
  }

  lemma UpToHas(p: SearchParams, n: nat, key: Key)
    ensures Name(key) in QueryUpTo(p, n) <==> Rank(key) < n && ValuesFor(p, key) != []
    ensures Name(key) in QueryUpTo(p, n) ==> QueryUpTo(p, n)[Name(key)] == ValuesFor(p, key)
  {
    hide Name, Rank, ValuesFor;
    NamesAreDistinct();
    if Rank(key) < n && ValuesFor(p, key) != [] {
      assert Name(key) in QueryUpTo(p, n);
    }
  }

  lemma UpToNames(p: SearchParams, n: nat, name: string) returns (key: Key)
    requires name in QueryUpTo(p, n)
    ensures Name(key) == name && Rank(key) < n && ValuesFor(p, key) != []
  {
    hide Name, Rank, ValuesFor;
    key :| Name(key) == name && Rank(key) < n && ValuesFor(p, key) != [];
  }

  lemma UpToNext(p: SearchParams, key: Key, name: string, n: nat, vs: seq<string>)
    requires name == Name(key) && n == Rank(key) && vs == ValuesFor(p, key)
    ensures name !in QueryUpTo(p, n)
    ensures QueryUpTo(p, n + 1) == if vs == [] then QueryUpTo(p, n) else QueryUpTo(p, n)[name := vs]
  {
    hide Name, Rank, ValuesFor, QueryUpTo;
    var m, m' := QueryUpTo(p, n), QueryUpTo(p, n + 1);
    var next := if vs == [] then m else m[Name(key) := vs];
    RanksAreDistinct();
    UpToHas(p, n, key);
    UpToHas(p, n + 1, key);
    forall name | name in m'
      ensures name in next && next[name] == m'[name]
    {
      var k := UpToNames(p, n + 1, name);
      UpToHas(p, n, k);
      UpToHas(p, n + 1, k);
    }
    forall name | name in m
      ensures name in m'
    {
      var k := UpToNames(p, n, name);
      UpToHas(p, n + 1, k);
    }
    assert m'.Keys == next.Keys;
  }

  lemma RanksAreDistinct()
    ensures forall a, b :: Rank(a) == Rank(b) ==> a == b
    ensures forall key :: Rank(key) < 7
  {
  }

  class Values {
    var m: Multimap

    constructor ()
      ensures m == map[]
    {
      m := map[];
    }

    method Set(key: string, value: string)
      modifies this
      ensures m == old(m)[key := [value]]
    {
      m := m[key := [value]];
    }

    method Add(key: string, value: string)
      modifies this
      ensures m == old(m)[key := (if key in old(m) then old(m)[key] else []) + [value]]
    {
      m := m[key := (if key in m then m[key] else []) + [value]];
    }
  }

  method AddCategories(query: Values, categories: seq<string>)
    requires "categories" !in query.m
    modifies query
    ensures query.m == if categories == [] then old(query.m) else old(query.m)["categories" := categories]
  {
    for i := 0 to |categories|
      invariant query.m == if i == 0 then old(query.m) else old(query.m)["categories" := categories[..i]]
    {
      query.Add("categories", categories[i]);
      assert categories[..i + 1] == categories[..i] + [categories[i]];
    }
    assert categories[..|categories|] == categories;
  }

  lemma ParametersInOrder(p: SearchParams)
    ensures Name(Q) == "q" && Rank(Q) == 0 && ValuesFor(p, Q) == OneUnlessEmpty(p.query)
    ensures Name(Categories) == "categories" && Rank(Categories) == 1 && ValuesFor(p, Categories) == p.categories
    ensures Name(Language) == "language" && Rank(Language) == 2 && ValuesFor(p, Language) == OneUnlessEmpty(p.language)
    ensures Name(PageNo) == "pageno" && Rank(PageNo) == 3 && ValuesFor(p, PageNo) == OneIfPositive(p.page)
    ensures Name(TimeRange) == "time_range" && Rank(TimeRange) == 4
    ensures ValuesFor(p, TimeRange) == OneUnlessEmpty(p.timeRange)
    ensures Name(SafeSearch) == "safesearch" && Rank(SafeSearch) == 5
    ensures ValuesFor(p, SafeSearch) == OneIfPositive(p.safeSearch)
    ensures Name(Format) == "format" && Rank(Format) == 6 && ValuesFor(p, Format) == ["json"]
  {
  }

  method BuildSearchQuery(params: SearchParams) returns (query: Values)
    ensures fresh(query) && query.m == QueryOf(params)
  {
    ParametersInOrder(params);
    hide QueryUpTo, Name, Rank, ValuesFor;
    query := new Values();
    NothingYet(params);
    if params.query != "" {
      query.Set("q", params.query);
    }
    UpToNext(params, Q, "q", 0, OneUnlessEmpty(params.query));
    assert query.m == QueryUpTo(params, 1);
    AddCategories(query, params.categories);
    UpToNext(params, Categories, "categories", 1, params.categories);
    assert query.m == QueryUpTo(params, 2);
    if params.language != "" {
      query.Set("language", params.language);
    }
    UpToNext(params, Language, "language", 2, OneUnlessEmpty(params.language));
    assert query.m == QueryUpTo(params, 3);
    if 0 < params.page {
      query.Set("pageno", Itoa(params.page));
    }
    UpToNext(params, PageNo, "pageno", 3, OneIfPositive(params.page));
    assert query.m == QueryUpTo(params, 4);
    if params.timeRange != "" {
      query.Set("time_range", params.timeRange);
    }
    UpToNext(params, TimeRange, "time_range", 4, OneUnlessEmpty(params.timeRange));
    assert query.m == QueryUpTo(params, 5);
    if 0 < params.safeSearch {
      query.Set("safesearch", Itoa(params.safeSearch));
    }
    UpToNext(params, SafeSearch, "safesearch", 5, OneIfPositive(params.safeSearch));
    assert query.m == QueryUpTo(params, 6);
    query.Set("format", "json");
    UpToNext(params, Format, "format", 6, ["json"]);
  }

  lemma NothingYet(p: SearchParams)
    ensures QueryUpTo(p, 0) == map[]
  {
  }

  // --- reading it back -------------------------------------------------------------

  function All(m: Multimap, key: Key): seq<string> {
    if Name(key) in m then m[Name(key)] else []
  }

  function First(m: Multimap, key: Key): string {
    if All(m, key) == [] then "" else All(m, key)[0]
  }

  function Decode(m: Multimap): SearchParams {
    SearchParams(First(m, Q), All(m, Categories), First(m, Language), ParseDecimal(First(m, PageNo)),
                 First(m, TimeRange), ParseDecimal(First(m, SafeSearch)))
  }

  /** Numbers that are not positive mean absent. */
  function Normalize(p: SearchParams): SearchParams {
    p.(page := if 0 < p.page then p.page else 0, safeSearch := if 0 < p.safeSearch then p.safeSearch else 0)
  }

  lemma AllOfQuery(p: SearchParams, key: Key)
    ensures All(QueryOf(p), key) == ValuesFor(p, key)
  {
    RanksAreDistinct();
    UpToHas(p, 7, key);
  }

  /** The upstream recovers every parameter, categories in order, with the numbers
      that are not positive read as absent. */
  lemma DecodeUndoesBuild(p: SearchParams)
    ensures Decode(QueryOf(p)) == Normalize(p)
  {
    hide QueryOf, All;
    AllOfQuery(p, Q);
    AllOfQuery(p, Categories);
    AllOfQuery(p, Language);
    AllOfQuery(p, PageNo);
    AllOfQuery(p, TimeRange);
    AllOfQuery(p, SafeSearch);
    if 0 < p.page {
      ParseUndoesItoa(p.page);
    }
    if 0 < p.safeSearch {
      ParseUndoesItoa(p.safeSearch);
    }
  }

  /** Two parameter sets give the same query exactly when they agree after that
      normalisation. */
  lemma SameQueryExactly(p: SearchParams, r: SearchParams)
    ensures QueryOf(p) == QueryOf(r) <==> Normalize(p) == Normalize(r)
  {
    hide QueryOf, Decode, Normalize;
    DecodeUndoesBuild(p);
    DecodeUndoesBuild(r);
    NormalizedIsSame(p);
    NormalizedIsSame(r);
  }

  lemma NormalizedIsSame(p: SearchParams)
    ensures QueryOf(Normalize(p)) == QueryOf(p)
  {
    assert forall key: Key :: ValuesFor(Normalize(p), key) == ValuesFor(p, key);
  }

  // --- the tools ---------------------------------------------------------------------

  const MAX_QUERY_LENGTH := 512
  const MAX_PAGE_NUMBER := 100

  datatype Tool = Search | News | Images | Videos | Music

  datatype Error = InvalidQuery | QueryTooLong | PageTooLarge

  datatype Result = Sent(params: SearchParams) | Rejected(error: Error)

  /** Presets override what the caller may have given. */
  function Preset(tool: Tool, input: SearchParams): SearchParams {
    match tool
    case Search => input
    case News => input.(categories := ["news"], timeRange := "day")
    case Images => input.(categories := ["images"], timeRange := "")
    case Videos => input.(categories := ["videos"], timeRange := "")
    case Music => input.(categories := ["music"], timeRange := "")
  }

  /** What a tool sends upstream. The length of the query is in bytes. */
  function Handle(tool: Tool, input: SearchParams): Result {
    if input.query == "" then Rejected(InvalidQuery)
    else if MAX_QUERY_LENGTH < |input.query| then Rejected(QueryTooLong)
    else if MAX_PAGE_NUMBER < input.page then Rejected(PageTooLarge)
    else
      var params := Preset(tool, input);
      Sent(params.(page := if params.page <= 0 then 1 else params.page))
  }

  /** Whatever the tool and the input, the upstream gets a query of 1 to 512
      bytes and a page from 1 to 100, and reads back just what was sent. */
  lemma UpstreamSeesValidated(tool: Tool, input: SearchParams)
    requires Handle(tool, input).Sent?
    ensures var seen := Decode(QueryOf(Handle(tool, input).params));
            && 1 <= |seen.query| <= MAX_QUERY_LENGTH && seen.query == input.query
            && 1 <= seen.page <= MAX_PAGE_NUMBER
            && (1 <= input.page ==> seen.page == input.page)
            && (!tool.Search? ==> |seen.categories| == 1)
            && seen.safeSearch == Normalize(input).safeSearch
  {
    DecodeUndoesBuild(Handle(tool, input).params);
  }

  /** Exactly which inputs are sent, and why others are not. */
  lemma SentExactly(tool: Tool, input: SearchParams)
    ensures Handle(tool, input).Sent? <==> 1 <= |input.query| <= 512 && input.page <= 100
    ensures Handle(tool, input) == Rejected(InvalidQuery) <==> |input.query| == 0
    ensures Handle(tool, input) == Rejected(QueryTooLong) <==> 512 < |input.query|
    ensures Handle(tool, input) == Rejected(PageTooLarge) <==> 1 <= |input.query| <= 512 && 100 < input.page
  {
  }

  /** Parameter `name` has exactly these values in the query, or is absent. */
  predicate Carries(m: Multimap, name: string, values: seq<string>) {
    if values == [] then name !in m else name in m && m[name] == values
  }

  function OneOrNone(s: string): seq<string> {
    if s == "" then [] else [s]
  }

  /** The query a tool sends, name by name. */
  lemma SentByName(tool: Tool, input: SearchParams)
    requires Handle(tool, input).Sent?
    ensures var m := QueryOf(Handle(tool, input).params);
            && Carries(m, "q", [input.query]) && Carries(m, "format", ["json"])
            && Carries(m, "language", OneOrNone(input.language))
            && Carries(m, "pageno", [Itoa(if input.page <= 0 then 1 else input.page)])
            && Carries(m, "safesearch", if input.safeSearch <= 0 then [] else [Itoa(input.safeSearch)])
            && (match tool
                case Search =>
                  Carries(m, "categories", input.categories) && Carries(m, "time_range", OneOrNone(input.timeRange))
                case News => Carries(m, "categories", ["news"]) && Carries(m, "time_range", ["day"])
                case Images => Carries(m, "categories", ["images"]) && Carries(m, "time_range", [])
                case Videos => Carries(m, "categories", ["videos"]) && Carries(m, "time_range", [])
                case Music => Carries(m, "categories", ["music"]) && Carries(m, "time_range", []))
    ensures QueryOf(Handle(tool, input).params).Keys
         <= {"q", "categories", "language", "pageno", "time_range", "safesearch", "format"}
  {
    var p := Handle(tool, input).params;
    hide QueryUpTo;
    CarriedByKey(p, Q);
    CarriedByKey(p, Categories);
    CarriedByKey(p, Language);
    CarriedByKey(p, PageNo);
    CarriedByKey(p, TimeRange);
    CarriedByKey(p, SafeSearch);
    CarriedByKey(p, Format);
    OnlyTheseNames(p);
  }

  lemma CarriedByKey(p: SearchParams, key: Key)
    ensures Carries(QueryOf(p), Name(key), ValuesFor(p, key))
  {
    RanksAreDistinct();
    UpToHas(p, 7, key);
  }

  lemma OnlyTheseNames(p: SearchParams)
    ensures QueryOf(p).Keys <= {"q", "categories", "language", "pageno", "time_range", "safesearch", "format"}
  {
    forall name | name in QueryOf(p)
      ensures name in {"q", "categories", "language", "pageno", "time_range", "safesearch", "format"}
    {
      var key := UpToNames(p, 7, name);
    }
  }

  /** Two calls look the same upstream exactly when, besides the presets, they
      agree up to page 0 or less meaning page 1 and safe search 0 or less meaning
      off. */
  lemma SameCallExactly(tool: Tool, a: SearchParams, b: SearchParams)
    requires Handle(tool, a).Sent? && Handle(tool, b).Sent?
    ensures QueryOf(Handle(tool, a).params) == QueryOf(Handle(tool, b).params) <==>
              && Preset(tool, a).(page := 0, safeSearch := 0) == Preset(tool, b).(page := 0, safeSearch := 0)
              && (a.page == b.page || (a.page <= 1 && b.page <= 1))
              && (a.safeSearch == b.safeSearch || (a.safeSearch <= 0 && b.safeSearch <= 0))
  {
    SameQueryExactly(Handle(tool, a).params, Handle(tool, b).params);
  }
}
