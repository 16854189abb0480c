/**
 The tour listing of `controllers/tourController.js`: the `aliasTopTours`
 preset, and `getAllTours`, which turns the query string into a store query
 (filter, sort, projection, skip, limit), checks that a requested page exists
 and reports how many tours it returns. The store is an input: the total
 count it reports and the function that runs a query.
 */
module TourController {
  import opened Js
  import opened Http
  import opened OperatorRewrite

  /** The query parameters that shape the query instead of filtering it. */
  const ExcludedFields: seq<string> := ["page", "sort", "limit", "fields"]

  /** What `getAllTours` hands to the store: `Tour.find(filter).sort(sort)
      .select(select).skip(skip).limit(limit)`. */
  datatype StoreQuery = StoreQuery(filter: map<string, string>, sort: string, select: string, skip: int, limit: int)

  /** The `data` of a successful listing. */
  datatype ToursPage<Doc> = ToursPage(message: string, tours: seq<Doc>)

  /** The filter part of a query string: every parameter that is not reserved. */
  function FilterPart(query: map<string, string>): map<string, string>
  {
    map k | k in query && k !in ExcludedFields :: query[k]
  }

  /** `{ ...req.query }` with each reserved key deleted in turn. The copy is
      a value: the request's own query is left as it was. */
  method StripReserved(query: map<string, string>) returns (queryObj: map<string, string>)
    ensures forall k :: k in queryObj <==> k in query && k !in ExcludedFields
    ensures forall k :: k in queryObj ==> queryObj[k] == query[k]
    ensures queryObj == FilterPart(query)
  {
    queryObj := query;
    var i := 0;
    while i < |ExcludedFields|
      invariant 0 <= i <= |ExcludedFields|
      invariant forall k :: k in queryObj <==> k in query && k !in ExcludedFields[..i]
      invariant forall k :: k in queryObj ==> queryObj[k] == query[k]
    {
      assert ExcludedFields[..i + 1] == ExcludedFields[..i] + [ExcludedFields[i]];
      queryObj := queryObj - {ExcludedFields[i]};
      i := i + 1;
    }
    assert ExcludedFields[..i] == ExcludedFields;
  }

  /** `m` with every key and every value passed through `f`, which `g` undoes;
      every key of the result comes from the one key of `m` that `g` gives back. */
  function MapThrough(m: map<string, string>, f: string -> string, g: string -> string): (r: map<string, string>)
    requires forall k :: g(f(k)) == k
    ensures forall k :: k in m ==> f(k) in r && r[f(k)] == f(m[k])
    ensures forall k :: k in r ==> g(k) in m && f(g(k)) == k
  {
    map k | k in m :: f(k) := f(m[k])
  }

  /** The filter after the operator rewrite: each key and each value rewritten. */
  function RewriteFilter(m: map<string, string>): (r: map<string, string>)
    ensures forall k :: k in m ==> Replace(k) in r && r[Replace(k)] == Replace(m[k])
    ensures forall k :: k in r ==> Unprefixed(k) in m && Replace(Unprefixed(k)) == k
  {
    ReplaceUndoneAll();
    MapThrough(m, Replace, Unprefixed)
  }

  /** `req.query[key] * 1 || dflt`: the parameter read as a number, or `dflt`
      when it is absent, zero or not a number. */
  function NumberOr(query: map<string, string>, key: string, dflt: int): int
  {
    if key !in query then dflt
    else match ToNumber(query[key])
      case Some(n) => if n != 0 then n else dflt
      case None => dflt
  }

  function Page(query: map<string, string>): int
  {
    NumberOr(query, "page", 1)
  }

  function Limit(query: map<string, string>): int
  {
    NumberOr(query, "limit", 100)
  }

  /** A comma list parameter as the store reads it: the client's list with
      a space for every comma, or `fallback` when the parameter is not given. */
  function CommaList(query: map<string, string>, key: string, fallback: string): (r: string)
    ensures StringTruthy(query, key) ==> r == ReplaceChar(query[key], ',', ' ')
    ensures StringTruthy(query, key) ==> |r| == |query[key]| && ',' !in r
    ensures !StringTruthy(query, key) ==> r == fallback
  {
    if StringTruthy(query, key) then SplitJoin(query[key], ',', ' ') else fallback
  }

  /** The sort order, newest first unless the client sorts. */
  function SortSpec(query: map<string, string>): string
  {
    CommaList(query, "sort", "-createdAt")
  }

  /** The projection, everything but the version key unless the client selects. */
  function Projection(query: map<string, string>): string
  {
    CommaList(query, "fields", "-__v")
  }

  /** How many tours come before the requested page. */
  function Skip(query: map<string, string>): int
  {
    (Page(query) - 1) * Limit(query)
  }

  /** The store query `getAllTours` builds from a query string. */
  function BuildQuery(query: map<string, string>): StoreQuery
  {
    StoreQuery(RewriteFilter(FilterPart(query)), SortSpec(query), Projection(query), Skip(query), Limit(query))
  }

  /** The `message` of a successful listing. */
  function ShowingMessage(count: nat): string
  {
    "Showing " + NatToString(count) + " tours on this page"
  }

  const PageMissing := "This page does not exist"

  /** Steps 1 to 5 of `getAllTours`: the store query, built step by step. */
  method TranslateQuery(query: map<string, string>) returns (q: StoreQuery)
    ensures q == BuildQuery(query)
  {
    // Filtering: the reserved keys are removed from a copy of the query.
    var queryObj := StripReserved(query);
    // Advanced filtering: the operator names get their `$`.
    var filter := RewriteFilter(queryObj);
    var sortBy: string;
    if StringTruthy(query, "sort") {
      sortBy := SplitJoin(query["sort"], ',', ' ');
    } else {
      sortBy := "-createdAt";
    }
    var fields: string;
    if StringTruthy(query, "fields") {
      fields := SplitJoin(query["fields"], ',', ' ');
    } else {
      fields := "-__v";
    }
    // Pagination.
    var page := NumberOr(query, "page", 1);
    var limit := NumberOr(query, "limit", 100);
    var skip := (page - 1) * limit;
    q := StoreQuery(filter, sortBy, fields, skip, limit);
    assert filter == RewriteFilter(FilterPart(query));
    assert sortBy == SortSpec(query) && fields == Projection(query);
    assert page == Page(query) && limit == Limit(query) && skip == Skip(query);
  }

  /** `getAllTours`. `countDocuments` is what `Tour.countDocuments()` resolves
      to (it is asked only when `page` is given) and `run` what awaiting a
      built query resolves to. */
  method GetAllTours<Doc>(req: Request, countDocuments: Outcome<nat>, run: StoreQuery -> Outcome<seq<Doc>>)
    returns (query: StoreQuery, resp: Response<ToursPage<Doc>>)
    ensures query == BuildQuery(req.query)
    ensures StringTruthy(req.query, "page") && countDocuments.Failed? ==>
      resp == Fail(404, countDocuments.message)
    ensures StringTruthy(req.query, "page") && countDocuments.Ok? && query.skip >= countDocuments.value ==>
      resp == Fail(404, PageMissing)
    ensures !StringTruthy(req.query, "page") || (countDocuments.Ok? && query.skip < countDocuments.value) ==>
      match run(query)
      case Failed(m) => resp == Fail(404, m)
      case Ok(tours) => resp == Success(200, ToursPage(ShowingMessage(|tours|), tours))
  {
    query := TranslateQuery(req.query);
    if StringTruthy(req.query, "page") {
      match countDocuments
      case Failed(m) =>
        resp := Fail(404, m);
        return;
      case Ok(numTours) =>
        if query.skip >= numTours {
          resp := Fail(404, PageMissing);
          return;
        }
    }
    match run(query)
    case Failed(m) =>
      resp := Fail(404, m);
    case Ok(tours) =>
      var tourCount := |tours|;
      resp := Success(200, ToursPage(ShowingMessage(tourCount), tours));
  }

  /** The query string after `aliasTopTours`. */
  function TopToursPreset(query: map<string, string>): map<string, string>
  {
    query["limit" := "5"]["sort" := "-ratingsAverage,price"]["fields" := "name,price,ratingsAverage,summary,difficulty"]
  }

  /** `aliasTopTours`: overwrites three parameters of the request's query in place. */
  method AliasTopTours(req: Request)
    modifies req`query
    ensures req.query == TopToursPreset(old(req.query))
  {
    req.query := req.query["limit" := "5"];
    req.query := req.query["sort" := "-ratingsAverage,price"];
    req.query := req.query["fields" := "name,price,ratingsAverage,summary,difficulty"];
  }

  // ---------------------------------------------------------------------------
  // Properties

  /** The filter holds one entry per parameter that is not reserved: its
      key and its value, each after the operator rewrite. */
  lemma FilterOfQuery(query: map<string, string>)
    ensures var f := RewriteFilter(FilterPart(query));
      (forall k :: k in query && k !in ExcludedFields ==> Replace(k) in f && f[Replace(k)] == Replace(query[k]))
      && (forall k :: k in f ==> Unprefixed(k) in query && Unprefixed(k) !in ExcludedFields)
  {
  }

  /** `entries` lists the entries of `m`, each key once, in some order
      (`JSON.stringify` writes them in insertion order, which a map does not keep). */
  predicate Lists(entries: seq<(string, string)>, m: map<string, string>)
  {
    (forall i, j :: 0 <= i < j < |entries| ==> entries[i].0 != entries[j].0)
    && (forall i :: 0 <= i < |entries| ==> entries[i].0 in m && m[entries[i].0] == entries[i].1)
    && (forall k :: k in m ==> exists i :: 0 <= i < |entries| && entries[i].0 == k)
  }

  /** Keys passed through an invertible `f` stay distinct. */
  lemma ThroughDistinct(entries: seq<(string, string)>, f: string -> string, g: string -> string,
                        r: seq<(string, string)>)
    requires forall k :: g(f(k)) == k
    requires forall i, j :: 0 <= i < j < |entries| ==> entries[i].0 != entries[j].0
    requires |r| == |entries| && forall i :: 0 <= i < |r| ==> r[i] == (f(entries[i].0), f(entries[i].1))
    ensures forall i, j :: 0 <= i < j < |r| ==> r[i].0 != r[j].0
  {
    forall i, j | 0 <= i < j < |r| ensures r[i].0 != r[j].0 {
      assert g(r[i].0) == entries[i].0 && g(r[j].0) == entries[j].0;
    }
  }

  /** Each entry passed through `f` is an entry of the map passed through `f`. */
  lemma ThroughEntries(entries: seq<(string, string)>, m: map<string, string>, f: string -> string, g: string -> string,
                       r: seq<(string, string)>)
    requires forall k :: g(f(k)) == k
    requires forall i :: 0 <= i < |entries| ==> entries[i].0 in m && m[entries[i].0] == entries[i].1
    requires |r| == |entries| && forall i :: 0 <= i < |r| ==> r[i] == (f(entries[i].0), f(entries[i].1))
    ensures var fm := MapThrough(m, f, g);
      forall i :: 0 <= i < |r| ==> r[i].0 in fm && fm[r[i].0] == r[i].1
  {
  }

  /** Every key of the map passed through `f` is listed. */
  lemma ThroughCovers(entries: seq<(string, string)>, m: map<string, string>, f: string -> string, g: string -> string,
                      r: seq<(string, string)>)
    requires forall k :: g(f(k)) == k
    requires forall k :: k in m ==> exists i :: 0 <= i < |entries| && entries[i].0 == k
    requires |r| == |entries| && forall i :: 0 <= i < |r| ==> r[i] == (f(entries[i].0), f(entries[i].1))
    ensures var fm := MapThrough(m, f, g);
      forall k :: k in fm ==> exists i :: 0 <= i < |r| && r[i].0 == k
  {
    var fm := MapThrough(m, f, g);
    forall k | k in fm ensures exists i :: 0 <= i < |r| && r[i].0 == k {
      var i :| 0 <= i < |entries| && entries[i].0 == g(k);
      assert r[i].0 == k;
    }
  }

  /** Passing each listed entry through `f` lists the map passed through `f`. */
  lemma ListsThrough(entries: seq<(string, string)>, m: map<string, string>, f: string -> string, g: string -> string,
                     r: seq<(string, string)>)
    requires forall k :: g(f(k)) == k
    requires Lists(entries, m)
    requires |r| == |entries| && forall i :: 0 <= i < |r| ==> r[i] == (f(entries[i].0), f(entries[i].1))
    ensures Lists(r, MapThrough(m, f, g))
  {
    ThroughDistinct(entries, f, g, r);
    ThroughEntries(entries, m, f, g, r);
    ThroughCovers(entries, m, f, g, r);
  }

  /** Rewriting each listed entry lists the rewritten filter. */
  lemma RewrittenLists(entries: seq<(string, string)>, m: map<string, string>)
    requires Lists(entries, m)
    ensures Lists(RewriteEntries(entries), RewriteFilter(m))
  {
    ReplaceUndoneAll();
    ListsThrough(entries, m, Replace, Unprefixed, RewriteEntries(entries));
  }

  /** `JSON.parse(queryStr)` reads back the filter the model builds: the
      rewrite of the serialised query object is the serialisation of the
      rewritten filter. */
  lemma SerialisedFilter(query: map<string, string>, entries: seq<(string, string)>)
    requires Lists(entries, FilterPart(query))
    ensures Replace(Stringify(entries)) == Stringify(RewriteEntries(entries))
    ensures Lists(RewriteEntries(entries), RewriteFilter(FilterPart(query)))
  {
    ReplaceStringify(entries);
    RewrittenLists(entries, FilterPart(query));
  }

  /** The preset's page and limit: the client's page, and 5 tours a page. */
  lemma PresetPaging(query: map<string, string>)
    ensures var p := TopToursPreset(query);
      Limit(p) == 5 && Page(p) == Page(query) && Skip(p) == (Page(query) - 1) * 5
  {
    var p := TopToursPreset(query);
    NatToStringRoundTrip(5);
    assert NatToString(5) == "5";
    assert p["limit"] == "5";
    assert Limit(p) == 5;
    assert "page" in p <==> "page" in query;
    assert "page" in query ==> p["page"] == query["page"];
    assert Page(p) == Page(query);
  }

  /** Setting a reserved parameter leaves the filter part alone. */
  lemma FilterPartIgnores(query: map<string, string>, key: string, value: string)
    requires key in ExcludedFields
    ensures FilterPart(query[key := value]) == FilterPart(query)
  {
    var q := query[key := value];
    assert FilterPart(q).Keys == FilterPart(query).Keys;
  }

  /** The preset overwrites only reserved parameters, so the filter is the client's. */
  lemma PresetFilter(query: map<string, string>)
    ensures FilterPart(TopToursPreset(query)) == FilterPart(query)
  {
    var q1 := query["limit" := "5"];
    var q2 := q1["sort" := "-ratingsAverage,price"];
    FilterPartIgnores(query, "limit", "5");
    FilterPartIgnores(q1, "sort", "-ratingsAverage,price");
    FilterPartIgnores(q2, "fields", "name,price,ratingsAverage,summary,difficulty");
  }

  /** The preset sorts by rating, descending, then by price. */
  lemma PresetSort(query: map<string, string>)
    ensures SortSpec(TopToursPreset(query)) == "-ratingsAverage price"
  {
    var p := TopToursPreset(query);
    assert p["sort"] == "-ratingsAverage,price";
    assert ReplaceChar("-ratingsAverage,price", ',', ' ') == "-ratingsAverage price";
  }

  /** The preset leaves every other parameter as the client sent it. */
  lemma PresetKeepsOthers(query: map<string, string>, key: string)
    requires key != "limit" && key != "sort" && key != "fields"
    ensures key in TopToursPreset(query) <==> key in query
    ensures key in query ==> TopToursPreset(query)[key] == query[key]
  {
  }

  /** Whatever the client sent for them, the preset sorts by rating (descending)
      then price and returns at most five tours; the filter and the page are
      the client's. */
  lemma TopToursTranslation(query: map<string, string>)
    ensures var r := BuildQuery(TopToursPreset(query));
      r.sort == "-ratingsAverage price"
      && r.limit == 5 && r.skip == (Page(query) - 1) * 5
      && r.filter == BuildQuery(query).filter
  {
    PresetPaging(query);
    PresetFilter(query);
    PresetSort(query);
  }

  /** A page number the client writes in decimal is the page used, and the
      query skips the pages before it. Beyond `MaxSafeInteger` JavaScript
      would round the page, so the lemma stops there. */
  lemma RequestedPage(query: map<string, string>, page: nat)
    requires 0 < page <= MaxSafeInteger
    requires "page" in query && query["page"] == NatToString(page)
    ensures Page(query) == page
    ensures Skip(query) == (page - 1) * Limit(query)
  {
    NatToStringRoundTrip(page);
  }

  /** A paging parameter that is absent, empty, written as zero, or a word
      of lower-case letters (`NaN` in JavaScript) counts as not given. */
  predicate NoUsableNumber(query: map<string, string>, key: string)
  {
    key !in query || query[key] == ""
    || (IsDigits(query[key]) && DigitsValue(query[key]) == 0)
    || IsLowerWord(query[key])
  }

  /** Without usable paging parameters the query starts at the first tour
      and returns at most 100. */
  lemma DefaultPaging(query: map<string, string>)
    requires NoUsableNumber(query, "page") && NoUsableNumber(query, "limit")
    ensures Page(query) == 1 && Limit(query) == 100 && Skip(query) == 0
  {
    if "page" in query && IsLowerWord(query["page"]) {
      LowerWordNotANumber(query, "page");
    }
    if "limit" in query && IsLowerWord(query["limit"]) {
      LowerWordNotANumber(query, "limit");
    }
  }

  lemma LowerWordNotANumber(query: map<string, string>, key: string)
    requires key in query && IsLowerWord(query[key])
    ensures ToNumber(query[key]) == None
  {
    var s := query[key];
    assert 'a' <= s[0] <= 'z';
  }

  /** A parameter written in decimal digits reads as at least its default,
      when that is positive: `0` is falsy and falls back to the default. */
  lemma NumberOrPositive(query: map<string, string>, key: string, dflt: int)
    requires dflt >= 1
    requires StringTruthy(query, key) ==> IsDigits(query[key])
    ensures NumberOr(query, key, dflt) >= 1
  {
  }

  lemma ProductNonNegative(a: int, b: int)
    requires a >= 0 && b >= 1
    ensures a * b >= 0
  {
  }

  /** When the page and the limit are written in decimal digits, a given
      page skips at least zero tours, so on an empty collection the check
      `skip >= numTours` always fails the request. */
  lemma EmptyCollectionHasNoPage(query: map<string, string>)
    requires StringTruthy(query, "page") && IsDigits(query["page"])
    requires StringTruthy(query, "limit") ==> IsDigits(query["limit"])
    ensures Page(query) >= 1 && Limit(query) >= 1
    ensures Skip(query) >= 0
  {
    NumberOrPositive(query, "page", 1);
    NumberOrPositive(query, "limit", 100);
    ProductNonNegative(Page(query) - 1, Limit(query));
  }

  /** `Number("-1")` is -1. */
  lemma MinusOne()
    ensures ToNumber("-1") == Some(-1)
  {
    var s := "-1";
    assert s[0] == '-' && s[1..] == "1";
    assert IsDigits("1");
    assert "1"[..0] == [];
    assert DigitsValue("1") == 1;
  }

  /** A negative page number gets past the check even on an empty
      collection: its skip is negative. (In JavaScript a fractional page
      below 1, such as `0.5`, gets past it too, with skip -50; `ToNumber`
      does not read fractions.) */
  lemma NegativePagePassesCheck()
    ensures var q := map["page" := "-1"];
      StringTruthy(q, "page") && Skip(q) == -200
  {
    var q := map["page" := "-1"];
    MinusOne();
    assert Page(q) == -1;
    assert Limit(q) == 100;
  }

  /** The success message carries exactly the number of tours returned. */
  lemma MessageReportsCount(count: nat)
    ensures var m := ShowingMessage(count); var digits := NatToString(count);
      |m| == |digits| + 27 && m[..8] == "Showing " && ToNumber(m[8..8 + |digits|]) == Some(count)
  {
    var m := ShowingMessage(count);
    var digits := NatToString(count);
    assert m[8..8 + |digits|] == digits;
    NatToStringRoundTrip(count);
  }
}
