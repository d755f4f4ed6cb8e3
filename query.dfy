/** The dashboard's query pipeline (`renderEntries` in entries.js): search,
    then the today-only date filter, then sort by date on a copy, then cut
    out the current page of five. Every stage is a pure function of the
    loaded collection and the view state. */
module Query {
  import opened Wrappers
  import opened Journal
  import opened Text
  import opened Seqs

  datatype SortOrder = Newest | Oldest
  datatype DateFilterMode = All | Today

  /** `itemsPerPage`. */
  const ItemsPerPage: nat := 5

  // ---------------------------------------------------------------------------
  // Search
  // ---------------------------------------------------------------------------

  /** `normalize(str)`: `null`/`undefined` become `''`, anything else is
      lower-cased. */
  function Normalize(str: Option<string>): (r: string)
    ensures str.None? ==> r == ""
    ensures str.Some? ==> |r| == |str.value|
    ensures str.Some? ==> forall i :: 0 <= i < |r| ==> r[i] == LowerChar(str.value[i])
    ensures forall i :: 0 <= i < |r| ==> !('A' <= r[i] <= 'Z')
  {
    match str
    case None => ""
    case Some(s) => Lower(s)
  }

  lemma NormalizeIdempotent(str: Option<string>)
    ensures Normalize(Some(Normalize(str))) == Normalize(str)
  {
    if str.Some? {
      LowerIdempotent(str.value);
    }
  }

  /** The text a search looks in: title, content, mood and every tag, joined
      with single spaces, so each of them occurs in it. */
  function Haystack(e: Entry): (r: string)
    ensures forall k :: 0 <= k < |e.tags| ==> Contains(r, e.tags[k])
    ensures Contains(r, e.title) && Contains(r, e.content) && Contains(r, e.mood)
  {
    var parts := [e.title, e.content, e.mood] + e.tags;
    JoinContainsParts(" ", parts, 0);
    JoinContainsParts(" ", parts, 1);
    JoinContainsParts(" ", parts, 2);
    forall k | 0 <= k < |e.tags|
      ensures Contains(Join(" ", parts), e.tags[k])
    {
      assert parts[k + 3] == e.tags[k];
      JoinContainsParts(" ", parts, k + 3);
    }
    Join(" ", parts)
  }

  /** Every text includes the empty term, so the `if (searchTerm)` guard
      changes nothing: the empty term would match every entry anyway. */
  lemma EmptyTermMatchesAll(e: Entry)
    ensures MatchesSearch(e, "")
  {
    ContainsEmpty(Normalize(Some(Haystack(e))));
  }

  /** The lower-cased haystack contains the (already normalized) term. */
  predicate MatchesSearch(e: Entry, term: string)
  {
    Contains(Normalize(Some(Haystack(e))), term)
  }

  /** The search stage: an empty term keeps everything, any other term keeps
      exactly the matching entries. */
  function Search(s: seq<Entry>, term: string): (r: seq<Entry>)
    ensures term == "" ==> r == s
    ensures term != "" ==> forall e :: e in r <==> e in s && MatchesSearch(e, term)
    ensures forall e :: multiset(r)[e] == if term == "" || MatchesSearch(e, term) then multiset(s)[e] else 0
  {
    if term == "" then s
    else
      var p := (e: Entry) => MatchesSearch(e, term);
      assert forall e :: p(e) == MatchesSearch(e, term);
      Filter(s, p)
  }

  /** Search results keep the collection's order. */
  lemma SearchIsSubseq(s: seq<Entry>, term: string)
    ensures IsSubseq(Search(s, term), s)
  {
    if term == "" {
      SubseqRefl(s);
    } else {
      FilterIsSubseq(s, (e: Entry) => MatchesSearch(e, term));
    }
  }

  // ---------------------------------------------------------------------------
  // Date filter
  // ---------------------------------------------------------------------------

  /** `isSameDay(dateString, today)`: an empty or unparsable date is never
      today; otherwise year, month and day must all agree. */
  function IsSameDay(date: string, today: CalendarDate, parse: DateParser): (b: bool)
    ensures date == "" || parse(date).Invalid? ==> !b
    ensures b <==> date != "" && parse(date).Valid? && parse(date).on.year == today.year
                   && parse(date).on.month == today.month && parse(date).on.day == today.day
  {
    date != "" && parse(date).Valid? && parse(date).on == today
  }

  /** The date-filter stage. */
  function FilterByDate(s: seq<Entry>, mode: DateFilterMode, today: CalendarDate, parse: DateParser): (r: seq<Entry>)
    ensures mode == All ==> r == s
    ensures mode == Today ==> forall e :: e in r <==> e in s && IsSameDay(e.date, today, parse)
    ensures mode == Today ==> forall e :: e in r ==> e.date != "" && parse(e.date).Valid?
    ensures forall e :: multiset(r)[e] == if mode == All || IsSameDay(e.date, today, parse) then multiset(s)[e] else 0
  {
    if mode == Today then
      var p := (e: Entry) => IsSameDay(e.date, today, parse);
      assert forall e :: p(e) == IsSameDay(e.date, today, parse);
      Filter(s, p)
    else
      assert mode == All;
      s
  }

  // ---------------------------------------------------------------------------
  // Sort
  // ---------------------------------------------------------------------------

  predicate HasValidDate(e: Entry, parse: DateParser)
  {
    parse(e.date).Valid?
  }

  predicate AllDatesValid(s: seq<Entry>, parse: DateParser)
  {
    forall i :: 0 <= i < |s| ==> HasValidDate(s[i], parse)
  }

  /** The timestamp `new Date(e.date)` subtracts as (0 when invalid; the
      comparator never uses it then). */
  function Time(e: Entry, parse: DateParser): int
  {
    match parse(e.date)
    case Valid(_, t) => t
    case Invalid => 0
  }

  /** The sort comparator: 0 when either date is invalid, otherwise the
      difference of the timestamps, oldest or newest first. */
  function Compare(a: Entry, b: Entry, order: SortOrder, parse: DateParser): (r: int)
    ensures !HasValidDate(a, parse) || !HasValidDate(b, parse) ==> r == 0
  {
    if !HasValidDate(a, parse) || !HasValidDate(b, parse) then 0
    else if order == Oldest then Time(a, parse) - Time(b, parse)
    else Time(b, parse) - Time(a, parse)
  }

  /** Between two valid dates the comparator keeps `a` first exactly when
      it may stand before `b` in the requested order, and it is
      antisymmetric. */
  lemma CompareSign(a: Entry, b: Entry, order: SortOrder, parse: DateParser)
    requires HasValidDate(a, parse) && HasValidDate(b, parse)
    ensures Compare(a, b, order, parse) <= 0 <==> Before(a, b, order, parse)
    ensures Compare(a, b, order, parse) == -Compare(b, a, order, parse)
  {
  }

  /** `a` may stand before `b` in the requested order. */
  predicate Before(a: Entry, b: Entry, order: SortOrder, parse: DateParser)
  {
    if order == Oldest then Time(a, parse) <= Time(b, parse) else Time(a, parse) >= Time(b, parse)
  }

  /** Non-decreasing timestamps for oldest-first, non-increasing for
      newest-first. */
  predicate Ordered(s: seq<Entry>, order: SortOrder, parse: DateParser)
  {
    forall i, j :: 0 <= i < j < |s| ==> Before(s[i], s[j], order, parse)
  }

  /** One step of a stable insertion sort driven by the comparator: `x` goes
      after every element that does not compare greater than it. */
  function Insert(x: Entry, s: seq<Entry>, order: SortOrder, parse: DateParser): (r: seq<Entry>)
    ensures |r| == |s| + 1
    ensures multiset(r) == multiset(s) + multiset{x}
    decreases |s|
  {
    if s == [] then [x]
    else if Compare(x, s[0], order, parse) < 0 then [x] + s
    else
      assert s == [s[0]] + s[1..];
      [s[0]] + Insert(x, s[1..], order, parse)
  }

  lemma {:induction false} InsertOrdered(x: Entry, s: seq<Entry>, order: SortOrder, parse: DateParser)
    requires AllDatesValid(s, parse) && HasValidDate(x, parse) && Ordered(s, order, parse)
    ensures Ordered(Insert(x, s, order, parse), order, parse)
    decreases |s|
  {
    if s == [] {
    } else if Compare(x, s[0], order, parse) < 0 {
      CompareSign(x, s[0], order, parse);
      forall e | e in s ensures Before(x, e, order, parse) {
        var j :| 0 <= j < |s| && s[j] == e;
        if j > 0 {
          assert Before(s[0], s[j], order, parse);
        }
      }
      ConsOrdered(x, s, order, parse);
    } else {
      var tail := s[1..];
      assert AllDatesValid(tail, parse);
      assert Ordered(tail, order, parse);
      InsertOrdered(x, tail, order, parse);
      HeadBeforeInserted(x, s, order, parse);
      ConsOrdered(s[0], Insert(x, tail, order, parse), order, parse);
    }
  }

  /** When `x` goes after the head, the head still comes before everything
      that follows it. */
  lemma HeadBeforeInserted(x: Entry, s: seq<Entry>, order: SortOrder, parse: DateParser)
    requires s != [] && AllDatesValid(s, parse) && HasValidDate(x, parse) && Ordered(s, order, parse)
    requires Compare(x, s[0], order, parse) >= 0
    ensures forall e :: e in Insert(x, s[1..], order, parse) ==> Before(s[0], e, order, parse)
  {
    var rest := Insert(x, s[1..], order, parse);
    forall e | e in rest ensures Before(s[0], e, order, parse) {
      assert e in multiset(rest);
      if e == x {
        CompareSign(s[0], x, order, parse);
      } else {
        assert e in s[1..];
        var j :| 1 <= j < |s| && s[j] == e;
      }
    }
  }

  /** An element that may stand before every other keeps an ordered list
      ordered when put in front. */
  lemma ConsOrdered(h: Entry, s: seq<Entry>, order: SortOrder, parse: DateParser)
    requires Ordered(s, order, parse)
    requires forall e :: e in s ==> Before(h, e, order, parse)
    ensures Ordered([h] + s, order, parse)
  {
    var r := [h] + s;
    forall i, j | 0 <= i < j < |r| ensures Before(r[i], r[j], order, parse) {
      if i == 0 {
        assert r[j] in s;
      } else {
        assert r[i] == s[i - 1] && r[j] == s[j - 1];
      }
    }
  }

  /** `entries.slice().sort(comparator)`, with the engine's sort taken to be
      a stable insertion sort: the result is a permutation of the input, and
      it is in date order when every date parses. */
  function SortByDate(s: seq<Entry>, order: SortOrder, parse: DateParser): (r: seq<Entry>)
    ensures multiset(r) == multiset(s)
    ensures |r| == |s|
    ensures AllDatesValid(s, parse) ==> Ordered(r, order, parse)
    decreases |s|
  {
    if s == [] then []
    else
      var n := |s| - 1;
      assert s == s[..n] + [s[n]];
      assert AllDatesValid(s, parse) ==> AllDatesValid(s[..n], parse);
      var sorted := SortByDate(s[..n], order, parse);
      assert AllDatesValid(s, parse) ==> Ordered(Insert(s[n], sorted, order, parse), order, parse) by {
        if AllDatesValid(s, parse) {
          forall i | 0 <= i < |sorted| ensures HasValidDate(sorted[i], parse) {
            assert sorted[i] in multiset(s[..n]);
          }
          InsertOrdered(s[n], sorted, order, parse);
        }
      }
      Insert(s[n], sorted, order, parse)
  }

  // ---------------------------------------------------------------------------
  // Pagination
  // ---------------------------------------------------------------------------

  function Min(a: int, b: int): int
  {
    if a <= b then a else b
  }

  /** `Math.ceil(n / itemsPerPage)`: the fewest pages of five that hold `n`
      entries, which is 0 when there are none. */
  function TotalPages(n: nat): (t: nat)
    ensures t * ItemsPerPage >= n
    ensures t > 0 ==> (t - 1) * ItemsPerPage < n
  {
    (n + ItemsPerPage - 1) / ItemsPerPage
  }

  /** `entries.slice((page - 1) * 5, page * 5)`: entries `(page-1)*5` up to
      but excluding `page*5`, clipped to the end of the list. */
  function Page(s: seq<Entry>, page: int): (r: seq<Entry>)
    requires page >= 1
    ensures |r| <= ItemsPerPage
    ensures |r| == if (page - 1) * ItemsPerPage < |s| then Min(ItemsPerPage, |s| - (page - 1) * ItemsPerPage) else 0
    ensures forall k :: 0 <= k < |r| ==> (page - 1) * ItemsPerPage + k < |s|
                                         && r[k] == s[(page - 1) * ItemsPerPage + k]
    ensures page <= TotalPages(|s|) <==> r != []
    ensures page < TotalPages(|s|) ==> |r| == ItemsPerPage
  {
    s[Min((page - 1) * ItemsPerPage, |s|)..Min(page * ItemsPerPage, |s|)]
  }

  /** Pages 1 to `n`, one after the other. */
  function PagesUpTo(s: seq<Entry>, n: nat): seq<Entry>
  {
    if n == 0 then [] else PagesUpTo(s, n - 1) + Page(s, n)
  }

  lemma {:induction false} PagesUpToIsPrefix(s: seq<Entry>, n: nat)
    ensures PagesUpTo(s, n) == s[..Min(n * ItemsPerPage, |s|)]
  {
    if n > 0 {
      PagesUpToIsPrefix(s, n - 1);
      var lo := Min((n - 1) * ItemsPerPage, |s|);
      var hi := Min(n * ItemsPerPage, |s|);
      assert s[..lo] + s[lo..hi] == s[..hi];
    }
  }

  /** The page buttons 1..totalPages together show every result exactly once,
      in order. */
  lemma PaginationCovers(s: seq<Entry>)
    ensures PagesUpTo(s, TotalPages(|s|)) == s
  {
    PagesUpToIsPrefix(s, TotalPages(|s|));
  }

  // ---------------------------------------------------------------------------
  // The whole pipeline
  // ---------------------------------------------------------------------------

  /** The searched, date-filtered and sorted list before pagination. */
  function Results(s: seq<Entry>, term: string, mode: DateFilterMode, order: SortOrder,
                   today: CalendarDate, parse: DateParser): (r: seq<Entry>)
    ensures multiset(r) == multiset(FilterByDate(Search(s, term), mode, today, parse))
  {
    SortByDate(FilterByDate(Search(s, term), mode, today, parse), order, parse)
  }

  /** What `renderEntries` shows: the entries of the current page and the
      number of page buttons. */
  datatype View = View(visible: seq<Entry>, totalPages: nat)

  function Render(s: seq<Entry>, term: string, mode: DateFilterMode, order: SortOrder, page: int,
                  today: CalendarDate, parse: DateParser): (v: View)
    requires page >= 1
    ensures |v.visible| <= ItemsPerPage
    ensures forall e :: e in v.visible ==> e in s
    ensures forall e :: e in v.visible && term != "" ==> MatchesSearch(e, term)
    ensures forall e :: e in v.visible && mode == Today ==> IsSameDay(e.date, today, parse)
    ensures page > v.totalPages <==> v.visible == []
    ensures v.totalPages == TotalPages(|Results(s, term, mode, order, today, parse)|)
    ensures v.totalPages == 0 <==> Results(s, term, mode, order, today, parse) == []
    ensures var results := Results(s, term, mode, order, today, parse);
            var first := (page - 1) * ItemsPerPage;
            && |v.visible| == (if first < |results| then Min(ItemsPerPage, |results| - first) else 0)
            && forall k :: 0 <= k < |v.visible| ==> v.visible[k] == results[first + k]
  {
    var results := Results(s, term, mode, order, today, parse);
    ResultsFrom(s, term, mode, order, today, parse);
    var visible := Page(results, page);
    assert forall e :: e in visible ==> e in results;
    View(visible, TotalPages(|results|))
  }

  /** Every result is a stored entry that passed the search and the date
      filter. */
  lemma ResultsFrom(s: seq<Entry>, term: string, mode: DateFilterMode, order: SortOrder,
                    today: CalendarDate, parse: DateParser)
    ensures forall e :: e in Results(s, term, mode, order, today, parse) ==>
              && e in s
              && (term != "" ==> MatchesSearch(e, term))
              && (mode == Today ==> IsSameDay(e.date, today, parse))
  {
    var results := Results(s, term, mode, order, today, parse);
    var searched := Search(s, term);
    var filtered := FilterByDate(searched, mode, today, parse);
    forall e | e in results
      ensures e in s && (term != "" ==> MatchesSearch(e, term)) && (mode == Today ==> IsSameDay(e.date, today, parse))
    {
      assert multiset(results)[e] > 0;
      assert multiset(filtered)[e] > 0;
      assert multiset(searched)[e] > 0;
      assert multiset(s)[e] > 0;
    }
  }

  /** A search only ever narrows: every result for a term is, with at least
      its multiplicity, a result for the empty term. */
  lemma SearchNarrows(s: seq<Entry>, term: string, mode: DateFilterMode, order: SortOrder,
                      today: CalendarDate, parse: DateParser)
    ensures multiset(Results(s, term, mode, order, today, parse))
            <= multiset(Results(s, "", mode, order, today, parse))
  {
    var narrow := FilterByDate(Search(s, term), mode, today, parse);
    var wide := FilterByDate(Search(s, ""), mode, today, parse);
    forall e
      ensures multiset(narrow)[e] <= multiset(wide)[e]
    {
      assert multiset(Search(s, term))[e] <= multiset(Search(s, ""))[e];
    }
  }
}
