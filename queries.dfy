/**
 * The read side of the store: the native filtered/sorted query and the derived finders,
 * each as a pure function of the table's rows in scan order.
 */
module Queries {
  import opened Wrappers
  import opened JavaText
  import opened Entity

  /** The sort keys the native query knows. */
  datatype SortField = Stars | Forks | Updated

  /** Which `CASE WHEN :sort = ...` branch of the ORDER BY is live; none for any other word. */
  function OrderFieldOf(sort: string): (f: Option<SortField>)
    ensures f == Some(Stars) <==> sort == "stars"
    ensures f == Some(Forks) <==> sort == "forks"
    ensures f == Some(Updated) <==> sort == "updated"
  {
    if sort == "stars" then Some(Stars)
    else if sort == "forks" then Some(Forks)
    else if sort == "updated" then Some(Updated)
    else None
  }

  /** The column a sort field orders by. */
  function KeyOf(r: Record, f: SortField): Option<int> {
    match f
    case Stars => r.starsCount
    case Forks => r.forksCount
    case Updated => if r.lastUpdatedDate.Some? then Some(r.lastUpdatedDate.value) else None
  }

  /** Descending order on one nullable key: a null key ranks below every value. */
  predicate AtLeast(x: Option<int>, y: Option<int>) {
    y.None? || (x.Some? && x.value >= y.value)
  }

  /** `ORDER BY key DESC`: no row is followed by a row with a larger key. */
  predicate SortedDesc(s: seq<Record>, f: SortField) {
    forall i, j :: 0 <= i < j < |s| ==> AtLeast(KeyOf(s[i], f), KeyOf(s[j], f))
  }

  /** Places `x` before the first row it ranks at least as high as. */
  function Insert(x: Record, s: seq<Record>, f: SortField): (r: seq<Record>)
    requires SortedDesc(s, f)
    ensures multiset(r) == multiset(s) + multiset{x}
    ensures SortedDesc(r, f)
  {
    if s == [] then [x]
    else if AtLeast(KeyOf(x, f), KeyOf(s[0], f)) then [x] + s
    else
      var rest := Insert(x, s[1..], f);
      assert s == [s[0]] + s[1..];
      assert forall k :: 0 <= k < |rest| ==> rest[k] in multiset(s[1..]) + multiset{x};
      [s[0]] + rest
  }

  /** A stable descending sort; rows with equal keys keep their scan order. */
  function SortDesc(s: seq<Record>, f: SortField): (r: seq<Record>)
    ensures multiset(r) == multiset(s)
    ensures SortedDesc(r, f)
  {
    if s == [] then []
    else
      assert s == [s[0]] + s[1..];
      Insert(s[0], SortDesc(s[1..], f), f)
  }

  /** `LOWER(r.programming_language) = LOWER(:language)`; a null on either side never matches. */
  predicate LanguageMatches(r: Record, language: Option<string>) {
    r.programmingLanguage.Some? && language.Some? && EqualsIgnoreCase(r.programmingLanguage.value, language.value)
  }

  /** `r.stars_count >= :minStars`; a null on either side never matches. */
  predicate StarsAtLeast(r: Record, minStars: Option<int>) {
    r.starsCount.Some? && minStars.Some? && r.starsCount.value >= minStars.value
  }

  /** The WHERE clause of the native query: each absent parameter imposes no constraint. */
  predicate MatchesFilters(r: Record, language: Option<string>, minStars: Option<int>) {
    && (language.None? || LanguageMatches(r, language))
    && (minStars.None? || StarsAtLeast(r, minStars))
  }

  /** The rows satisfying `p`, in scan order. */
  function Select(rows: seq<Record>, p: Record -> bool): (r: seq<Record>)
    ensures forall x :: multiset(r)[x] == if p(x) then multiset(rows)[x] else 0
  {
    if rows == [] then []
    else
      assert rows == [rows[0]] + rows[1..];
      (if p(rows[0]) then [rows[0]] else []) + Select(rows[1..], p)
  }

  /** Selections under predicates that agree on every row are equal. */
  lemma {:induction false} SelectCongruent(rows: seq<Record>, p: Record -> bool, q: Record -> bool)
    requires forall x :: p(x) == q(x)
    ensures Select(rows, p) == Select(rows, q)
  {
    if rows != [] {
      SelectCongruent(rows[1..], p, q);
    }
  }

  /** Selecting with a predicate that always holds returns the rows unchanged. */
  lemma {:induction false} SelectAll(rows: seq<Record>, p: Record -> bool)
    requires forall x :: p(x)
    ensures Select(rows, p) == rows
  {
    if rows != [] {
      SelectAll(rows[1..], p);
    }
  }

  /** Selecting with a predicate that never holds returns nothing. */
  lemma {:induction false} SelectNone(rows: seq<Record>, p: Record -> bool)
    requires forall x :: !p(x)
    ensures Select(rows, p) == []
  {
    if rows != [] {
      SelectNone(rows[1..], p);
    }
  }

  /**
   * `findRepositoriesWithFilters(language, minStars, sort)`: exactly the rows that match the
   * conjunctive filters, each as often as it is stored, with no limit, in descending order of
   * the key named by `sort`; for any other word the ORDER BY has no effect.
   */
  function FindRepositoriesWithFilters(rows: seq<Record>, language: Option<string>, minStars: Option<int>,
                                       sort: string): (r: seq<Record>)
    ensures forall x :: multiset(r)[x] == if MatchesFilters(x, language, minStars) then multiset(rows)[x] else 0
    ensures sort == "stars" ==> SortedDesc(r, Stars)
    ensures sort == "forks" ==> SortedDesc(r, Forks)
    ensures sort == "updated" ==> SortedDesc(r, Updated)
  {
    var matching := Select(rows, x => MatchesFilters(x, language, minStars));
    match OrderFieldOf(sort)
    case None => matching
    case Some(f) => SortDesc(matching, f)
  }

  /** `findByProgrammingLanguageIgnoreCaseOrderByStarsCountDesc(language)`. */
  function FindByLanguageOrderByStars(rows: seq<Record>, language: Option<string>): (r: seq<Record>)
    ensures forall x :: multiset(r)[x] == if LanguageMatches(x, language) then multiset(rows)[x] else 0
    ensures SortedDesc(r, Stars)
  {
    SortDesc(Select(rows, x => LanguageMatches(x, language)), Stars)
  }

  /** `findByStarsCountGreaterThanEqualOrderByStarsCountDesc(minStars)`. */
  function FindByMinStarsOrderByStars(rows: seq<Record>, minStars: Option<int>): (r: seq<Record>)
    ensures forall x :: multiset(r)[x] == if StarsAtLeast(x, minStars) then multiset(rows)[x] else 0
    ensures SortedDesc(r, Stars)
  {
    SortDesc(Select(rows, x => StarsAtLeast(x, minStars)), Stars)
  }

  /** `findAllByOrderByStarsCountDesc`, `findAllByOrderByForksCountDesc`, `findAllByOrderByLastUpdatedDateDesc`. */
  function FindAllOrderBy(rows: seq<Record>, f: SortField): (r: seq<Record>)
    ensures multiset(r) == multiset(rows)
    ensures SortedDesc(r, f)
  {
    SortDesc(rows, f)
  }

  /** The word the native query's ORDER BY expects for a sort field. */
  function SortWord(f: SortField): string {
    match f
    case Stars => "stars"
    case Forks => "forks"
    case Updated => "updated"
  }

  /**
   * The language finder agrees with the native query given only that language, ordered by
   * stars; for a null language it returns nothing, whereas the native query returns every row.
   */
  lemma LanguageFinderAgrees(rows: seq<Record>, language: Option<string>)
    ensures language.Some? ==>
      FindByLanguageOrderByStars(rows, language) == FindRepositoriesWithFilters(rows, language, None, "stars")
    ensures language.None? ==> FindByLanguageOrderByStars(rows, language) == []
  {
    if language.Some? {
      SelectCongruent(rows, x => LanguageMatches(x, language), x => MatchesFilters(x, language, None));
    } else {
      SelectNone(rows, x => LanguageMatches(x, language));
    }
  }

  /**
   * The minimum-stars finder agrees with the native query given only that bound, ordered by
   * stars; for a null bound it returns nothing.
   */
  lemma MinStarsFinderAgrees(rows: seq<Record>, minStars: Option<int>)
    ensures minStars.Some? ==>
      FindByMinStarsOrderByStars(rows, minStars) == FindRepositoriesWithFilters(rows, None, minStars, "stars")
    ensures minStars.None? ==> FindByMinStarsOrderByStars(rows, minStars) == []
  {
    if minStars.Some? {
      SelectCongruent(rows, x => StarsAtLeast(x, minStars), x => MatchesFilters(x, None, minStars));
    } else {
      SelectNone(rows, x => StarsAtLeast(x, minStars));
    }
  }

  /** The unfiltered derived finders agree with the native query without filters. */
  lemma FindAllAgrees(rows: seq<Record>, f: SortField)
    ensures FindAllOrderBy(rows, f) == FindRepositoriesWithFilters(rows, None, None, SortWord(f))
  {
    SelectAll(rows, x => MatchesFilters(x, None, None));
  }
}
