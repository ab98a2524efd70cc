/**
 * The search-fetch-reconcile service: sort normalisation, mapping upstream items to records,
 * the insert-or-update reconciliation against the keyed store, and the filtered listing.
 */
module Service {
  import opened Wrappers
  import opened JavaText
  import opened Entity
  import opened Dto
  import opened Queries
  import opened GitHubApi

  /** The owner name recorded when an upstream item has no owner object. */
  const UnknownOwner := "Unknown"

  // ---------------------------------------------------------------------------------------
  // Sort normalisation
  // ---------------------------------------------------------------------------------------

  /** One of the three sort words the listing accepts. */
  predicate IsSortWord(s: string) {
    s == "stars" || s == "forks" || s == "updated"
  }

  /**
   * `validateSortParameter`: null or blank gives `stars`; otherwise the lower-cased, trimmed
   * input if it is a sort word, and `stars` for anything else.
   */
  function ValidateSortParameter(sort: Option<string>): (r: string)
    ensures IsSortWord(r)
    ensures IsNullOrBlank(sort) ==> r == "stars"
    ensures r != "stars" ==> sort.Some? && Lower(Trim(sort.value)) == r
  {
    if IsNullOrBlank(sort) then "stars"
    else
      var lowerSort := Trim(Lower(sort.value));
      TrimLowerCommute(sort.value);
      if IsSortWord(lowerSort) then lowerSort else "stars"
  }

  /** The sort words are already in lower case. */
  lemma SortWordIsLower(word: string)
    requires IsSortWord(word)
    ensures Lower(word) == word
  {
    if word == "stars" {
      assert Lower("stars") == "stars";
    } else if word == "forks" {
      assert Lower("forks") == "forks";
    } else {
      assert Lower("updated") == "updated";
    }
  }

  /** An input whose trimmed text equals a sort word up to ASCII case selects that word. */
  lemma SortMatchedIgnoringCase(sort: string, word: string)
    requires IsSortWord(word)
    requires EqualsIgnoreCase(Trim(sort), word)
    ensures ValidateSortParameter(Some(sort)) == word
  {
    SortWordIsLower(word);
    TrimLowerCommute(sort);
    assert Lower(Trim(sort)) == word;
    NotBlankWhenLowerIs(sort, word);
    SelectsLowerTrimmed(sort, word);
  }

  /** A text whose trimmed, lower-cased form is non-empty is not blank. */
  lemma NotBlankWhenLowerIs(sort: string, word: string)
    requires word != []
    requires Lower(Trim(sort)) == word
    ensures !IsBlank(sort)
  {
    assert |Trim(sort)| == |word|;
  }

  /** A non-blank input whose lower-cased, trimmed form is a sort word selects that word. */
  lemma SelectsLowerTrimmed(sort: string, word: string)
    requires IsSortWord(word)
    requires Trim(Lower(sort)) == word
    requires !IsBlank(sort)
    ensures ValidateSortParameter(Some(sort)) == word
  {
  }

  /** Normalising twice is normalising once. */
  lemma ValidateSortIdempotent(sort: Option<string>)
    ensures ValidateSortParameter(Some(ValidateSortParameter(sort))) == ValidateSortParameter(sort)
  {
    var w := ValidateSortParameter(sort);
    SortWordIsLower(w);
    assert Trim(w) == w by {
      CanonicalIsFixed(w);
    }
    SortMatchedIgnoringCase(w, w);
  }

  /** The listing's sort field for a normalised sort word. */
  function FieldOfSortWord(word: string): (f: SortField)
    requires IsSortWord(word)
    ensures OrderFieldOf(word) == Some(f)
  {
    if word == "stars" then Stars else if word == "forks" then Forks else Updated
  }

  // ---------------------------------------------------------------------------------------
  // Mapping upstream items
  // ---------------------------------------------------------------------------------------

  /** A nullable count, or 0 when it is null. */
  function CountOrZero(n: Option<int>): int {
    if n.Some? then n.value else 0
  }

  /**
   * `convertToEntity`: key, name, description, language and modification time are copied
   * verbatim; the owner is the login of the owner object, `Unknown` when there is no owner
   * object; null counts become 0 and present counts are copied unclamped; no timestamps.
   */
  function ConvertToEntity(item: GitHubRepository): (r: Record)
    ensures r.repositoryId == item.id && r.name == item.name && r.description == item.description
    ensures r.programmingLanguage == item.language && r.lastUpdatedDate == item.updatedAt
    ensures item.owner.None? ==> r.ownerName == Some(UnknownOwner)
    ensures item.owner.Some? ==> r.ownerName == item.owner.value.login
    ensures r.starsCount.Some? && r.forksCount.Some?
    ensures item.stargazersCount.Some? ==> r.starsCount == item.stargazersCount
    ensures item.forksCount.Some? ==> r.forksCount == item.forksCount
    ensures item.stargazersCount.None? ==> r.starsCount == Some(0)
    ensures item.forksCount.None? ==> r.forksCount == Some(0)
    ensures r.createdAt.None? && r.updatedAt.None?
  {
    Unsaved(item.id, item.name, item.description,
            if item.owner.Some? then item.owner.value.login else Some(UnknownOwner),
            item.language,
            Some(CountOrZero(item.stargazersCount)), Some(CountOrZero(item.forksCount)),
            item.updatedAt)
  }

  /**
   * A mapped item fills every NOT NULL data column exactly when upstream supplied a name and a
   * modification time, and an owner object, if present, carries a login.
   */
  lemma ConvertedDataComplete(item: GitHubRepository)
    ensures DataComplete(ConvertToEntity(item)) <==>
      item.name.Some? && item.updatedAt.Some? && (item.owner.None? || item.owner.value.login.Some?)
  {
  }

  /** The stream map of `convertToEntity` over the items. */
  function ConvertAll(items: seq<GitHubRepository>): (rs: seq<Record>)
    ensures |rs| == |items|
    ensures forall i :: 0 <= i < |items| ==> rs[i] == ConvertToEntity(items[i])
  {
    seq(|items|, i requires 0 <= i < |items| => ConvertToEntity(items[i]))
  }

  /** The stream map of the `RepositoryDto` constructor. */
  function ToDtos(rs: seq<Record>): (ds: seq<RepositoryDto>)
    ensures |ds| == |rs|
    ensures forall i :: 0 <= i < |rs| ==> ds[i] == ToDto(rs[i])
  {
    seq(|rs|, i requires 0 <= i < |rs| => ToDto(rs[i]))
  }

  // ---------------------------------------------------------------------------------------
  // The keyed store
  // ---------------------------------------------------------------------------------------

  /** The `repositories` table: rows by primary key, and the order a full scan visits the keys. */
  datatype Table = Table(rows: map<int, Record>, order: seq<int>)

  /** Every row is stored under its own key, as a primary key column guarantees. */
  predicate Keyed(t: Table) {
    forall k :: k in t.rows ==> t.rows[k].repositoryId == Some(k)
  }

  /** A stored row: keyed by its own id, every NOT NULL column set, stamped no later than the clock. */
  predicate StoredRow(k: int, r: Record, clock: Instant) {
    r.repositoryId == Some(k) && Storable(r) && Stamped(r) && r.updatedAt.value <= clock
  }

  /** The scan order lists each key of the table exactly once, and nothing else. */
  ghost predicate ScanCovers(t: Table) {
    && (forall i, j :: 0 <= i < j < |t.order| ==> t.order[i] != t.order[j])
    && (forall i :: 0 <= i < |t.order| ==> t.order[i] in t.rows)
    && (forall k :: k in t.rows ==> k in t.order)
  }

  /** The table's invariant: a covering scan order, and every row a stored row. */
  ghost predicate TableInvariant(t: Table, clock: Instant) {
    ScanCovers(t) && forall k :: k in t.rows ==> StoredRow(k, t.rows[k], clock)
  }

  /** A table stays valid while the clock moves forward. */
  lemma InvariantAsClockAdvances(t: Table, clock: Instant, later: Instant)
    requires TableInvariant(t, clock) && clock <= later
    ensures TableInvariant(t, later)
  {
  }

  /** `findByRepositoryId`: a null key finds nothing. */
  function FindByRepositoryId(t: Table, id: Option<int>): (r: Option<Record>)
    ensures r.Some? <==> id.Some? && id.value in t.rows
    ensures r.Some? ==> r.value == t.rows[id.value]
    ensures r.Some? && Keyed(t) ==> r.value.repositoryId == id
  {
    match id
    case Some(k) => if k in t.rows then Some(t.rows[k]) else None
    case None => None
  }

  /** The table's rows, in scan order. */
  function Scan(t: Table): (rs: seq<Record>)
    requires forall i :: 0 <= i < |t.order| ==> t.order[i] in t.rows
  {
    seq(|t.order|, i requires 0 <= i < |t.order| => t.rows[t.order[i]])
  }

  /** Each element of a sequence without repetitions occurs in it once. */
  lemma {:induction false} DistinctOccursOnce<T>(s: seq<T>, i: int)
    requires forall a, b :: 0 <= a < b < |s| ==> s[a] != s[b]
    requires 0 <= i < |s|
    ensures multiset(s)[s[i]] == 1
  {
    if i == |s| - 1 {
      assert s == s[..i] + [s[i]];
      assert s[i] !in s[..i];
      assert s[i] !in multiset(s[..i]);
    } else {
      DistinctOccursOnce(s[..|s| - 1], i);
      assert s == s[..|s| - 1] + [s[|s| - 1]];
      assert s[..|s| - 1][i] == s[i];
    }
  }

  /** On a valid table a scan yields every stored row exactly once. */
  lemma ScanYieldsEachRowOnce(t: Table, clock: Instant)
    requires TableInvariant(t, clock)
    ensures forall k :: k in t.rows ==> multiset(Scan(t))[t.rows[k]] == 1
    ensures forall x :: x in multiset(Scan(t)) ==>
      x.repositoryId.Some? && x.repositoryId.value in t.rows && t.rows[x.repositoryId.value] == x
  {
    var s := Scan(t);
    forall a, b | 0 <= a < b < |s| ensures s[a] != s[b] {
      assert s[a].repositoryId == Some(t.order[a]);
    }
    forall k | k in t.rows ensures multiset(s)[t.rows[k]] == 1 {
      var j :| 0 <= j < |t.order| && t.order[j] == k;
      DistinctOccursOnce(s, j);
    }
  }

  /**
   * The constraint check and write of one entity value: on success the row under its key is
   * replaced (or added, at the end of the scan order); on failure nothing is written.
   */
  function Write(t: Table, e: Record): (r: Result<(Table, Record), StoreError>)
    ensures r.Failure? <==> !Storable(e)
    ensures r.Failure? ==> r.error == CheckColumns(e).value
    ensures r.Success? ==>
      && r.value.1 == e
      && r.value.0.rows == t.rows[e.repositoryId.value := e]
      && r.value.0.order == (if e.repositoryId.value in t.rows then t.order else t.order + [e.repositoryId.value])
  {
    match CheckColumns(e)
    case Some(err) => Failure(err)
    case None =>
      var id := e.repositoryId.value;
      Success((Table(t.rows[id := e], if id in t.rows then t.order else t.order + [id]), e))
  }

  /**
   * The store's `save`: an entity whose key is already stored is updated (the `preUpdate` hook
   * re-stamps it), any other entity is inserted (the `prePersist` hook stamps it), then written.
   */
  function SaveEntity(t: Table, now: Instant, e: Record): (r: Result<(Table, Record), StoreError>)
    ensures r.Success? ==> e.repositoryId.Some?
    ensures r.Success? ==>
      var saved := r.value.1;
      && saved.repositoryId == e.repositoryId && SameData(saved, e)
      && saved.updatedAt == Some(now)
      && saved.createdAt == (if e.repositoryId.value in t.rows then e.createdAt else Some(now))
      && r.value.0.rows == t.rows[e.repositoryId.value := saved]
  {
    if e.repositoryId.Some? && e.repositoryId.value in t.rows then Write(t, Touched(e, now))
    else Write(t, Persisted(e, now))
  }

  /** `updateRepositoryFields`: every data column from `newData`; key and timestamps kept. */
  function MergeFields(existing: Record, newData: Record): (r: Record)
    ensures SameData(r, newData)
    ensures r.repositoryId == existing.repositoryId
    ensures r.createdAt == existing.createdAt && r.updatedAt == existing.updatedAt
  {
    existing.(name := newData.name, description := newData.description, ownerName := newData.ownerName,
              programmingLanguage := newData.programmingLanguage, starsCount := newData.starsCount,
              forksCount := newData.forksCount, lastUpdatedDate := newData.lastUpdatedDate)
  }

  /**
   * `saveOrUpdateRepository`: look the key up; merge into the stored row and save it when
   * found, save the incoming record otherwise. A stored row is replaced by one with the
   * incoming data (nulls included), the same key and creation time, and a fresh `updatedAt`;
   * a new key gets a row created and updated at `now`; no other key changes.
   */
  function UpsertOne(t: Table, now: Instant, rec: Record): (r: Result<(Table, Record), StoreError>)
    ensures r.Success? ==> rec.repositoryId.Some?
    ensures r.Success? && Keyed(t) ==>
      var id := rec.repositoryId.value;
      var saved := r.value.1;
      && saved.repositoryId == rec.repositoryId
      && SameData(saved, rec)
      && saved.updatedAt == Some(now)
      && saved.createdAt == (if id in t.rows then t.rows[id].createdAt else Some(now))
      && r.value.0.rows == t.rows[id := saved]
      && r.value.0.order == (if id in t.rows then t.order else t.order + [id])
  {
    match FindByRepositoryId(t, rec.repositoryId)
    case Some(existing) =>
      SaveEntity(t, now, MergeFields(existing, rec))
    case None => SaveEntity(t, now, rec)
  }

  /** The records an upsert accepts: a key and every NOT NULL data column. */
  predicate Acceptable(rec: Record) {
    rec.repositoryId.Some? && DataComplete(rec)
  }

  /** On a valid table an upsert succeeds exactly for acceptable records, and keeps the table valid. */
  lemma UpsertKeepsInvariant(t: Table, now: Instant, rec: Record)
    requires TableInvariant(t, now)
    ensures UpsertOne(t, now, rec).Success? <==> Acceptable(rec)
    ensures UpsertOne(t, now, rec).Success? ==> TableInvariant(UpsertOne(t, now, rec).value.0, now)
  {
    if Acceptable(rec) {
      var id := rec.repositoryId.value;
      if id in t.rows {
        assert StoredRow(id, t.rows[id], now);
      }
    }
    var r := UpsertOne(t, now, rec);
    if r.Success? {
      var id := rec.repositoryId.value;
      var t' := r.value.0;
      assert DataComplete(r.value.1);
      if id !in t.rows {
        assert t'.order == t.order + [id];
        forall i, j | 0 <= i < j < |t'.order| ensures t'.order[i] != t'.order[j] {
          if j == |t.order| {
            assert t'.order[i] == t.order[i];
            assert t.order[i] in t.rows;
          }
        }
      }
    }
  }

  /**
   * `saveOrUpdateRepositories`: the upserts of the batch, left to right. The first refused
   * record ends the batch with its error; the records before it stay written.
   */
  function ReconcileAll(t: Table, now: Instant, batch: seq<Record>): (res: (Table, Result<seq<Record>, StoreError>))
    ensures res.1.Success? ==> |res.1.value| == |batch|
    decreases |batch|
  {
    if batch == [] then (t, Success([]))
    else
      match UpsertOne(t, now, batch[0])
      case Failure(e) => (t, Failure(e))
      case Success(p) =>
        var (t', rest) := ReconcileAll(p.0, now, batch[1..]);
        (t', if rest.Success? then Success([p.1] + rest.value) else rest)
  }

  /** The position of the first record an upsert refuses, or the batch length when there is none. */
  function FirstRefused(batch: seq<Record>): (k: nat)
    ensures k <= |batch|
    ensures forall i :: 0 <= i < k ==> Acceptable(batch[i])
    ensures k < |batch| ==> !Acceptable(batch[k])
  {
    if batch == [] || !Acceptable(batch[0]) then 0 else 1 + FirstRefused(batch[1..])
  }

  /**
   * A successful batch returns one stored record per input record, in input order: the same
   * key, the same data, and an `updatedAt` of `now`.
   */
  lemma {:induction false} ReconcileInOrder(t: Table, now: Instant, batch: seq<Record>)
    requires Keyed(t)
    ensures Keyed(ReconcileAll(t, now, batch).0)
    ensures var r := ReconcileAll(t, now, batch).1;
      r.Success? ==>
        && |r.value| == |batch|
        && forall i :: 0 <= i < |batch| ==>
             && r.value[i].repositoryId == batch[i].repositoryId
             && SameData(r.value[i], batch[i])
             && r.value[i].updatedAt == Some(now)
    decreases |batch|
  {
    if batch != [] {
      var u := UpsertOne(t, now, batch[0]);
      if u.Success? {
        ReconcileInOrder(u.value.0, now, batch[1..]);
        var r := ReconcileAll(t, now, batch).1;
        if r.Success? {
          forall i | 0 <= i < |batch|
            ensures r.value[i].repositoryId == batch[i].repositoryId && SameData(r.value[i], batch[i])
          {
            if i > 0 {
              assert batch[1..][i - 1] == batch[i];
            }
          }
        }
      }
    }
  }

  /** No record of `batch` has the key `k`. */
  predicate NotInBatch(k: int, batch: seq<Record>) {
    forall i :: 0 <= i < |batch| ==> batch[i].repositoryId != Some(k)
  }

  /**
   * Whatever the outcome, rows whose key the batch does not mention are untouched, no row
   * disappears, and every row that existed keeps its creation time.
   */
  lemma {:induction false} ReconcileFrame(t: Table, now: Instant, batch: seq<Record>)
    requires Keyed(t)
    ensures var t' := ReconcileAll(t, now, batch).0;
      && (forall k :: k in t.rows ==> k in t'.rows && t'.rows[k].createdAt == t.rows[k].createdAt)
      && (forall k :: k in t.rows && NotInBatch(k, batch) ==> t'.rows[k] == t.rows[k])
      && (forall k :: k in t'.rows && NotInBatch(k, batch) ==> k in t.rows)
    decreases |batch|
  {
    if batch != [] {
      var u := UpsertOne(t, now, batch[0]);
      if u.Success? {
        ReconcileFrame(u.value.0, now, batch[1..]);
        forall k | NotInBatch(k, batch) ensures NotInBatch(k, batch[1..]) && batch[0].repositoryId != Some(k) {
          forall i | 0 <= i < |batch[1..]| ensures batch[1..][i].repositoryId != Some(k) {
            assert batch[1..][i] == batch[i + 1];
          }
        }
      }
    }
  }

  /**
   * When a batch succeeds, the row left under a key is the output record of the last input
   * record with that key: a later duplicate overwrites an earlier one.
   */
  lemma {:induction false} ReconcileLastWriteWins(t: Table, now: Instant, batch: seq<Record>, i: int)
    requires Keyed(t)
    requires 0 <= i < |batch|
    requires forall j :: i < j < |batch| ==> batch[j].repositoryId != batch[i].repositoryId
    ensures var (t', r) := ReconcileAll(t, now, batch);
      r.Success? ==>
        && batch[i].repositoryId.Some?
        && batch[i].repositoryId.value in t'.rows
        && |r.value| == |batch|
        && t'.rows[batch[i].repositoryId.value] == r.value[i]
    decreases i
  {
    ReconcileInOrder(t, now, batch);
    var u := UpsertOne(t, now, batch[0]);
    if u.Success? {
      var t1 := u.value.0;
      ReconcileInOrder(t1, now, batch[1..]);
      if i == 0 {
        var id := batch[0].repositoryId.value;
        ReconcileFrame(t1, now, batch[1..]);
        assert NotInBatch(id, batch[1..]) by {
          forall j | 0 <= j < |batch[1..]| ensures batch[1..][j].repositoryId != Some(id) {
            assert batch[1..][j] == batch[j + 1];
          }
        }
      } else {
        ReconcileLastWriteWins(t1, now, batch[1..], i - 1);
        assert batch[1..][i - 1] == batch[i];
      }
    }
  }

  /**
   * On a valid table a batch succeeds exactly when every record is acceptable, and the table
   * stays valid whatever the outcome.
   */
  lemma {:induction false} ReconcileKeepsInvariant(t: Table, now: Instant, batch: seq<Record>)
    requires TableInvariant(t, now)
    ensures TableInvariant(ReconcileAll(t, now, batch).0, now)
    ensures ReconcileAll(t, now, batch).1.Success? <==> FirstRefused(batch) == |batch|
    decreases |batch|
  {
    if batch != [] {
      UpsertKeepsInvariant(t, now, batch[0]);
      var u := UpsertOne(t, now, batch[0]);
      if u.Success? {
        ReconcileKeepsInvariant(u.value.0, now, batch[1..]);
      }
    }
  }

  /**
   * On a valid table a batch leaves the table exactly as the records before the first refused
   * one would, and that prefix alone succeeds: the records written before a failure stay written.
   */
  lemma {:induction false} ReconcilePartialCommit(t: Table, now: Instant, batch: seq<Record>)
    requires TableInvariant(t, now)
    ensures var k := FirstRefused(batch);
      && ReconcileAll(t, now, batch[..k]).1.Success?
      && ReconcileAll(t, now, batch).0 == ReconcileAll(t, now, batch[..k]).0
    decreases |batch|
  {
    var k := FirstRefused(batch);
    if batch != [] {
      UpsertKeepsInvariant(t, now, batch[0]);
      if k == 0 {
        assert batch[..k] == [];
      } else {
        var t1 := UpsertOne(t, now, batch[0]).value.0;
        ReconcilePartialCommit(t1, now, batch[1..]);
        assert batch[..k][0] == batch[0];
        assert batch[..k][1..] == batch[1..][..k - 1];
      }
    }
  }

  /** The position of the last record of `batch` with the key of `batch[i]`, searching down from `m`. */
  function LastWithKeyFrom(batch: seq<Record>, i: int, m: int): (j: int)
    requires 0 <= i <= m < |batch|
    requires forall k :: m < k < |batch| ==> batch[k].repositoryId != batch[i].repositoryId
    ensures i <= j <= m && batch[j].repositoryId == batch[i].repositoryId
    ensures forall k :: j < k < |batch| ==> batch[k].repositoryId != batch[i].repositoryId
    decreases m
  {
    if batch[m].repositoryId == batch[i].repositoryId then m else LastWithKeyFrom(batch, i, m - 1)
  }

  /** The position of the last record of `batch` with the key of `batch[i]`. */
  function LastWithKey(batch: seq<Record>, i: int): (j: int)
    requires 0 <= i < |batch|
    ensures i <= j < |batch| && batch[j].repositoryId == batch[i].repositoryId
    ensures forall k :: j < k < |batch| ==> batch[k].repositoryId != batch[i].repositoryId
  {
    LastWithKeyFrom(batch, i, |batch| - 1)
  }

  /**
   * What the returned list shows once the batch is done. Each element is the managed entity
   * of its key, and the persistence context keeps one entity per key, so each element reads
   * the final row under its key.
   */
  function ManagedView(t: Table, saved: seq<Record>): (v: seq<Record>)
    ensures |v| == |saved|
    ensures forall i :: 0 <= i < |saved| && saved[i].repositoryId.Some? && saved[i].repositoryId.value in t.rows ==>
      v[i] == t.rows[saved[i].repositoryId.value]
  {
    seq(|saved|, i requires 0 <= i < |saved| =>
      var id := saved[i].repositoryId;
      if id.Some? && id.value in t.rows then t.rows[id.value] else saved[i])
  }

  /** `saveOrUpdateRepositories` as its caller sees it: the reconciled table, and the managed entities. */
  function SaveAll(t: Table, now: Instant, batch: seq<Record>): (res: (Table, Result<seq<Record>, StoreError>))
    ensures res.0 == ReconcileAll(t, now, batch).0
    ensures res.1.Success? <==> ReconcileAll(t, now, batch).1.Success?
    ensures res.1.Failure? ==> res.1 == ReconcileAll(t, now, batch).1
    ensures res.1.Success? ==> |res.1.value| == |batch|
  {
    var (t', r) := ReconcileAll(t, now, batch);
    (t', if r.Success? then Success(ManagedView(t', r.value)) else r)
  }

  /**
   * After a successful batch the list holds, at each position, the final row under that
   * record's key: the key, the data of the last record with that key, and `updatedAt` = now.
   * An earlier record of a repeated key therefore shows the later record's data.
   */
  lemma BatchShowsLastRecordPerKey(t: Table, now: Instant, batch: seq<Record>)
    requires Keyed(t)
    ensures var (t', r) := SaveAll(t, now, batch);
      r.Success? ==> |r.value| == |batch| && forall i :: 0 <= i < |batch| ==>
        && batch[i].repositoryId.Some? && batch[i].repositoryId.value in t'.rows
        && r.value[i] == t'.rows[batch[i].repositoryId.value]
        && r.value[i].repositoryId == batch[i].repositoryId
        && SameData(r.value[i], batch[LastWithKey(batch, i)])
        && r.value[i].updatedAt == Some(now)
  {
    ReconcileInOrder(t, now, batch);
    var (t', s) := ReconcileAll(t, now, batch);
    if s.Success? {
      forall i | 0 <= i < |batch|
        ensures batch[i].repositoryId.Some? && batch[i].repositoryId.value in t'.rows
        ensures t'.rows[batch[i].repositoryId.value] == s.value[LastWithKey(batch, i)]
      {
        ReconcileLastWriteWins(t, now, batch, LastWithKey(batch, i));
      }
    }
  }

  /** In a batch without repeated keys every position shows its own record's data. */
  lemma BatchWithoutRepeatsShowsOwnData(t: Table, now: Instant, batch: seq<Record>)
    requires Keyed(t)
    requires forall i, j :: 0 <= i < j < |batch| ==> batch[i].repositoryId != batch[j].repositoryId
    ensures var r := SaveAll(t, now, batch).1;
      r.Success? ==> forall i :: 0 <= i < |batch| ==> SameData(r.value[i], batch[i])
  {
    BatchShowsLastRecordPerKey(t, now, batch);
    forall i | 0 <= i < |batch| ensures LastWithKey(batch, i) == i {
    }
  }

  // ---------------------------------------------------------------------------------------
  // The listing
  // ---------------------------------------------------------------------------------------

  /**
   * On a valid table the listing holds each stored row that matches the filters exactly once
   * and nothing else, ordered by the normalised sort key.
   */
  lemma ListingIsExactlyMatchingRows(t: Table, clock: Instant, language: Option<string>, minStars: Option<int>,
                                     sort: Option<string>)
    requires TableInvariant(t, clock)
    ensures var rs := FindRepositoriesWithFilters(Scan(t), language, minStars, ValidateSortParameter(sort));
      && SortedDesc(rs, FieldOfSortWord(ValidateSortParameter(sort)))
      && (forall k :: k in t.rows ==>
            multiset(rs)[t.rows[k]] == if MatchesFilters(t.rows[k], language, minStars) then 1 else 0)
      && (forall x :: x in multiset(rs) ==>
            x.repositoryId.Some? && x.repositoryId.value in t.rows
            && t.rows[x.repositoryId.value] == x && MatchesFilters(x, language, minStars))
  {
    ScanYieldsEachRowOnce(t, clock);
    var scan := Scan(t);
    var word := ValidateSortParameter(sort);
    var rs := FindRepositoriesWithFilters(scan, language, minStars, word);
    assert SortedDesc(rs, FieldOfSortWord(word));
    forall x | x in multiset(rs)
      ensures x in multiset(scan) && MatchesFilters(x, language, minStars)
    {
    }
  }

  /** With no filters and no sort word, the listing is every stored row once, most stars first. */
  lemma ListingWithoutFilters(t: Table, clock: Instant)
    requires TableInvariant(t, clock)
    ensures var rs := FindRepositoriesWithFilters(Scan(t), None, None, ValidateSortParameter(None));
      && SortedDesc(rs, Stars)
      && (forall k :: k in t.rows ==> multiset(rs)[t.rows[k]] == 1)
      && (forall x :: x in multiset(rs) ==> x.repositoryId.Some? && x.repositoryId.value in t.rows)
  {
    ListingIsExactlyMatchingRows(t, clock, None, None, None);
  }

  // ---------------------------------------------------------------------------------------
  // The service object
  // ---------------------------------------------------------------------------------------

  /** Why `searchAndSaveRepositories` failed: the upstream call, or the store refusing a row. */
  datatype ServiceError = Upstream(cause: GitHubApiException) | Store(reason: StoreError)

  /** A store operation's outcome `r`, and table `after`, are those the specification `spec` gives for `before`. */
  predicate Reflects<T(==)>(spec: Result<(Table, T), StoreError>, r: Result<T, StoreError>, before: Table, after: Table) {
    match spec
    case Success(p) => r == Success(p.1) && after == p.0
    case Failure(e) => r == Failure(e) && after == before
  }

  /** The outcome of a batch whose first records produced `saved`, followed by `rest`. */
  function Prefixed(saved: seq<Record>, rest: (Table, Result<seq<Record>, StoreError>)): (Table, Result<seq<Record>, StoreError>) {
    (rest.0, if rest.1.Success? then Success(saved + rest.1.value) else rest.1)
  }

  /** One step of a batch: the first record's upsert, then the rest of the batch on the resulting table. */
  lemma ReconcileUnfolds(t: Table, now: Instant, batch: seq<Record>)
    requires batch != []
    ensures var u := UpsertOne(t, now, batch[0]);
      && (u.Failure? ==> ReconcileAll(t, now, batch) == (t, Failure(u.error)))
      && (u.Success? ==> ReconcileAll(t, now, batch) == Prefixed([u.value.1], ReconcileAll(u.value.0, now, batch[1..])))
  {
  }

  /** Outputs already collected, then one more, then the rest. */
  lemma PrefixedAppend(saved: seq<Record>, one: Record, rest: (Table, Result<seq<Record>, StoreError>))
    ensures Prefixed(saved, Prefixed([one], rest)) == Prefixed(saved + [one], rest)
  {
    if rest.1.Success? {
      assert saved + ([one] + rest.1.value) == (saved + [one]) + rest.1.value;
    }
  }

  /**
   * The service together with the table it owns. `clock` is the instant the lifecycle hooks
   * read; it only moves forward.
   */
  class RepositoryService {
    var rows: map<int, Record>
    var scanOrder: seq<int>
    var clock: Instant

    /** The table as a value. */
    function Contents(): Table
      reads this
    {
      Table(rows, scanOrder)
    }

    ghost predicate Valid()
      reads this
    {
      TableInvariant(Contents(), clock)
    }

    /** A service over an empty table. */
    constructor (start: Instant)
      ensures Valid() && Contents() == Table(map[], []) && clock == start
    {
      rows := map[];
      scanOrder := [];
      clock := start;
    }

    /** Time passes. */
    method AdvanceClock(later: Instant)
      requires Valid() && clock <= later
      modifies this
      ensures Valid() && clock == later && Contents() == old(Contents())
    {
      InvariantAsClockAdvances(Contents(), clock, later);
      clock := later;
    }

    /**
     * The store's `save` of entity `e`: runs `preUpdate` when its key is stored and `prePersist`
     * otherwise, then writes the row if every NOT NULL column is set.
     */
    method Save(e: Repository) returns (r: Result<Record, StoreError>)
      modifies this, e
      ensures clock == old(clock)
      ensures Reflects(SaveEntity(old(Contents()), clock, old(e.Value())), r, old(Contents()), Contents())
    {
      var key := e.repositoryId;
      if key.Some? && key.value in rows {
        e.PreUpdate(clock);
      } else {
        e.PrePersist(clock);
      }
      var v := e.Value();
      match CheckColumns(v) {
        case Some(err) =>
          r := Failure(err);
        case None =>
          var id := v.repositoryId.value;
          if id !in rows {
            scanOrder := scanOrder + [id];
          }
          rows := rows[id := v];
          r := Success(v);
      }
    }

    /** `updateRepositoryFields`: copies the seven data columns of `newData` into `existing`. */
    method UpdateRepositoryFields(existing: Repository, newData: Record)
      modifies existing
      ensures existing.Value() == MergeFields(old(existing.Value()), newData)
    {
      existing.name := newData.name;
      existing.description := newData.description;
      existing.ownerName := newData.ownerName;
      existing.programmingLanguage := newData.programmingLanguage;
      existing.starsCount := newData.starsCount;
      existing.forksCount := newData.forksCount;
      existing.lastUpdatedDate := newData.lastUpdatedDate;
    }

    /** `saveOrUpdateRepository`: an upsert of one record, as `UpsertOne` specifies. */
    method SaveOrUpdateRepository(repository: Record) returns (r: Result<Record, StoreError>)
      requires Valid()
      modifies this
      ensures Valid() && clock == old(clock)
      ensures Reflects(UpsertOne(old(Contents()), clock, repository), r, old(Contents()), Contents())
    {
      UpsertKeepsInvariant(Contents(), clock, repository);
      var existingRepo := FindByRepositoryId(Contents(), repository.repositoryId);
      var entity: Repository;
      if existingRepo.Some? {
        entity := new Repository.Load(existingRepo.value);
        UpdateRepositoryFields(entity, repository);
      } else {
        entity := new Repository.Load(repository);
      }
      r := Save(entity);
    }

    /**
     * `saveOrUpdateRepositories`: the upserts of the batch in order, as `ReconcileAll` specifies;
     * the list returned holds the managed entity of each key, read after the last upsert.
     */
    method SaveOrUpdateRepositories(repositories: seq<Record>) returns (r: Result<seq<Record>, StoreError>)
      requires Valid()
      modifies this
      ensures Valid() && clock == old(clock)
      ensures (Contents(), r) == SaveAll(old(Contents()), clock, repositories)
    {
      var saved: seq<Record> := [];
      var i := 0;
      ghost var whole := ReconcileAll(Contents(), clock, repositories);
      assert repositories[0..] == repositories;
      assert whole.1.Success? ==> [] + whole.1.value == whole.1.value;
      while i < |repositories|
        invariant 0 <= i <= |repositories|
        invariant Valid() && clock == old(clock)
        invariant ReconcileAll(old(Contents()), clock, repositories)
               == Prefixed(saved, ReconcileAll(Contents(), clock, repositories[i..]))
      {
        ghost var before := Contents();
        var one := SaveOrUpdateRepository(repositories[i]);
        assert repositories[i..][0] == repositories[i];
        assert repositories[i..][1..] == repositories[i + 1..];
        ReconcileUnfolds(before, clock, repositories[i..]);
        if one.Failure? {
          return Failure(one.error);
        }
        PrefixedAppend(saved, one.value, ReconcileAll(Contents(), clock, repositories[i + 1..]));
        saved := saved + [one.value];
        i := i + 1;
      }
      assert repositories[i..] == [];
      assert saved + [] == saved;
      assert ReconcileAll(old(Contents()), clock, repositories) == (Contents(), Success(saved));
      r := Success(ManagedView(Contents(), saved));
    }

    /**
     * `searchAndSaveRepositories`: an upstream failure is passed on and nothing is written;
     * an empty or absent item list gives an empty result and nothing is written; otherwise
     * every item is mapped, the batch is reconciled, and the stored records come back as
     * projections, in item order.
     */
    method SearchAndSaveRepositories(request: GitHubSearchRequest, outcome: HttpOutcome)
      returns (r: Result<seq<RepositoryDto>, ServiceError>)
      requires Valid()
      modifies this
      ensures Valid() && clock == old(clock)
      ensures var api := SearchRepositories(request, outcome);
        api.Failure? ==> r == Failure(Upstream(api.error)) && Contents() == old(Contents())
      ensures var api := SearchRepositories(request, outcome);
        api.Success? && (api.value.items.None? || api.value.items.value == []) ==>
          r == Success([]) && Contents() == old(Contents())
      ensures var api := SearchRepositories(request, outcome);
        api.Success? && api.value.items.Some? && api.value.items.value != [] ==>
          var batch := SaveAll(old(Contents()), clock, ConvertAll(api.value.items.value));
          && Contents() == batch.0
          && r == (if batch.1.Success? then Success(ToDtos(batch.1.value)) else Failure(Store(batch.1.error)))
    {
      var apiResponse := SearchRepositories(request, outcome);
      if apiResponse.Failure? {
        return Failure(Upstream(apiResponse.error));
      }
      var items := apiResponse.value.items;
      if items.None? || items.value == [] {
        return Success([]);
      }
      var repositories := ConvertAll(items.value);
      var savedRepositories := SaveOrUpdateRepositories(repositories);
      if savedRepositories.Failure? {
        return Failure(Store(savedRepositories.error));
      }
      r := Success(ToDtos(savedRepositories.value));
    }

    /**
     * `getRepositories`: the projections of the stored rows that match the filters, ordered by
     * the normalised sort word. Changes nothing.
     */
    method GetRepositories(language: Option<string>, minStars: Option<int>, sort: Option<string>)
      returns (r: seq<RepositoryDto>)
      requires Valid()
      ensures r == ToDtos(FindRepositoriesWithFilters(Scan(Contents()), language, minStars, ValidateSortParameter(sort)))
    {
      var validSort := ValidateSortParameter(sort);
      var repositories := FindRepositoriesWithFilters(Scan(Contents()), language, minStars, validSort);
      r := ToDtos(repositories);
    }
  }
}
