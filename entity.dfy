/**
 * The stored repository record (the `repositories` table) and the entity object whose
 * fields the service and the persistence lifecycle hooks update in place.
 */
module Entity {
  import opened Wrappers

  /** A point in time; `LocalDateTime` is modelled by its position on a discrete clock. */
  type Instant = nat

  /** The value of one entity: every column, each nullable as its Java field is. */
  datatype Record = Record(
    repositoryId: Option<int>,
    name: Option<string>,
    description: Option<string>,
    ownerName: Option<string>,
    programmingLanguage: Option<string>,
    starsCount: Option<int>,
    forksCount: Option<int>,
    lastUpdatedDate: Option<Instant>,
    createdAt: Option<Instant>,
    updatedAt: Option<Instant>)

  /** Why the store refuses to write an entity. */
  datatype StoreError =
    | IdNotAssigned             // the primary key is null
    | NullColumn(column: string) // a NOT NULL column holds null

  /** The record built by the eight-argument constructor: both timestamps unset. */
  function Unsaved(repositoryId: Option<int>, name: Option<string>, description: Option<string>,
                   ownerName: Option<string>, programmingLanguage: Option<string>,
                   starsCount: Option<int>, forksCount: Option<int>,
                   lastUpdatedDate: Option<Instant>): (r: Record)
  {
    Record(repositoryId, name, description, ownerName, programmingLanguage,
           starsCount, forksCount, lastUpdatedDate, None, None)
  }

  /** The effect of `prePersist` at instant `now`. */
  function Persisted(r: Record, now: Instant): (p: Record)
    ensures p.createdAt == p.updatedAt == Some(now) && Stamped(p)
    ensures SameData(p, r) && p.repositoryId == r.repositoryId
  {
    r.(createdAt := Some(now), updatedAt := Some(now))
  }

  /** The effect of `preUpdate` at instant `now`. */
  function Touched(r: Record, now: Instant): (t: Record)
    ensures t.updatedAt == Some(now) && t.createdAt == r.createdAt
    ensures SameData(t, r) && t.repositoryId == r.repositoryId
  {
    r.(updatedAt := Some(now))
  }

  /** The seven data columns: everything but the key and the two timestamps. */
  predicate SameData(a: Record, b: Record) {
    && a.name == b.name
    && a.description == b.description
    && a.ownerName == b.ownerName
    && a.programmingLanguage == b.programmingLanguage
    && a.starsCount == b.starsCount
    && a.forksCount == b.forksCount
    && a.lastUpdatedDate == b.lastUpdatedDate
  }

  /** Both timestamps are set and the last modification is not before the creation. */
  predicate Stamped(r: Record) {
    r.createdAt.Some? && r.updatedAt.Some? && r.createdAt.value <= r.updatedAt.value
  }

  /** The NOT NULL data columns (name, owner_name, stars_count, forks_count, last_updated_date) are set. */
  predicate DataComplete(r: Record) {
    && r.name.Some?
    && r.ownerName.Some?
    && r.starsCount.Some?
    && r.forksCount.Some?
    && r.lastUpdatedDate.Some?
  }

  /** Every NOT NULL column, the primary key included, is set. */
  predicate Storable(r: Record) {
    r.repositoryId.Some? && DataComplete(r) && r.createdAt.Some? && r.updatedAt.Some?
  }

  /** The constraint check the store applies when writing `r`: the first violated column, if any. */
  function CheckColumns(r: Record): (e: Option<StoreError>)
    ensures e.None? <==> Storable(r)
    ensures e == Some(IdNotAssigned) <==> r.repositoryId.None?
  {
    if r.repositoryId.None? then Some(IdNotAssigned)
    else if r.name.None? then Some(NullColumn("name"))
    else if r.ownerName.None? then Some(NullColumn("owner_name"))
    else if r.starsCount.None? then Some(NullColumn("stars_count"))
    else if r.forksCount.None? then Some(NullColumn("forks_count"))
    else if r.lastUpdatedDate.None? then Some(NullColumn("last_updated_date"))
    else if r.createdAt.None? then Some(NullColumn("created_at"))
    else if r.updatedAt.None? then Some(NullColumn("updated_at"))
    else None
  }

  /** `preUpdate` applied at each instant of `times`, in order. */
  function ReplayUpdates(r: Record, times: seq<Instant>): (t: Record)
    decreases |times|
  {
    if times == [] then r else ReplayUpdates(Touched(r, times[0]), times[1..])
  }

  predicate NonDecreasing(times: seq<Instant>) {
    forall i, j :: 0 <= i < j < |times| ==> times[i] <= times[j]
  }

  /**
   * With a clock that never goes back, `prePersist` at `t0` followed by any number of
   * `preUpdate` calls keeps `createdAt` at `t0`, keeps the data and the key, and leaves
   * `updatedAt` at the last instant, never before `createdAt`.
   */
  lemma {:induction false} LifecycleKeepsCreation(r: Record, t0: Instant, times: seq<Instant>)
    requires NonDecreasing([t0] + times)
    ensures var t := ReplayUpdates(Persisted(r, t0), times);
      && t.createdAt == Some(t0)
      && t.updatedAt == Some(if times == [] then t0 else times[|times| - 1])
      && Stamped(t)
      && SameData(t, r) && t.repositoryId == r.repositoryId
  {
    UpdatesKeepStamp(Persisted(r, t0), times);
  }

  lemma {:induction false} UpdatesKeepStamp(r: Record, times: seq<Instant>)
    requires Stamped(r)
    requires NonDecreasing([r.updatedAt.value] + times)
    ensures var t := ReplayUpdates(r, times);
      && t.createdAt == r.createdAt
      && t.updatedAt == (if times == [] then r.updatedAt else Some(times[|times| - 1]))
      && Stamped(t)
      && SameData(t, r) && t.repositoryId == r.repositoryId
    decreases |times|
  {
    if times != [] {
      var r' := Touched(r, times[0]);
      assert ([r.updatedAt.value] + times)[1] == times[0];
      assert r.updatedAt.value <= times[0] by {
        assert ([r.updatedAt.value] + times)[0] <= ([r.updatedAt.value] + times)[1];
      }
      assert NonDecreasing([r'.updatedAt.value] + times[1..]) by {
        forall i, j | 0 <= i < j < |times[1..]| + 1
          ensures ([r'.updatedAt.value] + times[1..])[i] <= ([r'.updatedAt.value] + times[1..])[j]
        {
          assert ([r'.updatedAt.value] + times[1..])[j] == ([r.updatedAt.value] + times)[j + 1];
          assert ([r'.updatedAt.value] + times[1..])[i] == ([r.updatedAt.value] + times)[i + 1];
        }
      }
      UpdatesKeepStamp(r', times[1..]);
    }
  }

  /** The entity object: Lombok-generated setters assign these fields directly. */
  class Repository {
    var repositoryId: Option<int>
    var name: Option<string>
    var description: Option<string>
    var ownerName: Option<string>
    var programmingLanguage: Option<string>
    var starsCount: Option<int>
    var forksCount: Option<int>
    var lastUpdatedDate: Option<Instant>
    var createdAt: Option<Instant>
    var updatedAt: Option<Instant>

    /** The current value of every field. */
    function Value(): Record
      reads this
    {
      Record(repositoryId, name, description, ownerName, programmingLanguage,
             starsCount, forksCount, lastUpdatedDate, createdAt, updatedAt)
    }

    /** The eight-argument constructor: stores its arguments, leaves both timestamps null. */
    constructor Create(repositoryId: Option<int>, name: Option<string>, description: Option<string>,
                       ownerName: Option<string>, programmingLanguage: Option<string>,
                       starsCount: Option<int>, forksCount: Option<int>,
                       lastUpdatedDate: Option<Instant>)
      ensures Value() == Unsaved(repositoryId, name, description, ownerName, programmingLanguage,
                                 starsCount, forksCount, lastUpdatedDate)
      ensures createdAt.None? && updatedAt.None?
    {
      this.repositoryId := repositoryId;
      this.name := name;
      this.description := description;
      this.ownerName := ownerName;
      this.programmingLanguage := programmingLanguage;
      this.starsCount := starsCount;
      this.forksCount := forksCount;
      this.lastUpdatedDate := lastUpdatedDate;
      this.createdAt := None;
      this.updatedAt := None;
    }

    /** An entity object holding the value `r`, as the persistence context materialises a row. */
    constructor Load(r: Record)
      ensures Value() == r
    {
      repositoryId := r.repositoryId;
      name := r.name;
      description := r.description;
      ownerName := r.ownerName;
      programmingLanguage := r.programmingLanguage;
      starsCount := r.starsCount;
      forksCount := r.forksCount;
      lastUpdatedDate := r.lastUpdatedDate;
      createdAt := r.createdAt;
      updatedAt := r.updatedAt;
    }

    /** Lifecycle hook run before the first insert; `now` replaces `LocalDateTime.now()`. */
    method PrePersist(now: Instant)
      modifies this
      ensures Value() == Persisted(old(Value()), now)
      ensures createdAt == updatedAt == Some(now)
    {
      createdAt := Some(now);
      updatedAt := Some(now);
    }

    /** Lifecycle hook run before an update; changes `updatedAt` and nothing else. */
    method PreUpdate(now: Instant)
      modifies this
      ensures Value() == Touched(old(Value()), now)
      ensures createdAt == old(createdAt) && SameData(Value(), old(Value()))
    {
      updatedAt := Some(now);
    }
  }
}
