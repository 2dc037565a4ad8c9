/** Runs of the store: adds, cache sweeps and the deletion of expired keys, in any interleaving,
    against an append log. */
module StorageRuns {
  import opened Text
  import opened Database
  import opened Storage

  /** A sweep of the cache is one locked call; expired database keys are deleted bucket by bucket and key by key,
      so an Expire removes those of the listed keys that are expired, whichever they are. */
  datatype Op =
    | Add(item: string, indicator: string, tag: string, value: string, tm: Timestamp)
    | SweepCache(deadline: int)
    | Expire(names: set<string>, listed: set<string>, deadline: int)

  function SweptCache(cache: map<string, Metric>, deadline: int): map<string, Metric> {
    map item | item in cache :: cache[item].(fields := SweptFields(cache[item].fields, 0, deadline))
  }

  function ExpiredBucket(b: Bucket, listed: set<string>, deadline: int): Bucket {
    map k | k in b && !(k in listed && IsExpired(k, 0, deadline)) :: b[k]
  }

  function ExpiredDb(db: Buckets, names: set<string>, listed: set<string>, deadline: int): Buckets {
    map name | name in db :: if name in names then ExpiredBucket(db[name], listed, deadline) else db[name]
  }

  function Step(s: Store, op: Op): Store {
    match op
    case Add(item, indicator, tag, value, tm) => AddedStore(s, item, indicator, tag, value, tm)
    case SweepCache(deadline) => s.(cache := SweptCache(s.cache, deadline))
    case Expire(names, listed, deadline) =>
      s.(db := ExpiredDb(s.db, names, listed, deadline))
  }

  /** The store after the operations, starting with an empty cache and the given database. */
  function After(db: Buckets, ops: seq<Op>): Store {
    if |ops| == 0 then Store(map[], db) else Step(After(db, ops[..|ops| - 1]), ops[|ops| - 1])
  }

  function KeysOf(db: Buckets): set<string> {
    set name, k | name in db && k in db[name] :: k
  }

  /** A whole round of the periodic clean-up is a cache sweep followed by two deletions. */
  lemma RoundIsRun(s: Store, cacheDeadline: int, dbDeadline: int)
    ensures var all := KeysOf(s.db);
      var cached := Step(s, SweepCache(cacheDeadline));
      Step(Step(cached, Expire(s.cache.Keys, all, dbDeadline)), Expire({REPORT_BUCKET}, all, dbDeadline))
      == SweptStore(s, cacheDeadline, dbDeadline)
  {
    var all := KeysOf(s.db);
    var once := Cleaned(s.db, s.cache.Keys, 0, dbDeadline);
    ExpiryIsCleaning(s.db, s.cache.Keys, all, dbDeadline);
    forall name, k | name in once && k in once[name] ensures k in all {
      assert k in s.db[name];
    }
    ExpiryIsCleaning(once, {REPORT_BUCKET}, all, dbDeadline);
  }

  /** Deleting all expired keys of some buckets is what Clean does. */
  lemma ExpiryIsCleaning(db: Buckets, names: set<string>, listed: set<string>, deadline: int)
    requires forall name, k | name in db && k in db[name] :: k in listed
    ensures ExpiredDb(db, names, listed, deadline) == Cleaned(db, names, 0, deadline)
  {
    forall name | name in db && name in names
      ensures ExpiredBucket(db[name], listed, deadline) == CleanedBucket(db[name], 0, deadline)
    {
    }
  }

  // ---------- the append log ----------

  /** The first value added for the timestamp since the last cache sweep that reached it, if any. */
  function FirstAdded(ops: seq<Op>, item: string, tm: Timestamp): Option<string> {
    if |ops| == 0 then None
    else
      var before, last := FirstAdded(ops[..|ops| - 1], item, tm), ops[|ops| - 1];
      match last
      case Add(i, _, _, value, t) => if before.None? && i == item && t == tm then Some(value) else before
      case SweepCache(deadline) => if 0 <= tm <= deadline then None else before
      case Expire(_, _, _) => before
  }

  datatype Labels = Labels(indicator: string, tag: string)

  /** The labels of the last add of the item, accepted or not. */
  function LastLabels(ops: seq<Op>, item: string): Option<Labels> {
    if |ops| == 0 then None
    else
      var last := ops[|ops| - 1];
      if last.Add? && last.item == item then Some(Labels(last.indicator, last.tag))
      else LastLabels(ops[..|ops| - 1], item)
  }

  /** The labels of the last add of the item that found its timestamp free. */
  function AcceptedLabels(ops: seq<Op>, item: string): Option<Labels> {
    if |ops| == 0 then None
    else
      var front, last := ops[..|ops| - 1], ops[|ops| - 1];
      if last.Add? && last.item == item && FirstAdded(front, item, last.tm).None?
      then Some(Labels(last.indicator, last.tag))
      else AcceptedLabels(front, item)
  }

  // ---------- the cache against the log ----------

  function CachedIn(cache: map<string, Metric>, item: string, tm: Timestamp): Option<string> {
    if item in cache && tm in cache[item].fields then Some(cache[item].fields[tm]) else None
  }

  function Cached(s: Store, item: string, tm: Timestamp): Option<string> {
    CachedIn(s.cache, item, tm)
  }

  lemma CachedAfterAdd(cache: map<string, Metric>, op: Op, item: string, tm: Timestamp)
    requires op.Add?
    ensures CachedIn(AddedCache(cache, op.item, op.indicator, op.tag, op.value, op.tm), item, tm) ==
            if item == op.item && tm == op.tm && CachedIn(cache, item, tm).None? then Some(op.value)
            else CachedIn(cache, item, tm)
  {
  }

  lemma CachedStep(s: Store, op: Op, item: string, tm: Timestamp)
    ensures Cached(Step(s, op), item, tm) ==
      match op
      case Add(i, _, _, value, t) =>
        if i == item && t == tm && Cached(s, item, tm).None? then Some(value) else Cached(s, item, tm)
      case SweepCache(deadline) => if 0 <= tm <= deadline then None else Cached(s, item, tm)
      case Expire(_, _, _) => Cached(s, item, tm)
  {
    if op.Add? {
      CachedAfterAdd(s.cache, op, item, tm);
    }
  }

  /** Over any run, the cache holds at every timestamp the first value added since the last sweep that reached it. */
  lemma {:induction false} CacheIsFirstAdded(db: Buckets, ops: seq<Op>, item: string, tm: Timestamp)
    ensures Cached(After(db, ops), item, tm) == FirstAdded(ops, item, tm)
  {
    if |ops| > 0 {
      CacheIsFirstAdded(db, ops[..|ops| - 1], item, tm);
      CachedStep(After(db, ops[..|ops| - 1]), ops[|ops| - 1], item, tm);
    }
  }

  /** An item is cached once something was added to it, under the labels of the last attempt. */
  lemma {:induction false} CachedLabels(db: Buckets, ops: seq<Op>, item: string)
    ensures item in After(db, ops).cache <==> LastLabels(ops, item).Some?
    ensures item in After(db, ops).cache ==>
              var metric := After(db, ops).cache[item];
              LastLabels(ops, item) == Some(Labels(metric.indicator, metric.tag))
  {
    if |ops| > 0 {
      CachedLabels(db, ops[..|ops| - 1], item);
    }
  }

  /** What a query gives: the search, behind the check of the indicator. */
  ghost predicate IsQueryAnswer(r: SearchResult, cache: map<string, Metric>, item: string, indicator: string,
                                start: Timestamp, end: Timestamp) {
    if item in cache && cache[item].indicator == indicator then IsAnswer(r, cache[item].fields, start, end)
    else r == NotFound
  }

  /** Over any run and for any window, a query is answered exactly when the last add of the item, accepted or not,
      carried its indicator. The answer then lists exactly the logged timestamps in [start, end), ascending,
      each with its first value since it was last swept. */
  lemma WindowAnswers(db: Buckets, ops: seq<Op>, item: string, indicator: string,
                      start: Timestamp, end: Timestamp, r: SearchResult)
    requires IsQueryAnswer(r, After(db, ops).cache, item, indicator, start, end)
    ensures r == NotFound <==> !(LastLabels(ops, item).Some? && LastLabels(ops, item).value.indicator == indicator)
    ensures r == BadRange ==> start > end
    ensures r.Found? ==>
      && start <= end && IsAscending(r.keys)
      && (forall t :: t in r.keys <==> start <= t < end && FirstAdded(ops, item, t).Some?)
      && (forall t :: t in r.values <==> t in r.keys)
      && (forall t <- r.keys :: t in r.values && FirstAdded(ops, item, t) == Some(r.values[t]))
  {
    CachedLabels(db, ops, item);
    forall t: Timestamp ensures Cached(After(db, ops), item, t) == FirstAdded(ops, item, t) {
      CacheIsFirstAdded(db, ops, item, t);
    }
  }

  /** A rejected duplicate hides the value it did not replace: it is cached, and a query under its own indicator
      does not find it. */
  lemma DuplicateHidesItem(db: Buckets, item: string, tm: Timestamp, r: SearchResult, start: Timestamp, end: Timestamp)
    requires IsQueryAnswer(r, After(db, [Add(item, "a", "", "1", tm), Add(item, "b", "", "2", tm)]).cache,
                           item, "a", start, end)
    ensures Cached(After(db, [Add(item, "a", "", "1", tm), Add(item, "b", "", "2", tm)]), item, tm) == Some("1")
    ensures r == NotFound
  {
    var ops := [Add(item, "a", "", "1", tm), Add(item, "b", "", "2", tm)];
    assert ops[..1] == [ops[0]] && ops[..1][..0] == [];
    assert FirstAdded([ops[0]], item, tm) == Some("1");
    CacheIsFirstAdded(db, ops, item, tm);
    assert LastLabels(ops, item) == Some(Labels("b", ""));
    CachedLabels(db, ops, item);
    assert "a" != "b";
  }

  // ---------- the database against the cache ----------

  /** The value of the last add that found its timestamp free, unless a deletion reached its key since; the value
      stored at the start, if there was no such add. */
  function LastFiled(start: Option<string>, ops: seq<Op>, item: string, tm: Timestamp): Option<string> {
    if |ops| == 0 then start
    else
      var front, last := ops[..|ops| - 1], ops[|ops| - 1];
      var before := LastFiled(start, front, item, tm);
      match last
      case Add(i, _, _, value, t) =>
        if i == item && t == tm && FirstAdded(front, item, tm).None? then Some(value) else before
      case SweepCache(_) => before
      case Expire(names, listed, deadline) =>
        if item in names && IntText(tm) in listed && 0 < tm < deadline then None else before
  }

  function StoredIn(db: Buckets, item: string, tm: Timestamp): Option<string> {
    if item in db && IntText(tm) in db[item] then Some(db[item][IntText(tm)]) else None
  }

  function Stored(s: Store, item: string, tm: Timestamp): Option<string> {
    StoredIn(s.db, item, tm)
  }

  lemma StoredAfterFiling(db: Buckets, metadata: string, op: Op, item: string, tm: Timestamp)
    requires op.Add?
    ensures StoredIn(FiledDb(db, op.item, metadata, op.value, op.tm), item, tm) ==
            if item == op.item && tm == op.tm then Some(op.value) else StoredIn(db, item, tm)
  {
    KeysApart(tm);
    KeysApart(op.tm);
    if IntText(tm) == IntText(op.tm) {
      IntTextInjective(tm, op.tm);
    }
  }

  lemma StoredAfterExpiry(db: Buckets, op: Op, item: string, tm: Timestamp)
    requires op.Expire?
    ensures StoredIn(ExpiredDb(db, op.names, op.listed, op.deadline), item, tm) ==
            if item in op.names && IntText(tm) in op.listed && 0 < tm < op.deadline then None
            else StoredIn(db, item, tm)
  {
    KeysApart(tm);
  }

  lemma StoredStep(s: Store, op: Op, item: string, tm: Timestamp)
    ensures Stored(Step(s, op), item, tm) ==
      match op
      case Add(i, _, _, value, t) =>
        if i == item && t == tm && Cached(s, item, tm).None? then Some(value) else Stored(s, item, tm)
      case SweepCache(_) => Stored(s, item, tm)
      case Expire(names, listed, deadline) =>
        if item in names && IntText(tm) in listed && 0 < tm < deadline then None else Stored(s, item, tm)
  {
    if op.Add? {
      StoredAfterFiling(s.db, MetadataText(op.indicator, op.tag), op, item, tm);
    } else if op.Expire? {
      StoredAfterExpiry(s.db, op, item, tm);
    }
  }

  /** Over any run, the database holds under the decimal key of every timestamp the value of the last accepted add,
      until a deletion reaches it. */
  lemma {:induction false} DatabaseIsLastFiled(db: Buckets, ops: seq<Op>, item: string, tm: Timestamp)
    ensures Stored(After(db, ops), item, tm) == LastFiled(StoredIn(db, item, tm), ops, item, tm)
  {
    if |ops| > 0 {
      var front := ops[..|ops| - 1];
      DatabaseIsLastFiled(db, front, item, tm);
      StoredStep(After(db, front), ops[|ops| - 1], item, tm);
      CacheIsFirstAdded(db, front, item, tm);
    }
  }

  /** An operation that deletes the key of the timestamp. */
  predicate Reaches(op: Op, item: string, tm: Timestamp) {
    op.Expire? && item in op.names && IntText(tm) in op.listed && 0 < tm < op.deadline
  }

  lemma {:induction false} FiledUnlessReached(start: Option<string>, ops: seq<Op>, item: string, tm: Timestamp)
    requires FirstAdded(ops, item, tm).Some?
    ensures LastFiled(start, ops, item, tm) == FirstAdded(ops, item, tm)
         || (LastFiled(start, ops, item, tm) == None && exists op <- ops :: Reaches(op, item, tm))
  {
    var front, last := ops[..|ops| - 1], ops[|ops| - 1];
    if FirstAdded(front, item, tm).Some? {
      FiledUnlessReached(start, front, item, tm);
      assert forall op <- front :: op in ops;
      assert Reaches(last, item, tm) ==> last in ops;
    }
  }

  /** In every state of every run, a cached value is stored under its decimal key with the same value, unless a
      deletion of the run listed that key inside its interval; then it may be missing but never differs. */
  lemma CacheAndDatabaseAgree(db: Buckets, ops: seq<Op>, item: string, tm: Timestamp)
    requires Cached(After(db, ops), item, tm).Some?
    ensures Stored(After(db, ops), item, tm) == Cached(After(db, ops), item, tm)
         || (Stored(After(db, ops), item, tm) == None
             && exists op <- ops :: op.Expire? && item in op.names && IntText(tm) in op.listed && 0 < tm < op.deadline)
  {
    CacheIsFirstAdded(db, ops, item, tm);
    DatabaseIsLastFiled(db, ops, item, tm);
    FiledUnlessReached(StoredIn(db, item, tm), ops, item, tm);
    if op :| op in ops && Reaches(op, item, tm) {
      assert op.Expire? && item in op.names;
    }
  }

  /** A deletion of expired keys removes from the named buckets exactly the listed keys that are integers strictly
      inside its interval, changes no value, and never removes the metadata. */
  lemma ExpiryIsExact(s: Store, op: Op, name: string, key: string)
    requires op.Expire? && name in s.db && key in s.db[name]
    ensures var after := Step(s, op).db;
      && name in after
      && (key in after[name] <==> !(name in op.names && key in op.listed && IsExpired(key, 0, op.deadline)))
      && (key in after[name] ==> after[name][key] == s.db[name][key])
      && (key == METADATA ==> key in after[name])
  {
    KeysApart(0);
  }

  /** A whole round of the clean-up removes from the buckets of the cached items and from the report bucket exactly
      the keys that are integers strictly inside its interval, and from no bucket the metadata. */
  lemma SweepIsExact(s: Store, cacheDeadline: int, dbDeadline: int, name: string, key: string)
    requires name in s.db && key in s.db[name]
    ensures var after := SweptStore(s, cacheDeadline, dbDeadline).db;
      && name in after
      && (key in after[name] <==> !((name in s.cache || name == "report_save") && IsExpired(key, 0, dbDeadline)))
      && (key in after[name] ==> after[name][key] == s.db[name][key])
      && (key == METADATA ==> key in after[name])
  {
    KeysApart(0);
  }

  // ---------- labels ----------

  lemma {:induction false} NothingLogged(ops: seq<Op>, item: string, tm: Timestamp)
    requires LastLabels(ops, item).None?
    ensures FirstAdded(ops, item, tm).None?
  {
    if |ops| > 0 {
      NothingLogged(ops[..|ops| - 1], item, tm);
    }
  }

  /** The first add of an item is always accepted. */
  lemma {:induction false} SomeAccepted(ops: seq<Op>, item: string)
    ensures LastLabels(ops, item).Some? <==> AcceptedLabels(ops, item).Some?
  {
    if |ops| > 0 {
      var front, last := ops[..|ops| - 1], ops[|ops| - 1];
      SomeAccepted(front, item);
      if last.Add? && last.item == item && LastLabels(front, item).None? {
        NothingLogged(front, item, last.tm);
      }
    }
  }

  function MetadataIn(db: Buckets, item: string): Option<string> {
    if item in db && METADATA in db[item] then Some(db[item][METADATA]) else None
  }

  function StoredMetadata(s: Store, item: string): Option<string> {
    MetadataIn(s.db, item)
  }

  lemma MetadataFiled(db: Buckets, metadata: string, op: Op, item: string)
    requires op.Add?
    ensures MetadataIn(FiledDb(db, op.item, metadata, op.value, op.tm), item) ==
            if op.item == item then Some(metadata) else MetadataIn(db, item)
  {
    KeysApart(op.tm);
  }

  lemma MetadataStep(s: Store, op: Op, item: string)
    ensures StoredMetadata(Step(s, op), item) ==
            if op.Add? && op.item == item && Cached(s, item, op.tm).None?
            then Some(MetadataText(op.indicator, op.tag)) else StoredMetadata(s, item)
  {
    KeysApart(0);
    if op.Add? {
      MetadataFiled(s.db, MetadataText(op.indicator, op.tag), op, item);
    }
  }

  /** The stored metadata of an item are the labels of its last accepted add. */
  lemma {:induction false} StoredLabels(db: Buckets, ops: seq<Op>, item: string)
    ensures AcceptedLabels(ops, item).Some? ==>
              var labels := AcceptedLabels(ops, item).value;
              StoredMetadata(After(db, ops), item) == Some(MetadataText(labels.indicator, labels.tag))
  {
    if |ops| > 0 {
      var front, last := ops[..|ops| - 1], ops[|ops| - 1];
      StoredLabels(db, front, item);
      MetadataStep(After(db, front), last, item);
      if last.Add? && last.item == item {
        CacheIsFirstAdded(db, front, item, last.tm);
      }
    }
  }

  /** The labels of a cached item agree with its stored metadata exactly when no rejected add since the last accepted
      one left other labels behind. */
  lemma LabelsAgreeExactly(db: Buckets, ops: seq<Op>, item: string)
    requires item in After(db, ops).cache
    ensures var metric := After(db, ops).cache[item];
      StoredMetadata(After(db, ops), item) == Some(MetadataText(metric.indicator, metric.tag))
      <==> LastLabels(ops, item) == AcceptedLabels(ops, item)
  {
    var metric := After(db, ops).cache[item];
    CachedLabels(db, ops, item);
    SomeAccepted(ops, item);
    StoredLabels(db, ops, item);
    var labels := AcceptedLabels(ops, item).value;
    if MetadataText(labels.indicator, labels.tag) == MetadataText(metric.indicator, metric.tag) {
      MetadataInjective(labels.indicator, labels.tag, metric.indicator, metric.tag);
    }
  }
}
