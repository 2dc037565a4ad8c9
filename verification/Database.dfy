/** The key-value store behind the collector: buckets of string pairs, with data filed under decimal timestamps. */
module Database {
  import opened Text

  type Bucket = map<string, string>
  type Buckets = map<string, Bucket>

  const METADATA := "metadata"

  type Timestamp = t: int | INT64_MIN <= t <= INT64_MAX

  /** The key parses as an integer strictly between the bounds. */
  predicate IsExpired(key: string, start: int, end: int) {
    ParseInt(key).Some? && start < ParseInt(key).value < end
  }

  function CleanedBucket(b: Bucket, start: int, end: int): Bucket {
    map k | k in b && !IsExpired(k, start, end) :: b[k]
  }

  function Cleaned(db: Buckets, names: set<string>, start: int, end: int): Buckets {
    map name | name in db :: if name in names then CleanedBucket(db[name], start, end) else db[name]
  }

  class Messenger {
    var db: Buckets

    method AddBucket(name: string)
      modifies this
      ensures db == if name in old(db) then old(db) else old(db)[name := map[]]
    {
      if name !in db {
        db := db[name := map[]];
      }
    }

    /** Fails when the bucket does not exist. */
    method Put(name: string, key: string, value: string) returns (ok: bool)
      modifies this
      ensures ok <==> name in old(db)
      ensures db == if ok then old(db)[name := old(db)[name][key := value]] else old(db)
    {
      ok := name in db;
      if ok {
        db := db[name := db[name][key := value]];
      }
    }

    method AddData(name: string, key: Timestamp, value: string) returns (ok: bool)
      modifies this
      ensures ok <==> name in old(db)
      ensures db == if ok then old(db)[name := old(db)[name][IntText(key) := value]] else old(db)
    {
      ok := Put(name, IntText(key), value);
    }

    method DelData(name: string, key: Timestamp) returns (ok: bool)
      modifies this
      ensures ok <==> name in old(db)
      ensures db == if ok then old(db)[name := old(db)[name] - {IntText(key)}] else old(db)
    {
      ok := name in db;
      if ok {
        db := db[name := db[name] - {IntText(key)}];
      }
    }

    /** Removes the expired keys of the named buckets, skipping buckets that do not exist. */
    method Clean(names: seq<string>, start: int, end: int)
      modifies this
      ensures db == Cleaned(old(db), (set name <- names), start, end)
    {
      CleanedNone(db, start, end);
      for i := 0 to |names|
        invariant db == Cleaned(old(db), (set name <- names[..i]), start, end)
      {
        CleanedMore(old(db), names[..i], names[i], start, end);
        assert names[..i + 1] == names[..i] + [names[i]];
        if names[i] in db {
          var expired := ExpiredKeys(db[names[i]], start, end);
          assert db[names[i]] - expired == CleanedBucket(db[names[i]], start, end);
          db := db[names[i] := db[names[i]] - expired];
        }
      }
      assert names[..|names|] == names;
    }
  }

  method ExpiredKeys(b: Bucket, start: int, end: int) returns (expired: set<string>)
    ensures expired == set k | k in b && IsExpired(k, start, end)
  {
    expired := {};
    var todo := b.Keys;
    while todo != {}
      invariant todo <= b.Keys
      invariant expired == set k | k in b && k !in todo && IsExpired(k, start, end)
      decreases |todo|
    {
      var k :| k in todo;
      if IsExpired(k, start, end) {
        expired := expired + {k};
      }
      todo := todo - {k};
    }
  }

  lemma CleanedNone(db: Buckets, start: int, end: int)
    ensures Cleaned(db, (set name <- []), start, end) == db
  {
  }

  /** Cleaning one more bucket after others. */
  lemma CleanedMore(db: Buckets, names: seq<string>, name: string, start: int, end: int)
    ensures var before := Cleaned(db, (set n <- names), start, end);
      Cleaned(db, (set n <- names + [name]), start, end) ==
      if name in before then before[name := CleanedBucket(before[name], start, end)] else before
  {
    if name in db {
      CleanedTwice(db[name], start, end);
    }
    assert (set n <- names + [name]) == (set n <- names) + {name};
  }

  lemma CleanedTwice(b: Bucket, start: int, end: int)
    ensures CleanedBucket(CleanedBucket(b, start, end), start, end) == CleanedBucket(b, start, end)
  {
  }

  /** The metadata key is not a number, and a timestamp's key is its own number. */
  lemma KeysApart(t: Timestamp)
    ensures IntText(t) != METADATA
    ensures forall start, end :: !IsExpired(METADATA, start, end)
    ensures forall start, end :: IsExpired(IntText(t), start, end) <==> start < t < end
  {
    ParseIntText(t);
    assert !IsDigit(METADATA[0]);
    assert METADATA[0] in METADATA;
  }
}
