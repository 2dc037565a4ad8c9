/** The time-series store: a write-once cache by timestamp in front of the database, range search,
    and two expiry sweeps. */
module Storage {
  import opened Text
  import opened Database

  datatype Metric = Metric(indicator: string, tag: string, fields: map<Timestamp, string>)

  datatype SearchResult = Found(keys: seq<Timestamp>, values: map<Timestamp, string>) | BadRange | NotFound

  // ---------- one metric ----------

  predicate IsAscending(s: seq<Timestamp>) {
    forall i, j :: 0 <= i < j < |s| ==> s[i] < s[j]
  }

  predicate IsSorted(s: seq<Timestamp>) {
    forall i, j :: 0 <= i < j < |s| ==> s[i] <= s[j]
  }

  function Inserted(s: seq<Timestamp>, t: Timestamp): (r: seq<Timestamp>)
    requires IsSorted(s)
    ensures IsSorted(r) && multiset(r) == multiset(s) + multiset{t}
  {
    if |s| == 0 || t <= s[0] then [t] + s
    else
      assert s == [s[0]] + s[1..];
      var rest := Inserted(s[1..], t);
      SortedCons(s, t, rest);
      [s[0]] + rest
  }

  lemma SortedCons(s: seq<Timestamp>, t: Timestamp, rest: seq<Timestamp>)
    requires IsSorted(s) && |s| > 0 && t > s[0] && IsSorted(rest)
    requires multiset(rest) == multiset(s[1..]) + multiset{t}
    ensures IsSorted([s[0]] + rest)
  {
    forall i | 0 <= i < |rest| ensures s[0] <= rest[i] {
      assert rest[i] in multiset(rest);
      assert rest[i] in s[1..] || rest[i] == t;
    }
  }

  /** Sorting any slice; equal numbers cannot be told apart. */
  function SortInt64(raw: seq<Timestamp>): (sorted: seq<Timestamp>)
    ensures IsSorted(sorted) && multiset(sorted) == multiset(raw)
  {
    if |raw| == 0 then []
    else
      assert raw == [raw[0]] + raw[1..];
      Inserted(SortInt64(raw[1..]), raw[0])
  }

  lemma {:induction false} CountsDistinct(raw: seq<Timestamp>, t: Timestamp)
    requires forall i, j :: 0 <= i < j < |raw| ==> raw[i] != raw[j]
    ensures multiset(raw)[t] <= 1
  {
    if |raw| > 0 {
      assert raw == [raw[0]] + raw[1..];
      CountsDistinct(raw[1..], t);
      assert raw[0] !in raw[1..];
    }
  }

  lemma CountsTwice(s: seq<Timestamp>, i: nat, j: nat)
    requires i < j < |s| && s[i] == s[j]
    ensures multiset(s)[s[i]] >= 2
  {
    assert s == s[..j] + [s[j]] + s[j + 1..];
    assert s[i] in s[..j];
  }

  /** Sorting distinct timestamps lists them in strictly ascending order. */
  lemma SortedDistinct(raw: seq<Timestamp>, sorted: seq<Timestamp>)
    requires forall i, j :: 0 <= i < j < |raw| ==> raw[i] != raw[j]
    requires IsSorted(sorted) && multiset(sorted) == multiset(raw)
    ensures IsAscending(sorted)
    ensures forall t :: t in sorted <==> t in raw
  {
    forall i, j | 0 <= i < j < |sorted| ensures sorted[i] < sorted[j] {
      if sorted[i] == sorted[j] {
        CountsTwice(sorted, i, j);
        CountsDistinct(raw, sorted[i]);
      }
    }
    forall t ensures t in sorted <==> t in raw {
      assert t in multiset(sorted) <==> t in multiset(raw);
    }
  }

  /** The metric's answer to a range query: the timestamps in [start, end) in ascending order, with their values. */
  ghost predicate IsAnswer(r: SearchResult, fields: map<Timestamp, string>, start: Timestamp, end: Timestamp) {
    if start > end then r == BadRange
    else
      && r.Found? && IsAscending(r.keys)
      && (forall t :: t in r.keys <==> t in fields && start <= t < end)
      && r.values == map t | t in fields && start <= t < end :: fields[t]
  }

  method Search(fields: map<Timestamp, string>, start: Timestamp, end: Timestamp) returns (r: SearchResult)
    ensures IsAnswer(r, fields, start, end)
  {
    if start > end {
      return BadRange;
    }
    var keys: seq<Timestamp> := [];
    var values: map<Timestamp, string> := map[];
    var todo := fields.Keys;
    while todo != {}
      invariant todo <= fields.Keys
      invariant forall t :: t in keys <==> t in fields && t !in todo && start <= t < end
      invariant forall i, j :: 0 <= i < j < |keys| ==> keys[i] != keys[j]
      invariant values == map t | t in fields && t !in todo && start <= t < end :: fields[t]
      decreases |todo|
    {
      var key :| key in todo;
      if start <= key < end {
        keys := keys + [key];
        values := values[key := fields[key]];
      }
      todo := todo - {key};
    }
    SortedDistinct(keys, SortInt64(keys));
    r := Found(SortInt64(keys), values);
  }

  /** Ascending lists of the same timestamps are equal: a query has one answer. */
  lemma {:induction false} AscendingUnique(a: seq<Timestamp>, b: seq<Timestamp>)
    requires IsAscending(a) && IsAscending(b) && forall t :: t in a <==> t in b
    ensures a == b
  {
    HeadIn(a, b);
    HeadIn(b, a);
    if |a| > 0 {
      assert a[0] in b && b[0] in a;
      assert a[0] == b[0];
      forall t ensures t in a[1..] <==> t in b[1..] {
        InTail(a, t);
        InTail(b, t);
      }
      AscendingUnique(a[1..], b[1..]);
    }
  }

  lemma HeadIn(a: seq<Timestamp>, b: seq<Timestamp>)
    requires forall t :: t in a ==> t in b
    ensures |a| > 0 ==> |b| > 0
  {
    if |a| > 0 {
      assert a[0] in b;
    }
  }

  lemma InTail(a: seq<Timestamp>, t: Timestamp)
    requires IsAscending(a) && |a| > 0
    ensures t in a[1..] <==> t in a && t != a[0]
  {
    assert a == [a[0]] + a[1..];
  }

  /** A sweep of the closed interval; a reversed interval is refused. */
  function SweptFields(fields: map<Timestamp, string>, start: int, end: int): map<Timestamp, string> {
    if start > end then fields else map t | t in fields && !(start <= t <= end) :: fields[t]
  }

  method DelFields(fields: map<Timestamp, string>, start: int, end: int)
    returns (left: map<Timestamp, string>, ok: bool)
    ensures left == SweptFields(fields, start, end)
    ensures ok <==> start <= end
  {
    if start > end {
      return fields, false;
    }
    var doomed: set<Timestamp> := {};
    var todo := fields.Keys;
    while todo != {}
      invariant todo <= fields.Keys
      invariant doomed == set t | t in fields && t !in todo && start <= t <= end
      decreases |todo|
    {
      var key :| key in todo;
      if start <= key <= end {
        doomed := doomed + {key};
      }
      todo := todo - {key};
    }
    return fields - doomed, true;
  }

  // ---------- the store ----------

  datatype Store = Store(cache: map<string, Metric>, db: Buckets)

  /** A character inside a JSON text. */
  function EscapedChar(c: char): (s: string)
    ensures 1 <= |s| <= 2 && s[0] != '"'
  {
    if c == '"' || c == '\\' then ['\\', c] else [c]
  }

  function Escaped(s: string): string {
    if |s| == 0 then "" else EscapedChar(s[0]) + Escaped(s[1..])
  }

  function Quoted(key: string, text: string): string {
    "\"" + Escaped(key) + "\":\"" + Escaped(text) + "\""
  }

  /** An object of two texts. */
  function ObjectText(key: string, text: string, key1: string, text1: string): string {
    "{" + Quoted(key, text) + "," + Quoted(key1, text1) + "}"
  }

  const INDICATOR := "indicator"
  const TAG := "tag"

  function MetadataText(indicator: string, tag: string): string {
    ObjectText(INDICATOR, indicator, TAG, tag)
  }

  // ---------- reading metadata ----------

  /** The text in front of the first bare quote, and what follows the quote. */
  function ReadText(s: string): (r: Option<(string, string)>)
    ensures r.Some? ==> |r.value.1| < |s|
    decreases |s|
  {
    if |s| == 0 then None
    else if s[0] == '"' then Some(("", s[1..]))
    else
      var n := if s[0] == '\\' && |s| > 1 then 1 else 0;
      match ReadText(s[n + 1..])
      case None => None
      case Some(more) => Some(([s[n]] + more.0, more.1))
  }

  /** The members of a JSON object of texts, after its opening brace. */
  function ReadMembers(s: string): Option<map<string, string>>
    decreases |s|
  {
    if |s| == 0 || s[0] != '"' then None
    else
      match ReadText(s[1..])
      case None => None
      case Some(key) =>
        if |key.1| < 2 || key.1[..2] != ":\"" then None
        else
          match ReadText(key.1[2..])
          case None => None
          case Some(value) => ReadMore(map[key.0 := value.0], value.1)
  }

  function ReadMore(first: map<string, string>, s: string): Option<map<string, string>>
    decreases |s|
  {
    if s == "}" then Some(first)
    else if |s| == 0 || s[0] != ',' then None
    else
      match ReadMembers(s[1..])
      case None => None
      case Some(others) => Some(first + others)
  }

  function ReadObject(s: string): Option<map<string, string>> {
    if |s| == 0 || s[0] != '{' then None else ReadMembers(s[1..])
  }

  lemma ReadChar(c: char, x: string)
    requires ReadText(x).Some?
    ensures ReadText(EscapedChar(c) + x) == Some(([c] + ReadText(x).value.0, ReadText(x).value.1))
  {
    var s := EscapedChar(c) + x;
    assert s[|EscapedChar(c)|..] == x;
    assert s[0] == EscapedChar(c)[0];
    if |EscapedChar(c)| == 2 {
      assert s[1] == EscapedChar(c)[1];
    }
  }

  /** An escaped text is read back up to the quote that ends it. */
  lemma {:induction false} ReadEscaped(a: string, x: string)
    ensures ReadText(Escaped(a) + ("\"" + x)) == Some((a, x))
  {
    var rest := "\"" + x;
    if |a| == 0 {
      assert Escaped(a) + rest == rest && rest[1..] == x;
    } else {
      assert Escaped(a) + rest == EscapedChar(a[0]) + (Escaped(a[1..]) + rest);
      ReadEscaped(a[1..], x);
      ReadChar(a[0], Escaped(a[1..]) + rest);
      assert [a[0]] + a[1..] == a;
    }
  }

  lemma ReadValue(key: string, text: string, x: string)
    ensures ReadMembers("\"" + (Escaped(key) + ("\"" + (":\"" + (Escaped(text) + ("\"" + x)))))) ==
            ReadMore(map[key := text], x)
  {
    var value := Escaped(text) + ("\"" + x);
    var after := ":\"" + value;
    var s := "\"" + (Escaped(key) + ("\"" + after));
    assert s[0] == '"' && s[1..] == Escaped(key) + ("\"" + after);
    ReadEscaped(key, after);
    assert after[..2] == ":\"" && after[2..] == value;
    ReadEscaped(text, x);
  }

  lemma Nested(q: string, key: string, colon: string, text: string, x: string)
    ensures q + key + (q + colon) + text + q + x == q + (key + (q + (colon + (text + (q + x)))))
  {
  }

  lemma ReadQuoted(key: string, text: string, x: string)
    ensures ReadMembers(Quoted(key, text) + x) == ReadMore(map[key := text], x)
  {
    ReadValue(key, text, x);
    Nested("\"", Escaped(key), ":\"", Escaped(text), x);
    assert "\":\"" == "\"" + ":\"";
  }

  lemma ObjectReads(key: string, text: string, key1: string, text1: string)
    ensures ReadObject(ObjectText(key, text, key1, text1)) == Some(map[key := text] + map[key1 := text1])
  {
    var last := Quoted(key1, text1) + "}";
    var rest := "," + last;
    var s := ObjectText(key, text, key1, text1);
    assert s[0] == '{' && s[1..] == Quoted(key, text) + rest;
    ReadQuoted(key, text, rest);
    assert rest[1..] == last;
    ReadQuoted(key1, text1, "}");
  }

  lemma KeysDiffer()
    ensures INDICATOR != TAG
  {
    assert |INDICATOR| == 9 && |TAG| == 3;
  }

  lemma TwoKeys(key: string, text: string, key1: string, text1: string, r: map<string, string>)
    requires key != key1
    ensures r == map[key := text] + map[key1 := text1] <==>
            r.Keys == {key, key1} && r[key] == text && r[key1] == text1
  {
    var both := map[key := text] + map[key1 := text1];
    assert both.Keys == {key, key1} && both[key] == text && both[key1] == text1;
    if r.Keys == {key, key1} && r[key] == text && r[key1] == text1 {
      assert forall k <- r :: k in both && r[k] == both[k];
      assert r == both;
    }
  }

  /** A reader of JSON finds the indicator under "indicator" and the tag under "tag", and nothing else. */
  lemma MetadataReads(indicator: string, tag: string, r: map<string, string>)
    ensures INDICATOR == "indicator" && TAG == "tag"
    ensures ReadObject(MetadataText(indicator, tag)) == Some(r) <==>
      r.Keys == {INDICATOR, TAG} && r[INDICATOR] == indicator && r[TAG] == tag
  {
    KeysDiffer();
    ObjectReads(INDICATOR, indicator, TAG, tag);
    TwoKeys(INDICATOR, indicator, TAG, tag, r);
  }

  /** So the stored text determines both. */
  lemma MetadataInjective(i: string, t: string, j: string, u: string)
    requires MetadataText(i, t) == MetadataText(j, u)
    ensures i == j && t == u
  {
    ObjectReads(INDICATOR, i, TAG, t);
    var r := ReadObject(MetadataText(i, t)).value;
    MetadataReads(i, t, r);
    MetadataReads(j, u, r);
  }

  /** The cache entry after an attempted add: indicator and tag are overwritten even when the field is refused. */
  function TouchedMetric(cache: map<string, Metric>, item: string, indicator: string, tag: string): Metric {
    Metric(indicator, tag, if item in cache then cache[item].fields else map[])
  }

  predicate Accepts(cache: map<string, Metric>, item: string, tm: Timestamp) {
    item !in cache || tm !in cache[item].fields
  }

  function BucketOf(db: Buckets, item: string): Bucket {
    if item in db then db[item] else map[]
  }

  function AddedCache(cache: map<string, Metric>, item: string, indicator: string, tag: string, value: string,
                      tm: Timestamp): map<string, Metric> {
    var metric := TouchedMetric(cache, item, indicator, tag);
    cache[item := if Accepts(cache, item, tm) then metric.(fields := metric.fields[tm := value]) else metric]
  }

  function FiledDb(db: Buckets, item: string, metadata: string, value: string, tm: Timestamp): Buckets {
    db[item := BucketOf(db, item)[METADATA := metadata][IntText(tm) := value]]
  }

  function AddedStore(s: Store, item: string, indicator: string, tag: string, value: string, tm: Timestamp): Store {
    Store(AddedCache(s.cache, item, indicator, tag, value, tm),
          if Accepts(s.cache, item, tm) then FiledDb(s.db, item, MetadataText(indicator, tag), value, tm) else s.db)
  }

  const REPORT_BUCKET := "report_save"

  function SweptStore(s: Store, cacheDeadline: int, dbDeadline: int): Store {
    Store(map item | item in s.cache :: s.cache[item].(fields := SweptFields(s.cache[item].fields, 0, cacheDeadline)),
          Cleaned(Cleaned(s.db, s.cache.Keys, 0, dbDeadline), {REPORT_BUCKET}, 0, dbDeadline))
  }

  lemma OnlyReports()
    ensures (set name <- [REPORT_BUCKET]) == {REPORT_BUCKET}
  {
  }

  class Memorizer {
    var cache: map<string, Metric>
    const messenger: Messenger

    ghost function View(): Store
      reads this, messenger
    {
      Store(cache, messenger.db)
    }

    constructor (messenger: Messenger)
      ensures this.messenger == messenger && cache == map[]
    {
      this.messenger := messenger;
      cache := map[];
    }

    /** Puts the value in the cache unless its timestamp is taken. */
    method CacheField(item: string, indicator: string, tag: string, value: string, tm: Timestamp) returns (ok: bool)
      modifies `cache
      ensures ok <==> Accepts(old(cache), item, tm)
      ensures cache == AddedCache(old(cache), item, indicator, tag, value, tm)
    {
      if item !in cache {
        cache := cache[item := Metric(indicator, "", map[])];
      } else {
        cache := cache[item := cache[item].(indicator := indicator)];
      }
      cache := cache[item := cache[item].(tag := tag)];
      ok := tm !in cache[item].fields;
      if ok {
        cache := cache[item := cache[item].(fields := cache[item].fields[tm := value])];
      }
    }

    method AddField(item: string, indicator: string, tag: string, value: string, tm: Timestamp) returns (ok: bool)
      modifies this, messenger
      ensures ok <==> Accepts(old(cache), item, tm)
      ensures View() == AddedStore(old(View()), item, indicator, tag, value, tm)
    {
      ok := CacheField(item, indicator, tag, value, tm);
      if ok {
        StoreField(item, MetadataText(indicator, tag), value, tm);
      }
    }

    /** Existing metadata is covered and missing metadata is added: the same write. */
    method StoreField(item: string, metadata: string, value: string, tm: Timestamp)
      modifies messenger
      ensures messenger.db == FiledDb(old(messenger.db), item, metadata, value, tm)
    {
      messenger.AddBucket(item);
      var put := messenger.Put(item, METADATA, metadata);
      put := messenger.AddData(item, tm, value);
    }

    method GetFieldsMap(item: string, indicator: string, start: Timestamp, end: Timestamp) returns (r: SearchResult)
      ensures item in cache && cache[item].indicator == indicator ==> IsAnswer(r, cache[item].fields, start, end)
      ensures !(item in cache && cache[item].indicator == indicator) ==> r == NotFound
    {
      if item in cache && indicator == cache[item].indicator {
        r := Search(cache[item].fields, start, end);
      } else {
        r := NotFound;
      }
    }

    /** The values alone, in timestamp order. */
    method GetFields(item: string, indicator: string, start: Timestamp, end: Timestamp)
      returns (values: Option<seq<string>>)
      ensures values.Some? <==> item in cache && cache[item].indicator == indicator && start <= end
      ensures values.Some? ==> exists r: SearchResult ::
        IsAnswer(r, cache[item].fields, start, end) && |values.value| == |r.keys|
        && forall i | 0 <= i < |r.keys| ::
            r.keys[i] in cache[item].fields && values.value[i] == cache[item].fields[r.keys[i]]
    {
      var r := GetFieldsMap(item, indicator, start, end);
      if !r.Found? {
        return None;
      }
      assert forall i | 0 <= i < |r.keys| :: r.keys[i] in r.keys && r.keys[i] in cache[item].fields;
      var out: seq<string> := [];
      for i := 0 to |r.keys|
        invariant |out| == i
        invariant forall k | 0 <= k < i :: r.keys[k] in cache[item].fields && out[k] == cache[item].fields[r.keys[k]]
      {
        out := out + [r.values[r.keys[i]]];
      }
      return Some(out);
    }

    method CleanCache(start: int, end: int)
      modifies this
      ensures cache == map item | item in old(cache) ::
        old(cache)[item].(fields := SweptFields(old(cache)[item].fields, start, end))
    {
      var todo := cache.Keys;
      while todo != {}
        invariant cache.Keys == old(cache).Keys && todo <= cache.Keys
        invariant forall item <- todo :: cache[item] == old(cache)[item]
        invariant forall item <- cache | item !in todo ::
                    cache[item] == old(cache)[item].(fields := SweptFields(old(cache)[item].fields, start, end))
        decreases |todo|
      {
        var item :| item in todo;
        var left, ok := DelFields(cache[item].fields, start, end);
        cache := cache[item := cache[item].(fields := left)];
        todo := todo - {item};
      }
    }

    method CacheItemList() returns (items: seq<string>)
      ensures (set item <- items) == cache.Keys
    {
      items := [];
      var todo := cache.Keys;
      while todo != {}
        invariant todo <= cache.Keys && forall item :: item in items <==> item in cache && item !in todo
        decreases |todo|
      {
        var item :| item in todo;
        items := items + [item];
        todo := todo - {item};
      }
    }

    /** One round of the periodic clean-up at the given time. */
    method CleanOnce(now: int, cacheExpiration: int, dbExpiration: int)
      modifies this, messenger
      ensures View() == SweptStore(old(View()), now - cacheExpiration, now - dbExpiration)
    {
      CleanCache(0, now - cacheExpiration);
      var items := CacheItemList();
      assert (set item <- items) == old(cache).Keys;
      messenger.Clean(items, 0, now - dbExpiration);
      OnlyReports();
      messenger.Clean([REPORT_BUCKET], 0, now - dbExpiration);
    }
  }
}
