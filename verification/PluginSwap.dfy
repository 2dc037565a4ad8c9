/** Swapping running plugins: indices are collected in nested loops, sorted in descending order
    and deleted one by one. */
module PluginSwap {
  import opened Text

  datatype Category = Input | Processor | Aggregator | Output

  /** A loaded plugin. */
  datatype Plugin = Plugin(category: Category, name: string, hash: string)

  /** One value for each of the four plugin categories. */
  datatype PerCategory<T> = PerCategory(input: T, processor: T, aggregator: T, output: T) {
    function At(c: Category): T {
      match c
      case Input => input
      case Processor => processor
      case Aggregator => aggregator
      case Output => output
    }

    function With(c: Category, value: T): (r: PerCategory<T>)
      ensures r.At(c) == value && forall d | d != c :: r.At(d) == At(d)
    {
      match c
      case Input => this.(input := value)
      case Processor => this.(processor := value)
      case Aggregator => this.(aggregator := value)
      case Output => this.(output := value)
    }
  }

  // ---------- collecting, sorting, deleting ----------

  /** The first n positions of running that the key matches. */
  function Hits<K>(running: seq<Plugin>, key: K, matches: (Plugin, K) -> bool, n: nat): seq<nat>
    requires n <= |running|
  {
    if n == 0 then []
    else Hits(running, key, matches, n - 1) + if matches(running[n - 1], key) then [n - 1] else []
  }

  function Collected<K>(running: seq<Plugin>, keys: seq<K>, matches: (Plugin, K) -> bool): seq<nat> {
    if |keys| == 0 then []
    else Collected(running, keys[..|keys| - 1], matches) + Hits(running, keys[|keys| - 1], matches, |running|)
  }

  function InsertDescending(s: seq<nat>, x: nat): seq<nat> {
    if |s| == 0 || x >= s[0] then [x] + s else [s[0]] + InsertDescending(s[1..], x)
  }

  /** sort.Sort(sort.Reverse(...)). */
  function SortDescending(s: seq<nat>): seq<nat> {
    if |s| == 0 then [] else InsertDescending(SortDescending(s[1..]), s[0])
  }

  /** The plugins left after deleting the positions in turn; None is an index out of range. */
  function Deleted(running: seq<Plugin>, positions: seq<nat>): Option<seq<Plugin>>
    decreases |positions|
  {
    if |positions| == 0 then Some(running)
    else
      var i := positions[0];
      if i >= |running| then None
      else Deleted(running[..i] + running[i + 1..], positions[1..])
  }

  function Removed<K>(running: seq<Plugin>, keys: seq<K>, matches: (Plugin, K) -> bool): Option<seq<Plugin>> {
    Deleted(running, SortDescending(Collected(running, keys, matches)))
  }

  method CollectIndices<K>(running: seq<Plugin>, keys: seq<K>, matches: (Plugin, K) -> bool)
    returns (positions: seq<nat>)
    ensures positions == Collected(running, keys, matches)
  {
    positions := [];
    for k := 0 to |keys|
      invariant positions == Collected(running, keys[..k], matches)
    {
      assert keys[..k + 1][..k] == keys[..k];
      for i := 0 to |running|
        invariant positions == Collected(running, keys[..k], matches) + Hits(running, keys[k], matches, i)
      {
        if matches(running[i], keys[k]) {
          positions := positions + [i];
        }
      }
    }
    assert keys[..|keys|] == keys;
  }

  /** Deletes the positions one after another, closing each plugin it drops. */
  method DeletePositions(running: seq<Plugin>, positions: seq<nat>)
    returns (left: Option<seq<Plugin>>, closed: seq<Plugin>)
    ensures left == Deleted(running, positions)
    ensures left.Some? ==> multiset(closed) + multiset(left.value) == multiset(running)
  {
    var now := running;
    closed := [];
    for k := 0 to |positions|
      invariant Deleted(running, positions) == Deleted(now, positions[k..])
      invariant multiset(closed) + multiset(now) == multiset(running)
    {
      var i := positions[k];
      if i >= |now| {
        return None, closed;
      }
      assert now == now[..i] + [now[i]] + now[i + 1..];
      closed := closed + [now[i]];
      now := now[..i] + now[i + 1..];
      assert positions[k..][1..] == positions[k + 1..];
    }
    left := Some(now);
  }

  // ---------- what it should do ----------

  /** How many of the keys match the plugin. */
  function Matches<K>(p: Plugin, keys: seq<K>, matches: (Plugin, K) -> bool): nat {
    if |keys| == 0 then 0
    else Matches(p, keys[..|keys| - 1], matches) + if matches(p, keys[|keys| - 1]) then 1 else 0
  }

  /** The plugins no key matches, in order. */
  function Kept<K>(running: seq<Plugin>, keys: seq<K>, matches: (Plugin, K) -> bool): seq<Plugin> {
    if |running| == 0 then []
    else
      Kept(running[..|running| - 1], keys, matches)
      + if Matches(running[|running| - 1], keys, matches) == 0 then [running[|running| - 1]] else []
  }

  /** No running plugin is matched by two keys. */
  predicate MatchedOnce<K>(running: seq<Plugin>, keys: seq<K>, matches: (Plugin, K) -> bool) {
    forall p <- running :: Matches(p, keys, matches) <= 1
  }

  lemma CountAppended(a: seq<nat>, x: nat, i: nat)
    ensures multiset(a + [x])[i] == multiset(a)[i] + if i == x then 1 else 0
    ensures multiset([x] + a)[i] == multiset(a)[i] + if i == x then 1 else 0
  {
  }

  lemma CountGrown(a: seq<nat>, b: seq<nat>, x: nat, grows: bool, i: nat)
    requires b == if grows then a + [x] else a
    ensures multiset(b)[i] == multiset(a)[i] + if grows && i == x then 1 else 0
  {
    CountAppended(a, x, i);
  }

  lemma HitsStep<K>(running: seq<Plugin>, key: K, matches: (Plugin, K) -> bool, n: nat)
    requires 0 < n <= |running|
    ensures Hits(running, key, matches, n) ==
            if matches(running[n - 1], key) then Hits(running, key, matches, n - 1) + [n - 1]
            else Hits(running, key, matches, n - 1)
  {
  }

  lemma {:induction false} HitsCount<K>(running: seq<Plugin>, key: K, matches: (Plugin, K) -> bool, n: nat, i: nat)
    requires n <= |running|
    ensures multiset(Hits(running, key, matches, n))[i] == if i < n && matches(running[i], key) then 1 else 0
  {
    if n > 0 {
      var before := Hits(running, key, matches, n - 1);
      HitsCount(running, key, matches, n - 1, i);
      HitsStep(running, key, matches, n);
      CountGrown(before, Hits(running, key, matches, n), n - 1, matches(running[n - 1], key), i);
    }
  }

  lemma {:induction false} CollectedCount<K>(running: seq<Plugin>, keys: seq<K>, matches: (Plugin, K) -> bool, i: nat)
    ensures multiset(Collected(running, keys, matches))[i] ==
            if i < |running| then Matches(running[i], keys, matches) else 0
  {
    if |keys| > 0 {
      CollectedCount(running, keys[..|keys| - 1], matches, i);
      HitsCount(running, keys[|keys| - 1], matches, |running|, i);
    }
  }

  predicate IsDescending(s: seq<nat>) {
    forall i, j :: 0 <= i < j < |s| ==> s[i] >= s[j]
  }

  lemma {:induction false} InsertCounts(s: seq<nat>, x: nat)
    ensures multiset(InsertDescending(s, x)) == multiset(s) + multiset{x}
  {
    if |s| > 0 && x < s[0] {
      InsertCounts(s[1..], x);
      assert s == [s[0]] + s[1..];
    }
  }

  lemma {:induction false} InsertBound(s: seq<nat>, x: nat, top: nat)
    requires x <= top && forall y <- s :: y <= top
    ensures forall y <- InsertDescending(s, x) :: y <= top
  {
    if |s| > 0 && x < s[0] {
      assert s[0] in s && forall y <- s[1..] :: y in s;
      InsertBound(s[1..], x, top);
    }
  }

  lemma DescendingCons(top: nat, rest: seq<nat>)
    requires IsDescending(rest) && forall i | 0 <= i < |rest| :: rest[i] <= top
    ensures IsDescending([top] + rest)
  {
  }

  lemma {:induction false} InsertFacts(s: seq<nat>, x: nat)
    requires IsDescending(s)
    ensures IsDescending(InsertDescending(s, x))
    ensures multiset(InsertDescending(s, x)) == multiset(s) + multiset{x}
  {
    InsertCounts(s, x);
    if |s| == 0 || x >= s[0] {
      DescendingCons(x, s);
    } else {
      InsertFacts(s[1..], x);
      InsertBound(s[1..], x, s[0]);
      var rest := InsertDescending(s[1..], x);
      assert forall i | 0 <= i < |rest| :: rest[i] in rest;
      DescendingCons(s[0], rest);
    }
  }

  lemma {:induction false} SortFacts(s: seq<nat>)
    ensures IsDescending(SortDescending(s)) && multiset(SortDescending(s)) == multiset(s)
  {
    if |s| > 0 {
      SortFacts(s[1..]);
      InsertFacts(SortDescending(s[1..]), s[0]);
      assert s == [s[0]] + s[1..];
    }
  }

  /** The matched positions, each once, largest first. */
  function Marked<K>(running: seq<Plugin>, keys: seq<K>, matches: (Plugin, K) -> bool): seq<nat> {
    if |running| == 0 then []
    else
      var n := |running| - 1;
      (if Matches(running[n], keys, matches) > 0 then [n] else []) + Marked(running[..n], keys, matches)
  }

  lemma {:induction false} MarkedFacts<K>(running: seq<Plugin>, keys: seq<K>, matches: (Plugin, K) -> bool)
    ensures IsDescending(Marked(running, keys, matches))
    ensures forall i <- Marked(running, keys, matches) :: i < |running|
  {
    if |running| > 0 {
      var tail := Marked(running[..|running| - 1], keys, matches);
      MarkedFacts(running[..|running| - 1], keys, matches);
      assert forall i | 0 <= i < |tail| :: tail[i] in tail;
    }
  }

  lemma {:induction false} MarkedCount<K>(running: seq<Plugin>, keys: seq<K>, matches: (Plugin, K) -> bool, i: nat)
    ensures multiset(Marked(running, keys, matches))[i] ==
            if i < |running| && Matches(running[i], keys, matches) > 0 then 1 else 0
  {
    if |running| > 0 {
      var n := |running| - 1;
      MarkedCount(running[..n], keys, matches, i);
      LastStep(running, keys, matches);
      CountAppended(Marked(running[..n], keys, matches), n, i);
    }
  }

  lemma LastStep<K>(front: seq<Plugin>, keys: seq<K>, matches: (Plugin, K) -> bool)
    requires |front| > 0
    ensures var n := |front| - 1;
      if Matches(front[n], keys, matches) > 0
      then Marked(front, keys, matches) == [n] + Marked(front[..n], keys, matches)
           && Kept(front, keys, matches) == Kept(front[..n], keys, matches)
      else Marked(front, keys, matches) == Marked(front[..n], keys, matches)
           && Kept(front, keys, matches) == Kept(front[..n], keys, matches) + [front[n]]
  {
  }

  lemma DeletedFirst(running: seq<Plugin>, i: nat, tail: seq<nat>)
    requires i < |running|
    ensures Deleted(running, [i] + tail) == Deleted(running[..i] + running[i + 1..], tail)
  {
    assert ([i] + tail)[1..] == tail;
  }

  /** Deleting from the back, the positions still to come are not disturbed. */
  lemma DeletedLast(front: seq<Plugin>, rest: seq<Plugin>, tail: seq<nat>)
    requires |front| > 0
    ensures Deleted(front + rest, [|front| - 1] + tail) == Deleted(front[..|front| - 1] + rest, tail)
  {
    var n := |front| - 1;
    DeletedFirst(front + rest, n, tail);
    assert (front + rest)[..n] + (front + rest)[n + 1..] == front[..n] + rest;
  }

  lemma Regrouped(a: seq<Plugin>, x: Plugin, b: seq<Plugin>)
    ensures a + [x] + b == a + ([x] + b)
  {
  }

  lemma {:induction false} DeletedKeeps<K>(front: seq<Plugin>, rest: seq<Plugin>, keys: seq<K>,
                                           matches: (Plugin, K) -> bool)
    ensures Deleted(front + rest, Marked(front, keys, matches)) == Some(Kept(front, keys, matches) + rest)
    decreases |front|
  {
    if |front| == 0 {
      assert front + rest == rest;
    } else {
      var n := |front| - 1;
      var before, last := front[..n], front[n];
      LastStep(front, keys, matches);
      if Matches(last, keys, matches) > 0 {
        DeletedKeeps(before, rest, keys, matches);
        DeletedLast(front, rest, Marked(before, keys, matches));
      } else {
        DeletedKeeps(before, [last] + rest, keys, matches);
        Regrouped(before, last, rest);
        Regrouped(Kept(before, keys, matches), last, rest);
        assert front == before + [last];
      }
    }
  }

  lemma FirstIsLargest(a: seq<nat>, b: seq<nat>)
    requires IsDescending(b) && multiset(a) == multiset(b) && |a| > 0
    ensures |b| > 0 && a[0] <= b[0]
  {
    assert a[0] in multiset(b);
    var i :| 0 <= i < |b| && b[i] == a[0];
  }

  lemma {:induction false} DescendingUnique(a: seq<nat>, b: seq<nat>)
    requires IsDescending(a) && IsDescending(b) && multiset(a) == multiset(b)
    ensures a == b
  {
    if |a| == 0 {
      assert |multiset(b)| == 0;
    } else {
      FirstIsLargest(a, b);
      FirstIsLargest(b, a);
      assert a == [a[0]] + a[1..] && b == [b[0]] + b[1..];
      assert multiset(a[1..]) == multiset(a) - multiset{a[0]};
      assert multiset(b[1..]) == multiset(b) - multiset{b[0]};
      DescendingUnique(a[1..], b[1..]);
    }
  }

  lemma {:induction false} DeletedLength(running: seq<Plugin>, positions: seq<nat>)
    ensures Deleted(running, positions).Some? ==> |Deleted(running, positions).value| == |running| - |positions|
    decreases |positions|
  {
    if |positions| > 0 && positions[0] < |running| {
      var i := positions[0];
      DeletedLength(running[..i] + running[i + 1..], positions[1..]);
    }
  }

  /** The swap deletes exactly the matched plugins, keeping the others in order, if and only if
      no plugin is matched by two keys; a second match takes a neighbour or runs off the end. */
  lemma RemovedExactly<K>(running: seq<Plugin>, keys: seq<K>, matches: (Plugin, K) -> bool)
    ensures Removed(running, keys, matches) == Some(Kept(running, keys, matches)) <==>
      MatchedOnce(running, keys, matches)
  {
    var once := Marked(running, keys, matches);
    DeletedKeeps(running, [], keys, matches);
    assert running + [] == running;
    assert Kept(running, keys, matches) + [] == Kept(running, keys, matches);
    SortFacts(Collected(running, keys, matches));
    if MatchedOnce(running, keys, matches) {
      SortedIsMarked(running, keys, matches);
    } else {
      var p :| p in running && Matches(p, keys, matches) > 1;
      var at :| 0 <= at < |running| && running[at] == p;
      DeletedLength(running, once);
      DeletedLength(running, SortDescending(Collected(running, keys, matches)));
      TooMany(running, keys, matches, at);
    }
  }

  lemma SortedIsMarked<K>(running: seq<Plugin>, keys: seq<K>, matches: (Plugin, K) -> bool)
    requires MatchedOnce(running, keys, matches)
    ensures SortDescending(Collected(running, keys, matches)) == Marked(running, keys, matches)
  {
    var found, once := Collected(running, keys, matches), Marked(running, keys, matches);
    SortFacts(found);
    MarkedFacts(running, keys, matches);
    var a: multiset<nat>, b: multiset<nat> := multiset(found), multiset(once);
    forall i: nat ensures a[i] == b[i] {
      CollectedCount(running, keys, matches, i);
      MarkedCount(running, keys, matches, i);
      if i < |running| {
        assert running[i] in running;
      }
    }
    assert a == b;
    DescendingUnique(SortDescending(found), once);
  }

  lemma TooMany<K>(running: seq<Plugin>, keys: seq<K>, matches: (Plugin, K) -> bool, at: nat)
    requires at < |running| && Matches(running[at], keys, matches) > 1
    ensures |Marked(running, keys, matches)| < |SortDescending(Collected(running, keys, matches))|
  {
    var found, once := Collected(running, keys, matches), Marked(running, keys, matches);
    SortFacts(found);
    var a: multiset<nat>, b: multiset<nat> := multiset(once), multiset(found);
    forall i: nat ensures a[i] <= b[i] {
      CollectedCount(running, keys, matches, i);
      MarkedCount(running, keys, matches, i);
    }
    CollectedCount(running, keys, matches, at);
    MarkedCount(running, keys, matches, at);
    MoreElements(once, found, at);
    assert |SortDescending(found)| == |multiset(SortDescending(found))|;
    assert |found| == |multiset(found)|;
  }

  lemma MoreElements(a: seq<nat>, b: seq<nat>, x: nat)
    requires forall i: nat :: multiset(a)[i] <= multiset(b)[i]
    requires multiset(a)[x] < multiset(b)[x]
    ensures |a| < |b|
  {
    var more := multiset(a) + multiset{x};
    forall i ensures more[i] <= multiset(b)[i] {
    }
    assert multiset(b) == more + (multiset(b) - more);
    assert |more| == |multiset(a)| + 1 == |a| + 1;
    assert |multiset(b)| == |b|;
  }

  // ---------- the two matching rules ----------

  /** A configuration entry of a plugin file. */
  datatype PluginConfig = PluginConfig(category: Category, name: string, hash: string)

  /** An update replaces by category and name. */
  predicate SameName(p: Plugin, update: Plugin) {
    p.category == update.category && p.name == update.name
  }

  /** A deletion removes by content hash. */
  predicate SameHash(p: Plugin, entry: PluginConfig) {
    p.hash == entry.hash
  }

  predicate DistinctNames(s: seq<Plugin>) {
    forall i, j :: 0 <= i < j < |s| ==> !SameName(s[i], s[j])
  }

  predicate DistinctHashes(s: seq<PluginConfig>) {
    forall i, j :: 0 <= i < j < |s| ==> s[i].hash != s[j].hash
  }

  lemma {:induction false} NamesMatchOnce(p: Plugin, updates: seq<Plugin>)
    requires DistinctNames(updates)
    ensures Matches(p, updates, SameName) <= 1
    ensures Matches(p, updates, SameName) > 0 <==> exists u <- updates :: SameName(p, u)
  {
    if |updates| > 0 {
      var front, last := updates[..|updates| - 1], updates[|updates| - 1];
      NamesMatchOnce(p, front);
      assert updates == front + [last];
      assert last in updates;
      if SameName(p, last) && Matches(p, front, SameName) > 0 {
        var u :| u in front && SameName(p, u);
        assert SameName(u, last);
      }
    }
  }

  lemma {:induction false} HashesMatchOnce(p: Plugin, entries: seq<PluginConfig>)
    requires DistinctHashes(entries)
    ensures Matches(p, entries, SameHash) <= 1
    ensures Matches(p, entries, SameHash) > 0 <==> exists e <- entries :: SameHash(p, e)
  {
    if |entries| > 0 {
      var front, last := entries[..|entries| - 1], entries[|entries| - 1];
      HashesMatchOnce(p, front);
      assert entries == front + [last];
      assert last in entries;
    }
  }

  lemma {:induction false} InKept<K>(running: seq<Plugin>, keys: seq<K>, matches: (Plugin, K) -> bool, p: Plugin)
    ensures p in Kept(running, keys, matches) <==> p in running && Matches(p, keys, matches) == 0
  {
    if |running| > 0 {
      InKept(running[..|running| - 1], keys, matches, p);
      assert running == running[..|running| - 1] + [running[|running| - 1]];
    }
  }

  lemma {:induction false} KeptDistinct<K>(running: seq<Plugin>, keys: seq<K>, matches: (Plugin, K) -> bool)
    requires DistinctNames(running)
    ensures DistinctNames(Kept(running, keys, matches))
  {
    if |running| > 0 {
      var front, last := running[..|running| - 1], running[|running| - 1];
      KeptDistinct(front, keys, matches);
      forall i | 0 <= i < |Kept(front, keys, matches)|
        ensures !SameName(Kept(front, keys, matches)[i], last)
      {
        InKept(front, keys, matches, Kept(front, keys, matches)[i]);
      }
    }
  }

  lemma {:induction false} UnmatchedNames(p: Plugin, updates: seq<Plugin>)
    ensures Matches(p, updates, SameName) == 0 <==> forall u <- updates :: u.category != p.category || u.name != p.name
  {
    if |updates| > 0 {
      UnmatchedNames(p, updates[..|updates| - 1]);
      assert updates == updates[..|updates| - 1] + [updates[|updates| - 1]];
    }
  }

  /** A replacement of plugins with distinct names keeps at most one plugin of each name,
      and the updated names now belong to the updates. */
  lemma ReplacementKeepsNamesUnique(running: seq<Plugin>, updates: seq<Plugin>)
    requires DistinctNames(running) && DistinctNames(updates)
    ensures Removed(running, updates, SameName) == Some(Kept(running, updates, SameName))
    ensures DistinctNames(Kept(running, updates, SameName) + updates)
    ensures var all := Kept(running, updates, SameName) + updates;
      forall i, j :: 0 <= i < j < |all| ==> all[i].category != all[j].category || all[i].name != all[j].name
    ensures forall p :: p in Kept(running, updates, SameName) <==>
      p in running && forall u <- updates :: u.category != p.category || u.name != p.name
  {
    forall p ensures p in Kept(running, updates, SameName) <==>
      p in running && forall u <- updates :: u.category != p.category || u.name != p.name
    {
      InKept(running, updates, SameName, p);
      UnmatchedNames(p, updates);
    }
    forall p ensures Matches(p, updates, SameName) <= 1 {
      NamesMatchOnce(p, updates);
    }
    RemovedExactly(running, updates, SameName);
    var kept := Kept(running, updates, SameName);
    KeptDistinct(running, updates, SameName);
    forall i, j | 0 <= i < |kept| && 0 <= j < |updates|
      ensures !SameName(kept[i], updates[j])
    {
      InKept(running, updates, SameName, kept[i]);
      NamesMatchOnce(kept[i], updates);
      assert updates[j] in updates;
    }
  }

  /** Two entries of one hash: the second deletion takes the neighbour. */
  lemma RepeatedHashTakesNeighbour()
    ensures var a := Plugin(Input, "a", "h");
            var b := Plugin(Input, "b", "k");
            var e := PluginConfig(Input, "a", "h");
            Removed([a, b], [e, e], SameHash) == Some([]) && Kept([a, b], [e, e], SameHash) == [b]
            && Removed([b, a], [e, e], SameHash) == None
  {
    EntryTwice(Plugin(Input, "a", "h"), Plugin(Input, "b", "k"), PluginConfig(Input, "a", "h"));
  }

  lemma EntryTwice(a: Plugin, b: Plugin, e: PluginConfig)
    requires a.hash == e.hash && b.hash != e.hash
    ensures Removed([a, b], [e, e], SameHash) == Some([]) && Kept([a, b], [e, e], SameHash) == [b]
    ensures Removed([b, a], [e, e], SameHash) == None
  {
    assert [e, e][..1] == [e] && [e][..0] == [];
    CollectedOfPair(a, b, e);
    CollectedOfPair(b, a, e);
    SortedPair(0);
    SortedPair(1);
    DeletedPair(a, b);
    DeletedPair(b, a);
    assert [0] + [] == [0] && [] + [1] == [1];
    assert [0] + [0] == [0, 0] && [1] + [1] == [1, 1];
    KeptOfPair(a, b, e);
  }

  lemma KeptOfPair(a: Plugin, b: Plugin, e: PluginConfig)
    requires a.hash == e.hash && b.hash != e.hash
    ensures Kept([a, b], [e, e], SameHash) == [b]
  {
    assert [e, e][..1] == [e] && [e][..0] == [];
    assert Matches(a, [e], SameHash) == 1 && Matches(b, [e], SameHash) == 0;
    assert [a, b][..1] == [a] && [a][..0] == [];
    assert Kept([a], [e, e], SameHash) == [];
  }

  lemma CollectedOfPair(p: Plugin, q: Plugin, e: PluginConfig)
    ensures var hits := (if p.hash == e.hash then [0] else []) + (if q.hash == e.hash then [1] else []);
      Collected([p, q], [e, e], SameHash) == hits + hits
  {
    assert [e, e][..1] == [e] && [e][..0] == [];
    HitsOfPair(p, q, e);
    var hits := Hits([p, q], e, SameHash, 2);
    assert Collected([p, q], [e], SameHash) == [] + hits == hits;
  }

  lemma SortedPair(i: nat)
    ensures SortDescending([i, i]) == [i, i]
  {
    assert [i, i][1..] == [i] && SortDescending([i]) == [i];
  }

  lemma DeletedPair(p: Plugin, q: Plugin)
    ensures Deleted([p, q], [0, 0]) == Some([]) && Deleted([p, q], [1, 1]) == None
  {
    assert [0, 0][1..] == [0] && [1, 1][1..] == [1];
    assert [p, q][..0] + [p, q][1..] == [q] && [q][..0] + [q][1..] == [];
    assert [p, q][..1] + [p, q][2..] == [p];
    assert Deleted([q], [0]) == Some([]) && Deleted([p], [1]) == None;
  }

  lemma HitsOfPair(p: Plugin, q: Plugin, e: PluginConfig)
    ensures Hits([p, q], e, SameHash, 2) ==
      (if p.hash == e.hash then [0] else []) + (if q.hash == e.hash then [1] else [])
  {
    assert Hits([p, q], e, SameHash, 1) == (if p.hash == e.hash then [0] else []);
  }
}
