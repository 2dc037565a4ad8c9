/** Runs of plugin updates and deletions, seen at the points where no handshake is under way:
    the hash register, the configuration sets and the running plugins together. */
module PluginRuns {
  import opened Text
  import opened PluginSwap

  /** A downloaded file: the collector's own configuration, a marked plugin (with a category the collector knows,
      or with none), or something else. */
  datatype File = Json | Marked(category: Option<Category>, name: string) | Unmarked

  /** hashes is the register of hashes taken as running; updates are entries parsed but not yet installed. */
  datatype System = System(
    hashes: set<string>,
    configs: PerCategory<seq<PluginConfig>>,
    updates: PerCategory<seq<PluginConfig>>,
    plugins: PerCategory<seq<Plugin>>)

  const NO_CONFIGS: PerCategory<seq<PluginConfig>> := PerCategory([], [], [], [])

  /** An update names the downloaded files, the order in which they were visited, and the hashes whose plugins
      do not load. */
  datatype Op =
    | Update(files: map<string, File>, order: seq<string>, bad: set<string>)
    | Delete(hashList: seq<string>)

  // ---------- an update ----------

  ghost predicate Visits(order: seq<string>, files: map<string, File>) {
    (forall h :: h in files <==> h in order) && forall i, j :: 0 <= i < j < |order| ==> order[i] != order[j]
  }

  predicate IsNewPlugin(hash: string, files: map<string, File>, known: set<string>) {
    hash in files && hash !in known && files[hash].Marked?
  }

  /** The entries of one category parsed from the files, visited in the given order; known hashes are ignored. */
  function Parsed(order: seq<string>, files: map<string, File>, known: set<string>, c: Category): seq<PluginConfig> {
    if |order| == 0 then []
    else
      var h := order[|order| - 1];
      Parsed(order[..|order| - 1], files, known, c)
      + if IsNewPlugin(h, files, known) && files[h].category == Some(c) then [PluginConfig(c, files[h].name, h)] else []
  }

  function AllParsed(order: seq<string>, files: map<string, File>, known: set<string>): PerCategory<seq<PluginConfig>> {
    PerCategory(Parsed(order, files, known, Input), Parsed(order, files, known, Processor),
                Parsed(order, files, known, Aggregator), Parsed(order, files, known, Output))
  }

  function Joined(a: PerCategory<seq<PluginConfig>>, b: PerCategory<seq<PluginConfig>>)
    : (r: PerCategory<seq<PluginConfig>>)
    ensures forall c :: r.At(c) == a.At(c) + b.At(c)
  {
    PerCategory(a.input + b.input, a.processor + b.processor, a.aggregator + b.aggregator, a.output + b.output)
  }

  function Instances(entries: seq<PluginConfig>): (r: seq<Plugin>)
    ensures |r| == |entries|
    ensures forall i | 0 <= i < |r| :: r[i] == Plugin(entries[i].category, entries[i].name, entries[i].hash)
  {
    seq(|entries|, i requires 0 <= i < |entries| => Plugin(entries[i].category, entries[i].name, entries[i].hash))
  }

  /** One category's list after a replacement. */
  function Replaced(running: seq<Plugin>, updates: seq<Plugin>): Option<seq<Plugin>> {
    match Removed(running, updates, SameName)
    case None => None
    case Some(kept) => Some(kept + updates)
  }

  /** All four lists, or None when one of them indexes out of range. */
  function Collect(a: Option<seq<Plugin>>, b: Option<seq<Plugin>>, c: Option<seq<Plugin>>, d: Option<seq<Plugin>>)
    : Option<PerCategory<seq<Plugin>>>
  {
    if a.Some? && b.Some? && c.Some? && d.Some? then Some(PerCategory(a.value, b.value, c.value, d.value)) else None
  }

  function ReplacedAll(plugins: PerCategory<seq<Plugin>>, updates: PerCategory<seq<PluginConfig>>)
    : Option<PerCategory<seq<Plugin>>>
  {
    Collect(Replaced(plugins.input, Instances(updates.input)),
            Replaced(plugins.processor, Instances(updates.processor)),
            Replaced(plugins.aggregator, Instances(updates.aggregator)),
            Replaced(plugins.output, Instances(updates.output)))
  }

  predicate AllLoad(entries: seq<PluginConfig>, bad: set<string>) {
    forall e <- entries :: e.hash !in bad
  }

  predicate Loads(entries: PerCategory<seq<PluginConfig>>, bad: set<string>) {
    && AllLoad(entries.input, bad) && AllLoad(entries.processor, bad)
    && AllLoad(entries.aggregator, bad) && AllLoad(entries.output, bad)
  }

  /** The pending entries are loaded along with the new ones; one that does not load stops them all. */
  function UpdateStep(s: System, files: map<string, File>, order: seq<string>, bad: set<string>): Option<System> {
    var hashes := s.hashes + files.Keys;
    if forall h <- order :: !IsNewPlugin(h, files, s.hashes) then Some(s.(hashes := hashes))
    else
      var updates := Joined(s.updates, AllParsed(order, files, s.hashes));
      if !Loads(updates, bad) then Some(s.(hashes := hashes, updates := updates))
      else match ReplacedAll(s.plugins, updates)
        case None => None
        case Some(plugins) => Some(System(hashes, Joined(s.configs, updates), NO_CONFIGS, plugins))
  }

  // ---------- a deletion ----------

  function WithHash(entries: seq<PluginConfig>, hash: string): seq<PluginConfig> {
    if |entries| == 0 then []
    else
      WithHash(entries[..|entries| - 1], hash)
      + if entries[|entries| - 1].hash == hash then [entries[|entries| - 1]] else []
  }

  /** The entries of one category checked out for the listed hashes. */
  function CheckedOut(entries: seq<PluginConfig>, hashList: seq<string>): seq<PluginConfig> {
    if |hashList| == 0 then []
    else CheckedOut(entries, hashList[..|hashList| - 1]) + WithHash(entries, hashList[|hashList| - 1])
  }

  function RemovedAll(plugins: PerCategory<seq<Plugin>>, configs: PerCategory<seq<PluginConfig>>, hashList: seq<string>)
    : Option<PerCategory<seq<Plugin>>>
  {
    Collect(Removed(plugins.input, CheckedOut(configs.input, hashList), SameHash),
            Removed(plugins.processor, CheckedOut(configs.processor, hashList), SameHash),
            Removed(plugins.aggregator, CheckedOut(configs.aggregator, hashList), SameHash),
            Removed(plugins.output, CheckedOut(configs.output, hashList), SameHash))
  }

  /** The entries stay in the running configuration; only the register and the plugins change. */
  function DeleteStep(s: System, hashList: seq<string>): Option<System> {
    match RemovedAll(s.plugins, s.configs, hashList)
    case None => None
    case Some(plugins) => Some(s.(hashes := s.hashes - (set h <- hashList), plugins := plugins))
  }

  function Step(s: System, op: Op): Option<System> {
    match op
    case Update(files, order, bad) => UpdateStep(s, files, order, bad)
    case Delete(hashList) => DeleteStep(s, hashList)
  }

  // ---------- what every run keeps ----------

  ghost predicate HasConfig(p: Plugin, entries: seq<PluginConfig>) {
    exists e <- entries :: e.hash == p.hash && e.category == p.category
  }

  /** Every running plugin has a running configuration of its hash and category. */
  ghost predicate IsConfigured(s: System) {
    && (forall c :: forall p <- s.plugins.At(c) :: p.category == c && HasConfig(p, s.configs.At(c)))
    && (forall c :: forall e <- s.configs.At(c) + s.updates.At(c) :: e.category == c)
  }

  lemma {:induction false} DeletedSubset(running: seq<Plugin>, positions: seq<nat>)
    ensures Deleted(running, positions).Some? ==> forall p <- Deleted(running, positions).value :: p in running
    decreases |positions|
  {
    if |positions| > 0 && positions[0] < |running| {
      var i := positions[0];
      DeletedSubset(running[..i] + running[i + 1..], positions[1..]);
    }
  }

  lemma ReplacedIn(running: seq<Plugin>, updates: seq<Plugin>)
    ensures Replaced(running, updates).Some? ==>
      forall p <- Replaced(running, updates).value :: p in running || p in updates
  {
    DeletedSubset(running, SortDescending(Collected(running, updates, SameName)));
  }

  lemma {:induction false} ParsedCategory(order: seq<string>, files: map<string, File>, known: set<string>, c: Category)
    ensures forall e <- Parsed(order, files, known, c) ::
      e.category == c && IsNewPlugin(e.hash, files, known) && e.hash in order
  {
    if |order| > 0 {
      ParsedCategory(order[..|order| - 1], files, known, c);
    }
  }

  lemma AllAt(order: seq<string>, files: map<string, File>, known: set<string>, c: Category)
    ensures AllParsed(order, files, known).At(c) == Parsed(order, files, known, c)
  {
  }

  lemma ReplacedAllAt(plugins: PerCategory<seq<Plugin>>, updates: PerCategory<seq<PluginConfig>>, c: Category)
    requires ReplacedAll(plugins, updates).Some?
    ensures Replaced(plugins.At(c), Instances(updates.At(c))) == Some(ReplacedAll(plugins, updates).value.At(c))
  {
  }

  lemma RemovedAllAt(plugins: PerCategory<seq<Plugin>>, configs: PerCategory<seq<PluginConfig>>, hashList: seq<string>,
                     c: Category)
    requires RemovedAll(plugins, configs, hashList).Some?
    ensures Removed(plugins.At(c), CheckedOut(configs.At(c), hashList), SameHash) ==
            Some(RemovedAll(plugins, configs, hashList).value.At(c))
  {
  }

  lemma UpdatesCategory(s: System, op: Op, c: Category)
    requires IsConfigured(s) && op.Update?
    ensures forall e <- Joined(s.updates, AllParsed(op.order, op.files, s.hashes)).At(c) :: e.category == c
  {
    AllAt(op.order, op.files, s.hashes, c);
    ParsedCategory(op.order, op.files, s.hashes, c);
    forall e <- s.updates.At(c) ensures e.category == c {
      assert e in s.configs.At(c) + s.updates.At(c);
    }
  }

  lemma ReplacementConfigured(running: seq<Plugin>, configs: seq<PluginConfig>, updates: seq<PluginConfig>, c: Category)
    requires forall p <- running :: p.category == c && HasConfig(p, configs)
    requires forall e <- updates :: e.category == c
    requires Replaced(running, Instances(updates)).Some?
    ensures forall p <- Replaced(running, Instances(updates)).value ::
      p.category == c && HasConfig(p, configs + updates)
  {
    ReplacedIn(running, Instances(updates));
    forall p <- Replaced(running, Instances(updates)).value
      ensures p.category == c && HasConfig(p, configs + updates)
    {
      if p in running {
        var e :| e in configs && e.hash == p.hash && e.category == p.category;
        assert e in configs + updates;
      } else {
        var i :| 0 <= i < |updates| && p == Instances(updates)[i];
        assert updates[i] in updates;
        assert updates[i] in configs + updates;
      }
    }
  }

  lemma UpdateKeepsConfigured(s: System, op: Op)
    requires IsConfigured(s) && op.Update? && Step(s, op).Some?
    ensures IsConfigured(Step(s, op).value)
  {
    var u := Step(s, op).value;
    var updates := Joined(s.updates, AllParsed(op.order, op.files, s.hashes));
    forall c ensures forall e <- u.configs.At(c) + u.updates.At(c) :: e.category == c {
      UpdatesCategory(s, op, c);
      assert forall e <- s.configs.At(c) :: e in s.configs.At(c) + s.updates.At(c);
    }
    if u.configs != s.configs {
      forall c ensures forall p <- u.plugins.At(c) :: p.category == c && HasConfig(p, u.configs.At(c)) {
        UpdatesCategory(s, op, c);
        ReplacedAllAt(s.plugins, updates, c);
        ReplacementConfigured(s.plugins.At(c), s.configs.At(c), updates.At(c), c);
      }
    } else if u.plugins != s.plugins {
      forall c ensures forall p <- u.plugins.At(c) :: p.category == c && HasConfig(p, u.configs.At(c)) {
        UpdatesCategory(s, op, c);
        ReplacedAllAt(s.plugins, updates, c);
        ReplacementConfigured(s.plugins.At(c), s.configs.At(c), updates.At(c), c);
      }
    }
  }

  /** The configuration invariant survives every step, whatever is loaded, reloaded or deleted. */
  lemma StepKeepsConfigured(s: System, op: Op)
    requires IsConfigured(s) && Step(s, op).Some?
    ensures IsConfigured(Step(s, op).value)
  {
    if op.Update? {
      UpdateKeepsConfigured(s, op);
    } else {
      forall c ensures forall p <- Step(s, op).value.plugins.At(c) :: p in s.plugins.At(c) {
        RemovedAllAt(s.plugins, s.configs, op.hashList, c);
        var entries := CheckedOut(s.configs.At(c), op.hashList);
        DeletedSubset(s.plugins.At(c), SortDescending(Collected(s.plugins.At(c), entries, SameHash)));
      }
    }
  }

  // ---------- runs in which no hash is loaded twice ----------

  predicate IsLoaded(s: System, hash: string) {
    exists e <- s.configs.input + s.configs.processor + s.configs.aggregator + s.configs.output
                + s.updates.input + s.updates.processor + s.updates.aggregator + s.updates.output :: e.hash == hash
  }

  /** No hash comes back once it was loaded or is pending, and none is listed twice.
      Loads may fail, and plugins may share names. */
  ghost predicate IsFreshOp(s: System, op: Op) {
    match op
    case Update(files, order, _) =>
      Visits(order, files) && forall h <- files | IsNewPlugin(h, files, s.hashes) :: !IsLoaded(s, h)
    case Delete(hashList) => forall i, j :: 0 <= i < j < |hashList| ==> hashList[i] != hashList[j]
  }

  /** Every hash has one entry in each category, running or pending. */
  ghost predicate IsLoadedOnce(s: System) {
    IsConfigured(s) && forall c :: DistinctHashes(s.configs.At(c) + s.updates.At(c))
  }

  /** All loads succeed, no hash comes back once loaded, and an update names each plugin once. */
  ghost predicate IsGoodOp(s: System, op: Op) {
    && IsFreshOp(s, op)
    && (op.Update? ==>
          && (forall h <- op.files | IsNewPlugin(h, op.files, s.hashes) :: h !in op.bad)
          && (forall c :: DistinctNames(Instances(Parsed(op.order, op.files, s.hashes, c)))))
  }

  ghost predicate IsGoodState(s: System) {
    && IsConfigured(s)
    && s.updates == NO_CONFIGS
    && (forall c :: DistinctHashes(s.configs.At(c)))
    && (forall c :: DistinctNames(s.plugins.At(c)))
  }

  lemma {:induction false} InWithHash(entries: seq<PluginConfig>, hash: string, e: PluginConfig)
    ensures e in WithHash(entries, hash) <==> e in entries && e.hash == hash
  {
    if |entries| > 0 {
      InWithHash(entries[..|entries| - 1], hash, e);
      assert entries == entries[..|entries| - 1] + [entries[|entries| - 1]];
    }
  }

  lemma {:induction false} InCheckedOut(entries: seq<PluginConfig>, hashList: seq<string>, e: PluginConfig)
    ensures e in CheckedOut(entries, hashList) <==> e in entries && e.hash in hashList
  {
    if |hashList| > 0 {
      InCheckedOut(entries, hashList[..|hashList| - 1], e);
      InWithHash(entries, hashList[|hashList| - 1], e);
      assert hashList == hashList[..|hashList| - 1] + [hashList[|hashList| - 1]];
    }
  }

  lemma {:induction false} WithHashOnce(entries: seq<PluginConfig>, hash: string)
    requires DistinctHashes(entries)
    ensures |WithHash(entries, hash)| <= 1
  {
    if |entries| > 0 {
      var front := entries[..|entries| - 1];
      WithHashOnce(front, hash);
      if |WithHash(front, hash)| > 0 {
        InWithHash(front, hash, WithHash(front, hash)[0]);
      }
    }
  }

  lemma {:induction false} CheckedOutDistinct(entries: seq<PluginConfig>, hashList: seq<string>)
    requires DistinctHashes(entries)
    requires forall i, j :: 0 <= i < j < |hashList| ==> hashList[i] != hashList[j]
    ensures DistinctHashes(CheckedOut(entries, hashList))
  {
    if |hashList| > 0 {
      var front, h := hashList[..|hashList| - 1], hashList[|hashList| - 1];
      CheckedOutDistinct(entries, front);
      WithHashOnce(entries, h);
      var a, b := CheckedOut(entries, front), WithHash(entries, h);
      forall i, j | 0 <= i < |a| && 0 <= j < |b| ensures a[i].hash != b[j].hash {
        InCheckedOut(entries, front, a[i]);
        InWithHash(entries, h, b[j]);
        assert a[i].hash in front;
      }
    }
  }

  lemma GoodIsLoadedOnce(s: System)
    requires IsGoodState(s)
    ensures IsLoadedOnce(s)
  {
    forall c ensures DistinctHashes(s.configs.At(c) + s.updates.At(c)) {
      assert s.configs.At(c) + s.updates.At(c) == s.configs.At(c);
    }
  }

  lemma FrontDistinct(a: seq<PluginConfig>, b: seq<PluginConfig>)
    requires DistinctHashes(a + b)
    ensures DistinctHashes(a)
  {
    assert forall i | 0 <= i < |a| :: a[i] == (a + b)[i];
  }

  /** A deletion removes exactly the plugins whose hash is listed, and keeps the others in order. */
  lemma DeletionIsEffective(s: System, hashList: seq<string>, c: Category)
    requires IsLoadedOnce(s) && IsFreshOp(s, Delete(hashList))
    ensures var entries := CheckedOut(s.configs.At(c), hashList);
      && Removed(s.plugins.At(c), entries, SameHash) == Some(Kept(s.plugins.At(c), entries, SameHash))
      && forall p :: p in Kept(s.plugins.At(c), entries, SameHash) <==> p in s.plugins.At(c) && p.hash !in hashList
  {
    var entries := CheckedOut(s.configs.At(c), hashList);
    var running := s.plugins.At(c);
    FrontDistinct(s.configs.At(c), s.updates.At(c));
    CheckedOutDistinct(s.configs.At(c), hashList);
    forall p <- running ensures Matches(p, entries, SameHash) <= 1 {
      HashesMatchOnce(p, entries);
    }
    RemovedExactly(running, entries, SameHash);
    forall p
      ensures p in Kept(running, entries, SameHash) <==> p in running && p.hash !in hashList
    {
      InKept(running, entries, SameHash, p);
      HashesMatchOnce(p, entries);
      if p in running {
        var e :| e in s.configs.At(c) && e.hash == p.hash && e.category == p.category;
        InCheckedOut(s.configs.At(c), hashList, e);
        forall x <- entries ensures x.hash in hashList {
          InCheckedOut(s.configs.At(c), hashList, x);
        }
        assert SameHash(p, e);
      }
    }
  }

  lemma {:induction false} ParsedDistinct(order: seq<string>, files: map<string, File>, known: set<string>, c: Category)
    requires forall i, j :: 0 <= i < j < |order| ==> order[i] != order[j]
    ensures DistinctHashes(Parsed(order, files, known, c))
  {
    if |order| > 0 {
      var front := order[..|order| - 1];
      ParsedDistinct(front, files, known, c);
      ParsedCategory(front, files, known, c);
      var a := Parsed(front, files, known, c);
      forall i | 0 <= i < |a| ensures a[i].hash != order[|order| - 1] {
        assert a[i] in a;
      }
    }
  }

  lemma LoadedIn(s: System, c: Category, e: PluginConfig)
    requires e in s.configs.At(c)
    ensures IsLoaded(s, e.hash)
  {
  }

  lemma RemovedAllSome(plugins: PerCategory<seq<Plugin>>, configs: PerCategory<seq<PluginConfig>>,
                       hashList: seq<string>, c: Category)
    requires Removed(plugins.At(c), CheckedOut(configs.At(c), hashList), SameHash).Some?
    ensures match c
      case Input => Removed(plugins.input, CheckedOut(configs.input, hashList), SameHash).Some?
      case Processor => Removed(plugins.processor, CheckedOut(configs.processor, hashList), SameHash).Some?
      case Aggregator => Removed(plugins.aggregator, CheckedOut(configs.aggregator, hashList), SameHash).Some?
      case Output => Removed(plugins.output, CheckedOut(configs.output, hashList), SameHash).Some?
  {
  }

  lemma RemovedEach(plugins: PerCategory<seq<Plugin>>, configs: PerCategory<seq<PluginConfig>>, hashList: seq<string>)
    requires forall c :: Removed(plugins.At(c), CheckedOut(configs.At(c), hashList), SameHash).Some?
    ensures RemovedAll(plugins, configs, hashList).Some?
  {
    RemovedAllSome(plugins, configs, hashList, Input);
    RemovedAllSome(plugins, configs, hashList, Processor);
    RemovedAllSome(plugins, configs, hashList, Aggregator);
    RemovedAllSome(plugins, configs, hashList, Output);
  }

  /** One category's plugins after a deletion. */
  function Spared(s: System, hashList: seq<string>, c: Category): seq<Plugin> {
    Kept(s.plugins.At(c), CheckedOut(s.configs.At(c), hashList), SameHash)
  }

  lemma DeletionRuns(s: System, hashList: seq<string>)
    requires IsLoadedOnce(s) && IsFreshOp(s, Delete(hashList))
    ensures RemovedAll(s.plugins, s.configs, hashList).Some?
    ensures forall c :: RemovedAll(s.plugins, s.configs, hashList).value.At(c) == Spared(s, hashList, c)
  {
    forall c
      ensures Removed(s.plugins.At(c), CheckedOut(s.configs.At(c), hashList), SameHash) == Some(Spared(s, hashList, c))
    {
      DeletionIsEffective(s, hashList, c);
    }
    RemovedEach(s.plugins, s.configs, hashList);
    forall c ensures RemovedAll(s.plugins, s.configs, hashList).value.At(c) == Spared(s, hashList, c) {
      RemovedAllAt(s.plugins, s.configs, hashList, c);
    }
  }

  lemma GoodDelete(s: System, hashList: seq<string>)
    requires IsGoodState(s) && IsGoodOp(s, Delete(hashList))
    ensures Step(s, Delete(hashList)).Some?
    ensures var u := Step(s, Delete(hashList)).value;
      IsGoodState(u) && u.configs == s.configs
      && forall c :: u.plugins.At(c) == Kept(s.plugins.At(c), CheckedOut(s.configs.At(c), hashList), SameHash)
  {
    GoodIsLoadedOnce(s);
    DeletionRuns(s, hashList);
    StepKeepsConfigured(s, Delete(hashList));
    forall c ensures DistinctNames(Step(s, Delete(hashList)).value.plugins.At(c)) {
      KeptDistinct(s.plugins.At(c), CheckedOut(s.configs.At(c), hashList), SameHash);
    }
  }

  /** The plugins an update adds to one category. */
  function Added(s: System, op: Op, c: Category): seq<Plugin>
    requires op.Update?
  {
    Instances(Parsed(op.order, op.files, s.hashes, c))
  }

  /** One category under a good update. */
  lemma GoodReplacement(s: System, op: Op, c: Category)
    requires IsGoodState(s) && op.Update? && IsGoodOp(s, op)
    ensures Replaced(s.plugins.At(c), Added(s, op, c)) ==
      Some(Kept(s.plugins.At(c), Added(s, op, c), SameName) + Added(s, op, c))
    ensures DistinctNames(Kept(s.plugins.At(c), Added(s, op, c), SameName) + Added(s, op, c))
    ensures DistinctHashes(s.configs.At(c) + Parsed(op.order, op.files, s.hashes, c))
  {
    ReplacementKeepsNamesUnique(s.plugins.At(c), Added(s, op, c));
    ParsedDistinct(op.order, op.files, s.hashes, c);
    ParsedCategory(op.order, op.files, s.hashes, c);
    var parsed := Parsed(op.order, op.files, s.hashes, c);
    forall i, j | 0 <= i < |s.configs.At(c)| && 0 <= j < |parsed|
      ensures s.configs.At(c)[i].hash != parsed[j].hash
    {
      LoadedIn(s, c, s.configs.At(c)[i]);
      assert parsed[j] in parsed;
    }
  }

  lemma NoNewPlugins(s: System, op: Op, c: Category)
    requires op.Update? && forall h <- op.order :: !IsNewPlugin(h, op.files, s.hashes)
    ensures Parsed(op.order, op.files, s.hashes, c) == []
    ensures Replaced(s.plugins.At(c), Added(s, op, c)) == Some(s.plugins.At(c))
  {
    ParsedNothing(op.order, op.files, s.hashes, c);
    ReplacementKeepsAll(s.plugins.At(c));
  }

  lemma ReplacementKeepsAll(running: seq<Plugin>)
    ensures Replaced(running, []) == Some(running)
  {
    NothingMatched(running);
    RemovedExactly(running, [], SameName);
    assert running + [] == running;
  }

  lemma {:induction false} ParsedNothing(order: seq<string>, files: map<string, File>, known: set<string>, c: Category)
    requires forall h <- order :: !IsNewPlugin(h, files, known)
    ensures Parsed(order, files, known, c) == []
  {
    if |order| > 0 {
      assert order[|order| - 1] in order;
      ParsedNothing(order[..|order| - 1], files, known, c);
    }
  }

  lemma NothingPending(parsed: PerCategory<seq<PluginConfig>>)
    ensures Joined(NO_CONFIGS, parsed) == parsed
  {
    assert [] + parsed.input == parsed.input && [] + parsed.processor == parsed.processor;
    assert [] + parsed.aggregator == parsed.aggregator && [] + parsed.output == parsed.output;
  }

  lemma ReplacedAllSome(plugins: PerCategory<seq<Plugin>>, updates: PerCategory<seq<PluginConfig>>, c: Category)
    requires Replaced(plugins.At(c), Instances(updates.At(c))).Some?
    ensures match c
      case Input => Replaced(plugins.input, Instances(updates.input)).Some?
      case Processor => Replaced(plugins.processor, Instances(updates.processor)).Some?
      case Aggregator => Replaced(plugins.aggregator, Instances(updates.aggregator)).Some?
      case Output => Replaced(plugins.output, Instances(updates.output)).Some?
  {
  }

  lemma ReplacedEach(plugins: PerCategory<seq<Plugin>>, updates: PerCategory<seq<PluginConfig>>)
    requires forall c :: Replaced(plugins.At(c), Instances(updates.At(c))).Some?
    ensures ReplacedAll(plugins, updates).Some?
  {
    ReplacedAllSome(plugins, updates, Input);
    ReplacedAllSome(plugins, updates, Processor);
    ReplacedAllSome(plugins, updates, Aggregator);
    ReplacedAllSome(plugins, updates, Output);
  }

  /** The outcome of an update whose loads succeed, with nothing left over from before. */
  lemma UpdateOutcome(s: System, op: Op)
    requires op.Update? && s.updates == NO_CONFIGS && Loads(AllParsed(op.order, op.files, s.hashes), op.bad)
    ensures var parsed := AllParsed(op.order, op.files, s.hashes);
      Step(s, op) ==
      if forall h <- op.order :: !IsNewPlugin(h, op.files, s.hashes) then Some(s.(hashes := s.hashes + op.files.Keys))
      else match ReplacedAll(s.plugins, parsed)
        case None => None
        case Some(plugins) => Some(System(s.hashes + op.files.Keys, Joined(s.configs, parsed), NO_CONFIGS, plugins))
  {
    NothingPending(AllParsed(op.order, op.files, s.hashes));
  }

  lemma ReplacedLists(s: System, op: Op, parsed: PerCategory<seq<PluginConfig>>)
    requires op.Update? && parsed == AllParsed(op.order, op.files, s.hashes)
    requires forall c :: Replaced(s.plugins.At(c), Added(s, op, c)).Some?
    ensures ReplacedAll(s.plugins, parsed).Some?
    ensures forall c :: Some(ReplacedAll(s.plugins, parsed).value.At(c)) == Replaced(s.plugins.At(c), Added(s, op, c))
    ensures forall c :: Joined(s.configs, parsed).At(c) == s.configs.At(c) + Parsed(op.order, op.files, s.hashes, c)
  {
    forall c ensures parsed.At(c) == Parsed(op.order, op.files, s.hashes, c) {
      AllAt(op.order, op.files, s.hashes, c);
    }
    ReplacedEach(s.plugins, parsed);
    forall c
      ensures Replaced(s.plugins.At(c), Instances(parsed.At(c))) == Some(ReplacedAll(s.plugins, parsed).value.At(c))
    {
      ReplacedAllAt(s.plugins, parsed, c);
    }
  }

  /** The lists after a good update. */
  lemma SameLists(s: System, op: Op)
    requires op.Update? && forall h <- op.order :: !IsNewPlugin(h, op.files, s.hashes)
    ensures forall c :: Some(s.plugins.At(c)) == Replaced(s.plugins.At(c), Added(s, op, c))
    ensures forall c :: s.configs.At(c) + Parsed(op.order, op.files, s.hashes, c) == s.configs.At(c)
  {
    forall c
      ensures Some(s.plugins.At(c)) == Replaced(s.plugins.At(c), Added(s, op, c))
      ensures s.configs.At(c) + Parsed(op.order, op.files, s.hashes, c) == s.configs.At(c)
    {
      NoNewPlugins(s, op, c);
    }
  }

  lemma UpdatedLists(s: System, op: Op)
    requires op.Update? && s.updates == NO_CONFIGS && Loads(AllParsed(op.order, op.files, s.hashes), op.bad)
    requires forall c :: Replaced(s.plugins.At(c), Added(s, op, c)).Some?
    ensures Step(s, op).Some?
    ensures var u := Step(s, op).value;
      u.updates == NO_CONFIGS && u.hashes == s.hashes + op.files.Keys
      && (forall c :: Some(u.plugins.At(c)) == Replaced(s.plugins.At(c), Added(s, op, c)))
      && (forall c :: u.configs.At(c) == s.configs.At(c) + Parsed(op.order, op.files, s.hashes, c))
  {
    UpdateOutcome(s, op);
    if forall h <- op.order :: !IsNewPlugin(h, op.files, s.hashes) {
      SameLists(s, op);
    } else {
      ReplacedLists(s, op, AllParsed(op.order, op.files, s.hashes));
    }
  }

  lemma GoodLoads(s: System, op: Op)
    requires op.Update? && IsGoodOp(s, op)
    ensures Loads(AllParsed(op.order, op.files, s.hashes), op.bad)
  {
    ParsedCategory(op.order, op.files, s.hashes, Input);
    ParsedCategory(op.order, op.files, s.hashes, Processor);
    ParsedCategory(op.order, op.files, s.hashes, Aggregator);
    ParsedCategory(op.order, op.files, s.hashes, Output);
  }

  /** A good update installs every new plugin, drops the ones they replace and nothing else. */
  lemma GoodUpdate(s: System, op: Op)
    requires IsGoodState(s) && op.Update? && IsGoodOp(s, op)
    ensures Step(s, op).Some?
    ensures var u := Step(s, op).value;
      IsGoodState(u)
      && (forall c :: u.plugins.At(c) == Kept(s.plugins.At(c), Added(s, op, c), SameName) + Added(s, op, c))
      && (forall c :: u.configs.At(c) == s.configs.At(c) + Parsed(op.order, op.files, s.hashes, c))
  {
    forall c
      ensures Replaced(s.plugins.At(c), Added(s, op, c)) ==
              Some(Kept(s.plugins.At(c), Added(s, op, c), SameName) + Added(s, op, c))
    {
      GoodReplacement(s, op, c);
    }
    GoodLoads(s, op);
    UpdatedLists(s, op);
    StepKeepsConfigured(s, op);
    var u := Step(s, op).value;
    forall c ensures DistinctNames(u.plugins.At(c)) && DistinctHashes(u.configs.At(c)) {
      GoodReplacement(s, op, c);
    }
  }

  lemma {:induction false} NothingMatched(running: seq<Plugin>)
    ensures Kept(running, [], SameName) == running
  {
    if |running| > 0 {
      NothingMatched(running[..|running| - 1]);
    }
  }

  ghost predicate IsGoodRun(states: seq<System>, ops: seq<Op>) {
    && |states| == |ops| + 1
    && (forall i | 0 <= i < |ops| :: IsGoodOp(states[i], ops[i]) && Step(states[i], ops[i]) == Some(states[i + 1]))
  }

  /** In every run without repeated loads the invariants hold throughout; no swap ever indexes out of range. */
  lemma {:induction false} GoodRuns(states: seq<System>, ops: seq<Op>, i: nat)
    requires IsGoodRun(states, ops) && IsGoodState(states[0]) && i < |states|
    ensures IsGoodState(states[i])
    ensures forall op | IsGoodOp(states[i], op) :: Step(states[i], op).Some?
  {
    if i > 0 {
      GoodRuns(states, ops, i - 1);
      assert IsGoodOp(states[i - 1], ops[i - 1]);
      if ops[i - 1].Update? {
        GoodUpdate(states[i - 1], ops[i - 1]);
      } else {
        GoodDelete(states[i - 1], ops[i - 1].hashList);
      }
    }
    forall op | IsGoodOp(states[i], op) ensures Step(states[i], op).Some? {
      if op.Update? {
        GoodUpdate(states[i], op);
      } else {
        GoodDelete(states[i], op.hashList);
      }
    }
  }

  // ---------- deletions in runs in which no hash is loaded twice ----------

  /** The entries an update adds to one category, running or pending. */
  function Brought(s: System, op: Op, c: Category): seq<PluginConfig> {
    if op.Update? then Parsed(op.order, op.files, s.hashes, c) else []
  }

  /** Whether an update is installed, fails to load or brings nothing, the entries are the old ones
      and what it brings. */
  lemma EntriesAfter(s: System, op: Op, c: Category)
    requires Step(s, op).Some?
    ensures var u := Step(s, op).value;
      u.configs.At(c) + u.updates.At(c) == (s.configs.At(c) + s.updates.At(c)) + Brought(s, op, c)
  {
    var u := Step(s, op).value;
    if op.Update? {
      UpdateEntries(s, op);
      EntriesAt(s, u, AllParsed(op.order, op.files, s.hashes), c);
      AllAt(op.order, op.files, s.hashes, c);
    } else {
      assert u.configs == s.configs && u.updates == s.updates;
    }
  }

  /** The new entries are pending with the old ones, or all of these are running. */
  predicate AreKept(s: System, u: System, parsed: PerCategory<seq<PluginConfig>>) {
    || (u.configs == s.configs && u.updates == Joined(s.updates, parsed))
    || (u.configs == Joined(s.configs, Joined(s.updates, parsed)) && u.updates == NO_CONFIGS)
  }

  lemma UpdateEntries(s: System, op: Op)
    requires op.Update? && Step(s, op).Some?
    ensures AreKept(s, Step(s, op).value, AllParsed(op.order, op.files, s.hashes))
  {
    if forall h <- op.order :: !IsNewPlugin(h, op.files, s.hashes) {
      forall c ensures AllParsed(op.order, op.files, s.hashes).At(c) == NO_CONFIGS.At(c) {
        AllAt(op.order, op.files, s.hashes, c);
        ParsedNothing(op.order, op.files, s.hashes, c);
      }
      NothingJoined(s.updates, AllParsed(op.order, op.files, s.hashes));
    }
  }

  lemma NothingJoined(a: PerCategory<seq<PluginConfig>>, b: PerCategory<seq<PluginConfig>>)
    requires forall c :: b.At(c) == NO_CONFIGS.At(c)
    ensures Joined(a, b) == a
  {
    assert b.At(Input) == [] && b.At(Processor) == [] && b.At(Aggregator) == [] && b.At(Output) == [];
    assert a.input + [] == a.input && a.processor + [] == a.processor;
    assert a.aggregator + [] == a.aggregator && a.output + [] == a.output;
  }

  lemma EntriesAt(s: System, u: System, parsed: PerCategory<seq<PluginConfig>>, c: Category)
    requires AreKept(s, u, parsed)
    ensures u.configs.At(c) + u.updates.At(c) == (s.configs.At(c) + s.updates.At(c)) + parsed.At(c)
  {
    assert NO_CONFIGS.At(c) == [];
  }

  lemma DistinctJoined(a: seq<PluginConfig>, b: seq<PluginConfig>)
    requires DistinctHashes(a) && DistinctHashes(b)
    requires forall x <- a, y <- b :: x.hash != y.hash
    ensures DistinctHashes(a + b)
  {
  }

  lemma BroughtIsNew(s: System, op: Op, c: Category)
    requires IsLoadedOnce(s) && IsFreshOp(s, op)
    ensures DistinctHashes((s.configs.At(c) + s.updates.At(c)) + Brought(s, op, c))
  {
    var a, b := s.configs.At(c) + s.updates.At(c), Brought(s, op, c);
    if op.Update? {
      ParsedDistinct(op.order, op.files, s.hashes, c);
      ParsedCategory(op.order, op.files, s.hashes, c);
      forall x <- a, y <- b ensures x.hash != y.hash {
        EntryIsLoaded(s, c, x);
      }
    }
    DistinctJoined(a, b);
  }

  lemma EntryIsLoaded(s: System, c: Category, e: PluginConfig)
    requires e in s.configs.At(c) + s.updates.At(c)
    ensures IsLoaded(s, e.hash)
  {
  }

  lemma StepKeepsLoadedOnce(s: System, op: Op)
    requires IsLoadedOnce(s) && IsFreshOp(s, op) && Step(s, op).Some?
    ensures IsLoadedOnce(Step(s, op).value)
  {
    StepKeepsConfigured(s, op);
    var u := Step(s, op).value;
    forall c ensures DistinctHashes(u.configs.At(c) + u.updates.At(c)) {
      EntriesAfter(s, op, c);
      BroughtIsNew(s, op, c);
    }
  }

  ghost predicate IsFreshRun(states: seq<System>, ops: seq<Op>) {
    && |states| == |ops| + 1
    && (forall i | 0 <= i < |ops| :: IsFreshOp(states[i], ops[i]) && Step(states[i], ops[i]) == Some(states[i + 1]))
  }

  lemma {:induction false} FreshRuns(states: seq<System>, ops: seq<Op>, i: nat)
    requires IsFreshRun(states, ops) && IsLoadedOnce(states[0]) && i < |states|
    ensures IsLoadedOnce(states[i])
  {
    if i > 0 {
      FreshRuns(states, ops, i - 1);
      assert IsFreshOp(states[i - 1], ops[i - 1]) && Step(states[i - 1], ops[i - 1]) == Some(states[i - 1 + 1]);
      StepKeepsLoadedOnce(states[i - 1], ops[i - 1]);
    }
  }

  /** In every run that loads no hash twice, whatever fails to load or replaces plugins by name: a deletion that lists
      no hash twice never indexes out of range, and right after it no listed hash is running and everything else
      still is, in the same order. */
  lemma AfterDeletion(states: seq<System>, ops: seq<Op>, i: nat, hashList: seq<string>, c: Category, p: Plugin)
    requires IsFreshRun(states, ops) && IsLoadedOnce(states[0]) && i < |states|
    requires forall j, k :: 0 <= j < k < |hashList| ==> hashList[j] != hashList[k]
    ensures Step(states[i], Delete(hashList)).Some?
    ensures var left := Step(states[i], Delete(hashList)).value.plugins.At(c);
      && left == Kept(states[i].plugins.At(c), CheckedOut(states[i].configs.At(c), hashList), SameHash)
      && (p in left <==> p in states[i].plugins.At(c) && p.hash !in hashList)
  {
    FreshRuns(states, ops, i);
    DeletionRuns(states[i], hashList);
    DeletionIsEffective(states[i], hashList, c);
  }

  // ---------- what goes wrong otherwise ----------

  /** How many entries carry the hash. */
  function Entries(entries: seq<PluginConfig>, hash: string): nat {
    |WithHash(entries, hash)|
  }

  lemma {:induction false} MatchesConcat(p: Plugin, a: seq<PluginConfig>, b: seq<PluginConfig>)
    ensures Matches(p, a + b, SameHash) == Matches(p, a, SameHash) + Matches(p, b, SameHash)
  {
    if |b| == 0 {
      assert a + b == a;
    } else {
      assert (a + b)[..|a + b| - 1] == a + b[..|b| - 1];
      MatchesConcat(p, a, b[..|b| - 1]);
    }
  }

  lemma {:induction false} MatchesWithHash(p: Plugin, entries: seq<PluginConfig>, hash: string)
    ensures Matches(p, WithHash(entries, hash), SameHash) == if p.hash == hash then Entries(entries, hash) else 0
  {
    if |entries| > 0 {
      var front, last := entries[..|entries| - 1], entries[|entries| - 1];
      MatchesWithHash(p, front, hash);
      if last.hash == hash {
        MatchesConcat(p, WithHash(front, hash), [last]);
        assert [last][..0] == [];
        assert Matches(p, [last], SameHash) == if p.hash == hash then 1 else 0;
      } else {
        assert WithHash(entries, hash) == WithHash(front, hash);
      }
    }
  }

  /** A plugin is matched once for every listing of its hash and every entry of it. */
  lemma {:induction false} MatchesCheckedOut(p: Plugin, entries: seq<PluginConfig>, hashList: seq<string>)
    ensures Matches(p, CheckedOut(entries, hashList), SameHash) == multiset(hashList)[p.hash] * Entries(entries, p.hash)
  {
    if |hashList| > 0 {
      var front, h := hashList[..|hashList| - 1], hashList[|hashList| - 1];
      MatchesCheckedOut(p, entries, front);
      MatchesWithHash(p, entries, h);
      MatchesConcat(p, CheckedOut(entries, front), WithHash(entries, h));
      LastListed(hashList, p.hash);
      OneMore(multiset(front)[p.hash], Entries(entries, p.hash));
    }
  }

  lemma LastListed(hashList: seq<string>, hash: string)
    requires |hashList| > 0
    ensures multiset(hashList)[hash] ==
            multiset(hashList[..|hashList| - 1])[hash] + if hashList[|hashList| - 1] == hash then 1 else 0
  {
    assert hashList == hashList[..|hashList| - 1] + [hashList[|hashList| - 1]];
  }

  lemma OneMore(n: nat, m: nat)
    ensures (n + 1) * m == n * m + m
  {
  }

  lemma ProductAtMostOne(n: nat, m: nat)
    requires m >= 1
    ensures n * m <= 1 <==> (n > 0 ==> n == 1 && m == 1)
  {
    if n >= 2 {
      assert n * m >= 2 * m;
    } else if n == 1 {
      assert n * m == m;
    }
  }

  lemma MatchedOncePerListing(s: System, hashList: seq<string>, c: Category, p: Plugin)
    requires IsConfigured(s) && p in s.plugins.At(c)
    ensures Matches(p, CheckedOut(s.configs.At(c), hashList), SameHash) <= 1 <==>
            (p.hash in hashList ==> multiset(hashList)[p.hash] == 1 && Entries(s.configs.At(c), p.hash) == 1)
  {
    MatchesCheckedOut(p, s.configs.At(c), hashList);
    ConfiguredEntry(s, c, p);
    ProductAtMostOne(multiset(hashList)[p.hash], Entries(s.configs.At(c), p.hash));
    assert p.hash in hashList <==> multiset(hashList)[p.hash] > 0;
  }

  lemma ConfiguredEntry(s: System, c: Category, p: Plugin)
    requires IsConfigured(s) && p in s.plugins.At(c)
    ensures Entries(s.configs.At(c), p.hash) >= 1
  {
    var e :| e in s.configs.At(c) && e.hash == p.hash && e.category == p.category;
    InWithHash(s.configs.At(c), p.hash, e);
  }

  /** In any configured state a deletion removes exactly the listed plugins if and only if each of them is listed
      once and has one running entry. */
  lemma DeletionExactly(s: System, hashList: seq<string>, c: Category)
    requires IsConfigured(s)
    ensures var entries := CheckedOut(s.configs.At(c), hashList);
      Removed(s.plugins.At(c), entries, SameHash) == Some(Kept(s.plugins.At(c), entries, SameHash)) <==>
      forall p <- s.plugins.At(c) | p.hash in hashList ::
        multiset(hashList)[p.hash] == 1 && Entries(s.configs.At(c), p.hash) == 1
  {
    var entries := CheckedOut(s.configs.At(c), hashList);
    RemovedExactly(s.plugins.At(c), entries, SameHash);
    forall p <- s.plugins.At(c)
      ensures Matches(p, entries, SameHash) <= 1 <==>
              (p.hash in hashList ==> multiset(hashList)[p.hash] == 1 && Entries(s.configs.At(c), p.hash) == 1)
    {
      MatchedOncePerListing(s, hashList, c, p);
    }
  }

  lemma {:induction false} WithHashConcat(a: seq<PluginConfig>, b: seq<PluginConfig>, hash: string)
    ensures Entries(a + b, hash) == Entries(a, hash) + Entries(b, hash)
  {
    if |b| == 0 {
      assert a + b == a;
    } else {
      assert (a + b)[..|a + b| - 1] == a + b[..|b| - 1];
      WithHashConcat(a, b[..|b| - 1], hash);
    }
  }

  /** Deletions leave the entries behind: a plugin that was loaded, deleted and loaded again loads without trouble,
      and then is not deleted exactly the next time. */
  lemma ReloadedPlugin(s: System, u: System, c: Category, p: Plugin)
    requires IsGoodState(s) && p in s.plugins.At(c)
    requires DeleteStep(s, [p.hash]) == Some(u)
    ensures var file := map[p.hash := Marked(Some(c), p.name)];
            var v := UpdateStep(u, file, [p.hash], {});
            v.Some? &&
            var entries := CheckedOut(v.value.configs.At(c), [p.hash]);
            Removed(v.value.plugins.At(c), entries, SameHash) != Some(Kept(v.value.plugins.At(c), entries, SameHash))
  {
    var file := map[p.hash := Marked(Some(c), p.name)];
    var v := UpdateStep(u, file, [p.hash], {});
    GoodDelete(s, [p.hash]);
    ReloadRuns(u, Update(file, [p.hash], {}));
    StepKeepsConfigured(u, Update(file, [p.hash], {}));
    ConfiguredEntry(s, c, p);
    assert p.category == c;
    LoadOne(u, c, p);
    WithHashConcat(s.configs.At(c), [PluginConfig(c, p.name, p.hash)], p.hash);
    DeletionExactly(v.value, [p.hash], c);
    assert p.hash in [p.hash];
  }

  /** An update with one file whose load succeeds goes through. */
  lemma ReloadRuns(u: System, op: Op)
    requires IsGoodState(u) && op.Update? && op.bad == {} && |op.order| == 1
    ensures Step(u, op).Some?
  {
    forall c ensures Replaced(u.plugins.At(c), Added(u, op, c)).Some? {
      assert Parsed(op.order[..0], op.files, u.hashes, c) == [];
      assert |Added(u, op, c)| <= 1;
      ReplacementKeepsNamesUnique(u.plugins.At(c), Added(u, op, c));
    }
    UpdatedLists(u, op);
  }

  lemma ParsedOne(hash: string, name: string, known: set<string>, c: Category)
    requires hash !in known
    ensures var file := map[hash := Marked(Some(c), name)];
            Parsed([hash], file, known, c) == [PluginConfig(c, name, hash)]
            && exists h <- [hash] :: IsNewPlugin(h, file, known)
    ensures Entries([PluginConfig(c, name, hash)], hash) == 1
  {
    var file := map[hash := Marked(Some(c), name)];
    assert [hash][..0] == [];
    assert hash in [hash] && IsNewPlugin(hash, file, known);
    var one := [PluginConfig(c, name, hash)];
    assert one[..|one| - 1] == [];
    assert WithHash([], hash) == [];
  }

  lemma LoadedPlugin(plugins: PerCategory<seq<Plugin>>, updates: PerCategory<seq<PluginConfig>>, c: Category, p: Plugin)
    requires p.category == c && updates.At(c) == [PluginConfig(c, p.name, p.hash)]
    requires ReplacedAll(plugins, updates).Some?
    ensures p in ReplacedAll(plugins, updates).value.At(c)
  {
    ReplacedAllAt(plugins, updates, c);
    assert Instances(updates.At(c)) == [p];
    ReplacedHas(plugins.At(c), p);
  }

  lemma LoadOne(u: System, c: Category, p: Plugin)
    requires p.hash !in u.hashes && u.updates == NO_CONFIGS && p.category == c
    ensures var e := PluginConfig(c, p.name, p.hash);
            var v := UpdateStep(u, map[p.hash := Marked(Some(c), p.name)], [p.hash], {});
            Entries([e], p.hash) == 1
            && (v.Some? ==> v.value.configs.At(c) == u.configs.At(c) + [e] && p in v.value.plugins.At(c))
  {
    var op := Update(map[p.hash := Marked(Some(c), p.name)], [p.hash], {});
    ParsedOne(p.hash, p.name, u.hashes, c);
    UpdateOutcome(u, op);
    var parsed := AllParsed(op.order, op.files, u.hashes);
    AllAt(op.order, op.files, u.hashes, c);
    if ReplacedAll(u.plugins, parsed).Some? {
      LoadedPlugin(u.plugins, parsed, c, p);
    }
  }

  lemma ReplacedHas(running: seq<Plugin>, p: Plugin)
    ensures Replaced(running, [p]).Some? ==> p in Replaced(running, [p]).value
  {
  }

  // ---------- the agent's difference, and the order of its two halves ----------

  function Missing(s: seq<string>, from: seq<string>): seq<string> {
    if |s| == 0 then []
    else Missing(s[..|s| - 1], from) + if s[|s| - 1] in from then [] else [s[|s| - 1]]
  }

  /** What slice1 has and slice2 lacks, and the other way round. */
  method DifferenceSlice(slice1: seq<string>, slice2: seq<string>) returns (add: seq<string>, del: seq<string>)
    ensures add == Missing(slice1, slice2) && del == Missing(slice2, slice1)
  {
    var m1, m2: set<string> := {}, {};
    add, del := [], [];
    for i := 0 to |slice2|
      invariant m1 == set v <- slice2[..i]
    {
      assert slice2[..i + 1] == slice2[..i] + [slice2[i]];
      m1 := m1 + {slice2[i]};
    }
    assert slice2[..|slice2|] == slice2;
    for i := 0 to |slice1|
      invariant add == Missing(slice1[..i], slice2)
    {
      assert slice1[..i + 1][..i] == slice1[..i];
      if slice1[i] !in m1 {
        add := add + [slice1[i]];
      }
    }
    assert slice1[..|slice1|] == slice1;
    for i := 0 to |slice1|
      invariant m2 == set v <- slice1[..i]
    {
      assert slice1[..i + 1] == slice1[..i] + [slice1[i]];
      m2 := m2 + {slice1[i]};
    }
    for i := 0 to |slice2|
      invariant del == Missing(slice2[..i], slice1)
    {
      assert slice2[..i + 1][..i] == slice2[..i];
      if slice2[i] !in m2 {
        del := del + [slice2[i]];
      }
    }
  }

  lemma {:induction false} InMissing(s: seq<string>, from: seq<string>, x: string)
    ensures x in Missing(s, from) <==> x in s && x !in from
  {
    if |s| > 0 {
      InMissing(s[..|s| - 1], from, x);
      assert s == s[..|s| - 1] + [s[|s| - 1]];
    }
  }

  /** The two halves are disjoint, and applying them to the old list gives the new one. */
  lemma DifferenceApplies(fresher: seq<string>, stale: seq<string>)
    ensures var add, del := Missing(fresher, stale), Missing(stale, fresher);
      (forall x <- add :: x !in del)
      && (set x <- stale) - (set x <- del) + (set x <- add) == (set x <- fresher)
  {
    forall x
      ensures x in Missing(fresher, stale) <==> x in fresher && x !in stale
      ensures x in Missing(stale, fresher) <==> x in stale && x !in fresher
    {
      InMissing(fresher, stale, x);
      InMissing(stale, fresher, x);
    }
  }

  /** No listed hash is among the files. */
  ghost predicate IsDisjoint(op: Op, hashList: seq<string>) {
    op.Update? && forall h <- hashList :: h !in op.files
  }

  lemma {:induction false} CheckedOutMore(entries: seq<PluginConfig>, more: seq<PluginConfig>, hashList: seq<string>)
    requires forall e <- more :: e.hash !in hashList
    ensures CheckedOut(entries + more, hashList) == CheckedOut(entries, hashList)
  {
    if |hashList| > 0 {
      var front, h := hashList[..|hashList| - 1], hashList[|hashList| - 1];
      assert h in hashList;
      CheckedOutMore(entries, more, front);
      WithHashMore(entries, more, h);
    }
  }

  lemma {:induction false} WithHashMore(entries: seq<PluginConfig>, more: seq<PluginConfig>, hash: string)
    requires forall e <- more :: e.hash != hash
    ensures WithHash(entries + more, hash) == WithHash(entries, hash)
  {
    if |more| == 0 {
      assert entries + more == entries;
    } else {
      assert more[|more| - 1] in more;
      assert (entries + more)[..|entries + more| - 1] == entries + more[..|more| - 1];
      WithHashMore(entries, more[..|more| - 1], hash);
    }
  }

  lemma {:induction false} KeptConcat<K>(a: seq<Plugin>, b: seq<Plugin>, keys: seq<K>, matches: (Plugin, K) -> bool)
    ensures Kept(a + b, keys, matches) == Kept(a, keys, matches) + Kept(b, keys, matches)
  {
    if |b| == 0 {
      assert a + b == a;
    } else {
      assert (a + b)[..|a + b| - 1] == a + b[..|b| - 1];
      KeptConcat(a, b[..|b| - 1], keys, matches);
    }
  }

  lemma {:induction false} KeptAll<K>(running: seq<Plugin>, keys: seq<K>, matches: (Plugin, K) -> bool)
    requires forall p <- running :: Matches(p, keys, matches) == 0
    ensures Kept(running, keys, matches) == running
  {
    if |running| > 0 {
      assert running[|running| - 1] in running;
      KeptAll(running[..|running| - 1], keys, matches);
    }
  }

  lemma {:induction false} KeptCommutes(running: seq<Plugin>, updates: seq<Plugin>, entries: seq<PluginConfig>)
    ensures Kept(Kept(running, updates, SameName), entries, SameHash) ==
      Kept(Kept(running, entries, SameHash), updates, SameName)
  {
    if |running| > 0 {
      var front, last := running[..|running| - 1], [running[|running| - 1]];
      KeptCommutes(front, updates, entries);
      assert last[..0] == [];
      assert running == front + last;
      KeptConcat(Kept(front, updates, SameName), Kept(last, updates, SameName), entries, SameHash);
      KeptConcat(Kept(front, entries, SameHash), Kept(last, entries, SameHash), updates, SameName);
      KeptConcat(front, last, updates, SameName);
      KeptConcat(front, last, entries, SameHash);
    }
  }

  lemma {:induction false} NoHashMatches(p: Plugin, entries: seq<PluginConfig>)
    requires forall e <- entries :: e.hash != p.hash
    ensures Matches(p, entries, SameHash) == 0
  {
    if |entries| > 0 {
      assert entries[|entries| - 1] in entries;
      NoHashMatches(p, entries[..|entries| - 1]);
    }
  }

  lemma ListCommutes(running: seq<Plugin>, added: seq<Plugin>, entries: seq<PluginConfig>)
    requires forall p <- added :: forall e <- entries :: e.hash != p.hash
    ensures Kept(Kept(running, added, SameName) + added, entries, SameHash) ==
            Kept(Kept(running, entries, SameHash), added, SameName) + added
  {
    KeptConcat(Kept(running, added, SameName), added, entries, SameHash);
    KeptCommutes(running, added, entries);
    forall p <- added ensures Matches(p, entries, SameHash) == 0 {
      NoHashMatches(p, entries);
    }
    KeptAll(added, entries, SameHash);
  }

  lemma ApartFromDeleted(s: System, op: Op, hashList: seq<string>, c: Category)
    requires IsDisjoint(op, hashList)
    ensures forall p <- Added(s, op, c) :: forall e <- CheckedOut(s.configs.At(c), hashList) :: e.hash != p.hash
    ensures CheckedOut(s.configs.At(c) + Parsed(op.order, op.files, s.hashes, c), hashList) ==
      CheckedOut(s.configs.At(c), hashList)
  {
    ParsedCategory(op.order, op.files, s.hashes, c);
    CheckedOutMore(s.configs.At(c), Parsed(op.order, op.files, s.hashes, c), hashList);
    var parsed := Parsed(op.order, op.files, s.hashes, c);
    forall p, e | p in Added(s, op, c) && e in CheckedOut(s.configs.At(c), hashList)
      ensures e.hash != p.hash
    {
      var i :| 0 <= i < |parsed| && Instances(parsed)[i] == p;
      assert parsed[i] in parsed;
      InCheckedOut(s.configs.At(c), hashList, e);
    }
  }

  lemma {:induction false} ParsedSame(order: seq<string>, files: map<string, File>, a: set<string>, b: set<string>,
                                      c: Category)
    requires forall h <- files :: h in a <==> h in b
    ensures Parsed(order, files, a, c) == Parsed(order, files, b, c)
  {
    if |order| > 0 {
      ParsedSame(order[..|order| - 1], files, a, b, c);
    }
  }

  lemma SameEverywhere<T>(a: PerCategory<T>, b: PerCategory<T>)
    requires forall c :: a.At(c) == b.At(c)
    ensures a == b
  {
    assert a.At(Input) == b.At(Input) && a.At(Processor) == b.At(Processor);
    assert a.At(Aggregator) == b.At(Aggregator) && a.At(Output) == b.At(Output);
  }

  /** Deleting first does not change what the update means. */
  lemma GoodAfterDelete(s: System, op: Op, hashList: seq<string>, u: System)
    requires IsGoodState(s) && IsGoodOp(s, op) && IsGoodOp(s, Delete(hashList)) && IsDisjoint(op, hashList)
    requires Step(s, Delete(hashList)) == Some(u)
    ensures IsGoodState(u) && IsGoodOp(u, op) && u.configs == s.configs
    ensures forall c :: Parsed(op.order, op.files, u.hashes, c) == Parsed(op.order, op.files, s.hashes, c)
  {
    GoodDelete(s, hashList);
    forall c ensures Parsed(op.order, op.files, u.hashes, c) == Parsed(op.order, op.files, s.hashes, c) {
      ParsedSame(op.order, op.files, u.hashes, s.hashes, c);
    }
    forall h <- op.files | IsNewPlugin(h, op.files, u.hashes) ensures h !in op.bad && !IsLoaded(u, h) {
      assert IsNewPlugin(h, op.files, s.hashes);
    }
    forall c ensures DistinctNames(Instances(Parsed(op.order, op.files, u.hashes, c))) {
    }
  }

  /** One category after an update followed by a deletion. */
  function UpdatedThenSpared(s: System, op: Op, hashList: seq<string>, c: Category): seq<Plugin>
    requires op.Update?
  {
    Kept(Kept(s.plugins.At(c), Added(s, op, c), SameName) + Added(s, op, c),
         CheckedOut(s.configs.At(c), hashList), SameHash)
  }

  lemma UpdateThenDelete(s: System, op: Op, hashList: seq<string>)
    requires IsGoodState(s) && IsGoodOp(s, op) && IsGoodOp(s, Delete(hashList)) && IsDisjoint(op, hashList)
    ensures Step(s, op).Some? && Step(Step(s, op).value, Delete(hashList)).Some?
    ensures var x := Step(Step(s, op).value, Delete(hashList)).value;
      && x.updates == NO_CONFIGS
      && forall c ::
        && x.plugins.At(c) == UpdatedThenSpared(s, op, hashList, c)
        && x.configs.At(c) == s.configs.At(c) + Parsed(op.order, op.files, s.hashes, c)
  {
    GoodUpdate(s, op);
    var a := Step(s, op).value;
    GoodDelete(a, hashList);
    forall c ensures Step(a, Delete(hashList)).value.plugins.At(c) == UpdatedThenSpared(s, op, hashList, c) {
      ApartFromDeleted(s, op, hashList, c);
    }
  }

  lemma DeleteThenUpdate(s: System, op: Op, hashList: seq<string>)
    requires IsGoodState(s) && IsGoodOp(s, op) && IsGoodOp(s, Delete(hashList)) && IsDisjoint(op, hashList)
    ensures Step(s, Delete(hashList)).Some? && Step(Step(s, Delete(hashList)).value, op).Some?
    ensures var y := Step(Step(s, Delete(hashList)).value, op).value;
      && y.updates == NO_CONFIGS
      && forall c ::
        && y.plugins.At(c) == UpdatedThenSpared(s, op, hashList, c)
        && y.configs.At(c) == s.configs.At(c) + Parsed(op.order, op.files, s.hashes, c)
  {
    GoodDelete(s, hashList);
    var b := Step(s, Delete(hashList)).value;
    GoodAfterDelete(s, op, hashList, b);
    GoodUpdate(b, op);
    forall c ensures Step(b, op).value.plugins.At(c) == UpdatedThenSpared(s, op, hashList, c) {
      assert Added(b, op, c) == Added(s, op, c);
      ApartFromDeleted(s, op, hashList, c);
      ListCommutes(s.plugins.At(c), Added(s, op, c), CheckedOut(s.configs.At(c), hashList));
    }
  }

  /** The two batches of one change commute: the same running lists, the same configuration and the same register. */
  lemma BatchesCommute(s: System, op: Op, hashList: seq<string>)
    requires IsGoodState(s) && IsGoodOp(s, op) && IsGoodOp(s, Delete(hashList)) && IsDisjoint(op, hashList)
    ensures Step(s, op).Some? && Step(s, Delete(hashList)).Some?
    ensures Step(Step(s, op).value, Delete(hashList)).Some?
    ensures Step(Step(s, op).value, Delete(hashList)) == Step(Step(s, Delete(hashList)).value, op)
  {
    UpdateThenDelete(s, op, hashList);
    DeleteThenUpdate(s, op, hashList);
    var x := Step(Step(s, op).value, Delete(hashList)).value;
    var y := Step(Step(s, Delete(hashList)).value, op).value;
    SameEverywhere(x.plugins, y.plugins);
    SameEverywhere(x.configs, y.configs);
    Registers(s, op, hashList);
  }

  lemma StepRegister(s: System, op: Op)
    ensures Step(s, op).Some? ==>
      Step(s, op).value.hashes == if op.Update? then s.hashes + op.files.Keys else s.hashes - (set h <- op.hashList)
  {
  }

  /** The register after both batches, in either order. */
  lemma Registers(s: System, op: Op, hashList: seq<string>)
    requires IsDisjoint(op, hashList)
    ensures Step(s, op).Some? && Step(Step(s, op).value, Delete(hashList)).Some? ==>
      Step(Step(s, op).value, Delete(hashList)).value.hashes == s.hashes + op.files.Keys - (set h <- hashList)
    ensures Step(s, Delete(hashList)).Some? && Step(Step(s, Delete(hashList)).value, op).Some? ==>
      Step(Step(s, Delete(hashList)).value, op).value.hashes == s.hashes + op.files.Keys - (set h <- hashList)
  {
    var gone := set h <- hashList;
    assert forall h <- gone :: h !in op.files.Keys;
    assert s.hashes - gone + op.files.Keys == s.hashes + op.files.Keys - gone;
    if Step(s, op).Some? {
      StepRegister(s, op);
      StepRegister(Step(s, op).value, Delete(hashList));
    }
    if Step(s, Delete(hashList)).Some? {
      StepRegister(s, Delete(hashList));
      StepRegister(Step(s, Delete(hashList)).value, op);
    }
  }

  lemma WithOwn(stale: set<string>, del: set<string>, add: set<string>, own: string)
    requires own !in del && forall h <- add :: h !in del
    ensures stale + {own} + add - del == stale - del + add + {own}
  {
  }

  /** Following the agent's difference brings the register to the target list,
      plus the collector's own configuration hash. */
  lemma RegisterReachesTarget(s: System, op: Op, fresher: seq<string>, stale: seq<string>, own: string)
    requires op.Update? && op.files.Keys == (set h <- Missing(fresher, stale))
    requires s.hashes == (set h <- stale) + {own} && own !in stale
    requires Step(s, op).Some? && Step(Step(s, op).value, Delete(Missing(stale, fresher))).Some?
    ensures Step(Step(s, op).value, Delete(Missing(stale, fresher))).value.hashes == (set h <- fresher) + {own}
  {
    var add, del := Missing(fresher, stale), Missing(stale, fresher);
    DifferenceApplies(fresher, stale);
    InMissing(stale, fresher, own);
    Registers(s, op, del);
    WithOwn((set h <- stale), (set h <- del), (set h <- add), own);
  }
}
