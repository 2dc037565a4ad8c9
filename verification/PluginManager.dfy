/** The plugin manager and the configuration as the program keeps them, updated in place,
    and the two halves of an update or deletion run one after the other. */
module PluginManager {
  import opened Text
  import opened PluginSwap
  import opened PluginRuns

  const NO_PLUGINS: PerCategory<seq<Plugin>> := PerCategory([], [], [], [])

  function WithEntry(entries: PerCategory<seq<PluginConfig>>, entry: PluginConfig): PerCategory<seq<PluginConfig>> {
    entries.With(entry.category, entries.At(entry.category) + [entry])
  }

  ghost predicate IsVisited(order: seq<string>, seen: set<string>) {
    (forall h :: h in order <==> h in seen) && forall i, j :: 0 <= i < j < |order| ==> order[i] != order[j]
  }

  /** The file's hash is that of a configuration other than the current one. */
  predicate IsOtherConfig(h: string, files: map<string, File>, own: string) {
    h in files && files[h].Json? && h != own
  }

  /** The configuration's hash after the files are visited in the order. */
  function OwnAfter(order: seq<string>, files: map<string, File>, own: string): string {
    if |order| == 0 then own
    else
      var before, h := OwnAfter(order[..|order| - 1], files, own), order[|order| - 1];
      if IsOtherConfig(h, files, before) then h else before
  }

  /** The hashes that became the configuration on the way. */
  function Adopted(order: seq<string>, files: map<string, File>, own: string): set<string> {
    if |order| == 0 then {}
    else
      var front, h := order[..|order| - 1], order[|order| - 1];
      Adopted(front, files, own) + if IsOtherConfig(h, files, OwnAfter(front, files, own)) then {h} else {}
  }

  lemma AdoptMore(order: seq<string>, h: string, files: map<string, File>, own: string)
    ensures var before := OwnAfter(order, files, own);
      && OwnAfter(order + [h], files, own) == (if IsOtherConfig(h, files, before) then h else before)
      && Adopted(order + [h], files, own) ==
         Adopted(order, files, own) + if IsOtherConfig(h, files, before) then {h} else {}
  {
    assert (order + [h])[..|order|] == order;
  }

  /** Whatever the order, every other configuration is adopted, only configurations are, and the last one adopted is
      the current one. The current one stays only when no other came, or when it is adopted again after another. */
  lemma {:induction false} AdoptedExactly(order: seq<string>, files: map<string, File>, own: string)
    requires forall i, j :: 0 <= i < j < |order| ==> order[i] != order[j]
    ensures forall h :: h in order && IsOtherConfig(h, files, own) ==> h in Adopted(order, files, own)
    ensures forall h <- Adopted(order, files, own) :: h in order && h in files && files[h].Json?
    ensures OwnAfter(order, files, own) == own || OwnAfter(order, files, own) in Adopted(order, files, own)
    ensures OwnAfter(order, files, own) == own && own !in Adopted(order, files, own) ==>
              forall h <- order :: !IsOtherConfig(h, files, own)
  {
    if |order| > 0 {
      var front, h := order[..|order| - 1], order[|order| - 1];
      assert order == front + [h];
      AdoptedExactly(front, files, own);
      assert h !in front;
    }
  }

  class Config {
    var runningHash: set<string>
    var ownHash: string
    var running: PerCategory<seq<PluginConfig>>
    var update: PerCategory<seq<PluginConfig>>
    var delete: PerCategory<seq<PluginConfig>>

    /** Each valid JSON file whose hash is not that of the current configuration becomes the configuration in turn. */
    method TryUpdateConfig(files: map<string, File>) returns (ghost order: seq<string>)
      modifies `runningHash, `ownHash
      ensures Visits(order, files)
      ensures ownHash == OwnAfter(order, files, old(ownHash))
      ensures runningHash == old(runningHash) + Adopted(order, files, old(ownHash))
    {
      order := [];
      var todo := files.Keys;
      while todo != {}
        invariant todo <= files.Keys
        invariant IsVisited(order, files.Keys - todo)
        invariant ownHash == OwnAfter(order, files, old(ownHash))
        invariant runningHash == old(runningHash) + Adopted(order, files, old(ownHash))
        decreases |todo|
      {
        var h :| h in todo;
        if files[h].Json? && ownHash != h {
          runningHash := runningHash + {h};
          ownHash := h;
        }
        AdoptMore(order, h, files, old(ownHash));
        order := order + [h];
        todo := todo - {h};
      }
    }

    method CompareHash(hash: string) returns (isNew: bool)
      modifies `runningHash
      ensures isNew <==> hash !in old(runningHash)
      ensures runningHash == old(runningHash) + {hash}
    {
      isNew := hash !in runningHash;
      if isNew {
        runningHash := runningHash + {hash};
      }
    }

    method AppendUpdate(entry: PluginConfig)
      modifies `update
      ensures update == WithEntry(old(update), entry)
    {
      match entry.category
      case Input => update := update.(input := update.input + [entry]);
      case Processor => update := update.(processor := update.processor + [entry]);
      case Aggregator => update := update.(aggregator := update.aggregator + [entry]);
      case Output => update := update.(output := update.output + [entry]);
    }

    /** Registers one file; a new plugin of a known category joins the update. */
    method ParseFile(hash: string, file: File) returns (cached: bool)
      modifies `runningHash, `update
      ensures runningHash == old(runningHash) + {hash}
      ensures cached <==> hash !in old(runningHash) && file.Marked?
      ensures update ==
        if cached && file.category.Some? then WithEntry(old(update), PluginConfig(file.category.value, file.name, hash))
                        else old(update)
    {
      var isNew := CompareHash(hash);
      cached := isNew && file.Marked?;
      if cached && file.category.Some? {
        AppendUpdate(PluginConfig(file.category.value, file.name, hash));
      }
    }

    /** Registers every file and files the plugins that were not registered; cached tells whether there were any. */
    method ParseFiles(files: map<string, File>) returns (cached: nat, ghost order: seq<string>)
      modifies `runningHash, `update
      ensures Visits(order, files)
      ensures runningHash == old(runningHash) + files.Keys
      ensures update == Joined(old(update), AllParsed(order, files, old(runningHash)))
      ensures cached == 0 <==> forall h <- order :: !IsNewPlugin(h, files, old(runningHash))
    {
      ghost var known := runningHash;
      cached := 0;
      order := [];
      var todo := files.Keys;
      NothingParsed(update, files, known);
      while todo != {}
        invariant todo <= files.Keys
        invariant IsVisited(order, files.Keys - todo)
        invariant runningHash == known + (files.Keys - todo)
        invariant update == Joined(old(update), AllParsed(order, files, known))
        invariant cached == 0 <==> NoneNew(order, files, known)
        decreases |todo|
      {
        var hash :| hash in todo;
        var isCached := ParseFile(hash, files[hash]);
        if isCached {
          cached := cached + 1;
        }
        ParsedMore(old(update), order, hash, files, known);
        NewMore(order, hash, files, known);
        order := order + [hash];
        todo := todo - {hash};
      }
    }

    /** Adopts the configurations among the files, then registers every file and files the new plugins by category. */
    method ParsePluginMarking(files: map<string, File>) returns (cached: nat, ghost order: seq<string>)
      modifies `runningHash, `ownHash, `update
      ensures Visits(order, files)
      ensures runningHash == old(runningHash) + files.Keys
      ensures exists visited :: Visits(visited, files) && ownHash == OwnAfter(visited, files, old(ownHash))
      ensures update == Joined(old(update), AllParsed(order, files, old(runningHash)))
      ensures cached == 0 <==> forall h <- order :: !IsNewPlugin(h, files, old(runningHash))
    {
      ghost var known, own := runningHash, ownHash;
      ghost var visited := TryUpdateConfig(files);
      AdoptedExactly(visited, files, own);
      ghost var registered := runningHash;
      cached, order := ParseFiles(files);
      ParsedAlike(order, files, registered, known);
    }

    method DelHash(hash: string)
      modifies `runningHash
      ensures runningHash == old(runningHash) - {hash}
    {
      if hash in runningHash {
        runningHash := runningHash - {hash};
      }
    }

    /** Unregisters the listed hashes and checks out their running entries; the entries themselves stay. */
    method CheckoutConfig(hashList: seq<string>)
      modifies `runningHash, `delete
      ensures runningHash == old(runningHash) - (set h <- hashList)
      ensures forall c :: delete.At(c) == old(delete).At(c) + CheckedOut(running.At(c), hashList)
    {
      NothingListed(delete, running);
      for i := 0 to |hashList|
        invariant runningHash == old(runningHash) - (set h <- hashList[..i])
        invariant forall c :: delete.At(c) == old(delete).At(c) + CheckedOut(running.At(c), hashList[..i])
      {
        assert hashList[..i + 1] == hashList[..i] + [hashList[i]];
        DelHash(hashList[i]);
        var inputs := EntriesOf(running.input, hashList[i]);
        var processors := EntriesOf(running.processor, hashList[i]);
        var aggregators := EntriesOf(running.aggregator, hashList[i]);
        var outputs := EntriesOf(running.output, hashList[i]);
        ghost var before := delete;
        delete := PerCategory(delete.input + inputs, delete.processor + processors,
                              delete.aggregator + aggregators, delete.output + outputs);
        forall c ensures delete.At(c) == old(delete).At(c) + CheckedOut(running.At(c), hashList[..i + 1]) {
          assert delete.At(c) == before.At(c) + WithHash(running.At(c), hashList[i]);
          CheckedOutStep(old(delete), before, running, hashList, i, c);
        }
      }
      assert hashList[..|hashList|] == hashList;
    }

    method ReplaceRunningConfig()
      modifies `running, `update
      ensures running == Joined(old(running), old(update)) && update == NO_CONFIGS
    {
      running := PerCategory(running.input + update.input, running.processor + update.processor,
                             running.aggregator + update.aggregator, running.output + update.output);
      update := NO_CONFIGS;
    }

    method RemoveDeleteConfig()
      modifies `delete
      ensures delete == NO_CONFIGS
    {
      delete := NO_CONFIGS;
    }
  }

  method EntriesOf(entries: seq<PluginConfig>, hash: string) returns (found: seq<PluginConfig>)
    ensures found == WithHash(entries, hash)
  {
    found := [];
    for i := 0 to |entries|
      invariant found == WithHash(entries[..i], hash)
    {
      assert entries[..i + 1][..i] == entries[..i];
      if entries[i].hash == hash {
        found := found + [entries[i]];
      }
    }
    assert entries[..|entries|] == entries;
  }

  lemma NothingParsed(update: PerCategory<seq<PluginConfig>>, files: map<string, File>, known: set<string>)
    ensures Joined(update, AllParsed([], files, known)) == update
  {
    forall c ensures Joined(update, AllParsed([], files, known)).At(c) == update.At(c) {
      AllAt([], files, known, c);
      assert update.At(c) + [] == update.At(c);
    }
    SameEverywhere(Joined(update, AllParsed([], files, known)), update);
  }

  predicate NoneNew(order: seq<string>, files: map<string, File>, known: set<string>) {
    forall h <- order :: !IsNewPlugin(h, files, known)
  }

  lemma NewMore(order: seq<string>, hash: string, files: map<string, File>, known: set<string>)
    ensures NoneNew(order + [hash], files, known) <==>
            NoneNew(order, files, known) && !IsNewPlugin(hash, files, known)
  {
    assert hash in order + [hash];
    assert forall h <- order :: h in order + [hash];
  }

  lemma {:induction false} ParsedAlikeAt(order: seq<string>, files: map<string, File>, a: set<string>, b: set<string>,
                                         c: Category)
    requires forall h <- order :: IsNewPlugin(h, files, a) <==> IsNewPlugin(h, files, b)
    ensures Parsed(order, files, a, c) == Parsed(order, files, b, c)
  {
    if |order| > 0 {
      assert order[|order| - 1] in order;
      ParsedAlikeAt(order[..|order| - 1], files, a, b, c);
    }
  }

  /** Registering configurations first does not change which plugins are new. */
  lemma ParsedAlike(order: seq<string>, files: map<string, File>, registered: set<string>, known: set<string>)
    requires known <= registered
    requires forall h <- registered - known :: h in files && files[h].Json?
    ensures AllParsed(order, files, registered) == AllParsed(order, files, known)
    ensures NoneNew(order, files, registered) <==> NoneNew(order, files, known)
  {
    forall h ensures IsNewPlugin(h, files, registered) <==> IsNewPlugin(h, files, known) {
    }
    ParsedAlikeAt(order, files, registered, known, Input);
    ParsedAlikeAt(order, files, registered, known, Processor);
    ParsedAlikeAt(order, files, registered, known, Aggregator);
    ParsedAlikeAt(order, files, registered, known, Output);
  }

  lemma CheckedOutStep(delete: PerCategory<seq<PluginConfig>>, before: PerCategory<seq<PluginConfig>>,
                       running: PerCategory<seq<PluginConfig>>, hashList: seq<string>, i: nat, c: Category)
    requires i < |hashList| && before.At(c) == delete.At(c) + CheckedOut(running.At(c), hashList[..i])
    ensures before.At(c) + WithHash(running.At(c), hashList[i]) ==
      delete.At(c) + CheckedOut(running.At(c), hashList[..i + 1])
  {
    assert hashList[..i + 1][..i] == hashList[..i];
  }

  lemma NothingListed(delete: PerCategory<seq<PluginConfig>>, running: PerCategory<seq<PluginConfig>>)
    ensures forall c :: delete.At(c) == delete.At(c) + CheckedOut(running.At(c), [])
  {
  }

  lemma ParsedMoreAt(update: PerCategory<seq<PluginConfig>>, order: seq<string>, hash: string,
                     files: map<string, File>, known: set<string>, c: Category)
    ensures var before := Joined(update, AllParsed(order, files, known)).At(c);
      Joined(update, AllParsed(order + [hash], files, known)).At(c) ==
      if IsNewPlugin(hash, files, known) && files[hash].category == Some(c)
      then before + [PluginConfig(c, files[hash].name, hash)]
      else before
  {
    assert (order + [hash])[..|order|] == order;
    AllAt(order, files, known, c);
    AllAt(order + [hash], files, known, c);
    assert Parsed(order, files, known, c) + [] == Parsed(order, files, known, c);
  }

  lemma ParsedMore(update: PerCategory<seq<PluginConfig>>, order: seq<string>, hash: string, files: map<string, File>,
                   known: set<string>)
    ensures var before := Joined(update, AllParsed(order, files, known));
      Joined(update, AllParsed(order + [hash], files, known)) ==
      if IsNewPlugin(hash, files, known) && files[hash].category.Some? then
        var entry := PluginConfig(files[hash].category.value, files[hash].name, hash);
        WithEntry(before, entry)
      else before
  {
    var before := Joined(update, AllParsed(order, files, known));
    var after := Joined(update, AllParsed(order + [hash], files, known));
    forall c {
      ParsedMoreAt(update, order, hash, files, known, c);
    }
    if IsNewPlugin(hash, files, known) && files[hash].category.Some? {
      var entry := PluginConfig(files[hash].category.value, files[hash].name, hash);
      SameEverywhere(after, before.With(entry.category, before.At(entry.category) + [entry]));
    } else {
      SameEverywhere(after, before);
    }
  }

  /** One category's swap, by whichever rule; None when an index runs off the end. */
  method SwapCategory<K>(running: seq<Plugin>, keys: seq<K>, matches: (Plugin, K) -> bool)
    returns (left: Option<seq<Plugin>>, closed: seq<Plugin>)
    ensures left == Removed(running, keys, matches)
    ensures left.Some? ==> multiset(closed) + multiset(left.value) == multiset(running)
  {
    var positions := CollectIndices(running, keys, matches);
    left, closed := DeletePositions(running, SortDescending(positions));
  }

  /** The first n entries load, and the next one, if there is one, does not. */
  predicate IsLoadable(entries: seq<PluginConfig>, bad: set<string>, n: nat) {
    n <= |entries| && AllLoad(entries[..n], bad) && (n < |entries| ==> entries[n].hash in bad)
  }

  /** The order in which the categories are loaded. */
  function Rank(c: Category): nat {
    match c
    case Input => 0
    case Processor => 1
    case Aggregator => 2
    case Output => 3
  }

  /** Loading stopped at entry n of category c: the categories before it are loaded whole, it up to that entry,
      and those after it not at all. */
  ghost predicate IsStopped(update: PerCategory<seq<Plugin>>, entries: PerCategory<seq<PluginConfig>>, bad: set<string>,
                            c: Category, n: nat) {
    && n < |entries.At(c)| && IsLoadable(entries.At(c), bad, n)
    && forall d ::
      && (Rank(d) < Rank(c) ==> AllLoad(entries.At(d), bad))
      && update.At(d) ==
         if Rank(d) < Rank(c) then Instances(entries.At(d))
         else if d == c then Instances(entries.At(c))[..n]
         else []
  }

  lemma StoppedAt(update: PerCategory<seq<Plugin>>, entries: PerCategory<seq<PluginConfig>>, bad: set<string>,
                  c: Category, n: nat)
    requires n < |entries.At(c)| && IsLoadable(entries.At(c), bad, n)
    requires forall d | Rank(d) < Rank(c) :: AllLoad(entries.At(d), bad) && update.At(d) == Instances(entries.At(d))
    requires update.At(c) == Instances(entries.At(c))[..n]
    requires forall d | Rank(d) > Rank(c) :: update.At(d) == []
    ensures IsStopped(update, entries, bad, c, n)
    ensures !Loads(entries, bad)
  {
    assert entries.At(c)[n] in entries.At(c);
  }

  lemma LoadedWhole(entries: seq<PluginConfig>, bad: set<string>, n: nat)
    requires IsLoadable(entries, bad, n) && n == |entries|
    ensures AllLoad(entries, bad) && Instances(entries)[..n] == Instances(entries)
  {
    assert entries[..n] == entries;
  }

  class LuaPluginManager {
    var running: PerCategory<seq<Plugin>>
    var update: PerCategory<seq<Plugin>>
    ghost var closed: PerCategory<multiset<Plugin>>

    /** Every plugin of the category the manager holds or has closed. */
    ghost function Accounted(c: Category): multiset<Plugin>
      reads this
    {
      closed.At(c) + multiset(running.At(c)) + multiset(update.At(c))
    }

    ghost method Close(a: multiset<Plugin>, b: multiset<Plugin>, c: multiset<Plugin>, d: multiset<Plugin>)
      modifies `closed
      ensures closed == PerCategory(old(closed).input + a, old(closed).processor + b,
                                    old(closed).aggregator + c, old(closed).output + d)
    {
      closed := PerCategory(closed.input + a, closed.processor + b, closed.aggregator + c, closed.output + d);
    }

    /** Loads the entries of one category, giving up at the first that does not load. */
    method LoadUpdates(c: Category, entries: seq<PluginConfig>, bad: set<string>) returns (loaded: nat)
      modifies `update
      ensures IsLoadable(entries, bad, loaded)
      ensures update.At(c) == old(update).At(c) + Instances(entries)[..loaded]
      ensures forall d | d != c :: update.At(d) == old(update).At(d)
    {
      loaded := 0;
      assert update.At(c) + Instances(entries)[..0] == update.At(c);
      SameEverywhere(update, update.With(c, update.At(c) + Instances(entries)[..0]));
      while loaded < |entries| && entries[loaded].hash !in bad
        invariant loaded <= |entries| && AllLoad(entries[..loaded], bad)
        invariant update == old(update).With(c, old(update).At(c) + Instances(entries)[..loaded])
      {
        var e := entries[loaded];
        update := update.With(c, update.At(c) + [Plugin(e.category, e.name, e.hash)]);
        var all := Instances(entries);
        assert old(update).At(c) + all[..loaded] + [all[loaded]] == old(update).At(c) + all[..loaded + 1];
        SameEverywhere(update, old(update).With(c, old(update).At(c) + all[..loaded + 1]));
        assert entries[..loaded + 1] == entries[..loaded] + [e];
        loaded := loaded + 1;
      }
    }

    /** Loads all entries of an update, category by category, up to the first that does not load. */
    method UpdatePlugins(entries: PerCategory<seq<PluginConfig>>, bad: set<string>) returns (ok: bool)
      requires update == NO_PLUGINS
      modifies `update
      ensures ok <==> Loads(entries, bad)
      ensures ok ==> forall c :: update.At(c) == Instances(entries.At(c))
      ensures !ok ==> exists c, n: nat :: IsStopped(update, entries, bad, c, n)
    {
      var loaded := LoadUpdates(Input, entries.input, bad);
      if loaded < |entries.input| {
        StoppedAt(update, entries, bad, Input, loaded);
        return false;
      }
      LoadedWhole(entries.input, bad, loaded);
      loaded := LoadUpdates(Processor, entries.processor, bad);
      if loaded < |entries.processor| {
        StoppedAt(update, entries, bad, Processor, loaded);
        return false;
      }
      LoadedWhole(entries.processor, bad, loaded);
      loaded := LoadUpdates(Aggregator, entries.aggregator, bad);
      if loaded < |entries.aggregator| {
        StoppedAt(update, entries, bad, Aggregator, loaded);
        return false;
      }
      LoadedWhole(entries.aggregator, bad, loaded);
      loaded := LoadUpdates(Output, entries.output, bad);
      if loaded < |entries.output| {
        StoppedAt(update, entries, bad, Output, loaded);
        return false;
      }
      LoadedWhole(entries.output, bad, loaded);
      return true;
    }

    /** Drops a partly loaded update. */
    method RemoveUpdateCache()
      modifies `update, `closed
      ensures update == NO_PLUGINS && forall c :: Accounted(c) == old(Accounted(c))
    {
      Close(multiset(update.input), multiset(update.processor), multiset(update.aggregator), multiset(update.output));
      update := NO_PLUGINS;
    }

    /** Installs one category of the loaded update, closing each plugin it drops once. */
    method ReplaceCategory(c: Category) returns (ok: bool)
      modifies `running, `update, `closed
      ensures ok <==> Replaced(old(running).At(c), old(update).At(c)).Some?
      ensures ok ==> running == old(running).With(c, Replaced(old(running).At(c), old(update).At(c)).value)
      ensures ok ==> update == old(update).With(c, [])
      ensures ok ==> forall d :: Accounted(d) == old(Accounted(d))
    {
      var left, dropped := SwapCategory(running.At(c), update.At(c), SameName);
      if left.None? {
        return false;
      }
      running := running.With(c, left.value + update.At(c));
      update := update.With(c, []);
      closed := closed.With(c, closed.At(c) + multiset(dropped));
      return true;
    }

    /** Installs the loaded update; fails, as the program would crash, when an index runs off the end. */
    method ReplaceRunningPlugin() returns (ok: bool)
      modifies `running, `update, `closed
      ensures ok <==> forall c :: Replaced(old(running).At(c), old(update).At(c)).Some?
      ensures ok ==> update == NO_PLUGINS && forall c :: Accounted(c) == old(Accounted(c))
      ensures ok ==> forall c :: Some(running.At(c)) == Replaced(old(running).At(c), old(update).At(c))
    {
      ok := ReplaceCategory(Input);
      if ok {
        ok := ReplaceCategory(Processor);
      }
      if ok {
        ok := ReplaceCategory(Aggregator);
      }
      if ok {
        ok := ReplaceCategory(Output);
      }
    }

    /** Drops the plugins of one category's checked-out entries, closing each once. */
    method RemoveCategory(c: Category, entries: seq<PluginConfig>) returns (ok: bool)
      modifies `running, `closed
      ensures ok <==> Removed(old(running).At(c), entries, SameHash).Some?
      ensures ok ==> running == old(running).With(c, Removed(old(running).At(c), entries, SameHash).value)
      ensures ok ==> forall d :: Accounted(d) == old(Accounted(d))
    {
      var left, dropped := SwapCategory(running.At(c), entries, SameHash);
      if left.None? {
        return false;
      }
      running := running.With(c, left.value);
      closed := closed.With(c, closed.At(c) + multiset(dropped));
      return true;
    }

    method RemoveRunningPlugin(entries: PerCategory<seq<PluginConfig>>) returns (ok: bool)
      modifies `running, `closed
      ensures ok <==> forall c :: Removed(old(running).At(c), entries.At(c), SameHash).Some?
      ensures ok ==> forall c :: Accounted(c) == old(Accounted(c))
      ensures ok ==> forall c :: Some(running.At(c)) == Removed(old(running).At(c), entries.At(c), SameHash)
    {
      ok := RemoveCategory(Input, entries.input);
      if ok {
        ok := RemoveCategory(Processor, entries.processor);
      }
      if ok {
        ok := RemoveCategory(Aggregator, entries.aggregator);
      }
      if ok {
        ok := RemoveCategory(Output, entries.output);
      }
    }
  }

  lemma FourRemovals(running: PerCategory<seq<Plugin>>, entries: PerCategory<seq<PluginConfig>>)
    ensures (forall c :: Removed(running.At(c), entries.At(c), SameHash).Some?) <==>
            && Removed(running.input, entries.input, SameHash).Some?
            && Removed(running.processor, entries.processor, SameHash).Some?
            && Removed(running.aggregator, entries.aggregator, SameHash).Some?
            && Removed(running.output, entries.output, SameHash).Some?
  {
    assert running.At(Input) == running.input && running.At(Processor) == running.processor;
    assert running.At(Aggregator) == running.aggregator && running.At(Output) == running.output;
  }

  /** The state seen between handshakes. */
  ghost function SystemOf(config: Config, manager: LuaPluginManager): System
    reads config, manager
  {
    System(config.runningHash, config.running, config.update, manager.running)
  }

  ghost predicate IsIdle(config: Config, manager: LuaPluginManager)
    reads config, manager
  {
    manager.update == NO_PLUGINS && config.delete == NO_CONFIGS
  }

  /** An update from the agent: the receiver's half, then the executor's. It is exactly one update step,
      and leaves both caches of plugins and of deletions empty. */
  method HandleUpdate(config: Config, manager: LuaPluginManager, files: map<string, File>, bad: set<string>)
    returns (ok: bool, ghost order: seq<string>)
    requires IsIdle(config, manager)
    modifies config, manager
    ensures Visits(order, files)
    ensures ok <==> UpdateStep(old(SystemOf(config, manager)), files, order, bad).Some?
    ensures ok ==> Some(SystemOf(config, manager)) == UpdateStep(old(SystemOf(config, manager)), files, order, bad)
    ensures ok ==> IsIdle(config, manager)
  {
    ghost var before := SystemOf(config, manager);
    var cached;
    cached, order := config.ParsePluginMarking(files);
    if cached == 0 {
      NothingNewParsed(before.updates, order, files, before.hashes);
      return true, order;
    }
    var loaded := manager.UpdatePlugins(config.update, bad);
    if !loaded {
      manager.RemoveUpdateCache();
      return true, order;
    }
    ghost var was, now := manager.running, manager.update;
    ok := manager.ReplaceRunningPlugin();
    EachReplaced(was, config.update, now);
    if ok {
      SameEverywhere(manager.running, ReplacedAll(was, config.update).value);
      config.ReplaceRunningConfig();
    }
  }

  lemma NothingNewParsed(updates: PerCategory<seq<PluginConfig>>, order: seq<string>, files: map<string, File>,
                         known: set<string>)
    requires forall h <- order :: !IsNewPlugin(h, files, known)
    ensures Joined(updates, AllParsed(order, files, known)) == updates
  {
    var joined := Joined(updates, AllParsed(order, files, known));
    forall c ensures joined.At(c) == updates.At(c) {
      AllAt(order, files, known, c);
      ParsedNothing(order, files, known, c);
      assert updates.At(c) + [] == updates.At(c);
    }
    SameEverywhere(joined, updates);
  }

  lemma EachReplaced(plugins: PerCategory<seq<Plugin>>, updates: PerCategory<seq<PluginConfig>>,
                     loaded: PerCategory<seq<Plugin>>)
    requires forall c :: loaded.At(c) == Instances(updates.At(c))
    ensures ReplacedAll(plugins, updates).Some? <==> forall c :: Replaced(plugins.At(c), loaded.At(c)).Some?
    ensures ReplacedAll(plugins, updates).Some? ==>
      forall c :: Some(ReplacedAll(plugins, updates).value.At(c)) == Replaced(plugins.At(c), loaded.At(c))
  {
    if forall c :: Replaced(plugins.At(c), loaded.At(c)).Some? {
      ReplacedEach(plugins, updates);
    }
    if ReplacedAll(plugins, updates).Some? {
      forall c ensures Some(ReplacedAll(plugins, updates).value.At(c)) == Replaced(plugins.At(c), loaded.At(c)) {
        ReplacedAllAt(plugins, updates, c);
      }
    }
  }

  /** A deletion from the agent, both halves: exactly one deletion step. */
  method HandleDelete(config: Config, manager: LuaPluginManager, hashList: seq<string>) returns (ok: bool)
    requires IsIdle(config, manager)
    modifies config, manager
    ensures ok <==> DeleteStep(old(SystemOf(config, manager)), hashList).Some?
    ensures ok ==> Some(SystemOf(config, manager)) == DeleteStep(old(SystemOf(config, manager)), hashList)
    ensures ok ==> IsIdle(config, manager)
  {
    config.CheckoutConfig(hashList);
    ghost var was := manager.running;
    forall c ensures config.delete.At(c) == CheckedOut(config.running.At(c), hashList) {
      assert NO_CONFIGS.At(c) == [];
    }
    ok := manager.RemoveRunningPlugin(config.delete);
    EachRemoved(was, config.running, hashList, config.delete);
    if ok {
      SameEverywhere(manager.running, RemovedAll(was, config.running, hashList).value);
      config.RemoveDeleteConfig();
    }
  }

  lemma EachRemoved(plugins: PerCategory<seq<Plugin>>, configs: PerCategory<seq<PluginConfig>>, hashList: seq<string>,
                    entries: PerCategory<seq<PluginConfig>>)
    requires forall c :: entries.At(c) == CheckedOut(configs.At(c), hashList)
    ensures RemovedAll(plugins, configs, hashList).Some? <==>
      forall c :: Removed(plugins.At(c), entries.At(c), SameHash).Some?
    ensures RemovedAll(plugins, configs, hashList).Some? ==>
      forall c :: Some(RemovedAll(plugins, configs, hashList).value.At(c)) ==
                  Removed(plugins.At(c), entries.At(c), SameHash)
  {
    FourRemovals(plugins, entries);
    assert entries.At(Input) == entries.input && entries.At(Processor) == entries.processor;
    assert entries.At(Aggregator) == entries.aggregator && entries.At(Output) == entries.output;
    assert configs.At(Input) == configs.input && configs.At(Processor) == configs.processor;
    assert configs.At(Aggregator) == configs.aggregator && configs.At(Output) == configs.output;
    if RemovedAll(plugins, configs, hashList).Some? {
      forall c
        ensures Some(RemovedAll(plugins, configs, hashList).value.At(c)) ==
                Removed(plugins.At(c), entries.At(c), SameHash)
      {
        RemovedAllAt(plugins, configs, hashList, c);
      }
    }
  }
}
