/** What updates and deletions do, told by names, hashes and files: which plugins run afterwards and in which order,
    which entries run or stay pending, and which hashes are registered. */
module PluginEffects {
  import opened Text
  import opened PluginSwap
  import opened PluginRuns
  import opened PluginPending

  /** The plugins that satisfy a condition, in order. */
  function Where(running: seq<Plugin>, keep: Plugin -> bool): seq<Plugin> {
    if |running| == 0 then []
    else
      Where(running[..|running| - 1], keep)
      + if keep(running[|running| - 1]) then [running[|running| - 1]] else []
  }

  lemma {:induction false} KeptIsWhere<K>(running: seq<Plugin>, keys: seq<K>, matches: (Plugin, K) -> bool,
                                          keep: Plugin -> bool)
    requires forall p <- running :: Matches(p, keys, matches) == 0 <==> keep(p)
    ensures Kept(running, keys, matches) == Where(running, keep)
  {
    if |running| > 0 {
      assert running[|running| - 1] in running;
      KeptIsWhere(running[..|running| - 1], keys, matches, keep);
    }
  }

  /** The file is a plugin of the category that is not registered yet. */
  predicate IsNewFile(files: map<string, File>, hash: string, known: set<string>, c: Category) {
    hash in files && hash !in known && files[hash].Marked? && files[hash].category == Some(c)
  }

  /** Some new file of the category carries the name. */
  predicate IsBroughtName(files: map<string, File>, known: set<string>, c: Category, name: string) {
    exists h <- files :: IsNewFile(files, h, known, c) && files[h].name == name
  }

  // ---------- what is parsed ----------

  lemma {:induction false} InParsed(order: seq<string>, files: map<string, File>, known: set<string>, c: Category,
                                    e: PluginConfig)
    ensures e in Parsed(order, files, known, c) <==>
            e.hash in order && IsNewFile(files, e.hash, known, c) && e.category == c && e.name == files[e.hash].name
  {
    if |order| > 0 {
      var front, h := order[..|order| - 1], order[|order| - 1];
      InParsed(front, files, known, c, e);
      assert order == front + [h];
    }
  }

  lemma InInstances(entries: seq<PluginConfig>, p: Plugin)
    ensures p in Instances(entries) <==> PluginConfig(p.category, p.name, p.hash) in entries
  {
    if p in Instances(entries) {
      var i :| 0 <= i < |entries| && p == Instances(entries)[i];
      assert entries[i] in entries;
    }
    if PluginConfig(p.category, p.name, p.hash) in entries {
      var i :| 0 <= i < |entries| && entries[i] == PluginConfig(p.category, p.name, p.hash);
      assert Instances(entries)[i] == p;
    }
  }

  lemma InAdded(s: System, op: Op, c: Category, p: Plugin)
    requires op.Update? && Visits(op.order, op.files)
    ensures p in Added(s, op, c) <==>
            p.category == c && IsNewFile(op.files, p.hash, s.hashes, c) && p.name == op.files[p.hash].name
  {
    InInstances(Parsed(op.order, op.files, s.hashes, c), p);
    InParsed(op.order, op.files, s.hashes, c, PluginConfig(p.category, p.name, p.hash));
  }

  // ---------- updates ----------

  lemma MatchedByName(s: System, op: Op, c: Category, p: Plugin)
    requires op.Update? && Visits(op.order, op.files) && DistinctNames(Added(s, op, c)) && p.category == c
    ensures Matches(p, Added(s, op, c), SameName) == 0 <==> !IsBroughtName(op.files, s.hashes, c, p.name)
  {
    var added := Added(s, op, c);
    NamesMatchOnce(p, added);
    if exists u <- added :: SameName(p, u) {
      var u :| u in added && SameName(p, u);
      InAdded(s, op, c, u);
    }
    if IsBroughtName(op.files, s.hashes, c, p.name) {
      var h :| h in op.files && IsNewFile(op.files, h, s.hashes, c) && op.files[h].name == p.name;
      InAdded(s, op, c, Plugin(c, p.name, h));
      assert SameName(p, Plugin(c, p.name, h));
    }
  }

  lemma UpdatedList(s: System, op: Op, c: Category)
    requires IsGoodState(s) && op.Update? && IsGoodOp(s, op)
    ensures Step(s, op).Some?
    ensures Step(s, op).value.plugins.At(c) ==
            Where(s.plugins.At(c), (p: Plugin) => !IsBroughtName(op.files, s.hashes, c, p.name)) + Added(s, op, c)
  {
    GoodUpdate(s, op);
    forall p <- s.plugins.At(c)
      ensures Matches(p, Added(s, op, c), SameName) == 0 <==> !IsBroughtName(op.files, s.hashes, c, p.name)
    {
      MatchedByName(s, op, c, p);
    }
    KeptIsWhere(s.plugins.At(c), Added(s, op, c), SameName,
                (p: Plugin) => !IsBroughtName(op.files, s.hashes, c, p.name));
  }

  lemma {:induction false} InWhere(running: seq<Plugin>, keep: Plugin -> bool, p: Plugin)
    ensures p in Where(running, keep) <==> p in running && keep(p)
  {
    if |running| > 0 {
      InWhere(running[..|running| - 1], keep, p);
      assert running == running[..|running| - 1] + [running[|running| - 1]];
    }
  }

  /** After an update in a run without repeated loads, in each category: no two plugins have the same name; exactly the
      new files run and, of the plugins before, those whose name no new file carries; and these keep their order. */
  lemma AfterUpdate(states: seq<System>, ops: seq<Op>, i: nat, c: Category)
    requires IsGoodRun(states, ops) && IsGoodState(states[0]) && i < |ops| && ops[i].Update?
    ensures var now := states[i + 1].plugins.At(c);
      forall j, k :: 0 <= j < k < |now| ==> now[j].name != now[k].name
    ensures forall p :: p in states[i + 1].plugins.At(c) <==>
      || (p in states[i].plugins.At(c)
          && !exists h <- ops[i].files :: IsNewFile(ops[i].files, h, states[i].hashes, c)
                                          && ops[i].files[h].name == p.name)
      || (p.category == c && IsNewFile(ops[i].files, p.hash, states[i].hashes, c)
          && p.name == ops[i].files[p.hash].name)
    ensures Where(states[i].plugins.At(c), (p: Plugin) => !IsBroughtName(ops[i].files, states[i].hashes, c, p.name)) <=
            states[i + 1].plugins.At(c)
  {
    GoodRuns(states, ops, i);
    var s, op := states[i], ops[i];
    assert IsGoodOp(s, op) && Step(s, op) == Some(states[i + 1]);
    GoodRuns(states, ops, i + 1);
    NamesApartIn(states[i + 1], c);
    UpdatedList(s, op, c);
    forall p
      ensures p in states[i + 1].plugins.At(c) <==>
        || (p in s.plugins.At(c) && !IsBroughtName(op.files, s.hashes, c, p.name))
        || (p.category == c && IsNewFile(op.files, p.hash, s.hashes, c) && p.name == op.files[p.hash].name)
    {
      InWhere(s.plugins.At(c), (p: Plugin) => !IsBroughtName(op.files, s.hashes, c, p.name), p);
      InAdded(s, op, c, p);
    }
  }

  lemma NamesApartIn(s: System, c: Category)
    requires IsGoodState(s)
    ensures var now := s.plugins.At(c); forall j, k :: 0 <= j < k < |now| ==> now[j].name != now[k].name
  {
    var now := s.plugins.At(c);
    forall j, k | 0 <= j < k < |now| ensures now[j].name != now[k].name {
      assert now[j] in now && now[k] in now;
      assert !SameName(now[j], now[k]);
    }
  }

  // ---------- deletions ----------

  lemma MatchedByHash(s: System, hashList: seq<string>, c: Category, p: Plugin)
    requires IsLoadedOnce(s) && IsFreshOp(s, Delete(hashList)) && p in s.plugins.At(c)
    ensures Matches(p, CheckedOut(s.configs.At(c), hashList), SameHash) == 0 <==> p.hash !in hashList
  {
    DeletionIsEffective(s, hashList, c);
    InKept(s.plugins.At(c), CheckedOut(s.configs.At(c), hashList), SameHash, p);
  }

  /** After a deletion in a run that loads no hash twice, in each category exactly the plugins of other hashes run,
      in the order in which they ran; register and entries are as they were, but for the listed hashes. */
  lemma DeletionKeepsOrder(states: seq<System>, ops: seq<Op>, i: nat, c: Category)
    requires IsFreshRun(states, ops) && IsLoadedOnce(states[0]) && i < |ops| && ops[i].Delete?
    ensures states[i + 1].plugins.At(c) == Where(states[i].plugins.At(c), (p: Plugin) => p.hash !in ops[i].hashList)
    ensures forall h :: h in states[i + 1].hashes <==> h in states[i].hashes && h !in ops[i].hashList
    ensures states[i + 1].configs == states[i].configs && states[i + 1].updates == states[i].updates
  {
    FreshRuns(states, ops, i);
    var s, hashList := states[i], ops[i].hashList;
    assert IsFreshOp(s, ops[i]) && Step(s, ops[i]) == Some(states[i + 1]);
    DeletionRuns(s, hashList);
    forall p <- s.plugins.At(c)
      ensures Matches(p, CheckedOut(s.configs.At(c), hashList), SameHash) == 0 <==> p.hash !in hashList
    {
      MatchedByHash(s, hashList, c, p);
    }
    KeptIsWhere(s.plugins.At(c), CheckedOut(s.configs.At(c), hashList), SameHash, (p: Plugin) => p.hash !in hashList);
  }

  // ---------- the register and the entries, whatever loads ----------

  /** The entry is that of a new file of the category. */
  predicate IsNewEntry(files: map<string, File>, known: set<string>, c: Category, e: PluginConfig) {
    IsNewFile(files, e.hash, known, c) && e.category == c && e.name == files[e.hash].name
  }

  /** Some file is a plugin that is not registered, of any category or none. */
  predicate HasNewPlugin(files: map<string, File>, known: set<string>) {
    exists h <- files :: h !in known && files[h].Marked?
  }

  /** A pending or a new entry of some category does not load. */
  ghost predicate HasBad(s: System, op: Op)
    requires op.Update?
  {
    exists c: Category, e: PluginConfig ::
      e.hash in op.bad && (e in s.updates.At(c) || IsNewEntry(op.files, s.hashes, c, e))
  }

  lemma BringsExactly(s: System, op: Op)
    requires op.Update? && Visits(op.order, op.files)
    ensures BringsPlugins(s, op) <==> HasNewPlugin(op.files, s.hashes)
  {
  }

  lemma JoinedHas(s: System, op: Op, c: Category, e: PluginConfig)
    requires op.Update? && Visits(op.order, op.files)
    ensures e in Joined(s.updates, ParsedBy(s, op)).At(c) <==>
            e in s.updates.At(c) || IsNewEntry(op.files, s.hashes, c, e)
  {
    AllAt(op.order, op.files, s.hashes, c);
    InParsed(op.order, op.files, s.hashes, c, e);
  }

  lemma LoadsExactly(s: System, op: Op)
    requires op.Update? && Visits(op.order, op.files)
    ensures Loads(Joined(s.updates, ParsedBy(s, op)), op.bad) <==> !HasBad(s, op)
  {
    var all := Joined(s.updates, ParsedBy(s, op));
    LoadsAt(all, op.bad);
    if HasBad(s, op) {
      var c: Category, e: PluginConfig :|
        e.hash in op.bad && (e in s.updates.At(c) || IsNewEntry(op.files, s.hashes, c, e));
      JoinedHas(s, op, c, e);
    }
    if !Loads(all, op.bad) {
      var c :| !AllLoad(all.At(c), op.bad);
      var e :| e in all.At(c) && e.hash in op.bad;
      JoinedHas(s, op, c, e);
    }
  }

  lemma UpdateRegisters(s: System, op: Op)
    requires op.Update? && Step(s, op).Some?
    ensures forall h :: h in Step(s, op).value.hashes <==> h in s.hashes || h in op.files
  {
  }

  lemma UpdateIdles(s: System, op: Op)
    requires op.Update? && Visits(op.order, op.files) && !HasNewPlugin(op.files, s.hashes)
    ensures Step(s, op) == Some(s.(hashes := s.hashes + op.files.Keys))
  {
    BringsExactly(s, op);
  }

  lemma UpdateFails(s: System, op: Op)
    requires op.Update? && Visits(op.order, op.files) && HasNewPlugin(op.files, s.hashes) && HasBad(s, op)
    ensures Step(s, op).Some?
    ensures var u := Step(s, op).value;
      u.plugins == s.plugins && u.configs == s.configs && u.updates == Joined(s.updates, ParsedBy(s, op))
  {
    BringsExactly(s, op);
    LoadsExactly(s, op);
  }

  lemma UpdateInstalls(s: System, op: Op)
    requires op.Update? && Visits(op.order, op.files) && HasNewPlugin(op.files, s.hashes) && !HasBad(s, op)
    requires Step(s, op).Some?
    ensures var u := Step(s, op).value;
      u.updates == NO_CONFIGS && u.configs == Joined(s.configs, Joined(s.updates, ParsedBy(s, op)))
  {
    BringsExactly(s, op);
    LoadsExactly(s, op);
  }

  /** What any update does, whatever fails to load or shares a name: all its files are registered; without a new plugin
      nothing else changes; when a pending or new entry does not load, plugins and running entries stay and the new
      entries become pending; otherwise all of these are running and nothing is pending. */
  lemma UpdateEffect(s: System, op: Op, u: System)
    requires op.Update? && Visits(op.order, op.files) && Step(s, op) == Some(u)
    ensures forall h :: h in u.hashes <==> h in s.hashes || h in op.files
    ensures !HasNewPlugin(op.files, s.hashes) ==>
      u.plugins == s.plugins && u.configs == s.configs && u.updates == s.updates
    ensures HasNewPlugin(op.files, s.hashes) && HasBad(s, op) ==>
      && u.plugins == s.plugins && u.configs == s.configs
      && forall c, e :: e in u.updates.At(c) <==> e in s.updates.At(c) || IsNewEntry(op.files, s.hashes, c, e)
    ensures HasNewPlugin(op.files, s.hashes) && !HasBad(s, op) ==>
      forall c, e ::
        && e !in u.updates.At(c)
        && (e in u.configs.At(c) <==>
              e in s.configs.At(c) || e in s.updates.At(c) || IsNewEntry(op.files, s.hashes, c, e))
  {
    UpdateRegisters(s, op);
    if !HasNewPlugin(op.files, s.hashes) {
      UpdateIdles(s, op);
    } else if HasBad(s, op) {
      UpdateFails(s, op);
      forall c, e ensures e in u.updates.At(c) <==> e in s.updates.At(c) || IsNewEntry(op.files, s.hashes, c, e) {
        JoinedHas(s, op, c, e);
      }
    } else {
      UpdateInstalls(s, op);
      forall c, e
        ensures e !in u.updates.At(c)
        ensures e in u.configs.At(c) <==>
                e in s.configs.At(c) || e in s.updates.At(c) || IsNewEntry(op.files, s.hashes, c, e)
      {
        JoinedHas(s, op, c, e);
      }
    }
  }

  // ---------- the start ----------

  /** At the start every local file and the collector's own configuration are registered, and exactly the local plugins
      of known categories run, each with its entry. */
  lemma StartEffect(own: string, files: map<string, File>, order: seq<string>, c: Category, p: Plugin)
    requires Visits(order, files)
    ensures forall h :: h in Started(own, files, order).hashes <==> h == own || h in files
    ensures p in Started(own, files, order).plugins.At(c) <==>
            p.category == c && IsNewFile(files, p.hash, {own}, c) && p.name == files[p.hash].name
    ensures PluginConfig(p.category, p.name, p.hash) in Started(own, files, order).configs.At(c) <==>
            p in Started(own, files, order).plugins.At(c)
    ensures Started(own, files, order).updates.At(c) == []
  {
    StartLists(own, files, order, c);
    InInstances(Parsed(order, files, {own}, c), p);
    InParsed(order, files, {own}, c, PluginConfig(p.category, p.name, p.hash));
  }

  /** An update whose plugin files are all known at the start changes nothing but the register. */
  lemma KnownFilesChangeNothing(own: string, files: map<string, File>, order: seq<string>, op: Op)
    requires op.Update? && Visits(op.order, op.files)
    requires forall h <- op.files | op.files[h].Marked? :: h in files || h == own
    ensures var s := Started(own, files, order); Step(s, op) == Some(s.(hashes := s.hashes + op.files.Keys))
  {
    UpdateIdles(Started(own, files, order), op);
  }
}
