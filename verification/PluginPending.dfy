/** Runs of updates and deletions from the start of the program, and what becomes of entries that do not load:
    they stay pending, and while one of them does not load no update is installed. */
module PluginPending {
  import opened Text
  import opened PluginSwap
  import opened PluginRuns

  ghost predicate IsRun(states: seq<System>, ops: seq<Op>) {
    && |states| == |ops| + 1
    && forall i | 0 <= i < |ops| :: Step(states[i], ops[i]) == Some(states[i + 1])
  }

  // ---------- the start of the program ----------

  /** The state once the local files are parsed and loaded: no earlier plugin is replaced. */
  function Started(own: string, files: map<string, File>, order: seq<string>): System {
    var entries := AllParsed(order, files, {own});
    System({own} + files.Keys, entries, NO_CONFIGS,
           PerCategory(Instances(entries.input), Instances(entries.processor),
                       Instances(entries.aggregator), Instances(entries.output)))
  }

  lemma StartLists(own: string, files: map<string, File>, order: seq<string>, c: Category)
    ensures Started(own, files, order).configs.At(c) == Parsed(order, files, {own}, c)
    ensures Started(own, files, order).plugins.At(c) == Instances(Parsed(order, files, {own}, c))
    ensures Started(own, files, order).updates.At(c) == []
  {
  }

  lemma InstancesConfigured(entries: seq<PluginConfig>, c: Category)
    requires forall e <- entries :: e.category == c
    ensures forall p <- Instances(entries) :: p.category == c && HasConfig(p, entries)
  {
    forall p <- Instances(entries) ensures p.category == c && HasConfig(p, entries) {
      var i :| 0 <= i < |entries| && p == Instances(entries)[i];
      assert entries[i] in entries;
    }
  }

  lemma StartConfigured(own: string, files: map<string, File>, order: seq<string>)
    ensures IsConfigured(Started(own, files, order))
  {
    var s := Started(own, files, order);
    forall c
      ensures forall p <- s.plugins.At(c) :: p.category == c && HasConfig(p, s.configs.At(c))
      ensures forall e <- s.configs.At(c) + s.updates.At(c) :: e.category == c
    {
      StartLists(own, files, order, c);
      ParsedCategory(order, files, {own}, c);
      InstancesConfigured(Parsed(order, files, {own}, c), c);
    }
  }

  lemma StartDistinct(own: string, files: map<string, File>, order: seq<string>)
    requires Visits(order, files)
    ensures forall c :: DistinctHashes(Started(own, files, order).configs.At(c))
  {
    forall c ensures DistinctHashes(Started(own, files, order).configs.At(c)) {
      StartLists(own, files, order, c);
      ParsedDistinct(order, files, {own}, c);
    }
  }

  /** No two local plugins of a category share a name. */
  ghost predicate NamesApart(own: string, files: map<string, File>, order: seq<string>) {
    forall c :: DistinctNames(Instances(Parsed(order, files, {own}, c)))
  }

  lemma StartNames(own: string, files: map<string, File>, order: seq<string>)
    ensures (forall c :: DistinctNames(Started(own, files, order).plugins.At(c))) <==> NamesApart(own, files, order)
  {
    forall c
      ensures Started(own, files, order).plugins.At(c) == Instances(Parsed(order, files, {own}, c))
    {
      StartLists(own, files, order, c);
    }
  }

  /** The program starts configured; it starts well exactly when no two local plugins of a category share a name. */
  lemma StartIsGood(own: string, files: map<string, File>, order: seq<string>)
    requires Visits(order, files)
    ensures IsConfigured(Started(own, files, order))
    ensures IsGoodState(Started(own, files, order)) <==> NamesApart(own, files, order)
  {
    StartConfigured(own, files, order);
    StartDistinct(own, files, order);
    StartNames(own, files, order);
  }

  /** At the start every hash has one entry, whatever the names. */
  lemma StartIsLoadedOnce(own: string, files: map<string, File>, order: seq<string>)
    requires Visits(order, files)
    ensures IsLoadedOnce(Started(own, files, order))
  {
    var s := Started(own, files, order);
    StartConfigured(own, files, order);
    StartDistinct(own, files, order);
    forall c ensures DistinctHashes(s.configs.At(c) + s.updates.At(c)) {
      StartLists(own, files, order, c);
      assert s.configs.At(c) + [] == s.configs.At(c);
    }
  }

  /** In every run from the start, whatever is loaded, fails to load, is loaded again or deleted, each running plugin
      has a running configuration of its hash and category. */
  lemma {:induction false} RunsStayConfigured(states: seq<System>, ops: seq<Op>, i: nat,
                                              own: string, files: map<string, File>, order: seq<string>)
    requires IsRun(states, ops) && i < |states|
    requires Visits(order, files) && states[0] == Started(own, files, order)
    ensures IsConfigured(states[i])
  {
    if i == 0 {
      StartIsGood(own, files, order);
    } else {
      RunsStayConfigured(states, ops, i - 1, own, files, order);
      assert Step(states[i - 1], ops[i - 1]) == Some(states[i - 1 + 1]);
      StepKeepsConfigured(states[i - 1], ops[i - 1]);
    }
  }

  // ---------- entries that do not load ----------

  predicate BringsPlugins(s: System, op: Op) {
    op.Update? && exists h <- op.order :: IsNewPlugin(h, op.files, s.hashes)
  }

  function ParsedBy(s: System, op: Op): PerCategory<seq<PluginConfig>>
    requires op.Update?
  {
    AllParsed(op.order, op.files, s.hashes)
  }

  /** The update's plugins and all pending ones load, and are installed. */
  predicate Installs(s: System, op: Op) {
    BringsPlugins(s, op) && Loads(Joined(s.updates, ParsedBy(s, op)), op.bad)
  }

  predicate FailsToLoad(s: System, op: Op) {
    BringsPlugins(s, op) && !Loads(Joined(s.updates, ParsedBy(s, op)), op.bad)
  }

  lemma LoadsAt(entries: PerCategory<seq<PluginConfig>>, bad: set<string>)
    ensures Loads(entries, bad) <==> forall c :: AllLoad(entries.At(c), bad)
  {
    if forall c :: AllLoad(entries.At(c), bad) {
      assert AllLoad(entries.At(Input), bad) && AllLoad(entries.At(Processor), bad);
      assert AllLoad(entries.At(Aggregator), bad) && AllLoad(entries.At(Output), bad);
    }
  }

  lemma LoadsJoined(a: PerCategory<seq<PluginConfig>>, b: PerCategory<seq<PluginConfig>>, bad: set<string>)
    ensures Loads(Joined(a, b), bad) <==> Loads(a, bad) && Loads(b, bad)
  {
    AllLoadJoined(a.input, b.input, bad);
    AllLoadJoined(a.processor, b.processor, bad);
    AllLoadJoined(a.aggregator, b.aggregator, bad);
    AllLoadJoined(a.output, b.output, bad);
  }

  lemma AllLoadJoined(a: seq<PluginConfig>, b: seq<PluginConfig>, bad: set<string>)
    ensures AllLoad(a + b, bad) <==> AllLoad(a, bad) && AllLoad(b, bad)
  {
    assert forall e <- a :: e in a + b;
    assert forall e <- b :: e in a + b;
  }

  lemma BringsNothing(s: System, op: Op)
    requires op.Update? && !BringsPlugins(s, op)
    ensures ParsedBy(s, op) == NO_CONFIGS
  {
    ParsedNothing(op.order, op.files, s.hashes, Input);
    ParsedNothing(op.order, op.files, s.hashes, Processor);
    ParsedNothing(op.order, op.files, s.hashes, Aggregator);
    ParsedNothing(op.order, op.files, s.hashes, Output);
  }

  /** The three ways an operation can go, as far as pending and running entries are concerned. */
  ghost predicate IsPendingStep(s: System, op: Op, u: System) {
    && (u.updates ==
        if Installs(s, op) then NO_CONFIGS
        else if FailsToLoad(s, op) then Joined(s.updates, ParsedBy(s, op))
        else s.updates)
    && (!Installs(s, op) ==> u.configs == s.configs && forall c, p | p in u.plugins.At(c) :: p in s.plugins.At(c))
  }

  lemma DeletionKeepsOnly(s: System, op: Op)
    requires op.Delete? && Step(s, op).Some?
    ensures forall c, p | p in Step(s, op).value.plugins.At(c) :: p in s.plugins.At(c)
  {
    forall c ensures forall p <- Step(s, op).value.plugins.At(c) :: p in s.plugins.At(c) {
      RemovedAllAt(s.plugins, s.configs, op.hashList, c);
      var entries := CheckedOut(s.configs.At(c), op.hashList);
      DeletedSubset(s.plugins.At(c), SortDescending(Collected(s.plugins.At(c), entries, SameHash)));
    }
  }

  lemma PendingStep(s: System, op: Op)
    requires Step(s, op).Some?
    ensures IsPendingStep(s, op, Step(s, op).value)
  {
    if op.Delete? {
      DeletionKeepsOnly(s, op);
    }
  }

  /** A run, as far as pending and running entries are concerned. */
  ghost predicate IsPendingRun(states: seq<System>, ops: seq<Op>) {
    && |states| == |ops| + 1
    && forall i | 0 <= i < |ops| :: IsPendingStep(states[i], ops[i], states[i + 1])
  }

  lemma RunIsPending(states: seq<System>, ops: seq<Op>)
    requires IsRun(states, ops)
    ensures IsPendingRun(states, ops)
  {
    forall i | 0 <= i < |ops| ensures IsPendingStep(states[i], ops[i], states[i + 1]) {
      assert Step(states[i], ops[i]) == Some(states[i + 1]);
      PendingStep(states[i], ops[i]);
    }
  }

  /** No operation from i on, before the n-th, installed its plugins. */
  predicate NoInstall(states: seq<System>, ops: seq<Op>, i: nat, n: nat)
    requires |states| == |ops| + 1 && n <= |ops|
  {
    forall j | i <= j < n :: !Installs(states[j], ops[j])
  }

  /** The operation failed to load and nothing was installed since. */
  predicate IsWaiting(states: seq<System>, ops: seq<Op>, i: nat, n: nat)
    requires |states| == |ops| + 1 && n <= |ops|
  {
    i < n && FailsToLoad(states[i], ops[i]) && NoInstall(states, ops, i, n)
  }

  /** The entries of one category parsed by the updates that failed since the last installed one, in order. */
  function Waiting(states: seq<System>, ops: seq<Op>, n: nat, c: Category): seq<PluginConfig>
    requires |states| == |ops| + 1 && n <= |ops|
    decreases n
  {
    if n == 0 || Installs(states[n - 1], ops[n - 1]) then []
    else
      Waiting(states, ops, n - 1, c)
      + if FailsToLoad(states[n - 1], ops[n - 1]) then ParsedBy(states[n - 1], ops[n - 1]).At(c) else []
  }

  lemma {:induction false} WaitingList(states: seq<System>, ops: seq<Op>, n: nat, c: Category)
    requires IsPendingRun(states, ops) && states[0].updates == NO_CONFIGS && n <= |ops|
    ensures states[n].updates.At(c) == Waiting(states, ops, n, c)
  {
    if n > 0 {
      WaitingList(states, ops, n - 1, c);
      assert IsPendingStep(states[n - 1], ops[n - 1], states[n - 1 + 1]);
      WaitingStep(states, ops, n, c);
    }
  }

  /** At every point of every run the pending entries are those of the updates that failed to load since the last
      installed one, in the order in which they came. */
  lemma PendingAreWaiting(states: seq<System>, ops: seq<Op>, n: nat, c: Category)
    requires IsRun(states, ops) && states[0].updates == NO_CONFIGS && n <= |ops|
    ensures states[n].updates.At(c) == Waiting(states, ops, n, c)
  {
    RunIsPending(states, ops);
    WaitingList(states, ops, n, c);
  }

  lemma WaitingStep(states: seq<System>, ops: seq<Op>, n: nat, c: Category)
    requires |states| == |ops| + 1 && 0 < n <= |ops|
    requires IsPendingStep(states[n - 1], ops[n - 1], states[n])
    requires states[n - 1].updates.At(c) == Waiting(states, ops, n - 1, c)
    ensures states[n].updates.At(c) == Waiting(states, ops, n, c)
  {
  }

  lemma {:induction false} EmptyIff(states: seq<System>, ops: seq<Op>, n: nat)
    requires IsPendingRun(states, ops) && states[0].updates == NO_CONFIGS && n <= |ops|
    ensures states[n].updates == NO_CONFIGS <==> NothingWaits(states, ops, n)
  {
    if n > 0 {
      EmptyIff(states, ops, n - 1);
      assert IsPendingStep(states[n - 1], ops[n - 1], states[n - 1 + 1]);
      EmptyStep(states, ops, n);
    }
  }

  /** Between operations nothing is pending exactly when no update that failed since the last installed one
      brought a plugin of a known category. */
  lemma UpdatesEmptyIff(states: seq<System>, ops: seq<Op>, n: nat)
    requires IsRun(states, ops) && states[0].updates == NO_CONFIGS && n <= |ops|
    ensures states[n].updates == NO_CONFIGS <==> NothingWaits(states, ops, n)
  {
    RunIsPending(states, ops);
    EmptyIff(states, ops, n);
  }

  ghost predicate NothingWaits(states: seq<System>, ops: seq<Op>, n: nat)
    requires |states| == |ops| + 1 && n <= |ops|
  {
    forall i: nat | IsWaiting(states, ops, i, n) :: ParsedBy(states[i], ops[i]) == NO_CONFIGS
  }

  lemma WaitingOneMore(states: seq<System>, ops: seq<Op>, i: nat, n: nat)
    requires |states| == |ops| + 1 && 0 < n <= |ops|
    ensures IsWaiting(states, ops, i, n) <==>
            && !Installs(states[n - 1], ops[n - 1])
            && (IsWaiting(states, ops, i, n - 1) || (i == n - 1 && FailsToLoad(states[n - 1], ops[n - 1])))
  {
  }

  lemma EmptyStep(states: seq<System>, ops: seq<Op>, n: nat)
    requires |states| == |ops| + 1 && 0 < n <= |ops|
    requires IsPendingStep(states[n - 1], ops[n - 1], states[n])
    requires states[n - 1].updates == NO_CONFIGS <==> NothingWaits(states, ops, n - 1)
    ensures states[n].updates == NO_CONFIGS <==> NothingWaits(states, ops, n)
  {
    var s, op := states[n - 1], ops[n - 1];
    forall i: nat
      ensures IsWaiting(states, ops, i, n) <==>
              !Installs(s, op) && (IsWaiting(states, ops, i, n - 1) || (i == n - 1 && FailsToLoad(s, op)))
    {
      WaitingOneMore(states, ops, i, n);
    }
    if FailsToLoad(s, op) {
      assert IsWaiting(states, ops, n - 1, n);
      EmptyJoined(s.updates, ParsedBy(s, op));
    }
  }

  lemma EmptyJoined(a: PerCategory<seq<PluginConfig>>, b: PerCategory<seq<PluginConfig>>)
    ensures Joined(a, b) == NO_CONFIGS <==> a == NO_CONFIGS && b == NO_CONFIGS
  {
    assert |a.input + b.input| == |a.input| + |b.input| && |a.processor + b.processor| == |a.processor| + |b.processor|;
    assert |a.aggregator + b.aggregator| == |a.aggregator| + |b.aggregator|;
    assert |a.output + b.output| == |a.output| + |b.output|;
  }

  // ---------- one entry that never loads ----------

  /** No later update can load the hash. */
  predicate NeverLoads(ops: seq<Op>, i: nat, n: nat, hash: string)
    requires n <= |ops|
  {
    forall j | i <= j < n && ops[j].Update? :: hash in ops[j].bad
  }

  lemma {:induction false} Stuck(states: seq<System>, ops: seq<Op>, i: nat, n: nat, c: Category, e: PluginConfig)
    requires IsPendingRun(states, ops) && i <= n <= |ops|
    requires e in states[i].updates.At(c) && NeverLoads(ops, i, n, e.hash)
    ensures e in states[n].updates.At(c)
    ensures NoInstall(states, ops, i, n)
    ensures states[n].configs == states[i].configs
    ensures forall d, p | p in states[n].plugins.At(d) :: p in states[i].plugins.At(d)
  {
    if i < n {
      Stuck(states, ops, i, n - 1, c, e);
      assert IsPendingStep(states[n - 1], ops[n - 1], states[n - 1 + 1]);
      StuckStep(states[n - 1], ops[n - 1], states[n], c, e);
    }
  }

  /** Once an entry that never loads is pending, it stays pending: no later update installs a plugin or touches the
      running configuration, and the running plugins only grow fewer. */
  lemma StuckForever(states: seq<System>, ops: seq<Op>, i: nat, n: nat, c: Category, e: PluginConfig)
    requires IsRun(states, ops) && i <= n <= |ops|
    requires e in states[i].updates.At(c) && NeverLoads(ops, i, n, e.hash)
    ensures e in states[n].updates.At(c)
    ensures NoInstall(states, ops, i, n)
    ensures states[n].configs == states[i].configs
    ensures forall d, p | p in states[n].plugins.At(d) :: p in states[i].plugins.At(d)
  {
    RunIsPending(states, ops);
    Stuck(states, ops, i, n, c, e);
  }

  lemma StuckStep(s: System, op: Op, u: System, c: Category, e: PluginConfig)
    requires IsPendingStep(s, op, u)
    requires e in s.updates.At(c) && (op.Update? ==> e.hash in op.bad)
    ensures !Installs(s, op) && e in u.updates.At(c)
  {
    if op.Update? {
      LoadsAt(Joined(s.updates, ParsedBy(s, op)), op.bad);
      assert e in Joined(s.updates, ParsedBy(s, op)).At(c);
    }
  }

  // ---------- a fixed set of plugins that do not load ----------

  ghost predicate HasFixedBad(ops: seq<Op>, bad: set<string>) {
    forall op <- ops | op.Update? :: op.bad == bad
  }

  /** An update before the n-th operation brought a plugin that does not load. */
  ghost predicate BroughtBad(states: seq<System>, ops: seq<Op>, n: nat, bad: set<string>)
    requires |states| == |ops| + 1 && n <= |ops|
  {
    exists j | 0 <= j < n :: ops[j].Update? && !Loads(ParsedBy(states[j], ops[j]), bad)
  }

  lemma {:induction false} BadIff(states: seq<System>, ops: seq<Op>, n: nat, bad: set<string>)
    requires IsPendingRun(states, ops) && states[0].updates == NO_CONFIGS && HasFixedBad(ops, bad) && n <= |ops|
    ensures Loads(states[n].updates, bad) <==> !BroughtBad(states, ops, n, bad)
  {
    if n > 0 {
      BadIff(states, ops, n - 1, bad);
      assert IsPendingStep(states[n - 1], ops[n - 1], states[n - 1 + 1]);
      assert ops[n - 1] in ops;
      BadStep(states[n - 1], ops[n - 1], states[n], bad);
      BroughtOneMore(states, ops, n, bad);
    }
  }

  /** Something that does not load is pending exactly when some earlier update brought it. */
  lemma BadPendingIff(states: seq<System>, ops: seq<Op>, n: nat, bad: set<string>)
    requires IsRun(states, ops) && states[0].updates == NO_CONFIGS && HasFixedBad(ops, bad) && n <= |ops|
    ensures Loads(states[n].updates, bad) <==> !BroughtBad(states, ops, n, bad)
  {
    RunIsPending(states, ops);
    BadIff(states, ops, n, bad);
  }

  lemma BadStep(s: System, op: Op, u: System, bad: set<string>)
    requires IsPendingStep(s, op, u) && (op.Update? ==> op.bad == bad)
    ensures Loads(u.updates, bad) <==> Loads(s.updates, bad) && (op.Update? ==> Loads(ParsedBy(s, op), bad))
  {
    if op.Update? {
      LoadsJoined(s.updates, ParsedBy(s, op), bad);
      if !BringsPlugins(s, op) {
        BringsNothing(s, op);
      }
    }
  }

  lemma BroughtOneMore(states: seq<System>, ops: seq<Op>, n: nat, bad: set<string>)
    requires |states| == |ops| + 1 && 0 < n <= |ops|
    ensures BroughtBad(states, ops, n, bad) <==>
            || BroughtBad(states, ops, n - 1, bad)
            || (ops[n - 1].Update? && !Loads(ParsedBy(states[n - 1], ops[n - 1]), bad))
  {
  }

  /** When the plugins that do not load are fixed, an update that brings plugins is installed exactly when neither it
      nor any update before it brought one that does not load. One bad file ends all updates for good. */
  lemma InstallsExactly(states: seq<System>, ops: seq<Op>, i: nat, bad: set<string>)
    requires IsRun(states, ops) && states[0].updates == NO_CONFIGS && HasFixedBad(ops, bad)
    requires i < |ops| && BringsPlugins(states[i], ops[i])
    ensures Installs(states[i], ops[i]) <==> !BroughtBad(states, ops, i + 1, bad)
  {
    assert ops[i] in ops;
    BadPendingIff(states, ops, i, bad);
    LoadsJoined(states[i].updates, ParsedBy(states[i], ops[i]), bad);
    BroughtOneMore(states, ops, i + 1, bad);
  }
}
