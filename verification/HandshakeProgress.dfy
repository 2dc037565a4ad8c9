/** The hand-over never gets stuck: from the start of the program, whatever was received and however the goroutines
    interleaved, an idle receiver takes any operation and an operation under way can go on. */
module HandshakeProgress {
  import opened Text
  import opened PluginSwap
  import opened PluginRuns
  import opened Handshake
  import opened HandshakeRuns
  import Pending = PluginPending

  // ---------- what is prepared is a first part of what is wanted ----------

  function WantedBy(w: World): Batch {
    Wanted(w.op, w.configs, w.pending)
  }

  predicate IsBegun(batch: Batch, wanted: Batch) {
    && (forall c :: batch.updates.At(c) <= wanted.updates.At(c))
    && (forall c :: batch.entries.At(c) <= wanted.entries.At(c))
  }

  predicate IsPartlyPrepared(w: World) {
    w.s.receiver.Preparing? ==> w.s.receiver.signal == SignalOf(w.op) && IsBegun(w.s.cache, WantedBy(w))
  }

  lemma NothingBegun(wanted: Batch)
    ensures IsBegun(NO_BATCH, wanted)
  {
  }

  lemma NextBegun<T>(have: PerCategory<seq<T>>, all: PerCategory<seq<T>>, c: Category, x: T)
    requires forall d :: have.At(d) <= all.At(d)
    requires IsNext(have.At(c), all.At(c), x)
    ensures forall d :: have.With(c, have.At(c) + [x]).At(d) <= all.At(d)
  {
  }

  lemma ReceivePrepares(w: World, op: Op)
    requires Inv(w.s) && Advance(w, Receive(op)).Some?
    ensures IsPartlyPrepared(Advance(w, Receive(op)).value)
  {
    NothingBegun(WantedBy(Advance(w, Receive(op)).value));
  }

  lemma AddUpdatePrepares(w: World, p: Plugin)
    requires IsPartlyPrepared(w) && Advance(w, Act(AddUpdate(p))).Some?
    ensures IsPartlyPrepared(Advance(w, Act(AddUpdate(p))).value)
  {
    NextBegun(w.s.cache.updates, WantedBy(w).updates, p.category, p);
  }

  lemma AddEntryPrepares(w: World, e: PluginConfig)
    requires IsPartlyPrepared(w) && Advance(w, Act(AddEntry(e))).Some?
    ensures IsPartlyPrepared(Advance(w, Act(AddEntry(e))).value)
  {
    NextBegun(w.s.cache.entries, WantedBy(w).entries, e.category, e);
  }

  /** While the receiver prepares, nobody else touches the batch. */
  lemma OthersLeaveBatch(w: World, a: Action)
    requires Inv(w.s) && IsPartlyPrepared(w) && Advance(w, Act(a)).Some? && !a.AddUpdate? && !a.AddEntry?
    ensures IsPartlyPrepared(Advance(w, Act(a)).value)
  {
    var v := Advance(w, Act(a)).value;
    if v.s.receiver.Preparing? {
      assert v.s.receiver == w.s.receiver && v.s.cache == w.s.cache;
    }
  }

  lemma MovePrepares(w: World, m: Move)
    requires Inv(w.s) && IsPartlyPrepared(w) && Advance(w, m).Some?
    ensures IsPartlyPrepared(Advance(w, m).value)
  {
    match m
    case Receive(op) => ReceivePrepares(w, op);
    case Act(a) =>
      match a
      case AddUpdate(p) => AddUpdatePrepares(w, p);
      case AddEntry(e) => AddEntryPrepares(w, e);
      case _ => OthersLeaveBatch(w, a);
  }

  lemma {:induction false} RunPrepares(worlds: seq<World>, moves: seq<Move>, n: nat)
    requires IsWorldRun(worlds, moves) && n < |worlds|
    ensures IsPartlyPrepared(worlds[n])
  {
    if n > 0 {
      RunPrepares(worlds, moves, n - 1);
      WorldInv(worlds, moves, n - 1);
      PrepareNext(worlds, moves, n - 1);
    }
  }

  lemma PrepareNext(worlds: seq<World>, moves: seq<Move>, n: nat)
    requires IsWorldRun(worlds, moves) && n < |moves| && Inv(worlds[n].s) && IsPartlyPrepared(worlds[n])
    ensures IsPartlyPrepared(worlds[n + 1])
  {
    assert Advance(worlds[n], moves[n]) == Some(worlds[n + 1]);
    MovePrepares(worlds[n], moves[n]);
  }

  // ---------- preparing can go on ----------

  predicate AreFiled(entries: PerCategory<seq<PluginConfig>>) {
    forall c :: forall e <- entries.At(c) :: e.category == c
  }

  lemma ListedFiled(configs: PerCategory<seq<PluginConfig>>, hashList: seq<string>)
    requires AreFiled(configs)
    ensures AreFiled(Listed(configs, hashList))
  {
    forall c, e | e in Listed(configs, hashList).At(c) ensures e.category == c {
      assert Listed(configs, hashList).At(c) == CheckedOut(configs.At(c), hashList);
      InCheckedOut(configs.At(c), hashList, e);
    }
  }

  /** A plugin that does not load is enough to give up. */
  lemma BadStops(entries: PerCategory<seq<PluginConfig>>, bad: set<string>, c: Category, e: PluginConfig)
    requires e in entries.At(c) && e.hash in bad
    ensures !Loads(entries, bad)
  {
    assert !AllLoad(entries.At(c), bad);
  }

  predicate GoesOn(w: World, a: Action) {
    a != TickArrives && a != StarterLocks && Advance(w, Act(a)).Some?
  }

  lemma NextUpdate(w: World, c: Category) returns (a: Action)
    requires Inv(w.s) && w.s.receiver == Preparing(Replace) && w.op.Update? && Pending.BringsPlugins(w.before, w.op)
    requires AreFiled(w.pending) && |w.s.cache.updates.At(c)| < |Loaded(w.pending).At(c)|
    ensures GoesOn(w, a)
  {
    var i := |w.s.cache.updates.At(c)|;
    var e := w.pending.At(c)[i];
    assert Loaded(w.pending).At(c) == Instances(w.pending.At(c));
    assert e in w.pending.At(c) && e.category == c;
    if e.hash in w.op.bad {
      BadStops(w.pending, w.op.bad, c, e);
      a := Abandon;
    } else {
      a := AddUpdate(Plugin(e.category, e.name, e.hash));
      assert MayAct(w, a);
    }
  }

  lemma NextEntry(w: World, c: Category) returns (a: Action)
    requires Inv(w.s) && w.s.receiver == Preparing(Remove) && w.op.Delete? && AreFiled(w.configs)
    requires |w.s.cache.entries.At(c)| < |Listed(w.configs, w.op.hashList).At(c)|
    ensures GoesOn(w, a)
  {
    var e := Listed(w.configs, w.op.hashList).At(c)[|w.s.cache.entries.At(c)|];
    ListedFiled(w.configs, w.op.hashList);
    assert e in Listed(w.configs, w.op.hashList).At(c) && e.category == c;
    a := AddEntry(e);
    assert MayAct(w, a);
  }

  lemma SameWhenComplete<T>(have: PerCategory<seq<T>>, all: PerCategory<seq<T>>)
    requires forall c :: have.At(c) <= all.At(c)
    requires forall c :: |have.At(c)| >= |all.At(c)|
    ensures have == all
  {
    forall c ensures have.At(c) == all.At(c) {
      assert have.At(c) <= all.At(c) && |have.At(c)| >= |all.At(c)|;
    }
    SameSlots(have, all);
  }

  lemma PreparingUpdateGoesOn(w: World) returns (a: Action)
    requires Inv(w.s) && w.s.receiver == Preparing(Replace) && w.op.Update? && IsPartlyPrepared(w)
    requires AreFiled(w.pending)
    ensures GoesOn(w, a)
  {
    if !Pending.BringsPlugins(w.before, w.op) {
      a := Abandon;
    } else if c :| |w.s.cache.updates.At(c)| < |Loaded(w.pending).At(c)| {
      a := NextUpdate(w, c);
    } else {
      SameWhenComplete(w.s.cache.updates, Loaded(w.pending));
      a := Prepared;
    }
  }

  lemma PreparingDeletionGoesOn(w: World) returns (a: Action)
    requires Inv(w.s) && w.s.receiver == Preparing(Remove) && w.op.Delete? && IsPartlyPrepared(w)
    requires AreFiled(w.configs)
    ensures GoesOn(w, a)
  {
    if c :| |w.s.cache.entries.At(c)| < |Listed(w.configs, w.op.hashList).At(c)| {
      a := NextEntry(w, c);
    } else {
      SameWhenComplete(w.s.cache.entries, Listed(w.configs, w.op.hashList));
      a := Prepared;
    }
  }

  lemma UnderWayGoesOn(w: World) returns (a: Action)
    requires Inv(w.s) && Link(w) && IsPartlyPrepared(w) && !w.s.receiver.Idle? && !w.s.executor.Crashed?
    requires w.s.receiver.Preparing? ==> AreFiled(w.configs) && AreFiled(w.pending)
    ensures GoesOn(w, a)
  {
    match w.s.receiver
    case Preparing(Replace) => a := PreparingUpdateGoesOn(w);
    case Preparing(Remove) => a := PreparingDeletionGoesOn(w);
    case Sending(_) => a := Send;
    case Awaiting(_) => a := HandoverGoesOn(w.s);
  }

  // ---------- main result ----------

  lemma BeforeIsConfigured(worlds: seq<World>, moves: seq<Move>, n: nat,
                           own: string, files: map<string, File>, order: seq<string>)
    requires IsWorldRun(worlds, moves) && n < |worlds| && !worlds[n].s.receiver.Idle?
    requires Visits(order, files) && SystemOf(worlds[0]) == Pending.Started(own, files, order)
    ensures IsConfigured(worlds[n].before)
  {
    WorldInv(worlds, moves, n);
    var ops := worlds[n].received[..|worlds[n].received| - 1];
    var states := RunReaches(SystemOf(worlds[0]), ops);
    Pending.RunsStayConfigured(states, ops, |ops|, own, files, order);
  }

  lemma ParsedIsFiled(b: System, op: Op)
    requires IsConfigured(b)
    ensures AreFiled(b.configs) && AreFiled(PendingAfter(b, op))
  {
    forall c, e | e in b.configs.At(c) ensures e.category == c {
      assert e in b.configs.At(c) + b.updates.At(c);
    }
    forall c ensures forall e <- PendingAfter(b, op).At(c) :: e.category == c {
      if Pending.BringsPlugins(b, op) {
        UpdatesCategory(b, op, c);
      } else {
        assert forall e <- b.updates.At(c) :: e in b.configs.At(c) + b.updates.At(c);
      }
    }
  }

  /** From the start of the program, in every interleaving: an idle receiver takes any operation; and while one is
      under way, some action other than the arrival of a tick or the start of the starter can happen, unless the
      executor has indexed out of range. */
  lemma NeverStuck(worlds: seq<World>, moves: seq<Move>, n: nat,
                   own: string, files: map<string, File>, order: seq<string>)
    requires IsWorldRun(worlds, moves) && n < |worlds| && !worlds[n].s.executor.Crashed?
    requires Visits(order, files) && SystemOf(worlds[0]) == Pending.Started(own, files, order)
    ensures worlds[n].s.receiver.Idle? ==> forall op :: Advance(worlds[n], Receive(op)).Some?
    ensures !worlds[n].s.receiver.Idle? ==>
      exists a :: a != TickArrives && a != StarterLocks && Advance(worlds[n], Act(a)).Some?
  {
    var w := worlds[n];
    WorldInv(worlds, moves, n);
    RunPrepares(worlds, moves, n);
    if !w.s.receiver.Idle? {
      BeforeIsConfigured(worlds, moves, n, own, files, order);
      ParsedIsFiled(w.before, w.op);
      var a := UnderWayGoesOn(w);
      assert GoesOn(w, a);
    }
  }
}
