/** The hand-over carrying real updates and deletions: what the goroutines do in any interleaving is a run of whole
    updates and deletions, seen whenever the receiver is idle. */
module HandshakeRuns {
  import opened Text
  import opened PluginSwap
  import opened PluginRuns
  import opened Handshake
  import Pending = PluginPending

  /** The hand-over with the receiver's configuration sets. op is the operation last received, before the state when
      it came and after what the operation as a whole makes of it; received are all operations so far. These are
      recorded for the statements below. */
  datatype World = World(
    s: State,
    hashes: set<string>,
    configs: PerCategory<seq<PluginConfig>>,
    pending: PerCategory<seq<PluginConfig>>,
    op: Op,
    before: System,
    after: Option<System>,
    received: seq<Op>)

  datatype Move = Receive(op: Op) | Act(action: Action)

  // ---------- what one operation asks for ----------

  function SignalOf(op: Op): Signal {
    if op.Update? then Replace else Remove
  }

  function HashesAfter(s: System, op: Op): set<string> {
    match op
    case Update(files, _, _) => s.hashes + files.Keys
    case Delete(hashList) => s.hashes - (set h <- hashList)
  }

  /** The pending entries once the files are parsed. */
  function PendingAfter(s: System, op: Op): PerCategory<seq<PluginConfig>> {
    if Pending.BringsPlugins(s, op) then Joined(s.updates, Pending.ParsedBy(s, op)) else s.updates
  }

  function Loaded(entries: PerCategory<seq<PluginConfig>>): PerCategory<seq<Plugin>> {
    PerCategory(Instances(entries.input), Instances(entries.processor),
                Instances(entries.aggregator), Instances(entries.output))
  }

  function Listed(configs: PerCategory<seq<PluginConfig>>, hashList: seq<string>): PerCategory<seq<PluginConfig>> {
    PerCategory(CheckedOut(configs.input, hashList), CheckedOut(configs.processor, hashList),
                CheckedOut(configs.aggregator, hashList), CheckedOut(configs.output, hashList))
  }

  /** What is to be prepared for an operation. */
  function Wanted(op: Op, configs: PerCategory<seq<PluginConfig>>, pending: PerCategory<seq<PluginConfig>>): Batch {
    match op
    case Update(_, _, _) => Batch(Loaded(pending), NO_CONFIGS)
    case Delete(hashList) => Batch(NO_BATCH.updates, Listed(configs, hashList))
  }

  /** The operation reaches the executor. */
  predicate IsSent(s: System, op: Op) {
    op.Delete? || Pending.Installs(s, op)
  }

  // ---------- the steps ----------

  predicate IsNext<T(==)>(have: seq<T>, all: seq<T>, x: T) {
    |have| < |all| && all[|have|] == x
  }

  /** The receiver loads the pending entries and checks the listed ones out, in order; it gives up when no file is a
      new plugin or an entry does not load, and goes on when all are prepared. All other actions are as before. */
  predicate MayAct(w: World, a: Action) {
    match a
    case Begin(_) => false
    case AddUpdate(p) =>
      && Pending.BringsPlugins(w.before, w.op) && p.hash !in w.op.bad
      && IsNext(w.s.cache.updates.At(p.category), Loaded(w.pending).At(p.category), p)
    case AddEntry(e) =>
      w.op.Delete? && IsNext(w.s.cache.entries.At(e.category), Listed(w.configs, w.op.hashList).At(e.category), e)
    case Abandon => w.op.Update? && !(Pending.BringsPlugins(w.before, w.op) && Loads(w.pending, w.op.bad))
    case Prepared =>
      && (w.op.Update? ==> Pending.BringsPlugins(w.before, w.op))
      && w.s.cache == Wanted(w.op, w.configs, w.pending)
    case _ => true
  }

  /** The state as a run of whole operations knows it. */
  function SystemOf(w: World): System {
    System(w.hashes, w.configs, w.pending, w.s.version)
  }

  predicate IsInstall(w: World, a: Action) {
    a.InstallConfig? && w.s.executor == SwapConfig(Replace)
  }

  function Advance(w: World, m: Move): Option<World> {
    match m
    case Receive(op) =>
      (match Next(w.s, Begin(SignalOf(op)))
       case None => None
       case Some(s) =>
         var now := SystemOf(w);
         Some(World(s, HashesAfter(now, op), w.configs, PendingAfter(now, op), op, now, Step(now, op),
                    w.received + [op])))
    case Act(a) =>
      if !MayAct(w, a) then None
      else match Next(w.s, a)
        case None => None
        case Some(s) =>
          if IsInstall(w, a) then Some(w.(s := s, configs := Joined(w.configs, w.pending), pending := NO_CONFIGS))
          else Some(w.(s := s))
  }

  // ---------- whole operations, one after another ----------

  function After(s: System, ops: seq<Op>): Option<System> {
    if |ops| == 0 then Some(s)
    else match After(s, ops[..|ops| - 1])
      case None => None
      case Some(u) => Step(u, ops[|ops| - 1])
  }

  // ---------- what one operation does, as a step ----------

  lemma StepInstalls(b: System, op: Op)
    requires op.Update? && Pending.Installs(b, op)
    ensures Step(b, op) == match ReplacedAll(b.plugins, PendingAfter(b, op))
      case None => None
      case Some(plugins) =>
        Some(System(HashesAfter(b, op), Joined(b.configs, PendingAfter(b, op)), NO_CONFIGS, plugins))
  {
  }

  lemma StepGivesUp(b: System, op: Op)
    requires op.Update? && !Pending.Installs(b, op)
    ensures Step(b, op) == Some(System(HashesAfter(b, op), b.configs, PendingAfter(b, op), b.plugins))
  {
  }

  lemma StepDeletes(b: System, op: Op)
    requires op.Delete?
    ensures Step(b, op) == match RemovedAll(b.plugins, b.configs, op.hashList)
      case None => None
      case Some(plugins) => Some(System(HashesAfter(b, op), b.configs, PendingAfter(b, op), plugins))
  {
  }

  /** The batch prepared for an operation received in state b. */
  function BatchOf(b: System, op: Op): Batch {
    Wanted(op, b.configs, PendingAfter(b, op))
  }

  lemma BatchAt(b: System, op: Op, c: Category)
    ensures op.Update? ==> BatchOf(b, op).updates.At(c) == Instances(PendingAfter(b, op).At(c))
    ensures op.Delete? ==> BatchOf(b, op).entries.At(c) == CheckedOut(b.configs.At(c), op.hashList)
  {
  }

  lemma ReplacedTogether(plugins: PerCategory<seq<Plugin>>, updates: PerCategory<seq<PluginConfig>>,
                         lists: PerCategory<seq<Plugin>>)
    requires forall c :: Replaced(plugins.At(c), Instances(updates.At(c))) == Some(lists.At(c))
    ensures ReplacedAll(plugins, updates) == Some(lists)
  {
    ReplacedEach(plugins, updates);
    forall c ensures ReplacedAll(plugins, updates).value.At(c) == lists.At(c) {
      ReplacedAllAt(plugins, updates, c);
    }
    SameSlots(ReplacedAll(plugins, updates).value, lists);
  }

  lemma RemovedTogether(plugins: PerCategory<seq<Plugin>>, configs: PerCategory<seq<PluginConfig>>,
                        hashList: seq<string>, lists: PerCategory<seq<Plugin>>)
    requires forall c :: Removed(plugins.At(c), CheckedOut(configs.At(c), hashList), SameHash) == Some(lists.At(c))
    ensures RemovedAll(plugins, configs, hashList) == Some(lists)
  {
    RemovedEach(plugins, configs, hashList);
    forall c ensures RemovedAll(plugins, configs, hashList).value.At(c) == lists.At(c) {
      RemovedAllAt(plugins, configs, hashList, c);
    }
    SameSlots(RemovedAll(plugins, configs, hashList).value, lists);
  }

  lemma SameSlots<T>(a: PerCategory<T>, b: PerCategory<T>)
    requires forall c :: a.At(c) == b.At(c)
    ensures a == b
  {
    assert a.At(Input) == b.At(Input) && a.At(Processor) == b.At(Processor);
    assert a.At(Aggregator) == b.At(Aggregator) && a.At(Output) == b.At(Output);
  }

  predicate IsSwapped(b: System, op: Op, lists: PerCategory<seq<Plugin>>, c: Category) {
    SwappedList(SignalOf(op), b.plugins.At(c), BatchOf(b, op), c) == Some(lists.At(c))
  }

  /** The running entries once the operation is installed. */
  function ConfigsAfter(b: System, op: Op): PerCategory<seq<PluginConfig>> {
    if op.Update? then Joined(b.configs, PendingAfter(b, op)) else b.configs
  }

  /** Four swaps of the prepared batch are one step. */
  lemma SwapsMakeStep(b: System, op: Op, lists: PerCategory<seq<Plugin>>)
    requires IsSent(b, op) && forall c :: IsSwapped(b, op, lists, c)
    ensures Step(b, op) == Some(System(
      HashesAfter(b, op), ConfigsAfter(b, op),
      if op.Update? then NO_CONFIGS else PendingAfter(b, op), lists))
  {
    if op.Update? {
      forall c ensures Replaced(b.plugins.At(c), Instances(PendingAfter(b, op).At(c))) == Some(lists.At(c)) {
        assert IsSwapped(b, op, lists, c);
        BatchAt(b, op, c);
      }
      ReplacedTogether(b.plugins, PendingAfter(b, op), lists);
      StepInstalls(b, op);
    } else {
      forall c
        ensures Removed(b.plugins.At(c), CheckedOut(b.configs.At(c), op.hashList), SameHash) == Some(lists.At(c))
      {
        assert IsSwapped(b, op, lists, c);
        BatchAt(b, op, c);
      }
      RemovedTogether(b.plugins, b.configs, op.hashList, lists);
      StepDeletes(b, op);
    }
  }

  lemma NoneReplaced(plugins: PerCategory<seq<Plugin>>, updates: PerCategory<seq<PluginConfig>>, c: Category)
    requires Replaced(plugins.At(c), Instances(updates.At(c))) == None
    ensures ReplacedAll(plugins, updates) == None
  {
  }

  lemma NoneRemoved(plugins: PerCategory<seq<Plugin>>, configs: PerCategory<seq<PluginConfig>>, hashList: seq<string>,
                    c: Category)
    requires Removed(plugins.At(c), CheckedOut(configs.At(c), hashList), SameHash) == None
    ensures RemovedAll(plugins, configs, hashList) == None
  {
  }

  /** A swap that indexes out of range is a step that does. */
  lemma FailedSwapFailsStep(b: System, op: Op, c: Category)
    requires IsSent(b, op) && SwappedList(SignalOf(op), b.plugins.At(c), BatchOf(b, op), c) == None
    ensures Step(b, op) == None
  {
    BatchAt(b, op, c);
    if op.Update? {
      StepInstalls(b, op);
      NoneReplaced(b.plugins, PendingAfter(b, op), c);
    } else {
      StepDeletes(b, op);
      NoneRemoved(b.plugins, b.configs, op.hashList, c);
    }
  }

  /** Only entries that load are prepared, so a complete batch is one whose entries all load. */
  lemma PreparedLoads(entries: seq<PluginConfig>, bad: set<string>)
    requires forall p <- Instances(entries) :: p.hash !in bad
    ensures AllLoad(entries, bad)
  {
    forall e <- entries ensures e.hash !in bad {
      var i :| 0 <= i < |entries| && entries[i] == e;
      assert Instances(entries)[i] in Instances(entries);
    }
  }

  // ---------- the invariant ----------

  datatype Phase = Quiet | Loading | Waiting | Swapped | Finished

  function PhaseOf(s: State): Phase {
    if s.receiver.Idle? then Quiet
    else if s.receiver.Preparing? then Loading
    else if s.executor.Finishing? || s.finish > 0 then Finished
    else if s.executor.SwapConfig? then Swapped
    else Waiting
  }

  /** The operation is parsed, and nothing is swapped or installed yet. */
  predicate IsParsed(w: World) {
    && w.hashes == HashesAfter(w.before, w.op)
    && w.configs == w.before.configs
    && w.pending == PendingAfter(w.before, w.op)
    && !w.s.receiver.Idle? && w.s.receiver.signal == SignalOf(w.op)
  }

  predicate AreGood(updates: PerCategory<seq<Plugin>>, bad: set<string>) {
    forall c :: forall p <- updates.At(c) :: p.hash !in bad
  }

  /** How far the operation under way has come. */
  predicate Link(w: World) {
    match PhaseOf(w.s)
    case Quiet => true
    case Loading =>
      IsParsed(w) && w.s.version == w.before.plugins && (w.op.Update? ==> AreGood(w.s.cache.updates, w.op.bad))
    case Waiting =>
      && IsParsed(w) && w.s.version == w.before.plugins && w.s.sent == BatchOf(w.before, w.op)
      && IsSent(w.before, w.op) && (w.s.executor.Crashed? ==> w.after == None)
    case Swapped =>
      && IsParsed(w)
      && w.after ==
         if w.op.Update? then Some(System(w.hashes, Joined(w.configs, w.pending), NO_CONFIGS, w.s.version))
         else Some(SystemOf(w))
    case Finished => w.after == Some(SystemOf(w))
  }

  predicate IsRecorded(w: World) {
    !w.s.receiver.Idle? ==> w.after == Step(w.before, w.op)
  }

  lemma ReceiveLinks(w: World, op: Op)
    requires Inv(w.s) && Advance(w, Receive(op)).Some?
    ensures Link(Advance(w, Receive(op)).value)
  {
  }

  lemma AddLinks(w: World, p: Plugin)
    requires Inv(w.s) && Link(w) && Advance(w, Act(AddUpdate(p))).Some?
    ensures Link(Advance(w, Act(AddUpdate(p))).value)
  {
  }

  lemma PreparedLinks(w: World)
    requires Inv(w.s) && Link(w) && Advance(w, Act(Prepared)).Some?
    ensures Link(Advance(w, Act(Prepared)).value)
  {
    if w.op.Update? {
      assert AreGood(Loaded(w.pending), w.op.bad);
      forall c ensures AllLoad(w.pending.At(c), w.op.bad) {
        assert Loaded(w.pending).At(c) == Instances(w.pending.At(c));
        PreparedLoads(w.pending.At(c), w.op.bad);
      }
      Pending.LoadsAt(w.pending, w.op.bad);
    }
  }

  /** The slot about to be swapped is that of the sent batch. */
  lemma SameBatchSlot(s: State, c: Category)
    requires Inv(s) && s.executor.Swapping? && s.executor.done < 4 && c == CategoryAt(s.executor.done)
    ensures SwappedList(s.executor.signal, s.lists.At(c), s.cache, c) ==
            SwappedList(s.executor.signal, s.version.At(c), s.sent, c)
  {
  }

  /** What a passing action leaves alone, as far as the operation under way is concerned. */
  predicate IsSamePhase(s: State, u: State) {
    && PhaseOf(u) == PhaseOf(s) && u.version == s.version && u.sent == s.sent
    && (s.receiver.Preparing? ==> u.cache.updates == s.cache.updates) && u.executor.Crashed? == s.executor.Crashed?
    && u.receiver.Idle? == s.receiver.Idle? && (!s.receiver.Idle? ==> u.receiver.signal == s.receiver.signal)
  }

  lemma SamePhaseLinks(w: World, u: State)
    requires Link(w) && IsSamePhase(w.s, u)
    ensures Link(w.(s := u))
  {
  }

  lemma SwapPasses(s: State)
    requires Inv(s) && Next(s, SwapNext).Some? && !Next(s, SwapNext).value.executor.Crashed?
    ensures IsSamePhase(s, Next(s, SwapNext).value)
  {
  }

  lemma CrashLinks(w: World)
    requires Inv(w.s) && Link(w) && IsRecorded(w) && w.s.executor.Swapping? && Next(w.s, SwapNext).Some?
    requires Next(w.s, SwapNext).value.executor.Crashed?
    ensures Link(w.(s := Next(w.s, SwapNext).value))
  {
    CrashSlot(w);
    FailedSwapFailsStep(w.before, w.op, CategoryAt(w.s.executor.done));
    CrashedLinks(w, Next(w.s, SwapNext).value);
  }

  lemma CrashSlot(w: World)
    requires Inv(w.s) && Link(w) && w.s.executor.Swapping? && Next(w.s, SwapNext).Some?
    requires Next(w.s, SwapNext).value.executor.Crashed?
    ensures w.s.executor.done < 4 && IsSent(w.before, w.op)
    ensures var c := CategoryAt(w.s.executor.done);
      SwappedList(SignalOf(w.op), w.before.plugins.At(c), BatchOf(w.before, w.op), c) == None
    ensures !w.s.receiver.Idle? && PhaseOf(w.s) == Waiting
    ensures Next(w.s, SwapNext).value == w.s.(executor := Crashed)
  {
    SameBatchSlot(w.s, CategoryAt(w.s.executor.done));
  }

  lemma CrashedLinks(w: World, u: State)
    requires Link(w) && PhaseOf(w.s) == Waiting && w.after == None && u == w.s.(executor := Crashed) && u.finish == 0
    ensures Link(w.(s := u))
  {
  }

  lemma SwapLinks(w: World)
    requires Inv(w.s) && Link(w) && IsRecorded(w) && Advance(w, Act(SwapNext)).Some?
    ensures Link(Advance(w, Act(SwapNext)).value)
  {
    var u := Next(w.s, SwapNext).value;
    if u.executor.Crashed? {
      CrashLinks(w);
    } else {
      SwapPasses(w.s);
      SamePhaseLinks(w, u);
    }
  }

  lemma UnlockLinks(w: World)
    requires Inv(w.s) && Link(w) && IsRecorded(w) && Advance(w, Act(UnlockSwap)).Some?
    ensures Link(Advance(w, Act(UnlockSwap)).value)
  {
    forall c ensures IsSwapped(w.before, w.op, w.s.lists, c) {
      var i := match c case Input => 0 case Processor => 1 case Aggregator => 2 case Output => 3;
      assert c == CategoryAt(i);
    }
    SwapsMakeStep(w.before, w.op, w.s.lists);
  }

  lemma InstallLinks(w: World)
    requires Inv(w.s) && Link(w) && Advance(w, Act(InstallConfig)).Some?
    ensures Link(Advance(w, Act(InstallConfig)).value)
  {
  }

  /** The actions that only pass the token on, or belong to a tick or to the starter. */
  predicate IsPassing(a: Action) {
    || a.Send? || a.TakeSignal? || a.LockForSwap? || a.SendFinish? || a.TickArrives? || a.LockForTick?
    || a.TickNext? || a.UnlockTick? || a.StarterLocks? || a.StarterReads? || a.StarterUnlocks? || a.AddEntry?
  }

  lemma PassingReceiver(s: State, a: Action)
    requires Inv(s) && (a.Send? || a.AddEntry?) && Next(s, a).Some?
    ensures IsSamePhase(s, Next(s, a).value)
  {
  }

  lemma PassingToken(s: State, a: Action)
    requires Inv(s) && (a.TakeSignal? || a.LockForSwap? || a.SendFinish?) && Next(s, a).Some?
    ensures IsSamePhase(s, Next(s, a).value)
  {
  }

  lemma PassingTick(s: State, a: Action)
    requires Inv(s) && IsPassing(a) && !a.Send? && !a.AddEntry? && !a.TakeSignal? && !a.LockForSwap? && !a.SendFinish?
    requires Next(s, a).Some?
    ensures IsSamePhase(s, Next(s, a).value)
  {
  }

  lemma PassingLinks(w: World, a: Action)
    requires Inv(w.s) && Link(w) && IsPassing(a) && Advance(w, Act(a)).Some?
    ensures Link(Advance(w, Act(a)).value)
  {
    if a.Send? || a.AddEntry? {
      PassingReceiver(w.s, a);
    } else if a.TakeSignal? || a.LockForSwap? || a.SendFinish? {
      PassingToken(w.s, a);
    } else {
      PassingTick(w.s, a);
    }
    SamePhaseLinks(w, Next(w.s, a).value);
  }

  lemma MoveLinks(w: World, m: Move)
    requires Inv(w.s) && Link(w) && IsRecorded(w) && Advance(w, m).Some?
    ensures Inv(Advance(w, m).value.s) && Link(Advance(w, m).value)
  {
    match m
    case Receive(op) =>
      NextKeepsInv(w.s, Begin(SignalOf(op)));
      ReceiveLinks(w, op);
    case Act(a) =>
      NextKeepsInv(w.s, a);
      match a
      case AddUpdate(p) => AddLinks(w, p);
      case Prepared => PreparedLinks(w);
      case SwapNext => SwapLinks(w);
      case UnlockSwap => UnlockLinks(w);
      case InstallConfig => InstallLinks(w);
      case Abandon =>
      case Await =>
      case _ => PassingLinks(w, a);
  }

  // ---------- main results, over every interleaving ----------

  ghost predicate IsStart(w: World) {
    w.received == [] && exists lists :: w.s == Initial(lists)
  }

  ghost predicate IsWorldRun(worlds: seq<World>, moves: seq<Move>) {
    && |worlds| == |moves| + 1
    && IsStart(worlds[0])
    && forall i | 0 <= i < |moves| :: Advance(worlds[i], moves[i]) == Some(worlds[i + 1])
  }

  /** Between operations the state is what the operations received so far make of the first state; during one,
      the state before it is. */
  predicate IsRefined(first: System, w: World) {
    var ops := w.received;
    if w.s.receiver.Idle? then After(first, ops) == Some(SystemOf(w))
    else
      && |ops| > 0 && ops[|ops| - 1] == w.op
      && After(first, ops[..|ops| - 1]) == Some(w.before) && After(first, ops) == w.after
  }

  lemma RefinedRecords(first: System, w: World)
    requires IsRefined(first, w)
    ensures IsRecorded(w)
  {
  }

  lemma RefinedReceive(first: System, w: World, op: Op)
    requires Inv(w.s) && IsRefined(first, w) && Advance(w, Receive(op)).Some?
    ensures IsRefined(first, Advance(w, Receive(op)).value)
  {
    assert (w.received + [op])[..|w.received|] == w.received;
  }

  /** An operation given up is a step that installs nothing. */
  lemma AbandonIsStep(w: World)
    requires Inv(w.s) && Link(w) && IsRecorded(w) && Advance(w, Act(Abandon)).Some?
    ensures w.after == Some(SystemOf(Advance(w, Act(Abandon)).value))
  {
    StepGivesUp(w.before, w.op);
  }

  lemma AwaitIsStep(w: World)
    requires Inv(w.s) && Link(w) && Advance(w, Act(Await)).Some?
    ensures w.after == Some(SystemOf(Advance(w, Act(Await)).value))
  {
    assert PhaseOf(w.s) == Finished;
  }

  lemma OnlyTheseEnd(w: World, a: Action)
    requires Inv(w.s) && Advance(w, Act(a)).Some? && !a.Abandon? && !a.Await?
    ensures var v := Advance(w, Act(a)).value;
      (v.s.receiver.Idle? <==> w.s.receiver.Idle?)
      && v.after == w.after && v.before == w.before && v.op == w.op && v.received == w.received
      && (w.s.receiver.Idle? ==> SystemOf(v) == SystemOf(w))
  {
  }

  lemma RefinedAct(first: System, w: World, a: Action)
    requires Inv(w.s) && Link(w) && IsRecorded(w) && IsRefined(first, w) && Advance(w, Act(a)).Some?
    ensures IsRefined(first, Advance(w, Act(a)).value)
  {
    if a.Abandon? {
      AbandonIsStep(w);
    } else if a.Await? {
      AwaitIsStep(w);
    } else {
      OnlyTheseEnd(w, a);
    }
  }

  lemma RefinedMove(first: System, w: World, m: Move)
    requires Inv(w.s) && Link(w) && IsRecorded(w) && IsRefined(first, w) && Advance(w, m).Some?
    ensures IsRefined(first, Advance(w, m).value)
  {
    match m
    case Receive(op) => RefinedReceive(first, w, op);
    case Act(a) => RefinedAct(first, w, a);
  }

  predicate WholeInv(first: System, w: World) {
    Inv(w.s) && Link(w) && IsRefined(first, w)
  }

  lemma WholeStart(w: World)
    requires IsStart(w)
    ensures WholeInv(SystemOf(w), w)
  {
    var lists :| w.s == Initial(lists);
    InitialInv(lists);
  }

  lemma WholeMove(first: System, w: World, m: Move, v: World)
    requires WholeInv(first, w) && Advance(w, m) == Some(v)
    ensures WholeInv(first, v)
  {
    RefinedRecords(first, w);
    MoveLinks(w, m);
    RefinedMove(first, w, m);
  }

  lemma WholeNext(worlds: seq<World>, moves: seq<Move>, n: nat)
    requires IsWorldRun(worlds, moves) && n < |moves| && WholeInv(SystemOf(worlds[0]), worlds[n])
    ensures WholeInv(SystemOf(worlds[0]), worlds[n + 1])
  {
    WholeMove(SystemOf(worlds[0]), worlds[n], moves[n], worlds[n + 1]);
  }

  lemma {:induction false} WorldInv(worlds: seq<World>, moves: seq<Move>, n: nat)
    requires IsWorldRun(worlds, moves) && n < |worlds|
    ensures WholeInv(SystemOf(worlds[0]), worlds[n])
  {
    if n == 0 {
      WholeStart(worlds[0]);
    } else {
      WorldInv(worlds, moves, n - 1);
      WholeNext(worlds, moves, n - 1);
    }
  }

  /** In every interleaving of the goroutines, the operations received make one run of whole steps. Whenever the
      receiver is idle, the register, the configuration sets and the lists are exactly the state that run has reached;
      while an operation is under way, the lists of the last whole swap are those before it or after it; and the
      executor has indexed out of range only if that run does. */
  lemma RefinesRuns(worlds: seq<World>, moves: seq<Move>, n: nat)
    requires IsWorldRun(worlds, moves) && n < |worlds|
    ensures var w, first, ops := worlds[n], SystemOf(worlds[0]), worlds[n].received;
      && (w.s.receiver.Idle? ==> After(first, ops) == Some(System(w.hashes, w.configs, w.pending, w.s.lists)))
      && (!w.s.receiver.Idle? ==>
            (|ops| > 0 && After(first, ops[..|ops| - 1]).Some?
             && (w.s.version == After(first, ops[..|ops| - 1]).value.plugins
                 || (After(first, ops).Some? && w.s.version == After(first, ops).value.plugins))))
      && (w.s.executor.Crashed? ==> After(first, ops) == None)
  {
    WorldInv(worlds, moves, n);
  }

  /** A tick that completes has run the four lists of one state of the run of whole operations: the one before the
      operation under way or the one after it, and the current one when none is under way. */
  lemma TicksSeeRunStates(worlds: seq<World>, moves: seq<Move>, n: nat)
    requires IsWorldRun(worlds, moves) && n < |moves| && moves[n] == Act(UnlockTick)
    ensures var first, ops := SystemOf(worlds[0]), worlds[n].received;
      exists k | |ops| - 1 <= k <= |ops| :: 0 <= k && SawStateAfter(worlds[n], first, ops[..k])
  {
    WorldInv(worlds, moves, n);
    var w, first, ops := worlds[n], SystemOf(worlds[0]), worlds[n].received;
    assert Advance(w, moves[n]) == Some(worlds[n + 1]);
    SeenLists(w.s);
    RefinesRuns(worlds, moves, n);
    assert ops[..|ops|] == ops;
    if w.s.receiver.Idle? || w.s.version != w.before.plugins {
      assert SawStateAfter(w, first, ops[..|ops|]);
    } else {
      assert SawStateAfter(w, first, ops[..|ops| - 1]);
    }
  }

  predicate SawStateAfter(w: World, first: System, ops: seq<Op>) {
    && After(first, ops).Some?
    && var v := After(first, ops).value.plugins;
       w.s.executor == Ticking([v.input, v.processor, v.aggregator, v.output])
  }

  lemma SeenLists(s: State)
    requires Inv(s) && Next(s, UnlockTick).Some?
    ensures var v := s.version; s.executor == Ticking([v.input, v.processor, v.aggregator, v.output])
  {
    var v := s.version;
    assert s.executor.seen[0] == v.At(CategoryAt(0)) && s.executor.seen[1] == v.At(CategoryAt(1));
    assert s.executor.seen[2] == v.At(CategoryAt(2)) && s.executor.seen[3] == v.At(CategoryAt(3));
  }

  // ---------- what runs of whole operations keep holds of every interleaving ----------

  /** A run of the operations from s to u. */
  ghost predicate Reaches(states: seq<System>, s: System, ops: seq<Op>, u: System) {
    Pending.IsRun(states, ops) && states[0] == s && states[|ops|] == u
  }

  lemma ReachMore(states: seq<System>, s: System, ops: seq<Op>, v: System, op: Op, u: System)
    requires Reaches(states, s, ops, v) && Step(v, op) == Some(u)
    ensures Reaches(states + [u], s, ops + [op], u)
  {
    forall i | 0 <= i < |ops| + 1
      ensures Step((states + [u])[i], (ops + [op])[i]) == Some((states + [u])[i + 1])
    {
      if i < |ops| {
        assert Step(states[i], ops[i]) == Some(states[i + 1]);
      }
    }
  }

  lemma {:induction false} RunReaches(s: System, ops: seq<Op>) returns (states: seq<System>)
    requires After(s, ops).Some?
    ensures Reaches(states, s, ops, After(s, ops).value)
  {
    if |ops| == 0 {
      states := [s];
    } else {
      var front, op := ops[..|ops| - 1], ops[|ops| - 1];
      var before := RunReaches(s, front);
      ReachMore(before, s, front, After(s, front).value, op, After(s, ops).value);
      assert ops == front + [op];
      states := before + [After(s, ops).value];
    }
  }

  /** From the start of the program, in every interleaving: whenever the receiver is idle, each plugin in the lists
      has a running configuration of its hash and category. */
  lemma AlwaysConfigured(worlds: seq<World>, moves: seq<Move>, n: nat,
                         own: string, files: map<string, File>, order: seq<string>)
    requires IsWorldRun(worlds, moves) && n < |worlds| && worlds[n].s.receiver.Idle?
    requires Visits(order, files) && SystemOf(worlds[0]) == Pending.Started(own, files, order)
    ensures var w := worlds[n]; IsConfigured(System(w.hashes, w.configs, w.pending, w.s.lists))
  {
    RefinesRuns(worlds, moves, n);
    var first, ops := SystemOf(worlds[0]), worlds[n].received;
    var states := RunReaches(first, ops);
    Pending.RunsStayConfigured(states, ops, |ops|, own, files, order);
  }

  /** No operation of the run brings a loaded or pending hash back or lists a hash twice. */
  ghost predicate AreFresh(first: System, ops: seq<Op>) {
    forall i | 0 <= i < |ops| && After(first, ops[..i]).Some? :: IsFreshOp(After(first, ops[..i]).value, ops[i])
  }

  lemma FrontIsFresh(first: System, ops: seq<Op>)
    requires AreFresh(first, ops) && |ops| > 0 && After(first, ops[..|ops| - 1]).Some?
    ensures AreFresh(first, ops[..|ops| - 1])
    ensures IsFreshOp(After(first, ops[..|ops| - 1]).value, ops[|ops| - 1])
  {
    var front := ops[..|ops| - 1];
    forall i | 0 <= i < |front| && After(first, front[..i]).Some?
      ensures IsFreshOp(After(first, front[..i]).value, front[i])
    {
      assert front[..i] == ops[..i];
    }
  }

  lemma {:induction false} OnceAfter(first: System, ops: seq<Op>)
    requires IsLoadedOnce(first) && AreFresh(first, ops) && After(first, ops).Some?
    ensures IsLoadedOnce(After(first, ops).value)
  {
    if |ops| > 0 {
      var front := ops[..|ops| - 1];
      FrontIsFresh(first, ops);
      OnceAfter(first, front);
      StepKeepsLoadedOnce(After(first, front).value, ops[|ops| - 1]);
    }
  }

  /** The step that a last deletion of a fresh run is. */
  lemma LastDeletion(first: System, ops: seq<Op>, c: Category, p: Plugin)
    requires IsLoadedOnce(first) && AreFresh(first, ops) && |ops| > 0 && ops[|ops| - 1].Delete?
    requires After(first, ops[..|ops| - 1]).Some?
    ensures After(first, ops).Some?
    ensures p in After(first, ops).value.plugins.At(c) <==>
            p in After(first, ops[..|ops| - 1]).value.plugins.At(c) && p.hash !in ops[|ops| - 1].hashList
  {
    var front, op := ops[..|ops| - 1], ops[|ops| - 1];
    FrontIsFresh(first, ops);
    OnceAfter(first, front);
    var before := After(first, front).value;
    DeletionRuns(before, op.hashList);
    DeletionIsEffective(before, op.hashList, c);
  }

  /** In every interleaving whose operations load no hash twice: a deletion never makes the executor index out of range,
      and from its end until the next operation comes no listed plugin is in the lists, and every other one still is. */
  lemma DeletionsTakeEffect(worlds: seq<World>, moves: seq<Move>, n: nat, c: Category, p: Plugin)
    requires IsWorldRun(worlds, moves) && n < |worlds|
    requires var first, ops := SystemOf(worlds[0]), worlds[n].received;
      IsLoadedOnce(first) && AreFresh(first, ops) && |ops| > 0 && ops[|ops| - 1].Delete?
    ensures !worlds[n].s.executor.Crashed?
    ensures worlds[n].s.receiver.Idle? ==>
      var first, ops := SystemOf(worlds[0]), worlds[n].received;
      After(first, ops[..|ops| - 1]).Some?
      && (p in worlds[n].s.lists.At(c) <==>
            p in After(first, ops[..|ops| - 1]).value.plugins.At(c) && p.hash !in ops[|ops| - 1].hashList)
  {
    RefinesRuns(worlds, moves, n);
    BeforeLast(worlds, moves, n);
    LastDeletion(SystemOf(worlds[0]), worlds[n].received, c, p);
  }

  lemma BeforeLast(worlds: seq<World>, moves: seq<Move>, n: nat)
    requires IsWorldRun(worlds, moves) && n < |worlds| && |worlds[n].received| > 0
    ensures var ops := worlds[n].received; After(SystemOf(worlds[0]), ops[..|ops| - 1]).Some?
  {
    WorldInv(worlds, moves, n);
  }
}
