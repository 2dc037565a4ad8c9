/** The hand-over between the receiver goroutine, which prepares batches, and the executor goroutine, which installs
    them and runs the ticks, with a third goroutine collecting once at start. Every step is one atomic action of one
    of them. */
module Handshake {
  import opened Text
  import opened PluginSwap
  import opened PluginRuns

  datatype Signal = Replace | Remove

  datatype Receiver = Idle | Preparing(signal: Signal) | Sending(signal: Signal) | Awaiting(signal: Signal)

  /** Swapping and Ticking count the categories already visited; both hold the lock. */
  datatype Executor =
    | Resting
    | Taken(signal: Signal)
    | Swapping(signal: Signal, done: nat)
    | SwapConfig(signal: Signal)
    | Finishing
    | TickDue
    | Ticking(seen: seq<seq<Plugin>>)
    | Crashed

  datatype Starter = NotYet | Collecting | Read(inputs: seq<Plugin>) | Done(all: seq<Plugin>)

  datatype Holder = Free | ByExecutor | ByStarter

  datatype Batch = Batch(updates: PerCategory<seq<Plugin>>, entries: PerCategory<seq<PluginConfig>>)

  /** ready and finish are the two one-slot channels. cache is what the receiver prepared; sent, version and
      atStart are recorded for the statements below: the batch at the last send, the lists after the last whole swap,
      and the lists when the starter took the lock. */
  datatype State = State(
    receiver: Receiver,
    executor: Executor,
    starter: Starter,
    ready: seq<Signal>,
    finish: nat,
    lock: Holder,
    lists: PerCategory<seq<Plugin>>,
    cache: Batch,
    sent: Batch,
    version: PerCategory<seq<Plugin>>,
    atStart: PerCategory<seq<Plugin>>)

  const NO_BATCH := Batch(PerCategory([], [], [], []), NO_CONFIGS)

  function Initial(lists: PerCategory<seq<Plugin>>): State {
    State(Idle, Resting, NotYet, [], 0, Free, lists, NO_BATCH, NO_BATCH, lists, lists)
  }

  const SLOTS := 1

  function CategoryAt(i: nat): Category
    requires i < 4
  {
    if i == 0 then Input else if i == 1 then Processor else if i == 2 then Aggregator else Output
  }

  /** One category's list after the swap the signal asks for. */
  function SwappedList(signal: Signal, list: seq<Plugin>, batch: Batch, c: Category): Option<seq<Plugin>> {
    match signal
    case Replace => Replaced(list, batch.updates.At(c))
    case Remove => Removed(list, batch.entries.At(c), SameHash)
  }

  datatype Action =
    | Begin(signal: Signal)
    | AddUpdate(plugin: Plugin)
    | AddEntry(entry: PluginConfig)
    | Abandon
    | Prepared
    | Send
    | Await
    | TakeSignal
    | LockForSwap
    | SwapNext
    | UnlockSwap
    | InstallConfig
    | SendFinish
    | TickArrives
    | LockForTick
    | TickNext
    | UnlockTick
    | StarterLocks
    | StarterReads
    | StarterUnlocks

  /** The receiver's actions; None when not enabled. A send blocks on a full channel, a receive on an empty one. */
  function ReceiverStep(s: State, a: Action): Option<State> {
    match a
    case Begin(signal) => if s.receiver.Idle? then Some(s.(receiver := Preparing(signal))) else None
    case AddUpdate(p) =>
      if s.receiver == Preparing(Replace) then
        var c := p.category;
        Some(s.(cache := s.cache.(updates := s.cache.updates.With(c, s.cache.updates.At(c) + [p]))))
      else None
    case AddEntry(e) =>
      if s.receiver == Preparing(Remove) then
        var c := e.category;
        Some(s.(cache := s.cache.(entries := s.cache.entries.With(c, s.cache.entries.At(c) + [e]))))
      else None
    case Abandon => // nothing to load, or a load failed: the loaded part is dropped
      if s.receiver == Preparing(Replace) then Some(s.(receiver := Idle, cache := NO_BATCH)) else None
    case Prepared =>
      if s.receiver.Preparing? then Some(s.(receiver := Sending(s.receiver.signal), sent := s.cache)) else None
    case Send =>
      if s.receiver.Sending? && |s.ready| < SLOTS
      then Some(s.(receiver := Awaiting(s.receiver.signal), ready := s.ready + [s.receiver.signal])) else None
    case Await =>
      if s.receiver.Awaiting? && s.finish > 0 then Some(s.(receiver := Idle, finish := s.finish - 1)) else None
    case _ => None
  }

  /** The executor's actions. */
  function ExecutorStep(s: State, a: Action): Option<State> {
    match a
    case TakeSignal =>
      if s.executor.Resting? && |s.ready| > 0 then Some(s.(executor := Taken(s.ready[0]), ready := s.ready[1..]))
      else None
    case LockForSwap =>
      if s.executor.Taken? && s.lock.Free? then Some(s.(executor := Swapping(s.executor.signal, 0), lock := ByExecutor))
      else None
    case SwapNext =>
      if s.executor.Swapping? && s.executor.done < 4 then
        var signal, c := s.executor.signal, CategoryAt(s.executor.done);
        match SwappedList(signal, s.lists.At(c), s.cache, c)
        case None => Some(s.(executor := Crashed))
        case Some(list) =>
          Some(s.(executor := Swapping(signal, s.executor.done + 1), lists := s.lists.With(c, list),
                  cache := if signal.Replace? then s.cache.(updates := s.cache.updates.With(c, [])) else s.cache))
      else None
    case UnlockSwap =>
      if s.executor.Swapping? && s.executor.done == 4
      then Some(s.(executor := SwapConfig(s.executor.signal), lock := Free, version := s.lists)) else None
    case InstallConfig => // the deletion cache is emptied; an installed update moves to the running configuration
      if s.executor.SwapConfig?
      then Some(s.(executor := Finishing,
                   cache := if s.executor.signal.Remove? then s.cache.(entries := NO_CONFIGS) else s.cache))
      else None
    case SendFinish =>
      if s.executor.Finishing? && s.finish < SLOTS then Some(s.(executor := Resting, finish := s.finish + 1)) else None
    case TickArrives => if s.executor.Resting? then Some(s.(executor := TickDue)) else None
    case LockForTick =>
      if s.executor.TickDue? && s.lock.Free? then Some(s.(executor := Ticking([]), lock := ByExecutor)) else None
    case TickNext =>
      if s.executor.Ticking? && |s.executor.seen| < 4
      then Some(s.(executor := Ticking(s.executor.seen + [s.lists.At(CategoryAt(|s.executor.seen|))]))) else None
    case UnlockTick =>
      if s.executor.Ticking? && |s.executor.seen| == 4 then Some(s.(executor := Resting, lock := Free)) else None
    case _ => None
  }

  function StarterStep(s: State, a: Action): Option<State> {
    match a
    case StarterLocks =>
      if s.starter.NotYet? && s.lock.Free? then Some(s.(starter := Collecting, lock := ByStarter, atStart := s.lists))
      else None
    case StarterReads => if s.starter.Collecting? then Some(s.(starter := Read(s.lists.input))) else None
    case StarterUnlocks => if s.starter.Read? then Some(s.(starter := Done(s.starter.inputs), lock := Free)) else None
    case _ => None
  }

  function Next(s: State, a: Action): Option<State> {
    if ReceiverStep(s, a).Some? then ReceiverStep(s, a)
    else if ExecutorStep(s, a).Some? then ExecutorStep(s, a)
    else StarterStep(s, a)
  }

  // ---------- the invariant ----------

  predicate IsHandling(e: Executor) {
    e.Taken? || e.Swapping? || e.SwapConfig? || e.Finishing? || e.Crashed?
  }

  /** One token circulates while the receiver waits, none otherwise. */
  predicate TokenInv(s: State) {
    |s.ready| + (if IsHandling(s.executor) then 1 else 0) + s.finish == if s.receiver.Awaiting? then 1 else 0
  }

  predicate SignalInv(s: State) {
    && (forall signal <- s.ready :: s.receiver == Awaiting(signal))
    && (s.executor.Taken? || s.executor.Swapping? || s.executor.SwapConfig? ==>
          s.receiver == Awaiting(s.executor.signal))
  }

  predicate LockInv(s: State) {
    && (s.lock.ByExecutor? <==> s.executor.Swapping? || s.executor.Ticking? || s.executor.Crashed?)
    && (s.lock.ByStarter? <==> s.starter.Collecting? || s.starter.Read?)
  }

  /** Outside a swap the lists are those after the last whole swap; inside one, the visited categories are swapped. */
  predicate ListInv(s: State) {
    match s.executor
    case Swapping(signal, done) =>
      && done <= 4
      && (forall i | 0 <= i < done ::
          Some(s.lists.At(CategoryAt(i))) == SwappedList(signal, s.version.At(CategoryAt(i)), s.sent, CategoryAt(i)))
      && (forall i | done <= i < 4 :: s.lists.At(CategoryAt(i)) == s.version.At(CategoryAt(i)))
    case Crashed => true
    case _ => s.lists == s.version
  }

  /** From the send until the swap, the prepared batch is the one that was sent. */
  predicate CacheInv(s: State) {
    && (s.receiver.Idle? ==> s.cache == NO_BATCH)
    && (s.receiver.Preparing? ==>
      if s.receiver.signal.Replace? then s.cache.entries == NO_CONFIGS else s.cache.updates == NO_BATCH.updates)
    && (s.receiver.Sending? || |s.ready| > 0 || s.executor.Taken? ==> s.cache == s.sent)
    && (s.receiver.Sending? || s.receiver.Awaiting? ==>
      if s.receiver.signal.Replace? then s.cache.entries == NO_CONFIGS else s.cache.updates == NO_BATCH.updates)
    && (s.executor.Swapping? ==>
      match s.executor.signal
      case Remove => s.cache == s.sent
      case Replace => forall i | 0 <= i < 4 ::
        s.cache.updates.At(CategoryAt(i)) == if i < s.executor.done then [] else s.sent.updates.At(CategoryAt(i)))
    && (s.executor.SwapConfig? && s.executor.signal.Replace? ==> s.cache.updates == NO_BATCH.updates)
    && (s.executor.Finishing? || s.finish > 0 ==> s.cache == NO_BATCH)
  }

  /** What a tick or the starter has read so far are the lists of one version. */
  predicate ReadInv(s: State) {
    && (s.executor.Ticking? ==>
      (|s.executor.seen| <= 4 && forall i | 0 <= i < |s.executor.seen| ::
          s.executor.seen[i] == s.version.At(CategoryAt(i))))
    && (s.starter.Collecting? || s.starter.Read? ==> s.atStart == s.version)
    && (s.starter.Read? ==> s.starter.inputs == s.atStart.input)
    && (s.starter.Done? ==> s.starter.all == s.atStart.input)
  }

  predicate Inv(s: State) {
    TokenInv(s) && SignalInv(s) && LockInv(s) && ListInv(s) && CacheInv(s) && ReadInv(s)
  }

  lemma InitialInv(lists: PerCategory<seq<Plugin>>)
    ensures Inv(Initial(lists))
  {
  }

  lemma ReceiverKeepsInv(s: State, a: Action)
    requires Inv(s) && ReceiverStep(s, a).Some?
    ensures Inv(ReceiverStep(s, a).value)
  {
  }

  lemma SwapKeepsLists(s: State)
    requires Inv(s) && ExecutorStep(s, SwapNext).Some?
    ensures ListInv(ExecutorStep(s, SwapNext).value)
  {
  }

  lemma SwapKeepsCache(s: State)
    requires Inv(s) && ExecutorStep(s, SwapNext).Some?
    ensures CacheInv(ExecutorStep(s, SwapNext).value)
  {
  }

  lemma SwapKeepsInv(s: State)
    requires Inv(s) && ExecutorStep(s, SwapNext).Some?
    ensures Inv(ExecutorStep(s, SwapNext).value)
  {
    SwapKeepsLists(s);
    SwapKeepsCache(s);
  }

  lemma EveryCategory<T>(a: PerCategory<T>, b: PerCategory<T>)
    requires forall i | 0 <= i < 4 :: a.At(CategoryAt(i)) == b.At(CategoryAt(i))
    ensures a == b
  {
    assert a.At(CategoryAt(0)) == b.At(CategoryAt(0)) && a.At(CategoryAt(1)) == b.At(CategoryAt(1));
    assert a.At(CategoryAt(2)) == b.At(CategoryAt(2)) && a.At(CategoryAt(3)) == b.At(CategoryAt(3));
  }

  lemma UnlockKeepsInv(s: State)
    requires Inv(s) && ExecutorStep(s, UnlockSwap).Some?
    ensures Inv(ExecutorStep(s, UnlockSwap).value)
  {
    if s.executor.signal.Replace? {
      EveryCategory(s.cache.updates, NO_BATCH.updates);
    }
  }

  lemma ExecutorKeepsInv(s: State, a: Action)
    requires Inv(s) && ExecutorStep(s, a).Some?
    ensures Inv(ExecutorStep(s, a).value)
  {
    if a.SwapNext? {
      SwapKeepsInv(s);
    } else if a.UnlockSwap? {
      UnlockKeepsInv(s);
    }
  }

  lemma StarterKeepsInv(s: State, a: Action)
    requires Inv(s) && StarterStep(s, a).Some?
    ensures Inv(StarterStep(s, a).value)
  {
  }

  lemma NextKeepsInv(s: State, a: Action)
    requires Inv(s) && Next(s, a).Some?
    ensures Inv(Next(s, a).value)
  {
    if ReceiverStep(s, a).Some? {
      ReceiverKeepsInv(s, a);
    } else if ExecutorStep(s, a).Some? {
      ExecutorKeepsInv(s, a);
    } else {
      StarterKeepsInv(s, a);
    }
  }

  // ---------- main results, over every interleaving ----------

  /** Any interleaving of the three goroutines' steps. */
  ghost predicate IsRun(states: seq<State>, actions: seq<Action>) {
    && |states| == |actions| + 1
    && (exists lists :: states[0] == Initial(lists))
    && forall i | 0 <= i < |actions| :: Next(states[i], actions[i]) == Some(states[i + 1])
  }

  lemma {:induction false} RunInv(states: seq<State>, actions: seq<Action>, i: nat)
    requires IsRun(states, actions) && i < |states|
    ensures Inv(states[i])
  {
    if i == 0 {
      var lists :| states[0] == Initial(lists);
      InitialInv(lists);
    } else {
      RunInv(states, actions, i - 1);
      assert Next(states[i - 1], actions[i - 1]) == Some(states[i - 1 + 1]);
      NextKeepsInv(states[i - 1], actions[i - 1]);
    }
  }

  /** In every reachable state exactly one token circulates while the receiver waits and none otherwise;
      so no send finds its channel full, and the receiver never prepares a batch while the executor handles one. */
  lemma HandshakeIsSafe(states: seq<State>, actions: seq<Action>, i: nat)
    requires IsRun(states, actions) && i < |states|
    ensures TokenInv(states[i])
    ensures states[i].receiver.Sending? ==> Next(states[i], Send).Some?
    ensures states[i].executor.Finishing? ==> Next(states[i], SendFinish).Some?
    ensures states[i].receiver.Preparing? ==> !IsHandling(states[i].executor)
    ensures states[i].receiver.Idle? ==> states[i].cache == NO_BATCH
  {
    RunInv(states, actions, i);
  }

  /** A tick that completes has read all four lists of one version, and so has the first collection of the inputs. */
  lemma TicksSeeWholeVersions(states: seq<State>, actions: seq<Action>, i: nat)
    requires IsRun(states, actions) && i < |actions|
    ensures actions[i] == UnlockTick ==>
      var v := states[i].version;
      states[i].executor == Ticking([v.input, v.processor, v.aggregator, v.output])
    ensures actions[i] == StarterUnlocks ==> states[i + 1].starter.all == states[i].version.input
  {
    RunInv(states, actions, i);
    var s := states[i];
    assert Next(s, actions[i]) == Some(states[i + 1]);
    if actions[i] == UnlockTick {
      var v := s.version;
      assert s.executor.seen[0] == v.At(CategoryAt(0)) && s.executor.seen[1] == v.At(CategoryAt(1));
      assert s.executor.seen[2] == v.At(CategoryAt(2)) && s.executor.seen[3] == v.At(CategoryAt(3));
    }
  }

  /** The interleaved program refines atomic swaps: the version changes only when a swap completes, and then it is the
      sent batch applied to the old version as a whole; what is sent is what was prepared. */
  lemma SwapsAreAtomic(states: seq<State>, actions: seq<Action>, i: nat)
    requires IsRun(states, actions) && i < |actions|
    ensures actions[i] != UnlockSwap ==> states[i + 1].version == states[i].version
    ensures actions[i] == UnlockSwap ==>
      states[i].executor.Swapping?
      && forall k | 0 <= k < 4 :: Some(states[i + 1].version.At(CategoryAt(k))) ==
           SwappedList(states[i].executor.signal, states[i].version.At(CategoryAt(k)), states[i].sent, CategoryAt(k))
    ensures actions[i] == Prepared ==> states[i + 1].sent == states[i].cache
    ensures actions[i] != Prepared ==> states[i + 1].sent == states[i].sent
  {
    RunInv(states, actions, i);
    assert Next(states[i], actions[i]) == Some(states[i + 1]);
  }

  lemma HandoverGoesOn(s: State) returns (a: Action)
    requires Inv(s) && s.receiver.Awaiting? && !s.executor.Crashed?
    ensures a != TickArrives && a != StarterLocks && Next(s, a).Some?
  {
    a :=
      if s.finish > 0 then Await
      else if s.starter.Collecting? then StarterReads
      else if s.starter.Read? then StarterUnlocks
      else match s.executor
        case Resting => TakeSignal
        case Taken(_) => LockForSwap
        case Swapping(_, done) => if done < 4 then SwapNext else UnlockSwap
        case SwapConfig(_) => InstallConfig
        case Finishing => SendFinish
        case TickDue => LockForTick
        case Ticking(seen) => if |seen| < 4 then TickNext else UnlockTick
        case Crashed => Await;
  }

  /** The hand-over is never stuck: while the receiver waits, one of the steps that complete it is enabled,
      or the goroutine holding the lock can go on. */
  lemma HandoverEnabled(states: seq<State>, actions: seq<Action>, i: nat)
    requires IsRun(states, actions) && i < |states|
    requires states[i].receiver.Awaiting? && !states[i].executor.Crashed?
    ensures exists a :: a != TickArrives && a != StarterLocks && Next(states[i], a).Some?
  {
    RunInv(states, actions, i);
    var a := HandoverGoesOn(states[i]);
  }
}
