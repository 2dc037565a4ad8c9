/** Store-and-forward reporting: a bounded queue, a sender that saves what it cannot deliver, a retrier that reads the
    saved reports one by one and then resends what it read, and a sweep that lists expired records and then deletes
    them one by one. Each action is one access of the bucket or the queue; they interleave freely. */
module Report {
  import opened Text

  /** A report, told apart from all others by its number. */
  type Report = nat

  datatype Outcome = Acknowledged | Rejected | Retry

  /** How an HTTP status is taken: 400 and 409 are dropped, 201 to 300 are done, all others are kept for a retry. */
  function Classify(status: int): Outcome {
    if status == 400 || status == 409 then Rejected
    else if status <= 200 || status > 300 then Retry
    else Acknowledged
  }

  lemma ClassifyCases(status: int)
    ensures Classify(status) == Acknowledged <==> 201 <= status <= 300
    ensures Classify(status) == Rejected <==> status in {400, 409}
    ensures Classify(200) == Retry
  {
  }

  datatype Sender = Idle | Sending(report: Report) | Saving(report: Report)

  /** keys are those listed and not yet read, read is what was read, rest is what is left of it to resend. */
  datatype Retrier =
    | Waiting
    | Reading(keys: set<int>, read: map<int, Report>)
    | Choosing(rest: map<int, Report>)
    | Resending(key: int, report: Report, rest: map<int, Report>)
    | Deleting(key: int, report: Report, rest: map<int, Report>)

  /** stored is the report bucket by save second; sweep holds the keys that the expiry has listed and not yet deleted,
      with the reports recorded there at that time. The four sets record what became of the reports;
      lost holds those whose record was overwritten or deleted in another's name. */
  datatype State = State(
    uploaded: set<Report>,
    queue: seq<Report>,
    sender: Sender,
    stored: map<int, Report>,
    retrier: Retrier,
    sweep: map<int, Report>,
    acknowledged: set<Report>,
    rejected: set<Report>,
    expired: set<Report>,
    lost: set<Report>,
    saveSeconds: set<int>)

  const QUEUE_SIZE := 10

  const INITIAL := State({}, [], Idle, map[], Waiting, map[], {}, {}, {}, {}, {})

  datatype Action =
    | Upload(report: Report)
    | Take
    | Sent(status: Option<int>)
    | Save(second: int)
    | ListSaved
    | ReadSaved(key: int)
    | StartRound
    | Pick(key: int)
    | Resent(status: Option<int>)
    | Delete
    | EndRound
    | ListExpired(deadline: int)
    | DropExpired(key: int)

  /** No answer at all is an error like any other. */
  function OutcomeOf(status: Option<int>): Outcome {
    match status
    case None => Retry
    case Some(code) => Classify(code)
  }

  predicate IsResolved(s: State, r: Report) {
    r in s.acknowledged || r in s.rejected
  }

  function Resolve(s: State, r: Report, o: Outcome): State {
    match o
    case Acknowledged => s.(acknowledged := s.acknowledged + {r})
    case Rejected => s.(rejected := s.rejected + {r})
    case Retry => s
  }

  function Step(s: State, a: Action): Option<State> {
    match a
    case Upload(r) =>
      if |s.queue| < QUEUE_SIZE && r !in s.uploaded
      then Some(s.(uploaded := s.uploaded + {r}, queue := s.queue + [r])) else None
    case Take =>
      if s.sender.Idle? && |s.queue| > 0 then Some(s.(sender := Sending(s.queue[0]), queue := s.queue[1..])) else None
    case Sent(status) =>
      if !s.sender.Sending? then None
      else
        var r, o := s.sender.report, OutcomeOf(status);
        Some(Resolve(s, r, o).(sender := if o.Retry? then Saving(r) else Idle))
    case Save(second) =>
      if !s.sender.Saving? then None
      else
        Some(s.(sender := Idle,
                stored := s.stored[second := s.sender.report],
                saveSeconds := s.saveSeconds + {second},
                lost := s.lost
                  + if second in s.stored && !IsResolved(s, s.stored[second]) then {s.stored[second]} else {}))
    case ListSaved =>
      if s.retrier.Waiting? then Some(s.(retrier := Reading(s.stored.Keys, map[]))) else None
    case ReadSaved(key) =>
      // a record that is gone by now is skipped
      if s.retrier.Reading? && key in s.retrier.keys then
        var read := if key in s.stored then s.retrier.read[key := s.stored[key]] else s.retrier.read;
        Some(s.(retrier := Reading(s.retrier.keys - {key}, read)))
      else None
    case StartRound =>
      // when nothing could be read there is no round
      if s.retrier.Reading? && s.retrier.keys == {}
      then Some(s.(retrier := if s.retrier.read == map[] then Waiting else Choosing(s.retrier.read))) else None
    case Pick(key) =>
      if s.retrier.Choosing? && key in s.retrier.rest
      then Some(s.(retrier := Resending(key, s.retrier.rest[key], s.retrier.rest - {key}))) else None
    case Resent(status) =>
      if !s.retrier.Resending? then None
      else
        var key, r, rest := s.retrier.key, s.retrier.report, s.retrier.rest;
        var o := OutcomeOf(status);
        Some(Resolve(s, r, o).(retrier := if o.Retry? then Choosing(rest) else Deleting(key, r, rest)))
    case Delete =>
      if !s.retrier.Deleting? then None
      else
        var key := s.retrier.key;
        Some(s.(retrier := Choosing(s.retrier.rest),
                stored := s.stored - {key},
                lost := s.lost + if key in s.stored && !IsResolved(s, s.stored[key]) then {s.stored[key]} else {}))
    case EndRound => if s.retrier.Choosing? && s.retrier.rest == map[] then Some(s.(retrier := Waiting)) else None
    case ListExpired(deadline) =>
      if s.sweep == map[] then Some(s.(sweep := map k | k in s.stored && 0 < k < deadline :: s.stored[k])) else None
    case DropExpired(key) =>
      if key !in s.sweep then None
      else
        var hit := if key in s.stored && !IsResolved(s, s.stored[key]) then {s.stored[key]} else {};
        var isListed := key in s.stored && s.stored[key] == s.sweep[key];
        Some(s.(sweep := s.sweep - {key},
                stored := s.stored - {key},
                expired := s.expired + if isListed then hit else {},
                lost := s.lost + if isListed then {} else hit))
  }

  // ---------- where a report is ----------

  predicate IsQueued(s: State, r: Report) { r in s.queue }
  predicate IsInFlight(s: State, r: Report) { !s.sender.Idle? && s.sender.report == r }
  predicate IsStored(s: State, r: Report) { (exists k | k in s.stored :: s.stored[k] == r) && !IsResolved(s, r) }
  predicate IsExpired(s: State, r: Report) { r in s.expired && !IsResolved(s, r) }
  predicate IsLost(s: State, r: Report) { r in s.lost && !IsResolved(s, r) }

  function AsNat(b: bool): nat { if b then 1 else 0 }

  /** In how many of the seven places the report is. */
  function Places(s: State, r: Report): nat {
    AsNat(IsQueued(s, r)) + AsNat(IsInFlight(s, r)) + AsNat(IsStored(s, r)) + AsNat(r in s.acknowledged)
    + AsNat(r in s.rejected) + AsNat(IsExpired(s, r)) + AsNat(IsLost(s, r))
  }

  /** The reports the retrier has read and not yet finished with. */
  function InSnapshot(s: State): map<int, Report> {
    match s.retrier
    case Waiting => map[]
    case Reading(keys, read) => read
    case Choosing(rest) => rest
    case Resending(key, r, rest) => rest[key := r]
    case Deleting(key, r, rest) => rest[key := r]
  }

  predicate NoDuplicates(s: State) {
    && (forall i, j :: 0 <= i < j < |s.queue| ==> s.queue[i] != s.queue[j])
    && (forall j, k | j in s.stored && k in s.stored && j != k :: s.stored[j] != s.stored[k])
    && (forall j, k | j in InSnapshot(s) && k in InSnapshot(s) && j != k :: InSnapshot(s)[j] != InSnapshot(s)[k])
  }

  /** A snapshot report was saved, is in neither the queue nor the sender's hands, and is unresolved until its turn. */
  predicate SnapshotInv(s: State) {
    && (forall k <- InSnapshot(s) ::
      var r := InSnapshot(s)[k];
      r in s.uploaded && !IsQueued(s, r) && !IsInFlight(s, r)
      && (forall j | j in s.stored && s.stored[j] == r :: j == k)
      && (IsResolved(s, r) <==> s.retrier.Deleting? && s.retrier.key == k))
    && (s.retrier.Resending? || s.retrier.Deleting? ==> s.retrier.key !in s.retrier.rest)
    && (s.retrier.Reading? ==> s.retrier.keys !! s.retrier.read.Keys)
    && (forall k <- s.stored :: IsResolved(s, s.stored[k]) ==> s.retrier.Deleting? && s.retrier.report == s.stored[k])
  }

  /** An uploaded report is in exactly one place, and nothing else is anywhere. */
  predicate InvAt(s: State, r: Report) {
    Places(s, r) == AsNat(r in s.uploaded)
  }

  predicate MapsInv(s: State) {
    NoDuplicates(s) && SnapshotInv(s)
  }

  ghost predicate Inv(s: State) {
    MapsInv(s) && forall r :: InvAt(s, r)
  }

  lemma InitialInv()
    ensures Inv(INITIAL)
  {
    assert forall r :: InvAt(INITIAL, r);
  }

  // ---------- the sender's side ----------

  lemma UploadMaps(s: State, r: Report)
    requires MapsInv(s) && InvAt(s, r) && Step(s, Upload(r)).Some?
    ensures MapsInv(Step(s, Upload(r)).value)
  {
  }

  lemma UploadPlaces(s: State, r: Report, x: Report)
    requires InvAt(s, x) && Step(s, Upload(r)).Some?
    ensures InvAt(Step(s, Upload(r)).value, x)
  {
  }

  lemma UploadKeepsInv(s: State, r: Report)
    requires Inv(s) && Step(s, Upload(r)).Some?
    ensures Inv(Step(s, Upload(r)).value)
  {
    assert InvAt(s, r);
    UploadMaps(s, r);
    forall x ensures InvAt(Step(s, Upload(r)).value, x) {
      UploadPlaces(s, r, x);
    }
  }

  /** Moving from the queue's head to the sender. */
  lemma TakeQueue(s: State, x: Report)
    requires NoDuplicates(s) && Step(s, Take).Some?
    ensures var t := Step(s, Take).value;
      && (IsQueued(s, x) <==> IsQueued(t, x) || IsInFlight(t, x))
      && !(IsQueued(t, x) && IsInFlight(t, x))
  {
    var rest := s.queue[1..];
    assert s.queue == [s.queue[0]] + rest;
    assert forall i | 0 <= i < |rest| :: rest[i] == s.queue[i + 1] && rest[i] != s.queue[0];
  }

  lemma TakeDistinct(s: State)
    requires NoDuplicates(s) && Step(s, Take).Some?
    ensures NoDuplicates(Step(s, Take).value)
  {
    assert InSnapshot(Step(s, Take).value) == InSnapshot(s);
  }

  lemma TakeMaps(s: State)
    requires MapsInv(s) && Step(s, Take).Some?
    ensures MapsInv(Step(s, Take).value)
  {
    TakeDistinct(s);
    var t := Step(s, Take).value;
    forall k <- InSnapshot(t) ensures !IsQueued(t, InSnapshot(t)[k]) && !IsInFlight(t, InSnapshot(t)[k]) {
      TakeQueue(s, InSnapshot(s)[k]);
    }
  }

  lemma TakePlaces(s: State, x: Report)
    requires NoDuplicates(s) && InvAt(s, x) && Step(s, Take).Some?
    ensures InvAt(Step(s, Take).value, x)
  {
    TakeQueue(s, x);
  }

  lemma TakeKeepsInv(s: State)
    requires Inv(s) && Step(s, Take).Some?
    ensures Inv(Step(s, Take).value)
  {
    TakeMaps(s);
    forall x ensures InvAt(Step(s, Take).value, x) {
      TakePlaces(s, x);
    }
  }

  lemma SentDistinct(s: State, status: Option<int>)
    requires NoDuplicates(s) && Step(s, Sent(status)).Some?
    ensures NoDuplicates(Step(s, Sent(status)).value)
  {
    assert InSnapshot(Step(s, Sent(status)).value) == InSnapshot(s);
  }

  lemma SentMaps(s: State, status: Option<int>)
    requires MapsInv(s) && Step(s, Sent(status)).Some?
    requires InvAt(s, s.sender.report)
    ensures MapsInv(Step(s, Sent(status)).value)
  {
    SentDistinct(s, status);
  }

  lemma SentPlaces(s: State, status: Option<int>, x: Report)
    requires InvAt(s, x) && Step(s, Sent(status)).Some?
    ensures InvAt(Step(s, Sent(status)).value, x)
  {
  }

  lemma SentKeepsInv(s: State, status: Option<int>)
    requires Inv(s) && Step(s, Sent(status)).Some?
    ensures Inv(Step(s, Sent(status)).value)
  {
    assert InvAt(s, s.sender.report);
    SentMaps(s, status);
    forall x ensures InvAt(Step(s, Sent(status)).value, x) {
      SentPlaces(s, status, x);
    }
  }

  lemma SaveMaps(s: State, second: int)
    requires MapsInv(s) && Step(s, Save(second)).Some?
    requires InvAt(s, s.sender.report)
    ensures MapsInv(Step(s, Save(second)).value)
  {
  }

  /** A save stores the sender's report, in place of the one that had its second. */
  lemma SaveStored(s: State, second: int, x: Report)
    requires NoDuplicates(s) && Step(s, Save(second)).Some?
    ensures var t := Step(s, Save(second)).value;
      IsStored(t, x) <==>
        if x == s.sender.report then !IsResolved(s, x)
        else IsStored(s, x) && !(second in s.stored && s.stored[second] == x)
  {
    var t := Step(s, Save(second)).value;
    assert t.stored[second] == s.sender.report;
    if IsStored(s, x) {
      var k :| k in s.stored && s.stored[k] == x;
      assert k != second ==> t.stored[k] == x;
    }
  }

  lemma SavePlaces(s: State, second: int, x: Report)
    requires NoDuplicates(s) && InvAt(s, x) && Step(s, Save(second)).Some?
    ensures InvAt(Step(s, Save(second)).value, x)
  {
    SaveStored(s, second, x);
  }

  lemma SaveKeepsInv(s: State, second: int)
    requires Inv(s) && Step(s, Save(second)).Some?
    ensures Inv(Step(s, Save(second)).value)
  {
    assert InvAt(s, s.sender.report);
    SaveMaps(s, second);
    forall x ensures InvAt(Step(s, Save(second)).value, x) {
      SavePlaces(s, second, x);
    }
  }

  // ---------- the retrier's side ----------

  lemma StoredIsNowhereElse(s: State, k: int)
    requires MapsInv(s) && !s.retrier.Deleting? && k in s.stored && InvAt(s, s.stored[k])
    ensures var r := s.stored[k]; r in s.uploaded && !IsQueued(s, r) && !IsInFlight(s, r) && !IsResolved(s, r)
  {
    assert IsStored(s, s.stored[k]);
  }

  lemma ReadDistinct(s: State, key: int)
    requires MapsInv(s) && Step(s, ReadSaved(key)).Some?
    ensures NoDuplicates(Step(s, ReadSaved(key)).value)
  {
  }

  lemma ReadMaps(s: State, key: int)
    requires MapsInv(s) && Step(s, ReadSaved(key)).Some?
    requires key in s.stored ==>
      var r := s.stored[key]; r in s.uploaded && !IsQueued(s, r) && !IsInFlight(s, r) && !IsResolved(s, r)
    ensures MapsInv(Step(s, ReadSaved(key)).value)
  {
    ReadDistinct(s, key);
  }

  lemma ReadKeepsInv(s: State, key: int)
    requires Inv(s) && Step(s, ReadSaved(key)).Some?
    ensures Inv(Step(s, ReadSaved(key)).value)
  {
    if key in s.stored {
      assert InvAt(s, s.stored[key]);
      StoredIsNowhereElse(s, key);
    }
    ReadMaps(s, key);
    SamePlaces(s, Step(s, ReadSaved(key)).value);
  }

  /** Where reports are depends neither on the retrier nor on what the sweep has listed. */
  lemma SamePlaces(s: State, t: State)
    requires t == s.(retrier := t.retrier, sweep := t.sweep) && forall r :: InvAt(s, r)
    ensures forall r :: InvAt(t, r)
  {
    forall r ensures InvAt(t, r) {
      assert InvAt(s, r);
    }
  }

  /** The actions of the retrier that only change what it does next. */
  predicate IsTurn(a: Action) {
    a.ListSaved? || a.StartRound? || a.Pick? || a.EndRound?
  }

  lemma PickSnapshot(s: State, a: Action)
    requires IsTurn(a) && Step(s, a).Some?
    ensures InSnapshot(Step(s, a).value) == InSnapshot(s)
    ensures !Step(s, a).value.retrier.Deleting? && !s.retrier.Deleting?
    ensures var t := Step(s, a).value; t.retrier.Resending? ==> t.retrier.key !in t.retrier.rest
    ensures var t := Step(s, a).value; t.retrier.Reading? ==> t.retrier.read == map[]
  {
  }

  lemma PickMaps(s: State, t: State)
    requires MapsInv(s) && t == s.(retrier := t.retrier) && InSnapshot(t) == InSnapshot(s)
    requires !s.retrier.Deleting? && !t.retrier.Deleting?
    requires t.retrier.Resending? ==> t.retrier.key !in t.retrier.rest
    requires t.retrier.Reading? ==> t.retrier.read == map[]
    ensures MapsInv(t)
  {
  }

  lemma PickKeepsInv(s: State, a: Action)
    requires Inv(s) && IsTurn(a) && Step(s, a).Some?
    ensures Inv(Step(s, a).value)
  {
    PickSnapshot(s, a);
    PickMaps(s, Step(s, a).value);
    SamePlaces(s, Step(s, a).value);
  }

  lemma RestInSnapshot(s: State)
    requires s.retrier.Resending? || s.retrier.Deleting?
    requires s.retrier.key !in s.retrier.rest
    ensures forall k <- s.retrier.rest ::
              k in InSnapshot(s) && InSnapshot(s)[k] == s.retrier.rest[k] && k != s.retrier.key
    ensures s.retrier.key in InSnapshot(s) && InSnapshot(s)[s.retrier.key] == s.retrier.report
  {
  }

  lemma ResentDistinct(s: State, status: Option<int>)
    requires MapsInv(s) && Step(s, Resent(status)).Some?
    ensures NoDuplicates(Step(s, Resent(status)).value)
  {
    RestInSnapshot(s);
  }

  lemma ResentMaps(s: State, status: Option<int>)
    requires MapsInv(s) && Step(s, Resent(status)).Some?
    ensures MapsInv(Step(s, Resent(status)).value)
  {
    ResentDistinct(s, status);
    RestInSnapshot(s);
  }

  lemma ResentPlaces(s: State, status: Option<int>, x: Report)
    requires InvAt(s, x) && Step(s, Resent(status)).Some?
    requires x == s.retrier.report ==> x in s.uploaded && !IsQueued(s, x) && !IsInFlight(s, x) && !IsResolved(s, x)
    ensures InvAt(Step(s, Resent(status)).value, x)
  {
  }

  lemma ResentKeepsInv(s: State, status: Option<int>)
    requires Inv(s) && Step(s, Resent(status)).Some?
    ensures Inv(Step(s, Resent(status)).value)
  {
    RestInSnapshot(s);
    ResentMaps(s, status);
    forall x ensures InvAt(Step(s, Resent(status)).value, x) {
      assert InvAt(s, x);
      ResentPlaces(s, status, x);
    }
  }

  lemma DeleteMaps(s: State)
    requires MapsInv(s) && Step(s, Delete).Some?
    ensures MapsInv(Step(s, Delete).value)
  {
    RestInSnapshot(s);
  }

  lemma DeletePlaces(s: State, x: Report)
    requires NoDuplicates(s) && InvAt(s, x) && Step(s, Delete).Some?
    ensures InvAt(Step(s, Delete).value, x)
  {
    var t := Step(s, Delete).value;
    var key := s.retrier.key;
    if IsStored(s, x) && !(key in s.stored && s.stored[key] == x) {
      var k :| k in s.stored && s.stored[k] == x;
      assert t.stored[k] == x;
    }
  }

  lemma DeleteKeepsInv(s: State)
    requires Inv(s) && Step(s, Delete).Some?
    ensures Inv(Step(s, Delete).value)
  {
    DeleteMaps(s);
    forall x ensures InvAt(Step(s, Delete).value, x) {
      assert InvAt(s, x);
      DeletePlaces(s, x);
    }
  }

  lemma ListExpiredKeepsInv(s: State, deadline: int)
    requires Inv(s) && Step(s, ListExpired(deadline)).Some?
    ensures Inv(Step(s, ListExpired(deadline)).value)
  {
    SameMaps(s, Step(s, ListExpired(deadline)).value);
    SamePlaces(s, Step(s, ListExpired(deadline)).value);
  }

  lemma SameMaps(s: State, t: State)
    requires MapsInv(s) && t == s.(sweep := t.sweep)
    ensures MapsInv(t)
  {
    assert InSnapshot(t) == InSnapshot(s);
  }

  lemma DropMaps(s: State, key: int)
    requires MapsInv(s) && Step(s, DropExpired(key)).Some?
    ensures MapsInv(Step(s, DropExpired(key)).value)
  {
    assert InSnapshot(Step(s, DropExpired(key)).value) == InSnapshot(s);
  }

  lemma DropPlaces(s: State, key: int, x: Report)
    requires NoDuplicates(s) && InvAt(s, x) && Step(s, DropExpired(key)).Some?
    ensures InvAt(Step(s, DropExpired(key)).value, x)
  {
    var t := Step(s, DropExpired(key)).value;
    if IsStored(s, x) && !(key in s.stored && s.stored[key] == x) {
      var k :| k in s.stored && s.stored[k] == x;
      assert t.stored[k] == x;
    }
  }

  lemma DropExpiredKeepsInv(s: State, key: int)
    requires Inv(s) && Step(s, DropExpired(key)).Some?
    ensures Inv(Step(s, DropExpired(key)).value)
  {
    DropMaps(s, key);
    forall x ensures InvAt(Step(s, DropExpired(key)).value, x) {
      assert InvAt(s, x);
      DropPlaces(s, key, x);
    }
  }

  lemma StepKeepsInv(s: State, a: Action)
    requires Inv(s) && Step(s, a).Some?
    ensures Inv(Step(s, a).value)
  {
    match a
    case Upload(r) => UploadKeepsInv(s, r);
    case Take => TakeKeepsInv(s);
    case Sent(status) => SentKeepsInv(s, status);
    case Save(second) => SaveKeepsInv(s, second);
    case ReadSaved(key) => ReadKeepsInv(s, key);
    case Resent(status) => ResentKeepsInv(s, status);
    case Delete => DeleteKeepsInv(s);
    case ListExpired(deadline) => ListExpiredKeepsInv(s, deadline);
    case DropExpired(key) => DropExpiredKeepsInv(s, key);
    case _ => PickKeepsInv(s, a);
  }

  // ---------- main results, over every interleaving ----------

  predicate IsRun(states: seq<State>, actions: seq<Action>) {
    && |states| == |actions| + 1 && states[0] == INITIAL
    && forall i | 0 <= i < |actions| :: Step(states[i], actions[i]) == Some(states[i + 1])
  }

  /** Every uploaded report is, at every moment, in exactly one place. */
  lemma {:induction false} ReportsAreConserved(states: seq<State>, actions: seq<Action>, i: nat)
    requires IsRun(states, actions) && i < |states|
    ensures Inv(states[i])
    ensures forall r <- states[i].uploaded :: Places(states[i], r) == 1
  {
    if i == 0 {
      InitialInv();
    } else {
      ReportsAreConserved(states, actions, i - 1);
      assert Step(states[i - 1], actions[i - 1]) == Some(states[i - 1 + 1]);
      StepKeepsInv(states[i - 1], actions[i - 1]);
    }
    forall r <- states[i].uploaded ensures Places(states[i], r) == 1 {
      assert InvAt(states[i], r);
    }
  }

  /** The retrier deletes only under the key of a report that got an answer that ends it. */
  lemma DeletesAfterOutcome(states: seq<State>, actions: seq<Action>, i: nat)
    requires IsRun(states, actions) && i < |actions| && actions[i] == Delete
    ensures states[i].retrier.Deleting? && IsResolved(states[i], states[i].retrier.report)
    ensures forall k | k in states[i].stored && k !in states[i + 1].stored :: k == states[i].retrier.key
  {
    ReportsAreConserved(states, actions, i);
    var s := states[i];
    assert Step(s, actions[i]) == Some(states[i + 1]);
    assert s.retrier.key in InSnapshot(s);
  }

  /** Saves use distinct seconds. */
  predicate DistinctSeconds(states: seq<State>, actions: seq<Action>)
    requires |states| == |actions| + 1
  {
    forall i | 0 <= i < |actions| && actions[i].Save? :: actions[i].second !in states[i].saveSeconds
  }

  /** Seconds in use were used by a save, and what the retrier read and the sweep listed is still what is stored. */
  predicate SecondsInv(s: State) {
    && s.stored.Keys <= s.saveSeconds && InSnapshot(s).Keys <= s.saveSeconds && s.sweep.Keys <= s.saveSeconds
    && (forall k | k in InSnapshot(s) && k in s.stored :: s.stored[k] == InSnapshot(s)[k])
    && (forall k | k in s.sweep && k in s.stored :: s.stored[k] == s.sweep[k])
    && s.lost == {}
  }

  lemma RetrierKeepsSeconds(s: State, a: Action)
    requires MapsInv(s) && SecondsInv(s) && Step(s, a).Some?
    requires IsTurn(a) || a.ReadSaved? || a.Resent? || a.Delete?
    ensures SecondsInv(Step(s, a).value)
  {
    if IsTurn(a) {
      PickSnapshot(s, a);
    } else if a.Resent? || a.Delete? {
      RestInSnapshot(s);
    }
  }

  lemma SenderKeepsSeconds(s: State, a: Action)
    requires SecondsInv(s) && Step(s, a).Some?
    requires a.Upload? || a.Take? || a.Sent? || a.Save?
    requires a.Save? ==> a.second !in s.saveSeconds
    ensures SecondsInv(Step(s, a).value)
  {
  }

  lemma SweepKeepsSeconds(s: State, a: Action)
    requires SecondsInv(s) && Step(s, a).Some? && (a.ListExpired? || a.DropExpired?)
    ensures SecondsInv(Step(s, a).value)
  {
    assert InSnapshot(Step(s, a).value) == InSnapshot(s);
  }

  lemma StepKeepsSeconds(s: State, a: Action)
    requires Inv(s) && SecondsInv(s) && Step(s, a).Some?
    requires a.Save? ==> a.second !in s.saveSeconds
    ensures SecondsInv(Step(s, a).value)
  {
    if a.Upload? || a.Take? || a.Sent? || a.Save? {
      SenderKeepsSeconds(s, a);
    } else if a.ListExpired? || a.DropExpired? {
      SweepKeepsSeconds(s, a);
    } else {
      RetrierKeepsSeconds(s, a);
    }
  }

  /** When no two saves share a second, no report is ever lost: each is queued, in flight, stored, acknowledged,
      rejected or expired, and the record the retrier deletes is that of the report that was answered,
      the one the sweep deletes is that which it listed. */
  lemma {:induction false} NothingIsLost(states: seq<State>, actions: seq<Action>, i: nat)
    requires IsRun(states, actions) && DistinctSeconds(states, actions) && i < |states|
    ensures SecondsInv(states[i])
    ensures forall r :: !IsLost(states[i], r)
    ensures i < |actions| && actions[i] == Delete ==>
              states[i].retrier.Deleting?
              && (states[i].retrier.key in states[i].stored ==>
                    states[i].stored[states[i].retrier.key] == states[i].retrier.report)
    ensures forall k | k in states[i].sweep && k in states[i].stored :: states[i].stored[k] == states[i].sweep[k]
  {
    if i > 0 {
      NothingIsLost(states, actions, i - 1);
      ReportsAreConserved(states, actions, i - 1);
      assert Step(states[i - 1], actions[i - 1]) == Some(states[i - 1 + 1]);
      StepKeepsSeconds(states[i - 1], actions[i - 1]);
    }
    if i < |actions| && actions[i] == Delete {
      assert Step(states[i], actions[i]) == Some(states[i + 1]);
      assert states[i].retrier.key in InSnapshot(states[i]);
    }
  }

  /** Exactly when a report becomes lost: a save hits a second whose record is still unanswered, the retrier deletes
      a record that replaced the answered one, or the sweep deletes a record that replaced the one it listed. */
  lemma LostExactly(s: State, a: Action, r: Report)
    requires Inv(s) && Step(s, a).Some? && !IsLost(s, r)
    ensures IsLost(Step(s, a).value, r) <==>
      match a
      case Save(second) => s.sender.Saving? && second in s.stored && s.stored[second] == r && !IsResolved(s, r)
      case Delete =>
        s.retrier.Deleting? && s.retrier.key in s.stored && s.stored[s.retrier.key] == r && r != s.retrier.report
      case DropExpired(key) =>
        key in s.sweep && key in s.stored && s.stored[key] == r && r != s.sweep[key] && !IsResolved(s, r)
      case _ => false
  {
    if a.Delete? {
      assert InSnapshot(s)[s.retrier.key] == s.retrier.report;
    }
    if r in s.lost {
      assert IsResolved(s, r);
    }
  }

  /** Exactly when a report becomes expired: the sweep deletes the very record that it listed. */
  lemma ExpiredExactly(s: State, a: Action, r: Report)
    requires Inv(s) && Step(s, a).Some? && !IsExpired(s, r)
    ensures IsExpired(Step(s, a).value, r) <==>
      a.DropExpired? && a.key in s.sweep && a.key in s.stored
      && s.stored[a.key] == r && s.sweep[a.key] == r && !IsResolved(s, r)
  {
    if r in s.expired {
      assert IsResolved(s, r);
    }
  }

  /** The sweep listed the record of the key when its deadline was past it. */
  predicate WasListed(states: seq<State>, actions: seq<Action>, j: nat, key: int, r: Report)
    requires j < |states| && j < |actions|
  {
    actions[j].ListExpired? && 0 < key < actions[j].deadline && key in states[j].stored && states[j].stored[key] == r
  }

  /** In every interleaving, what the sweep is about to delete are records it found strictly before its deadline. */
  lemma {:induction false} SweepListsOld(states: seq<State>, actions: seq<Action>, i: nat, key: int)
    requires IsRun(states, actions) && i < |states| && key in states[i].sweep
    ensures exists j: nat | j < i && j < |actions| :: WasListed(states, actions, j, key, states[i].sweep[key])
  {
    assert Step(states[i - 1], actions[i - 1]) == Some(states[i - 1 + 1]);
    if actions[i - 1].ListExpired? {
      assert WasListed(states, actions, i - 1, key, states[i].sweep[key]);
    } else {
      SweepListsOld(states, actions, i - 1, key);
    }
  }

  // ---------- how a report is lost ----------

  /** Every action is enabled. */
  predicate CanRun(s: State, actions: seq<Action>)
    decreases |actions|
  {
    |actions| > 0 ==> Step(s, actions[0]).Some? && CanRun(Step(s, actions[0]).value, actions[1..])
  }

  function RunFrom(s: State, actions: seq<Action>): State
    requires CanRun(s, actions)
    decreases |actions|
  {
    if |actions| == 0 then s else RunFrom(Step(s, actions[0]).value, actions[1..])
  }

  lemma {:induction false} RunCons(s: State, a: Action, rest: seq<Action>)
    requires Step(s, a).Some? && CanRun(Step(s, a).value, rest)
    ensures CanRun(s, [a] + rest) && RunFrom(s, [a] + rest) == RunFrom(Step(s, a).value, rest)
  {
    assert ([a] + rest)[1..] == rest;
  }

  /** The state in which the given report was just sent without success. */
  function Failing(s: State, r: Report): State {
    s.(uploaded := s.uploaded + {r}, sender := Saving(r))
  }

  lemma UploadAndFail(s: State, r: Report)
    requires s.queue == [] && s.sender == Idle && r !in s.uploaded
    ensures CanRun(s, [Upload(r), Take, Sent(None)])
    ensures RunFrom(s, [Upload(r), Take, Sent(None)]) == Failing(s, r)
  {
    var one := Step(s, Upload(r)).value;
    assert one.queue == [r] && one.queue[1..] == [];
    var two := Step(one, Take).value;
    assert two.queue == s.queue;
    RunCons(two, Sent(None), []);
    RunCons(one, Take, [Sent(None)]);
    RunCons(s, Upload(r), [Take] + [Sent(None)]);
    assert [Upload(r)] + ([Take] + [Sent(None)]) == [Upload(r), Take, Sent(None)];
    assert RunFrom(Step(two, Sent(None)).value, []) == Step(two, Sent(None)).value;
  }

  lemma {:induction false} RunThen(s: State, a: seq<Action>, b: seq<Action>)
    requires CanRun(s, a) && CanRun(RunFrom(s, a), b)
    ensures CanRun(s, a + b) && RunFrom(s, a + b) == RunFrom(RunFrom(s, a), b)
    decreases |a|
  {
    if |a| == 0 {
      assert a + b == b;
    } else {
      var next := Step(s, a[0]).value;
      RunThen(next, a[1..], b);
      RunCons(s, a[0], a[1..] + b);
      assert [a[0]] + (a[1..] + b) == a + b;
    }
  }

  /** Two reports that fail and are saved in one second: the first is lost. */
  lemma SameSecondLoses(second: int)
    ensures var one := [Upload(0), Take, Sent(None)] + [Save(second)];
      var two := [Upload(1), Take, Sent(None)] + [Save(second)];
      CanRun(INITIAL, one + two) && IsLost(RunFrom(INITIAL, one + two), 0)
  {
    var one := [Upload(0), Take, Sent(None)] + [Save(second)];
    var two := [Upload(1), Take, Sent(None)] + [Save(second)];
    FailAndSave(INITIAL, 0, second);
    var s := RunFrom(INITIAL, one);
    assert s.stored[second] == 0;
    FailAndSave(s, 1, second);
    RunThen(INITIAL, one, two);
  }

  lemma FailAndSave(s: State, r: Report, second: int)
    requires s.queue == [] && s.sender == Idle && r !in s.uploaded
    ensures var actions := [Upload(r), Take, Sent(None)] + [Save(second)];
      CanRun(s, actions) && RunFrom(s, actions) == Step(Failing(s, r), Save(second)).value
  {
    UploadAndFail(s, r);
    RunCons(Failing(s, r), Save(second), []);
    assert [Save(second)] + [] == [Save(second)];
    RunThen(s, [Upload(r), Take, Sent(None)], [Save(second)]);
  }

  /** The retrier resends the first report while a second one is saved in the first one's second: the answer to the
      first makes the retrier delete the record of the second, which is lost. */
  lemma DeleteLoses(second: int)
    ensures var one := [Upload(0), Take, Sent(None)] + [Save(second)];
      var retry := [ListSaved, ReadSaved(second)] + [StartRound, Pick(second)];
      var two := [Upload(1), Take, Sent(None)] + [Save(second)];
      var answer := [Resent(Some(201)), Delete];
      CanRun(INITIAL, one + (retry + (two + answer)))
      && IsLost(RunFrom(INITIAL, one + (retry + (two + answer))), 1)
  {
    var one := [Upload(0), Take, Sent(None)] + [Save(second)];
    var retry := [ListSaved, ReadSaved(second)] + [StartRound, Pick(second)];
    var two := [Upload(1), Take, Sent(None)] + [Save(second)];
    var answer := [Resent(Some(201)), Delete];
    FailAndSave(INITIAL, 0, second);
    var s1 := RunFrom(INITIAL, one);
    assert s1.stored == map[second := 0] && s1.retrier == Waiting;
    RetryOne(s1, second);
    var s2 := RunFrom(s1, retry);
    FailAndSave(s2, 1, second);
    var s3 := RunFrom(s2, two);
    assert s3.stored[second] == 1 && s3.retrier == Resending(second, 0, map[]);
    AnswerOne(s3, second);
    RunThen(s2, two, answer);
    RunThen(s1, retry, two + answer);
    RunThen(INITIAL, one, retry + (two + answer));
  }

  lemma ReadOne(s: State, second: int)
    requires s.retrier == Waiting && s.stored == map[second := 0]
    ensures CanRun(s, [ListSaved, ReadSaved(second)])
    ensures RunFrom(s, [ListSaved, ReadSaved(second)]) == s.(retrier := Reading({}, map[second := 0]))
  {
    assert s.stored.Keys == {second};
    var t := Step(s, ListSaved).value;
    RunCons(t, ReadSaved(second), []);
    RunCons(s, ListSaved, [ReadSaved(second)]);
    assert [ListSaved] + [ReadSaved(second)] == [ListSaved, ReadSaved(second)];
  }

  lemma StartOne(s: State, second: int)
    requires s.retrier == Reading({}, map[second := 0])
    ensures CanRun(s, [StartRound, Pick(second)])
    ensures RunFrom(s, [StartRound, Pick(second)]) == s.(retrier := Resending(second, 0, map[]))
  {
    assert second in s.retrier.read;
    var t := Step(s, StartRound).value;
    assert t.retrier.rest - {second} == map[];
    RunCons(t, Pick(second), []);
    RunCons(s, StartRound, [Pick(second)]);
    assert [StartRound] + [Pick(second)] == [StartRound, Pick(second)];
  }

  lemma RetryOne(s: State, second: int)
    requires s.retrier == Waiting && s.stored == map[second := 0]
    ensures CanRun(s, [ListSaved, ReadSaved(second)] + [StartRound, Pick(second)])
    ensures RunFrom(s, [ListSaved, ReadSaved(second)] + [StartRound, Pick(second)]) ==
            s.(retrier := Resending(second, 0, map[]))
  {
    ReadOne(s, second);
    StartOne(RunFrom(s, [ListSaved, ReadSaved(second)]), second);
    RunThen(s, [ListSaved, ReadSaved(second)], [StartRound, Pick(second)]);
  }

  lemma AnswerOne(s: State, second: int)
    requires s.retrier == Resending(second, 0, map[]) && second in s.stored && s.stored[second] == 1
      && !IsResolved(s, 1)
    ensures CanRun(s, [Resent(Some(201)), Delete])
    ensures IsLost(RunFrom(s, [Resent(Some(201)), Delete]), 1)
  {
    var t := Step(s, Resent(Some(201))).value;
    RunCons(t, Delete, []);
    RunCons(s, Resent(Some(201)), [Delete]);
    assert [Resent(Some(201))] + [Delete] == [Resent(Some(201)), Delete];
  }

  /** The sweep lists an expired record, another report is saved in that second, and the sweep deletes it unsent. */
  lemma SweepLoses(second: int)
    requires second > 0
    ensures var one := [Upload(0), Take, Sent(None)] + [Save(second)];
      var two := [Upload(1), Take, Sent(None)] + [Save(second)];
      CanRun(INITIAL, one + ([ListExpired(second + 1)] + (two + [DropExpired(second)])))
      && IsLost(RunFrom(INITIAL, one + ([ListExpired(second + 1)] + (two + [DropExpired(second)]))), 1)
  {
    var one := [Upload(0), Take, Sent(None)] + [Save(second)];
    var two := [Upload(1), Take, Sent(None)] + [Save(second)];
    FailAndSave(INITIAL, 0, second);
    var s1 := RunFrom(INITIAL, one);
    assert s1.stored == map[second := 0];
    var s2 := Step(s1, ListExpired(second + 1)).value;
    assert s2 == s1.(sweep := map[second := 0]);
    FailAndSave(s2, 1, second);
    DropOne(RunFrom(s2, two), second);
    RunThen(s2, two, [DropExpired(second)]);
    RunCons(s1, ListExpired(second + 1), two + [DropExpired(second)]);
    RunThen(INITIAL, one, [ListExpired(second + 1)] + (two + [DropExpired(second)]));
  }

  lemma DropOne(s: State, second: int)
    requires s.sweep == map[second := 0] && second in s.stored && s.stored[second] == 1 && !IsResolved(s, 1)
    ensures CanRun(s, [DropExpired(second)]) && IsLost(RunFrom(s, [DropExpired(second)]), 1)
  {
    RunCons(s, DropExpired(second), []);
    assert [DropExpired(second)] + [] == [DropExpired(second)];
  }
}
