/** Runs of the reporting protocol, told by the answers that came and the order of the uploads. */
module ReportRuns {
  import opened Text
  import opened Report

  // ---------- what an answer decides ----------

  /** Step j is an answer to the report with the given status. */
  predicate IsAnswer(states: seq<State>, actions: seq<Action>, j: nat, r: Report, status: int)
    requires j < |states| && j < |actions|
  {
    || (actions[j] == Sent(Some(status)) && states[j].sender == Sending(r))
    || (actions[j] == Resent(Some(status)) && states[j].retrier.Resending? && states[j].retrier.report == r)
  }

  ghost predicate AcceptsAt(states: seq<State>, actions: seq<Action>, j: nat, r: Report)
    requires j < |states| && j < |actions|
  {
    exists status: int :: 201 <= status <= 300 && IsAnswer(states, actions, j, r, status)
  }

  ghost predicate RefusesAt(states: seq<State>, actions: seq<Action>, j: nat, r: Report)
    requires j < |states| && j < |actions|
  {
    exists status: int :: (status == 400 || status == 409) && IsAnswer(states, actions, j, r, status)
  }

  /** One of the first n steps answered the report with a status from 201 to 300. */
  ghost predicate WasAccepted(states: seq<State>, actions: seq<Action>, n: nat, r: Report)
    requires n <= |actions| && |states| == |actions| + 1
  {
    exists j: nat | j < n :: AcceptsAt(states, actions, j, r)
  }

  /** One of the first n steps answered the report with status 400 or 409. */
  ghost predicate WasRefused(states: seq<State>, actions: seq<Action>, n: nat, r: Report)
    requires n <= |actions| && |states| == |actions| + 1
  {
    exists j: nat | j < n :: RefusesAt(states, actions, j, r)
  }

  /** Step j brings the report into the accepted or the refused ones, and no other way leads there. */
  lemma AcceptedStep(states: seq<State>, actions: seq<Action>, j: nat, r: Report)
    requires IsRun(states, actions) && j < |actions|
    ensures r in states[j + 1].acknowledged <==> r in states[j].acknowledged || AcceptsAt(states, actions, j, r)
  {
    assert Step(states[j], actions[j]) == Some(states[j + 1]);
    if r in states[j + 1].acknowledged && r !in states[j].acknowledged {
      assert IsAnswer(states, actions, j, r, actions[j].status.value);
    }
  }

  lemma RefusedStep(states: seq<State>, actions: seq<Action>, j: nat, r: Report)
    requires IsRun(states, actions) && j < |actions|
    ensures r in states[j + 1].rejected <==> r in states[j].rejected || RefusesAt(states, actions, j, r)
  {
    assert Step(states[j], actions[j]) == Some(states[j + 1]);
    if r in states[j + 1].rejected && r !in states[j].rejected {
      assert IsAnswer(states, actions, j, r, actions[j].status.value);
    }
  }

  /** Over every interleaving, a report is acknowledged exactly when the sender or the retrier was answered for it with
      a status from 201 to 300, and rejected exactly when one of them was answered with 400 or 409. */
  lemma {:induction false} AnsweredExactly(states: seq<State>, actions: seq<Action>, n: nat, r: Report)
    requires IsRun(states, actions) && n <= |actions|
    ensures r in states[n].acknowledged <==> WasAccepted(states, actions, n, r)
    ensures r in states[n].rejected <==> WasRefused(states, actions, n, r)
  {
    if n > 0 {
      AnsweredExactly(states, actions, n - 1, r);
      AcceptedStep(states, actions, n - 1, r);
      RefusedStep(states, actions, n - 1, r);
    }
  }

  // ---------- the order of the queue ----------

  /** The reports uploaded in the first n steps, in order. */
  function Uploads(actions: seq<Action>, n: nat): seq<Report>
    requires n <= |actions|
  {
    if n == 0 then []
    else Uploads(actions, n - 1) + if actions[n - 1].Upload? then [actions[n - 1].report] else []
  }

  /** The reports that the sender has taken up in the first n steps, in order. */
  function TakenUp(states: seq<State>, actions: seq<Action>, n: nat): seq<Report>
    requires n <= |actions| && |states| == |actions| + 1
  {
    if n == 0 then []
    else
      TakenUp(states, actions, n - 1)
      + if actions[n - 1].Take? && !states[n].sender.Idle? then [states[n].sender.report] else []
  }

  lemma QueueStep(s: State, a: Action, t: State)
    requires Step(s, a) == Some(t)
    ensures a.Upload? ==> t.queue == s.queue + [a.report]
    ensures a.Take? ==> t.sender.Sending? && s.queue == [t.sender.report] + t.queue
    ensures !a.Upload? && !a.Take? ==> t.queue == s.queue
  {
  }

  /** First in, first out: what was taken up and what is queued are the uploads, in their order. */
  lemma {:induction false} TakenInOrder(states: seq<State>, actions: seq<Action>, n: nat)
    requires IsRun(states, actions) && n <= |actions|
    ensures Uploads(actions, n) == TakenUp(states, actions, n) + states[n].queue
  {
    if n > 0 {
      TakenInOrder(states, actions, n - 1);
      assert Step(states[n - 1], actions[n - 1]) == Some(states[n - 1 + 1]);
      QueueStep(states[n - 1], actions[n - 1], states[n]);
      OrderStep(Uploads(actions, n - 1), TakenUp(states, actions, n - 1), states[n - 1], actions[n - 1], states[n]);
    }
  }

  lemma OrderStep(uploads: seq<Report>, taken: seq<Report>, s: State, a: Action, t: State)
    requires uploads == taken + s.queue
    requires a.Upload? ==> t.queue == s.queue + [a.report]
    requires a.Take? ==> t.sender.Sending? && s.queue == [t.sender.report] + t.queue
    requires !a.Upload? && !a.Take? ==> t.queue == s.queue
    ensures uploads + (if a.Upload? then [a.report] else []) ==
            (taken + if a.Take? && !t.sender.Idle? then [t.sender.report] else []) + t.queue
  {
  }

  /** At most ten reports wait, and an upload has to wait exactly when there are ten. */
  lemma {:induction false} QueueIsBounded(states: seq<State>, actions: seq<Action>, n: nat, r: Report)
    requires IsRun(states, actions) && n <= |actions| && r !in states[n].uploaded
    ensures |states[n].queue| <= 10
    ensures Step(states[n], Upload(r)).Some? <==> |states[n].queue| != 10
  {
    QueueLength(states, actions, n);
  }

  lemma {:induction false} QueueLength(states: seq<State>, actions: seq<Action>, n: nat)
    requires IsRun(states, actions) && n <= |actions|
    ensures |states[n].queue| <= 10
  {
    if n > 0 {
      QueueLength(states, actions, n - 1);
      assert Step(states[n - 1], actions[n - 1]) == Some(states[n - 1 + 1]);
      QueueStep(states[n - 1], actions[n - 1], states[n]);
    }
  }

  // ---------- what is kept for a retry ----------

  /** A report without a final answer is kept: after the sender failed, the next thing it can do is to save that
      report, and the save stores it under its second. */
  lemma FailureIsSaved(states: seq<State>, actions: seq<Action>, j: nat, r: Report, second: int)
    requires IsRun(states, actions) && j < |actions|
    requires actions[j].Sent? && states[j].sender == Sending(r)
    requires match actions[j].status
      case None => true
      case Some(code) => code != 400 && code != 409 && (code <= 200 || 300 < code)
    ensures states[j + 1].sender == Saving(r)
    ensures var t := Step(states[j + 1], Save(second));
      t.Some? && second in t.value.stored && t.value.stored[second] == r
  {
    assert Step(states[j], actions[j]) == Some(states[j + 1]);
  }

  // ---------- a whole round of the retrier ----------

  /** The steps from i to n are those of one round. */
  predicate IsRound(states: seq<State>, actions: seq<Action>, i: nat, n: nat)
    requires |states| == |actions| + 1
  {
    && i < n <= |actions| && actions[i].StartRound? && states[i + 1].retrier.Choosing?
    && forall j | i < j < n :: !actions[j].EndRound?
  }

  /** One of the steps between resent what was read under the key. */
  ghost predicate WasResent(states: seq<State>, actions: seq<Action>, i: nat, n: nat, key: int)
    requires n <= |actions| && |states| == |actions| + 1
  {
    exists j: nat :: i < j < n && actions[j].Resent? && states[j].retrier.Resending? && states[j].retrier.key == key
  }

  /** What the retrier still has to resend in its round. */
  predicate IsLeft(s: State, key: int) {
    match s.retrier
    case Choosing(rest) => key in rest
    case Resending(k, _, rest) => k == key || key in rest
    case Deleting(_, _, rest) => key in rest
    case _ => false
  }

  lemma LeftStep(s: State, a: Action, t: State, key: int)
    requires Step(s, a) == Some(t) && !a.EndRound?
    requires s.retrier.Choosing? || s.retrier.Resending? || s.retrier.Deleting?
    ensures t.retrier.Choosing? || t.retrier.Resending? || t.retrier.Deleting?
    ensures IsLeft(s, key) ==> IsLeft(t, key) || (a.Resent? && s.retrier.Resending? && s.retrier.key == key)
  {
  }

  lemma ResentMore(states: seq<State>, actions: seq<Action>, i: nat, n: nat, key: int)
    requires n < |actions| && |states| == |actions| + 1
    ensures WasResent(states, actions, i, n, key) ==> WasResent(states, actions, i, n + 1, key)
    ensures i < n && actions[n].Resent? && states[n].retrier.Resending? && states[n].retrier.key == key ==>
              WasResent(states, actions, i, n + 1, key)
  {
  }

  /** Nothing that a round has read is skipped: it was resent, or its turn is still to come. */
  lemma {:induction false} NothingIsSkipped(states: seq<State>, actions: seq<Action>, i: nat, n: nat, key: int)
    requires IsRun(states, actions) && IsRound(states, actions, i, n) && key in states[i + 1].retrier.rest
    ensures states[n].retrier.Choosing? || states[n].retrier.Resending? || states[n].retrier.Deleting?
    ensures IsLeft(states[n], key) || WasResent(states, actions, i, n, key)
    decreases n
  {
    if n > i + 1 {
      NothingIsSkipped(states, actions, i, n - 1, key);
      assert Step(states[n - 1], actions[n - 1]) == Some(states[n - 1 + 1]);
      LeftStep(states[n - 1], actions[n - 1], states[n], key);
      ResentMore(states, actions, i, n - 1, key);
    }
  }

  /** A round ends only when everything it has read was resent. */
  lemma RoundsAreComplete(states: seq<State>, actions: seq<Action>, i: nat, n: nat, key: int)
    requires IsRun(states, actions) && IsRound(states, actions, i, n) && key in states[i + 1].retrier.rest
    requires n < |actions| && actions[n].EndRound?
    ensures WasResent(states, actions, i, n, key)
  {
    NothingIsSkipped(states, actions, i, n, key);
    assert Step(states[n], actions[n]) == Some(states[n + 1]);
  }

  // ---------- what a round reads ----------

  /** The steps from i to n are those in which one round is read. */
  predicate IsReading(actions: seq<Action>, i: nat, n: nat) {
    i < n <= |actions| && actions[i].ListSaved? && forall j | i < j < n :: !actions[j].StartRound?
  }

  /** One of the steps between read the key, and what was recorded under it then is what is to be resent. */
  ghost predicate WasRead(states: seq<State>, actions: seq<Action>, i: nat, n: nat, key: int)
    requires n <= |actions| && |states| == |actions| + 1 && states[n].retrier.Reading?
  {
    exists j: nat :: i < j < n && actions[j] == ReadSaved(key) && IsReadAs(states[j], states[n].retrier, key)
  }

  predicate IsReadAs(s: State, retrier: Retrier, key: int)
    requires retrier.Reading?
  {
    key in s.stored ==> key in retrier.read && retrier.read[key] == s.stored[key]
  }

  lemma ReadingStep(s: State, a: Action, t: State, key: int)
    requires Step(s, a) == Some(t) && !a.StartRound? && s.retrier.Reading?
    ensures t.retrier.Reading? && t.retrier.keys <= s.retrier.keys
    ensures key in s.retrier.keys && key !in t.retrier.keys ==> a == ReadSaved(key) && IsReadAs(s, t.retrier, key)
    ensures key !in s.retrier.keys ==>
      (key in t.retrier.read <==> key in s.retrier.read)
      && (key in s.retrier.read ==> t.retrier.read[key] == s.retrier.read[key])
  {
  }

  lemma {:induction false} NothingIsForgotten(states: seq<State>, actions: seq<Action>, i: nat, n: nat, key: int)
    requires IsRun(states, actions) && IsReading(actions, i, n) && key in states[i].stored
    ensures states[n].retrier.Reading?
    ensures key in states[n].retrier.keys || WasRead(states, actions, i, n, key)
    decreases n
  {
    assert Step(states[n - 1], actions[n - 1]) == Some(states[n - 1 + 1]);
    if n > i + 1 {
      NothingIsForgotten(states, actions, i, n - 1, key);
      ReadingStep(states[n - 1], actions[n - 1], states[n], key);
      if key !in states[n].retrier.keys {
        if key in states[n - 1].retrier.keys {
          assert IsReadAs(states[n - 1], states[n].retrier, key);
        } else {
          var j: nat :| i < j < n - 1 && actions[j] == ReadSaved(key)
            && IsReadAs(states[j], states[n - 1].retrier, key);
          assert IsReadAs(states[j], states[n].retrier, key);
        }
      }
    }
  }

  /** A round starts only when every record listed for it was read: it will resend what was recorded under each key at
      that time, whatever became of the record since. */
  lemma ReadingIsComplete(states: seq<State>, actions: seq<Action>, i: nat, n: nat, key: int)
    requires IsRun(states, actions) && IsReading(actions, i, n) && key in states[i].stored
    requires n < |actions| && actions[n].StartRound?
    ensures states[n].retrier.Reading? && WasRead(states, actions, i, n, key)
  {
    NothingIsForgotten(states, actions, i, n, key);
    assert Step(states[n], actions[n]) == Some(states[n + 1]);
  }

  // ---------- a whole sweep ----------

  /** One of the steps between deleted the key. */
  ghost predicate WasDropped(actions: seq<Action>, i: nat, n: nat, key: int)
    requires n <= |actions|
  {
    exists j: nat :: i < j < n && actions[j] == DropExpired(key)
  }

  lemma {:induction false} SweepGoesOn(states: seq<State>, actions: seq<Action>, i: nat, n: nat, key: int)
    requires IsRun(states, actions) && i < n <= |actions| && actions[i].ListExpired?
    requires forall j | i < j < n :: !actions[j].ListExpired?
    requires key in states[i].stored && 0 < key < actions[i].deadline
    ensures key in states[n].sweep || WasDropped(actions, i, n, key)
    decreases n
  {
    assert Step(states[n - 1], actions[n - 1]) == Some(states[n - 1 + 1]);
    if n > i + 1 {
      SweepGoesOn(states, actions, i, n - 1, key);
      if key in states[n - 1].sweep && key !in states[n].sweep {
        assert actions[n - 1] == DropExpired(key);
      }
    }
  }

  /** A sweep is over only when it has deleted every key below its deadline that was recorded when it began. */
  lemma SweepIsComplete(states: seq<State>, actions: seq<Action>, i: nat, n: nat, key: int)
    requires IsRun(states, actions) && i < n <= |actions| && actions[i].ListExpired?
    requires forall j | i < j < n :: !actions[j].ListExpired?
    requires key in states[i].stored && 0 < key < actions[i].deadline && states[n].sweep == map[]
    ensures WasDropped(actions, i, n, key)
  {
    SweepGoesOn(states, actions, i, n, key);
  }
}
