/** The container tracker: lifecycle events are cached per container, and once a period only the newest
    event of each container is applied. */
module DockerEvents {
  import opened Text

  datatype Event = Event(id: string, status: string, timeNano: int)

  /** What is known of one container; the information is that of the last successful inspection. */
  datatype Slot<Info> = Absent | Running(info: Info) | Paused(info: Info)

  const LIFECYCLE := {"die", "stop", "pause", "unpause", "start"}

  /** The effect of one status, given what an inspection would return. */
  function Apply<Info>(slot: Slot<Info>, status: string, inspect: Option<Info>): Slot<Info> {
    if status == "die" || status == "stop" then Absent
    else if status == "pause" then (if slot.Running? then Paused(slot.info) else slot)
    else if status == "unpause" then
      (if slot.Paused? then Running(if inspect.Some? then inspect.value else slot.info) else slot)
    else if status == "start" then
      (if inspect.Some? then Running(inspect.value) else if slot.Paused? then Absent else slot)
    else slot
  }

  /** The newest event's time and status; events without a positive time never count. */
  function Newest(events: seq<Event>): (int, string) {
    if |events| == 0 then (0, "")
    else
      var before, last := Newest(events[..|events| - 1]), events[|events| - 1];
      if last.timeNano > before.0 then (last.timeNano, last.status) else before
  }

  class EventsStorage<Info> {
    var inspects: map<string, Info>
    var pausing: map<string, Info>
    var cache: map<string, seq<Event>>

    constructor ()
      ensures IsDisjoint() && inspects == map[] && pausing == map[] && cache == map[]
    {
      inspects, pausing, cache := map[], map[], map[];
    }

    /** No container is both running and paused. */
    ghost predicate IsDisjoint()
      reads this
    {
      inspects.Keys !! pausing.Keys
    }

    ghost function SlotOf(id: string): Slot<Info>
      reads this
    {
      if id in inspects then Running(inspects[id]) else if id in pausing then Paused(pausing[id]) else Absent
    }

    /** Keeps the lifecycle events, in order of arrival. */
    method Filter(msg: Event)
      modifies `cache
      ensures cache == if msg.status in {"die", "stop", "pause", "unpause", "start"}
                       then old(cache)[msg.id := (if msg.id in old(cache) then old(cache)[msg.id] else []) + [msg]]
                       else old(cache)
    {
      if
        || msg.status == "die" || msg.status == "stop" || msg.status == "pause"
        || msg.status == "unpause" || msg.status == "start"
      {
        if msg.id !in cache {
          cache := cache[msg.id := []];
        }
        cache := cache[msg.id := cache[msg.id] + [msg]];
      }
    }

    method UpdateStatus(id: string, status: string, inspect: Option<Info>)
      requires IsDisjoint()
      modifies `inspects, `pausing
      ensures IsDisjoint()
      ensures SlotOf(id) == Apply(old(SlotOf(id)), status, inspect)
      ensures forall other | other != id :: SlotOf(other) == old(SlotOf(other))
    {
      if status == "die" || status == "stop" {
        inspects := inspects - {id};
        pausing := pausing - {id};
      }
      if status == "pause" {
        if id in inspects {
          if id !in pausing {
            pausing := pausing[id := inspects[id]];
          }
          inspects := inspects - {id};
        }
      }
      if status == "unpause" {
        if id in pausing {
          if id !in inspects {
            inspects := inspects[id := pausing[id]];
          }
          pausing := pausing - {id};
          if inspect.Some? {
            inspects := inspects[id := inspect.value];
          }
        }
      }
      if status == "start" {
        if inspect.Some? {
          inspects := inspects[id := inspect.value];
        }
        pausing := pausing - {id};
      }
    }

    method NewestOf(events: seq<Event>) returns (status: string)
      ensures status == Newest(events).1
    {
      var maxTime := 0;
      status := "";
      for i := 0 to |events|
        invariant (maxTime, status) == Newest(events[..i])
      {
        assert events[..i + 1][..i] == events[..i];
        if events[i].timeNano > maxTime {
          maxTime := events[i].timeNano;
          status := events[i].status;
        }
      }
      assert events[..|events|] == events;
    }

    /** Applies the newest event of every cached container; the containers are visited in arbitrary order. */
    method Update(inspect: string -> Option<Info>)
      requires IsDisjoint()
      modifies this
      ensures IsDisjoint() && cache == map[]
      ensures forall id | id in old(cache) ::
        SlotOf(id) == Apply(old(SlotOf(id)), Newest(old(cache)[id]).1, inspect(id))
      ensures forall id | id !in old(cache) :: SlotOf(id) == old(SlotOf(id))
    {
      var todo := cache.Keys;
      while todo != {}
        invariant todo <= cache.Keys && cache == old(cache) && IsDisjoint()
        invariant forall id | id in todo || id !in old(cache) :: SlotOf(id) == old(SlotOf(id))
        invariant forall id | id in old(cache) && id !in todo ::
                    SlotOf(id) == Apply(old(SlotOf(id)), Newest(old(cache)[id]).1, inspect(id))
        decreases |todo|
      {
        var id :| id in todo;
        var status := NewestOf(cache[id]);
        UpdateStatus(id, status, inspect(id));
        todo := todo - {id};
      }
      cache := map[];
    }
  }

  // ---------- coalescing against replaying ----------

  datatype Kind = IsAbsent | IsRunning | IsPaused

  function KindOf<Info>(slot: Slot<Info>): Kind {
    match slot
    case Absent => IsAbsent
    case Running(_) => IsRunning
    case Paused(_) => IsPaused
  }

  /** The events applied one after another; each inspection succeeds with the event's own result. */
  function Replay<Info>(slot: Slot<Info>, events: seq<Event>, infos: Event -> Info): Slot<Info> {
    if |events| == 0 then slot
    else
      var last := events[|events| - 1];
      Apply(Replay(slot, events[..|events| - 1], infos), last.status, Some(infos(last)))
  }

  /** A container in the given state can report the status. */
  predicate CanReport(kind: Kind, status: string) {
    match kind
    case IsAbsent => status in {"start", "die", "stop"}
    case IsRunning => status in {"pause", "die", "stop"}
    case IsPaused => status in {"unpause", "die", "stop"}
  }

  /** The events are a lifecycle of a container that starts in the slot's state. */
  predicate IsLegal<Info>(slot: Slot<Info>, events: seq<Event>, infos: Event -> Info) {
    if |events| == 0 then true
    else
      var front, last := events[..|events| - 1], events[|events| - 1];
      IsLegal(slot, front, infos) && CanReport(KindOf(Replay(slot, front, infos)), last.status)
  }

  predicate IsInTimeOrder(events: seq<Event>) {
    forall i, j :: 0 <= i < j < |events| ==> events[i].timeNano < events[j].timeNano
  }

  /** Where a legal lifecycle ends by its last status. */
  function EndKind(status: string): Kind {
    if status == "pause" then IsPaused else if status == "unpause" || status == "start" then IsRunning else IsAbsent
  }

  /** The event that is applied is the first of those with the greatest time, if any time is positive. */
  lemma {:induction false} NewestIsMaximal(events: seq<Event>)
    ensures forall e <- events :: e.timeNano <= Newest(events).0
    ensures Newest(events).0 >= 0
    ensures Newest(events) == (0, "")
            || exists i | 0 <= i < |events| :: IsFirstNewest(events, i, Newest(events))
  {
    if |events| > 0 {
      var n := |events| - 1;
      var front, last := events[..n], events[n];
      NewestIsMaximal(front);
      assert events == front + [last];
      if last.timeNano > Newest(front).0 {
        assert forall j | 0 <= j < n :: events[j] == front[j] && front[j] in front;
        assert IsFirstNewest(events, n, Newest(events));
      } else if Newest(front) != (0, "") {
        var i :| 0 <= i < |front| && IsFirstNewest(front, i, Newest(front));
        assert IsFirstNewest(events, i, Newest(events));
      }
    }
  }

  /** Event i has the given positive time and status, and every event before it is older. */
  predicate IsFirstNewest(events: seq<Event>, i: nat, newest: (int, string))
    requires i < |events|
  {
    && newest == (events[i].timeNano, events[i].status) && events[i].timeNano > 0
    && forall j | 0 <= j < i :: events[j].timeNano < events[i].timeNano
  }

  /** The newest event does not depend on the order of arrival. */
  lemma NewestIgnoresOrder(arrived: seq<Event>, ordered: seq<Event>)
    requires multiset(arrived) == multiset(ordered)
    requires IsInTimeOrder(ordered) && forall e <- ordered :: e.timeNano > 0
    ensures |ordered| > 0 ==> Newest(arrived) == (ordered[|ordered| - 1].timeNano, ordered[|ordered| - 1].status)
    ensures |ordered| == 0 ==> Newest(arrived) == (0, "")
  {
    NewestIsMaximal(arrived);
    assert |multiset(arrived)| == |multiset(ordered)|;
    forall e ensures e in arrived <==> e in ordered {
      assert e in multiset(arrived) <==> e in multiset(ordered);
    }
    if |ordered| > 0 {
      var last := ordered[|ordered| - 1];
      assert last in ordered;
      assert last in arrived;
      var i :| 0 <= i < |arrived| && IsFirstNewest(arrived, i, Newest(arrived));
      assert arrived[i] in arrived;
      assert arrived[i] in ordered;
    } else {
      assert |arrived| == |multiset(arrived)|;
    }
  }

  /** After a legal lifecycle that ends in "pause" the container is paused, after "unpause" or "start" it runs. */
  lemma LegalEnds<Info>(slot: Slot<Info>, events: seq<Event>, infos: Event -> Info)
    requires IsLegal(slot, events, infos) && |events| > 0
    ensures KindOf(Replay(slot, events, infos)) == EndKind(events[|events| - 1].status)
  {
    var front, last := events[..|events| - 1], events[|events| - 1];
    LegalStep(Replay(slot, front, infos), last.status, infos(last));
  }

  lemma LegalStep<Info>(slot: Slot<Info>, status: string, inspected: Info)
    requires CanReport(KindOf(slot), status)
    ensures KindOf(Apply(slot, status, Some(inspected))) == EndKind(status)
  {
  }

  /** Where a single status takes a container, whether or not it can be inspected. */
  lemma SingleStatus<Info>(slot: Slot<Info>, status: string, inspect: Option<Info>)
    requires status in LIFECYCLE
    ensures KindOf(Apply(slot, status, inspect)) ==
            if slot.Absent? && status in {"pause", "unpause"} then IsAbsent
            else if !slot.Running? && status == "start" && inspect.None? then IsAbsent
            else EndKind(status)
  {
  }

  lemma EndKinds(status: string)
    requires status in LIFECYCLE
    ensures EndKind(status) == IsAbsent <==> status !in {"pause", "unpause", "start"}
    ensures status in {"pause", "unpause"} ==> EndKind(status) != IsAbsent
  {
  }

  lemma LegalStatus(kind: Kind, status: string)
    requires CanReport(kind, status)
    ensures status in LIFECYCLE
  {
  }

  /** For every legal batch with distinct positive times, however its events arrived, applying only the newest one
      gives the state a full replay gives, except exactly when the container was untracked at the start and the
      batch ends in a pause or an unpause, or when it was not running, the batch ends in a start and it could not be
      inspected. */
  lemma CoalescingMatchesReplay<Info>(slot: Slot<Info>, arrived: seq<Event>, ordered: seq<Event>,
                                      infos: Event -> Info, inspect: Option<Info>)
    requires multiset(arrived) == multiset(ordered)
    requires IsInTimeOrder(ordered) && forall e <- ordered :: e.timeNano > 0
    requires IsLegal(slot, ordered, infos)
    ensures KindOf(Apply(slot, Newest(arrived).1, inspect)) == KindOf(Replay(slot, ordered, infos)) <==>
      !(|ordered| > 0
        && (var last := ordered[|ordered| - 1].status;
            || (slot.Absent? && last in {"pause", "unpause"})
            || (!slot.Running? && last == "start" && inspect.None?)))
  {
    NewestIgnoresOrder(arrived, ordered);
    if |ordered| > 0 {
      var n := |ordered| - 1;
      LegalEnds(slot, ordered, infos);
      LegalStatus(KindOf(Replay(slot, ordered[..n], infos)), ordered[n].status);
      SingleStatus(slot, ordered[n].status, inspect);
      EndKinds(ordered[n].status);
    } else {
      NothingNewer(slot, inspect);
    }
  }

  lemma NothingNewer<Info>(slot: Slot<Info>, inspect: Option<Info>)
    ensures Apply(slot, "", inspect) == slot
  {
  }

  /** An untracked container that starts and is paused within one period stays untracked, though it is paused. */
  lemma StartedAndPaused<Info>(id: string, infos: Event -> Info, inspected: Info)
    ensures var start, pause := Event(id, "start", 1), Event(id, "pause", 2);
      && IsLegal(Absent, [start, pause], infos)
      && KindOf(Replay(Absent, [start, pause], infos)) == IsPaused
      && Apply(Absent, Newest([start, pause]).1, Some(inspected)) == Absent
  {
    var start, pause := Event(id, "start", 1), Event(id, "pause", 2);
    var both := [start, pause];
    assert both[..1] == [start] && both[..0] == [] && [start][..0] == [];
    assert Replay(Absent, [start], infos) == Running(infos(start));
    assert Newest([start]) == (1, "start");
  }

  // ---------- any number of periods ----------

  /** One period of one container: its events as they arrived and in time order, and what an inspection returns,
      if it succeeds. */
  datatype Period<Info> = Period(arrived: seq<Event>, ordered: seq<Event>, inspect: Option<Info>) {
    predicate IsValid() {
      && multiset(arrived) == multiset(ordered)
      && IsInTimeOrder(ordered) && forall e <- ordered :: e.timeNano > 0
    }
  }

  /** The tracker's slot after the periods, each coalesced to its newest event. */
  function Tracked<Info>(slot: Slot<Info>, periods: seq<Period<Info>>): Slot<Info> {
    if |periods| == 0 then slot
    else
      var last := periods[|periods| - 1];
      Apply(Tracked(slot, periods[..|periods| - 1]), Newest(last.arrived).1, last.inspect)
  }

  function EventsOf<Info>(periods: seq<Period<Info>>): seq<Event> {
    if |periods| == 0 then [] else EventsOf(periods[..|periods| - 1]) + periods[|periods| - 1].ordered
  }

  function LastStatus(events: seq<Event>): string {
    if |events| == 0 then "" else events[|events| - 1].status
  }

  /** The kind a container has after its events, whatever the tracker knows. */
  function LivedKind(start: Kind, events: seq<Event>): Kind {
    if |events| == 0 then start else EndKind(LastStatus(events))
  }

  /** The container is unknown to the tracker. A stop or a death hides it; a start shows it when it can be inspected,
      and otherwise only a container that the tracker still takes for running stays known; the rest changes nothing. */
  predicate IsHidden<Info>(start: Kind, periods: seq<Period<Info>>) {
    if |periods| == 0 then start == IsAbsent
    else
      var front, last := periods[..|periods| - 1], periods[|periods| - 1];
      HiddenAfter(IsHidden(start, front), LivedKind(start, EventsOf(front)), LastStatus(last.ordered),
                  last.inspect.Some?)
  }

  predicate HiddenAfter(hidden: bool, kind: Kind, status: string, isInspected: bool) {
    if status == "die" || status == "stop" then true
    else if status == "start" then !isInspected && (hidden || kind != IsRunning)
    else hidden
  }

  lemma {:induction false} LegalPrefix<Info>(slot: Slot<Info>, a: seq<Event>, b: seq<Event>, infos: Event -> Info)
    requires IsLegal(slot, a + b, infos)
    ensures IsLegal(slot, a, infos)
    ensures |b| > 0 ==> LastStatus(b) in LIFECYCLE
  {
    if |b| == 0 {
      assert a + b == a;
    } else {
      var n := |b| - 1;
      assert (a + b)[..|a + b| - 1] == a + b[..n];
      LegalPrefix(slot, a, b[..n], infos);
      LegalStatus(KindOf(Replay(slot, a + b[..n], infos)), b[n].status);
    }
  }

  lemma LegalEnd<Info>(slot: Slot<Info>, events: seq<Event>, infos: Event -> Info)
    requires IsLegal(slot, events, infos) && |events| > 0
    ensures LastStatus(events) in LIFECYCLE
  {
    LegalStatus(KindOf(Replay(slot, events[..|events| - 1], infos)), LastStatus(events));
  }

  lemma LastOfConcat(a: seq<Event>, b: seq<Event>)
    ensures LastStatus(a + b) == if |b| == 0 then LastStatus(a) else LastStatus(b)
    ensures |b| == 0 ==> a + b == a
  {
  }

  lemma NewestOfPeriod<Info>(period: Period<Info>)
    requires period.IsValid()
    ensures Newest(period.arrived).1 == LastStatus(period.ordered)
  {
    NewestIgnoresOrder(period.arrived, period.ordered);
  }

  /** One period with events. */
  lemma TrackedStep<Info>(slot: Slot<Info>, status: string, inspect: Option<Info>, hidden: bool, kind: Kind)
    requires status in LIFECYCLE && (hidden <==> slot.Absent?) && (!hidden ==> KindOf(slot) == kind)
    ensures var next := Apply(slot, status, inspect);
      && (HiddenAfter(hidden, kind, status, inspect.Some?) <==> next.Absent?)
      && (!next.Absent? ==> KindOf(next) == EndKind(status))
  {
    SingleStatus(slot, status, inspect);
    EndKinds(status);
  }

  /** One period, with events or without. */
  lemma PeriodStep<Info>(slot: Slot<Info>, inspect: Option<Info>, start: Kind, hidden: bool,
                         before: seq<Event>, now: seq<Event>)
    requires |now| > 0 ==> LastStatus(now) in LIFECYCLE
    requires (hidden <==> slot.Absent?) && (!hidden ==> KindOf(slot) == LivedKind(start, before))
    ensures var next := Apply(slot, LastStatus(now), inspect);
      && (HiddenAfter(hidden, LivedKind(start, before), LastStatus(now), inspect.Some?) <==> next.Absent?)
      && (!next.Absent? ==> KindOf(next) == LivedKind(start, before + now))
  {
    LastOfConcat(before, now);
    if |now| > 0 {
      TrackedStep(slot, LastStatus(now), inspect, hidden, LivedKind(start, before));
    } else {
      NothingNewer(slot, inspect);
    }
  }

  lemma {:induction false} TrackedKinds<Info>(slot: Slot<Info>, periods: seq<Period<Info>>, infos: Event -> Info)
    requires forall period <- periods :: period.IsValid()
    requires IsLegal(slot, EventsOf(periods), infos)
    ensures IsHidden(KindOf(slot), periods) <==> Tracked(slot, periods).Absent?
    ensures !IsHidden(KindOf(slot), periods) ==>
              KindOf(Tracked(slot, periods)) == LivedKind(KindOf(slot), EventsOf(periods))
  {
    if |periods| > 0 {
      var front, last := periods[..|periods| - 1], periods[|periods| - 1];
      LegalPrefix(slot, EventsOf(front), last.ordered, infos);
      TrackedKinds(slot, front, infos);
      assert last in periods;
      NewestOfPeriod(last);
      PeriodStep(Tracked(slot, front), last.inspect, KindOf(slot), IsHidden(KindOf(slot), front),
                 EventsOf(front), last.ordered);
    }
  }

  lemma ReplayedKind<Info>(slot: Slot<Info>, events: seq<Event>, infos: Event -> Info)
    requires IsLegal(slot, events, infos)
    ensures KindOf(Replay(slot, events, infos)) == LivedKind(KindOf(slot), events)
  {
    if |events| > 0 {
      LegalEnds(slot, events, infos);
    }
  }

  /** Over any number of periods of a legal life, the tracker agrees with a replay of all events so far, except exactly
      while the container is hidden from it and was last started, paused or unpaused. The next period that ends in a
      stop, a death, or a start that can be inspected brings the tracker back in line. */
  lemma TrackingExactly<Info>(slot: Slot<Info>, periods: seq<Period<Info>>, infos: Event -> Info)
    requires forall period <- periods :: period.IsValid()
    requires IsLegal(slot, EventsOf(periods), infos)
    ensures KindOf(Tracked(slot, periods)) == KindOf(Replay(slot, EventsOf(periods), infos)) <==>
            !(IsHidden(KindOf(slot), periods) && LastStatus(EventsOf(periods)) in {"start", "pause", "unpause"})
  {
    TrackedKinds(slot, periods, infos);
    ReplayedKind(slot, EventsOf(periods), infos);
    HiddenWithoutEvents(KindOf(slot), periods);
    if |EventsOf(periods)| > 0 {
      LegalEnd(slot, EventsOf(periods), infos);
      EndKinds(LastStatus(EventsOf(periods)));
    }
  }

  lemma {:induction false} HiddenWithoutEvents<Info>(start: Kind, periods: seq<Period<Info>>)
    ensures |EventsOf(periods)| == 0 ==> (IsHidden(start, periods) <==> start == IsAbsent)
  {
    if |periods| > 0 {
      HiddenWithoutEvents(start, periods[..|periods| - 1]);
    }
  }

  // ---------- what is known of a tracked container ----------

  function InfoOf<Info>(slot: Slot<Info>): (info: Option<Info>)
    ensures info.None? <==> slot.Absent?
  {
    match slot
    case Absent => None
    case Running(i) => Some(i)
    case Paused(i) => Some(i)
  }

  /** After a period whose newest event is a start, or an unpause of a container the tracker holds paused, the inspected
      information is kept, if there is any. After any other one, what is known does not change as long as the container
      stays tracked; in particular a pause keeps it, and so does an unpause or a start that could not be inspected. */
  lemma InformationAfter<Info>(slot: Slot<Info>, arrived: seq<Event>, ordered: seq<Event>, inspect: Option<Info>)
    requires multiset(arrived) == multiset(ordered)
    requires IsInTimeOrder(ordered) && forall e <- ordered :: e.timeNano > 0
    ensures var last, next := LastStatus(ordered), Apply(slot, Newest(arrived).1, inspect);
      && (inspect.Some? && (last == "start" || (last == "unpause" && slot.Paused?)) ==> next == Running(inspect.value))
      && (!(inspect.Some? && (last == "start" || (last == "unpause" && slot.Paused?))) && !next.Absent? ==>
            InfoOf(next) == InfoOf(slot))
  {
    NewestIgnoresOrder(arrived, ordered);
    if |ordered| == 0 {
      NothingNewer(slot, inspect);
    }
  }

  /** Period k renews what is known: its newest event is a start, or an unpause of a container held paused, and the
      inspection succeeds. */
  predicate Renews<Info>(slot: Slot<Info>, periods: seq<Period<Info>>, k: nat)
    requires k < |periods|
  {
    var status := LastStatus(periods[k].ordered);
    periods[k].inspect.Some? && (status == "start" || (status == "unpause" && Tracked(slot, periods[..k]).Paused?))
  }

  lemma RenewsInFront<Info>(slot: Slot<Info>, periods: seq<Period<Info>>, n: nat, k: nat)
    requires k < n <= |periods|
    ensures Renews(slot, periods[..n], k) <==> Renews(slot, periods, k)
  {
    assert periods[..n][..k] == periods[..k];
  }

  lemma InformationStep<Info>(slot: Slot<Info>, periods: seq<Period<Info>>)
    requires |periods| > 0 && periods[|periods| - 1].IsValid()
    ensures var n := |periods| - 1;
      var before, next := Tracked(slot, periods[..n]), Tracked(slot, periods);
      && (Renews(slot, periods, n) ==> next == Running(periods[n].inspect.value))
      && (!Renews(slot, periods, n) && !next.Absent? ==> InfoOf(next) == InfoOf(before))
  {
    var n := |periods| - 1;
    InformationAfter(Tracked(slot, periods[..n]), periods[n].arrived, periods[n].ordered, periods[n].inspect);
    NewestOfPeriod(periods[n]);
  }

  /** Over any number of periods, what the tracker knows of a container is what the last period that renewed it had
      found, or what was known at the start when none has. */
  lemma {:induction false} InformationIsLatest<Info>(slot: Slot<Info>, periods: seq<Period<Info>>)
    requires forall period <- periods :: period.IsValid()
    requires !Tracked(slot, periods).Absent?
    ensures forall k: nat | k < |periods| && Renews(slot, periods, k)
                            && forall j | k < j < |periods| :: !Renews(slot, periods, j) ::
              InfoOf(Tracked(slot, periods)) == periods[k].inspect
    ensures (forall k: nat | k < |periods| :: !Renews(slot, periods, k)) ==>
              InfoOf(Tracked(slot, periods)) == InfoOf(slot)
  {
    if |periods| > 0 {
      var n := |periods| - 1;
      assert periods[n] in periods;
      InformationStep(slot, periods);
      if !Renews(slot, periods, n) {
        var front := periods[..n];
        InformationIsLatest(slot, front);
        forall k: nat | k < n ensures Renews(slot, front, k) <==> Renews(slot, periods, k) {
          RenewsInFront(slot, periods, n, k);
        }
      }
    }
  }
}
