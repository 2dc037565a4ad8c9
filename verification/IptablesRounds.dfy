/** Any number of rounds of the reconciler, some of which could not read the table. */
module IptablesRounds {
  import opened Text
  import opened FilterTable
  import opened IptablesLoader
  import opened IptablesPlan
  import opened IptablesReconcile
  import opened IptablesConvergence

  // ---------- when the table could not be read ----------

  /** Outside the custom chain everything that is not the collector's is the same. */
  ghost predicate SameElsewhere(t: Table, u: Table) {
    && (forall c | c != CUSTOM_CHAIN :: c in t <==> c in u)
    && (forall c <- t | c != CUSTOM_CHAIN && c != DEFAULT_CHAIN :: t[c] == u[c])
    && Without(Rules(t, DEFAULT_CHAIN), [REFERENCE_SPEC]) == Without(Rules(u, DEFAULT_CHAIN), [REFERENCE_SPEC])
  }

  const UNREADABLE := "EXCEPTION"

  lemma UnreadableIsForeign()
    ensures IsForeign(UNREADABLE)
  {
    AbsentChar(UNREADABLE, CHAIN_MARK, ':');
    AbsentChar(UNREADABLE, REFERENCE_MARK, '-');
    AbsentChar(UNREADABLE, RULE_MARK, '-');
  }

  lemma ForeignLoadsNothing(line: string)
    requires IsForeign(line)
    ensures LoadLines([line]) == NOTHING_LOADED
  {
    assert [line][..|[line]| - 1] == [];
  }

  lemma UnreadableLoadsNothing()
    ensures LoadLines(Split(UNREADABLE, '\n')) == NOTHING_LOADED
  {
    UnreadableIsForeign();
    ForeignLoadsNothing(UNREADABLE);
    assert IsWord(UNREADABLE, '\n');
    SplitJoin([UNREADABLE], '\n');
  }

  /** After a failed read the update is printed as if the table were empty. It is still accepted, and it reaches
      the target exactly when there was no reference before; it keeps the foreign rules exactly when the custom
      chain held none. */
  lemma UnreadableUpdate(t: Table, m: RuleMap, ks: seq<string>, plan: seq<string>,
                         wanted: map<string, string>, stale: seq<string>, missing: seq<string>)
    requires IsWellFormed(t)
    requires IsCheckedOut(m, LoadLines(Split(UNREADABLE, '\n')), ks)
    requires IsRuleTable(wanted, wanted.Keys) && (forall id <- wanted :: AllDigits(id)) && |wanted| > 0
    requires IsPlan(plan, m, wanted, stale, missing)
    ensures var r := Restore(t, plan);
      r.Some? && IsWellFormed(r.value) && SameElsewhere(t, r.value)
      && (IsTarget(r.value, wanted.Keys) <==> REFERENCE_SPEC !in t[DEFAULT_CHAIN])
      && (SameOthers(t, r.value) <==> OtherRules(Rules(t, CUSTOM_CHAIN)) == [])
  {
    UnreadablePlan(m, ks, plan, wanted, stale, missing);
    BareUpdate(t, wanted, missing);
    var u := t[CUSTOM_CHAIN := SpecsOf(missing)][DEFAULT_CHAIN := t[DEFAULT_CHAIN] + [REFERENCE_SPEC]];
    UnreadableResult(t, u, wanted.Keys, missing);
    BareElsewhere(t, u, missing);
    SpecsAreOwn(missing);
    BareWellFormed(t, u, SpecsOf(missing));
  }

  /** A clearing that could not read the table prints nothing. */
  lemma UnreadableClearing(m: RuleMap, ks: seq<string>, plan: seq<string>, keys: seq<string>)
    requires IsCheckedOut(m, LoadLines(Split(UNREADABLE, '\n')), ks) && IsClearing(plan, m, keys)
    ensures plan == []
  {
    UnreadableLoadsNothing();
    NothingCheckedOut(m, ks);
    EnumeratesNothing(keys, m.history.Keys);
  }

  lemma BareElsewhere(t: Table, u: Table, missing: seq<string>)
    requires DEFAULT_CHAIN in t
    requires u == t[CUSTOM_CHAIN := SpecsOf(missing)][DEFAULT_CHAIN := t[DEFAULT_CHAIN] + [REFERENCE_SPEC]]
    ensures SameElsewhere(t, u)
  {
    ChainsDiffer();
    WithoutConcat(t[DEFAULT_CHAIN], [REFERENCE_SPEC], [REFERENCE_SPEC]);
  }

  lemma OwnIsText(c: string, specs: seq<Spec>)
    requires forall spec <- specs :: IsOwn(c, spec)
    ensures forall spec <- specs :: IsText(spec)
  {
    forall spec <- specs ensures IsText(spec) {
      OwnLines(c, spec);
    }
  }

  lemma SpecsAreOwn(ids: seq<string>)
    requires forall id <- ids :: AllDigits(id)
    ensures forall spec <- SpecsOf(ids) :: IsOwn(CUSTOM_CHAIN, spec) && IsText(spec)
  {
    forall spec <- SpecsOf(ids) ensures IsOwn(CUSTOM_CHAIN, spec) {
      var i :| 0 <= i < |ids| && spec == CgroupSpec(ids[i]);
      assert ids[i] in ids && CgroupSpec(ids[i])[8] == ids[i];
    }
    OwnIsText(CUSTOM_CHAIN, SpecsOf(ids));
  }

  /** Replacing the custom chain by own rules and adding a reference keeps a table well-formed. */
  lemma BareWellFormed(t: Table, u: Table, specs: seq<Spec>)
    requires IsWellFormed(t) && forall spec <- specs :: IsOwn(CUSTOM_CHAIN, spec) && IsText(spec)
    requires u == t[CUSTOM_CHAIN := specs][DEFAULT_CHAIN := t[DEFAULT_CHAIN] + [REFERENCE_SPEC]]
    ensures IsWellFormed(u)
  {
    ChainsDiffer();
    ChainNamesAreText();
    OwnIsText(DEFAULT_CHAIN, [REFERENCE_SPEC]);
    forall c <- u, spec <- u[c]
      ensures IsText(spec) && (IsOwn(c, spec) || IsForeign(RuleLine(c, spec)))
    {
      if c == DEFAULT_CHAIN {
        assert spec in t[c] || spec in [REFERENCE_SPEC];
      } else if c != CUSTOM_CHAIN {
        assert spec in t[c];
      }
    }
  }

  lemma UnreadablePlan(m: RuleMap, ks: seq<string>, plan: seq<string>,
                       wanted: map<string, string>, stale: seq<string>, missing: seq<string>)
    requires IsCheckedOut(m, LoadLines(Split(UNREADABLE, '\n')), ks) && |wanted| > 0
    requires IsPlan(plan, m, wanted, stale, missing)
    ensures plan == [CREATE_LINE] + Pick(wanted, missing) + [REFERENCE_LINE]
    ensures Enumerates(missing, wanted.Keys)
  {
    UnreadableLoadsNothing();
    NothingCheckedOut(m, ks);
    BarePlan(plan, m, wanted, stale, missing);
  }

  lemma NothingCheckedOut(m: RuleMap, ks: seq<string>)
    requires IsCheckedOut(m, NOTHING_LOADED, ks)
    ensures m == RuleMap("", [], map[], [])
  {
    EnumeratesNothing(ks, Repeated(NOTHING_LOADED.history));
  }

  lemma BarePlan(plan: seq<string>, m: RuleMap, wanted: map<string, string>, stale: seq<string>, missing: seq<string>)
    requires m.create == "" && m.references == [] && m.repetition == [] && m.history.Keys == {}
    requires |wanted| > 0 && IsPlan(plan, m, wanted, stale, missing)
    ensures plan == [CREATE_LINE] + Pick(wanted, missing) + [REFERENCE_LINE]
    ensures Enumerates(missing, wanted.Keys)
  {
    EnumeratesNothing(stale, m.history.Keys - wanted.Keys);
    assert wanted.Keys - m.history.Keys == wanted.Keys;
    BareLines(m, wanted, missing);
  }

  lemma BareLines(m: RuleMap, wanted: map<string, string>, missing: seq<string>)
    requires m.create == "" && m.references == [] && m.repetition == []
    requires |wanted| > 0 && forall k <- missing :: k in wanted
    ensures PlanLines(m, wanted, [], missing) == [CREATE_LINE] + Pick(wanted, missing) + [REFERENCE_LINE]
  {
  }

  lemma BareReference(u: Table)
    requires DEFAULT_CHAIN in u && CUSTOM_CHAIN in u
    ensures Restore(u, [REFERENCE_LINE]) == Some(u[DEFAULT_CHAIN := u[DEFAULT_CHAIN] + [REFERENCE_SPEC]])
  {
    ReferenceParses();
    RestoreOne(u, REFERENCE_LINE);
    assert REFERENCE_SPEC == ["-j", CUSTOM_CHAIN];
  }

  lemma BareChain(t: Table, wanted: map<string, string>, missing: seq<string>)
    requires IsRuleTable(wanted, wanted.Keys) && forall id <- missing :: id in wanted && AllDigits(id)
    ensures Restore(t, [CREATE_LINE] + Pick(wanted, missing)) == Some(t[CUSTOM_CHAIN := SpecsOf(missing)])
  {
    CreateParses();
    RestoreOne(t, CREATE_LINE);
    var t1 := t[CUSTOM_CHAIN := []];
    AddStep(t1, wanted, missing);
    assert [] + SpecsOf(missing) == SpecsOf(missing);
    var t2 := t[CUSTOM_CHAIN := SpecsOf(missing)];
    assert t1[CUSTOM_CHAIN := SpecsOf(missing)] == t2;
    RestoreThen(t, [CREATE_LINE], t1, Pick(wanted, missing), t2);
  }

  lemma BareUpdate(t: Table, wanted: map<string, string>, missing: seq<string>)
    requires DEFAULT_CHAIN in t
    requires IsRuleTable(wanted, wanted.Keys) && forall id <- missing :: id in wanted && AllDigits(id)
    ensures Restore(t, [CREATE_LINE] + Pick(wanted, missing) + [REFERENCE_LINE]) ==
            Some(t[CUSTOM_CHAIN := SpecsOf(missing)][DEFAULT_CHAIN := t[DEFAULT_CHAIN] + [REFERENCE_SPEC]])
  {
    ChainsDiffer();
    BareChain(t, wanted, missing);
    var t2 := t[CUSTOM_CHAIN := SpecsOf(missing)];
    BareReference(t2);
    RestoreThen(t, [CREATE_LINE] + Pick(wanted, missing), t2, [REFERENCE_LINE],
      t2[DEFAULT_CHAIN := t[DEFAULT_CHAIN] + [REFERENCE_SPEC]]);
  }

  lemma BareTarget(t: Table, u: Table, wanted: set<string>, missing: seq<string>)
    requires DEFAULT_CHAIN in t && Enumerates(missing, wanted) && forall id <- wanted :: AllDigits(id)
    requires u == t[CUSTOM_CHAIN := SpecsOf(missing)][DEFAULT_CHAIN := t[DEFAULT_CHAIN] + [REFERENCE_SPEC]]
    ensures IsTarget(u, wanted) <==> REFERENCE_SPEC !in t[DEFAULT_CHAIN]
  {
    ChainsDiffer();
    assert u[CUSTOM_CHAIN] == SpecsOf(missing);
    forall id | AllDigits(id)
      ensures multiset(u[CUSTOM_CHAIN])[CgroupSpec(id)] == if id in wanted then 1 else 0
    {
      CountSpecsOf(missing, CgroupSpec(id));
      assert CgroupSpec(id)[8] == id;
    }
    assert REFERENCE_SPEC in t[DEFAULT_CHAIN] <==> multiset(t[DEFAULT_CHAIN])[REFERENCE_SPEC] > 0;
  }

  lemma UnreadableResult(t: Table, u: Table, wanted: set<string>, missing: seq<string>)
    requires DEFAULT_CHAIN in t && Enumerates(missing, wanted) && forall id <- wanted :: AllDigits(id)
    requires u == t[CUSTOM_CHAIN := SpecsOf(missing)][DEFAULT_CHAIN := t[DEFAULT_CHAIN] + [REFERENCE_SPEC]]
    ensures IsTarget(u, wanted) <==> REFERENCE_SPEC !in t[DEFAULT_CHAIN]
    ensures SameOthers(t, u) <==> OtherRules(Rules(t, CUSTOM_CHAIN)) == []
  {
    ChainsDiffer();
    BareTarget(t, u, wanted, missing);
    WithoutConcat(t[DEFAULT_CHAIN], [REFERENCE_SPEC], [REFERENCE_SPEC]);
    OwnSpecs(missing);
    assert u[CUSTOM_CHAIN] == SpecsOf(missing);
  }

  // ---------- main results: any number of rounds ----------

  /** One reconcile: what was saved and whether it could be read, which ids were wanted, whether clearing was asked for,
      and the script. */
  datatype Round = Round(dump: Dump, readable: bool, classIds: map<string, nat>, clear: bool, script: seq<string>) {
    predicate Clears() { clear || |classIds| == 0 }
  }

  /** An aborted restore leaves the table alone. */
  ghost function After(t: Table, script: seq<string>): Table {
    match Restore(t, script)
    case Some(u) => u
    case None => t
  }

  function OutputOf(r: Round, t: Table): string
    requires forall c <- r.dump.order :: c in t && c in r.dump.policy
  {
    if r.readable then SavedText(r.dump, t) else UNREADABLE
  }

  ghost predicate IsRound(t: Table, r: Round, u: Table) {
    && IsDumpOf(r.dump, t)
    && IsScript(r.script, OutputOf(r, t), r.classIds, r.clear)
    && u == After(t, r.script)
  }

  ghost predicate IsRun(tables: seq<Table>, rounds: seq<Round>) {
    && |tables| == |rounds| + 1
    && forall i | 0 <= i < |rounds| :: IsRound(tables[i], rounds[i], tables[i + 1])
  }

  lemma ClearedSameOthers(t: Table)
    requires IsWellFormed(t) && (CUSTOM_CHAIN !in t || IsRemovable(t))
    ensures SameOthers(t, Cleared(t)) && IsWellFormed(Cleared(t))
  {
    ChainsDiffer();
    WithoutTwice(t[DEFAULT_CHAIN], [REFERENCE_SPEC], [REFERENCE_SPEC]);
    WithoutSame(t[DEFAULT_CHAIN], [REFERENCE_SPEC] + [REFERENCE_SPEC], [REFERENCE_SPEC]);
    StillWellFormed(t, Cleared(t));
  }

  /** The rules wanted by an update script and the ids it drops and adds. */
  lemma UpdateOf(script: seq<string>, m: RuleMap, classIds: map<string, nat>)
    returns (wanted: map<string, string>, stale: seq<string>, missing: seq<string>)
    requires IsUpdateScript(script, m, WantedIds(classIds)) && |classIds| > 0
    ensures IsRuleTable(wanted, wanted.Keys) && wanted.Keys == WantedIds(classIds) && |wanted| > 0
    ensures forall id <- wanted :: AllDigits(id)
    ensures IsPlan(script, m, wanted, stale, missing)
  {
    wanted, stale, missing :| IsRuleTable(wanted, WantedIds(classIds)) && IsPlan(script, m, wanted, stale, missing);
    NoIds(classIds);
    assert |wanted| == |wanted.Keys|;
  }

  lemma ClearRound(t: Table, r: Round, u: Table, m: RuleMap, ks: seq<string>)
    requires IsWellFormed(t) && IsDumpOf(r.dump, t) && r.readable && u == After(t, r.script)
    requires IsCheckedOut(m, LoadLines(Split(SavedText(r.dump, t), '\n')), ks) && IsClearScript(r.script, m)
    ensures IsWellFormed(u) && SameOthers(t, u)
    ensures CUSTOM_CHAIN !in t || IsRemovable(t) ==> u == Cleared(t)
  {
    var keys :| IsClearing(r.script, m, keys);
    ClearingIsExact(t, r.dump, m, ks, r.script, keys);
    if CUSTOM_CHAIN !in t || IsRemovable(t) {
      ClearedSameOthers(t);
    }
  }

  lemma UpdateRound(t: Table, r: Round, u: Table, m: RuleMap, ks: seq<string>)
    requires IsWellFormed(t) && IsDumpOf(r.dump, t) && r.readable && u == After(t, r.script) && |r.classIds| > 0
    requires IsCheckedOut(m, LoadLines(Split(SavedText(r.dump, t), '\n')), ks)
    requires IsUpdateScript(r.script, m, WantedIds(r.classIds))
    ensures IsWellFormed(u) && SameOthers(t, u)
    ensures Restore(t, r.script).Some? && IsTarget(u, WantedIds(r.classIds))
    ensures IsTarget(t, WantedIds(r.classIds)) ==> r.script == []
  {
    var wanted, stale, missing := UpdateOf(r.script, m, r.classIds);
    UpdateConverges(t, r.dump, m, ks, r.script, wanted, stale, missing);
    if IsTarget(t, wanted.Keys) {
      UpdateIsStable(t, r.dump, m, ks, r.script, wanted, stale, missing);
    }
  }

  /** What one round does when the table could be read, stated for the script FlowTag may print. */
  lemma RoundEffect(t: Table, r: Round, u: Table)
    requires IsWellFormed(t) && IsRound(t, r, u) && r.readable
    ensures IsWellFormed(u) && SameOthers(t, u)
    ensures !r.Clears() ==> Restore(t, r.script).Some? && IsTarget(u, WantedIds(r.classIds))
    ensures !r.Clears() && IsTarget(t, WantedIds(r.classIds)) ==> r.script == []
    ensures r.Clears() && (CUSTOM_CHAIN !in t || IsRemovable(t)) ==> u == Cleared(t)
  {
    var l := LoadLines(Split(SavedText(r.dump, t), '\n'));
    var m, ks :| IsCheckedOut(m, l, ks) &&
      if r.Clears() then IsClearScript(r.script, m) else IsUpdateScript(r.script, m, WantedIds(r.classIds));
    if r.Clears() {
      ClearRound(t, r, u, m, ks);
    } else {
      UpdateRound(t, r, u, m, ks);
    }
  }

  /** What one round does when the table could not be read: a clearing does nothing at all, and an update is accepted,
      leaves a well-formed table and touches foreign rules in the custom chain only. */
  lemma UnreadableRound(t: Table, r: Round, u: Table)
    requires IsWellFormed(t) && IsRound(t, r, u) && !r.readable
    ensures IsWellFormed(u) && SameElsewhere(t, u)
    ensures r.Clears() ==> u == t
    ensures !r.Clears() ==> Restore(t, r.script).Some?
    ensures !r.Clears() ==> (IsTarget(u, WantedIds(r.classIds)) <==> REFERENCE_SPEC !in t[DEFAULT_CHAIN])
    ensures !r.Clears() ==> (SameOthers(t, u) <==> OtherRules(Rules(t, CUSTOM_CHAIN)) == [])
  {
    var l := LoadLines(Split(UNREADABLE, '\n'));
    var m, ks :| IsCheckedOut(m, l, ks) &&
      if r.Clears() then IsClearScript(r.script, m) else IsUpdateScript(r.script, m, WantedIds(r.classIds));
    if r.Clears() {
      UnreadableClearRound(t, r, m, ks);
    } else {
      UnreadableUpdateRound(t, r, u, m, ks);
    }
  }

  lemma UnreadableClearRound(t: Table, r: Round, m: RuleMap, ks: seq<string>)
    requires IsCheckedOut(m, LoadLines(Split(UNREADABLE, '\n')), ks) && IsClearScript(r.script, m)
    ensures After(t, r.script) == t
  {
    var keys :| IsClearing(r.script, m, keys);
    UnreadableClearing(m, ks, r.script, keys);
  }

  lemma UnreadableUpdateRound(t: Table, r: Round, u: Table, m: RuleMap, ks: seq<string>)
    requires IsWellFormed(t) && u == After(t, r.script) && |r.classIds| > 0
    requires IsCheckedOut(m, LoadLines(Split(UNREADABLE, '\n')), ks)
    requires IsUpdateScript(r.script, m, WantedIds(r.classIds))
    ensures IsWellFormed(u) && SameElsewhere(t, u) && Restore(t, r.script).Some?
    ensures IsTarget(u, WantedIds(r.classIds)) <==> REFERENCE_SPEC !in t[DEFAULT_CHAIN]
    ensures SameOthers(t, u) <==> OtherRules(Rules(t, CUSTOM_CHAIN)) == []
  {
    var wanted, stale, missing := UpdateOf(r.script, m, r.classIds);
    UnreadableUpdate(t, m, ks, r.script, wanted, stale, missing);
  }

  lemma SameOthersTrans(t: Table, u: Table, v: Table)
    requires SameOthers(t, u) && SameOthers(u, v)
    ensures SameOthers(t, v)
  {
  }

  lemma SameElsewhereTrans(t: Table, u: Table, v: Table)
    requires SameElsewhere(t, u) && SameElsewhere(u, v)
    ensures SameElsewhere(t, v)
  {
  }

  /** Any round, read or not, keeps the table well-formed and foreign rules outside the custom chain as they were. */
  lemma AnyRound(t: Table, r: Round, u: Table)
    requires IsWellFormed(t) && IsRound(t, r, u)
    ensures IsWellFormed(u) && SameElsewhere(t, u)
    ensures r.readable || r.Clears() ==> SameOthers(t, u)
  {
    if r.readable {
      RoundEffect(t, r, u);
    } else {
      UnreadableRound(t, r, u);
    }
  }

  /** The update could be read, or nothing was to be updated. */
  predicate IsSound(r: Round) {
    r.readable || r.Clears()
  }

  /** A run, as far as well-formedness and foreign rules are concerned. */
  ghost predicate IsKeeping(t: Table, r: Round, u: Table) {
    IsWellFormed(t) ==> IsWellFormed(u) && SameElsewhere(t, u) && (IsSound(r) ==> SameOthers(t, u))
  }

  ghost predicate IsKeepingRun(tables: seq<Table>, rounds: seq<Round>) {
    && |tables| == |rounds| + 1
    && forall i | 0 <= i < |rounds| :: IsKeeping(tables[i], rounds[i], tables[i + 1])
  }

  lemma RunIsKeeping(tables: seq<Table>, rounds: seq<Round>)
    requires IsRun(tables, rounds)
    ensures IsKeepingRun(tables, rounds)
  {
    forall i | 0 <= i < |rounds| ensures IsKeeping(tables[i], rounds[i], tables[i + 1]) {
      assert IsRound(tables[i], rounds[i], tables[i + 1]);
      if IsWellFormed(tables[i]) {
        AnyRound(tables[i], rounds[i], tables[i + 1]);
      }
    }
  }

  predicate AllSound(rounds: seq<Round>, n: nat)
    requires n <= |rounds|
  {
    forall j | 0 <= j < n :: IsSound(rounds[j])
  }

  /** What the rounds so far kept; all of it when they were sound. */
  ghost predicate IsKept(first: Table, t: Table, sound: bool) {
    IsWellFormed(t) && SameElsewhere(first, t) && (sound ==> SameOthers(first, t))
  }

  lemma KeptStep(first: Table, t: Table, r: Round, u: Table, sound: bool)
    requires IsKept(first, t, sound) && IsKeeping(t, r, u)
    ensures IsKept(first, u, sound && IsSound(r))
  {
    SameElsewhereTrans(first, t, u);
    if sound && IsSound(r) {
      SameOthersTrans(first, t, u);
    }
  }

  lemma KeptStart(t: Table)
    requires IsWellFormed(t)
    ensures IsKept(t, t, true)
  {
  }

  lemma KeptNext(tables: seq<Table>, rounds: seq<Round>, n: nat)
    requires IsKeepingRun(tables, rounds) && n < |rounds| && IsKept(tables[0], tables[n], AllSound(rounds, n))
    ensures IsKept(tables[0], tables[n + 1], AllSound(rounds, n + 1))
  {
    assert AllSound(rounds, n + 1) <==> AllSound(rounds, n) && IsSound(rounds[n]);
    KeptStep(tables[0], tables[n], rounds[n], tables[n + 1], AllSound(rounds, n));
  }

  lemma {:induction false} KeptOver(tables: seq<Table>, rounds: seq<Round>, n: nat)
    requires IsKeepingRun(tables, rounds) && IsWellFormed(tables[0]) && n <= |rounds|
    ensures IsKept(tables[0], tables[n], AllSound(rounds, n))
  {
    if n == 0 {
      KeptStart(tables[0]);
    } else {
      KeptOver(tables, rounds, n - 1);
      KeptNext(tables, rounds, n - 1);
    }
  }

  /** Over any run of updates and clearings with changing tasks, in which any reads may fail: every update that could
      read the table is accepted and reaches its target; every update is accepted; foreign rules outside the custom
      chain never change, and those in it stay as long as no update failed to read. */
  lemma RunsConverge(tables: seq<Table>, rounds: seq<Round>, i: nat)
    requires IsRun(tables, rounds) && IsWellFormed(tables[0]) && i < |rounds|
    ensures IsWellFormed(tables[i + 1]) && SameElsewhere(tables[0], tables[i + 1])
    ensures !rounds[i].Clears() ==> Restore(tables[i], rounds[i].script).Some?
    ensures !rounds[i].Clears() && rounds[i].readable ==> IsTarget(tables[i + 1], WantedIds(rounds[i].classIds))
    ensures AllSound(rounds, i + 1) ==> SameOthers(tables[0], tables[i + 1])
  {
    RunIsKeeping(tables, rounds);
    KeptOver(tables, rounds, i);
    KeptOver(tables, rounds, i + 1);
    var t, r, u := tables[i], rounds[i], tables[i + 1];
    assert IsRound(t, r, u);
    if r.readable {
      RoundEffect(t, r, u);
    } else {
      UnreadableRound(t, r, u);
    }
  }

  // ---------- foreign rules, one by one ----------

  /** Somewhere in the list x stands before y. */
  ghost predicate Precedes(s: seq<Spec>, x: Spec, y: Spec) {
    exists i, j :: 0 <= i < j < |s| && s[i] == x && s[j] == y
  }

  lemma PrecedesFirst(s: seq<Spec>, x: Spec, y: Spec)
    requires |s| > 0
    ensures Precedes(s, x, y) <==> (s[0] == x && y in s[1..]) || Precedes(s[1..], x, y)
  {
    if Precedes(s, x, y) {
      var i, j :| 0 <= i < j < |s| && s[i] == x && s[j] == y;
      if i == 0 {
        assert s[1..][j - 1] == y;
      } else {
        assert s[1..][i - 1] == x && s[1..][j - 1] == y;
      }
    }
    if Precedes(s[1..], x, y) {
      var i, j :| 0 <= i < j < |s| - 1 && s[1..][i] == x && s[1..][j] == y;
      assert s[i + 1] == x && s[j + 1] == y;
    }
    if s[0] == x && y in s[1..] {
      var j :| 0 <= j < |s| - 1 && s[1..][j] == y;
      assert s[j + 1] == y;
    }
  }

  /** As often as before, and in the same order as before. */
  ghost predicate SamePlaces(before: seq<Spec>, after: seq<Spec>, x: Spec, y: Spec) {
    && multiset(after)[x] == multiset(before)[x] && multiset(after)[y] == multiset(before)[y]
    && (Precedes(after, x, y) <==> Precedes(before, x, y))
  }

  lemma FirstCounts(first: Spec, rest: seq<Spec>, z: Spec)
    ensures multiset([first] + rest)[z] == (if first == z then 1 else 0) + multiset(rest)[z]
  {
  }

  lemma FirstStays(first: Spec, before: seq<Spec>, after: seq<Spec>, x: Spec, y: Spec)
    requires SamePlaces(before, after, x, y)
    ensures SamePlaces([first] + before, [first] + after, x, y)
  {
    var s, u := [first] + before, [first] + after;
    assert s[1..] == before && u[1..] == after;
    PrecedesFirst(s, x, y);
    PrecedesFirst(u, x, y);
    assert y in before <==> multiset(before)[y] > 0;
    assert y in after <==> multiset(after)[y] > 0;
    FirstCounts(first, before, x);
    FirstCounts(first, before, y);
    FirstCounts(first, after, x);
    FirstCounts(first, after, y);
  }

  lemma FirstGoes(first: Spec, before: seq<Spec>, after: seq<Spec>, x: Spec, y: Spec)
    requires SamePlaces(before, after, x, y) && first != x && first != y
    ensures SamePlaces([first] + before, after, x, y)
  {
    var s := [first] + before;
    assert s[1..] == before;
    PrecedesFirst(s, x, y);
    FirstCounts(first, before, x);
    FirstCounts(first, before, y);
  }

  lemma {:induction false} OthersInOrder(s: seq<Spec>, x: Spec, y: Spec)
    requires !IsCgroupRule(x) && !IsCgroupRule(y)
    ensures SamePlaces(s, OtherRules(s), x, y)
  {
    if |s| > 0 {
      var first, rest := s[0], s[1..];
      OthersInOrder(rest, x, y);
      assert s == [first] + rest;
      if IsCgroupRule(first) {
        assert OtherRules(s) == OtherRules(rest);
        FirstGoes(first, rest, OtherRules(rest), x, y);
      } else {
        FirstStays(first, rest, OtherRules(rest), x, y);
      }
    }
  }

  lemma WithoutFirst(first: Spec, rest: seq<Spec>, gone: Spec)
    ensures Without([first] + rest, [gone]) ==
            if first == gone then Without(rest, [gone]) else [first] + Without(rest, [gone])
  {
    assert ([first] + rest)[1..] == rest;
  }

  lemma {:induction false} WithoutInOrder(s: seq<Spec>, gone: Spec, x: Spec, y: Spec)
    requires x != gone && y != gone
    ensures SamePlaces(s, Without(s, [gone]), x, y)
  {
    if |s| > 0 {
      var first, rest := s[0], s[1..];
      WithoutInOrder(rest, gone, x, y);
      WithoutFirst(first, rest, gone);
      if first == gone {
        FirstGoes(first, rest, Without(rest, [gone]), x, y);
      } else {
        FirstStays(first, rest, Without(rest, [gone]), x, y);
      }
      assert s == [first] + rest;
    }
  }

  /** Over any run: every chain but the custom one stays, a third chain unchanged; foreign rules of the default chain
      stay as often and in the same order as at the start, and so do those of the custom chain as long as no update
      failed to read. */
  lemma ForeignRulesStay(tables: seq<Table>, rounds: seq<Round>, i: nat, x: Spec, y: Spec)
    requires IsRun(tables, rounds) && IsWellFormed(tables[0]) && i < |rounds|
    ensures forall c | c != CUSTOM_CHAIN :: c in tables[0] <==> c in tables[i + 1]
    ensures forall c <- tables[0] | c != CUSTOM_CHAIN && c != DEFAULT_CHAIN :: tables[0][c] == tables[i + 1][c]
    ensures x != ["-j", CUSTOM_CHAIN] && y != ["-j", CUSTOM_CHAIN] ==>
      SamePlaces(Rules(tables[0], DEFAULT_CHAIN), Rules(tables[i + 1], DEFAULT_CHAIN), x, y)
    ensures !IsCgroupRule(x) && !IsCgroupRule(y)
            && (forall j | 0 <= j <= i :: rounds[j].readable || rounds[j].Clears()) ==>
      SamePlaces(Rules(tables[0], CUSTOM_CHAIN), Rules(tables[i + 1], CUSTOM_CHAIN), x, y)
  {
    RunsConverge(tables, rounds, i);
    var t, u := tables[0], tables[i + 1];
    if x != REFERENCE_SPEC && y != REFERENCE_SPEC {
      WithoutInOrder(Rules(t, DEFAULT_CHAIN), REFERENCE_SPEC, x, y);
      WithoutInOrder(Rules(u, DEFAULT_CHAIN), REFERENCE_SPEC, x, y);
    }
    if !IsCgroupRule(x) && !IsCgroupRule(y) {
      OthersInOrder(Rules(t, CUSTOM_CHAIN), x, y);
      OthersInOrder(Rules(u, CUSTOM_CHAIN), x, y);
    }
  }

  /** The custom chain counts exactly the given ids: each has one rule, and each class-id rule is that of one. */
  ghost predicate CountsJust(u: Table, classIds: map<string, nat>) {
    && CUSTOM_CHAIN in u
    && (forall name <- classIds :: multiset(u[CUSTOM_CHAIN])[CgroupSpec(NatText(classIds[name]))] == 1)
    && (forall spec <- u[CUSTOM_CHAIN] | IsCgroupRule(spec) ::
          exists name <- classIds :: spec == CgroupSpec(NatText(classIds[name])))
  }

  lemma TargetCountsJust(u: Table, classIds: map<string, nat>)
    requires IsTarget(u, WantedIds(classIds))
    ensures CountsJust(u, classIds)
  {
    forall name <- classIds ensures multiset(u[CUSTOM_CHAIN])[CgroupSpec(NatText(classIds[name]))] == 1 {
      assert NatText(classIds[name]) in WantedIds(classIds);
    }
    forall spec <- u[CUSTOM_CHAIN] | IsCgroupRule(spec)
      ensures exists name <- classIds :: spec == CgroupSpec(NatText(classIds[name]))
    {
      assert multiset(u[CUSTOM_CHAIN])[spec] > 0;
      assert spec[8] in WantedIds(classIds);
    }
  }

  /** Over any run, after each update that could read the table the class id of every name stands in exactly one rule
      of the custom chain, with the text of the whole id, and every class-id rule there is that of some name. */
  lemma TasksAreCounted(tables: seq<Table>, rounds: seq<Round>, i: nat)
    requires IsRun(tables, rounds) && IsWellFormed(tables[0]) && i < |rounds|
    requires rounds[i].readable && !rounds[i].clear && |rounds[i].classIds| > 0
    ensures CUSTOM_CHAIN in tables[i + 1]
    ensures forall name <- rounds[i].classIds ::
              multiset(tables[i + 1][CUSTOM_CHAIN])[CgroupSpec(NatText(rounds[i].classIds[name]))] == 1
    ensures forall spec <- tables[i + 1][CUSTOM_CHAIN] | IsCgroupRule(spec) ::
              exists name <- rounds[i].classIds :: spec == CgroupSpec(NatText(rounds[i].classIds[name]))
  {
    RunsConverge(tables, rounds, i);
    TargetCountsJust(tables[i + 1], rounds[i].classIds);
  }

  /** An update for the ids of the update before it prints an empty script. */
  lemma RepeatedUpdate(t: Table, first: Round, u: Table, second: Round, v: Table)
    requires IsWellFormed(t) && IsRound(t, first, u) && IsRound(u, second, v) && first.readable && second.readable
    requires !first.Clears() && !second.Clears() && WantedIds(first.classIds) == WantedIds(second.classIds)
    ensures second.script == [] && v == u
  {
    RoundEffect(t, first, u);
    RoundEffect(u, second, v);
  }

  // ---------- a table on which both fail ----------

  const FOREIGN_SPEC: Spec := ["-j", "ACCEPT"]

  /** A foreign rule in the custom chain. */
  const SHARED_TABLE: Table := map[DEFAULT_CHAIN := [REFERENCE_SPEC], CUSTOM_CHAIN := [FOREIGN_SPEC]]

  lemma AcceptWords()
    ensures ["-A"] + ([CUSTOM_CHAIN] + FOREIGN_SPEC) == ["-A", CUSTOM_CHAIN] + FOREIGN_SPEC
    ensures IsText(FOREIGN_SPEC)
    ensures forall w <- ["-A", CUSTOM_CHAIN] + FOREIGN_SPEC :: ':' !in w && 'm' !in w
    ensures forall w <- [CUSTOM_CHAIN] + FOREIGN_SPEC :: '-' !in w || 'A' !in w
  {
    ChainIsPlain();
    assert 'm' !in CUSTOM_CHAIN;
    assert [CUSTOM_CHAIN] + FOREIGN_SPEC == [CUSTOM_CHAIN, "-j", "ACCEPT"];
    assert ["-A", CUSTOM_CHAIN] + FOREIGN_SPEC == ["-A", CUSTOM_CHAIN, "-j", "ACCEPT"];
  }

  lemma AcceptLine()
    ensures var line := RuleLine(CUSTOM_CHAIN, FOREIGN_SPEC);
      ':' !in line && 'm' !in line && !Contains(line, REFERENCE_MARK)
  {
    AcceptWords();
    var words := [CUSTOM_CHAIN] + FOREIGN_SPEC;
    JoinChars(["-A", CUSTOM_CHAIN] + FOREIGN_SPEC, ' ', ':');
    JoinChars(["-A", CUSTOM_CHAIN] + FOREIGN_SPEC, ' ', 'm');
    JoinConcat(["-A"], words, ' ');
    assert "-A" + " " == "-A ";
    var rest := Join(words, ' ');
    JoinConcat([CUSTOM_CHAIN], FOREIGN_SPEC, ' ');
    assert rest[0] == CUSTOM_CHAIN[0];
    NoReference(RuleLine(CUSTOM_CHAIN, FOREIGN_SPEC), rest, words);
  }

  lemma ForeignAccept()
    ensures IsText(FOREIGN_SPEC) && IsForeign(RuleLine(CUSTOM_CHAIN, FOREIGN_SPEC))
  {
    AcceptWords();
    AcceptLine();
    var line := RuleLine(CUSTOM_CHAIN, FOREIGN_SPEC);
    AbsentChar(line, CHAIN_MARK, ':');
    assert RULE_MARK[1] == 'm';
    AbsentChar(line, RULE_MARK, 'm');
  }

  lemma SharedTable()
    ensures IsWellFormed(SHARED_TABLE) && OtherRules(Rules(SHARED_TABLE, CUSTOM_CHAIN)) == [FOREIGN_SPEC]
  {
    ChainsDiffer();
    ForeignAccept();
    ChainNamesAreText();
    OwnLines(DEFAULT_CHAIN, REFERENCE_SPEC);
    assert |FOREIGN_SPEC| == 2;
    assert OtherRules([FOREIGN_SPEC][1..]) == [];
  }

  /** Clearing that table is refused whole: the reference stays. */
  lemma SharedClearingFails(d: Dump, m: RuleMap, ks: seq<string>, plan: seq<string>, keys: seq<string>)
    requires IsDumpOf(d, SHARED_TABLE)
    requires IsCheckedOut(m, LoadLines(Split(SavedText(d, SHARED_TABLE), '\n')), ks) && IsClearing(plan, m, keys)
    ensures Restore(SHARED_TABLE, plan) == None
  {
    SharedTable();
    ClearingIsExact(SHARED_TABLE, d, m, ks, plan, keys);
  }

  /** An update of it that could not read it doubles the reference and drops the foreign rule. */
  lemma SharedUnreadableFails(m: RuleMap, ks: seq<string>, plan: seq<string>, wanted: map<string, string>,
                              stale: seq<string>, missing: seq<string>)
    requires IsCheckedOut(m, LoadLines(Split(UNREADABLE, '\n')), ks)
    requires IsRuleTable(wanted, wanted.Keys) && (forall id <- wanted :: AllDigits(id)) && |wanted| > 0
    requires IsPlan(plan, m, wanted, stale, missing)
    ensures var r := Restore(SHARED_TABLE, plan);
      r.Some? && !IsTarget(r.value, wanted.Keys) && !SameOthers(SHARED_TABLE, r.value)
  {
    SharedTable();
    ChainsDiffer();
    UnreadableUpdate(SHARED_TABLE, m, ks, plan, wanted, stale, missing);
  }
}
