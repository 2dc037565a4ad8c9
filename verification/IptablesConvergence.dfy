/** Main results about one round of the reconciler: an update converges, a second update is empty,
    and a clearing removes everything or is refused as a whole. */
module IptablesConvergence {
  import opened Text
  import opened FilterTable
  import opened IptablesLoader
  import opened IptablesPlan
  import opened IptablesReconcile

  // ---------- the goal ----------

  /** Each wanted id has exactly one rule, no other id has any,
      and the default chain refers to the custom chain once. */
  ghost predicate IsTarget(t: Table, wanted: set<string>) {
    && CUSTOM_CHAIN in t && DEFAULT_CHAIN in t
    && multiset(t[DEFAULT_CHAIN])[REFERENCE_SPEC] == 1
    && forall id | AllDigits(id) :: multiset(t[CUSTOM_CHAIN])[CgroupSpec(id)] == if id in wanted then 1 else 0
  }

  /** Everything that is not the collector's is the same in both tables, in the same order. */
  ghost predicate SameOthers(t: Table, u: Table) {
    && (forall c | c != CUSTOM_CHAIN :: c in t <==> c in u)
    && (forall c <- t | c != CUSTOM_CHAIN && c != DEFAULT_CHAIN :: t[c] == u[c])
    && Without(Rules(t, DEFAULT_CHAIN), [REFERENCE_SPEC]) == Without(Rules(u, DEFAULT_CHAIN), [REFERENCE_SPEC])
    && OtherRules(Rules(t, CUSTOM_CHAIN)) == OtherRules(Rules(u, CUSTOM_CHAIN))
  }

  lemma ChainsDiffer()
    ensures DEFAULT_CHAIN != CUSTOM_CHAIN
  {
    assert |DEFAULT_CHAIN| == 6;
  }

  lemma FixedLinesParse()
    ensures ParseCommand(CREATE_LINE) == Create(CUSTOM_CHAIN)
    ensures ParseCommand(REFERENCE_LINE) == Append(DEFAULT_CHAIN, REFERENCE_SPEC)
    ensures ParseCommand(DELETE_REFERENCE_LINE) == Delete(DEFAULT_CHAIN, REFERENCE_SPEC)
    ensures ParseCommand(DROP_LINE) == Drop(CUSTOM_CHAIN)
  {
    CreateParses();
    ReferenceParses();
    DropParses();
  }

  lemma CreateParses()
    ensures ParseCommand(CREATE_LINE) == Create(CUSTOM_CHAIN)
  {
    ChainIsPlain();
    JoinTriple(CHAIN_MARK, "-", "[0:0]");
    assert CHAIN_MARK + " " + "-" + " " + "[0:0]" == CREATE_LINE by {
      assert " " + "-" + " " + "[0:0]" == " - [0:0]";
      assert CHAIN_MARK + " " + "-" + " " + "[0:0]" == CHAIN_MARK + (" " + "-" + " " + "[0:0]");
    }
    var words := [CHAIN_MARK, "-", "[0:0]"];
    assert IsWord(CHAIN_MARK, ' ');
    SplitJoin(words, ' ');
    assert CHAIN_MARK[1..] == CUSTOM_CHAIN;
    assert ":" <= words[0];
  }

  lemma ReferenceParses()
    ensures ParseCommand(REFERENCE_LINE) == Append(DEFAULT_CHAIN, REFERENCE_SPEC)
    ensures ParseCommand(DELETE_REFERENCE_LINE) == Delete(DEFAULT_CHAIN, REFERENCE_SPEC)
  {
    ChainIsPlain();
    ShortWordsArePlain();
    ReferenceWords("-A");
    ReferenceWords("-D");
    assert "-A" + " " == "-A " && "-D" + " " == "-D ";
  }

  lemma ReferenceWords(verb: string)
    requires verb in {"-A", "-D"}
    ensures ParseCommand(verb + " " + DEFAULT_CHAIN + " -j " + CUSTOM_CHAIN) ==
            if verb == "-A" then Append(DEFAULT_CHAIN, REFERENCE_SPEC) else Delete(DEFAULT_CHAIN, REFERENCE_SPEC)
  {
    ChainIsPlain();
    ShortWordsArePlain();
    var words := [verb, DEFAULT_CHAIN, "-j", CUSTOM_CHAIN];
    JoinPair(verb, DEFAULT_CHAIN);
    JoinPair("-j", CUSTOM_CHAIN);
    JoinConcat([verb, DEFAULT_CHAIN], ["-j", CUSTOM_CHAIN], ' ');
    assert [verb, DEFAULT_CHAIN] + ["-j", CUSTOM_CHAIN] == words;
    assert " " + ("-j" + " " + CUSTOM_CHAIN) == " -j " + CUSTOM_CHAIN;
    assert verb + " " + DEFAULT_CHAIN + " " + ("-j" + " " + CUSTOM_CHAIN) ==
           verb + " " + DEFAULT_CHAIN + " -j " + CUSTOM_CHAIN;
    assert IsWord(DEFAULT_CHAIN, ' ');
    ParseJoined(words);
    assert words[2..] == REFERENCE_SPEC;
  }

  lemma DropParses()
    ensures ParseCommand(DROP_LINE) == Drop(CUSTOM_CHAIN)
  {
    ChainIsPlain();
    JoinPair("-X", CUSTOM_CHAIN);
    assert "-X" + " " == "-X ";
    ParseJoined(["-X", CUSTOM_CHAIN]);
  }

  // ---------- an update ----------

  lemma RestoreOne(t: Table, line: string)
    ensures Restore(t, [line]) == Run(t, ParseCommand(line))
  {
  }

  /** The references left when all but the first of n are deleted. */
  lemma DropSpareReferences(t: Table, n: nat)
    requires DEFAULT_CHAIN in t && n <= multiset(t[DEFAULT_CHAIN])[REFERENCE_SPEC]
    ensures var r := Restore(t, seq(n, _ => DELETE_REFERENCE_LINE));
      r.Some? && DEFAULT_CHAIN in r.value && r.value == t[DEFAULT_CHAIN := r.value[DEFAULT_CHAIN]]
      && multiset(r.value[DEFAULT_CHAIN])[REFERENCE_SPEC] == multiset(t[DEFAULT_CHAIN])[REFERENCE_SPEC] - n
      && Without(r.value[DEFAULT_CHAIN], [REFERENCE_SPEC]) == Without(t[DEFAULT_CHAIN], [REFERENCE_SPEC])
  {
    FixedLinesParse();
    var specs := seq(n, _ => REFERENCE_SPEC);
    forall x ensures multiset(specs)[x] == if x == REFERENCE_SPEC then n else 0 {
      CountCopies(n, REFERENCE_SPEC, x);
    }
    RestoreDeletes(t, seq(n, _ => DELETE_REFERENCE_LINE), DEFAULT_CHAIN, specs);
    RemoveEachFacts(t[DEFAULT_CHAIN], specs);
    var rest := RemoveEach(t[DEFAULT_CHAIN], specs).value;
    if n > 0 {
      assert specs[0] in specs;
      WithoutSame(rest, specs, [REFERENCE_SPEC]);
      WithoutSame(t[DEFAULT_CHAIN], specs, [REFERENCE_SPEC]);
    } else {
      assert t == t[DEFAULT_CHAIN := t[DEFAULT_CHAIN]];
    }
  }

  ghost predicate IsVisit(m: RuleMap, wanted: map<string, string>, stale: seq<string>, missing: seq<string>) {
    && IsRuleTable(wanted, wanted.Keys) && (forall id <- wanted :: AllDigits(id)) && |wanted| > 0
    && Enumerates(stale, m.history.Keys - wanted.Keys) && Enumerates(missing, wanted.Keys - m.history.Keys)
  }

  function CreateLines(m: RuleMap): seq<string> {
    if m.create == "" then [CREATE_LINE] else []
  }

  /** The deletion lines for the repeated ids and the given single ones. */
  function DeletionLines(m: RuleMap, keys: seq<string>): seq<string>
    requires forall k <- keys :: k in m.history
  {
    DeleteLines(m.repetition) + DeleteLines(Pick(m.history, keys))
  }

  lemma CreateStep(t: Table, l: Loaded, m: RuleMap, ks: seq<string>)
    requires LoadReads(l, t) && IsCheckedOut(m, l, ks)
    ensures Restore(t, CreateLines(m)) == Some(t[CUSTOM_CHAIN := Rules(t, CUSTOM_CHAIN)])
  {
    FixedLinesParse();
    if m.create == "" {
      RestoreOne(t, CREATE_LINE);
    } else {
      assert t == t[CUSTOM_CHAIN := t[CUSTOM_CHAIN]];
    }
  }

  /** Each deletion finds its match, and together they remove exactly the named rules. */
  lemma DeleteStep(t: Table, l: Loaded, m: RuleMap, ks: seq<string>, keys: seq<string>)
    requires CUSTOM_CHAIN in t
    requires HistoryReads(l.history, t) && IsCheckedOut(m, l, ks)
    requires forall k <- keys :: k in m.history
    requires forall i, j :: 0 <= i < j < |keys| ==> keys[i] != keys[j]
    ensures Restore(t, DeletionLines(m, keys)) ==
            Some(t[CUSTOM_CHAIN := Without(t[CUSTOM_CHAIN], Doomed(l.history, ks, keys))])
  {
    DoomedLines(l, t, ks, keys, m);
    DoomedCounts(l, t, ks, keys);
    RestoreDeletesAll(t, DeletionLines(m, keys), CUSTOM_CHAIN, Doomed(l.history, ks, keys));
  }

  lemma AddStep(t: Table, wanted: map<string, string>, missing: seq<string>)
    requires CUSTOM_CHAIN in t
    requires IsRuleTable(wanted, wanted.Keys) && forall id <- missing :: id in wanted && AllDigits(id)
    ensures Restore(t, Pick(wanted, missing)) == Some(t[CUSTOM_CHAIN := t[CUSTOM_CHAIN] + SpecsOf(missing)])
  {
    forall i | 0 <= i < |missing|
      ensures ParseCommand(Pick(wanted, missing)[i]) == Append(CUSTOM_CHAIN, CgroupSpec(missing[i]))
    {
      assert missing[i] in missing;
      DeletionParses(missing[i]);
    }
    forall x <- SpecsOf(missing) ensures TargetsExist(t, x) {
      var i :| 0 <= i < |missing| && x == CgroupSpec(missing[i]);
      CgroupTarget(t, missing[i]);
    }
    RestoreAppends(t, Pick(wanted, missing), CUSTOM_CHAIN, SpecsOf(missing));
  }

  lemma CgroupTarget(t: Table, id: string)
    requires AllDigits(id)
    ensures TargetsExist(t, CgroupSpec(id))
  {
    var spec := CgroupSpec(id);
    assert "-m"[1] != "-j"[1] && "--cgroup"[1] != "-j"[1] && "--dst-type"[1] != "-j"[1];
    assert !IsDigit("-j"[0]) && "addrtype"[0] != "-j"[0] && "!"[0] != "-j"[0];
    assert "LOCAL"[0] != "-j"[0] && "cgroup"[0] != "-j"[0];
    forall i | 0 <= i < |spec| - 1 && spec[i] == "-j" ensures i == 9 {
    }
  }

  /** Only the custom chain's rules matter to the history. */
  lemma HistoryReadsSame(history: map<string, seq<string>>, t: Table, u: Table)
    requires HistoryReads(history, t) && Rules(t, CUSTOM_CHAIN) == Rules(u, CUSTOM_CHAIN)
    ensures HistoryReads(history, u)
  {
    forall id ensures Occurs(t, id) <==> Occurs(u, id) {
    }
  }

  ghost function UpdatedRules(t: Table, l: Loaded, ks: seq<string>, stale: seq<string>, missing: seq<string>): seq<Spec>
    requires forall k <- ks :: k in l.history
  {
    Without(Rules(t, CUSTOM_CHAIN), Doomed(l.history, ks, stale)) + SpecsOf(missing)
  }

  /** The deletions and additions of an update, once the custom chain exists. */
  lemma ChangeSteps(t: Table, l: Loaded, m: RuleMap, ks: seq<string>,
                    wanted: map<string, string>, stale: seq<string>, missing: seq<string>)
    requires CUSTOM_CHAIN in t
    requires HistoryReads(l.history, t) && IsCheckedOut(m, l, ks) && IsVisit(m, wanted, stale, missing)
    ensures Restore(t, DeletionLines(m, stale) + Pick(wanted, missing)) ==
            Some(t[CUSTOM_CHAIN := UpdatedRules(t, l, ks, stale, missing)])
  {
    DeleteStep(t, l, m, ks, stale);
    var kept := Without(t[CUSTOM_CHAIN], Doomed(l.history, ks, stale));
    AddStep(t[CUSTOM_CHAIN := kept], wanted, missing);
    ChainThen(t, kept, kept + SpecsOf(missing), DeletionLines(m, stale), Pick(wanted, missing));
  }

  /** Two scripts that only set the custom chain. */
  lemma ChainThen(t: Table, now: seq<Spec>, after: seq<Spec>, a: seq<string>, b: seq<string>)
    requires Restore(t, a) == Some(t[CUSTOM_CHAIN := now])
    requires Restore(t[CUSTOM_CHAIN := now], b) == Some(t[CUSTOM_CHAIN := now][CUSTOM_CHAIN := after])
    ensures Restore(t, a + b) == Some(t[CUSTOM_CHAIN := after])
  {
    assert t[CUSTOM_CHAIN := now][CUSTOM_CHAIN := after] == t[CUSTOM_CHAIN := after];
    RestoreThen(t, a, t[CUSTOM_CHAIN := now], b, t[CUSTOM_CHAIN := after]);
  }

  /** The part of an update that concerns the custom chain. */
  lemma UpdateCustomChain(t: Table, l: Loaded, m: RuleMap, ks: seq<string>,
                          wanted: map<string, string>, stale: seq<string>, missing: seq<string>)
    requires LoadReads(l, t) && IsCheckedOut(m, l, ks) && IsVisit(m, wanted, stale, missing)
    ensures Restore(t, CreateLines(m) + (DeletionLines(m, stale) + Pick(wanted, missing))) ==
            Some(t[CUSTOM_CHAIN := UpdatedRules(t, l, ks, stale, missing)])
  {
    CreateStep(t, l, m, ks);
    var t1 := t[CUSTOM_CHAIN := Rules(t, CUSTOM_CHAIN)];
    HistoryReadsSame(l.history, t, t1);
    ChangeSteps(t1, l, m, ks, wanted, stale, missing);
    SameUpdatedRules(t, t1, l, ks, stale, missing);
    ChainThen(t, Rules(t, CUSTOM_CHAIN), UpdatedRules(t, l, ks, stale, missing),
              CreateLines(m), DeletionLines(m, stale) + Pick(wanted, missing));
  }

  lemma SameUpdatedRules(t: Table, u: Table, l: Loaded, ks: seq<string>, stale: seq<string>, missing: seq<string>)
    requires forall k <- ks :: k in l.history
    requires Rules(t, CUSTOM_CHAIN) == Rules(u, CUSTOM_CHAIN)
    ensures UpdatedRules(t, l, ks, stale, missing) == UpdatedRules(u, l, ks, stale, missing)
  {
  }

  /** After the update of the custom chain each wanted id has one rule. */
  lemma UpdatedCount(t: Table, l: Loaded, m: RuleMap, ks: seq<string>,
                     wanted: map<string, string>, stale: seq<string>, missing: seq<string>, id: string)
    requires LoadReads(l, t) && IsCheckedOut(m, l, ks) && IsVisit(m, wanted, stale, missing) && AllDigits(id)
    ensures multiset(UpdatedRules(t, l, ks, stale, missing))[CgroupSpec(id)] == if id in wanted then 1 else 0
  {
    var r := Rules(t, CUSTOM_CHAIN);
    var x := CgroupSpec(id);
    assert x[8] == id && IsCgroupRule(x);
    DoomedCounts(l, t, ks, stale);
    WithoutCounts(r, Doomed(l.history, ks, stale), x);
    CountSpecsOf(missing, x);
    assert id in l.history <==> Occurs(t, id);
    assert x in r <==> multiset(r)[x] > 0;
    assert id in ks <==> id in l.history && |l.history[id]| > 1;
  }

  lemma OwnSpecs(ids: seq<string>)
    requires forall id <- ids :: AllDigits(id)
    ensures OtherRules(SpecsOf(ids)) == []
  {
    forall x <- SpecsOf(ids) ensures IsCgroupRule(x) {
      var i :| 0 <= i < |ids| && x == CgroupSpec(ids[i]);
      assert ids[i] in ids;
    }
    OtherRulesOfOwn(SpecsOf(ids));
  }

  /** Foreign rules of the custom chain are where they were. */
  lemma UpdatedOthers(t: Table, l: Loaded, m: RuleMap, ks: seq<string>,
                      wanted: map<string, string>, stale: seq<string>, missing: seq<string>)
    requires LoadReads(l, t) && IsCheckedOut(m, l, ks) && IsVisit(m, wanted, stale, missing)
    ensures OtherRules(UpdatedRules(t, l, ks, stale, missing)) == OtherRules(Rules(t, CUSTOM_CHAIN))
  {
    var r := Rules(t, CUSTOM_CHAIN);
    var doomed := Doomed(l.history, ks, stale);
    DoomedCounts(l, t, ks, stale);
    OtherRulesSurvive(r, doomed);
    OtherRulesConcat(Without(r, doomed), SpecsOf(missing));
    OwnSpecs(missing);
  }

  // ---------- the references ----------

  function ReferenceLines(m: RuleMap): seq<string> {
    (if |m.references| == 0 then [REFERENCE_LINE] else [])
    + (if |m.references| > 1 then seq(|m.references| - 1, _ => DELETE_REFERENCE_LINE) else [])
  }

  /** The reference part leaves exactly one reference and nothing else changed. */
  lemma ReferenceStep(t: Table, m: RuleMap)
    requires DEFAULT_CHAIN in t && CUSTOM_CHAIN in t
    requires |m.references| == multiset(t[DEFAULT_CHAIN])[REFERENCE_SPEC]
    ensures var r := Restore(t, ReferenceLines(m));
      r.Some? && DEFAULT_CHAIN in r.value && r.value == t[DEFAULT_CHAIN := r.value[DEFAULT_CHAIN]]
      && multiset(r.value[DEFAULT_CHAIN])[REFERENCE_SPEC] == 1
      && Without(r.value[DEFAULT_CHAIN], [REFERENCE_SPEC]) == Without(t[DEFAULT_CHAIN], [REFERENCE_SPEC])
  {
    var n := |m.references|;
    if n == 0 {
      FixedLinesParse();
      assert ReferenceLines(m) == [REFERENCE_LINE];
      RestoreOne(t, REFERENCE_LINE);
      WithoutConcat(t[DEFAULT_CHAIN], [REFERENCE_SPEC], [REFERENCE_SPEC]);
      assert REFERENCE_SPEC == ["-j", CUSTOM_CHAIN];
    } else if n == 1 {
      assert t == t[DEFAULT_CHAIN := t[DEFAULT_CHAIN]];
    } else {
      assert ReferenceLines(m) == seq(n - 1, _ => DELETE_REFERENCE_LINE);
      DropSpareReferences(t, n - 1);
    }
  }

  // ---------- main results: update ----------

  lemma PlanParts(m: RuleMap, wanted: map<string, string>, stale: seq<string>, missing: seq<string>)
    requires IsVisit(m, wanted, stale, missing)
    ensures PlanLines(m, wanted, stale, missing) ==
            (CreateLines(m) + (DeletionLines(m, stale) + Pick(wanted, missing))) + ReferenceLines(m)
  {
  }

  /** The table an update ends in. */
  lemma UpdateResult(t: Table, l: Loaded, m: RuleMap, ks: seq<string>,
                     wanted: map<string, string>, stale: seq<string>, missing: seq<string>)
    requires DEFAULT_CHAIN in t
    requires LoadReads(l, t) && IsCheckedOut(m, l, ks) && IsVisit(m, wanted, stale, missing)
    ensures var r := Restore(t, PlanLines(m, wanted, stale, missing));
      r.Some? && DEFAULT_CHAIN in r.value
      && r.value == t[CUSTOM_CHAIN := UpdatedRules(t, l, ks, stale, missing)][DEFAULT_CHAIN := r.value[DEFAULT_CHAIN]]
      && multiset(r.value[DEFAULT_CHAIN])[REFERENCE_SPEC] == 1
      && Without(r.value[DEFAULT_CHAIN], [REFERENCE_SPEC]) == Without(t[DEFAULT_CHAIN], [REFERENCE_SPEC])
  {
    UpdateCustomChain(t, l, m, ks, wanted, stale, missing);
    var t1 := t[CUSTOM_CHAIN := UpdatedRules(t, l, ks, stale, missing)];
    ChainsDiffer();
    ReferenceStep(t1, m);
    PlanParts(m, wanted, stale, missing);
    RestoreThen(t, CreateLines(m) + (DeletionLines(m, stale) + Pick(wanted, missing)), t1,
      ReferenceLines(m), Restore(t1, ReferenceLines(m)).value);
  }

  /** From any well-formed table, whatever the order in which maps were walked, the whole update script is accepted;
      afterwards each wanted id has exactly one rule, no other id has one, there is one reference,
      and everything else stands as it stood. */
  lemma UpdateConverges(t: Table, d: Dump, m: RuleMap, ks: seq<string>, plan: seq<string>,
                        wanted: map<string, string>, stale: seq<string>, missing: seq<string>)
    requires IsWellFormed(t) && IsDumpOf(d, t)
    requires IsCheckedOut(m, LoadLines(Split(SavedText(d, t), '\n')), ks)
    requires IsRuleTable(wanted, wanted.Keys) && (forall id <- wanted :: AllDigits(id)) && |wanted| > 0
    requires IsPlan(plan, m, wanted, stale, missing)
    ensures var r := Restore(t, plan);
      r.Some? && IsTarget(r.value, wanted.Keys) && SameOthers(t, r.value) && IsWellFormed(r.value)
  {
    var l := LoadLines(Split(SavedText(d, t), '\n'));
    LoadingReadsTable(d, t);
    UpdateResult(t, l, m, ks, wanted, stale, missing);
    var u := Restore(t, plan).value;
    var rules := UpdatedRules(t, l, ks, stale, missing);
    forall id | AllDigits(id)
      ensures multiset(rules)[CgroupSpec(id)] == if id in wanted then 1 else 0
    {
      UpdatedCount(t, l, m, ks, wanted, stale, missing, id);
    }
    UpdatedOthers(t, l, m, ks, wanted, stale, missing);
    ReachesTarget(t, u, rules, wanted.Keys);
    StillWellFormed(t, u);
  }

  lemma ReachesTarget(t: Table, u: Table, rules: seq<Spec>, wanted: set<string>)
    requires DEFAULT_CHAIN in t && DEFAULT_CHAIN in u
    requires u == t[CUSTOM_CHAIN := rules][DEFAULT_CHAIN := u[DEFAULT_CHAIN]]
    requires multiset(u[DEFAULT_CHAIN])[REFERENCE_SPEC] == 1
    requires Without(u[DEFAULT_CHAIN], [REFERENCE_SPEC]) == Without(t[DEFAULT_CHAIN], [REFERENCE_SPEC])
    requires forall id | AllDigits(id) :: multiset(rules)[CgroupSpec(id)] == if id in wanted then 1 else 0
    requires OtherRules(rules) == OtherRules(Rules(t, CUSTOM_CHAIN))
    ensures IsTarget(u, wanted) && SameOthers(t, u)
  {
    ChainsDiffer();
    assert u[CUSTOM_CHAIN] == rules;
  }

  lemma {:induction false} InOtherRules(specs: seq<Spec>, x: Spec)
    ensures x in OtherRules(specs) <==> x in specs && !IsCgroupRule(x)
  {
    if |specs| > 0 {
      InOtherRules(specs[1..], x);
      assert specs == [specs[0]] + specs[1..];
    }
  }

  /** A rule that is not the collector's was in the table before. */
  lemma ForeignWasThere(t: Table, u: Table, c: string, spec: Spec)
    requires SameOthers(t, u) && DEFAULT_CHAIN in u && c in u && spec in u[c] && !IsOwn(c, spec)
    ensures c in t && spec in t[c]
  {
    ChainsDiffer();
    if c == CUSTOM_CHAIN {
      InOtherRules(u[c], spec);
      InOtherRules(Rules(t, CUSTOM_CHAIN), spec);
    } else if c == DEFAULT_CHAIN {
      WithoutCounts(u[c], [REFERENCE_SPEC], spec);
      WithoutCounts(Rules(t, c), [REFERENCE_SPEC], spec);
      assert multiset(u[c])[spec] > 0;
      assert multiset(Rules(t, c))[spec] > 0;
    }
  }

  lemma NamesStillText(t: Table, u: Table)
    requires IsWellFormed(t) && SameOthers(t, u)
    ensures forall c <- u :: IsText([c])
  {
    ChainNamesAreText();
    forall c <- u ensures IsText([c]) {
      if c != CUSTOM_CHAIN {
        assert c in t;
      }
    }
  }

  /** A table that differs only in the collector's own rules is still well-formed. */
  lemma ChainStillFine(t: Table, u: Table, c: string)
    requires IsWellFormed(t) && SameOthers(t, u) && DEFAULT_CHAIN in u && c in u
    ensures forall spec <- u[c] :: IsText(spec) && (IsOwn(c, spec) || IsForeign(RuleLine(c, spec)))
  {
    forall spec <- u[c]
      ensures IsText(spec) && (IsOwn(c, spec) || IsForeign(RuleLine(c, spec)))
    {
      RuleStillFine(t, u, c, spec);
    }
  }

  lemma StillWellFormed(t: Table, u: Table)
    requires IsWellFormed(t) && SameOthers(t, u) && DEFAULT_CHAIN in u
    ensures IsWellFormed(u)
  {
    NamesStillText(t, u);
    forall c <- u {
      ChainStillFine(t, u, c);
    }
  }

  lemma RuleStillFine(t: Table, u: Table, c: string, spec: Spec)
    requires IsWellFormed(t) && SameOthers(t, u) && DEFAULT_CHAIN in u && c in u && spec in u[c]
    ensures IsText(spec) && (IsOwn(c, spec) || IsForeign(RuleLine(c, spec)))
  {
    if IsOwn(c, spec) {
      OwnLines(c, spec);
    } else {
      ForeignWasThere(t, u, c, spec);
    }
  }

  /** A second update of a converged table prints nothing. */
  lemma UpdateIsStable(t: Table, d: Dump, m: RuleMap, ks: seq<string>, plan: seq<string>,
                       wanted: map<string, string>, stale: seq<string>, missing: seq<string>)
    requires IsWellFormed(t) && IsDumpOf(d, t) && IsTarget(t, wanted.Keys)
    requires IsCheckedOut(m, LoadLines(Split(SavedText(d, t), '\n')), ks)
    requires forall id <- wanted :: AllDigits(id)
    requires IsPlan(plan, m, wanted, stale, missing)
    ensures plan == []
  {
    var l := LoadLines(Split(SavedText(d, t), '\n'));
    LoadingReadsTable(d, t);
    forall id ensures id in l.history <==> id in wanted {
      assert id in l.history <==> Occurs(t, id);
      if AllDigits(id) {
        assert CgroupSpec(id) in t[CUSTOM_CHAIN] <==> multiset(t[CUSTOM_CHAIN])[CgroupSpec(id)] > 0;
      }
    }
    forall id | id in l.history ensures |l.history[id]| == 1 {
      assert Occurs(t, id);
    }
    assert Repeated(l.history) == {};
    EnumeratesNothing(ks, Repeated(l.history));
    assert m.history.Keys == wanted.Keys;
    EnumeratesNothing(stale, m.history.Keys - wanted.Keys);
    EnumeratesNothing(missing, wanted.Keys - m.history.Keys);
  }

  // ---------- main results: clearing ----------

  /** Outside the custom chain only the collector's references jump to it. */
  ghost predicate IsOnlyReferenced(t: Table) {
    forall c <- t | c != CUSTOM_CHAIN :: forall spec <- t[c] | JumpsTo(spec, CUSTOM_CHAIN) ::
      c == DEFAULT_CHAIN && spec == REFERENCE_SPEC
  }

  /** Nothing but the collector's own rules holds the custom chain in place. */
  ghost predicate IsRemovable(t: Table) {
    OtherRules(Rules(t, CUSTOM_CHAIN)) == [] && IsOnlyReferenced(t)
  }

  /** The table without the custom chain and without the references to it. */
  function Cleared(t: Table): Table
    requires DEFAULT_CHAIN in t
  {
    t[DEFAULT_CHAIN := Without(t[DEFAULT_CHAIN], [REFERENCE_SPEC])] - {CUSTOM_CHAIN}
  }

  lemma {:induction false} WithoutOwn(specs: seq<Spec>, doomed: seq<Spec>)
    requires forall x <- specs :: x in doomed <==> IsCgroupRule(x)
    ensures Without(specs, doomed) == OtherRules(specs)
  {
    if |specs| > 0 {
      assert specs[0] in specs;
      WithoutOwn(specs[1..], doomed);
    }
  }

  /** All of the collector's rules go; the others stay in order. */
  lemma ClearRules(t: Table, l: Loaded, m: RuleMap, ks: seq<string>, keys: seq<string>)
    requires CUSTOM_CHAIN in t && LoadReads(l, t) && IsCheckedOut(m, l, ks) && Enumerates(keys, m.history.Keys)
    ensures Restore(t, DeletionLines(m, keys)) == Some(t[CUSTOM_CHAIN := OtherRules(t[CUSTOM_CHAIN])])
  {
    DeleteStep(t, l, m, ks, keys);
    var doomed := Doomed(l.history, ks, keys);
    DoomedCounts(l, t, ks, keys);
    forall x <- t[CUSTOM_CHAIN] ensures x in doomed <==> IsCgroupRule(x) {
      if IsCgroupRule(x) {
        assert Occurs(t, x[8]);
        assert multiset(t[CUSTOM_CHAIN])[x] > 0;
        assert x[8] in l.history;
      }
    }
    WithoutOwn(t[CUSTOM_CHAIN], doomed);
  }

  lemma ClearReferences(t: Table, m: RuleMap)
    requires DEFAULT_CHAIN in t && |m.references| == multiset(t[DEFAULT_CHAIN])[REFERENCE_SPEC]
    ensures Restore(t, seq(|m.references|, _ => DELETE_REFERENCE_LINE)) ==
            Some(t[DEFAULT_CHAIN := Without(t[DEFAULT_CHAIN], [REFERENCE_SPEC])])
  {
    DropSpareReferences(t, |m.references|);
    var rest := Restore(t, seq(|m.references|, _ => DELETE_REFERENCE_LINE)).value[DEFAULT_CHAIN];
    forall x <- rest ensures x !in [REFERENCE_SPEC] {
      assert multiset(rest)[x] > 0;
    }
    WithoutIsId(rest, [REFERENCE_SPEC]);
  }

  lemma NothingToDelete(t: Table, l: Loaded, m: RuleMap, ks: seq<string>, keys: seq<string>)
    requires CUSTOM_CHAIN !in t && LoadReads(l, t) && IsCheckedOut(m, l, ks) && Enumerates(keys, m.history.Keys)
    ensures DeletionLines(m, keys) == []
  {
    forall id ensures id !in l.history {
      assert id in l.history <==> Occurs(t, id);
    }
    EnumeratesNothing(ks, Repeated(l.history));
    EnumeratesNothing(keys, m.history.Keys);
  }

  lemma DefaultAfter(t: Table, x: Spec)
    requires DEFAULT_CHAIN in t
    ensures x in Without(t[DEFAULT_CHAIN], [REFERENCE_SPEC]) <==> x in t[DEFAULT_CHAIN] && x != REFERENCE_SPEC
  {
    var d := t[DEFAULT_CHAIN];
    WithoutCounts(d, [REFERENCE_SPEC], x);
    assert x in Without(d, [REFERENCE_SPEC]) <==> multiset(Without(d, [REFERENCE_SPEC]))[x] > 0;
    assert x in d <==> multiset(d)[x] > 0;
  }

  lemma ReferencedAfter(t: Table, u: Table)
    requires DEFAULT_CHAIN in t && CUSTOM_CHAIN in t
    requires u == t[CUSTOM_CHAIN := OtherRules(t[CUSTOM_CHAIN])]
                   [DEFAULT_CHAIN := Without(t[DEFAULT_CHAIN], [REFERENCE_SPEC])]
    ensures (u[CUSTOM_CHAIN] == [] && !Referenced(u, CUSTOM_CHAIN)) <==> IsRemovable(t)
  {
    ChainsDiffer();
    forall x ensures x in u[DEFAULT_CHAIN] <==> x in t[DEFAULT_CHAIN] && x != REFERENCE_SPEC {
      DefaultAfter(t, x);
    }
    assert forall c <- t | c != CUSTOM_CHAIN && c != DEFAULT_CHAIN :: c in u && u[c] == t[c];
  }

  lemma ClearPresent(t: Table, l: Loaded, m: RuleMap, ks: seq<string>, keys: seq<string>)
    requires DEFAULT_CHAIN in t && CUSTOM_CHAIN in t
    requires LoadReads(l, t) && IsCheckedOut(m, l, ks) && Enumerates(keys, m.history.Keys)
    ensures Restore(t, (DeletionLines(m, keys) + seq(|m.references|, _ => DELETE_REFERENCE_LINE)) + [DROP_LINE]) ==
            if IsRemovable(t) then Some(Cleared(t)) else None
  {
    var refs := seq(|m.references|, _ => DELETE_REFERENCE_LINE);
    ChainsDiffer();
    ClearRules(t, l, m, ks, keys);
    var t1 := t[CUSTOM_CHAIN := OtherRules(t[CUSTOM_CHAIN])];
    ClearReferences(t1, m);
    var t2 := t1[DEFAULT_CHAIN := Without(t[DEFAULT_CHAIN], [REFERENCE_SPEC])];
    RestoreThen(t, DeletionLines(m, keys), t1, refs, t2);
    ClearDrop(t, t2, DeletionLines(m, keys) + refs);
  }

  lemma ClearDrop(t: Table, t2: Table, before: seq<string>)
    requires DEFAULT_CHAIN in t && CUSTOM_CHAIN in t
    requires t2 == t[CUSTOM_CHAIN := OtherRules(t[CUSTOM_CHAIN])]
                    [DEFAULT_CHAIN := Without(t[DEFAULT_CHAIN], [REFERENCE_SPEC])]
    requires Restore(t, before) == Some(t2)
    ensures Restore(t, before + [DROP_LINE]) == if IsRemovable(t) then Some(Cleared(t)) else None
  {
    RestoreConcat(t, before, [DROP_LINE]);
    DropParses();
    RestoreOne(t2, DROP_LINE);
    ReferencedAfter(t, t2);
    assert t2 - {CUSTOM_CHAIN} == Cleared(t);
  }

  lemma ClearAbsent(t: Table, l: Loaded, m: RuleMap, ks: seq<string>, keys: seq<string>)
    requires DEFAULT_CHAIN in t && CUSTOM_CHAIN !in t
    requires LoadReads(l, t) && IsCheckedOut(m, l, ks) && Enumerates(keys, m.history.Keys)
    ensures Restore(t, DeletionLines(m, keys) + seq(|m.references|, _ => DELETE_REFERENCE_LINE)) == Some(Cleared(t))
  {
    var refs := seq(|m.references|, _ => DELETE_REFERENCE_LINE);
    NothingToDelete(t, l, m, ks, keys);
    ClearReferences(t, m);
    assert [] + refs == refs;
    ChainsDiffer();
    assert t[DEFAULT_CHAIN := Without(t[DEFAULT_CHAIN], [REFERENCE_SPEC])] - {CUSTOM_CHAIN}
        == t[DEFAULT_CHAIN := Without(t[DEFAULT_CHAIN], [REFERENCE_SPEC])];
  }

  /** A clearing script is accepted exactly when no foreign rule sits in the custom chain and no foreign rule
      jumps to it; then every trace of the chain is gone and nothing else. Otherwise nothing happens at all. */
  lemma ClearingIsExact(t: Table, d: Dump, m: RuleMap, ks: seq<string>, plan: seq<string>, keys: seq<string>)
    requires IsWellFormed(t) && IsDumpOf(d, t)
    requires IsCheckedOut(m, LoadLines(Split(SavedText(d, t), '\n')), ks)
    requires IsClearing(plan, m, keys)
    ensures Restore(t, plan) == if CUSTOM_CHAIN in t && !IsRemovable(t) then None else Some(Cleared(t))
  {
    var l := LoadLines(Split(SavedText(d, t), '\n'));
    LoadingReadsTable(d, t);
    ChainsDiffer();
    var refs := seq(|m.references|, _ => DELETE_REFERENCE_LINE);
    var drop := if m.create != "" then [DROP_LINE] else [];
    assert plan == (DeletionLines(m, keys) + refs) + drop;
    if CUSTOM_CHAIN !in t {
      assert m.create == "";
      ClearAbsent(t, l, m, ks, keys);
      assert plan == DeletionLines(m, keys) + refs;
    } else {
      ClearPresent(t, l, m, ks, keys);
    }
  }
}
