/** The restore scripts the reconciler prints. Maps are walked in an arbitrary order, so each script is
    described up to the orders in which its keys were visited. */
module IptablesPlan {
  import opened Text
  import opened IptablesLoader

  const CREATE_LINE := ":" + CUSTOM_CHAIN + " - [0:0]"
  const REFERENCE_LINE := REFERENCE_MARK
  const DELETE_REFERENCE_LINE := "-D " + DEFAULT_CHAIN + " -j " + CUSTOM_CHAIN
  const DROP_LINE := "-X " + CUSTOM_CHAIN

  lemma PrintedReference()
    ensures REFERENCE_LINE == "-A OUTPUT -j PAI_OUTPUT_CGROUP"
  {
  }

  lemma PrintedDeletion()
    ensures DELETE_REFERENCE_LINE == "-D OUTPUT -j PAI_OUTPUT_CGROUP"
  {
  }

  lemma PrintedCreation()
    ensures CREATE_LINE == ":PAI_OUTPUT_CGROUP - [0:0]" && DROP_LINE == "-X PAI_OUTPUT_CGROUP"
  {
  }

  /** The lines as the operator sees them. */
  lemma PrintedLines()
    ensures CREATE_LINE == ":PAI_OUTPUT_CGROUP - [0:0]" && DROP_LINE == "-X PAI_OUTPUT_CGROUP"
    ensures REFERENCE_LINE == "-A OUTPUT -j PAI_OUTPUT_CGROUP"
    ensures DELETE_REFERENCE_LINE == "-D OUTPUT -j PAI_OUTPUT_CGROUP"
  {
    PrintedCreation();
    PrintedReference();
    PrintedDeletion();
  }

  /** The words of a printed rule. */
  lemma PrintedRule(id: string, words: seq<string>)
    requires words == ["-A", CUSTOM_CHAIN, "-m", "addrtype", "!", "--dst-type", "LOCAL",
                       "-m", "cgroup", "--cgroup", id, "-j", "RETURN"]
    ensures AddRule(id) == Join(words, ' ')
    ensures AllDigits(id) ==> Split(AddRule(id), ' ') == words
  {
    AddRuleWords(id);
    assert ["-A", CUSTOM_CHAIN] + CgroupSpec(id) == words;
    if AllDigits(id) {
      OwnWordChars(id);
      SplitJoin(words, ' ');
    }
  }

  /** The class ids in use, as texts. */
  ghost function WantedIds(classIds: map<string, nat>): set<string> {
    set name | name in classIds :: NatText(classIds[name])
  }

  /** One rule per distinct class id, whatever the number of tasks sharing it. */
  method TasksFlowRules(classIds: map<string, nat>) returns (rules: map<string, string>)
    ensures rules.Keys == WantedIds(classIds)
    ensures forall name <- classIds :: NatText(classIds[name]) in rules
    ensures forall id <- rules :: exists name <- classIds :: id == NatText(classIds[name])
    ensures forall id <- rules :: rules[id] == AddRule(id)
  {
    rules := map[];
    var todo := classIds.Keys;
    while todo != {}
      invariant todo <= classIds.Keys
      invariant rules.Keys == set name | name in classIds && name !in todo :: NatText(classIds[name])
      invariant forall id <- rules :: rules[id] == AddRule(id)
      decreases |todo|
    {
      var name :| name in todo;
      rules := rules[NatText(classIds[name]) := AddRule(NatText(classIds[name]))];
      todo := todo - {name};
    }
  }

  /** The keys of a that b lacks, in some order. */
  method DifferenceSet(a: map<string, string>, b: map<string, string>) returns (keys: seq<string>)
    ensures Enumerates(keys, a.Keys - b.Keys)
  {
    keys := [];
    var todo := a.Keys;
    while todo != {}
      invariant todo <= a.Keys
      invariant forall k :: k in keys <==> k in a && k !in b && k !in todo
      invariant forall i, j :: 0 <= i < j < |keys| ==> keys[i] != keys[j]
      decreases |todo|
    {
      var key :| key in todo;
      if key !in b {
        assert key !in keys;
        keys := keys + [key];
      }
      todo := todo - {key};
    }
  }

  function DeleteLines(texts: seq<string>): seq<string> {
    seq(|texts|, i requires 0 <= i < |texts| => "-D " + texts[i])
  }

  function Pick(m: map<string, string>, keys: seq<string>): seq<string>
    requires forall k <- keys :: k in m
  {
    seq(|keys|, i requires 0 <= i < |keys| => m[keys[i]])
  }

  /** The update script for one visiting order of the stale and of the new ids. */
  ghost function PlanLines(m: RuleMap, wanted: map<string, string>, stale: seq<string>,
                           missing: seq<string>): seq<string>
    requires forall k <- stale :: k in m.history
    requires forall k <- missing :: k in wanted
  {
    (if m.create == "" && |wanted| > 0 then [CREATE_LINE] else [])
    + DeleteLines(m.repetition)
    + DeleteLines(Pick(m.history, stale))
    + Pick(wanted, missing)
    + (if |m.references| == 0 && |wanted| > 0 then [REFERENCE_LINE] else [])
    + (if |m.references| > 1 then seq(|m.references| - 1, _ => DELETE_REFERENCE_LINE) else [])
  }

  ghost predicate IsPlan(plan: seq<string>, m: RuleMap, wanted: map<string, string>, stale: seq<string>,
                         missing: seq<string>) {
    && Enumerates(stale, m.history.Keys - wanted.Keys)
    && Enumerates(missing, wanted.Keys - m.history.Keys)
    && plan == PlanLines(m, wanted, stale, missing)
  }

  method AppendDeletions(plan: seq<string>, texts: seq<string>) returns (longer: seq<string>)
    ensures longer == plan + DeleteLines(texts)
  {
    longer := plan;
    for i := 0 to |texts|
      invariant longer == plan + DeleteLines(texts)[..i]
    {
      longer := longer + ["-D " + texts[i]];
    }
  }

  method GenerateRules(m: RuleMap, wanted: map<string, string>) returns (plan: seq<string>)
    ensures exists stale, missing :: IsPlan(plan, m, wanted, stale, missing)
  {
    var head := if m.create == "" && |wanted| > 0 then [CREATE_LINE] else [];
    plan := AppendDeletions(head, m.repetition);

    var staleKeys := DifferenceSet(m.history, wanted);
    plan := AppendDeletions(plan, Pick(m.history, staleKeys));

    var missingKeys := DifferenceSet(wanted, m.history);
    plan := plan + Pick(wanted, missingKeys);

    if |m.references| == 0 && |wanted| > 0 {
      plan := plan + [REFERENCE_LINE];
    }
    if |m.references| > 1 {
      ghost var before := plan;
      // the first reference stays
      for i := 1 to |m.references|
        invariant plan == before + seq(i - 1, _ => DELETE_REFERENCE_LINE)
      {
        plan := plan + [DELETE_REFERENCE_LINE];
      }
    }
    assert IsPlan(plan, m, wanted, staleKeys, missingKeys);
  }

  /** Without class ids in use an update script would only delete. */
  lemma NothingWanted(plan: seq<string>, m: RuleMap, stale: seq<string>, missing: seq<string>)
    requires IsPlan(plan, m, map[], stale, missing)
    ensures forall line <- plan :: "-D " <= line
  {
    var wanted: map<string, string> := map[];
    EnumeratesNothing(missing, wanted.Keys - m.history.Keys);
    PrintedDeletion();
    forall line <- plan ensures "-D " <= line {
      assert line in DeleteLines(m.repetition) || line in DeleteLines(Pick(m.history, stale))
        || line == DELETE_REFERENCE_LINE;
    }
  }

  /** The clearing script for one visiting order of the ids. */
  ghost function ClearLines(m: RuleMap, keys: seq<string>): seq<string>
    requires forall k <- keys :: k in m.history
  {
    DeleteLines(m.repetition)
    + DeleteLines(Pick(m.history, keys))
    + seq(|m.references|, _ => DELETE_REFERENCE_LINE)
    + (if m.create != "" then [DROP_LINE] else [])
  }

  ghost predicate IsClearing(plan: seq<string>, m: RuleMap, keys: seq<string>) {
    Enumerates(keys, m.history.Keys) && plan == ClearLines(m, keys)
  }

  lemma PickMore(rules: map<string, string>, keys: seq<string>, key: string)
    requires key in rules && forall k <- keys :: k in rules
    ensures DeleteLines(Pick(rules, keys + [key])) == DeleteLines(Pick(rules, keys)) + ["-D " + rules[key]]
  {
  }

  method ClearChainRules(m: RuleMap) returns (plan: seq<string>)
    ensures exists keys :: IsClearing(plan, m, keys)
  {
    plan := AppendDeletions([], m.repetition);
    var todo := m.history.Keys;
    ghost var keys: seq<string> := [];
    while todo != {}
      invariant todo <= m.history.Keys
      invariant forall k :: k in keys <==> k in m.history && k !in todo
      invariant forall i, j :: 0 <= i < j < |keys| ==> keys[i] != keys[j]
      invariant plan == DeleteLines(m.repetition) + DeleteLines(Pick(m.history, keys))
      decreases |todo|
    {
      var key :| key in todo;
      PickMore(m.history, keys, key);
      plan := plan + ["-D " + m.history[key]];
      keys := keys + [key];
      todo := todo - {key};
    }
    ghost var head := plan;
    for i := 0 to |m.references|
      invariant plan == head + seq(i, _ => DELETE_REFERENCE_LINE)
    {
      plan := plan + [DELETE_REFERENCE_LINE];
    }
    if m.create != "" {
      plan := plan + [DROP_LINE];
    }
    assert IsClearing(plan, m, keys);
  }

  /** The script is one the reconciler may print after reading the saved table in output. */
  ghost predicate IsScript(script: seq<string>, output: string, classIds: map<string, nat>, clear: bool) {
    exists m, ks :: IsCheckedOut(m, LoadLines(Split(output, '\n')), ks) &&
      if clear || |classIds| == 0
      then IsClearScript(script, m)
      else IsUpdateScript(script, m, WantedIds(classIds))
  }

  ghost predicate IsClearScript(script: seq<string>, m: RuleMap) {
    exists keys :: IsClearing(script, m, keys)
  }

  ghost predicate IsUpdateScript(script: seq<string>, m: RuleMap, ids: set<string>) {
    exists wanted, stale, missing :: IsRuleTable(wanted, ids) && IsPlan(script, m, wanted, stale, missing)
  }

  ghost predicate IsRuleTable(rules: map<string, string>, ids: set<string>) {
    rules.Keys == ids && forall id <- rules :: rules[id] == AddRule(id)
  }

  /** One reconcile: clear when told to or when no task needs a rule, update otherwise. */
  method FlowTag(onlyMachine: bool, clear: bool, classIds: map<string, nat>, output: string)
    returns (script: seq<string>)
    ensures IsScript(script, output, classIds, clear || onlyMachine)
  {
    if clear || onlyMachine {
      var m := LoadRules(output);
      script := ClearChainRules(m);
      return;
    }
    var wanted := TasksFlowRules(classIds);
    NoIds(classIds);
    var m := LoadRules(output);
    if |wanted| == 0 {
      script := ClearChainRules(m);
      return;
    }
    script := GenerateRules(m, wanted);
    assert IsRuleTable(wanted, WantedIds(classIds));
  }

  lemma NoIds(classIds: map<string, nat>)
    ensures |WantedIds(classIds)| == 0 <==> |classIds| == 0
  {
    if |classIds| > 0 {
      var name :| name in classIds;
      assert NatText(classIds[name]) in WantedIds(classIds);
    }
  }
}
