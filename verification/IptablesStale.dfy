/** A script that meets another table than the one it was computed from, because something changed the table between
    the command that saved it and the command that restores the script. */
module IptablesStale {
  import opened Text
  import opened FilterTable
  import opened IptablesLoader
  import opened IptablesPlan
  import opened IptablesReconcile
  import opened IptablesConvergence

  /** How often the custom chain holds the rule of a class id. */
  ghost function Count(t: Table, id: string): nat {
    multiset(Rules(t, CUSTOM_CHAIN))[CgroupSpec(id)]
  }

  ghost function References(t: Table): nat {
    multiset(Rules(t, DEFAULT_CHAIN))[REFERENCE_SPEC]
  }

  // ---------- which rules a script deletes ----------

  lemma DoomedCount(l: Loaded, t: Table, m: RuleMap, ks: seq<string>, keys: seq<string>, x: Spec)
    requires HistoryReads(l.history, t) && IsCheckedOut(m, l, ks)
    requires forall k <- keys :: k in m.history
    requires forall i, j :: 0 <= i < j < |keys| ==> keys[i] != keys[j]
    ensures multiset(Doomed(l.history, ks, keys))[x] ==
            if IsCgroupRule(x) && (x[8] in ks || x[8] in keys) then multiset(Rules(t, CUSTOM_CHAIN))[x] else 0
  {
    DoomedCounts(l, t, ks, keys);
    var doomed := Doomed(l.history, ks, keys);
    assert x in doomed <==> multiset(doomed)[x] > 0;
    assert x in Rules(t, CUSTOM_CHAIN) <==> multiset(Rules(t, CUSTOM_CHAIN))[x] > 0;
  }

  lemma HistoryCount(l: Loaded, t: Table, m: RuleMap, ks: seq<string>, id: string)
    requires HistoryReads(l.history, t) && IsCheckedOut(m, l, ks) && AllDigits(id)
    ensures id in m.history <==> Count(t, id) == 1
    ensures id in ks <==> Count(t, id) > 1
  {
    assert id in l.history <==> Occurs(t, id);
    assert CgroupSpec(id) in Rules(t, CUSTOM_CHAIN) <==> Count(t, id) > 0;
    assert id in ks <==> id in l.history && |l.history[id]| > 1;
  }

  lemma RuleOfId(id: string)
    requires AllDigits(id)
    ensures IsCgroupRule(CgroupSpec(id)) && CgroupSpec(id)[8] == id
  {
  }

  /** A clearing deletes every class-id rule it has read, as often as it has read it. */
  lemma ClearingDooms(l: Loaded, t: Table, m: RuleMap, ks: seq<string>, keys: seq<string>, x: Spec)
    requires HistoryReads(l.history, t) && IsCheckedOut(m, l, ks) && Enumerates(keys, m.history.Keys)
    ensures multiset(Doomed(l.history, ks, keys))[x] ==
            if IsCgroupRule(x) then multiset(Rules(t, CUSTOM_CHAIN))[x] else 0
  {
    DoomedCount(l, t, m, ks, keys, x);
    if IsCgroupRule(x) {
      HistoryCount(l, t, m, ks, x[8]);
    }
  }

  /** An update deletes the rules it has read more than once and those it has read and does not want. */
  lemma UpdateDooms(l: Loaded, t: Table, m: RuleMap, ks: seq<string>,
                    wanted: map<string, string>, stale: seq<string>, missing: seq<string>, x: Spec)
    requires HistoryReads(l.history, t) && IsCheckedOut(m, l, ks) && IsVisit(m, wanted, stale, missing)
    ensures multiset(Doomed(l.history, ks, stale))[x] ==
            if IsCgroupRule(x) && IsDropped(t, wanted.Keys, x[8]) then multiset(Rules(t, CUSTOM_CHAIN))[x] else 0
  {
    DoomedCount(l, t, m, ks, stale, x);
    if IsCgroupRule(x) {
      HistoryCount(l, t, m, ks, x[8]);
    }
  }

  predicate IsDropped(t: Table, wanted: set<string>, id: string) {
    multiset(Rules(t, CUSTOM_CHAIN))[CgroupSpec(id)] > 1 || id !in wanted
  }

  // ---------- the references ----------

  /** Deleting n references is accepted exactly when there are as many. */
  lemma DropReferencesExactly(v: Table, n: nat)
    requires DEFAULT_CHAIN in v
    ensures Restore(v, seq(n, _ => DELETE_REFERENCE_LINE)).Some? <==> n <= References(v)
  {
    FixedLinesParse();
    var lines, specs := seq(n, _ => DELETE_REFERENCE_LINE), seq(n, _ => REFERENCE_SPEC);
    forall x ensures multiset(specs)[x] == if x == REFERENCE_SPEC then n else 0 {
      CountCopies(n, REFERENCE_SPEC, x);
    }
    assert multiset(specs)[REFERENCE_SPEC] == n;
    RestoreDeletesExactly(v, lines, DEFAULT_CHAIN, specs);
    assert n == 0 <==> lines == [];
  }

  /** The reference lines computed from n references, on a table that has the custom chain. */
  lemma ReferencesExactly(v: Table, m: RuleMap)
    requires DEFAULT_CHAIN in v && CUSTOM_CHAIN in v
    ensures var r := Restore(v, ReferenceLines(m));
      && (r.Some? <==> |m.references| <= References(v) + 1)
      && (r.Some? ==>
            DEFAULT_CHAIN in r.value && r.value == v[DEFAULT_CHAIN := r.value[DEFAULT_CHAIN]]
            && References(r.value) + |m.references| == References(v) + 1
            && Without(r.value[DEFAULT_CHAIN], [REFERENCE_SPEC]) == Without(v[DEFAULT_CHAIN], [REFERENCE_SPEC]))
  {
    var n := |m.references|;
    if n == 0 {
      FixedLinesParse();
      assert ReferenceLines(m) == [REFERENCE_LINE];
      RestoreOne(v, REFERENCE_LINE);
      WithoutConcat(v[DEFAULT_CHAIN], [REFERENCE_SPEC], [REFERENCE_SPEC]);
      assert REFERENCE_SPEC == ["-j", CUSTOM_CHAIN];
    } else if n == 1 {
      assert ReferenceLines(m) == [];
      assert v == v[DEFAULT_CHAIN := v[DEFAULT_CHAIN]];
    } else {
      assert ReferenceLines(m) == seq(n - 1, _ => DELETE_REFERENCE_LINE);
      DropReferencesExactly(v, n - 1);
      if n - 1 <= References(v) {
        DropSpareReferences(v, n - 1);
      }
    }
  }

  // ---------- a clearing ----------

  /** The custom chain holds the class-id rules of the other table, each as often, and nothing else. */
  ghost predicate HoldsJust(v: Table, t: Table) {
    CUSTOM_CHAIN in v
    && forall x :: multiset(v[CUSTOM_CHAIN])[x] == if IsCgroupRule(x) then multiset(Rules(t, CUSTOM_CHAIN))[x] else 0
  }

  lemma EmptiedExactly(v: seq<Spec>, doomed: seq<Spec>, rest: seq<Spec>)
    requires multiset(doomed) <= multiset(v) && multiset(rest) == multiset(v) - multiset(doomed)
    ensures rest == [] <==> multiset(v) == multiset(doomed)
  {
    if rest == [] {
      assert multiset(rest) == multiset{};
      forall x ensures multiset(v)[x] == multiset(doomed)[x] {
        assert multiset(rest)[x] == 0;
      }
    } else {
      assert multiset(rest)[rest[0]] > 0;
    }
  }

  /** The default chain after n of its references are gone. */
  ghost predicate LostReferences(v: Table, u: Table, n: nat) {
    && DEFAULT_CHAIN in v && DEFAULT_CHAIN in u && n <= References(v)
    && References(u) == References(v) - n
    && Without(u[DEFAULT_CHAIN], [REFERENCE_SPEC]) == Without(v[DEFAULT_CHAIN], [REFERENCE_SPEC])
  }

  lemma OtherDefaultRules(v: Table, u: Table, n: nat, x: Spec)
    requires LostReferences(v, u, n) && x != REFERENCE_SPEC
    ensures x in u[DEFAULT_CHAIN] <==> x in v[DEFAULT_CHAIN]
  {
    WithoutCounts(u[DEFAULT_CHAIN], [REFERENCE_SPEC], x);
    WithoutCounts(v[DEFAULT_CHAIN], [REFERENCE_SPEC], x);
    assert x in u[DEFAULT_CHAIN] <==> multiset(u[DEFAULT_CHAIN])[x] > 0;
    assert x in v[DEFAULT_CHAIN] <==> multiset(v[DEFAULT_CHAIN])[x] > 0;
  }

  lemma ReferenceJumps()
    ensures JumpsTo(REFERENCE_SPEC, CUSTOM_CHAIN)
  {
    assert REFERENCE_SPEC[0] == "-j" && REFERENCE_SPEC[0 + 1] == CUSTOM_CHAIN;
  }

  /** The tables differ in the custom and the default chain only. */
  ghost predicate SameBeside(v: Table, u: Table) {
    forall c | c != CUSTOM_CHAIN && c != DEFAULT_CHAIN :: (c in u <==> c in v) && (c in v ==> u[c] == v[c])
  }

  /** Once the custom chain is empty, nothing jumps to it exactly when all references are gone
      and there was nothing else. */
  lemma UnreferencedExactly(v: Table, u: Table, n: nat)
    requires CUSTOM_CHAIN in u && u[CUSTOM_CHAIN] == [] && LostReferences(v, u, n) && SameBeside(v, u)
    ensures !Referenced(u, CUSTOM_CHAIN) <==> n == References(v) && IsOnlyReferenced(v)
  {
    ChainsDiffer();
    ReferenceJumps();
    assert REFERENCE_SPEC in u[DEFAULT_CHAIN] <==> References(u) > 0;
    forall x | x != REFERENCE_SPEC ensures x in u[DEFAULT_CHAIN] <==> x in v[DEFAULT_CHAIN] {
      OtherDefaultRules(v, u, n, x);
    }
    if n == References(v) && IsOnlyReferenced(v) {
      forall c, spec | c in u && spec in u[c] ensures !JumpsTo(spec, CUSTOM_CHAIN) {
        assert c != CUSTOM_CHAIN;
      }
    } else if n == References(v) {
      var c, spec :| c in v && c != CUSTOM_CHAIN && spec in v[c] && JumpsTo(spec, CUSTOM_CHAIN)
        && !(c == DEFAULT_CHAIN && spec == REFERENCE_SPEC);
      assert c in u && spec in u[c];
    }
  }

  lemma ClearedTable(v: Table, u: Table)
    requires SameBeside(v, u) && LostReferences(v, u, References(v))
    ensures u - {CUSTOM_CHAIN} == Cleared(v)
  {
    ChainsDiffer();
    forall x <- u[DEFAULT_CHAIN] ensures x !in [REFERENCE_SPEC] {
      assert multiset(u[DEFAULT_CHAIN])[x] > 0;
    }
    WithoutIsId(u[DEFAULT_CHAIN], [REFERENCE_SPEC]);
    var a, b := u - {CUSTOM_CHAIN}, Cleared(v);
    forall c ensures c in a <==> c in b {
    }
    forall c | c in a ensures a[c] == b[c] {
    }
  }

  /** The end of a clearing, once the rules and references are deleted. */
  lemma DropExactly(v: Table, u: Table, n: nat)
    requires CUSTOM_CHAIN in u && LostReferences(v, u, n) && SameBeside(v, u)
    ensures var r := Restore(u, [DROP_LINE]);
      && (r.Some? <==> u[CUSTOM_CHAIN] == [] && n == References(v) && IsOnlyReferenced(v))
      && (r.Some? ==> r == Some(Cleared(v)))
  {
    FixedLinesParse();
    RestoreOne(u, DROP_LINE);
    if u[CUSTOM_CHAIN] == [] {
      UnreferencedExactly(v, u, n);
      if n == References(v) {
        ClearedTable(v, u);
      }
    }
  }

  /** The reference deletions and the drop, after the custom chain was cut down to rest. */
  lemma ClearingTail(v: Table, rest: seq<Spec>, n: nat)
    requires DEFAULT_CHAIN in v
    ensures var r := Restore(v[CUSTOM_CHAIN := rest], seq(n, _ => DELETE_REFERENCE_LINE) + [DROP_LINE]);
      && (r.Some? <==> rest == [] && n == References(v) && IsOnlyReferenced(v))
      && (r.Some? ==> r == Some(Cleared(v)))
  {
    ChainsDiffer();
    var v1 := v[CUSTOM_CHAIN := rest];
    var refs := seq(n, _ => DELETE_REFERENCE_LINE);
    assert References(v1) == References(v);
    DropReferencesExactly(v1, n);
    RestoreParts(v1, refs, [DROP_LINE]);
    if n <= References(v) {
      DropSpareReferences(v1, n);
      DropExactly(v, Restore(v1, refs).value, n);
    }
  }

  lemma GoneChainTail(v: Table, n: nat)
    requires DEFAULT_CHAIN in v && CUSTOM_CHAIN !in v
    ensures Restore(v, seq(n, _ => DELETE_REFERENCE_LINE) + [DROP_LINE]) == None
  {
    ChainsDiffer();
    FixedLinesParse();
    var refs := seq(n, _ => DELETE_REFERENCE_LINE);
    DropReferencesExactly(v, n);
    RestoreParts(v, refs, [DROP_LINE]);
    if n <= References(v) {
      DropSpareReferences(v, n);
      RestoreOne(Restore(v, refs).value, DROP_LINE);
    }
  }

  /** A clearing computed from a table with the custom chain, on any table. */
  lemma ClearingOfChain(t: Table, l: Loaded, m: RuleMap, ks: seq<string>, keys: seq<string>, v: Table)
    requires DEFAULT_CHAIN in v
    requires HistoryReads(l.history, t) && IsCheckedOut(m, l, ks) && Enumerates(keys, m.history.Keys)
    ensures var refs := seq(|m.references|, _ => DELETE_REFERENCE_LINE);
      var r := Restore(v, DeletionLines(m, keys) + (refs + [DROP_LINE]));
      && (r.Some? <==> HoldsJust(v, t) && |m.references| == References(v) && IsOnlyReferenced(v))
      && (r.Some? ==> r == Some(Cleared(v)))
  {
    var lines, doomed := DeletionLines(m, keys), Doomed(l.history, ks, keys);
    var tail := seq(|m.references|, _ => DELETE_REFERENCE_LINE) + [DROP_LINE];
    DoomedLines(l, t, ks, keys, m);
    RestoreDeletesExactly(v, lines, CUSTOM_CHAIN, doomed);
    RestoreParts(v, lines, tail);
    forall x
      ensures multiset(doomed)[x] == if IsCgroupRule(x) then multiset(Rules(t, CUSTOM_CHAIN))[x] else 0
    {
      ClearingDooms(l, t, m, ks, keys, x);
    }
    if CUSTOM_CHAIN !in v {
      if lines == [] {
        GoneChainTail(v, |m.references|);
      }
    } else {
      HeldExactly(v, t, doomed);
      if multiset(doomed) <= multiset(v[CUSTOM_CHAIN]) {
        var rest := Restore(v, lines).value[CUSTOM_CHAIN];
        EmptiedExactly(v[CUSTOM_CHAIN], doomed, rest);
        ClearingTail(v, rest, |m.references|);
      }
    }
  }

  lemma HeldExactly(v: Table, t: Table, doomed: seq<Spec>)
    requires CUSTOM_CHAIN in v
    requires forall x ::
      multiset(doomed)[x] == if IsCgroupRule(x) then multiset(Rules(t, CUSTOM_CHAIN))[x] else 0
    ensures HoldsJust(v, t) <==> multiset(v[CUSTOM_CHAIN]) == multiset(doomed)
  {
    if HoldsJust(v, t) {
      forall x ensures multiset(v[CUSTOM_CHAIN])[x] == multiset(doomed)[x] {
      }
    } else {
      var x :| multiset(v[CUSTOM_CHAIN])[x] != if IsCgroupRule(x) then multiset(Rules(t, CUSTOM_CHAIN))[x] else 0;
      assert multiset(v[CUSTOM_CHAIN])[x] != multiset(doomed)[x];
    }
  }

  /** A clearing script computed from one table is accepted by another exactly when that one's custom chain holds the
      same class-id rules as often and nothing else, it has as many references, and nothing else jumps to the chain;
      then every trace of the chain is gone. When there was no chain to clear, only the references count. */
  lemma StaleClearingExactly(t: Table, d: Dump, m: RuleMap, ks: seq<string>, plan: seq<string>, keys: seq<string>,
                             v: Table)
    requires IsWellFormed(t) && IsDumpOf(d, t) && DEFAULT_CHAIN in v
    requires IsCheckedOut(m, LoadLines(Split(SavedText(d, t), '\n')), ks) && IsClearing(plan, m, keys)
    ensures CUSTOM_CHAIN in t ==>
      (Restore(v, plan).Some? <==> HoldsJust(v, t) && References(t) == References(v) && IsOnlyReferenced(v))
    ensures CUSTOM_CHAIN in t && Restore(v, plan).Some? ==> Restore(v, plan) == Some(Cleared(v))
    ensures CUSTOM_CHAIN !in t ==> (Restore(v, plan).Some? <==> References(t) <= References(v))
  {
    var l := LoadLines(Split(SavedText(d, t), '\n'));
    LoadingReadsTable(d, t);
    var refs := seq(|m.references|, _ => DELETE_REFERENCE_LINE);
    if CUSTOM_CHAIN in t {
      ClearingOfChain(t, l, m, ks, keys, v);
      assert plan == DeletionLines(m, keys) + (refs + [DROP_LINE]);
    } else {
      NothingToDelete(t, l, m, ks, keys);
      assert plan == refs;
      DropReferencesExactly(v, |m.references|);
    }
  }

  // ---------- an update ----------

  /** The rules the script deletes are there, each as often as it deletes it. */
  ghost predicate HoldsDropped(v: Table, t: Table, wanted: set<string>) {
    forall id | AllDigits(id) && IsDropped(t, wanted, id) :: Count(t, id) <= Count(v, id)
  }

  ghost predicate SameCounts(v: Table, t: Table) {
    References(v) == References(t) && forall id | AllDigits(id) :: Count(v, id) == Count(t, id)
  }

  /** The chain already had exactly the wanted rules, so the script leaves it alone. */
  ghost predicate HadTargets(t: Table, wanted: set<string>) {
    forall id | AllDigits(id) :: Count(t, id) == if id in wanted then 1 else 0
  }

  lemma DroppedExactly(t: Table, l: Loaded, m: RuleMap, ks: seq<string>,
                       wanted: map<string, string>, stale: seq<string>, missing: seq<string>, v: Table)
    requires CUSTOM_CHAIN in v
    requires HistoryReads(l.history, t) && IsCheckedOut(m, l, ks) && IsVisit(m, wanted, stale, missing)
    ensures multiset(Doomed(l.history, ks, stale)) <= multiset(v[CUSTOM_CHAIN]) <==> HoldsDropped(v, t, wanted.Keys)
  {
    var doomed := Doomed(l.history, ks, stale);
    if HoldsDropped(v, t, wanted.Keys) {
      forall x ensures multiset(doomed)[x] <= multiset(v[CUSTOM_CHAIN])[x] {
        UpdateDooms(l, t, m, ks, wanted, stale, missing, x);
        if IsCgroupRule(x) && IsDropped(t, wanted.Keys, x[8]) {
          assert Count(t, x[8]) <= Count(v, x[8]);
        }
      }
    }
    if multiset(doomed) <= multiset(v[CUSTOM_CHAIN]) {
      forall id | AllDigits(id) && IsDropped(t, wanted.Keys, id) ensures Count(t, id) <= Count(v, id) {
        RuleOfId(id);
        UpdateDooms(l, t, m, ks, wanted, stale, missing, CgroupSpec(id));
        assert multiset(doomed)[CgroupSpec(id)] <= multiset(v[CUSTOM_CHAIN])[CgroupSpec(id)];
      }
    }
  }

  /** The rules left of others when the doomed ones are deleted. */
  ghost predicate IsCutDown(rest: seq<Spec>, specs: seq<Spec>, doomed: seq<Spec>) {
    && multiset(doomed) <= multiset(specs) && multiset(rest) == multiset(specs) - multiset(doomed)
    && Without(rest, doomed) == Without(specs, doomed)
  }

  /** The deletions on a table that has the custom chain, with the rules they leave. */
  lemma DeletionsExactly(t: Table, l: Loaded, m: RuleMap, ks: seq<string>,
                         wanted: map<string, string>, stale: seq<string>, missing: seq<string>, v: Table)
    returns (rest: seq<Spec>)
    requires CUSTOM_CHAIN in v
    requires HistoryReads(l.history, t) && IsCheckedOut(m, l, ks) && IsVisit(m, wanted, stale, missing)
    ensures Restore(v, DeletionLines(m, stale)).Some? <==> HoldsDropped(v, t, wanted.Keys)
    ensures HoldsDropped(v, t, wanted.Keys) ==>
      && IsCutDown(rest, v[CUSTOM_CHAIN], Doomed(l.history, ks, stale))
      && Restore(v, DeletionLines(m, stale)) == Some(v[CUSTOM_CHAIN := rest])
  {
    var lines, doomed := DeletionLines(m, stale), Doomed(l.history, ks, stale);
    DoomedLines(l, t, ks, stale, m);
    DroppedExactly(t, l, m, ks, wanted, stale, missing, v);
    RestoreDeletesExactly(v, lines, CUSTOM_CHAIN, doomed);
    rest := if Restore(v, lines).Some? then Restore(v, lines).value[CUSTOM_CHAIN] else [];
    if lines == [] {
      assert doomed == [];
      assert multiset(doomed) == multiset{};
    }
  }

  /** With the additions. */
  lemma ChangesExactly(t: Table, l: Loaded, m: RuleMap, ks: seq<string>,
                       wanted: map<string, string>, stale: seq<string>, missing: seq<string>, v: Table)
    returns (rest: seq<Spec>)
    requires CUSTOM_CHAIN in v
    requires HistoryReads(l.history, t) && IsCheckedOut(m, l, ks) && IsVisit(m, wanted, stale, missing)
    ensures Restore(v, DeletionLines(m, stale) + Pick(wanted, missing)).Some? <==> HoldsDropped(v, t, wanted.Keys)
    ensures HoldsDropped(v, t, wanted.Keys) ==>
      && IsCutDown(rest, v[CUSTOM_CHAIN], Doomed(l.history, ks, stale))
      && Restore(v, DeletionLines(m, stale) + Pick(wanted, missing)) ==
         Some(v[CUSTOM_CHAIN := rest + SpecsOf(missing)])
  {
    rest := DeletionsExactly(t, l, m, ks, wanted, stale, missing, v);
    RestoreParts(v, DeletionLines(m, stale), Pick(wanted, missing));
    if HoldsDropped(v, t, wanted.Keys) {
      AddStep(v[CUSTOM_CHAIN := rest], wanted, missing);
      ChainThen(v, rest, rest + SpecsOf(missing), DeletionLines(m, stale), Pick(wanted, missing));
    }
  }

  /** What the script makes of the rules of one id. */
  lemma StaleCount(t: Table, l: Loaded, m: RuleMap, ks: seq<string>, wanted: map<string, string>,
                   stale: seq<string>, missing: seq<string>, v: Table, rest: seq<Spec>, id: string)
    requires CUSTOM_CHAIN in v && AllDigits(id)
    requires HistoryReads(l.history, t) && IsCheckedOut(m, l, ks) && IsVisit(m, wanted, stale, missing)
    requires IsCutDown(rest, v[CUSTOM_CHAIN], Doomed(l.history, ks, stale))
    ensures multiset(rest + SpecsOf(missing))[CgroupSpec(id)] + Count(t, id) ==
            Count(v, id) + if id in wanted then 1 else 0
  {
    var doomed := Doomed(l.history, ks, stale);
    CutCount(rest, v[CUSTOM_CHAIN], doomed, SpecsOf(missing), CgroupSpec(id));
    DroppedCount(l, t, m, ks, wanted, stale, missing, id);
    AddedCount(l, t, m, ks, wanted, stale, missing, id);
    NetCount(multiset(rest + SpecsOf(missing))[CgroupSpec(id)], Count(v, id), multiset(doomed)[CgroupSpec(id)],
             multiset(SpecsOf(missing))[CgroupSpec(id)], Count(t, id), id in wanted);
  }

  lemma NetCount(now: int, there: int, gone: int, added: int, read: int, isWanted: bool)
    requires read >= 0 && now == there - gone + added
    requires gone == if read > 1 || !isWanted then read else 0
    requires added == if isWanted && read != 1 then 1 else 0
    ensures now + read == there + if isWanted then 1 else 0
  {
  }

  lemma DroppedCount(l: Loaded, t: Table, m: RuleMap, ks: seq<string>, wanted: map<string, string>,
                     stale: seq<string>, missing: seq<string>, id: string)
    requires HistoryReads(l.history, t) && IsCheckedOut(m, l, ks) && IsVisit(m, wanted, stale, missing) && AllDigits(id)
    ensures multiset(Doomed(l.history, ks, stale))[CgroupSpec(id)] ==
            if Count(t, id) > 1 || id !in wanted then Count(t, id) else 0
  {
    RuleOfId(id);
    UpdateDooms(l, t, m, ks, wanted, stale, missing, CgroupSpec(id));
  }

  lemma CutCount(rest: seq<Spec>, specs: seq<Spec>, doomed: seq<Spec>, added: seq<Spec>, x: Spec)
    requires IsCutDown(rest, specs, doomed)
    ensures multiset(rest + added)[x] == multiset(specs)[x] - multiset(doomed)[x] + multiset(added)[x]
  {
    assert multiset(doomed)[x] <= multiset(specs)[x];
  }

  /** A wanted rule is added unless it was there once. */
  lemma AddedCount(l: Loaded, t: Table, m: RuleMap, ks: seq<string>, wanted: map<string, string>,
                   stale: seq<string>, missing: seq<string>, id: string)
    requires HistoryReads(l.history, t) && IsCheckedOut(m, l, ks) && IsVisit(m, wanted, stale, missing) && AllDigits(id)
    ensures multiset(SpecsOf(missing))[CgroupSpec(id)] == if id in wanted && Count(t, id) != 1 then 1 else 0
  {
    RuleOfId(id);
    CountSpecsOf(missing, CgroupSpec(id));
    HistoryCount(l, t, m, ks, id);
  }

  lemma StaleOthers(l: Loaded, t: Table, ks: seq<string>, stale: seq<string>, missing: seq<string>,
                    specs: seq<Spec>, rest: seq<Spec>)
    requires forall k <- ks :: k in l.history
    requires forall x <- Doomed(l.history, ks, stale) :: IsCgroupRule(x)
    requires forall id <- missing :: AllDigits(id)
    requires IsCutDown(rest, specs, Doomed(l.history, ks, stale))
    ensures OtherRules(rest + SpecsOf(missing)) == OtherRules(specs)
  {
    var doomed := Doomed(l.history, ks, stale);
    OtherRulesSurvive(rest, doomed);
    OtherRulesSurvive(specs, doomed);
    OtherRulesConcat(rest, SpecsOf(missing));
    OwnSpecs(missing);
  }

  /** The target is missed by exactly as much as the counts of rules and references had changed. */
  lemma TargetExactly(t: Table, v: Table, u: Table, wanted: set<string>)
    requires CUSTOM_CHAIN in u && DEFAULT_CHAIN in u
    requires References(u) + References(t) == References(v) + 1
    requires forall id | AllDigits(id) ::
      Count(u, id) + Count(t, id) == Count(v, id) + if id in wanted then 1 else 0
    ensures IsTarget(u, wanted) <==> SameCounts(v, t)
  {
    forall id | AllDigits(id) ensures Count(u, id) == multiset(u[CUSTOM_CHAIN])[CgroupSpec(id)] {
    }
    if SameCounts(v, t) {
      forall id | AllDigits(id)
        ensures multiset(u[CUSTOM_CHAIN])[CgroupSpec(id)] == if id in wanted then 1 else 0
      {
        assert Count(v, id) == Count(t, id);
      }
    }
    if IsTarget(u, wanted) {
      forall id | AllDigits(id) ensures Count(v, id) == Count(t, id) {
        assert Count(u, id) == if id in wanted then 1 else 0;
      }
    }
  }

  /** An update computed from a table with the custom chain, on a table that has it too. */
  lemma UpdateOfChain(t: Table, l: Loaded, m: RuleMap, ks: seq<string>, wanted: map<string, string>,
                      stale: seq<string>, missing: seq<string>, v: Table)
    requires DEFAULT_CHAIN in v && CUSTOM_CHAIN in v && |m.references| == References(t)
    requires HistoryReads(l.history, t) && IsCheckedOut(m, l, ks) && IsVisit(m, wanted, stale, missing)
    ensures var r := Restore(v, (DeletionLines(m, stale) + Pick(wanted, missing)) + ReferenceLines(m));
      && (r.Some? <==> HoldsDropped(v, t, wanted.Keys) && References(t) <= References(v) + 1)
      && (r.Some? ==> (IsTarget(r.value, wanted.Keys) <==> SameCounts(v, t)) && SameOthers(v, r.value))
  {
    ChainsDiffer();
    var rest := ChangesExactly(t, l, m, ks, wanted, stale, missing, v);
    RestoreParts(v, DeletionLines(m, stale) + Pick(wanted, missing), ReferenceLines(m));
    if HoldsDropped(v, t, wanted.Keys) {
      var u := v[CUSTOM_CHAIN := rest + SpecsOf(missing)];
      assert References(u) == References(v);
      ReferencesExactly(u, m);
      var r := Restore(u, ReferenceLines(m));
      if r.Some? {
        UpdateEnds(t, l, m, ks, wanted, stale, missing, v, rest, r.value);
      }
    }
  }

  lemma DoomedAreOwn(l: Loaded, t: Table, ks: seq<string>, m: RuleMap, stale: seq<string>)
    requires HistoryReads(l.history, t) && IsCheckedOut(m, l, ks)
    requires forall k <- stale :: k in m.history
    requires forall i, j :: 0 <= i < j < |stale| ==> stale[i] != stale[j]
    ensures forall x <- Doomed(l.history, ks, stale) :: IsCgroupRule(x)
  {
    DoomedCounts(l, t, ks, stale);
  }

  lemma UpdateEnds(t: Table, l: Loaded, m: RuleMap, ks: seq<string>, wanted: map<string, string>,
                   stale: seq<string>, missing: seq<string>, v: Table, rest: seq<Spec>, u: Table)
    requires DEFAULT_CHAIN in v && CUSTOM_CHAIN in v && DEFAULT_CHAIN in u
    requires HistoryReads(l.history, t) && IsCheckedOut(m, l, ks) && IsVisit(m, wanted, stale, missing)
    requires IsCutDown(rest, v[CUSTOM_CHAIN], Doomed(l.history, ks, stale))
    requires u == v[CUSTOM_CHAIN := rest + SpecsOf(missing)][DEFAULT_CHAIN := u[DEFAULT_CHAIN]]
    requires References(u) + References(t) == References(v) + 1
    requires Without(u[DEFAULT_CHAIN], [REFERENCE_SPEC]) == Without(v[DEFAULT_CHAIN], [REFERENCE_SPEC])
    ensures IsTarget(u, wanted.Keys) <==> SameCounts(v, t)
    ensures SameOthers(v, u)
  {
    ChainsDiffer();
    var rules := rest + SpecsOf(missing);
    assert u[CUSTOM_CHAIN] == rules;
    EndCounts(t, l, m, ks, wanted, stale, missing, v, rest);
    TargetOf(t, v, u, wanted.Keys, rules);
    DoomedAreOwn(l, t, ks, m, stale);
    StaleOthers(l, t, ks, stale, missing, v[CUSTOM_CHAIN], rest);
    SameOthersOf(v, u, rules);
  }

  /** The rules of each wanted id differ from one by as much as their number had changed, those of others from none. */
  ghost predicate IsOffBy(rules: seq<Spec>, wanted: set<string>, v: Table, t: Table) {
    forall id | AllDigits(id) ::
      multiset(rules)[CgroupSpec(id)] + Count(t, id) == Count(v, id) + if id in wanted then 1 else 0
  }

  lemma EndCounts(t: Table, l: Loaded, m: RuleMap, ks: seq<string>, wanted: map<string, string>,
                  stale: seq<string>, missing: seq<string>, v: Table, rest: seq<Spec>)
    requires CUSTOM_CHAIN in v
    requires HistoryReads(l.history, t) && IsCheckedOut(m, l, ks) && IsVisit(m, wanted, stale, missing)
    requires IsCutDown(rest, v[CUSTOM_CHAIN], Doomed(l.history, ks, stale))
    ensures IsOffBy(rest + SpecsOf(missing), wanted.Keys, v, t)
  {
    forall id | AllDigits(id)
      ensures multiset(rest + SpecsOf(missing))[CgroupSpec(id)] + Count(t, id) ==
              Count(v, id) + if id in wanted.Keys then 1 else 0
    {
      StaleCount(t, l, m, ks, wanted, stale, missing, v, rest, id);
    }
  }

  lemma TargetOf(t: Table, v: Table, u: Table, wanted: set<string>, rules: seq<Spec>)
    requires CUSTOM_CHAIN in u && DEFAULT_CHAIN in u && u[CUSTOM_CHAIN] == rules && IsOffBy(rules, wanted, v, t)
    requires References(u) + References(t) == References(v) + 1
    ensures IsTarget(u, wanted) <==> SameCounts(v, t)
  {
    TargetExactly(t, v, u, wanted);
  }

  lemma SameOthersOf(v: Table, u: Table, rules: seq<Spec>)
    requires DEFAULT_CHAIN in v && CUSTOM_CHAIN in v && DEFAULT_CHAIN in u
    requires u == v[CUSTOM_CHAIN := rules][DEFAULT_CHAIN := u[DEFAULT_CHAIN]]
    requires Without(u[DEFAULT_CHAIN], [REFERENCE_SPEC]) == Without(v[DEFAULT_CHAIN], [REFERENCE_SPEC])
    requires OtherRules(rules) == OtherRules(v[CUSTOM_CHAIN])
    ensures SameOthers(v, u)
  {
    ChainsDiffer();
    assert u[CUSTOM_CHAIN] == rules;
  }

  // ---------- an update that meets no chain, or was computed without one ----------

  lemma NothingDoomed(t: Table, l: Loaded, m: RuleMap, ks: seq<string>,
                      wanted: map<string, string>, stale: seq<string>, missing: seq<string>)
    requires HistoryReads(l.history, t) && IsCheckedOut(m, l, ks) && IsVisit(m, wanted, stale, missing)
    requires HadTargets(t, wanted.Keys)
    ensures Doomed(l.history, ks, stale) == []
  {
    var doomed := Doomed(l.history, ks, stale);
    forall x ensures multiset(doomed)[x] == 0 {
      UpdateDooms(l, t, m, ks, wanted, stale, missing, x);
      if IsCgroupRule(x) {
        assert Count(t, x[8]) == if x[8] in wanted.Keys then 1 else 0;
      }
    }
    assert |doomed| > 0 ==> multiset(doomed)[doomed[0]] > 0;
  }

  lemma NothingMissing(t: Table, l: Loaded, m: RuleMap, ks: seq<string>,
                       wanted: map<string, string>, stale: seq<string>, missing: seq<string>)
    requires HistoryReads(l.history, t) && IsCheckedOut(m, l, ks) && IsVisit(m, wanted, stale, missing)
    requires HadTargets(t, wanted.Keys)
    ensures missing == []
  {
    forall id | id in wanted.Keys ensures id in m.history {
      HistoryCount(l, t, m, ks, id);
    }
    EnumeratesNothing(missing, wanted.Keys - m.history.Keys);
  }

  lemma NothingToChange(t: Table, l: Loaded, m: RuleMap, ks: seq<string>,
                        wanted: map<string, string>, stale: seq<string>, missing: seq<string>)
    requires HistoryReads(l.history, t) && IsCheckedOut(m, l, ks) && IsVisit(m, wanted, stale, missing)
    requires Doomed(l.history, ks, stale) == [] && missing == []
    ensures HadTargets(t, wanted.Keys)
  {
    assert multiset(Doomed(l.history, ks, stale)) == multiset{};
    forall id | AllDigits(id) ensures Count(t, id) == if id in wanted.Keys then 1 else 0 {
      DroppedCount(l, t, m, ks, wanted, stale, missing, id);
      HistoryCount(l, t, m, ks, id);
    }
  }

  /** Nothing is deleted or added exactly when the chain already had one rule for each wanted id and no other. */
  lemma UntouchedExactly(t: Table, l: Loaded, m: RuleMap, ks: seq<string>,
                         wanted: map<string, string>, stale: seq<string>, missing: seq<string>)
    requires HistoryReads(l.history, t) && IsCheckedOut(m, l, ks) && IsVisit(m, wanted, stale, missing)
    ensures DeletionLines(m, stale) == [] && missing == [] <==> HadTargets(t, wanted.Keys)
  {
    DoomedLines(l, t, ks, stale, m);
    assert DeletionLines(m, stale) == [] <==> Doomed(l.history, ks, stale) == [];
    if HadTargets(t, wanted.Keys) {
      NothingDoomed(t, l, m, ks, wanted, stale, missing);
      NothingMissing(t, l, m, ks, wanted, stale, missing);
    } else if DeletionLines(m, stale) == [] && missing == [] {
      NothingToChange(t, l, m, ks, wanted, stale, missing);
    }
  }

  /** An update computed from a table with the custom chain, on a table that has lost it. */
  lemma UpdateOfGoneChain(t: Table, l: Loaded, m: RuleMap, ks: seq<string>, wanted: map<string, string>,
                          stale: seq<string>, missing: seq<string>, v: Table)
    requires DEFAULT_CHAIN in v && CUSTOM_CHAIN !in v && |m.references| == References(t)
    requires HistoryReads(l.history, t) && IsCheckedOut(m, l, ks) && IsVisit(m, wanted, stale, missing)
    ensures var r := Restore(v, (DeletionLines(m, stale) + Pick(wanted, missing)) + ReferenceLines(m));
      && (r.Some? <==> HadTargets(t, wanted.Keys) && 1 <= References(t) <= References(v) + 1)
      && (r.Some? ==> CUSTOM_CHAIN !in r.value)
  {
    UntouchedExactly(t, l, m, ks, wanted, stale, missing);
    NoChainChanges(t, l, m, ks, wanted, stale, missing, v);
    NoChainReferences(v, m);
    RestoreParts(v, DeletionLines(m, stale) + Pick(wanted, missing), ReferenceLines(m));
  }

  lemma NoChainChanges(t: Table, l: Loaded, m: RuleMap, ks: seq<string>, wanted: map<string, string>,
                       stale: seq<string>, missing: seq<string>, v: Table)
    requires CUSTOM_CHAIN !in v
    requires HistoryReads(l.history, t) && IsCheckedOut(m, l, ks) && IsVisit(m, wanted, stale, missing)
    ensures Restore(v, DeletionLines(m, stale) + Pick(wanted, missing)) ==
            if DeletionLines(m, stale) == [] && missing == [] then Some(v) else None
  {
    DoomedLines(l, t, ks, stale, m);
    RestoreDeletesExactly(v, DeletionLines(m, stale), CUSTOM_CHAIN, Doomed(l.history, ks, stale));
    RestoreParts(v, DeletionLines(m, stale), Pick(wanted, missing));
    if |missing| > 0 {
      assert missing[0] in missing;
      DeletionParses(missing[0]);
      assert Pick(wanted, missing)[0] == AddRule(missing[0]);
    }
  }

  lemma NoChainReferences(v: Table, m: RuleMap)
    requires DEFAULT_CHAIN in v && CUSTOM_CHAIN !in v
    ensures var r := Restore(v, ReferenceLines(m));
      && (r.Some? <==> 1 <= |m.references| <= References(v) + 1)
      && (r.Some? ==> CUSTOM_CHAIN !in r.value)
  {
    ChainsDiffer();
    var n := |m.references|;
    if n == 0 {
      NoReferenceToNothing(v);
      assert ReferenceLines(m) == [REFERENCE_LINE];
    } else if n == 1 {
      assert ReferenceLines(m) == [];
    } else {
      assert ReferenceLines(m) == seq(n - 1, _ => DELETE_REFERENCE_LINE);
      DropReferencesExactly(v, n - 1);
      if n - 1 <= References(v) {
        DropSpareReferences(v, n - 1);
      }
    }
  }

  lemma NoReferenceToNothing(v: Table)
    requires CUSTOM_CHAIN !in v
    ensures Restore(v, [REFERENCE_LINE]) == None
  {
    FixedLinesParse();
    ChainIsPlain();
    RestoreOne(v, REFERENCE_LINE);
    assert CUSTOM_CHAIN !in STANDARD_TARGETS;
    assert REFERENCE_SPEC[0] == "-j" && REFERENCE_SPEC[0 + 1] == CUSTOM_CHAIN;
  }

  /** An update computed from a table without the custom chain: it starts the chain anew. */
  lemma UpdateOfNoChain(t: Table, l: Loaded, m: RuleMap, ks: seq<string>, wanted: map<string, string>,
                        stale: seq<string>, missing: seq<string>, v: Table)
    requires DEFAULT_CHAIN in v && CUSTOM_CHAIN !in t && LoadReads(l, t)
    requires IsCheckedOut(m, l, ks) && IsVisit(m, wanted, stale, missing)
    ensures var r := Restore(v, ([CREATE_LINE] + Pick(wanted, missing)) + ReferenceLines(m));
      && (r.Some? <==> References(t) <= References(v) + 1)
      && (r.Some? ==>
            && (IsTarget(r.value, wanted.Keys) <==> References(v) == References(t))
            && (SameOthers(v, r.value) <==> OtherRules(Rules(v, CUSTOM_CHAIN)) == []))
  {
    ChainsDiffer();
    Anew(v, wanted, missing);
    var u := v[CUSTOM_CHAIN := SpecsOf(missing)];
    RestoreParts(v, [CREATE_LINE] + Pick(wanted, missing), ReferenceLines(m));
    assert References(u) == References(v);
    ReferencesExactly(u, m);
    var r := Restore(u, ReferenceLines(m));
    if r.Some? {
      AnewCounts(t, l, m, ks, wanted, stale, missing);
      AnewTarget(v, r.value, wanted.Keys, SpecsOf(missing));
      OwnSpecs(missing);
      AnewOthers(v, r.value, SpecsOf(missing));
    }
  }

  lemma Anew(v: Table, wanted: map<string, string>, missing: seq<string>)
    requires IsRuleTable(wanted, wanted.Keys) && forall id <- missing :: id in wanted && AllDigits(id)
    ensures Restore(v, [CREATE_LINE] + Pick(wanted, missing)) == Some(v[CUSTOM_CHAIN := SpecsOf(missing)])
  {
    FixedLinesParse();
    RestoreOne(v, CREATE_LINE);
    AddStep(v[CUSTOM_CHAIN := []], wanted, missing);
    assert [] + SpecsOf(missing) == SpecsOf(missing);
    ChainThen(v, [], SpecsOf(missing), [CREATE_LINE], Pick(wanted, missing));
  }

  ghost predicate AreJust(rules: seq<Spec>, wanted: set<string>) {
    forall id | AllDigits(id) :: multiset(rules)[CgroupSpec(id)] == if id in wanted then 1 else 0
  }

  lemma AnewCounts(t: Table, l: Loaded, m: RuleMap, ks: seq<string>, wanted: map<string, string>,
                   stale: seq<string>, missing: seq<string>)
    requires CUSTOM_CHAIN !in t && HistoryReads(l.history, t)
    requires IsCheckedOut(m, l, ks) && IsVisit(m, wanted, stale, missing)
    ensures AreJust(SpecsOf(missing), wanted.Keys)
  {
    forall id | AllDigits(id)
      ensures multiset(SpecsOf(missing))[CgroupSpec(id)] == if id in wanted.Keys then 1 else 0
    {
      AddedCount(l, t, m, ks, wanted, stale, missing, id);
    }
  }

  lemma AnewTarget(v: Table, u: Table, wanted: set<string>, rules: seq<Spec>)
    requires DEFAULT_CHAIN in u && CUSTOM_CHAIN in u && u[CUSTOM_CHAIN] == rules && AreJust(rules, wanted)
    ensures IsTarget(u, wanted) <==> References(u) == 1
  {
  }

  lemma AnewOthers(v: Table, u: Table, rules: seq<Spec>)
    requires DEFAULT_CHAIN in v && DEFAULT_CHAIN in u && OtherRules(rules) == []
    requires u == v[CUSTOM_CHAIN := rules][DEFAULT_CHAIN := u[DEFAULT_CHAIN]]
    requires Without(u[DEFAULT_CHAIN], [REFERENCE_SPEC]) == Without(v[DEFAULT_CHAIN], [REFERENCE_SPEC])
    ensures SameOthers(v, u) <==> OtherRules(Rules(v, CUSTOM_CHAIN)) == []
  {
    ChainsDiffer();
    assert u[CUSTOM_CHAIN] == rules;
  }

  /** The update script computed from one table, on any other. When both have the custom chain, it is accepted exactly
      when each rule that it deletes is there as often, and at most one reference fewer; then foreign rules stay, and
      the target is reached exactly when rules and references are as many as they were. When the chain has gone since,
      it is accepted only if it leaves the chain alone, and in vain. When there was none, it empties whatever chain
      came since. */
  lemma StaleUpdateExactly(t: Table, d: Dump, m: RuleMap, ks: seq<string>, plan: seq<string>,
                           wanted: map<string, string>, stale: seq<string>, missing: seq<string>, v: Table)
    requires IsWellFormed(t) && IsDumpOf(d, t) && DEFAULT_CHAIN in v
    requires IsCheckedOut(m, LoadLines(Split(SavedText(d, t), '\n')), ks)
    requires IsRuleTable(wanted, wanted.Keys) && (forall id <- wanted :: AllDigits(id)) && |wanted| > 0
    requires IsPlan(plan, m, wanted, stale, missing)
    ensures CUSTOM_CHAIN in t && CUSTOM_CHAIN in v ==>
      var r := Restore(v, plan);
      && (r.Some? <==> HoldsDropped(v, t, wanted.Keys) && References(t) <= References(v) + 1)
      && (r.Some? ==> (IsTarget(r.value, wanted.Keys) <==> SameCounts(v, t)) && SameOthers(v, r.value))
    ensures CUSTOM_CHAIN in t && CUSTOM_CHAIN !in v ==>
      var r := Restore(v, plan);
      && (r.Some? <==> HadTargets(t, wanted.Keys) && 1 <= References(t) <= References(v) + 1)
      && (r.Some? ==> !IsTarget(r.value, wanted.Keys))
    ensures CUSTOM_CHAIN !in t ==>
      var r := Restore(v, plan);
      && (r.Some? <==> References(t) <= References(v) + 1)
      && (r.Some? ==>
            && (IsTarget(r.value, wanted.Keys) <==> References(v) == References(t))
            && (SameOthers(v, r.value) <==> OtherRules(Rules(v, CUSTOM_CHAIN)) == []))
  {
    var l := LoadLines(Split(SavedText(d, t), '\n'));
    LoadingReadsTable(d, t);
    StaleParts(t, l, m, ks, wanted, stale, missing);
    if CUSTOM_CHAIN !in t {
      UpdateOfNoChain(t, l, m, ks, wanted, stale, missing, v);
    } else if CUSTOM_CHAIN in v {
      UpdateOfChain(t, l, m, ks, wanted, stale, missing, v);
    } else {
      UpdateOfGoneChain(t, l, m, ks, wanted, stale, missing, v);
    }
  }

  /** Flushing the custom chain in between makes the restore refuse any update that has a rule to delete, and with it
      all the rules that it would add. */
  lemma FlushedInBetween(t: Table, d: Dump, m: RuleMap, ks: seq<string>, plan: seq<string>,
                         wanted: map<string, string>, stale: seq<string>, missing: seq<string>, id: string)
    requires IsWellFormed(t) && IsDumpOf(d, t) && CUSTOM_CHAIN in t
    requires IsCheckedOut(m, LoadLines(Split(SavedText(d, t), '\n')), ks)
    requires IsRuleTable(wanted, wanted.Keys) && (forall id <- wanted :: AllDigits(id)) && |wanted| > 0
    requires IsPlan(plan, m, wanted, stale, missing)
    requires AllDigits(id) && Count(t, id) > 0 && id !in wanted
    ensures Restore(t[CUSTOM_CHAIN := []], plan) == None
  {
    ChainsDiffer();
    var v := t[CUSTOM_CHAIN := []];
    StaleUpdateExactly(t, d, m, ks, plan, wanted, stale, missing, v);
    assert IsDropped(t, wanted.Keys, id) && Count(v, id) == 0;
  }

  lemma StaleParts(t: Table, l: Loaded, m: RuleMap, ks: seq<string>,
                   wanted: map<string, string>, stale: seq<string>, missing: seq<string>)
    requires LoadReads(l, t) && IsCheckedOut(m, l, ks) && IsVisit(m, wanted, stale, missing)
    ensures PlanLines(m, wanted, stale, missing) ==
            if CUSTOM_CHAIN in t then (DeletionLines(m, stale) + Pick(wanted, missing)) + ReferenceLines(m)
            else ([CREATE_LINE] + Pick(wanted, missing)) + ReferenceLines(m)
  {
    PlanParts(m, wanted, stale, missing);
    var changes := DeletionLines(m, stale) + Pick(wanted, missing);
    if CUSTOM_CHAIN in t {
      assert CreateLines(m) + changes == changes;
    } else {
      NothingDropped(t, l, m, ks, wanted, stale, missing);
      assert changes == Pick(wanted, missing);
    }
  }

  lemma NothingDropped(t: Table, l: Loaded, m: RuleMap, ks: seq<string>,
                       wanted: map<string, string>, stale: seq<string>, missing: seq<string>)
    requires CUSTOM_CHAIN !in t && LoadReads(l, t) && IsCheckedOut(m, l, ks) && IsVisit(m, wanted, stale, missing)
    ensures DeletionLines(m, stale) == []
  {
    forall id ensures id !in l.history {
      assert id in l.history <==> Occurs(t, id);
    }
    EnumeratesNothing(ks, Repeated(l.history));
    EnumeratesNothing(stale, m.history.Keys - wanted.Keys);
  }
}
