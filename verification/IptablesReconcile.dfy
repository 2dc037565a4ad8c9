/** What the printed scripts do to the table they were computed from. */
module IptablesReconcile {
  import opened Text
  import opened FilterTable
  import opened IptablesLoader
  import opened IptablesPlan

  // ---------- tables and their saved text ----------

  /** The rule counts traffic of a class id: exactly the printed form. */
  predicate IsCgroupRule(spec: Spec) {
    |spec| == 11 && AllDigits(spec[8]) && spec == CgroupSpec(spec[8])
  }

  predicate IsOwn(chain: string, spec: Spec) {
    || (chain == CUSTOM_CHAIN && IsCgroupRule(spec))
    || (chain == DEFAULT_CHAIN && spec == REFERENCE_SPEC)
  }

  predicate IsText(words: seq<string>) {
    AreWords(words, ' ') && AreWords(words, '\n')
  }

  /** Class-id rules occur only in the custom chain and only in the printed form;
      no other rule carries one of the marks the loader searches for. */
  ghost predicate IsWellFormed(t: Table) {
    && DEFAULT_CHAIN in t
    && (forall c <- t :: IsText([c]))
    && (forall c <- t :: forall spec <- t[c] ::
      IsText(spec) && (IsOwn(c, spec) || IsForeign(RuleLine(c, spec))))
  }

  /** The parts of a saved table that the rules do not determine. */
  datatype Dump = Dump(head: seq<string>, tail: seq<string>, order: seq<string>, policy: map<string, string>)

  function DeclLine(chain: string, policy: string): string {
    ":" + chain + " " + policy
  }

  function ChainLines(chain: string, specs: seq<Spec>): seq<string> {
    seq(|specs|, i requires 0 <= i < |specs| => RuleLine(chain, specs[i]))
  }

  function AllChainLines(t: Table, order: seq<string>): seq<string>
    requires forall c <- order :: c in t
  {
    if |order| == 0 then [] else
      assert order[0] in order;
      ChainLines(order[0], t[order[0]]) + AllChainLines(t, order[1..])
  }

  function Declarations(order: seq<string>, policy: map<string, string>): seq<string>
    requires forall c <- order :: c in policy
  {
    seq(|order|, i requires 0 <= i < |order| => assert order[i] in order; DeclLine(order[i], policy[order[i]]))
  }

  /** d describes a saved form of t: chains in any order, no foreign declaration or comment carrying a mark. */
  ghost predicate IsDumpOf(d: Dump, t: Table) {
    && Enumerates(d.order, t.Keys)
    && t.Keys <= d.policy.Keys
    && (forall line <- d.head + d.tail :: IsForeign(line) && IsWord(line, '\n'))
    && (forall c <- t ::
          IsWord(DeclLine(c, d.policy[c]), '\n') && (c != CUSTOM_CHAIN ==> IsForeign(DeclLine(c, d.policy[c]))))
  }

  function DumpLines(d: Dump, t: Table): seq<string>
    requires forall c <- d.order :: c in t && c in d.policy
  {
    d.head + Declarations(d.order, d.policy) + AllChainLines(t, d.order) + d.tail
  }

  function SavedText(d: Dump, t: Table): string
    requires forall c <- d.order :: c in t && c in d.policy
  {
    Join(DumpLines(d, t), '\n')
  }

  function Rules(t: Table, chain: string): seq<Spec> {
    if chain in t then t[chain] else []
  }

  // ---------- counting lines ----------

  lemma RuleLineInjective(c: string, a: Spec, d: string, b: Spec)
    requires IsText([c]) && IsText(a) && IsText([d]) && IsText(b)
    requires RuleLine(c, a) == RuleLine(d, b)
    ensures c == d && a == b
  {
    assert c in [c] && d in [d];
    assert AreWords(["-A", c] + a, ' ') && AreWords(["-A", d] + b, ' ');
    JoinInjective(["-A", c] + a, ["-A", d] + b, ' ');
    assert (["-A", c] + a)[1] == (["-A", d] + b)[1];
    assert (["-A", c] + a)[2..] == a && (["-A", d] + b)[2..] == b;
  }

  lemma {:induction false} CountChainLines(c: string, specs: seq<Spec>, d: string, x: Spec)
    requires IsText([c]) && IsText([d]) && IsText(x)
    requires forall spec <- specs :: IsText(spec)
    ensures multiset(ChainLines(c, specs))[RuleLine(d, x)] == if c == d then multiset(specs)[x] else 0
  {
    if |specs| > 0 {
      var before, last := specs[..|specs| - 1], specs[|specs| - 1];
      assert specs == before + [last];
      assert ChainLines(c, specs) == ChainLines(c, before) + [RuleLine(c, last)];
      CountChainLines(c, before, d, x);
      if RuleLine(c, last) == RuleLine(d, x) {
        RuleLineInjective(c, last, d, x);
      }
    }
  }

  lemma {:induction false} CountAllChainLines(t: Table, order: seq<string>, d: string, x: Spec)
    requires forall c <- order :: c in t && IsText([c])
    requires forall c <- t :: forall spec <- t[c] :: IsText(spec)
    requires IsText([d]) && IsText(x)
    requires forall i, j :: 0 <= i < j < |order| ==> order[i] != order[j]
    ensures multiset(AllChainLines(t, order))[RuleLine(d, x)] == if d in order then multiset(t[d])[x] else 0
  {
    if |order| > 0 {
      var c := order[0];
      assert c in order;
      CountChainLines(c, t[c], d, x);
      CountAllChainLines(t, order[1..], d, x);
      assert order == [c] + order[1..];
    }
  }

  lemma {:induction false} ChainLinesAre(t: Table, order: seq<string>)
    requires forall c <- order :: c in t
    ensures forall line <- AllChainLines(t, order) ::
              exists c, spec :: c in t && spec in t[c] && line == RuleLine(c, spec)
  {
    if |order| > 0 {
      var c := order[0];
      assert c in order;
      ChainLinesAre(t, order[1..]);
      forall line <- ChainLines(c, t[c])
        ensures exists c, spec :: c in t && spec in t[c] && line == RuleLine(c, spec)
      {
        var i :| 0 <= i < |t[c]| && line == RuleLine(c, t[c][i]);
        assert t[c][i] in t[c];
      }
    }
  }

  lemma CustomDeclaration(policy: string)
    ensures Contains(DeclLine(CUSTOM_CHAIN, policy), CHAIN_MARK)
  {
    ContainsMiddle("", CHAIN_MARK, " " + policy);
    assert "" + CHAIN_MARK + (" " + policy) == DeclLine(CUSTOM_CHAIN, policy);
  }

  lemma OwnLines(c: string, spec: Spec)
    requires IsOwn(c, spec)
    ensures IsText(spec)
    ensures RuleLine(c, spec) == REFERENCE_MARK || exists id :: AllDigits(id) && RuleLine(c, spec) == AddRule(id)
    ensures !Contains(RuleLine(c, spec), CHAIN_MARK)
  {
    ReferenceMarks();
    if spec == REFERENCE_SPEC {
      ShortWordsArePlain();
      ChainIsPlain();
    } else {
      AddRuleWords(spec[8]);
      AddRuleMarks(spec[8]);
      OwnWordChars(spec[8]);
      assert IsText(spec) by {
        forall w <- spec ensures IsWord(w, ' ') && IsWord(w, '\n') {
          assert w in ["-A", CUSTOM_CHAIN] + CgroupSpec(spec[8]);
        }
      }
    }
  }

  /** Every line of a saved well-formed table is recognised, and all lines are newline-free. */
  lemma DumpRecognised(d: Dump, t: Table)
    requires IsWellFormed(t) && IsDumpOf(d, t)
    ensures forall line <- DumpLines(d, t) :: IsRecognised(line) && IsWord(line, '\n')
    ensures (exists line <- DumpLines(d, t) :: Contains(line, CHAIN_MARK)) <==> CUSTOM_CHAIN in t
  {
    forall line <- DumpLines(d, t)
      ensures IsRecognised(line) && IsWord(line, '\n')
      ensures Contains(line, CHAIN_MARK) ==> CUSTOM_CHAIN in t
    {
      LineRecognised(d, t, line);
    }
    if CUSTOM_CHAIN in t {
      CustomDeclaration(d.policy[CUSTOM_CHAIN]);
      var i :| 0 <= i < |d.order| && d.order[i] == CUSTOM_CHAIN;
      assert Declarations(d.order, d.policy)[i] == DeclLine(CUSTOM_CHAIN, d.policy[CUSTOM_CHAIN]);
      assert DeclLine(CUSTOM_CHAIN, d.policy[CUSTOM_CHAIN]) in Declarations(d.order, d.policy);
      assert DeclLine(CUSTOM_CHAIN, d.policy[CUSTOM_CHAIN]) in DumpLines(d, t);
    }
  }

  lemma LineRecognised(d: Dump, t: Table, line: string)
    requires IsWellFormed(t) && IsDumpOf(d, t) && line in DumpLines(d, t)
    ensures IsRecognised(line) && IsWord(line, '\n')
    ensures Contains(line, CHAIN_MARK) ==> CUSTOM_CHAIN in t
  {
    var decls, rules := Declarations(d.order, d.policy), AllChainLines(t, d.order);
    assert line in d.head + d.tail || line in decls || line in rules;
    if line in decls {
      var i :| 0 <= i < |d.order| && line == DeclLine(d.order[i], d.policy[d.order[i]]);
      var c := d.order[i];
      assert c in d.order;
      assert c in t;
      if c == CUSTOM_CHAIN {
        CustomDeclaration(d.policy[c]);
      }
    } else if line in rules {
      ChainLinesAre(t, d.order);
      var c, spec :| c in t && spec in t[c] && line == RuleLine(c, spec);
      if IsOwn(c, spec) {
        OwnLines(c, spec);
      }
      assert IsText([c]) && IsText(spec) && c in [c];
      RuleLineOneLine(c, spec);
    }
  }

  lemma RuleLineOneLine(c: string, spec: Spec)
    requires IsText([c]) && IsText(spec)
    ensures IsWord(RuleLine(c, spec), '\n')
  {
    assert c in [c];
    var words := ["-A", c] + spec;
    JoinChars(words, ' ', '\n');
    JoinConcat(["-A"], [c] + spec, ' ');
    assert ["-A"] + ([c] + spec) == words;
  }

  /** How often each own rule's line occurs in the saved table. */
  lemma DumpCounts(d: Dump, t: Table, c: string, x: Spec)
    requires IsWellFormed(t) && IsDumpOf(d, t)
    requires IsOwn(c, x) && IsText([c])
    ensures multiset(DumpLines(d, t))[RuleLine(c, x)] == multiset(Rules(t, c))[x]
  {
    OwnLines(c, x);
    var line := RuleLine(c, x);
    LinesDiffer(line);
    var decls, rules := Declarations(d.order, d.policy), AllChainLines(t, d.order);
    ReferenceMarks();
    assert !IsForeign(line) by {
      if IsCgroupRule(x) && line != REFERENCE_MARK {
        var id :| AllDigits(id) && line == AddRule(id);
        AddRuleMarks(id);
      }
    }
    assert line !in d.head + d.tail;
    assert line !in decls by {
      if line in decls {
        var i :| 0 <= i < |d.order| && line == DeclLine(d.order[i], d.policy[d.order[i]]);
        assert d.order[i] in d.order && d.order[i] in t;
        if d.order[i] == CUSTOM_CHAIN {
          CustomDeclaration(d.policy[CUSTOM_CHAIN]);
        }
      }
    }
    CountAllChainLines(t, d.order, c, x);
  }

  // ---------- what the rule map says about the table ----------

  ghost predicate Occurs(t: Table, id: string) {
    AllDigits(id) && CgroupSpec(id) in Rules(t, CUSTOM_CHAIN)
  }

  /** The loaded history in terms of the table. */
  ghost predicate HistoryReads(history: map<string, seq<string>>, t: Table) {
    && (forall id :: id in history <==> Occurs(t, id))
    && (forall id | id in history ::
      && |history[id]| == multiset(Rules(t, CUSTOM_CHAIN))[CgroupSpec(id)]
      && forall text <- history[id] :: text == RuleText(CUSTOM_CHAIN, CgroupSpec(id)))
  }

  ghost predicate LoadReads(l: Loaded, t: Table) {
    && (l.create != "" <==> CUSTOM_CHAIN in t)
    && |l.references| == multiset(Rules(t, DEFAULT_CHAIN))[REFERENCE_SPEC]
    && HistoryReads(l.history, t)
  }

  lemma ChainNamesAreText()
    ensures IsText([CUSTOM_CHAIN]) && IsText([DEFAULT_CHAIN])
  {
    ChainIsPlain();
  }

  lemma IdsRead(d: Dump, t: Table, id: string)
    requires IsWellFormed(t) && IsDumpOf(d, t) && AllDigits(id)
    ensures HasId(DumpLines(d, t), id) <==> Occurs(t, id)
    ensures multiset(DumpLines(d, t))[AddRule(id)] == multiset(Rules(t, CUSTOM_CHAIN))[CgroupSpec(id)]
  {
    AddRuleWords(id);
    ChainNamesAreText();
    DumpCounts(d, t, CUSTOM_CHAIN, CgroupSpec(id));
    assert AddRule(id) in DumpLines(d, t) <==> multiset(DumpLines(d, t))[AddRule(id)] > 0;
    assert CgroupSpec(id) in Rules(t, CUSTOM_CHAIN) <==> multiset(Rules(t, CUSTOM_CHAIN))[CgroupSpec(id)] > 0;
  }

  lemma HistoryOfDump(d: Dump, t: Table, history: map<string, seq<string>>)
    requires IsWellFormed(t) && IsDumpOf(d, t) && HistoryMatches(history, DumpLines(d, t))
    ensures HistoryReads(history, t)
  {
    var lines := DumpLines(d, t);
    forall id ensures id in history <==> Occurs(t, id) {
      assert id in history <==> HasId(lines, id);
      if AllDigits(id) {
        IdsRead(d, t, id);
      }
    }
    forall id | id in history
      ensures |history[id]| == multiset(Rules(t, CUSTOM_CHAIN))[CgroupSpec(id)]
    {
      assert HasId(lines, id);
      IdsRead(d, t, id);
    }
  }

  /** Reading the saved text of a well-formed table recovers its own rules, for any order of the chains. */
  lemma LoadingReadsTable(d: Dump, t: Table)
    requires IsWellFormed(t) && IsDumpOf(d, t)
    ensures LoadReads(LoadLines(Split(SavedText(d, t), '\n')), t)
  {
    var lines := DumpLines(d, t);
    DumpRecognised(d, t);
    SplitJoin(lines, '\n');
    LoadedByCounts(lines);
    ChainNamesAreText();
    ReferenceMarks();
    DumpCounts(d, t, DEFAULT_CHAIN, REFERENCE_SPEC);
    HistoryOfDump(d, t, LoadLines(lines).history);
  }

  /** The specs that a list of deletion lines names, one block of copies per id. */
  ghost function GatherSpecs(history: map<string, seq<string>>, ks: seq<string>): seq<Spec>
    requires forall k <- ks :: k in history
  {
    if |ks| == 0 then []
    else
      assert ks[|ks| - 1] in ks;
      var k := ks[|ks| - 1];
      GatherSpecs(history, ks[..|ks| - 1]) + seq(|history[k]|, _ => CgroupSpec(k))
  }

  ghost function SpecsOf(ids: seq<string>): seq<Spec> {
    seq(|ids|, i requires 0 <= i < |ids| => CgroupSpec(ids[i]))
  }

  lemma DeletionParses(id: string)
    requires AllDigits(id)
    ensures ParseCommand("-D " + RuleText(CUSTOM_CHAIN, CgroupSpec(id))) == Delete(CUSTOM_CHAIN, CgroupSpec(id))
    ensures ParseCommand(AddRule(id)) == Append(CUSTOM_CHAIN, CgroupSpec(id))
  {
    OwnWordsArePlain(id);
    var body := [CUSTOM_CHAIN] + CgroupSpec(id);
    DeletionWords("-D", body);
    DeletionWords("-A", body);
    AddRuleWords(id);
    assert (["-D"] + body)[2..] == CgroupSpec(id) && (["-A"] + body)[2..] == CgroupSpec(id);
    assert "-D" + " " == "-D " && "-A" + " " == "-A ";
  }

  lemma DeletionWords(verb: string, body: seq<string>)
    requires verb in {"-A", "-D"} && |body| > 0 && forall w <- body :: IsPlain(w)
    ensures Join([verb] + body, ' ') == verb + " " + Join(body, ' ')
    ensures ParseCommand(verb + " " + Join(body, ' ')) ==
      if verb == "-A" then Append(([verb] + body)[1], ([verb] + body)[2..])
      else Delete(([verb] + body)[1], ([verb] + body)[2..])
  {
    JoinConcat([verb], body, ' ');
    assert AreWords([verb] + body, ' ') by {
      forall w <- [verb] + body ensures IsWord(w, ' ') {
        assert w == verb || w in body;
      }
    }
    ParseJoined([verb] + body);
  }

  lemma GatheredBlock(history: map<string, seq<string>>, t: Table, k: string)
    requires HistoryReads(history, t) && k in history
    ensures DeletesRules(DeleteLines(history[k]), CUSTOM_CHAIN, seq(|history[k]|, _ => CgroupSpec(k)))
  {
    assert Occurs(t, k);
    DeletionParses(k);
    var lines := DeleteLines(history[k]);
    forall i | 0 <= i < |lines|
      ensures ParseCommand(lines[i]) == Delete(CUSTOM_CHAIN, CgroupSpec(k))
    {
      assert history[k][i] in history[k];
    }
  }

  lemma DeletesConcat(a: seq<string>, x: seq<Spec>, b: seq<string>, y: seq<Spec>)
    requires DeletesRules(DeleteLines(a), CUSTOM_CHAIN, x) && DeletesRules(DeleteLines(b), CUSTOM_CHAIN, y)
    ensures DeletesRules(DeleteLines(a + b), CUSTOM_CHAIN, x + y)
    ensures DeleteLines(a + b) == DeleteLines(a) + DeleteLines(b)
  {
    assert DeleteLines(a + b) == DeleteLines(a) + DeleteLines(b);
  }

  /** The repeated ids' deletion lines name every copy of each of them. */
  lemma {:induction false} GatheredDeletes(history: map<string, seq<string>>, t: Table, ks: seq<string>)
    requires HistoryReads(history, t)
    requires forall k <- ks :: k in history
    ensures DeletesRules(DeleteLines(Gather(history, ks)), CUSTOM_CHAIN, GatherSpecs(history, ks))
  {
    if |ks| > 0 {
      var before, k := ks[..|ks| - 1], ks[|ks| - 1];
      assert k in ks && forall q <- before :: q in ks;
      GatheredDeletes(history, t, before);
      GatheredBlock(history, t, k);
      DeletesConcat(Gather(history, before), GatherSpecs(history, before), history[k],
                    seq(|history[k]|, _ => CgroupSpec(k)));
    }
  }

  lemma {:induction false} GatheredCounts(history: map<string, seq<string>>, t: Table, ks: seq<string>, x: Spec)
    requires HistoryReads(history, t)
    requires forall k <- ks :: k in history
    requires forall i, j :: 0 <= i < j < |ks| ==> ks[i] != ks[j]
    ensures multiset(GatherSpecs(history, ks))[x] ==
            if IsCgroupRule(x) && x[8] in ks then multiset(Rules(t, CUSTOM_CHAIN))[x] else 0
  {
    if |ks| > 0 {
      var before, k := ks[..|ks| - 1], ks[|ks| - 1];
      assert k in ks && forall q <- before :: q in ks;
      GatheredCounts(history, t, before, x);
      CountCopies(|history[k]|, CgroupSpec(k), x);
      assert Occurs(t, k);
      assert CgroupSpec(k)[8] == k;
      assert ks == before + [k];
      assert k !in before;
    }
  }

  lemma {:induction false} CountCopies(n: nat, y: Spec, x: Spec)
    ensures multiset(seq(n, _ => y))[x] == if x == y then n else 0
  {
    if n > 0 {
      assert seq(n, _ => y) == seq(n - 1, _ => y) + [y];
      CountCopies(n - 1, y, x);
    }
  }

  // ---------- deleting the collector's rules ----------

  /** The rules named by the deletion lines when ks are the repeated and keys the chosen single ids. */
  ghost function Doomed(history: map<string, seq<string>>, ks: seq<string>, keys: seq<string>): seq<Spec>
    requires forall k <- ks :: k in history
  {
    GatherSpecs(history, ks) + SpecsOf(keys)
  }

  lemma {:induction false} CountSpecsOf(ids: seq<string>, x: Spec)
    requires forall i, j :: 0 <= i < j < |ids| ==> ids[i] != ids[j]
    requires forall id <- ids :: AllDigits(id)
    ensures multiset(SpecsOf(ids))[x] == if IsCgroupRule(x) && x[8] in ids then 1 else 0
  {
    if |ids| > 0 {
      var before, k := ids[..|ids| - 1], ids[|ids| - 1];
      assert k in ids && forall q <- before :: q in ids;
      CountSpecsOf(before, x);
      assert SpecsOf(ids) == SpecsOf(before) + [CgroupSpec(k)];
      assert CgroupSpec(k)[8] == k;
      assert ids == before + [k];
    }
  }

  /** Every copy of each named rule is named, so the deletions cannot miss and cannot stop short. */
  lemma DoomedCounts(l: Loaded, t: Table, ks: seq<string>, keys: seq<string>)
    requires HistoryReads(l.history, t) && Enumerates(ks, Repeated(l.history))
    requires forall k <- keys :: k in Singles(l.history)
    requires forall i, j :: 0 <= i < j < |keys| ==> keys[i] != keys[j]
    ensures forall x :: x in Doomed(l.history, ks, keys) <==>
                        IsCgroupRule(x) && x in Rules(t, CUSTOM_CHAIN) && (x[8] in ks || x[8] in keys)
    ensures forall x <- Doomed(l.history, ks, keys) ::
              multiset(Doomed(l.history, ks, keys))[x] == multiset(Rules(t, CUSTOM_CHAIN))[x]
  {
    var r := Rules(t, CUSTOM_CHAIN);
    forall k <- keys ensures Occurs(t, k) && multiset(r)[CgroupSpec(k)] == 1 {
      assert k in l.history;
    }
    forall x
      ensures multiset(Doomed(l.history, ks, keys))[x] ==
              if IsCgroupRule(x) && (x[8] in ks || x[8] in keys) then multiset(r)[x] else 0
      ensures x in Doomed(l.history, ks, keys) <==> IsCgroupRule(x) && x in r && (x[8] in ks || x[8] in keys)
    {
      GatheredCounts(l.history, t, ks, x);
      CountSpecsOf(keys, x);
      assert x in Doomed(l.history, ks, keys) <==> multiset(Doomed(l.history, ks, keys))[x] > 0;
      assert x in r <==> multiset(r)[x] > 0;
    }
  }

  lemma DoomedLines(l: Loaded, t: Table, ks: seq<string>, keys: seq<string>, m: RuleMap)
    requires HistoryReads(l.history, t) && IsCheckedOut(m, l, ks)
    requires forall k <- keys :: k in m.history
    ensures DeletesRules(DeleteLines(m.repetition) + DeleteLines(Pick(m.history, keys)), CUSTOM_CHAIN,
                         Doomed(l.history, ks, keys))
  {
    GatheredDeletes(l.history, t, ks);
    var texts := Pick(m.history, keys);
    forall i | 0 <= i < |texts|
      ensures ParseCommand(DeleteLines(texts)[i]) == Delete(CUSTOM_CHAIN, CgroupSpec(keys[i]))
    {
      var k := keys[i];
      assert k in keys;
      assert Occurs(t, k) && l.history[k][0] in l.history[k];
      DeletionParses(k);
    }
    DeletesConcat(m.repetition, GatherSpecs(l.history, ks), texts, SpecsOf(keys));
  }

  /** The rules of the custom chain that are not the collector's. */
  function OtherRules(specs: seq<Spec>): seq<Spec> {
    if |specs| == 0 then []
    else (if IsCgroupRule(specs[0]) then [] else [specs[0]]) + OtherRules(specs[1..])
  }

  lemma {:induction false} OtherRulesConcat(a: seq<Spec>, b: seq<Spec>)
    ensures OtherRules(a + b) == OtherRules(a) + OtherRules(b)
  {
    if |a| == 0 {
      assert a + b == b;
    } else {
      assert (a + b)[1..] == a[1..] + b;
      OtherRulesConcat(a[1..], b);
    }
  }

  lemma {:induction false} OtherRulesOfOwn(specs: seq<Spec>)
    ensures (forall x <- specs :: IsCgroupRule(x)) <==> OtherRules(specs) == []
  {
    if |specs| > 0 {
      OtherRulesOfOwn(specs[1..]);
      assert specs == [specs[0]] + specs[1..];
    }
  }

  lemma {:induction false} OtherRulesSurvive(specs: seq<Spec>, doomed: seq<Spec>)
    requires forall x <- doomed :: IsCgroupRule(x)
    ensures OtherRules(Without(specs, doomed)) == OtherRules(specs)
  {
    if |specs| > 0 {
      OtherRulesSurvive(specs[1..], doomed);
      var head := if specs[0] in doomed then [] else [specs[0]];
      OtherRulesConcat(head, Without(specs[1..], doomed));
      if specs[0] !in doomed {
        assert [specs[0]][1..] == [];
      }
    }
  }
}
