/** Reading a saved filter table: which lines are the collector's own, and which class ids they carry. */
module IptablesLoader {
  import opened Text
  import opened FilterTable

  const DEFAULT_CHAIN := "OUTPUT"
  const CUSTOM_CHAIN := "PAI_OUTPUT_CGROUP"

  // The search patterns, with the Lua escapes resolved: all three are literals.
  const CHAIN_MARK := ":" + CUSTOM_CHAIN
  const REFERENCE_MARK := "-A " + DEFAULT_CHAIN + " -j " + CUSTOM_CHAIN
  const RULE_MARK := "-m cgroup --cgroup"

  const RULE_WORDS := 13
  const ID_WORD := 10

  /** The table as loadRules first collects it: rules grouped by the class id they carry. */
  datatype Loaded = Loaded(create: string, references: seq<string>, history: map<string, seq<string>>)

  const NOTHING_LOADED := Loaded("", [], map[])

  /** The table after single and repeated rules are told apart. */
  datatype RuleMap = RuleMap(
    create: string,
    references: seq<string>,
    history: map<string, string>,
    repetition: seq<string>)

  function UpdateRuleInfo(detail: string, history: map<string, seq<string>>): map<string, seq<string>> {
    var words := Split(detail, ' ');
    if |words| < RULE_WORDS then history
    else
      var key := words[ID_WORD];
      var rule := Join(words[1..], ' ');
      if key in history then history[key := history[key] + [rule]] else history[key := [rule]]
  }

  function LoadLine(acc: Loaded, line: string): Loaded {
    if Contains(line, CHAIN_MARK) then acc.(create := line)
    else if Contains(line, REFERENCE_MARK) then acc.(references := acc.references + [line])
    else if Contains(line, RULE_MARK) then acc.(history := UpdateRuleInfo(line, acc.history))
    else acc
  }

  function LoadLines(lines: seq<string>): Loaded {
    if |lines| == 0 then NOTHING_LOADED else LoadLine(LoadLines(lines[..|lines| - 1]), lines[|lines| - 1])
  }

  // ---------- iteration in any order ----------

  /** ks lists the members of s, each once, in some order. */
  ghost predicate Enumerates(ks: seq<string>, s: set<string>) {
    (forall k :: k in s <==> k in ks) && (forall i, j :: 0 <= i < j < |ks| ==> ks[i] != ks[j])
  }

  lemma EnumeratesNothing(ks: seq<string>, s: set<string>)
    requires Enumerates(ks, s)
    ensures s == {} ==> ks == []
  {
    assert |ks| > 0 ==> ks[0] in s;
  }

  ghost function Repeated(history: map<string, seq<string>>): set<string> {
    set k | k in history && |history[k]| > 1
  }

  ghost function Gather(history: map<string, seq<string>>, ks: seq<string>): seq<string>
    requires forall k <- ks :: k in history
  {
    if |ks| == 0 then []
    else
      assert ks[|ks| - 1] in ks;
      Gather(history, ks[..|ks| - 1]) + history[ks[|ks| - 1]]
  }

  ghost function Singles(history: map<string, seq<string>>): map<string, string> {
    map k | k in history && |history[k]| == 1 :: history[k][0]
  }

  /** The rule map obtained from what was loaded when the ids are visited in the order ks. */
  ghost predicate IsCheckedOut(m: RuleMap, l: Loaded, ks: seq<string>) {
    && m.create == l.create && m.references == l.references
    && m.history == Singles(l.history)
    && Enumerates(ks, Repeated(l.history))
    && m.repetition == Gather(l.history, ks)
  }

  /** Separates the ids that occur once from those that repeat; the visiting order is arbitrary. */
  method CheckoutRepetitionRule(l: Loaded) returns (m: RuleMap)
    ensures exists ks :: IsCheckedOut(m, l, ks)
  {
    var todo := l.history.Keys;
    var repetition: seq<string> := [];
    var history: map<string, string> := map[];
    ghost var ks: seq<string> := [];
    while todo != {}
      invariant todo <= l.history.Keys
      invariant forall k :: k in ks <==> k in l.history && |l.history[k]| > 1 && k !in todo
      invariant forall i, j :: 0 <= i < j < |ks| ==> ks[i] != ks[j]
      invariant forall k :: k in history <==> k in l.history && |l.history[k]| == 1 && k !in todo
      invariant forall k <- history :: history[k] == l.history[k][0]
      invariant repetition == Gather(l.history, ks)
      decreases |todo|
    {
      var key :| key in todo;
      var rules := l.history[key];
      if |rules| > 1 {
        assert key !in ks && (ks + [key])[..|ks|] == ks;
        repetition := repetition + rules;
        ks := ks + [key];
      } else if |rules| == 1 {
        history := history[key := rules[0]];
      }
      todo := todo - {key};
    }
    assert history == Singles(l.history);
    m := RuleMap(l.create, l.references, history, repetition);
    assert IsCheckedOut(m, l, ks);
  }

  /** Reads the text of a saved table. The operator never hands over an empty text. */
  method LoadRules(output: string) returns (m: RuleMap)
    ensures exists ks :: IsCheckedOut(m, LoadLines(Split(output, '\n')), ks)
  {
    var lines := Split(output, '\n');
    var l := NOTHING_LOADED;
    for i := 0 to |lines|
      invariant l == LoadLines(lines[..i])
    {
      assert lines[..i + 1][..i] == lines[..i];
      l := LoadLine(l, lines[i]);
    }
    assert lines[..|lines|] == lines;
    m := CheckoutRepetitionRule(l);
  }

  // ---------- the collector's own lines ----------

  function CgroupSpec(id: string): Spec {
    ["-m", "addrtype", "!", "--dst-type", "LOCAL", "-m", "cgroup", "--cgroup", id, "-j", "RETURN"]
  }

  const REFERENCE_SPEC: Spec := ["-j", CUSTOM_CHAIN]

  function RuleLine(chain: string, spec: Spec): string {
    Join(["-A", chain] + spec, ' ')
  }

  function RuleText(chain: string, spec: Spec): string {
    Join([chain] + spec, ' ')
  }

  /** The template of the filter table, filled in. */
  function AddRule(id: string): string {
    "-A" + " " + (CUSTOM_CHAIN + " "
        + ("-m addrtype ! --dst-type LOCAL" + " " + (RULE_MARK + (" " + (id + " -j RETURN")))))
  }

  predicate IsForeign(line: string) {
    !Contains(line, CHAIN_MARK) && !Contains(line, REFERENCE_MARK) && !Contains(line, RULE_MARK)
  }

  lemma {:induction false} JoinConcat(a: seq<string>, b: seq<string>, sep: char)
    requires |a| > 0 && |b| > 0
    ensures Join(a + b, sep) == Join(a, sep) + [sep] + Join(b, sep)
  {
    assert (a + b)[1..] == a[1..] + b;
    if |a| > 1 {
      JoinConcat(a[1..], b, sep);
    }
  }

  lemma JoinPair(a: string, b: string)
    ensures Join([a, b], ' ') == a + " " + b
  {
    assert [a, b][1..] == [b];
  }

  lemma JoinTriple(a: string, b: string, c: string)
    ensures Join([a, b, c], ' ') == a + " " + b + " " + c
  {
    assert [a, b, c][1..] == [b, c];
    JoinPair(b, c);
  }

  const ADDRTYPE_WORDS := ["-m", "addrtype", "!", "--dst-type", "LOCAL"]
  const MARK_WORDS := ["-m", "cgroup", "--cgroup"]

  lemma MarkText()
    ensures Join(MARK_WORDS, ' ') == RULE_MARK
  {
    JoinTriple("-m", "cgroup", "--cgroup");
    assert "-m" + " " + "cgroup" + " " + "--cgroup" == "-m cgroup --cgroup";
  }

  lemma NegatedText()
    ensures Join(["!", "--dst-type", "LOCAL"], ' ') == "! --dst-type LOCAL"
  {
    JoinTriple("!", "--dst-type", "LOCAL");
    assert "!" + " " + "--dst-type" + " " + "LOCAL" == "! --dst-type LOCAL";
  }

  lemma ModuleText()
    ensures Join(["-m", "addrtype"], ' ') == "-m addrtype"
  {
    JoinPair("-m", "addrtype");
    assert "-m" + " " + "addrtype" == "-m addrtype";
  }

  lemma AddrtypeText()
    ensures Join(ADDRTYPE_WORDS, ' ') == "-m addrtype ! --dst-type LOCAL"
  {
    ModuleText();
    NegatedText();
    JoinConcat(["-m", "addrtype"], ["!", "--dst-type", "LOCAL"], ' ');
    assert ["-m", "addrtype"] + ["!", "--dst-type", "LOCAL"] == ADDRTYPE_WORDS;
    assert "-m addrtype" + " " + "! --dst-type LOCAL" == "-m addrtype ! --dst-type LOCAL";
  }

  lemma TailText(id: string)
    ensures Join([id, "-j", "RETURN"], ' ') == id + " -j RETURN"
  {
    JoinTriple(id, "-j", "RETURN");
    assert id + " " + "-j" + " " + "RETURN" == id + " -j RETURN" by {
      assert " " + "-j" + " " + "RETURN" == " -j RETURN";
      assert id + " " + "-j" + " " + "RETURN" == id + (" " + "-j" + " " + "RETURN");
    }
  }

  /** The printed rule is the rule's words; dropping "-A" leaves the text the deletion uses. */
  lemma AddRuleWords(id: string)
    ensures AddRule(id) == RuleLine(CUSTOM_CHAIN, CgroupSpec(id))
    ensures AddRule(id) == "-A " + RuleText(CUSTOM_CHAIN, CgroupSpec(id))
  {
    var c := [id, "-j", "RETURN"];
    var bc := MARK_WORDS + c;
    var abc := ADDRTYPE_WORDS + bc;
    MarkText();
    AddrtypeText();
    TailText(id);
    JoinConcat(MARK_WORDS, c, ' ');
    JoinConcat(ADDRTYPE_WORDS, bc, ' ');
    JoinConcat([CUSTOM_CHAIN], abc, ' ');
    JoinConcat(["-A"], [CUSTOM_CHAIN] + abc, ' ');
    assert abc == CgroupSpec(id);
    assert ["-A"] + ([CUSTOM_CHAIN] + abc) == ["-A", CUSTOM_CHAIN] + CgroupSpec(id);
  }

  lemma AddRuleHasMark(id: string)
    ensures Contains(AddRule(id), RULE_MARK)
  {
    var chain := CUSTOM_CHAIN;
    var addr := "-m addrtype ! --dst-type LOCAL";
    var after := " " + (id + " -j RETURN");
    MarkInside(chain, addr, RULE_MARK, after);
    assert AddRule(id) == "-A" + " " + (chain + " " + (addr + " " + (RULE_MARK + after)));
  }

  lemma MarkInside(chain: string, addr: string, mark: string, after: string)
    ensures Contains("-A" + " " + (chain + " " + (addr + " " + (mark + after))), mark)
  {
    var before := "-A" + " " + (chain + " " + (addr + " "));
    ContainsMiddle(before, mark, after);
    assert before + mark + after == "-A" + " " + (chain + " " + (addr + " " + (mark + after)));
  }

  /** A word with no separator, no colon, and not both a dash and an A. */
  predicate IsPlain(w: string) {
    IsWord(w, ' ') && IsWord(w, '\n') && ':' !in w && ('-' !in w || 'A' !in w)
  }

  lemma ChainIsPlain()
    ensures IsPlain(CUSTOM_CHAIN)
  {
  }

  lemma ShortWordsArePlain()
    ensures IsPlain("-m") && IsPlain("!") && IsPlain("-j") && IsPlain("LOCAL") && IsPlain("RETURN")
  {
  }

  lemma ModuleWordsArePlain()
    ensures IsPlain("addrtype") && IsPlain("cgroup")
  {
  }

  lemma OptionWordsArePlain()
    ensures IsPlain("--dst-type") && IsPlain("--cgroup")
  {
  }

  lemma OwnWordsArePlain(id: string)
    requires AllDigits(id)
    ensures forall w <- [CUSTOM_CHAIN] + CgroupSpec(id) :: IsPlain(w)
  {
    ChainIsPlain();
    ShortWordsArePlain();
    ModuleWordsArePlain();
    OptionWordsArePlain();
    assert IsPlain(id);
    var fixed := {CUSTOM_CHAIN, "-m", "addrtype", "!", "--dst-type", "LOCAL", "cgroup", "--cgroup", "-j", "RETURN"};
    forall w <- [CUSTOM_CHAIN] + CgroupSpec(id) ensures w == id || w in fixed {
    }
  }

  lemma OwnWordChars(id: string)
    requires AllDigits(id)
    ensures forall w <- ["-A", CUSTOM_CHAIN] + CgroupSpec(id) :: ':' !in w
    ensures forall w <- [CUSTOM_CHAIN] + CgroupSpec(id) :: '-' !in w || 'A' !in w
    ensures AreWords(["-A", CUSTOM_CHAIN] + CgroupSpec(id), ' ')
    ensures AreWords(["-A", CUSTOM_CHAIN] + CgroupSpec(id), '\n')
  {
    OwnWordsArePlain(id);
    var words := [CUSTOM_CHAIN] + CgroupSpec(id);
    assert ["-A", CUSTOM_CHAIN] + CgroupSpec(id) == ["-A"] + words;
    forall w <- ["-A"] + words ensures w == "-A" || w in words {
    }
  }

  lemma AddRuleHasNoReference(id: string)
    requires AllDigits(id)
    ensures !Contains(AddRule(id), REFERENCE_MARK)
  {
    OwnWordChars(id);
    AddRuleWords(id);
    var rest := RuleText(CUSTOM_CHAIN, CgroupSpec(id));
    JoinConcat([CUSTOM_CHAIN], CgroupSpec(id), ' ');
    assert rest[0] == CUSTOM_CHAIN[0];
    NoReference(AddRule(id), rest, [CUSTOM_CHAIN] + CgroupSpec(id));
  }

  /** A printed rule carries the rule mark only. */
  lemma AddRuleMarks(id: string)
    requires AllDigits(id)
    ensures Contains(AddRule(id), RULE_MARK)
    ensures !Contains(AddRule(id), REFERENCE_MARK)
    ensures !Contains(AddRule(id), CHAIN_MARK)
  {
    AddRuleHasMark(id);
    AddRuleHasNoReference(id);
    OwnWordChars(id);
    AddRuleWords(id);
    JoinChars(["-A", CUSTOM_CHAIN] + CgroupSpec(id), ' ', ':');
    AbsentChar(AddRule(id), CHAIN_MARK, ':');
  }

  /** "-A" occurs in a rule line only at its start, so another chain's name there excludes the reference. */
  lemma NoReference(line: string, rest: string, words: seq<string>)
    requires line == "-A " + rest && rest == Join(words, ' ')
    requires |rest| > 0 && rest[0] != 'O'
    requires forall w <- words :: '-' !in w || 'A' !in w
    ensures !Contains(line, REFERENCE_MARK)
  {
    JoinPairFree(words, ' ', '-', 'A');
    var mark := REFERENCE_MARK;
    assert |mark| >= 4 && mark[0] == '-' && mark[1] == 'A' && mark[3] == 'O';
    forall i ensures !OccursAt(line, mark, i) {
      if 0 <= i <= |line| - |mark| {
        var here := line[i..i + |mark|];
        assert here[0] == line[i] && here[1] == line[i + 1] && here[3] == line[i + 3];
        if i >= 3 {
          assert line[i] == rest[i - 3] && line[i + 1] == rest[i - 2];
        } else if i == 0 {
          assert line[3] == rest[0];
        }
      }
    }
  }

  lemma ReferenceMarks()
    ensures RuleLine(DEFAULT_CHAIN, REFERENCE_SPEC) == REFERENCE_MARK
    ensures Contains(REFERENCE_MARK, REFERENCE_MARK)
    ensures !Contains(REFERENCE_MARK, CHAIN_MARK)
  {
    JoinPair("-j", CUSTOM_CHAIN);
    JoinPair("-A", DEFAULT_CHAIN);
    JoinConcat(["-A", DEFAULT_CHAIN], REFERENCE_SPEC, ' ');
    assert "-A" + " " + DEFAULT_CHAIN + " " + ("-j" + " " + CUSTOM_CHAIN) == REFERENCE_MARK;
    ContainsMiddle("", REFERENCE_MARK, "");
    assert "" + REFERENCE_MARK + "" == REFERENCE_MARK;
    AbsentChar(REFERENCE_MARK, CHAIN_MARK, ':');
  }

  // ---------- what loading finds, by counting lines ----------

  /** Every line is one of the collector's own or carries none of its marks. */
  ghost predicate IsRecognised(line: string) {
    || IsForeign(line)
    || Contains(line, CHAIN_MARK)
    || line == REFERENCE_MARK
    || exists id :: AllDigits(id) && line == AddRule(id)
  }

  ghost predicate HasId(lines: seq<string>, id: string) {
    AllDigits(id) && AddRule(id) in lines
  }

  /** The loaded history lists, for every id, one deletion text per copy of its rule. */
  ghost predicate HistoryMatches(history: map<string, seq<string>>, lines: seq<string>) {
    && (forall id :: id in history <==> HasId(lines, id))
    && (forall id | id in history ::
      && |history[id]| == multiset(lines)[AddRule(id)]
      && forall text <- history[id] :: text == RuleText(CUSTOM_CHAIN, CgroupSpec(id)))
  }

  ghost predicate LoadMatches(l: Loaded, lines: seq<string>) {
    && (l.create != "" <==> exists line <- lines :: Contains(line, CHAIN_MARK))
    && l.references == seq(multiset(lines)[REFERENCE_MARK], _ => REFERENCE_MARK)
    && HistoryMatches(l.history, lines)
  }

  lemma AddRuleSplit(id: string)
    requires AllDigits(id)
    ensures Split(AddRule(id), ' ') == ["-A", CUSTOM_CHAIN] + CgroupSpec(id)
  {
    AddRuleWords(id);
    OwnWordChars(id);
    SplitJoin(["-A", CUSTOM_CHAIN] + CgroupSpec(id), ' ');
  }

  /** Parsing a printed rule files its deletion text under the id it was printed for. */
  lemma AddRuleFiled(id: string, history: map<string, seq<string>>)
    requires AllDigits(id)
    ensures UpdateRuleInfo(AddRule(id), history) ==
      history[id := (if id in history then history[id] else []) + [RuleText(CUSTOM_CHAIN, CgroupSpec(id))]]
  {
    AddRuleSplit(id);
    var words := ["-A", CUSTOM_CHAIN] + CgroupSpec(id);
    assert |words| == RULE_WORDS && words[ID_WORD] == id;
    assert words[1..] == [CUSTOM_CHAIN] + CgroupSpec(id);
    var rule := RuleText(CUSTOM_CHAIN, CgroupSpec(id));
    assert [] + [rule] == [rule];
  }

  lemma AddRuleInjective(a: string, b: string)
    requires AllDigits(a) && AllDigits(b) && AddRule(a) == AddRule(b)
    ensures a == b
  {
    AddRuleSplit(a);
    AddRuleSplit(b);
    assert (["-A", CUSTOM_CHAIN] + CgroupSpec(a))[ID_WORD] == a;
    assert (["-A", CUSTOM_CHAIN] + CgroupSpec(b))[ID_WORD] == b;
  }

  /** The kinds of line exclude one another. */
  lemma LinesDiffer(line: string)
    ensures IsForeign(line) || Contains(line, CHAIN_MARK) ==> line != REFERENCE_MARK
    ensures IsForeign(line) || Contains(line, CHAIN_MARK) ==> forall id | AllDigits(id) :: line != AddRule(id)
    ensures forall id | AllDigits(id) :: AddRule(id) != REFERENCE_MARK
  {
    ReferenceMarks();
    forall id | AllDigits(id)
      ensures AddRule(id) != REFERENCE_MARK && Contains(AddRule(id), RULE_MARK) && !Contains(AddRule(id), CHAIN_MARK)
    {
      AddRuleMarks(id);
    }
  }

  /** A line that is none of the collector's rules leaves the history as it stands. */
  lemma HistoryUnchanged(history: map<string, seq<string>>, lines: seq<string>, line: string)
    requires HistoryMatches(history, lines)
    requires forall id | AllDigits(id) :: line != AddRule(id)
    ensures HistoryMatches(history, lines + [line])
  {
    forall id ensures id in history <==> HasId(lines + [line], id) {
      assert HasId(lines, id) <==> HasId(lines + [line], id);
    }
    forall id | id in history
      ensures |history[id]| == multiset(lines + [line])[AddRule(id)]
    {
      assert HasId(lines, id);
    }
  }

  lemma HistoryGrows(history: map<string, seq<string>>, lines: seq<string>, id: string)
    requires HistoryMatches(history, lines) && AllDigits(id)
    ensures HistoryMatches(UpdateRuleInfo(AddRule(id), history), lines + [AddRule(id)])
  {
    AddRuleFiled(id, history);
    var line := AddRule(id);
    var next := UpdateRuleInfo(line, history);
    forall other ensures other in next <==> HasId(lines + [line], other) {
      assert other != id && AllDigits(other) ==> AddRule(other) != line by {
        if AllDigits(other) && AddRule(other) == line {
          AddRuleInjective(other, id);
        }
      }
      assert HasId(lines, other) ==> HasId(lines + [line], other);
      if HasId(lines + [line], other) && other != id {
        assert HasId(lines, other);
      }
    }
    forall other | other in next
      ensures |next[other]| == multiset(lines + [line])[AddRule(other)]
    {
      assert HasId(lines + [line], other);
      if other != id {
        if AddRule(other) == line {
          AddRuleInjective(other, id);
        }
      } else if id !in history {
        assert !HasId(lines, id);
      }
    }
  }

  /** What is loaded is determined by how often each own line occurs, whatever the order of the lines. */
  lemma {:induction false} LoadedByCounts(lines: seq<string>)
    requires forall line <- lines :: IsRecognised(line)
    ensures LoadMatches(LoadLines(lines), lines)
  {
    if |lines| > 0 {
      var before, line := lines[..|lines| - 1], lines[|lines| - 1];
      assert lines == before + [line];
      LoadedByCounts(before);
      LoadedStep(LoadLines(before), before, line);
    }
  }

  lemma LoadedStep(l: Loaded, lines: seq<string>, line: string)
    requires LoadMatches(l, lines) && IsRecognised(line)
    ensures LoadMatches(LoadLine(l, line), lines + [line])
  {
    ReferenceMarks();
    LinesDiffer(line);
    assert forall x <- lines + [line] :: x in lines || x == line;
    assert forall x <- lines :: x in lines + [line];
    assert line in lines + [line];
    if IsForeign(line) || Contains(line, CHAIN_MARK) || line == REFERENCE_MARK {
      HistoryUnchanged(l.history, lines, line);
      if Contains(line, CHAIN_MARK) {
        AbsentChar("", CHAIN_MARK, ':');
      }
    } else {
      var id :| AllDigits(id) && line == AddRule(id);
      AddRuleMarks(id);
      HistoryGrows(l.history, lines, id);
    }
  }
}
