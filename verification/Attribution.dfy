/** Attributing the byte counters of the custom chain to tasks by class id. */
module Attribution {
  import opened Text
  import opened FilterTable
  import opened IptablesLoader
  import opened IptablesPlan
  import opened IptablesReconcile
  import opened IptablesConvergence
  import opened IptablesRounds
  import opened ClassId

  /** How a task's upload is measured; a bridged task's bytes come from its own network device. */
  datatype Mode = Host | Bridge(bytes: nat) | Unmatched

  datatype Task = Task(classId: nat, mode: Mode)

  datatype Protocol = IPv4 | IPv6

  // ---------- reading one counted line ----------

  function ParseTrafficForHost(content: seq<string>): int {
    if |content| < 1 then 0
    else
      var data := Split(content[0], ':');
      if |data| < 2 || data[1] == "" then 0
      else
        match ParseInt(data[1][..|data[1]| - 1])
        case None => 0
        case Some(bytes) => bytes
  }

  function TrafficUpload(task: Task, content: seq<string>): int {
    match task.mode
    case Bridge(bytes) => bytes
    case Host => ParseTrafficForHost(content)
    case Unmatched => 0
  }

  function LineBytes(line: string, task: Task): int {
    if !Contains(line, RULE_MARK) || !Contains(line, CUSTOM_CHAIN) then 0
    else
      var content := Split(Strip(line), ' ');
      if |content| <= 3 || content[|content| - 3] != NatText(task.classId) then 0
      else TrafficUpload(task, content)
  }

  function LinesBytes(lines: seq<string>, task: Task): int {
    if |lines| == 0 then 0 else LinesBytes(lines[..|lines| - 1], task) + LineBytes(lines[|lines| - 1], task)
  }

  /** The bytes found for one task in the counted form of the saved table. */
  method MatchData(task: Task, output: string, protocol: Protocol) returns (uploadBytes: int)
    ensures uploadBytes == if protocol.IPv6? && task.mode.Bridge? then 0 else LinesBytes(Split(output, '\n'), task)
  {
    uploadBytes := 0;
    if protocol == IPv6 && task.mode.Bridge? {
      return;
    }
    if |output| <= 0 {
      return;
    }
    var lines := Split(output, '\n');
    for i := 0 to |lines|
      invariant uploadBytes == LinesBytes(lines[..i], task)
    {
      assert lines[..i + 1][..i] == lines[..i];
      var line := lines[i];
      if Contains(line, RULE_MARK) && Contains(line, CUSTOM_CHAIN) {
        var content := Split(Strip(line), ' ');
        if |content| > 3 && content[|content| - 3] == NatText(task.classId) {
          uploadBytes := uploadBytes + TrafficUpload(task, content);
        }
      }
    }
    assert lines[..|lines|] == lines;
  }

  // ---------- the counted form of a saved table ----------

  datatype Counter = Counter(packets: nat, bytes: nat)

  type Counters = map<string, seq<Counter>>

  function CounterText(x: Counter): string {
    "[" + NatText(x.packets) + ":" + NatText(x.bytes) + "]"
  }

  function CountedLine(x: Counter, chain: string, spec: Spec): string {
    CounterText(x) + " " + RuleLine(chain, spec)
  }

  /** One counter a rule, none beyond the 64-bit range. */
  ghost predicate IsCounted(t: Table, k: Counters) {
    && t.Keys <= k.Keys
    && forall c <- t :: |k[c]| == |t[c]| && forall x <- k[c] :: x.bytes <= INT64_MAX
  }

  function CountedChain(chain: string, specs: seq<Spec>, counters: seq<Counter>): seq<string>
    requires |counters| == |specs|
  {
    if |specs| == 0 then []
    else
      CountedChain(chain, specs[..|specs| - 1], counters[..|specs| - 1])
      + [CountedLine(counters[|specs| - 1], chain, specs[|specs| - 1])]
  }

  function CountedChains(t: Table, k: Counters, order: seq<string>): seq<string>
    requires forall c <- order :: c in t && c in k && |k[c]| == |t[c]|
  {
    if |order| == 0 then [] else
      assert order[0] in order;
      CountedChain(order[0], t[order[0]], k[order[0]]) + CountedChains(t, k, order[1..])
  }

  function CountedLines(d: Dump, t: Table, k: Counters): seq<string>
    requires forall c <- d.order :: c in t && c in k && |k[c]| == |t[c]| && c in d.policy
  {
    d.head + Declarations(d.order, d.policy) + CountedChains(t, k, d.order) + d.tail
  }

  function CountedText(d: Dump, t: Table, k: Counters): string
    requires forall c <- d.order :: c in t && c in k && |k[c]| == |t[c]| && c in d.policy
  {
    Join(CountedLines(d, t, k), '\n')
  }

  ghost predicate IsCountedDump(d: Dump, t: Table, k: Counters) {
    && IsDumpOf(d, t) && IsCounted(t, k)
    && (CUSTOM_CHAIN in t ==> !Contains(DeclLine(CUSTOM_CHAIN, d.policy[CUSTOM_CHAIN]), RULE_MARK))
  }

  // ---------- one line ----------

  lemma PrefixHasNoMark(prefix: string, s: string, mark: string)
    requires mark != "" && mark[0] !in prefix
    ensures Contains(prefix + s, mark) ==> Contains(s, mark)
  {
    if Contains(prefix + s, mark) {
      var i :| 0 <= i <= |prefix + s| && OccursAt(prefix + s, mark, i);
      assert (prefix + s)[i..i + |mark|][0] == (prefix + s)[i];
      assert i >= |prefix|;
      assert s[i - |prefix|..i - |prefix| + |mark|] == (prefix + s)[i..i + |mark|];
      assert OccursAt(s, mark, i - |prefix|);
    }
  }

  lemma CounterHas(x: Counter, c: char)
    requires !IsDigit(c) && c != '[' && c != ':' && c != ']'
    ensures c !in CounterText(x)
  {
  }

  /** A rule that is not the collector's adds nothing to any task. */
  lemma ForeignRuleBytes(x: Counter, chain: string, spec: Spec, task: Task)
    requires IsForeign(RuleLine(chain, spec)) || RuleLine(chain, spec) == REFERENCE_MARK
    ensures LineBytes(CountedLine(x, chain, spec), task) == 0
  {
    CounterHas(x, '-');
    CounterHas(x, ' ');
    assert '-' !in CounterText(x) + " ";
    if RuleLine(chain, spec) == REFERENCE_MARK {
      ReferenceHasNoRuleMark();
    }
    PrefixHasNoMark(CounterText(x) + " ", RuleLine(chain, spec), RULE_MARK);
  }

  lemma ReferenceHasNoRuleMark()
    ensures !Contains(REFERENCE_MARK, RULE_MARK)
  {
    assert 'm' in RULE_MARK by {
      assert RULE_MARK[1] == 'm';
    }
    AbsentChar(REFERENCE_MARK, RULE_MARK, 'm');
  }

  /** A line begins with its counter, packets before bytes; what is read of it are the bytes. */
  lemma CounterReads(x: Counter, rest: seq<string>)
    requires x.bytes <= INT64_MAX
    ensures CounterText(x) == "[" + NatText(x.packets) + ":" + NatText(x.bytes) + "]"
    ensures ParseTrafficForHost([CounterText(x)] + rest) == x.bytes
  {
    var parts := ["[" + NatText(x.packets), NatText(x.bytes) + "]"];
    assert AreWords(parts, ':');
    SplitJoin(parts, ':');
    assert Join(parts, ':') == parts[0] + ":" + parts[1] by {
      assert parts[1..] == [parts[1]];
    }
    assert CounterText(x) == parts[0] + ":" + parts[1];
    assert parts[1][..|parts[1]| - 1] == NatText(x.bytes);
    ParseIntText(x.bytes);
  }

  lemma CountedWords(x: Counter, id: string)
    requires AllDigits(id)
    ensures CountedLine(x, CUSTOM_CHAIN, CgroupSpec(id)) ==
      Join([CounterText(x)] + (["-A", CUSTOM_CHAIN] + CgroupSpec(id)), ' ')
    ensures AreWords([CounterText(x)] + (["-A", CUSTOM_CHAIN] + CgroupSpec(id)), ' ')
  {
    OwnWordChars(id);
    CounterHas(x, ' ');
    JoinConcat([CounterText(x)], ["-A", CUSTOM_CHAIN] + CgroupSpec(id), ' ');
    var words := ["-A", CUSTOM_CHAIN] + CgroupSpec(id);
    forall w <- [CounterText(x)] + words ensures IsWord(w, ' ') {
      assert w == CounterText(x) || w in words;
    }
  }

  lemma StripIsId(s: string)
    requires s != "" && !IsSpace(s[0]) && !IsSpace(s[|s| - 1])
    ensures Strip(s) == s
  {
  }

  lemma {:induction false} JoinEnds(words: seq<string>, sep: char)
    requires |words| > 0 && forall i :: 0 <= i < |words| ==> words[i] != ""
    ensures Join(words, sep) != ""
    ensures Join(words, sep)[0] == words[0][0]
    ensures var last := words[|words| - 1]; Join(words, sep)[|Join(words, sep)| - 1] == last[|last| - 1]
  {
    if |words| > 1 {
      JoinEnds(words[1..], sep);
    }
  }

  lemma ThirdLast(a: string, id: string)
    ensures var words := [a] + (["-A", CUSTOM_CHAIN] + CgroupSpec(id));
      |words| == 14 && words[|words| - 3] == id && words[|words| - 1] == "RETURN"
  {
    var spec := CgroupSpec(id);
    assert |spec| == 11 && spec[8] == id && spec[10] == "RETURN";
  }

  lemma StripWords(words: seq<string>)
    requires |words| > 0 && AreWords(words, ' ') && words[0] != "" && words[|words| - 1] != ""
    requires var last := words[|words| - 1]; !IsSpace(words[0][0]) && !IsSpace(last[|last| - 1])
    ensures Split(Strip(Join(words, ' ')), ' ') == words
  {
    assert forall i :: 0 <= i < |words| ==> words[i] in words;
    JoinEnds(words, ' ');
    StripIsId(Join(words, ' '));
    SplitJoin(words, ' ');
  }

  lemma OwnRuleContent(x: Counter, id: string)
    requires AllDigits(id)
    ensures var line := CountedLine(x, CUSTOM_CHAIN, CgroupSpec(id));
      Split(Strip(line), ' ') == [CounterText(x)] + (["-A", CUSTOM_CHAIN] + CgroupSpec(id))
  {
    CountedWords(x, id);
    ThirdLast(CounterText(x), id);
    assert "RETURN"[5] == 'N' && CounterText(x)[0] == '[';
    StripWords([CounterText(x)] + (["-A", CUSTOM_CHAIN] + CgroupSpec(id)));
  }

  lemma OwnRuleMarks(x: Counter, id: string)
    requires AllDigits(id)
    ensures var line := CountedLine(x, CUSTOM_CHAIN, CgroupSpec(id));
      Contains(line, RULE_MARK) && Contains(line, CUSTOM_CHAIN)
  {
    var line := CountedLine(x, CUSTOM_CHAIN, CgroupSpec(id));
    AddRuleHasMark(id);
    AddRuleWords(id);
    ContainsAfter(CounterText(x) + " ", AddRule(id), RULE_MARK);
    NameInside(CounterText(x) + " ", CUSTOM_CHAIN, RuleText(CUSTOM_CHAIN, CgroupSpec(id)), id);
  }

  lemma ContainsAfter(prefix: string, s: string, mark: string)
    requires Contains(s, mark)
    ensures Contains(prefix + s, mark)
  {
    var i :| 0 <= i <= |s| && OccursAt(s, mark, i);
    assert (prefix + s)[i + |prefix|..i + |prefix| + |mark|] == s[i..i + |mark|];
    assert OccursAt(prefix + s, mark, i + |prefix|);
  }

  lemma NameInside(prefix: string, name: string, text: string, id: string)
    requires name == CUSTOM_CHAIN && text == RuleText(CUSTOM_CHAIN, CgroupSpec(id))
    ensures Contains(prefix + ("-A " + text), name)
  {
    JoinConcat([name], CgroupSpec(id), ' ');
    var rest := " " + Join(CgroupSpec(id), ' ');
    assert text == name + rest;
    ContainsMiddle("-A ", name, rest);
    assert "-A " + name + rest == "-A " + text;
    ContainsAfter(prefix, "-A " + text, name);
  }

  /** What a rule's counter adds to a task: its bytes, if the ids agree. */
  function Share(x: Counter, spec: Spec, task: Task): nat {
    if spec != CgroupSpec(NatText(task.classId)) then 0
    else
      match task.mode
      case Host => x.bytes
      case Bridge(bytes) => bytes
      case Unmatched => 0
  }

  lemma OwnRuleBytes(x: Counter, id: string, task: Task)
    requires AllDigits(id) && x.bytes <= INT64_MAX
    ensures LineBytes(CountedLine(x, CUSTOM_CHAIN, CgroupSpec(id)), task) == Share(x, CgroupSpec(id), task)
  {
    OwnRuleContent(x, id);
    OwnRuleMarks(x, id);
    ThirdLast(CounterText(x), id);
    CounterReads(x, ["-A", CUSTOM_CHAIN] + CgroupSpec(id));
    assert CgroupSpec(id)[8] == id && CgroupSpec(NatText(task.classId))[8] == NatText(task.classId);
  }

  // ---------- the whole output ----------

  function Shares(specs: seq<Spec>, counters: seq<Counter>, task: Task): nat
    requires |counters| == |specs|
  {
    if |specs| == 0 then 0
    else
      Shares(specs[..|specs| - 1], counters[..|specs| - 1], task)
      + Share(counters[|specs| - 1], specs[|specs| - 1], task)
  }

  lemma RuleBytes(x: Counter, chain: string, spec: Spec, task: Task)
    requires x.bytes <= INT64_MAX
    requires IsOwn(chain, spec) || IsForeign(RuleLine(chain, spec))
    ensures LineBytes(CountedLine(x, chain, spec), task) == if chain == CUSTOM_CHAIN then Share(x, spec, task) else 0
  {
    if chain == CUSTOM_CHAIN && IsCgroupRule(spec) {
      OwnRuleBytes(x, spec[8], task);
    } else {
      ReferenceMarks();
      ChainsDiffer();
      ForeignRuleBytes(x, chain, spec, task);
      if chain == CUSTOM_CHAIN {
        assert CgroupSpec(NatText(task.classId))[8] == NatText(task.classId);
      }
    }
  }

  lemma LinesMore(lines: seq<string>, line: string, task: Task)
    ensures LinesBytes(lines + [line], task) == LinesBytes(lines, task) + LineBytes(line, task)
  {
    assert (lines + [line])[..|lines|] == lines;
  }

  /** The rules of one chain of a well-formed table, with counters that fit. */
  ghost predicate IsCountedChain(chain: string, specs: seq<Spec>, counters: seq<Counter>) {
    && |counters| == |specs|
    && (forall x <- counters :: x.bytes <= INT64_MAX)
    && (forall spec <- specs :: IsOwn(chain, spec) || IsForeign(RuleLine(chain, spec)))
  }

  lemma RuleBytesAt(chain: string, specs: seq<Spec>, counters: seq<Counter>, n: nat, task: Task)
    requires IsCountedChain(chain, specs, counters) && n < |specs|
    ensures IsCountedChain(chain, specs[..n], counters[..n])
    ensures LineBytes(CountedLine(counters[n], chain, specs[n]), task) ==
            if chain == CUSTOM_CHAIN then Share(counters[n], specs[n], task) else 0
  {
    assert specs[n] in specs && counters[n] in counters;
    RuleBytes(counters[n], chain, specs[n], task);
  }

  lemma {:induction false} ChainBytes(chain: string, specs: seq<Spec>, counters: seq<Counter>, task: Task)
    requires IsCountedChain(chain, specs, counters)
    ensures LinesBytes(CountedChain(chain, specs, counters), task) ==
            if chain == CUSTOM_CHAIN then Shares(specs, counters, task) else 0
  {
    if |specs| > 0 {
      var n := |specs| - 1;
      RuleBytesAt(chain, specs, counters, n, task);
      ChainBytes(chain, specs[..n], counters[..n], task);
      LinesMore(CountedChain(chain, specs[..n], counters[..n]), CountedLine(counters[n], chain, specs[n]), task);
    }
  }

  lemma {:induction false} BytesConcat(a: seq<string>, b: seq<string>, task: Task)
    ensures LinesBytes(a + b, task) == LinesBytes(a, task) + LinesBytes(b, task)
  {
    if |b| == 0 {
      assert a + b == a;
    } else {
      assert (a + b)[..|a + b| - 1] == a + b[..|b| - 1];
      BytesConcat(a, b[..|b| - 1], task);
    }
  }

  lemma {:induction false} UnmarkedBytes(lines: seq<string>, task: Task)
    requires forall line <- lines :: !Contains(line, RULE_MARK)
    ensures LinesBytes(lines, task) == 0
  {
    if |lines| > 0 {
      UnmarkedBytes(lines[..|lines| - 1], task);
      assert lines[|lines| - 1] in lines;
    }
  }

  lemma {:induction false} ChainsBytes(t: Table, k: Counters, order: seq<string>, task: Task)
    requires IsWellFormed(t) && IsCounted(t, k)
    requires forall c <- order :: c in t
    requires forall i, j :: 0 <= i < j < |order| ==> order[i] != order[j]
    ensures LinesBytes(CountedChains(t, k, order), task) ==
            if CUSTOM_CHAIN in order then Shares(t[CUSTOM_CHAIN], k[CUSTOM_CHAIN], task) else 0
  {
    if |order| > 0 {
      var c := order[0];
      assert c in order;
      assert order == [c] + order[1..];
      ChainBytes(c, t[c], k[c], task);
      ChainsBytes(t, k, order[1..], task);
      BytesConcat(CountedChain(c, t[c], k[c]), CountedChains(t, k, order[1..]), task);
    }
  }

  lemma {:induction false} CountedChainOneLine(chain: string, specs: seq<Spec>, counters: seq<Counter>)
    requires |counters| == |specs| && IsText([chain]) && forall spec <- specs :: IsText(spec)
    ensures AreWords(CountedChain(chain, specs, counters), '\n')
  {
    if |specs| > 0 {
      var n := |specs| - 1;
      assert specs[n] in specs;
      CountedChainOneLine(chain, specs[..n], counters[..n]);
      CounterHas(counters[n], '\n');
      RuleLineOneLine(chain, specs[n]);
    }
  }

  lemma {:induction false} CountedChainsOneLine(t: Table, k: Counters, order: seq<string>)
    requires IsWellFormed(t) && IsCounted(t, k) && forall c <- order :: c in t
    ensures AreWords(CountedChains(t, k, order), '\n')
  {
    if |order| > 0 {
      assert order[0] in order;
      CountedChainOneLine(order[0], t[order[0]], k[order[0]]);
      CountedChainsOneLine(t, k, order[1..]);
    }
  }

  lemma DeclarationLines(d: Dump, t: Table, k: Counters)
    requires IsCountedDump(d, t, k)
    ensures forall line <- Declarations(d.order, d.policy) :: IsWord(line, '\n') && !Contains(line, RULE_MARK)
  {
    forall line <- Declarations(d.order, d.policy) ensures IsWord(line, '\n') && !Contains(line, RULE_MARK) {
      var i :| 0 <= i < |d.order| && line == DeclLine(d.order[i], d.policy[d.order[i]]);
      assert d.order[i] in d.order && d.order[i] in t;
    }
  }

  lemma CountedOneLine(d: Dump, t: Table, k: Counters)
    requires IsWellFormed(t) && IsCountedDump(d, t, k)
    ensures Split(CountedText(d, t, k), '\n') == CountedLines(d, t, k)
  {
    var lines := CountedLines(d, t, k);
    CountedChainsOneLine(t, k, d.order);
    DeclarationLines(d, t, k);
    forall line <- lines ensures IsWord(line, '\n') {
      assert line in d.head + d.tail || line in Declarations(d.order, d.policy) || line in CountedChains(t, k, d.order);
    }
    SplitJoin(lines, '\n');
  }

  lemma UnmarkedAround(a: seq<string>, b: seq<string>, rules: seq<string>, c: seq<string>, task: Task)
    requires forall line <- a :: !Contains(line, RULE_MARK)
    requires forall line <- b :: !Contains(line, RULE_MARK)
    requires forall line <- c :: !Contains(line, RULE_MARK)
    ensures LinesBytes(a + b + rules + c, task) == LinesBytes(rules, task)
  {
    UnmarkedBytes(a, task);
    UnmarkedBytes(b, task);
    UnmarkedBytes(c, task);
    BytesConcat(a + b + rules, c, task);
    BytesConcat(a + b, rules, task);
    BytesConcat(a, b, task);
  }

  /** Reading the counted text of any well-formed table gives a task the counters of the rules with its id,
      and no others. */
  lemma TaskBytes(d: Dump, t: Table, k: Counters, task: Task)
    requires IsWellFormed(t) && IsCountedDump(d, t, k) && CUSTOM_CHAIN in t
    ensures LinesBytes(Split(CountedText(d, t, k), '\n'), task) == Shares(t[CUSTOM_CHAIN], k[CUSTOM_CHAIN], task)
  {
    CountedOneLine(d, t, k);
    DeclarationLines(d, t, k);
    forall line <- d.head ensures !Contains(line, RULE_MARK) {
      assert line in d.head + d.tail;
    }
    forall line <- d.tail ensures !Contains(line, RULE_MARK) {
      assert line in d.head + d.tail;
    }
    UnmarkedAround(d.head, Declarations(d.order, d.policy), CountedChains(t, k, d.order), d.tail, task);
    ChainsBytes(t, k, d.order, task);
  }

  // ---------- all tasks ----------

  function Attributed(specs: seq<Spec>, counters: seq<Counter>, tasks: seq<Task>): nat
    requires |counters| == |specs|
  {
    if |tasks| == 0 then 0
    else Attributed(specs, counters, tasks[..|tasks| - 1]) + Shares(specs, counters, tasks[|tasks| - 1])
  }

  /** The bytes the collector's rules counted. */
  function Counted(specs: seq<Spec>, counters: seq<Counter>): nat
    requires |counters| == |specs|
  {
    if |specs| == 0 then 0
    else
      var n := |specs| - 1;
      Counted(specs[..n], counters[..n]) + if IsCgroupRule(specs[n]) then counters[n].bytes else 0
  }

  /** How many tasks claim a rule's counter. */
  function Claims(tasks: seq<Task>, spec: Spec): nat {
    if |tasks| == 0 then 0
    else Claims(tasks[..|tasks| - 1], spec) + if spec == CgroupSpec(NatText(tasks[|tasks| - 1].classId)) then 1 else 0
  }

  function Weighted(specs: seq<Spec>, counters: seq<Counter>, tasks: seq<Task>): nat
    requires |counters| == |specs|
  {
    if |specs| == 0 then 0
    else
      var n := |specs| - 1;
      Weighted(specs[..n], counters[..n], tasks) + counters[n].bytes * Claims(tasks, specs[n])
  }

  predicate AllHost(tasks: seq<Task>) {
    forall task <- tasks :: task.mode.Host?
  }

  lemma {:induction false} WeightedStep(specs: seq<Spec>, counters: seq<Counter>, tasks: seq<Task>)
    requires |counters| == |specs| && |tasks| > 0 && tasks[|tasks| - 1].mode.Host?
    ensures Weighted(specs, counters, tasks) ==
            Weighted(specs, counters, tasks[..|tasks| - 1]) + Shares(specs, counters, tasks[|tasks| - 1])
  {
    if |specs| > 0 {
      var n := |specs| - 1;
      WeightedStep(specs[..n], counters[..n], tasks);
      var before, task := tasks[..|tasks| - 1], tasks[|tasks| - 1];
      var b, c := counters[n].bytes, Claims(before, specs[n]);
      assert Claims(tasks, specs[n]) == c || Claims(tasks, specs[n]) == c + 1;
      assert b * (c + 1) == b * c + b;
    }
  }

  /** Every counter is attributed as many times as there are tasks with its id. */
  lemma {:induction false} AttributedByClaims(specs: seq<Spec>, counters: seq<Counter>, tasks: seq<Task>)
    requires |counters| == |specs| && AllHost(tasks)
    ensures Attributed(specs, counters, tasks) == Weighted(specs, counters, tasks)
  {
    if |tasks| == 0 {
      NobodyClaims(specs, counters);
    } else {
      assert tasks[|tasks| - 1] in tasks;
      AttributedByClaims(specs, counters, tasks[..|tasks| - 1]);
      WeightedStep(specs, counters, tasks);
    }
  }

  lemma {:induction false} NobodyClaims(specs: seq<Spec>, counters: seq<Counter>)
    requires |counters| == |specs|
    ensures Weighted(specs, counters, []) == 0
  {
    if |specs| > 0 {
      NobodyClaims(specs[..|specs| - 1], counters[..|specs| - 1]);
    }
  }

  /** Whatever was counted, the bytes of all tasks add up to it. */
  ghost predicate Conserves(specs: seq<Spec>, tasks: seq<Task>) {
    forall counters: seq<Counter> | |counters| == |specs| ::
      Attributed(specs, counters, tasks) == Counted(specs, counters)
  }

  predicate ClaimedOnce(specs: seq<Spec>, tasks: seq<Task>) {
    forall spec <- specs | IsCgroupRule(spec) :: Claims(tasks, spec) == 1
  }

  lemma {:induction false} OnlyOwnAreClaimed(tasks: seq<Task>, spec: Spec)
    ensures !IsCgroupRule(spec) ==> Claims(tasks, spec) == 0
  {
    if |tasks| > 0 {
      OnlyOwnAreClaimed(tasks[..|tasks| - 1], spec);
      assert CgroupSpec(NatText(tasks[|tasks| - 1].classId))[8] == NatText(tasks[|tasks| - 1].classId);
    }
  }

  lemma {:induction false} WeightedOnce(specs: seq<Spec>, counters: seq<Counter>, tasks: seq<Task>)
    requires |counters| == |specs| && ClaimedOnce(specs, tasks)
    ensures Weighted(specs, counters, tasks) == Counted(specs, counters)
  {
    if |specs| > 0 {
      var n := |specs| - 1;
      assert specs[n] in specs;
      WeightedOnce(specs[..n], counters[..n], tasks);
      OnlyOwnAreClaimed(tasks, specs[n]);
    }
  }

  /** Counters in which only rule i has counted one byte. */
  function OneByte(n: nat, i: nat): seq<Counter> {
    seq(n, j => Counter(0, if j == i then 1 else 0))
  }

  lemma {:induction false} OneByteSums(specs: seq<Spec>, tasks: seq<Task>, i: nat)
    ensures Weighted(specs, OneByte(|specs|, i), tasks) == if i < |specs| then Claims(tasks, specs[i]) else 0
    ensures Counted(specs, OneByte(|specs|, i)) == if i < |specs| && IsCgroupRule(specs[i]) then 1 else 0
  {
    if |specs| > 0 {
      var n := |specs| - 1;
      OneByteSums(specs[..n], tasks, i);
      assert OneByte(|specs|, i)[..n] == OneByte(n, i);
    }
  }

  /** Attribution loses and invents nothing exactly when each of the collector's rules has one task. */
  lemma ConservesExactly(specs: seq<Spec>, tasks: seq<Task>)
    requires AllHost(tasks)
    ensures Conserves(specs, tasks) <==> ClaimedOnce(specs, tasks)
  {
    if ClaimedOnce(specs, tasks) {
      forall counters: seq<Counter> | |counters| == |specs|
        ensures Attributed(specs, counters, tasks) == Counted(specs, counters)
      {
        AttributedByClaims(specs, counters, tasks);
        WeightedOnce(specs, counters, tasks);
      }
    }
    if Conserves(specs, tasks) {
      forall spec <- specs | IsCgroupRule(spec) ensures Claims(tasks, spec) == 1 {
        var i :| 0 <= i < |specs| && specs[i] == spec;
        var counters := OneByte(|specs|, i);
        assert Attributed(specs, counters, tasks) == Counted(specs, counters);
        AttributedByClaims(specs, counters, tasks);
        OneByteSums(specs, tasks, i);
      }
    }
  }

  /** Exactly one task for each wanted id. */
  ghost predicate OneTaskEach(tasks: seq<Task>, wanted: set<string>) {
    && AllHost(tasks)
    && (forall id :: id in wanted <==> exists i | 0 <= i < |tasks| :: NatText(tasks[i].classId) == id)
    && forall i, j :: 0 <= i < j < |tasks| ==> tasks[i].classId != tasks[j].classId
  }

  lemma {:induction false} ClaimsOfDistinct(tasks: seq<Task>, id: string)
    requires forall i, j :: 0 <= i < j < |tasks| ==> tasks[i].classId != tasks[j].classId
    ensures Claims(tasks, CgroupSpec(id)) ==
            if exists i :: 0 <= i < |tasks| && NatText(tasks[i].classId) == id then 1 else 0
  {
    if |tasks| > 0 {
      var before, last := tasks[..|tasks| - 1], tasks[|tasks| - 1];
      ClaimsOfDistinct(before, id);
      assert CgroupSpec(id)[8] == id && CgroupSpec(NatText(last.classId))[8] == NatText(last.classId);
      if NatText(last.classId) == id {
        forall i | 0 <= i < |before| ensures NatText(before[i].classId) != id {
          if NatText(before[i].classId) == id {
            NatTextInjective(before[i].classId, last.classId);
          }
        }
      } else {
        assert forall i | 0 <= i < |before| :: before[i] == tasks[i];
      }
    }
  }

  /** On a converged chain with one host task for each id, the bytes of all tasks read from the counted text
      add up to what the chain's rules counted. */
  lemma ConvergedAttribution(d: Dump, t: Table, k: Counters, wanted: set<string>, tasks: seq<Task>)
    requires IsWellFormed(t) && IsCountedDump(d, t, k) && IsTarget(t, wanted)
    requires OneTaskEach(tasks, wanted)
    ensures ReadBytes(CountedText(d, t, k), tasks) == Counted(t[CUSTOM_CHAIN], k[CUSTOM_CHAIN])
  {
    var specs := t[CUSTOM_CHAIN];
    forall spec <- specs | IsCgroupRule(spec) ensures Claims(tasks, spec) == 1 {
      assert multiset(specs)[CgroupSpec(spec[8])] > 0;
      assert spec[8] in wanted;
      ClaimsOfDistinct(tasks, spec[8]);
    }
    ConservesExactly(specs, tasks);
    ReadIsAttributed(d, t, k, tasks);
  }

  /** The same after any update round that could read the table, whatever table it started from. */
  lemma AttributionAfterUpdate(t: Table, r: Round, u: Table, d: Dump, k: Counters, tasks: seq<Task>)
    requires IsWellFormed(t) && IsRound(t, r, u) && r.readable && !r.Clears()
    requires IsCountedDump(d, u, k) && OneTaskEach(tasks, WantedIds(r.classIds))
    ensures CUSTOM_CHAIN in u
    ensures ReadBytes(CountedText(d, u, k), tasks) == Counted(u[CUSTOM_CHAIN], k[CUSTOM_CHAIN])
  {
    RoundEffect(t, r, u);
    ConvergedAttribution(d, u, k, WantedIds(r.classIds), tasks);
  }

  lemma {:induction false} NoShare(specs: seq<Spec>, counters: seq<Counter>, task: Task)
    requires |counters| == |specs| && CgroupSpec(NatText(task.classId)) !in specs
    ensures Shares(specs, counters, task) == 0
  {
    if |specs| > 0 {
      var n := |specs| - 1;
      assert specs[n] in specs;
      NoShare(specs[..n], counters[..n], task);
    }
  }

  /** A task whose rule stands once in the chain gets that rule's share. */
  lemma {:induction false} OneShare(specs: seq<Spec>, counters: seq<Counter>, task: Task, i: nat)
    requires |counters| == |specs| && i < |specs| && specs[i] == CgroupSpec(NatText(task.classId))
    requires multiset(specs)[specs[i]] == 1
    ensures Shares(specs, counters, task) == Share(counters[i], specs[i], task)
  {
    var n := |specs| - 1;
    assert specs == specs[..n] + [specs[n]];
    if i == n {
      NoShare(specs[..n], counters[..n], task);
    } else {
      assert specs[..n][i] == specs[i];
      OneShare(specs[..n], counters[..n], task, i);
    }
  }

  /** After any update round that could read the table, the bytes read for a name's class id are the counter of the
      one rule that carries it; for a bridged task they are those of its own device instead, and for an unmatched one
      none. */
  lemma TaskGetsItsCounter(t: Table, r: Round, u: Table, d: Dump, k: Counters, name: string, mode: Mode, i: nat)
    requires IsWellFormed(t) && IsRound(t, r, u) && r.readable && !r.clear && name in r.classIds
    requires IsCountedDump(d, u, k) && CUSTOM_CHAIN in u && i < |u[CUSTOM_CHAIN]|
    requires u[CUSTOM_CHAIN][i] == CgroupSpec(NatText(r.classIds[name]))
    ensures LinesBytes(Split(CountedText(d, u, k), '\n'), Task(r.classIds[name], mode)) ==
      match mode
      case Host => k[CUSTOM_CHAIN][i].bytes
      case Bridge(bytes) => bytes
      case Unmatched => 0
  {
    var task := Task(r.classIds[name], mode);
    assert !r.Clears();
    RoundEffect(t, r, u);
    TargetCountsJust(u, r.classIds);
    TaskBytes(d, u, k, task);
    OneShare(u[CUSTOM_CHAIN], k[CUSTOM_CHAIN], task, i);
  }

  function ReadBytes(output: string, tasks: seq<Task>): int {
    if |tasks| == 0 then 0
    else ReadBytes(output, tasks[..|tasks| - 1]) + LinesBytes(Split(output, '\n'), tasks[|tasks| - 1])
  }

  lemma {:induction false} ReadIsAttributed(d: Dump, t: Table, k: Counters, tasks: seq<Task>)
    requires IsWellFormed(t) && IsCountedDump(d, t, k) && CUSTOM_CHAIN in t
    ensures ReadBytes(CountedText(d, t, k), tasks) == Attributed(t[CUSTOM_CHAIN], k[CUSTOM_CHAIN], tasks)
  {
    if |tasks| > 0 {
      ReadIsAttributed(d, t, k, tasks[..|tasks| - 1]);
      TaskBytes(d, t, k, tasks[|tasks| - 1]);
    }
  }
}
