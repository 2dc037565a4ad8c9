/** A netfilter table and the semantics of an all-or-nothing, no-flush restore script. */
module FilterTable {
  import opened Text

  /** The words of a rule after the chain name. */
  type Spec = seq<string>

  /** Chains and their rules, in order. */
  type Table = map<string, seq<Spec>>

  datatype Command =
    | Create(chain: string)
    | Append(chain: string, spec: Spec)
    | Delete(chain: string, spec: Spec)
    | Drop(chain: string)
    | Bad

  /** One line of a restore script. */
  function ParseCommand(line: string): Command {
    var words := Split(line, ' ');
    if |words| >= 1 && ":" <= words[0] then Create(words[0][1..])
    else if |words| >= 2 && words[0] == "-A" then Append(words[1], words[2..])
    else if |words| >= 2 && words[0] == "-D" then Delete(words[1], words[2..])
    else if |words| == 2 && words[0] == "-X" then Drop(words[1])
    else Bad
  }

  const STANDARD_TARGETS := {"ACCEPT", "DROP", "QUEUE", "RETURN"}

  /** The rule jumps to the chain. */
  predicate JumpsTo(spec: Spec, chain: string) {
    exists i | 0 <= i < |spec| - 1 :: spec[i] == "-j" && spec[i + 1] == chain
  }

  predicate Referenced(t: Table, chain: string) {
    exists c | c in t :: exists spec | spec in t[c] :: JumpsTo(spec, chain)
  }

  predicate TargetsExist(t: Table, spec: Spec) {
    forall i | 0 <= i < |spec| - 1 && spec[i] == "-j" :: spec[i + 1] in t || spec[i + 1] in STANDARD_TARGETS
  }

  /** A rule with one target jumps to that chain and no other, and asks for no other to exist. */
  lemma OneTarget(t: Table, words: Spec, target: string, chain: string)
    requires "-j" !in words
    ensures JumpsTo(words + ["-j", target], chain) <==> chain == target
    ensures TargetsExist(t, words + ["-j", target]) <==>
            target in t || target in {"ACCEPT", "DROP", "QUEUE", "RETURN"}
    ensures !JumpsTo(words, chain)
  {
    var spec, n := words + ["-j", target], |words|;
    assert spec[n] == "-j" && spec[n + 1] == target;
    assert forall i | 0 <= i < n :: spec[i] == words[i] && words[i] in words;
  }

  function RemoveFirst<T(==)>(s: seq<T>, x: T): Option<seq<T>> {
    if |s| == 0 then None
    else if s[0] == x then Some(s[1..])
    else match RemoveFirst(s[1..], x)
      case None => None
      case Some(rest) => Some([s[0]] + rest)
  }

  /** None when the kernel refuses the command. Declaring an existing user chain flushes it. */
  function Run(t: Table, c: Command): Option<Table> {
    match c
    case Create(chain) => Some(t[chain := []])
    case Append(chain, spec) =>
      if chain in t && TargetsExist(t, spec) then Some(t[chain := t[chain] + [spec]]) else None
    case Delete(chain, spec) =>
      if chain !in t then None
      else (match RemoveFirst(t[chain], spec)
            case None => None
            case Some(rest) => Some(t[chain := rest]))
    case Drop(chain) =>
      if chain in t && t[chain] == [] && !Referenced(t, chain) then Some(t - {chain}) else None
    case Bad => None
  }

  /** The whole script, or None: one refused line aborts everything. */
  function Restore(t: Table, lines: seq<string>): Option<Table>
    decreases |lines|
  {
    if |lines| == 0 then Some(t)
    else match Run(t, ParseCommand(lines[0]))
      case None => None
      case Some(next) => Restore(next, lines[1..])
  }

  lemma {:induction false} RestoreConcat(t: Table, a: seq<string>, b: seq<string>)
    ensures Restore(t, a + b) == match Restore(t, a) case None => None case Some(next) => Restore(next, b)
    decreases |a|
  {
    if |a| == 0 {
      assert a + b == b;
    } else {
      assert (a + b)[0] == a[0] && (a + b)[1..] == a[1..] + b;
      match Run(t, ParseCommand(a[0])) {
        case None =>
        case Some(next) => RestoreConcat(next, a[1..], b);
      }
    }
  }

  /** A script is accepted when its first part is and the second is by the table this leaves. */
  lemma RestoreParts(t: Table, a: seq<string>, b: seq<string>)
    ensures Restore(t, a).Some? ==> Restore(t, a + b) == Restore(Restore(t, a).value, b)
    ensures Restore(t, a) == None ==> Restore(t, a + b) == None
  {
    RestoreConcat(t, a, b);
  }

  lemma RestoreThen(t: Table, a: seq<string>, u: Table, b: seq<string>, v: Table)
    requires Restore(t, a) == Some(u) && Restore(u, b) == Some(v)
    ensures Restore(t, a + b) == Some(v)
  {
    RestoreConcat(t, a, b);
  }

  lemma ParseJoined(words: seq<string>)
    requires AreWords(words, ' ') && |words| >= 2
    requires words[0] in {"-A", "-D", "-X"}
    ensures words[0] == "-A" ==> ParseCommand(Join(words, ' ')) == Append(words[1], words[2..])
    ensures words[0] == "-D" ==> ParseCommand(Join(words, ' ')) == Delete(words[1], words[2..])
    ensures words[0] == "-X" && |words| == 2 ==> ParseCommand(Join(words, ' ')) == Drop(words[1])
  {
    SplitJoin(words, ' ');
  }

  // ---------- removing sequences of rules ----------

  /** The elements of s that do not occur in gone, in order. */
  function Without<T(==)>(s: seq<T>, gone: seq<T>): seq<T> {
    if |s| == 0 then []
    else (if s[0] in gone then [] else [s[0]]) + Without(s[1..], gone)
  }

  lemma CountJoined<T>(a: seq<T>, b: seq<T>, x: T)
    ensures multiset(a + b)[x] == multiset(a)[x] + multiset(b)[x]
  {
  }

  lemma {:induction false} WithoutCounts<T>(s: seq<T>, gone: seq<T>, x: T)
    ensures multiset(Without(s, gone))[x] == if x in gone then 0 else multiset(s)[x]
  {
    if |s| > 0 {
      WithoutCounts(s[1..], gone, x);
      assert s == [s[0]] + s[1..];
      CountJoined([s[0]], s[1..], x);
      CountJoined(if s[0] in gone then [] else [s[0]], Without(s[1..], gone), x);
    }
  }

  lemma {:induction false} WithoutIsId<T>(s: seq<T>, gone: seq<T>)
    requires forall x <- s :: x !in gone
    ensures Without(s, gone) == s
  {
    if |s| > 0 {
      assert s[0] in s;
      WithoutIsId(s[1..], gone);
      assert s == [s[0]] + s[1..];
    }
  }

  lemma {:induction false} WithoutConcat<T>(a: seq<T>, b: seq<T>, gone: seq<T>)
    ensures Without(a + b, gone) == Without(a, gone) + Without(b, gone)
  {
    if |a| == 0 {
      assert a + b == b;
    } else {
      var first, rest := a[0], a[1..];
      WithoutConcat(rest, b, gone);
      assert a == [first] + rest && a + b == [first] + (rest + b);
      WithoutHead(first, rest, gone);
      WithoutHead(first, rest + b, gone);
      Associative(if first in gone then [] else [first], Without(rest, gone), Without(b, gone));
    }
  }

  lemma Associative<T>(a: seq<T>, b: seq<T>, c: seq<T>)
    ensures a + b + c == a + (b + c)
  {
  }

  lemma WithoutHead<T>(first: T, rest: seq<T>, gone: seq<T>)
    ensures Without([first] + rest, gone) == (if first in gone then [] else [first]) + Without(rest, gone)
  {
    assert ([first] + rest)[1..] == rest;
  }

  lemma {:induction false} WithoutTwice<T>(s: seq<T>, a: seq<T>, b: seq<T>)
    ensures Without(Without(s, a), b) == Without(s, a + b)
  {
    if |s| > 0 {
      WithoutTwice(s[1..], a, b);
      var head := if s[0] in a then [] else [s[0]];
      WithoutConcat(head, Without(s[1..], a), b);
      if s[0] !in a {
        assert [s[0]][1..] == [];
      }
    }
  }

  lemma {:induction false} RemoveFirstKeeps<T>(s: seq<T>, x: T, gone: seq<T>)
    requires RemoveFirst(s, x).Some? && x in gone
    ensures Without(RemoveFirst(s, x).value, gone) == Without(s, gone)
  {
    if s[0] != x {
      RemoveFirstKeeps(s[1..], x, gone);
      var rest := RemoveFirst(s[1..], x).value;
      assert ([s[0]] + rest)[1..] == rest;
    }
  }

  lemma {:induction false} RemoveFirstCounts<T>(s: seq<T>, x: T)
    requires x in s
    ensures RemoveFirst(s, x).Some?
    ensures multiset(RemoveFirst(s, x).value) == multiset(s) - multiset{x}
  {
    assert s == [s[0]] + s[1..];
    if s[0] != x {
      RemoveFirstCounts(s[1..], x);
    }
  }

  /** Deleting a first match keeps everything else in place. */
  lemma RemoveFirstFacts<T>(s: seq<T>, x: T)
    requires x in s
    ensures RemoveFirst(s, x).Some?
    ensures multiset(RemoveFirst(s, x).value) == multiset(s) - multiset{x}
    ensures forall gone: seq<T> | x in gone :: Without(RemoveFirst(s, x).value, gone) == Without(s, gone)
  {
    RemoveFirstCounts(s, x);
    forall gone: seq<T> | x in gone ensures Without(RemoveFirst(s, x).value, gone) == Without(s, gone) {
      RemoveFirstKeeps(s, x, gone);
    }
  }

  lemma {:induction false} RemoveFirstExactly<T>(s: seq<T>, x: T)
    ensures RemoveFirst(s, x).Some? <==> x in s
  {
    if |s| > 0 && s[0] != x {
      RemoveFirstExactly(s[1..], x);
      assert s == [s[0]] + s[1..];
    }
  }

  /** The script line deletes the given rule of the chain. */
  ghost predicate DeletesRules(lines: seq<string>, chain: string, specs: seq<Spec>) {
    |lines| == |specs| && forall i | 0 <= i < |lines| :: ParseCommand(lines[i]) == Delete(chain, specs[i])
  }

  ghost predicate AppendsRules(lines: seq<string>, chain: string, specs: seq<Spec>) {
    |lines| == |specs| && forall i | 0 <= i < |lines| :: ParseCommand(lines[i]) == Append(chain, specs[i])
  }

  /** First matches removed one after another. */
  function RemoveEach<T(==)>(s: seq<T>, xs: seq<T>): Option<seq<T>>
    decreases |xs|
  {
    if |xs| == 0 then Some(s)
    else match RemoveFirst(s, xs[0])
      case None => None
      case Some(rest) => RemoveEach(rest, xs[1..])
  }

  /** Removing no more copies than there are always succeeds; the other elements keep their order. */
  lemma {:induction false} RemoveEachFacts<T>(s: seq<T>, xs: seq<T>)
    requires multiset(xs) <= multiset(s)
    ensures RemoveEach(s, xs).Some?
    ensures multiset(RemoveEach(s, xs).value) == multiset(s) - multiset(xs)
    ensures Without(RemoveEach(s, xs).value, xs) == Without(s, xs)
    decreases |xs|
  {
    if |xs| > 0 {
      var x := xs[0];
      assert xs == [x] + xs[1..];
      assert x in multiset(xs);
      RemoveFirstFacts(s, x);
      var rest := RemoveFirst(s, x).value;
      assert multiset(xs[1..]) <= multiset(rest);
      RemoveEachFacts(rest, xs[1..]);
      var last := RemoveEach(rest, xs[1..]).value;
      calc {
        Without(last, xs);
        { WithoutSame(last, xs, xs[1..] + [x]); WithoutTwice(last, xs[1..], [x]); }
        Without(Without(last, xs[1..]), [x]);
        Without(Without(rest, xs[1..]), [x]);
        { WithoutSame(rest, xs, xs[1..] + [x]); WithoutTwice(rest, xs[1..], [x]); }
        Without(rest, xs);
        Without(s, xs);
      }
    }
  }

  lemma {:induction false} RestoreDeletes(t: Table, lines: seq<string>, chain: string, specs: seq<Spec>)
    requires chain in t && DeletesRules(lines, chain, specs)
    ensures Restore(t, lines) == match RemoveEach(t[chain], specs)
      case None => None
      case Some(rest) => Some(t[chain := rest])
    decreases |lines|
  {
    if |lines| == 0 {
      assert t == t[chain := t[chain]];
    } else {
      assert ParseCommand(lines[0]) == Delete(chain, specs[0]);
      match RemoveFirst(t[chain], specs[0]) {
        case None =>
        case Some(rest) =>
          var next := t[chain := rest];
          RestoreDeletes(next, lines[1..], chain, specs[1..]);
          match RemoveEach(rest, specs[1..]) {
            case None =>
            case Some(last) => assert next[chain := last] == t[chain := last];
          }
      }
    }
  }

  lemma DropCounts<T>(s: seq<T>, xs: seq<T>, rest: seq<T>)
    requires |xs| > 0 && xs[0] in s && multiset(rest) == multiset(s) - multiset{xs[0]}
    ensures multiset(xs[1..]) <= multiset(rest) <==> multiset(xs) <= multiset(s)
  {
    assert xs == [xs[0]] + xs[1..];
  }

  /** First matches can be removed one after another exactly when there are enough copies of each. */
  lemma {:induction false} RemoveEachExactly<T>(s: seq<T>, xs: seq<T>)
    ensures RemoveEach(s, xs).Some? <==> multiset(xs) <= multiset(s)
    decreases |xs|
  {
    if |xs| > 0 {
      RemoveFirstExactly(s, xs[0]);
      if xs[0] in s {
        RemoveFirstCounts(s, xs[0]);
        var rest := RemoveFirst(s, xs[0]).value;
        RemoveEachExactly(rest, xs[1..]);
        DropCounts(s, xs, rest);
      } else {
        assert xs[0] in multiset(xs) && xs[0] !in multiset(s);
      }
    }
  }

  /** Deletion lines are accepted exactly when there are none, or the chain is there and holds enough copies of each
      rule they name; one line too many refuses them all. Once accepted they leave the other rules in order. */
  lemma RestoreDeletesExactly(t: Table, lines: seq<string>, chain: string, specs: seq<Spec>)
    requires DeletesRules(lines, chain, specs)
    ensures Restore(t, lines).Some? <==> lines == [] || (chain in t && multiset(specs) <= multiset(t[chain]))
    ensures Restore(t, lines).Some? && chain in t ==>
      var u := Restore(t, lines).value;
      chain in u && u == t[chain := u[chain]] && multiset(u[chain]) == multiset(t[chain]) - multiset(specs)
      && Without(u[chain], specs) == Without(t[chain], specs)
  {
    if chain in t {
      RestoreDeletes(t, lines, chain, specs);
      RemoveEachExactly(t[chain], specs);
      if multiset(specs) <= multiset(t[chain]) {
        RemoveEachFacts(t[chain], specs);
      }
      if lines == [] {
        assert multiset(specs) == multiset{};
      }
    } else if |lines| > 0 {
      assert ParseCommand(lines[0]) == Delete(chain, specs[0]);
    }
  }

  lemma {:induction false} WithoutSame<T>(s: seq<T>, a: seq<T>, b: seq<T>)
    requires forall x :: x in a <==> x in b
    ensures Without(s, a) == Without(s, b)
  {
    if |s| > 0 {
      WithoutSame(s[1..], a, b);
    }
  }

  /** Deleting every copy of some rules leaves exactly the others, in order. */
  lemma RestoreDeletesAll(t: Table, lines: seq<string>, chain: string, specs: seq<Spec>)
    requires chain in t && DeletesRules(lines, chain, specs)
    requires forall x <- specs :: multiset(specs)[x] == multiset(t[chain])[x]
    ensures Restore(t, lines) == Some(t[chain := Without(t[chain], specs)])
  {
    forall x ensures multiset(specs)[x] <= multiset(t[chain])[x] {
      if x in specs {
      }
    }
    RemoveEachFacts(t[chain], specs);
    RestoreDeletes(t, lines, chain, specs);
    var rest := RemoveEach(t[chain], specs).value;
    forall x <- rest ensures x !in specs {
      assert multiset(rest)[x] > 0;
    }
    WithoutIsId(rest, specs);
  }

  lemma {:induction false} RestoreAppends(t: Table, lines: seq<string>, chain: string, specs: seq<Spec>)
    requires chain in t && AppendsRules(lines, chain, specs)
    requires forall x <- specs :: TargetsExist(t, x)
    ensures Restore(t, lines) == Some(t[chain := t[chain] + specs])
    decreases |lines|
  {
    if |lines| == 0 {
      assert t[chain] + specs == t[chain];
      assert t == t[chain := t[chain]];
    } else {
      var x := specs[0];
      assert x in specs && ParseCommand(lines[0]) == Append(chain, x);
      var next := t[chain := t[chain] + [x]];
      forall y <- specs[1..] ensures TargetsExist(next, y) {
        assert TargetsExist(t, y);
      }
      RestoreAppends(next, lines[1..], chain, specs[1..]);
      assert t[chain] + [x] + specs[1..] == t[chain] + specs;
      assert next[chain := t[chain] + specs] == t[chain := t[chain] + specs];
    }
  }
}
