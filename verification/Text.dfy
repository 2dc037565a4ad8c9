/** Text primitives the collector's scripts rest on: splitting a line into its words,
    searching for a literal, and printing and reading decimal numbers. */
module Text {

  datatype Option<+T> = None | Some(value: T)

  // ---------- words ----------

  /** Length of the longest prefix of s without the separator. */
  function RunLength(s: string, sep: char): (n: nat)
    ensures n <= |s|
    ensures sep !in s[..n]
    ensures n < |s| ==> s[n] == sep
  {
    if s == "" || s[0] == sep then 0 else 1 + RunLength(s[1..], sep)
  }

  /** The maximal runs of characters other than the separator, in order. */
  function Split(s: string, sep: char): seq<string>
    decreases |s|
  {
    if s == "" then []
    else if s[0] == sep then Split(s[1..], sep)
    else
      var n := RunLength(s, sep);
      [s[..n]] + Split(s[n..], sep)
  }

  function Join(words: seq<string>, sep: char): string {
    if |words| == 0 then ""
    else if |words| == 1 then words[0]
    else words[0] + [sep] + Join(words[1..], sep)
  }

  predicate IsWord(w: string, sep: char) {
    w != "" && sep !in w
  }

  predicate AreWords(words: seq<string>, sep: char) {
    forall w <- words :: IsWord(w, sep)
  }

  lemma RunLengthOfWord(w: string, rest: string, sep: char)
    requires sep !in w
    requires rest == "" || rest[0] == sep
    ensures RunLength(w + rest, sep) == |w|
  {
    if w == "" {
      assert w + rest == rest;
    } else {
      assert (w + rest)[1..] == w[1..] + rest;
      RunLengthOfWord(w[1..], rest, sep);
    }
  }

  /** Splitting a joined line gives back exactly the words that were joined. */
  lemma {:induction false} SplitJoin(words: seq<string>, sep: char)
    requires AreWords(words, sep)
    ensures Split(Join(words, sep), sep) == words
  {
    if |words| > 0 {
      var w, tail := words[0], words[1..];
      assert w in words;
      var rest := if |words| == 1 then "" else [sep] + Join(tail, sep);
      var s := Join(words, sep);
      assert s == w + rest;
      RunLengthOfWord(w, rest, sep);
      assert s[..|w|] == w && s[|w|..] == rest;
      SplitJoin(tail, sep);
      if |words| > 1 {
        assert rest[1..] == Join(tail, sep);
      }
      assert words == [w] + tail;
    }
  }

  lemma RunLengthWithin(s: string, rest: string, sep: char)
    requires rest != "" && rest[0] == sep
    ensures RunLength(s + rest, sep) == RunLength(s, sep)
  {
    if s == "" {
      assert s + rest == rest;
    } else if s[0] != sep {
      assert (s + rest)[1..] == s[1..] + rest;
      RunLengthWithin(s[1..], rest, sep);
    }
  }

  /** Splitting is what it does to words, to nothing, and on both sides of a separator. */
  lemma {:induction false} SplitAround(s: string, t: string, sep: char)
    ensures Split("", sep) == [] && (IsWord(s, sep) ==> Split(s, sep) == [s])
    ensures Split(s + [sep] + t, sep) == Split(s, sep) + Split(t, sep)
    decreases |s|
  {
    var rest := [sep] + t;
    assert s + [sep] + t == s + rest;
    if IsWord(s, sep) {
      SplitJoin([s], sep);
    }
    if s == "" {
      assert s + rest == rest && rest[1..] == t;
    } else if s[0] == sep {
      assert (s + rest)[1..] == s[1..] + [sep] + t;
      SplitAround(s[1..], t, sep);
    } else {
      var n := RunLength(s, sep);
      RunLengthWithin(s, rest, sep);
      assert (s + rest)[..n] == s[..n] && (s + rest)[n..] == s[n..] + [sep] + t;
      SplitAround(s[n..], t, sep);
    }
  }

  lemma JoinInjective(a: seq<string>, b: seq<string>, sep: char)
    requires AreWords(a, sep) && AreWords(b, sep)
    requires Join(a, sep) == Join(b, sep)
    ensures a == b
  {
    SplitJoin(a, sep);
    SplitJoin(b, sep);
  }

  lemma {:induction false} JoinChars(words: seq<string>, sep: char, c: char)
    requires c != sep
    requires forall w <- words :: c !in w
    ensures c !in Join(words, sep)
  {
    if |words| > 1 {
      JoinChars(words[1..], sep, c);
    }
  }

  // ---------- literal search ----------

  predicate OccursAt(s: string, part: string, i: int) {
    0 <= i <= |s| - |part| && s[i..i + |part|] == part
  }

  /** Plain substring search: what string.find does with a pattern free of magic characters. */
  predicate Contains(s: string, part: string) {
    exists i | 0 <= i <= |s| :: OccursAt(s, part, i)
  }

  /** Two characters that are never neighbours inside a word, one of them not the separator,
      are never neighbours in the joined line. */
  lemma {:induction false} JoinPairFree(words: seq<string>, sep: char, a: char, b: char)
    requires a != sep && b != sep
    requires forall w <- words :: a !in w || b !in w
    ensures forall i :: 0 <= i < |Join(words, sep)| - 1 ==> !(Join(words, sep)[i] == a && Join(words, sep)[i + 1] == b)
  {
    if |words| == 1 {
      assert words[0] in words;
    } else if |words| > 1 {
      var w, rest := words[0], Join(words[1..], sep);
      JoinPairFree(words[1..], sep, a, b);
      assert w in words;
      var s := Join(words, sep);
      assert s[..|w|] == w && s[|w|] == sep && s[|w| + 1..] == rest;
      forall i | 0 <= i < |s| - 1
        ensures !(s[i] == a && s[i + 1] == b)
      {
        if i + 1 < |w| {
          assert s[i] == w[i] && s[i + 1] == w[i + 1];
        } else if i > |w| {
          assert s[i] == rest[i - |w| - 1] && s[i + 1] == rest[i - |w|];
        }
      }
    }
  }

  lemma ContainsMiddle(before: string, part: string, after: string)
    ensures Contains(before + part + after, part)
  {
    assert OccursAt(before + part + after, part, |before|);
  }

  /** A missing character rules a literal out. */
  lemma AbsentChar(s: string, part: string, c: char)
    requires c in part && c !in s
    ensures !Contains(s, part)
  {
    forall i ensures !OccursAt(s, part, i) {
      if 0 <= i <= |s| - |part| {
        assert c !in s[i..i + |part|];
      }
    }
  }

  // ---------- decimal numbers ----------

  predicate IsDigit(c: char) {
    '0' <= c <= '9'
  }

  predicate AllDigits(s: string) {
    s != "" && forall c <- s :: IsDigit(c)
  }

  function Digit(n: nat): (c: char)
    requires n < 10
    ensures IsDigit(c) && DigitValue(c) == n
  {
    '0' + n as char
  }

  function DigitValue(c: char): (v: nat)
    requires IsDigit(c)
    ensures v < 10
  {
    (c - '0') as nat
  }

  /** Decimal text of a natural number, without leading zeros. */
  function NatText(n: nat): (s: string)
    ensures AllDigits(s)
  {
    if n < 10 then [Digit(n)] else NatText(n / 10) + [Digit(n % 10)]
  }

  function NatValue(s: string): nat
    requires forall c <- s :: IsDigit(c)
  {
    if s == "" then 0 else 10 * NatValue(s[..|s| - 1]) + DigitValue(s[|s| - 1])
  }

  lemma {:induction false} NatTextValue(n: nat)
    ensures NatValue(NatText(n)) == n
  {
    var s := NatText(n);
    if n >= 10 {
      NatTextValue(n / 10);
      assert s[..|s| - 1] == NatText(n / 10);
    } else {
      assert s[..|s| - 1] == "";
    }
  }

  /** The text of a number is written with the usual digits, the most significant first and without leading zeros. */
  lemma DecimalText(n: nat, d: nat)
    requires d < 10
    ensures NatText(d) == ["0123456789"[d]]
    ensures n > 0 ==> NatText(10 * n + d) == NatText(n) + ["0123456789"[d]]
    ensures n > 0 ==> NatText(n)[0] != '0'
    decreases n
  {
    assert Digit(d) == "0123456789"[d];
    if n >= 10 {
      DecimalText(n / 10, n % 10);
    }
  }

  /** What is read as a number: decimal digits, with a sign or without, that stay within 64 bits. */
  lemma ParseIntForms(s: string, n: int)
    requires AllDigits(s) && n == NatValue(s)
    ensures ParseInt(s) == ParseInt("+" + s) == if n <= 0x7FFF_FFFF_FFFF_FFFF then Some(n) else None
    ensures ParseInt("-" + s) == if n <= 0x8000_0000_0000_0000 then Some(-n) else None
  {
    var plus, minus := "+" + s, "-" + s;
    assert plus[0] == '+' && plus[1..] == s;
    assert minus[0] == '-' && minus[1..] == s;
    assert IsDigit(s[0]);
  }

  /** Distinct numbers have distinct texts. */
  lemma NatTextInjective(m: nat, n: nat)
    requires NatText(m) == NatText(n)
    ensures m == n
  {
    NatTextValue(m);
    NatTextValue(n);
  }

  /** Signed decimal text, as Sprintf prints an int64. */
  function IntText(n: int): string {
    if n < 0 then "-" + NatText(-n) else NatText(n)
  }

  const INT64_MIN: int := -0x8000_0000_0000_0000
  const INT64_MAX: int := 0x7FFF_FFFF_FFFF_FFFF

  /** ParseInt(s, 10, 64): an optional sign and decimal digits, within 64-bit range. */
  function ParseInt(s: string): Option<int> {
    var digits := if s != "" && (s[0] == '-' || s[0] == '+') then s[1..] else s;
    if !AllDigits(digits) then None
    else
      var n: int := NatValue(digits);
      var n := if s[0] == '-' then -n else n;
      if INT64_MIN <= n <= INT64_MAX then Some(n) else None
  }

  lemma ParseIntText(n: int)
    requires INT64_MIN <= n <= INT64_MAX
    ensures ParseInt(IntText(n)) == Some(n)
  {
    if n < 0 {
      NatTextValue(-n);
      assert IntText(n)[1..] == NatText(-n);
    } else {
      NatTextValue(n);
      assert IsDigit(IntText(n)[0]);
    }
  }

  lemma IntTextInjective(m: int, n: int)
    requires INT64_MIN <= m <= INT64_MAX && INT64_MIN <= n <= INT64_MAX
    requires IntText(m) == IntText(n)
    ensures m == n
  {
    ParseIntText(m);
    ParseIntText(n);
  }
}
