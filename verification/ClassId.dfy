/** Class ids: packing a task's offset, serial number and index, and recognising the id on the reading side. */
module ClassId {
  import opened Text

  // ---------- bit operations ----------

  function Pow2(k: nat): (p: nat)
    ensures p >= 1
  {
    if k == 0 then 1 else 2 * Pow2(k - 1)
  }

  function Size(a: int): nat {
    if a < 0 then -a else a
  }

  /** Bitwise conjunction in two's complement, one binary digit at a time. */
  function BitAnd(a: int, b: int): int
    decreases Size(a)
  {
    if a == 0 || b == 0 then 0
    else if a == -1 then b
    else if b == -1 then a
    else 2 * BitAnd(a / 2, b / 2) + (if a % 2 == 1 && b % 2 == 1 then 1 else 0)
  }

  function BitOr(a: int, b: int): int
    decreases Size(a)
  {
    if a == -1 || b == -1 then -1
    else if a == 0 then b
    else if b == 0 then a
    else 2 * BitOr(a / 2, b / 2) + (if a % 2 == 1 || b % 2 == 1 then 1 else 0)
  }

  function Doubled(a: int, n: nat): int {
    if n == 0 then a else 2 * Doubled(a, n - 1)
  }

  function Halved(a: int, n: nat): int
    decreases n
  {
    if n == 0 then a else Halved(a / 2, n - 1)
  }

  /** The 64-bit integer with the same low bits. */
  function Wrap(a: int): int {
    var u := a % 0x1_0000_0000_0000_0000;
    if u <= INT64_MAX then u else u - 0x1_0000_0000_0000_0000
  }

  function BitLeftShift(a: int, n: nat): int {
    Wrap(Doubled(a, n))
  }

  function BitRightShift(a: int, n: nat): int {
    Halved(a, n)
  }

  /** The binary digit at position k, of a negative number in two's complement. */
  predicate Bit(a: int, k: nat) {
    Halved(a, k) % 2 == 1
  }

  lemma AndStep(a: int, b: int)
    ensures BitAnd(a, b) / 2 == BitAnd(a / 2, b / 2)
    ensures BitAnd(a, b) % 2 == 1 <==> a % 2 == 1 && b % 2 == 1
  {
  }

  lemma OrStep(a: int, b: int)
    ensures BitOr(a, b) / 2 == BitOr(a / 2, b / 2)
    ensures BitOr(a, b) % 2 == 1 <==> a % 2 == 1 || b % 2 == 1
  {
  }

  lemma NextBit(a: int, k: nat)
    requires k > 0
    ensures Bit(a, k) <==> Bit(a / 2, k - 1)
  {
  }

  /** The operations work digit by digit. */
  lemma {:induction false} BitByBit(a: int, b: int, k: nat)
    ensures Bit(BitAnd(a, b), k) <==> Bit(a, k) && Bit(b, k)
    ensures Bit(BitOr(a, b), k) <==> Bit(a, k) || Bit(b, k)
    decreases k
  {
    AndStep(a, b);
    OrStep(a, b);
    if k > 0 {
      BitByBit(a / 2, b / 2, k - 1);
      NextBit(a, k);
      NextBit(b, k);
      NextBit(BitAnd(a, b), k);
      NextBit(BitOr(a, b), k);
    }
  }

  /** A shift to the left keeps the low 64 digits of the product, as a signed number. */
  lemma ShiftedLeft(a: int, n: nat)
    ensures -0x8000_0000_0000_0000 <= BitLeftShift(a, n) < 0x8000_0000_0000_0000
    ensures exists q: int :: BitLeftShift(a, n) + q * 0x1_0000_0000_0000_0000 == a * Pow2(n)
  {
    DoubledIs(a, n);
    var whole := a * Pow2(n);
    var q := whole / 0x1_0000_0000_0000_0000;
    var r := if whole % 0x1_0000_0000_0000_0000 <= INT64_MAX then q else q + 1;
    assert BitLeftShift(a, n) + r * 0x1_0000_0000_0000_0000 == whole;
  }

  /** The low k digits. */
  function Low(a: int, k: nat): int
    decreases k
  {
    if k == 0 then 0 else 2 * Low(a / 2, k - 1) + a % 2
  }

  lemma {:induction false} LowAndHigh(a: int, k: nat)
    ensures a == Low(a, k) + Doubled(Halved(a, k), k)
    ensures 0 <= Low(a, k) < Pow2(k)
    decreases k
  {
    if k > 0 {
      LowAndHigh(a / 2, k - 1);
    }
  }

  lemma {:induction false} LowOfConstants(k: nat)
    ensures Low(0, k) == 0 && Low(-1, k) == Pow2(k) - 1
  {
    if k > 0 {
      LowOfConstants(k - 1);
    }
  }

  /** Masking with k ones keeps the low k digits, of a negative number too. */
  lemma {:induction false} AndMask(a: int, k: nat)
    ensures BitAnd(a, Pow2(k) - 1) == Low(a, k)
    decreases k
  {
    LowOfConstants(k);
    if k > 0 && a != 0 && a != -1 {
      AndMask(a / 2, k - 1);
      var p := Pow2(k - 1);
      assert (2 * p - 1) / 2 == p - 1 && (2 * p - 1) % 2 == 1;
    }
  }

  /** Shifting back what was placed above k digits. */
  lemma {:induction false} HalvedPlaced(a: int, b: int, k: nat)
    requires 0 <= a < Pow2(k)
    ensures Halved(a + Doubled(b, k), k) == b
    decreases k
  {
    if k > 0 {
      HalvedPlaced(a / 2, b, k - 1);
      assert (a + 2 * Doubled(b, k - 1)) / 2 == a / 2 + Doubled(b, k - 1);
    }
  }

  /** Numbers without a common binary digit combine by addition. */
  lemma {:induction false} OrDisjoint(a: nat, b: nat, k: nat)
    requires a < Pow2(k)
    ensures Doubled(b, k) >= 0 && BitOr(a, Doubled(b, k)) == a + Doubled(b, k)
  {
    if k > 0 {
      OrDisjoint(a / 2, b, k - 1);
    }
  }

  lemma {:induction false} DoubledIs(a: int, k: nat)
    ensures Doubled(a, k) == a * Pow2(k)
  {
    if k > 0 {
      DoubledIs(a, k - 1);
    }
  }

  lemma SmallPowers()
    ensures Pow2(8) == 0x100 && Pow2(16) == 0x1_0000 && Pow2(24) == 0x100_0000
  {
    assert Pow2(4) == 16;
    assert Pow2(8) == 256;
    assert Pow2(12) == 4096;
    assert Pow2(16) == 65536;
    assert Pow2(20) == 1048576;
  }

  // ---------- packing ----------

  function Combine(offset: int, sn: int, index: int): int {
    BitOr(BitOr(offset, BitLeftShift(sn, 16)), BitLeftShift(index, 24))
  }

  function Pack(offset: int, sn: int, index: int): int {
    Combine(BitAnd(offset, 0xFFFF), BitAnd(sn, 0xFF), BitAnd(index, 0xFF))
  }

  lemma DivisionIsUnique(a: int, d: nat, q: int, r: nat)
    requires 0 <= r < d && a == r + q * d
    ensures a % d == r
  {
    var e := a / d - q;
    assert e * d == r - a % d by {
      assert a == a / d * d + a % d;
      assert e * d == a / d * d - q * d;
    }
    SmallMultiple(e, d);
  }

  lemma SmallMultiple(e: int, d: nat)
    ensures e >= 1 ==> e * d >= d
    ensures e <= -1 ==> e * d + d <= 0
  {
    if e <= -1 {
      assert (e + 1) * d <= 0;
    }
  }

  lemma Mask(x: int, k: nat, p: nat)
    requires p == Pow2(k)
    ensures BitAnd(x, p - 1) == x % p
  {
    AndMask(x, k);
    LowAndHigh(x, k);
    DoubledIs(Halved(x, k), k);
    DivisionIsUnique(x, p, Halved(x, k), Low(x, k));
  }

  lemma MaskByte(x: int)
    ensures BitAnd(x, 0xFF) == x % 0x100
  {
    SmallPowers();
    Mask(x, 8, 0x100);
  }

  lemma MaskWord(x: int)
    ensures BitAnd(x, 0xFFFF) == x % 0x1_0000
  {
    SmallPowers();
    Mask(x, 16, 0x1_0000);
  }

  /** Placing a number above k digits of another. */
  lemma Place(a: nat, b: nat, k: nat)
    requires a < Pow2(k) && a + Doubled(b, k) < 0x8000_0000_0000_0000
    ensures BitOr(a, BitLeftShift(b, k)) == a + Doubled(b, k)
  {
    OrDisjoint(a, b, k);
    WrapSmall(Doubled(b, k));
  }

  lemma WrapSmall(a: int)
    requires 0 <= a <= INT64_MAX
    ensures Wrap(a) == a
  {
  }

  /** The three masked fields lie side by side. */
  lemma PackedValue(offset: int, sn: int, index: int)
    ensures Pack(offset, sn, index) == offset % 0x1_0000 + sn % 0x100 * 0x1_0000 + index % 0x100 * 0x100_0000
  {
    SmallPowers();
    MaskWord(offset);
    MaskByte(sn);
    MaskByte(index);
    var o, s, i := offset % 0x1_0000, sn % 0x100, index % 0x100;
    DoubledIs(s, 16);
    DoubledIs(i, 24);
    Place(o, s, 16);
    Place(o + s * 0x1_0000, i, 24);
  }

  lemma MaskBack(a: int, b: int, k: nat, p: nat)
    requires p == Pow2(k) && 0 <= a < p
    ensures BitAnd(a + b * p, p - 1) == a
  {
    Mask(a + b * p, k, p);
    DivisionIsUnique(a + b * p, p, b, a);
  }

  lemma ShiftBack(a: int, b: int, k: nat, p: nat)
    requires p == Pow2(k) && 0 <= a < p
    ensures BitRightShift(a + b * p, k) == b
  {
    DoubledIs(b, k);
    HalvedPlaced(a, b, k);
  }

  lemma ShiftedFields(o: int, s: int, i: int, id: int)
    requires 0 <= o < 0x1_0000 && 0 <= s < 0x100 && 0 <= i < 0x100
    requires id == o + s * 0x1_0000 + i * 0x100_0000
    ensures BitRightShift(id, 16) == s + i * 0x100 && BitRightShift(id, 24) == i
  {
    SmallPowers();
    ShiftBack(o, s + i * 0x100, 16, 0x1_0000);
    ShiftBack(o + s * 0x1_0000, i, 24, 0x100_0000);
  }

  lemma MaskWordBack(a: int, b: int)
    requires 0 <= a < 0x1_0000
    ensures BitAnd(a + b * 0x1_0000, 0xFFFF) == a
  {
    SmallPowers();
    MaskBack(a, b, 16, 0x1_0000);
  }

  lemma MaskByteBack(a: int, b: int)
    requires 0 <= a < 0x100
    ensures BitAnd(a + b * 0x100, 0xFF) == a
  {
    SmallPowers();
    MaskBack(a, b, 8, 0x100);
  }

  /** The id fits the 32 bits the kernel gives it, and every masked field can be read back. */
  lemma PackedFields(offset: int, sn: int, index: int)
    ensures 0 <= Pack(offset, sn, index) < 0x1_0000_0000
    ensures BitAnd(Pack(offset, sn, index), 0xFFFF) == BitAnd(offset, 0xFFFF)
    ensures BitAnd(BitRightShift(Pack(offset, sn, index), 16), 0xFF) == BitAnd(sn, 0xFF)
    ensures BitAnd(BitRightShift(Pack(offset, sn, index), 24), 0xFF) == BitAnd(index, 0xFF)
  {
    PackedValue(offset, sn, index);
    FieldsOf(offset % 0x1_0000, sn % 0x100, index % 0x100, Pack(offset, sn, index));
    MaskWord(offset);
    MaskByte(sn);
    MaskByte(index);
  }

  lemma FieldsOf(o: int, s: int, i: int, id: int)
    requires 0 <= o < 0x1_0000 && 0 <= s < 0x100 && 0 <= i < 0x100
    requires id == o + s * 0x1_0000 + i * 0x100_0000
    ensures 0 <= id < 0x1_0000_0000
    ensures BitAnd(id, 0xFFFF) == o && BitAnd(BitRightShift(id, 16), 0xFF) == s
      && BitAnd(BitRightShift(id, 24), 0xFF) == i
  {
    MaskWordBack(o, s + i * 0x100);
    MaskByteBack(s, i);
    MaskByteBack(i, 0);
    ShiftedFields(o, s, i, id);
  }

  /** The masked fields of a task, as an id holds them. */
  datatype Fields = Fields(offset: int, sn: int, index: int)

  function Masked(offset: int, sn: int, index: int): Fields {
    Fields(BitAnd(offset, 0xFFFF), BitAnd(sn, 0xFF), BitAnd(index, 0xFF))
  }

  function FieldsIn(id: int): Fields {
    Fields(BitAnd(id, 0xFFFF), BitAnd(BitRightShift(id, 16), 0xFF), BitAnd(BitRightShift(id, 24), 0xFF))
  }

  lemma FieldsRead(offset: int, sn: int, index: int)
    ensures FieldsIn(Pack(offset, sn, index)) == Masked(offset, sn, index)
  {
    PackedFields(offset, sn, index);
  }

  /** Two tasks share an id exactly when all three masked fields agree. */
  lemma SharedIds(o1: int, s1: int, i1: int, o2: int, s2: int, i2: int)
    ensures Pack(o1, s1, i1) == Pack(o2, s2, i2) <==> Masked(o1, s1, i1) == Masked(o2, s2, i2)
  {
    FieldsRead(o1, s1, i1);
    FieldsRead(o2, s2, i2);
  }

  // ---------- ids of tasks ----------

  /** Whose offset is asked for. The writing side names a process "1"; the reading side passes the number 1,
      which is no text. */
  datatype Owner = Named(id: string) | Unnamed

  const PROCESS := Named("1")
  const DEFAULT_OFFSET := 11111

  /** The script's output is a text and never equals the number 0, so an offset of 0 is kept. */
  function GenerateOffset(owner: Owner, script: string -> int): int {
    match owner
    case Unnamed => DEFAULT_OFFSET
    case Named(id) => script(id)
  }

  function Serial(name: string, serials: map<string, string>): int {
    if name !in serials then 0
    else
      match ParseInt(serials[name])
      case None => 0
      case Some(sn) => sn
  }

  /** 0 for a tag that is not made of at least three parts with a decimal index as the third. */
  function GenerateClassId(tag: string, owner: Owner, serials: map<string, string>, script: string -> int): int {
    var sections := Split(tag, '-');
    if |sections| < 3 then 0
    else
      match ParseInt(sections[2])
      case None => 0
      case Some(index) => Pack(GenerateOffset(owner, script), Serial(sections[1], serials), index)
  }

  function Tag(name: string, index: string): string {
    Join(["pai", name, index], '-')
  }

  lemma TagParts(parts: seq<string>, owner: Owner, serials: map<string, string>, script: string -> int)
    requires AreWords(parts, '-') && |parts| >= 3
    ensures GenerateClassId(Join(parts, '-'), owner, serials, script) ==
      match ParseInt(parts[2])
      case None => 0
      case Some(index) => Pack(GenerateOffset(owner, script), Serial(parts[1], serials), index)
  {
    SplitJoin(parts, '-');
  }

  /** A dash in a task's name shifts its index out of place: it gets no id and no rule. */
  lemma DashedNameHasNoId(a: string, b: string, index: string, owner: Owner, serials: map<string, string>,
                          script: string -> int)
    requires AreWords(["pai", a, b, index], '-') && ParseInt(b) == None
    ensures GenerateClassId(Join(["pai", a, b, index], '-'), owner, serials, script) == 0
  {
    TagParts(["pai", a, b, index], owner, serials, script);
  }

  /** An id is never negative and fits the kernel's 32 bits. */
  lemma IdFits(tag: string, owner: Owner, serials: map<string, string>, script: string -> int)
    ensures 0 <= GenerateClassId(tag, owner, serials, script) < 0x1_0000_0000
  {
    var sections := Split(tag, '-');
    if |sections| >= 3 && ParseInt(sections[2]).Some? {
      PackedFields(GenerateOffset(owner, script), Serial(sections[1], serials), ParseInt(sections[2]).value);
    }
  }

  /** The serial number stored for a name; 0 when there is none or it is no number. */
  predicate HasSerial(name: string, serials: map<string, string>, sn: int) {
    && INT64_MIN <= sn <= INT64_MAX
    && if name in serials && ParseInt(serials[name]).Some? then serials[name] == IntText(sn) else sn == 0
  }

  lemma SerialRead(name: string, serials: map<string, string>, sn: int)
    requires HasSerial(name, serials, sn)
    ensures Serial(name, serials) == sn
  {
    ParseIntText(sn);
  }

  /** The id of a task in plain terms: the offset below, the serial number of its name above 16 bits, and its index
      above 24, each cut to its width. */
  lemma IdOfTask(name: string, index: nat, owner: Owner, sn: int, serials: map<string, string>, script: string -> int)
    requires IsWord(name, '-') && index <= INT64_MAX && HasSerial(name, serials, sn)
    ensures GenerateClassId("pai-" + name + "-" + NatText(index), owner, serials, script) ==
      (if owner.Unnamed? then 11111 else script(owner.id)) % 0x1_0000
      + sn % 0x100 * 0x1_0000 + index % 0x100 * 0x100_0000
  {
    var text := NatText(index);
    assert Join([name, text], '-') == name + "-" + text;
    assert Tag(name, text) == "pai-" + name + "-" + text;
    TagParts(["pai", name, text], owner, serials, script);
    SerialRead(name, serials, sn);
    ParseIntText(index);
    PackedValue(GenerateOffset(owner, script), sn, index);
  }

  lemma SerialByte(o1: int, s1: int, i1: int, o2: int, s2: int, i2: int)
    requires s1 % 0x100 != s2 % 0x100
    ensures o1 % 0x1_0000 + s1 % 0x100 * 0x1_0000 + i1 % 0x100 * 0x100_0000 !=
            o2 % 0x1_0000 + s2 % 0x100 * 0x1_0000 + i2 % 0x100 * 0x100_0000
  {
    var id1 := o1 % 0x1_0000 + s1 % 0x100 * 0x1_0000 + i1 % 0x100 * 0x100_0000;
    var id2 := o2 % 0x1_0000 + s2 % 0x100 * 0x1_0000 + i2 % 0x100 * 0x100_0000;
    FieldsOf(o1 % 0x1_0000, s1 % 0x100, i1 % 0x100, id1);
    FieldsOf(o2 % 0x1_0000, s2 % 0x100, i2 % 0x100, id2);
    assert BitAnd(BitRightShift(id1, 16), 0xFF) != BitAnd(BitRightShift(id2, 16), 0xFF);
  }

  /** Tasks whose names have serial numbers that differ in their low byte never share an id, whoever owns them. */
  lemma SerialsApart(name1: string, index1: nat, owner1: Owner, sn1: int, name2: string, index2: nat, owner2: Owner,
                     sn2: int, serials: map<string, string>, script: string -> int)
    requires IsWord(name1, '-') && index1 <= INT64_MAX && HasSerial(name1, serials, sn1)
    requires IsWord(name2, '-') && index2 <= INT64_MAX && HasSerial(name2, serials, sn2)
    requires sn1 % 0x100 != sn2 % 0x100
    ensures GenerateClassId("pai-" + name1 + "-" + NatText(index1), owner1, serials, script) !=
            GenerateClassId("pai-" + name2 + "-" + NatText(index2), owner2, serials, script)
  {
    IdOfTask(name1, index1, owner1, sn1, serials, script);
    IdOfTask(name2, index2, owner2, sn2, serials, script);
    var offset1 := if owner1.Unnamed? then 11111 else script(owner1.id);
    var offset2 := if owner2.Unnamed? then 11111 else script(owner2.id);
    SerialByte(offset1, sn1, index1, offset2, sn2, index2);
  }

  // ---------- reading an id back ----------

  predicate IsSpace(c: char) {
    c == ' ' || '\t' <= c <= '\r'
  }

  function Strip(s: string): string
    decreases |s|
  {
    if s == "" then ""
    else if IsSpace(s[0]) then Strip(s[1..])
    else if IsSpace(s[|s| - 1]) then Strip(s[..|s| - 1])
    else s
  }

  /** The number in a cgroup's class id file; 0 when there is none. */
  function ReadClassId(output: string): int {
    match ParseInt(Strip(output))
    case None => 0
    case Some(n) => if n > 0 then n else 0
  }

  predicate VerifyClassId(id: int, tag: string, owner: Owner, serials: map<string, string>, script: string -> int) {
    id > 0 && GenerateClassId(tag, owner, serials, script) == id
  }

  /** What the kernel shows for an id that was written to the file. */
  function Shown(id: nat): string {
    NatText(id) + "\n"
  }

  lemma ShownIsRead(id: nat)
    requires id <= INT64_MAX
    ensures ReadClassId(Shown(id)) == id
  {
    PaddedIsRead("", id, "\n");
    assert "" + NatText(id) + "\n" == Shown(id);
  }

  predicate IsBlank(s: string) {
    forall c <- s :: c in " \t\n\r"
  }

  lemma {:induction false} StripPadded(before: string, text: string, after: string)
    requires IsBlank(before) && IsBlank(after)
    requires text != "" && !IsSpace(text[0]) && !IsSpace(text[|text| - 1])
    ensures Strip(before + text + after) == text
    decreases |before| + |after|
  {
    var s := before + text + after;
    if before != "" {
      assert before[0] in before && IsSpace(before[0]);
      WithoutFirst(before, text, after);
      assert IsBlank(before[1..]);
      StripPadded(before[1..], text, after);
    } else if after != "" {
      assert after[|after| - 1] in after && IsSpace(after[|after| - 1]);
      WithoutLast(text, after);
      assert IsBlank(after[..|after| - 1]);
      assert s == text + after && "" + text + after[..|after| - 1] == text + after[..|after| - 1];
      StripPadded(before, text, after[..|after| - 1]);
    } else {
      assert s == text;
    }
  }

  lemma WithoutFirst(before: string, text: string, after: string)
    requires before != ""
    ensures var s := before + text + after; s[0] == before[0] && s[1..] == before[1..] + text + after
  {
  }

  lemma WithoutLast(text: string, after: string)
    requires text != "" && after != ""
    ensures var s := text + after;
      s[0] == text[0] && s[|s| - 1] == after[|after| - 1] && s[..|s| - 1] == text + after[..|after| - 1]
  {
  }

  lemma {:induction false} StripBlank(s: string)
    requires IsBlank(s)
    ensures Strip(s) == ""
    decreases |s|
  {
    if s != "" {
      assert s[0] in s;
      StripBlank(s[1..]);
    }
  }

  /** Blanks around the number do not matter; a negative number or a blank file reads as no id. */
  lemma PaddedIsRead(before: string, id: nat, after: string)
    requires IsBlank(before) && IsBlank(after) && id <= INT64_MAX
    ensures ReadClassId(before + NatText(id) + after) == id
    ensures ReadClassId(before + "-" + NatText(id) + after) == 0
    ensures ReadClassId(before) == 0
  {
    var text := NatText(id);
    assert IsDigit(text[0]) && IsDigit(text[|text| - 1]);
    StripPadded(before, text, after);
    StripPadded(before, "-" + text, after);
    assert before + ("-" + text) + after == before + "-" + text + after;
    NatTextValue(id);
    ParseIntForms(text, id);
    StripBlank(before);
  }

  /** The reading side accepts every id the writing side gave to a container. */
  lemma ContainerRecognised(tag: string, id: string, serials: map<string, string>, script: string -> int)
    ensures var written := GenerateClassId(tag, Named(id), serials, script);
      written >= 0 && (VerifyClassId(ReadClassId(Shown(written)), tag, Named(id), serials, script) <==> written > 0)
  {
    IdFits(tag, Named(id), serials, script);
    ShownIsRead(GenerateClassId(tag, Named(id), serials, script));
  }

  lemma ProcessId(name: string, owner: Owner, serials: map<string, string>, script: string -> int)
    requires IsWord(name, '-')
    ensures GenerateClassId(Tag(name, "0"), owner, serials, script) ==
      Pack(GenerateOffset(owner, script), Serial(name, serials), 0)
  {
    TagParts(["pai", name, "0"], owner, serials, script);
    assert NatText(0) == "0";
    ParseIntText(0);
  }

  /** What the reading side makes of a process whose id the writing side stored. */
  predicate ProcessAccepted(name: string, serials: map<string, string>, script: string -> int) {
    var written := GenerateClassId(Tag(name, "0"), PROCESS, serials, script);
    written >= 0 && VerifyClassId(ReadClassId(Shown(written)), Tag(name, "0"), Unnamed, serials, script)
  }

  lemma AcceptedWhenSame(name: string, serials: map<string, string>, script: string -> int)
    requires IsWord(name, '-')
    ensures ProcessAccepted(name, serials, script) <==>
            Pack(DEFAULT_OFFSET, Serial(name, serials), 0) > 0
            && Pack(script("1"), Serial(name, serials), 0) == Pack(DEFAULT_OFFSET, Serial(name, serials), 0)
  {
    ProcessId(name, PROCESS, serials, script);
    ProcessId(name, Unnamed, serials, script);
    IdFits(Tag(name, "0"), PROCESS, serials, script);
    ShownIsRead(GenerateClassId(Tag(name, "0"), PROCESS, serials, script));
  }

  lemma AcceptedIfSame(name: string, serials: map<string, string>, script: string -> int)
    requires IsWord(name, '-') && script("1") % 0x1_0000 == DEFAULT_OFFSET
    ensures ProcessAccepted(name, serials, script)
  {
    AcceptedWhenSame(name, serials, script);
    PositiveId(DEFAULT_OFFSET, Serial(name, serials), 0);
    SameLowWord(script("1"), DEFAULT_OFFSET, Serial(name, serials), 0);
  }

  lemma SameIfAccepted(name: string, serials: map<string, string>, script: string -> int)
    requires IsWord(name, '-') && ProcessAccepted(name, serials, script)
    ensures script("1") % 0x1_0000 == DEFAULT_OFFSET
  {
    AcceptedWhenSame(name, serials, script);
    SameAsDefault(script("1"), Serial(name, serials));
  }

  /** A process is accepted exactly when the script happens to give "1" the default offset:
      the two sides hand generateOffset a text and a number. */
  lemma ProcessRecognised(name: string, serials: map<string, string>, script: string -> int)
    requires IsWord(name, '-')
    ensures ProcessAccepted(name, serials, script) <==> script("1") % 0x1_0000 == DEFAULT_OFFSET
  {
    if ProcessAccepted(name, serials, script) {
      SameIfAccepted(name, serials, script);
    }
    if script("1") % 0x1_0000 == DEFAULT_OFFSET {
      AcceptedIfSame(name, serials, script);
    }
  }

  lemma WordsAgree(a: int, b: int)
    ensures BitAnd(a, 0xFFFF) == BitAnd(b, 0xFFFF) <==> a % 0x1_0000 == b % 0x1_0000
  {
    MaskWord(a);
    MaskWord(b);
  }

  lemma SameLowWord(a: int, b: int, sn: int, index: int)
    requires a % 0x1_0000 == b % 0x1_0000
    ensures Pack(a, sn, index) == Pack(b, sn, index)
  {
    WordsAgree(a, b);
  }

  lemma SameOffset(a: int, b: int, sn: int, index: int)
    requires Pack(a, sn, index) == Pack(b, sn, index)
    ensures BitAnd(a, 0xFFFF) == BitAnd(b, 0xFFFF)
  {
    SharedIds(a, sn, index, b, sn, index);
  }

  lemma SameRemainder(a: int, b: int, sn: int, index: int)
    requires Pack(a, sn, index) == Pack(b, sn, index)
    ensures a % 0x1_0000 == b % 0x1_0000
  {
    SameOffset(a, b, sn, index);
    WordsAgree(a, b);
  }

  lemma WordIsItself(b: int)
    requires 0 <= b < 0x1_0000
    ensures b % 0x1_0000 == b
  {
  }

  lemma SameWord(a: int, b: int, sn: int, index: int)
    requires 0 <= b < 0x1_0000 && Pack(a, sn, index) == Pack(b, sn, index)
    ensures a % 0x1_0000 == b
  {
    SameRemainder(a, b, sn, index);
    WordIsItself(b);
  }

  lemma SameAsDefault(offset: int, sn: int)
    requires Pack(offset, sn, 0) == Pack(DEFAULT_OFFSET, sn, 0)
    ensures offset % 0x1_0000 == DEFAULT_OFFSET
  {
    SameWord(offset, DEFAULT_OFFSET, sn, 0);
  }

  lemma PositiveId(offset: int, sn: int, index: int)
    requires offset % 0x1_0000 != 0
    ensures Pack(offset, sn, index) > 0
  {
    PackedFields(offset, sn, index);
    MaskWord(offset);
  }

  /** A task is left without a rule exactly when its three masked fields are all zero, or its tag has no index. */
  lemma NoIdExactly(tag: string, owner: Owner, serials: map<string, string>, script: string -> int)
    ensures var parts := Split(tag, '-');
      GenerateClassId(tag, owner, serials, script) <= 0 <==>
        || |parts| < 3
        || ParseInt(parts[2]) == None
        || (GenerateOffset(owner, script) % 0x1_0000 == 0 && Serial(parts[1], serials) % 0x100 == 0
            && ParseInt(parts[2]).value % 0x100 == 0)
  {
    var parts := Split(tag, '-');
    if |parts| >= 3 && ParseInt(parts[2]).Some? {
      PackedValue(GenerateOffset(owner, script), Serial(parts[1], serials), ParseInt(parts[2]).value);
    }
  }
}
