/** Length-prefixed framing of byte messages. */
module Framing {
  import opened Text

  newtype byte = x: int | 0 <= x < 256

  /** None is the nil slice, which is told apart from the empty one. */
  type Message = Option<seq<byte>>

  const NIL_LENGTH := 0xFFFF_FFFF
  const LENGTHS := 0x1_0000_0000

  // ---------- specification ----------

  /** Big-endian order. */
  function Uint32ToBytes(v: nat): (b: seq<byte>)
    requires v < LENGTHS
    ensures |b| == 4
  {
    var third := v / 0x100;
    var second := third / 0x100;
    [(second / 0x100) as byte, (second % 0x100) as byte, (third % 0x100) as byte, (v % 0x100) as byte]
  }

  function BytesToUint32(b: seq<byte>): (v: nat)
    requires |b| == 4
    ensures v < LENGTHS
  {
    ((b[0] as nat * 0x100 + b[1] as nat) * 0x100 + b[2] as nat) * 0x100 + b[3] as nat
  }

  lemma Uint32RoundTrip(v: nat)
    requires v < LENGTHS
    ensures BytesToUint32(Uint32ToBytes(v)) == v
  {
  }

  /** The length is cut to 32 bits, as the conversion in the source cuts it. */
  function Frame(m: Message): (b: seq<byte>)
    ensures |b| >= 4
  {
    match m
    case None => Uint32ToBytes(NIL_LENGTH)
    case Some(bytes) => Uint32ToBytes(|bytes| % LENGTHS) + bytes
  }

  datatype Reading = Whole(message: Message, rest: seq<byte>) | Truncated

  /** What one frame at the front of a stream reads as. */
  function ReadFrame(s: seq<byte>): Reading {
    if |s| < 4 then Truncated
    else
      var length := BytesToUint32(s[..4]);
      if length == NIL_LENGTH then Whole(None, s[4..])
      else if |s| < 4 + length then Truncated
      else Whole(Some(s[4..4 + length]), s[4 + length..])
  }

  /** The frame's length field can hold the message's length without being mistaken for nil. */
  predicate IsFramable(m: Message) {
    m.Some? ==> |m.value| < NIL_LENGTH
  }

  // ---------- streams ----------

  /** A source of bytes that ends after its data. */
  class Reader {
    var data: seq<byte>

    constructor (data: seq<byte>)
      ensures this.data == data
    {
      this.data := data;
    }

    /** All n bytes or none; a short read uses up the stream. */
    method ReadFull(n: nat) returns (b: seq<byte>, ok: bool)
      modifies this
      ensures ok <==> n <= |old(data)|
      ensures ok ==> b == old(data)[..n] && data == old(data)[n..]
      ensures !ok ==> data == []
    {
      if n <= |data| {
        b, ok, data := data[..n], true, data[n..];
      } else {
        b, ok, data := data, false, [];
      }
    }

    method ReadUint32() returns (v: nat, ok: bool)
      modifies this
      ensures ok <==> 4 <= |old(data)|
      ensures ok ==> v == BytesToUint32(old(data)[..4]) && data == old(data)[4..]
      ensures !ok ==> data == []
    {
      var b;
      b, ok := ReadFull(4);
      v := if ok then BytesToUint32(b) else 0;
    }
  }

  /** A destination that takes a limited number of bytes and then fails, as a closing connection does. */
  class Writer {
    var data: seq<byte>
    const limit: nat

    constructor (limit: nat)
      ensures data == [] && this.limit == limit
    {
      data, this.limit := [], limit;
    }

    ghost predicate Valid()
      reads this
    {
      |data| <= limit
    }

    method Write(b: seq<byte>) returns (ok: bool)
      requires Valid()
      modifies this
      ensures Valid()
      ensures ok <==> |old(data)| + |b| <= limit
      ensures data == old(data) + if ok then b else b[..limit - |old(data)|]
    {
      ok := |data| + |b| <= limit;
      data := data + if ok then b else b[..limit - |data|];
    }
  }

  /** A variable a reader fills by reference. */
  class Slot {
    var bytes: Message

    constructor ()
      ensures bytes == None
    {
      bytes := None;
    }
  }

  /** The frame reaches the writer in one piece, or a proper prefix of it does and the call fails. */
  method WriteBytes(w: Writer, b: Message) returns (ok: bool)
    requires w.Valid()
    modifies w
    ensures w.Valid()
    ensures ok <==> |old(w.data)| + |Frame(b)| <= w.limit
    ensures w.data == old(w.data) + if ok then Frame(b) else Frame(b)[..w.limit - |old(w.data)|]
  {
    var buffer := [];
    if b == None {
      buffer := buffer + Uint32ToBytes(NIL_LENGTH);
    } else {
      buffer := buffer + Uint32ToBytes(|b.value| % LENGTHS);
      if |b.value| > 0 {
        buffer := buffer + b.value;
      }
    }
    assert buffer == Frame(b);
    ok := w.Write(buffer);
  }

  lemma BodyFollows(s: seq<byte>, n: nat)
    requires |s| >= 4
    ensures 4 + n <= |s| ==> s[4..][..n] == s[4..4 + n] && s[4..][n..] == s[4 + n..]
  {
  }

  /** Fills the slot with the frame in front, or leaves it alone and fails. */
  method ReadBytes(r: Reader, pb: Slot) returns (ok: bool)
    modifies r, pb
    ensures ok <==> ReadFrame(old(r.data)).Whole?
    ensures ok ==> ReadFrame(old(r.data)) == Whole(pb.bytes, r.data)
    ensures !ok ==> pb.bytes == old(pb.bytes) && r.data == []
  {
    ghost var s := r.data;
    var length;
    length, ok := r.ReadUint32();
    if !ok {
      return;
    }
    if length == NIL_LENGTH {
      pb.bytes := None;
    } else if length == 0 {
      pb.bytes := Some([]);
      assert s[4..4] == [];
    } else {
      BodyFollows(s, length);
      var b;
      b, ok := r.ReadFull(length);
      if ok {
        pb.bytes := Some(b);
      }
    }
  }

  /** The same frame by value; nil comes back with every failure. */
  method ReadBytesAlt(r: Reader) returns (b: Message, ok: bool)
    modifies r
    ensures ok <==> ReadFrame(old(r.data)).Whole?
    ensures ok ==> ReadFrame(old(r.data)) == Whole(b, r.data)
    ensures !ok ==> b == None && r.data == []
  {
    ghost var s := r.data;
    var length;
    length, ok := r.ReadUint32();
    b := None;
    if !ok || length == NIL_LENGTH {
      return;
    }
    if length == 0 {
      b := Some([]);
      assert s[4..4] == [];
      return;
    }
    BodyFollows(s, length);
    var bytes;
    bytes, ok := r.ReadFull(length);
    if ok {
      b := Some(bytes);
    }
  }

  // ---------- properties ----------

  /** Reading gives back the message that was framed and leaves what follows, exactly for messages shorter
      than the length that stands for nil. */
  lemma FrameReads(m: Message, rest: seq<byte>)
    ensures ReadFrame(Frame(m) + rest) == Whole(m, rest) <==> IsFramable(m)
  {
    var s := Frame(m) + rest;
    Uint32RoundTrip(NIL_LENGTH);
    match m
    case None =>
      assert s[..4] == Uint32ToBytes(NIL_LENGTH) && s[4..] == rest;
    case Some(bytes) =>
      Uint32RoundTrip(|bytes| % LENGTHS);
      assert s[..4] == Uint32ToBytes(|bytes| % LENGTHS);
      if |bytes| < NIL_LENGTH {
        assert s[4..4 + |bytes|] == bytes && s[4 + |bytes|..] == rest;
      } else {
        CutLength(|bytes|);
      }
  }

  lemma PlaceValues(b: seq<byte>)
    requires |b| == 4
    ensures BytesToUint32(b) ==
            b[0] as nat * 0x100_0000 + b[1] as nat * 0x1_0000 + b[2] as nat * 0x100 + b[3] as nat
  {
  }

  lemma NilFrame()
    ensures Frame(None) == [255, 255, 255, 255]
  {
  }

  lemma NotCut(n: nat)
    requires n < LENGTHS
    ensures n % LENGTHS == n
  {
  }

  /** The layout of a frame: four bytes, the most significant first, that hold the number of bytes that follow; four
      bytes of 255 alone stand for nil. */
  lemma FrameLayout(m: Message)
    ensures m == None ==> Frame(m) == [255, 255, 255, 255]
    ensures m.Some? && |m.value| < 0x1_0000_0000 ==>
      var f := Frame(m);
      && f[0] as nat * 0x100_0000 + f[1] as nat * 0x1_0000 + f[2] as nat * 0x100 + f[3] as nat == |m.value|
      && f[4..] == m.value
    ensures IsFramable(m) <==> m == None || |m.value| < 0xFFFF_FFFF
  {
    NilFrame();
    if m.Some? && |m.value| < 0x1_0000_0000 {
      NotCut(|m.value|);
      FrameOf(Uint32ToBytes(|m.value|), m.value);
      Uint32RoundTrip(|m.value|);
      PlaceValues(Uint32ToBytes(|m.value|));
    }
  }

  lemma FrameOf(head: seq<byte>, body: seq<byte>)
    requires |head| == 4
    ensures (head + body)[4..] == body && forall i | 0 <= i < 4 :: (head + body)[i] == head[i]
  {
  }

  lemma BytesRoundTrip(b: seq<byte>)
    requires |b| == 4
    ensures Uint32ToBytes(BytesToUint32(b)) == b
  {
    var second := b[0] as nat * 0x100 + b[1] as nat;
    var third := second * 0x100 + b[2] as nat;
    assert (third * 0x100 + b[3] as nat) / 0x100 == third;
    assert third / 0x100 == second;
    assert second / 0x100 == b[0] as nat;
  }

  /** Reading is the exact inverse of framing: a stream yields a message and a rest only if it is the message's frame
      followed by that rest. Every other stream is refused. */
  lemma ReadsExactly(s: seq<byte>, m: Message, rest: seq<byte>)
    ensures ReadFrame(s) == Whole(m, rest) <==> IsFramable(m) && s == Frame(m) + rest
  {
    FrameReads(m, rest);
    if ReadFrame(s) == Whole(m, rest) {
      BytesRoundTrip(s[..4]);
      assert s == s[..4] + s[4..];
      if m.Some? {
        BodyFollows(s, |m.value|);
        assert s[4..] == m.value + rest;
      }
    }
  }

  lemma CutLength(n: nat)
    requires n >= NIL_LENGTH
    ensures n % LENGTHS == NIL_LENGTH || n % LENGTHS != n
  {
  }

  /** A stream starts with at most one message: frames never run into one another. */
  lemma FramesAreDistinct(a: Message, x: seq<byte>, b: Message, y: seq<byte>)
    requires IsFramable(a) && IsFramable(b)
    requires Frame(a) + x == Frame(b) + y
    ensures a == b && x == y
  {
    FrameReads(a, x);
    FrameReads(b, y);
  }

  /** No frame is a proper prefix of another. */
  lemma PrefixFree(a: Message, b: Message)
    requires IsFramable(a) && IsFramable(b) && Frame(a) <= Frame(b)
    ensures a == b
  {
    var x := Frame(b)[|Frame(a)|..];
    assert Frame(a) + x == Frame(b) + [];
    FramesAreDistinct(a, x, b, []);
  }

  /** Every frame cut short is refused. */
  lemma CutHead(head: seq<byte>, body: seq<byte>, k: nat)
    requires |head| == 4 <= k <= 4 + |body|
    ensures (head + body)[..k][..4] == head
  {
  }

  lemma CutFirst(first: seq<byte>, more: seq<byte>, k: nat)
    requires k <= |first| + |more|
    ensures (first + more)[..k] == if k < |first| then first[..k] else first + more[..k - |first|]
  {
  }

  lemma CutFrameIsRefused(m: Message, k: nat)
    requires IsFramable(m) && k < |Frame(m)|
    ensures ReadFrame(Frame(m)[..k]) == Truncated
  {
    if k >= 4 {
      var length := |m.value|;
      NotCut(length);
      Uint32RoundTrip(length);
      CutHead(Uint32ToBytes(length), m.value, k);
    }
  }

  function Frames(messages: seq<Message>): seq<byte> {
    if |messages| == 0 then [] else Frame(messages[0]) + Frames(messages[1..])
  }

  /** n frames read one after another. */
  function ReadFrames(s: seq<byte>, n: nat): Option<(seq<Message>, seq<byte>)> {
    if n == 0 then Some(([], s))
    else
      match ReadFrame(s)
      case Truncated => None
      case Whole(m, rest) =>
        match ReadFrames(rest, n - 1)
        case None => None
        case Some(more) => Some(([m] + more.0, more.1))
  }

  lemma FrameFirst(m: Message, rest: seq<byte>, n: nat, more: seq<Message>, tail: seq<byte>)
    requires IsFramable(m) && ReadFrames(rest, n) == Some((more, tail))
    ensures ReadFrames(Frame(m) + rest, n + 1) == Some(([m] + more, tail))
  {
    FrameReads(m, rest);
  }

  lemma Regroup(a: seq<byte>, b: seq<byte>, c: seq<byte>)
    ensures a + b + c == a + (b + c)
  {
  }

  /** Reading concatenated frames returns the same list and leaves the trailing bytes untouched. */
  lemma {:induction false} FramesRead(messages: seq<Message>, tail: seq<byte>)
    requires forall m <- messages :: IsFramable(m)
    ensures ReadFrames(Frames(messages) + tail, |messages|) == Some((messages, tail))
  {
    if |messages| == 0 {
      assert [] + tail == tail;
    } else {
      var m, more := messages[0], messages[1..];
      assert m in messages;
      FramesRead(more, tail);
      FrameFirst(m, Frames(more) + tail, |more|, more, tail);
      Regroup(Frame(m), Frames(more), tail);
      assert [m] + more == messages;
    }
  }

  /** A concatenation of frames cut anywhere before its end never yields all of its messages. */
  lemma {:induction false} CutFramesAreRefused(messages: seq<Message>, k: nat)
    requires forall m <- messages :: IsFramable(m)
    requires k < |Frames(messages)|
    ensures ReadFrames(Frames(messages)[..k], |messages|) == None
  {
    var m, more := messages[0], messages[1..];
    assert m in messages;
    CutFirst(Frame(m), Frames(more), k);
    if k < |Frame(m)| {
      CutFrameIsRefused(m, k);
    } else {
      FrameReads(m, Frames(more)[..k - |Frame(m)|]);
      CutFramesAreRefused(more, k - |Frame(m)|);
    }
  }

  /** The bytes of a list of frames determine the list. */
  lemma FramesInjective(a: seq<Message>, b: seq<Message>)
    requires (forall m <- a :: IsFramable(m)) && (forall m <- b :: IsFramable(m))
    requires Frames(a) == Frames(b)
    ensures a == b
  {
    if |a| <= |b| {
      SameFrames(a, b);
    } else {
      SameFrames(b, a);
    }
  }

  lemma {:induction false} SameFrames(a: seq<Message>, b: seq<Message>)
    requires (forall m <- a :: IsFramable(m)) && (forall m <- b :: IsFramable(m))
    requires Frames(a) == Frames(b) && |a| <= |b|
    ensures a == b
  {
    if |a| > 0 {
      assert a[0] in a && b[0] in b;
      FramesAreDistinct(a[0], Frames(a[1..]), b[0], Frames(b[1..]));
      SameFrames(a[1..], b[1..]);
      assert a == [a[0]] + a[1..] && b == [b[0]] + b[1..];
    }
  }

  /** One sender and one receiver over a connection that may fail: what arrives is read back whole or refused. */
  method Exchange(m: Message, limit: nat, pb: Slot) returns (sent: bool, received: bool)
    requires IsFramable(m)
    modifies pb
    ensures received <==> sent
    ensures received ==> pb.bytes == m
    ensures !received ==> pb.bytes == old(pb.bytes)
  {
    var w := new Writer(limit);
    sent := WriteBytes(w, m);
    var r := new Reader(w.data);
    if sent {
      FrameReads(m, []);
      assert w.data == Frame(m) + [];
    } else {
      CutFrameIsRefused(m, limit);
      assert w.data == Frame(m)[..limit];
    }
    received := ReadBytes(r, pb);
  }
}
