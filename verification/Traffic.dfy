/** Rates and bandwidth estimates from pairs of counter samples. Lua numbers are modelled as real numbers. */
module Traffic {
  import opened Text
  import opened Storage
  import opened Database
  import Runs = StorageRuns

  datatype Value = Number(n: real) | NotANumber

  type Sample = map<string, Value>

  function Growth(pre: Sample, now: Sample, keyword: string): (g: Option<real>)
    ensures g.Some? ==> g.value >= 0.0
  {
    if keyword in pre && keyword in now && pre[keyword].Number? && now[keyword].Number?
        && now[keyword].n >= pre[keyword].n
    then Some(now[keyword].n - pre[keyword].n) else None
  }

  /** Growth per unit of delta, rounded down; zero for missing data, a counter that went back, or no time. */
  function AverageCalc(pre: Sample, now: Sample, keyword: string, delta: real): int {
    match Growth(pre, now, keyword)
    case None => 0
    case Some(g) => if delta <= 0.0 then 0 else (g / delta).Floor
  }

  function AverageCalcBit(pre: Sample, now: Sample, keyword: string, delta: real): int {
    match Growth(pre, now, keyword)
    case None => 0
    case Some(g) => if delta <= 0.0 then 0 else (g * 8.0 / delta).Floor
  }

  /** The divisor used between two samples: at least one second. */
  function DeltaTime(preTime: int, nowTime: int): int {
    if nowTime - preTime <= 1 then 1 else nowTime - preTime
  }

  // ---------- program bandwidth ----------

  const TCP_HEADER := 66.0
  const UDP_HEADER := 50.0

  function ResendRatio(tcp: int, resend: int): real {
    if tcp > 0 then resend as real / tcp as real else 0.0
  }

  /** The estimate when all packets are TCP. */
  function TcpOnly(packets: int, bytes: int, ratio: real, delta: real): real
    requires delta > 0.0
  {
    var raw := TcpRate(packets, bytes, delta);
    if 0.0 <= ratio <= 1.0 then FloorReal(raw * (1.0 - ratio)) else raw
  }

  function TcpRate(packets: int, bytes: int, delta: real): real
    requires delta > 0.0
  {
    (bytes as real - packets as real * TCP_HEADER) * 8.0 / delta
  }

  function FloorReal(x: real): real {
    x.Floor as real
  }

  function NoProgramBytes(packets: int, bytes: int, tcp: int, resend: int): real
    requires packets > 0
  {
    (tcp - resend) as real * TCP_HEADER + (packets - tcp) as real * UDP_HEADER
    + tcp as real / packets as real * bytes as real * ResendRatio(tcp, resend)
  }

  /** The estimate when there are other packets too. */
  function Mixed(packets: int, bytes: int, tcp: int, resend: int, delta: real): real
    requires packets > 0 && delta > 0.0
  {
    FloorReal((bytes as real - NoProgramBytes(packets, bytes, tcp, resend)) * 8.0 / delta)
  }

  /** The estimate before it is clamped. */
  function Estimate(packets: int, bytes: int, tcp: int, resend: int, delta: real): real
    requires packets > 0 && delta > 0.0
  {
    if tcp >= packets then TcpOnly(packets, bytes, ResendRatio(tcp, resend), delta)
    else Mixed(packets, bytes, tcp, resend, delta)
  }

  function ProgramBandwidth(pre: Sample, now: Sample, delta: real): real {
    var packets := AverageCalc(pre, now, "SendPackets", 1.0);
    var bytes := AverageCalc(pre, now, "SendBytes", 1.0);
    var tcp := AverageCalc(pre, now, "TcpPackets", 1.0);
    var resend := AverageCalc(pre, now, "TcpResendPackets", 1.0);
    if packets <= 0 || delta <= 0.0 then 0.0
    else
      var estimate := Estimate(packets, bytes, tcp, resend, delta);
      if estimate < 0.0 then 0.0 else estimate
  }

  /** The reported program bandwidth: never above the upload rate. */
  function ReportedBandwidth(pre: Sample, now: Sample, delta: real): real {
    var estimate := ProgramBandwidth(pre, now, delta);
    var upload := AverageCalcBit(pre, now, "SendBytes", delta) as real;
    if estimate > upload then upload else estimate
  }

  lemma MulNonNegative(a: real, b: real)
    requires a >= 0.0 && b >= 0.0
    ensures a * b >= 0.0
  {
  }

  lemma DivMonotone(a: real, b: real, d: real)
    requires a <= b && d > 0.0
    ensures a / d <= b / d
  {
    assert b / d - a / d == (b - a) / d;
  }

  lemma FloorMonotone(a: real, b: real)
    requires a <= b
    ensures a.Floor <= b.Floor
  {
  }

  /** The TCP bytes that were sent again. */
  lemma ResentBytes(packets: int, bytes: int, tcp: int, resend: int)
    requires packets > 0 && 0 <= resend <= tcp
    ensures tcp as real / packets as real * bytes as real * ResendRatio(tcp, resend)
         == resend as real * (bytes as real / packets as real)
  {
    if tcp > 0 {
      var p, b, t, r := packets as real, bytes as real, tcp as real, resend as real;
      calc {
        t / p * b * (r / t);
        (t / p) * (b * (r / t));
        { FractionSwap(t, p, b, r); }
        r * (b / p);
      }
    }
  }

  lemma FractionSwap(t: real, p: real, b: real, r: real)
    requires t > 0.0 && p > 0.0
    ensures (t / p) * (b * (r / t)) == r * (b / p)
  {
    var x := r / t;
    assert x * t == r;
    var y := b / p;
    assert y * p == b;
    var z := t / p;
    assert z * p == t;
    assert z * (b * x) == z * (y * p * x) == (z * p) * (y * x) == t * (y * x) == (x * t) * y;
  }

  lemma Distributed(a: real, b: real, c: real)
    ensures (a - b) * c == a * c - b * c
  {
  }

  lemma Associated(a: real, b: real, c: real)
    ensures a * b * c == a * (b * c)
  {
  }

  /** The bytes that are no program's, with the resent ones given by the average size. */
  lemma NoProgramValue(packets: int, bytes: int, tcp: int, resend: int)
    requires packets > 0 && 0 <= resend <= tcp
    ensures NoProgramBytes(packets, bytes, tcp, resend) ==
            (tcp - resend) as real * TCP_HEADER + (packets - tcp) as real * UDP_HEADER
            + resend as real * (bytes as real / packets as real)
  {
    ResentBytes(packets, bytes, tcp, resend);
  }

  lemma AverageSize(packets: int, bytes: int)
    requires packets > 0
    ensures var size := bytes as real / packets as real;
      && size * packets as real == bytes as real
      && (bytes as real >= packets as real * TCP_HEADER ==> size >= TCP_HEADER)
  {
    var p, b := packets as real, bytes as real;
    if b >= p * TCP_HEADER {
      DivMonotone(p * TCP_HEADER, b, p);
      assert p * TCP_HEADER / p == TCP_HEADER;
    }
  }

  /** The bytes left over for programs, between nothing and everything. */
  lemma ProgramBytesBounds(packets: int, bytes: int, tcp: int, resend: int)
    requires packets > 0 && 0 <= resend <= tcp <= packets
    requires bytes as real >= packets as real * TCP_HEADER
    ensures 0.0 <= bytes as real - NoProgramBytes(packets, bytes, tcp, resend) <= bytes as real
  {
    NoProgramValue(packets, bytes, tcp, resend);
    AverageSize(packets, bytes);
    LeftOver(packets as real, bytes as real, tcp as real, resend as real, bytes as real / packets as real);
  }

  lemma LeftOver(p: real, b: real, t: real, r: real, size: real)
    requires 0.0 <= r <= t <= p && size >= TCP_HEADER && size * p == b
    ensures 0.0 <= (t - r) * TCP_HEADER + (p - t) * UDP_HEADER + r * size <= b
  {
    MulNonNegative(r, size);
    Distributed(p, r, size);
    MulNonNegative(p - r, size - TCP_HEADER);
    Distributed(size, TCP_HEADER, p - r);
  }

  /** With all packets TCP, both formulas agree. */
  lemma FormulasCoincide(packets: int, bytes: int, resend: int, delta: real)
    requires packets > 0 && delta > 0.0 && 0 <= resend <= packets
    ensures TcpOnly(packets, bytes, ResendRatio(packets, resend), delta) ==
      Mixed(packets, bytes, packets, resend, delta)
  {
    var p, b, r := packets as real, bytes as real, resend as real;
    var ratio := ResendRatio(packets, resend);
    assert ratio * p == r;
    RatioBounds(resend, packets);
    NoProgramValue(packets, bytes, packets, resend);
    AverageSize(packets, bytes);
    Remainder(p, b, r, b / p, ratio);
    var x := b - p * TCP_HEADER;
    Reorder(x, 1.0 - ratio, delta);
    var value := TcpRate(packets, bytes, delta) * (1.0 - ratio);
    TcpOnlyValue(packets, bytes, ratio, delta, value);
    MixedValue(packets, bytes, packets, resend, delta, value);
  }

  /** Taking off headers and resent bytes is taking off headers and then the resent share. */
  lemma Remainder(p: real, b: real, r: real, size: real, ratio: real)
    requires ratio * p == r && size * p == b
    ensures b - ((p - r) * TCP_HEADER + r * size) == (b - p * TCP_HEADER) * (1.0 - ratio)
  {
    Associated(ratio, p, size);
    assert r * size == ratio * b;
    Distributed(1.0, ratio, b - p * TCP_HEADER);
    Distributed(b, p * TCP_HEADER, ratio);
    Associated(ratio, p, TCP_HEADER);
  }

  lemma TcpOnlyValue(packets: int, bytes: int, ratio: real, delta: real, value: real)
    requires delta > 0.0 && 0.0 <= ratio <= 1.0 && value == TcpRate(packets, bytes, delta) * (1.0 - ratio)
    ensures TcpOnly(packets, bytes, ratio, delta) == FloorReal(value)
  {
  }

  lemma MixedValue(packets: int, bytes: int, tcp: int, resend: int, delta: real, value: real)
    requires packets > 0 && delta > 0.0
    requires value == (bytes as real - NoProgramBytes(packets, bytes, tcp, resend)) * 8.0 / delta
    ensures Mixed(packets, bytes, tcp, resend, delta) == FloorReal(value)
  {
  }

  lemma RatioBounds(a: int, b: int)
    requires 0 <= a <= b && b > 0
    ensures 0.0 <= ResendRatio(b, a) <= 1.0
  {
    var q := a as real / b as real;
    assert q * b as real == a as real;
    if q < 0.0 {
      assert q * b as real < 0.0;
    }
    if q > 1.0 {
      assert q * b as real > b as real;
    }
  }

  lemma Reorder(x: real, y: real, d: real)
    requires d > 0.0
    ensures x * 8.0 / d * y == x * y * 8.0 / d
  {
    var q := x * 8.0 / d;
    assert q * d == x * 8.0;
    var s := x * y * 8.0 / d;
    assert s * d == x * y * 8.0;
    assert (q * y) * d == (q * d) * y == x * 8.0 * y;
    assert (q * y - s) * d == 0.0;
  }

  /** Retransmits within TCP packets within all packets of at least 66 bytes on average: the estimate lies between zero
      and the upload rate before either clamp acts. */
  lemma EstimateInRange(packets: int, bytes: int, tcp: int, resend: int, delta: real)
    requires packets > 0 && delta > 0.0 && 0 <= resend <= tcp <= packets
    requires bytes as real >= packets as real * TCP_HEADER
    ensures 0.0 <= Estimate(packets, bytes, tcp, resend, delta) <= (bytes as real * 8.0 / delta).Floor as real
  {
    if tcp >= packets {
      FormulasCoincide(packets, bytes, resend, delta);
    }
    assert Estimate(packets, bytes, tcp, resend, delta) == Mixed(packets, bytes, tcp, resend, delta);
    ProgramBytesBounds(packets, bytes, tcp, resend);
    var program := bytes as real - NoProgramBytes(packets, bytes, tcp, resend);
    DivMonotone(0.0, program * 8.0, delta);
    DivMonotone(program * 8.0, bytes as real * 8.0, delta);
    FloorMonotone(0.0, program * 8.0 / delta);
    FloorMonotone(program * 8.0 / delta, bytes as real * 8.0 / delta);
  }

  /** For two samples with such growth neither clamp acts: what is reported is the estimate itself. */
  lemma ClampsAreIdle(pre: Sample, now: Sample, delta: real)
    requires delta > 0.0
    requires var packets := AverageCalc(pre, now, "SendPackets", 1.0);
             var bytes := AverageCalc(pre, now, "SendBytes", 1.0);
             var tcp := AverageCalc(pre, now, "TcpPackets", 1.0);
             var resend := AverageCalc(pre, now, "TcpResendPackets", 1.0);
             0 < packets && 0 <= resend <= tcp <= packets && bytes as real >= packets as real * TCP_HEADER
    ensures ReportedBandwidth(pre, now, delta) ==
            Estimate(AverageCalc(pre, now, "SendPackets", 1.0), AverageCalc(pre, now, "SendBytes", 1.0),
                     AverageCalc(pre, now, "TcpPackets", 1.0), AverageCalc(pre, now, "TcpResendPackets", 1.0), delta)
  {
    var packets := AverageCalc(pre, now, "SendPackets", 1.0);
    var bytes := AverageCalc(pre, now, "SendBytes", 1.0);
    EstimateInRange(packets, bytes, AverageCalc(pre, now, "TcpPackets", 1.0),
                    AverageCalc(pre, now, "TcpResendPackets", 1.0), delta);
    MulNonNegative(packets as real, TCP_HEADER);
    BytesBelowGrowth(pre, now, delta);
  }

  lemma BytesBelowGrowth(pre: Sample, now: Sample, delta: real)
    requires delta > 0.0
    ensures (AverageCalc(pre, now, "SendBytes", 1.0) as real * 8.0 / delta).Floor <=
            AverageCalcBit(pre, now, "SendBytes", delta)
  {
    match Growth(pre, now, "SendBytes")
    case None =>
    case Some(g) =>
      var bytes := (g / 1.0).Floor;
      DivMonotone(bytes as real * 8.0, g * 8.0, delta);
      FloorMonotone(bytes as real * 8.0 / delta, g * 8.0 / delta);
  }

  lemma QuotientSign(x: real, d: real)
    requires d > 0.0
    ensures x / d < 0.0 <==> x < 0.0
  {
    var q := x / d;
    assert q * d == x;
    if q >= 0.0 {
      MulNonNegative(q, d);
    } else {
      NegativeProduct(q, d);
    }
  }

  lemma NegativeProduct(a: real, b: real)
    requires a < 0.0 && b > 0.0
    ensures a * b < 0.0
  {
  }

  lemma FloorSign(x: real)
    ensures FloorReal(x) < 0.0 <==> x < 0.0
  {
  }

  lemma RatioIsOne(tcp: int, resend: int)
    requires tcp > 0
    ensures ResendRatio(tcp, resend) == 1.0 <==> resend == tcp
  {
    var q := resend as real / tcp as real;
    assert q * tcp as real == resend as real;
  }

  lemma MixedSign(packets: int, bytes: int, tcp: int, resend: int, delta: real)
    requires packets > 0 && delta > 0.0
    ensures Mixed(packets, bytes, tcp, resend, delta) < 0.0 <==>
      NoProgramBytes(packets, bytes, tcp, resend) > bytes as real
  {
    var x := (bytes as real - NoProgramBytes(packets, bytes, tcp, resend)) * 8.0;
    QuotientSign(x, delta);
    FloorSign(x / delta);
  }

  lemma ProductSign(a: real, b: real)
    requires b >= 0.0
    ensures a * b < 0.0 <==> a < 0.0 && b > 0.0
  {
    if a >= 0.0 {
      MulNonNegative(a, b);
    } else if b > 0.0 {
      NegativeProduct(a, b);
    }
  }

  lemma TcpOnlySign(packets: int, bytes: int, ratio: real, delta: real)
    requires delta > 0.0
    ensures TcpOnly(packets, bytes, ratio, delta) < 0.0 <==>
            TcpRate(packets, bytes, delta) < 0.0 && ratio != 1.0
  {
    if 0.0 <= ratio <= 1.0 {
      var left := 1.0 - ratio;
      var value := TcpRate(packets, bytes, delta) * left;
      ProductSign(TcpRate(packets, bytes, delta), left);
      TcpOnlyValue(packets, bytes, ratio, delta, value);
      FloorSign(value);
    }
  }

  lemma TcpRateSign(packets: int, bytes: int, delta: real)
    requires delta > 0.0
    ensures TcpRate(packets, bytes, delta) < 0.0 <==> packets as real * TCP_HEADER > bytes as real
  {
    QuotientSign((bytes as real - packets as real * TCP_HEADER) * 8.0, delta);
  }

  /** The lower clamp acts exactly when the headers and resent bytes outweigh the bytes sent. With all packets TCP
      only the headers count, and nothing is below zero when every packet was resent. */
  lemma LowerClampActsExactly(packets: int, bytes: int, tcp: int, resend: int, delta: real)
    requires packets > 0 && delta > 0.0
    ensures Estimate(packets, bytes, tcp, resend, delta) < 0.0 <==>
            if tcp >= packets then packets as real * TCP_HEADER > bytes as real && resend != tcp
            else NoProgramBytes(packets, bytes, tcp, resend) > bytes as real
  {
    if tcp >= packets {
      TcpOnlySign(packets, bytes, ResendRatio(tcp, resend), delta);
      TcpRateSign(packets, bytes, delta);
      RatioIsOne(tcp, resend);
    } else {
      MixedSign(packets, bytes, tcp, resend, delta);
    }
  }

  lemma QuotientAbove(x: real, d: real, u: real)
    requires d > 0.0
    ensures x / d > u <==> x > u * d
    ensures x / d >= u <==> x >= u * d
  {
    var q := x / d;
    assert q * d == x;
    Distributed(q, u, d);
    if q > u {
      MulPositive(q - u, d);
    } else if q < u {
      NegativeProduct(q - u, d);
    }
  }

  lemma MulPositive(a: real, b: real)
    requires a > 0.0 && b > 0.0
    ensures a * b > 0.0
  {
  }

  lemma FloorAtLeast(x: real, n: int)
    ensures x.Floor >= n <==> x >= n as real
  {
    FloorMonotone(n as real, if x >= n as real then x else n as real);
  }

  lemma FloorAbove(x: real, u: int)
    ensures FloorReal(x) > u as real <==> x >= u as real + 1.0
  {
    FloorAtLeast(x, u + 1);
    assert (u + 1) as real == u as real + 1.0;
  }

  /** The condition for the clamp at the upload rate: with other packets, the program bits reach the first whole rate
      above the upload rate; with all packets TCP and more resent than sent, they exceed the rounded upload rate. */
  predicate ExceedsUpload(packets: int, bytes: int, tcp: int, resend: int, delta: real, upload: int)
    requires packets > 0
  {
    if tcp >= packets
    then resend > tcp && (bytes as real - packets as real * TCP_HEADER) * 8.0 > upload as real * delta
    else (bytes as real - NoProgramBytes(packets, bytes, tcp, resend)) * 8.0 >= (upload as real + 1.0) * delta
  }

  lemma MixedAbove(packets: int, bytes: int, tcp: int, resend: int, delta: real, upload: int)
    requires packets > 0 && delta > 0.0
    ensures Mixed(packets, bytes, tcp, resend, delta) > upload as real <==>
      (bytes as real - NoProgramBytes(packets, bytes, tcp, resend)) * 8.0 >= (upload as real + 1.0) * delta
  {
    var x := (bytes as real - NoProgramBytes(packets, bytes, tcp, resend)) * 8.0;
    MixedValue(packets, bytes, tcp, resend, delta, x / delta);
    FloorAbove(x / delta, upload);
    QuotientAbove(x, delta, upload as real + 1.0);
  }

  /** Without headers the rate would be the upload rate. */
  lemma TcpRateBelow(packets: int, bytes: int, delta: real)
    requires packets > 0 && delta > 0.0
    ensures TcpRate(packets, bytes, delta) <= bytes as real * 8.0 / delta
  {
    DivMonotone((bytes as real - packets as real * TCP_HEADER) * 8.0, bytes as real * 8.0, delta);
  }

  lemma ShareBelow(a: real, share: real)
    requires a >= 0.0 && 0.0 <= share <= 1.0
    ensures a * share <= a
  {
    MulNonNegative(1.0 - share, a);
    Distributed(1.0, share, a);
  }

  lemma NonPositiveProduct(a: real, b: real)
    requires a <= 0.0 && b >= 0.0
    ensures a * b <= 0.0
  {
    MulNonNegative(-a, b);
    Distributed(0.0, a, b);
  }

  lemma ShareValue(rate: real, share: real, value: real)
    requires 0.0 <= share <= 1.0 && value == rate * share
    ensures rate >= 0.0 ==> value <= rate
    ensures rate <= 0.0 ==> value <= 0.0
  {
    if rate >= 0.0 {
      ShareBelow(rate, share);
    } else {
      NonPositiveProduct(rate, share);
    }
  }

  lemma FloorAtMost(value: real, rate: real, full: real, upload: int)
    requires (rate >= 0.0 ==> value <= rate) && (rate <= 0.0 ==> value <= 0.0)
    requires rate <= full && full.Floor <= upload && 0 <= upload
    ensures FloorReal(value) <= upload as real
  {
    FloorMonotone(value, if rate >= 0.0 then full else 0.0);
  }

  /** A share of the rate without headers is never above the upload rate. */
  lemma SharedRateBelow(packets: int, bytes: int, ratio: real, delta: real, upload: int)
    requires packets > 0 && delta > 0.0 && 0.0 <= ratio <= 1.0
    requires 0 <= upload && (bytes as real * 8.0 / delta).Floor <= upload
    ensures TcpOnly(packets, bytes, ratio, delta) <= upload as real
  {
    var rate := TcpRate(packets, bytes, delta);
    var value := rate * (1.0 - ratio);
    ShareValue(rate, 1.0 - ratio, value);
    TcpRateBelow(packets, bytes, delta);
    FloorAtMost(value, rate, bytes as real * 8.0 / delta, upload);
    TcpOnlyValue(packets, bytes, ratio, delta, value);
  }

  lemma RatioAbove(tcp: int, resend: int)
    requires tcp > 0 && resend >= 0
    ensures ResendRatio(tcp, resend) >= 0.0
    ensures ResendRatio(tcp, resend) > 1.0 <==> resend > tcp
  {
    QuotientAbove(resend as real, tcp as real, 1.0);
    QuotientAbove(resend as real, tcp as real, 0.0);
  }

  lemma TcpOnlyAbove(packets: int, bytes: int, tcp: int, resend: int, delta: real, upload: int)
    requires 0 < packets <= tcp && resend >= 0 && delta > 0.0
    requires 0 <= upload && (bytes as real * 8.0 / delta).Floor <= upload
    ensures TcpOnly(packets, bytes, ResendRatio(tcp, resend), delta) > upload as real <==>
            ExceedsUpload(packets, bytes, tcp, resend, delta, upload)
  {
    RatioAbove(tcp, resend);
    if resend > tcp {
      QuotientAbove((bytes as real - packets as real * TCP_HEADER) * 8.0, delta, upload as real);
    } else {
      SharedRateBelow(packets, bytes, ResendRatio(tcp, resend), delta, upload);
    }
  }

  lemma EstimateAbove(packets: int, bytes: int, tcp: int, resend: int, delta: real, upload: int)
    requires 0 < packets && resend >= 0 && delta > 0.0
    requires 0 <= upload && (bytes as real * 8.0 / delta).Floor <= upload
    ensures Estimate(packets, bytes, tcp, resend, delta) > upload as real <==>
            ExceedsUpload(packets, bytes, tcp, resend, delta, upload)
  {
    if tcp >= packets {
      TcpOnlyAbove(packets, bytes, tcp, resend, delta, upload);
    } else {
      MixedAbove(packets, bytes, tcp, resend, delta, upload);
    }
  }

  lemma NoProgramNonNegative(packets: int, bytes: int, tcp: int, resend: int)
    requires 0 <= resend <= tcp < packets && bytes >= 0
    ensures NoProgramBytes(packets, bytes, tcp, resend) >= 0.0
  {
    NoProgramValue(packets, bytes, tcp, resend);
    QuotientAbove(bytes as real, packets as real, 0.0);
    MulNonNegative(resend as real, bytes as real / packets as real);
  }

  /** Only counters that say more packets were resent than TCP packets sent can lift the estimate that far. */
  lemma ExceedingNeedsResends(packets: int, bytes: int, tcp: int, resend: int, delta: real, upload: int)
    requires 0 < packets && bytes >= 0 && resend >= 0 && delta > 0.0
    requires (bytes as real * 8.0 / delta).Floor <= upload
    requires ExceedsUpload(packets, bytes, tcp, resend, delta, upload)
    ensures resend > tcp
  {
    if resend <= tcp < packets {
      NoProgramNonNegative(packets, bytes, tcp, resend);
      QuotientAbove(bytes as real * 8.0, delta, upload as real + 1.0);
    }
  }

  lemma CountsNonNegative(pre: Sample, now: Sample, keyword: string, delta: real)
    requires delta > 0.0
    ensures AverageCalc(pre, now, keyword, 1.0) >= 0 && AverageCalcBit(pre, now, keyword, delta) >= 0
  {
    match Growth(pre, now, keyword)
    case None =>
    case Some(g) =>
      QuotientSign(g * 8.0, delta);
  }

  /** The clamp at the upload rate acts exactly under that condition, and never unless more packets were resent than
      TCP packets sent. */
  lemma UpperClampActsExactly(pre: Sample, now: Sample, delta: real)
    requires delta > 0.0
    ensures var packets := AverageCalc(pre, now, "SendPackets", 1.0);
            var bytes := AverageCalc(pre, now, "SendBytes", 1.0);
            var tcp := AverageCalc(pre, now, "TcpPackets", 1.0);
            var resend := AverageCalc(pre, now, "TcpResendPackets", 1.0);
            var upload := AverageCalcBit(pre, now, "SendBytes", delta);
            && (ReportedBandwidth(pre, now, delta) != ProgramBandwidth(pre, now, delta) <==>
                  packets > 0 && ExceedsUpload(packets, bytes, tcp, resend, delta, upload))
            && (ReportedBandwidth(pre, now, delta) != ProgramBandwidth(pre, now, delta) ==> resend > tcp)
  {
    var packets := AverageCalc(pre, now, "SendPackets", 1.0);
    var bytes := AverageCalc(pre, now, "SendBytes", 1.0);
    var tcp := AverageCalc(pre, now, "TcpPackets", 1.0);
    var resend := AverageCalc(pre, now, "TcpResendPackets", 1.0);
    var upload := AverageCalcBit(pre, now, "SendBytes", delta);
    CountsNonNegative(pre, now, "SendBytes", delta);
    CountsNonNegative(pre, now, "TcpResendPackets", delta);
    BytesBelowGrowth(pre, now, delta);
    if packets > 0 {
      EstimateAbove(packets, bytes, tcp, resend, delta, upload);
      if ExceedsUpload(packets, bytes, tcp, resend, delta, upload) {
        ExceedingNeedsResends(packets, bytes, tcp, resend, delta, upload);
      }
    }
  }

  /** Counters on which each branch is lifted above the upload rate: ten resent packets without TCP packets, and
      two resent packets for one sent, in a thousand seconds. */
  lemma ResendsExceedUpload()
    ensures Estimate(2, 100, 0, 10, 1.0) > 800.0 && (100.0 * 8.0 / 1.0).Floor == 800
    ensures 0.0 < Estimate(1, 100, 1, 2, 1000.0) < 1.0 && (100.0 * 8.0 / 1000.0).Floor == 0
  {
    EstimateAbove(2, 100, 0, 10, 1.0, 800);
    EstimateAbove(1, 100, 1, 2, 1000.0, 0);
  }

  // ---------- what is reported, for any two samples ----------

  lemma ReportedInRange(pre: Sample, now: Sample, delta: real)
    requires delta > 0.0
    ensures 0.0 <= ReportedBandwidth(pre, now, delta) <= AverageCalcBit(pre, now, "SendBytes", delta) as real
  {
    CountsNonNegative(pre, now, "SendBytes", delta);
  }

  /** The bytes that are no program's: 66 for the headers of each TCP packet that is not resent, 50 for those of each
      other packet, and the resent share of the TCP bytes. */
  function Overhead(packets: real, bytes: real, tcp: real, resend: real): real
    requires packets > 0.0
  {
    (tcp - resend) * 66.0 + (packets - tcp) * 50.0
    + (if tcp > 0.0 then tcp / packets * bytes * (resend / tcp) else 0.0)
  }

  /** The program bits in a second: of all bytes but headers and resent ones when there are other packets, of all but
      66 bytes a packet when there are not, then without the resent share. */
  function ProgramBits(packets: real, bytes: real, tcp: real, resend: real, delta: real): real
    requires packets > 0.0 && delta > 0.0
  {
    if tcp < packets then (bytes - Overhead(packets, bytes, tcp, resend)) * 8.0 / delta
    else (bytes - packets * 66.0) * 8.0 / delta * (1.0 - resend / tcp)
  }

  lemma OverheadIs(packets: int, bytes: int, tcp: int, resend: int)
    requires packets > 0 && tcp >= 0
    ensures NoProgramBytes(packets, bytes, tcp, resend) ==
            Overhead(packets as real, bytes as real, tcp as real, resend as real)
  {
    if tcp == 0 {
      ZeroShare(tcp as real / packets as real * bytes as real);
    }
  }

  lemma ZeroShare(x: real)
    ensures x * 0.0 == 0.0
  {
  }

  /** As long as no more packets were resent than TCP packets sent, the estimate is the floor of the program bits. */
  lemma EstimateIsFloor(packets: int, bytes: int, tcp: int, resend: int, delta: real)
    requires packets > 0 && 0 <= resend && delta > 0.0
    requires tcp >= packets ==> resend <= tcp
    requires tcp >= 0
    ensures Estimate(packets, bytes, tcp, resend, delta) ==
            ProgramBits(packets as real, bytes as real, tcp as real, resend as real, delta).Floor as real
  {
    if tcp < packets {
      OverheadIs(packets, bytes, tcp, resend);
    } else {
      var ratio := resend as real / tcp as real;
      var rate := (bytes as real - packets as real * 66.0) * 8.0 / delta;
      RatioAbove(tcp, resend);
      assert TcpRate(packets, bytes, delta) == rate;
      var value := rate * (1.0 - ratio);
      TcpOnlyValue(packets, bytes, ratio, delta, value);
      assert ProgramBits(packets as real, bytes as real, tcp as real, resend as real, delta) == value;
    }
  }

  /** With only TCP packets and more of them resent than sent, the resent share is left in and nothing is rounded. */
  lemma EstimateIsRaw(packets: int, bytes: int, tcp: int, resend: int, delta: real)
    requires 0 < packets <= tcp < resend && delta > 0.0
    ensures Estimate(packets, bytes, tcp, resend, delta) == (bytes as real - packets as real * 66.0) * 8.0 / delta
  {
    RatioAbove(tcp, resend);
  }

  /** What is reported for any two samples: nothing without packets; otherwise the estimate, but never below zero nor
      above the upload rate. The estimate is the floor of the program bits in a second, except with only TCP packets
      of which more were resent than sent. */
  lemma ReportedExactly(pre: Sample, now: Sample, delta: real)
    requires delta > 0.0
    ensures 0.0 <= ReportedBandwidth(pre, now, delta) <= AverageCalcBit(pre, now, "SendBytes", delta) as real
    ensures AverageCalc(pre, now, "SendPackets", 1.0) <= 0 ==> ReportedBandwidth(pre, now, delta) == 0.0
    ensures var packets, bytes := AverageCalc(pre, now, "SendPackets", 1.0), AverageCalc(pre, now, "SendBytes", 1.0);
            var tcp, resend := AverageCalc(pre, now, "TcpPackets", 1.0), AverageCalc(pre, now, "TcpResendPackets", 1.0);
            var upload := AverageCalcBit(pre, now, "SendBytes", delta) as real;
      packets > 0 ==>
        var estimate :=
          if packets <= tcp < resend then (bytes as real - packets as real * 66.0) * 8.0 / delta
          else ProgramBits(packets as real, bytes as real, tcp as real, resend as real, delta).Floor as real;
        && (estimate <= 0.0 ==> ReportedBandwidth(pre, now, delta) == 0.0)
        && (0.0 <= estimate <= upload ==> ReportedBandwidth(pre, now, delta) == estimate)
        && (upload <= estimate ==> ReportedBandwidth(pre, now, delta) == upload)
  {
    ReportedInRange(pre, now, delta);
    var packets, bytes := AverageCalc(pre, now, "SendPackets", 1.0), AverageCalc(pre, now, "SendBytes", 1.0);
    var tcp, resend := AverageCalc(pre, now, "TcpPackets", 1.0), AverageCalc(pre, now, "TcpResendPackets", 1.0);
    CountsNonNegative(pre, now, "TcpPackets", delta);
    CountsNonNegative(pre, now, "TcpResendPackets", delta);
    CountsNonNegative(pre, now, "SendBytes", delta);
    if packets > 0 {
      if packets <= tcp < resend {
        EstimateIsRaw(packets, bytes, tcp, resend, delta);
      } else {
        EstimateIsFloor(packets, bytes, tcp, resend, delta);
      }
    }
  }

  lemma WholeFloor(n: int)
    ensures (n as real / 1.0).Floor == n
  {
  }

  /** The growth of a whole-number counter, by the second and in bits; nothing when it is missing or went back. */
  lemma WholeCounters(pre: Sample, now: Sample, keyword: string, a: int, b: int, seconds: int)
    requires seconds > 0
    requires keyword in pre && keyword in now && pre[keyword] == Number(a as real) && now[keyword] == Number(b as real)
    ensures a <= b ==> AverageCalc(pre, now, keyword, 1.0) == b - a
    ensures a <= b ==> AverageCalc(pre, now, keyword, seconds as real) == (b - a) / seconds
    ensures a <= b ==> AverageCalcBit(pre, now, keyword, seconds as real) == (b - a) * 8 / seconds
    ensures b < a ==> AverageCalc(pre, now, keyword, seconds as real) == 0
    ensures b < a ==> AverageCalcBit(pre, now, keyword, seconds as real) == 0
  {
    RateIsAverage(pre, now, a, b, seconds, keyword);
    if a <= b {
      WholeFloor(b - a);
      FloorIsDiv(b - a, seconds);
    }
  }

  lemma MissingCounters(pre: Sample, now: Sample, keyword: string, delta: real)
    requires keyword !in pre || keyword !in now || !pre[keyword].Number? || !now[keyword].Number? || delta <= 0.0
    ensures AverageCalc(pre, now, keyword, delta) == 0 && AverageCalcBit(pre, now, keyword, delta) == 0
  {
  }

  // ---------- telescoping over ticks ----------

  /** Seconds from the zero time that truncation counts from to the Unix epoch. */
  const EPOCH := 62135596800

  function Truncated(now: int, interval: int): int
    requires interval > 0
  {
    now - (now + EPOCH) % interval
  }

  /** The window handed to the processors: the interval before the current one and the current one. */
  function TimeRange(now: int, interval: int): (int, int)
    requires interval > 0
  {
    (Truncated(now, interval) - interval, Truncated(now, interval) + interval)
  }

  /** The two samples a processor compares: the first and the last of the window, if there are two. */
  function Pairing(r: SearchResult): Option<(Timestamp, Timestamp)> {
    if r.Found? && |r.keys| >= 2 then Some((r.keys[0], r.keys[|r.keys| - 1])) else None
  }

  /** The interval a time falls in. */
  lemma AlignedBelow(x: int, interval: int)
    requires interval > 0
    ensures 0 <= x % interval < interval && (x - x % interval) % interval == 0
    ensures (x - x % interval - interval) % interval == 0
  {
    var q := x / interval;
    assert x - x % interval == q * interval;
    MultipleOf(q, interval);
    MultipleOf(q - 1, interval);
    assert q * interval - interval == (q - 1) * interval;
  }

  lemma MultipleOf(q: int, interval: int)
    requires interval > 0
    ensures (q * interval) % interval == 0
  {
    var r := (q * interval) % interval;
    var p := (q * interval) / interval;
    assert q * interval == p * interval + r;
    assert (q - p) * interval == r;
    BigMultiple(q - p, interval);
  }

  lemma BigMultiple(d: int, interval: int)
    requires interval > 0
    ensures d >= 1 ==> d * interval >= interval
    ensures d <= -1 ==> d * interval <= -interval
  {
  }

  /** The window is two intervals long, holds the present in its second half, and starts at a multiple of the interval
      counted from the first day of year 1; so windows of weeks start on Mondays. */
  lemma WindowBounds(now: int, interval: int)
    requires interval > 0
    ensures var (start, end) := TimeRange(now, interval);
      end - start == 2 * interval && end - interval <= now < end && (start + 62135596800) % interval == 0
    ensures TimeRange(0, 7 * 86400) == (-3 * 86400 - 7 * 86400, -3 * 86400 + 7 * 86400)
  {
    AlignedBelow(now + EPOCH, interval);
  }

  function Slot(t: int, interval: int): int
    requires interval > 0
  {
    (t + EPOCH) / interval
  }

  lemma WindowSlots(now: int, interval: int, t: int)
    requires interval > 0
    ensures TimeRange(now, interval).0 <= t < TimeRange(now, interval).1 <==>
            Slot(now, interval) - 1 <= Slot(t, interval) <= Slot(now, interval)
  {
    var k := Slot(now, interval);
    var q := Slot(t, interval);
    assert now + EPOCH == k * interval + (now + EPOCH) % interval;
    assert t + EPOCH == q * interval + (t + EPOCH) % interval;
    assert TimeRange(now, interval) == (k * interval - EPOCH - interval, k * interval - EPOCH + interval);
    if q < k - 1 {
      SlotsApart(q, k - 1, interval);
    } else if q > k {
      SlotsApart(k, q, interval);
    } else {
      assert q == k || q == k - 1;
      assert (k - 1) * interval == k * interval - interval;
    }
  }

  lemma SlotsApart(a: int, b: int, interval: int)
    requires a < b && interval > 0
    ensures a * interval + interval <= b * interval
  {
    var n := b - a - 1;
    NonNegativeProduct(n, interval);
    Distribute(a, n, interval);
  }

  lemma NonNegativeProduct(n: int, m: int)
    requires n >= 0 && m >= 0
    ensures n * m >= 0
  {
  }

  lemma Distribute(a: int, n: int, m: int)
    ensures (a + n + 1) * m == a * m + n * m + m
  {
  }

  /** The samples fall in consecutive intervals, one in each. */
  ghost predicate OnePerSlot(times: seq<Timestamp>, interval: int)
    requires interval > 0
  {
    forall k | 0 < k < |times| :: Slot(times[k], interval) == Slot(times[k - 1], interval) + 1
  }

  lemma {:induction false} SlotOf(times: seq<Timestamp>, interval: int, k: nat)
    requires interval > 0 && OnePerSlot(times, interval) && k < |times|
    ensures Slot(times[k], interval) == Slot(times[0], interval) + k
  {
    if k > 0 {
      SlotOf(times, interval, k - 1);
    }
  }

  /** The store holds samples k - 1 and k, and nothing but samples. */
  ghost predicate HoldsPair(fields: map<Timestamp, string>, times: seq<Timestamp>, k: nat) {
    && 0 < k < |times| && times[k - 1] in fields && times[k] in fields
    && forall t <- fields :: t in times
  }

  /** The answer a processor gets when it runs at the given time. */
  ghost predicate IsTickAnswer(r: SearchResult, fields: map<Timestamp, string>, now: int, interval: int)
    requires interval > 0
  {
    var (start, end) := TimeRange(now, interval);
    INT64_MIN <= start && end <= INT64_MAX && IsAnswer(r, fields, start, end)
  }

  /** The tick that follows sample k in its interval compares exactly samples k - 1 and k. */
  lemma TickPairsNeighbours(times: seq<Timestamp>, fields: map<Timestamp, string>, interval: int, k: nat, now: int,
                            r: SearchResult)
    requires interval > 0 && OnePerSlot(times, interval) && HoldsPair(fields, times, k)
    requires Slot(now, interval) == Slot(times[k], interval) && IsTickAnswer(r, fields, now, interval)
    ensures Pairing(r) == Some((times[k - 1], times[k]))
    ensures times[k - 1] < times[k]
    ensures times[k - 1] in r.values && r.values[times[k - 1]] == fields[times[k - 1]]
    ensures times[k] in r.values && r.values[times[k]] == fields[times[k]]
  {
    forall t <- fields
      ensures TimeRange(now, interval).0 <= t < TimeRange(now, interval).1 <==> t == times[k - 1] || t == times[k]
    {
      var j :| 0 <= j < |times| && times[j] == t;
      InWindow(times, interval, k, j, now);
    }
    SlotsOrder(times[k - 1], times[k], interval);
    assert times[k - 1] in r.keys && times[k] in r.keys;
    AscendingUnique(r.keys, [times[k - 1], times[k]]);
  }

  /** Of all samples only k - 1 and k are in the window of the tick after sample k. */
  lemma InWindow(times: seq<Timestamp>, interval: int, k: nat, j: nat, now: int)
    requires interval > 0 && OnePerSlot(times, interval) && 0 < k < |times| && j < |times|
    requires Slot(now, interval) == Slot(times[k], interval)
    ensures TimeRange(now, interval).0 <= times[j] < TimeRange(now, interval).1 <==>
            times[j] == times[k - 1] || times[j] == times[k]
  {
    SlotOf(times, interval, j);
    SlotOf(times, interval, k);
    SlotOf(times, interval, k - 1);
    WindowSlots(now, interval, times[j]);
  }

  lemma SlotsOrder(a: int, b: int, interval: int)
    requires interval > 0 && Slot(a, interval) < Slot(b, interval)
    ensures a < b
  {
    SlotsApart(Slot(a, interval), Slot(b, interval), interval);
    assert a + EPOCH == Slot(a, interval) * interval + (a + EPOCH) % interval;
    assert b + EPOCH == Slot(b, interval) * interval + (b + EPOCH) % interval;
  }

  /** The rate reported at tick k for a whole-number counter, in bits per second. */
  function Rate(pre: int, now: int, seconds: int): int
    requires seconds > 0
  {
    if now < pre then 0 else (now - pre) * 8 / seconds
  }

  /** The rate is the one the processor computes from two samples of the counter. */
  lemma RateIsAverage(pre: Sample, now: Sample, a: int, b: int, seconds: int, keyword: string)
    requires seconds > 0 && keyword in pre && keyword in now
    requires pre[keyword] == Number(a as real) && now[keyword] == Number(b as real)
    ensures AverageCalcBit(pre, now, keyword, seconds as real) == Rate(a, b, seconds)
  {
    if b >= a {
      FloorIsDiv((b - a) * 8, seconds);
    }
  }

  lemma FloorIsDiv(a: int, b: int)
    requires a >= 0 && b > 0
    ensures (a as real / b as real).Floor == a / b
  {
    var q, r := a / b, a % b;
    assert a == q * b + r && 0 <= r < b;
    var x := a as real / b as real;
    assert x * b as real == a as real;
    assert (x - q as real) * b as real == r as real;
    FractionBelowOne(x - q as real, b as real, r as real);
    FloorUnique(x, q);
  }

  lemma FractionBelowOne(f: real, d: real, r: real)
    requires d > 0.0 && f * d == r && 0.0 <= r < d
    ensures 0.0 <= f < 1.0
  {
    if f < 0.0 {
      MulNonNegative(-f, d);
    }
    if f >= 1.0 {
      MulNonNegative(f - 1.0, d);
    }
    assert f == r / d;
  }

  lemma FloorUnique(x: real, q: int)
    requires q as real <= x < q as real + 1.0
    ensures x.Floor == q
  {
  }

  /** Rate times elapsed seconds, summed over the ticks after the first sample. */
  function Accounted(times: seq<int>, counter: seq<int>): int
    requires |times| == |counter|
    requires forall k | 0 < k < |times| :: times[k - 1] < times[k]
  {
    if |times| <= 1 then 0
    else
      var n := |times| - 1;
      var seconds := DeltaTime(times[n - 1], times[n]);
      Accounted(times[..n], counter[..n]) + Rate(counter[n - 1], counter[n], seconds) * seconds
  }

  lemma DivLoss(x: int, d: int)
    requires d > 0
    ensures x - d < x / d * d <= x
  {
  }

  /** For a counter that never goes back, over any number of ticks the reported rates account for no more than the bits
      sent, and miss less than one bit per elapsed second. */
  lemma {:induction false} RatesTelescope(times: seq<int>, counter: seq<int>)
    requires |times| == |counter| && |times| >= 1
    requires forall k | 0 < k < |times| :: times[k - 1] < times[k]
    requires forall k | 0 < k < |counter| :: counter[k - 1] <= counter[k]
    ensures var n := |times| - 1;
      var sent, elapsed := (counter[n] - counter[0]) * 8, times[n] - times[0];
      Accounted(times, counter) <= sent
      && (n > 0 ==> sent - elapsed < Accounted(times, counter))
  {
    if |times| > 1 {
      var n := |times| - 1;
      RatesTelescope(times[..n], counter[..n]);
      var seconds := DeltaTime(times[n - 1], times[n]);
      assert seconds == times[n] - times[n - 1];
      DivLoss((counter[n] - counter[n - 1]) * 8, seconds);
    }
  }

  // ---------- ticks over a run of the store ----------

  const TIMESTAMP := "timestamp"

  function SampleTime(s: Sample): int {
    if TIMESTAMP in s && s[TIMESTAMP].Number? then s[TIMESTAMP].n.Floor else 0
  }

  /** The bits two samples account for: the rate that is reported times the seconds between them. */
  function SampleBits(pre: Sample, now: Sample, keyword: string): int {
    var seconds := DeltaTime(SampleTime(pre), SampleTime(now));
    AverageCalcBit(pre, now, keyword, seconds as real) * seconds
  }

  /** The bits a tick accounts for, given the answer to its query. */
  function TickBits(r: SearchResult, decode: string -> Sample, keyword: string): int {
    match Pairing(r)
    case None => 0
    case Some((first, last)) =>
      if first !in r.values || last !in r.values then 0
      else SampleBits(decode(r.values[first]), decode(r.values[last]), keyword)
  }

  /** The stored text is a sample of the counter that carries its own time. */
  predicate IsSample(s: Sample, time: int, count: int, keyword: string) {
    && TIMESTAMP in s && s[TIMESTAMP] == Number(time as real)
    && keyword in s && s[keyword] == Number(count as real)
  }

  /** The rate between two times, taken over the seconds between them. */
  function RateBits(a: int, b: int, t: int, u: int): int
    requires t < u
  {
    Rate(a, b, u - t) * (u - t)
  }

  lemma SamplesAccount(pre: Sample, now: Sample, t: int, u: int, a: int, b: int, keyword: string)
    requires t < u && IsSample(pre, t, a, keyword) && IsSample(now, u, b, keyword)
    ensures SampleBits(pre, now, keyword) == RateBits(a, b, t, u)
  {
    RateIsAverage(pre, now, a, b, u - t, keyword);
  }

  /** One run of a processor: the answer to its query, what the store held of the item, and the time. */
  datatype Tick = Tick(answer: SearchResult, fields: map<Timestamp, string>, now: int)

  /** The samples of one counter, one in each interval. */
  datatype Series = Series(times: seq<Timestamp>, counter: seq<int>, interval: int, keyword: string) {
    ghost predicate IsGrowing() {
      && |times| == |counter| && interval > 0 && OnePerSlot(times, interval)
      && forall k | 0 < k < |counter| :: counter[k - 1] <= counter[k]
    }
  }

  function TotalBits(ticks: seq<Tick>, decode: string -> Sample, keyword: string): int {
    if |ticks| == 0 then 0
    else TotalBits(ticks[..|ticks| - 1], decode, keyword) + TickBits(ticks[|ticks| - 1].answer, decode, keyword)
  }

  /** The tick follows sample k in its interval, and the store holds that sample and the one before it. */
  ghost predicate FollowsSample(tick: Tick, series: Series, k: nat, decode: string -> Sample)
    requires series.IsGrowing()
  {
    && HoldsPair(tick.fields, series.times, k)
    && Slot(tick.now, series.interval) == Slot(series.times[k], series.interval)
    && IsTickAnswer(tick.answer, tick.fields, tick.now, series.interval)
    && IsSample(decode(tick.fields[series.times[k - 1]]), series.times[k - 1], series.counter[k - 1], series.keyword)
    && IsSample(decode(tick.fields[series.times[k]]), series.times[k], series.counter[k], series.keyword)
  }

  lemma TickAccounts(tick: Tick, series: Series, k: nat, decode: string -> Sample)
    requires series.IsGrowing() && FollowsSample(tick, series, k, decode)
    ensures var t, u := series.times[k - 1], series.times[k];
      && t < u
      && TickBits(tick.answer, decode, series.keyword) == RateBits(series.counter[k - 1], series.counter[k], t, u)
  {
    var t, u := series.times[k - 1], series.times[k];
    TickPairsNeighbours(series.times, tick.fields, series.interval, k, tick.now, tick.answer);
    SamplesAccount(decode(tick.fields[t]), decode(tick.fields[u]), t, u, series.counter[k - 1], series.counter[k],
                   series.keyword);
  }

  lemma SlotsAscend(series: Series)
    requires series.IsGrowing()
    ensures forall k | 0 < k < |series.times| :: series.times[k - 1] < series.times[k]
  {
    forall k | 0 < k < |series.times| ensures series.times[k - 1] < series.times[k] {
      SlotsOrder(series.times[k - 1], series.times[k], series.interval);
    }
  }

  /** One tick for each sample after the first. */
  ghost predicate FollowAll(ticks: seq<Tick>, series: Series, decode: string -> Sample)
    requires series.IsGrowing()
  {
    && |series.times| == |ticks| + 1
    && forall i | 0 <= i < |ticks| :: FollowsSample(ticks[i], series, i + 1, decode)
  }

  /** The bits accounted for by the rates between neighbouring samples, up to sample n. */
  function Expected(series: Series, n: nat): int
    requires series.IsGrowing() && n < |series.times|
  {
    SlotsAscend(series);
    Accounted(series.times[..n + 1], series.counter[..n + 1])
  }

  lemma ExpectedStep(series: Series, n: nat)
    requires series.IsGrowing() && 0 < n < |series.times|
    ensures var t, u := series.times[n - 1], series.times[n];
      && t < u
      && Expected(series, n) == Expected(series, n - 1)
           + RateBits(series.counter[n - 1], series.counter[n], t, u)
  {
    SlotsAscend(series);
    assert series.times[..n + 1][..n] == series.times[..n] && series.counter[..n + 1][..n] == series.counter[..n];
  }

  lemma TotalStep(ticks: seq<Tick>, decode: string -> Sample, keyword: string, n: nat)
    requires 0 < n <= |ticks|
    ensures TotalBits(ticks[..n], decode, keyword) ==
            TotalBits(ticks[..n - 1], decode, keyword) + TickBits(ticks[n - 1].answer, decode, keyword)
  {
    assert ticks[..n][..n - 1] == ticks[..n - 1];
  }

  lemma {:induction false} TicksAccount(ticks: seq<Tick>, series: Series, decode: string -> Sample, n: nat)
    requires series.IsGrowing() && FollowAll(ticks, series, decode) && n <= |ticks|
    ensures TotalBits(ticks[..n], decode, series.keyword) == Expected(series, n)
  {
    if n > 0 {
      TicksAccount(ticks, series, decode, n - 1);
      TickAccounts(ticks[n - 1], series, n, decode);
      ExpectedStep(series, n);
      TotalStep(ticks, decode, series.keyword, n);
    }
  }

  /** Over any number of ticks, each answered from the store as it is then, the rates that are reported account for
      no more than the bits sent, and miss less than one bit per elapsed second. */
  lemma TicksTelescope(ticks: seq<Tick>, series: Series, decode: string -> Sample)
    requires series.IsGrowing() && FollowAll(ticks, series, decode)
    ensures var n := |ticks|;
      var sent, elapsed := (series.counter[n] - series.counter[0]) * 8, series.times[n] as int - series.times[0];
      && TotalBits(ticks, decode, series.keyword) <= sent
      && (n > 0 ==> sent - elapsed < TotalBits(ticks, decode, series.keyword))
  {
    TicksAccount(ticks, series, decode, |ticks|);
    assert ticks[..|ticks|] == ticks;
    ExpectedBounds(series);
  }

  lemma ExpectedBounds(series: Series)
    requires series.IsGrowing() && |series.times| >= 1
    ensures var n := |series.times| - 1;
      var sent, elapsed := (series.counter[n] - series.counter[0]) * 8, series.times[n] as int - series.times[0];
      Expected(series, n) <= sent && (n > 0 ==> sent - elapsed < Expected(series, n))
  {
    var n := |series.times| - 1;
    SlotsAscend(series);
    assert series.times[..n + 1] == series.times && series.counter[..n + 1] == series.counter;
    RatesTelescope(series.times, series.counter);
  }

  /** One run of a processor at a point of a run of the store: after how many operations, and the answer. */
  datatype RunTick = RunTick(answer: SearchResult, at: nat, now: int)

  /** The log holds the sample. */
  predicate Logs(ops: seq<Runs.Op>, item: string, time: Timestamp, count: int, decode: string -> Sample,
                 keyword: string)
  {
    var text := Runs.FirstAdded(ops, item, time);
    text.Some? && IsSample(decode(text.value), time, count, keyword)
  }

  /** The query of the tick is made in the interval of sample k, under the indicator of the item's last add, when the
      log holds samples k - 1 and k and nothing but samples. */
  ghost predicate FollowsLogged(tick: RunTick, db: Buckets, ops: seq<Runs.Op>, item: string, indicator: string,
                                series: Series, k: nat, decode: string -> Sample)
    requires series.IsGrowing()
  {
    var (start, end) := TimeRange(tick.now, series.interval);
    && 0 < k < |series.times| && Slot(tick.now, series.interval) == Slot(series.times[k], series.interval)
    && tick.at <= |ops| && INT64_MIN <= start && end <= INT64_MAX && tick.answer != NotFound
    && Runs.IsQueryAnswer(tick.answer, Runs.After(db, ops[..tick.at]).cache, item, indicator, start, end)
    && (forall t: Timestamp :: Runs.FirstAdded(ops[..tick.at], item, t).Some? ==> t in series.times)
    && Logs(ops[..tick.at], item, series.times[k - 1], series.counter[k - 1], decode, series.keyword)
    && Logs(ops[..tick.at], item, series.times[k], series.counter[k], decode, series.keyword)
  }

  function FieldsOf(db: Buckets, ops: seq<Runs.Op>, item: string): map<Timestamp, string> {
    var cache := Runs.After(db, ops).cache;
    if item in cache then cache[item].fields else map[]
  }

  lemma LoggedFields(db: Buckets, ops: seq<Runs.Op>, item: string)
    ensures forall t: Timestamp :: t in FieldsOf(db, ops, item) <==> Runs.FirstAdded(ops, item, t).Some?
    ensures forall t <- FieldsOf(db, ops, item) :: Runs.FirstAdded(ops, item, t) == Some(FieldsOf(db, ops, item)[t])
  {
    forall t: Timestamp ensures Runs.Cached(Runs.After(db, ops), item, t) == Runs.FirstAdded(ops, item, t) {
      Runs.CacheIsFirstAdded(db, ops, item, t);
    }
  }

  function StoreTick(tick: RunTick, db: Buckets, ops: seq<Runs.Op>, item: string): Tick {
    Tick(tick.answer, if tick.at <= |ops| then FieldsOf(db, ops[..tick.at], item) else map[], tick.now)
  }

  lemma LoggedIsTick(tick: RunTick, db: Buckets, ops: seq<Runs.Op>, item: string, indicator: string,
                     series: Series, k: nat, decode: string -> Sample)
    requires series.IsGrowing() && FollowsLogged(tick, db, ops, item, indicator, series, k, decode)
    ensures FollowsSample(StoreTick(tick, db, ops, item), series, k, decode)
  {
    LoggedFields(db, ops[..tick.at], item);
  }

  function RunBits(ticks: seq<RunTick>, decode: string -> Sample, keyword: string): int {
    if |ticks| == 0 then 0
    else RunBits(ticks[..|ticks| - 1], decode, keyword) + TickBits(ticks[|ticks| - 1].answer, decode, keyword)
  }

  function StoreTicks(ticks: seq<RunTick>, db: Buckets, ops: seq<Runs.Op>, item: string): seq<Tick> {
    seq(|ticks|, i requires 0 <= i < |ticks| => StoreTick(ticks[i], db, ops, item))
  }

  lemma {:induction false} SameBits(ticks: seq<RunTick>, db: Buckets, ops: seq<Runs.Op>, item: string,
                                    decode: string -> Sample, keyword: string)
    ensures RunBits(ticks, decode, keyword) == TotalBits(StoreTicks(ticks, db, ops, item), decode, keyword)
  {
    if |ticks| > 0 {
      var n := |ticks| - 1;
      SameBits(ticks[..n], db, ops, item, decode, keyword);
      assert StoreTicks(ticks, db, ops, item)[..n] == StoreTicks(ticks[..n], db, ops, item);
    }
  }

  /** The same over any run of adds, cache sweeps and expiry, in terms of what was logged when each tick ran. */
  lemma RunsTelescope(ticks: seq<RunTick>, db: Buckets, ops: seq<Runs.Op>, item: string, indicator: string,
                      series: Series, decode: string -> Sample)
    requires series.IsGrowing() && |series.times| == |ticks| + 1
    requires forall i | 0 <= i < |ticks| :: FollowsLogged(ticks[i], db, ops, item, indicator, series, i + 1, decode)
    ensures var n := |ticks|;
      var sent, elapsed := (series.counter[n] - series.counter[0]) * 8, series.times[n] as int - series.times[0];
      && RunBits(ticks, decode, series.keyword) <= sent
      && (n > 0 ==> sent - elapsed < RunBits(ticks, decode, series.keyword))
  {
    var stored := StoreTicks(ticks, db, ops, item);
    forall i | 0 <= i < |stored| ensures FollowsSample(stored[i], series, i + 1, decode) {
      LoggedIsTick(ticks[i], db, ops, item, indicator, series, i + 1, decode);
    }
    TicksTelescope(stored, series, decode);
    SameBits(ticks, db, ops, item, decode, series.keyword);
  }
}
