/**
 * The dashboard's aggregate calculator (frontend/src/App.jsx, top of file):
 * pure functions over a newest-first list of health-check records.
 * Latencies are exact reals in seconds; the IEEE-754 behaviour of the
 * browser's numbers is not modelled.
 */
module Metrics {
  import opened Common
  import opened Text

  /** A health-check record as the history endpoint delivers it (timestamps as integers). */
  datatype CheckRecord = CheckRecord(status: Status, statusCode: int, latency: real, checkedAt: int)

  /** `x.status === "UP"`. */
  predicate IsUp(r: CheckRecord) { r.status == Up }

  /** Math.round: the nearest integer, halves rounded toward +infinity. */
  function MathRound(x: real): (n: int)
    ensures x - 0.5 < n as real <= x + 0.5
  {
    (x + 0.5).Floor
  }

  /**
   * The integer k such that x.toFixed(d) prints k / scale, scale = 10^d:
   * the nearest multiple, a tie taking the larger magnitude.
   */
  function ToFixedUnits(x: real, scale: nat): (k: int)
    requires scale > 0
    ensures x >= 0.0 ==> k >= 0 && x * scale as real - 0.5 < k as real <= x * scale as real + 0.5
    ensures x < 0.0 ==> k <= 0 && x * scale as real - 0.5 <= k as real < x * scale as real + 0.5
  {
    if x < 0.0 then -MathRound(-x * scale as real) else MathRound(x * scale as real)
  }

  // ---------------------------------------------------------------- fmtMs

  /** fmtMs: below one second, whole milliseconds; otherwise seconds with two decimals. */
  function FmtMs(s: real): (r: string)
    ensures |r| >= 3 && r[|r| - 1] == 's'
    ensures r[|r| - 2] == 'm' <==> s < 1.0
  {
    if s < 1.0 then
      IntToString(MathRound(s * 1000.0)) + "ms"
    else
      var h: nat := ToFixedUnits(s, 100);
      NatToString(h / 100) + "." + [DigitChar(h / 10 % 10), DigitChar(h % 10)] + "s"
  }

  /** What a latency shown denotes: a count of milliseconds or of hundredths of a second. */
  datatype LatencyLabel = Millis(ms: int) | Hundredths(cs: nat)

  /** Reads back a shown of the two shapes FmtMs produces. */
  function ParseLatencyLabel(shown: string): Option<LatencyLabel>
  {
    var n := |shown|;
    if n >= 2 && shown[n - 2..] == "ms" then
      match ParseInt(shown[..n - 2])
      case Some(v) => Some(Millis(v))
      case None => None
    else if n >= 5 && shown[n - 1] == 's' && shown[n - 4] == '.'
         && IsDigit(shown[n - 3]) && IsDigit(shown[n - 2]) then
      match ParseNat(shown[..n - 4])
      case Some(w) => Some(Hundredths(w * 100 + DigitValue(shown[n - 3]) * 10 + DigitValue(shown[n - 2])))
      case None => None
    else
      None
  }

  /**
   * fmtMs round-trips: the shown reads back as round(s * 1000) milliseconds
   * exactly when s < 1, and as s rounded to hundredths of a second otherwise.
   */
  lemma FmtMsRoundTrip(s: real)
    ensures ParseLatencyLabel(FmtMs(s))
         == if s < 1.0 then Some(Millis(MathRound(s * 1000.0))) else Some(Hundredths(ToFixedUnits(s, 100)))
  {
    if s < 1.0 {
      MillisReadBack(s);
    } else {
      SecondsReadBack(s);
    }
  }

  lemma MillisReadBack(s: real)
    requires s < 1.0
    ensures ParseLatencyLabel(FmtMs(s)) == Some(Millis(MathRound(s * 1000.0)))
  {
    var shown := FmtMs(s);
    var n := |shown|;
    var m := IntToString(MathRound(s * 1000.0));
    IntToStringRoundTrip(MathRound(s * 1000.0));
    assert shown == m + "ms";
    assert shown[n - 2..] == "ms";
    assert shown[..n - 2] == m;
  }

  lemma SecondsReadBack(s: real)
    requires s >= 1.0
    ensures ParseLatencyLabel(FmtMs(s)) == Some(Hundredths(ToFixedUnits(s, 100)))
  {
    var shown := FmtMs(s);
    var n := |shown|;
    var h: nat := ToFixedUnits(s, 100);
    var w := NatToString(h / 100);
    NatToStringRoundTrip(h / 100);
    assert shown == w + ['.', DigitChar(h / 10 % 10), DigitChar(h % 10), 's'];
    assert shown[n - 2] == DigitChar(h % 10);
    assert IsDigit(shown[n - 3]);
    assert shown[n - 2..] != "ms" by { assert shown[n - 2] != 'm'; }
    assert shown[..n - 4] == w;
    assert DigitValue(shown[n - 3]) == h / 10 % 10;
    assert DigitValue(shown[n - 2]) == h % 10;
  }

  /** The unit of the shown is decided by `s < 1` alone. */
  lemma FmtMsUnit(s: real)
    ensures var l := FmtMs(s); (|l| >= 2 && l[|l| - 2..] == "ms") <==> s < 1.0
  {
    FmtMsRoundTrip(s);
  }

  // ------------------------------------------------------------ uptimePct

  /** `h.filter(x => x.status === "UP")`. */
  function UpRecords(h: seq<CheckRecord>): (r: seq<CheckRecord>)
    ensures |r| <= |h|
    ensures forall i :: 0 <= i < |r| ==> IsUp(r[i])
  {
    if |h| == 0 then [] else (if IsUp(h[0]) then [h[0]] else []) + UpRecords(h[1..])
  }

  /** The filter keeps exactly the UP records. */
  lemma {:induction false} UpRecordsMembers(h: seq<CheckRecord>)
    ensures forall x :: x in UpRecords(h) <==> x in h && IsUp(x)
  {
    if |h| > 0 {
      UpRecordsMembers(h[1..]);
      assert h == [h[0]] + h[1..];
    }
  }

  /** A list of UP records passes the filter unchanged. */
  lemma {:induction false} UpRecordsOfAllUp(h: seq<CheckRecord>)
    requires forall i :: 0 <= i < |h| ==> IsUp(h[i])
    ensures UpRecords(h) == h
  {
    if |h| > 0 {
      UpRecordsOfAllUp(h[1..]);
      assert [h[0]] + h[1..] == h;
    }
  }

  lemma {:induction false} UpRecordsAllUp(h: seq<CheckRecord>)
    ensures (forall i :: 0 <= i < |h| ==> IsUp(h[i])) <==> |UpRecords(h)| == |h|
  {
    if |h| > 0 {
      UpRecordsAllUp(h[1..]);
      assert forall i :: 1 <= i < |h| ==> h[1..][i - 1] == h[i];
    }
  }

  /** The filter distributes over concatenation: it keeps each record in place and as often as it occurs. */
  lemma {:induction false} UpRecordsAppend(a: seq<CheckRecord>, b: seq<CheckRecord>)
    ensures UpRecords(a + b) == UpRecords(a) + UpRecords(b)
  {
    if |a| == 0 {
      assert a + b == b;
    } else {
      assert (a + b)[0] == a[0];
      assert (a + b)[1..] == a[1..] + b;
      UpRecordsAppend(a[1..], b);
    }
  }

  /** Each UP record occurs in the filter as often as in the history, and a DOWN record not at all. */
  lemma {:induction false} UpRecordsCount(h: seq<CheckRecord>, x: CheckRecord)
    ensures multiset(UpRecords(h))[x] == if IsUp(x) then multiset(h)[x] else 0
  {
    if |h| > 0 {
      UpRecordsCount(h[1..], x);
      assert h == [h[0]] + h[1..];
    }
  }

  lemma UpRecordsEmptyIff(h: seq<CheckRecord>)
    ensures |UpRecords(h)| == 0 <==> forall i :: 0 <= i < |h| ==> !IsUp(h[i])
  {
    UpRecordsMembers(h);
    var up := UpRecords(h);
    if |up| > 0 {
      assert up[0] in up;
    }
    forall i | 0 <= i < |h| && IsUp(h[i]) ensures |up| > 0 {
      assert h[i] in up;
    }
  }

  lemma MulLe(c: nat, a: int, b: int)
    requires a <= b
    ensures c * a <= c * b
  {
  }

  /**
   * The nearest integer to num / den, a tie going up: what toFixed prints
   * (scaled) for the non-negative exact ratio num / den.
   */
  function RoundRatio(num: nat, den: nat): (k: nat)
    requires den > 0
    ensures 2 * num < 2 * den * k + den
    ensures 2 * den * k <= 2 * num + den
  {
    var q := (2 * num + den) / (2 * den);
    assert 2 * den * q + (2 * num + den) % (2 * den) == 2 * num + den;
    q
  }

  /**
   * uptimePct as the number its `((up / n) * 100).toFixed(1)` string
   * denotes, in tenths of a percent: null for an empty history, else
   * 100 * #UP / total rounded to one decimal.
   */
  function UptimePct(h: seq<CheckRecord>): (r: Option<int>)
    ensures r.None? <==> |h| == 0
    ensures r.Some? ==> 0 <= r.value <= 1000
    ensures r.Some? ==> var up := |UpRecords(h)|;
      2000 * up < 2 * |h| * r.value + |h| && 2 * |h| * r.value <= 2000 * up + |h|
  {
    if |h| == 0 then None
    else
      var up, n := |UpRecords(h)|, |h|;
      var k := RoundRatio(1000 * up, n);
      assert k <= 1000 by {
        if k > 1000 { MulLe(2 * n, 1001, k); }
      }
      Some(k)
  }

  /** For histories shorter than 2000 records, 100.0 is shown exactly when every record is UP. */
  lemma UptimeFullIffAllUp(h: seq<CheckRecord>)
    requires 0 < |h| < 2000
    ensures UptimePct(h) == Some(1000) <==> forall i :: 0 <= i < |h| ==> IsUp(h[i])
  {
    UpRecordsAllUp(h);
    var up, n, k := |UpRecords(h)|, |h|, UptimePct(h).value;
    if k == 1000 { assert 2 * n * k == 2000 * n; }
    if up == n && k < 1000 { MulLe(2 * n, k, 999); }
  }

  /** For histories of at most 2000 records, 0.0 is shown exactly when no record is UP. */
  lemma UptimeZeroIffNoneUp(h: seq<CheckRecord>)
    requires 0 < |h| <= 2000
    ensures UptimePct(h) == Some(0) <==> forall i :: 0 <= i < |h| ==> !IsUp(h[i])
  {
    UpRecordsEmptyIff(h);
    var up, n, k := |UpRecords(h)|, |h|, UptimePct(h).value;
    if k == 0 { assert 2 * n * k == 0; }
    if up == 0 && k > 0 { MulLe(2 * n, 1, k); }
  }

  // ----------------------------------------------------------- avgLatency

  /** `up.reduce((a, x) => a + x.latency, 0)`: a left-to-right sum. */
  function SumLatency(h: seq<CheckRecord>): real
  {
    if |h| == 0 then 0.0 else SumLatency(h[..|h| - 1]) + h[|h| - 1].latency
  }

  /** The left-to-right sum equals the sum taken from the front: the first latency plus the sum of the rest. */
  lemma {:induction false} SumLatencyFromFront(h: seq<CheckRecord>)
    requires |h| > 0
    ensures SumLatency(h) == h[0].latency + SumLatency(h[1..])
  {
    if |h| == 1 {
      assert h[1..] == [];
    } else {
      var init := h[..|h| - 1];
      SumLatencyFromFront(init);
      assert init[1..] == h[1..][..|h| - 2];
    }
  }

  /** avgLatency: null when no record is UP, else the mean latency of the UP records. */
  function AvgLatency(h: seq<CheckRecord>): (r: Option<real>)
    ensures r.None? <==> forall i :: 0 <= i < |h| ==> !IsUp(h[i])
  {
    var up := UpRecords(h);
    UpRecordsEmptyIff(h);
    if |up| == 0 then
      None
    else
      Some(SumLatency(up) / |up| as real)
  }

  lemma {:induction false} SumLatencyBounds(h: seq<CheckRecord>, lo: real, hi: real)
    requires forall i :: 0 <= i < |h| ==> lo <= h[i].latency <= hi
    ensures lo * |h| as real <= SumLatency(h) <= hi * |h| as real
  {
    if |h| > 0 {
      SumLatencyBounds(h[..|h| - 1], lo, hi);
    }
  }

  lemma MeanBounds(sum: real, n: real, lo: real, hi: real)
    requires n > 0.0 && lo * n <= sum <= hi * n
    ensures lo <= sum / n <= hi
  {
    var a := sum / n;
    DivMul(sum, n);
    if a < lo { MulMonotoneStrict(a, lo, n); }
    if a > hi { MulMonotoneStrict(hi, a, n); }
  }

  lemma DivMul(a: real, b: real)
    requires b > 0.0
    ensures (a / b) * b == a
  {
  }

  lemma MulMonotoneStrict(a: real, b: real, c: real)
    requires a < b && c > 0.0
    ensures a * c < b * c
  {
  }

  /** The mean lies between the smallest and the largest latency of the UP records. */
  lemma AvgLatencyBounds(h: seq<CheckRecord>, lo: real, hi: real)
    requires forall i :: 0 <= i < |h| && IsUp(h[i]) ==> lo <= h[i].latency <= hi
    ensures AvgLatency(h).Some? ==> lo <= AvgLatency(h).value <= hi
  {
    var up := UpRecords(h);
    if |up| > 0 {
      var sum, n := SumLatency(up), |up| as real;
      assert lo * n <= sum <= hi * n by {
        UpLatenciesWithin(h, lo, hi);
        SumLatencyBounds(up, lo, hi);
      }
      MeanBounds(sum, n, lo, hi);
      assert AvgLatency(h) == Some(sum / n);
    }
  }

  lemma UpLatenciesWithin(h: seq<CheckRecord>, lo: real, hi: real)
    requires forall i :: 0 <= i < |h| && IsUp(h[i]) ==> lo <= h[i].latency <= hi
    ensures forall i :: 0 <= i < |UpRecords(h)| ==> lo <= UpRecords(h)[i].latency <= hi
  {
    var up := UpRecords(h);
    UpRecordsMembers(h);
    forall i | 0 <= i < |up| ensures lo <= up[i].latency <= hi {
      assert up[i] in up;
    }
  }

  /** The mean times the number of UP records gives back their total latency. */
  lemma AvgLatencyIsMean(h: seq<CheckRecord>)
    ensures AvgLatency(h).Some? ==>
      AvgLatency(h).value * |UpRecords(h)| as real == SumLatency(UpRecords(h))
  {
    var up := UpRecords(h);
    if |up| > 0 {
      var sum, n := SumLatency(up), |up| as real;
      assert AvgLatency(h) == Some(sum / n);
      DivMul(sum, n);
    }
  }

  /** DOWN records do not affect the mean: it is that of the UP records alone. */
  lemma AvgLatencyIgnoresDown(h: seq<CheckRecord>)
    ensures AvgLatency(h) == AvgLatency(UpRecords(h))
  {
    UpRecordsOfAllUp(UpRecords(h));
  }

  /** The two-record example: UP at 0.5 s and UP at 1.5 s average to 1.0 s. */
  lemma AvgLatencyExample()
    ensures AvgLatency([CheckRecord(Up, 200, 0.5, 2), CheckRecord(Up, 200, 1.5, 1)]) == Some(1.0)
  {
    var h := [CheckRecord(Up, 200, 0.5, 2), CheckRecord(Up, 200, 1.5, 1)];
    UpRecordsOfAllUp(h);
    assert h[..1] == [h[0]];
    assert SumLatency(h) == 2.0;
  }

  // ---------------------------------------------------------- uptimeColor

  datatype Color = Green | Amber | Red

  /**
   * uptimeColor, for an uptime in tenths of a percent: null only for null,
   * otherwise the band whose inclusive lower bound the value reaches.
   */
  function UptimeColor(pct: Option<int>): (c: Option<Color>)
    ensures c.None? <==> pct.None?
    ensures c == Some(Green) <==> pct.Some? && pct.value >= 990
    ensures c == Some(Amber) <==> pct.Some? && 950 <= pct.value < 990
    ensures c == Some(Red) <==> pct.Some? && pct.value < 950
  {
    match pct
    case None => None
    case Some(p) => if p >= 990 then Some(Green) else if p >= 950 then Some(Amber) else Some(Red)
  }

  /**
   * The colour the card computes, `uptimeColor(Number(uptimePct(history)))`:
   * `Number(null)` is 0, so the card never gets a null colour and an empty
   * history is coloured red; otherwise it is the band of the uptime.
   */
  function CardColor(h: seq<CheckRecord>): (c: Option<Color>)
    ensures c.Some?
    ensures |h| == 0 ==> c == Some(Red)
    ensures |h| > 0 ==> c == UptimeColor(UptimePct(h))
  {
    var pct := UptimePct(h);
    UptimeColor(Some(if pct.None? then 0 else pct.value))
  }
}
