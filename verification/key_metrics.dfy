/** The animated metric counters: the numeric value read from a metric's
    label text, the `requestAnimationFrame` counter, the visibility gate and
    the display branch. Timestamps are inputs. */
module KeyMetrics {
  import opened Wrappers
  import opened Text

  const DURATION: real := 2000.0

  // ---- numeric value ----

  predicate IsNumeric(c: char) { IsDigit(c) || c == '.' }

  /** `value.replace(/[^\d.]/g, '')`. */
  function KeepNumeric(s: string): (r: string)
    ensures forall i :: 0 <= i < |r| ==> IsNumeric(r[i])
    ensures |r| <= |s|
    ensures (forall i :: 0 <= i < |s| ==> !IsNumeric(s[i])) ==> r == ""
    decreases |s|
  {
    if |s| == 0 then ""
    else (if IsNumeric(s[0]) then [s[0]] else "") + KeepNumeric(s[1..])
  }

  /** Removing the other characters leaves the digits and dots in order:
      a string of only digits and dots is kept whole. */
  lemma {:induction false} KeepNumericKeepsNumeric(s: string)
    requires forall i :: 0 <= i < |s| ==> IsNumeric(s[i])
    ensures KeepNumeric(s) == s
    decreases |s|
  {
    if |s| > 0 {
      KeepNumericKeepsNumeric(s[1..]);
    }
  }

  lemma {:induction false} KeepNumericIdempotent(s: string)
    ensures KeepNumeric(KeepNumeric(s)) == KeepNumeric(s)
  {
    KeepNumericKeepsNumeric(KeepNumeric(s));
  }

  /** The leading run of decimal digits. */
  function LeadingDigits(s: string): (r: string)
    ensures AllDigits(r) && |r| <= |s| && r == s[..|r|]
    ensures |r| < |s| ==> !IsDigit(s[|r|])
    decreases |s|
  {
    if |s| > 0 && IsDigit(s[0]) then [s[0]] + LeadingDigits(s[1..]) else ""
  }

  /** `parseFloat` on a string of digits and dots: the longest prefix of the
      form `digits[.digits]`; `None` (NaN) when it has no digit. */
  function ParseFloat(s: string): (r: Option<real>)
    ensures r.None? <==> |LeadingDigits(s)| == 0
                         && !(|s| > 1 && s[0] == '.' && IsDigit(s[1]))
    ensures r.Some? ==> r.value >= 0.0
  {
    var whole := LeadingDigits(s);
    var rest := s[|whole|..];
    var frac := if |rest| > 0 && rest[0] == '.' then LeadingDigits(rest[1..]) else "";
    if |whole| == 0 && |frac| == 0 then None
    else Some(Decimal(whole, frac))
  }

  /** `whole.frac` read as a number. */
  function Decimal(whole: string, frac: string): (r: real)
    requires AllDigits(whole) && AllDigits(frac)
    ensures r >= 0.0
  {
    ParseDigits(whole) as real + ParseDigits(frac) as real / Pow10(|frac|) as real
  }

  /** A decimal `w.f` parses to `w + f / 10^|f|`, and a whole number to itself. */
  lemma ParseDecimal(w: nat, f: string)
    requires AllDigits(f) && |f| > 0
    ensures ParseFloat(NatToString(w) + "." + f) == Some(w as real + ParseDigits(f) as real / Pow10(|f|) as real)
  {
    var ws := NatToString(w);
    ParseDottedDigits(ws, f);
    ParseNatToString(w);
    DecimalOfWhole(ws, w, f);
  }

  lemma DecimalOfWhole(ws: string, w: nat, f: string)
    requires AllDigits(ws) && AllDigits(f) && ParseDigits(ws) == w
    ensures Decimal(ws, f) == w as real + ParseDigits(f) as real / Pow10(|f|) as real
  {
  }

  /** Digits, a dot and more digits parse as the whole part plus the
      fraction's digits over the matching power of ten. */
  lemma ParseDottedDigits(ws: string, f: string)
    requires AllDigits(ws) && AllDigits(f) && |f| > 0
    ensures ParseFloat(ws + "." + f) == Some(Decimal(ws, f))
  {
    var s := ws + ("." + f);
    assert ws + "." + f == s;
    LeadingDigitsOf(ws, "." + f);
    assert LeadingDigits(s) == ws;
    var rest := s[|ws|..];
    assert rest == "." + f;
    assert rest[1..] == f;
    LeadingDigitsOf(f, "");
    assert f + "" == f;
    assert LeadingDigits(rest[1..]) == f;
  }

  lemma ParseWhole(w: nat)
    ensures ParseFloat(NatToString(w)) == Some(w as real)
  {
    var ws := NatToString(w);
    LeadingDigitsOf(ws, "");
    assert ws + "" == ws;
    ParseNatToString(w);
  }

  lemma {:induction false} LeadingDigitsOf(d: string, rest: string)
    requires AllDigits(d)
    requires |rest| == 0 || !IsDigit(rest[0])
    ensures LeadingDigits(d + rest) == d
    decreases |d|
  {
    if |d| > 0 {
      assert (d + rest)[1..] == d[1..] + rest;
      LeadingDigitsOf(d[1..], rest);
      assert [d[0]] + d[1..] == d;
    } else {
      assert d + rest == rest;
    }
  }

  /** `parseFloat(value.replace(/[^\d.]/g, ''))`. */
  function NumericValue(value: string): Option<real> {
    ParseFloat(KeepNumeric(value))
  }

  // ---- counter ----

  function MinR(a: real, b: real): real { if a <= b then a else b }

  /** One `step(timestamp)`: `min((timestamp - start) / duration, 1)`. */
  function Progress(start: real, timestamp: real): (p: real)
    ensures timestamp >= start ==> 0.0 <= p <= 1.0
    ensures p == 1.0 <==> timestamp - start >= DURATION
  {
    MinR((timestamp - start) / DURATION, 1.0)
  }

  /** `Math.floor(progress * end)`. */
  function Count(start: real, timestamp: real, end: real): int {
    (Progress(start, timestamp) * end).Floor
  }

  lemma FloorMonotone(a: real, b: real)
    requires a <= b
    ensures a.Floor <= b.Floor
  {
    assert a.Floor as real <= a <= b < b.Floor as real + 1.0;
  }

  /** The count stays within `[0, floor(end)]` and is `floor(end)` once the
      duration has passed (it may get there earlier when `end` is not whole). */
  lemma CountBounds(start: real, timestamp: real, end: real)
    requires timestamp >= start && end >= 0.0
    ensures 0 <= Count(start, timestamp, end) <= end.Floor
    ensures timestamp - start >= DURATION ==> Count(start, timestamp, end) == end.Floor
  {
    var p := Progress(start, timestamp);
    assert 0.0 <= p * end <= end;
    FloorMonotone(0.0, p * end);
    FloorMonotone(p * end, end);
  }

  /** Later frames never show a smaller count. */
  lemma CountMonotone(start: real, t1: real, t2: real, end: real)
    requires start <= t1 <= t2 && end >= 0.0
    ensures Count(start, t1, end) <= Count(start, t2, end)
  {
    var p1 := Progress(start, t1);
    var p2 := Progress(start, t2);
    assert p1 <= p2;
    assert p1 * end <= p2 * end;
    FloorMonotone(p1 * end, p2 * end);
  }

  /** The effect's run: the first frame fixes the start time (a zero
      timestamp does not, being falsy), every frame sets the count, and no
      frame is requested once progress reaches 1. Returns the counts set. */
  function Animate(start: real, timestamps: seq<real>, end: real): (r: seq<int>)
    ensures |r| <= |timestamps|
    decreases |timestamps|
  {
    if |timestamps| == 0 then []
    else
      var s := if start == 0.0 then timestamps[0] else start;
      var p := Progress(s, timestamps[0]);
      [Count(s, timestamps[0], end)] + (if p < 1.0 then Animate(s, timestamps[1..], end) else [])
  }

  /** The effect does nothing until the section is visible. */
  function Counter(visible: bool, timestamps: seq<real>, end: real): (r: seq<int>)
    ensures !visible ==> r == []
  {
    if visible then Animate(0.0, timestamps, end) else []
  }

  predicate Increasing(ts: seq<real>) {
    forall i, j :: 0 <= i < j < |ts| ==> ts[i] <= ts[j]
  }

  /** With the start time fixed, frame `k` sets the count for its own
      timestamp, every frame but the last lies within the duration, and
      frames stop only after one lies a full duration after the start. */
  lemma {:induction false} AnimateCounts(start: real, timestamps: seq<real>, end: real)
    requires start != 0.0
    ensures var r := Animate(start, timestamps, end);
      (forall k :: 0 <= k < |r| ==> r[k] == Count(start, timestamps[k], end))
      && (forall k :: 0 <= k < |r| - 1 ==> timestamps[k] - start < DURATION)
      && (|r| < |timestamps| ==> |r| > 0 && timestamps[|r| - 1] - start >= DURATION)
    decreases |timestamps|
  {
    if |timestamps| > 0 {
      var r := Animate(start, timestamps, end);
      var t := timestamps[1..];
      if Progress(start, timestamps[0]) < 1.0 {
        AnimateCounts(start, t, end);
        var rest := Animate(start, t, end);
        assert r == [Count(start, timestamps[0], end)] + rest;
        forall k | 0 < k < |r| ensures r[k] == Count(start, timestamps[k], end) {
          assert r[k] == rest[k - 1] && timestamps[k] == t[k - 1];
        }
        forall k | 0 < k < |r| - 1 ensures timestamps[k] - start < DURATION {
          assert timestamps[k] == t[k - 1];
        }
        if |r| < |timestamps| && |rest| > 0 {
          assert timestamps[|r| - 1] == t[|rest| - 1];
        }
      } else {
        assert r == [Count(start, timestamps[0], end)];
      }
    }
  }

  /** Over increasing frame timestamps after the start, the counts set are
      nondecreasing and within `[0, floor(end)]`, and when the animation
      stops (or its frame is a full duration in) the last count is `floor(end)`. */
  lemma AnimateShape(start: real, timestamps: seq<real>, end: real)
    requires start != 0.0 && end >= 0.0 && Increasing(timestamps)
    requires |timestamps| > 0 ==> timestamps[0] >= start
    ensures var r := Animate(start, timestamps, end);
      (forall k :: 0 <= k < |r| ==> 0 <= r[k] <= end.Floor)
      && (forall k :: 0 <= k < |r| - 1 ==> r[k] <= r[k + 1])
      && (|r| > 0 && timestamps[|r| - 1] - start >= DURATION ==> r[|r| - 1] == end.Floor)
      && (|r| < |timestamps| ==> |r| > 0 && r[|r| - 1] == end.Floor)
  {
    var r := Animate(start, timestamps, end);
    AnimateCounts(start, timestamps, end);
    forall k | 0 <= k < |r| ensures 0 <= r[k] <= end.Floor {
      CountBounds(start, timestamps[k], end);
    }
    forall k | 0 <= k < |r| - 1 ensures r[k] <= r[k + 1] {
      CountMonotone(start, timestamps[k], timestamps[k + 1], end);
    }
    if |r| > 0 {
      CountBounds(start, timestamps[|r| - 1], end);
    }
  }

  // ---- display ----

  /** The number shown: `count / 100` for a value with a dot, `count` otherwise. */
  function Displayed(value: string, count: int): real {
    if Contains(value, '.') then count as real / 100.0 else count as real
  }

  /** As written, a decimal metric counts to `floor(end)` and then shows a
      hundredth of it: "0.80%" shows 0 throughout and "2.1" never more than 0.02. */
  lemma DecimalMetricsAsWritten(start: real, timestamp: real)
    requires timestamp >= start
    ensures Displayed("0.80%", Count(start, timestamp, 0.8)) == 0.0
    ensures Displayed("2.1", Count(start, timestamp, 2.1)) <= 0.02
    ensures timestamp - start >= DURATION ==> Displayed("2.1", Count(start, timestamp, 2.1)) == 0.02
  {
    assert "0.80%"[1] == '.';
    assert "2.1"[1] == '.';
    CountBounds(start, timestamp, 0.8);
    CountBounds(start, timestamp, 2.1);
  }

  /** The parsed values of the two decimal metrics. */
  lemma DecimalMetricValues()
    ensures NumericValue("0.80%") == Some(0.8)
    ensures NumericValue("2.1") == Some(2.1)
  {
    CtrValue();
    NursesValue();
  }

  lemma CtrValue()
    ensures NumericValue("0.80%") == Some(0.8)
  {
    assert "0.80%" == "0.80" + "%";
    KeepNumericAppend("0.80", "%");
    KeepNumericKeepsNumeric("0.80");
    assert KeepNumeric("%") == "";
    assert "0.80" + "" == "0.80";
    ParseCtr();
  }

  lemma ParseCtr()
    ensures ParseFloat("0.80") == Some(0.8)
  {
    assert NatToString(0) == "0";
    assert "0.80" == NatToString(0) + "." + "80";
    ParseDecimal(0, "80");
    assert "80"[..1] == "8";
    assert ParseDigits("80") == 80;
    assert Pow10(2) == 100;
  }

  /** Filtering distributes over concatenation. */
  lemma {:induction false} KeepNumericAppend(a: string, b: string)
    ensures KeepNumeric(a + b) == KeepNumeric(a) + KeepNumeric(b)
    decreases |a|
  {
    if |a| > 0 {
      assert (a + b)[1..] == a[1..] + b;
      KeepNumericAppend(a[1..], b);
    } else {
      assert a + b == b;
    }
  }

  lemma NursesValue()
    ensures NumericValue("2.1") == Some(2.1)
  {
    KeepNumericKeepsNumeric("2.1");
    assert NatToString(2) == "2";
    assert "2.1" == NatToString(2) + "." + "1";
    ParseDecimal(2, "1");
    assert ParseDigits("1") == 1;
    assert Pow10(1) == 10;
  }

  /** A decimal metric counted in hundredths: the count runs to
      `floor(100 * end)` and the display divides by 100 again. */
  function CorrectedCount(value: string, start: real, timestamp: real, end: real): int {
    if Contains(value, '.') then Count(start, timestamp, 100.0 * end) else Count(start, timestamp, end)
  }

  /** Counting in hundredths, the final display is the metric's value when
      it has at most two decimals, and never exceeds it. */
  lemma CorrectedDisplayReachesValue(value: string, start: real, timestamp: real, end: real, cents: nat)
    requires Contains(value, '.') && end >= 0.0 && timestamp >= start
    requires 100.0 * end == cents as real
    ensures Displayed(value, CorrectedCount(value, start, timestamp, end)) <= end
    ensures timestamp - start >= DURATION ==> Displayed(value, CorrectedCount(value, start, timestamp, end)) == end
  {
    CountBounds(start, timestamp, 100.0 * end);
    assert (100.0 * end).Floor == cents;
  }
}
