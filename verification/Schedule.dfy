/** Slot arithmetic of the job scheduler (src/server/job_scheduler.rs).

Timestamps are Rust `i64` nanoseconds; a checked operation that overflows is an error result,
and a plain subtraction wraps, as it does in a release build.
*/
module Schedule {
  import opened Common

  const I64_MIN: int := -0x8000_0000_0000_0000
  const I64_MAX: int := 0x7fff_ffff_ffff_ffff

  predicate IsI64(x: int) {
    I64_MIN <= x <= I64_MAX
  }

  type I64 = x: int | I64_MIN <= x <= I64_MAX

  /** Interval lengths are `u64` in the catalog, which refuses zero. */
  type Interval = x: int | 0 < x <= U64_MAX witness 1

  datatype Schedule = EveryNs(interval: Interval) | AtUnixNs(timestamp: I64)

  function CheckedAdd(a: I64, b: int): (r: Result<I64>) {
    if IsI64(a + b) then Ok(a + b) else Err
  }

  function WrappingSub(a: I64, b: I64): (r: I64)
    ensures IsI64(a - b) ==> r == a - b
  {
    var d := a - b;
    if d > I64_MAX then d - 0x1_0000_0000_0000_0000
    else if d < I64_MIN then d + 0x1_0000_0000_0000_0000
    else d
  }

  /** Rust's `/`, which truncates toward zero. */
  function TruncDiv(a: int, b: int): (q: int)
    requires b > 0
  {
    if a >= 0 then a / b else -((-a) / b)
  }

  function SaturatingMul(a: int, b: int): (r: I64) {
    var p := a * b;
    if p > I64_MAX then I64_MAX else if p < I64_MIN then I64_MIN else p
  }

  function InitialPlanned(s: Schedule, now: I64): (r: Result<I64>) {
    match s
    case EveryNs(interval) => if IsI64(interval) then CheckedAdd(now, interval) else Err
    case AtUnixNs(timestamp) => Ok(timestamp)
  }

  function CoalescedPlanned(s: Schedule, planned: I64, now: I64): (r: Result<I64>) {
    match s
    case AtUnixNs(_) => Ok(planned)
    case EveryNs(interval) =>
      if planned >= now then Ok(planned)
      else if !IsI64(interval) then Err
      else
        var missed := TruncDiv(WrappingSub(now, planned), interval);
        CheckedAdd(planned, SaturatingMul(missed, interval))
  }

  function NextPlanned(s: Schedule, planned: I64): (r: Result<Option<I64>>) {
    match s
    case AtUnixNs(_) => Ok(None)
    case EveryNs(interval) =>
      if !IsI64(interval) then Err
      else
        match CheckedAdd(planned, interval)
        case Ok(next) => Ok(Some(next))
        case Err => Err
  }

  /** Slot `r` is on the grid of `planned`: a whole number of intervals away from it. */
  ghost predicate OnGrid(planned: int, r: int, interval: int) {
    exists k: int :: r == Grid(planned, k, interval)
  }

  ghost function Grid(planned: int, k: int, interval: int): int {
    planned + k * interval
  }

  /** Coalescing returns the latest slot on the job's grid that is not after `now`; the
      overflow error behind `checked_add` cannot happen. */
  lemma CoalescedIsLatestDueSlot(interval: Interval, planned: I64, now: I64)
    requires IsI64(interval)
    requires planned < now && IsI64(now - planned)
    ensures CoalescedPlanned(EveryNs(interval), planned, now).Ok?
    ensures var r := CoalescedPlanned(EveryNs(interval), planned, now).value;
            OnGrid(planned, r, interval) && r <= now < r + interval
    ensures var r := CoalescedPlanned(EveryNs(interval), planned, now).value;
            forall k: int :: Grid(planned, k, interval) <= now ==> Grid(planned, k, interval) <= r
  {
    var missed := (now - planned) / interval;
    assert missed * interval <= now - planned < missed * interval + interval;
    assert 0 <= missed * interval by { MulNonneg(missed, interval); }
    var r := planned + missed * interval;
    assert r == Grid(planned, missed, interval);
    assert CoalescedPlanned(EveryNs(interval), planned, now) == CheckedAdd(planned, missed * interval);
    forall k: int | Grid(planned, k, interval) <= now
      ensures Grid(planned, k, interval) <= r
    {
      if k > missed {
        GridStep(planned, missed, k, interval);
      } else if k < missed {
        GridStep(planned, k, missed, interval);
      }
    }
  }

  /** Later grid indexes are at least one interval later. */
  lemma GridStep(planned: int, k: int, m: int, interval: int)
    requires k < m && 0 < interval
    ensures Grid(planned, k, interval) + interval <= Grid(planned, m, interval)
  {
    MulNonneg(m - k - 1, interval);
    assert m * interval == (m - k - 1) * interval + k * interval + interval;
  }

  lemma MulNonneg(a: int, b: int)
    requires 0 <= a && 0 <= b
    ensures 0 <= a * b
  {
  }

  lemma SmallQuotient(a: int, b: int)
    requires 0 <= a < b
    ensures a / b == 0
  {
  }

  lemma CoalescingWithinInterval(interval: Interval, planned: I64, now: I64)
    requires IsI64(interval) && IsI64(now - planned) && planned < now < planned + interval
    ensures CoalescedPlanned(EveryNs(interval), planned, now) == Ok(planned)
  {
    SmallQuotient(now - planned, interval);
    assert TruncDiv(WrappingSub(now, planned), interval) == 0;
  }

  /** The coalesced slot is the stored slot exactly when less than one interval was missed. */
  lemma CoalescingKeepsSlot(interval: Interval, planned: I64, now: I64)
    requires IsI64(interval) && IsI64(now - planned)
    ensures CoalescedPlanned(EveryNs(interval), planned, now) == Ok(planned) <==> now < planned + interval
  {
    if planned < now < planned + interval {
      CoalescingWithinInterval(interval, planned, now);
    } else if planned < now {
      CoalescedIsLatestDueSlot(interval, planned, now);
    }
  }

  lemma QuotientBounds(a: int, b: int)
    requires 0 <= a && 0 < b
    ensures 0 <= a / b && 0 <= a / b * b <= a < a / b * b + b
  {
    MulNonneg(a / b, b);
  }

  lemma NegatedProduct(k: int, m: int)
    ensures (-k) * m == -(k * m)
  {
  }

  lemma WrappedProduct(k: int, m: int)
    requires 0 <= k * m <= -I64_MIN
    ensures SaturatingMul(-k, m) == -(k * m)
  {
    NegatedProduct(k, m);
  }

  /** A slot so long past that the subtraction wraps is moved backwards along its grid, to the first
      slot that is less than 2^64 nanoseconds before `now`, or is an error where no `i64` holds that. */
  lemma CoalescingWraps(interval: Interval, planned: I64, now: I64) returns (r: int)
    requires IsI64(interval) && now - planned > I64_MAX
    ensures OnGrid(planned, r, interval) && r <= planned
    ensures r - interval < now - 0x1_0000_0000_0000_0000 <= r
    ensures CoalescedPlanned(EveryNs(interval), planned, now) == if r >= -0x8000_0000_0000_0000 then Ok(r) else Err
  {
    var back := 0x1_0000_0000_0000_0000 - (now - planned);
    var k := back / interval;
    QuotientBounds(back, interval);
    WrappedProduct(k, interval);
    assert TruncDiv(-back, interval) == -k;
    r := planned - k * interval;
    assert r == Grid(planned, -k, interval);
    assert WrappingSub(now, planned) == -back;
    assert CoalescedPlanned(EveryNs(interval), planned, now) == CheckedAdd(planned, -(k * interval));
  }
}
