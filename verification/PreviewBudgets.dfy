/**
 `PreviewBudget`: what one preview may ask for.  Every charge but the last validation
 leaves room for one request more.  The deadline is outside.
 */
module PreviewBudgets {
  import opened Wrappers
  import opened PreviewLimits
  import opened ParquetPlan
  import A = ParquetAdmission

  datatype Kind = Open | RangeRead | Validate

  /** PreviewLimitExceeded, or the ValueError for bytes on a request that reads none. */
  datatype Failure = LimitExceeded | NoBytesHere

  /** `charge_request` on the two counters. */
  function Charge(s: A.Spent, kind: Kind, length: int): Result<A.Spent, Failure> {
    if length < 0 || length > MAX_RANGE_BYTES then Err(LimitExceeded)
    else if !kind.RangeRead? && length != 0 then Err(NoBytesHere)
    else if s.requests + 1 + (if kind.Validate? then 0 else 1) > MAX_REQUESTS then Err(LimitExceeded)
    else if s.bytes + length > MAX_BYTES then Err(LimitExceeded)
    else Ok(A.Spent(s.requests + 1, s.bytes + length))
  }

  class PreviewBudget {
    var requests: nat
    var bytesRequested: nat

    function State(): A.Spent
      reads this
    {
      A.Spent(requests, bytesRequested)
    }

    constructor ()
      ensures State() == A.Spent(0, 0)
    {
      requests, bytesRequested := 0, 0;
    }

    /** A charge is entered whole, or refused and not entered at all. */
    method ChargeRequest(kind: Kind, length: int) returns (refused: Option<Failure>)
      modifies this
      ensures match Charge(old(State()), kind, length)
              case Ok(s) => refused == None && State() == s
              case Err(e) => refused == Some(e) && State() == old(State())
    {
      if length < 0 || length > MAX_RANGE_BYTES { return Some(LimitExceeded); }
      if kind != RangeRead && length != 0 { return Some(NoBytesHere); }
      var reserve := if kind == Validate then 0 else 1;
      if requests + 1 + reserve > MAX_REQUESTS { return Some(LimitExceeded); }
      if bytesRequested + length > MAX_BYTES { return Some(LimitExceeded); }
      requests := requests + 1;
      bytesRequested := bytesRequested + length;
      return None;
    }
  }

  /**
   A charge is entered exactly if it is of a length its kind may have, the bytes stay
   within their limit and, unless it is the validation, one request is left after it.
   */
  lemma ChargedExactly(s: A.Spent, kind: Kind, length: int)
    ensures var r := Charge(s, kind, length);
            && (r.Ok? <==>
                && (if kind == RangeRead then 0 <= length <= MAX_RANGE_BYTES else length == 0)
                && s.bytes + length <= MAX_BYTES
                && (if kind == Validate then s.requests < MAX_REQUESTS else s.requests < MAX_REQUESTS - 1))
            && (r.Ok? ==> r.value == A.Spent(s.requests + 1, s.bytes + length))
            && (r == Err(NoBytesHere) <==> kind != RangeRead && 0 < length <= MAX_RANGE_BYTES)
  {
  }

  // ------------------------------------------------------------------- any run

  /** Any charges, some of them refused, but no validation. */
  function AfterAll(s: A.Spent, charges: seq<(Kind, int)>): A.Spent {
    if charges == [] then s
    else
      var before := AfterAll(s, charges[..|charges| - 1]);
      match Charge(before, charges[|charges| - 1].0, charges[|charges| - 1].1)
      case Ok(t) => t
      case Err(_) => before
  }

  predicate Reserved(s: A.Spent) {
    s.requests + 1 <= MAX_REQUESTS && s.bytes <= MAX_BYTES
  }

  /** Whatever has been charged, and refused, one validation can still be made. */
  lemma {:induction false} RoomForValidation(s: A.Spent, charges: seq<(Kind, int)>)
    requires Reserved(s) && forall i :: 0 <= i < |charges| ==> !charges[i].0.Validate?
    ensures Reserved(AfterAll(s, charges)) && Charge(AfterAll(s, charges), Validate, 0).Ok?
  {
    if charges != [] { RoomForValidation(s, charges[..|charges| - 1]); }
  }

  // --------------------------------------------------------- an admitted plan

  /** Reading the ranges one after the other. */
  function ChargeRanges(s: A.Spent, ranges: seq<Range>, n: nat): Result<A.Spent, Failure>
    requires n <= |ranges|
  {
    if n == 0 then Ok(s)
    else match ChargeRanges(s, ranges, n - 1)
      case Err(e) => Err(e)
      case Ok(t) => Charge(t, RangeRead, ranges[n - 1].length)
  }

  lemma {:induction false} TotalGrows(ranges: seq<Range>, n: nat)
    requires n <= |ranges| && forall k :: 0 <= k < |ranges| ==> ranges[k].length >= 0
    ensures 0 <= A.Total(ranges[..n]) <= A.Total(ranges)
    decreases |ranges| - n
  {
    if n == |ranges| {
      assert ranges[..n] == ranges;
      TotalPositive(ranges);
    } else {
      TotalGrows(ranges, n + 1);
      A.TotalAppend(ranges[..n], [ranges[n]]);
      assert ranges[..n + 1] == ranges[..n] + [ranges[n]];
      TotalOfOne(ranges[n]);
      TotalPositive(ranges[..n]);
    }
  }

  lemma {:induction false} TotalPositive(ranges: seq<Range>)
    requires forall k :: 0 <= k < |ranges| ==> ranges[k].length >= 0
    ensures A.Total(ranges) >= 0
  {
    if ranges != [] { TotalPositive(ranges[..|ranges| - 1]); }
  }

  lemma TotalOfOne(r: Range)
    ensures A.Total([r]) == r.length
  {
    assert [r][..0] == [];
  }

  /** Nothing was refused, and just this was entered. */
  predicate Charged(r: Result<A.Spent, Failure>, s: A.Spent, requests: nat, bytes: int) {
    r.Ok? && r.value.requests == s.requests + requests && r.value.bytes == s.bytes + bytes
  }

  lemma {:induction false} RangesCharged(s: A.Spent, ranges: seq<Range>, n: nat)
    requires n <= |ranges| && A.WithinBudget(ranges, A.Total(ranges), s)
    requires forall k :: 0 <= k < |ranges| ==> 0 <= ranges[k].length <= MAX_RANGE_BYTES
    ensures Charged(ChargeRanges(s, ranges, n), s, n, A.Total(ranges[..n]))
  {
    TotalGrows(ranges, n);
    if n > 0 {
      RangesCharged(s, ranges, n - 1);
      TotalGrows(ranges, n - 1);
      A.TotalAppend(ranges[..n - 1], [ranges[n - 1]]);
      assert ranges[..n] == ranges[..n - 1] + [ranges[n - 1]];
      TotalOfOne(ranges[n - 1]);
    }
  }

  lemma RangesAffordable(s: A.Spent, ranges: seq<Range>)
    requires A.WithinBudget(ranges, A.Total(ranges), s)
    requires forall k :: 0 <= k < |ranges| ==> 1 <= ranges[k].length <= MAX_RANGE_BYTES
    ensures var r := ChargeRanges(s, ranges, |ranges|);
            Charged(r, s, |ranges|, A.Total(ranges)) && Charge(r.value, Validate, 0).Ok?
  {
    assert ranges[..|ranges|] == ranges;
    RangesCharged(s, ranges, |ranges|);
    TotalPositive(ranges);
  }

  /**
   Reading what an admitted plan asks for, range by range, is never refused by the
   budget it was admitted under, and leaves room for the validation.
   */
  lemma AdmittedIsAffordable(m: A.Message, size: int, footer: int, spent: A.Spent, ranges: seq<Range>)
    requires A.Refusal(m, size, footer, spent).None? && ranges == A.Admitted(m).ranges
    ensures var r := ChargeRanges(spent, ranges, |ranges|);
            Charged(r, spent, |ranges|, A.Total(ranges)) && Charge(r.value, Validate, 0).Ok?
  {
    A.AdmittedIsSafe(m, size, footer, spent);
    RangesAffordable(spent, ranges);
  }
}
