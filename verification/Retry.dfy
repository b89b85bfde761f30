/** Bounded exponential backoff (teldrive_lab/retry.py) and the transfer job executor that uses it
    (teldrive_lab/transfer_executor.py). */
module Retry {
  import opened Base
  import opened Jobs
  import opened Safety

  datatype RetryPolicy = RetryPolicy(maxAttempts: int, baseDelay: real, maxDelay: real, jitter: real)

  /** `__post_init__`. */
  predicate ValidPolicy(p: RetryPolicy) {
    && p.maxAttempts >= 1
    && p.baseDelay >= 0.0 && p.maxDelay >= 0.0 && p.maxDelay >= p.baseDelay
    && 0.0 <= p.jitter <= 1.0
  }

  /** The constructor: it accepts exactly the policies used below. */
  function NewPolicy(maxAttempts: int, baseDelay: real, maxDelay: real, jitter: real): (r: Result<RetryPolicy, Error>)
    ensures r.Ok? <==> 1 <= maxAttempts && 0.0 <= baseDelay <= maxDelay && 0.0 <= jitter <= 1.0
    ensures r.Ok? <==> ValidPolicy(RetryPolicy(maxAttempts, baseDelay, maxDelay, jitter))
    ensures r.Ok? ==> r.value == RetryPolicy(maxAttempts, baseDelay, maxDelay, jitter)
    ensures r.Err? ==> r.error == ValueError
  {
    if maxAttempts < 1 then Err(ValueError)
    else if baseDelay < 0.0 || maxDelay < 0.0 then Err(ValueError)
    else if maxDelay < baseDelay then Err(ValueError)
    else if !(0.0 <= jitter <= 1.0) then Err(ValueError)
    else Ok(RetryPolicy(maxAttempts, baseDelay, maxDelay, jitter))
  }

  function Pow2(n: nat): real { if n == 0 then 1.0 else 2.0 * Pow2(n - 1) }

  /** The un-jittered delay before the attempt after the `attempt`-th failure. */
  function Backoff(p: RetryPolicy, attempt: nat): real
    requires attempt >= 1
  {
    Min(p.maxDelay, p.baseDelay * Pow2(attempt - 1))
  }

  function Factor(jitter: real, value: real): real { 1.0 - jitter + 2.0 * (jitter * value) }

  /** `delay(attempt, random_value=value)`. */
  function Delay(p: RetryPolicy, attempt: int, value: real): Result<real, Error> {
    if attempt < 1 then Err(ValueError)
    else
      var raw := Backoff(p, attempt);
      if p.jitter == 0.0 then Ok(raw)
      else if !(0.0 <= value <= 1.0) then Err(ValueError)
      else
        Ok(Min(p.maxDelay, raw * Factor(p.jitter, value)))
  }

  lemma {:induction false} Pow2AtLeastOne(n: nat)
    ensures Pow2(n) >= 1.0
  {
    if n > 0 { Pow2AtLeastOne(n - 1); }
  }

  lemma ScaleNonNegative(a: real, b: real, c: real)
    requires a >= 0.0 && b <= c
    ensures a * b <= a * c
  {}

  lemma BackoffBounds(p: RetryPolicy, attempt: nat)
    requires ValidPolicy(p) && attempt >= 1
    ensures p.baseDelay <= Backoff(p, attempt) <= p.maxDelay
  {
    Pow2AtLeastOne(attempt - 1);
    ScaleNonNegative(p.baseDelay, 1.0, Pow2(attempt - 1));
  }

  lemma FactorBand(jitter: real, value: real)
    requires 0.0 <= jitter <= 1.0 && 0.0 <= value <= 1.0
    ensures 1.0 - jitter <= Factor(jitter, value) <= 1.0 + jitter
  {
    ScaleNonNegative(jitter, 0.0, value);
    ScaleNonNegative(jitter, value, 1.0);
    assert 0.0 <= jitter * value <= jitter;
  }

  lemma MinScaled(cap: real, raw: real, low: real, factor: real, high: real)
    requires 0.0 <= raw <= cap && 0.0 <= low <= factor <= high && low <= 1.0
    ensures raw * low <= Min(cap, raw * factor) <= raw * high
  {
    ScaleNonNegative(raw, low, factor);
    ScaleNonNegative(raw, factor, high);
    ScaleNonNegative(raw, low, 1.0);
  }

  /** Delays never leave the band the jitter allows and never exceed the cap. */
  lemma DelayBand(p: RetryPolicy, attempt: nat, value: real)
    requires ValidPolicy(p) && attempt >= 1 && 0.0 <= value <= 1.0
    ensures Delay(p, attempt, value).Ok?
    ensures var d, raw := Delay(p, attempt, value).value, Backoff(p, attempt);
            raw * (1.0 - p.jitter) <= d <= p.maxDelay && d <= raw * (1.0 + p.jitter)
  {
    BackoffBounds(p, attempt);
    if p.jitter == 0.0 {
      assert Backoff(p, attempt) * 1.0 == Backoff(p, attempt);
    } else {
      FactorBand(p.jitter, value);
      MinScaled(p.maxDelay, Backoff(p, attempt), 1.0 - p.jitter, Factor(p.jitter, value), 1.0 + p.jitter);
    }
  }

  lemma CappedDoubling(cap: real, raw: real)
    requires 0.0 <= raw && 0.0 <= cap
    ensures Min(cap, raw) <= Min(cap, 2.0 * raw) <= 2.0 * Min(cap, raw)
  {}

  lemma DoublePow(base: real, n: nat)
    ensures base * Pow2(n + 1) == 2.0 * (base * Pow2(n))
  {}

  /** The un-jittered delay at least repeats and at most doubles from one attempt to the next. */
  lemma BackoffGrowth(p: RetryPolicy, attempt: nat)
    requires ValidPolicy(p) && attempt >= 1
    ensures Backoff(p, attempt) <= Backoff(p, attempt + 1) <= 2.0 * Backoff(p, attempt)
  {
    DoublePow(p.baseDelay, attempt - 1);
    Pow2AtLeastOne(attempt - 1);
    ScaleNonNegative(p.baseDelay, 0.0, Pow2(attempt - 1));
    CappedDoubling(p.maxDelay, p.baseDelay * Pow2(attempt - 1));
  }

  /** The first delay is the base delay, and each next one doubles it up to the cap. */
  lemma BackoffDoubles(p: RetryPolicy, attempt: nat)
    requires ValidPolicy(p) && attempt >= 1
    ensures Backoff(p, 1) == p.baseDelay
    ensures var d := 2.0 * Backoff(p, attempt); Backoff(p, attempt + 1) == if d < p.maxDelay then d else p.maxDelay
  {
    assert Pow2(0) == 1.0 && p.baseDelay * 1.0 == p.baseDelay;
    DoublePow(p.baseDelay, attempt - 1);
    Pow2AtLeastOne(attempt - 1);
    ScaleNonNegative(p.baseDelay, 0.0, Pow2(attempt - 1));
  }

  lemma FactorEnds(jitter: real)
    ensures Factor(jitter, 0.0) == 1.0 - jitter && Factor(jitter, 1.0) == 1.0 + jitter
  {}

  lemma TimesOne(raw: real, factor: real)
    ensures factor == 1.0 ==> raw * factor == raw
  {}

  lemma SameScale(raw: real, a: real, b: real)
    requires a == b
    ensures raw * a == raw * b
  {}

  lemma Capped(cap: real, x: real)
    requires x <= cap
    ensures Min(cap, x) == x
  {}

  lemma ScaledCap(cap: real, raw: real, low: real, high: real)
    requires 0.0 <= raw && low <= high
    ensures Min(cap, raw * low) <= Min(cap, raw * high)
  {
    ScaleNonNegative(raw, low, high);
    CapGrows(cap, raw * low, raw * high);
  }

  lemma CapGrows(cap: real, x: real, y: real)
    requires x <= y
    ensures Min(cap, x) <= Min(cap, y)
  {}

  /** When there is a delay at all; without jitter the random value is not looked at. */
  lemma DelayTable(p: RetryPolicy, attempt: int, value: real)
    requires ValidPolicy(p)
    ensures Delay(p, attempt, value).Ok? <==> attempt >= 1 && (p.jitter == 0.0 || 0.0 <= value <= 1.0)
    ensures Delay(p, attempt, value).Err? ==> Delay(p, attempt, value).error == ValueError
    ensures attempt >= 1 && p.jitter == 0.0 ==> Delay(p, attempt, value) == Ok(Backoff(p, attempt))
  {}

  lemma DelayIs(p: RetryPolicy, attempt: nat, value: real)
    requires ValidPolicy(p) && p.jitter > 0.0 && attempt >= 1 && 0.0 <= value <= 1.0
    ensures Delay(p, attempt, value).Ok?
    ensures Delay(p, attempt, value).value == Min(p.maxDelay, Backoff(p, attempt) * Factor(p.jitter, value))
  {}

  /** The least random value gives the lower end of the jitter band, the greatest the upper end, cut at the cap. */
  lemma DelayEnds(p: RetryPolicy, attempt: nat)
    requires ValidPolicy(p) && attempt >= 1
    ensures Delay(p, attempt, 0.0).Ok? && Delay(p, attempt, 1.0).Ok?
    ensures Delay(p, attempt, 0.0).value == Backoff(p, attempt) * (1.0 - p.jitter)
    ensures Delay(p, attempt, 1.0).value == Min(p.maxDelay, Backoff(p, attempt) * (1.0 + p.jitter))
  {
    var raw := Backoff(p, attempt);
    BackoffBounds(p, attempt);
    Capped(p.maxDelay, raw);
    TimesOne(raw, 1.0 - p.jitter);
    TimesOne(raw, 1.0 + p.jitter);
    if p.jitter > 0.0 {
      FactorEnds(p.jitter);
      DelayIs(p, attempt, 0.0);
      DelayIs(p, attempt, 1.0);
      SameScale(raw, Factor(p.jitter, 0.0), 1.0 - p.jitter);
      SameScale(raw, Factor(p.jitter, 1.0), 1.0 + p.jitter);
      ScaleNonNegative(raw, 1.0 - p.jitter, 1.0);
      TimesOne(raw, 1.0);
      Capped(p.maxDelay, raw * (1.0 - p.jitter));
    }
  }

  lemma FactorGrows(jitter: real, value: real, more: real)
    requires 0.0 <= jitter && value <= more
    ensures Factor(jitter, value) <= Factor(jitter, more)
  {
    ScaleNonNegative(jitter, value, more);
  }

  /** A greater random value gives no shorter delay. */
  lemma DelayGrows(p: RetryPolicy, attempt: nat, value: real, more: real)
    requires ValidPolicy(p) && attempt >= 1 && 0.0 <= value <= more <= 1.0
    ensures Delay(p, attempt, value).value <= Delay(p, attempt, more).value
  {
    if p.jitter > 0.0 {
      DelayIs(p, attempt, value);
      DelayIs(p, attempt, more);
      BackoffBounds(p, attempt);
      FactorGrows(p.jitter, value, more);
      ScaledCap(p.maxDelay, Backoff(p, attempt), Factor(p.jitter, value), Factor(p.jitter, more));
    }
  }

  /** The value 0.5 cancels the jitter, whatever its setting. */
  lemma HalfCancelsJitter(p: RetryPolicy, attempt: nat)
    requires ValidPolicy(p) && attempt >= 1
    ensures Delay(p, attempt, 0.5) == Ok(Backoff(p, attempt))
  {
    var raw := Backoff(p, attempt);
    assert Factor(p.jitter, 0.5) == 1.0;
    assert raw * 1.0 == raw;
  }

  // ---------- classification ----------

  datatype RetryClass = Transient | RateLimited | Integrity | Permanent | Unsafe

  function Classify(code: string, isProtected: bool): RetryClass {
    if isProtected then Unsafe
    else if code in {"UNAUTHORIZED", "PROTECTED_PRODUCTION", "UNSAFE_OPERATION", "POLICY_DENIED"} then Unsafe
    else if code in {"TRANSFER_INPUT", "SOURCE_MISSING", "DESTINATION_EXISTS", "UNSUPPORTED"} then Permanent
    else if code in {"RATE_LIMIT", "RATE_LIMITED", "HTTP_429", "FLOOD_WAIT"} then RateLimited
    else if code in {"VERIFY_MISMATCH", "CHECKSUM_MISMATCH", "INTEGRITY"} then Integrity
    else Transient
  }

  /** Protection overrides the code, and a code of no list is taken for transient. */
  lemma ClassifyTable(code: string, isProtected: bool)
    ensures Classify(code, isProtected) == Unsafe <==>
              isProtected || code in {"UNAUTHORIZED", "PROTECTED_PRODUCTION", "UNSAFE_OPERATION", "POLICY_DENIED"}
    ensures !isProtected ==>
      && (Classify(code, false) == Permanent <==>
            code in {"TRANSFER_INPUT", "SOURCE_MISSING", "DESTINATION_EXISTS", "UNSUPPORTED"})
      && (Classify(code, false) == RateLimited <==>
            code in {"RATE_LIMIT", "RATE_LIMITED", "HTTP_429", "FLOOD_WAIT"})
      && (Classify(code, false) == Integrity <==> code in {"VERIFY_MISMATCH", "CHECKSUM_MISMATCH", "INTEGRITY"})
  {}

  // ---------- the executor ----------

  datatype Status = Success | Retryable | PermanentFailure | UnsafeFailure | CancelledByExecutor

  datatype ExecutionResult = ExecutionResult(status: Status, code: Option<string>, message: Option<string>, delay: real)

  /** What `TransferManager.transfer` hands back, as far as the executor looks at it. */
  datatype TransferOutcome = TransferOutcome(success: bool, error: Option<string>)

  function NonEmpty(s: Option<string>): Option<string> {
    if s == Some("") then None else s
  }

  const UNSAFE_PHRASES: seq<string> := ["protected production boundary", "authorization"]
  const PERMANENT_PHRASES: seq<string> := ["destination exists", "source is not", "exceeds max_inflight_bytes"]

  /** `execute`; `outcome` is what the transfer it starts comes back with. */
  function Execute(p: RetryPolicy, row: Row, receipt: Option<Receipt>, outcome: TransferOutcome): ExecutionResult
    requires ValidPolicy(p)
  {
    if row.request.kind != Upload && row.request.kind != Download then
      ExecutionResult(PermanentFailure, Some("UNSUPPORTED_JOB_TYPE"), Some("transfer executor cannot execute"), 0.0)
    else if NonEmpty(row.request.source).None? || NonEmpty(row.request.destination).None? then
      ExecutionResult(PermanentFailure, Some("MISSING_TRANSFER_PATH"),
                      Some("transfer job requires source and destination"), 0.0)
    else if receipt.Some? && receipt.value.operation != Transfer then
      ExecutionResult(UnsafeFailure, Some("AUTHORIZATION_SCOPE_MISMATCH"),
                      Some("transfer authorization does not match TRANSFER"), 0.0)
    else if outcome.success then ExecutionResult(Success, None, None, 0.0)
    else
      var error := if NonEmpty(outcome.error).Some? then outcome.error.value else "transfer failed";
      if Contains(error, "protected production boundary") then
        ExecutionResult(UnsafeFailure, Some("PROTECTED_PRODUCTION"), Some(error), 0.0)
      else if Contains(error, "authorization") then
        ExecutionResult(UnsafeFailure, Some("UNAUTHORIZED"), Some(error), 0.0)
      else if Contains(error, "destination exists") || Contains(error, "source is not") then
        ExecutionResult(PermanentFailure, Some("TRANSFER_INPUT"), Some(error), 0.0)
      else if Contains(error, "exceeds max_inflight_bytes") then
        ExecutionResult(PermanentFailure, Some("TRANSFER_RESOURCE_LIMIT"), Some(error), 0.0)
      else
        var code := if Contains(error, "checksum mismatch") then "VERIFY_MISMATCH" else "TRANSFER_FAILED";
        var category := Classify(code, false);
        if category == Integrity || category == Transient || category == RateLimited then
          var attempt := if row.attempts + 1 > 1 then row.attempts + 1 else 1;
          var delay := Delay(p, attempt, 0.5);
          ExecutionResult(Retryable, Some(code), Some(error), if delay.Ok? then delay.value else 0.0)
        else ExecutionResult(PermanentFailure, Some(code), Some(error), 0.0)
  }

  /** The job is one this executor can run with this receipt. */
  predicate Runnable(row: Row, receipt: Option<Receipt>) {
    && (row.request.kind == Upload || row.request.kind == Download)
    && NonEmpty(row.request.source).Some? && NonEmpty(row.request.destination).Some?
    && (receipt.Some? ==> receipt.value.operation == Transfer)
  }

  predicate Mentions(error: string, phrases: seq<string>) {
    exists phrase :: phrase in phrases && Contains(error, phrase)
  }

  /** The message the executor looks at. */
  function ErrorText(outcome: TransferOutcome): string { NonEmpty(outcome.error).GetOr("transfer failed") }

  /** The attempt the delay is computed for. */
  function NextAttempt(row: Row): nat { if row.attempts + 1 > 1 then row.attempts + 1 else 1 }

  /** Which jobs succeed. */
  lemma SucceedsIff(p: RetryPolicy, row: Row, receipt: Option<Receipt>, outcome: TransferOutcome)
    requires ValidPolicy(p)
    ensures var r, q := Execute(p, row, receipt, outcome), row.request;
      && (r.status == Success <==>
            && (q.kind == Upload || q.kind == Download)
            && q.source != None && q.source != Some("") && q.destination != None && q.destination != Some("")
            && (receipt.Some? ==> receipt.value.operation == Transfer)
            && outcome.success)
      && (r.status == Success ==> r == ExecutionResult(Success, None, None, 0.0))
      && r.status != CancelledByExecutor
  {}

  /** And what comes of those that are refused before any transfer. */
  lemma RefusedEarly(p: RetryPolicy, row: Row, receipt: Option<Receipt>, outcome: TransferOutcome)
    requires ValidPolicy(p)
    ensures var r, q := Execute(p, row, receipt, outcome), row.request;
      if q.kind != Upload && q.kind != Download then
        r.status == PermanentFailure && r.code == Some("UNSUPPORTED_JOB_TYPE")
      else if q.source in {None, Some("")} || q.destination in {None, Some("")} then
        r.status == PermanentFailure && r.code == Some("MISSING_TRANSFER_PATH")
      else if receipt.Some? && receipt.value.operation != Transfer then
        r.status == UnsafeFailure && r.code == Some("AUTHORIZATION_SCOPE_MISMATCH")
      else r.status == Success <==> outcome.success
  {}

  /** The job is one this executor can run with this receipt exactly when it gets as far as a transfer. */
  lemma RunnableIff(row: Row, receipt: Option<Receipt>)
    ensures Runnable(row, receipt) <==>
      && (row.request.kind == Upload || row.request.kind == Download)
      && row.request.source !in {None, Some("")} && row.request.destination !in {None, Some("")}
      && (receipt.Some? ==> receipt.value.operation == Transfer)
  {}

  /** The code of a failed transfer goes by the first of the phrases its message contains. */
  lemma FailureCodes(p: RetryPolicy, row: Row, receipt: Option<Receipt>, outcome: TransferOutcome)
    requires ValidPolicy(p) && Runnable(row, receipt) && !outcome.success
    ensures var r := Execute(p, row, receipt, outcome);
      var error := if outcome.error in {None, Some("")} then "transfer failed" else outcome.error.value;
      && r.message == Some(error)
      && r.code == Some(
           if Contains(error, "protected production boundary") then "PROTECTED_PRODUCTION"
           else if Contains(error, "authorization") then "UNAUTHORIZED"
           else if Contains(error, "destination exists") || Contains(error, "source is not") then "TRANSFER_INPUT"
           else if Contains(error, "exceeds max_inflight_bytes") then "TRANSFER_RESOURCE_LIMIT"
           else if Contains(error, "checksum mismatch") then "VERIFY_MISMATCH"
           else "TRANSFER_FAILED")
      && (r.status == UnsafeFailure <==>
            Contains(error, "protected production boundary") || Contains(error, "authorization"))
      && r.status in {UnsafeFailure, PermanentFailure, Retryable}
      && (r.status == Retryable <==>
            && !Contains(error, "protected production boundary") && !Contains(error, "authorization")
            && !Contains(error, "destination exists") && !Contains(error, "source is not")
            && !Contains(error, "exceeds max_inflight_bytes"))
  {
    BothCodesRetried();
  }

  lemma MentionsEither(error: string, a: seq<string>, b: seq<string>)
    ensures Mentions(error, a + b) <==> Mentions(error, a) || Mentions(error, b)
  {}

  lemma MentionsUnsafe(error: string)
    ensures Mentions(error, UNSAFE_PHRASES)
       <==> Contains(error, UNSAFE_PHRASES[0]) || Contains(error, UNSAFE_PHRASES[1])
  {
    assert UNSAFE_PHRASES[0] in UNSAFE_PHRASES && UNSAFE_PHRASES[1] in UNSAFE_PHRASES;
  }

  lemma MentionsPermanent(error: string)
    ensures Mentions(error, PERMANENT_PHRASES)
       <==> Contains(error, PERMANENT_PHRASES[0]) || Contains(error, PERMANENT_PHRASES[1])
            || Contains(error, PERMANENT_PHRASES[2])
  {
    assert PERMANENT_PHRASES[0] in PERMANENT_PHRASES && PERMANENT_PHRASES[1] in PERMANENT_PHRASES
           && PERMANENT_PHRASES[2] in PERMANENT_PHRASES;
  }

  lemma BothCodesRetried()
    ensures Classify("VERIFY_MISMATCH", false) == Integrity && Classify("TRANSFER_FAILED", false) == Transient
  {}

  /** A transfer that failed is tried again exactly when its message mentions none of five phrases, and then the
      wait is the bare exponential backoff of the attempt being recorded. */
  lemma RetriedIff(p: RetryPolicy, row: Row, receipt: Option<Receipt>, outcome: TransferOutcome)
    requires ValidPolicy(p) && Runnable(row, receipt) && !outcome.success
    ensures var r, error := Execute(p, row, receipt, outcome), ErrorText(outcome);
      && (r.status == Retryable <==> !Mentions(error, UNSAFE_PHRASES + PERMANENT_PHRASES))
      && (r.status == UnsafeFailure <==> Mentions(error, UNSAFE_PHRASES))
      && (r.status == Retryable ==> r.delay == Backoff(p, NextAttempt(row)))
      && r.status != Success && r.status != CancelledByExecutor
  {
    var error := ErrorText(outcome);
    HalfCancelsJitter(p, NextAttempt(row));
    BothCodesRetried();
    MentionsEither(error, UNSAFE_PHRASES, PERMANENT_PHRASES);
    MentionsUnsafe(error);
    MentionsPermanent(error);
  }

  lemma RetryableDelay(p: RetryPolicy, row: Row, receipt: Option<Receipt>, outcome: TransferOutcome)
    requires ValidPolicy(p) && Execute(p, row, receipt, outcome).status == Retryable
    ensures Execute(p, row, receipt, outcome).delay == Backoff(p, NextAttempt(row))
  {
    HalfCancelsJitter(p, NextAttempt(row));
  }

  // ---------- paths in messages ----------

  /** An occurrence spells characters of the phrase only. */
  lemma Spelled(text: string, phrase: string, i: nat, k: nat)
    requires i <= |text| && OccursAt(text, phrase, i) && i <= k < i + |phrase|
    ensures k < |text| && text[k] in phrase
  {
    assert text[i..i + |phrase|][k - i] == text[k];
  }

  /** A phrase without the character `q` does not reach across one. */
  lemma ContainsAcross(a: string, q: char, b: string, phrase: string)
    requires q !in phrase && phrase != []
    ensures Contains(a + [q] + b, phrase) <==> Contains(a, phrase) || Contains(b, phrase)
  {
    var text := a + [q] + b;
    if i: nat :| i <= |text| && OccursAt(text, phrase, i) {
      if i + |phrase| <= |a| {
        assert text == [] + a + ([q] + b);
        OccursInPart([], a, [q] + b, phrase, i);
      } else if i > |a| {
        assert text == (a + [q]) + b + [];
        OccursInPart(a + [q], b, [], phrase, i - |a| - 1);
      } else {
        Spelled(text, phrase, i, |a|);
      }
    }
    if Contains(a, phrase) {
      PartContains([], a, [q] + b, phrase);
      assert [] + a + ([q] + b) == text;
    }
    if Contains(b, phrase) {
      PartContains(a + [q], b, [], phrase);
      assert (a + [q]) + b + [] == text;
    }
  }

  /** An I/O error quotes the path it is about. */
  function Quoting(before: string, q: char, shown: string, after: string): string {
    before + [q] + (shown + [q] + after)
  }

  lemma MentionsInQuote(before: string, q: char, shown: string, after: string, phrases: seq<string>)
    requires forall phrase :: phrase in phrases ==> q !in phrase && phrase != []
    ensures Mentions(Quoting(before, q, shown, after), phrases)
       <==> Mentions(before, phrases) || Mentions(shown, phrases) || Mentions(after, phrases)
  {
    forall phrase | phrase in phrases
      ensures Contains(Quoting(before, q, shown, after), phrase)
         <==> Contains(before, phrase) || Contains(shown, phrase) || Contains(after, phrase)
    {
      ContainsAcross(before, q, shown + [q] + after, phrase);
      ContainsAcross(shown, q, after, phrase);
    }
  }

  lemma UnsafeUnquoted(q: char)
    requires q == '\'' || q == '"'
    ensures q !in UNSAFE_PHRASES[0] && q !in UNSAFE_PHRASES[1]
  {}

  lemma PermanentUnquoted(q: char)
    requires q == '\'' || q == '"'
    ensures q !in PERMANENT_PHRASES[0] && q !in PERMANENT_PHRASES[1] && q !in PERMANENT_PHRASES[2]
  {}

  lemma PhrasesUnquoted(q: char)
    requires q == '\'' || q == '"'
    ensures forall phrase :: phrase in UNSAFE_PHRASES + PERMANENT_PHRASES ==> q !in phrase && phrase != []
  {
    UnsafeUnquoted(q);
    PermanentUnquoted(q);
  }

  /** The path decides: whatever I/O error a transfer ends with, if its text without the path mentions none of the
      phrases, then it is tried again exactly when the path mentions none either, and is given up as unsafe
      exactly when the path mentions one of the first two. */
  lemma PathDecidesRetry(p: RetryPolicy, row: Row, receipt: Option<Receipt>, before: string, q: char, shown: string,
                         after: string)
    requires ValidPolicy(p) && Runnable(row, receipt) && (q == '\'' || q == '"')
    requires !Mentions(before, UNSAFE_PHRASES + PERMANENT_PHRASES)
             && !Mentions(after, UNSAFE_PHRASES + PERMANENT_PHRASES)
    ensures var r := Execute(p, row, receipt, TransferOutcome(false, Some(Quoting(before, q, shown, after))));
      && (r.status == Retryable <==> !Mentions(shown, UNSAFE_PHRASES + PERMANENT_PHRASES))
      && (r.status == UnsafeFailure <==> Mentions(shown, UNSAFE_PHRASES))
  {
    var outcome := TransferOutcome(false, Some(Quoting(before, q, shown, after)));
    assert ErrorText(outcome) == Quoting(before, q, shown, after);
    RetriedIff(p, row, receipt, outcome);
    PhrasesUnquoted(q);
    FewerPhrases(before);
    FewerPhrases(after);
    MentionsInQuote(before, q, shown, after, UNSAFE_PHRASES + PERMANENT_PHRASES);
    MentionsInQuote(before, q, shown, after, UNSAFE_PHRASES);
  }

  lemma FewerPhrases(text: string)
    ensures Mentions(text, UNSAFE_PHRASES) ==> Mentions(text, UNSAFE_PHRASES + PERMANENT_PHRASES)
  {}

  lemma Absent(plain: string, phrase: string, k: nat)
    requires k < |phrase| && phrase[k] !in plain
    ensures !Contains(plain, phrase)
  {
    forall i: nat | i <= |plain| ensures !OccursAt(plain, phrase, i) {
      if i + |phrase| <= |plain| {
        assert plain[i..i + |phrase|][k] == plain[i + k];
      }
    }
  }

  const FAILURE := "transfer I/O error: "
  const ERRNO := "[Errno 28] No space "
  const LEFT := "left on device: "
  const DISK_FULL := FAILURE + ERRNO + LEFT

  const TELLING := {'y', 'z', 'x', 'u'}

  lemma LettersAbsent()
    ensures forall c :: c in DISK_FULL ==> c !in TELLING
  {
    assert forall c :: c in FAILURE ==> c !in TELLING;
    assert forall c :: c in ERRNO ==> c !in TELLING;
    assert forall c :: c in LEFT ==> c !in TELLING;
  }

  lemma DiskFullMentionsNothing()
    ensures !Mentions(DISK_FULL, UNSAFE_PHRASES + PERMANENT_PHRASES)
    ensures !Mentions("", UNSAFE_PHRASES + PERMANENT_PHRASES)
  {
    LettersAbsent();
    forall phrase | phrase in UNSAFE_PHRASES + PERMANENT_PHRASES
      ensures !Contains(DISK_FULL, phrase) && !Contains("", phrase)
    {
      var k := TellingLetter(phrase);
      Absent(DISK_FULL, phrase, k);
      Absent("", phrase, k);
    }
  }

  /** Each phrase has a letter that the message does not. */
  ghost function TellingLetter(phrase: string): (k: nat)
    requires phrase in UNSAFE_PHRASES + PERMANENT_PHRASES
    ensures k < |phrase| && phrase[k] in TELLING
  {
    if phrase == UNSAFE_PHRASES[0] then 28
    else if phrase == UNSAFE_PHRASES[1] then 7
    else if phrase == PERMANENT_PHRASES[0] then 13
    else if phrase == PERMANENT_PHRASES[1] then 2
    else 1
  }

  /** A full disk, for one: retried exactly when the name of the file spells none of the phrases. */
  lemma DiskFullRetriedIff(p: RetryPolicy, row: Row, receipt: Option<Receipt>, shown: string)
    requires ValidPolicy(p) && Runnable(row, receipt)
    ensures Execute(p, row, receipt, TransferOutcome(false, Some(Quoting(DISK_FULL, '\'', shown, "")))).status
            == Retryable
       <==> !Mentions(shown, UNSAFE_PHRASES + PERMANENT_PHRASES)
  {
    DiskFullMentionsNothing();
    PathDecidesRetry(p, row, receipt, DISK_FULL, '\'', shown, "");
  }

  const MISMATCH := "post-transfer checksum mismatch"
  const NO_SOURCE := "source is not a regular file"
  const TAKEN := "destination exists"
  const TOO_BIG := "transfer exceeds max_inflight_bytes"

  /** Letters of the phrases, at these places. */
  lemma TellingLetters()
    ensures |UNSAFE_PHRASES[0]| > 8 && UNSAFE_PHRASES[0][0] == 'p' && UNSAFE_PHRASES[0][8] == 'd'
    ensures |UNSAFE_PHRASES[1]| > 7 && UNSAFE_PHRASES[1][7] == 'z'
    ensures |PERMANENT_PHRASES[0]| > 9 && PERMANENT_PHRASES[0][0] == 'd' && PERMANENT_PHRASES[0][9] == 'o'
    ensures |PERMANENT_PHRASES[1]| > 1 && PERMANENT_PHRASES[1][1] == 'o'
    ensures |PERMANENT_PHRASES[2]| > 5 && PERMANENT_PHRASES[2][5] == 'd'
  {}

  lemma MismatchLetters()
    ensures 'd' !in MISMATCH && 'z' !in MISMATCH
  {}

  lemma InputLetters()
    ensures 'p' !in NO_SOURCE && 'z' !in NO_SOURCE && 'p' !in TAKEN && 'z' !in TAKEN
  {}

  lemma TooBigLetters()
    ensures 'p' !in TOO_BIG && 'z' !in TOO_BIG && 'o' !in TOO_BIG
  {}

  lemma MismatchSpelled()
    ensures MISMATCH == "post-transfer " + "checksum mismatch"
  {}

  lemma NoSourceSpelled()
    ensures NO_SOURCE == "source is not" + " a regular file"
  {}

  lemma TooBigSpelled()
    ensures TOO_BIG == "transfer " + "exceeds max_inflight_bytes"
  {}

  lemma MismatchMentionsNothing()
    ensures forall phrase :: phrase in UNSAFE_PHRASES + PERMANENT_PHRASES ==> !Contains(MISMATCH, phrase)
  {
    TellingLetters();
    MismatchLetters();
    Absent(MISMATCH, UNSAFE_PHRASES[0], 8);
    Absent(MISMATCH, UNSAFE_PHRASES[1], 7);
    Absent(MISMATCH, PERMANENT_PHRASES[0], 0);
    Absent(MISMATCH, PERMANENT_PHRASES[2], 5);
    NoSourceInMismatch();
  }

  lemma NoSourceInMismatch()
    ensures !Contains(MISMATCH, PERMANENT_PHRASES[1])
  {
    var a, b := "post-transfer c", "ecksum mismatc";
    assert MISMATCH == a + ['h'] + (b + ['h'] + "");
    ContainsAcross(a, 'h', b + ['h'] + "", "source is not");
    ContainsAcross(b, 'h', "", "source is not");
    Absent(a, "source is not", 2);
    Absent(b, "source is not", 1);
    Absent("", "source is not", 0);
  }

  /** What becomes of the ways a copy can fail: different digests are retried as VERIFY_MISMATCH; a source or a
      destination in the wrong state and a transfer that is too big are given up. */
  lemma CopyFailureCodes(p: RetryPolicy, row: Row, receipt: Option<Receipt>)
    requires ValidPolicy(p) && Runnable(row, receipt)
    ensures var r := Execute(p, row, receipt, TransferOutcome(false, Some("post-transfer checksum mismatch")));
            r.status == Retryable && r.code == Some("VERIFY_MISMATCH")
    ensures var r := Execute(p, row, receipt, TransferOutcome(false, Some("destination exists")));
            r.status == PermanentFailure && r.code == Some("TRANSFER_INPUT")
    ensures var r := Execute(p, row, receipt, TransferOutcome(false, Some("source is not a regular file")));
            r.status == PermanentFailure && r.code == Some("TRANSFER_INPUT")
    ensures var r := Execute(p, row, receipt, TransferOutcome(false, Some("transfer exceeds max_inflight_bytes")));
            r.status == PermanentFailure && r.code == Some("TRANSFER_RESOURCE_LIMIT")
  {
    MismatchRetried(p, row, receipt);
    InputGivenUp(p, row, receipt, NO_SOURCE);
    InputGivenUp(p, row, receipt, TAKEN);
    TooBigGivenUp(p, row, receipt);
  }

  lemma MismatchRetried(p: RetryPolicy, row: Row, receipt: Option<Receipt>)
    requires ValidPolicy(p) && Runnable(row, receipt)
    ensures var r := Execute(p, row, receipt, TransferOutcome(false, Some(MISMATCH)));
            r.status == Retryable && r.code == Some("VERIFY_MISMATCH")
  {
    MismatchInWords();
    FailureCodes(p, row, receipt, TransferOutcome(false, Some(MISMATCH)));
  }

  lemma MismatchInWords()
    ensures !Contains(MISMATCH, "protected production boundary") && !Contains(MISMATCH, "authorization")
    ensures !Contains(MISMATCH, "destination exists") && !Contains(MISMATCH, "source is not")
    ensures !Contains(MISMATCH, "exceeds max_inflight_bytes") && Contains(MISMATCH, "checksum mismatch")
  {
    MismatchMentionsNothing();
    PhrasesOf();
    MismatchSpelled();
    ContainsSuffix("post-transfer ", "checksum mismatch");
  }

  lemma PhrasesOf()
    ensures forall i :: 0 <= i < 2 ==> UNSAFE_PHRASES[i] in UNSAFE_PHRASES + PERMANENT_PHRASES
    ensures forall i :: 0 <= i < 3 ==> PERMANENT_PHRASES[i] in UNSAFE_PHRASES + PERMANENT_PHRASES
  {
    assert forall i :: 0 <= i < 2 ==> (UNSAFE_PHRASES + PERMANENT_PHRASES)[i] == UNSAFE_PHRASES[i];
    assert forall i :: 0 <= i < 3 ==> (UNSAFE_PHRASES + PERMANENT_PHRASES)[i + 2] == PERMANENT_PHRASES[i];
  }

  lemma InputGivenUp(p: RetryPolicy, row: Row, receipt: Option<Receipt>, error: string)
    requires ValidPolicy(p) && Runnable(row, receipt) && (error == NO_SOURCE || error == TAKEN)
    ensures var r := Execute(p, row, receipt, TransferOutcome(false, Some(error)));
            r.status == PermanentFailure && r.code == Some("TRANSFER_INPUT")
  {
    TellingLetters();
    InputLetters();
    Absent(error, UNSAFE_PHRASES[0], 0);
    Absent(error, UNSAFE_PHRASES[1], 7);
    if error == NO_SOURCE {
      NoSourceSpelled();
      ContainsPrefix("source is not", " a regular file");
    } else {
      assert TAKEN + "" == TAKEN;
      ContainsPrefix(TAKEN, "");
    }
    FailureCodes(p, row, receipt, TransferOutcome(false, Some(error)));
    RetriedIff(p, row, receipt, TransferOutcome(false, Some(error)));
  }

  lemma TooBigGivenUp(p: RetryPolicy, row: Row, receipt: Option<Receipt>)
    requires ValidPolicy(p) && Runnable(row, receipt)
    ensures var r := Execute(p, row, receipt, TransferOutcome(false, Some(TOO_BIG)));
            r.status == PermanentFailure && r.code == Some("TRANSFER_RESOURCE_LIMIT")
  {
    TellingLetters();
    TooBigLetters();
    Absent(TOO_BIG, UNSAFE_PHRASES[0], 0);
    Absent(TOO_BIG, UNSAFE_PHRASES[1], 7);
    Absent(TOO_BIG, PERMANENT_PHRASES[0], 9);
    Absent(TOO_BIG, PERMANENT_PHRASES[1], 1);
    TooBigSpelled();
    ContainsSuffix("transfer ", "exceeds max_inflight_bytes");
    FailureCodes(p, row, receipt, TransferOutcome(false, Some(TOO_BIG)));
  }

  /** The gate and the executor agree: a transfer the safety boundary refuses is never tried again. */
  lemma RefusedTransfersAreUnsafe(p: RetryPolicy, row: Row, receipt: Option<Receipt>,
                                  boundary: seq<Path>, paths: seq<Path>, explicit: bool, used: Option<Receipt>)
    requires ValidPolicy(p) && Runnable(row, receipt) && row.attempts >= 0
    requires !Authorize(boundary, Transfer, paths, explicit, used).allowed
    ensures Execute(p, row, receipt,
                    TransferOutcome(false, Some(Authorize(boundary, Transfer, paths, explicit, used).reason))).status
            == UnsafeFailure
  {
    RefusalReason(boundary, Transfer, paths, explicit, used);
    var reason := Authorize(boundary, Transfer, paths, explicit, used).reason;
    assert Contains(reason, AUTHORIZATION) || Contains(reason, BOUNDARY);
    assert !OccursAt("", AUTHORIZATION, 0) && !OccursAt("", BOUNDARY, 0);
  }
}
