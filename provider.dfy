/**
 * The text provider boundary of server.js: the bounded retry loop around
 * the language-model call and the built-in fallback sentences. The provider
 * is given as the sequence of its answers to successive calls; the random
 * pick is a number in [0, 1) the caller supplies; sleeps are returned as
 * their lengths in milliseconds.
 */
module Provider {
  import opened Wrappers
  import opened Tiers
  import Text

  /** A thrown error: its `status` (absent when undefined) and its `message`. */
  datatype ProviderError = ProviderError(status: Option<int>, message: string)

  /** What one `generateContent` call gives: text, or an error. */
  datatype Outcome = Answered(text: string) | Failed(error: ProviderError)

  /** `err?.status || (err?.message?.includes?.('overloaded') ? 503 : null)`; a status of 0 is falsy. */
  function EffectiveStatus(e: ProviderError): (r: Option<int>)
    ensures r.Some? ==> r.value != 0
    ensures e.status.Some? && e.status.value != 0 ==> r == e.status
    ensures (e.status.None? || e.status == Some(0)) ==>
              (r.Some? <==> Text.Contains(e.message, "overloaded")) && (r.Some? ==> r.value == 503)
  {
    if e.status.Some? && e.status.value != 0 then e.status
    else if Text.Contains(e.message, "overloaded") then Some(503)
    else None
  }

  /** `status === 503 || !status`: a server overload or an error without a status. */
  predicate Retryable(e: ProviderError)
  {
    var s := EffectiveStatus(e);
    s == Some(503) || s.None?
  }

  function Pow2(k: nat): (r: nat)
    ensures r >= 1
  {
    if k == 0 then 1 else 2 * Pow2(k - 1)
  }

  /** The wait before the attempt after `attempt`: `500 * 2^(attempt-1)` ms. */
  function Backoff(attempt: nat): nat
    requires attempt >= 1
  {
    500 * Pow2(attempt - 1)
  }

  /** The wait doubles from one retry to the next, starting at 500 ms. */
  lemma BackoffDoubles(attempt: nat)
    requires attempt >= 1
    ensures Backoff(1) == 500
    ensures Backoff(attempt + 1) == 2 * Backoff(attempt)
  {
  }

  /** The retry helper returns the text, or rethrows the last error (`undefined` if it never called). */
  datatype Generation = Generated(text: string) | Threw(lastError: Option<ProviderError>)

  /**
   * A run of the retry loop over `answers` with `maxAttempts` made `calls`
   * calls and slept `sleeps`: every call but the last failed with a
   * retryable error and was followed by its backoff; the last call's answer
   * is returned, or its error rethrown once it was not retryable or no
   * attempt was left.
   */
  ghost predicate IsRetryRun(answers: seq<Outcome>, maxAttempts: nat, r: Generation, calls: nat, sleeps: seq<nat>)
  {
    && calls <= maxAttempts && calls <= |answers|
    && (calls == 0 <==> maxAttempts == 0)
    && (forall j :: 0 <= j < calls - 1 ==> answers[j].Failed? && Retryable(answers[j].error))
    && |sleeps| == (if calls == 0 then 0 else calls - 1)
    && (forall k :: 0 <= k < |sleeps| ==> sleeps[k] == Backoff(k + 1))
    && (calls == 0 ==> r == Threw(None))
    && (calls > 0 ==>
          match answers[calls - 1]
          case Answered(t) => r == Generated(t)
          case Failed(e) => r == Threw(Some(e)) && (calls == maxAttempts || !Retryable(e)))
  }

  /** `generateFromGeminiWithRetries(model, prompt, maxAttempts)`. */
  method GenerateWithRetries(answers: seq<Outcome>, maxAttempts: nat)
    returns (r: Generation, calls: nat, sleeps: seq<nat>)
    requires maxAttempts <= |answers|
    ensures IsRetryRun(answers, maxAttempts, r, calls, sleeps)
  {
    var lastErr: Option<ProviderError> := None;
    sleeps := [];
    calls := 0;
    var attempt := 1;
    while attempt <= maxAttempts
      invariant 1 <= attempt <= maxAttempts + 1
      invariant calls == 0 || attempt <= maxAttempts
      invariant calls == attempt - 1
      invariant forall j :: 0 <= j < calls ==> answers[j].Failed? && Retryable(answers[j].error)
      invariant |sleeps| == calls
      invariant forall k :: 0 <= k < |sleeps| ==> sleeps[k] == Backoff(k + 1)
      invariant lastErr == if calls == 0 then None else Some(answers[calls - 1].error)
    {
      calls := attempt;
      match answers[attempt - 1]
      case Answered(text) =>
        r := Generated(text);
        return;
      case Failed(err) =>
        lastErr := Some(err);
        if Retryable(err) && attempt < maxAttempts {
          sleeps := sleeps + [Backoff(attempt)];
          attempt := attempt + 1;
          continue;
        }
        break;
    }
    r := Threw(lastErr);
  }

  /** A retry run is determined by the answers and the attempt budget. */
  lemma RetryRunIsUnique(answers: seq<Outcome>, maxAttempts: nat,
                         r1: Generation, calls1: nat, sleeps1: seq<nat>,
                         r2: Generation, calls2: nat, sleeps2: seq<nat>)
    requires IsRetryRun(answers, maxAttempts, r1, calls1, sleeps1)
    requires IsRetryRun(answers, maxAttempts, r2, calls2, sleeps2)
    ensures r1 == r2 && calls1 == calls2 && sleeps1 == sleeps2
  {
  }

  /** The built-in sentences per difficulty. */
  function Samples(t: Tier): (pool: seq<string>)
    ensures |pool| == 2
  {
    match t
    case Normal => [
      "ทดสอบการพิมพ์: The quick brown fox jumps over the lazy dog. ลองพิมพ์ดู!",
      "สวัสดีครับ This is a short mixed Thai-English sentence for typing practice."
    ]
    case NormalPlus => [
      "ลองพิมพ์ 😊 Hello world! สวัสดี — type fast, stay focused! 🚀",
      "ภาษาไทย + English + emoji: สวัสดีครับ 🌟 Keep typing, keep improving!"
    ]
    case NormalProMax => [
      "Symb0l$ & Th@ii: กรอกข้อความนี้ 12345 !@# Mix of symbols, ภาษาไทย และ English.",
      "PRO: ~!@#$%^&*() ภาษาไทย/English 12345 — speed test: พิมพ์เร็วๆ!"
    ]
  }

  /** `samples[difficulty] || samples.Normal`. */
  function SamplePool(difficulty: string): (pool: seq<string>)
    ensures ParseTier(difficulty).Some? ==> pool == Samples(ParseTier(difficulty).value)
    ensures ParseTier(difficulty).None? ==> pool == Samples(Normal)
  {
    match ParseTier(difficulty)
    case Some(t) => Samples(t)
    case None => Samples(Normal)
  }

  /** `Math.floor(random * n)` for a random number in [0, 1): an index below `n`. */
  function PickIndex(random: real, n: nat): (k: nat)
    requires 0.0 <= random < 1.0 && n > 0
    ensures k < n
    ensures k as real <= random * n as real < (k + 1) as real
    ensures n == 2 ==> (k == 0 <==> random < 0.5)
  {
    var x := random * n as real;
    ScaledInRange(random, n);
    FloorInRange(x, n);
    HalfwayPoint(random);
    assert n == 2 ==> x == random * 2.0;
    x.Floor
  }

  /** The floor of a real in [0, n) is an index below `n`. */
  lemma FloorInRange(x: real, n: nat)
    requires 0.0 <= x < n as real
    ensures 0 <= x.Floor < n
    ensures x.Floor as real <= x < (x.Floor + 1) as real
  {
  }

  /** Of two equal halves of [0, 1), a draw falls in the first exactly when it is below 0.5. */
  lemma HalfwayPoint(random: real)
    requires 0.0 <= random < 1.0
    ensures (random * 2.0).Floor == 0 <==> random < 0.5
  {
  }

  /** A draw in [0, 1) scaled by a positive `n` lies in [0, n). */
  lemma ScaledInRange(random: real, n: nat)
    requires 0.0 <= random < 1.0 && n > 0
    ensures 0.0 <= random * n as real < n as real
  {
    var m := n as real;
    assert m - random * m == (1.0 - random) * m;
    assert (1.0 - random) * m > 0.0;
  }

  lemma PickFromPair(pool: seq<string>, random: real)
    requires |pool| == 2 && 0.0 <= random < 1.0
    ensures pool[PickIndex(random, |pool|)] in pool
    ensures random < 0.5 ==> pool[PickIndex(random, |pool|)] == pool[0]
    ensures random >= 0.5 ==> pool[PickIndex(random, |pool|)] == pool[1]
  {
  }

  /** `fallbackText(difficulty)` with `Math.random()` given as `random`. */
  function FallbackText(difficulty: string, random: real): (text: string)
    requires 0.0 <= random < 1.0
    ensures text in SamplePool(difficulty)
    ensures random < 0.5 ==> text == SamplePool(difficulty)[0]
    ensures random >= 0.5 ==> text == SamplePool(difficulty)[1]
  {
    var pool := SamplePool(difficulty);
    PickFromPair(pool, random);
    pool[PickIndex(random, |pool|)]
  }

  /** The answer of the get-text endpoint: 400, or a text. */
  datatype TextReply = InvalidDifficulty | Text(text: string)

  /**
   * The get-text endpoint of server.js: an unknown difficulty is refused
   * before any call; otherwise up to 3 attempts, and the fallback sentence
   * when they end in an error.
   */
  method GetText(difficulty: string, answers: seq<Outcome>, random: real) returns (reply: TextReply, calls: nat)
    requires 3 <= |answers|
    requires 0.0 <= random < 1.0
    ensures reply.InvalidDifficulty? <==> ParseTier(difficulty).None?
    ensures reply.InvalidDifficulty? ==> calls == 0
    ensures reply.Text? ==> 1 <= calls <= 3
    ensures reply.Text? ==> forall j :: 0 <= j < calls - 1 ==> answers[j].Failed? && Retryable(answers[j].error)
    ensures reply.Text? && answers[calls - 1].Answered? ==> reply.text == answers[calls - 1].text
    ensures reply.Text? && answers[calls - 1].Failed? ==> reply.text == FallbackText(difficulty, random)
    ensures reply.Text? ==>
              exists g, sleeps :: && IsRetryRun(answers, 3, g, calls, sleeps)
                                  && (g.Generated? ==> reply.text == g.text)
                                  && (g.Threw? ==> reply.text == FallbackText(difficulty, random))
  {
    if ParseTier(difficulty).None? {
      return InvalidDifficulty, 0;
    }
    var r, sleeps;
    r, calls, sleeps := GenerateWithRetries(answers, 3);
    match r
    case Generated(text) => reply := Text(text);
    case Threw(_) => reply := Text(FallbackText(difficulty, random));
  }
}
