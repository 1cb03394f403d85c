/**
 * The client's upload throttle (`--bwlimit`): a token bucket that never
 * blocks, and the loop that waits as long as it says. Times are seconds since
 * the pacer was made, and arithmetic is over the reals.
 */
module Pacer {
  import opened Reals

  // ---- the bucket, on values --------------------------------------------

  datatype Bucket = Bucket(last: real, tokens: real)

  function Burst(rate: real): real {
    if rate <= 65536.0 then 65536.0 else rate
  }

  /** The bytes `rate` allows in a stretch of time. */
  function Refill(rate: real, seconds: real): real {
    seconds * rate
  }

  /** The tokens of the bucket at time `t`; it may have been filled ahead of its time. */
  function Credit(rate: real, b: Bucket, t: real): real {
    MinR(b.tokens + Refill(rate, if t >= b.last then t - b.last else 0.0), Burst(rate))
  }

  ghost predicate Valid(rate: real, b: Bucket) {
    0.0 <= b.tokens <= Burst(rate)
  }

  lemma RefillNonNegative(rate: real, seconds: real)
    requires rate >= 0.0 && seconds >= 0.0
    ensures Refill(rate, seconds) >= 0.0
  {
  }

  /** Between three moments, the refills add up. */
  lemma RefillSplits(rate: real, s: real, m: real, t: real)
    ensures Refill(rate, t - s) == Refill(rate, m - s) + Refill(rate, t - m)
  {
    var a, b := m - s, t - m;
    assert (a + b) * rate == a * rate + b * rate;
  }

  /** From the moment it was last filled a bucket has what it had and the refill, up to the burst. */
  lemma CreditFlow(rate: real, b: Bucket, t: real)
    requires Valid(rate, b) && rate > 0.0 && b.last <= t
    ensures Credit(rate, b, t) == MinR(b.tokens + Refill(rate, t - b.last), Burst(rate))
    ensures 0.0 <= Credit(rate, b, t) <= Burst(rate)
  {
    RefillNonNegative(rate, t - b.last);
  }

  /** What asking to send does: draw the tokens, or spend the bucket's credit up to the end of the wait. */
  function Consumed(rate: real, b: Bucket, now: real, bytes: nat): (Bucket, real)
    requires rate > 0.0
  {
    var tokens := Credit(rate, b, now);
    if bytes as real <= tokens then (Bucket(now, tokens - bytes as real), 0.0)
    else (Bucket(now + (bytes as real - tokens) / rate, 0.0), (bytes as real - tokens) / rate)
  }

  /** The wait is none when there is credit, and otherwise ends exactly when there would be. */
  lemma WaitIsExact(rate: real, b: Bucket, now: real, bytes: nat)
    requires Valid(rate, b) && rate > 0.0 && b.last <= now
    ensures var (b', wait) := Consumed(rate, b, now, bytes);
            && wait >= 0.0 && Valid(rate, b') && b'.last == now + wait
            && (wait == 0.0 <==> bytes as real <= Credit(rate, b, now))
            && b'.tokens == Credit(rate, b, now) + Refill(rate, wait) - bytes as real
            && (wait > 0.0 ==> b'.tokens == 0.0)
  {
    CreditFlow(rate, b, now);
    var tokens := Credit(rate, b, now);
    if bytes as real > tokens {
      DeficitWait(rate, bytes as real - tokens);
    }
  }

  lemma DeficitWait(rate: real, deficit: real)
    requires rate > 0.0 && deficit > 0.0
    ensures deficit / rate > 0.0 && Refill(rate, deficit / rate) == deficit
  {
    var wait := deficit / rate;
    assert wait * rate == deficit;
    if wait <= 0.0 {
      RefillNonNegative(rate, -wait);
      assert false;
    }
  }

  function Total(chunks: seq<nat>): nat {
    if chunks == [] then 0 else Total(chunks[..|chunks| - 1]) + chunks[|chunks| - 1]
  }

  // ---- the pacer as it is updated in place -------------------------------

  class Pacer {
    const rate: real
    const burst: real
    var last: real
    var tokens: real

    constructor WithRate(rate: nat)
      ensures this.rate == rate as real && burst == Burst(rate as real)
      ensures Now() == Bucket(0.0, rate as real)
    {
      this.rate, burst := rate as real, if rate as real <= 65536.0 then 65536.0 else rate as real;
      last, tokens := 0.0, rate as real;
    }

    ghost function Now(): Bucket
      reads this
    {
      Bucket(last, tokens)
    }

    method RefillTokens(now: real)
      requires burst == Burst(rate)
      modifies this
      ensures last == now && tokens == Credit(rate, old(Now()), now)
    {
      tokens := MinR(tokens + (if now >= last then now - last else 0.0) * rate, burst);
      last := now;
    }

    predicate CheckCapacity(bytes: nat)
      reads this
    {
      bytes as real <= tokens
    }

    method Consume(now: real, bytes: nat) returns (wait: real)
      requires burst == Burst(rate)
      modifies this
      ensures rate <= 0.0 ==> wait == 0.0 && Now() == old(Now())
      ensures rate > 0.0 ==> (Now(), wait) == Consumed(rate, old(Now()), now, bytes)
    {
      if rate <= 0.0 {
        return 0.0;
      }
      RefillTokens(now);
      if CheckCapacity(bytes) {
        tokens := tokens - bytes as real;
        return 0.0;
      }
      wait := (bytes as real - tokens) / rate;
      last := now + wait;
      tokens := 0.0;
    }
  }

  /** When the first `i` chunks had been sent. */
  function Moment(sent: seq<real>, i: nat): real
    requires i <= |sent|
  {
    if i == 0 then 0.0 else sent[i - 1]
  }

  // ---- the windows ------------------------------------------------------

  /** When chunk `i` is read and asks to be sent. */
  function Ready(gaps: seq<real>, sent: seq<real>, i: nat): real
    requires i <= |sent| && i < |gaps|
  {
    Moment(sent, i) + gaps[i]
  }

  /** Window 0 opens at the start, with a second's worth; window `i + 1` when chunk `i` is ready, with a burst. */
  function Opens(gaps: seq<real>, sent: seq<real>, w: nat): real
    requires w <= |sent| + 1 && w <= |gaps|
  {
    if w == 0 then 0.0 else Ready(gaps, sent, w - 1)
  }

  function First(w: nat): nat {
    if w == 0 then 0 else w - 1
  }

  function Allowance(rate: real, w: nat): real {
    if w == 0 then rate else Burst(rate)
  }

  /** What window `w` has left at `t` once the chunks up to the `k`th are sent: its allowance and the rate. */
  function Left(rate: real, chunks: seq<nat>, gaps: seq<real>, sent: seq<real>, w: nat, k: nat, t: real): real
    requires w <= |sent| + 1 && w <= |gaps| && First(w) <= k <= |chunks|
  {
    Allowance(rate, w) + Refill(rate, t - Opens(gaps, sent, w)) - Total(chunks[First(w)..k]) as real
  }

  /** Window `w` has enough for chunk `k` at `t`. */
  ghost predicate Allows(rate: real, chunks: seq<nat>, gaps: seq<real>, sent: seq<real>, w: nat, k: nat, t: real)
    requires w <= k + 1 && k <= |sent| && k < |gaps| == |chunks|
  {
    Left(rate, chunks, gaps, sent, w, k + 1, t) >= 0.0
  }

  /** Chunk `k` may go out at `t`: no window that holds it exceeds what it has. */
  ghost predicate Fits(rate: real, chunks: seq<nat>, gaps: seq<real>, sent: seq<real>, k: nat, t: real)
    requires k <= |sent| && k < |gaps| == |chunks|
  {
    forall w :: 0 <= w <= k + 1 ==> Allows(rate, chunks, gaps, sent, w, k, t)
  }

  /** The earliest moment chunk `k` may go out, once it is ready. */
  ghost predicate Earliest(rate: real, chunks: seq<nat>, gaps: seq<real>, sent: seq<real>, k: nat, due: real)
    requires k <= |sent| && k < |gaps| == |chunks|
  {
    && Ready(gaps, sent, k) <= due && Fits(rate, chunks, gaps, sent, k, due)
    && forall t :: Ready(gaps, sent, k) <= t < due ==> !Fits(rate, chunks, gaps, sent, k, t)
  }

  lemma LeftLater(rate: real, chunks: seq<nat>, gaps: seq<real>, sent: seq<real>, w: nat, k: nat, s: real, t: real)
    requires w <= |sent| + 1 && w <= |gaps| && First(w) <= k <= |chunks|
    ensures Left(rate, chunks, gaps, sent, w, k, t) == Left(rate, chunks, gaps, sent, w, k, s) + Refill(rate, t - s)
  {
    RefillSplits(rate, Opens(gaps, sent, w), s, t);
  }

  lemma LeftNext(rate: real, chunks: seq<nat>, gaps: seq<real>, sent: seq<real>, w: nat, k: nat, t: real)
    requires w <= |sent| + 1 && w <= |gaps| && First(w) <= k < |chunks|
    ensures Left(rate, chunks, gaps, sent, w, k + 1, t) == Left(rate, chunks, gaps, sent, w, k, t) - chunks[k] as real
  {
    var i := First(w);
    assert chunks[i..k + 1][..k - i] == chunks[i..k];
  }

  /** A window that has just opened has all of its burst left. */
  lemma LeftOpening(rate: real, chunks: seq<nat>, gaps: seq<real>, sent: seq<real>, k: nat)
    requires k <= |sent| && k < |gaps| == |chunks|
    ensures Left(rate, chunks, gaps, sent, k + 1, k, Ready(gaps, sent, k)) == Burst(rate)
  {
    assert chunks[k..k] == [];
  }

  /** What is left does not depend on when later chunks are sent. */
  lemma LeftStays(rate: real, chunks: seq<nat>, gaps: seq<real>, sent: seq<real>, next: real, w: nat, k: nat, t: real)
    requires w <= |sent| + 1 && w <= |gaps| && First(w) <= k <= |chunks|
    ensures Left(rate, chunks, gaps, sent + [next], w, k, t) == Left(rate, chunks, gaps, sent, w, k, t)
  {
  }

  /** `tokens` is the least that any of the first `n` windows has left. */
  ghost predicate Least(rate: real, chunks: seq<nat>, gaps: seq<real>, sent: seq<real>, n: nat, k: nat, t: real,
                        tokens: real)
    requires n <= |sent| + 1 && n <= |gaps| && n <= k + 1 && k <= |chunks|
  {
    && (forall w :: 0 <= w <= n ==> tokens <= Left(rate, chunks, gaps, sent, w, k, t))
    && exists w :: 0 <= w <= n && tokens == Left(rate, chunks, gaps, sent, w, k, t)
  }

  /** The credit when a chunk is ready is the least that any window has left. */
  lemma CreditIsLeast(rate: real, chunks: seq<nat>, gaps: seq<real>, sent: seq<real>, b: Bucket)
    requires |sent| < |gaps| == |chunks| && rate > 0.0 && Valid(rate, b)
    requires Least(rate, chunks, gaps, sent, |sent|, |sent|, b.last, b.tokens)
    requires b.last <= Ready(gaps, sent, |sent|)
    ensures var now := Ready(gaps, sent, |sent|);
            Least(rate, chunks, gaps, sent, |sent| + 1, |sent|, now, Credit(rate, b, now))
  {
    hide Credit, Burst, Left, Ready, Refill, Valid;
    var k, now := |sent|, Ready(gaps, sent, |sent|);
    var credit := Credit(rate, b, now);
    CreditFlow(rate, b, now);
    LeftOpening(rate, chunks, gaps, sent, k);
    forall w | 0 <= w <= k
      ensures Left(rate, chunks, gaps, sent, w, k, now)
           == Left(rate, chunks, gaps, sent, w, k, b.last) + Refill(rate, now - b.last)
    {
      LeftLater(rate, chunks, gaps, sent, w, k, b.last, now);
    }
    if credit < Burst(rate) {
      var w :| 0 <= w <= k && b.tokens == Left(rate, chunks, gaps, sent, w, k, b.last);
      assert credit == Left(rate, chunks, gaps, sent, w, k, now);
    } else {
      assert credit == Left(rate, chunks, gaps, sent, k + 1, k, now);
    }
  }

  /** What drawing on the bucket leaves is the least that any window has left when the wait is over. */
  lemma DrawnIsLeast(rate: real, chunks: seq<nat>, gaps: seq<real>, sent: seq<real>, now: real, credit: real,
                     wait: real, tokens: real)
    requires |sent| < |gaps| == |chunks|
    requires Least(rate, chunks, gaps, sent, |sent| + 1, |sent|, now, credit)
    requires tokens == credit + Refill(rate, wait) - chunks[|sent|] as real
    ensures Least(rate, chunks, gaps, sent, |sent| + 1, |sent| + 1, now + wait, tokens)
  {
    hide Left, Refill;
    var k, n, end := |sent|, |sent| + 1, now + wait;
    var drawn := Refill(rate, wait) - chunks[k] as real;
    forall w | 0 <= w <= n
      ensures Left(rate, chunks, gaps, sent, w, n, end) == Left(rate, chunks, gaps, sent, w, k, now) + drawn
    {
      assert end - now == wait;
      LeftLater(rate, chunks, gaps, sent, w, k, now, end);
      LeftNext(rate, chunks, gaps, sent, w, k, end);
    }
    var w :| 0 <= w <= n && credit == Left(rate, chunks, gaps, sent, w, k, now);
    assert tokens == Left(rate, chunks, gaps, sent, w, n, end);
  }

  /** The end of the wait is the earliest moment at which every window allows the chunk. */
  lemma WaitIsEarliest(rate: real, chunks: seq<nat>, gaps: seq<real>, sent: seq<real>, wait: real, tokens: real)
    requires |sent| < |gaps| == |chunks| && rate > 0.0
    requires Least(rate, chunks, gaps, sent, |sent| + 1, |sent| + 1, Ready(gaps, sent, |sent|) + wait, tokens)
    requires tokens >= 0.0 && wait >= 0.0 && (wait > 0.0 ==> tokens == 0.0)
    ensures Earliest(rate, chunks, gaps, sent, |sent|, Ready(gaps, sent, |sent|) + wait)
  {
    hide Left, Refill, Ready;
    var k, due := |sent|, Ready(gaps, sent, |sent|) + wait;
    var w :| 0 <= w <= k + 1 && tokens == Left(rate, chunks, gaps, sent, w, k + 1, due);
    forall t | Ready(gaps, sent, k) <= t < due
      ensures !Fits(rate, chunks, gaps, sent, k, t)
    {
      LeftLater(rate, chunks, gaps, sent, w, k + 1, t, due);
      RefillPositive(rate, due - t);
      assert !Allows(rate, chunks, gaps, sent, w, k, t);
    }
  }

  lemma RefillPositive(rate: real, seconds: real)
    requires rate > 0.0 && seconds > 0.0
    ensures Refill(rate, seconds) > 0.0
  {
  }

  // ---- the upload -------------------------------------------------------

  /** When the wait for chunk `k`, if there was one, was over; a sleep may overshoot by `late[k]`. */
  function Due(gaps: seq<real>, late: seq<real>, sent: seq<real>, k: nat): real
    requires k < |sent| <= |gaps| == |late|
  {
    if sent[k] == Ready(gaps, sent, k) then sent[k] else sent[k] - late[k]
  }

  /** No chunk waited needlessly, and none went out too early. */
  ghost predicate Prompt(rate: real, chunks: seq<nat>, gaps: seq<real>, late: seq<real>, sent: seq<real>)
    requires |sent| <= |gaps| == |late| == |chunks|
  {
    forall k :: 0 <= k < |sent| ==> Earliest(rate, chunks, gaps, sent, k, Due(gaps, late, sent, k))
  }

  /** Everything sent so far went out promptly, and the bucket knows what the windows have left. */
  ghost predicate OnPace(rate: real, chunks: seq<nat>, gaps: seq<real>, late: seq<real>, sent: seq<real>, b: Bucket)
    requires |sent| <= |gaps| == |late| == |chunks|
  {
    && Valid(rate, b) && b.last <= Moment(sent, |sent|)
    && Least(rate, chunks, gaps, sent, |sent|, |sent|, b.last, b.tokens)
    && Prompt(rate, chunks, gaps, late, sent)
  }

  lemma StaysOnPace(rate: real, chunks: seq<nat>, gaps: seq<real>, late: seq<real>, sent: seq<real>, b: Bucket,
                    next: real)
    requires |sent| < |gaps| == |late| == |chunks| && rate > 0.0 && OnPace(rate, chunks, gaps, late, sent, b)
    requires gaps[|sent|] >= 0.0 && late[|sent|] >= 0.0
    requires var (now, k) := (Ready(gaps, sent, |sent|), |sent|);
             var wait := Consumed(rate, b, now, chunks[k]).1;
             next == if wait == 0.0 then now else now + wait + late[k]
    ensures OnPace(rate, chunks, gaps, late, sent + [next],
                   Consumed(rate, b, Ready(gaps, sent, |sent|), chunks[|sent|]).0)
    ensures Moment(sent, |sent|) <= next
  {
    hide Credit, Consumed, Burst, Valid, Refill, Least, Earliest, Prompt;
    var k, now := |sent|, Ready(gaps, sent, |sent|);
    var (after, wait) := Consumed(rate, b, now, chunks[k]);
    WaitIsExact(rate, b, now, chunks[k]);
    CreditIsLeast(rate, chunks, gaps, sent, b);
    DrawnIsLeast(rate, chunks, gaps, sent, now, Credit(rate, b, now), wait, after.tokens);
    WaitIsEarliest(rate, chunks, gaps, sent, wait, after.tokens);
    LeastStays(rate, chunks, gaps, sent, next, after);
    PromptGrows(rate, chunks, gaps, late, sent, next, now + wait);
  }

  lemma LeastStays(rate: real, chunks: seq<nat>, gaps: seq<real>, sent: seq<real>, next: real, b: Bucket)
    requires |sent| < |gaps| == |chunks|
    requires Least(rate, chunks, gaps, sent, |sent| + 1, |sent| + 1, b.last, b.tokens)
    ensures Least(rate, chunks, gaps, sent + [next], |sent| + 1, |sent| + 1, b.last, b.tokens)
  {
    hide Left;
    var n := |sent| + 1;
    forall w | 0 <= w <= n
      ensures Left(rate, chunks, gaps, sent + [next], w, n, b.last) == Left(rate, chunks, gaps, sent, w, n, b.last)
    {
      LeftStays(rate, chunks, gaps, sent, next, w, n, b.last);
    }
    var w :| 0 <= w <= n && b.tokens == Left(rate, chunks, gaps, sent, w, n, b.last);
    assert b.tokens == Left(rate, chunks, gaps, sent + [next], w, n, b.last);
  }

  lemma PromptGrows(rate: real, chunks: seq<nat>, gaps: seq<real>, late: seq<real>, sent: seq<real>, next: real,
                    due: real)
    requires |sent| < |gaps| == |late| == |chunks| && Prompt(rate, chunks, gaps, late, sent)
    requires Earliest(rate, chunks, gaps, sent, |sent|, due) && late[|sent|] >= 0.0
    requires next == if due == Ready(gaps, sent, |sent|) then due else due + late[|sent|]
    ensures Prompt(rate, chunks, gaps, late, sent + [next])
  {
    hide Fits;
    var all := sent + [next];
    forall k | 0 <= k < |all|
      ensures Earliest(rate, chunks, gaps, all, k, Due(gaps, late, all, k))
    {
      var d := if k < |sent| then Due(gaps, late, sent, k) else due;
      assert Earliest(rate, chunks, gaps, sent, k, d);
      forall t: real
        ensures Fits(rate, chunks, gaps, all, k, t) == Fits(rate, chunks, gaps, sent, k, t)
      {
        FitsStays(rate, chunks, gaps, sent, next, k, t);
      }
      assert Ready(gaps, all, k) == Ready(gaps, sent, k);
    }
  }

  lemma FitsStays(rate: real, chunks: seq<nat>, gaps: seq<real>, sent: seq<real>, next: real, k: nat, t: real)
    requires k <= |sent| && k < |gaps| == |chunks|
    ensures Fits(rate, chunks, gaps, sent + [next], k, t) == Fits(rate, chunks, gaps, sent, k, t)
  {
    hide Left;
    forall w | 0 <= w <= k + 1
      ensures Allows(rate, chunks, gaps, sent + [next], w, k, t) == Allows(rate, chunks, gaps, sent, w, k, t)
    {
      LeftStays(rate, chunks, gaps, sent, next, w, k + 1, t);
    }
  }

  ghost predicate InOrder(sent: seq<real>) {
    forall i, j :: 0 <= i <= j <= |sent| ==> Moment(sent, i) <= Moment(sent, j)
  }

  /**
   * Send the chunks, each after `gaps[i]` of other work and after the wait the
   * pacer asks for; a sleep may overshoot by `late[i]`.
   */
  method PaceUpload(rate: nat, chunks: seq<nat>, gaps: seq<real>, late: seq<real>) returns (sent: seq<real>)
    requires |gaps| == |late| == |chunks|
    requires forall i :: 0 <= i < |chunks| ==> gaps[i] >= 0.0 && late[i] >= 0.0
    ensures |sent| == |chunks| && InOrder(sent)
    ensures rate > 0 ==> Prompt(rate as real, chunks, gaps, late, sent)
    ensures rate == 0 ==> forall i :: 0 <= i < |sent| ==> sent[i] == Moment(sent, i) + gaps[i]
  {
    hide Consumed, Burst, OnPace, InOrder, Prompt;
    var pacer := new Pacer.WithRate(rate);
    sent := [];
    StartsOnPace(rate as real, chunks, gaps, late);
    var k := 0;
    while k < |chunks|
      invariant 0 <= k <= |chunks| && |sent| == k && InOrder(sent)
      invariant pacer.rate == rate as real && pacer.burst == Burst(rate as real)
      invariant rate > 0 ==> OnPace(rate as real, chunks, gaps, late, sent, pacer.Now())
      invariant rate == 0 ==> forall i :: 0 <= i < k ==> sent[i] == Moment(sent, i) + gaps[i]
    {
      var now := Moment(sent, k) + gaps[k];
      ghost var before := pacer.Now();
      var wait := pacer.Consume(now, chunks[k]);
      var next := if wait == 0.0 then now else now + wait + late[k];
      if rate > 0 {
        StaysOnPace(rate as real, chunks, gaps, late, sent, before, next);
      }
      StaysInOrder(sent, next);
      sent := sent + [next];
      k := k + 1;
    }
    if rate > 0 {
      EndsPrompt(rate as real, chunks, gaps, late, sent, pacer.Now());
    }
  }

  lemma EndsPrompt(rate: real, chunks: seq<nat>, gaps: seq<real>, late: seq<real>, sent: seq<real>, b: Bucket)
    requires |sent| <= |gaps| == |late| == |chunks| && OnPace(rate, chunks, gaps, late, sent, b)
    ensures Prompt(rate, chunks, gaps, late, sent)
  {
  }

  lemma StartsOnPace(rate: real, chunks: seq<nat>, gaps: seq<real>, late: seq<real>)
    requires rate >= 0.0 && |gaps| == |late| == |chunks|
    ensures OnPace(rate, chunks, gaps, late, [], Bucket(0.0, rate)) && InOrder([])
  {
    assert chunks[0..0] == [];
    assert Left(rate, chunks, gaps, [], 0, 0, 0.0) == rate;
  }

  lemma StaysInOrder(sent: seq<real>, next: real)
    requires InOrder(sent) && Moment(sent, |sent|) <= next
    ensures InOrder(sent + [next])
  {
    forall i, j | 0 <= i <= j <= |sent| + 1
      ensures Moment(sent + [next], i) <= Moment(sent + [next], j)
    {
      assert i <= |sent| ==> Moment(sent + [next], i) == Moment(sent, i) <= Moment(sent, |sent|);
      assert j <= |sent| ==> Moment(sent + [next], j) == Moment(sent, j);
    }
  }

  /** No stretch of a prompt upload exceeds a burst, or at the start a second's worth, and the rate over its time. */
  lemma PromptIsPaced(rate: real, chunks: seq<nat>, gaps: seq<real>, late: seq<real>, sent: seq<real>, i: nat, j: nat)
    requires |sent| == |gaps| == |late| == |chunks| && rate > 0.0 && Prompt(rate, chunks, gaps, late, sent)
    requires forall k :: 0 <= k < |chunks| ==> gaps[k] >= 0.0 && late[k] >= 0.0
    requires i <= j <= |sent|
    ensures Total(chunks[i..j]) as real
         <= (if i == 0 then rate else Burst(rate)) + Refill(rate, Moment(sent, j) - Moment(sent, i))
  {
    hide Refill;
    if i == j {
      assert chunks[i..j] == [];
      RefillNonNegative(rate, 0.0);
    } else {
      var w := if i == 0 then 0 else i + 1;
      var due := Due(gaps, late, sent, j - 1);
      assert Allows(rate, chunks, gaps, sent, w, j - 1, due);
      assert Left(rate, chunks, gaps, sent, w, j, due) >= 0.0 && due <= Moment(sent, j);
      assert Moment(sent, i) <= Opens(gaps, sent, w);
      assert First(w) == i;
      RefillSplits(rate, Opens(gaps, sent, w), due, Moment(sent, j));
      RefillSplits(rate, Moment(sent, i), Opens(gaps, sent, w), Moment(sent, j));
      RefillNonNegative(rate, Moment(sent, j) - due);
      RefillNonNegative(rate, Opens(gaps, sent, w) - Moment(sent, i));
    }
  }

  /** The bytes sent by time `t`. */
  function SentBy(chunks: seq<nat>, sent: seq<real>, t: real): nat
    requires |sent| == |chunks|
  {
    if sent == [] then 0
    else
      var n := |sent| - 1;
      SentBy(chunks[..n], sent[..n], t) + (if sent[n] <= t then chunks[n] else 0)
  }

  lemma {:induction false} SentByIsPrefix(chunks: seq<nat>, sent: seq<real>, t: real) returns (n: nat)
    requires |sent| == |chunks|
    requires forall i, j :: 0 <= i <= j < |sent| ==> sent[i] <= sent[j]
    ensures n <= |sent| && SentBy(chunks, sent, t) == Total(chunks[..n])
    ensures n == 0 || sent[n - 1] <= t
    decreases |sent|
  {
    var k := |sent|;
    if sent == [] {
      n := 0;
    } else if sent[k - 1] <= t {
      n := SentByIsPrefix(chunks[..k - 1], sent[..k - 1], t);
      AllSent(chunks, sent, t);
      n := k;
      assert chunks[..k] == chunks;
    } else {
      n := SentByIsPrefix(chunks[..k - 1], sent[..k - 1], t);
      assert chunks[..k - 1][..n] == chunks[..n];
    }
  }

  lemma {:induction false} AllSent(chunks: seq<nat>, sent: seq<real>, t: real)
    requires |sent| == |chunks| && forall i :: 0 <= i < |sent| ==> sent[i] <= t
    ensures SentBy(chunks, sent, t) == Total(chunks)
    decreases |sent|
  {
    if sent != [] {
      AllSent(chunks[..|sent| - 1], sent[..|sent| - 1], t);
    }
  }

  /** By any time `t`, an upload has sent at most a second's worth and the rate times `t`. */
  lemma SentByAtMost(rate: real, chunks: seq<nat>, gaps: seq<real>, late: seq<real>, sent: seq<real>, t: real)
    requires |sent| == |gaps| == |late| == |chunks| && rate > 0.0 && Prompt(rate, chunks, gaps, late, sent)
    requires forall k :: 0 <= k < |chunks| ==> gaps[k] >= 0.0 && late[k] >= 0.0
    requires 0.0 <= t && InOrder(sent)
    ensures SentBy(chunks, sent, t) as real <= Refill(rate, 1.0 + t)
  {
    hide Prompt;
    forall i, j | 0 <= i <= j < |sent|
      ensures sent[i] <= sent[j]
    {
      assert sent[i] == Moment(sent, i + 1) && sent[j] == Moment(sent, j + 1);
    }
    var n := SentByIsPrefix(chunks, sent, t);
    assert chunks[0..n] == chunks[..n];
    PromptIsPaced(rate, chunks, gaps, late, sent, 0, n);
    assert Moment(sent, 0) <= Moment(sent, n) <= t;
    RefillNonNegative(rate, t - Moment(sent, n));
    RefillSplits(rate, Moment(sent, 0), Moment(sent, n), t);
    RefillSplits(rate, -1.0, 0.0, t);
    hide Refill;
  }
}
