/** What `ImgCreateHandler.wait_for_complete` observes and decides: it
    samples the file size, sleeping once between samples, until two
    consecutive samples agree. The samples are an oracle sequence; running
    out of them means the source would still be polling. */
module Stability {

  /** One `os.path.getsize` call: a size, or the file is gone and the call
      raises. */
  datatype SizeSample = Size(bytes: nat) | Vanished

  /** How a wait ends, with the number of size polls and of sleeps. */
  datatype WaitOutcome =
    | Complete(polls: nat, sleeps: nat)     // two consecutive sizes agreed
    | StatFailed(polls: nat, sleeps: nat)   // `getsize` raised; the error propagates
    | Unsettled(polls: nat, sleeps: nat)    // no agreement among the samples given

  /** Samples k-1 and k are sizes and agree. */
  predicate StablePair(samples: seq<SizeSample>, k: int)
  {
    1 <= k < |samples| && samples[k].Size? && samples[k - 1].Size?
    && samples[k].bytes == samples[k - 1].bytes
  }

  /** Every sample up to and including index k is a size. */
  predicate ReadableThrough(samples: seq<SizeSample>, k: int)
  {
    k < |samples| && forall j :: 0 <= j <= k ==> samples[j].Size?
  }

  /** No pair before index k agrees. */
  predicate NoStablePairBefore(samples: seq<SizeSample>, k: int)
  {
    forall j :: 1 <= j < k ==> !StablePair(samples, j)
  }

  /** The loop from sample i on, with `previous` the last size read (-1
      before the first read, which no size equals). */
  function Poll(samples: seq<SizeSample>, i: nat, previous: int): (w: WaitOutcome)
    requires i <= |samples|
    ensures i <= w.polls <= |samples|
    ensures w.sleeps == if w.Unsettled? then w.polls else w.polls - 1
    ensures w.Complete? ==> w.polls >= i + 1 && (previous < 0 ==> w.polls >= i + 2)
    ensures w.Unsettled? ==> w.polls == |samples|
    decreases |samples| - i
  {
    if i == |samples| then Unsettled(i, i)
    else match samples[i]
      case Vanished => StatFailed(i + 1, i)
      case Size(n) => if n == previous then Complete(i + 1, i) else Poll(samples, i + 1, n)
  }

  /** The whole wait: `previous_size = -1`, then the loop. */
  function Wait(samples: seq<SizeSample>): (w: WaitOutcome)
    ensures w.polls <= |samples|
    ensures w.sleeps == if w.Unsettled? then w.polls else w.polls - 1
    ensures w.Complete? ==> w.polls >= 2
  {
    Poll(samples, 0, -1)
  }

  /** The value `previous_size` holds when sample i is about to be read. */
  function PreviousAt(samples: seq<SizeSample>, i: nat): int
    requires i <= |samples|
  {
    if i == 0 || samples[i - 1].Vanished? then -1 else samples[i - 1].bytes
  }

  /** Polling from i, having read sizes only and found no agreement so far,
      ends as the first event at or after i dictates. */
  lemma {:induction false} PollCharacterised(samples: seq<SizeSample>, i: nat)
    requires i <= |samples|
    requires i > 0 ==> ReadableThrough(samples, i - 1)
    requires NoStablePairBefore(samples, i)
    ensures var w := Poll(samples, i, PreviousAt(samples, i));
      && (w.Complete? ==>
            w.polls >= 2 && w.sleeps == w.polls - 1 && ReadableThrough(samples, w.polls - 1)
            && StablePair(samples, w.polls - 1) && NoStablePairBefore(samples, w.polls - 1))
      && (w.StatFailed? ==>
            1 <= w.polls <= |samples| && w.sleeps == w.polls - 1 && samples[w.polls - 1].Vanished?
            && (w.polls >= 2 ==> ReadableThrough(samples, w.polls - 2))
            && NoStablePairBefore(samples, w.polls - 1))
      && (w.Unsettled? ==>
            w.polls == w.sleeps == |samples|
            && (|samples| > 0 ==> ReadableThrough(samples, |samples| - 1))
            && NoStablePairBefore(samples, |samples|))
    decreases |samples| - i
  {
    if i < |samples| && samples[i].Size? && samples[i].bytes != PreviousAt(samples, i) {
      assert !StablePair(samples, i);
      PollCharacterised(samples, i + 1);
    }
  }

  /** A completed wait returned right after the first agreeing pair: at
      least two polls, and one sleep between each two of them. */
  lemma {:induction false} WaitCompleteMeansFirstStablePair(samples: seq<SizeSample>)
    requires Wait(samples).Complete?
    ensures var k := Wait(samples).polls - 1;
      && k >= 1 && Wait(samples).sleeps == k
      && ReadableThrough(samples, k) && StablePair(samples, k) && NoStablePairBefore(samples, k)
  {
    PollCharacterised(samples, 0);
  }

  /** Conversely, the first agreeing pair, with only sizes read before it,
      is where the wait completes. */
  lemma {:induction false} WaitCompletesAtFirstStablePair(samples: seq<SizeSample>, k: nat)
    requires ReadableThrough(samples, k) && StablePair(samples, k) && NoStablePairBefore(samples, k)
    ensures Wait(samples) == Complete(k + 1, k)
  {
    PollCharacterised(samples, 0);
  }

  /** With no timeout, a file whose sizes never repeat keeps the wait
      polling for as long as samples come: it neither completes nor fails. */
  lemma {:induction false} WaitWithoutAgreementNeverCompletes(samples: seq<SizeSample>)
    requires |samples| > 0 && ReadableThrough(samples, |samples| - 1)
    requires NoStablePairBefore(samples, |samples|)
    ensures Wait(samples) == Unsettled(|samples|, |samples|)
  {
    PollCharacterised(samples, 0);
  }

  /** An already stable file costs two polls and one sleep; one that grows
      once costs three polls and two sleeps. */
  lemma WaitExamples()
    ensures Wait([Size(100), Size(100)]) == Complete(2, 1)
    ensures Wait([Size(100), Size(250), Size(250)]) == Complete(3, 2)
    ensures Wait([Size(100), Vanished]) == StatFailed(2, 1)
  {
  }
}
