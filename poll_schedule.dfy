/**
 * `_poll_and_send`: the background task started after the second image.
 * It sleeps, calls `kling_generate_video` for the session's image pair,
 * and either stops (a URL or the generation deadline) or notifies the
 * user and sleeps longer, for at most 20 notifications; then it sends
 * the video or the timeout message.
 *
 * The n-th call's outcome is a parameter; the sleeps are recorded rather
 * than taken.
 */
module PollSchedule {
  import opened Wrappers
  import opened Generation

  /** `notify_count >= 20` ends the loop. */
  const MaxNotices: nat := 20
  const FirstDelay: nat := 30
  const DelayCap: nat := 90

  /** The first notice after a failed call, and every later one. */
  datatype Notice = WaitAnotherMinute | StillChecking

  /** What the user finally receives. */
  datatype Delivery = SendVideo(url: string) | TimeoutMessage

  /** `min(d + 30 if d < 60 else min(d + 15, 90), 90)`. */
  function NextDelay(d: nat): (next: nat)
    ensures d <= DelayCap ==> d <= next <= DelayCap
    ensures d < DelayCap ==> next > d
  {
    Min(if d < 60 then d + 30 else Min(d + 15, DelayCap), DelayCap)
  }

  /** The seconds slept before the i-th call (counting from 0). */
  function Delay(i: nat): (d: nat)
    ensures FirstDelay <= d <= DelayCap
  {
    if i == 0 then FirstDelay else NextDelay(Delay(i - 1))
  }

  /** The delays run 30, 60, 75, 90, 90, ... */
  lemma {:induction false} DelayClosedForm(i: nat)
    ensures Delay(i) == (if i == 0 then 30 else if i == 1 then 60 else if i == 2 then 75 else 90)
  {
    if i > 0 {
      DelayClosedForm(i - 1);
    }
  }

  /** The delay never shrinks and never exceeds 90 seconds. */
  lemma DelayMonotoneAndCapped(i: nat, j: nat)
    requires i <= j
    ensures Delay(i) <= Delay(j) <= DelayCap
  {
    DelayClosedForm(i);
    DelayClosedForm(j);
  }

  /** The delays slept before the first n calls. */
  function Delays(n: nat): (ds: seq<nat>)
    ensures |ds| == n
  {
    seq(n, i requires 0 <= i => Delay(i))
  }

  /** The notices sent after the first n failed calls. */
  function NoticesFor(n: nat): (ns: seq<Notice>)
    ensures |ns| == n
  {
    seq(n, i requires 0 <= i => if i == 0 then WaitAnotherMinute else StillChecking)
  }

  /**
   * How many calls are made in all once the i-th call is reached: the loop
   * goes on only after a call that raised something other than
   * `TimeoutError`, and only while fewer than 20 notices have been sent.
   */
  function CallsMade(rounds: nat -> JobOutcome, i: nat): (calls: nat)
    requires i < MaxNotices
    ensures i < calls <= MaxNotices
    decreases MaxNotices - i
  {
    if rounds(i).Raised? && i + 1 < MaxNotices then CallsMade(rounds, i + 1) else i + 1
  }

  /** The first call that does not raise ends the loop right after it. */
  lemma {:induction false} FirstSettledCallEnds(rounds: nat -> JobOutcome, i: nat, m: nat)
    requires i <= m < MaxNotices
    requires forall j :: i <= j < m ==> rounds(j).Raised?
    requires !rounds(m).Raised?
    ensures CallsMade(rounds, i) == m + 1
    decreases m - i
  {
    if i < m {
      FirstSettledCallEnds(rounds, i + 1, m);
    }
  }

  /** When every call raises, exactly 20 calls are made. */
  lemma {:induction false} AllRaisedMakesTwentyCalls(rounds: nat -> JobOutcome, i: nat)
    requires i < MaxNotices
    requires forall j :: i <= j < MaxNotices ==> rounds(j).Raised?
    ensures CallsMade(rounds, i) == MaxNotices
    decreases MaxNotices - i
  {
    if i + 1 < MaxNotices {
      AllRaisedMakesTwentyCalls(rounds, i + 1);
    }
  }

  /** Every call before the last one raised. */
  lemma {:induction false} CallsBeforeLastRaised(rounds: nat -> JobOutcome, i: nat)
    requires i < MaxNotices
    ensures forall j :: i <= j < CallsMade(rounds, i) - 1 ==> rounds(j).Raised?
    decreases MaxNotices - i
  {
    if rounds(i).Raised? && i + 1 < MaxNotices {
      CallsBeforeLastRaised(rounds, i + 1);
    }
  }

  /** The notices sent: one per call that raised. */
  function NoticeCount(rounds: nat -> JobOutcome): nat {
    var calls := CallsMade(rounds, 0);
    if rounds(calls - 1).Raised? then calls else calls - 1
  }

  /** `if video_url:` — an empty URL is sent as the timeout message. */
  function FinalDelivery(last: JobOutcome): (d: Delivery)
    ensures d.SendVideo? <==> last.VideoReady? && last.url != ""
    ensures d.SendVideo? ==> d.url == last.url
  {
    if last.VideoReady? && last.url != "" then SendVideo(last.url) else TimeoutMessage
  }

  /**
   * The loop of `_poll_and_send`. Returns the delays slept, one before each
   * call; the notices sent; and the final delivery, decided by the last
   * call alone.
   */
  method PollAndSend(rounds: nat -> JobOutcome) returns (delays: seq<nat>, notices: seq<Notice>, delivery: Delivery)
    ensures 1 <= |delays| == CallsMade(rounds, 0) <= MaxNotices
    ensures delays == Delays(|delays|)
    ensures notices == NoticesFor(NoticeCount(rounds))
    ensures delivery == FinalDelivery(rounds(|delays| - 1))
  {
    var notifyCount: nat := 0;
    var nextDelay: nat := FirstDelay;
    var videoUrl: string := "";
    delays := [];
    notices := [];
    while true
      invariant notifyCount < MaxNotices
      invariant delays == Delays(notifyCount)
      invariant notices == NoticesFor(notifyCount)
      invariant nextDelay == Delay(notifyCount)
      invariant forall j :: 0 <= j < notifyCount ==> rounds(j).Raised?
      decreases MaxNotices - notifyCount
    {
      delays := delays + [nextDelay];
      assert delays == Delays(notifyCount + 1);
      var outcome := rounds(notifyCount);
      if outcome.VideoReady? {
        videoUrl := outcome.url;
        SettledAt(rounds, notifyCount);
        break;
      }
      if outcome.DeadlineExceeded? {
        SettledAt(rounds, notifyCount);
        break;
      }
      notices := notices + [if notifyCount == 0 then WaitAnotherMinute else StillChecking];
      notifyCount := notifyCount + 1;
      assert forall j :: 0 <= j < notifyCount ==> rounds(j).Raised? by {
        forall j | 0 <= j < notifyCount
          ensures rounds(j).Raised?
        {
          if j == notifyCount - 1 {
            assert rounds(j) == outcome;
          }
        }
      }
      if notifyCount >= MaxNotices {
        assert notifyCount == MaxNotices;
        EveryCallRaises(rounds);
        break;
      }
      nextDelay := NextDelay(nextDelay);
    }
    delivery := if videoUrl != "" then SendVideo(videoUrl) else TimeoutMessage;
  }

  /** A call that does not raise, after n calls that did, is the last: n notices were sent. */
  lemma SettledAt(rounds: nat -> JobOutcome, n: nat)
    requires n < MaxNotices
    requires forall j :: 0 <= j < n ==> rounds(j).Raised?
    requires !rounds(n).Raised?
    ensures CallsMade(rounds, 0) == n + 1
    ensures NoticeCount(rounds) == n
  {
    FirstSettledCallEnds(rounds, 0, n);
  }

  /** Total seconds slept before the first n calls. */
  function DelaySum(n: nat): nat {
    if n == 0 then 0 else DelaySum(n - 1) + Delay(n - 1)
  }

  lemma {:induction false} DelaySumClosedForm(n: nat)
    requires n >= 3
    ensures DelaySum(n) == 90 * n - 105
  {
    DelayClosedForm(n - 1);
    if n > 3 {
      DelaySumClosedForm(n - 1);
    } else {
      DelayClosedForm(0);
      DelayClosedForm(1);
    }
  }

  lemma {:induction false} DelaySumMonotone(m: nat, n: nat)
    requires m <= n
    ensures DelaySum(m) <= DelaySum(n)
    decreases n - m
  {
    if m < n {
      DelaySumMonotone(m, n - 1);
    }
  }

  /** The background task sleeps at most 30 + 60 + 75 + 17 * 90 seconds in all. */
  lemma TotalSleepBound(rounds: nat -> JobOutcome)
    ensures DelaySum(CallsMade(rounds, 0)) <= 1695
  {
    DelaySumMonotone(CallsMade(rounds, 0), MaxNotices);
    DelaySumClosedForm(MaxNotices);
  }

  /**
   * When every call raises (a failed generation, a rejected key, an API
   * error), the user gets 20 notices and then the timeout message.
   */
  lemma EveryCallRaises(rounds: nat -> JobOutcome)
    requires forall j :: 0 <= j < MaxNotices ==> rounds(j).Raised?
    ensures CallsMade(rounds, 0) == MaxNotices
    ensures NoticeCount(rounds) == MaxNotices
    ensures FinalDelivery(rounds(CallsMade(rounds, 0) - 1)) == TimeoutMessage
  {
    AllRaisedMakesTwentyCalls(rounds, 0);
  }

  /** A first call that returns a URL means one call, no notice, and the video. */
  lemma ImmediateSuccess(rounds: nat -> JobOutcome, url: string)
    requires rounds(0) == VideoReady(url) && url != ""
    ensures CallsMade(rounds, 0) == 1
    ensures NoticeCount(rounds) == 0
    ensures FinalDelivery(rounds(CallsMade(rounds, 0) - 1)) == SendVideo(url)
  {
  }

  /**
   * A generation deadline in the first call ends the task at once with the
   * timeout message and no notice.
   */
  lemma DeadlineEndsAtOnce(rounds: nat -> JobOutcome)
    requires rounds(0) == DeadlineExceeded
    ensures CallsMade(rounds, 0) == 1
    ensures NoticeCount(rounds) == 0
    ensures FinalDelivery(rounds(0)) == TimeoutMessage
  {
  }

  /**
   * Composed with `kling_generate_video`: when the task is reported
   * `failed` on every call, the user never sees the failure reason, only
   * 20 notices and the timeout message.
   */
  lemma FailedGenerationEndsInTimeoutMessage(accessKey: string, secretKey: string,
                                             submits: nat -> SubmitReply,
                                             observations: nat -> (nat -> Observation))
    requires accessKey != "" && secretKey != ""
    requires forall j :: 0 <= j < MaxNotices ==>
      && submits(j).SubmitJson? && submits(j).code == Some(0)
      && observations(j)(0).reply.StatusJson? && observations(j)(0).reply.code == Some(0)
      && observations(j)(0).reply.taskStatus == "failed"
    ensures var rounds := (j: nat) => GenerationOutcome(accessKey, secretKey, submits(j), observations(j));
      && NoticeCount(rounds) == MaxNotices
      && FinalDelivery(rounds(CallsMade(rounds, 0) - 1)) == TimeoutMessage
  {
    var rounds := (j: nat) => GenerationOutcome(accessKey, secretKey, submits(j), observations(j));
    forall j | 0 <= j < MaxNotices
      ensures rounds(j).Raised?
    {
      FailedTaskRaises(accessKey, secretKey, submits(j), observations(j));
    }
    EveryCallRaises(rounds);
  }
}
