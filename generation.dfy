/**
 * `kling_generate_video`: submit a start/end image pair to the Kling
 * image-to-video endpoint, then poll the task's status with a growing
 * interval until it succeeds, fails, or 20 minutes have passed.
 *
 * The network and the clock are parameters: the submission reply, and for
 * the n-th status request its reply and the seconds it took. The signed
 * bearer token and the base64 images are not modelled.
 */
module Generation {
  import opened Wrappers

  /** `MAX_WAIT = 20 * 60` seconds. */
  const MaxWait: nat := 1200
  const FirstPollInterval: nat := 5
  const PollIntervalStep: nat := 3
  const PollIntervalCap: nat := 15
  const UnknownReason: string := "Неизвестная причина"

  /** The reply to the task submission. */
  datatype SubmitReply =
    | SubmitRequestFailed
    | SubmitJson(code: Option<int>, message: string, taskId: string)

  /** The reply to one status request. */
  datatype StatusReply =
    | ReadTimeout
    | StatusRequestFailed
    | StatusJson(code: Option<int>, message: string, taskStatus: string,
                 videoUrls: seq<string>, statusMsg: Option<string>)

  /** What the n-th status request returned, and how many seconds it took. */
  datatype Observation = Observation(reply: StatusReply, latency: nat)

  /** The exceptions other than `TimeoutError` that the function raises. */
  datatype JobError =
    | MissingCredentials
    | RequestFailed
    | MalformedReply
    | ApiError(message: string)
    | StatusError(message: string)
    | GenerationFailed(reason: string)

  /** How one call ends: a URL, `TimeoutError`, or another exception. */
  datatype JobOutcome = VideoReady(url: string) | DeadlineExceeded | Raised(error: JobError)

  datatype PollStep = KeepPolling | Stop(outcome: JobOutcome)

  /**
   * One status reply: a read timeout or a still-running task means sleep
   * and poll again; a non-zero code, a failed task or any other request
   * error ends the call with an exception; a succeeded task ends it with
   * its first video URL.
   */
  function ClassifyStatus(reply: StatusReply): (step: PollStep)
    ensures step.KeepPolling? <==>
      || reply.ReadTimeout?
      || (reply.StatusJson? && reply.code == Some(0) && reply.taskStatus != "succeed" && reply.taskStatus != "failed")
    ensures step.Stop? ==> !step.outcome.DeadlineExceeded?
    ensures step.Stop? && step.outcome.VideoReady? <==>
      reply.StatusJson? && reply.code == Some(0) && reply.taskStatus == "succeed" && reply.videoUrls != []
    ensures step.Stop? && step.outcome.VideoReady? ==> step.outcome.url == reply.videoUrls[0]
    ensures reply.StatusJson? && reply.code == Some(0) && reply.taskStatus == "failed" ==>
      step == Stop(Raised(GenerationFailed(reply.statusMsg.GetOr(UnknownReason))))
  {
    match reply
    case ReadTimeout => KeepPolling
    case StatusRequestFailed => Stop(Raised(RequestFailed))
    case StatusJson(code, message, taskStatus, videoUrls, statusMsg) =>
      if code != Some(0) then Stop(Raised(StatusError(message)))
      else if taskStatus == "succeed" then
        if videoUrls != [] then Stop(VideoReady(videoUrls[0])) else Stop(Raised(MalformedReply))
      else if taskStatus == "failed" then Stop(Raised(GenerationFailed(statusMsg.GetOr(UnknownReason))))
      else KeepPolling
  }

  function Min(a: int, b: int): int {
    if a < b then a else b
  }

  /** `if poll_interval < 15: poll_interval = min(poll_interval + 3, 15)`. */
  function NextPollInterval(interval: nat): (next: nat)
    ensures interval <= PollIntervalCap ==> interval <= next <= PollIntervalCap
    ensures interval < PollIntervalCap ==> next > interval
  {
    if interval < PollIntervalCap then Min(interval + PollIntervalStep, PollIntervalCap) else interval
  }

  /** The seconds slept after the n-th status request (counting from 0). */
  function PollInterval(n: nat): (interval: nat)
    ensures FirstPollInterval <= interval <= PollIntervalCap
  {
    if n == 0 then FirstPollInterval else NextPollInterval(PollInterval(n - 1))
  }

  /** The intervals run 5, 8, 11, 14, 15, 15, ...: never above 15. */
  lemma {:induction false} PollIntervalClosedForm(n: nat)
    ensures PollInterval(n) == Min(5 + 3 * n, 15)
    ensures 5 <= PollInterval(n) <= 15
  {
    if n > 0 {
      PollIntervalClosedForm(n - 1);
    }
  }

  /** The interval never shrinks. */
  lemma PollIntervalMonotone(m: nat, n: nat)
    requires m <= n
    ensures PollInterval(m) <= PollInterval(n)
  {
    PollIntervalClosedForm(m);
    PollIntervalClosedForm(n);
  }

  /** Seconds since polling began when the n-th status request is about to be made. */
  function ElapsedBefore(obs: nat -> Observation, n: nat): nat {
    if n == 0 then 0 else ElapsedBefore(obs, n - 1) + obs(n - 1).latency + PollInterval(n - 1)
  }

  /** The sleeps alone before the n-th status request. */
  function SleptBefore(n: nat): nat {
    if n == 0 then 0 else SleptBefore(n - 1) + PollInterval(n - 1)
  }

  lemma {:induction false} ElapsedCoversSleeps(obs: nat -> Observation, n: nat)
    ensures ElapsedBefore(obs, n) >= SleptBefore(n)
  {
    if n > 0 {
      ElapsedCoversSleeps(obs, n - 1);
    }
  }

  lemma {:induction false} SleptLowerBound(n: nat)
    ensures SleptBefore(n) >= 15 * n - 22
  {
    if n > 4 {
      SleptLowerBound(n - 1);
      PollIntervalClosedForm(n - 1);
    } else {
      PollIntervalClosedForm(0);
      PollIntervalClosedForm(1);
      PollIntervalClosedForm(2);
      PollIntervalClosedForm(3);
    }
  }

  /** A status request made within the deadline is at most the 82nd. */
  lemma PollsWithinDeadline(obs: nat -> Observation, n: nat)
    requires ElapsedBefore(obs, n) <= MaxWait
    ensures n <= 81
  {
    ElapsedCoversSleeps(obs, n);
    SleptLowerBound(n);
  }

  function PollMeasure(obs: nat -> Observation, n: nat): nat {
    if ElapsedBefore(obs, n) > MaxWait then 0 else MaxWait + 1 - ElapsedBefore(obs, n)
  }

  /** How polling ends when the n-th status request is next. */
  function PollFrom(obs: nat -> Observation, n: nat): JobOutcome
    decreases PollMeasure(obs, n)
  {
    if ElapsedBefore(obs, n) > MaxWait then DeadlineExceeded
    else
      match ClassifyStatus(obs(n).reply)
      case Stop(outcome) => outcome
      case KeepPolling => PollFrom(obs, n + 1)
  }

  /**
   * A task whose status never settles ends in `TimeoutError`, never in a
   * failure.
   */
  lemma {:induction false} StuckTaskTimesOut(obs: nat -> Observation, n: nat)
    requires forall j :: n <= j ==> ClassifyStatus(obs(j).reply) == KeepPolling
    ensures PollFrom(obs, n) == DeadlineExceeded
    decreases PollMeasure(obs, n)
  {
    if ElapsedBefore(obs, n) <= MaxWait {
      StuckTaskTimesOut(obs, n + 1);
    }
  }

  /**
   * The first reply that settles the task, if it comes within the
   * deadline, decides the call: its URL or its exception.
   */
  lemma {:induction false} FirstSettlingReplyDecides(obs: nat -> Observation, n: nat, m: nat)
    requires n <= m
    requires forall j :: n <= j < m ==> ClassifyStatus(obs(j).reply) == KeepPolling
    requires ClassifyStatus(obs(m).reply).Stop?
    requires ElapsedBefore(obs, m) <= MaxWait
    ensures PollFrom(obs, n) == ClassifyStatus(obs(m).reply).outcome
    decreases m - n
  {
    if n < m {
      ElapsedMonotone(obs, n, m);
      FirstSettlingReplyDecides(obs, n + 1, m);
    }
  }

  lemma {:induction false} ElapsedMonotone(obs: nat -> Observation, n: nat, m: nat)
    requires n <= m
    ensures ElapsedBefore(obs, n) <= ElapsedBefore(obs, m)
    decreases m - n
  {
    if n < m {
      ElapsedMonotone(obs, n, m - 1);
    }
  }

  /** A reply that keeps polling, within the deadline, passes the decision on to the next request. */
  lemma KeepPollingStep(obs: nat -> Observation, n: nat)
    requires ElapsedBefore(obs, n) <= MaxWait
    requires ClassifyStatus(obs(n).reply) == KeepPolling
    ensures PollFrom(obs, n + 1) == PollFrom(obs, n)
    ensures ElapsedBefore(obs, n + 1) == ElapsedBefore(obs, n) + obs(n).latency + PollInterval(n)
    ensures PollInterval(n + 1) == NextPollInterval(PollInterval(n))
    ensures PollMeasure(obs, n + 1) < PollMeasure(obs, n)
  {
  }

  /**
   * The polling loop. Returns how the call ends and how many status
   * requests were made: at least one, and never more than 82.
   */
  method PollTask(obs: nat -> Observation) returns (outcome: JobOutcome, polls: nat)
    ensures outcome == PollFrom(obs, 0)
    ensures 1 <= polls <= 82
  {
    var elapsed: nat := 0;
    var interval: nat := FirstPollInterval;
    var n: nat := 0;
    while true
      invariant elapsed == ElapsedBefore(obs, n)
      invariant interval == PollInterval(n)
      invariant PollFrom(obs, n) == PollFrom(obs, 0)
      invariant n <= 82
      decreases PollMeasure(obs, n)
    {
      if elapsed > MaxWait {
        if n == 0 {
          assert false;
        }
        return DeadlineExceeded, n;
      }
      PollsWithinDeadline(obs, n);
      var observation := obs(n);
      var step := ClassifyStatus(observation.reply);
      if step.Stop? {
        return step.outcome, n + 1;
      }
      // the request's own duration, then `time.sleep(poll_interval)`
      KeepPollingStep(obs, n);
      elapsed := elapsed + observation.latency + interval;
      if interval < PollIntervalCap {
        interval := Min(interval + PollIntervalStep, PollIntervalCap);
      }
      n := n + 1;
    }
  }

  /** The whole call: credentials, submission, then polling. */
  function GenerationOutcome(accessKey: string, secretKey: string, submit: SubmitReply,
                             obs: nat -> Observation): JobOutcome {
    if accessKey == "" || secretKey == "" then Raised(MissingCredentials)
    else
      match submit
      case SubmitRequestFailed => Raised(RequestFailed)
      case SubmitJson(code, message, _) =>
        if code != Some(0) then Raised(ApiError(message)) else PollFrom(obs, 0)
  }

  /**
   * `kling_generate_video(start_b64, end_b64)`: fails without both keys
   * (the token cannot be signed), fails when the submission is rejected,
   * and otherwise polls the submitted task.
   */
  method GenerateVideo(accessKey: string, secretKey: string, submit: SubmitReply,
                       obs: nat -> Observation) returns (outcome: JobOutcome)
    ensures outcome == GenerationOutcome(accessKey, secretKey, submit, obs)
    ensures outcome.VideoReady? ==> accessKey != "" && secretKey != "" && submit.SubmitJson? && submit.code == Some(0)
  {
    if accessKey == "" || secretKey == "" {
      return Raised(MissingCredentials);
    }
    match submit {
      case SubmitRequestFailed =>
        return Raised(RequestFailed);
      case SubmitJson(code, message, _) =>
        if code != Some(0) {
          return Raised(ApiError(message));
        }
    }
    var polls;
    outcome, polls := PollTask(obs);
  }

  /** A submitted task whose first status reply is `failed` raises the generation failure. */
  lemma FailedTaskRaises(accessKey: string, secretKey: string, submit: SubmitReply,
                         obs: nat -> Observation)
    requires accessKey != "" && secretKey != ""
    requires submit.SubmitJson? && submit.code == Some(0)
    requires obs(0).reply.StatusJson? && obs(0).reply.code == Some(0) && obs(0).reply.taskStatus == "failed"
    ensures GenerationOutcome(accessKey, secretKey, submit, obs) ==
      Raised(GenerationFailed(obs(0).reply.statusMsg.GetOr(UnknownReason)))
  {
    FirstSettlingReplyDecides(obs, 0, 0);
  }
}
