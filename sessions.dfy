/**
 * The per-user conversation state of the bot: which images of the
 * start/end pair have arrived. `on_image` fills the session; `/start`,
 * `/cancel`, the "создать видео" button, a launched job and any error
 * during intake replace it with an empty one.
 *
 * Downloading, base64 encoding and the working directory's creation are
 * parameters: the image's base64 text (or `None` when fetching it raised)
 * and the directory name that would be created.
 */
module Sessions {
  import opened Wrappers
  import opened Strings

  /** `Session`: three optional fields, all unset in a new one. */
  datatype Session = Session(startB64: Option<string>, endB64: Option<string>, workdir: Option<string>)

  const Fresh: Session := Session(None, None, None)

  /** An attached document and its declared MIME type. */
  datatype Document = Document(mimeType: Option<string>)

  /** A photo or document message, as far as `on_image` looks at it. */
  datatype ImageMessage = ImageMessage(hasPhoto: bool, document: Option<Document>)

  /** The image pair handed to the background generation task. */
  datatype Job = Job(startB64: string, endB64: string, workdir: string)

  /** What `on_image` does after updating the session. */
  datatype IntakeReply =
    | AskForImage
    | AskForEndImage
    | JobLaunched(job: Job)
    | IntakeFailed

  /** A photo, or a document whose MIME type starts with `image/`. */
  predicate CarriesImage(msg: ImageMessage) {
    || msg.hasPhoto
    || (msg.document.Some? && msg.document.value.mimeType.Some?
        && StartsWith(msg.document.value.mimeType.value, "image/"))
  }

  /** `not session.start_b64`: unset or empty. */
  predicate StartMissing(session: Session) {
    session.startB64.None? || session.startB64.value == ""
  }

  /**
   * One image message: the user's session afterwards, and the reply.
   * `stored` is the session held for the user before, if any.
   */
  function Intake(stored: Option<Session>, msg: ImageMessage, payload: Option<string>,
                  freshDir: string): (r: (Session, IntakeReply))
    ensures r.1.AskForImage? <==> !CarriesImage(msg)
    ensures r.1.AskForImage? ==> r.0 == stored.GetOr(Fresh)
    ensures r.1.IntakeFailed? <==> CarriesImage(msg) && payload.None?
    ensures r.1.IntakeFailed? || r.1.JobLaunched? ==> r.0 == Fresh
    ensures r.1.AskForEndImage? <==> CarriesImage(msg) && payload.Some? && StartMissing(stored.GetOr(Fresh))
    ensures r.1.AskForEndImage? ==> r.0.startB64 == payload && r.0.endB64 == stored.GetOr(Fresh).endB64
    ensures r.1.AskForEndImage? ==> r.0.workdir.Some?
    ensures r.1.JobLaunched? ==>
      && stored.Some? && !StartMissing(stored.value)
      && r.1.job.startB64 == stored.value.startB64.value != ""
      && Some(r.1.job.endB64) == payload
  {
    var session := stored.GetOr(Fresh);
    if !CarriesImage(msg) then (session, AskForImage)
    else if payload.None? then (Fresh, IntakeFailed)
    else
      var withDir := if session.workdir.None? then session.(workdir := Some(freshDir)) else session;
      if StartMissing(withDir) then (withDir.(startB64 := payload), AskForEndImage)
      else (Fresh, JobLaunched(Job(withDir.startB64.value, payload.value, withDir.workdir.value)))
  }

  /** No stored session ever holds an end image: reaching it launches the job. */
  predicate NoEndImage(sessions: map<int, Session>) {
    forall u :: u in sessions ==> sessions[u].endB64.None?
  }

  /** `SESSIONS`. */
  class SessionStore {
    var sessions: map<int, Session>

    constructor()
      ensures sessions == map[]
    {
      sessions := map[];
    }

    /** `SESSIONS[user_id] = Session()`. */
    method Reset(userId: int)
      modifies this
      ensures sessions == old(sessions)[userId := Fresh]
    {
      sessions := sessions[userId := Fresh];
    }

    /**
     * `on_image`. The session's fields are updated in place in the source;
     * here each path writes the user's entry once, with its final value.
     */
    method OnImage(userId: int, msg: ImageMessage, payload: Option<string>, freshDir: string)
      returns (reply: IntakeReply)
      modifies this
      ensures var stored := if userId in old(sessions) then Some(old(sessions)[userId]) else None;
        && sessions == old(sessions)[userId := Intake(stored, msg, payload, freshDir).0]
        && reply == Intake(stored, msg, payload, freshDir).1
    {
      // `SESSIONS.setdefault(user_id, Session())`
      var session := if userId in sessions then sessions[userId] else Fresh;
      if !CarriesImage(msg) {
        sessions := sessions[userId := session];
        return AskForImage;
      }
      if payload.None? {
        sessions := sessions[userId := Fresh];
        return IntakeFailed;
      }
      if session.workdir.None? {
        session := session.(workdir := Some(freshDir));
      }
      if StartMissing(session) {
        session := session.(startB64 := payload);
        sessions := sessions[userId := session];
        return AskForEndImage;
      }
      session := session.(endB64 := payload);
      reply := JobLaunched(Job(session.startB64.value, session.endB64.value, session.workdir.value));
      sessions := sessions[userId := Fresh];
    }
  }

  /** `on_image` keeps every stored session free of an end image. */
  lemma IntakeKeepsNoEndImage(sessions: map<int, Session>, userId: int, msg: ImageMessage,
                              payload: Option<string>, freshDir: string)
    requires NoEndImage(sessions)
    ensures var stored := if userId in sessions then Some(sessions[userId]) else None;
      NoEndImage(sessions[userId := Intake(stored, msg, payload, freshDir).0])
  {
  }

  /** From an empty session, two images with a non-empty start launch the job on that pair. */
  lemma TwoImagesLaunchJob(msg1: ImageMessage, msg2: ImageMessage, start: string, end: string,
                           dir1: string, dir2: string)
    requires CarriesImage(msg1) && CarriesImage(msg2) && start != ""
    ensures var first := Intake(Some(Fresh), msg1, Some(start), dir1);
      && first.1 == AskForEndImage
      && Intake(Some(first.0), msg2, Some(end), dir2) == (Fresh, JobLaunched(Job(start, end, dir1)))
  {
  }

  /**
   * An empty first image (an empty file encodes to "") does not count: the
   * next image is taken as the start image again.
   */
  lemma EmptyStartImageIsRetaken(msg1: ImageMessage, msg2: ImageMessage, second: string,
                                 dir1: string, dir2: string)
    requires CarriesImage(msg1) && CarriesImage(msg2)
    ensures var first := Intake(Some(Fresh), msg1, Some(""), dir1);
      && first.1 == AskForEndImage
      && Intake(Some(first.0), msg2, Some(second), dir2).1 == AskForEndImage
      && Intake(Some(first.0), msg2, Some(second), dir2).0 == Session(Some(second), None, Some(dir1))
  {
  }

  /** A failed download after the start image loses it: the user starts over. */
  lemma FailureDiscardsStartImage(msg: ImageMessage, start: string, dir: string, freshDir: string)
    requires CarriesImage(msg)
    ensures Intake(Some(Session(Some(start), None, Some(dir))), msg, None, freshDir) == (Fresh, IntakeFailed)
  {
  }
}
