/**
 * The automated review of applications (server/server.js, `reviewAi`), as
 * functions over the three keyed stores. One step reviews one application:
 * it builds a four-part prompt, hands it to the model, stamps the model's
 * answer, replaces the outcome stored under the application's id and marks
 * the application reviewed. A pass runs one step for every application the
 * query for `currentStatus == false` returned.
 */
module Review {
  import opened Wrappers
  import opened Timestamps

  /** Store-assigned document id. */
  type Id = string

  /** A job posting as stored: its fields by name. */
  type Document = map<string, string>

  /** An application record as the submit handler writes it. */
  datatype Application = Application(
    applicantId: string,
    jobId: string,
    submissionDate: string,
    resumeText: string,
    currentStatus: bool)

  /**
   * A review outcome; the model answers in this same shape (its JSON schema
   * marks applicantId and jobId optional, the rest required). A null
   * reviewerId is None.
   */
  datatype ReviewOutcome = ReviewOutcome(
    applicantId: Option<string>,
    jobId: Option<string>,
    reviewType: string,
    decision: string,
    reviewTimestamp: string,
    reviewerId: Option<string>,
    reasoningLog: string,
    isFinalDecision: bool)

  /** The three collections the pipeline reads and writes. */
  datatype Store = Store(
    applications: map<Id, Application>,
    reviewOutcomes: map<Id, ReviewOutcome>,
    jobPostings: map<Id, Document>)

  /**
   * One `{ text: ... }` part of the review prompt. The two JSON parts stand
   * for `JSON.stringify` of the application and of the job posting's data,
   * which is `undefined` (None) when no posting has the application's jobId.
   */
  datatype PromptPart =
    | Text(text: string)
    | ApplicationJson(app: Application)
    | JobJson(job: Option<Document>)

  /** `generateJsonOutput(prompt, schema)`: the parsed answer, or None when the call or the parse throws. */
  type Model = seq<PromptPart> -> Option<ReviewOutcome>

  /** The clock read for each record's review, `new Date()` inside the per-record callback. */
  type Clock = Id -> Instant

  const Instruction := "Review the following applicant's application and provide a decision based on the qualifications provided. NOTE: name and any personal information was redacted"
  const JobIntro := "Also consider the job posting details: "
  const AiScreen := "AI_screen"

  /** What `jobPostings.doc(jobId).get()` gives. */
  datatype JobLookup =
    | InvalidPath          // `doc("")` throws before any read
    | Missing              // the snapshot does not exist; `data()` is undefined
    | Found(doc: Document)

  function LookupJob(jobs: map<Id, Document>, jobId: Id): (r: JobLookup)
    ensures r.InvalidPath? <==> jobId == ""
    ensures r.Found? <==> jobId != "" && jobId in jobs
    ensures r.Found? ==> r.doc == jobs[jobId]
  {
    if jobId == "" then InvalidPath
    else if jobId in jobs then Found(jobs[jobId])
    else Missing
  }

  /** The job part of the prompt for a lookup that did not throw. */
  function JobData(lookup: JobLookup): Option<Document>
    requires !lookup.InvalidPath?
  {
    if lookup.Found? then Some(lookup.doc) else None
  }

  /** The prompt: instruction, application JSON, job introduction, job JSON, in that order. */
  function ReviewPrompt(app: Application, job: Option<Document>): (r: seq<PromptPart>)
    ensures |r| == 4
    ensures r[0] == Text(Instruction) && r[2] == Text(JobIntro)
    ensures r[1] == ApplicationJson(app) && r[3] == JobJson(job)
  {
    [Text(Instruction), ApplicationJson(app), Text(JobIntro), JobJson(job)]
  }

  /**
   * The model's answer after the five field assignments: the review type,
   * timestamp and reviewer are fixed, applicant and job are copied from the
   * application, and the model's decision, reasoning and finality are kept.
   */
  function StampAiReview(ai: ReviewOutcome, app: Application, timestamp: string): (r: ReviewOutcome)
    ensures r.reviewType == AiScreen && r.reviewerId == None && r.reviewTimestamp == timestamp
    ensures r.applicantId == Some(app.applicantId) && r.jobId == Some(app.jobId)
    ensures r.decision == ai.decision && r.reasoningLog == ai.reasoningLog
    ensures r.isFinalDecision == ai.isFinalDecision
  {
    ai.(reviewType := AiScreen, reviewTimestamp := timestamp, reviewerId := None,
        applicantId := Some(app.applicantId), jobId := Some(app.jobId))
  }

  /**
   * Whatever the model puts in the five stamped fields is lost: two answers
   * give the same stored outcome exactly when they agree on decision,
   * reasoning and finality.
   */
  lemma StampKeepsOnlyTheVerdict(a1: ReviewOutcome, a2: ReviewOutcome, app: Application, timestamp: string)
    ensures StampAiReview(a1, app, timestamp) == StampAiReview(a2, app, timestamp)
        <==> a1.decision == a2.decision && a1.reasoningLog == a2.reasoningLog
             && a1.isFinalDecision == a2.isFinalDecision
  {
  }

  /** The outcome stored under `id`, if any. */
  function OutcomeAt(s: Store, id: Id): Option<ReviewOutcome> {
    if id in s.reviewOutcomes then Some(s.reviewOutcomes[id]) else None
  }

  /**
   * The two writes of a step: `ReviewOutcomes.doc(id).set(review)` replaces
   * the whole outcome document, then `update({currentStatus: true})` changes
   * that one field of the application (an update of a missing application
   * would throw after the outcome was written, so the application map is then
   * left as it was).
   */
  function CommitReview(s: Store, id: Id, review: ReviewOutcome): (r: Store)
    ensures r.reviewOutcomes == s.reviewOutcomes[id := review]
    ensures r.jobPostings == s.jobPostings
    ensures r.applications.Keys == s.applications.Keys
    ensures forall k :: k in s.applications && k != id ==> r.applications[k] == s.applications[k]
    ensures id in s.applications ==> r.applications[id] == s.applications[id].(currentStatus := true)
  {
    var apps := if id in s.applications
      then s.applications[id := s.applications[id].(currentStatus := true)]
      else s.applications;
    s.(applications := apps, reviewOutcomes := s.reviewOutcomes[id := review])
  }

  /**
   * Last write wins: when two reviews of the same application are committed
   * one after the other (two overlapping passes that both saw it pending),
   * the state is as if only the later one had been written; nothing of the
   * earlier review survives.
   */
  lemma LastWriteWins(s: Store, id: Id, first: ReviewOutcome, second: ReviewOutcome)
    ensures CommitReview(CommitReview(s, id, first), id, second) == CommitReview(s, id, second)
  {
    var a := CommitReview(CommitReview(s, id, first), id, second);
    var b := CommitReview(s, id, second);
    assert a.applications == b.applications;
  }

  /** Commits for different applications do not interfere, in either order. */
  lemma CommitsCommute(s: Store, i: Id, ri: ReviewOutcome, j: Id, rj: ReviewOutcome)
    requires i != j
    ensures CommitReview(CommitReview(s, i, ri), j, rj) == CommitReview(CommitReview(s, j, rj), i, ri)
  {
    var a := CommitReview(CommitReview(s, i, ri), j, rj);
    var b := CommitReview(CommitReview(s, j, rj), i, ri);
    assert a.applications == b.applications;
    assert a.reviewOutcomes == b.reviewOutcomes;
  }

  /**
   * The body of the per-record callback, run to completion on its own. When
   * the job lookup or the model call throws, the callback stops before either
   * write, so the stores are left as they were; otherwise it commits the
   * stamped answer.
   */
  function ReviewStep(s: Store, id: Id, model: Model, now: Instant): (r: Store)
    requires id in s.applications
    ensures r.jobPostings == s.jobPostings
    ensures r.applications.Keys == s.applications.Keys
    ensures forall k :: k in s.applications && k != id ==> r.applications[k] == s.applications[k]
    ensures forall k :: k != id ==> OutcomeAt(r, k) == OutcomeAt(s, k)
  {
    var app := s.applications[id];
    var lookup := LookupJob(s.jobPostings, app.jobId);
    if lookup.InvalidPath? then s
    else
      var answer := model(ReviewPrompt(app, JobData(lookup)));
      if answer.None? then s
      else CommitReview(s, id, StampAiReview(answer.value, app, Stamp(now)))
  }

  /** The prompt the model receives when the application `id` is reviewed. */
  function PromptFor(s: Store, id: Id): seq<PromptPart>
    requires id in s.applications && s.applications[id].jobId != ""
  {
    var app := s.applications[id];
    ReviewPrompt(app, JobData(LookupJob(s.jobPostings, app.jobId)))
  }

  /** A step's effect on its own record depends only on that record, its outcome slot and the postings. */
  lemma StepIsLocal(s1: Store, s2: Store, id: Id, model: Model, now: Instant)
    requires id in s1.applications && id in s2.applications
    requires s1.applications[id] == s2.applications[id]
    requires OutcomeAt(s1, id) == OutcomeAt(s2, id)
    requires s1.jobPostings == s2.jobPostings
    ensures ReviewStep(s1, id, model, now).applications[id] == ReviewStep(s2, id, model, now).applications[id]
    ensures OutcomeAt(ReviewStep(s1, id, model, now), id) == OutcomeAt(ReviewStep(s2, id, model, now), id)
  {
  }

  predicate Distinct(ids: seq<Id>) {
    forall i, j :: 0 <= i < j < |ids| ==> ids[i] != ids[j]
  }

  /**
   * One pass over the query result `ids`, with the per-record bodies run one
   * after another in that order.
   */
  function ReviewPass(s: Store, ids: seq<Id>, model: Model, clock: Clock): (r: Store)
    requires forall k :: k in ids ==> k in s.applications
    ensures r.applications.Keys == s.applications.Keys
    ensures r.jobPostings == s.jobPostings
    decreases |ids|
  {
    if ids == [] then s
    else
      var last := ids[|ids| - 1];
      var before := ReviewPass(s, ids[..|ids| - 1], model, clock);
      ReviewStep(before, last, model, clock(last))
  }

  /**
   * `r` is `s` after every record in `ids` was reviewed on its own against
   * `s`, and every other record and outcome was left as it was.
   */
  ghost predicate EachReviewedAlone(s: Store, r: Store, ids: seq<Id>, model: Model, clock: Clock)
    requires forall k :: k in ids ==> k in s.applications
    requires r.applications.Keys == s.applications.Keys
  {
    && (forall k :: k in s.applications && k !in ids ==> r.applications[k] == s.applications[k])
    && (forall k :: k !in ids ==> OutcomeAt(r, k) == OutcomeAt(s, k))
    && (forall k :: k in ids ==>
          r.applications[k] == ReviewStep(s, k, model, clock(k)).applications[k]
          && OutcomeAt(r, k) == OutcomeAt(ReviewStep(s, k, model, clock(k)), k))
  }

  /**
   * The effect of a pass: every record the query returned ends up exactly as
   * if it had been reviewed alone on the state before the pass, whatever the
   * order of the query result, and every other record and outcome is left as
   * it was.
   */
  lemma {:induction false} ReviewPassEffect(s: Store, ids: seq<Id>, model: Model, clock: Clock)
    requires forall k :: k in ids ==> k in s.applications
    requires Distinct(ids)
    ensures EachReviewedAlone(s, ReviewPass(s, ids, model, clock), ids, model, clock)
    decreases |ids|
  {
    var r := ReviewPass(s, ids, model, clock);
    if ids != [] {
      var n := |ids| - 1;
      var init, last := ids[..n], ids[n];
      assert ids == init + [last];
      assert forall k :: k in init ==> k in ids;
      assert Distinct(init);
      assert last !in init;
      ReviewPassEffect(s, init, model, clock);
      var before := ReviewPass(s, init, model, clock);
      assert r == ReviewStep(before, last, model, clock(last));
      StepIsLocal(before, s, last, model, clock(last));
      forall k | k in s.applications && k !in ids
        ensures r.applications[k] == s.applications[k]
      {
        assert r.applications[k] == before.applications[k];
      }
      forall k | k !in ids
        ensures OutcomeAt(r, k) == OutcomeAt(s, k)
      {
        assert OutcomeAt(r, k) == OutcomeAt(before, k);
      }
      forall k | k in init
        ensures r.applications[k] == ReviewStep(s, k, model, clock(k)).applications[k]
        ensures OutcomeAt(r, k) == OutcomeAt(ReviewStep(s, k, model, clock(k)), k)
      {
        assert k != last;
        assert r.applications[k] == before.applications[k];
        assert OutcomeAt(r, k) == OutcomeAt(before, k);
      }
    }
  }

  /**
   * A full pass with a model that answers every prompt: every application
   * that was pending is marked reviewed, and the outcome stored under its id
   * is the model's answer stamped as an AI screen with no reviewer, carrying
   * the application's applicant and job (job ids that are empty make the
   * lookup throw and are left pending).
   */
  lemma PassReviewsEveryPendingApplication(s: Store, ids: seq<Id>, model: Model, clock: Clock)
    requires forall k :: k in ids ==> k in s.applications
    requires Distinct(ids)
    ensures var r := ReviewPass(s, ids, model, clock);
      forall k :: k in ids && s.applications[k].jobId != "" && model(PromptFor(s, k)).Some? ==>
        && r.applications[k] == s.applications[k].(currentStatus := true)
        && OutcomeAt(r, k) == Some(StampAiReview(model(PromptFor(s, k)).value, s.applications[k], Stamp(clock(k))))
        && r.reviewOutcomes[k].reviewType == AiScreen
        && r.reviewOutcomes[k].reviewerId == None
  {
    ReviewPassEffect(s, ids, model, clock);
  }

  /**
   * A record whose model call fails stays pending with its outcome untouched:
   * neither write happens. Were the process to survive the rejection, a later
   * pass would find the record pending again.
   */
  lemma FailedReviewStaysPending(s: Store, ids: seq<Id>, model: Model, clock: Clock, k: Id)
    requires forall k :: k in ids ==> k in s.applications
    requires Distinct(ids)
    requires k in ids && s.applications[k].jobId != "" && model(PromptFor(s, k)).None?
    ensures ReviewPass(s, ids, model, clock).applications[k] == s.applications[k]
    ensures OutcomeAt(ReviewPass(s, ids, model, clock), k) == OutcomeAt(s, k)
  {
    ReviewPassEffect(s, ids, model, clock);
  }
}
