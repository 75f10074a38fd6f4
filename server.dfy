/**
 * The Express server's state and handlers (server/server.js): the three
 * Firestore collections and the upload directory as fields of one object,
 * the `/applications` submit handler, the per-record body of `reviewAi`,
 * one sequential review pass, and the `/jobListings` lookup.
 */
module Server {
  import opened Wrappers
  import opened Text
  import opened Timestamps
  import opened Extraction
  import opened Review

  /** A response body: a plain message, an `{error}` object, one job, or a list of jobs. */
  datatype Body =
    | Message(msg: string)
    | Error(error: string)
    | Job(doc: Document)
    | Jobs(docs: seq<Document>)

  datatype Reply = Reply(status: nat, body: Body)

  /** The form fields of a submission. */
  datatype SubmitForm = SubmitForm(applicantId: string, jobId: string)

  const NoFile := Reply(400, Message("No file uploaded."))
  const ExtractFailed := Reply(500, Error("Failed to extract text"))
  const Submitted := Reply(200, Message("Application submitted successfully"))
  const JobNotFound := Reply(404, Error("Job not found"))

  /**
   * `{ id: d.id, ...d.data() }`: the document's fields with its id added
   * first, so a stored field named "id" overrides the document id.
   */
  function WithId(id: Id, doc: Document): (r: Document)
    ensures r.Keys == doc.Keys + {"id"}
    ensures r["id"] == if "id" in doc then doc["id"] else id
    ensures forall k :: k in doc ==> r[k] == doc[k]
  {
    map["id" := id] + doc
  }

  class Portal {
    var applications: map<Id, Application>
    var reviewOutcomes: map<Id, ReviewOutcome>
    var jobPostings: map<Id, Document>
    /** Files the upload middleware has written, by path. */
    var uploads: map<string, Bytes>

    ghost function State(): Store
      reads this
    {
      Store(applications, reviewOutcomes, jobPostings)
    }

    constructor (jobs: map<Id, Document>, files: map<string, Bytes>)
      ensures State() == Store(map[], map[], jobs) && uploads == files
    {
      applications := map[];
      reviewOutcomes := map[];
      jobPostings := jobs;
      uploads := files;
    }

    /**
     * POST /applications. `file` is the path of the stored upload, absent
     * when none was sent; `newId` is the id the store assigns to an added
     * document. The temporary file is removed whether extraction succeeds or
     * fails, and a record is added exactly when the reply is 200.
     */
    method Submit(file: Option<string>, form: SubmitForm, now: Instant, newId: Id,
                  docx: Parser, pdf: Parser) returns (reply: Reply)
      requires newId !in applications
      modifies this
      ensures reviewOutcomes == old(reviewOutcomes) && jobPostings == old(jobPostings)
      ensures file.None? ==> reply == NoFile && uploads == old(uploads)
      ensures file.Some? ==> uploads == old(uploads) - {file.value}
      ensures file.Some? && file.value !in old(uploads) ==> reply == ExtractFailed
      ensures file.Some? && file.value in old(uploads) ==>
        var text := ExtractText(old(uploads)[file.value], UploadExtension(file.value), docx, pdf);
        && (text.Failure? ==> reply == ExtractFailed)
        && (text.Success? ==>
              && reply == Submitted
              && applications == old(applications)[newId := Application(form.applicantId, form.jobId, Stamp(now), text.value, false)])
      ensures reply.status == 200 <==> applications.Keys == old(applications.Keys) + {newId}
      ensures reply.status != 200 ==> applications == old(applications)
      ensures forall k :: k in old(applications) ==> k in applications && applications[k] == old(applications)[k]
    {
      if file.None? {
        return NoFile;
      }
      var path := file.value;
      if path !in uploads {
        // readFile throws; the handler's clean-up unlink fails quietly
        return ExtractFailed;
      }
      var data := uploads[path];
      var text := ExtractText(data, UploadExtension(path), docx, pdf);
      if text.Success? {
        uploads := uploads - {path};
        var record := Application(form.applicantId, form.jobId, Stamp(now), text.value, false);
        applications := applications[newId := record];
        reply := Submitted;
      } else {
        uploads := uploads - {path};
        reply := ExtractFailed;
      }
    }

    /**
     * The per-record body of `reviewAi` for the pending application `id`:
     * build the prompt part by part, ask the model, stamp the answer field
     * by field, then replace the stored outcome and mark the application
     * reviewed. A throwing job lookup or model call leaves everything as it was.
     */
    method ReviewApplication(id: Id, model: Model, now: Instant)
      requires id in applications && !applications[id].currentStatus
      modifies this
      ensures State() == Review.ReviewStep(old(State()), id, model, now)
      ensures uploads == old(uploads)
    {
      var app := applications[id];
      var lookup := LookupJob(jobPostings, app.jobId);
      if lookup.InvalidPath? {
        return;
      }
      var timestamp := Stamp(now);
      var prompt: seq<PromptPart> := [];
      prompt := prompt + [Text(Instruction)];
      prompt := prompt + [ApplicationJson(app)];
      prompt := prompt + [Text(JobIntro)];
      prompt := prompt + [JobJson(JobData(lookup))];
      assert prompt == ReviewPrompt(app, JobData(lookup));
      var answer := model(prompt);
      if answer.None? {
        return;
      }
      var review := answer.value;
      review := review.(reviewType := AiScreen);
      review := review.(reviewTimestamp := timestamp);
      review := review.(reviewerId := None);
      review := review.(applicantId := Some(app.applicantId));
      review := review.(jobId := Some(app.jobId));
      reviewOutcomes := reviewOutcomes[id := review];
      applications := applications[id := applications[id].(currentStatus := true)];
    }

    /**
     * `reviewAi`, with the per-record bodies run one after another: `pending`
     * is the result of the query for `currentStatus == false`, each pending
     * application exactly once.
     */
    method ReviewAi(pending: seq<Id>, model: Model, clock: Clock)
      requires Distinct(pending)
      requires forall k :: k in pending <==> k in applications && !applications[k].currentStatus
      modifies this
      ensures State() == ReviewPass(old(State()), pending, model, clock)
      ensures uploads == old(uploads)
    {
      var i := 0;
      while i < |pending|
        invariant 0 <= i <= |pending|
        invariant forall k :: k in pending ==> k in old(applications)
        invariant State() == ReviewPass(old(State()), pending[..i], model, clock)
        invariant forall j :: i <= j < |pending| ==>
                    pending[j] in applications && !applications[pending[j]].currentStatus
        invariant uploads == old(uploads)
      {
        var id := pending[i];
        ghost var before := State();
        ReviewApplication(id, model, clock(id));
        assert pending[..i + 1] == pending[..i] + [id];
        forall j | i < j < |pending|
          ensures pending[j] in applications && !applications[pending[j]].currentStatus
        {
          assert pending[j] != id;
          assert applications[pending[j]] == before.applications[pending[j]];
        }
        i := i + 1;
      }
      assert pending[..i] == pending;
    }

    /**
     * POST /jobListings. A truthy `jobId` returns that posting's data or 404;
     * otherwise every posting, in the order the store lists them (`order`),
     * each with its document id added.
     */
    method JobListings(jobId: Option<string>, order: seq<Id>) returns (reply: Reply)
      requires Distinct(order)
      requires forall k :: k in order <==> k in jobPostings
      ensures Truthy(jobId) && jobId.value in jobPostings ==> reply == Reply(200, Job(jobPostings[jobId.value]))
      ensures Truthy(jobId) && jobId.value !in jobPostings ==> reply == JobNotFound
      ensures !Truthy(jobId) ==>
        && reply.status == 200 && reply.body.Jobs?
        && |reply.body.docs| == |order|
        && forall i :: 0 <= i < |order| ==> reply.body.docs[i] == WithId(order[i], jobPostings[order[i]])
    {
      if Truthy(jobId) {
        if jobId.value !in jobPostings {
          return JobNotFound;
        }
        return Reply(200, Job(jobPostings[jobId.value]));
      }
      var jobs: seq<Document> := [];
      for i := 0 to |order|
        invariant |jobs| == i
        invariant forall j :: 0 <= j < i ==> jobs[j] == WithId(order[j], jobPostings[order[j]])
      {
        jobs := jobs + [WithId(order[i], jobPostings[order[i]])];
      }
      reply := Reply(200, Jobs(jobs));
    }
  }
}
