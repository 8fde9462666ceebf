/**
 * The background worker: routes the popup's requests, prepares a job posting
 * for analysis, runs the analysis against the stored resume, and records each
 * successful analysis in the store under a fresh key.
 */
module Worker {
  import opened Wrappers
  import opened Strings
  import opened Js
  import opened ChromeStorage
  import opened Storage
  import opened Ai
  import Content

  const NoResumeUploaded := "Please upload your resume first"
  const EmptyJob := "Could not extract job data from the page. Please make sure you are on a job posting page."
  const UnknownMessageType := "Unknown message type"

  /** The `{ success, data }` / `{ success: false, error }` answer. */
  datatype Envelope = Success(data: Value) | Failure(error: string)

  // -------------------------------------------------------- the job record

  /** `v || ''`. */
  function OrEmpty(v: Value): (r: Value)
    ensures Truthy(r) <==> Truthy(v)
    ensures Truthy(v) ==> r == v
    ensures !Truthy(v) ==> r == Str("")
  {
    if Truthy(v) then v else Str("")
  }

  /** The job as the worker passes it on. */
  datatype FormattedJob = FormattedJob(title: Value, description: Value, requirements: seq<Value>)

  /** The formatting step; reading a field of `null` or `undefined` throws. */
  function FormatJobData(jobData: Value): (r: Result<FormattedJob, string>)
    ensures r.Err? <==> jobData.Undefined? || jobData.Null?
    ensures r.Err? ==> r.error == PropertyReadError(jobData, "title")
  {
    if jobData.Undefined? || jobData.Null? then Err(PropertyReadError(jobData, "title"))
    else
      var requirements := Get(jobData, "requirements");
      Ok(FormattedJob(OrEmpty(Get(jobData, "title")), OrEmpty(Get(jobData, "description")),
                      if requirements.Arr? then requirements.items else []))
  }

  /** The emptiness rule: no title, no description and no requirements. */
  predicate JobIsEmpty(job: FormattedJob) {
    !Truthy(job.title) && !Truthy(job.description) && |job.requirements| == 0
  }

  /** Formatting keeps a truthy title or description, blanks a falsy one, and keeps
      the requirements only when they are an array. */
  lemma FormatJobDataSpec(jobData: Value)
    requires !jobData.Undefined? && !jobData.Null?
    ensures var job := FormatJobData(jobData).value;
            && job.title == (if Truthy(Get(jobData, "title")) then Get(jobData, "title") else Str(""))
            && job.description == (if Truthy(Get(jobData, "description")) then Get(jobData, "description")
                                   else Str(""))
            && (Get(jobData, "requirements").Arr? ==> job.requirements == Get(jobData, "requirements").items)
            && (!Get(jobData, "requirements").Arr? ==> job.requirements == [])
  {
  }

  /** The job is rejected exactly when the title, the description and the
      requirement list are all empty. */
  lemma EmptyIff(jobData: Value)
    requires !jobData.Undefined? && !jobData.Null?
    ensures JobIsEmpty(FormatJobData(jobData).value) <==>
              && !Truthy(Get(jobData, "title")) && !Truthy(Get(jobData, "description"))
              && (!Get(jobData, "requirements").Arr? || Get(jobData, "requirements").items == [])
  {
  }

  /** A record the content script accepted is never rejected as empty here. */
  lemma ExtractedJobNotEmpty(job: Content.JobData)
    requires Content.RespondExtract(Some(job)).ExtractSuccess?
    ensures FormatJobData(Content.JobRecord(job)).Ok?
    ensures !JobIsEmpty(FormatJobData(Content.JobRecord(job)).value)
  {
  }

  /** `${title}\n${description}\n${requirements.join('\n')}`. */
  function AnalysisInput(job: FormattedJob): string {
    ToString(job.title) + "\n" + ToString(job.description) + "\n" + JoinValues(job.requirements, "\n")
  }

  /** For text fields and requirements with no newline of their own, splitting the
      analysis input on newlines gives back the title, the description and the
      requirements, in that order. */
  lemma AnalysisInputLines(title: string, description: string, requirements: seq<string>)
    requires |requirements| >= 1
    requires '\n' !in title && '\n' !in description
    requires forall k :: 0 <= k < |requirements| ==> '\n' !in requirements[k]
    ensures var job := FormattedJob(Str(title), Str(description),
                                    seq(|requirements|, i requires 0 <= i < |requirements| => Str(requirements[i])));
            Split(AnalysisInput(job), '\n') == [title, description] + requirements
  {
    var job := FormattedJob(Str(title), Str(description),
                            seq(|requirements|, i requires 0 <= i < |requirements| => Str(requirements[i])));
    JoinStrings(requirements, "\n");
    JoinCons(description, requirements, "\n");
    JoinCons(title, [description] + requirements, "\n");
    var lines := [title, description] + requirements;
    assert [title] + ([description] + requirements) == lines;
    assert AnalysisInput(job) == Join(lines, "\n");
    assert forall k :: 0 <= k < |lines| ==> '\n' !in lines[k] by {
      forall k | 0 <= k < |lines| ensures '\n' !in lines[k] {
        if k >= 2 {
          assert lines[k] == requirements[k - 2];
        }
      }
    }
    SplitJoin(lines, '\n');
  }

  /** A job with requirements alone gets past the emptiness rule, but if those
      requirements are blank the analyzer finds an empty description. */
  lemma BlankRequirementsReachAnalyzer(requirements: seq<string>, vectorStore: seq<string>,
                                       models: map<string, ModelHandle>, c: Collaborators)
    requires |requirements| >= 1 && DefaultModel in models
    requires forall k :: 0 <= k < |requirements| ==> Blank(requirements[k])
    ensures var job := FormattedJob(Str(""), Str(""),
                                    seq(|requirements|, i requires 0 <= i < |requirements| => Str(requirements[i])));
            && !JobIsEmpty(job)
            && AnalyzeJobMatch(Some(vectorStore), models, AnalysisInput(job), DefaultModel, c) == Err(EmptyDescription)
  {
    var job := FormattedJob(Str(""), Str(""),
                            seq(|requirements|, i requires 0 <= i < |requirements| => Str(requirements[i])));
    JoinStrings(requirements, "\n");
    BlankJoin(requirements, "\n");
    var joined := Join(requirements, "\n");
    assert AnalysisInput(job) == "\n\n" + joined;
    NonSpaceAppend("\n\n", joined);
    assert NonSpace("\n\n") == [];
    AnalyzeChecks(Some(vectorStore), models, AnalysisInput(job), DefaultModel, c, c);
  }

  lemma {:induction false} BlankJoin(ws: seq<string>, sep: string)
    requires Blank(sep) && forall k :: 0 <= k < |ws| ==> Blank(ws[k])
    ensures Blank(Join(ws, sep))
  {
    if |ws| > 1 {
      BlankJoin(ws[1..], sep);
      NonSpaceAppend(ws[0], sep);
      NonSpaceAppend(ws[0] + sep, Join(ws[1..], sep));
    }
  }

  // ------------------------------------------------------ the stored record

  /** The store key of an analysis made at `now` milliseconds. */
  function AnalysisKey(now: nat): (key: string)
    ensures "analysis_" <= key
  {
    "analysis_" + NatToString(now)
  }

  /** Analyses made at different times are stored under different keys. */
  lemma AnalysisKeyInjective(m: nat, n: nat)
    requires AnalysisKey(m) == AnalysisKey(n)
    ensures m == n
  {
    assert NatToString(m) == AnalysisKey(m)[9..];
    assert NatToString(n) == AnalysisKey(n)[9..];
    NatToStringInjective(m, n);
  }

  /** An analysis never overwrites the profile, the resume or the API keys. */
  lemma AnalysisKeyFresh(now: nat)
    ensures AnalysisKey(now) !in {UserDataKey, ResumeKey, LastUpdatedKey, OpenAiKeyName, AnthropicKeyName}
  {
    var key := AnalysisKey(now);
    assert key[0] == 'a' && key[2] == 'a';
  }

  function FormattedJobValue(job: FormattedJob): Value {
    Obj(map["title" := job.title, "description" := job.description, "requirements" := Arr(job.requirements)])
  }

  /** `{ jobData, analysis, timestamp }`. */
  function AnalysisRecord(job: FormattedJob, analysis: Value, timestamp: string): Value {
    Obj(map["jobData" := FormattedJobValue(job), "analysis" := analysis, "timestamp" := Str(timestamp)])
  }

  // ---------------------------------------------------------- the handlers

  /** The answer of `handleJobAnalysis` and the entries it adds to the store. */
  datatype AnalysisOutcome = AnalysisOutcome(response: Envelope, written: map<string, Value>)

  /** The steps of `handleJobAnalysis(jobData)` up to the analysis, against a store
      with the given entries: the formatted job and the validated analysis, or the
      message of the first step that fails. */
  function AnalysisSteps(entries: map<string, Value>, jobData: Value, c: Collaborators)
    : (r: Result<(FormattedJob, Value), string>)
    ensures r.Ok? ==> && Truthy(OptionalGet(Lookup(entries, ResumeKey), "content"))
                      && FormatJobData(jobData) == Ok(r.value.0) && !JobIsEmpty(r.value.0)
                      && ValidAnalysis(r.value.1)
  {
    var resume := OptionalGet(Lookup(entries, ResumeKey), "content");
    if !Truthy(resume) then Err(NoResumeUploaded)
    else
      match FormatJobData(jobData)
      case Err(message) => Err(message)
      case Ok(job) =>
        if JobIsEmpty(job) then Err(EmptyJob)
        else
          match IndexOutcome(entries, resume, c)
          case Err(message) => Err(message)
          case Ok(texts) =>
            var models := ModelsFor(Lookup(entries, OpenAiKeyName), Lookup(entries, AnthropicKeyName));
            match AnalyzeJobMatch(Some(texts), models, AnalysisInput(job), DefaultModel, c)
            case Err(message) => Err(message)
            case Ok(analysis) => Ok((job, analysis))
  }

  /** `handleJobAnalysis(jobData)` against a store with the given entries, at `now`
      milliseconds and ISO time `timestamp`. */
  function JobAnalysis(entries: map<string, Value>, jobData: Value, c: Collaborators, now: nat, timestamp: string)
    : (r: AnalysisOutcome)
    ensures r.written == map[] || r.written.Keys == {AnalysisKey(now)}
    ensures r.response.Success? <==> r.written != map[]
  {
    match AnalysisSteps(entries, jobData, c)
    case Err(message) => AnalysisOutcome(Failure(message), map[])
    case Ok((job, analysis)) =>
      var written := map[AnalysisKey(now) := AnalysisRecord(job, analysis, timestamp)];
      assert AnalysisKey(now) in written;
      AnalysisOutcome(Success(analysis), written)
  }

  /** A missing resume is reported before anything else happens, whatever the job
      and the services. */
  lemma NoResumeFirst(entries: map<string, Value>, jobData: Value, c: Collaborators, now: nat, timestamp: string)
    requires !Truthy(OptionalGet(Lookup(entries, ResumeKey), "content"))
    ensures JobAnalysis(entries, jobData, c, now, timestamp) == AnalysisOutcome(Failure(NoResumeUploaded), map[])
  {
  }

  /** With a resume present, a job data that cannot be read fails with the read error,
      and an empty formatted job fails with the empty-job message; neither writes. */
  lemma JobAnalysisRejects(entries: map<string, Value>, jobData: Value, c: Collaborators, now: nat, timestamp: string)
    requires Truthy(OptionalGet(Lookup(entries, ResumeKey), "content"))
    ensures var r := JobAnalysis(entries, jobData, c, now, timestamp);
            var job := FormatJobData(jobData);
            && (job.Err? ==> r == AnalysisOutcome(Failure(PropertyReadError(jobData, "title")), map[]))
            && (job.Ok? && JobIsEmpty(job.value) ==> r == AnalysisOutcome(Failure(EmptyJob), map[]))
  {
  }

  /** A job that passes the emptiness rule is indexed and analysed: a failure of
      either step becomes the answer's `error`, and an analysis is answered and
      stored. */
  lemma JobAnalysisPipeline(entries: map<string, Value>, jobData: Value, c: Collaborators, now: nat, timestamp: string)
    requires Truthy(OptionalGet(Lookup(entries, ResumeKey), "content"))
    requires FormatJobData(jobData).Ok? && !JobIsEmpty(FormatJobData(jobData).value)
    ensures var r := JobAnalysis(entries, jobData, c, now, timestamp);
            var job := FormatJobData(jobData).value;
            var index := IndexOutcome(entries, OptionalGet(Lookup(entries, ResumeKey), "content"), c);
            && (index.Err? ==> r == AnalysisOutcome(Failure(index.error), map[]))
            && (index.Ok? ==>
                  var models := ModelsFor(Lookup(entries, OpenAiKeyName), Lookup(entries, AnthropicKeyName));
                  var analysis := AnalyzeJobMatch(Some(index.value), models, AnalysisInput(job), DefaultModel, c);
                  && (analysis.Err? ==> r == AnalysisOutcome(Failure(analysis.error), map[]))
                  && (analysis.Ok? ==>
                        r == AnalysisOutcome(Success(analysis.value),
                                             map[AnalysisKey(now) := AnalysisRecord(job, analysis.value, timestamp)])))
  {
  }

  /** The worker's AI state: the index, the embeddings key and the models. */
  datatype AiState = AiState(vectorStore: Option<seq<string>>, embeddings: Option<Value>,
                             models: map<string, ModelHandle>)

  /** Whether `handleJobAnalysis` gets as far as `initializeVectorStore`. */
  predicate ReachesIndexing(entries: map<string, Value>, jobData: Value) {
    && Truthy(OptionalGet(Lookup(entries, ResumeKey), "content"))
    && FormatJobData(jobData).Ok? && !JobIsEmpty(FormatJobData(jobData).value)
  }

  /** The AI state `handleJobAnalysis` leaves: unchanged unless indexing is reached;
      then the services are set up when the OpenAI key is truthy, and the index is
      replaced when indexing succeeds. */
  function AiAfterAnalysis(entries: map<string, Value>, jobData: Value, c: Collaborators, before: AiState)
    : (after: AiState)
    ensures !ReachesIndexing(entries, jobData) || !Truthy(Lookup(entries, OpenAiKeyName)) ==> after == before
    ensures ReachesIndexing(entries, jobData) && Truthy(Lookup(entries, OpenAiKeyName)) ==>
              var key := Lookup(entries, OpenAiKeyName);
              var index := IndexOutcome(entries, OptionalGet(Lookup(entries, ResumeKey), "content"), c);
              && after.embeddings == Some(key)
              && after.models == ModelsFor(key, Lookup(entries, AnthropicKeyName))
              && after.vectorStore == (if index.Ok? then Some(index.value) else before.vectorStore)
  {
    var key := Lookup(entries, OpenAiKeyName);
    if !ReachesIndexing(entries, jobData) || !Truthy(key) then before
    else
      var index := IndexOutcome(entries, OptionalGet(Lookup(entries, ResumeKey), "content"), c);
      AiState(if index.Ok? then Some(index.value) else before.vectorStore, Some(key),
              ModelsFor(key, Lookup(entries, AnthropicKeyName)))
  }

  /** The state `initializeVectorStore` leaves, once indexing is reached, is the one
      `AiAfterAnalysis` gives. */
  lemma IndexingState(entries: map<string, Value>, jobData: Value, c: Collaborators, before: AiState, after: AiState)
    requires ReachesIndexing(entries, jobData)
    requires var key := Lookup(entries, OpenAiKeyName);
             var index := IndexOutcome(entries, OptionalGet(Lookup(entries, ResumeKey), "content"), c);
             && (index.Ok? ==> after.vectorStore == Some(index.value))
             && (index.Err? ==> after.vectorStore == before.vectorStore)
             && (!Truthy(key) ==> after.embeddings == before.embeddings && after.models == before.models)
             && (Truthy(key) ==>
                   after.embeddings == Some(key) && after.models == ModelsFor(key, Lookup(entries, AnthropicKeyName)))
    ensures after == AiAfterAnalysis(entries, jobData, c, before)
  {
    if !Truthy(Lookup(entries, OpenAiKeyName)) {
      assert IndexOutcome(entries, OptionalGet(Lookup(entries, ResumeKey), "content"), c).Err?;
    }
  }

  /** After a successful analysis the index holds the resume's passages and the
      models are those of the stored keys, which a later skill suggestion uses. */
  lemma AnalysisLeavesServices(entries: map<string, Value>, jobData: Value, c: Collaborators, now: nat,
                               timestamp: string, before: AiState)
    requires JobAnalysis(entries, jobData, c, now, timestamp).response.Success?
    ensures var resume := OptionalGet(Lookup(entries, ResumeKey), "content");
            var after := AiAfterAnalysis(entries, jobData, c, before);
            && resume.Str? && after.vectorStore == Some(Passages(resume.s))
            && after.models == ModelsFor(Lookup(entries, OpenAiKeyName), Lookup(entries, AnthropicKeyName))
            && DefaultModel in after.models
  {
    var resume := OptionalGet(Lookup(entries, ResumeKey), "content");
    var index := IndexOutcome(entries, resume, c);
    assert AnalysisSteps(entries, jobData, c).Ok?;
    assert ReachesIndexing(entries, jobData);
    assert index.Ok? && Truthy(Lookup(entries, OpenAiKeyName));
  }

  /** A successful analysis is a validated result, returned as the answer and stored
      with the formatted job under the key for `now`. */
  lemma AnalysisStored(entries: map<string, Value>, jobData: Value, c: Collaborators, now: nat, timestamp: string)
    requires JobAnalysis(entries, jobData, c, now, timestamp).response.Success?
    ensures var r := JobAnalysis(entries, jobData, c, now, timestamp);
            && FormatJobData(jobData).Ok? && !JobIsEmpty(FormatJobData(jobData).value)
            && ValidAnalysis(r.response.data)
            && r.written == map[AnalysisKey(now) := AnalysisRecord(FormatJobData(jobData).value, r.response.data, timestamp)]
  {
  }

  /** `handleSkillSuggestions(skill)`. */
  function SkillSuggestions(models: map<string, ModelHandle>, skill: Value, c: Collaborators): (r: Envelope)
    ensures r.Success? <==> GetSuggestionForSkill(models, skill, DefaultModel, c).Ok?
    ensures r.Success? ==> r.data == GetSuggestionForSkill(models, skill, DefaultModel, c).value
    ensures r.Failure? ==> r.error == GetSuggestionForSkill(models, skill, DefaultModel, c).error
  {
    match GetSuggestionForSkill(models, skill, DefaultModel, c)
    case Ok(suggestions) => Success(suggestions)
    case Err(message) => Failure(message)
  }

  /** `handleJobAnalysis`: reads the resume, indexes it, analyses the job and adds
      one entry to the store on success and none otherwise. */
  method HandleJobAnalysis(store: Store, ai: AiServices, jobData: Value, c: Collaborators, now: nat, timestamp: string)
    returns (response: Envelope)
    modifies store, ai
    ensures var outcome := JobAnalysis(old(store.entries), jobData, c, now, timestamp);
            response == outcome.response && store.entries == old(store.entries) + outcome.written
    ensures var resume := OptionalGet(Lookup(old(store.entries), ResumeKey), "content");
            var job := FormatJobData(jobData);
            !Truthy(resume) || job.Err? || JobIsEmpty(job.value) ==>
              ai.vectorStore == old(ai.vectorStore) && ai.embeddings == old(ai.embeddings) && ai.models == old(ai.models)
    ensures AiState(ai.vectorStore, ai.embeddings, ai.models)
            == AiAfterAnalysis(old(store.entries), jobData, c, old(AiState(ai.vectorStore, ai.embeddings, ai.models)))
  {
    ghost var entries := store.entries;
    ghost var before := AiState(ai.vectorStore, ai.embeddings, ai.models);
    var resume := OptionalGet(Lookup(store.entries, ResumeKey), "content");
    if !Truthy(resume) {
      return Failure(NoResumeUploaded);
    }
    var formatted := FormatJobData(jobData);
    if formatted.Err? {
      return Failure(formatted.error);
    }
    var job := formatted.value;
    if JobIsEmpty(job) {
      return Failure(EmptyJob);
    }
    ghost var steps := AnalysisSteps(entries, jobData, c);
    ghost var index := IndexOutcome(entries, resume, c);
    var indexed := ai.InitializeVectorStore(store, resume, c);
    IndexingState(entries, jobData, c, before, AiState(ai.vectorStore, ai.embeddings, ai.models));
    if indexed.Err? {
      assert steps == Err(indexed.error);
      return Failure(indexed.error);
    }
    assert Truthy(Lookup(entries, OpenAiKeyName));
    assert ai.vectorStore == Some(index.value);
    assert ai.models == ModelsFor(Lookup(entries, OpenAiKeyName), Lookup(entries, AnthropicKeyName));
    var analysis := AnalyzeJobMatch(ai.vectorStore, ai.models, AnalysisInput(job), DefaultModel, c);
    if analysis.Err? {
      assert steps == Err(analysis.error);
      return Failure(analysis.error);
    }
    assert steps == Ok((job, analysis.value));
    store.Set(map[AnalysisKey(now) := AnalysisRecord(job, analysis.value, timestamp)]);
    return Success(analysis.value);
  }

  /** The worker's message listener; `keepOpen` is what it returns to keep the
      channel open for an asynchronous answer. */
  method OnMessage(store: Store, ai: AiServices, requestType: string, data: Value, c: Collaborators, now: nat,
                   timestamp: string) returns (response: Envelope, keepOpen: bool)
    modifies store, ai
    ensures requestType == "ANALYZE_JOB" ==>
              var outcome := JobAnalysis(old(store.entries), data, c, now, timestamp);
              && response == outcome.response && store.entries == old(store.entries) + outcome.written && keepOpen
              && AiState(ai.vectorStore, ai.embeddings, ai.models)
                 == AiAfterAnalysis(old(store.entries), data, c, old(AiState(ai.vectorStore, ai.embeddings, ai.models)))
    ensures requestType == "GET_SKILL_SUGGESTIONS" ==>
              && response == SkillSuggestions(old(ai.models), data, c) && keepOpen
              && store.entries == old(store.entries) && ai.models == old(ai.models)
              && ai.vectorStore == old(ai.vectorStore) && ai.embeddings == old(ai.embeddings)
    ensures requestType != "ANALYZE_JOB" && requestType != "GET_SKILL_SUGGESTIONS" ==>
              && response == Failure(UnknownMessageType) && !keepOpen && store.entries == old(store.entries)
              && ai.vectorStore == old(ai.vectorStore) && ai.embeddings == old(ai.embeddings) && ai.models == old(ai.models)
  {
    if requestType == "ANALYZE_JOB" {
      response := HandleJobAnalysis(store, ai, data, c, now, timestamp);
      return response, true;
    }
    if requestType == "GET_SKILL_SUGGESTIONS" {
      return SkillSuggestions(ai.models, data, c), true;
    }
    return Failure(UnknownMessageType), false;
  }
}
