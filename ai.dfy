/**
 * The AI layer: which chat models are registered for the stored API keys,
 * how the resume is cut into indexed passages, and the deterministic checks,
 * normalisation and result validation around the language-model calls.  The
 * embedding service, the similarity search, the model replies and
 * `JSON.parse` are parameters.
 */
module Ai {
  import opened Wrappers
  import opened Strings
  import opened Js
  import opened ChromeStorage

  const OpenAiKeyName := "openaiKey"
  const AnthropicKeyName := "anthropicKey"
  const DefaultModel := "gpt4"
  const SearchCount := 5

  const MissingOpenAiKey := "OpenAI API key not found. Please set it in the extension options."
  const NoVectorStore := "Vector store not initialized. Please upload your resume first."
  const EmptyDescription := "Job description is empty or invalid."
  const NoRelevantSections := "No relevant resume sections found for this job description."
  const InvalidFormat := "Invalid analysis result format"
  const ParseFailurePrefix := "Failed to parse analysis results: "
  const SplitNotAFunction := "resume.split is not a function"

  function ModelUnavailable(modelName: string): string {
    "Model " + modelName + " not available. Please check your API keys in the extension options."
  }

  datatype Vendor = OpenAi | Anthropic

  /** A configured chat model. */
  datatype ModelHandle = ModelHandle(vendor: Vendor, modelName: string, temperature: int, apiKey: Value)

  /** The model registry built from the two stored keys. */
  function ModelsFor(openaiKey: Value, anthropicKey: Value): (m: map<string, ModelHandle>)
    ensures DefaultModel in m && m[DefaultModel] == ModelHandle(OpenAi, "gpt-4", 0, openaiKey)
    ensures "claude" in m <==> Truthy(anthropicKey)
    ensures "claude" in m ==> m["claude"] == ModelHandle(Anthropic, "claude-3-opus-20240229", 0, anthropicKey)
    ensures m.Keys <= {DefaultModel, "claude"}
  {
    var models := map[DefaultModel := ModelHandle(OpenAi, "gpt-4", 0, openaiKey)];
    if Truthy(anthropicKey) then models["claude" := ModelHandle(Anthropic, "claude-3-opus-20240229", 0, anthropicKey)]
    else models
  }

  /** The services the layer calls but does not implement. */
  datatype Collaborators = Collaborators(
    /** Why embedding the passages with the given key failed, if it did. */
    embedFailure: (Value, seq<string>) -> Option<string>,
    /** `similaritySearch(query, k)` over the indexed passages. */
    search: (seq<string>, string, nat) -> Result<seq<string>, string>,
    /** The analysis chain's reply for a cleaned description and the joined context. */
    analysisReply: (ModelHandle, string, string) -> Result<string, string>,
    /** The suggestion chain's reply for a skill. */
    suggestionReply: (ModelHandle, Value) -> Result<string, string>,
    /** `JSON.parse`, with the message of its `SyntaxError`. */
    parseJson: string -> Result<Value, string>)

  // --------------------------------------------------------- the passages

  /** The lines kept by `.filter(line => line.trim())`. */
  function NonBlankLines(lines: seq<string>): (r: seq<string>)
    ensures |r| <= |lines|
    ensures forall x :: x in r <==> x in lines && Trim(x) != ""
  {
    if lines == [] then []
    else (if Trim(lines[0]) != "" then [lines[0]] else []) + NonBlankLines(lines[1..])
  }

  /** `resume.split('\n').filter(line => line.trim())`. */
  function Passages(resume: string): seq<string> {
    NonBlankLines(Split(resume, '\n'))
  }

  /** A line is kept exactly when it has a non-whitespace character. */
  lemma KeptIffNotBlank(line: string)
    ensures Trim(line) != "" <==> !Blank(line)
  {
    TrimEmpty(line);
  }

  lemma {:induction false} NonBlankLinesSubsequence(lines: seq<string>)
    ensures Subsequence(NonBlankLines(lines), lines)
  {
    if lines != [] {
      NonBlankLinesSubsequence(lines[1..]);
      var r := NonBlankLines(lines);
      if Trim(lines[0]) != "" {
        assert r[0] == lines[0] && r[1..] == NonBlankLines(lines[1..]);
      } else {
        assert r == NonBlankLines(lines[1..]);
      }
    }
  }

  /** One step of the count: a non-blank line is kept as often as it heads the lines. */
  lemma NonBlankLinesHead(head: string, tail: seq<string>, x: string)
    requires Trim(x) != ""
    ensures multiset(NonBlankLines([head] + tail))[x] == multiset([head])[x] + multiset(NonBlankLines(tail))[x]
  {
    var kept := if Trim(head) != "" then [head] else [];
    assert ([head] + tail)[1..] == tail;
    assert NonBlankLines([head] + tail) == kept + NonBlankLines(tail);
    assert multiset(kept)[x] == multiset([head])[x];
  }

  lemma {:induction false} NonBlankLinesCount(lines: seq<string>, x: string)
    requires Trim(x) != ""
    ensures multiset(NonBlankLines(lines))[x] == multiset(lines)[x]
  {
    if lines != [] {
      var head, tail := lines[0], lines[1..];
      assert lines == [head] + tail;
      NonBlankLinesHead(head, tail, x);
      NonBlankLinesCount(tail, x);
      assert multiset(lines) == multiset([head]) + multiset(tail);
    }
  }

  /** The passages are the resume's lines, untrimmed and in order, less the blank
      ones; a repeated line is kept as often as it occurs. */
  lemma PassagesSpec(resume: string)
    ensures Subsequence(Passages(resume), Split(resume, '\n'))
    ensures forall x :: x in Passages(resume) ==> x in Split(resume, '\n') && !Blank(x)
    ensures forall x :: !Blank(x) ==> multiset(Passages(resume))[x] == multiset(Split(resume, '\n'))[x]
  {
    var lines := Split(resume, '\n');
    NonBlankLinesSubsequence(lines);
    forall x | x in Passages(resume) ensures !Blank(x) {
      KeptIffNotBlank(x);
    }
    forall x | !Blank(x) ensures multiset(Passages(resume))[x] == multiset(lines)[x] {
      KeptIffNotBlank(x);
      NonBlankLinesCount(lines, x);
    }
  }

  /** Joining non-blank, newline-free lines and splitting the result gives the lines back. */
  lemma PassagesOfJoin(lines: seq<string>)
    requires |lines| >= 1
    requires forall k :: 0 <= k < |lines| ==> '\n' !in lines[k] && !Blank(lines[k])
    ensures Passages(Join(lines, "\n")) == lines
  {
    SplitJoin(lines, '\n');
    AllKept(lines);
  }

  lemma {:induction false} AllKept(lines: seq<string>)
    requires forall k :: 0 <= k < |lines| ==> !Blank(lines[k])
    ensures NonBlankLines(lines) == lines
  {
    if lines != [] {
      var head, tail := lines[0], lines[1..];
      KeptIffNotBlank(head);
      forall k | 0 <= k < |tail| ensures !Blank(tail[k]) {
        assert tail[k] == lines[k + 1];
      }
      AllKept(tail);
      assert NonBlankLines(lines) == [head] + NonBlankLines(tail);
      assert lines == [head] + tail;
    }
  }

  /** `resume.split('\n').filter(...)` on whatever the caller passed as the resume. */
  function ResumePassages(resume: Value): (r: Result<seq<string>, string>)
    ensures r.Ok? <==> resume.Str?
  {
    match resume
    case Str(s) => Ok(Passages(s))
    case Undefined => Err(PropertyReadError(resume, "split"))
    case Null => Err(PropertyReadError(resume, "split"))
    case _ => Err(SplitNotAFunction)
  }

  // ---------------------------------------------------------- cleaning

  /** `s.trim().replace(/\s+/g, ' ')`. */
  function Clean(s: string): string {
    Collapse(Trim(s))
  }

  /** The cleaned text has no whitespace at either end, never two whitespace
      characters in a row, every whitespace character a plain space, and the same
      non-whitespace characters in the same order. */
  lemma CleanSpec(s: string)
    ensures var c := Clean(s);
            && (c == [] || (!IsSpace(c[0]) && !IsSpace(c[|c| - 1])))
            && NoAdjacentSpaces(c) && SpacesAreBlanks(c)
            && NonSpace(c) == NonSpace(s)
  {
    CollapseEnds(Trim(s));
    CollapseCanonical(Trim(s));
    CollapseNonSpace(Trim(s));
  }

  /** The cleaned text is empty exactly when the text is all whitespace. */
  lemma CleanEmpty(s: string)
    ensures Clean(s) == [] <==> Blank(s)
  {
    TrimEmpty(s);
  }

  lemma CleanIdempotent(s: string)
    ensures Clean(Clean(s)) == Clean(s)
  {
    var c := Clean(s);
    CleanSpec(s);
    TrimOfTrimmed(c);
    CollapseOfCollapsed(c);
  }

  /** Between two words, whatever whitespace separates them becomes exactly one
      space: cleaning a text is cleaning its parts and joining them with `' '`. */
  lemma CleanSeparates(a: string, w: string, b: string)
    requires a != [] && !IsSpace(a[|a| - 1])
    requires w != [] && Blank(w)
    requires b != [] && !IsSpace(b[0])
    ensures Clean(a + w + b) == Clean(a) + " " + Clean(b)
  {
    var a', b' := TrimStart(a), TrimEnd(b);
    NotBlankLast(a);
    NotBlankFirst(b);
    assert a' != [] && a'[|a'| - 1] == a[|a| - 1];
    assert b' != [] && b'[0] == b[0];
    calc {
      Trim(a + w + b);
      { AppendAssoc(a, w, b); }
      TrimEnd(TrimStart(a + (w + b)));
      { TrimStartAppend(a, w + b); }
      TrimEnd(a' + (w + b));
      { AppendAssoc(a', w, b); }
      TrimEnd(a' + w + b);
      { TrimEndAppend(a' + w, b); }
      a' + w + b';
    }
    assert Trim(a) == a' by {
      assert TrimEnd(a') == a';
    }
    assert Trim(b) == b' by {
      assert TrimStart(b) == b;
    }
    CollapseSeparates(a', w, b');
  }

  // -------------------------------------------------------- validation

  /** The fields the analysis check accepts: a truthy `matchScore` and arrays of
      matching and missing skills; `recommendations` is not looked at. */
  predicate ValidAnalysis(v: Value) {
    Truthy(Get(v, "matchScore")) && Get(v, "matchingSkills").Arr? && Get(v, "missingSkills").Arr?
  }

  /** The check on the parsed reply; reading a field of `null` throws. */
  function ValidateAnalysis(parsed: Value): (r: Result<Value, string>)
    ensures r.Ok? <==> ValidAnalysis(parsed)
    ensures r.Ok? ==> r.value == parsed
  {
    if parsed.Null? || parsed.Undefined? then Err(PropertyReadError(parsed, "matchScore"))
    else if !ValidAnalysis(parsed) then Err(InvalidFormat)
    else Ok(parsed)
  }

  /** Parse and check the reply, prefixing either failure's message. */
  function ParseAnalysis(raw: string, parseJson: string -> Result<Value, string>): (r: Result<Value, string>)
    ensures r.Ok? <==> parseJson(raw).Ok? && ValidAnalysis(parseJson(raw).value)
    ensures r.Ok? ==> r.value == parseJson(raw).value
    ensures r.Err? ==> ParseFailurePrefix <= r.error
  {
    match parseJson(raw)
    case Err(message) => Err(ParseFailurePrefix + message)
    case Ok(parsed) =>
      match ValidateAnalysis(parsed)
      case Err(message) => Err(ParseFailurePrefix + message)
      case Ok(v) => Ok(v)
  }

  /** A zero score is rejected like a missing one. */
  lemma ZeroScoreRejected(fields: map<string, Value>)
    requires "matchScore" in fields && fields["matchScore"] == Num(0)
    ensures ValidateAnalysis(Obj(fields)) == Err(InvalidFormat)
  {
  }

  /** Whether the result is accepted does not depend on `recommendations`. */
  lemma RecommendationsUnchecked(fields: map<string, Value>, recommendations: Value)
    ensures ValidateAnalysis(Obj(fields)).Ok? == ValidateAnalysis(Obj(fields["recommendations" := recommendations])).Ok?
  {
    var other := fields["recommendations" := recommendations];
    assert Get(Obj(other), "matchScore") == Get(Obj(fields), "matchScore");
    assert Get(Obj(other), "matchingSkills") == Get(Obj(fields), "matchingSkills");
    assert Get(Obj(other), "missingSkills") == Get(Obj(fields), "missingSkills");
  }

  // ---------------------------------------------------------- analysis

  /** `analyzeJobMatch(jobDescription, modelName)` against the indexed passages and
      the registered models. */
  function AnalyzeJobMatch(vectorStore: Option<seq<string>>, models: map<string, ModelHandle>,
                           jobDescription: string, modelName: string, c: Collaborators): (r: Result<Value, string>)
    ensures r.Ok? ==> ValidAnalysis(r.value)
  {
    if vectorStore.None? then Err(NoVectorStore)
    else if modelName !in models then Err(ModelUnavailable(modelName))
    else
      var cleaned := Clean(jobDescription);
      if cleaned == "" then Err(EmptyDescription)
      else
        match c.search(vectorStore.value, cleaned, SearchCount)
        case Err(message) => Err(message)
        case Ok(results) =>
          if results == [] then Err(NoRelevantSections)
          else
            match c.analysisReply(models[modelName], cleaned, Join(results, "\n"))
            case Err(message) => Err(message)
            case Ok(raw) => ParseAnalysis(raw, c.parseJson)
  }

  /** The three checks run in order, and before any collaborator is called: their
      outcome is the same whatever the collaborators do. */
  lemma AnalyzeChecks(vectorStore: Option<seq<string>>, models: map<string, ModelHandle>,
                      jobDescription: string, modelName: string, c: Collaborators, d: Collaborators)
    ensures vectorStore.None? ==> AnalyzeJobMatch(vectorStore, models, jobDescription, modelName, c) == Err(NoVectorStore)
    ensures vectorStore.Some? && modelName !in models ==>
              AnalyzeJobMatch(vectorStore, models, jobDescription, modelName, c) == Err(ModelUnavailable(modelName))
    ensures vectorStore.Some? && modelName in models && Blank(jobDescription) ==>
              AnalyzeJobMatch(vectorStore, models, jobDescription, modelName, c) == Err(EmptyDescription)
    ensures vectorStore.None? || modelName !in models || Blank(jobDescription) ==>
              AnalyzeJobMatch(vectorStore, models, jobDescription, modelName, c)
              == AnalyzeJobMatch(vectorStore, models, jobDescription, modelName, d)
  {
    CleanEmpty(jobDescription);
  }

  /** An accepted analysis is the parsed reply itself, for the cleaned description and
      the top passages joined by newlines, from a search that found some. */
  lemma AnalyzeAccepted(vectorStore: Option<seq<string>>, models: map<string, ModelHandle>,
                        jobDescription: string, modelName: string, c: Collaborators)
    requires AnalyzeJobMatch(vectorStore, models, jobDescription, modelName, c).Ok?
    ensures vectorStore.Some? && modelName in models && !Blank(jobDescription)
    ensures var cleaned := Clean(jobDescription);
            var found := c.search(vectorStore.value, cleaned, SearchCount);
            && found.Ok? && found.value != []
            && var reply := c.analysisReply(models[modelName], cleaned, Join(found.value, "\n"));
               && reply.Ok?
               && c.parseJson(reply.value) == Ok(AnalyzeJobMatch(vectorStore, models, jobDescription, modelName, c).value)
  {
    CleanEmpty(jobDescription);
  }

  /** Past the three checks, the search and the reply decide the outcome: a search
      or reply error comes out unchanged, an empty search result gives the
      no-sections message, and a reply is parsed and validated. */
  lemma AnalyzeAfterChecks(vectorStore: Option<seq<string>>, models: map<string, ModelHandle>,
                           jobDescription: string, modelName: string, c: Collaborators)
    requires vectorStore.Some? && modelName in models && !Blank(jobDescription)
    ensures var cleaned := Clean(jobDescription);
            var r := AnalyzeJobMatch(vectorStore, models, jobDescription, modelName, c);
            var found := c.search(vectorStore.value, cleaned, SearchCount);
            && (found.Err? ==> r == Err(found.error))
            && (found == Ok([]) ==> r == Err(NoRelevantSections))
            && (found.Ok? && found.value != [] ==>
                  var reply := c.analysisReply(models[modelName], cleaned, Join(found.value, "\n"));
                  && (reply.Err? ==> r == Err(reply.error))
                  && (reply.Ok? ==> r == ParseAnalysis(reply.value, c.parseJson)))
  {
    CleanEmpty(jobDescription);
  }

  /** Once the reply arrives, every failure carries the parse-failure prefix. */
  lemma AnalyzeReplyFailure(vectorStore: Option<seq<string>>, models: map<string, ModelHandle>,
                            jobDescription: string, modelName: string, c: Collaborators)
    requires vectorStore.Some? && modelName in models && !Blank(jobDescription)
    requires var cleaned := Clean(jobDescription);
             var found := c.search(vectorStore.value, cleaned, SearchCount);
             found.Ok? && found.value != [] && c.analysisReply(models[modelName], cleaned, Join(found.value, "\n")).Ok?
    ensures var r := AnalyzeJobMatch(vectorStore, models, jobDescription, modelName, c);
            r.Err? ==> ParseFailurePrefix <= r.error
  {
    CleanEmpty(jobDescription);
  }

  /** `getSuggestionForSkill(skill, modelName)`: the model check, then the parsed reply
      as it is. */
  function GetSuggestionForSkill(models: map<string, ModelHandle>, skill: Value, modelName: string, c: Collaborators)
    : (r: Result<Value, string>)
    ensures modelName !in models ==> r == Err(ModelUnavailable(modelName))
    ensures modelName in models && c.suggestionReply(models[modelName], skill).Ok? ==>
              r == c.parseJson(c.suggestionReply(models[modelName], skill).value)
    ensures modelName in models && c.suggestionReply(models[modelName], skill).Err? ==>
              r == Err(c.suggestionReply(models[modelName], skill).error)
  {
    if modelName !in models then Err(ModelUnavailable(modelName))
    else
      match c.suggestionReply(models[modelName], skill)
      case Err(message) => Err(message)
      case Ok(raw) => c.parseJson(raw)
  }

  /** What `initializeVectorStore(resume)` indexes, or the message it throws: the
      missing key first, then a resume that cannot be split, then a failed embedding. */
  function IndexOutcome(entries: map<string, Value>, resume: Value, c: Collaborators): (r: Result<seq<string>, string>)
    ensures !Truthy(Lookup(entries, OpenAiKeyName)) ==> r == Err(MissingOpenAiKey)
    ensures r.Ok? ==> resume.Str? && r.value == Passages(resume.s)
    ensures Truthy(Lookup(entries, OpenAiKeyName)) && !resume.Str? ==> r == Err(ResumePassages(resume).error)
    ensures Truthy(Lookup(entries, OpenAiKeyName)) && resume.Str? ==>
              var failure := c.embedFailure(Lookup(entries, OpenAiKeyName), Passages(resume.s));
              && (failure.None? ==> r == Ok(Passages(resume.s)))
              && (failure.Some? ==> r == Err(failure.value))
  {
    var openaiKey := Lookup(entries, OpenAiKeyName);
    if !Truthy(openaiKey) then Err(MissingOpenAiKey)
    else
      match ResumePassages(resume)
      case Err(message) => Err(message)
      case Ok(texts) =>
        match c.embedFailure(openaiKey, texts)
        case Some(message) => Err(message)
        case None => Ok(texts)
  }

  // ------------------------------------------------------- module state

  /** The module-level `vectorStore`, `embeddings` and `models`. */
  class AiServices {
    /** The passages indexed in the in-memory vector store, once built. */
    var vectorStore: Option<seq<string>>
    /** The key the embeddings client was created with, once created. */
    var embeddings: Option<Value>
    var models: map<string, ModelHandle>

    constructor ()
      ensures vectorStore == None && embeddings == None && models == map[]
    {
      vectorStore := None;
      embeddings := None;
      models := map[];
    }

    /** `initializeAIServices()`, reading the keys from the store. */
    method InitializeAIServices(store: Store) returns (r: Result<bool, string>)
      modifies this
      ensures vectorStore == old(vectorStore)
      ensures !Truthy(Lookup(store.entries, OpenAiKeyName)) ==>
                r == Err(MissingOpenAiKey) && embeddings == old(embeddings) && models == old(models)
      ensures Truthy(Lookup(store.entries, OpenAiKeyName)) ==>
                && r == Ok(true)
                && embeddings == Some(Lookup(store.entries, OpenAiKeyName))
                && models == ModelsFor(Lookup(store.entries, OpenAiKeyName), Lookup(store.entries, AnthropicKeyName))
    {
      var openaiKey := Lookup(store.entries, OpenAiKeyName);
      var anthropicKey := Lookup(store.entries, AnthropicKeyName);
      if !Truthy(openaiKey) {
        return Err(MissingOpenAiKey);
      }
      embeddings := Some(openaiKey);
      models := map[DefaultModel := ModelHandle(OpenAi, "gpt-4", 0, openaiKey)];
      if Truthy(anthropicKey) {
        models := models["claude" := ModelHandle(Anthropic, "claude-3-opus-20240229", 0, anthropicKey)];
      }
      return Ok(true);
    }

    /** `initializeVectorStore(resume)`: the services first, then the passages, then
        the index; a failure at any step leaves the index as it was. */
    method InitializeVectorStore(store: Store, resume: Value, c: Collaborators) returns (r: Result<bool, string>)
      modifies this
      ensures var openaiKey := Lookup(store.entries, OpenAiKeyName);
              var outcome := IndexOutcome(store.entries, resume, c);
              && (outcome.Ok? ==> r == Ok(true) && vectorStore == Some(outcome.value))
              && (outcome.Err? ==> r == Err(outcome.error) && vectorStore == old(vectorStore))
              && (!Truthy(openaiKey) ==> embeddings == old(embeddings) && models == old(models))
              && (Truthy(openaiKey) ==>
                    embeddings == Some(openaiKey) && models == ModelsFor(openaiKey, Lookup(store.entries, AnthropicKeyName)))
    {
      ghost var outcome := IndexOutcome(store.entries, resume, c);
      var init := InitializeAIServices(store);
      if init.Err? {
        return init;
      }
      var texts := ResumePassages(resume);
      if texts.Err? {
        assert outcome == Err(texts.error);
        return Err(texts.error);
      }
      var failure := c.embedFailure(embeddings.value, texts.value);
      if failure.Some? {
        assert outcome == Err(failure.value);
        return Err(failure.value);
      }
      assert outcome == Ok(texts.value);
      vectorStore := Some(texts.value);
      return Ok(true);
    }
  }
}
