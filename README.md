# Job Match AI extension — a verified model of its core

The extension reads a job posting from a supported job board and fills known
application forms from a stored profile. It also compares the posting with the
user's resume through a language model. This project models the deterministic
core of that extension in Dafny and proves what it promises:

- **Strings**: the string built-ins the code relies on: `trim`, the `\s`
  class and its `replace(/\s+/g, ' ')`, `includes`, `endsWith`, ASCII
  `toLowerCase`, `split` on one character, `join`, and decimal `String(n)`.
- **Js**: a JSON-like `Value` with `undefined`, JavaScript truthiness,
  property reads (`v.key`, `v?.key`, and the `TypeError` of reading through
  `null`), and `String(v)`.
- **Dom**: a `Document` class. It holds a fixed location, the text the
  selectors yield, and which control each selector resolves to. Its mutable
  parts are the form controls (value, border, nodes inserted after them) and
  the log of dispatched events.
- **ChromeStorage**: `chrome.storage.local` as a `Store` class over a
  `map<string, Value>`.
- **Storage**: the profile defaults, the shallow merge, `saveUserData`,
  `getUserData`, `getResume`.
- **FormDetector**: the provider registry `FORM_PATTERNS` and the first-match
  search `detectJobForm`.
- **Autofill**: `fillForm`, `fillField` and `highlightFileInput` as methods
  that change a `Document` in place. Each is proved against a specification
  function, and lemmas state the promised properties of that function.
- **Content**: platform classification, the Greenhouse company name from the
  URL pattern `/\/\/(.*?)\.greenhouse\.io/`, the requirement filter, the
  extracted record, and the content script's message listener.
- **Ai**: the model registry, the resume passages, cleaning, the ordered
  checks of `analyzeJobMatch`, result validation, `getSuggestionForSkill`, and
  the module state (`vectorStore`, `embeddings`, `models`) as the `AiServices`
  class.
- **Worker**: job formatting, the emptiness rule, the analysis input string,
  `handleJobAnalysis` with its one store write, `handleSkillSuggestions`, and
  the message switch.
- **DocumentParser**: the MIME/extension dispatch of `parseDocument`, the page
  loop of `parsePDF`, `parseDocx` and `parseText`.

The language-model calls, embeddings, similarity search and `JSON.parse` are
function-valued parameters (`Ai.Collaborators`). pdf.js, mammoth and
`File.text()` are given as what they return (`DocumentParser.Readers`). The
clock is a parameter: `Date.now()` as `now: nat`, ISO time as
`now`/`timestamp: string`.

Two behaviours of the code are modelled as written:

- The prompt at src/services/ai.js:62 asks for a `matchScore` from 0 to 100,
  but the check at src/services/ai.js:141 rejects a falsy score, so a score of
  0 is rejected (`Ai.ZeroScoreRejected`).
- The listener at src/content/content.js:103-126 accepts a record when the
  title or the description is truthy after trimming
  (`Content.ExtractAccepted`).

## Model

| member | source | states |
|---|---|---|
| Strings.Trim | src/content/content.js:65 | the result is a contiguous slice of the input with no whitespace at either end, keeping every non-whitespace character in order |
| Strings.TrimEmpty | src/services/ai.js:95 | `line.trim()` is empty exactly when the line is all whitespace |
| Strings.TrimIdempotent | src/content/content.js:65 | trimming twice is trimming once |
| Strings.Collapse | src/services/ai.js:115 | `replace(/\s+/g, ' ')` gives the empty string only on the empty string |
| Strings.CollapseSeparates | src/services/ai.js:115 | a non-empty whitespace run between a word end and a word start becomes exactly one space, and each side collapses on its own |
| Strings.CollapseCanonical | src/services/ai.js:115 | after collapsing, every whitespace character is a plain space and no two are adjacent |
| Strings.CollapseNonSpace | src/services/ai.js:115 | collapsing keeps the non-whitespace characters in order |
| Strings.CollapseOfCollapsed | src/services/ai.js:115 | a string already in collapsed form is unchanged |
| Strings.ContainsIff | src/content/content.js:38-41 | `includes` holds exactly when the substring occurs at some index |
| Strings.ToLower | src/services/documentParser.js:9 | lowercasing keeps the length and maps each character on its own |
| Strings.Split | src/content/content.js:52 | `split` always yields at least one piece |
| Strings.JoinSplit | src/content/content.js:52-54 | joining the pieces of a split with the separator gives back the string |
| Strings.SplitJoin | src/services/ai.js:95 | splitting a join of separator-free pieces gives back the pieces |
| Strings.NatToString | src/background/worker.js:59 | the decimal form of a number is never empty |
| Strings.ParseNatToString | src/background/worker.js:59 | reading the decimal form back gives the number |
| Strings.NatToStringInjective | src/background/worker.js:59 | distinct numbers print differently |
| Js.Get | src/services/autofill.js:25 | a property read yields the own field of an object when it is present, and `undefined` in every other case |
| Js.OptionalGet | src/background/worker.js:24 | `v?.key` is `undefined` on `null` and `undefined`, and the plain property read otherwise |
| Js.Read | src/background/worker.js:36 | `v.key` throws exactly when `v` is `null` or `undefined`, with the `TypeError` text naming the key; otherwise it yields the property read |
| Js.JoinStrings | src/background/worker.js:54 | `requirements.join('\n')` over strings joins the strings themselves |
| Dom.Document.QuerySelector | src/services/autofill.js:48 | a control is found exactly for the selectors that resolve, and it is the resolved one |
| Dom.Document.SetValue | src/services/autofill.js:52 | only the target control's `value` changes; no event is logged |
| Dom.Document.DispatchEvent | src/services/autofill.js:54-55 | exactly one bubbling event is appended to the log; no control changes |
| Dom.Document.SetBorder | src/services/autofill.js:63 | only the target control's border changes |
| Dom.Document.InsertAfter | src/services/autofill.js:64-67 | the hint becomes the node directly after the target; nothing else changes |
| ChromeStorage.Lookup | src/services/storage.js:54-55 | `get` reports the stored value, or `undefined` for an absent key |
| ChromeStorage.Store.Set | src/background/worker.js:58-64 | the given keys are overwritten and every other key is kept |
| Storage.DefaultSelfIdentification | src/services/storage.js:28-33 | all four self-identification answers default to `prefer_not_to_answer` |
| Storage.DefaultDemographics | src/services/storage.js:21-34 | the five text answers (`gender`, `race`, `hispanicLatino`, `veteranStatus`, `disabilityStatus`) default to `''`, and `selfIdentification` is the declined-answers object |
| Storage.DefaultUserData | src/services/storage.js:4-41 | the keys are exactly the eleven text fields, `demographics` and `preferences`; every text field defaults to `''`, `autofillDemographics` is false, `confirmBeforeSubmit` is true, and there is no `lastUpdated` |
| Storage.MergeUserData | src/services/storage.js:44-49 | the record's keys are those of the defaults, the caller's fields and `lastUpdated`; the caller wins over the defaults, `lastUpdated` wins over both, omitted fields keep their defaults, and nested objects are replaced whole |
| Storage.GetUserData | src/services/storage.js:53-56 | the stored profile when present and truthy, `null` otherwise |
| Storage.GetResume | src/services/storage.js:58-61 | the stored `resume` when present and truthy, `null` otherwise |
| Storage.SaveUserData | src/services/storage.js:43-51 | writes the merged record under `jobApplicationUserData` alone, and `getUserData` then returns exactly that record |
| Storage.SaveThenLoad | src/services/storage.js:43-56 | reading right after a save gives the merged record, with no default field missing |
| FormDetector.SelectorOf | src/services/formDetector.js:21 | a key's selector is found exactly when the table has an entry for the key |
| FormDetector.DetectIn | src/services/formDetector.js:19-28 | the search gives `null` exactly when no provider's domain and form both match |
| FormDetector.DetectSome | src/services/formDetector.js:19-25 | a reported form is the first matching provider, with its key and exact selector table |
| FormDetector.DetectFirst | src/services/formDetector.js:19-25 | the first matching provider is the one reported |
| FormDetector.FormAbsentContinues | src/services/formDetector.js:20-24 | a provider whose domain matches but whose form is absent is skipped |
| FormDetector.DetectGreenhouse | src/services/formDetector.js:1-29 | on a Greenhouse host the form is reported exactly when `form#application_form` is on the page, with the `GREENHOUSE` selector table |
| Autofill.FillOutcome | src/services/autofill.js:41-44 | `filled` holds exactly when there are no errors; `errors` is undefined when empty and otherwise lists them all |
| Autofill.FillEntry | src/services/autofill.js:22-30 | one entry of the `forEach` keeps the set of controls |
| Autofill.FillFields | src/services/autofill.js:22-30 | the whole `forEach` keeps the set of controls |
| Autofill.HighlightResume | src/services/autofill.js:33-39 | the resume step keeps the set of controls |
| Autofill.FillFieldsErrors | src/services/autofill.js:24-29 | the loop's errors are one "Could not find <key> field" per attempted missing field, in table order, without stopping at the first |
| Autofill.FillFieldsEvents | src/services/autofill.js:54-55 | the loop logs `change` then `input` on each found control, in table order |
| Autofill.FillFieldsUntouched | src/services/autofill.js:23 | a control no attempted key resolves to is not modified by the loop |
| Autofill.FillFieldsOnlyValues | src/services/autofill.js:52 | the loop changes only values, never borders or inserted nodes |
| Autofill.FillFieldsValue | src/services/autofill.js:25-26 | an attempted, found field's control holds `userData[key]` unless a later field writes the same control |
| Autofill.HighlightKeepsValues | src/services/autofill.js:63-67 | the resume step never changes a control's value |
| Autofill.FillSpecErrors | src/services/autofill.js:22-39 | a fill's errors are the missing text fields in table order, then the missing upload field if the resume step ran |
| Autofill.FilledIff | src/services/autofill.js:41-44 | the form is filled exactly when no attempted field and no needed upload control is missing |
| Autofill.FillRunChecks | src/services/autofill.js:9-16 | no form, then no user data, then no resume, each giving its single error and leaving the page untouched |
| Autofill.FillRunFilled | src/services/autofill.js:41-44 | a run past the checks is filled exactly when nothing is missing, and `errors` is undefined exactly then |
| Autofill.FillRunEvents | src/services/autofill.js:22-30 | a run logs exactly `change` then `input` per filled control, in table order |
| Autofill.FillRunUntouched | src/services/autofill.js:23 | a control no attempted key and no resume selector resolves to, such as the cover letter, is never modified |
| Autofill.FillRunValue | src/services/autofill.js:25-26 | after a run, an attempted, found field's control holds that field's profile value |
| Autofill.FillRunHighlight | src/services/autofill.js:33-39 | when the resume step runs and finds its control, the control gets the border and the hint directly after it, with its value unchanged |
| Autofill.FillField | src/services/autofill.js:47-56 | a missing control gives "Could not find <name> field" and no change; otherwise the value is set, then `change` and `input` are dispatched |
| Autofill.HighlightFileInput | src/services/autofill.js:58-68 | a missing control gives "Could not find <label> upload field"; otherwise the border is set and the hint inserted after it, with no event and no value change |
| Autofill.FillEntryStep | src/services/autofill.js:22-30 | one `forEach` callback does what the specification function's entry step says |
| Autofill.HighlightStep | src/services/autofill.js:33-39 | the resume step does what the specification function's resume step says |
| Autofill.FillForm | src/services/autofill.js:4-45 | the result and the new page are exactly those of the specification run, to which the lemmas above apply |
| Content.ClassifyPlatform | src/content/content.js:38-42 | the board is the first, in test order, whose domain occurs in the URL; none when no domain occurs |
| Content.LazyEnd | src/content/content.js:50 | the lazy group closes at the nearest `.greenhouse.io` with no line terminator before it |
| Content.SearchFrom | src/content/content.js:50 | the pattern matches at the leftmost possible `//` |
| Content.GreenhouseSlug | src/content/content.js:50-51 | a truthy `match[1]` is non-empty and `//<slug>.greenhouse.io` occurs in the URL |
| Content.GreenhouseSlugAt | src/content/content.js:50-51 | the slug is the text between the first `//` and the nearest `.greenhouse.io` |
| Content.GreenhouseSlugOf | src/content/content.js:50-51 | a URL `<scheme>//<slug>.greenhouse.io<rest>` yields exactly the slug |
| Content.Capitalize | src/content/content.js:53 | capitalising a word keeps its length |
| Content.TitleCasePointwise | src/content/content.js:52-54 | the character-by-character reading maps each character on its own |
| Content.TitleCaseSplit | src/content/content.js:52-54 | split, capitalise and join agree with the character-by-character reading |
| Content.CompanyNameChars | src/content/content.js:52-54 | the company name turns each hyphen into a space and uppercases the first character of each word; nothing else changes |
| Content.CompanyNameExample | src/content/content.js:52-54 | `acme-labs` gives "Acme Labs" |
| Content.FilterRequirements | src/content/content.js:66-71 | a text is kept exactly when it is non-empty and its lowercase form contains neither `apply now` nor `click here` |
| Content.FilterCount | src/content/content.js:66-71 | every occurrence of an accepted text is kept and no occurrence of a rejected one |
| Content.FilterSubsequence | src/content/content.js:66-71 | the kept texts are a subsequence of the input, in order |
| Content.FilterIdempotent | src/content/content.js:66-71 | filtering the filter's output again changes nothing |
| Content.FilterExample | src/content/content.js:66-71 | of "5 years experience", "Apply now", "" and "Click here to apply", only the first is kept |
| Content.TrimAll | src/content/content.js:65 | each node text is trimmed, in place and at the same index |
| Content.Requirements | src/content/content.js:63-71 | every requirement passes the filter and is already trimmed |
| Content.RequirementsSpec | src/content/content.js:63-71 | the requirements are a subsequence of the trimmed texts, come from some node, and hold each passing trimmed text as often as it occurs and no other |
| Content.RequirementsCount | src/content/content.js:63-71 | each trimmed text that passes the filter occurs in the requirements exactly as often as among the trimmed texts, and a rejected one not at all |
| Content.RequirementsOrdered | src/content/content.js:63-71 | the requirements keep the trimmed texts' order, hold every passing trimmed text, and each comes from some node |
| Content.RequirementsIdempotent | src/content/content.js:64-71 | extracting requirements from the requirement list changes nothing |
| Content.TrimmedText | src/content/content.js:74 | `querySelector(sel)?.textContent?.trim()` is the trimmed text, or undefined when nothing matches |
| Content.ExtractJobData | src/content/content.js:34-84 | null exactly on an unsupported URL; otherwise the URL, the board id, the trimmed title and description, the requirements and the time |
| Content.GreenhouseCompanyFromUrl | src/content/content.js:48-55 | on Greenhouse with a slug, the company is the title-cased slug, whatever the page holds |
| Content.AcmeCompany | src/content/content.js:48-55 | on `https://acme-labs.greenhouse.io/jobs/1` the company is "Acme Labs" |
| Content.CompanyFromPage | src/content/content.js:56-59 | otherwise the company is the trimmed company-selector text, or undefined |
| Content.JobRecord | src/content/content.js:73-81 | the sent record holds `requirements`, `url` and `platform`; title, company and description are their texts when defined and are dropped when undefined |
| Content.JobRecordFields | src/content/content.js:73-81 | the record's `url`, `platform` and `timestamp` are the page URL, the platform id and the time, and `requirements` holds the requirement texts element by element |
| Content.RespondExtract | src/content/content.js:101-126 | a null record gives the unsupported-page failure; falsy title and description give the not-a-posting failure; otherwise success with the record |
| Content.ExtractAccepted | src/content/content.js:103-126 | a page yields a record exactly when it is supported and its title or description has a non-whitespace character |
| Content.TruthyTrimmed | src/content/content.js:74-76 | a selector's trimmed text is truthy exactly when the page holds text with a non-whitespace character under it |
| Content.RespondAutofill | src/content/content.js:86-97 | `success` is `result.filled`, with the result's errors; a thrown error gives failure with its message |
| Content.AutofillSuccessIff | src/content/content.js:88-92 | a completed fill reports success exactly when it reports no errors |
| Content.CheckFormCompatibility | src/content/content.js:137-146 | `hasForm` holds exactly when some registry provider matches |
| Content.OnMessage | src/content/content.js:100-154 | extraction and the form check answer at once and change nothing; autofill answers the fill's result; autofill and any other type keep the channel open, and other types get no answer |
| Ai.ModelsFor | src/services/ai.js:28-42 | `gpt4` is always registered; `claude` is registered exactly when the Anthropic key is truthy |
| Ai.NonBlankLines | src/services/ai.js:95 | a line is kept exactly when it does not trim to empty |
| Ai.KeptIffNotBlank | src/services/ai.js:95 | `line.trim()` is truthy exactly when the line has a non-whitespace character |
| Ai.NonBlankLinesSubsequence | src/services/ai.js:95 | the kept lines are a subsequence of the lines |
| Ai.NonBlankLinesCount | src/services/ai.js:95 | a non-blank line is kept as often as it occurs |
| Ai.PassagesSpec | src/services/ai.js:95 | the passages are the untrimmed, non-blank lines in order, duplicates included |
| Ai.PassagesOfJoin | src/services/ai.js:95 | newline-free, non-blank lines joined by newlines give back the lines |
| Ai.AllKept | src/services/ai.js:95 | no non-blank line is dropped |
| Ai.ResumePassages | src/services/ai.js:95 | the split succeeds exactly when the resume is a string |
| Ai.CleanSpec | src/services/ai.js:115 | the cleaned text has no whitespace at the ends, no two adjacent whitespace characters, only plain spaces, and the same non-whitespace characters in order |
| Ai.CleanEmpty | src/services/ai.js:115-119 | the cleaned text is empty exactly when the description is all whitespace |
| Ai.CleanIdempotent | src/services/ai.js:115 | cleaning twice is cleaning once |
| Ai.CleanSeparates | src/services/ai.js:115 | whatever whitespace separates two words becomes exactly one space: the cleaned text is the cleaned parts joined by `' '` |
| Ai.ValidateAnalysis | src/services/ai.js:140-144 | accepted exactly when `matchScore` is truthy and both skill lists are arrays; the accepted object is returned unchanged |
| Ai.ParseAnalysis | src/services/ai.js:138-147 | accepted exactly when the reply parses and validates; every failure starts with "Failed to parse analysis results: " |
| Ai.ZeroScoreRejected | src/services/ai.js:141 | a `matchScore` of 0 is rejected |
| Ai.RecommendationsUnchecked | src/services/ai.js:141 | acceptance does not depend on `recommendations` |
| Ai.AnalyzeJobMatch | src/services/ai.js:104-152 | an accepted analysis passes validation |
| Ai.AnalyzeChecks | src/services/ai.js:106-119 | no index, then an unavailable model, then an empty cleaned description fail in order, before and independently of any collaborator |
| Ai.AnalyzeAccepted | src/services/ai.js:122-144 | an accepted analysis is the parsed reply for the cleaned text and the non-empty search results joined by `\n` |
| Ai.AnalyzeAfterChecks | src/services/ai.js:120-147 | past the three checks, a search or reply error comes out unchanged, an empty search result fails with "No relevant resume sections found…", and a reply is parsed and validated |
| Ai.AnalyzeReplyFailure | src/services/ai.js:138-147 | once the reply arrives, every failure carries the parse-failure prefix |
| Ai.GetSuggestionForSkill | src/services/ai.js:154-193 | an unavailable model fails; a reply error comes out unchanged; otherwise the parsed reply is returned without field checks |
| Ai.IndexOutcome | src/services/ai.js:90-102 | without an OpenAI key indexing fails with its message; with one, a non-string resume fails with its split error, an embedding failure comes out unchanged, and otherwise the index holds exactly the resume's passages |
| Ai.AiServices.InitializeAIServices | src/services/ai.js:16-49 | without an OpenAI key it fails and changes nothing; with one it sets the embeddings and the model registry |
| Ai.AiServices.InitializeVectorStore | src/services/ai.js:90-102 | the index becomes the passages on success and stays as it was on any failure |
| Worker.OrEmpty | src/background/worker.js:36-37 | the `''` default keeps a truthy value and otherwise gives `''` |
| Worker.FormatJobData | src/background/worker.js:35-39 | formatting throws exactly when the job data is `null` or `undefined` |
| Worker.FormatJobDataSpec | src/background/worker.js:35-39 | a truthy title or description is kept as it is and a falsy one (`null`, `0`, `false`, `''`, `undefined`) becomes `''`; requirements are kept only when they are an array |
| Worker.EmptyIff | src/background/worker.js:42 | the emptiness predicate holds exactly when the title and the description are falsy and the requirements are not a non-empty array |
| Worker.ExtractedJobNotEmpty | src/background/worker.js:42 | a record the content script accepted is never rejected as empty |
| Worker.AnalysisInputLines | src/background/worker.js:53-55 | splitting the input on newlines gives the title, the description and the requirements, in order |
| Worker.BlankRequirementsReachAnalyzer | src/background/worker.js:42-55 | blank requirements alone pass the emptiness rule but make the analyzer report an empty description |
| Worker.AnalysisKey | src/background/worker.js:59 | the key starts with `analysis_` |
| Worker.AnalysisKeyInjective | src/background/worker.js:59 | analyses made at different times get different keys |
| Worker.AnalysisKeyFresh | src/background/worker.js:59 | the key is never the profile, resume, timestamp or API-key entry |
| Worker.AnalysisSteps | src/background/worker.js:23-55 | steps that succeed had a resume, formatted a non-empty job and produced a validated analysis |
| Worker.JobAnalysis | src/background/worker.js:20-71 | exactly one entry, under the key for `now`, is written on success, and none otherwise |
| Worker.NoResumeFirst | src/background/worker.js:23-32 | a missing resume fails first and writes nothing |
| Worker.JobAnalysisRejects | src/background/worker.js:35-49 | with a resume, unreadable job data fails with the TypeError text for `title` and an empty job with the empty-job message, and nothing is written |
| Worker.JobAnalysisPipeline | src/background/worker.js:51-70 | a non-empty job is indexed and analysed; an indexing or analysis error becomes the answer's `error` with nothing written, and an analysis is answered and stored under the key for `now` |
| Worker.AiAfterAnalysis | src/background/worker.js:23-51 | the AI state is unchanged unless indexing is reached with a truthy OpenAI key; then the embeddings and models are set from the keys and the index is replaced only when indexing succeeds |
| Worker.IndexingState | src/services/ai.js:90-97 | the state `initializeVectorStore` leaves once indexing is reached is the one `AiAfterAnalysis` gives |
| Worker.AnalysisLeavesServices | src/background/worker.js:51-66 | after a successful analysis the index holds the resume's passages and the models, `gpt4` among them, are those a later skill suggestion uses |
| Worker.AnalysisStored | src/background/worker.js:58-66 | on success the validated analysis is the answer and is stored with the formatted job and the time |
| Worker.SkillSuggestions | src/background/worker.js:73-80 | a suggestion is wrapped as success and an error as failure with its message |
| Worker.HandleJobAnalysis | src/background/worker.js:20-71 | the answer and the store writes are those of `JobAnalysis`, and the AI state is the one `AiAfterAnalysis` gives; before indexing it is unchanged |
| Worker.OnMessage | src/background/worker.js:5-18 | `ANALYZE_JOB` and `GET_SKILL_SUGGESTIONS` go to their handlers and keep the channel open, the first leaving the AI state `AiAfterAnalysis` gives; other types fail with "Unknown message type"; only `ANALYZE_JOB` writes or changes the AI state |
| DocumentParser.Classify | src/services/documentParser.js:8-27 | PDF, then DOCX, then DOC, then text, each by MIME substring or lowercased extension; otherwise unsupported |
| DocumentParser.ClassifyIgnoresNameCase | src/services/documentParser.js:9 | names that differ only in letter case are classified alike |
| DocumentParser.UpperCaseExtension | src/services/documentParser.js:9-12 | a `.PDF` name is a PDF |
| DocumentParser.MimeTypeCaseMatters | src/services/documentParser.js:8-12 | the MIME type is not lowercased: `application/PDF` with no extension is unsupported |
| DocumentParser.PageLinesAppend | src/services/documentParser.js:38-42 | adding a page appends its line |
| DocumentParser.PagesTextSpec | src/services/documentParser.js:38-42 | the loop fails exactly when some page fails, and otherwise yields every page's items joined by spaces plus a newline, in page order |
| DocumentParser.PdfTrimmed | src/services/documentParser.js:44-47 | PDF text is trimmed, and every failure is "Failed to parse PDF file" |
| DocumentParser.FailedPrefix | src/services/documentParser.js:38-42 | a failed page fails the whole document |
| DocumentParser.ParsePdf | src/services/documentParser.js:31-49 | the page loop yields exactly the trimmed text of the pages, or the PDF failure |
| DocumentParser.DocxText | src/services/documentParser.js:51-60 | the text is produced exactly when mammoth delivers one, and it is that text trimmed; every failure is the DOCX message |
| DocumentParser.DocxReparse | src/services/documentParser.js:51-60 | reading the produced DOCX text again gives it back unchanged |
| DocumentParser.PlainTextOf | src/services/documentParser.js:62-69 | the text is produced exactly when the file is read, and as read; every failure is the text message |
| DocumentParser.DocxTrimsPlainText | src/services/documentParser.js:51-69 | on the same text both readers succeed alike, and the DOCX result is the trim of the plain-text result |
| DocumentParser.LegacyNeverParsed | src/services/documentParser.js:19-23 | a `.doc` file fails with the legacy message whatever the readers deliver |
| DocumentParser.OnlySelectedReader | src/services/documentParser.js:7-29 | the result depends only on the reader the file's kind selects |
| DocumentParser.ParseDocument | src/services/documentParser.js:7-29 | the upload's result is that of the selected parser, or the legacy or unsupported message |
| DocumentParser.DocumentFailures | src/services/documentParser.js:7-69 | an upload fails exactly when its selected reader fails, with that reader's message, and a legacy or unsupported file always fails with its own message |

## Left out

- The React popup and options pages, the other components, and the build
  scripts: these render and configure, and they decide nothing the core does.
- The LangChain model calls, the embeddings client, `MemoryVectorStore`, the
  prompt templates and `JSON.parse`: these are parameters (`Ai.Collaborators`),
  so prompt text and model output are not modelled.
- pdf.js, mammoth and `File.text()`: each is given as the result it returns.
  Each page is `None` when its `getPage` or `getTextContent` fails.
- Chrome messaging and script injection: the listeners are methods from a
  request type to an answer and a keep-open flag. `sendResponse` is their
  return value.
- Async sequencing and concurrent writes: the model is sequential, so the
  last-write-wins races on `chrome.storage.local` are not captured.
- `Date.now()` and `new Date().toISOString()`: these are parameters.
- Strings.ToLower: maps only the ASCII letters, while `toLowerCase` maps
  all of Unicode. Content.Capitalize likewise uppercases only ASCII letters.
- Js.Value: numbers are integers, so floating point and NaN are not modelled.
  Values are stored in `chrome.storage` as they are, with no serialization
  round trip.
- Js.Get: reads only own fields. Inherited properties, such as a key
  named like an `Object.prototype` member, are not modelled.
- Dom.Document: CSS selector matching is a fixed map from selector to text
  and from selector to control. It yields the first match only, the DOM tree
  is not modelled, and event propagation is only logged.
- Content.ExtractJobData: `extractJobData` has no throwing path in the
  model, so the "Error extracting job data" catch at content.js:127-133 is
  not modelled.
- Content.OnMessage: the catch of `CHECK_FORM_COMPATIBILITY` at
  content.js:141-144 is left out, because `detectJobForm` cannot throw here.
- Content.OnMessage: `fillForm` cannot throw in the model. The thrown-error
  reply exists only in `Content.RespondAutofill`.
- Content.Requirements: the comma-separated Greenhouse requirement selector
  is one selector key whose node texts are given in document order.
- Autofill.HighlightFileInput: a control whose `parentNode` is `null`, on
  which `insertBefore` would throw, is not modelled, since every control is
  attached.
- Storage.SaveUserData and Worker.HandleJobAnalysis: a failing
  `chrome.storage.local.set` (quota, say) is not modelled.
- DocumentParser.Classify: the MIME type is a string, so `file.type || ''`
  is taken to be a string already.
- Console logging is left out.
