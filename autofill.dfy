/**
 * Fills a detected application form from the stored profile: every text
 * field is written and notified, a missing field is recorded as an error
 * without stopping the others, and the resume upload control, which a
 * script may not set, is highlighted with a hint placed after it.
 */
module Autofill {
  import opened Wrappers
  import opened Js
  import opened Dom
  import opened ChromeStorage
  import opened Storage
  import opened FormDetector

  const NoFormDetected := "No form detected"
  const NoUserData := "No user data found"
  const NoResume := "No resume found"
  const ResumeBorder := "2px solid #4CAF50"
  const HintColor := "#4CAF50"
  const ResumeLabel := "resume"

  /** What `fillForm` resolves to; `errors` is `undefined` when there are none. */
  datatype FillResult = FillResult(filled: bool, errors: Option<seq<string>>)

  /** Keys of the selector table that the text-field loop passes over. */
  predicate Skipped(key: string) {
    key == "form" || key == "resume" || key == "coverLetter"
  }

  function FieldError(fieldName: string): string {
    "Could not find " + fieldName + " field"
  }

  function UploadError(kind: string): string {
    "Could not find " + kind + " upload field"
  }

  function HintText(kind: string): string {
    "Please select your " + kind + " file"
  }

  /** The string an input's `value` setter stores: `null` becomes empty, any
      other value is converted with `String`. */
  function AssignedText(v: Value): string {
    if v.Null? then "" else ToString(v)
  }

  /** The result envelope for the collected errors. */
  function FillOutcome(errors: seq<string>): (r: FillResult)
    ensures r.filled <==> errors == []
    ensures r.errors.None? <==> errors == []
    ensures r.errors.Some? ==> r.errors.value == errors
  {
    FillResult(|errors| == 0, if |errors| > 0 then Some(errors) else None)
  }

  // ------------------------------------------------------ specification

  /** The page's controls and event log, with the errors collected so far. */
  datatype FillState = FillState(elems: map<ElemId, Elem>, events: seq<Event>, errors: seq<string>)

  /** One step of the `forEach` over the selector table. */
  function FillEntry(st: FillState, entry: (string, Selector), userData: Value, resolve: map<Selector, ElemId>): (r: FillState)
    requires resolve.Values <= st.elems.Keys
    ensures r.elems.Keys == st.elems.Keys
  {
    var (key, sel) := entry;
    if Skipped(key) then st
    else if sel !in resolve then st.(errors := st.errors + [FieldError(key)])
    else
      var id := resolve[sel];
      st.(elems := st.elems[id := st.elems[id].(value := AssignedText(Get(userData, key)))],
          events := st.events + [Event(Change, id, true), Event(Input, id, true)])
  }

  /** The `forEach` over the whole table, entry by entry in table order. */
  function FillFields(st: FillState, entries: SelectorTable, userData: Value, resolve: map<Selector, ElemId>): (r: FillState)
    requires resolve.Values <= st.elems.Keys
    ensures r.elems.Keys == st.elems.Keys
    decreases |entries|
  {
    if entries == [] then st
    else FillEntry(FillFields(st, entries[..|entries| - 1], userData, resolve), entries[|entries| - 1], userData, resolve)
  }

  /** The resume step: only when the stored resume has a truthy `filename` and the
      table has a truthy `resume` selector. */
  function HighlightResume(st: FillState, resume: Value, selectors: SelectorTable, resolve: map<Selector, ElemId>): (r: FillState)
    requires resolve.Values <= st.elems.Keys
    ensures r.elems.Keys == st.elems.Keys
  {
    var sel := SelectorOf(selectors, "resume");
    if Truthy(Get(resume, "filename")) && sel.Some? && sel.value != "" then
      if sel.value in resolve then
        var id := resolve[sel.value];
        st.(elems := st.elems[id := st.elems[id].(border := ResumeBorder,
                                                   following := [Hint(HintText(ResumeLabel), HintColor)] + st.elems[id].following)])
      else st.(errors := st.errors + [UploadError(ResumeLabel)])
    else st
  }

  /** Everything `fillForm` does once its three preconditions hold. */
  function FillSpec(elems: map<ElemId, Elem>, events: seq<Event>, info: FormInfo, userData: Value, resume: Value,
                    resolve: map<Selector, ElemId>): FillState
    requires resolve.Values <= elems.Keys
  {
    HighlightResume(FillFields(FillState(elems, events, []), info.selectors, userData, resolve), resume, info.selectors, resolve)
  }

  /** What `fillForm` leaves behind: the page's controls and event log, and its result. */
  datatype FillRun = FillRun(elems: map<ElemId, Elem>, events: seq<Event>, result: FillResult)

  /** `fillForm` on a page with the given controls and a store with the given
      entries: the three preconditions in order, then the fill. */
  function FillRunOf(hostname: string, resolve: map<Selector, ElemId>, elems: map<ElemId, Elem>, events: seq<Event>,
                     entries: map<string, Value>): FillRun
    requires resolve.Values <= elems.Keys
  {
    var info := DetectJobForm(hostname, resolve.Keys);
    var userData := GetUserData(entries);
    var resume := GetResume(entries);
    if info.None? then FillRun(elems, events, FillResult(false, Some([NoFormDetected])))
    else if userData.None? then FillRun(elems, events, FillResult(false, Some([NoUserData])))
    else if resume.None? then FillRun(elems, events, FillResult(false, Some([NoResume])))
    else
      var fin := FillSpec(elems, events, info.value, userData.value, resume.value, resolve);
      FillRun(fin.elems, fin.events, FillOutcome(fin.errors))
  }

  /** A form was detected and the store holds both a profile and a resume. */
  predicate ChecksPass(hostname: string, resolve: map<Selector, ElemId>, entries: map<string, Value>) {
    DetectJobForm(hostname, resolve.Keys).Some? && GetUserData(entries).Some? && GetResume(entries).Some?
  }

  /** The control the table's `resume` selector resolves to. */
  predicate ResumeTarget(selectors: SelectorTable, resolve: map<Selector, ElemId>, id: ElemId) {
    var sel := SelectorOf(selectors, "resume");
    sel.Some? && sel.value in resolve && resolve[sel.value] == id
  }

  // ---------------------------------------- independent characterisations

  /** The text fields the loop tries to fill. */
  predicate Attempted(entry: (string, Selector)) {
    !Skipped(entry.0)
  }

  /** One error per attempted field whose control is missing, in table order. */
  function MissingFieldErrors(entries: SelectorTable, resolve: map<Selector, ElemId>): seq<string> {
    if entries == [] then []
    else (if Attempted(entries[0]) && entries[0].1 !in resolve then [FieldError(entries[0].0)] else [])
         + MissingFieldErrors(entries[1..], resolve)
  }

  /** A `change` then an `input` event for each attempted field that is found, in table order. */
  function FieldEvents(entries: SelectorTable, resolve: map<Selector, ElemId>): seq<Event> {
    if entries == [] then []
    else (if Attempted(entries[0]) && entries[0].1 in resolve
          then [Event(Change, resolve[entries[0].1], true), Event(Input, resolve[entries[0].1], true)]
          else [])
         + FieldEvents(entries[1..], resolve)
  }

  /** The controls some attempted field resolves to. */
  predicate Targeted(entries: SelectorTable, resolve: map<Selector, ElemId>, id: ElemId) {
    exists k :: 0 <= k < |entries| && Attempted(entries[k]) && entries[k].1 in resolve && resolve[entries[k].1] == id
  }

  lemma {:induction false} MissingFieldErrorsAppend(a: SelectorTable, b: SelectorTable, resolve: map<Selector, ElemId>)
    ensures MissingFieldErrors(a + b, resolve) == MissingFieldErrors(a, resolve) + MissingFieldErrors(b, resolve)
  {
    if a == [] {
      assert a + b == b;
    } else {
      assert (a + b)[0] == a[0] && (a + b)[1..] == a[1..] + b;
      MissingFieldErrorsAppend(a[1..], b, resolve);
    }
  }

  lemma {:induction false} FieldEventsAppend(a: SelectorTable, b: SelectorTable, resolve: map<Selector, ElemId>)
    ensures FieldEvents(a + b, resolve) == FieldEvents(a, resolve) + FieldEvents(b, resolve)
  {
    if a == [] {
      assert a + b == b;
    } else {
      assert (a + b)[0] == a[0] && (a + b)[1..] == a[1..] + b;
      FieldEventsAppend(a[1..], b, resolve);
    }
  }

  /** The loop's errors are exactly the missing-field messages, in order. */
  lemma {:induction false} FillFieldsErrors(st: FillState, entries: SelectorTable, userData: Value, resolve: map<Selector, ElemId>)
    requires resolve.Values <= st.elems.Keys
    ensures FillFields(st, entries, userData, resolve).errors == st.errors + MissingFieldErrors(entries, resolve)
    decreases |entries|
  {
    if entries != [] {
      var init := entries[..|entries| - 1];
      var last := entries[|entries| - 1];
      var before := FillFields(st, init, userData, resolve);
      FillFieldsErrors(st, init, userData, resolve);
      FillEntryErrors(before, last, userData, resolve);
      MissingFieldErrorsAppend(init, [last], resolve);
      assert init + [last] == entries;
      ErrorsAssoc(st.errors, MissingFieldErrors(init, resolve), MissingFieldErrors([last], resolve));
    }
  }

  /** One step records the message `MissingFieldErrors` gives for its entry. */
  lemma FillEntryErrors(st: FillState, entry: (string, Selector), userData: Value, resolve: map<Selector, ElemId>)
    requires resolve.Values <= st.elems.Keys
    ensures FillEntry(st, entry, userData, resolve).errors == st.errors + MissingFieldErrors([entry], resolve)
  {
    assert [entry][0] == entry && [entry][1..] == [];
  }

  lemma ErrorsAssoc(a: seq<string>, b: seq<string>, c: seq<string>)
    ensures a + b + c == a + (b + c)
  {
  }

  /** The loop dispatches exactly `change` then `input` on each control it writes, in order. */
  lemma {:induction false} FillFieldsEvents(st: FillState, entries: SelectorTable, userData: Value, resolve: map<Selector, ElemId>)
    requires resolve.Values <= st.elems.Keys
    ensures FillFields(st, entries, userData, resolve).events == st.events + FieldEvents(entries, resolve)
    decreases |entries|
  {
    if entries != [] {
      var init := entries[..|entries| - 1];
      var last := entries[|entries| - 1];
      var before := FillFields(st, init, userData, resolve);
      FillFieldsEvents(st, init, userData, resolve);
      FillEntryEvents(before, last, userData, resolve);
      FieldEventsAppend(init, [last], resolve);
      assert init + [last] == entries;
      EventsAssoc(st.events, FieldEvents(init, resolve), FieldEvents([last], resolve));
    }
  }

  /** One step dispatches the events `FieldEvents` gives for its entry. */
  lemma FillEntryEvents(st: FillState, entry: (string, Selector), userData: Value, resolve: map<Selector, ElemId>)
    requires resolve.Values <= st.elems.Keys
    ensures FillEntry(st, entry, userData, resolve).events == st.events + FieldEvents([entry], resolve)
  {
    assert [entry][0] == entry && [entry][1..] == [];
  }

  lemma EventsAssoc(a: seq<Event>, b: seq<Event>, c: seq<Event>)
    ensures a + b + c == a + (b + c)
  {
  }

  /** A control no attempted field resolves to (the cover-letter textarea, say) is left as it was. */
  lemma {:induction false} FillFieldsUntouched(st: FillState, entries: SelectorTable, userData: Value,
                                               resolve: map<Selector, ElemId>, id: ElemId)
    requires resolve.Values <= st.elems.Keys
    requires id in st.elems && !Targeted(entries, resolve, id)
    ensures FillFields(st, entries, userData, resolve).elems[id] == st.elems[id]
    decreases |entries|
  {
    if entries != [] {
      var init := entries[..|entries| - 1];
      assert !Targeted(init, resolve, id) by {
        forall k | 0 <= k < |init| ensures !(Attempted(init[k]) && init[k].1 in resolve && resolve[init[k].1] == id) {
          assert init[k] == entries[k];
        }
      }
      FillFieldsUntouched(st, init, userData, resolve, id);
    }
  }

  /** Filling never changes a control's border or the nodes after it. */
  lemma {:induction false} FillFieldsOnlyValues(st: FillState, entries: SelectorTable, userData: Value,
                                                resolve: map<Selector, ElemId>, id: ElemId)
    requires resolve.Values <= st.elems.Keys && id in st.elems
    ensures FillFields(st, entries, userData, resolve).elems[id].border == st.elems[id].border
    ensures FillFields(st, entries, userData, resolve).elems[id].following == st.elems[id].following
    decreases |entries|
  {
    if entries != [] {
      FillFieldsOnlyValues(st, entries[..|entries| - 1], userData, resolve, id);
    }
  }

  /** The control of an attempted field ends up holding that field's profile value,
      unless a later field writes the same control. */
  lemma {:induction false} FillFieldsValue(st: FillState, entries: SelectorTable, userData: Value,
                                           resolve: map<Selector, ElemId>, j: int)
    requires resolve.Values <= st.elems.Keys
    requires 0 <= j < |entries| && Attempted(entries[j]) && entries[j].1 in resolve
    requires forall k :: j < k < |entries| && Attempted(entries[k]) && entries[k].1 in resolve ==>
                           resolve[entries[k].1] != resolve[entries[j].1]
    ensures FillFields(st, entries, userData, resolve).elems[resolve[entries[j].1]].value
            == AssignedText(Get(userData, entries[j].0))
    decreases |entries|
  {
    var init := entries[..|entries| - 1];
    if j < |entries| - 1 {
      assert init[j] == entries[j];
      forall k | j < k < |init| && Attempted(init[k]) && init[k].1 in resolve
        ensures resolve[init[k].1] != resolve[init[j].1]
      {
        assert init[k] == entries[k];
      }
      FillFieldsValue(st, init, userData, resolve, j);
    }
  }

  /** The resume step never changes any control's value. */
  lemma HighlightKeepsValues(st: FillState, resume: Value, selectors: SelectorTable, resolve: map<Selector, ElemId>, id: ElemId)
    requires resolve.Values <= st.elems.Keys && id in st.elems
    ensures HighlightResume(st, resume, selectors, resolve).elems[id].value == st.elems[id].value
  {
  }

  /** The errors of a whole fill: the missing text fields in table order, then the
      missing upload control if the resume step ran. */
  lemma FillSpecErrors(elems: map<ElemId, Elem>, events: seq<Event>, info: FormInfo, userData: Value, resume: Value,
                       resolve: map<Selector, ElemId>)
    requires resolve.Values <= elems.Keys
    ensures var sel := SelectorOf(info.selectors, "resume");
            var uploadMissing := Truthy(Get(resume, "filename")) && sel.Some? && sel.value != "" && sel.value !in resolve;
            FillSpec(elems, events, info, userData, resume, resolve).errors
            == MissingFieldErrors(info.selectors, resolve) + (if uploadMissing then [UploadError(ResumeLabel)] else [])
  {
    FillFieldsErrors(FillState(elems, events, []), info.selectors, userData, resolve);
  }

  /** The form is reported filled exactly when every attempted control exists and,
      if the resume step runs, the upload control exists too. */
  lemma FilledIff(elems: map<ElemId, Elem>, events: seq<Event>, info: FormInfo, userData: Value, resume: Value,
                  resolve: map<Selector, ElemId>)
    requires resolve.Values <= elems.Keys
    ensures var sel := SelectorOf(info.selectors, "resume");
            var uploadMissing := Truthy(Get(resume, "filename")) && sel.Some? && sel.value != "" && sel.value !in resolve;
            FillOutcome(FillSpec(elems, events, info, userData, resume, resolve).errors).filled
            <==> MissingFieldErrors(info.selectors, resolve) == [] && !uploadMissing
  {
    FillSpecErrors(elems, events, info, userData, resume, resolve);
  }

  /** The preconditions are checked in a fixed order, and a failed one leaves the
      page exactly as it was and is the only error. */
  lemma FillRunChecks(hostname: string, resolve: map<Selector, ElemId>, elems: map<ElemId, Elem>, events: seq<Event>,
                      entries: map<string, Value>)
    requires resolve.Values <= elems.Keys
    ensures var run := FillRunOf(hostname, resolve, elems, events, entries);
            && (DetectJobForm(hostname, resolve.Keys).None? ==> run.result == FillResult(false, Some([NoFormDetected])))
            && (DetectJobForm(hostname, resolve.Keys).Some? && GetUserData(entries).None? ==>
                  run.result == FillResult(false, Some([NoUserData])))
            && (DetectJobForm(hostname, resolve.Keys).Some? && GetUserData(entries).Some? && GetResume(entries).None? ==>
                  run.result == FillResult(false, Some([NoResume])))
            && (!ChecksPass(hostname, resolve, entries) ==> run.elems == elems && run.events == events)
  {
  }

  /** A run that passes the checks is reported filled exactly when every attempted
      control exists and the upload control, if needed, exists too. */
  lemma FillRunFilled(hostname: string, resolve: map<Selector, ElemId>, elems: map<ElemId, Elem>, events: seq<Event>,
                      entries: map<string, Value>)
    requires resolve.Values <= elems.Keys && ChecksPass(hostname, resolve, entries)
    ensures var selectors := DetectJobForm(hostname, resolve.Keys).value.selectors;
            var sel := SelectorOf(selectors, "resume");
            var uploadMissing := Truthy(Get(GetResume(entries).value, "filename")) && sel.Some? && sel.value != ""
                                 && sel.value !in resolve;
            var result := FillRunOf(hostname, resolve, elems, events, entries).result;
            && (result.filled <==> MissingFieldErrors(selectors, resolve) == [] && !uploadMissing)
            && (result.errors.None? <==> result.filled)
  {
    var info := DetectJobForm(hostname, resolve.Keys).value;
    FilledIff(elems, events, info, GetUserData(entries).value, GetResume(entries).value, resolve);
  }

  /** The events of a run: `change` then `input` on each filled control, in table order. */
  lemma FillRunEvents(hostname: string, resolve: map<Selector, ElemId>, elems: map<ElemId, Elem>, events: seq<Event>,
                      entries: map<string, Value>)
    requires resolve.Values <= elems.Keys && ChecksPass(hostname, resolve, entries)
    ensures FillRunOf(hostname, resolve, elems, events, entries).events
            == events + FieldEvents(DetectJobForm(hostname, resolve.Keys).value.selectors, resolve)
  {
    var info := DetectJobForm(hostname, resolve.Keys).value;
    FillFieldsEvents(FillState(elems, events, []), info.selectors, GetUserData(entries).value, resolve);
  }

  /** A control that no attempted field and no resume selector resolves to, such as the
      cover-letter textarea, is never modified. */
  lemma FillRunUntouched(hostname: string, resolve: map<Selector, ElemId>, elems: map<ElemId, Elem>, events: seq<Event>,
                         entries: map<string, Value>, id: ElemId)
    requires resolve.Values <= elems.Keys && id in elems
    requires DetectJobForm(hostname, resolve.Keys).Some? ==>
               var selectors := DetectJobForm(hostname, resolve.Keys).value.selectors;
               !Targeted(selectors, resolve, id) && !ResumeTarget(selectors, resolve, id)
    ensures FillRunOf(hostname, resolve, elems, events, entries).elems[id] == elems[id]
  {
    if ChecksPass(hostname, resolve, entries) {
      var info := DetectJobForm(hostname, resolve.Keys).value;
      FillFieldsUntouched(FillState(elems, events, []), info.selectors, GetUserData(entries).value, resolve, id);
    }
  }

  /** The control of an attempted, found field holds that field's profile value
      after the run, unless a later field resolves to the same control. */
  lemma FillRunValue(hostname: string, resolve: map<Selector, ElemId>, elems: map<ElemId, Elem>, events: seq<Event>,
                     entries: map<string, Value>, j: int)
    requires resolve.Values <= elems.Keys && ChecksPass(hostname, resolve, entries)
    requires var selectors := DetectJobForm(hostname, resolve.Keys).value.selectors;
             && 0 <= j < |selectors| && Attempted(selectors[j]) && selectors[j].1 in resolve
             && forall k :: j < k < |selectors| && Attempted(selectors[k]) && selectors[k].1 in resolve ==>
                              resolve[selectors[k].1] != resolve[selectors[j].1]
    ensures var selectors := DetectJobForm(hostname, resolve.Keys).value.selectors;
            FillRunOf(hostname, resolve, elems, events, entries).elems[resolve[selectors[j].1]].value
            == AssignedText(Get(GetUserData(entries).value, selectors[j].0))
  {
    var info := DetectJobForm(hostname, resolve.Keys).value;
    var st := FillState(elems, events, []);
    var userData := GetUserData(entries).value;
    FillFieldsValue(st, info.selectors, userData, resolve, j);
    HighlightKeepsValues(FillFields(st, info.selectors, userData, resolve), GetResume(entries).value, info.selectors,
                         resolve, resolve[info.selectors[j].1]);
  }

  /** When the resume step runs and finds its control, the control gets the border and
      the hint becomes the node directly after it, while its value is what the text
      fields left there. */
  lemma FillRunHighlight(hostname: string, resolve: map<Selector, ElemId>, elems: map<ElemId, Elem>, events: seq<Event>,
                         entries: map<string, Value>)
    requires resolve.Values <= elems.Keys && ChecksPass(hostname, resolve, entries)
    requires var selectors := DetectJobForm(hostname, resolve.Keys).value.selectors;
             var sel := SelectorOf(selectors, "resume");
             Truthy(Get(GetResume(entries).value, "filename")) && sel.Some? && sel.value != "" && sel.value in resolve
    ensures var info := DetectJobForm(hostname, resolve.Keys).value;
            var id := resolve[SelectorOf(info.selectors, "resume").value];
            var after := FillRunOf(hostname, resolve, elems, events, entries).elems[id];
            var filled := FillFields(FillState(elems, events, []), info.selectors, GetUserData(entries).value, resolve).elems[id];
            && after.border == ResumeBorder
            && after.following == [Hint(HintText(ResumeLabel), HintColor)] + elems[id].following
            && after.value == filled.value
  {
    var info := DetectJobForm(hostname, resolve.Keys).value;
    var id := resolve[SelectorOf(info.selectors, "resume").value];
    FillFieldsOnlyValues(FillState(elems, events, []), info.selectors, GetUserData(entries).value, resolve, id);
  }

  // ----------------------------------------------------------- the code

  /** `fillField`: writes the value and notifies the page, or reports the missing field. */
  method FillField(doc: Document, selector: Selector, value: Value, fieldName: string) returns (err: Option<string>)
    requires doc.Valid()
    modifies doc
    ensures doc.Valid()
    ensures selector !in doc.resolve ==>
              err == Some(FieldError(fieldName)) && doc.elems == old(doc.elems) && doc.events == old(doc.events)
    ensures selector in doc.resolve ==>
              var id := doc.resolve[selector];
              && err == None
              && doc.elems == old(doc.elems)[id := old(doc.elems)[id].(value := AssignedText(value))]
              && doc.events == old(doc.events) + [Event(Change, id, true), Event(Input, id, true)]
  {
    var element := doc.QuerySelector(selector);
    if element.None? {
      return Some(FieldError(fieldName));
    }
    doc.SetValue(element.value, AssignedText(value));
    doc.DispatchEvent(element.value, Change);
    doc.DispatchEvent(element.value, Input);
    return None;
  }

  /** `highlightFileInput`: borders the control and inserts the hint right after it;
      its value is not touched. */
  method HighlightFileInput(doc: Document, selector: Selector, kind: string) returns (err: Option<string>)
    requires doc.Valid()
    modifies doc
    ensures doc.Valid() && doc.events == old(doc.events)
    ensures selector !in doc.resolve ==> err == Some(UploadError(kind)) && doc.elems == old(doc.elems)
    ensures selector in doc.resolve ==>
              var id := doc.resolve[selector];
              && err == None
              && doc.elems == old(doc.elems)[id := old(doc.elems)[id].(border := ResumeBorder,
                                                                     following := [Hint(HintText(kind), HintColor)] + old(doc.elems)[id].following)]
  {
    var element := doc.QuerySelector(selector);
    if element.None? {
      return Some(UploadError(kind));
    }
    doc.SetBorder(element.value, ResumeBorder);
    doc.InsertAfter(element.value, Hint(HintText(kind), HintColor));
    return None;
  }

  /** The `forEach` callback for one `[key, selector]` entry of the table. */
  method FillEntryStep(doc: Document, entry: (string, Selector), userData: Value, errors: seq<string>)
    returns (errors': seq<string>)
    requires doc.Valid()
    modifies doc
    ensures doc.Valid() && doc.elems.Keys == old(doc.elems.Keys)
    ensures FillState(doc.elems, doc.events, errors')
            == FillEntry(FillState(old(doc.elems), old(doc.events), errors), entry, userData, doc.resolve)
  {
    var (key, selector) := entry;
    errors' := errors;
    if !Skipped(key) {
      var err := FillField(doc, selector, Get(userData, key), key);
      if err.Some? {
        errors' := errors + [err.value];
      }
    }
  }

  /** The resume step of `fillForm`. */
  method HighlightStep(doc: Document, resume: Value, selectors: SelectorTable, errors: seq<string>)
    returns (errors': seq<string>)
    requires doc.Valid()
    modifies doc
    ensures doc.Valid() && doc.elems.Keys == old(doc.elems.Keys)
    ensures FillState(doc.elems, doc.events, errors')
            == HighlightResume(FillState(old(doc.elems), old(doc.events), errors), resume, selectors, doc.resolve)
  {
    errors' := errors;
    var resumeSelector := SelectorOf(selectors, "resume");
    if Truthy(Get(resume, "filename")) && resumeSelector.Some? && resumeSelector.value != "" {
      var err := HighlightFileInput(doc, resumeSelector.value, ResumeLabel);
      if err.Some? {
        errors' := errors + [err.value];
      }
    }
  }

  /** `fillForm`: the three preconditions in order, each failure leaving the page
      untouched; then every text field, then the resume control. */
  method FillForm(doc: Document, store: Store) returns (r: FillResult)
    requires doc.Valid()
    modifies doc
    ensures doc.Valid()
    ensures FillRun(doc.elems, doc.events, r)
            == FillRunOf(doc.location.hostname, doc.resolve, old(doc.elems), old(doc.events), store.entries)
  {
    var formInfo := DetectJobForm(doc.location.hostname, doc.resolve.Keys);
    if formInfo.None? {
      return FillResult(false, Some([NoFormDetected]));
    }
    var userData := GetUserData(store.entries);
    if userData.None? {
      return FillResult(false, Some([NoUserData]));
    }
    var resume := GetResume(store.entries);
    if resume.None? {
      return FillResult(false, Some([NoResume]));
    }
    var selectors := formInfo.value.selectors;
    var errors: seq<string> := [];
    ghost var start := FillState(doc.elems, doc.events, []);
    for i := 0 to |selectors|
      invariant doc.Valid() && start.elems.Keys == doc.elems.Keys
      invariant FillState(doc.elems, doc.events, errors) == FillFields(start, selectors[..i], userData.value, doc.resolve)
    {
      assert selectors[..i + 1][..i] == selectors[..i];
      errors := FillEntryStep(doc, selectors[i], userData.value, errors);
    }
    assert selectors[..|selectors|] == selectors;
    errors := HighlightStep(doc, resume.value, selectors, errors);
    return FillOutcome(errors);
  }
}
