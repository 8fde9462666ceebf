/**
 * Recognises a known job-application form on the current page: a registry
 * of providers, each with a domain and the selectors of its form fields,
 * searched in order for the first whose domain is in the hostname and whose
 * form element is on the page.
 */
module FormDetector {
  import opened Wrappers
  import opened Strings
  import opened Dom

  /** An ordered selector table: JavaScript object entries in insertion order. */
  type SelectorTable = seq<(string, Selector)>

  /** The value stored under `key`, if any. */
  function SelectorOf(table: SelectorTable, key: string): (r: Option<Selector>)
    ensures r.Some? <==> exists i :: 0 <= i < |table| && table[i].0 == key
    ensures r.Some? ==> exists i :: 0 <= i < |table| && table[i] == (key, r.value)
  {
    if table == [] then None
    else if table[0].0 == key then Some(table[0].1)
    else SelectorOf(table[1..], key)
  }

  datatype FormPattern = FormPattern(provider: string, domain: string, selectors: SelectorTable)

  /** `FORM_PATTERNS`. */
  const FormPatterns: seq<FormPattern> := [
    FormPattern("GREENHOUSE", "greenhouse.io", [
      ("form", "form#application_form"),
      ("firstName", "input#first_name"),
      ("lastName", "input#last_name"),
      ("email", "input#email"),
      ("phone", "input#phone"),
      ("resume", "input#resume_upload[type=\"file\"]"),
      ("coverLetter", "textarea#cover_letter")])]

  /** What detection reports: the registry key and that provider's selectors. */
  datatype FormInfo = FormInfo(provider: string, selectors: SelectorTable)

  /** The pattern's domain occurs in the hostname and its form element is on the page. */
  predicate Matches(p: FormPattern, hostname: string, present: set<Selector>) {
    && Contains(hostname, ToLower(p.domain))
    && var form := SelectorOf(p.selectors, "form");
       form.Some? && form.value in present
  }

  /** Pattern `i` is the first in `patterns` that matches. */
  predicate FirstMatch(patterns: seq<FormPattern>, hostname: string, present: set<Selector>, i: int) {
    && 0 <= i < |patterns|
    && Matches(patterns[i], hostname, present)
    && forall j :: 0 <= j < i ==> !Matches(patterns[j], hostname, present)
  }

  /** The `for…of` search of `detectJobForm` over a registry; `present` is the set
      of selectors that `document.querySelector` finds. */
  function DetectIn(patterns: seq<FormPattern>, hostname: string, present: set<Selector>): (r: Option<FormInfo>)
    ensures r.None? <==> forall i :: 0 <= i < |patterns| ==> !Matches(patterns[i], hostname, present)
  {
    if patterns == [] then None
    else if Matches(patterns[0], hostname, present) then
      Some(FormInfo(patterns[0].provider, patterns[0].selectors))
    else
      var r := DetectIn(patterns[1..], hostname, present);
      assert r.None? ==> forall i :: 0 <= i < |patterns| ==> !Matches(patterns[i], hostname, present) by {
        if r.None? {
          forall i | 0 <= i < |patterns| ensures !Matches(patterns[i], hostname, present) {
            if i > 0 { assert patterns[i] == patterns[1..][i - 1]; }
          }
        }
      }
      r
  }

  /** A reported form is that of the first provider that matches. */
  lemma {:induction false} DetectSome(patterns: seq<FormPattern>, hostname: string, present: set<Selector>)
    requires DetectIn(patterns, hostname, present).Some?
    ensures exists i :: FirstMatch(patterns, hostname, present, i)
                        && DetectIn(patterns, hostname, present).value == FormInfo(patterns[i].provider, patterns[i].selectors)
  {
    if Matches(patterns[0], hostname, present) {
      assert FirstMatch(patterns, hostname, present, 0);
    } else {
      DetectSome(patterns[1..], hostname, present);
      var i :| FirstMatch(patterns[1..], hostname, present, i)
               && DetectIn(patterns[1..], hostname, present).value == FormInfo(patterns[1..][i].provider, patterns[1..][i].selectors);
      assert patterns[1..][i] == patterns[i + 1];
      forall j | 0 < j < i + 1 ensures !Matches(patterns[j], hostname, present) {
        assert patterns[j] == patterns[1..][j - 1];
      }
      assert FirstMatch(patterns, hostname, present, i + 1);
    }
  }

  /** The first-matching provider is the one reported. */
  lemma {:induction false} DetectFirst(patterns: seq<FormPattern>, hostname: string, present: set<Selector>, i: int)
    requires FirstMatch(patterns, hostname, present, i)
    ensures DetectIn(patterns, hostname, present) == Some(FormInfo(patterns[i].provider, patterns[i].selectors))
  {
    if i > 0 {
      assert FirstMatch(patterns[1..], hostname, present, i - 1) by {
        forall j | 0 <= j < i - 1 ensures !Matches(patterns[1..][j], hostname, present) {
          assert patterns[1..][j] == patterns[j + 1];
        }
      }
      DetectFirst(patterns[1..], hostname, present, i - 1);
    }
  }

  /** A provider whose domain matches but whose form is missing is passed over. */
  lemma FormAbsentContinues(p: FormPattern, rest: seq<FormPattern>, hostname: string, present: set<Selector>)
    requires Contains(hostname, ToLower(p.domain))
    requires SelectorOf(p.selectors, "form").Some? && SelectorOf(p.selectors, "form").value !in present
    ensures DetectIn([p] + rest, hostname, present) == DetectIn(rest, hostname, present)
  {
    assert ([p] + rest)[1..] == rest;
  }

  /** `detectJobForm()` on a page with the given hostname. */
  function DetectJobForm(hostname: string, present: set<Selector>): Option<FormInfo> {
    DetectIn(FormPatterns, hostname, present)
  }

  /** On a Greenhouse host the registry's only provider is reported exactly when
      its form element is on the page, with its own selector table. */
  lemma DetectGreenhouse(hostname: string, present: set<Selector>)
    requires Contains(hostname, "greenhouse.io")
    ensures DetectJobForm(hostname, present).Some? <==> "form#application_form" in present
    ensures DetectJobForm(hostname, present).Some? ==>
              DetectJobForm(hostname, present).value == FormInfo("GREENHOUSE", FormPatterns[0].selectors)
  {
    var p := FormPatterns[0];
    assert ToLower(p.domain) == p.domain;
    assert SelectorOf(p.selectors, "form") == Some("form#application_form");
  }
}
