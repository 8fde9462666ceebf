/**
 * The content script: reads a job posting from the page of a supported job
 * board, answers the popup's messages, and runs the autofill on request.
 */
module Content {
  import opened Wrappers
  import opened Strings
  import opened Js
  import opened Dom
  import opened ChromeStorage
  import opened FormDetector
  import opened Autofill

  // -------------------------------------------------------------- platforms

  /** The supported job boards, in the order the URL is tested against them. */
  datatype Platform = LinkedIn | Indeed | Glassdoor | Greenhouse

  function Rank(p: Platform): nat {
    match p
    case LinkedIn => 0
    case Indeed => 1
    case Glassdoor => 2
    case Greenhouse => 3
  }

  /** The text whose presence in the URL selects the board. */
  function Domain(p: Platform): string {
    match p
    case LinkedIn => "linkedin.com"
    case Indeed => "indeed.com"
    case Glassdoor => "glassdoor.com"
    case Greenhouse => "greenhouse.io"
  }

  /** The board's key in the selector table, which is also the record's `platform`. */
  function Id(p: Platform): string {
    match p
    case LinkedIn => "linkedin"
    case Indeed => "indeed"
    case Glassdoor => "glassdoor"
    case Greenhouse => "greenhouse"
  }

  /** The selectors the script reads on one board. */
  datatype BoardSelectors = BoardSelectors(title: Selector, company: Selector, description: Selector, requirements: Selector)

  function SelectorsOf(p: Platform): BoardSelectors {
    match p
    case LinkedIn =>
      BoardSelectors(".job-details-jobs-unified-top-card__job-title", ".job-details-jobs-unified-top-card__company-name",
                     ".jobs-description__content", ".jobs-box__list li")
    case Indeed =>
      BoardSelectors(".jobsearch-JobInfoHeader-title", ".jobsearch-InlineCompanyRating div",
                     "#jobDescriptionText", ".jobsearch-JobDescriptionSection-sectionItem")
    case Glassdoor =>
      BoardSelectors(".job-title", ".employer-name", ".jobDescriptionContent", ".jobDescriptionContent li")
    case Greenhouse =>
      BoardSelectors(".app-title", ".company-name", "#content",
                     "#content ul li, #content .requirements-content li, #content .list-disc li")
  }

  /** The board a URL belongs to: the first, in test order, whose domain occurs
      anywhere in the URL; none if no domain occurs. */
  function ClassifyPlatform(url: string): (r: Option<Platform>)
    ensures r.None? <==> forall p: Platform :: !Contains(url, Domain(p))
    ensures r.Some? ==> Contains(url, Domain(r.value))
    ensures r.Some? ==> forall p: Platform :: Rank(p) < Rank(r.value) ==> !Contains(url, Domain(p))
  {
    if Contains(url, Domain(LinkedIn)) then Some(LinkedIn)
    else if Contains(url, Domain(Indeed)) then Some(Indeed)
    else if Contains(url, Domain(Glassdoor)) then Some(Glassdoor)
    else if Contains(url, Domain(Greenhouse)) then Some(Greenhouse)
    else None
  }

  // ------------------------------------------- the Greenhouse URL pattern

  /** What follows the lazy group of `/\/\/(.*?)\.greenhouse\.io/`. */
  const GreenhouseHost := ".greenhouse.io"

  /** The lazy group opened at `start` can close at `j`: the text in between has
      no line terminator (which `.` does not match) and `.greenhouse.io` follows. */
  predicate CaptureEndsAt(url: string, start: nat, j: nat) {
    start <= j && OccursAt(url, GreenhouseHost, j) && forall k :: start <= k < j ==> !IsLineTerminator(url[k])
  }

  /** Where the lazy group closes, trying the shortest extensions first, from `j` on. */
  function LazyEnd(url: string, start: nat, j: nat): (r: Option<nat>)
    requires start <= j <= |url|
    requires forall k :: start <= k < j ==> !IsLineTerminator(url[k])
    ensures r.Some? ==> j <= r.value && CaptureEndsAt(url, start, r.value)
    ensures forall k: nat :: j <= k && CaptureEndsAt(url, start, k) ==> r.Some? && r.value <= k
    decreases |url| - j
  {
    if OccursAt(url, GreenhouseHost, j) then Some(j)
    else if j < |url| && !IsLineTerminator(url[j]) then LazyEnd(url, start, j + 1)
    else None
  }

  /** The pattern matches with its `//` at index `p`. */
  predicate MatchesAt(url: string, p: nat) {
    OccursAt(url, "//", p) && LazyEnd(url, p + 2, p + 2).Some?
  }

  /** The leftmost index from `i` on where the pattern matches. */
  function SearchFrom(url: string, i: nat): (r: Option<nat>)
    ensures r.Some? ==> i <= r.value && MatchesAt(url, r.value)
    ensures forall p: nat :: i <= p && MatchesAt(url, p) ==> r.Some? && r.value <= p
    decreases |url| - i
  {
    if i + 2 > |url| then None
    else if MatchesAt(url, i) then Some(i)
    else SearchFrom(url, i + 1)
  }

  /** The whole matched text starts at the `//`. */
  lemma MatchOccurs(url: string, p: nat, e: nat)
    requires p + 2 <= e && OccursAt(url, "//", p) && OccursAt(url, GreenhouseHost, e)
    ensures OccursAt(url, "//" + url[p + 2..e] + GreenhouseHost, p)
  {
    var whole := "//" + url[p + 2..e] + GreenhouseHost;
    assert url[p..p + |whole|] == url[p..p + 2] + url[p + 2..e] + url[e..e + |GreenhouseHost|];
  }

  /** `match[1]` of `url.match(/\/\/(.*?)\.greenhouse\.io/)` when it is truthy. */
  function GreenhouseSlug(url: string): (r: Option<string>)
    ensures r.Some? ==> r.value != [] && Contains(url, "//" + r.value + GreenhouseHost)
    ensures r.Some? ==> forall k :: 0 <= k < |r.value| ==> !IsLineTerminator(r.value[k])
  {
    var m := SearchFrom(url, 0);
    if m.None? then None
    else
      var p := m.value;
      var e := LazyEnd(url, p + 2, p + 2).value;
      var slug := url[p + 2..e];
      if slug == [] then None
      else
        MatchOccurs(url, p, e);
        ContainsIff(url, "//" + slug + GreenhouseHost);
        Some(slug)
  }

  /** The lazy group opened after the `//` at `p` closes at `e` when the text in between
      has no `.` and no line terminator and `.greenhouse.io` follows it. */
  lemma LazyEndAt(url: string, p: nat, e: nat)
    requires p + 2 <= e && e + |GreenhouseHost| <= |url| && url[e..e + |GreenhouseHost|] == GreenhouseHost
    requires forall k :: p + 2 <= k < e ==> url[k] != '.' && !IsLineTerminator(url[k])
    ensures LazyEnd(url, p + 2, p + 2) == Some(e)
  {
    assert CaptureEndsAt(url, p + 2, e);
    forall k: nat | p + 2 <= k < e ensures !OccursAt(url, GreenhouseHost, k) {
      assert url[k..k + |GreenhouseHost|][0] == url[k];
    }
  }

  /** With no `/` before it, a match at `p` is the leftmost one. */
  lemma SearchFindsFirst(url: string, p: nat)
    requires MatchesAt(url, p)
    requires forall q :: 0 <= q < p ==> url[q] != '/'
    ensures SearchFrom(url, 0) == Some(p)
  {
    forall q: nat | q < p ensures !OccursAt(url, "//", q) {
      assert url[q..q + 2][0] == url[q];
    }
  }

  /** The slug is found when the first `//` of the URL is followed by text with no
      `.` and no line terminator, and then by `.greenhouse.io`. */
  lemma GreenhouseSlugAt(url: string, p: nat, e: nat)
    requires p + 2 < e && e + |GreenhouseHost| <= |url|
    requires url[p..p + 2] == "//" && url[e..e + |GreenhouseHost|] == GreenhouseHost
    requires forall q :: 0 <= q < p ==> url[q] != '/'
    requires forall k :: p + 2 <= k < e ==> url[k] != '.' && !IsLineTerminator(url[k])
    ensures GreenhouseSlug(url) == Some(url[p + 2..e])
  {
    LazyEndAt(url, p, e);
    assert MatchesAt(url, p);
    SearchFindsFirst(url, p);
  }

  /** On a URL of the shape `<scheme>//<slug>.greenhouse.io<rest>` whose scheme has no
      `/` and whose slug has no `.` or line terminator, the slug is found. */
  lemma GreenhouseSlugOf(scheme: string, slug: string, rest: string)
    requires '/' !in scheme && slug != []
    requires forall k :: 0 <= k < |slug| ==> slug[k] != '.' && !IsLineTerminator(slug[k])
    ensures GreenhouseSlug(scheme + "//" + slug + GreenhouseHost + rest) == Some(slug)
  {
    var url := scheme + "//" + slug + GreenhouseHost + rest;
    var p := |scheme|;
    var e := p + 2 + |slug|;
    assert url[p..p + 2] == "//";
    assert url[p + 2..e] == slug;
    assert url[e..e + |GreenhouseHost|] == GreenhouseHost;
    forall q | 0 <= q < p ensures url[q] != '/' {
      assert url[q] == scheme[q];
    }
    forall k | p + 2 <= k < e ensures url[k] != '.' && !IsLineTerminator(url[k]) {
      assert url[k] == slug[k - p - 2];
    }
    GreenhouseSlugAt(url, p, e);
  }

  // ---------------------------------------------------- company from slug

  /** `word.charAt(0).toUpperCase() + word.slice(1)`. */
  function Capitalize(word: string): (r: string)
    ensures |r| == |word|
  {
    if word == [] then [] else [UpperChar(word[0])] + word[1..]
  }

  /** The company shown for a Greenhouse slug: its `-`-separated words, each
      capitalised, joined by single spaces. */
  function CompanyName(slug: string): string {
    var words := Split(slug, '-');
    Join(seq(|words|, i requires 0 <= i < |words| => Capitalize(words[i])), " ")
  }

  /** A reference reading of the same conversion, one character at a time: a
      hyphen becomes a space, and a character that starts a word is uppercased. */
  function TitleCase(s: string, atStart: bool): string {
    if s == [] then []
    else if s[0] == '-' then " " + TitleCase(s[1..], true)
    else [if atStart then UpperChar(s[0]) else s[0]] + TitleCase(s[1..], false)
  }

  /** The character `TitleCase` puts at index `k`. */
  function TitleCaseChar(s: string, atStart: bool, k: nat): char
    requires k < |s|
  {
    if s[k] == '-' then ' '
    else if (if k == 0 then atStart else s[k - 1] == '-') then UpperChar(s[k])
    else s[k]
  }

  lemma {:induction false} TitleCasePointwise(s: string, atStart: bool)
    ensures |TitleCase(s, atStart)| == |s|
    ensures forall k: nat :: k < |s| ==> TitleCase(s, atStart)[k] == TitleCaseChar(s, atStart, k)
  {
    if s != [] {
      TitleCasePointwise(s[1..], s[0] == '-');
      forall k: nat | 1 <= k < |s| ensures TitleCase(s, atStart)[k] == TitleCaseChar(s, atStart, k) {
        assert TitleCase(s, atStart)[k] == TitleCase(s[1..], s[0] == '-')[k - 1];
        assert TitleCaseChar(s[1..], s[0] == '-', k - 1) == TitleCaseChar(s, atStart, k);
      }
    }
  }

  /** Every word capitalised, except the first when `first` is false. */
  function CapitalizeWords(ws: seq<string>, first: bool): seq<string> {
    seq(|ws|, i requires 0 <= i < |ws| => if i == 0 && !first then ws[i] else Capitalize(ws[i]))
  }

  lemma JoinPrependHead(ws: seq<string>, sep: string, c: char)
    requires |ws| >= 1
    ensures Join(ws[0 := [c] + ws[0]], sep) == [c] + Join(ws, sep)
  {
    if |ws| > 1 {
      assert ws[0 := [c] + ws[0]][1..] == ws[1..];
    }
  }

  /** A leading hyphen starts a new, empty word. */
  lemma CapitalizeAfterDash(s: string, atStart: bool)
    requires s != [] && s[0] == '-'
    ensures CapitalizeWords(Split(s, '-'), atStart) == [""] + CapitalizeWords(Split(s[1..], '-'), true)
  {
  }

  /** Any other leading character joins the first word, uppercased if it starts it. */
  lemma CapitalizeAfterLetter(s: string, atStart: bool)
    requires s != [] && s[0] != '-'
    ensures var tail := CapitalizeWords(Split(s[1..], '-'), false);
            CapitalizeWords(Split(s, '-'), atStart) == tail[0 := [if atStart then UpperChar(s[0]) else s[0]] + tail[0]]
  {
  }

  lemma {:induction false} TitleCaseSplit(s: string, atStart: bool)
    ensures TitleCase(s, atStart) == Join(CapitalizeWords(Split(s, '-'), atStart), " ")
  {
    if s != [] {
      TitleCaseSplit(s[1..], s[0] == '-');
      if s[0] == '-' {
        CapitalizeAfterDash(s, atStart);
      } else {
        CapitalizeAfterLetter(s, atStart);
        JoinPrependHead(CapitalizeWords(Split(s[1..], '-'), false), " ", if atStart then UpperChar(s[0]) else s[0]);
      }
    }
  }

  /** The company name is the slug with each hyphen turned into a space and the
      first character of each word uppercased; nothing else changes. */
  lemma CompanyNameChars(slug: string)
    ensures |CompanyName(slug)| == |slug|
    ensures forall k: nat :: k < |slug| ==> CompanyName(slug)[k] == TitleCaseChar(slug, true, k)
  {
    var words := Split(slug, '-');
    assert CapitalizeWords(words, true) == seq(|words|, i requires 0 <= i < |words| => Capitalize(words[i]));
    TitleCaseSplit(slug, true);
    TitleCasePointwise(slug, true);
  }

  lemma CompanyNameExample(slug: string)
    requires slug == "acme-labs"
    ensures CompanyName(slug) == "Acme Labs"
  {
    CompanyNameChars(slug);
  }

  // ------------------------------------------------------------ requirements

  /** The filter's test: non-empty and free of the two call-to-action phrases. */
  predicate KeepRequirement(text: string) {
    text != "" && !Contains(ToLower(text), "apply now") && !Contains(ToLower(text), "click here")
  }

  /** `array.filter(KeepRequirement)`. */
  function FilterRequirements(texts: seq<string>): (r: seq<string>)
    ensures |r| <= |texts|
    ensures forall x :: x in r <==> x in texts && KeepRequirement(x)
  {
    if texts == [] then []
    else (if KeepRequirement(texts[0]) then [texts[0]] else []) + FilterRequirements(texts[1..])
  }

  /** `filter` keeps every occurrence of a text it accepts and none of one it rejects. */
  lemma {:induction false} FilterCount(texts: seq<string>, x: string)
    ensures multiset(FilterRequirements(texts))[x] == if KeepRequirement(x) then multiset(texts)[x] else 0
  {
    if texts != [] {
      var head, tail := texts[0], texts[1..];
      assert texts == [head] + tail;
      FilterCount(tail, x);
      FilterHead(head, tail, x);
      assert multiset(texts) == multiset([head]) + multiset(tail);
    }
  }

  lemma FilterHead(head: string, tail: seq<string>, x: string)
    ensures multiset(FilterRequirements([head] + tail))[x]
            == (if KeepRequirement(x) then multiset([head])[x] else 0) + multiset(FilterRequirements(tail))[x]
  {
    var kept := if KeepRequirement(head) then [head] else [];
    assert ([head] + tail)[0] == head && ([head] + tail)[1..] == tail;
    assert FilterRequirements([head] + tail) == kept + FilterRequirements(tail);
    assert multiset(kept + FilterRequirements(tail)) == multiset(kept) + multiset(FilterRequirements(tail));
  }

  lemma {:induction false} FilterSubsequence(texts: seq<string>)
    ensures Subsequence(FilterRequirements(texts), texts)
  {
    if texts != [] {
      FilterSubsequence(texts[1..]);
      var r := FilterRequirements(texts);
      if KeepRequirement(texts[0]) {
        assert r[0] == texts[0] && r[1..] == FilterRequirements(texts[1..]);
      } else {
        assert r == FilterRequirements(texts[1..]);
      }
    }
  }

  lemma {:induction false} FilterIdempotent(texts: seq<string>)
    ensures FilterRequirements(FilterRequirements(texts)) == FilterRequirements(texts)
  {
    if texts != [] {
      FilterIdempotent(texts[1..]);
      var r := FilterRequirements(texts);
      if KeepRequirement(texts[0]) {
        assert r == [texts[0]] + FilterRequirements(texts[1..]);
        assert r[0] == texts[0] && r[1..] == FilterRequirements(texts[1..]);
        assert FilterRequirements(r) == [r[0]] + FilterRequirements(r[1..]);
      } else {
        assert r == FilterRequirements(texts[1..]);
      }
    }
  }

  /** The trimmed `textContent` of every node. */
  function TrimAll(texts: seq<string>): (r: seq<string>)
    ensures |r| == |texts| && forall i :: 0 <= i < |texts| ==> r[i] == Trim(texts[i])
  {
    seq(|texts|, i requires 0 <= i < |texts| => Trim(texts[i]))
  }

  /** The requirement list extracted from the matching nodes' texts. */
  function Requirements(texts: seq<string>): (r: seq<string>)
    ensures forall x :: x in r ==> KeepRequirement(x) && Trim(x) == x
  {
    var trimmed := TrimAll(texts);
    assert forall x :: x in trimmed ==> Trim(x) == x by {
      forall x | x in trimmed ensures Trim(x) == x {
        var i :| 0 <= i < |trimmed| && trimmed[i] == x;
        TrimIdempotent(texts[i]);
      }
    }
    FilterRequirements(trimmed)
  }

  /** The requirements are the trimmed texts, in order, with exactly those kept that
      the filter accepts. */
  lemma RequirementsSpec(texts: seq<string>)
    ensures Subsequence(Requirements(texts), TrimAll(texts))
    ensures forall i :: 0 <= i < |texts| && KeepRequirement(Trim(texts[i])) ==> Trim(texts[i]) in Requirements(texts)
    ensures forall x :: x in Requirements(texts) ==> exists i :: 0 <= i < |texts| && x == Trim(texts[i])
    ensures forall x :: multiset(Requirements(texts))[x] == if KeepRequirement(x) then multiset(TrimAll(texts))[x] else 0
  {
    RequirementsCount(texts);
    RequirementsOrdered(texts);
  }

  /** The order and membership half of `RequirementsSpec`. */
  lemma RequirementsOrdered(texts: seq<string>)
    ensures Subsequence(Requirements(texts), TrimAll(texts))
    ensures forall i :: 0 <= i < |texts| && KeepRequirement(Trim(texts[i])) ==> Trim(texts[i]) in Requirements(texts)
    ensures forall x :: x in Requirements(texts) ==> exists i :: 0 <= i < |texts| && x == Trim(texts[i])
  {
    FilterSubsequence(TrimAll(texts));
    forall i | 0 <= i < |texts| && KeepRequirement(Trim(texts[i])) ensures Trim(texts[i]) in Requirements(texts) {
      assert Trim(texts[i]) == TrimAll(texts)[i];
    }
  }

  /** Each trimmed text that passes the filter is kept as often as it occurs. */
  lemma RequirementsCount(texts: seq<string>)
    ensures forall x :: multiset(Requirements(texts))[x] == if KeepRequirement(x) then multiset(TrimAll(texts))[x] else 0
  {
    var trimmed := TrimAll(texts);
    assert Requirements(texts) == FilterRequirements(trimmed);
    forall x ensures multiset(FilterRequirements(trimmed))[x] == if KeepRequirement(x) then multiset(trimmed)[x] else 0 {
      FilterCount(trimmed, x);
    }
  }

  /** Extracting requirements from the requirement list itself changes nothing. */
  lemma RequirementsIdempotent(texts: seq<string>)
    ensures Requirements(Requirements(texts)) == Requirements(texts)
  {
    var r := Requirements(texts);
    assert TrimAll(r) == r;
    FilterIdempotent(TrimAll(texts));
  }

  /** A non-empty text with no `l` in either case contains neither phrase. */
  lemma KeptWithoutL(t: string)
    requires t != "" && 'l' !in t && 'L' !in t
    ensures KeepRequirement(t)
  {
    var lower := ToLower(t);
    LowerLacks(t, 'l');
    MissingChar(lower, "apply now", 3);
    MissingChar(lower, "click here", 1);
  }

  lemma DropsApplyNow(t: string)
    requires t == "Apply now"
    ensures !KeepRequirement(t)
  {
    var lower := ToLower(t);
    assert lower == "apply now";
    assert OccursAt(lower, "apply now", 0);
    ContainsIff(lower, "apply now");
  }

  lemma DropsClickHere(t: string)
    requires t == "Click here to apply"
    ensures !KeepRequirement(t)
  {
    var lower := ToLower(t);
    assert lower[..10] == "click here";
    assert OccursAt(lower, "click here", 0);
    ContainsIff(lower, "click here");
  }

  /** Four texts of which only the first passes the filter. */
  lemma FilterKeepsFirstOfFour(a: string, b: string, c: string, d: string)
    requires KeepRequirement(a) && !KeepRequirement(b) && !KeepRequirement(c) && !KeepRequirement(d)
    ensures FilterRequirements([a, b, c, d]) == [a]
  {
    assert [a, b, c, d][1..] == [b, c, d] && [b, c, d][1..] == [c, d] && [c, d][1..] == [d] && [d][1..] == [];
    assert FilterRequirements([d]) == [];
    assert FilterRequirements([c, d]) == [];
    assert FilterRequirements([b, c, d]) == [];
  }

  /** Of a real requirement, a call to action, an empty item and a link prompt, only
      the requirement passes the filter. */
  lemma FilterExample(a: string, b: string, c: string, d: string)
    requires a == "5 years experience" && b == "Apply now" && c == "" && d == "Click here to apply"
    ensures FilterRequirements([a, b, c, d]) == [a]
  {
    KeptWithoutL(a);
    DropsApplyNow(b);
    DropsClickHere(d);
    FilterKeepsFirstOfFour(a, b, c, d);
  }

  // ---------------------------------------------------------- the record

  /** The posting as the script extracts it; `None` stands for `undefined`. */
  datatype JobData = JobData(title: Option<string>, company: Option<string>, description: Option<string>,
                             requirements: seq<string>, url: string, platform: string, timestamp: string)

  /** `document.querySelector(sel)?.textContent?.trim()`. */
  function TrimmedText(page: PageText, sel: Selector): (r: Option<string>)
    ensures r.Some? <==> sel in page.first
    ensures r.Some? ==> r.value == Trim(page.first[sel])
  {
    match FirstText(page, sel)
    case None => None
    case Some(t) => Some(Trim(t))
  }

  /** The company: from the URL on Greenhouse when the pattern gives a slug, otherwise
      from the page. */
  function CompanyOf(p: Platform, url: string, page: PageText): Option<string> {
    var slug := GreenhouseSlug(url);
    if p == Greenhouse && slug.Some? then Some(CompanyName(slug.value))
    else TrimmedText(page, SelectorsOf(p).company)
  }

  /** `extractJobData`, with the page's URL, text and the current ISO time. */
  function ExtractJobData(location: Location, page: PageText, now: string): (r: Option<JobData>)
    ensures r.None? <==> ClassifyPlatform(location.href).None?
    ensures r.Some? ==>
              var p := ClassifyPlatform(location.href).value;
              && r.value.url == location.href
              && r.value.platform == Id(p)
              && r.value.title == TrimmedText(page, SelectorsOf(p).title)
              && r.value.description == TrimmedText(page, SelectorsOf(p).description)
              && r.value.requirements == Requirements(AllText(page, SelectorsOf(p).requirements))
              && r.value.timestamp == now
  {
    match ClassifyPlatform(location.href)
    case None => None
    case Some(p) =>
      var sels := SelectorsOf(p);
      Some(JobData(TrimmedText(page, sels.title),
                   CompanyOf(p, location.href, page),
                   TrimmedText(page, sels.description),
                   Requirements(AllText(page, sels.requirements)),
                   location.href, Id(p), now))
  }

  /** On Greenhouse with a slug in the URL, the company comes from the URL alone:
      it is the same whatever the page holds. */
  lemma GreenhouseCompanyFromUrl(location: Location, page: PageText, other: PageText, now: string)
    requires ClassifyPlatform(location.href) == Some(Greenhouse) && GreenhouseSlug(location.href).Some?
    ensures ExtractJobData(location, page, now).value.company == Some(CompanyName(GreenhouseSlug(location.href).value))
    ensures ExtractJobData(location, page, now).value.company == ExtractJobData(location, other, now).value.company
  {
  }

  /** The posting page of the `acme-labs` board on Greenhouse. */
  const AcmeUrl := "https://acme-labs.greenhouse.io/jobs/1"

  lemma AcmeNotLinkedIn() ensures !Contains(AcmeUrl, Domain(LinkedIn)) { MissingChar(AcmeUrl, "linkedin.com", 3); }
  lemma AcmeNotIndeed() ensures !Contains(AcmeUrl, Domain(Indeed)) { MissingChar(AcmeUrl, "indeed.com", 2); }
  lemma AcmeNotGlassdoor() ensures !Contains(AcmeUrl, Domain(Glassdoor)) { MissingChar(AcmeUrl, "glassdoor.com", 5); }
  lemma AcmeOnGreenhouse()
    ensures Contains(AcmeUrl, Domain(Greenhouse))
  {
    assert OccursAt(AcmeUrl, "greenhouse.io", 18);
    ContainsIff(AcmeUrl, "greenhouse.io");
  }

  lemma AcmeIsGreenhouse()
    ensures ClassifyPlatform(AcmeUrl) == Some(Greenhouse)
  {
    AcmeNotLinkedIn();
    AcmeNotIndeed();
    AcmeNotGlassdoor();
    AcmeOnGreenhouse();
  }

  lemma AcmeSlug(url: string)
    requires url == AcmeUrl
    ensures GreenhouseSlug(url) == Some("acme-labs")
  {
    assert url == "https:" + "//" + "acme-labs" + GreenhouseHost + "/jobs/1";
    GreenhouseSlugOf("https:", "acme-labs", "/jobs/1");
  }

  /** On that page the company is "Acme Labs", whatever the page holds. */
  lemma AcmeCompany(location: Location, page: PageText, now: string)
    requires location.href == AcmeUrl
    ensures ExtractJobData(location, page, now).Some?
    ensures ExtractJobData(location, page, now).value.company == Some("Acme Labs")
  {
    AcmeIsGreenhouse();
    AcmeSlug(location.href);
    GreenhouseCompanyFromUrl(location, page, page, now);
    CompanyNameExample("acme-labs");
  }

  /** Otherwise the company is the trimmed text of the board's company selector,
      or `undefined` when the page has none. */
  lemma CompanyFromPage(location: Location, page: PageText, now: string)
    requires ClassifyPlatform(location.href).Some?
    requires ClassifyPlatform(location.href) != Some(Greenhouse) || GreenhouseSlug(location.href).None?
    ensures var sel := SelectorsOf(ClassifyPlatform(location.href).value).company;
            ExtractJobData(location, page, now).value.company
            == (if sel in page.first then Some(Trim(page.first[sel])) else None)
  {
  }

  /** What messaging delivers of the record: fields that are `undefined` are dropped. */
  function JobRecord(j: JobData): (v: Value)
    ensures v.Obj? && "requirements" in v.fields && "url" in v.fields && "platform" in v.fields
    ensures Get(v, "title") == (if j.title.Some? then Str(j.title.value) else Undefined)
    ensures Get(v, "company") == (if j.company.Some? then Str(j.company.value) else Undefined)
    ensures Get(v, "description") == (if j.description.Some? then Str(j.description.value) else Undefined)
  {
    Obj(map k | k in RecordKeys(j) :: FieldValue(j, k))
  }

  /** The always-present fields carry the record's URL, platform, time and
      requirement texts, element by element. */
  lemma JobRecordFields(j: JobData)
    ensures var v := JobRecord(j);
            && Get(v, "url") == Str(j.url) && Get(v, "platform") == Str(j.platform)
            && Get(v, "timestamp") == Str(j.timestamp)
            && Get(v, "requirements").Arr? && |Get(v, "requirements").items| == |j.requirements|
            && forall i :: 0 <= i < |j.requirements| ==> Get(v, "requirements").items[i] == Str(j.requirements[i])
  {
  }

  /** The record's keys: the four always-defined fields, and each optional field that
      is defined. */
  function RecordKeys(j: JobData): set<string> {
    {"requirements", "url", "platform", "timestamp"}
    + (if j.title.Some? then {"title"} else {})
    + (if j.company.Some? then {"company"} else {})
    + (if j.description.Some? then {"description"} else {})
  }

  /** The value the record holds under a key. */
  function FieldValue(j: JobData, k: string): Value {
    if k == "requirements" then Arr(StrValues(j.requirements))
    else if k == "url" then Str(j.url)
    else if k == "platform" then Str(j.platform)
    else if k == "timestamp" then Str(j.timestamp)
    else OptionalValue(if k == "title" then j.title else if k == "company" then j.company else j.description)
  }

  function OptionalValue(o: Option<string>): Value {
    if o.Some? then Str(o.value) else Undefined
  }

  /** The texts as JavaScript strings. */
  function StrValues(texts: seq<string>): (r: seq<Value>)
    ensures |r| == |texts| && forall i :: 0 <= i < |texts| ==> r[i] == Str(texts[i])
  {
    seq(|texts|, i requires 0 <= i < |texts| => Str(texts[i]))
  }

  // -------------------------------------------------------- the responses

  const UnsupportedPage := "Unable to extract job data from this page. Please make sure you are on a supported job board."
  const MissingTitleAndDescription := "Could not find job title or description. Please make sure you are on a job posting page."

  /** Truthiness of an optional text. */
  predicate TruthyText(o: Option<string>) {
    o.Some? && o.value != ""
  }

  datatype ExtractResponse = ExtractSuccess(data: JobData) | ExtractFailure(error: string)

  /** The `EXTRACT_JOB_DATA` answer for an extracted record. */
  function RespondExtract(job: Option<JobData>): (r: ExtractResponse)
    ensures job.None? ==> r == ExtractFailure(UnsupportedPage)
    ensures job.Some? && !TruthyText(job.value.title) && !TruthyText(job.value.description) ==>
              r == ExtractFailure(MissingTitleAndDescription)
    ensures r.ExtractSuccess? <==> job.Some? && (TruthyText(job.value.title) || TruthyText(job.value.description))
    ensures r.ExtractSuccess? ==> r.data == job.value
  {
    if job.None? then ExtractFailure(UnsupportedPage)
    else if !TruthyText(job.value.title) && !TruthyText(job.value.description) then ExtractFailure(MissingTitleAndDescription)
    else ExtractSuccess(job.value)
  }

  /** A page yields a record exactly when it is on a supported board and its title or
      its description selector holds some non-whitespace text. */
  lemma ExtractAccepted(location: Location, page: PageText, now: string)
    ensures RespondExtract(ExtractJobData(location, page, now)).ExtractSuccess? <==>
              ClassifyPlatform(location.href).Some? &&
              var sels := SelectorsOf(ClassifyPlatform(location.href).value);
              (sels.title in page.first && !Blank(page.first[sels.title])) ||
              (sels.description in page.first && !Blank(page.first[sels.description]))
  {
    var job := ExtractJobData(location, page, now);
    if job.Some? {
      var sels := SelectorsOf(ClassifyPlatform(location.href).value);
      assert job.value.title == TrimmedText(page, sels.title);
      assert job.value.description == TrimmedText(page, sels.description);
      TruthyTrimmed(page, sels.title);
      TruthyTrimmed(page, sels.description);
    }
  }

  /** A selector's trimmed text is truthy exactly when the page holds non-blank text
      under it. */
  lemma TruthyTrimmed(page: PageText, sel: Selector)
    ensures TruthyText(TrimmedText(page, sel)) <==> sel in page.first && !Blank(page.first[sel])
  {
    if sel in page.first {
      TrimEmpty(page.first[sel]);
    }
  }

  /** The `AUTOFILL_FORM` answer: `success` is the fill's `filled`. */
  datatype AutofillReply = AutofillReply(success: bool, errors: Option<seq<string>>)

  /** The answer for a fill that completed or threw. */
  function RespondAutofill(outcome: Result<FillResult, string>): (r: AutofillReply)
    ensures r.success <==> outcome.Ok? && outcome.value.filled
    ensures outcome.Ok? ==> r.errors == outcome.value.errors
    ensures outcome.Err? ==> r.errors == Some([outcome.error])
  {
    match outcome
    case Ok(result) => AutofillReply(result.filled, result.errors)
    case Err(message) => AutofillReply(false, Some([message]))
  }

  /** A completed fill reports success exactly when it reports no errors. */
  lemma AutofillSuccessIff(errors: seq<string>)
    ensures var r := RespondAutofill(Ok(FillOutcome(errors)));
            (r.success <==> r.errors.None?) && (r.success <==> errors == [])
  {
  }

  /** The `CHECK_FORM_COMPATIBILITY` answer. */
  function CheckFormCompatibility(hostname: string, present: set<Selector>): (hasForm: bool)
    ensures hasForm <==> exists i :: 0 <= i < |FormPatterns| && Matches(FormPatterns[i], hostname, present)
  {
    DetectJobForm(hostname, present).Some?
  }

  /** The answer the listener sends, if any. */
  datatype ContentReply =
    | Extracted(extract: ExtractResponse)
    | FormCheck(hasForm: bool)
    | Autofilled(autofill: AutofillReply)
    | NoReply

  /** The content script's message listener; `keepOpen` is what it returns to keep
      the channel open for an asynchronous answer. */
  method OnMessage(doc: Document, store: Store, requestType: string, now: string) returns (reply: ContentReply, keepOpen: bool)
    requires doc.Valid()
    modifies doc
    ensures doc.Valid()
    ensures requestType == "EXTRACT_JOB_DATA" ==>
              && reply == Extracted(RespondExtract(ExtractJobData(doc.location, doc.text, now)))
              && !keepOpen && doc.elems == old(doc.elems) && doc.events == old(doc.events)
    ensures requestType == "CHECK_FORM_COMPATIBILITY" ==>
              && reply == FormCheck(CheckFormCompatibility(doc.location.hostname, doc.resolve.Keys))
              && !keepOpen && doc.elems == old(doc.elems) && doc.events == old(doc.events)
    ensures requestType == "AUTOFILL_FORM" ==>
              var run := FillRunOf(doc.location.hostname, doc.resolve, old(doc.elems), old(doc.events), store.entries);
              && reply == Autofilled(RespondAutofill(Ok(run.result)))
              && keepOpen && doc.elems == run.elems && doc.events == run.events
    ensures requestType !in {"EXTRACT_JOB_DATA", "CHECK_FORM_COMPATIBILITY", "AUTOFILL_FORM"} ==>
              reply == NoReply && keepOpen && doc.elems == old(doc.elems) && doc.events == old(doc.events)
  {
    if requestType == "EXTRACT_JOB_DATA" {
      var jobData := ExtractJobData(doc.location, doc.text, now);
      return Extracted(RespondExtract(jobData)), false;
    }
    if requestType == "CHECK_FORM_COMPATIBILITY" {
      return FormCheck(CheckFormCompatibility(doc.location.hostname, doc.resolve.Keys)), false;
    }
    if requestType == "AUTOFILL_FORM" {
      var result := FillForm(doc, store);
      return Autofilled(RespondAutofill(Ok(result))), true;
    }
    return NoReply, true;
  }
}
