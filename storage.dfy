/**
 * The user profile kept in `chrome.storage.local` under one key: built
 * from defaults, shallowly merged with what the user saves, and read back
 * by the autofill code together with the stored resume.
 */
module Storage {
  import opened Wrappers
  import opened Js
  import opened ChromeStorage

  const UserDataKey := "jobApplicationUserData"
  const ResumeKey := "resume"
  const LastUpdatedKey := "lastUpdated"
  const PreferNotToAnswer := "prefer_not_to_answer"

  /** The answers offered for self-identification questions, all declined by default. */
  function DefaultSelfIdentification(): (m: map<string, Value>)
    ensures m.Keys == {"disability", "veteran", "race", "gender"}
    ensures forall k :: k in m ==> m[k] == Str(PreferNotToAnswer)
  {
    map["disability" := Str(PreferNotToAnswer), "veteran" := Str(PreferNotToAnswer),
        "race" := Str(PreferNotToAnswer), "gender" := Str(PreferNotToAnswer)]
  }

  /** The top-level text fields of the profile: basic and professional information. */
  const TextFields: set<string> := {"firstName", "lastName", "email", "phone", "address", "city", "state",
                                     "zipCode", "coverLetterText", "linkedinUrl", "portfolioUrl"}

  /** The text fields of the profile, all empty. */
  function TextDefaults(): (m: map<string, Value>)
    ensures m.Keys == TextFields && LastUpdatedKey !in m
    ensures forall k :: k in m ==> m[k] == Str("")
  {
    map k | k in TextFields :: Str("")
  }

  /** The five demographic questions answered with text. */
  const DemographicAnswers: set<string> :=
    {"gender", "race", "hispanicLatino", "veteranStatus", "disabilityStatus"}

  /** The demographic answers: all empty, self-identification declined. */
  function DefaultDemographics(): (v: Value)
    ensures forall k :: k in DemographicAnswers ==> Get(v, k) == Str("")
    ensures Get(v, "selfIdentification") == Obj(DefaultSelfIdentification())
  {
    Obj(map[
      "gender" := Str(""), "race" := Str(""), "hispanicLatino" := Str(""),
      "veteranStatus" := Str(""), "disabilityStatus" := Str(""),
      "selfIdentification" := Obj(DefaultSelfIdentification())])
  }

  /** The application preferences: no demographic autofill, confirm before submitting. */
  function DefaultPreferences(): (v: Value)
    ensures Get(v, "autofillDemographics") == Bool(false)
    ensures Get(v, "confirmBeforeSubmit") == Bool(true)
  {
    Obj(map["autofillDemographics" := Bool(false), "confirmBeforeSubmit" := Bool(true)])
  }

  /** The profile every saved record starts from. */
  function DefaultUserData(): (d: map<string, Value>)
    ensures d.Keys == TextFields + {"demographics", "preferences"}
    ensures forall k :: k in d && k != "demographics" && k != "preferences" ==> d[k] == Str("")
    ensures Get(d["preferences"], "autofillDemographics") == Bool(false)
    ensures Get(d["preferences"], "confirmBeforeSubmit") == Bool(true)
    ensures Get(d["demographics"], "selfIdentification") == Obj(DefaultSelfIdentification())
    ensures LastUpdatedKey !in d
  {
    var nested := map["demographics" := DefaultDemographics(), "preferences" := DefaultPreferences()];
    assert nested.Keys == {"demographics", "preferences"};
    var d := TextDefaults() + nested;
    assert d["demographics"] == DefaultDemographics() && d["preferences"] == DefaultPreferences();
    d
  }

  /** `{...DEFAULT_USER_DATA, ...userData, lastUpdated: now}`: a shallow merge in
      which the caller's top-level fields win over the defaults and the
      timestamp wins over both. */
  function MergeUserData(userData: map<string, Value>, now: string): (m: map<string, Value>)
    ensures m.Keys == DefaultUserData().Keys + userData.Keys + {LastUpdatedKey}
    ensures m[LastUpdatedKey] == Str(now)
    ensures forall k :: k in userData && k != LastUpdatedKey ==> m[k] == userData[k]
    ensures forall k :: k in DefaultUserData() && k !in userData ==> m[k] == DefaultUserData()[k]
  {
    var defaults := DefaultUserData();
    ShallowMerge(defaults, userData, LastUpdatedKey, Str(now));
    defaults + userData + map[LastUpdatedKey := Str(now)]
  }

  /** `{...base, ...over, [key]: v}` for any two records. */
  lemma ShallowMerge(base: map<string, Value>, over: map<string, Value>, key: string, v: Value)
    ensures var m := base + over + map[key := v];
            && m.Keys == base.Keys + over.Keys + {key}
            && m[key] == v
            && (forall k :: k in over && k != key ==> m[k] == over[k])
            && (forall k :: k in base && k !in over && k != key ==> m[k] == base[k])
  {
  }

  /** `getUserData`: the stored record, or null when it is absent (or falsy). */
  function GetUserData(entries: map<string, Value>): (r: Option<Value>)
    ensures r.Some? <==> UserDataKey in entries && Truthy(entries[UserDataKey])
    ensures r.Some? ==> r.value == entries[UserDataKey]
  {
    var v := Lookup(entries, UserDataKey);
    if Truthy(v) then Some(v) else None
  }

  /** `getResume`: the stored `resume` entry, or null when it is absent (or falsy). */
  function GetResume(entries: map<string, Value>): (r: Option<Value>)
    ensures r.Some? <==> ResumeKey in entries && Truthy(entries[ResumeKey])
    ensures r.Some? ==> r.value == entries[ResumeKey]
  {
    var v := Lookup(entries, ResumeKey);
    if Truthy(v) then Some(v) else None
  }

  /** `saveUserData`: writes the merged record under its key and nothing else;
      reading it back gives exactly the merged record. */
  method SaveUserData(store: Store, userData: map<string, Value>, now: string)
    modifies store
    ensures store.entries == old(store.entries)[UserDataKey := Obj(MergeUserData(userData, now))]
    ensures forall k :: k != UserDataKey ==> Lookup(store.entries, k) == Lookup(old(store.entries), k)
    ensures GetUserData(store.entries) == Some(Obj(MergeUserData(userData, now)))
  {
    ghost var before := store.entries;
    var record := Obj(MergeUserData(userData, now));
    store.Set(map[UserDataKey := record]);
    SetOne(before, UserDataKey, record);
    SaveThenLoad(before, userData, now);
    WriteOneKey(before, UserDataKey, record);
  }

  /** Writing one key leaves every other key as it was. */
  lemma WriteOneKey(entries: map<string, Value>, key: string, v: Value)
    ensures forall k :: k != key ==> Lookup(entries[key := v], k) == Lookup(entries, k)
  {
  }

  /** Saving a profile and reading it back gives the merged record, in which
      no default field is missing. */
  lemma SaveThenLoad(entries: map<string, Value>, userData: map<string, Value>, now: string)
    ensures var loaded := GetUserData(entries[UserDataKey := Obj(MergeUserData(userData, now))]);
      && loaded == Some(Obj(MergeUserData(userData, now)))
      && DefaultUserData().Keys <= loaded.value.fields.Keys
  {
  }
}
