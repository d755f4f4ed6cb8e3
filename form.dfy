/** The new-entry form (`initEntryForm` in js/form.js, and its older copy in
    script.js): checking the required fields, the error summary, turning the
    comma-separated tag text into tags, and appending the assembled entry to
    the stored collection. */
module Form {
  import opened Wrappers
  import opened Journal
  import opened Text
  import opened Seqs
  import opened Store
  import opened Weather

  // ---------------------------------------------------------------------------
  // What the user typed
  // ---------------------------------------------------------------------------

  /** The form's raw values. `locationInput` is `None` on a page without the
      location field. */
  datatype FormInput = FormInput(
    title: string,
    date: string,
    mood: string,
    content: string,
    tagsRaw: string,
    background: string,
    font: string,
    locationInput: Option<string>)

  // ---------------------------------------------------------------------------
  // Validation
  // ---------------------------------------------------------------------------

  /** The required fields, by the id of their input element. */
  datatype Field = TitleInput | DateInput | MoodInput | ContentInput

  /** One reported problem: the field and its message. */
  datatype FormError = FormError(field: Field, message: string)

  /** The position of a field in the form, which is the order of the checks. */
  function Rank(f: Field): nat
  {
    match f
    case TitleInput => 0
    case DateInput => 1
    case MoodInput => 2
    case ContentInput => 3
  }

  function Message(f: Field): string
  {
    match f
    case TitleInput => "Title is required"
    case DateInput => "Date is required"
    case MoodInput => "Mood is required"
    case ContentInput => "Content is required"
  }

  /** A required field is missing when it is empty; title and content are
      trimmed first, date and mood are not. */
  predicate IsMissing(input: FormInput, f: Field)
  {
    match f
    case TitleInput => Trim(input.title) == ""
    case DateInput => input.date == ""
    case MoodInput => input.mood == ""
    case ContentInput => Trim(input.content) == ""
  }

  /** Every required field is filled in. */
  function Complete(input: FormInput): (r: bool)
    ensures r <==> forall f: Field :: !IsMissing(input, f)
  {
    assert (!IsMissing(input, TitleInput) && !IsMissing(input, DateInput) && !IsMissing(input, MoodInput)
            && !IsMissing(input, ContentInput)) ==> forall f: Field :: !IsMissing(input, f);
    Trim(input.title) != "" && input.date != "" && input.mood != "" && Trim(input.content) != ""
  }

  predicate HasError(errors: seq<FormError>, f: Field)
  {
    exists i :: 0 <= i < |errors| && errors[i].field == f
  }

  /** The error for field `f`, if it is missing. */
  function ErrorIf(input: FormInput, f: Field): (r: seq<FormError>)
    ensures |r| <= 1
    ensures r != [] <==> IsMissing(input, f)
    ensures r != [] ==> r[0] == FormError(f, Message(f))
  {
    if IsMissing(input, f) then [FormError(f, Message(f))] else []
  }

  /** The fields in the order the handler checks them. */
  const RequiredFields: seq<Field> := [TitleInput, DateInput, MoodInput, ContentInput]

  /** The errors for the missing ones among `fields`, in the order given:
      each one names a missing field and carries that field's message. */
  function ErrorsFor(input: FormInput, fields: seq<Field>): (r: seq<FormError>)
    ensures |r| <= |fields|
    ensures forall i :: 0 <= i < |r| ==>
              IsMissing(input, r[i].field) && r[i].message == Message(r[i].field)
    decreases |fields|
  {
    if fields == [] then [] else ErrorIf(input, fields[0]) + ErrorsFor(input, fields[1..])
  }

  /** Only the given fields are reported. */
  lemma {:induction false} ErrorsForFromFields(input: FormInput, fields: seq<Field>, i: nat)
    requires i < |ErrorsFor(input, fields)|
    ensures ErrorsFor(input, fields)[i].field in fields
    decreases |fields|
  {
    var head := ErrorIf(input, fields[0]);
    var rest := ErrorsFor(input, fields[1..]);
    assert ErrorsFor(input, fields) == head + rest;
    if i >= |head| {
      ErrorsForFromFields(input, fields[1..], i - |head|);
    }
  }

  /** Every missing field among `fields` is reported. */
  lemma {:induction false} ErrorsForCovers(input: FormInput, fields: seq<Field>, f: Field)
    requires f in fields && IsMissing(input, f)
    ensures HasError(ErrorsFor(input, fields), f)
    decreases |fields|
  {
    var rest := ErrorsFor(input, fields[1..]);
    var r := ErrorsFor(input, fields);
    assert r == ErrorIf(input, fields[0]) + rest;
    if f == fields[0] {
      assert r[0].field == f;
    } else {
      assert f in fields[1..];
      ErrorsForCovers(input, fields[1..], f);
      var i :| 0 <= i < |rest| && rest[i].field == f;
      assert r[|r| - |rest| + i] == rest[i];
    }
  }

  /** The error list the checks produce. */
  function Errors(input: FormInput): (r: seq<FormError>)
    ensures |r| <= |RequiredFields|
    ensures forall i :: 0 <= i < |r| ==> IsMissing(input, r[i].field) && r[i].message == Message(r[i].field)
  {
    ErrorsFor(input, RequiredFields)
  }

  /** A field is reported exactly when it is missing, with its own message. */
  lemma ErrorsExactlyMissing(input: FormInput, f: Field)
    ensures HasError(Errors(input), f) <==> IsMissing(input, f)
    ensures forall e :: e in Errors(input) ==> e.message == Message(e.field)
  {
    assert f in RequiredFields by {
      match f
      case TitleInput => assert RequiredFields[0] == f;
      case DateInput => assert RequiredFields[1] == f;
      case MoodInput => assert RequiredFields[2] == f;
      case ContentInput => assert RequiredFields[3] == f;
    }
    if IsMissing(input, f) {
      ErrorsForCovers(input, RequiredFields, f);
    }
  }

  /** Fields listed in strictly increasing form order. */
  predicate InFormOrder(fields: seq<Field>)
  {
    forall i, j :: 0 <= i < j < |fields| ==> Rank(fields[i]) < Rank(fields[j])
  }

  /** The errors follow the order of the fields they are checked in, so no
      field is reported twice. */
  lemma {:induction false} ErrorsForInOrder(input: FormInput, fields: seq<Field>, i: nat, j: nat)
    requires InFormOrder(fields)
    requires i < j < |ErrorsFor(input, fields)|
    ensures Rank(ErrorsFor(input, fields)[i].field) < Rank(ErrorsFor(input, fields)[j].field)
    decreases |fields|
  {
    var tail := fields[1..];
    var rest := ErrorsFor(input, tail);
    var head := ErrorIf(input, fields[0]);
    var r := ErrorsFor(input, fields);
    assert r == head + rest;
    TailInFormOrder(fields);
    if head == [] {
      assert r[i] == rest[i] && r[j] == rest[j];
      ErrorsForInOrder(input, tail, i, j);
    } else if i == 0 {
      assert r[j] == rest[j - 1];
      ErrorsForFromFields(input, tail, j - 1);
      HeadRanksFirst(fields, rest[j - 1].field);
    } else {
      assert r[i] == rest[i - 1] && r[j] == rest[j - 1];
      ErrorsForInOrder(input, tail, i - 1, j - 1);
    }
  }

  lemma TailInFormOrder(fields: seq<Field>)
    requires InFormOrder(fields) && fields != []
    ensures InFormOrder(fields[1..])
  {
    var tail := fields[1..];
    forall a, b | 0 <= a < b < |tail| ensures Rank(tail[a]) < Rank(tail[b]) {
      assert tail[a] == fields[a + 1] && tail[b] == fields[b + 1];
    }
  }

  lemma HeadRanksFirst(fields: seq<Field>, f: Field)
    requires InFormOrder(fields) && |fields| >= 1 && f in fields[1..]
    ensures Rank(fields[0]) < Rank(f)
  {
    var k :| 0 <= k < |fields[1..]| && fields[1..][k] == f;
    assert fields[k + 1] == f;
  }

  lemma ErrorsInFormOrder(input: FormInput, i: nat, j: nat)
    requires i < j < |Errors(input)|
    ensures Rank(Errors(input)[i].field) < Rank(Errors(input)[j].field)
  {
    ErrorsForInOrder(input, RequiredFields, i, j);
  }

  /** There are no errors exactly when the form is complete. */
  lemma NoErrorsIffComplete(input: FormInput)
    ensures Errors(input) == [] <==> Complete(input)
  {
    if !Complete(input) {
      var f :| IsMissing(input, f);
      ErrorsExactlyMissing(input, f);
    }
  }

  /** The checks as the submit handler runs them: an empty `errors` array and
      one `push` per missing field, title first and content last. */
  method CollectErrors(input: FormInput) returns (errors: seq<FormError>)
    ensures errors == Errors(input)
  {
    var title := Trim(input.title);
    var content := Trim(input.content);
    errors := [];
    if title == "" {
      errors := errors + [FormError(TitleInput, "Title is required")];
    }
    assert errors == ErrorIf(input, TitleInput);
    if input.date == "" {
      errors := errors + [FormError(DateInput, "Date is required")];
    }
    assert errors == ErrorIf(input, TitleInput) + ErrorIf(input, DateInput);
    if input.mood == "" {
      errors := errors + [FormError(MoodInput, "Mood is required")];
    }
    assert errors == ErrorIf(input, TitleInput) + ErrorIf(input, DateInput) + ErrorIf(input, MoodInput);
    if content == "" {
      errors := errors + [FormError(ContentInput, "Content is required")];
    }
    ErrorsUnfold(input);
  }

  lemma ErrorsUnfold(input: FormInput)
    ensures Errors(input) == ErrorIf(input, TitleInput) + ErrorIf(input, DateInput)
                             + ErrorIf(input, MoodInput) + ErrorIf(input, ContentInput)
  {
    var f := RequiredFields;
    assert f[1..][1..][1..][1..] == [];
    assert ErrorsFor(input, f[1..][1..][1..]) == ErrorIf(input, ContentInput);
  }

  function Messages(errors: seq<FormError>): (r: seq<string>)
    ensures |r| == |errors|
    ensures forall i :: 0 <= i < |r| ==> r[i] == errors[i].message
  {
    seq(|errors|, i requires 0 <= i < |errors| => errors[i].message)
  }

  /** The summary line: `Form has N error`, an `s` exactly when there is more
      than one, a colon, and the messages joined with `". "`. */
  function ErrorSummary(errors: seq<FormError>): (r: string)
    ensures var n := NatToString(|errors|);
            var k := 9 + |n|;
            var list := Join(". ", Messages(errors));
            && |r| == k + 6 + (if |errors| > 1 then 1 else 0) + 2 + |list|
            && r[..9] == "Form has "
            && r[9..k] == n && DigitsValue(n) == |errors|
            && r[k..k + 6] == " error"
            && (|errors| > 1 <==> r[k + 6] == 's')
            && r[|r| - |list| - 2..] == ": " + list
  {
    var n := NatToString(|errors|);
    var list := Join(". ", Messages(errors));
    var plural := if |errors| > 1 then "s" else "";
    var counted := "Form has " + n;
    var head := counted + " error" + plural;
    var r := head + (": " + list);
    NatToStringRoundTrip(|errors|);
    assert counted[..9] == "Form has " && counted[9..] == n;
    assert r[..|counted|] == counted;
    assert r[..9] == counted[..9];
    assert r[9..9 + |n|] == counted[9..];
    assert r[9 + |n|..9 + |n| + 6] == head[|counted|..|counted| + 6] == " error";
    assert r[|head|..] == ": " + list;
    r
  }

  /** With a single error, the summary is exactly "Form has 1 error: " and
      its message. */
  lemma SummaryOfOne(e: FormError)
    ensures ErrorSummary([e]) == "Form has 1 error: " + e.message
  {
    assert NatToString(1) == "1";
    assert Messages([e]) == [e.message];
  }

  // ---------------------------------------------------------------------------
  // Tags
  // ---------------------------------------------------------------------------

  function TrimAll(pieces: seq<string>): (r: seq<string>)
    ensures |r| == |pieces|
    ensures forall i :: 0 <= i < |r| ==> r[i] == Trim(pieces[i])
  {
    seq(|pieces|, i requires 0 <= i < |pieces| => Trim(pieces[i]))
  }

  function NonEmpty(t: string): bool
  {
    t != ""
  }

  /** `tagsRaw.split(',').map(t => t.trim()).filter(Boolean)`. */
  function ParseTags(tagsRaw: string): (tags: seq<string>)
    ensures forall t :: t in tags ==> t != "" && IsTrimmed(t) && ',' !in t
    ensures forall t :: t in tags <==> t != "" && t in TrimAll(Split(tagsRaw, ','))
    ensures forall t :: multiset(tags)[t] == if t != "" then multiset(TrimAll(Split(tagsRaw, ',')))[t] else 0
  {
    var pieces := Split(tagsRaw, ',');
    TrimmedPieces(pieces, ',');
    assert forall t :: NonEmpty(t) == (t != "");
    Filter(TrimAll(pieces), NonEmpty)
  }

  /** Trimmed pieces are trimmed and gain no separator. */
  lemma TrimmedPieces(pieces: seq<string>, sep: char)
    requires forall k :: 0 <= k < |pieces| ==> sep !in pieces[k]
    ensures forall t :: t in TrimAll(pieces) ==> sep !in t && IsTrimmed(t)
  {
    var trimmed := TrimAll(pieces);
    forall i | 0 <= i < |trimmed|
      ensures sep !in trimmed[i] && IsTrimmed(trimmed[i])
    {
      TrimKeepsChars(pieces[i], sep);
    }
  }

  /** The tags keep the order of their pieces in the text. */
  lemma ParseTagsKeepsOrder(tagsRaw: string)
    ensures IsSubseq(ParseTags(tagsRaw), TrimAll(Split(tagsRaw, ',')))
  {
    FilterIsSubseq(TrimAll(Split(tagsRaw, ',')), NonEmpty);
  }

  /** Tags written out with commas parse back to themselves. */
  lemma ParseJoinedTags(tags: seq<string>)
    requires forall k :: 0 <= k < |tags| ==> tags[k] != "" && ',' !in tags[k]
    requires forall k :: 0 <= k < |tags| ==> IsTrimmed(tags[k])
    ensures ParseTags(Join(",", tags)) == tags
  {
    if tags == [] {
      assert Split("", ',') == [""];
      assert TrimAll([""]) == [""];
    } else {
      SplitJoin(tags, ',');
      TrimAllTrimmed(tags);
      FilterAll(tags, NonEmpty);
    }
  }

  lemma TrimAllTrimmed(pieces: seq<string>)
    requires forall k :: 0 <= k < |pieces| ==> IsTrimmed(pieces[k])
    ensures TrimAll(pieces) == pieces
  {
    forall k | 0 <= k < |pieces| ensures Trim(pieces[k]) == pieces[k] {
      TrimUnchanged(pieces[k]);
    }
  }

  // ---------------------------------------------------------------------------
  // The new entry
  // ---------------------------------------------------------------------------

  /** The entry `initEntryForm` (js/form.js) pushes: trimmed title and
      content, the parsed tags, and the last fetched weather where it has a
      value, with the cloudy 26°C defaults where it does not. */
  function NewEntry(input: FormInput, id: FreshId, weather: Option<WeatherRecord>): (e: Entry)
    ensures e.id == id && e.title == Trim(input.title) && e.content == Trim(input.content)
    ensures e.date == input.date && e.mood == input.mood && e.tags == ParseTags(input.tagsRaw)
    ensures e.background == input.background && e.font == input.font
    ensures weather.None? ==> e.weatherIcon == CloudIcon && e.temperature == "26\U{B0}C"
                              && e.weatherType == "Clouds" && e.humidity == None && e.windSpeed == None
    ensures weather.Some? ==> e.humidity == weather.value.humidity && e.windSpeed == weather.value.windSpeed
    ensures weather.Some? ==> e.weatherIcon == (if weather.value.icon != "" then weather.value.icon else CloudIcon)
    ensures weather.Some? ==>
              e.temperature == (if weather.value.temperature != "" then weather.value.temperature else "26\U{B0}C")
    ensures weather.Some? ==>
              e.weatherType == (if weather.value.weatherType != "" then weather.value.weatherType else "Clouds")
    ensures e.weatherIcon != "" && e.temperature != "" && e.weatherType != ""
    ensures weather.Some? && weather.value.locationName != "" ==> e.locationName == weather.value.locationName
    ensures (weather.None? || weather.value.locationName == "") ==>
              e.locationName == match input.locationInput case None => "" case Some(v) => Trim(v)
  {
    var w := match weather
      case None => WeatherRecord("", "", "", None, None, "")
      case Some(w) => w;
    Entry(
      id,
      Trim(input.title),
      input.date,
      input.mood,
      Trim(input.content),
      ParseTags(input.tagsRaw),
      input.background,
      input.font,
      if w.icon != "" then w.icon else CloudIcon,
      if w.temperature != "" then w.temperature else "26\U{B0}C",
      if w.weatherType != "" then w.weatherType else "Clouds",
      w.humidity,
      w.windSpeed,
      if w.locationName != "" then w.locationName
      else match input.locationInput case None => "" case Some(v) => Trim(v))
  }

  /** Weather fetched successfully is stored with the entry as fetched: none
      of its fields falls back to a default. */
  lemma FetchedWeatherIsKept(input: FormInput, id: FreshId, cityName: string,
                             geocode: string -> GeoResponse, forecast: Place -> ForecastResponse)
    requires FetchWeatherForCity(cityName, geocode, forecast).Success?
    ensures var w := FetchWeatherForCity(cityName, geocode, forecast).value;
            var e := NewEntry(input, id, Some(w));
            && e.weatherIcon == w.icon && e.temperature == w.temperature
            && e.weatherType == w.weatherType && e.locationName == w.locationName
            && e.humidity == w.humidity && e.windSpeed == w.windSpeed
  {
  }

  /** The entry the older script.js handler pushes: the same fields with the
      fixed cloudy 26°C weather and no humidity, wind or location. */
  function LegacyNewEntry(input: FormInput, id: FreshId): (e: Entry)
    ensures e.weatherIcon == CloudIcon && e.temperature == "26\U{B0}C" && e.weatherType == "Clouds"
    ensures e.humidity == None && e.windSpeed == None && e.locationName == ""
  {
    Entry(id, Trim(input.title), input.date, input.mood, Trim(input.content), ParseTags(input.tagsRaw),
          input.background, input.font, CloudIcon, "26\U{B0}C", "Clouds", None, None, "")
  }

  /** The older handler builds what the newer one builds when no weather was
      fetched and the page has no location field. */
  lemma LegacyIsNewWithoutWeather(input: FormInput, id: FreshId)
    ensures LegacyNewEntry(input, id) == NewEntry(input.(locationInput := None), id, None)
  {
  }

  // ---------------------------------------------------------------------------
  // Submitting
  // ---------------------------------------------------------------------------

  /** The submit handler of js/form.js: with errors, they are returned and
      nothing is loaded or saved; otherwise the new entry, built with the
      last fetched weather, is appended to the stored collection and saved
      once. */
  method Submit(store: EntryStore, box: WeatherBox, input: FormInput, id: FreshId)
    returns (errors: seq<FormError>)
    requires box.Valid()
    modifies store
    ensures errors == Errors(input)
    ensures errors != [] ==> store.entries == old(store.entries) && store.writes == old(store.writes)
    ensures errors == [] ==>
              store.entries == old(store.entries) + [NewEntry(input, id, box.lastWeather)]
              && store.writes == old(store.writes) + 1
  {
    errors := CollectErrors(input);
    if |errors| > 0 {
      return;
    }
    var entries := store.entries;
    var weather := box.LastFetchedWeather();
    entries := entries + [NewEntry(input, id, weather)];
    store.Save(entries);
  }

  /** The submit handler of script.js: an incomplete form is refused (with
      an alert) and nothing is saved; a complete one appends the legacy
      entry and saves once. */
  method SubmitLegacy(store: EntryStore, input: FormInput, id: FreshId) returns (accepted: bool)
    modifies store
    ensures accepted <==> Complete(input)
    ensures !accepted ==> store.entries == old(store.entries) && store.writes == old(store.writes)
    ensures accepted ==>
              store.entries == old(store.entries) + [LegacyNewEntry(input, id)]
              && store.writes == old(store.writes) + 1
  {
    var title := Trim(input.title);
    var content := Trim(input.content);
    if title == "" || input.date == "" || input.mood == "" || content == "" {
      return false;
    }
    var entries := store.entries;
    entries := entries + [LegacyNewEntry(input, id)];
    store.Save(entries);
    return true;
  }
}
