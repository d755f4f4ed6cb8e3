/** The persisted entry collection: what `loadEntries` returns and
    `saveEntries` replaces, and the id back-filling migration `ensureIDs` that
    every page runs on load. */
module Store {
  import opened Wrappers
  import opened Journal

  /** Every entry has a truthy id. */
  predicate AllHaveIds(s: seq<Entry>)
  {
    forall i :: 0 <= i < |s| ==> s[i].id.Truthy()
  }

  /** The collection `ensureIDs` leaves behind: the entry at position `i`
      keeps its id if it had a truthy one and otherwise gets `mint(i)`, the
      id the id source handed out for it. Nothing else about any entry
      changes, and neither does the length or the order. */
  function WithIds(s: seq<Entry>, mint: nat -> FreshId): (r: seq<Entry>)
    ensures |r| == |s|
    ensures AllHaveIds(r)
    ensures forall i :: 0 <= i < |s| && s[i].id.Truthy() ==> r[i] == s[i]
    ensures forall i :: 0 <= i < |s| && !s[i].id.Truthy() ==> r[i] == s[i].(id := mint(i))
    decreases |s|
  {
    if s == [] then []
    else
      var n := |s| - 1;
      var last := if s[n].id.Truthy() then s[n] else s[n].(id := mint(n));
      WithIds(s[..n], mint) + [last]
  }

  /** Back-filling ids is idempotent: a second run finds nothing missing. */
  lemma WithIdsIdempotent(s: seq<Entry>, mint: nat -> FreshId, mint': nat -> FreshId)
    ensures WithIds(WithIds(s, mint), mint') == WithIds(s, mint)
  {
    var once := WithIds(s, mint);
    var twice := WithIds(once, mint');
    assert forall i :: 0 <= i < |once| ==> twice[i] == once[i];
  }

  /** A collection whose ids are all present is left exactly as it is. */
  lemma WithIdsNoop(s: seq<Entry>, mint: nat -> FreshId)
    requires AllHaveIds(s)
    ensures WithIds(s, mint) == s
  {
    var r := WithIds(s, mint);
    assert forall i :: 0 <= i < |s| ==> r[i] == s[i];
  }

  /** What `JSON.parse` made of the stored text: an array of entries or some
      other value. */
  datatype Json = JsonArray(items: seq<Entry>) | JsonOther

  /** `loadEntries`: the stored text is read under the fixed key; absent or
      empty text, text that does not parse (`None` from the parser) and a
      parsed value that is not an array all give the empty collection. */
  function LoadEntries(raw: Option<string>, parse: string -> Option<Json>): (r: seq<Entry>)
    ensures raw == None || raw == Some("") ==> r == []
    ensures raw.Some? && raw.value != "" && parse(raw.value) == None ==> r == []
    ensures raw.Some? && raw.value != "" && parse(raw.value) == Some(JsonOther) ==> r == []
    ensures raw.Some? && raw.value != "" && parse(raw.value).Some? && parse(raw.value).value.JsonArray? ==>
              r == parse(raw.value).value.items
    ensures r != [] ==> raw.Some? && parse(raw.value) == Some(JsonArray(r))
  {
    match raw
    case None => []
    case Some(text) =>
      if text == "" then []
      else
        match parse(text)
        case None => []
        case Some(JsonArray(items)) => items
        case Some(JsonOther) => []
  }

  /** Save followed by load gives back what was saved, for any text encoding
      whose parser inverts its printer (`JSON.stringify`) on entry arrays
      and that never prints the empty string (JSON's `[]` is two
      characters). */
  lemma SaveLoadRoundTrip(s: seq<Entry>, stringify: seq<Entry> -> string, parse: string -> Option<Json>)
    requires stringify(s) != ""
    requires parse(stringify(s)) == Some(JsonArray(s))
    ensures LoadEntries(Some(stringify(s)), parse) == s
  {
  }

  /** The browser's storage slot for the journal. `entries` is the collection
      that `loadEntries` returns; `writes` counts the calls of `saveEntries`,
      so that "saves" and "does not save" can be told apart. */
  class EntryStore {
    var entries: seq<Entry>
    var writes: nat

    constructor (initial: seq<Entry>)
      ensures entries == initial && writes == 0
    {
      entries := initial;
      writes := 0;
    }

    /** `saveEntries(s)`: replaces the stored collection. */
    method Save(s: seq<Entry>)
      modifies this
      ensures entries == s && writes == old(writes) + 1
    {
      entries := s;
      writes := writes + 1;
    }

    /** `ensureIDs`: loads the collection, gives each entry without a truthy
        id the next id from the id source, and saves only if it changed
        something. */
    method EnsureIds(mint: nat -> FreshId)
      modifies this
      ensures entries == WithIds(old(entries), mint)
      ensures writes == if AllHaveIds(old(entries)) then old(writes) else old(writes) + 1
    {
      var loaded := entries;
      var hasChanges := false;
      var i := 0;
      while i < |loaded|
        invariant 0 <= i <= |loaded| == |entries|
        invariant forall k :: 0 <= k < i && entries[k].id.Truthy() ==> loaded[k] == entries[k]
        invariant forall k :: 0 <= k < i && !entries[k].id.Truthy() ==> loaded[k] == entries[k].(id := mint(k))
        invariant forall k :: i <= k < |loaded| ==> loaded[k] == entries[k]
        invariant hasChanges <==> exists k :: 0 <= k < i && !entries[k].id.Truthy()
      {
        if !loaded[i].id.Truthy() {
          loaded := loaded[i := loaded[i].(id := mint(i))];
          hasChanges := true;
        }
        i := i + 1;
      }
      assert loaded == WithIds(entries, mint);
      if hasChanges {
        Save(loaded);
      }
    }
  }
}
