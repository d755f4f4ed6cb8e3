/** Delete-by-id and its undo, as pure operations on the collection: the
    `filter` that removes an entry, the `find` that remembers it, and the
    `push` that puts it back. */
module Repo {
  import opened Wrappers
  import opened Journal
  import opened Seqs

  /** `entries.filter(e => e.id !== id)`. */
  function RemoveId(s: seq<Entry>, id: EntryId): (r: seq<Entry>)
    ensures forall e :: e in r <==> e in s && e.id != id
    ensures forall e :: multiset(r)[e] == if e.id == id then 0 else multiset(s)[e]
  {
    Filter(s, (e: Entry) => e.id != id)
  }

  /** Deleting keeps the survivors in their original relative order. */
  lemma RemoveIdKeepsOrder(s: seq<Entry>, id: EntryId)
    ensures IsSubseq(RemoveId(s, id), s)
  {
    FilterIsSubseq(s, (e: Entry) => e.id != id);
  }

  /** Deleting an id nobody has changes nothing. */
  lemma RemoveAbsentId(s: seq<Entry>, id: EntryId)
    requires forall i :: 0 <= i < |s| ==> s[i].id != id
    ensures RemoveId(s, id) == s
  {
    FilterAll(s, (e: Entry) => e.id != id);
  }

  /** `entries.find(e => e.id === id)`: the first entry with that id, or
      `undefined`. */
  function FindId(s: seq<Entry>, id: EntryId): (r: Option<Entry>)
    ensures r.None? <==> forall i :: 0 <= i < |s| ==> s[i].id != id
    ensures r.Some? ==> r.value in s && r.value.id == id
    decreases |s|
  {
    if s == [] then None
    else if s[0].id == id then Some(s[0])
    else FindId(s[1..], id)
  }

  /** The entry `find` returns is the first one carrying the id. */
  lemma {:induction false} FindIdIsFirst(s: seq<Entry>, id: EntryId, i: nat)
    requires i < |s| && s[i].id == id
    requires forall j :: 0 <= j < i ==> s[j].id != id
    ensures FindId(s, id) == Some(s[i])
    decreases i
  {
    if i > 0 {
      FindIdIsFirst(s[1..], id, i - 1);
    }
  }

  /** How many entries carry the id. */
  function CountId(s: seq<Entry>, id: EntryId): nat
    decreases |s|
  {
    if s == [] then 0 else (if s[0].id == id then 1 else 0) + CountId(s[1..], id)
  }

  /** When exactly one entry carries the id, deleting it and then undoing
      (appending the remembered entry) gives back the same entries, up to
      their order. */
  lemma {:induction false} DeleteThenUndo(s: seq<Entry>, id: EntryId)
    requires CountId(s, id) == 1
    ensures FindId(s, id).Some?
    ensures multiset(RemoveId(s, id) + [FindId(s, id).value]) == multiset(s)
  {
    var found := FindId(s, id);
    OneMatchFound(s, id);
    var e := found.value;
    forall x | true
      ensures multiset(RemoveId(s, id) + [e])[x] == multiset(s)[x]
    {
      if x.id == id {
        OnlyMatch(s, id, x);
      }
    }
    assert multiset(RemoveId(s, id) + [e]) == multiset(s);
  }

  lemma {:induction false} OneMatchFound(s: seq<Entry>, id: EntryId)
    requires CountId(s, id) >= 1
    ensures FindId(s, id).Some?
    decreases |s|
  {
    if s[0].id != id {
      OneMatchFound(s[1..], id);
    }
  }

  /** With a single carrier of the id, an entry with that id occurs once in
      the collection if it is the carrier, and not at all otherwise. */
  lemma {:induction false} OnlyMatch(s: seq<Entry>, id: EntryId, x: Entry)
    requires CountId(s, id) == 1 && x.id == id
    ensures FindId(s, id).Some?
    ensures multiset(s)[x] == if x == FindId(s, id).value then 1 else 0
    decreases |s|
  {
    assert s == [s[0]] + s[1..];
    if s[0].id == id {
      NoMatch(s[1..], id, x);
    } else {
      OnlyMatch(s[1..], id, x);
    }
  }

  lemma {:induction false} NoMatch(s: seq<Entry>, id: EntryId, x: Entry)
    requires CountId(s, id) == 0 && x.id == id
    ensures multiset(s)[x] == 0
    decreases |s|
  {
    if s != [] {
      assert s == [s[0]] + s[1..];
      NoMatch(s[1..], id, x);
    }
  }
}
