/** The older dashboard (js/entries.js, and its copy in script.js): every
    entry on one page, newest first, with a delete button per card that
    filters the stored collection. The card classes of both dashboards are
    here too. */
module Legacy {
  import opened Journal
  import opened Store
  import opened Query
  import opened Repo

  /** The older dashboard's card class: `'card'`, plus `' peach'` for the
      peach background. */
  function LegacyCardClass(background: string): (r: string)
    ensures r == "card peach" <==> background == "peach"
    ensures r != "card peach" ==> r == "card"
  {
    "card" + (if background == "peach" then " peach" else "")
  }

  /** The newer dashboard's card class (entries.js): peach, light blue and
      dark backgrounds each add their class; any other is a plain card. */
  function CardClass(background: string): (r: string)
    ensures r == "card peach" <==> background == "peach"
    ensures r == "card light-blue" <==> background == "light-blue"
    ensures r == "card dark" <==> background == "dark"
    ensures r == "card" <==> background !in {"peach", "light-blue", "dark"}
  {
    var extra :=
      if background == "peach" then " peach"
      else if background == "light-blue" then " light-blue"
      else if background == "dark" then " dark"
      else "";
    var r := "card" + extra;
    assert r == "card" <==> extra == "" by {
      if extra != "" {
        assert |r| > 4;
      }
    }
    assert r[4..] == extra;
    r
  }

  /** The two dashboards dress a card alike unless its background is one of
      the two the older one does not know. */
  lemma CardClassesAgree(background: string)
    requires background != "light-blue" && background != "dark"
    ensures LegacyCardClass(background) == CardClass(background)
  {
  }

  /** `new Date(b.date) - new Date(a.date)` as the sort uses it: an invalid
      date makes the difference NaN, which the sort reads as 0. */
  function NewestFirst(a: Entry, b: Entry, parse: DateParser): (d: int)
    ensures !HasValidDate(a, parse) || !HasValidDate(b, parse) ==> d == 0
    ensures d < 0 ==> Time(a, parse) > Time(b, parse)
    ensures d > 0 ==> Time(a, parse) < Time(b, parse)
  {
    match (parse(a.date), parse(b.date))
    case (Valid(_, ta), Valid(_, tb)) => tb - ta
    case _ => 0
  }

  /** The older comparator is the newer dashboard's newest-first one. */
  lemma NewestFirstIsCompare(a: Entry, b: Entry, parse: DateParser)
    ensures NewestFirst(a, b, parse) == Compare(a, b, Newest, parse)
  {
  }

  /** `renderEntries`: the cards in the order they are shown, the stored
      collection being sorted on a copy and left as it was. An empty
      collection shows a message and no cards. */
  method RenderEntries(store: EntryStore, parse: DateParser) returns (cards: seq<Entry>)
    ensures multiset(cards) == multiset(store.entries)
    ensures AllDatesValid(store.entries, parse) ==> Ordered(cards, Newest, parse)
    ensures store.entries == [] ==> cards == []
  {
    var entries := store.entries;
    if |entries| == 0 {
      return [];
    }
    cards := SortByDate(entries, Newest, parse);
  }

  /** A card's delete button: the entries with a different id are saved,
      even when none had the card's id. */
  method DeleteCard(store: EntryStore, entryId: EntryId)
    modifies store
    ensures store.entries == RemoveId(old(store.entries), entryId)
    ensures store.writes == old(store.writes) + 1
  {
    var allEntries := store.entries;
    var updatedEntries := RemoveId(allEntries, entryId);
    store.Save(updatedEntries);
  }
}
