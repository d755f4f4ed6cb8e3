/** The mood summary panel's numbers (`showMoodSummary` in entries.js): a
    `reduce` that counts entries per mood into an object, listed in the
    order its keys were first inserted. */
module Moods {
  import opened Wrappers
  import opened Journal

  /** One `mood: count` line of the panel. */
  datatype MoodCount = MoodCount(mood: string, count: nat)

  /** `entry.mood || 'Unknown'`. */
  function MoodKey(e: Entry): (k: string)
    ensures k != ""
    ensures e.mood != "" ==> k == e.mood
    ensures e.mood == "" ==> k == "Unknown"
  {
    if e.mood == "" then "Unknown" else e.mood
  }

  /** The moods listed, in order (`Object.keys`). */
  function Keys(t: seq<MoodCount>): seq<string>
    decreases |t|
  {
    if t == [] then [] else [t[0].mood] + Keys(t[1..])
  }

  /** No mood is listed twice. */
  predicate DistinctKeys(t: seq<MoodCount>)
    decreases |t|
  {
    t == [] || (t[0].mood !in Keys(t[1..]) && DistinctKeys(t[1..]))
  }

  predicate AllPositive(t: seq<MoodCount>)
  {
    forall i :: 0 <= i < |t| ==> t[i].count >= 1
  }

  /** `acc[key] || 0`: the count listed for `k`, 0 when it is not listed. */
  function CountOf(t: seq<MoodCount>, k: string): nat
    decreases |t|
  {
    if t == [] then 0 else if t[0].mood == k then t[0].count else CountOf(t[1..], k)
  }

  function Total(t: seq<MoodCount>): nat
    decreases |t|
  {
    if t == [] then 0 else t[0].count + Total(t[1..])
  }

  /** How many entries fall under mood key `k`. */
  function Occurrences(s: seq<Entry>, k: string): nat
    decreases |s|
  {
    if s == [] then 0
    else Occurrences(s[..|s| - 1], k) + (if MoodKey(s[|s| - 1]) == k then 1 else 0)
  }

  /** `acc[key] = (acc[key] || 0) + 1` on the listed counts: the first line
      for `k` goes up by one, or a line `k: 1` is added last. */
  function Bump(t: seq<MoodCount>, k: string): (r: seq<MoodCount>)
    ensures |t| <= |r| <= |t| + 1
    ensures k !in Keys(t) ==> r == t + [MoodCount(k, 1)]
    decreases |t|
  {
    if t == [] then [MoodCount(k, 1)]
    else if t[0].mood == k then [MoodCount(k, t[0].count + 1)] + t[1..]
    else
      assert t == [t[0]] + t[1..];
      [t[0]] + Bump(t[1..], k)
  }

  lemma {:induction false} BumpKeys(t: seq<MoodCount>, k: string)
    ensures Keys(Bump(t, k)) == if k in Keys(t) then Keys(t) else Keys(t) + [k]
    decreases |t|
  {
    if t != [] && t[0].mood != k {
      BumpKeys(t[1..], k);
      assert Bump(t, k)[1..] == Bump(t[1..], k);
    }
  }

  lemma {:induction false} BumpCountOf(t: seq<MoodCount>, k: string)
    ensures forall j :: CountOf(Bump(t, k), j) == CountOf(t, j) + (if j == k then 1 else 0)
    decreases |t|
  {
    if t != [] && t[0].mood != k {
      BumpCountOf(t[1..], k);
      assert Bump(t, k)[1..] == Bump(t[1..], k);
    }
  }

  lemma {:induction false} BumpTotal(t: seq<MoodCount>, k: string)
    ensures Total(Bump(t, k)) == Total(t) + 1
    decreases |t|
  {
    if t != [] && t[0].mood != k {
      BumpTotal(t[1..], k);
      assert Bump(t, k)[1..] == Bump(t[1..], k);
    } else if t != [] {
      assert Bump(t, k)[1..] == t[1..];
    }
  }

  lemma {:induction false} BumpDistinct(t: seq<MoodCount>, k: string)
    requires DistinctKeys(t)
    ensures DistinctKeys(Bump(t, k))
    decreases |t|
  {
    if t != [] {
      var r := Bump(t, k);
      if t[0].mood == k {
        assert r[1..] == t[1..];
      } else {
        BumpDistinct(t[1..], k);
        BumpKeys(t[1..], k);
        assert r[1..] == Bump(t[1..], k);
      }
    }
  }

  lemma {:induction false} BumpPositive(t: seq<MoodCount>, k: string)
    requires AllPositive(t)
    ensures AllPositive(Bump(t, k))
    decreases |t|
  {
    if t != [] && t[0].mood != k {
      BumpPositive(t[1..], k);
      var r := Bump(t, k);
      assert r == [t[0]] + Bump(t[1..], k);
      assert forall i :: 1 <= i < |r| ==> r[i] == Bump(t[1..], k)[i - 1];
    }
  }

  /** With positive counts, a mood is listed exactly when its count is
      positive. */
  lemma {:induction false} ListedIffCounted(t: seq<MoodCount>, k: string)
    requires AllPositive(t)
    ensures k in Keys(t) <==> CountOf(t, k) > 0
    decreases |t|
  {
    if t != [] {
      assert t[0].count >= 1;
      if t[0].mood != k {
        assert AllPositive(t[1..]) by {
          forall i | 0 <= i < |t| - 1 ensures t[1..][i].count >= 1 {
            assert t[1..][i] == t[i + 1];
          }
        }
        ListedIffCounted(t[1..], k);
      }
    }
  }

  /** The reduce over all entries: each mood key listed once, with a count of
      at least one that is exactly its number of entries, and counts adding
      up to the number of entries. */
  function Tally(s: seq<Entry>): (r: seq<MoodCount>)
    ensures DistinctKeys(r)
    ensures AllPositive(r)
    ensures Total(r) == |s|
    ensures forall k :: CountOf(r, k) == Occurrences(s, k)
    decreases |s|
  {
    if s == [] then []
    else
      var prev := Tally(s[..|s| - 1]);
      var k := MoodKey(s[|s| - 1]);
      BumpDistinct(prev, k);
      BumpPositive(prev, k);
      BumpTotal(prev, k);
      BumpCountOf(prev, k);
      Bump(prev, k)
  }

  /** A mood is listed exactly when some entry has it. */
  lemma TallyListsEveryMood(s: seq<Entry>, k: string)
    ensures k in Keys(Tally(s)) <==> Occurrences(s, k) > 0
  {
    ListedIffCounted(Tally(s), k);
  }

  /** Each listed line gives its mood's count. */
  lemma {:induction false} CountOfListed(t: seq<MoodCount>, i: nat)
    requires DistinctKeys(t) && i < |t|
    ensures CountOf(t, t[i].mood) == t[i].count
    decreases i
  {
    if i > 0 {
      CountOfListed(t[1..], i - 1);
      KeysAt(t[1..], i - 1);
    }
  }

  lemma {:induction false} KeysAt(t: seq<MoodCount>, i: nat)
    requires i < |t|
    ensures t[i].mood in Keys(t)
    decreases i
  {
    if i > 0 {
      KeysAt(t[1..], i - 1);
    }
  }

  /** The panel: nothing for an empty journal (an alert is shown instead),
      otherwise the tally. */
  function MoodSummary(s: seq<Entry>): (r: Option<seq<MoodCount>>)
    ensures r.None? <==> s == []
    ensures r.Some? ==> r.value != [] && Total(r.value) == |s|
  {
    if |s| == 0 then None else Some(Tally(s))
  }
}
