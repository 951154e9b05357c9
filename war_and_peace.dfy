/**
 Word-frequency counting and ranking of the `WarAndPeace` program: the words of a
 text are folded into a map from word to occurrence count, the map's entries are
 sorted ascending by count, and the ten most used (TOP) and ten least used (LAST)
 entries are selected from the two ends of the sorted list.
 */
module WarAndPeace {

  /** One entry of the count map: a word and the number of times it was seen. */
  type Entry = (string, int)

  /** Number of occurrences of `w` in `words`, counted from the end of the sequence. */
  function Occurrences(words: seq<string>, w: string): (n: nat)
    ensures n <= |words|
  {
    if words == [] then 0
    else Occurrences(words[..|words| - 1], w) + (if words[|words| - 1] == w then 1 else 0)
  }

  /** The occurrence count is the multiplicity of the word in the word stream. */
  lemma {:induction false} OccurrencesIsMultiplicity(words: seq<string>, w: string)
    ensures Occurrences(words, w) == multiset(words)[w]
    ensures Occurrences(words, w) > 0 <==> w in words
  {
    if words != [] {
      var init, last := words[..|words| - 1], words[|words| - 1];
      OccurrencesIsMultiplicity(init, w);
      assert words == init + [last];
    }
  }

  /**
   The word callback: `put(word, getOrDefault(word, 0) + 1)`. Only the entry of
   `word` changes; it is created with count 1 or incremented.
   */
  function Tally(counts: map<string, int>, word: string): (r: map<string, int>)
    ensures r.Keys == counts.Keys + {word}
    ensures word in counts ==> r[word] == counts[word] + 1
    ensures word !in counts ==> r[word] == 1
    ensures forall w :: w in counts && w != word ==> r[w] == counts[w]
  {
    counts[word := (if word in counts then counts[word] else 0) + 1]
  }

  /** The count map after the callback has seen every word of `words`, in order. */
  function CountsOf(words: seq<string>): map<string, int>
  {
    if words == [] then map[] else Tally(CountsOf(words[..|words| - 1]), words[|words| - 1])
  }

  /**
   After the fold, the keys are exactly the distinct words seen and every stored
   count is the word's number of occurrences, hence at least 1.
   */
  lemma {:induction false} CountsOfOccurrences(words: seq<string>)
    ensures forall w :: w in CountsOf(words) <==> w in words
    ensures forall w :: w in CountsOf(words) ==> CountsOf(words)[w] == Occurrences(words, w) >= 1
  {
    if words != [] {
      var init, last := words[..|words| - 1], words[|words| - 1];
      CountsOfOccurrences(init);
      assert words == init + [last];
      forall w | w in CountsOf(words)
        ensures CountsOf(words)[w] == Occurrences(words, w)
      {
        OccurrencesIsMultiplicity(init, w);
        assert Occurrences(words, w) == Occurrences(init, w) + (if last == w then 1 else 0);
      }
    }
  }

  /** The counting loop of `main`: every word of the stream goes through `Tally`. */
  method CountWords(words: seq<string>) returns (counts: map<string, int>)
    ensures counts == CountsOf(words)
    ensures forall w :: w in counts <==> w in words
    ensures forall w :: w in counts ==> counts[w] == Occurrences(words, w) >= 1
  {
    counts := map[];
    var i := 0;
    while i < |words|
      invariant 0 <= i <= |words|
      invariant counts == CountsOf(words[..i])
    {
      assert words[..i + 1][..i] == words[..i];
      counts := Tally(counts, words[i]);
      i := i + 1;
    }
    assert words[..|words|] == words;
    CountsOfOccurrences(words);
  }

  /** The list is in ascending order of counts (the `comparingByValue` order). */
  predicate SortedByCount(s: seq<Entry>)
  {
    forall i, j :: 0 <= i < j < |s| ==> s[i].1 <= s[j].1
  }

  /**
   Sorts a list of entries by count. It stands for the library's stable list sort;
   only the order and the permutation are promised.
   */
  method SortByCount(s: seq<Entry>) returns (r: seq<Entry>)
    ensures multiset(r) == multiset(s)
    ensures SortedByCount(r)
  {
    r := s;
    var i := 0;
    while i < |r|
      invariant 0 <= i <= |r| == |s|
      invariant multiset(r) == multiset(s)
      invariant forall a, b :: 0 <= a < b < i ==> r[a].1 <= r[b].1
      decreases |r| - i
    {
      r := Insert(r, i);
      i := i + 1;
    }
  }

  /**
   One insertion step: moves the entry at index `i` down into the sorted prefix
   `s[..i]` by swapping it with each larger predecessor.
   */
  method Insert(s: seq<Entry>, i: nat) returns (r: seq<Entry>)
    requires i < |s|
    requires forall a, b :: 0 <= a < b < i ==> s[a].1 <= s[b].1
    ensures |r| == |s| && multiset(r) == multiset(s)
    ensures forall a, b :: 0 <= a < b <= i ==> r[a].1 <= r[b].1
  {
    r := s;
    var j := i;
    while 0 < j && r[j].1 < r[j - 1].1
      invariant 0 <= j <= i < |r| == |s|
      invariant multiset(r) == multiset(s)
      invariant InsertionState(r, i, j)
    {
      SwapKeepsEntries(r, j);
      SwapKeepsInsertionState(r, i, j);
      r := r[j - 1 := r[j]][j := r[j - 1]];
      j := j - 1;
    }
    InsertionDone(r, i, j);
  }

  /**
   While entry `j` moves down: the entries up to `i` other than `j` are in order,
   and entry `j` is smaller than every entry after it.
   */
  predicate InsertionState(r: seq<Entry>, i: nat, j: nat)
    requires j <= i < |r|
  {
    && (forall a, b :: 0 <= a < b <= i && a != j && b != j ==> r[a].1 <= r[b].1)
    && (forall b :: j < b <= i ==> r[j].1 < r[b].1)
  }

  /** Swapping the moving entry with a larger predecessor keeps the insertion state. */
  lemma SwapKeepsInsertionState(r: seq<Entry>, i: nat, j: nat)
    requires 0 < j <= i < |r| && InsertionState(r, i, j) && r[j].1 < r[j - 1].1
    ensures InsertionState(r[j - 1 := r[j]][j := r[j - 1]], i, j - 1)
  {
  }

  /** Once the moving entry has no larger predecessor, the prefix up to `i` is in order. */
  lemma InsertionDone(r: seq<Entry>, i: nat, j: nat)
    requires j <= i < |r| && InsertionState(r, i, j) && (j == 0 || r[j - 1].1 <= r[j].1)
    ensures forall a, b :: 0 <= a < b <= i ==> r[a].1 <= r[b].1
  {
  }

  /** Exchanging two neighbours keeps the multiset of entries. */
  lemma SwapKeepsEntries(s: seq<Entry>, j: nat)
    requires 0 < j < |s|
    ensures multiset(s[j - 1 := s[j]][j := s[j - 1]]) == multiset(s)
  {
  }

  /**
   `mapSort`: copies the map's entries into a new list, in the map's (unspecified)
   iteration order, and sorts that list by count. The map is a value and is not
   changed. The result holds each (word, count) pair of the map exactly once.
   */
  method MapSort(m: map<string, int>) returns (sorted: seq<Entry>)
    ensures multiset(sorted) == multiset(m.Items)
    ensures |sorted| == |m|
    ensures SortedByCount(sorted)
  {
    var entries: seq<Entry> := [];
    var rest := m.Keys;
    while rest != {}
      invariant rest <= m.Keys
      invariant |entries| + |rest| == |m|
      invariant forall e :: multiset(entries)[e] == if e in m.Items && e.0 !in rest then 1 else 0
      decreases rest
    {
      var k :| k in rest;
      entries := entries + [(k, m[k])];
      rest := rest - {k};
    }
    assert multiset(entries) == multiset(m.Items);
    sorted := SortByCount(entries);
  }

  /** A pair occurs at two positions of a list only if the list counts it twice. */
  lemma RepeatedEntryCountsTwice(s: seq<Entry>, i: nat, j: nat)
    requires i < j < |s| && s[i] == s[j]
    ensures multiset(s)[s[i]] >= 2
  {
    assert s == s[..j] + [s[j]] + s[j + 1..];
    assert s[i] in s[..j];
  }

  /** A list holding the map's entries names every word at most once. */
  lemma {:induction false} EntriesHaveDistinctWords(m: map<string, int>, s: seq<Entry>)
    requires multiset(s) == multiset(m.Items)
    ensures forall i, j :: 0 <= i < j < |s| ==> s[i].0 != s[j].0
    ensures forall i :: 0 <= i < |s| ==> s[i].0 in m && m[s[i].0] == s[i].1
    ensures forall w :: w in m ==> (w, m[w]) in s
  {
    forall i | 0 <= i < |s|
      ensures s[i] in m.Items
    {
      assert s[i] in multiset(s);
    }
    forall i, j | 0 <= i < j < |s|
      ensures s[i].0 != s[j].0
    {
      if s[i].0 == s[j].0 {
        assert s[i] in m.Items && s[j] in m.Items;
        RepeatedEntryCountsTwice(s, i, j);
        assert false;
      }
    }
    forall w | w in m
      ensures (w, m[w]) in s
    {
      assert (w, m[w]) in m.Items;
      assert (w, m[w]) in multiset(s);
    }
  }

  /** The sequence in reverse order. */
  function Reversed(s: seq<Entry>): (r: seq<Entry>)
    ensures |r| == |s|
    ensures forall k :: 0 <= k < |s| ==> r[k] == s[|s| - 1 - k]
  {
    if s == [] then [] else Reversed(s[1..]) + [s[0]]
  }

  /** Reversing a list keeps its members. */
  lemma ReversedMembers(s: seq<Entry>)
    ensures forall e :: e in Reversed(s) <==> e in s
  {
  }

  /**
   What a listing loop printed: all of it, or the entries printed before
   `get(index)` raised `IndexOutOfBoundsException`.
   */
  datatype Listing = Complete(entries: seq<Entry>) | IndexOutOfBounds(shown: seq<Entry>, index: int)

  /**
   `lastWords`: the entries at indices 0 to 9, which in an ascending list are the
   ten lowest counts. With fewer than ten entries, `get(|words|)` fails after the
   whole list was printed.
   */
  method LastWords(words: seq<Entry>) returns (r: Listing)
    ensures |words| >= 10 ==> r == Complete(words[..10])
    ensures |words| < 10 ==> r == IndexOutOfBounds(words, |words|)
    ensures SortedByCount(words) && r.Complete? ==>
      forall e, k :: e in words && e !in r.entries && 0 <= k < 10 ==> r.entries[k].1 <= e.1
  {
    var shown: seq<Entry> := [];
    var i := 0;
    while i < 10
      invariant 0 <= i <= 10 && i <= |words|
      invariant shown == words[..i]
    {
      if i >= |words| {
        assert words[..i] == words;
        return IndexOutOfBounds(shown, i);
      }
      shown := shown + [words[i]];
      i := i + 1;
    }
    r := Complete(shown);
    if SortedByCount(words) {
      LastIsLowest(words);
    }
  }

  /**
   In an ascending list, the first ten entries are at most as large as every entry
   outside them.
   */
  lemma LastIsLowest(words: seq<Entry>)
    requires SortedByCount(words) && |words| >= 10
    ensures forall e, k :: e in words && e !in words[..10] && 0 <= k < 10 ==> words[k].1 <= e.1
  {
  }

  /**
   `topWords`: the entries at indices size-1 down to size-10, which in an ascending
   list are the ten highest counts, highest first. With fewer than ten entries the
   whole list is printed in reverse and `get(-1)` fails.
   */
  method TopWords(words: seq<Entry>) returns (r: Listing)
    ensures |words| >= 10 ==> (
      && r.Complete? && |r.entries| == 10
      && forall k :: 0 <= k < 10 ==> r.entries[k] == words[|words| - 1 - k])
    ensures |words| < 10 ==> r.IndexOutOfBounds? && r.index == -1 && r.shown == Reversed(words)
    ensures SortedByCount(words) && r.Complete? ==>
      (forall k, l :: 0 <= k < l < 10 ==> r.entries[k].1 >= r.entries[l].1) &&
      (forall e, k :: e in words && e !in r.entries && 0 <= k < 10 ==> e.1 <= r.entries[k].1)
  {
    var shown: seq<Entry> := [];
    var i := |words| - 1;
    while i > |words| - 11
      invariant -1 <= i && |words| - 11 <= i <= |words| - 1
      invariant shown == Reversed(words[i + 1..])
    {
      if i < 0 {
        assert words[i + 1..] == words;
        return IndexOutOfBounds(shown, i);
      }
      assert words[i..][1..] == words[i + 1..];
      shown := shown + [words[i]];
      i := i - 1;
    }
    r := Complete(shown);
    if SortedByCount(words) {
      TopIsHighest(words, shown);
    }
  }

  /**
   In an ascending list, the last ten entries read backwards are non-increasing
   and at least as large as every entry outside them.
   */
  lemma TopIsHighest(words: seq<Entry>, top: seq<Entry>)
    requires SortedByCount(words) && |words| >= 10
    requires |top| == 10 && forall k :: 0 <= k < 10 ==> top[k] == words[|words| - 1 - k]
    ensures forall k, l :: 0 <= k < l < 10 ==> top[k].1 >= top[l].1
    ensures forall e, k :: e in words && e !in top && 0 <= k < 10 ==> e.1 <= top[k].1
  {
    var n := |words|;
    forall j | n - 10 <= j < n
      ensures words[j] in top
    {
      assert top[n - 1 - j] == words[j];
    }
    forall e, k | e in words && e !in top && 0 <= k < 10
      ensures e.1 <= top[k].1
    {
      var j :| 0 <= j < n && words[j] == e;
    }
  }

  /** `e` pairs a word of the stream with its number of occurrences. */
  predicate Counted(words: seq<string>, e: Entry)
  {
    e.0 in words && e.1 == Occurrences(words, e.0)
  }

  /** The sorted list of the count map's entries pairs every word with its count. */
  lemma SortedEntriesAreCounted(words: seq<string>, counts: map<string, int>, sorted: seq<Entry>)
    requires forall w :: w in counts <==> w in words
    requires forall w :: w in counts ==> counts[w] == Occurrences(words, w)
    requires multiset(sorted) == multiset(counts.Items)
    ensures forall e :: e in sorted <==> Counted(words, e)
  {
    forall e | e in sorted
      ensures Counted(words, e)
    {
      assert e in multiset(sorted);
    }
    forall e | Counted(words, e)
      ensures e in sorted
    {
      assert e in counts.Items;
      assert e in multiset(sorted);
    }
  }

  /**
   `top` holds ten (word, count) pairs of the stream for ten different words,
   highest count first, and no pair left out has a higher count than any pair in it.
   */
  ghost predicate IsTopTen(words: seq<string>, top: seq<Entry>)
  {
    && |top| == 10
    && (forall k :: 0 <= k < 10 ==> Counted(words, top[k]))
    && (forall k, l :: 0 <= k < l < 10 ==> top[k].0 != top[l].0)
    && (forall k, l :: 0 <= k < l < 10 ==> top[k].1 >= top[l].1)
    && (forall e, k :: Counted(words, e) && e !in top && 0 <= k < 10 ==> e.1 <= top[k].1)
  }

  /**
   `last` holds ten (word, count) pairs of the stream for ten different words,
   lowest count first, and no pair left out has a lower count than any pair in it.
   */
  ghost predicate IsLastTen(words: seq<string>, last: seq<Entry>)
  {
    && |last| == 10
    && (forall k :: 0 <= k < 10 ==> Counted(words, last[k]))
    && (forall k, l :: 0 <= k < l < 10 ==> last[k].0 != last[l].0)
    && (forall k, l :: 0 <= k < l < 10 ==> last[k].1 <= last[l].1)
    && (forall e, k :: Counted(words, e) && e !in last && 0 <= k < 10 ==> last[k].1 <= e.1)
  }

  /** Taken from the end of the ascending list of all counted pairs, the TOP ten are extreme. */
  lemma TopSelectionIsExtreme(words: seq<string>, sorted: seq<Entry>, top: seq<Entry>)
    requires forall e :: e in sorted <==> Counted(words, e)
    requires forall i, j :: 0 <= i < j < |sorted| ==> sorted[i].0 != sorted[j].0
    requires SortedByCount(sorted) && |sorted| >= 10
    requires |top| == 10 && forall k :: 0 <= k < 10 ==> top[k] == sorted[|sorted| - 1 - k]
    ensures IsTopTen(words, top)
  {
    TopIsHighest(sorted, top);
    assert forall k :: 0 <= k < 10 ==> top[k] in sorted;
  }

  /** Taken from the start of the ascending list of all counted pairs, the LAST ten are extreme. */
  lemma LastSelectionIsExtreme(words: seq<string>, sorted: seq<Entry>)
    requires forall e :: e in sorted <==> Counted(words, e)
    requires forall i, j :: 0 <= i < j < |sorted| ==> sorted[i].0 != sorted[j].0
    requires SortedByCount(sorted) && |sorted| >= 10
    ensures IsLastTen(words, sorted[..10])
  {
  }

  /**
   What `main` produces from a word stream: the TOP and LAST listings, or, when
   fewer than ten distinct words were seen, the entries `topWords` printed before
   it failed (`lastWords` is then never reached).
   */
  datatype Outcome = Ranked(top: seq<Entry>, last: seq<Entry>) | TopFailed(shown: seq<Entry>)

  /**
   `main` without the file reading and printing: count, sort, then select TOP and
   LAST. Each selection names ten different words, and every selected entry carries
   its word's true occurrence count; the TOP
   counts are at least, and the LAST counts at most, those of every word not
   selected.
   */
  method Rank(words: seq<string>) returns (r: Outcome)
    ensures r.Ranked? <==> |CountsOf(words)| >= 10
    ensures r.Ranked? ==> IsTopTen(words, r.top) && IsLastTen(words, r.last)
    ensures r.TopFailed? ==> (
      && |r.shown| == |CountsOf(words)|
      && (forall e :: e in r.shown <==> Counted(words, e))
      && (forall k, l :: 0 <= k < l < |r.shown| ==> r.shown[k].0 != r.shown[l].0)
      && (forall k, l :: 0 <= k < l < |r.shown| ==> r.shown[k].1 >= r.shown[l].1))
  {
    var counts := CountWords(words);
    var sorted := MapSort(counts);
    SortedEntriesAreCounted(words, counts, sorted);
    EntriesHaveDistinctWords(counts, sorted);
    var top := TopWords(sorted);
    if top.IndexOutOfBounds? {
      ReversedMembers(sorted);
      return TopFailed(top.shown);
    }
    var last := LastWords(sorted);
    TopSelectionIsExtreme(words, sorted, top.entries);
    LastSelectionIsExtreme(words, sorted);
    r := Ranked(top.entries, last.entries);
  }
}
