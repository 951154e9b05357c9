# Collection exercises: word ranking and duplicate users

This project models two single-threaded routines from a Java collections
exercise repository and proves properties of the models.

**Word frequencies (`WarAndPeace`, module `WarAndPeace` in `war_and_peace.dfy`).**
`main` passes every word of a text to a callback. The callback stores
`getOrDefault(word, 0) + 1` in a `HashMap<String, Integer>`. `mapSort` copies
the map's entries into a list and sorts the list ascending by count. `topWords`
prints the entries at indices `size-1` down to `size-10`, which are the ten most
frequent. `lastWords` prints the entries at indices `0` to `9`, which are the ten
least frequent. In the model, the word stream is a `seq<string>` and the map is a
`map<string, int>`. The sorted list is a `seq<(string, int)>`. The two selections
return what they would print. When the list has fewer than ten entries,
`List.get` throws `IndexOutOfBoundsException` after the whole list was printed:
`lastWords` prints it in order and fails at index `size`, and `topWords` prints it
in reverse and fails at index `-1`. The model returns
this failure as the `Listing.IndexOutOfBounds` case, together with what had been
printed. `Rank` chains the steps as `main` does, for a single run of `main`. If `topWords` fails, `lastWords`
is never reached.

**Duplicate users (`Task2`, module `Task2` in `task2.dfy`).** `User` is a
datatype. Two users are equal when all three fields are equal: `username`,
`email` and `passwordHash`. `findDuplicates` copies `collA` into a `HashSet` and
calls `retainAll(collB)` on it. It then appends the remaining users to a static
`duplicates` list and returns that list. The list is never cleared, so results
accumulate across calls. The class `Accumulator` stands for that static state:
`FindDuplicates` extends its `duplicates` field and returns the new value. The
users appended by one call are some permutation of the intersection, because
`HashSet` iteration order is unspecified.

## Model

| member | source | states |
|---|---|---|
| `WarAndPeace.OccurrencesIsMultiplicity` | src/main/java/ru/naumen/collection/task3/WarAndPeace.java:32-35 | the counted occurrences equal the word's multiplicity in the stream, and are positive exactly for words of the stream |
| `WarAndPeace.Tally` | src/main/java/ru/naumen/collection/task3/WarAndPeace.java:34 | one callback adds the word as a key, creates its entry with count 1 or increments it, and leaves every other entry unchanged |
| `WarAndPeace.CountsOfOccurrences` | src/main/java/ru/naumen/collection/task3/WarAndPeace.java:32-35 | after all words are processed, the keys are exactly the distinct words seen, and each count equals the word's occurrences, which is at least 1 |
| `WarAndPeace.CountWords` | src/main/java/ru/naumen/collection/task3/WarAndPeace.java:32-35 | the counting loop yields the fold of the callback over the stream: keys are the words seen, counts are occurrence counts |
| `WarAndPeace.SortByCount` | src/main/java/ru/naumen/collection/task3/WarAndPeace.java:50 | sorting by value returns a permutation of the list in non-decreasing order of count |
| `WarAndPeace.MapSort` | src/main/java/ru/naumen/collection/task3/WarAndPeace.java:48-53 | the result is, as a multiset, exactly the map's entry set: one element per map entry, ordered non-decreasing by count; the map is not changed |
| `WarAndPeace.EntriesHaveDistinctWords` | src/main/java/ru/naumen/collection/task3/WarAndPeace.java:49 | a list holding the map's entries names each word once, pairs it with its stored count, and contains every entry of the map |
| `WarAndPeace.LastWords` | src/main/java/ru/naumen/collection/task3/WarAndPeace.java:58-64 | with at least 10 entries it selects indices 0..9. Otherwise get fails at index size after the whole list was printed. On an ascending list, each selected count is at most every count not selected |
| `WarAndPeace.LastIsLowest` | src/main/java/ru/naumen/collection/task3/WarAndPeace.java:58-62 | in an ascending list, the first ten entries are no larger than any entry outside them |
| `WarAndPeace.TopWords` | src/main/java/ru/naumen/collection/task3/WarAndPeace.java:69-75 | with at least 10 entries it selects indices size-1 down to size-10. Otherwise get fails at index -1 after the list was printed in reverse. On an ascending list, the selection is non-increasing and each selected count is at least every count not selected |
| `WarAndPeace.TopIsHighest` | src/main/java/ru/naumen/collection/task3/WarAndPeace.java:69-72 | in an ascending list, the last ten entries read backwards are non-increasing and no smaller than any entry outside them |
| `WarAndPeace.SortedEntriesAreCounted` | src/main/java/ru/naumen/collection/task3/WarAndPeace.java:32-36 | the sorted list of the count map holds exactly the pairs of a word of the stream with its number of occurrences |
| `WarAndPeace.TopSelectionIsExtreme` | src/main/java/ru/naumen/collection/task3/WarAndPeace.java:36-38 | the TOP selection from the sorted counts holds ten true (word, count) pairs for ten different words, highest first; no pair left out has a higher count |
| `WarAndPeace.LastSelectionIsExtreme` | src/main/java/ru/naumen/collection/task3/WarAndPeace.java:36-39 | the LAST selection from the sorted counts holds ten true (word, count) pairs for ten different words, lowest first; no pair left out has a lower count |
| `WarAndPeace.Rank` | src/main/java/ru/naumen/collection/task3/WarAndPeace.java:28-41 | TOP and LAST are produced exactly when at least 10 distinct words were seen, and each names ten different words and is extreme as above. Otherwise topWords fails after printing every (word, count) pair of the stream, each word once, highest first |
| `Task2.EnumerationSize` | src/main/java/ru/naumen/collection/task2/Task2.java:54 | a duplicate-free list of exactly the members of a set is as long as the set |
| `Task2.RetainAll` | src/main/java/ru/naumen/collection/task2/Task2.java:48-49 | the set keeps exactly the users that are also in collB |
| `Task2.AppendAll` | src/main/java/ru/naumen/collection/task2/Task2.java:54 | addAll keeps the old list as a prefix and appends each member of the set exactly once, growing the list by the set's size |
| `Task2.Accumulator.constructor` | src/main/java/ru/naumen/collection/task2/Task2.java:35 | the static list starts empty |
| `Task2.Accumulator.FindDuplicates` | src/main/java/ru/naumen/collection/task2/Task2.java:40-57 | earlier contents stay an unchanged prefix. The list grows by the number of users common to both collections. The appended users are pairwise distinct and are exactly the users in both collA and collB. The returned list equals the state after the call |

## Left out

- The concurrent calculation manager (`task4/ConcurrentCalculationManager.java`) is not part of this model. It is a thin wrapper around a thread pool, futures and a concurrent queue, and its behaviour is about concurrency.
- `WordParser` (tokenisation and file reading) and the resource path constant are not part of this model. They are I/O. The words arrive as a `seq<string>`.
- Console output in `main`, `topWords` and `lastWords` is left out. The model returns the entries that would be printed.
- `HashMap` and `HashSet` hashing and iteration order are left out. The model copies map entries and set members in an order chosen by `:|`, so any order is allowed.
- WarAndPeace.SortByCount: does not promise that the sort is stable. Java's list sort keeps equal-count entries in their `entrySet` order, but that order is unspecified anyway.
- WarAndPeace.Tally: counts are unbounded integers. Java's `Integer` would wrap after 2^31-1 occurrences of one word.
- Task2.Accumulator.FindDuplicates: returns the list's value, not a shared reference. In the source, a caller's earlier result keeps growing when later calls append to the same `ArrayList`. The model shows this only through the `duplicates` field.
- The `User` class is not part of this model. Its equality is taken from the documented rule that all three fields must match. The datatype's structural equality implements that rule, including element-wise comparison of `passwordHash`.
- WarAndPeace.Rank: models one run of `main` starting from an empty map. `mapCount` is a static map that is never cleared, so a second `main` in the same JVM would add to the first run's counts. The model does not capture that accumulation.
- Task2.Accumulator.FindDuplicates: the collections and users cannot be `null`. In the source, a `null` collection makes `new HashSet<>(collA)` or `retainAll(collB)` throw `NullPointerException`, and a `null` user found in both collections is appended to the list. The model does not express either case.
- The complexity claims in the comments are not functional behaviour.
