# Word-mean and grep MapReduce jobs, modelled in Dafny

This project models the two Hadoop MapReduce jobs of alibook-bigdata, chapter 6.

- **WordMean** tokenizes every input line on whitespace. For each token it emits
  `(length, token.length())` and `(count, 1)`, where `length()` counts UTF-16
  code units. One summing reducer serves as both
  combiner and reducer. Afterwards `readAndCalcMean` reads the reducer's output
  file back and recovers the two totals.
- **Grep** emits `(file name, 1)` for every successive match of a regular
  expression in a line. Its reducer sums those ones per file.

Modules:

- `Numbers` covers Java's integer narrowing (`Wrap32`, `Wrap64`), `Long.parseLong`
  (`ParseLong`) and the decimal rendering of a long (`LongToString`).
- `Tokenizer` holds `java.util.StringTokenizer` with its default delimiters
  (space, tab, newline, carriage return, form feed). It has two parts: a
  specification function `Tokens`, and a class `StringTokenizer` whose
  `NextToken`/`HasMoreTokens` methods are proved against it.
- `MapReduce` describes the framework around the jobs:
  - the `Context` that collects the pairs a mapper or reducer emits;
  - the shuffle, as `Group` (the values of one key, in emission order) and
    `KeysOf`;
  - the reducers' 32-bit sum `IntSum`;
  - the per-key reduce phase `ReduceGroups`;
  - combiner runs, as traces of `Step`s (run the combiner on a contiguous
    stretch of pairs, or reorder them arbitrarily);
  - the text sink's `key TAB value` lines.
- `WordMean` holds the mapper and reducer classes and the reading loop of
  `readAndCalcMean`.
- `WordMeanJob` proves the word-mean job end to end.
- `Grep` holds the matcher, mapper, reducer and the grep job end to end.

## Design decisions

**Integer width.** Both reducers accumulate in a Java `int`.
- WordMean adds `long` values into it (`theSum += value.get()` is
  `(int)(theSum + value)`).
- Grep adds `int` values into it.

Both compute the exact sum wrapped to 32 bits (`IntSum`). Running the combiner is
therefore exactly transparent only modulo 2^32. The end-to-end lemmas state the
totals as `Wrap32` of the true counts.

**The regular-expression engine.** The engine itself is not modelled. It is a
`Searcher`: any forward searcher, that is, any function that, given the text
as UTF-16 code units and a start index, reports no match or some match that starts at or after the
index and lies inside the text. Every result about grep holds for every such
searcher; leftmost-match selection is not assumed. The `Matcher` class models
`Matcher.find`'s stepping over it, including the step past an empty match and
the state a failed search leaves behind. As in `java.util.regex`, the matcher
works on the line's code units (`Tokenizer.Utf16`), so match positions count
code units and the step past an empty match is one code unit. A literal-pattern
searcher (`LiteralSearcher`) and the empty pattern (`EmptyPattern`) are given
as concrete instances.

**Word lengths.** The mapper emits `String.length()` of each token, which counts
UTF-16 code units. `Tokenizer.Utf16Length` counts the same way: a character
beyond the Basic Multilingual Plane counts 2. The LENGTH totals are therefore
UTF-16 lengths of the non-delimiter text, and they equal character counts
exactly when the text stays within that plane (`Tokenizer.Utf16LengthBmp`).

**Where the code and the design description disagree, the model follows the code:**
- Grep counts matches per file, not matching lines: a line with k matches
  contributes k.
- The reducers do not compute unbounded integer sums: they narrow to 32 bits as
  above.
- The persisted lines are separated by a tab (Hadoop's text output format).
  The reader accepts any of StringTokenizer's delimiters there.
- For an empty corpus the reducer writes no line at all, rather than `count 0`.
  The reader then yields count 0 and length 0 (`WordMean.MissingKeyIsZero`,
  `WordMeanJob.WordMeanEndToEnd`).

## Model

| member | source | states |
|---|---|---|
| Numbers.Wrap32 | chapter6/wordmean/src/main/java/alibook/wordmean/WordMean.java:75 | the narrowing cast to int always lands in the int range and leaves in-range values unchanged |
| Numbers.Wrap64 | chapter6/wordmean/src/main/java/alibook/wordmean/WordMean.java:75 | the long addition always lands in the long range and leaves in-range values unchanged |
| Numbers.Wrap32OfWrap64 | chapter6/wordmean/src/main/java/alibook/wordmean/WordMean.java:75 | a long addition followed by the cast to int equals one 32-bit wrap of the exact sum |
| Numbers.Wrap32AddWrapped | chapter6/grep/src/main/java/alibook/grep/Grep.java:48 | adding to an accumulator that was already wrapped gives the wrap of the exact running sum |
| Numbers.Digits | chapter6/wordmean/src/main/java/alibook/wordmean/WordMean.java:119 | the decimal digits of a natural number are non-empty, all ASCII digits, and carry no leading zero |
| Numbers.LongToString | chapter6/wordmean/src/main/java/alibook/wordmean/WordMean.java:77-78 | the decimal text of a long is non-empty and consists of digits with at most a leading minus |
| Numbers.ParseLong | chapter6/wordmean/src/main/java/alibook/wordmean/WordMean.java:119 | Long.parseLong yields only values in the long range; it rejects the empty string; on failure it reports the offending string (NumberFormatException) |
| Numbers.DigitsRoundTrip | chapter6/wordmean/src/main/java/alibook/wordmean/WordMean.java:119 | reading back the digits of n gives n |
| Numbers.LongRoundTrip | chapter6/wordmean/src/main/java/alibook/wordmean/WordMean.java:119-122 | parsing the decimal text of any long gives that long back |
| Numbers.ParseLongRejects | chapter6/wordmean/src/main/java/alibook/wordmean/WordMean.java:119 | a non-digit character, other than a leading sign followed by more characters, makes parseLong fail |
| Tokenizer.WordLength | chapter6/wordmean/src/main/java/alibook/wordmean/WordMean.java:46-48 | a token runs up to the first delimiter: none of its characters is a delimiter, and the character after it is |
| Tokenizer.Tokens | chapter6/wordmean/src/main/java/alibook/wordmean/WordMean.java:46-48 | the tokens StringTokenizer hands out for a line, left to right: the maximal delimiter-free runs (its properties are the lemmas below) |
| Tokenizer.TokensAreWords | chapter6/wordmean/src/main/java/alibook/wordmean/WordMean.java:46-48 | every token is non-empty and free of delimiters |
| Tokenizer.NoTokensIffBlank | chapter6/wordmean/src/main/java/alibook/wordmean/WordMean.java:46-47 | a line yields no token exactly when it consists only of delimiters |
| Tokenizer.TokensCoverNonDelimiters | chapter6/wordmean/src/main/java/alibook/wordmean/WordMean.java:46-48 | the tokens, concatenated, are exactly the line's non-delimiter characters in order (nothing lost, nothing repeated) |
| Tokenizer.Utf16Length | chapter6/wordmean/src/main/java/alibook/wordmean/WordMean.java:48 | String.length() counts UTF-16 code units: at least one and at most two per character |
| Tokenizer.Utf16LengthAppend | chapter6/wordmean/src/main/java/alibook/wordmean/WordMean.java:48 | the length of a concatenation is the sum of the lengths |
| Tokenizer.Utf16LengthBmp | chapter6/wordmean/src/main/java/alibook/wordmean/WordMean.java:48 | within the Basic Multilingual Plane the length is the number of characters |
| Tokenizer.Utf16 | chapter6/grep/src/main/java/alibook/grep/Grep.java:31 | the code units of the line the matcher runs over, as many as String.length() |
| Tokenizer.Utf16RoundTrip | chapter6/grep/src/main/java/alibook/grep/Grep.java:31 | the code units of every string decode back to that string, so no information is lost |
| Tokenizer.Utf16Bmp | chapter6/grep/src/main/java/alibook/grep/Grep.java:31 | within the Basic Multilingual Plane the code units are the characters themselves |
| Tokenizer.ConcatLength | chapter6/wordmean/src/main/java/alibook/wordmean/WordMean.java:48 | the lengths of the tokens add up to the length of their concatenation |
| Tokenizer.TokenLengthsSum | chapter6/wordmean/src/main/java/alibook/wordmean/WordMean.java:48 | the tokens' String.length() values add up to the UTF-16 length of the line's non-delimiter characters |
| Tokenizer.TokensAppend | chapter6/wordmean/src/main/java/alibook/wordmean/WordMean.java:46 | tokenizing two texts separated by a delimiter boundary gives the tokens of each, in order |
| Tokenizer.WordTokens | chapter6/wordmean/src/main/java/alibook/wordmean/WordMean.java:115 | a delimiter-free non-empty word tokenizes to itself |
| Tokenizer.TokensOfJoin | chapter6/wordmean/src/main/java/alibook/wordmean/WordMean.java:112-122 | words joined by a delimiter tokenize back to the same words |
| Tokenizer.StringTokenizer.constructor | chapter6/wordmean/src/main/java/alibook/wordmean/WordMean.java:46 | a new tokenizer has all tokens of its string still to deliver |
| Tokenizer.StringTokenizer.HasMoreTokens | chapter6/wordmean/src/main/java/alibook/wordmean/WordMean.java:47 | true exactly when some token remains |
| Tokenizer.StringTokenizer.NextToken | chapter6/wordmean/src/main/java/alibook/wordmean/WordMean.java:48 | delivers the first remaining token and advances past it; with none left it fails (NoSuchElementException) and stays exhausted |
| MapReduce.Context.Write | chapter6/wordmean/src/main/java/alibook/wordmean/WordMean.java:49-50 | a write appends exactly the one pair and leaves the earlier ones untouched |
| MapReduce.IntSum | chapter6/wordmean/src/main/java/alibook/wordmean/WordMean.java:73-77 | the reducers' sum lies in the int range and equals the exact sum whenever that fits |
| MapReduce.SumOnes | chapter6/grep/src/main/java/alibook/grep/Grep.java:48 | n ones add up to n |
| MapReduce.IntSumOnes | chapter6/grep/src/main/java/alibook/grep/Grep.java:45-49 | summing n ones in an int gives n wrapped to 32 bits, and n itself below 2^31 |
| MapReduce.CombinerSafe | chapter6/wordmean/src/main/java/alibook/wordmean/WordMean.java:146-147 | reducing two partial reductions gives the same value as reducing all values at once |
| MapReduce.SumOfPermutation | chapter6/wordmean/src/main/java/alibook/wordmean/WordMean.java:74 | a sum over a sequence depends only on its multiset of elements |
| MapReduce.IntSumPermutation | chapter6/wordmean/src/main/java/alibook/wordmean/WordMean.java:74 | the reducers' result does not depend on the order values arrive in |
| MapReduce.EnumeratesSize | chapter6/wordmean/src/main/java/alibook/wordmean/WordMean.java:71 | a list naming each key once has as many entries as there are keys |
| MapReduce.Group | chapter6/wordmean/src/main/java/alibook/wordmean/WordMean.java:71 | the values the shuffle hands to the reducer call for one key, in emission order; never more values than pairs |
| MapReduce.KeysOf | chapter6/wordmean/src/main/java/alibook/wordmean/WordMean.java:71 | the keys the reduce phase runs for: empty exactly when nothing was emitted |
| MapReduce.GroupAppend | chapter6/wordmean/src/main/java/alibook/wordmean/WordMean.java:71 | the values of a key over two batches of pairs are those of the first batch followed by those of the second |
| MapReduce.GroupNonEmptyIff | chapter6/wordmean/src/main/java/alibook/wordmean/WordMean.java:71-78 | a key receives a non-empty value list exactly when some pair carries it |
| MapReduce.GroupsPartition | chapter6/wordmean/src/main/java/alibook/wordmean/WordMean.java:71 | over all keys, the groups together hold every emitted pair exactly once |
| MapReduce.GroupsPartitionAll | chapter6/wordmean/src/main/java/alibook/wordmean/WordMean.java:71 | same, for any duplicate-free key list that covers every emitted key |
| MapReduce.ReduceGroups | chapter6/wordmean/src/main/java/alibook/wordmean/WordMean.java:71-78 | the reduce phase: one reducer call per listed key, writing exactly one pair per key |
| MapReduce.ReduceGroupsAt | chapter6/wordmean/src/main/java/alibook/wordmean/WordMean.java:71-78 | the reduce phase writes, for the i-th key, that key with the int sum of its group |
| MapReduce.GroupOfReduceGroups | chapter6/wordmean/src/main/java/alibook/wordmean/WordMean.java:71-78 | after reducing, each listed key carries the single value that is its group's int sum; other keys carry nothing |
| MapReduce.KeysOfReduceGroups | chapter6/wordmean/src/main/java/alibook/wordmean/WordMean.java:71-78 | the reduced pairs carry exactly the listed keys |
| MapReduce.GroupAsSumOf | chapter6/wordmean/src/main/java/alibook/wordmean/WordMean.java:74 | a key's total is the sum over all pairs of the values that carry that key |
| MapReduce.ReorderKeepsTotals | chapter6/wordmean/src/main/java/alibook/wordmean/WordMean.java:147 | any reordering of the pairs (sort, merge) keeps the set of keys and every key's int total |
| MapReduce.CombineKeepsKeyTotal | chapter6/wordmean/src/main/java/alibook/wordmean/WordMean.java:147 | running the combiner on any contiguous stretch of pairs keeps a key's int total |
| MapReduce.CombineKeepsKeys | chapter6/wordmean/src/main/java/alibook/wordmean/WordMean.java:147 | running the combiner on any contiguous stretch keeps the set of keys |
| MapReduce.CombineKeepsTotals | chapter6/wordmean/src/main/java/alibook/wordmean/WordMean.java:147 | running the combiner on any contiguous stretch keeps the set of keys and every key's int total |
| MapReduce.RunKeepsTotals | chapter6/wordmean/src/main/java/alibook/wordmean/WordMean.java:146-147 | any sequence of combiner runs and reorderings keeps the keys and every key's int total |
| MapReduce.ReduceAfterCombining | chapter6/wordmean/src/main/java/alibook/wordmean/WordMean.java:146-147 | the final reduce output after any combiner runs equals the output without them |
| MapReduce.ReduceGroupsSame | chapter6/wordmean/src/main/java/alibook/wordmean/WordMean.java:146 | two pair lists with the same per-key totals reduce to the same output |
| MapReduce.SinkLines | chapter6/wordmean/src/main/java/alibook/wordmean/WordMean.java:78 | the sink writes one line per output pair |
| WordMean.MapTokensShape | chapter6/wordmean/src/main/java/alibook/wordmean/WordMean.java:47-51 | for each token, in order, the mapper emits (length, its String.length()) followed by (count, 1) |
| WordMean.MapTokensAt | chapter6/wordmean/src/main/java/alibook/wordmean/WordMean.java:48-50 | the pairs at 2i and 2i+1 are (length, String.length() of token i) and (count, 1) |
| WordMean.MapLineShape | chapter6/wordmean/src/main/java/alibook/wordmean/WordMean.java:44-52 | a line yields twice as many pairs as tokens, in token order, and nothing exactly when it is blank |
| WordMean.MapTokens | chapter6/wordmean/src/main/java/alibook/wordmean/WordMean.java:47-51 | the mapper's emissions for a sequence of tokens: two pairs per token |
| WordMean.MapLine | chapter6/wordmean/src/main/java/alibook/wordmean/WordMean.java:44-52 | the mapper's emissions for one line: two pairs per token of the line |
| WordMean.MapTokensGroups | chapter6/wordmean/src/main/java/alibook/wordmean/WordMean.java:48-50 | the count values are all ones, one per token; the length values add up to the tokens' String.length(); no other key is emitted |
| WordMean.MapLineSums | chapter6/wordmean/src/main/java/alibook/wordmean/WordMean.java:46-51 | a line's count values add up to its token count and its length values to the UTF-16 length of its non-delimiter characters |
| WordMean.SupplementaryCharLength | chapter6/wordmean/src/main/java/alibook/wordmean/WordMean.java:48 | a line holding one character beyond the Basic Multilingual Plane emits (length, 2) and (count, 1) |
| WordMean.WordMeanMapper.constructor | chapter6/wordmean/src/main/java/alibook/wordmean/WordMean.java:35 | the reusable length holder starts at 0 |
| WordMean.WordMeanMapper.Map | chapter6/wordmean/src/main/java/alibook/wordmean/WordMean.java:44-52 | map appends exactly the line's pairs to what the context holds |
| WordMean.WordMeanReducer.constructor | chapter6/wordmean/src/main/java/alibook/wordmean/WordMean.java:59 | the reusable sum holder starts at 0 |
| WordMean.WordMeanReducer.Reduce | chapter6/wordmean/src/main/java/alibook/wordmean/WordMean.java:71-79 | reduce sets the holder to the int sum of the values and writes (key, that sum) once |
| WordMean.ParseLine | chapter6/wordmean/src/main/java/alibook/wordmean/WordMean.java:112-123 | one iteration of the reading loop: a line sets a total only to the parsed value of its second token under its first token; NumberFormat names that token; a line is ignored exactly when its first token is another word |
| WordMean.Apply | chapter6/wordmean/src/main/java/alibook/wordmean/WordMean.java:117-123 | a parsed line replaces the total it names and keeps the other |
| WordMean.ReadFrom | chapter6/wordmean/src/main/java/alibook/wordmean/WordMean.java:111-124 | the read succeeds exactly when every line parses |
| WordMean.ReadCounts | chapter6/wordmean/src/main/java/alibook/wordmean/WordMean.java:107-124 | the reader never invents a total: each is 0 or was set by some line |
| WordMean.ReadFromOrigin | chapter6/wordmean/src/main/java/alibook/wordmean/WordMean.java:107-123 | after reading from any start, each total is the starting one or was set by some line |
| WordMean.ReadAndCalcMean | chapter6/wordmean/src/main/java/alibook/wordmean/WordMean.java:107-124 | the reading loop returns the last count and last length read (0 when absent), or the first exception a line throws |
| WordMean.ReadFromAppend | chapter6/wordmean/src/main/java/alibook/wordmean/WordMean.java:111-124 | reading two stretches of lines is reading the first and continuing from its totals, or its first exception |
| WordMean.ReadFailsAtFirstBadLine | chapter6/wordmean/src/main/java/alibook/wordmean/WordMean.java:111-123 | the read fails with exactly the exception of the first line that throws |
| WordMean.ReadKeepsUnsetTotals | chapter6/wordmean/src/main/java/alibook/wordmean/WordMean.java:107-123 | a total that no line sets keeps its starting value |
| WordMean.MissingKeyIsZero | chapter6/wordmean/src/main/java/alibook/wordmean/WordMean.java:107-108 | a missing count or length line reads as 0 |
| WordMean.LastLineWins | chapter6/wordmean/src/main/java/alibook/wordmean/WordMean.java:117-123 | the last line that sets a total decides its value |
| WordMean.SwapNeighbours | chapter6/wordmean/src/main/java/alibook/wordmean/WordMean.java:111-124 | swapping two adjacent lines that do not set the same total leaves the result unchanged (either key may come first) |
| WordMean.ParseLineByShape | chapter6/wordmean/src/main/java/alibook/wordmean/WordMean.java:115 | a blank line throws NoSuchElementException |
| WordMean.KeyWithoutValue | chapter6/wordmean/src/main/java/alibook/wordmean/WordMean.java:118-121 | a count or length key with only delimiters around it throws NoSuchElementException |
| WordMean.ParseKeyValueLine | chapter6/wordmean/src/main/java/alibook/wordmean/WordMean.java:112-123 | a line of key, delimiter and word sets count or length from the parsed word, and any other key is ignored |
| WordMeanJob.MapLinesAppend | chapter6/wordmean/src/main/java/alibook/wordmean/WordMean.java:44-52 | mapping two batches of lines emits the pairs of the first, then those of the second |
| WordMeanJob.SplitsDoNotMatter | chapter6/wordmean/src/main/java/alibook/wordmean/WordMean.java:44-52 | how the corpus is cut into splits does not change what the mappers emit altogether |
| WordMeanJob.MapLinesIsMapTokens | chapter6/wordmean/src/main/java/alibook/wordmean/WordMean.java:46-51 | mapping a corpus line by line equals mapping its tokens in one sequence |
| WordMeanJob.AllTokensLengths | chapter6/wordmean/src/main/java/alibook/wordmean/WordMean.java:48 | the corpus's token lengths add up to the UTF-16 length of its non-delimiter characters |
| WordMeanJob.CorpusGroups | chapter6/wordmean/src/main/java/alibook/wordmean/WordMean.java:44-52 | over a corpus, count values add up to its token count and length values to the UTF-16 length of its non-delimiter characters; both keys appear iff there is a token |
| WordMeanJob.SinkLineParses | chapter6/wordmean/src/main/java/alibook/wordmean/WordMean.java:77-78 | a persisted count or length line parses back to the same key and value |
| WordMeanJob.ReadBothTotals | chapter6/wordmean/src/main/java/alibook/wordmean/WordMean.java:111-124 | the two persisted lines, in either order, read back as the two totals |
| WordMeanJob.EnumerateBoth | chapter6/wordmean/src/main/java/alibook/wordmean/WordMean.java:26-27 | the reduce phase's keys are count and length, in one of the two orders |
| WordMeanJob.ReduceCorpus | chapter6/wordmean/src/main/java/alibook/wordmean/WordMean.java:71-79 | reducing a corpus's pairs and reading the output back gives its token count and the UTF-16 length of its non-delimiter text (32-bit); without tokens nothing is written |
| WordMeanJob.WordMeanEndToEnd | chapter6/wordmean/src/main/java/alibook/wordmean/WordMean.java:44-147 | for any split of the corpus and any combiner runs, the read-back count is the corpus's token count and the length is the UTF-16 length of its non-delimiter characters, both wrapped to 32 bits |
| WordMeanJob.ReadExample | chapter6/wordmean/src/main/java/alibook/wordmean/WordMean.java:111-124 | the tab-separated lines "length\t20" and "count\t4" read back as count 4 and length 20 in either order |
| Grep.MatchesInOrder | chapter6/grep/src/main/java/alibook/grep/Grep.java:33 | successive finds return matches inside the text, in increasing positions, without overlap |
| Grep.MatchesFrom | chapter6/grep/src/main/java/alibook/grep/Grep.java:33 | the matches successive finds report from a code-unit index: at most one per remaining search position |
| Grep.Matches | chapter6/grep/src/main/java/alibook/grep/Grep.java:33 | the matches the mapper loop reports for a line: at most one more than the line's String.length(), since positions count UTF-16 code units |
| Grep.Matcher.constructor | chapter6/grep/src/main/java/alibook/grep/Grep.java:31 | a new matcher runs over the line's UTF-16 code units and has all matches of the line still to deliver |
| Grep.Matcher.Find | chapter6/grep/src/main/java/alibook/grep/Grep.java:33 | find succeeds exactly when a match remains, consumes it and makes it the current match (first, last) (searching one code unit further after an empty match). On failure last is kept; first becomes -1 when a search ran and failed, and stays as it was when the search index was already past the end, as java.util.regex.Matcher does |
| Grep.StartAnchorFindsAgain | chapter6/grep/src/main/java/alibook/grep/Grep.java:33 | with ^ on "b", successive finds return true, false, true: a failed search leaves last in place, so the next find searches from there again |
| Grep.EmptyTextFindsOnce | chapter6/grep/src/main/java/alibook/grep/Grep.java:33 | with the empty pattern on "", successive finds return true, false, false: once the search index is past the end, find keeps failing |
| Grep.Map | chapter6/grep/src/main/java/alibook/grep/Grep.java:25-39 | map writes one (file name, 1) pair per match of the pattern in the line |
| Grep.Reduce | chapter6/grep/src/main/java/alibook/grep/Grep.java:43-52 | reduce writes the key with the int sum of its values, once |
| Grep.Emissions | chapter6/grep/src/main/java/alibook/grep/Grep.java:37 | a line with n matches emits n pairs |
| Grep.MapLine | chapter6/grep/src/main/java/alibook/grep/Grep.java:33-37 | a line emits one (file name, 1) pair per match |
| Grep.EmissionsGroups | chapter6/grep/src/main/java/alibook/grep/Grep.java:37 | those pairs all carry the file name with value 1 |
| Grep.MapLineGroups | chapter6/grep/src/main/java/alibook/grep/Grep.java:33-37 | a line emits as many ones for its file as it has matches, and nothing for any other key |
| Grep.GroupOfMapRecords | chapter6/grep/src/main/java/alibook/grep/Grep.java:25-39 | over all records, a file's values are one 1 per match across its lines |
| Grep.GrepEndToEnd | chapter6/grep/src/main/java/alibook/grep/Grep.java:25-52 | the job writes, for every file with at least one match and no other, the file's total number of matches (32-bit) |
| Grep.MatchTotalIsSumOf | chapter6/grep/src/main/java/alibook/grep/Grep.java:25-39 | a file's match total is the sum over the records of that file's per-line matches |
| Grep.MatchTotalOrderFree | chapter6/grep/src/main/java/alibook/grep/Grep.java:25-39 | a file's total does not depend on the order in which records are processed |
| Grep.FindLiteral | chapter6/grep/src/main/java/alibook/grep/Grep.java:30-33 | the literal searcher returns the leftmost occurrence of the pattern at or after the position |
| Grep.FooBarMatches | chapter6/grep/src/main/java/alibook/grep/Grep.java:33 | pattern foo finds one match in "foo bar" |
| Grep.FooFooMatches | chapter6/grep/src/main/java/alibook/grep/Grep.java:33 | pattern foo finds two matches in "foo foo" |
| Grep.EmptyMatchesPerCodeUnit | chapter6/grep/src/main/java/alibook/grep/Grep.java:33-37 | the empty pattern on a line of one character beyond the Basic Multilingual Plane matches at code units 0, 1 and 2, so the mapper writes three pairs |
| Grep.GrepExample | chapter6/grep/src/main/java/alibook/grep/Grep.java:25-52 | file a.txt with lines "foo bar" and "foo foo" and pattern foo gives a.txt 3 |

## Left out

- The `main` methods of both jobs (chapter6/wordmean/src/main/java/alibook/wordmean/WordMean.java:134-158, chapter6/grep/src/main/java/alibook/grep/Grep.java:55-78) are not modelled.
  They parse the command line, configure and submit the job, and set the exit
  code; all of that is framework wiring. The wiring of the reducer as
  combiner is modelled through `MapReduce.ReduceAfterCombining`.
- The file system part of `readAndCalcMean` is not modelled: locating
  `part-r-00000`, the "output not found" IOException, opening, decoding and
  closing the file. The model receives the file's lines as a sequence.
- The floating-point mean `length / count` and its printing (chapter6/wordmean/src/main/java/alibook/wordmean/WordMean.java:125-126) are
  not modelled. The model returns the two totals. A zero count, which Java
  turns into NaN or Infinity, is left to that unmodelled division.
- `Pattern.compile` and the regular-expression engine are not modelled, and
  neither is the PatternSyntaxException for a malformed pattern. A pattern is
  any `Searcher` (a forward searcher, as described above).
- The pattern string from the configuration and the file name from the input
  split are passed to `Grep.Map` as parameters.
- Scheduling, parallel tasks, spills, retries and the order in which the
  framework calls mappers and reducers are not modelled. The shuffle is
  specified by `Group`, and combiner activity by arbitrary `Step` traces.
- Strings are sequences of Unicode scalar values. A Java string holding an
  unpaired surrogate code unit cannot be represented. Every other string is,
  and its `String.length()` is `Tokenizer.Utf16Length`. Its code units, as the
  grep matcher sees them, are `Tokenizer.Utf16`.
- Numbers.ParseLong: accepts ASCII digits only. `Long.parseLong` also accepts
  other Unicode decimal digits, via `Character.digit`.
- The reuse of the `LongWritable`/`IntWritable` holders is not modelled.
  Each write stores the value as emitted, as Hadoop's serialization does.
- Tokenizer.StringTokenizer: does not model the JDK's cached delimiter
  position or delimiter sets other than the default.
- Grep.Matcher: does not model `reset`, groups, regions or the match-state
  exceptions. It keeps the stepping and the current match (`first`, `last`) that `find` sets.
- chapter4/memcached_test.c is not part of this model. It is an unrelated test
  program.
