# lazynlp deduplication core in Dafny

This project models the part of lazynlp that turns crawled text into a clean
corpus with no duplicates. It covers the following pieces:

- **Text clean-up** (`cleaner.py`): removing characters outside a class,
  collapsing runs of spaces, and joining lines into paragraphs.
- **Exact line deduplication** (`cleaner.py`): `dedup_lines` across several
  files, and `dedup_lines_from_new_file` against a set of original files.
- **N-gram counting and overlap scoring** (`analytics.py`): n-grams are
  inserted into a Bloom filter (`build_ngram`), and a file is scored by the
  fraction of its n-grams already in the filter (`estimate_overlap_bf`,
  `estimate_overlap`).
- **Near-duplicate file filtering** (`create.py`): `filter_files` visits the
  files largest first. It keeps a file when its overlap with the files kept
  so far is at most a threshold, and otherwise lists it as a duplicate.
- **The helpers these rely on** (`utils.py`): number and initial
  recognition, sorting files by size, file-name and raw-URL extraction,
  `sort_lines` and `dict_sorted_2_file`.
- **Three link helpers** (`crawl.py`): the Project Gutenberg Australia id of
  a link, merging the txt and html links so that each book appears once, and
  `to_skip`.

Each Python function is modelled in the same form as the source:

- **Pure helpers** become Dafny functions, with lemmas stating what they
  mean.
- **Read loops and counters** become methods with `while`/`for` loops. Each
  such method is proved equal to a specification function written over the
  prefixes of its input, and the properties are proved as lemmas about that
  function.
- **The Bloom filter** is a class that `add` updates in place.

Python exceptions are values. Every operation returns a `Result`, and its
`Err` case carries the exception the Python code would raise:

- `ValueError` for a bad granularity, and from `dedup_lines` when no
  input file has a line (`total == 0`);
- `UnboundLocalError` from `estimate_overlap_bf` when `header` is negative,
  so the `readline` loop never runs and `line` is never bound;
- `ZeroDivisionError` from the final ratios;
- `AttributeError` when a dictionary takes the place of the filter;
- `FileNotFoundError` for a missing path;
- `IndexError` from `id_[-1]`;
- `TypeError` from iterating `None`.

Files are a `FileSystem` map from path to `(size, lines)`.

## Model

| member | source | states |
|---|---|---|
| Utils.StrLessTotal | lazynlp/utils.py:90 | Python's string ordering, as `sorted` uses it, is irreflexive, transitive and total |
| Utils.IsInitial | lazynlp/utils.py:17-21 | the regex `^([a-z]\.)+?$` on the lowered token, as one or more letter-'.' pairs filling the whole token (a final newline allowed) |
| Utils.IsInitialCaseInsensitive | lazynlp/utils.py:17-21 | recognising an initial ignores case, and an accepted token has at least two characters ("x.") |
| Utils.IsInitialAccepts | lazynlp/utils.py:21 | "J.", "j.R.r." and "a.\n" are initials, because `$` matches before a final newline |
| Utils.IsInitialRejects | lazynlp/utils.py:21 | "", "ab", "a.b" and "." are not initials |
| Utils.PositiveNumber | lazynlp/utils.py:24-45 | the branches of `is_positive_number`: empty, all digits, a '.' split, and the comma loop |
| Utils.CommaGrouped | lazynlp/utils.py:36-44 | the comma format read from the left, the independent definition the comma loop is proved against |
| Utils.IsPositiveNumber | lazynlp/utils.py:24-45 | the method with the reversed-string `while` loop decides exactly the branch-by-branch predicate of `is_positive_number` |
| Utils.CommaAcceptIsGrouped | lazynlp/utils.py:36-44 | the loop that strips digit groups from the reversed string accepts exactly the comma format read from the left: a digit run, then groups of a multiple of 3 digits, each after a ',' |
| Utils.DecimalAccepted | lazynlp/utils.py:29-35 | "a.b" with digits on both sides is a positive number. The integer part may be empty, except when a '-' was stripped first |
| Utils.IntegerIsCommaGrouped | lazynlp/utils.py:36-44 | without a '.', a positive number is exactly a string in the comma format |
| Utils.CommaGroupedStep | lazynlp/utils.py:39-41 | appending ',' and a multiple of 3 digits keeps the comma format |
| Utils.IsNumber | lazynlp/utils.py:48-57 | a leading '-' is stripped and the rest checked with `neg` set; otherwise the whole string is checked |
| Utils.IntegerIsNumber | lazynlp/utils.py:48-57 | a string with no leading '-' and no '.' is a number exactly when it is in the comma format |
| Utils.ThreeGroupsNumber | lazynlp/utils.py:48-57 | every "d,ddd,ddd" shape, e.g. "239,000,000", is a number |
| Utils.NumberCommaGroups | lazynlp/utils.py:52 | "239,000,000" is a number |
| Utils.NumberDecimal | lazynlp/utils.py:51 | "32.0323" is a number |
| Utils.NumberLeadingPoint | lazynlp/utils.py:51 | ".230" is a number |
| Utils.NumberNegative | lazynlp/utils.py:53 | "-12" is a number |
| Utils.NumberShortGroup | lazynlp/utils.py:39-45 | "1,00" is not a number: its group after the ',' is not a multiple of 3 digits |
| Utils.NumberEmptyLead | lazynlp/utils.py:39-45 | ",000" is not a number: the digit run before the ',' is empty |
| Utils.NumberNegativeLeadingPoint | lazynlp/utils.py:31-32 | "-.5" is not a number: after the '-' is stripped, a leading '.' is refused |
| Utils.NumberTrailingPoint | lazynlp/utils.py:30 | "5." is not a number: the '.' must not be the last character |
| Utils.NumberLoneMinus | lazynlp/utils.py:25-26 | "-" is not a number: the empty rest is refused |
| Utils.SizePairs | lazynlp/utils.py:65-68 | one (size, path) pair per file, in list order; it fails exactly when some path is missing |
| Utils.SortFilesBySize | lazynlp/utils.py:64-69 | the result is sorted by descending tuple order and is a permutation of the pairs; it fails exactly when some path is missing |
| Utils.SortFilesBySizeOrder | lazynlp/utils.py:69 | larger files come first, and files of equal size are ordered by path, descending |
| Utils.SortFilesBySizeUnique | lazynlp/utils.py:69 | any non-increasing arrangement of the pairs is the result, so the order does not depend on the input order |
| Utils.GetFilename | lazynlp/utils.py:72-73 | the result is a suffix of the path with no '/'; it is the whole path when there is no '/', and otherwise a '/' comes just before it |
| Utils.GetRawUrl | lazynlp/utils.py:76-84 | the result is a suffix of the URL with no "//" left in it; `GetRawUrlAfterScheme` and `GetRawUrlNoScheme` give its exact value |
| Utils.DropWww | lazynlp/utils.py:82-83 | a string starting with "www" and holding a '.' loses everything up to and including its first '.'; any other string is kept whole |
| Utils.LastDoubleSlash | lazynlp/utils.py:79 | in `a + "//" + b`, where b holds no "//" and does not start with '/', the last "//" is the one after a |
| Utils.GetRawUrlAfterScheme | lazynlp/utils.py:79-84 | for every `a + "//" + b` with no "//" in b and no leading '/' in b, the result is b with the "www" prefix dropped up to its first '.' |
| Utils.GetRawUrlNoScheme | lazynlp/utils.py:79-84 | for every URL with no "//", the result is the URL with the "www" prefix dropped up to its first '.' |
| Utils.DropWwwDot | lazynlp/utils.py:83 | for every `"www" + w + "." + rest` with no '.' in w, the result is rest |
| Utils.GetRawUrlDropsScheme | lazynlp/utils.py:79-83 | for every `a + "//" + "www" + w + "." + rest` (no '.' in w, no "//" after the scheme), the result is rest |
| Utils.GetRawUrlKeepsSubdomain | lazynlp/utils.py:79-82 | for every `a + "//" + b` where b has no "//", no leading '/' and does not start with "www", the result is b |
| Utils.GetRawUrlWithoutDot | lazynlp/utils.py:79-83 | for every `a + "//" + b` where b has no "//", no leading '/' and no '.', the result is b, because `find` gives -1 |
| Utils.SortStrings | lazynlp/utils.py:90 | `sorted` on strings is ordered and a permutation |
| Utils.SortLines | lazynlp/utils.py:87-95 | the lines written are strictly ascending and are exactly the distinct input lines |
| Utils.AppendAscending | lazynlp/utils.py:92-95 | an unseen line of the sorted input is greater than every line written so far |
| Utils.SortedKeys | lazynlp/utils.py:8 | the key order is a permutation of the dictionary's keys, ordered by their counts; keys of equal count keep the dictionary's insertion order, because `sorted` is stable |
| Utils.SortedKeysKeys | lazynlp/utils.py:8 | every key appears exactly once and no other string appears |
| Utils.SortedKeysOrder | lazynlp/utils.py:8 | counts are non-increasing when `reverse`, and non-decreasing otherwise |
| Utils.DumpLines | lazynlp/utils.py:9-10 | one "key\tcount\n" line per key, in sorted key order |
| Utils.DictSorted2File | lazynlp/utils.py:6-10 | the text written is the concatenation of those lines |
| Sorting.Sort | lazynlp/utils.py:69 | the model of `sorted`: ordered, a permutation, and stable (each class of equivalent elements keeps its input order) |
| Sorting.SortedUnique | lazynlp/utils.py:69 | two sequences sorted by a strict total order with the same elements are equal |
| Cleaner.Filter | lazynlp/cleaner.py:52 | deleting the runs outside a character class leaves only kept characters and never lengthens the text |
| Cleaner.FilterCounts | lazynlp/cleaner.py:52 | each kept character survives as often as it occurs, and no other character survives |
| Cleaner.FilterIdentity | lazynlp/cleaner.py:52 | a string made only of kept characters is unchanged |
| Cleaner.FilterIdempotent | lazynlp/cleaner.py:52 | filtering twice is filtering once |
| Cleaner.RemoveNonAlphanumeric | lazynlp/cleaner.py:49-52 | the result holds only letters, digits and spaces |
| Cleaner.RemoveNonAlpha | lazynlp/cleaner.py:55-58 | the result holds only letters and spaces |
| Cleaner.RemoveNonAlphanumericCounts | lazynlp/cleaner.py:49-52 | letters, digits and spaces all survive, in order, and nothing else does |
| Cleaner.RemoveNonAlphaCounts | lazynlp/cleaner.py:55-58 | letters and spaces all survive, in order, and nothing else does |
| Cleaner.RemoveNonAlphanumericIdempotent | lazynlp/cleaner.py:49-52 | applying it twice is applying it once |
| Cleaner.RemoveNonAlphanumericClean | lazynlp/cleaner.py:49-52 | the result has only letters, digits and spaces |
| Cleaner.RemoveNonAlphaIdempotent | lazynlp/cleaner.py:55-58 | applying it twice is applying it once |
| Cleaner.RemoveNonAlphaClean | lazynlp/cleaner.py:55-58 | the result has only letters and spaces |
| Cleaner.Collapsed | lazynlp/cleaner.py:68-79 | the result has no two adjacent spaces, is no longer than the input, and ends with the input's last character |
| Cleaner.CollapseWhiteSpaces | lazynlp/cleaner.py:68-79 | the loop with `prev` computes exactly `Collapsed` |
| Cleaner.CollapsedKeepsNonSpaces | lazynlp/cleaner.py:73-78 | only spaces are deleted: with spaces removed, input and output are equal |
| Cleaner.CollapsedSplit | lazynlp/cleaner.py:73-78 | a character other than ' ' splits the collapsing into independent halves |
| Cleaner.CollapsedSnoc | lazynlp/cleaner.py:74-77 | an appended character is dropped exactly when it is a second ' ' in a row |
| Cleaner.CollapsedIdentity | lazynlp/cleaner.py:68-79 | a string without two adjacent spaces is unchanged |
| Cleaner.CollapsedIdempotent | lazynlp/cleaner.py:68-79 | collapsing twice is collapsing once |
| Cleaner.Connected | lazynlp/cleaner.py:90-103 | the `result`/`curr` recurrence of `connect_lines` over the lines, as a function |
| Cleaner.ConnectLines | lazynlp/cleaner.py:82-103 | the loop with `result` and `curr` returns `Connected` of the lines split on '\n' |
| Cleaner.ConnectNonBlank | lazynlp/cleaner.py:93-101 | without a blank line nothing is finished; the pending text is each line stripped and followed by ' ' |
| Cleaner.ConnectCompose | lazynlp/cleaner.py:93-103 | once nothing is pending, the remaining lines are processed like a whole input, so blank lines separate independent blocks |
| Cleaner.ConnectBlank | lazynlp/cleaner.py:94-98 | a blank line ends a paragraph: the pending text and '\n' when there is any, then one separator, then nothing pending |
| LineDedup.DedupFile | lazynlp/cleaner.py:164-172 | one pass over a file's lines against the keys seen so far; it never writes more lines than it reads |
| LineDedup.DedupFileSeen | lazynlp/cleaner.py:165-172 | after a pass, the keys seen are the initial keys plus the key of every line |
| LineDedup.DedupFileKept | lazynlp/cleaner.py:165-172 | the lines written are input lines in order, with keys new to the pass and pairwise different |
| LineDedup.DedupFileWrites | lazynlp/cleaner.py:166-169 | first occurrence wins: a line is written exactly when its key is not among the initial keys or the keys of earlier lines |
| LineDedup.DedupFileAppend | lazynlp/cleaner.py:165-172 | a pass over a + b is the pass over a, followed by the pass over b starting from the keys a has seen |
| LineDedup.DedupFileFirst | lazynlp/cleaner.py:166-169 | with nothing seen yet, the first line is always written |
| LineDedup.DedupFiles | lazynlp/cleaner.py:159-172 | one output per input file |
| LineDedup.DedupFilesFlat | lazynlp/cleaner.py:159-172 | the outputs read in order are exactly one pass over all input lines in order |
| LineDedup.DedupFilesExample | lazynlp/cleaner.py:143-149 | for A = [x, y, x] and B = [y, z] with distinct keys, A keeps [x, y] and B keeps [z] |
| LineDedup.ReadAll | lazynlp/cleaner.py:163 | every file is read in order; it fails exactly when some path is missing |
| LineDedup.ReadAllMissing | lazynlp/cleaner.py:163 | the first missing file is the one reported |
| LineDedup.OutPathName | lazynlp/cleaner.py:161-162 | output file i is "<i>_<file name>" inside `outfold` |
| LineDedup.Outputs | lazynlp/cleaner.py:159-162 | file i is paired with the path it is written to, in order |
| LineDedup.WriteNewLines | lazynlp/cleaner.py:164-172 | the shared readline loop computes the pass, with `total` equal to the number of lines and `unique` equal to the number of lines written |
| LineDedup.DedupLinesResult | lazynlp/cleaner.py:140-182 | the whole of `dedup_lines`: read every file in order, one pass across them, then ValueError when `total == 0` |
| LineDedup.DedupLines | lazynlp/cleaner.py:140-182 | the method with one `seen` set across files returns `DedupLinesResult` |
| LineDedup.DedupLinesCounts | lazynlp/cleaner.py:163-172 | `total` counts every input line, and `unique` is the number written and at most `total` |
| LineDedup.DedupLinesEmpty | lazynlp/cleaner.py:175-176 | ValueError is raised exactly when every file exists and none has a line |
| LineDedup.DedupLinesWrites | lazynlp/cleaner.py:159-172 | output i holds the lines of file i whose keys occur neither earlier in it nor in an earlier file |
| LineDedup.DedupFilesPrefix | lazynlp/cleaner.py:159-172 | output i is the pass over file i starting from the keys of files 0..i-1 |
| LineDedup.AddKeys | lazynlp/cleaner.py:193-198 | the loop over an original file adds exactly the keys of its lines |
| LineDedup.Truncate | lazynlp/cleaner.py:200 | `open(outfile, 'w')`: the output file exists from then on and is empty |
| LineDedup.DedupNewResult | lazynlp/cleaner.py:185-213 | read the originals, truncate the output, read the new file, one pass against the originals' keys, then ZeroDivisionError when `total == 0` |
| LineDedup.DedupLinesFromNewFile | lazynlp/cleaner.py:185-213 | the method returns `DedupNewResult` |
| LineDedup.DedupNewOutput | lazynlp/cleaner.py:202-211 | the lines written come from the new file in order, with pairwise different keys and no key of any original line |
| LineDedup.DedupNewEmpty | lazynlp/cleaner.py:200-213 | with every file existing, ZeroDivisionError exactly when the new file has no line or is the output file itself |
| LineDedup.DedupNewIntoItself | lazynlp/cleaner.py:200-213 | writing the result into the new file itself empties it before it is read, so the run always ends with ZeroDivisionError |
| Bloom.Has | lazynlp/analytics.py:193 | `key in bf`: every bit the key probes is set |
| Bloom.Insert | lazynlp/analytics.py:70-72 | after `add` the key is contained, and no bit that was set is cleared |
| Bloom.EmptyHasNothing | lazynlp/create.py:45 | a new filter contains no key |
| Bloom.InsertAllHas | lazynlp/analytics.py:70-72 | no false negatives: every added key is contained afterwards, and every key contained before still is |
| Bloom.InsertAllTruthy | lazynlp/analytics.py:89 | `bool(bf)` after the adds is true exactly when it was true before or some key was added |
| Bloom.BloomFilter.constructor | lazynlp/create.py:45 | a fresh, empty filter |
| Bloom.BloomFilter.Add | lazynlp/analytics.py:70-72 | bits become `Insert` of the old bits; it reports whether the key was already contained; every added key stays contained |
| Analytics.ParseGran | lazynlp/analytics.py:44-45 | 'word' and 'char' are accepted; anything else raises ValueError |
| Analytics.NgramCount | lazynlp/analytics.py:12-24 | the dictionary `build_ngram_from_tokens` builds: the first window's key with count 1, then one count per later window |
| Analytics.FirstWindow | lazynlp/analytics.py:16-18 | the length of `tokens[:n]` for any integer n: n capped at the token count, and for negative n the count less the absolute value of n, floored at 0 |
| Analytics.BuildNgramFromTokens | lazynlp/analytics.py:12-24 | for any integer n, the method with the sliding `curr` window returns `NgramCount` over windows of `FirstWindow` tokens |
| Analytics.BumpSpec | lazynlp/analytics.py:21-23 | counting one key keeps the dictionary well formed, adds exactly that key, raises its count by 1 and the sum of counts by 1 |
| Analytics.TallyKeys | lazynlp/analytics.py:15-23 | the tallied dictionary is well formed and holds exactly the keys counted |
| Analytics.SlideStep | lazynlp/analytics.py:19-20 | sliding window j by the next token gives window j + 1 |
| Analytics.CountKey | lazynlp/analytics.py:21-23 | counting a key once more: an old key keeps its position, a new one is appended with count 1 |
| Analytics.TallySpec | lazynlp/analytics.py:15-23 | the dictionary is well formed, holds exactly the keys counted, each with its number of occurrences, and its counts sum to the number of keys |
| Analytics.NgramCountSum | lazynlp/analytics.py:12-24 | the counts sum to the number of windows |
| Analytics.NgramCountNonEmpty | lazynlp/analytics.py:15-17 | every line has at least one key |
| Analytics.NgramCountEmpty | lazynlp/analytics.py:15-17 | no tokens gives the single key "" with count 1 |
| Analytics.TallyDistinct | lazynlp/analytics.py:15-23 | pairwise different keys are each counted once, in order |
| Analytics.TrigramKey | lazynlp/analytics.py:19-21 | trigram key i joins tokens i, i + 1 and i + 2 |
| Analytics.NgramCountExample | lazynlp/analytics.py:12-24 | "the cat sat on the mat" with n = 3 gives four trigrams, each counted once |
| Analytics.Tokens | lazynlp/analytics.py:54-65 | the stripped line, lowered when `uncase`, filtered by granularity, collapsed and split |
| Analytics.LineCount | lazynlp/analytics.py:54-66 | the n-gram dictionary of one line's tokens |
| Analytics.TokensChars | lazynlp/analytics.py:56-65 | tokens hold only letters in char mode, and only letters and digits in word mode with `alphanumeric`; no upper-case letter when `uncase` |
| Analytics.UpdateSpec | lazynlp/analytics.py:68 | `update` overwrites: a key of the new dictionary takes its value, every other key keeps its own, and no key is lost or repeated |
| Analytics.BuildLines | lazynlp/analytics.py:53-72 | the readline loop as a function: blank lines skipped, `count.update`, and each key added to the filter, or AttributeError when `bf` is a dictionary |
| Analytics.BuildLinesFilter | lazynlp/analytics.py:53-72 | with a filter, the loop cannot fail; every key of every non-blank line is contained afterwards; and the filter is true exactly when it was before or some line was processed |
| Analytics.BuildLinesDict | lazynlp/analytics.py:70-71 | with a dictionary in place of the filter, the loop fails with AttributeError exactly when some line is processed |
| Analytics.BuildLinesKeys | lazynlp/analytics.py:66-68 | the count dictionary holds exactly the keys of the processed lines |
| Analytics.BuildLinesLastWins | lazynlp/analytics.py:68 | a key's final count is its count in the last processed line that has it |
| Analytics.BuildLinesNone | lazynlp/analytics.py:53-55 | with no non-blank line, nothing changes |
| Analytics.BuildNgramResult | lazynlp/analytics.py:27-92 | `build_ngram`: ValueError for a bad `gran`, FileNotFoundError for a missing file, then the loop, returning the filter when it is truthy and the count dictionary otherwise |
| Analytics.BuildNgramEmptyFilter | lazynlp/analytics.py:89-92 | on an empty filter, the filter comes back when a line was processed; a file of blank lines gives back its empty count dictionary |
| Analytics.BuildNgramNotNone | lazynlp/analytics.py:89-92 | `build_ngram` never returns None |
| Analytics.BuildNgramKeepsKind | lazynlp/analytics.py:89-92 | a filter coming out was a filter going in |
| Analytics.BuildNgramHas | lazynlp/analytics.py:53-92 | a filter only grows, and holds every key of every non-blank line of the file |
| Analytics.BuildAllLines | lazynlp/analytics.py:53-72 | the readline loop adds each processed line's keys to the filter object and returns `BuildLines` of the old filter |
| Analytics.BuildNgram | lazynlp/analytics.py:27-92 | the method updates the filter object in place and returns `BuildNgramResult` |
| Analytics.EstimateOverlapBfResult | lazynlp/analytics.py:169-201 | `estimate_overlap_bf`: ValueError, FileNotFoundError, the header skip, then seen / total or ZeroDivisionError |
| Analytics.ScoreBounds | lazynlp/analytics.py:181-197 | at most every key is seen, and every line adds at least one key to `total` |
| Analytics.EstimateOk | lazynlp/analytics.py:199-201 | a successful score is seen / total over the lines after the header |
| Analytics.EstimateRange | lazynlp/analytics.py:199 | the overlap lies in [0, 1] |
| Analytics.EstimateZeroDivision | lazynlp/analytics.py:176-199 | ZeroDivisionError exactly when the file has at most `header` lines: the last of the `header + 1` reads is the first line scored |
| Analytics.EstimateEmptyFilter | lazynlp/analytics.py:192-193 | against an empty filter every file scores 0 |
| Analytics.SelfOverlap | lazynlp/analytics.py:169-201 | a file scored against the filter built from it scores 1 when no line after the header is blank |
| Analytics.ScoreOne | lazynlp/analytics.py:181-199 | a file whose keys after the header are all in the filter, with no blank line there, scores 1 |
| Analytics.EstimateOverlapBf | lazynlp/analytics.py:169-201 | the method with the readline loop and two counters returns `EstimateOverlapBfResult` |
| Analytics.EstimateOverlapResult | lazynlp/analytics.py:127-166 | `estimate_overlap`: the `gran` check, the sources folded into one filter, then one score per target with n = 8 |
| Analytics.AsList | lazynlp/analytics.py:143-146 | a single path becomes a one-element list, and a list is kept |
| Analytics.GranChecked | lazynlp/analytics.py:141-142 | a bad `gran` raises ValueError before any file is opened, whatever the files |
| Analytics.ScoreAllSpec | lazynlp/analytics.py:158-165 | one score per target, each scored against the filter of all sources with n = 8 |
| Analytics.BuildAllHas | lazynlp/analytics.py:148-156 | when the sources leave a filter, it contains every key of every non-blank line of every source |
| Analytics.EstimateOverlapSelf | lazynlp/analytics.py:148-165 | a target that is also a source scores 1 when the sources leave a filter, n is 8, and the target has no blank line after the header |
| Analytics.EstimateOverlap | lazynlp/analytics.py:127-166 | the method with the source and target loops returns `EstimateOverlapResult` |
| Create.FilterLoop | lazynlp/create.py:51-65 | the loop over the sorted pairs, one `FilterStep` per file, stopping at the first error |
| Create.FilterFilesResult | lazynlp/create.py:44-67 | the size sort, an empty filter, the loop, then ZeroDivisionError when there are no files |
| Create.FilterStep | lazynlp/create.py:52-65 | one file either joins the duplicate list, stripped, raising `dup_count` by 1, or joins the clean list, stripped, leaving the duplicate side alone |
| Create.FilterStepDecision | lazynlp/create.py:52-65 | a file is a duplicate exactly when its overlap is above the threshold (equal is kept). A duplicate changes only the duplicate list and `dup_count`; a kept file changes only the clean list and `bf` |
| Create.FilterStepAccept | lazynlp/create.py:57-65 | a file scoring at most the threshold is appended, stripped, to the clean list |
| Create.FilterLoopErr | lazynlp/create.py:51-65 | an error on a file ends the loop, and no later file changes it |
| Create.FilterLoopPrefix | lazynlp/create.py:51-65 | each prefix of a successful loop succeeds, and what it wrote is a prefix of the final lists |
| Create.FilterLoopPartition | lazynlp/create.py:51-65 | every visited file goes to exactly one of the two lists; each list keeps visiting order; `dup_count` is the length of the duplicate list |
| Create.FilterLoopBf | lazynlp/create.py:45-64 | `bf` is never None |
| Create.FilterLoopGrows | lazynlp/create.py:58-64 | while `bf` is a filter it only grows, so the filter after each prefix is contained in the final one |
| Create.FilterLoopHas | lazynlp/create.py:51-65 | while `bf` is a filter, it holds every key of every non-blank line of every kept file |
| Create.FilterFirstKept | lazynlp/create.py:45-65 | the first file scores 0 against the empty filter, so it is kept for any threshold of at least 0 |
| Create.FilterShortFile | lazynlp/create.py:52 | a file with no line after the header ends the run with ZeroDivisionError |
| Create.FilterBlankFirst | lazynlp/create.py:52-64 | a first file whose lines are all blank, header lines included, and more than `header` in number, is kept, and `bf` becomes its empty count dictionary |
| Create.FilterAfterDict | lazynlp/create.py:58-64 | after that, the next kept file with a non-blank line fails with AttributeError |
| Create.FilterFilesUnfold | lazynlp/create.py:44-65 | with at least one file, `filter_files` is the size sort followed by the loop |
| Create.FilterFilesSpec | lazynlp/create.py:23-67 | no files gives ZeroDivisionError; otherwise files are visited largest first (ties by path, descending), each in exactly one list |
| Create.Visit | lazynlp/create.py:52-65 | the loop body returns `FilterStep` of the old state |
| Create.FilterFiles | lazynlp/create.py:23-67 | the method with the size sort, the filter object and the loop returns `FilterFilesResult` |
| Crawl.PySlice | lazynlp/crawl.py:56 | the slice equals `s[lo..hi]` for in-range bounds, and is empty when `0 <= hi <= lo` |
| Crawl.GetIdAusSpec | lazynlp/crawl.py:55-59 | when the last '.' follows the last '/', the id is the text between them without one trailing 'h'; the call fails with IndexError exactly when that text is empty |
| Crawl.GetIdAusOf | lazynlp/crawl.py:55-59 | in `<dir>/<stem><ext>` the id is the stem without one trailing 'h' |
| Crawl.GetIdAusFormats | lazynlp/crawl.py:55-59 | ".../<id>h.html" and ".../<id>.txt" of one book give the same id |
| Crawl.IdSet | lazynlp/crawl.py:77 | exactly the ids of the links |
| Crawl.Chosen | lazynlp/crawl.py:79-83 | every chosen link is an html link |
| Crawl.FirstBad | lazynlp/crawl.py:77 | the first link without an id |
| Crawl.ChosenDistinct | lazynlp/crawl.py:79-83 | at most one link per book: the chosen html links have distinct ids, none of them the id of a txt link |
| Crawl.ChosenByWritten | lazynlp/crawl.py:81-83 | an html link is written exactly when its id is not that of a txt link or of an html link written before |
| Crawl.ChosenCovers | lazynlp/crawl.py:73-83 | no book is lost: every html link's id is that of a txt link or of a chosen html link |
| Crawl.GetIdAus | lazynlp/crawl.py:55-59 | a failure is IndexError; an id has no '/' and is shorter than the link |
| Crawl.MergeResult | lazynlp/crawl.py:73-83 | the merge succeeds exactly when every link has an id; the txt links come first, unchanged, and at most all links are written |
| Crawl.WriteTxtLinks | lazynlp/crawl.py:75-77 | the first loop collects exactly the ids of the txt links, and fails with the error of the first link without one |
| Crawl.WriteHtmlLinks | lazynlp/crawl.py:79-83 | the second loop writes exactly `Chosen`, and fails with the error of the first html link without an id |
| Crawl.MergeLinks | lazynlp/crawl.py:73-83 | both loops with `seen_ids` return `MergeResult` |
| Crawl.MergeAusLinks | lazynlp/crawl.py:73-83 | the same with the ids of `get_id_aus` |
| Crawl.ToSkip | lazynlp/crawl.py:86-103 | the extension loop, then the three domain membership tests on the extracted parts, with TypeError for a missing list |
| Crawl.EndsWithAny | lazynlp/crawl.py:92-94 | true exactly when some extension ends the link |
| Crawl.ToSkipSpec | lazynlp/crawl.py:86-103 | a link is skipped exactly when it ends with an extension or its domain is listed by name, by name and suffix, or in full |
| Crawl.ToSkipMissing | lazynlp/crawl.py:92-97 | with no extensions, TypeError whatever `domains` is; with no domains, TypeError unless an extension matches first |
| Crawl.ToSkipIgnoresRawUrl | lazynlp/crawl.py:95 | the unused `raw_url` plays no part: links that end alike and extract alike are skipped alike |

## Behaviour worth knowing

- File order in `filter_files`: the code sorts `(size, path)` tuples with
  `reverse=True`, so files of equal size are ordered by path, descending.
- Empty file list in `filter_files`: the files are visited normally (there
  are none), and ZeroDivisionError is raised at the final report.
- Empty input in `dedup_lines`: ValueError is raised after the loop
  whenever `total == 0`. That also happens when every file is empty.
- Line keys: a line is identified by `line.strip()`, which trims both ends.
- Character granularity: the line is still split on whitespace, so char
  mode yields word n-grams over letters only.
- A missing file: the error ends the whole run; no later file is visited.
- `dedup_lines_from_new_file` opens the output file for writing before it
  reads the new file, so an output path equal to the new file's path
  empties it first.
- `n` may be any integer: `tokens[:n]` with a negative n drops the last
  |n| tokens.

## Left out

- Network and crawling (`urllib`, the catalogue download, the `re.findall`
  over the page): the link merge takes the txt and html link lists as
  inputs.
- `parse_html`, `clean_html`, `transliterate`, `clean_page`,
  `find_unprintable` and `replace_unprintable` depend on BeautifulSoup,
  unidecode and `string.printable`, and fall outside this core.
- `get_hash`: md5 is not modelled. A line's key is its stripped text itself,
  which identifies lines exactly as a collision-free digest would.
- pybloom's internals: `capacity` and `error_rate` become a `probe` function
  from a key to the bits it sets. False positives are possible in the model
  as in the library. Only the absence of false negatives is proved.
- Overlap ratios are exact `real` values. Floating-point rounding of
  `seen / total` and `dup_count / total` is not modelled.
- `str.lower`, `isspace`, `isdigit` and `isalpha` are modelled on ASCII
  characters only.
- Printing, the progress `interval`, and the final report lines are left
  out. `filter_files` models only the division by `len(files)`.
- Writing `dupped_files.list`, `clean_files.list` and the output files:
  each operation returns what it writes. When an error ends a run, the
  model returns only the error, not the lines already written.
  `filter_files` opens both lists for writing after sizing the inputs and
  before scoring them, so an input file with one of those two names would
  be read empty and raise ZeroDivisionError; the model reads every input
  from the unchanged file system instead.
- `os.makedirs` in `dedup_lines` is not modelled. The output directory is
  taken to exist.
- `build_ngram`'s optional `outfile` dump is left out. The dump format is
  modelled by `dict_sorted_2_file`.
- `build_word_ngram` and `build_char_ngram` are left out. They only forward
  to `build_ngram`, and `build_word_ngram` passes a keyword `build_ngram`
  does not accept.
- `file_stats`, `estimate_entropy` and `partition` (which uses `random`) are
  not in this core. The `create_gutenberg`, `create_reddit_data` and
  `create_wikipedia` stubs do nothing.
- `tldextract.extract` is a parameter of `ToSkip`, because its suffix list
  comes from outside the program.
- ToSkip: `extensions` and `domains` are modelled as lists, or None. A
  plain string argument, which Python would iterate character by character,
  is not modelled.
- MergeLinks: stated over any id function and instantiated with
  `get_id_aus`. The facts about that function are proved for every link of
  the form `<dir>/<stem><ext>` rather than on sample URLs.
- LineDedup.DedupLines: output file i is opened for writing before input
  file i is read. An output path that is also an input path is not
  modelled: the model reads every input from the file system as it was
  before the call. Truncation is modelled for `dedup_lines_from_new_file`.
- Bloom.BloomFilter.Add: pybloom raises IndexError when a filter already
  holds `capacity` keys. The model's filter has no capacity and never
  fills, so this error is not modelled.
- `isinstance(..., str)`: `estimate_overlap`'s sources and targets are
  `Paths`, a single path or a list, turned into a list by `AsList`.
  `dedup_lines` and `dedup_lines_from_new_file` take a list only; a single
  path is passed as the one-element list their `isinstance` wrap builds.
