# Word-occurrence analysis of downloaded pages, in Dafny

This project models the local analysis script of the repository, `src/main.py`.
The script reads every `.html` file of the `download` folder. For each file it
takes the text of the `article-body` block and runs it through a Japanese
morphological analyser. It keeps the nouns and collapses them into a set per
file. It then builds a dictionary from each noun to the list of files that
contain it. Last, it writes a CSV file: a header row, then one row per noun
with the number of files and their paths joined by `", "`, ordered by a stable
sort on descending count.

Modules, one per stage of the script:

- `Wrappers` (`wrappers.dfy`): `Option` (Python's `None`) and `Distinct`.
- `NounFilter` (`noun_filter.dfy`): `extract_words`. The analyser's output is
  an input: a sequence of tokens, each either a full token with surface form and
  part-of-speech string, or a bare string (not a `Token` instance).
- `Parsing` (`parsing.dfy`): the `.html` filter of the directory listing, the
  path join, and `parse_html_file`. Opening the file, the HTML parser and the
  block search are reduced to their outcome: the article's tokens, no article
  block, or an exception.
- `Aggregation` (`aggregation.dfy`): the `defaultdict(list)` as a class (a map
  plus its keys in insertion order), the aggregation loop, and the reference
  functions the loop is proved against.
- `Export` (`export.dfy`): `items()`, the stable descending sort (modelled as
  a stable insertion sort), `", ".join`, and the row-writing loop.
- `LocalAnalysis` (`local_analysis.dfy`): the aggregation and the export run
  one after the other, with the end-to-end properties.

The worker pool delivers results in completion order, which is arbitrary. The
model therefore takes the results as an arbitrary sequence. `CompletionOrderIrrelevant`
proves that reordering them changes no word's set of paths, only their order.
Python iterates a set in hash order, so the loop over a document's words picks
each next word arbitrarily (`:|`). For that reason the dictionary's insertion
order is pinned down only up to "words first seen in an earlier document come
first".

The code breaks ties between rows of equal count by the dictionary's insertion
order, through the stability of `sorted`. It uses no deterministic key such as
the lexicographic order of the words. Rows of equal count therefore come in
insertion order (`RowsTieOrder`), and so in order of first document
(`AnalyseResults`).

## Model

| member | source | states |
|---|---|---|
| `NounFilter.FirstField` | src/main.py:21 | `split(",")[0]` is the longest prefix of the part-of-speech string without a comma: it is a prefix, holds no comma, and is followed by a comma unless it is the whole string |
| `NounFilter.IsNoun` | src/main.py:21 | the filter test: a `Token` instance whose first part-of-speech field is `名詞` |
| `NounFilter.NounPositions` | src/main.py:20-22 | the positions of the noun tokens: in range, strictly increasing, each a noun, and every noun position is among them |
| `NounFilter.ExtractWords` | src/main.py:17-23 | the loop's output equals the reference filter `Nouns` on the whole token sequence |
| `NounFilter.NounsAreNounSurfacesInOrder` | src/main.py:19-23 | the k-th output word is the surface of the k-th noun token: exactly the noun surfaces, in input order |
| `NounFilter.NounsLength` | src/main.py:19-23 | the filter yields at most as many words as there are tokens |
| `NounFilter.NounsAppend` | src/main.py:20-22 | filtering a concatenation gives the concatenation of the filtered parts, so order is kept |
| `NounFilter.NounsMembership` | src/main.py:21-22 | a word is output exactly when some token is a noun with that surface |
| `Parsing.HtmlFiles` | src/main.py:48 | the kept entries are exactly the entries ending in `.html`, no more of them than entries, still without repetitions |
| `Parsing.JoinPath` | src/main.py:28 | `os.path.join` on POSIX: the result ends with the name; an absolute name replaces the folder; otherwise the folder comes first, followed directly by the name when the folder is empty or ends in `/`, and by one `/` and the name otherwise |
| `Parsing.EndsWith` | src/main.py:48 | `f.endswith(".html")`: the name's last characters are the suffix |
| `Parsing.FilePath` | src/main.py:28 | a file's recorded path: `download/` then the name for a relative name, the name itself for an absolute one |
| `Parsing.FilePathInjective` | src/main.py:28 | directory entries (names without `/`) with equal paths are equal, so distinct files have distinct paths |
| `Parsing.ParseHtmlFile` | src/main.py:26-41 | `None` exactly when there is no article block or an exception; otherwise the file's path with the set of the text's noun surfaces, each once |
| `Aggregation.Lookup` | src/main.py:58 | `word_occurrences[word]` on the `defaultdict(list)` of line 46: a word's list, or the empty list for a word not yet seen |
| `Aggregation.Successful` | src/main.py:54-55 | the documents kept from the results are exactly the non-`None` ones, no more of them than results |
| `Aggregation.VocabularyMembership` | src/main.py:56-58 | a word is in the dictionary's reference key set exactly when some successful document contains it |
| `Aggregation.FirstDocumentIsFirst` | src/main.py:53-58 | the first document of a word contains it and no earlier document does |
| `Aggregation.Containing` | src/main.py:53-58 | the indices of the documents containing a word: in range, increasing, and every such document listed |
| `Aggregation.WordOccurrences.constructor` | src/main.py:46 | `defaultdict(list)` starts with no key |
| `Aggregation.WordOccurrences.Append` | src/main.py:58 | `d[word].append(path)`: the word's list (empty if new) gains the path at the end; a new word is inserted last in key order; nothing else changes |
| `Aggregation.WordOccurrences.AddDocument` | src/main.py:56-58 | one document's words each gain its path once; new words join the key order after all old keys; old keys keep their order |
| `Aggregation.Aggregate` | src/main.py:46-58 | final dictionary: keys are exactly the words of the successful documents, each listed once; each list is the paths of the documents containing the word in processing order and is not empty; keys are ordered by first document; the list lengths sum to the sum of the word-set sizes |
| `Aggregation.AddedIsNextDocument` | src/main.py:56-58 | adding one document to a dictionary holding the reference lists gives the reference lists with that document |
| `Aggregation.OrderExtends` | src/main.py:57-58 | appending a document's new words keeps the key order sorted by first document |
| `Aggregation.FinalTable` | src/main.py:53-58 | at the end of the loop every list is the word's reference list and not empty, and the total length equals the total number of words |
| `Aggregation.PathsOfNonEmpty` | src/main.py:57-58 | a word's list is non-empty exactly when some document contains the word |
| `Aggregation.PathsOfAreContainingDocuments` | src/main.py:53-58 | the k-th path of a word's list is the path of the k-th document containing it, so the count is the word's document frequency |
| `Aggregation.PathsOfDistinct` | src/main.py:28-58 | when the documents have distinct paths, no word's list repeats a path |
| `Aggregation.SuccessfulAppend` | src/main.py:53-55 | the documents kept from a concatenation of results are those of each part, in order |
| `Aggregation.NoneContributesNothing` | src/main.py:33-41 | a `None` result anywhere in the sequence changes nothing that is aggregated |
| `Aggregation.PathsOfAppend` | src/main.py:57-58 | a word's list over a concatenation of documents is the concatenation of its lists |
| `Aggregation.SuccessfulMultiplicity` | src/main.py:53-55 | each document is kept as often as the results hold it |
| `Aggregation.PathsOfPermutation` | src/main.py:53-58 | documents processed in another order give every word the same paths up to order |
| `Aggregation.CompletionOrderIrrelevant` | src/main.py:50-58 | any completion order of the same results gives the same words, each with the same multiset of paths |
| `Aggregation.SumOfPathsIsTotalWords` | src/main.py:56-58 | summing the list lengths over all the words, each listed once, gives the sum of the documents' word-set sizes |
| `Aggregation.CountInCovered` | src/main.py:56-58 | a list without repetitions that covers a set meets each of its elements once |
| `Export.Count` | src/main.py:66 | the sort key `len(x[1])`: the number of paths of an entry |
| `Export.Items` | src/main.py:65 | `items()`: one entry per key, in insertion order, the k-th holding the k-th key and its list |
| `Export.Join` | src/main.py:68 | `", ".join(paths)`; its contents are stated by `JoinContents` and its length by `JoinLength` |
| `Export.JoinContents` | src/main.py:68 | the joined string holds every part in order at its offset, one separator before each part but the first, nothing after the last part, and is empty for no parts |
| `Export.JoinLength` | src/main.py:68 | the length of a joined string is the total length of the parts plus one separator per pair of neighbours |
| `Export.RowOf` | src/main.py:68 | the row `[word, len(paths), ", ".join(paths)]` written for one entry |
| `Export.InsertByCount` | src/main.py:65-67 | inserting into the sorted rows adds exactly one entry |
| `Export.SortByCount` | src/main.py:65-67 | the sort keeps the number of entries |
| `Export.InsertByCountPermutation` | src/main.py:65-67 | inserting adds the entry and changes nothing else |
| `Export.InsertByCountNonIncreasing` | src/main.py:65-67 | inserting into non-increasing entries keeps them non-increasing |
| `Export.InsertByCountTies` | src/main.py:65-67 | inserting keeps each count's entries in order and puts the new entry last among equal counts |
| `Export.SortByCountNonIncreasing` | src/main.py:65-67 | sorted counts never increase (`reverse=True`) |
| `Export.SortByCountPermutation` | src/main.py:65-67 | the sort is a permutation of the items |
| `Export.SortByCountStable` | src/main.py:65-67 | for each count, the entries with that count keep their input order |
| `Export.SortByCountKeepsTieOrder` | src/main.py:65-67 | two sorted entries of equal count sit at increasing input positions |
| `Export.WithCountSource` | src/main.py:65-67 | every entry of one count's subsequence comes from an input position of that count |
| `Export.WriteRows` | src/main.py:63-68 | header first; one row per dictionary word, none twice; count = list length; paths joined in list order; counts never increase; equal counts in insertion order |
| `Export.SortedItems` | src/main.py:65-67 | the sorted items are as many as the listed keys, each holds a listed key with that key's list, every listed key has one, and their counts never increase |
| `Export.RowsDescribeEntries` | src/main.py:65-68 | each row holds its word's count and joined paths, and every word has a row |
| `Export.RowsDistinct` | src/main.py:65-68 | no word has two rows |
| `Export.RowsNonIncreasing` | src/main.py:65-68 | row counts never increase down the file |
| `Export.RowsTieOrder` | src/main.py:65-68 | rows of equal count come in the dictionary's insertion order |
| `LocalAnalysis.AnalyseResults` | src/main.py:44-68 | end to end: header; one row per word of the successful documents; count = number of documents containing the word; paths joined in processing order; non-increasing counts; equal counts ordered by first document |
| `LocalAnalysis.RowCountsAreFrequencies` | src/main.py:57-68 | a row whose count is the length of its word's list counts the documents that contain the word |
| `LocalAnalysis.TiesByFirstDocument` | src/main.py:53-68 | rows of equal count in key order, with keys ordered by first document, are ordered by first document |

## Left out

- Reading the folder, opening and reading files, writing the CSV file, the UTF-8
  byte-order mark and CSV quoting: I/O. Rows are returned as values, and the
  count column is a number, not its decimal text.
- The HTML parser and `soup.find("div", class_="article-body")`: foreign library
  calls. Only their outcome is modelled (`FileOutcome`).
- The morphological analyser: a foreign engine. Its token sequence is an input.
- `ThreadPoolExecutor`, `as_completed` and the progress bar: concurrency. The
  results arrive as an arbitrary sequence, consumed on one thread as in the
  source.
- Timing and the console messages: output only.
- `src/csv_analysis.py`: a pandas read and sort, then plotting. It has no logic
  of its own.
- Network fetching, retry and back-off, selector fallback chains and batch
  partitioning: this code does none of them.
- Path joining on Windows: `os.path.join` there puts `\` between the folder and
  the name, and that text would be the recorded path. The model joins with the
  POSIX `/` only.
- The order in which Python iterates a set is not modelled. Any order is
  allowed, so the ties between words first seen in the same document are left
  open.
