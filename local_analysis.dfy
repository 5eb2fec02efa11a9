/** `main` of src/main.py once the parse results are in: the results, in the
    arbitrary order the worker pool completes them, are aggregated into the
    dictionary, which is then written out as CSV rows. */
module LocalAnalysis {
  import opened Wrappers
  import opened Parsing
  import opened Aggregation
  import opened Export

  /** The whole analysis of a sequence of parse results. After the header there is
      exactly one row per word of the successful documents; a row's count is the
      number of those documents containing the word and its path column joins
      their paths in processing order; counts never increase down the file; and
      among rows of equal count, words first seen in an earlier document come
      first. */
  method AnalyseResults(results: seq<Option<Document>>) returns (lines: seq<Line>)
    ensures lines != [] && lines[0] == Header(HEADER)
    ensures forall k :: 1 <= k < |lines| ==>
      lines[k].Row? && lines[k].word in Vocabulary(Successful(results)) &&
      lines[k].count == |Containing(Successful(results), lines[k].word)| &&
      lines[k].joinedPaths == Join(PathsOf(Successful(results), lines[k].word), SEPARATOR)
    ensures forall w :: w in Vocabulary(Successful(results)) ==>
      exists k :: 1 <= k < |lines| && lines[k].Row? && lines[k].word == w
    ensures forall k, l :: 1 <= k < l < |lines| ==> lines[k].word != lines[l].word
    ensures forall k, l :: 1 <= k < l < |lines| ==> lines[l].count <= lines[k].count
    ensures forall k, l :: 1 <= k < l < |lines| && lines[k].count == lines[l].count ==>
      FirstDocument(Successful(results), lines[k].word) <= FirstDocument(Successful(results), lines[l].word)
  {
    var occurrences, order := Aggregate(results);
    lines := WriteRows(occurrences, order);
    RowCountsAreFrequencies(Successful(results), lines);
    TiesByFirstDocument(Successful(results), order, lines);
  }

  /** A row's count, the length of its word's list, is the word's document frequency. */
  lemma RowCountsAreFrequencies(docs: seq<Document>, lines: seq<Line>)
    requires forall k :: 1 <= k < |lines| ==>
      lines[k].Row? && lines[k].count == |PathsOf(docs, lines[k].word)|
    ensures forall k :: 1 <= k < |lines| ==> lines[k].count == |Containing(docs, lines[k].word)|
  {
    forall k | 1 <= k < |lines|
      ensures lines[k].count == |Containing(docs, lines[k].word)|
    {
      PathsOfAreContainingDocuments(docs, lines[k].word);
    }
  }

  /** Rows of equal count follow the key order, and the key order follows the
      first document of each word, so ties come by first document. */
  lemma TiesByFirstDocument(docs: seq<Document>, order: seq<string>, lines: seq<Line>)
    requires forall a, b :: 0 <= a < b < |order| ==>
      FirstDocument(docs, order[a]) <= FirstDocument(docs, order[b])
    requires forall k :: 1 <= k < |lines| ==> lines[k].Row? && lines[k].word in order
    requires forall k, l, i, j ::
      (1 <= k < l < |lines| && lines[k].count == lines[l].count &&
       0 <= i < |order| && 0 <= j < |order| && order[i] == lines[k].word && order[j] == lines[l].word)
      ==> i < j
    ensures forall k, l :: 1 <= k < l < |lines| && lines[k].count == lines[l].count ==>
      FirstDocument(docs, lines[k].word) <= FirstDocument(docs, lines[l].word)
  {
  }
}
