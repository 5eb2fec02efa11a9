/** The aggregation loop of `main` in src/main.py: each parsed document's path is
    appended to the list of every word of the document, in a dictionary that
    creates an empty list for a word it has not seen yet. The results reach the
    loop in completion order, which is arbitrary: the model takes them as an
    arbitrary sequence. */
module Aggregation {
  import opened Wrappers
  import opened Parsing

  /** The documents of the results that are not `None`, in processing order. */
  function Successful(results: seq<Option<Document>>): (docs: seq<Document>)
    ensures |docs| <= |results|
    ensures forall d :: d in docs <==> Some(d) in results
  {
    if results == [] then []
    else
      var n := |results| - 1;
      Successful(results[..n]) + (if results[n].Some? then [results[n].value] else [])
  }

  /** Reference value of a word's list: the paths of the documents containing
      it, in processing order. */
  function PathsOf(docs: seq<Document>, w: string): seq<string>
  {
    if docs == [] then []
    else
      var n := |docs| - 1;
      PathsOf(docs[..n], w) + (if w in docs[n].words then [docs[n].path] else [])
  }

  /** Every word some document contains. */
  function Vocabulary(docs: seq<Document>): set<string>
  {
    if docs == [] then {} else Vocabulary(docs[..|docs| - 1]) + docs[|docs| - 1].words
  }

  /** A word is in the vocabulary exactly when some document contains it. */
  lemma {:induction false} VocabularyMembership(docs: seq<Document>, w: string)
    ensures w in Vocabulary(docs) <==> exists i :: 0 <= i < |docs| && w in docs[i].words
  {
    if docs != [] {
      var n := |docs| - 1;
      VocabularyMembership(docs[..n], w);
      assert forall i :: 0 <= i < n ==> docs[..n][i] == docs[i];
    }
  }

  /** The sum of the sizes of the documents' word sets. */
  function TotalWords(docs: seq<Document>): nat
  {
    if docs == [] then 0 else TotalWords(docs[..|docs| - 1]) + |docs[|docs| - 1].words|
  }

  /** The index of the first document that contains `w`. */
  ghost function FirstDocument(docs: seq<Document>, w: string): nat
  {
    if docs == [] then 0
    else
      var n := |docs| - 1;
      if w in Vocabulary(docs[..n]) then FirstDocument(docs[..n], w) else n
  }

  /** The first document containing a word of the vocabulary contains it and no
      earlier document does. */
  lemma {:induction false} FirstDocumentIsFirst(docs: seq<Document>, w: string)
    requires w in Vocabulary(docs)
    ensures FirstDocument(docs, w) < |docs| && w in docs[FirstDocument(docs, w)].words
    ensures forall j :: 0 <= j < FirstDocument(docs, w) ==> w !in docs[j].words
  {
    var n := |docs| - 1;
    assert forall i :: 0 <= i < n ==> docs[..n][i] == docs[i];
    if w in Vocabulary(docs[..n]) {
      FirstDocumentIsFirst(docs[..n], w);
    } else {
      forall j | 0 <= j < n
        ensures w !in docs[j].words
      {
        VocabularyMembership(docs[..n], w);
      }
    }
  }

  /** The indices of the documents that contain `w`, in increasing order. */
  ghost function Containing(docs: seq<Document>, w: string): (ks: seq<nat>)
    ensures forall k :: 0 <= k < |ks| ==> ks[k] < |docs| && w in docs[ks[k]].words
    ensures forall k, l :: 0 <= k < l < |ks| ==> ks[k] < ks[l]
    ensures forall i :: 0 <= i < |docs| && w in docs[i].words ==> i in ks
  {
    if docs == [] then []
    else
      var n := |docs| - 1;
      Containing(docs[..n], w) + (if w in docs[n].words then [n] else [])
  }

  /** Reading a word's list from the dictionary: a word not yet seen has the
      empty list. */
  function Lookup(occurrences: map<string, seq<string>>, w: string): seq<string>
  {
    if w in occurrences then occurrences[w] else []
  }

  /** The dictionary after `p` is appended to the list of every word of `ws`. */
  function Added(occurrences: map<string, seq<string>>, ws: set<string>, p: string): map<string, seq<string>>
  {
    map w | w in occurrences.Keys + ws :: Lookup(occurrences, w) + (if w in ws then [p] else [])
  }

  /** Appending for no word leaves the dictionary as it is. */
  lemma AddedNothing(occurrences: map<string, seq<string>>, p: string)
    ensures Added(occurrences, {}, p) == occurrences
  {
    assert Added(occurrences, {}, p).Keys == occurrences.Keys;
    forall w | w in occurrences
      ensures Added(occurrences, {}, p)[w] == occurrences[w]
    {
    }
  }

  /** Appending `p` for one more word is one more dictionary update. */
  lemma AddedStep(occurrences: map<string, seq<string>>, ws: set<string>, word: string, p: string)
    requires word !in ws
    ensures Added(occurrences, ws + {word}, p) ==
      Added(occurrences, ws, p)[word := Lookup(Added(occurrences, ws, p), word) + [p]]
  {
    var before, after := Added(occurrences, ws, p), Added(occurrences, ws + {word}, p);
    var updated := before[word := Lookup(before, word) + [p]];
    assert after.Keys == updated.Keys;
    forall w | w in after.Keys
      ensures after[w] == updated[w]
    {
      if w == word {
        assert Lookup(before, word) == Lookup(occurrences, word);
      }
    }
  }

  /** The sum of the lengths of the lists of the words in `order`. */
  function TotalLength(order: seq<string>, occurrences: map<string, seq<string>>): nat
  {
    if order == [] then 0
    else TotalLength(order[..|order| - 1], occurrences) + |Lookup(occurrences, order[|order| - 1])|
  }

  /** The dictionary `word_occurrences`: a map from word to list of paths, and its
      keys in insertion order, which is the order the dictionary iterates in. */
  class WordOccurrences {
    var occurrences: map<string, seq<string>>
    var order: seq<string>

    /** The keys of the map are the insertion order's words, each listed once. */
    ghost predicate Valid()
      reads this
    {
      (forall w :: w in occurrences <==> w in order) && Distinct(order)
    }

    /** `defaultdict(list)`: no word yet. */
    constructor ()
      ensures Valid()
      ensures occurrences == map[] && order == []
    {
      occurrences := map[];
      order := [];
    }

    /** `word_occurrences[word].append(path)`: a word seen for the first time is
        inserted last with an empty list first. */
    method Append(word: string, path: string)
      requires Valid()
      modifies this
      ensures Valid()
      ensures occurrences == old(occurrences)[word := Lookup(old(occurrences), word) + [path]]
      ensures order == if word in old(occurrences) then old(order) else old(order) + [word]
    {
      if word !in occurrences {
        order := order + [word];
        occurrences := occurrences[word := []];
      }
      occurrences := occurrences[word := occurrences[word] + [path]];
    }

    /** The inner loop of `main` for one parsed document: its path is appended to
        the list of each of its words, visited in the set's arbitrary order. Words
        seen for the first time are appended to the insertion order. */
    method AddDocument(doc: Document)
      requires Valid()
      modifies this
      ensures Valid()
      ensures occurrences == Added(old(occurrences), doc.words, doc.path)
      ensures |old(order)| <= |order| && order[..|old(order)|] == old(order)
      ensures forall k :: |old(order)| <= k < |order| ==>
        order[k] in doc.words && order[k] !in old(occurrences)
    {
      var remaining := doc.words;
      ghost var done: set<string> := {};
      AddedNothing(occurrences, doc.path);
      while remaining != {}
        invariant remaining + done == doc.words && remaining !! done
        invariant Valid()
        invariant occurrences == Added(old(occurrences), done, doc.path)
        invariant |old(order)| <= |order| && order[..|old(order)|] == old(order)
        invariant forall k :: |old(order)| <= k < |order| ==>
          order[k] in done && order[k] !in old(occurrences)
        decreases remaining
      {
        var word :| word in remaining;
        AddedStep(old(occurrences), done, word, doc.path);
        Append(word, doc.path);
        remaining := remaining - {word};
        done := done + {word};
      }
    }
  }

  /** The loop of `main` over the parse results. It returns the final dictionary:
      its map and its keys in insertion order. Every word's list holds the paths of
      the documents containing the word, in processing order, and is never empty;
      words are inserted in the order of the first document containing them; the
      lists hold as many paths in all as the documents have words. */
  method Aggregate(results: seq<Option<Document>>)
      returns (occurrences: map<string, seq<string>>, order: seq<string>)
    ensures forall w :: w in occurrences <==> w in order
    ensures Distinct(order)
    ensures occurrences.Keys == Vocabulary(Successful(results))
    ensures forall w :: w in occurrences ==> occurrences[w] == PathsOf(Successful(results), w)
    ensures forall w :: w in occurrences ==> occurrences[w] != []
    ensures forall a, b :: 0 <= a < b < |order| ==>
      FirstDocument(Successful(results), order[a]) <= FirstDocument(Successful(results), order[b])
    ensures TotalLength(order, occurrences) == TotalWords(Successful(results))
  {
    var table := new WordOccurrences();
    ghost var docs: seq<Document> := [];
    for i := 0 to |results|
      invariant docs == Successful(results[..i])
      invariant table.Valid()
      invariant Summarises(table.occurrences, table.order, docs)
    {
      assert results[..i + 1][..i] == results[..i];
      match results[i]
      case None =>
      case Some(doc) =>
        ghost var before := table.order;
        ghost var previous := table.occurrences;
        table.AddDocument(doc);
        SummarisesNext(previous, before, docs, doc, table.occurrences, table.order);
        docs := docs + [doc];
    }
    assert results[..|results|] == results;
    occurrences, order := table.occurrences, table.order;
    FinalTable(occurrences, order, docs);
  }

  /** The loop invariant of `Aggregate`: the dictionary holds the reference lists
      of the documents processed so far, with its keys in order of first document. */
  ghost predicate Summarises(occurrences: map<string, seq<string>>, order: seq<string>, docs: seq<Document>)
  {
    occurrences.Keys == Vocabulary(docs) &&
    (forall w :: Lookup(occurrences, w) == PathsOf(docs, w)) &&
    (forall a, b :: 0 <= a < b < |order| ==> FirstDocument(docs, order[a]) <= FirstDocument(docs, order[b]))
  }

  /** One document recorded by `AddDocument` keeps the loop invariant. */
  lemma SummarisesNext(previous: map<string, seq<string>>, before: seq<string>, docs: seq<Document>,
                       doc: Document, occurrences: map<string, seq<string>>, order: seq<string>)
    requires forall w :: w in previous <==> w in before
    requires Summarises(previous, before, docs)
    requires occurrences == Added(previous, doc.words, doc.path)
    requires |before| <= |order| && order[..|before|] == before
    requires forall k :: |before| <= k < |order| ==> order[k] in doc.words && order[k] !in previous
    ensures Summarises(occurrences, order, docs + [doc])
  {
    forall k | 0 <= k < |before|
      ensures before[k] in Vocabulary(docs)
    {
      assert before[k] in previous;
    }
    OrderExtends(docs, doc, before, order);
    AddedIsNextDocument(previous, docs, doc);
  }

  /** What the reference lists say of the dictionary at the end of the loop. */
  lemma FinalTable(occurrences: map<string, seq<string>>, order: seq<string>, docs: seq<Document>)
    requires forall w :: w in occurrences <==> w in order
    requires Distinct(order)
    requires Summarises(occurrences, order, docs)
    ensures occurrences.Keys == Vocabulary(docs)
    ensures forall w :: w in occurrences ==> occurrences[w] == PathsOf(docs, w) && occurrences[w] != []
    ensures forall a, b :: 0 <= a < b < |order| ==> FirstDocument(docs, order[a]) <= FirstDocument(docs, order[b])
    ensures TotalLength(order, occurrences) == TotalWords(docs)
  {
    forall w | w in occurrences
      ensures occurrences[w] != []
    {
      PathsOfNonEmpty(docs, w);
    }
    TotalLengthIsSumOfPaths(order, occurrences, docs);
    SumOfPathsIsTotalWords(order, docs);
  }

  /** Adding one more document to a dictionary that holds the reference lists
      gives the reference lists with that document. */
  lemma AddedIsNextDocument(occurrences: map<string, seq<string>>, docs: seq<Document>, doc: Document)
    requires occurrences.Keys == Vocabulary(docs)
    requires forall w :: Lookup(occurrences, w) == PathsOf(docs, w)
    ensures Added(occurrences, doc.words, doc.path).Keys == Vocabulary(docs + [doc])
    ensures forall w :: Lookup(Added(occurrences, doc.words, doc.path), w) == PathsOf(docs + [doc], w)
  {
  }

  /** Appending the new words of one more document keeps the keys ordered by the
      first document containing them. */
  lemma OrderExtends(docs: seq<Document>, doc: Document, before: seq<string>, after: seq<string>)
    requires forall a, b :: 0 <= a < b < |before| ==>
      FirstDocument(docs, before[a]) <= FirstDocument(docs, before[b])
    requires forall k :: 0 <= k < |before| ==> before[k] in Vocabulary(docs)
    requires |before| <= |after| && after[..|before|] == before
    requires forall k :: |before| <= k < |after| ==> after[k] in doc.words && after[k] !in Vocabulary(docs)
    ensures forall a, b :: 0 <= a < b < |after| ==>
      FirstDocument(docs + [doc], after[a]) <= FirstDocument(docs + [doc], after[b])
  {
    forall k | 0 <= k < |after|
      ensures FirstDocument(docs + [doc], after[k]) == if k < |before| then FirstDocument(docs, before[k]) else |docs|
      ensures k < |before| ==> FirstDocument(docs, before[k]) < |docs|
    {
      FirstDocumentExtend(docs, doc, after[k]);
      if k < |before| {
        assert after[k] == before[k];
        FirstDocumentIsFirst(docs, before[k]);
      }
    }
  }

  /** The first document of a word after one more document is processed. */
  lemma FirstDocumentExtend(docs: seq<Document>, doc: Document, w: string)
    ensures FirstDocument(docs + [doc], w) == if w in Vocabulary(docs) then FirstDocument(docs, w) else |docs|
  {
  }

  /** The sum, over the words of `order`, of the number of paths the documents
      give each word. */
  function SumOfPaths(order: seq<string>, docs: seq<Document>): nat
  {
    if order == [] then 0
    else SumOfPaths(order[..|order| - 1], docs) + |PathsOf(docs, order[|order| - 1])|
  }

  /** How many words of `order` are in `ws`. */
  function CountIn(order: seq<string>, ws: set<string>): nat
  {
    if order == [] then 0
    else CountIn(order[..|order| - 1], ws) + (if order[|order| - 1] in ws then 1 else 0)
  }

  /** The total of the dictionary's list lengths, read through the reference lists. */
  lemma {:induction false} TotalLengthIsSumOfPaths(order: seq<string>, occurrences: map<string, seq<string>>,
                                                    docs: seq<Document>)
    requires forall k :: 0 <= k < |order| ==> Lookup(occurrences, order[k]) == PathsOf(docs, order[k])
    ensures TotalLength(order, occurrences) == SumOfPaths(order, docs)
  {
    if order != [] {
      var n := |order| - 1;
      assert forall k :: 0 <= k < n ==> order[..n][k] == order[k];
      TotalLengthIsSumOfPaths(order[..n], occurrences, docs);
      assert Lookup(occurrences, order[n]) == PathsOf(docs, order[n]);
    }
  }

  /** One more document adds one path to each of its words that `order` lists. */
  lemma {:induction false} SumOfPathsStep(order: seq<string>, docs: seq<Document>, doc: Document)
    ensures SumOfPaths(order, docs + [doc]) == SumOfPaths(order, docs) + CountIn(order, doc.words)
  {
    assert (docs + [doc])[..|docs|] == docs;
    if order != [] {
      SumOfPathsStep(order[..|order| - 1], docs, doc);
    }
  }

  /** A word outside `order` does not change the count. */
  lemma {:induction false} CountInWithout(order: seq<string>, ws: set<string>, x: string)
    requires x !in order
    ensures CountIn(order, ws - {x}) == CountIn(order, ws)
  {
    if order != [] {
      var n := |order| - 1;
      assert x !in order[..n] by {
        assert forall w :: w in order[..n] ==> w in order;
      }
      CountInWithout(order[..n], ws, x);
    }
  }

  /** A list without repetitions that covers a set counts each of its elements once. */
  lemma {:induction false} CountInCovered(order: seq<string>, ws: set<string>)
    requires Distinct(order)
    requires forall w :: w in ws ==> w in order
    ensures CountIn(order, ws) == |ws|
  {
    if order == [] {
      assert ws == {};
    } else {
      var n := |order| - 1;
      var x := order[n];
      assert Distinct(order[..n]);
      assert x !in order[..n];
      forall w | w in ws - {x}
        ensures w in order[..n]
      {
        var i :| 0 <= i < |order| && order[i] == w;
        assert i < n;
      }
      CountInCovered(order[..n], ws - {x});
      CountInWithout(order[..n], ws, x);
      if x in ws {
        assert |ws - {x}| == |ws| - 1;
      } else {
        assert ws - {x} == ws;
      }
    }
  }

  /** Double counting: summing the list lengths over a list of all the words,
      each listed once, gives the sum of the documents' word-set sizes. */
  lemma {:induction false} SumOfPathsIsTotalWords(order: seq<string>, docs: seq<Document>)
    requires Distinct(order)
    requires forall w :: w in Vocabulary(docs) ==> w in order
    ensures SumOfPaths(order, docs) == TotalWords(docs)
  {
    if docs == [] {
      SumOfPathsEmpty(order);
    } else {
      var n := |docs| - 1;
      assert docs == docs[..n] + [docs[n]];
      SumOfPathsIsTotalWords(order, docs[..n]);
      SumOfPathsStep(order, docs[..n], docs[n]);
      CountInCovered(order, docs[n].words);
    }
  }

  /** No document gives no path. */
  lemma {:induction false} SumOfPathsEmpty(order: seq<string>)
    ensures SumOfPaths(order, []) == 0
  {
    if order != [] {
      SumOfPathsEmpty(order[..|order| - 1]);
    }
  }

  /** A word has a non-empty list exactly when some document contains it. */
  lemma {:induction false} PathsOfNonEmpty(docs: seq<Document>, w: string)
    ensures PathsOf(docs, w) != [] <==> w in Vocabulary(docs)
  {
    if docs != [] {
      var n := |docs| - 1;
      PathsOfNonEmpty(docs[..n], w);
    }
  }

  /** A word's list holds one path per document containing the word: the k-th
      path is that of the k-th such document, so the list's length is the word's
      document frequency. */
  lemma {:induction false} PathsOfAreContainingDocuments(docs: seq<Document>, w: string)
    ensures |PathsOf(docs, w)| == |Containing(docs, w)|
    ensures forall k :: 0 <= k < |PathsOf(docs, w)| ==>
      PathsOf(docs, w)[k] == docs[Containing(docs, w)[k]].path
  {
    if docs != [] {
      var n := |docs| - 1;
      PathsOfAreContainingDocuments(docs[..n], w);
    }
  }

  /** When the documents have distinct paths, no word's list repeats a path. */
  lemma PathsOfDistinct(docs: seq<Document>, w: string)
    requires forall i, j :: 0 <= i < j < |docs| ==> docs[i].path != docs[j].path
    ensures Distinct(PathsOf(docs, w))
  {
    PathsOfAreContainingDocuments(docs, w);
    var ks := Containing(docs, w);
    forall k, l | 0 <= k < l < |ks|
      ensures PathsOf(docs, w)[k] != PathsOf(docs, w)[l]
    {
      assert ks[k] < ks[l];
    }
  }

  /** The successful documents of a concatenation. */
  lemma {:induction false} SuccessfulAppend(a: seq<Option<Document>>, b: seq<Option<Document>>)
    ensures Successful(a + b) == Successful(a) + Successful(b)
  {
    if b == [] {
      assert a + b == a;
    } else {
      var n := |b| - 1;
      assert (a + b)[..|a + b| - 1] == a + b[..n];
      SuccessfulAppend(a, b[..n]);
    }
  }

  /** A `None` result, wherever it arrives, contributes nothing to the aggregation. */
  lemma NoneContributesNothing(a: seq<Option<Document>>, b: seq<Option<Document>>)
    ensures Successful(a + [None] + b) == Successful(a + b)
  {
    SuccessfulAppend(a + [None], b);
    SuccessfulAppend(a, [None]);
    SuccessfulAppend(a, b);
    assert (a + [None])[..|a|] == a;
  }

  /** The paths a concatenation gives a word. */
  lemma {:induction false} PathsOfAppend(a: seq<Document>, b: seq<Document>, w: string)
    ensures PathsOf(a + b, w) == PathsOf(a, w) + PathsOf(b, w)
  {
    if b == [] {
      assert a + b == a;
    } else {
      var n := |b| - 1;
      assert (a + b)[..|a + b| - 1] == a + b[..n];
      PathsOfAppend(a, b[..n], w);
    }
  }

  /** The successful results keep each document as often as the results hold it. */
  lemma {:induction false} SuccessfulMultiplicity(results: seq<Option<Document>>, d: Document)
    ensures multiset(Successful(results))[d] == multiset(results)[Some(d)]
  {
    if results != [] {
      var n := |results| - 1;
      assert results == results[..n] + [results[n]];
      SuccessfulMultiplicity(results[..n], d);
    }
  }

  /** Processing the same documents in another order gives every word the same
      paths, up to their order. */
  lemma {:induction false} PathsOfPermutation(a: seq<Document>, b: seq<Document>, w: string)
    requires multiset(a) == multiset(b)
    ensures multiset(PathsOf(a, w)) == multiset(PathsOf(b, w))
    decreases |a|
  {
    if a != [] {
      var n := |a| - 1;
      var x := a[n];
      assert x in multiset(b);
      var j :| 0 <= j < |b| && b[j] == x;
      var rest := b[..j] + b[j + 1..];
      RemoveAt(b, j);
      assert a == a[..n] + [x];
      assert multiset(a[..n]) == multiset(rest);
      PathsOfPermutation(a[..n], rest, w);
      PathsOfAppend(a[..n], [x], w);
      PathsOfRemoveAt(b, j, w);
    }
  }

  /** Taking out the document at `j` takes out one occurrence of it. */
  lemma RemoveAt(b: seq<Document>, j: nat)
    requires j < |b|
    ensures multiset(b[..j] + b[j + 1..]) == multiset(b) - multiset{b[j]}
  {
    assert b == b[..j] + [b[j]] + b[j + 1..];
  }

  /** The paths a word gets with the document at `j` taken out and put last. */
  lemma PathsOfRemoveAt(b: seq<Document>, j: nat, w: string)
    requires j < |b|
    ensures multiset(PathsOf(b, w)) == multiset(PathsOf(b[..j] + b[j + 1..], w)) + multiset(PathsOf([b[j]], w))
  {
    assert b == b[..j] + [b[j]] + b[j + 1..];
    PathsOfAppend(b[..j], b[j + 1..], w);
    PathsOfAppend(b[..j] + [b[j]], b[j + 1..], w);
    PathsOfAppend(b[..j], [b[j]], w);
  }

  /** The completion order of the results does not matter: any reordering of the
      results gives the same words, each with the same paths up to order. */
  lemma CompletionOrderIrrelevant(r1: seq<Option<Document>>, r2: seq<Option<Document>>, w: string)
    requires multiset(r1) == multiset(r2)
    ensures Vocabulary(Successful(r1)) == Vocabulary(Successful(r2))
    ensures multiset(PathsOf(Successful(r1), w)) == multiset(PathsOf(Successful(r2), w))
  {
    forall d
      ensures multiset(Successful(r1))[d] == multiset(Successful(r2))[d]
    {
      SuccessfulMultiplicity(r1, d);
      SuccessfulMultiplicity(r2, d);
    }
    assert multiset(Successful(r1)) == multiset(Successful(r2));
    PathsOfPermutation(Successful(r1), Successful(r2), w);
    forall v
      ensures v in Vocabulary(Successful(r1)) <==> v in Vocabulary(Successful(r2))
    {
      PathsOfNonEmpty(Successful(r1), v);
      PathsOfNonEmpty(Successful(r2), v);
      PathsOfPermutation(Successful(r1), Successful(r2), v);
      assert multiset(PathsOf(Successful(r1), v)) == multiset(PathsOf(Successful(r2), v));
    }
  }
}
