/** The CSV export of `main` in src/main.py: a header, then one row per word of
    the dictionary with its number of paths and the paths joined by ", ", the
    rows ordered by a stable sort on descending count. Opening the file, the
    byte-order mark and CSV quoting are outside the model: the rows written are
    the result. */
module Export {
  import opened Wrappers

  /** One `(word, paths)` item of the dictionary. */
  datatype Entry = Entry(word: string, paths: seq<string>)

  /** One line written by the CSV writer. */
  datatype Line =
    | Header(columns: seq<string>)
    | Row(word: string, count: nat, joinedPaths: string)

  /** The header row: word, number of occurrences, file paths. */
  const HEADER: seq<string> := ["単語", "出現回数", "ファイルパス"]

  /** The separator placed between the paths of a row. */
  const SEPARATOR: string := ", "

  /** The sort key: the length of the word's list. */
  function Count(e: Entry): nat
  {
    |e.paths|
  }

  /** `occurrences.items()`: the entries in the dictionary's insertion order. */
  function Items(occurrences: map<string, seq<string>>, order: seq<string>): (r: seq<Entry>)
    requires forall w :: w in order ==> w in occurrences
    ensures |r| == |order|
    ensures forall k :: 0 <= k < |order| ==> r[k].word == order[k] && r[k].paths == occurrences[order[k]]
  {
    seq(|order|, k requires 0 <= k < |order| => Entry(order[k], occurrences[order[k]]))
  }

  /** Counts never increase down the sequence. */
  predicate NonIncreasing(es: seq<Entry>)
  {
    forall i, j :: 0 <= i < j < |es| ==> Count(es[j]) <= Count(es[i])
  }

  /** The entries with count `c`, in their order. */
  function WithCount(es: seq<Entry>, c: nat): seq<Entry>
  {
    if es == [] then []
    else (if Count(es[0]) == c then [es[0]] else []) + WithCount(es[1..], c)
  }

  /** Puts `e` into a non-increasing sequence after every entry whose count is at
      least its own. */
  function InsertByCount(sorted: seq<Entry>, e: Entry): (r: seq<Entry>)
    ensures |r| == |sorted| + 1
  {
    if sorted == [] then [e]
    else if Count(sorted[0]) >= Count(e) then [sorted[0]] + InsertByCount(sorted[1..], e)
    else [e] + sorted
  }

  /** `sorted(items, key=len(paths), reverse=True)`: Python's sort is stable, also
      when reversed, so this is the stable insertion sort on descending count. */
  function SortByCount(items: seq<Entry>): (r: seq<Entry>)
    ensures |r| == |items|
  {
    if items == [] then []
    else InsertByCount(SortByCount(items[..|items| - 1]), items[|items| - 1])
  }

  /** `sep.join(parts)`. */
  function Join(parts: seq<string>, sep: string): string
  {
    if parts == [] then ""
    else if |parts| == 1 then parts[0]
    else Join(parts[..|parts| - 1], sep) + sep + parts[|parts| - 1]
  }

  /** The total length of some strings. */
  function TotalSize(parts: seq<string>): nat
  {
    if parts == [] then 0 else TotalSize(parts[..|parts| - 1]) + |parts[|parts| - 1]|
  }

  /** The length of a joined string: all the parts and one separator between
      neighbours. */
  lemma {:induction false} JoinLength(parts: seq<string>, sep: string)
    requires parts != []
    ensures |Join(parts, sep)| == TotalSize(parts) + (|parts| - 1) * |sep|
  {
    if |parts| > 1 {
      var n := |parts| - 1;
      JoinLength(parts[..n], sep);
      assert (|parts| - 1) * |sep| == (n - 1) * |sep| + |sep| by {
        assert |parts| - 1 == (n - 1) + 1;
      }
    } else {
      assert parts[..0] == [];
    }
  }

  /** Where the `k`-th part starts in `sep.join(parts)`: after the `k` parts
      before it, each followed by one separator. */
  function Offset(parts: seq<string>, sep: string, k: nat): nat
    requires k <= |parts|
  {
    if k == 0 then 0 else Offset(parts, sep, k - 1) + |parts[k - 1]| + |sep|
  }

  /** Offsets only depend on the parts before them. */
  lemma {:induction false} OffsetPrefix(parts: seq<string>, sep: string, m: nat, k: nat)
    requires k <= m <= |parts|
    ensures Offset(parts[..m], sep, k) == Offset(parts, sep, k)
  {
    if k > 0 {
      OffsetPrefix(parts, sep, m, k - 1);
      assert parts[..m][k - 1] == parts[k - 1];
    }
  }

  /** The `n`-th part starts one separator after the join of the first `n` parts. */
  lemma {:induction false} OffsetAfterJoin(parts: seq<string>, sep: string, n: nat)
    requires 1 <= n <= |parts|
    ensures Offset(parts, sep, n) == |Join(parts[..n], sep)| + |sep|
  {
    if n == 1 {
      assert Join(parts[..1], sep) == parts[0];
    } else {
      OffsetAfterJoin(parts, sep, n - 1);
      assert parts[..n][..n - 1] == parts[..n - 1];
      assert Join(parts[..n], sep) == Join(parts[..n - 1], sep) + sep + parts[n - 1];
    }
  }

  /** The join of the first `m` parts, then one separator, starts the join of all. */
  lemma {:induction false} JoinPrefix(parts: seq<string>, sep: string, m: nat)
    requires 1 <= m < |parts|
    ensures Join(parts[..m], sep) + sep <= Join(parts, sep)
  {
    var n := |parts| - 1;
    var front := parts[..n];
    assert Join(parts, sep) == Join(front, sep) + sep + parts[n];
    if m < n {
      JoinPrefix(front, sep, m);
      assert front[..m] == parts[..m];
    }
  }

  /** The `k`-th part sits at its offset in `joined`. */
  ghost predicate PartAt(joined: string, parts: seq<string>, sep: string, k: nat)
    requires k < |parts|
  {
    Offset(parts, sep, k) + |parts[k]| <= |joined| &&
    joined[Offset(parts, sep, k)..Offset(parts, sep, k) + |parts[k]|] == parts[k]
  }

  /** One separator ends just where the `k`-th part of `joined` starts. */
  ghost predicate SeparatorBefore(joined: string, parts: seq<string>, sep: string, k: nat)
    requires k < |parts|
  {
    |sep| <= Offset(parts, sep, k) <= |joined| &&
    joined[Offset(parts, sep, k) - |sep|..Offset(parts, sep, k)] == sep
  }

  /** The `k`-th part sits at its offset. */
  lemma {:induction false} JoinPartAt(parts: seq<string>, sep: string, k: nat)
    requires k < |parts|
    ensures PartAt(Join(parts, sep), parts, sep, k)
  {
    var n := |parts| - 1;
    if n == 0 {
      assert Join(parts, sep) == parts[0];
    } else {
      var front := parts[..n];
      assert Join(parts, sep) == Join(front, sep) + sep + parts[n];
      if k == n {
        OffsetAfterJoin(parts, sep, n);
      } else {
        JoinPartAt(front, sep, k);
        OffsetPrefix(parts, sep, n, k);
        assert front[k] == parts[k];
      }
    }
  }

  /** Just before the start of every part but the first sits one separator. */
  lemma JoinSeparatorAt(parts: seq<string>, sep: string, k: nat)
    requires 0 < k < |parts|
    ensures SeparatorBefore(Join(parts, sep), parts, sep, k)
  {
    JoinPrefix(parts, sep, k);
    OffsetAfterJoin(parts, sep, k);
  }

  /** The last part ends the joined string. */
  lemma JoinEnd(parts: seq<string>, sep: string)
    requires parts != []
    ensures |Join(parts, sep)| == Offset(parts, sep, |parts| - 1) + |parts[|parts| - 1]|
  {
    var n := |parts| - 1;
    if n == 0 {
      assert Join(parts, sep) == parts[0];
    } else {
      OffsetAfterJoin(parts, sep, n);
      assert Join(parts, sep) == Join(parts[..n], sep) + sep + parts[n];
    }
  }

  /** A joined string holds the parts in order, each at its offset, one
      separator before every part but the first, and nothing after the last. */
  lemma JoinContents(parts: seq<string>, sep: string)
    ensures parts == [] ==> Join(parts, sep) == ""
    ensures parts != [] ==> |Join(parts, sep)| == Offset(parts, sep, |parts| - 1) + |parts[|parts| - 1]|
    ensures forall k :: 0 <= k < |parts| ==> PartAt(Join(parts, sep), parts, sep, k)
    ensures forall k :: 0 < k < |parts| ==> SeparatorBefore(Join(parts, sep), parts, sep, k)
  {
    if parts != [] {
      JoinEnd(parts, sep);
    }
    forall k | 0 <= k < |parts|
      ensures PartAt(Join(parts, sep), parts, sep, k)
    {
      JoinPartAt(parts, sep, k);
    }
    forall k | 0 < k < |parts|
      ensures SeparatorBefore(Join(parts, sep), parts, sep, k)
    {
      JoinSeparatorAt(parts, sep, k);
    }
  }

  /** The row written for one entry. */
  function RowOf(e: Entry): Line
  {
    Row(e.word, Count(e), Join(e.paths, SEPARATOR))
  }

  /** Filtering a concatenation filters each part. */
  lemma {:induction false} WithCountAppend(a: seq<Entry>, b: seq<Entry>, c: nat)
    ensures WithCount(a + b, c) == WithCount(a, c) + WithCount(b, c)
  {
    if a == [] {
      assert a + b == b;
    } else {
      assert (a + b)[1..] == a[1..] + b;
      WithCountAppend(a[1..], b, c);
    }
  }

  /** No entry with a count below `c` has count `c`. */
  lemma {:induction false} WithCountBelow(es: seq<Entry>, c: nat)
    requires forall k :: 0 <= k < |es| ==> Count(es[k]) < c
    ensures WithCount(es, c) == []
  {
    if es != [] {
      WithCountBelow(es[1..], c);
    }
  }

  lemma {:induction false} InsertByCountPermutation(sorted: seq<Entry>, e: Entry)
    ensures multiset(InsertByCount(sorted, e)) == multiset(sorted) + multiset{e}
  {
    if sorted != [] && Count(sorted[0]) >= Count(e) {
      InsertByCountPermutation(sorted[1..], e);
      assert sorted == [sorted[0]] + sorted[1..];
    }
  }

  lemma {:induction false} InsertByCountNonIncreasing(sorted: seq<Entry>, e: Entry)
    requires NonIncreasing(sorted)
    ensures NonIncreasing(InsertByCount(sorted, e))
  {
    if sorted != [] && Count(sorted[0]) >= Count(e) {
      var rest := InsertByCount(sorted[1..], e);
      InsertByCountNonIncreasing(sorted[1..], e);
      InsertByCountPermutation(sorted[1..], e);
      forall k | 0 <= k < |rest|
        ensures Count(rest[k]) <= Count(sorted[0])
      {
        assert rest[k] in multiset(sorted[1..]) + multiset{e};
        if rest[k] != e {
          assert rest[k] in sorted[1..];
        }
      }
    }
  }

  /** Inserting keeps the entries of each count in their order and puts `e` last
      among the entries of its own count. */
  lemma {:induction false} InsertByCountTies(sorted: seq<Entry>, e: Entry, c: nat)
    requires NonIncreasing(sorted)
    ensures WithCount(InsertByCount(sorted, e), c) == WithCount(sorted, c) + WithCount([e], c)
  {
    if sorted == [] {
    } else if Count(sorted[0]) >= Count(e) {
      var rest := sorted[1..];
      assert NonIncreasing(rest);
      calc {
        WithCount(InsertByCount(sorted, e), c);
        == { assert InsertByCount(sorted, e) == [sorted[0]] + InsertByCount(rest, e);
             WithCountAppend([sorted[0]], InsertByCount(rest, e), c); }
        WithCount([sorted[0]], c) + WithCount(InsertByCount(rest, e), c);
        == { InsertByCountTies(rest, e, c); }
        WithCount([sorted[0]], c) + WithCount(rest, c) + WithCount([e], c);
        == { WithCountAppend([sorted[0]], rest, c); assert [sorted[0]] + rest == sorted; }
        WithCount(sorted, c) + WithCount([e], c);
      }
    } else {
      InsertAtFrontTies(sorted, e, c);
    }
  }

  /** An entry of larger count than all the others goes first, and is the only
      one of its count. */
  lemma InsertAtFrontTies(sorted: seq<Entry>, e: Entry, c: nat)
    requires NonIncreasing(sorted)
    requires sorted != [] && Count(sorted[0]) < Count(e)
    ensures WithCount(InsertByCount(sorted, e), c) == WithCount(sorted, c) + WithCount([e], c)
  {
    assert InsertByCount(sorted, e) == [e] + sorted;
    WithCountAppend([e], sorted, c);
    if c == Count(e) {
      assert forall k :: 0 <= k < |sorted| ==> Count(sorted[k]) <= Count(sorted[0]);
      WithCountBelow(sorted, c);
    } else {
      assert WithCount([e], c) == [];
    }
  }

  /** The rows come out with non-increasing counts. */
  lemma {:induction false} SortByCountNonIncreasing(items: seq<Entry>)
    ensures NonIncreasing(SortByCount(items))
  {
    if items != [] {
      SortByCountNonIncreasing(items[..|items| - 1]);
      InsertByCountNonIncreasing(SortByCount(items[..|items| - 1]), items[|items| - 1]);
    }
  }

  /** The sort rearranges the entries and neither drops nor adds any. */
  lemma {:induction false} SortByCountPermutation(items: seq<Entry>)
    ensures multiset(SortByCount(items)) == multiset(items)
  {
    if items != [] {
      var n := |items| - 1;
      SortByCountPermutation(items[..n]);
      InsertByCountPermutation(SortByCount(items[..n]), items[n]);
      assert items == items[..n] + [items[n]];
    }
  }

  /** Stability: the entries of each count keep their input order. */
  lemma {:induction false} SortByCountStable(items: seq<Entry>, c: nat)
    ensures WithCount(SortByCount(items), c) == WithCount(items, c)
  {
    if items != [] {
      var n := |items| - 1;
      SortByCountStable(items[..n], c);
      SortByCountNonIncreasing(items[..n]);
      InsertByCountTies(SortByCount(items[..n]), items[n], c);
      WithCountAppend(items[..n], [items[n]], c);
      assert items == items[..n] + [items[n]];
    }
  }

  /** The place of entry `i` among the entries of its count. */
  lemma WithCountAt(es: seq<Entry>, i: nat)
    requires i < |es|
    ensures |WithCount(es[..i], Count(es[i]))| < |WithCount(es, Count(es[i]))|
    ensures WithCount(es, Count(es[i]))[|WithCount(es[..i], Count(es[i]))|] == es[i]
  {
    var c := Count(es[i]);
    assert es == es[..i] + es[i..];
    WithCountAppend(es[..i], es[i..], c);
    assert es[i..][0] == es[i];
  }

  /** An entry of count `c` is counted before every later one. */
  lemma WithCountBefore(es: seq<Entry>, i: nat, j: nat, c: nat)
    requires i <= j <= |es|
    ensures |WithCount(es[..i], c)| <= |WithCount(es[..j], c)|
    ensures i < j && Count(es[i]) == c ==> |WithCount(es[..i], c)| < |WithCount(es[..j], c)|
  {
    assert es[..j] == es[..i] + es[i..j];
    WithCountAppend(es[..i], es[i..j], c);
    if i < j {
      assert es[i..j][0] == es[i];
    }
  }

  /** Every entry of the filtered sequence comes from a position of the input. */
  lemma {:induction false} WithCountSource(es: seq<Entry>, c: nat, q: nat) returns (i: nat)
    requires q < |WithCount(es, c)|
    ensures i < |es| && Count(es[i]) == c
    ensures |WithCount(es[..i], c)| == q && es[i] == WithCount(es, c)[q]
  {
    if Count(es[0]) == c && q == 0 {
      i := 0;
    } else {
      var q' := if Count(es[0]) == c then q - 1 else q;
      var i' := WithCountSource(es[1..], c, q');
      i := i' + 1;
      assert es[..i] == [es[0]] + es[1..][..i'];
      WithCountAppend([es[0]], es[1..][..i'], c);
    }
  }

  /** Two entries of equal count keep their relative input order in the sorted
      sequence. */
  lemma SortByCountKeepsTieOrder(items: seq<Entry>, a: nat, b: nat) returns (i: nat, j: nat)
    requires a < b < |SortByCount(items)|
    requires Count(SortByCount(items)[a]) == Count(SortByCount(items)[b])
    ensures i < j < |items|
    ensures items[i] == SortByCount(items)[a] && items[j] == SortByCount(items)[b]
  {
    var sorted := SortByCount(items);
    var c := Count(sorted[a]);
    SortByCountStable(items, c);
    WithCountAt(sorted, a);
    WithCountAt(sorted, b);
    WithCountBefore(sorted, a, b, c);
    i := WithCountSource(items, c, |WithCount(sorted[..a], c)|);
    j := WithCountSource(items, c, |WithCount(sorted[..b], c)|);
    if j <= i {
      WithCountBefore(items, j, i, c);
    }
  }

  /** The CSV row loop: the header, then one row per dictionary entry in the
      order of the stable descending sort. Each row gives its word's number of
      paths and the paths joined in list order; every word of the dictionary has
      exactly one row; counts never increase; and two words of equal count come
      in their insertion order. */
  method WriteRows(occurrences: map<string, seq<string>>, order: seq<string>) returns (lines: seq<Line>)
    requires forall w :: w in order ==> w in occurrences
    requires Distinct(order)
    ensures |lines| == |order| + 1 && lines[0] == Header(HEADER)
    ensures forall k :: 1 <= k < |lines| ==>
      lines[k].Row? && lines[k].word in order &&
      lines[k].count == |occurrences[lines[k].word]| &&
      lines[k].joinedPaths == Join(occurrences[lines[k].word], SEPARATOR)
    ensures forall w :: w in order ==> exists k :: 1 <= k < |lines| && lines[k].Row? && lines[k].word == w
    ensures forall k, l :: 1 <= k < l < |lines| ==> lines[k].word != lines[l].word
    ensures forall k, l :: 1 <= k < l < |lines| ==> lines[l].count <= lines[k].count
    ensures forall k, l, i, j ::
      (1 <= k < l < |lines| && lines[k].count == lines[l].count &&
       0 <= i < |order| && 0 <= j < |order| && order[i] == lines[k].word && order[j] == lines[l].word)
      ==> i < j
  {
    var sorted := SortByCount(Items(occurrences, order));
    lines := [Header(HEADER)];
    for k := 0 to |sorted|
      invariant |lines| == k + 1 && lines[0] == Header(HEADER)
      invariant forall m :: 0 <= m < k ==> lines[m + 1] == RowOf(sorted[m])
    {
      var e := sorted[k];
      lines := lines + [RowOf(e)];
    }
    RowsDescribeEntries(occurrences, order, lines);
    RowsNonIncreasing(occurrences, order, lines);
    RowsDistinct(occurrences, order, lines);
    RowsTieOrder(occurrences, order, lines);
  }

  /** The rows of the sorted items: written after the header, one per entry. */
  ghost predicate RowsOfSorted(occurrences: map<string, seq<string>>, order: seq<string>, lines: seq<Line>)
    requires forall w :: w in order ==> w in occurrences
  {
    |lines| == |order| + 1 &&
    forall m :: 0 <= m < |order| ==> lines[m + 1] == RowOf(SortByCount(Items(occurrences, order))[m])
  }

  /** Each row describes one word's entry, and every word has a row. */
  lemma RowsDescribeEntries(occurrences: map<string, seq<string>>, order: seq<string>, lines: seq<Line>)
    requires forall w :: w in order ==> w in occurrences
    requires RowsOfSorted(occurrences, order, lines)
    ensures forall k :: 1 <= k < |lines| ==>
      lines[k].Row? && lines[k].word in order &&
      lines[k].count == |occurrences[lines[k].word]| &&
      lines[k].joinedPaths == Join(occurrences[lines[k].word], SEPARATOR)
    ensures forall w :: w in order ==> exists k :: 1 <= k < |lines| && lines[k].Row? && lines[k].word == w
  {
    var sorted := SortByCount(Items(occurrences, order));
    SortedItems(occurrences, order);
    forall k | 1 <= k < |lines|
      ensures lines[k].Row? && lines[k].word in order
      ensures lines[k].count == |occurrences[lines[k].word]|
      ensures lines[k].joinedPaths == Join(occurrences[lines[k].word], SEPARATOR)
    {
      assert lines[k] == RowOf(sorted[k - 1]);
    }
    forall w | w in order
      ensures exists k :: 1 <= k < |lines| && lines[k].Row? && lines[k].word == w
    {
      var m :| 0 <= m < |sorted| && sorted[m].word == w;
      assert lines[m + 1].word == w;
    }
  }

  /** No word has two rows. */
  lemma RowsDistinct(occurrences: map<string, seq<string>>, order: seq<string>, lines: seq<Line>)
    requires forall w :: w in order ==> w in occurrences
    requires Distinct(order)
    requires RowsOfSorted(occurrences, order, lines)
    ensures forall k :: 1 <= k < |lines| ==> lines[k].Row?
    ensures forall k, l :: 1 <= k < l < |lines| ==> lines[k].word != lines[l].word
  {
    var sorted := SortByCount(Items(occurrences, order));
    assert forall k :: 1 <= k < |lines| ==> lines[k] == RowOf(sorted[k - 1]);
    forall k, l | 1 <= k < l < |lines|
      ensures lines[k].word != lines[l].word
    {
      SortedWordsDiffer(occurrences, order, k - 1, l - 1);
    }
  }

  /** Two positions of the sorted items hold different words. */
  lemma SortedWordsDiffer(occurrences: map<string, seq<string>>, order: seq<string>, a: nat, b: nat)
    requires forall w :: w in order ==> w in occurrences
    requires Distinct(order)
    requires a < b < |order|
    ensures SortByCount(Items(occurrences, order))[a].word != SortByCount(Items(occurrences, order))[b].word
  {
    var items := Items(occurrences, order);
    var sorted := SortByCount(items);
    SortedItems(occurrences, order);
    var e1, e2 := sorted[a], sorted[b];
    if Count(e1) == Count(e2) {
      var i, j := SortByCountKeepsTieOrder(items, a, b);
      assert items[i].word == order[i] && items[j].word == order[j];
    } else {
      assert e1.paths == occurrences[e1.word] && e2.paths == occurrences[e2.word];
    }
  }

  /** Row counts never increase down the file. */
  lemma RowsNonIncreasing(occurrences: map<string, seq<string>>, order: seq<string>, lines: seq<Line>)
    requires forall w :: w in order ==> w in occurrences
    requires RowsOfSorted(occurrences, order, lines)
    ensures forall k :: 1 <= k < |lines| ==> lines[k].Row?
    ensures forall k, l :: 1 <= k < l < |lines| ==> lines[l].count <= lines[k].count
  {
    var sorted := SortByCount(Items(occurrences, order));
    SortByCountNonIncreasing(Items(occurrences, order));
    assert forall k :: 1 <= k < |lines| ==> lines[k] == RowOf(sorted[k - 1]);
  }

  /** Two rows of equal count come in the insertion order of their words. */
  lemma RowsTieOrder(occurrences: map<string, seq<string>>, order: seq<string>, lines: seq<Line>)
    requires forall w :: w in order ==> w in occurrences
    requires Distinct(order)
    requires RowsOfSorted(occurrences, order, lines)
    ensures forall k :: 1 <= k < |lines| ==> lines[k].Row?
    ensures forall k, l, i, j ::
      (1 <= k < l < |lines| && lines[k].count == lines[l].count &&
       0 <= i < |order| && 0 <= j < |order| && order[i] == lines[k].word && order[j] == lines[l].word)
      ==> i < j
  {
    var sorted := SortByCount(Items(occurrences, order));
    assert forall k :: 1 <= k < |lines| ==> lines[k] == RowOf(sorted[k - 1]);
    forall k, l, i, j | 1 <= k < l < |lines| && lines[k].count == lines[l].count &&
      0 <= i < |order| && 0 <= j < |order| && order[i] == lines[k].word && order[j] == lines[l].word
      ensures i < j
    {
      SortedTieOrder(occurrences, order, k - 1, l - 1, i, j);
    }
  }

  /** Two sorted items of equal count hold words in insertion order. */
  lemma SortedTieOrder(occurrences: map<string, seq<string>>, order: seq<string>, a: nat, b: nat, i: nat, j: nat)
    requires forall w :: w in order ==> w in occurrences
    requires Distinct(order)
    requires a < b < |order| && i < |order| && j < |order|
    requires Count(SortByCount(Items(occurrences, order))[a]) == Count(SortByCount(Items(occurrences, order))[b])
    requires order[i] == SortByCount(Items(occurrences, order))[a].word
    requires order[j] == SortByCount(Items(occurrences, order))[b].word
    ensures i < j
  {
    var items := Items(occurrences, order);
    var i', j' := SortByCountKeepsTieOrder(items, a, b);
    assert order[i'] == order[i] && order[j'] == order[j];
  }

  /** What the sorted items are: a rearrangement of the dictionary's entries, one
      per word, with non-increasing counts. */
  lemma SortedItems(occurrences: map<string, seq<string>>, order: seq<string>)
    requires forall w :: w in order ==> w in occurrences
    ensures |SortByCount(Items(occurrences, order))| == |order|
    ensures forall m :: 0 <= m < |order| ==>
      var e := SortByCount(Items(occurrences, order))[m];
      e.word in order && e.paths == occurrences[e.word]
    ensures forall w :: w in order ==> exists m :: 0 <= m < |order| && SortByCount(Items(occurrences, order))[m].word == w
    ensures NonIncreasing(SortByCount(Items(occurrences, order)))
  {
    var items := Items(occurrences, order);
    var sorted := SortByCount(items);
    SortByCountPermutation(items);
    SortByCountNonIncreasing(items);
    assert |sorted| == |multiset(sorted)| == |multiset(items)| == |order|;
    forall m | 0 <= m < |order|
      ensures sorted[m].word in order && sorted[m].paths == occurrences[sorted[m].word]
    {
      assert sorted[m] in multiset(items);
    }
    forall w | w in order
      ensures exists m :: 0 <= m < |order| && sorted[m].word == w
    {
      var i :| 0 <= i < |order| && order[i] == w;
      assert items[i] in multiset(sorted);
    }
  }
}
