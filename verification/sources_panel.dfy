/**
 * The list of sources under an answer in the chat panel (`SourcesPanel`):
 * a `reduce` that keeps the first item of each location key, a sort by
 * decreasing similarity, and the short location of each item. Unlike
 * `formatSources`, a later item with the same key is dropped even when it
 * is more similar.
 */
module SourcesPanel {
  import opened Types
  import opened Citation

  datatype SourceItem = SourceItem(id: int, metadata: ChunkMetadata, similarity: real, preview: string)

  function ItemKeys(xs: seq<SourceItem>): set<string>
  {
    set i | 0 <= i < |xs| :: Key(xs[i].metadata)
  }

  predicate DistinctItemKeys(xs: seq<SourceItem>)
  {
    forall i, j :: 0 <= i < j < |xs| ==> Key(xs[i].metadata) != Key(xs[j].metadata)
  }

  lemma ItemKeysSnoc(xs: seq<SourceItem>, x: SourceItem)
    ensures ItemKeys(xs + [x]) == ItemKeys(xs) + {Key(x.metadata)}
  {
    forall i | 0 <= i < |xs| ensures (xs + [x])[i] == xs[i] { }
    assert (xs + [x])[|xs|] == x;
  }

  // ---------------------------------------------------------------------
  // the first-wins fold

  /** `sources.reduce((acc, s) => acc.has(key) ? acc : acc.set(key, s), new Map())`, as its values. */
  function FirstWins(items: seq<SourceItem>): seq<SourceItem>
    decreases |items|
  {
    if items == [] then []
    else
      var acc := FirstWins(items[..|items| - 1]);
      var x := items[|items| - 1];
      if Key(x.metadata) in ItemKeys(acc) then acc else acc + [x]
  }

  /** The fold keeps exactly one item per distinct key of its input. */
  lemma {:induction false} FirstWinsKeys(items: seq<SourceItem>)
    ensures DistinctItemKeys(FirstWins(items))
    ensures ItemKeys(FirstWins(items)) == ItemKeys(items)
    decreases |items|
  {
    if items != [] {
      var init := items[..|items| - 1];
      var x := items[|items| - 1];
      var acc := FirstWins(init);
      FirstWinsKeys(init);
      assert items == init + [x];
      ItemKeysSnoc(init, x);
      if Key(x.metadata) !in ItemKeys(acc) {
        ItemKeysSnoc(acc, x);
        forall i | 0 <= i < |acc| ensures Key(acc[i].metadata) != Key(x.metadata) { }
        DistinctSnoc(acc, x);
      }
    }
  }

  lemma DistinctSnoc(xs: seq<SourceItem>, x: SourceItem)
    requires DistinctItemKeys(xs)
    requires forall i :: 0 <= i < |xs| ==> Key(xs[i].metadata) != Key(x.metadata)
    ensures DistinctItemKeys(xs + [x])
  {
    var out := xs + [x];
    forall i, j | 0 <= i < j < |out| ensures Key(out[i].metadata) != Key(out[j].metadata) {
      assert out[i] == xs[i];
      if j < |xs| {
        assert out[j] == xs[j];
      }
    }
  }

  /**
   * `ps` are the input positions of the kept items: increasing, so the
   * kept items are in the order their keys first appear, and each the
   * first item carrying its key.
   */
  predicate FirstPositions(items: seq<SourceItem>, out: seq<SourceItem>, ps: seq<nat>)
  {
    && |ps| == |out|
    && (forall j :: 0 <= j < |ps| ==> ps[j] < |items| && items[ps[j]] == out[j])
    && (forall j, q :: 0 <= j < |ps| && 0 <= q < ps[j] ==> Key(items[q].metadata) != Key(out[j].metadata))
    && (forall i, j :: 0 <= i < j < |ps| ==> ps[i] < ps[j])
  }

  /** Each kept item is the first item with its key, kept in first-seen order. */
  lemma {:induction false} FirstWinsKeepsFirst(items: seq<SourceItem>) returns (ps: seq<nat>)
    ensures FirstPositions(items, FirstWins(items), ps)
    decreases |items|
  {
    if items == [] {
      ps := [];
    } else {
      var init := items[..|items| - 1];
      var x := items[|items| - 1];
      var acc := FirstWins(init);
      var ps0 := FirstWinsKeepsFirst(init);
      FirstWinsKeys(init);
      PositionsExtend(init, x, acc, ps0);
      assert forall j :: 0 <= j < |ps0| ==> ps0[j] < |init|;
      assert items == init + [x];
      if Key(x.metadata) in ItemKeys(acc) {
        ps := ps0;
      } else {
        ps := ps0 + [|items| - 1];
        NewKeyPosition(init, x, acc, ps0);
      }
    }
  }

  lemma PositionsExtend(init: seq<SourceItem>, x: SourceItem, acc: seq<SourceItem>, ps: seq<nat>)
    requires FirstPositions(init, acc, ps)
    ensures FirstPositions(init + [x], acc, ps)
  {
    var items := init + [x];
    forall j | 0 <= j < |ps| ensures items[ps[j]] == init[ps[j]] { }
    forall j, q | 0 <= j < |ps| && 0 <= q < ps[j] ensures items[q] == init[q] { }
  }

  lemma NewKeyPosition(init: seq<SourceItem>, x: SourceItem, acc: seq<SourceItem>, ps: seq<nat>)
    requires FirstPositions(init + [x], acc, ps)
    requires forall j :: 0 <= j < |ps| ==> ps[j] < |init|
    requires ItemKeys(acc) == ItemKeys(init) && Key(x.metadata) !in ItemKeys(acc)
    ensures FirstPositions(init + [x], acc + [x], ps + [|init|])
  {
    var items := init + [x];
    var out := acc + [x];
    var ps' := ps + [|init|];
    forall j | 0 <= j < |ps'| ensures ps'[j] < |items| && items[ps'[j]] == out[j] {
      if j < |ps| {
        assert out[j] == acc[j] && ps'[j] == ps[j];
      }
    }
    forall j, q | 0 <= j < |ps'| && 0 <= q < ps'[j] ensures Key(items[q].metadata) != Key(out[j].metadata) {
      if j < |ps| {
        assert out[j] == acc[j] && ps'[j] == ps[j];
      } else {
        assert items[q] == init[q];
        assert Key(init[q].metadata) in ItemKeys(init);
      }
    }
  }

  /** Hence the fold is never longer than its input, and as long as its number of keys. */
  lemma FirstWinsLength(items: seq<SourceItem>)
    ensures |FirstWins(items)| == |ItemKeys(items)| <= |items|
  {
    var out := FirstWins(items);
    FirstWinsKeys(items);
    DistinctItemKeyCount(out);
    ItemKeysBound(items);
  }

  lemma {:induction false} DistinctItemKeyCount(xs: seq<SourceItem>)
    requires DistinctItemKeys(xs)
    ensures |ItemKeys(xs)| == |xs|
    decreases |xs|
  {
    if xs != [] {
      var init := xs[..|xs| - 1];
      DistinctItemKeyCount(init);
      assert xs == init + [xs[|xs| - 1]];
      ItemKeysSnoc(init, xs[|xs| - 1]);
      assert Key(xs[|xs| - 1].metadata) !in ItemKeys(init);
    }
  }

  lemma {:induction false} ItemKeysBound(xs: seq<SourceItem>)
    ensures |ItemKeys(xs)| <= |xs|
    decreases |xs|
  {
    if xs != [] {
      var init := xs[..|xs| - 1];
      ItemKeysBound(init);
      assert xs == init + [xs[|xs| - 1]];
      ItemKeysSnoc(init, xs[|xs| - 1]);
    }
  }

  // ---------------------------------------------------------------------
  // the similarity sort

  /** Inserts behind every item at least as similar, which keeps the sort stable. */
  function InsertBySimilarity(sorted: seq<SourceItem>, x: SourceItem): seq<SourceItem>
    decreases |sorted|
  {
    if sorted == [] then [x]
    else if x.similarity > sorted[0].similarity then [x] + sorted
    else [sorted[0]] + InsertBySimilarity(sorted[1..], x)
  }

  /** `.sort((a, b) => b.similarity - a.similarity)`, a stable sort. */
  function SortBySimilarity(xs: seq<SourceItem>): seq<SourceItem>
    decreases |xs|
  {
    if xs == [] then [] else InsertBySimilarity(SortBySimilarity(xs[..|xs| - 1]), xs[|xs| - 1])
  }

  predicate NonIncreasing(ys: seq<SourceItem>)
  {
    forall i, j :: 0 <= i < j < |ys| ==> ys[i].similarity >= ys[j].similarity
  }

  /** The items of one similarity, in their order. */
  function WithSimilarity(xs: seq<SourceItem>, s: real): seq<SourceItem>
    decreases |xs|
  {
    if xs == [] then []
    else WithSimilarity(xs[..|xs| - 1], s) + (if xs[|xs| - 1].similarity == s then [xs[|xs| - 1]] else [])
  }

  lemma {:induction false} WithSimilarityCons(x: SourceItem, xs: seq<SourceItem>, s: real)
    ensures WithSimilarity([x] + xs, s) == (if x.similarity == s then [x] else []) + WithSimilarity(xs, s)
    decreases |xs|
  {
    if xs != [] {
      var init := xs[..|xs| - 1];
      WithSimilarityCons(x, init, s);
      assert ([x] + xs)[..|xs|] == [x] + init;
    } else {
      assert ([x] + xs)[..0] == [];
    }
  }

  /** Above all items of similarity `s` sit only items at least as similar. */
  lemma {:induction false} WithSimilarityAllBelow(xs: seq<SourceItem>, s: real)
    requires forall i :: 0 <= i < |xs| ==> xs[i].similarity < s
    ensures WithSimilarity(xs, s) == []
    decreases |xs|
  {
    if xs != [] {
      WithSimilarityAllBelow(xs[..|xs| - 1], s);
    }
  }

  lemma {:induction false} InsertBySimilarityFacts(sorted: seq<SourceItem>, x: SourceItem)
    requires NonIncreasing(sorted)
    ensures NonIncreasing(InsertBySimilarity(sorted, x))
    ensures multiset(InsertBySimilarity(sorted, x)) == multiset(sorted) + multiset{x}
    decreases |sorted|
  {
    if sorted == [] {
    } else if x.similarity > sorted[0].similarity {
      InsertFirst(sorted, x);
    } else {
      var rest := sorted[1..];
      assert sorted == [sorted[0]] + rest;
      InsertBySimilarityFacts(rest, x);
      NonIncreasingCons(sorted[0], rest, x, InsertBySimilarity(rest, x));
    }
  }

  lemma InsertFirst(sorted: seq<SourceItem>, x: SourceItem)
    requires NonIncreasing(sorted) && sorted != [] && x.similarity > sorted[0].similarity
    ensures NonIncreasing([x] + sorted)
  {
    var ys := [x] + sorted;
    forall i, j | 0 <= i < j < |ys| ensures ys[i].similarity >= ys[j].similarity {
      assert ys[j] == sorted[j - 1];
      if i > 0 {
        assert ys[i] == sorted[i - 1];
      } else {
        assert sorted[0].similarity >= sorted[j - 1].similarity;
      }
    }
  }

  /** Items of one similarity keep their order: the inserted one goes behind its equals. */
  lemma {:induction false} InsertKeepsEquals(sorted: seq<SourceItem>, x: SourceItem, s: real)
    requires NonIncreasing(sorted)
    ensures WithSimilarity(InsertBySimilarity(sorted, x), s)
      == WithSimilarity(sorted, s) + (if x.similarity == s then [x] else [])
    decreases |sorted|
  {
    if sorted == [] {
      assert [x][..0] == [];
    } else if x.similarity > sorted[0].similarity {
      FrontKeepsEquals(sorted, x, s);
    } else {
      var h := sorted[0];
      var rest := sorted[1..];
      var ins := InsertBySimilarity(rest, x);
      assert sorted == [h] + rest;
      assert InsertBySimilarity(sorted, x) == [h] + ins;
      NonIncreasingTail(sorted);
      InsertKeepsEquals(rest, x, s);
      WithSimilarityCons(h, ins, s);
      WithSimilarityCons(h, rest, s);
      var hs := if h.similarity == s then [h] else [];
      var xs := if x.similarity == s then [x] else [];
      assert hs + (WithSimilarity(rest, s) + xs) == (hs + WithSimilarity(rest, s)) + xs;
    }
  }

  lemma NonIncreasingTail(sorted: seq<SourceItem>)
    requires NonIncreasing(sorted) && sorted != []
    ensures NonIncreasing(sorted[1..])
  {
    var rest := sorted[1..];
    forall i, j | 0 <= i < j < |rest| ensures rest[i].similarity >= rest[j].similarity {
      assert rest[i] == sorted[i + 1] && rest[j] == sorted[j + 1];
    }
  }

  /** `x` goes first only when more similar than everything, so it has no equal there. */
  lemma FrontKeepsEquals(sorted: seq<SourceItem>, x: SourceItem, s: real)
    requires NonIncreasing(sorted) && sorted != [] && x.similarity > sorted[0].similarity
    ensures WithSimilarity([x] + sorted, s) == WithSimilarity(sorted, s) + (if x.similarity == s then [x] else [])
  {
    WithSimilarityCons(x, sorted, s);
    if x.similarity == s {
      forall i | 0 <= i < |sorted| ensures sorted[i].similarity < s {
        assert sorted[0].similarity >= sorted[i].similarity;
      }
      WithSimilarityAllBelow(sorted, s);
    }
  }

  lemma NonIncreasingCons(h: SourceItem, rest: seq<SourceItem>, x: SourceItem, ins: seq<SourceItem>)
    requires NonIncreasing([h] + rest) && x.similarity <= h.similarity
    requires NonIncreasing(ins) && multiset(ins) == multiset(rest) + multiset{x}
    ensures NonIncreasing([h] + ins)
  {
    var ys := [h] + ins;
    forall i, j | 0 <= i < j < |ys| ensures ys[i].similarity >= ys[j].similarity {
      assert ys[j] == ins[j - 1];
      if i == 0 {
        var y := ins[j - 1];
        assert y in multiset(ins);
        if y != x {
          assert y in multiset(rest);
          var q :| 0 <= q < |rest| && rest[q] == y;
          assert ([h] + rest)[q + 1] == y && ([h] + rest)[0] == h;
        }
      } else {
        assert ys[i] == ins[i - 1];
      }
    }
  }

  /**
   * The displayed order never increases in similarity, holds the same
   * items, and keeps items of equal similarity in the order they came in.
   */
  lemma {:induction false} SortBySimilarityCorrect(xs: seq<SourceItem>)
    ensures NonIncreasing(SortBySimilarity(xs))
    ensures multiset(SortBySimilarity(xs)) == multiset(xs)
    ensures forall s :: WithSimilarity(SortBySimilarity(xs), s) == WithSimilarity(xs, s)
    decreases |xs|
  {
    if xs != [] {
      var init := xs[..|xs| - 1];
      var x := xs[|xs| - 1];
      SortBySimilarityCorrect(init);
      assert xs == init + [x];
      forall s ensures WithSimilarity(SortBySimilarity(xs), s) == WithSimilarity(xs, s) {
        InsertKeepsEquals(SortBySimilarity(init), x, s);
        assert xs[..|xs| - 1] == init;
      }
      InsertBySimilarityFacts(SortBySimilarity(init), x);
    }
  }

  // ---------------------------------------------------------------------
  // the rendered list

  /** The location each row shows: `Livre X, Chap. Y, p. a-b`, never the section. */
  function RowLocation(x: SourceItem): string
  {
    ShortLocation(x.metadata)
  }

  /** What `SourcesPanel` shows: nothing for no sources, else the rows in display order. */
  function Displayed(sources: seq<SourceItem>): Option<seq<SourceItem>>
  {
    if |sources| == 0 then None else Some(SortBySimilarity(FirstWins(sources)))
  }

  /**
   * No sources, no panel. Otherwise the panel counts and shows one row
   * per distinct key, no more rows than sources, most similar first, and
   * each row is the first source with its key.
   */
  lemma DisplayedCorrect(sources: seq<SourceItem>)
    ensures Displayed(sources).None? <==> sources == []
    ensures Displayed(sources).Some? ==>
      var rows := Displayed(sources).value;
      && |rows| == |ItemKeys(sources)| <= |sources|
      && NonIncreasing(rows)
      && DistinctItemKeys(rows)
      && (forall i :: 0 <= i < |rows| ==> IsFirstWithKey(sources, rows[i]))
  {
    if sources != [] {
      var out := FirstWins(sources);
      var rows := SortBySimilarity(out);
      FirstWinsLength(sources);
      FirstWinsKeys(sources);
      SortBySimilarityCorrect(out);
      assert |rows| == |multiset(rows)| == |multiset(out)| == |out|;
      SortedDistinct(out, rows);
      RowsAreFirst(sources, out, rows);
    }
  }

  /** `x` occurs in `sources`, and no earlier source has its key. */
  predicate IsFirstWithKey(sources: seq<SourceItem>, x: SourceItem)
  {
    exists p :: 0 <= p < |sources| && sources[p] == x && NoEarlierKey(sources, p)
  }

  predicate NoEarlierKey(sources: seq<SourceItem>, p: nat)
    requires p < |sources|
  {
    forall q :: 0 <= q < p ==> Key(sources[q].metadata) != Key(sources[p].metadata)
  }

  lemma RowsAreFirst(sources: seq<SourceItem>, out: seq<SourceItem>, rows: seq<SourceItem>)
    requires out == FirstWins(sources) && multiset(rows) == multiset(out)
    ensures forall i :: 0 <= i < |rows| ==> IsFirstWithKey(sources, rows[i])
  {
    var ps := FirstWinsKeepsFirst(sources);
    forall i | 0 <= i < |rows| ensures IsFirstWithKey(sources, rows[i]) {
      assert rows[i] in multiset(out);
      var j :| 0 <= j < |out| && out[j] == rows[i];
      assert sources[ps[j]] == rows[i] && NoEarlierKey(sources, ps[j]);
    }
  }

  lemma SortedDistinct(out: seq<SourceItem>, rows: seq<SourceItem>)
    requires DistinctItemKeys(out) && multiset(rows) == multiset(out)
    ensures DistinctItemKeys(rows)
  {
    forall i, j | 0 <= i < j < |rows| ensures Key(rows[i].metadata) != Key(rows[j].metadata) {
      if Key(rows[i].metadata) == Key(rows[j].metadata) {
        assert rows[i] in multiset(out) && rows[j] in multiset(out);
        var a :| 0 <= a < |out| && out[a] == rows[i];
        var b :| 0 <= b < |out| && out[b] == rows[j];
        if a == b {
          assert multiset(rows)[rows[i]] >= 2 by {
            assert rows == rows[..i] + [rows[i]] + rows[i + 1..j] + [rows[j]] + rows[j + 1..];
          }
          ItemNoRepeat(out, rows[i]);
        }
      }
    }
  }

  lemma {:induction false} ItemNoRepeat(xs: seq<SourceItem>, y: SourceItem)
    requires DistinctItemKeys(xs)
    ensures multiset(xs)[y] <= 1
    decreases |xs|
  {
    if xs != [] {
      var init := xs[..|xs| - 1];
      assert xs == init + [xs[|xs| - 1]];
      ItemNoRepeat(init, y);
    }
  }

  /**
   * First wins, not most similar: of two sources with the same location,
   * the panel keeps the earlier one even when the later is more similar.
   */
  lemma LaterDuplicateDropped(a: SourceItem, b: SourceItem)
    requires Key(a.metadata) == Key(b.metadata)
    ensures Displayed([a, b]) == Some([a])
  {
    assert [a, b][..1] == [a];
    assert [a][..0] == [];
    assert FirstWins([a]) == [a];
    assert ItemKeys([a]) == {Key(a.metadata)} by {
      assert [a][0] == a;
    }
    assert FirstWins([a, b]) == [a];
    assert SortBySimilarity([a]) == [a];
  }
}
