/**
 * `formatSources`: the sources line under an answer. Results are first
 * deduplicated by location key in a `Map`, keeping for each key the most
 * similar result (the earliest of equally similar ones), then sorted by
 * book, chapter and first page, and printed one `• location` line each.
 */
module FormatSources {
  import opened Strings
  import opened Types
  import opened Citation

  // ---------------------------------------------------------------------
  // the deduplication, as a specification

  predicate DistinctKeys(xs: seq<SearchResult>)
  {
    forall i, j :: 0 <= i < j < |xs| ==> Key(xs[i].metadata) != Key(xs[j].metadata)
  }

  function KeySet(xs: seq<SearchResult>): set<string>
  {
    set i | 0 <= i < |xs| :: Key(xs[i].metadata)
  }

  /**
   * One more result offered to the deduplicated list: it replaces the
   * entry with its key when strictly more similar, and is appended when
   * its key is new (a `Map` keeps a key where it was first set).
   */
  function Absorb(acc: seq<SearchResult>, r: SearchResult): seq<SearchResult>
    decreases |acc|
  {
    if acc == [] then [r]
    else if Key(acc[0].metadata) == Key(r.metadata) then
      if r.similarity > acc[0].similarity then [r] + acc[1..] else acc
    else [acc[0]] + Absorb(acc[1..], r)
  }

  /** The values of the `Map` once every result has been offered, in order. */
  function MaxWins(rs: seq<SearchResult>): seq<SearchResult>
    decreases |rs|
  {
    if rs == [] then [] else Absorb(MaxWins(rs[..|rs| - 1]), rs[|rs| - 1])
  }

  /**
   * Reference definition: the result a key should keep, the first of the
   * most similar results with that key, or nothing if no result has it.
   */
  function Best(rs: seq<SearchResult>, k: string): Option<SearchResult>
    decreases |rs|
  {
    if rs == [] then None
    else
      var b := Best(rs[..|rs| - 1], k);
      var r := rs[|rs| - 1];
      if Key(r.metadata) != k then b
      else if b.None? || r.similarity > b.value.similarity then Some(r)
      else b
  }

  lemma {:induction false} AbsorbNew(acc: seq<SearchResult>, r: SearchResult)
    requires forall j :: 0 <= j < |acc| ==> Key(acc[j].metadata) != Key(r.metadata)
    ensures Absorb(acc, r) == acc + [r]
    decreases |acc|
  {
    if acc != [] {
      AbsorbNew(acc[1..], r);
      assert [acc[0]] + (acc[1..] + [r]) == acc + [r];
    }
  }

  lemma {:induction false} AbsorbFound(acc: seq<SearchResult>, r: SearchResult, j: nat)
    requires DistinctKeys(acc)
    requires j < |acc| && Key(acc[j].metadata) == Key(r.metadata)
    ensures Absorb(acc, r) == if r.similarity > acc[j].similarity then acc[j := r] else acc
    decreases |acc|
  {
    if j == 0 {
      AbsorbHead(acc, r);
    } else {
      assert Key(acc[0].metadata) != Key(acc[j].metadata);
      DistinctTail(acc);
      AbsorbFound(acc[1..], r, j - 1);
      assert Absorb(acc, r) == [acc[0]] + Absorb(acc[1..], r);
      ConsUpdate(acc, j, r);
    }
  }

  lemma AbsorbHead(acc: seq<SearchResult>, r: SearchResult)
    requires acc != [] && Key(acc[0].metadata) == Key(r.metadata)
    ensures Absorb(acc, r) == if r.similarity > acc[0].similarity then acc[0 := r] else acc
  {
    if r.similarity > acc[0].similarity {
      assert [r] + acc[1..] == acc[0 := r];
    }
  }

  lemma ConsUpdate(xs: seq<SearchResult>, j: nat, x: SearchResult)
    requires 0 < j < |xs|
    ensures xs == [xs[0]] + xs[1..]
    ensures xs[j := x] == [xs[0]] + xs[1..][j - 1 := x]
  {
  }

  lemma DistinctTail(xs: seq<SearchResult>)
    requires xs != [] && DistinctKeys(xs)
    ensures DistinctKeys(xs[1..])
  {
    forall i, j | 0 <= i < j < |xs| - 1
      ensures Key(xs[1..][i].metadata) != Key(xs[1..][j].metadata)
    {
      assert xs[1..][i] == xs[i + 1] && xs[1..][j] == xs[j + 1];
    }
  }

  lemma KeySetSnoc(xs: seq<SearchResult>, x: SearchResult)
    ensures KeySet(xs + [x]) == KeySet(xs) + {Key(x.metadata)}
  {
    forall i | 0 <= i < |xs| ensures (xs + [x])[i] == xs[i] { }
    assert (xs + [x])[|xs|] == x;
  }

  /** Distinct keys have distinct positions, so there are as many keys as entries. */
  lemma {:induction false} DistinctKeyCount(xs: seq<SearchResult>)
    requires DistinctKeys(xs)
    ensures |KeySet(xs)| == |xs|
    decreases |xs|
  {
    if xs != [] {
      var init := xs[..|xs| - 1];
      var k := Key(xs[|xs| - 1].metadata);
      DistinctKeyCount(init);
      assert xs == init + [xs[|xs| - 1]];
      KeySetSnoc(init, xs[|xs| - 1]);
      assert k !in KeySet(init);
    }
  }

  /**
   * The deduplicated list holds exactly one entry per distinct key of the
   * input, and each entry is the result its key should keep.
   */
  lemma {:induction false} MaxWinsKeepsBest(rs: seq<SearchResult>)
    ensures DistinctKeys(MaxWins(rs))
    ensures KeySet(MaxWins(rs)) == KeySet(rs)
    ensures forall j :: 0 <= j < |MaxWins(rs)| ==>
      Best(rs, Key(MaxWins(rs)[j].metadata)) == Some(MaxWins(rs)[j])
    decreases |rs|
  {
    if rs != [] {
      var init := rs[..|rs| - 1];
      var r := rs[|rs| - 1];
      var acc := MaxWins(init);
      MaxWinsKeepsBest(init);
      assert rs == init + [r];
      KeySetSnoc(init, r);
      if j :| 0 <= j < |acc| && Key(acc[j].metadata) == Key(r.metadata) {
        AbsorbFound(acc, r, j);
        AbsorbReplaces(rs, acc, j);
      } else {
        AbsorbAppends(rs, acc);
      }
    }
  }

  /** The step of `MaxWinsKeepsBest` when the offered key is already there, at `j`. */
  lemma AbsorbReplaces(rs: seq<SearchResult>, acc: seq<SearchResult>, j: nat)
    requires rs != [] && acc == MaxWins(rs[..|rs| - 1])
    requires DistinctKeys(acc) && KeySet(acc) == KeySet(rs[..|rs| - 1])
    requires forall i :: 0 <= i < |acc| ==> Best(rs[..|rs| - 1], Key(acc[i].metadata)) == Some(acc[i])
    requires j < |acc| && Key(acc[j].metadata) == Key(rs[|rs| - 1].metadata)
    requires MaxWins(rs) == if rs[|rs| - 1].similarity > acc[j].similarity then acc[j := rs[|rs| - 1]] else acc
    requires KeySet(rs) == KeySet(rs[..|rs| - 1]) + {Key(rs[|rs| - 1].metadata)}
    ensures DistinctKeys(MaxWins(rs))
    ensures KeySet(MaxWins(rs)) == KeySet(rs)
    ensures forall i :: 0 <= i < |MaxWins(rs)| ==>
      Best(rs, Key(MaxWins(rs)[i].metadata)) == Some(MaxWins(rs)[i])
  {
    var out := MaxWins(rs);
    var init := rs[..|rs| - 1];
    var r := rs[|rs| - 1];
    ReplacedKeys(acc, out, j);
    forall i | 0 <= i < |out| ensures Best(rs, Key(out[i].metadata)) == Some(out[i]) {
      if i != j {
        OtherKeyBest(rs, acc[i]);
      }
    }
  }

  /** Replacing one entry by one with the same key keeps the keys. */
  lemma ReplacedKeys(acc: seq<SearchResult>, out: seq<SearchResult>, j: nat)
    requires j < |acc| && |out| == |acc| && Key(out[j].metadata) == Key(acc[j].metadata)
    requires forall i :: 0 <= i < |acc| && i != j ==> out[i] == acc[i]
    ensures KeySet(out) == KeySet(acc)
    ensures DistinctKeys(acc) ==> DistinctKeys(out)
  {
    assert forall i :: 0 <= i < |acc| ==> Key(out[i].metadata) == Key(acc[i].metadata);
  }

  /** A result with another key than the last one keeps its best result. */
  lemma OtherKeyBest(rs: seq<SearchResult>, x: SearchResult)
    requires rs != [] && Key(x.metadata) != Key(rs[|rs| - 1].metadata)
    requires Best(rs[..|rs| - 1], Key(x.metadata)) == Some(x)
    ensures Best(rs, Key(x.metadata)) == Some(x)
  {
  }

  /** The step of `MaxWinsKeepsBest` when the offered key is new. */
  lemma AbsorbAppends(rs: seq<SearchResult>, acc: seq<SearchResult>)
    requires rs != [] && acc == MaxWins(rs[..|rs| - 1])
    requires DistinctKeys(acc) && KeySet(acc) == KeySet(rs[..|rs| - 1])
    requires forall i :: 0 <= i < |acc| ==> Best(rs[..|rs| - 1], Key(acc[i].metadata)) == Some(acc[i])
    requires forall i :: 0 <= i < |acc| ==> Key(acc[i].metadata) != Key(rs[|rs| - 1].metadata)
    requires KeySet(rs) == KeySet(rs[..|rs| - 1]) + {Key(rs[|rs| - 1].metadata)}
    ensures DistinctKeys(MaxWins(rs))
    ensures KeySet(MaxWins(rs)) == KeySet(rs)
    ensures forall i :: 0 <= i < |MaxWins(rs)| ==>
      Best(rs, Key(MaxWins(rs)[i].metadata)) == Some(MaxWins(rs)[i])
  {
    var init := rs[..|rs| - 1];
    var r := rs[|rs| - 1];
    AbsorbNew(acc, r);
    var out := acc + [r];
    assert MaxWins(rs) == out;
    BestExists(init, Key(r.metadata));
    KeySetSnoc(acc, r);
    forall i | 0 <= i < |out| ensures Best(rs, Key(out[i].metadata)) == Some(out[i]) {
      if i < |acc| {
        assert out[i] == acc[i];
      }
    }
  }

  /** A key has a best result exactly when some result carries it. */
  lemma {:induction false} BestExists(rs: seq<SearchResult>, k: string)
    ensures Best(rs, k).Some? <==> k in KeySet(rs)
    decreases |rs|
  {
    if rs != [] {
      var init := rs[..|rs| - 1];
      BestExists(init, k);
      assert rs == init + [rs[|rs| - 1]];
      KeySetSnoc(init, rs[|rs| - 1]);
    }
  }

  /**
   * The best result of a key is the most similar result with that key,
   * and every earlier result with that key is strictly less similar:
   * replacing needs a strictly greater similarity, so ties keep the first.
   */
  lemma {:induction false} BestIsFirstMax(rs: seq<SearchResult>, k: string) returns (p: nat)
    requires Best(rs, k).Some?
    ensures p < |rs| && rs[p] == Best(rs, k).value && Key(rs[p].metadata) == k
    ensures forall i :: 0 <= i < |rs| && Key(rs[i].metadata) == k ==>
      rs[i].similarity <= rs[p].similarity
    ensures forall q :: 0 <= q < p && Key(rs[q].metadata) == k ==>
      rs[q].similarity < rs[p].similarity
    decreases |rs|
  {
    var init := rs[..|rs| - 1];
    var r := rs[|rs| - 1];
    var b := Best(init, k);
    if Key(r.metadata) != k {
      p := BestIsFirstMax(init, k);
    } else if b.None? {
      p := |rs| - 1;
      BestExists(init, k);
      forall i | 0 <= i < |init| ensures Key(rs[i].metadata) != k {
        assert rs[i] == init[i];
      }
    } else if r.similarity > b.value.similarity {
      var p0 := BestIsFirstMax(init, k);
      p := |rs| - 1;
      forall i | 0 <= i < |init| && Key(rs[i].metadata) == k ensures rs[i].similarity < r.similarity {
        assert rs[i] == init[i];
      }
    } else {
      p := BestIsFirstMax(init, k);
      forall i | 0 <= i < |init| ensures rs[i] == init[i] { }
    }
  }

  // ---------------------------------------------------------------------
  // the order of the lines

  /**
   * The comparator of the sort: book, then chapter, then first page.
   * `localeCompare` is taken as the plain order of the strings.
   */
  predicate LocationBefore(a: ChunkMetadata, b: ChunkMetadata)
  {
    if a.livre != b.livre then StrLess(a.livre, b.livre)
    else if a.chapitre != b.chapitre then StrLess(a.chapitre, b.chapitre)
    else a.pageDebut < b.pageDebut
  }

  lemma LocationBeforeTransitive(a: ChunkMetadata, b: ChunkMetadata, c: ChunkMetadata)
    requires LocationBefore(a, b) && LocationBefore(b, c)
    ensures LocationBefore(a, c)
  {
    if a.livre != b.livre && b.livre != c.livre {
      StrLessTransitive(a.livre, b.livre, c.livre);
      if a.livre == c.livre {
        StrLessIrreflexive(a.livre);
      }
    } else if a.livre == b.livre && b.livre == c.livre {
      if a.chapitre != b.chapitre && b.chapitre != c.chapitre {
        StrLessTransitive(a.chapitre, b.chapitre, c.chapitre);
        if a.chapitre == c.chapitre {
          StrLessIrreflexive(a.chapitre);
        }
      }
    }
  }

  /** Two different locations are always ordered one way or the other. */
  lemma LocationBeforeTotal(a: ChunkMetadata, b: ChunkMetadata)
    requires (a.livre, a.chapitre, a.pageDebut) != (b.livre, b.chapitre, b.pageDebut)
    ensures LocationBefore(a, b) || LocationBefore(b, a)
  {
    if a.livre != b.livre {
      StrLessTotal(a.livre, b.livre);
    } else if a.chapitre != b.chapitre {
      StrLessTotal(a.chapitre, b.chapitre);
    }
  }

  /** Inserts after every entry that does not come after it, which keeps the sort stable. */
  function Insert(sorted: seq<SearchResult>, x: SearchResult): seq<SearchResult>
    decreases |sorted|
  {
    if sorted == [] then [x]
    else if LocationBefore(x.metadata, sorted[0].metadata) then [x] + sorted
    else [sorted[0]] + Insert(sorted[1..], x)
  }

  /** `Array.prototype.sort` with the location comparator (a stable sort). */
  function SortByLocation(xs: seq<SearchResult>): seq<SearchResult>
    decreases |xs|
  {
    if xs == [] then [] else Insert(SortByLocation(xs[..|xs| - 1]), xs[|xs| - 1])
  }

  /** No entry comes after a later one. */
  predicate SortedByLocation(ys: seq<SearchResult>)
  {
    forall i, j :: 0 <= i < j < |ys| ==> !LocationBefore(ys[j].metadata, ys[i].metadata)
  }

  lemma {:induction false} InsertSorted(sorted: seq<SearchResult>, x: SearchResult)
    requires SortedByLocation(sorted)
    ensures SortedByLocation(Insert(sorted, x))
    ensures multiset(Insert(sorted, x)) == multiset(sorted) + multiset{x}
    decreases |sorted|
  {
    if sorted == [] {
    } else if LocationBefore(x.metadata, sorted[0].metadata) {
      InsertFront(sorted, x);
    } else {
      var rest := sorted[1..];
      assert SortedByLocation(rest);
      InsertSorted(rest, x);
      assert sorted == [sorted[0]] + rest;
      InsertBehind(sorted[0], rest, x);
    }
  }

  /** `x` goes first: nothing in the list comes before it. */
  lemma InsertFront(sorted: seq<SearchResult>, x: SearchResult)
    requires SortedByLocation(sorted) && sorted != []
    requires LocationBefore(x.metadata, sorted[0].metadata)
    ensures SortedByLocation([x] + sorted)
  {
    var ys := [x] + sorted;
    forall i, j | 0 <= i < j < |ys| ensures !LocationBefore(ys[j].metadata, ys[i].metadata) {
      assert ys[j] == sorted[j - 1];
      if i == 0 {
        if LocationBefore(ys[j].metadata, x.metadata) {
          LocationBeforeTransitive(ys[j].metadata, x.metadata, sorted[0].metadata);
        }
      } else {
        assert ys[i] == sorted[i - 1];
        assert !LocationBefore(sorted[j - 1].metadata, sorted[i - 1].metadata);
      }
    }
  }

  /** `x` goes behind the head `h`, into the already sorted rest. */
  lemma InsertBehind(h: SearchResult, rest: seq<SearchResult>, x: SearchResult)
    requires SortedByLocation([h] + rest) && !LocationBefore(x.metadata, h.metadata)
    requires SortedByLocation(Insert(rest, x))
    requires multiset(Insert(rest, x)) == multiset(rest) + multiset{x}
    ensures SortedByLocation([h] + Insert(rest, x))
  {
    var ins := Insert(rest, x);
    var ys := [h] + ins;
    forall i, j | 0 <= i < j < |ys| ensures !LocationBefore(ys[j].metadata, ys[i].metadata) {
      assert ys[j] == ins[j - 1];
      if i == 0 {
        assert ys[0] == h;
        NotBeforeHead(h, rest, x, ins[j - 1]);
      } else {
        assert ys[i] == ins[i - 1];
      }
    }
  }

  /** Neither `x` nor anything already behind the head comes before it. */
  lemma NotBeforeHead(h: SearchResult, rest: seq<SearchResult>, x: SearchResult, y: SearchResult)
    requires SortedByLocation([h] + rest) && !LocationBefore(x.metadata, h.metadata)
    requires y in multiset(rest) + multiset{x}
    ensures !LocationBefore(y.metadata, h.metadata)
  {
    if y != x {
      assert y in multiset(rest);
      var q :| 0 <= q < |rest| && rest[q] == y;
      assert ([h] + rest)[q + 1] == y && ([h] + rest)[0] == h;
    }
  }

  /** The sort orders by location and neither loses nor invents a result. */
  lemma {:induction false} SortByLocationCorrect(xs: seq<SearchResult>)
    ensures SortedByLocation(SortByLocation(xs))
    ensures multiset(SortByLocation(xs)) == multiset(xs)
    decreases |xs|
  {
    if xs != [] {
      var init := xs[..|xs| - 1];
      SortByLocationCorrect(init);
      InsertSorted(SortByLocation(init), xs[|xs| - 1]);
      assert xs == init + [xs[|xs| - 1]];
    }
  }

  /**
   * Once deduplicated, no two results share a location, so the sorted
   * lines go strictly forward: by book, then chapter, then first page.
   */
  lemma SortedStrictly(ys: seq<SearchResult>)
    requires SortedByLocation(ys) && DistinctKeys(ys)
    ensures forall i, j :: 0 <= i < j < |ys| ==> LocationBefore(ys[i].metadata, ys[j].metadata)
  {
    forall i, j | 0 <= i < j < |ys| ensures LocationBefore(ys[i].metadata, ys[j].metadata) {
      LocationBeforeTotal(ys[i].metadata, ys[j].metadata);
    }
  }

  /** Sorting a list without repeated keys gives a list without repeated keys. */
  lemma SortKeepsDistinct(xs: seq<SearchResult>)
    requires DistinctKeys(xs)
    ensures DistinctKeys(SortByLocation(xs))
    ensures KeySet(SortByLocation(xs)) == KeySet(xs)
  {
    var ys := SortByLocation(xs);
    SortByLocationCorrect(xs);
    PermutationKeys(xs, ys);
  }

  /** Two lists with the same elements have the same keys, and the same repeats. */
  lemma PermutationKeys(xs: seq<SearchResult>, ys: seq<SearchResult>)
    requires multiset(xs) == multiset(ys) && DistinctKeys(xs)
    ensures DistinctKeys(ys) && KeySet(xs) == KeySet(ys)
  {
    forall k | k in KeySet(xs) ensures k in KeySet(ys) {
      var i :| 0 <= i < |xs| && Key(xs[i].metadata) == k;
      assert xs[i] in multiset(ys);
    }
    forall k | k in KeySet(ys) ensures k in KeySet(xs) {
      var i :| 0 <= i < |ys| && Key(ys[i].metadata) == k;
      assert ys[i] in multiset(xs);
    }
    forall i, j | 0 <= i < j < |ys| ensures Key(ys[i].metadata) != Key(ys[j].metadata) {
      if Key(ys[i].metadata) == Key(ys[j].metadata) {
        var a := PositionIn(xs, ys[i]);
        var b := PositionIn(xs, ys[j]);
        if ys[i] == ys[j] {
          assert multiset(ys)[ys[i]] >= 2 by {
            assert ys == ys[..i] + [ys[i]] + ys[i + 1..j] + [ys[j]] + ys[j + 1..];
          }
          assert multiset(xs)[ys[i]] >= 2;
          DistinctKeysNoRepeat(xs, ys[i]);
        }
      }
    }
  }

  lemma PositionIn(xs: seq<SearchResult>, y: SearchResult) returns (p: nat)
    requires y in multiset(xs)
    ensures p < |xs| && xs[p] == y
  {
    assert y in xs;
    p :| 0 <= p < |xs| && xs[p] == y;
  }

  /** Without repeated keys a result occurs at most once. */
  lemma {:induction false} DistinctKeysNoRepeat(xs: seq<SearchResult>, y: SearchResult)
    requires DistinctKeys(xs)
    ensures multiset(xs)[y] <= 1
    decreases |xs|
  {
    if xs != [] {
      var init := xs[..|xs| - 1];
      assert xs == init + [xs[|xs| - 1]];
      DistinctKeysNoRepeat(init, y);
    }
  }

  // ---------------------------------------------------------------------
  // the listing

  function Line(r: SearchResult): string
  {
    "• " + ShortLocation(r.metadata)
  }

  function Lines(xs: seq<SearchResult>): (ls: seq<string>)
    ensures |ls| == |xs|
  {
    seq(|xs|, i requires 0 <= i < |xs| => Line(xs[i]))
  }

  /** The text `formatSources` returns for these results. */
  function Listing(results: seq<SearchResult>): string
  {
    Join(Lines(SortByLocation(MaxWins(results))), "\n")
  }

  /** `formatSources(results)`: the `Map` loop, then sort, map and join. */
  method FormatSourcesText(results: seq<SearchResult>) returns (text: string)
    ensures text == Listing(results)
  {
    var order: seq<string> := [];
    var unique: map<string, SearchResult> := map[];
    for i := 0 to |results|
      invariant MapShape(order, unique)
      invariant MapValues(order, unique) == MaxWins(results[..i])
    {
      var r := results[i];
      var key := Key(r.metadata);
      order, unique := Offer(order, unique, key, r);
      assert results[..i + 1][..i] == results[..i];
    }
    assert results[..|results|] == results;
    var values := MapValues(order, unique);
    text := Join(Lines(SortByLocation(values)), "\n");
  }

  /**
   * A JavaScript `Map` as the keys in insertion order and their values:
   * each key once, each key its own result's key.
   */
  predicate MapShape(order: seq<string>, unique: map<string, SearchResult>)
  {
    && (forall j :: 0 <= j < |order| ==> order[j] in unique && Key(unique[order[j]].metadata) == order[j])
    && (forall k :: k in unique ==> k in order)
    && (forall i, j :: 0 <= i < j < |order| ==> order[i] != order[j])
  }

  /** `Array.from(map.values())`. */
  function MapValues(order: seq<string>, unique: map<string, SearchResult>): (vs: seq<SearchResult>)
    requires forall j :: 0 <= j < |order| ==> order[j] in unique
    ensures |vs| == |order|
  {
    seq(|order|, j requires 0 <= j < |order| => unique[order[j]])
  }

  /**
   * One turn of the loop: `if (!map.has(key) || r.similarity > map.get(key).similarity) map.set(key, r)`.
   * The stored similarity is never `0 ||`-replaced by anything but 0 itself.
   */
  method Offer(order: seq<string>, unique: map<string, SearchResult>, key: string, r: SearchResult)
      returns (order': seq<string>, unique': map<string, SearchResult>)
    requires MapShape(order, unique) && key == Key(r.metadata)
    ensures MapShape(order', unique')
    ensures MapValues(order', unique') == Absorb(MapValues(order, unique), r)
  {
    if key !in unique {
      NewKeyAppends(order, unique, key, r);
      order', unique' := order + [key], unique[key := r];
    } else {
      var j :| 0 <= j < |order| && order[j] == key;
      KnownKeyReplaces(order, unique, j, r);
      if r.similarity > unique[key].similarity {
        order', unique' := order, unique[key := r];
      } else {
        order', unique' := order, unique;
      }
    }
  }

  lemma MapDistinct(order: seq<string>, unique: map<string, SearchResult>)
    requires MapShape(order, unique)
    ensures DistinctKeys(MapValues(order, unique))
  {
  }

  /** `map.set` on a new key appends it. */
  lemma NewKeyAppends(order: seq<string>, unique: map<string, SearchResult>, key: string, r: SearchResult)
    requires MapShape(order, unique) && key == Key(r.metadata) && key !in unique
    ensures MapShape(order + [key], unique[key := r])
    ensures MapValues(order + [key], unique[key := r]) == Absorb(MapValues(order, unique), r)
  {
    var acc := MapValues(order, unique);
    forall j | 0 <= j < |acc| ensures Key(acc[j].metadata) != key {
      assert order[j] != key;
    }
    AbsorbNew(acc, r);
    assert MapValues(order + [key], unique[key := r]) == acc + [r];
  }

  /** `map.set` on a known key replaces its value where it stands. */
  lemma KnownKeyReplaces(order: seq<string>, unique: map<string, SearchResult>, j: nat, r: SearchResult)
    requires MapShape(order, unique) && j < |order| && order[j] == Key(r.metadata)
    ensures MapShape(order, unique[order[j] := r])
    ensures MapValues(order, unique[order[j] := r]) == MapValues(order, unique)[j := r]
    ensures Absorb(MapValues(order, unique), r)
      == if r.similarity > unique[order[j]].similarity then MapValues(order, unique)[j := r]
         else MapValues(order, unique)
  {
    MapDistinct(order, unique);
    AbsorbFound(MapValues(order, unique), r, j);
    ReplaceValues(order, unique, j, r);
    ReplaceShape(order, unique, j, r);
  }

  lemma ReplaceValues(order: seq<string>, unique: map<string, SearchResult>, j: nat, r: SearchResult)
    requires MapShape(order, unique) && j < |order|
    ensures MapValues(order, unique[order[j] := r]) == MapValues(order, unique)[j := r]
  {
    var acc := MapValues(order, unique);
    var unique' := unique[order[j] := r];
    forall i | 0 <= i < |order| ensures unique'[order[i]] == acc[j := r][i] {
      if i != j {
        assert order[i] != order[j];
      }
    }
  }

  lemma ReplaceShape(order: seq<string>, unique: map<string, SearchResult>, j: nat, r: SearchResult)
    requires MapShape(order, unique) && j < |order| && order[j] == Key(r.metadata)
    ensures MapShape(order, unique[order[j] := r])
  {
    var unique' := unique[order[j] := r];
    forall i | 0 <= i < |order|
      ensures order[i] in unique' && Key(unique'[order[i]].metadata) == order[i]
    {
      if order[i] != order[j] {
        assert unique'[order[i]] == unique[order[i]];
      }
    }
    forall k | k in unique' ensures k in order {
      if k != order[j] {
        assert k in unique;
      }
    }
  }

  /**
   * What the listing promises: one `•` line per distinct key of the input,
   * in strictly increasing location order, each showing the location of
   * the result its key keeps; no input, no text.
   */
  lemma ListingCorrect(results: seq<SearchResult>)
    ensures var ys := SortByLocation(MaxWins(results));
      && |Lines(ys)| == |KeySet(results)|
      && (forall i, j :: 0 <= i < j < |ys| ==> LocationBefore(ys[i].metadata, ys[j].metadata))
      && (forall i :: 0 <= i < |ys| ==> Best(results, Key(ys[i].metadata)) == Some(ys[i]))
      && (results == [] <==> Listing(results) == "")
  {
    var out := MaxWins(results);
    var ys := SortByLocation(out);
    MaxWinsKeepsBest(results);
    SortByLocationCorrect(out);
    SortKeepsDistinct(out);
    DistinctKeyCount(ys);
    SortedStrictly(ys);
    forall i | 0 <= i < |ys| ensures Best(results, Key(ys[i].metadata)) == Some(ys[i]) {
      assert ys[i] in multiset(out);
      var p := PositionIn(out, ys[i]);
    }
    if results != [] {
      assert Key(results[0].metadata) in KeySet(results);
      assert |ys| > 0;
      LineNotEmpty(ys[0]);
      JoinEnds(Lines(ys), "\n");
    }
  }

  lemma LineNotEmpty(r: SearchResult)
    ensures |Line(r)| > 0
  {
  }
}
