/**
 * The ingestion script: chunks are sent in batches of 20 to the embedding
 * service (retried on failure, with a longer wait after a rate limit) and
 * stored row by row in the `enghien_documents` table. The embedding service
 * and the database are oracles: `service(texts, k)` is the reply to the
 * k-th attempt (0 for the first) at embedding `texts`, and `accepts(p)`
 * says whether the `INSERT` that would become row `p` of the table succeeds.
 */
module Ingest {
  import opened Types
  import opened Rag

  /**
   * Chunks per batch. Where a batch number is multiplied or a position
   * divided by it, the literal `20` is written instead of this name, which
   * keeps that arithmetic linear.
   */
  const BatchSize: nat := 20
  /** Pause between two batches, in milliseconds. */
  const RateLimitDelay: nat := 500
  const MaxRetries: nat := 3
  /** Base wait before a retry, in milliseconds. */
  const RetryDelay: nat := 5000

  /** An embedding vector, its numbers as the text they are joined from. */
  type Vector = seq<string>

  /** A reply of the embedding service, or the error it throws (with its HTTP status, if any). */
  datatype Reply = Vectors(data: seq<Vector>) | Failed(status: Option<int>)

  /** One row of `enghien_documents`: the content, the `[x,y,…]` vector text and the metadata. */
  datatype Row = Row(content: string, embedding: string, metadata: ChunkMetadata)

  // ---------------------------------------------------------------------
  // batches

  /** The end of the batch starting at `i`: `slice(i, i + 20)` stops at the end of the list. */
  function BatchEnd(n: nat, i: nat): nat
  {
    if i + BatchSize < n then i + BatchSize else n
  }

  /** `Math.ceil(n / 20)`. */
  function BatchCount(n: nat): nat
  {
    (n + 19) / 20
  }

  /** Batch number `b` (from 0): the slice starting at `20 * b`. */
  function Batch<T>(xs: seq<T>, b: nat): seq<T>
    requires b * 20 < |xs|
  {
    xs[b * 20..BatchEnd(|xs|, b * 20)]
  }

  /** The list cut into batches, front to back. */
  function Batches<T>(xs: seq<T>): seq<seq<T>>
    decreases |xs|
  {
    if xs == [] then [] else [xs[..BatchEnd(|xs|, 0)]] + Batches(xs[BatchEnd(|xs|, 0)..])
  }

  function Flatten<T>(xss: seq<seq<T>>): seq<T>
  {
    if xss == [] then [] else xss[0] + Flatten(xss[1..])
  }

  /** A batch starts inside the list exactly when its number is below `⌈n / 20⌉`. */
  lemma BatchCountIff(n: nat, b: nat)
    ensures b * 20 < n <==> b < BatchCount(n)
  {
  }

  /** The batch after the first twenty elements is the next batch of the whole list. */
  lemma BatchShift<T>(xs: seq<T>, b: nat)
    requires |xs| > BatchSize && b * 20 < |xs| - BatchSize
    ensures Batch(xs[BatchSize..], b) == Batch(xs, b + 1)
  {
    var ys := xs[BatchSize..];
    var lo, hi := b * 20, BatchEnd(|ys|, b * 20);
    assert (b + 1) * 20 == lo + BatchSize;
    assert hi + BatchSize == BatchEnd(|xs|, (b + 1) * 20);
    assert ys[lo..hi] == xs[lo + BatchSize..hi + BatchSize];
  }

  /** There are `⌈n / 20⌉` batches. */
  lemma {:induction false} BatchesCount<T>(xs: seq<T>)
    ensures |Batches(xs)| == BatchCount(|xs|)
    decreases |xs|
  {
    if xs != [] {
      var e := BatchEnd(|xs|, 0);
      BatchesCount(xs[e..]);
      assert |Batches(xs)| == 1 + |Batches(xs[e..])|;
    }
  }

  /** Put back together, the batches give the list. */
  lemma {:induction false} BatchesFlatten<T>(xs: seq<T>)
    ensures Flatten(Batches(xs)) == xs
    decreases |xs|
  {
    if xs != [] {
      var e := BatchEnd(|xs|, 0);
      var rest := xs[e..];
      BatchesFlatten(rest);
      assert Batches(xs) == [xs[..e]] + Batches(rest);
      assert Flatten(Batches(xs)) == xs[..e] + Flatten(Batches(rest));
      assert xs[..e] + rest == xs;
    }
  }

  /** Batch `b` of the list is the slice starting at `20 * b`. */
  lemma {:induction false} BatchesAt<T>(xs: seq<T>, b: nat)
    requires b < |Batches(xs)|
    ensures b * 20 < |xs| && Batches(xs)[b] == Batch(xs, b)
    decreases |xs|
  {
    var e := BatchEnd(|xs|, 0);
    var rest := xs[e..];
    assert Batches(xs) == [xs[..e]] + Batches(rest);
    if b > 0 {
      assert Batches(xs)[b] == Batches(rest)[b - 1];
      BatchesAt(rest, b - 1);
      BatchShift(xs, b - 1);
    }
  }

  /**
   * The batches are the slices starting at 0, 20, 40, …: there are
   * `⌈n / 20⌉` of them, none is empty or holds more than 20 chunks, and
   * put back together they give the list.
   */
  lemma BatchesPartition<T>(xs: seq<T>)
    ensures |Batches(xs)| == BatchCount(|xs|)
    ensures Flatten(Batches(xs)) == xs
    ensures forall b :: 0 <= b < |Batches(xs)| ==>
      b * 20 < |xs| && Batches(xs)[b] == Batch(xs, b) && 0 < |Batches(xs)[b]| <= BatchSize
  {
    BatchesCount(xs);
    BatchesFlatten(xs);
    forall b | 0 <= b < |Batches(xs)|
      ensures b * 20 < |xs| && Batches(xs)[b] == Batch(xs, b)
    {
      BatchesAt(xs, b);
    }
  }

  /** `batch.map(c => c.content)`. */
  function Texts(batch: seq<Chunk>): (texts: seq<string>)
    ensures |texts| == |batch| && forall j :: 0 <= j < |batch| ==> texts[j] == batch[j].content
  {
    if batch == [] then [] else [batch[0].content] + Texts(batch[1..])
  }

  // ---------------------------------------------------------------------
  // the embedding call and its retry policy

  /** The wait before retry number `retries + 1`: longer each time after a 429, 5 s otherwise. */
  function Backoff(retries: nat, status: Option<int>): nat
  {
    if status == Some(429) then RetryDelay * (retries + 2) else RetryDelay
  }

  /**
   * `generateEmbeddings(texts, retries)`: the reply it returns or throws,
   * and the waits it sleeps before retrying.
   */
  function EmbedFrom(texts: seq<string>, service: (seq<string>, nat) -> Reply, retries: nat): (Reply, seq<nat>)
    requires retries <= MaxRetries
    decreases MaxRetries - retries
  {
    match service(texts, retries)
    case Vectors(data) => (Vectors(data), [])
    case Failed(status) =>
      if retries < MaxRetries then
        var next := EmbedFrom(texts, service, retries + 1);
        (next.0, [Backoff(retries, status)] + next.1)
      else (Failed(status), [])
  }

  /** Attempt `k` failed, and the wait after it follows the retry policy. */
  predicate RetriedAfter(texts: seq<string>, service: (seq<string>, nat) -> Reply, waits: seq<nat>, from: nat, j: nat)
    requires j < |waits|
  {
    service(texts, from + j).Failed? && waits[j] == Backoff(from + j, service(texts, from + j).status)
  }

  /**
   * From attempt `retries` on, every wait follows a failed attempt; the
   * result is the first successful reply, or the error of attempt 3 when
   * that one fails too.
   */
  lemma {:induction false} EmbedFromAttempts(texts: seq<string>, service: (seq<string>, nat) -> Reply, retries: nat)
    requires retries <= MaxRetries
    ensures var (r, waits) := EmbedFrom(texts, service, retries);
      && retries + |waits| <= MaxRetries
      && (forall j :: 0 <= j < |waits| ==> RetriedAfter(texts, service, waits, retries, j))
      && r == service(texts, retries + |waits|)
      && (r.Failed? ==> retries + |waits| == MaxRetries)
    decreases MaxRetries - retries
  {
    var (r, waits) := EmbedFrom(texts, service, retries);
    if service(texts, retries).Failed? && retries < MaxRetries {
      EmbedFromAttempts(texts, service, retries + 1);
      var next := EmbedFrom(texts, service, retries + 1);
      assert waits == [Backoff(retries, service(texts, retries).status)] + next.1;
      forall j | 0 <= j < |waits|
        ensures RetriedAfter(texts, service, waits, retries, j)
      {
        if j > 0 {
          assert RetriedAfter(texts, service, next.1, retries + 1, j - 1);
        }
      }
    }
  }

  /**
   * A call makes at most `1 + MAX_RETRIES` = 4 attempts. It succeeds
   * exactly when one of them does, with the first successful reply;
   * otherwise it throws the error of the fourth. Every wait is 5 s, or
   * `5 s × (retries + 2)` after a 429, so never more than 20 s.
   */
  lemma EmbeddingOutcome(texts: seq<string>, service: (seq<string>, nat) -> Reply)
    ensures var (r, waits) := EmbedFrom(texts, service, 0);
      && |waits| <= MaxRetries
      && (forall j :: 0 <= j < |waits| ==> service(texts, j).Failed? && waits[j] == Backoff(j, service(texts, j).status))
      && (forall j :: 0 <= j < |waits| ==> RetryDelay <= waits[j] <= RetryDelay * (MaxRetries + 1))
      && (r.Vectors? <==> exists k :: 0 <= k <= MaxRetries && service(texts, k).Vectors?)
      && (r.Vectors? ==> r == service(texts, |waits|))
      && (r.Failed? ==> |waits| == MaxRetries && r == service(texts, MaxRetries))
  {
    EmbedFromAttempts(texts, service, 0);
    var (r, waits) := EmbedFrom(texts, service, 0);
    forall j | 0 <= j < |waits|
      ensures service(texts, j).Failed? && waits[j] == Backoff(j, service(texts, j).status)
    {
      assert RetriedAfter(texts, service, waits, 0, j);
    }
    if r.Failed? {
      forall k | 0 <= k <= MaxRetries
        ensures service(texts, k).Failed?
      {
        if k < MaxRetries {
          assert RetriedAfter(texts, service, waits, 0, k);
        }
      }
    }
  }

  /** When every attempt hits the rate limit, the waits are 10 s, 15 s and 20 s, then the 429 is thrown. */
  lemma RateLimitedThroughout(texts: seq<string>, service: (seq<string>, nat) -> Reply)
    requires forall k :: 0 <= k <= MaxRetries ==> service(texts, k) == Failed(Some(429))
    ensures EmbedFrom(texts, service, 0) == (Failed(Some(429)), [10000, 15000, 20000])
  {
    assert service(texts, 0) == service(texts, 1) == service(texts, 2) == service(texts, 3) == Failed(Some(429));
    assert EmbedFrom(texts, service, 3) == (Failed(Some(429)), []);
    assert [20000] + [] == [20000];
    assert EmbedFrom(texts, service, 2) == (Failed(Some(429)), [20000]);
    assert [Backoff(1, Some(429))] + [20000] == [15000, 20000];
    assert EmbedFrom(texts, service, 1) == (Failed(Some(429)), [15000, 20000]);
    assert [Backoff(0, Some(429))] + [15000, 20000] == [10000, 15000, 20000];
  }

  /**
   * `generateEmbeddings`: the retries by recursion become a loop on the
   * `retries` counter.
   */
  method GenerateEmbeddings(texts: seq<string>, service: (seq<string>, nat) -> Reply) returns (r: Reply, waits: seq<nat>)
    ensures (r, waits) == EmbedFrom(texts, service, 0)
  {
    var retries := 0;
    waits := [];
    assert waits + EmbedFrom(texts, service, 0).1 == EmbedFrom(texts, service, 0).1;
    while true
      invariant retries <= MaxRetries
      invariant EmbedFrom(texts, service, 0) == (EmbedFrom(texts, service, retries).0, waits + EmbedFrom(texts, service, retries).1)
      decreases MaxRetries - retries
    {
      var reply := service(texts, retries);
      if reply.Vectors? {
        assert waits + [] == waits;
        return reply, waits;
      }
      if retries < MaxRetries {
        var wait := Backoff(retries, reply.status);
        assert waits + ([wait] + EmbedFrom(texts, service, retries + 1).1)
            == (waits + [wait]) + EmbedFrom(texts, service, retries + 1).1;
        waits := waits + [wait];
        retries := retries + 1;
      } else {
        assert waits + [] == waits;
        return reply, waits;
      }
    }
  }

  // ---------------------------------------------------------------------
  // the table

  /** The row stored for a chunk and its vector. */
  function RowOf(c: Chunk, v: Vector): Row
  {
    Row(c.content, VectorLiteral(v), c.metadata)
  }

  /** The rows for the chunks, chunk `j` with vector `j`. */
  function RowsOf(cs: seq<Chunk>, vs: seq<Vector>): seq<Row>
    requires |cs| <= |vs|
  {
    seq(|cs|, j requires 0 <= j < |cs| => RowOf(cs[j], vs[j]))
  }

  /** The rows of a nonempty list: the first chunk's row, then the others'. */
  lemma RowsOfCons(cs: seq<Chunk>, vs: seq<Vector>)
    requires 0 < |cs| <= |vs|
    ensures RowsOf(cs, vs) == [RowOf(cs[0], vs[0])] + RowsOf(cs[1..], vs[1..])
  {
    var r := [RowOf(cs[0], vs[0])] + RowsOf(cs[1..], vs[1..]);
    forall j | 0 <= j < |cs|
      ensures RowsOf(cs, vs)[j] == r[j]
    {
      if j > 0 {
        assert r[j] == RowsOf(cs[1..], vs[1..])[j - 1];
      }
    }
  }

  /** Chunk `j` of a batch has a vector and its `INSERT`, as row `base + j`, succeeds. */
  predicate Fits(vectors: nat, accepts: nat -> bool, base: nat, j: nat)
  {
    j < vectors && accepts(base + j)
  }

  /**
   * How many chunks of a batch of `count` are stored, from chunk `from`
   * on: up to the first one without a vector or whose insert fails.
   */
  function Reach(count: nat, vectors: nat, accepts: nat -> bool, base: nat, from: nat): (k: nat)
    requires from <= count
    ensures from <= k <= count && (k == from || k <= vectors)
    ensures forall j :: from <= j < k ==> Fits(vectors, accepts, base, j)
    ensures k < count ==> !Fits(vectors, accepts, base, k)
    decreases count - from
  {
    if from == count || !Fits(vectors, accepts, base, from) then from
    else Reach(count, vectors, accepts, base, from + 1)
  }

  /**
   * The `enghien_documents` table and the pool's checked-out clients.
   * Rows are inserted one at a time, with no transaction.
   */
  class Table {
    var rows: seq<Row>
    var clients: nat

    constructor ()
      ensures rows == [] && clients == 0
    {
      rows := [];
      clients := 0;
    }

    /** `TRUNCATE TABLE enghien_documents RESTART IDENTITY`. */
    method Truncate()
      modifies this
      ensures rows == [] && clients == old(clients)
    {
      rows := [];
    }

    /** One `INSERT`; it either appends the row or changes nothing. */
    method Insert(row: Row, accepts: nat -> bool) returns (ok: bool)
      modifies this
      ensures ok == accepts(|old(rows)|)
      ensures rows == if ok then old(rows) + [row] else old(rows)
      ensures clients == old(clients)
    {
      ok := accepts(|rows|);
      if ok {
        rows := rows + [row];
      }
    }

    /**
     * `insertBatch`: chunk `i` is stored with vector `i`, one row at a
     * time. A missing vector or a failed insert stops the loop, leaving the
     * rows already inserted: the new rows are those of a prefix of the
     * batch. The client is released on both paths.
     */
    method InsertBatch(chunks: seq<Chunk>, vectors: seq<Vector>, accepts: nat -> bool) returns (ok: bool)
      modifies this
      ensures clients == old(clients)
      ensures var k := Reach(|chunks|, |vectors|, accepts, |old(rows)|, 0);
        && (ok <==> k == |chunks|)
        && rows == old(rows) + RowsOf(chunks[..k], vectors[..k])
    {
      ghost var base := |rows|;
      ghost var k := Reach(|chunks|, |vectors|, accepts, base, 0);
      clients := clients + 1;
      ok := true;
      var i := 0;
      while i < |chunks|
        invariant i <= k
        invariant clients == old(clients) + 1
        invariant rows == old(rows) + RowsOf(chunks[..i], vectors[..i])
        invariant ok && forall j :: 0 <= j < i ==> Fits(|vectors|, accepts, base, j)
        decreases |chunks| - i
      {
        if i >= |vectors| {
          assert !Fits(|vectors|, accepts, base, i);
          ok := false;
          break;
        }
        var stored := Insert(RowOf(chunks[i], vectors[i]), accepts);
        if !stored {
          assert !Fits(|vectors|, accepts, base, i);
          ok := false;
          break;
        }
        assert RowsOf(chunks[..i + 1], vectors[..i + 1]) == RowsOf(chunks[..i], vectors[..i]) + [RowOf(chunks[i], vectors[i])];
        i := i + 1;
      }
      clients := clients - 1;
    }
  }

  // ---------------------------------------------------------------------
  // the batch loop

  /** What `generateEmbeddings` returns or throws for a batch's texts, retries included. */
  function Embedding(service: (seq<string>, nat) -> Reply, batch: seq<Chunk>): Reply
  {
    EmbedFrom(Texts(batch), service, 0).0
  }

  /**
   * `insertBatch`'s loop as a value, from chunk `i` on: rows go in one at
   * a time until a vector is missing or an insert fails; the rows
   * afterwards, and whether every chunk went in.
   */
  function InsertFrom(rows: seq<Row>, batch: seq<Chunk>, vectors: seq<Vector>, accepts: nat -> bool, i: nat): (seq<Row>, bool)
    requires i <= |batch|
    decreases |batch| - i
  {
    if i == |batch| then (rows, true)
    else if i >= |vectors| || !accepts(|rows|) then (rows, false)
    else InsertFrom(rows + [RowOf(batch[i], vectors[i])], batch, vectors, accepts, i + 1)
  }

  /** From chunk `i` on, `insertBatch` stores exactly the chunks up to `Reach`, each with its own vector. */
  lemma {:induction false} InsertFromReach(rows: seq<Row>, batch: seq<Chunk>, vectors: seq<Vector>, accepts: nat -> bool, i: nat)
    requires i <= |batch| && i <= |vectors| && i <= |rows|
    ensures var k := Reach(|batch|, |vectors|, accepts, |rows| - i, i);
      InsertFrom(rows, batch, vectors, accepts, i) == (rows + RowsOf(batch[i..k], vectors[i..k]), k == |batch|)
    decreases |batch| - i, 1
  {
    if i == |batch| || !Fits(|vectors|, accepts, |rows| - i, i) {
      InsertFromStops(rows, batch, vectors, accepts, i);
    } else {
      InsertFromGoesOn(rows, batch, vectors, accepts, i);
    }
  }

  /** At the end of the batch, or at a chunk that does not fit, nothing more is stored. */
  lemma InsertFromStops(rows: seq<Row>, batch: seq<Chunk>, vectors: seq<Vector>, accepts: nat -> bool, i: nat)
    requires i <= |batch| && i <= |vectors| && i <= |rows|
    requires i == |batch| || !Fits(|vectors|, accepts, |rows| - i, i)
    ensures var k := Reach(|batch|, |vectors|, accepts, |rows| - i, i);
      InsertFrom(rows, batch, vectors, accepts, i) == (rows + RowsOf(batch[i..k], vectors[i..k]), k == |batch|)
  {
    var k := Reach(|batch|, |vectors|, accepts, |rows| - i, i);
    assert k == i;
    assert RowsOf(batch[i..k], vectors[i..k]) == [];
    assert rows + [] == rows;
    assert InsertFrom(rows, batch, vectors, accepts, i) == (rows, i == |batch|);
  }

  /** A chunk that fits is stored, then the rest of the batch from the next chunk on. */
  lemma {:induction false} InsertFromGoesOn(rows: seq<Row>, batch: seq<Chunk>, vectors: seq<Vector>, accepts: nat -> bool, i: nat)
    requires i < |batch| && i <= |vectors| && i <= |rows|
    requires Fits(|vectors|, accepts, |rows| - i, i)
    ensures var k := Reach(|batch|, |vectors|, accepts, |rows| - i, i);
      InsertFrom(rows, batch, vectors, accepts, i) == (rows + RowsOf(batch[i..k], vectors[i..k]), k == |batch|)
    decreases |batch| - i, 0
  {
    var k := Reach(|batch|, |vectors|, accepts, |rows| - i, i);
    var rows' := rows + [RowOf(batch[i], vectors[i])];
    assert i < |vectors| && accepts(|rows|);
    assert InsertFrom(rows, batch, vectors, accepts, i) == InsertFrom(rows', batch, vectors, accepts, i + 1);
    InsertFromReach(rows', batch, vectors, accepts, i + 1);
    assert k == Reach(|batch|, |vectors|, accepts, |rows'| - (i + 1), i + 1);
    var tail := RowsOf(batch[i + 1..k], vectors[i + 1..k]);
    RowsOfCons(batch[i..k], vectors[i..k]);
    assert batch[i..k][1..] == batch[i + 1..k] && vectors[i..k][1..] == vectors[i + 1..k];
    assert rows' + tail == rows + ([RowOf(batch[i], vectors[i])] + tail);
  }

  /**
   * The `try` block of one batch, as a value: given the reply of the
   * embedding call, insert the rows; the rows afterwards, and whether the
   * batch went through.
   */
  function BatchStep(rows: seq<Row>, batch: seq<Chunk>, reply: Reply, accepts: nat -> bool): (seq<Row>, bool)
  {
    if reply.Failed? then (rows, false) else InsertFrom(rows, batch, reply.data, accepts, 0)
  }

  /** The reply `generateEmbeddings` gives each of the batches. */
  function EmbedAll(service: (seq<string>, nat) -> Reply, batches: seq<seq<Chunk>>): (replies: seq<Reply>)
    ensures |replies| == |batches|
  {
    if batches == [] then [] else [Embedding(service, batches[0])] + EmbedAll(service, batches[1..])
  }

  lemma {:induction false} EmbedAllAt(service: (seq<string>, nat) -> Reply, batches: seq<seq<Chunk>>, c: nat)
    requires c < |batches|
    ensures EmbedAll(service, batches)[c] == Embedding(service, batches[c])
  {
    var rest := EmbedAll(service, batches[1..]);
    assert EmbedAll(service, batches) == [Embedding(service, batches[0])] + rest;
    if c > 0 {
      EmbedAllAt(service, batches[1..], c - 1);
      assert batches[1..][c - 1] == batches[c];
    }
  }

  /** The reply `generateEmbeddings` gives each batch of the list, numbered from 0. */
  function Replies(chunks: seq<Chunk>, service: (seq<string>, nat) -> Reply): seq<Reply>
  {
    EmbedAll(service, Batches(chunks))
  }

  /** One reply per batch, `⌈n / 20⌉` in all, and reply `c` is the one batch `c` gets. */
  lemma RepliesIndex(chunks: seq<Chunk>, service: (seq<string>, nat) -> Reply, c: nat)
    ensures |Replies(chunks, service)| == BatchCount(|chunks|)
    ensures c < |Replies(chunks, service)| <==> c * 20 < |chunks|
    ensures c < |Replies(chunks, service)| ==> Replies(chunks, service)[c] == Embedding(service, Batch(chunks, c))
  {
    BatchesCount(chunks);
    BatchCountIff(|chunks|, c);
    if c < |Batches(chunks)| {
      BatchesAt(chunks, c);
      EmbedAllAt(service, Batches(chunks), c);
    }
  }

  /** Batch `b` got vectors and every one of its rows is inserted, the table holding the earlier batches. */
  predicate BatchOk(chunks: seq<Chunk>, replies: seq<Reply>, accepts: nat -> bool, b: nat)
    requires b * 20 < |chunks|
  {
    && b < |replies| && replies[b].Vectors?
    && Reach(|Batch(chunks, b)|, |replies[b].data|, accepts, b * 20, 0) == |Batch(chunks, b)|
  }

  /** Row `j` holds chunk `j` with the vector its batch got for it. */
  predicate RowFrom(rows: seq<Row>, chunks: seq<Chunk>, replies: seq<Reply>, j: nat)
    requires j < |rows| && j < |chunks|
  {
    var b := j / 20;
    && b < |replies| && replies[b].Vectors? && j % 20 < |replies[b].data|
    && rows[j] == RowOf(chunks[j], replies[b].data[j % 20])
  }

  /** Every stored row holds the chunk at its position, so the table holds a prefix of the chunks. */
  predicate RowsFrom(rows: seq<Row>, chunks: seq<Chunk>, replies: seq<Reply>)
  {
    |rows| <= |chunks| && forall j :: 0 <= j < |rows| ==> RowFrom(rows, chunks, replies, j)
  }

  lemma DivBatch(b: nat, t: nat)
    requires t < BatchSize
    ensures (b * 20 + t) / 20 == b && (b * 20 + t) % 20 == t
  {
  }

  /** After the rows of a batch's prefix are added, every row still comes from its chunk. */
  lemma RowsAfterBatch(rows: seq<Row>, chunks: seq<Chunk>, replies: seq<Reply>, b: nat, k: nat)
    requires b * 20 < |chunks| && |rows| == b * 20
    requires RowsFrom(rows, chunks, replies)
    requires b < |replies| && replies[b].Vectors?
    requires k <= |Batch(chunks, b)| && k <= |replies[b].data|
    ensures RowsFrom(rows + RowsOf(Batch(chunks, b)[..k], replies[b].data[..k]), chunks, replies)
  {
    var vs := replies[b].data;
    var batch := Batch(chunks, b);
    var rows' := rows + RowsOf(batch[..k], vs[..k]);
    forall j | 0 <= j < |rows'|
      ensures RowFrom(rows', chunks, replies, j)
    {
      if j < |rows| {
        assert rows'[j] == rows[j];
        assert RowFrom(rows, chunks, replies, j);
      } else {
        var t := j - b * 20;
        DivBatch(b, t);
        assert rows'[j] == RowOf(batch[t], vs[t]);
        assert batch[t] == chunks[j];
      }
    }
  }

  /** For batch `b`, stored after the earlier ones: it goes through exactly when `BatchOk` says so. */
  lemma BatchStepOutcome(rows: seq<Row>, chunks: seq<Chunk>, replies: seq<Reply>, accepts: nat -> bool, b: nat)
    requires b * 20 < |chunks| && |rows| == b * 20 && b < |replies|
    ensures BatchStep(rows, Batch(chunks, b), replies[b], accepts).1 == BatchOk(chunks, replies, accepts, b)
  {
    if replies[b].Vectors? {
      InsertFromReach(rows, Batch(chunks, b), replies[b].data, accepts, 0);
    }
  }

  /** How many rows storing batch `b` leaves: all of it when it goes through, fewer otherwise. */
  lemma BatchStepLength(rows: seq<Row>, chunks: seq<Chunk>, replies: seq<Reply>, accepts: nat -> bool, b: nat)
    requires b * 20 < |chunks| && |rows| == b * 20 && b < |replies|
    ensures var step := BatchStep(rows, Batch(chunks, b), replies[b], accepts);
      && (step.1 ==> |step.0| == BatchEnd(|chunks|, b * 20))
      && (!step.1 ==> b * 20 <= |step.0| < BatchEnd(|chunks|, b * 20))
  {
    if replies[b].Vectors? {
      InsertFromReach(rows, Batch(chunks, b), replies[b].data, accepts, 0);
    }
  }

  /** Storing batch `b` after the earlier ones keeps every row next to its own chunk. */
  lemma BatchStepRows(rows: seq<Row>, chunks: seq<Chunk>, replies: seq<Reply>, accepts: nat -> bool, b: nat)
    requires b * 20 < |chunks| && |rows| == b * 20 && b < |replies| && RowsFrom(rows, chunks, replies)
    ensures RowsFrom(BatchStep(rows, Batch(chunks, b), replies[b], accepts).0, chunks, replies)
  {
    if replies[b].Vectors? {
      InsertFromReach(rows, Batch(chunks, b), replies[b].data, accepts, 0);
      RowsAfterBatch(rows, chunks, replies, b, Reach(|Batch(chunks, b)|, |replies[b].data|, accepts, b * 20, 0));
    }
  }

  /**
   * The counters of `main` before batch `b`: the earlier batches are all
   * stored and counted, and a pause followed each of them but a last one.
   */
  predicate Counts(n: nat, b: nat, stored: nat, processed: nat, pauses: nat)
  {
    && (b == 0 || (b - 1) * 20 < n)
    && processed == stored == (if b * 20 <= n then b * 20 else n)
    && pauses == (if b * 20 < n || b == 0 then b else b - 1)
  }

  /** Past the last batch, everything is counted and the batch counter is `⌈n / 20⌉`. */
  lemma CountsDone(n: nat, b: nat, stored: nat, processed: nat, pauses: nat)
    requires Counts(n, b, stored, processed, pauses) && b * 20 >= n
    ensures b == BatchCount(n)
    ensures processed == stored == n
    ensures pauses == if n == 0 then 0 else BatchCount(n) - 1
  {
    BatchCountIff(n, b);
    if b > 0 {
      BatchCountIff(n, b - 1);
    }
  }

  /** Once batch `b` is stored whole, the counters agree with the batches before `b + 1`. */
  lemma CountsNext(n: nat, b: nat, stored: nat, processed: nat, pauses: nat, stored': nat)
    requires Counts(n, b, stored, processed, pauses) && b * 20 < n && stored' == BatchEnd(n, b * 20)
    ensures Counts(n, b + 1, stored', processed + (stored' - b * 20),
                   if (b + 1) * 20 < n then pauses + 1 else pauses)
  {
  }

  // ---------------------------------------------------------------------
  // main

  /** What `main` reports: the table, `processedChunks`, the failing batch's number if any, and the pauses made. */
  datatype Report = Report(rows: seq<Row>, processed: nat, failed: Option<nat>, pauses: nat)

  /** `main`'s loop from batch `b` (numbered from 0) on, batch `c` getting reply `replies[c]`. */
  function RunFrom(chunks: seq<Chunk>, replies: seq<Reply>, accepts: nat -> bool,
                   b: nat, rows: seq<Row>, processed: nat, pauses: nat): Report
    requires |replies| == BatchCount(|chunks|)
    decreases |chunks| - b * 20
  {
    if b * 20 >= |chunks| then Report(rows, processed, None, pauses)
    else
      BatchCountIff(|chunks|, b);
      var batch := Batch(chunks, b);
      var step := BatchStep(rows, batch, replies[b], accepts);
      if !step.1 then Report(step.0, processed, Some(b + 1), pauses)
      else RunFrom(chunks, replies, accepts, b + 1, step.0, processed + |batch|,
                   if (b + 1) * 20 < |chunks| then pauses + 1 else pauses)
  }

  /** `main` after the table is emptied, each batch embedded by `service`. */
  function Run(chunks: seq<Chunk>, service: (seq<string>, nat) -> Reply, accepts: nat -> bool): Report
  {
    RepliesIndex(chunks, service, 0);
    RunFrom(chunks, Replies(chunks, service), accepts, 0, [], 0, 0)
  }

  /**
   * The counters a run reports: when it finishes, every chunk is stored
   * and counted and a pause came between each two batches; when batch `b`
   * (reported as `b + 1`) fails, only the batches before it are counted,
   * and the table holds their rows and a prefix of batch `b`'s.
   */
  predicate Counted(chunks: seq<Chunk>, r: Report)
  {
    && (r.failed.None? ==>
          && r.processed == |r.rows| == |chunks|
          && r.pauses == (if |chunks| == 0 then 0 else BatchCount(|chunks|) - 1))
    && (r.failed.Some? ==>
          var b := r.failed.value - 1;
          && 0 <= b && b * 20 < |chunks|
          && r.processed == b * 20 <= |r.rows| < r.processed + |Batch(chunks, b)|
          && r.pauses == b)
  }

  /** The number (from 1) of the first batch from `b` on that fails, if any. */
  function FirstFailure(chunks: seq<Chunk>, replies: seq<Reply>, accepts: nat -> bool, b: nat): Option<nat>
    decreases |chunks| - b * 20
  {
    if b * 20 >= |chunks| then None
    else if !BatchOk(chunks, replies, accepts, b) then Some(b + 1)
    else FirstFailure(chunks, replies, accepts, b + 1)
  }

  /**
   * The verdict a run reports: it finishes exactly when every batch goes
   * through; otherwise the batch it names failed and every batch before
   * it went through.
   */
  ghost predicate Verdict(chunks: seq<Chunk>, replies: seq<Reply>, accepts: nat -> bool, failed: Option<nat>)
  {
    && (failed.None? <==> forall c :: 0 <= c && c * 20 < |chunks| ==> BatchOk(chunks, replies, accepts, c))
    && (failed.Some? ==>
          var b := failed.value - 1;
          && 0 <= b && b * 20 < |chunks|
          && !BatchOk(chunks, replies, accepts, b)
          && forall c :: 0 <= c < b ==> BatchOk(chunks, replies, accepts, c))
  }

  /** One round of the loop: batch `b` is stored, then the run stops or goes on. */
  lemma RunFromStep(chunks: seq<Chunk>, replies: seq<Reply>, accepts: nat -> bool,
                    b: nat, rows: seq<Row>, processed: nat, pauses: nat)
    requires |replies| == BatchCount(|chunks|) && b * 20 < |chunks|
    ensures b < |replies|
    ensures var step := BatchStep(rows, Batch(chunks, b), replies[b], accepts);
      RunFrom(chunks, replies, accepts, b, rows, processed, pauses)
        == if !step.1 then Report(step.0, processed, Some(b + 1), pauses)
           else RunFrom(chunks, replies, accepts, b + 1, step.0, processed + |Batch(chunks, b)|,
                        if (b + 1) * 20 < |chunks| then pauses + 1 else pauses)
  {
    BatchCountIff(|chunks|, b);
  }

  lemma CountedSame(chunks: seq<Chunk>, r: Report, r': Report)
    requires r == r'
    ensures Counted(chunks, r) == Counted(chunks, r')
  {
  }

  lemma RowsFromSame(rows: seq<Row>, rows': seq<Row>, chunks: seq<Chunk>, replies: seq<Reply>)
    requires rows == rows'
    ensures RowsFrom(rows, chunks, replies) == RowsFrom(rows', chunks, replies)
  {
  }

  /** Past the last batch, the counters are those of a finished run. */
  lemma CountedFinished(chunks: seq<Chunk>, b: nat, rows: seq<Row>, processed: nat, pauses: nat)
    requires Counts(|chunks|, b, |rows|, processed, pauses) && b * 20 >= |chunks|
    ensures Counted(chunks, Report(rows, processed, None, pauses))
  {
    CountsDone(|chunks|, b, |rows|, processed, pauses);
  }

  /** When batch `b` stops the run part-way, the counters are those of a run failing at `b`. */
  lemma CountedStopped(chunks: seq<Chunk>, b: nat, stored: nat, rows: seq<Row>, processed: nat, pauses: nat)
    requires Counts(|chunks|, b, stored, processed, pauses) && b * 20 < |chunks|
    requires b * 20 <= |rows| < BatchEnd(|chunks|, b * 20)
    ensures Counted(chunks, Report(rows, processed, Some(b + 1), pauses))
  {
  }

  /** From any batch where the counters agree with the batches before it, the run's counters are `Counted`. */
  lemma {:induction false} RunFromCounted(chunks: seq<Chunk>, replies: seq<Reply>, accepts: nat -> bool,
                                          b: nat, rows: seq<Row>, processed: nat, pauses: nat)
    requires |replies| == BatchCount(|chunks|)
    requires Counts(|chunks|, b, |rows|, processed, pauses)
    ensures Counted(chunks, RunFrom(chunks, replies, accepts, b, rows, processed, pauses))
    decreases |chunks| - b * 20
  {
    var n := |chunks|;
    var r := RunFrom(chunks, replies, accepts, b, rows, processed, pauses);
    if b * 20 >= n {
      CountedFinished(chunks, b, rows, processed, pauses);
      CountedSame(chunks, Report(rows, processed, None, pauses), r);
    } else {
      RunFromStep(chunks, replies, accepts, b, rows, processed, pauses);
      var batch := Batch(chunks, b);
      var step := BatchStep(rows, batch, replies[b], accepts);
      BatchStepLength(rows, chunks, replies, accepts, b);
      if !step.1 {
        CountedStopped(chunks, b, |rows|, step.0, processed, pauses);
        CountedSame(chunks, Report(step.0, processed, Some(b + 1), pauses), r);
      } else {
        var pauses' := if (b + 1) * 20 < n then pauses + 1 else pauses;
        var r' := RunFrom(chunks, replies, accepts, b + 1, step.0, processed + |batch|, pauses');
        CountsNext(n, b, |rows|, processed, pauses, |step.0|);
        RunFromCounted(chunks, replies, accepts, b + 1, step.0, processed + |batch|, pauses');
        CountedSame(chunks, r', r);
      }
    }
  }

  /** From any batch where the counters agree with the batches before it, the run stops at `FirstFailure`. */
  lemma {:induction false} RunFromFailed(chunks: seq<Chunk>, replies: seq<Reply>, accepts: nat -> bool,
                                         b: nat, rows: seq<Row>, processed: nat, pauses: nat)
    requires |replies| == BatchCount(|chunks|)
    requires Counts(|chunks|, b, |rows|, processed, pauses)
    ensures RunFrom(chunks, replies, accepts, b, rows, processed, pauses).failed
      == FirstFailure(chunks, replies, accepts, b)
    decreases |chunks| - b * 20, 1
  {
    if b * 20 < |chunks| {
      RunFromStep(chunks, replies, accepts, b, rows, processed, pauses);
      BatchStepOutcome(rows, chunks, replies, accepts, b);
      if BatchStep(rows, Batch(chunks, b), replies[b], accepts).1 {
        FailedLater(chunks, replies, accepts, b, rows, processed, pauses);
      }
    }
  }

  /** When batch `b` goes through, the run stops where the run from batch `b + 1` does. */
  lemma {:induction false} FailedLater(chunks: seq<Chunk>, replies: seq<Reply>, accepts: nat -> bool,
                                       b: nat, rows: seq<Row>, processed: nat, pauses: nat)
    requires |replies| == BatchCount(|chunks|)
    requires Counts(|chunks|, b, |rows|, processed, pauses) && b * 20 < |chunks| && b < |replies|
    requires BatchStep(rows, Batch(chunks, b), replies[b], accepts).1
    ensures RunFrom(chunks, replies, accepts, b, rows, processed, pauses).failed
      == FirstFailure(chunks, replies, accepts, b)
    decreases |chunks| - b * 20, 0
  {
    var n := |chunks|;
    BatchStepLength(rows, chunks, replies, accepts, b);
    var step := BatchStep(rows, Batch(chunks, b), replies[b], accepts);
    var pauses' := if (b + 1) * 20 < n then pauses + 1 else pauses;
    CountsNext(n, b, |rows|, processed, pauses, |step.0|);
    RunFromFailed(chunks, replies, accepts, b + 1, step.0, processed + |Batch(chunks, b)|, pauses');
    RunFromNext(chunks, replies, accepts, b, rows, processed, pauses);
    BatchStepOutcome(rows, chunks, replies, accepts, b);
    FirstFailureNext(chunks, replies, accepts, b);
  }

  /** A batch that goes through hands the run on to the next batch. */
  lemma RunFromNext(chunks: seq<Chunk>, replies: seq<Reply>, accepts: nat -> bool,
                    b: nat, rows: seq<Row>, processed: nat, pauses: nat)
    requires |replies| == BatchCount(|chunks|) && b * 20 < |chunks| && b < |replies|
    requires BatchStep(rows, Batch(chunks, b), replies[b], accepts).1
    ensures RunFrom(chunks, replies, accepts, b, rows, processed, pauses)
      == RunFrom(chunks, replies, accepts, b + 1, BatchStep(rows, Batch(chunks, b), replies[b], accepts).0,
                 processed + |Batch(chunks, b)|, if (b + 1) * 20 < |chunks| then pauses + 1 else pauses)
  {
  }

  /** After a batch that goes through, the first failure is further on. */
  lemma FirstFailureNext(chunks: seq<Chunk>, replies: seq<Reply>, accepts: nat -> bool, b: nat)
    requires b * 20 < |chunks| && BatchOk(chunks, replies, accepts, b)
    ensures FirstFailure(chunks, replies, accepts, b) == FirstFailure(chunks, replies, accepts, b + 1)
  {
  }

  /** After a run of successes up to batch `b`, the first failure from `b` on is the `Verdict`. */
  lemma {:induction false} FirstFailureVerdict(chunks: seq<Chunk>, replies: seq<Reply>, accepts: nat -> bool, b: nat)
    requires b == 0 || (b - 1) * 20 < |chunks|
    requires forall c :: 0 <= c < b && c * 20 < |chunks| ==> BatchOk(chunks, replies, accepts, c)
    ensures Verdict(chunks, replies, accepts, FirstFailure(chunks, replies, accepts, b))
    decreases |chunks| - b * 20
  {
    if b * 20 < |chunks| && BatchOk(chunks, replies, accepts, b) {
      FirstFailureVerdict(chunks, replies, accepts, b + 1);
    }
  }

  /** From any batch with the earlier rows in place, every row the run stores sits next to its own chunk. */
  lemma {:induction false} RunFromRows(chunks: seq<Chunk>, replies: seq<Reply>, accepts: nat -> bool,
                                       b: nat, rows: seq<Row>, processed: nat, pauses: nat)
    requires |replies| == BatchCount(|chunks|)
    requires Counts(|chunks|, b, |rows|, processed, pauses)
    requires RowsFrom(rows, chunks, replies)
    ensures RowsFrom(RunFrom(chunks, replies, accepts, b, rows, processed, pauses).rows, chunks, replies)
    decreases |chunks| - b * 20
  {
    var n := |chunks|;
    var r := RunFrom(chunks, replies, accepts, b, rows, processed, pauses);
    if b * 20 < n {
      RunFromStep(chunks, replies, accepts, b, rows, processed, pauses);
      var batch := Batch(chunks, b);
      var step := BatchStep(rows, batch, replies[b], accepts);
      BatchStepLength(rows, chunks, replies, accepts, b);
      BatchStepRows(rows, chunks, replies, accepts, b);
      if step.1 {
        var pauses' := if (b + 1) * 20 < n then pauses + 1 else pauses;
        var r' := RunFrom(chunks, replies, accepts, b + 1, step.0, processed + |batch|, pauses');
        CountsNext(n, b, |rows|, processed, pauses, |step.0|);
        RunFromRows(chunks, replies, accepts, b + 1, step.0, processed + |batch|, pauses');
        RowsFromSame(r'.rows, r.rows, chunks, replies);
      } else {
        RowsFromSame(step.0, r.rows, chunks, replies);
      }
    } else {
      RowsFromSame(rows, r.rows, chunks, replies);
    }
  }

  /**
   * The run finishes exactly when every batch succeeds, with every chunk
   * stored and counted and a pause between each two batches. Otherwise the
   * first failing batch stops it: `processedChunks` counts only the chunks
   * of the batches before it, and a prefix of its own rows may be stored
   * after theirs. Either way every stored row holds chunk `j` with the
   * vector its batch got for it.
   */
  lemma RunCorrect(chunks: seq<Chunk>, service: (seq<string>, nat) -> Reply, accepts: nat -> bool)
    ensures RowsFrom(Run(chunks, service, accepts).rows, chunks, Replies(chunks, service))
    ensures Counted(chunks, Run(chunks, service, accepts))
    ensures Verdict(chunks, Replies(chunks, service), accepts, Run(chunks, service, accepts).failed)
  {
    var replies := Replies(chunks, service);
    RepliesIndex(chunks, service, 0);
    RunFromRows(chunks, replies, accepts, 0, [], 0, 0);
    RunFromCounted(chunks, replies, accepts, 0, [], 0, 0);
    RunFromFailed(chunks, replies, accepts, 0, [], 0, 0);
    FirstFailureVerdict(chunks, replies, accepts, 0);
  }

  /**
   * The `try` block of one batch: embed its texts (with the retries),
   * then insert its rows.
   */
  method EmbedAndStore(table: Table, batch: seq<Chunk>, service: (seq<string>, nat) -> Reply, accepts: nat -> bool)
    returns (ok: bool)
    modifies table
    ensures table.clients == old(table.clients)
    ensures (table.rows, ok) == BatchStep(old(table.rows), batch, Embedding(service, batch), accepts)
  {
    var reply, waits := GenerateEmbeddings(Texts(batch), service);
    if reply.Failed? {
      return false;
    }
    InsertFromReach(table.rows, batch, reply.data, accepts, 0);
    ok := table.InsertBatch(batch, reply.data, accepts);
  }

  /**
   * One round of `main`'s loop, for the batch starting at `i`: store it,
   * then count its chunks and pause when another batch follows.
   */
  method IngestBatch(table: Table, chunks: seq<Chunk>, service: (seq<string>, nat) -> Reply, accepts: nat -> bool,
                     i: nat, processed: nat, pauses: nat, ghost b: nat, ghost replies: seq<Reply>)
    returns (ok: bool, processed': nat, pauses': nat)
    requires i == b * 20 < |chunks|
    requires replies == Replies(chunks, service) && |replies| == BatchCount(|chunks|)
    modifies table
    ensures table.clients == old(table.clients)
    ensures RunFrom(chunks, replies, accepts, b, old(table.rows), processed, pauses)
      == if ok then RunFrom(chunks, replies, accepts, b + 1, table.rows, processed', pauses')
         else Report(table.rows, processed, Some(b + 1), pauses)
  {
    var batch := chunks[i..BatchEnd(|chunks|, i)];
    assert batch == Batch(chunks, b);
    assert (b + 1) * 20 == i + BatchSize;
    RepliesIndex(chunks, service, b);
    RunFromStep(chunks, replies, accepts, b, table.rows, processed, pauses);
    ok := EmbedAndStore(table, batch, service, accepts);
    processed' := processed + |batch|;
    pauses' := if i + BatchSize < |chunks| then pauses + 1 else pauses;
  }

  /**
   * `main` after the table is emptied: batch after batch, embed then
   * insert; the first failure stops the loop with the batch number
   * `i / 20 + 1`; `processedChunks` grows by a batch only when all of it
   * went in; the 500 ms pause comes only when another batch follows.
   */
  method Ingest(table: Table, chunks: seq<Chunk>, service: (seq<string>, nat) -> Reply, accepts: nat -> bool)
    returns (processed: nat, failed: Option<nat>, pauses: nat)
    modifies table
    ensures table.clients == old(table.clients)
    ensures Report(table.rows, processed, failed, pauses) == Run(chunks, service, accepts)
  {
    ghost var replies := Replies(chunks, service);
    RepliesIndex(chunks, service, 0);
    table.Truncate();
    processed := 0;
    failed := None;
    pauses := 0;
    var i := 0;
    ghost var b := 0;
    while i < |chunks|
      invariant i == b * 20
      invariant table.clients == old(table.clients)
      invariant RunFrom(chunks, replies, accepts, b, table.rows, processed, pauses) == Run(chunks, service, accepts)
      decreases |chunks| - i
    {
      var ok, p, q := IngestBatch(table, chunks, service, accepts, i, processed, pauses, b, replies);
      if !ok {
        DivBatch(b, 0);
        failed := Some(i / 20 + 1);
        return;
      }
      processed, pauses := p, q;
      i, b := i + BatchSize, b + 1;
    }
  }
}
