/**
 * The retrieval library: the parameterised query `searchDocuments` sends to
 * the vector store, the mapping of the rows it gets back, and the two texts
 * handed to the language model (`buildContextPrompt`, `buildUserMessage`).
 * The embedding call and the database are outside the model: the query
 * embedding arrives already printed, one string per component, and the
 * rows arrive as a parameter.
 */
module Rag {
  import opened Strings
  import opened Types
  import opened Citation

  // ---------------------------------------------------------------------
  // searchDocuments: the query and its parameters

  datatype Filter = Filter(livre: Option<string>, chapitre: Option<string>)

  /** The options object; a field left `undefined` is `None`. */
  datatype SearchOptions = SearchOptions(
    threshold: Option<real>,
    count: Option<int>,
    filter: Option<Filter>)

  /** A positional parameter `$k` of the query. */
  datatype Param = Text(text: string) | Number(number: real) | Limit(limit: int)

  /** One `metadata->>'column' = $k` condition, before its placeholder is numbered. */
  datatype Condition = Condition(column: string, value: string)

  const DefaultThreshold: real := 0.4
  const DefaultCount: int := 8

  /** The query template up to its `WHERE` clause, line by line. */
  const BaseSql: string :=
    "\n    SELECT"
    + "\n      id,"
    + "\n      content,"
    + "\n      metadata,"
    + "\n      1 - (embedding <=> $1::vector) AS similarity"
    + "\n    FROM enghien_documents"
    + "\n    WHERE 1 - (embedding <=> $1::vector) > $2"
    + "\n  "

  function Threshold(o: SearchOptions): real
  {
    if o.threshold.Some? then o.threshold.value else DefaultThreshold
  }

  function Count(o: SearchOptions): int
  {
    if o.count.Some? then o.count.value else DefaultCount
  }

  /** A filter value counts only when it is a non-empty string. */
  predicate Truthy(v: Option<string>)
  {
    v.Some? && v.value != ""
  }

  /** The condition one filter field adds: none unless the field is a non-empty string. */
  function ConditionOf(column: string, v: Option<string>): seq<Condition>
  {
    if Truthy(v) then [Condition(column, v.value)] else []
  }

  /** The conditions the filter adds, `livre` before `chapitre`. */
  function Conditions(o: SearchOptions): seq<Condition>
  {
    var f := if o.filter.Some? then o.filter.value else Filter(None, None);
    ConditionOf("livre", f.livre) + ConditionOf("chapitre", f.chapitre)
  }

  function Placeholder(k: nat): string
  {
    "$" + NatToString(k)
  }

  function ConditionSql(c: Condition, k: nat): string
  {
    " AND metadata->>'" + c.column + "' = " + Placeholder(k)
  }

  /** The conditions in order, numbered from `$k`. */
  function ConditionsSql(cs: seq<Condition>, k: nat): string
    decreases |cs|
  {
    if cs == [] then "" else ConditionSql(cs[0], k) + ConditionsSql(cs[1..], k + 1)
  }

  function OrderLimitSql(k: nat): string
  {
    " ORDER BY embedding <=> $1::vector LIMIT " + Placeholder(k)
  }

  /** `[x1,x2,...]`, the pgvector literal of the query embedding. */
  function VectorLiteral(embedding: seq<string>): string
  {
    "[" + Join(embedding, ",") + "]"
  }

  /** The values of the conditions, as query parameters. */
  function Values(cs: seq<Condition>): (ps: seq<Param>)
    ensures |ps| == |cs|
  {
    seq(|cs|, j requires 0 <= j < |cs| => Text(cs[j].value))
  }

  /**
   * Builds the query text and its parameters step by step, as
   * `searchDocuments` does: the vector and the threshold, then one
   * condition per filter value, numbered from `$3`, then the limit.
   */
  method BuildSearch(embedding: seq<string>, options: SearchOptions)
      returns (sql: string, params: seq<Param>)
    ensures var cs := Conditions(options);
      && params == [Text(VectorLiteral(embedding)), Number(Threshold(options))] + Values(cs) + [Limit(Count(options))]
      && sql == BaseSql + ConditionsSql(cs, 3) + OrderLimitSql(|params|)
  {
    var threshold := if options.threshold.Some? then options.threshold.value else DefaultThreshold;
    var count := if options.count.Some? then options.count.value else DefaultCount;
    var filter := if options.filter.Some? then options.filter.value else Filter(None, None);
    sql := BaseSql;
    params := [Text(VectorLiteral(embedding)), Number(threshold)];
    var paramIndex := 3;
    ghost var head := params;
    assert params == head + Values([]);
    sql, params, paramIndex := AddFilter(sql, params, paramIndex, "livre", filter.livre, head, []);
    ghost var done := ConditionOf("livre", filter.livre);
    sql, params, paramIndex := AddFilter(sql, params, paramIndex, "chapitre", filter.chapitre, head, done);
    assert done + ConditionOf("chapitre", filter.chapitre) == Conditions(options);
    sql := sql + OrderLimitSql(paramIndex);
    params := params + [Limit(count)];
  }

  /**
   * `if (filter.column) { sql += ... $${paramIndex}; params.push(value); paramIndex++ }`:
   * the query and its parameters grow by the field's condition, if any.
   */
  method AddFilter(sql: string, params: seq<Param>, paramIndex: nat, column: string, v: Option<string>,
                   ghost head: seq<Param>, ghost done: seq<Condition>)
      returns (sql': string, params': seq<Param>, paramIndex': nat)
    requires paramIndex == |head| + 1 + |done|
    requires sql == BaseSql + ConditionsSql(done, 3)
    requires params == head + Values(done)
    requires |head| == 2
    ensures var done' := done + ConditionOf(column, v);
      && paramIndex' == |head| + 1 + |done'|
      && sql' == BaseSql + ConditionsSql(done', 3)
      && params' == head + Values(done')
  {
    if Truthy(v) {
      var c := Condition(column, v.value);
      sql' := sql + ConditionSql(c, paramIndex);
      params' := params + [Text(v.value)];
      paramIndex' := paramIndex + 1;
      ConditionsSqlSnoc(done, c, 3);
      assert Values(done + [c]) == Values(done) + [Text(c.value)];
    } else {
      sql', params', paramIndex' := sql, params, paramIndex;
      assert done + [] == done;
    }
  }

  /** Appending a condition appends its clause, numbered after the others. */
  lemma {:induction false} ConditionsSqlSnoc(cs: seq<Condition>, c: Condition, k: nat)
    ensures ConditionsSql(cs + [c], k) == ConditionsSql(cs, k) + ConditionSql(c, k + |cs|)
    decreases |cs|
  {
    if cs == [] {
      assert [c][1..] == [];
    } else {
      assert (cs + [c])[1..] == cs[1..] + [c];
      ConditionsSqlSnoc(cs[1..], c, k + 1);
    }
  }

  /**
   * With no options the query keeps every passage above 0.4 and returns
   * at most 8 of them; at most two conditions are ever added.
   */
  lemma SearchDefaults(embedding: seq<string>)
    ensures Conditions(SearchOptions(None, None, None)) == []
    ensures Threshold(SearchOptions(None, None, None)) == 0.4
    ensures Count(SearchOptions(None, None, None)) == 8
    ensures forall o: SearchOptions :: |Conditions(o)| <= 2
  {
  }

  /**
   * Each filter field is matched against its own column, and a condition
   * is added exactly when the field is a non-empty string.
   */
  lemma ConditionsFollowFilter(o: SearchOptions)
    ensures var f := if o.filter.Some? then o.filter.value else Filter(None, None);
      && (Condition("livre", if f.livre.Some? then f.livre.value else "") in Conditions(o) <==> Truthy(f.livre))
      && (Condition("chapitre", if f.chapitre.Some? then f.chapitre.value else "") in Conditions(o)
          <==> Truthy(f.chapitre))
      && (forall c :: c in Conditions(o) ==> c.value != "" && (c.column == "livre" || c.column == "chapitre"))
  {
  }

  // ---------------------------------------------------------------------
  // searchDocuments: the rows

  datatype DocumentRow = DocumentRow(id: int, content: string, metadata: ChunkMetadata, similarity: real)

  /** `rows.map(doc => ({ id, content, metadata, similarity }))`. */
  function ToResults(rows: seq<DocumentRow>): (r: seq<SearchResult>)
    ensures |r| == |rows|
  {
    seq(|rows|, i requires 0 <= i < |rows| =>
      SearchResult(rows[i].id, rows[i].content, rows[i].metadata, rows[i].similarity))
  }

  function ToRows(results: seq<SearchResult>): (r: seq<DocumentRow>)
    ensures |r| == |results|
  {
    seq(|results|, i requires 0 <= i < |results| =>
      DocumentRow(results[i].id, results[i].content, results[i].metadata, results[i].similarity))
  }

  /** The mapping loses nothing and keeps the order the database ranked the rows in. */
  lemma ResultsRoundTrip(rows: seq<DocumentRow>, results: seq<SearchResult>)
    ensures ToRows(ToResults(rows)) == rows
    ensures ToResults(ToRows(results)) == results
  {
  }

  // ---------------------------------------------------------------------
  // buildContextPrompt and buildUserMessage

  const NoPassage: string := "Aucun passage pertinent " + "n'a été trouvé dans le livre."
  const BlockSeparator: string := "\n\n---\n\n"

  /** The header of the (i+1)-th extract: `[Extrait n] (location)`. */
  function BlockHeader(i: nat, r: SearchResult): string
  {
    "[Extrait " + NatToString(i + 1) + "] (" + LongLocation(r.metadata) + ")"
  }

  function Block(i: nat, r: SearchResult): string
  {
    BlockHeader(i, r) + "\n" + Trim(r.content)
  }

  function Blocks(rs: seq<SearchResult>): (bs: seq<string>)
    ensures |bs| == |rs|
  {
    seq(|rs|, i requires 0 <= i < |rs| => Block(i, rs[i]))
  }

  /** `buildContextPrompt(results)`. */
  function ContextPrompt(rs: seq<SearchResult>): string
  {
    if |rs| == 0 then NoPassage else Join(Blocks(rs), BlockSeparator)
  }

  /**
   * The fallback sentence is the prompt of the empty list and of no other:
   * any other prompt begins with the first extract.
   */
  lemma ContextPromptEmpty(rs: seq<SearchResult>)
    ensures ContextPrompt(rs) == NoPassage <==> rs == []
    ensures rs != [] ==>
      var b := Block(0, rs[0]);
      |ContextPrompt(rs)| >= |b| && ContextPrompt(rs)[..|b|] == b
  {
    if rs != [] {
      var bs := Blocks(rs);
      assert bs[0] == Block(0, rs[0]);
      BlockStart(0, rs[0]);
      JoinEnds(bs, BlockSeparator);
      var p := ContextPrompt(rs);
      assert p[0] == bs[0][0] == '[';
      assert NoPassage[0] == 'A';
    }
  }

  /** Every extract opens with its bracketed header. */
  lemma BlockStart(i: nat, r: SearchResult)
    ensures |Block(i, r)| > 0 && Block(i, r)[0] == '['
  {
    var h := BlockHeader(i, r);
    assert h[0] == '[';
  }

  /** One more result appends one more extract, numbered after the others. */
  lemma ContextPromptSnoc(rs: seq<SearchResult>, r: SearchResult)
    requires rs != []
    ensures ContextPrompt(rs + [r]) == ContextPrompt(rs) + BlockSeparator + Block(|rs|, r)
  {
    assert Blocks(rs + [r]) == Blocks(rs) + [Block(|rs|, r)];
    JoinSnoc(Blocks(rs), Block(|rs|, r), BlockSeparator);
  }

  /** Extract numbers are 1-based positions: the number printed reads back as `i + 1`. */
  lemma BlockNumbered(i: nat, r: SearchResult)
    ensures var n := NatToString(i + 1);
      && BlockHeader(i, r)[..9] == "[Extrait "
      && BlockHeader(i, r)[9..9 + |n|] == n
      && ParseDecimal(n) == i + 1
  {
    ParsePrinted(i + 1);
  }

  const MessageHead: string := "Extraits du livre :\n---\n"
  const MessageMiddle: string := "\n---\n\nQuestion de l'utilisateur : "

  /** `buildUserMessage(question, context)`. */
  function UserMessage(question: string, context: string): string
  {
    MessageHead + context + MessageMiddle + question
  }

  /**
   * The message carries the context and the question verbatim, in that
   * order, between the fixed texts: both can be cut back out of it.
   */
  lemma UserMessageParts(question: string, context: string)
    ensures var m := UserMessage(question, context);
      var a := |MessageHead|;
      var b := a + |context|;
      && |m| == b + |MessageMiddle| + |question|
      && m[..a] == MessageHead
      && m[a..b] == context
      && m[b..b + |MessageMiddle|] == MessageMiddle
      && m[b + |MessageMiddle|..] == question
  {
  }
}
