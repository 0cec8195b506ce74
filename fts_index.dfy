/**
 * The FTS5 side of storage (`src/sqlite/fts.rs`, triggers in
 * `src/sqlite/mod.rs`): the index the triggers keep in step with the
 * `memories` table, the query escaping done before `MATCH`, and the BM25
 * search over the index. Tokenising, `MATCH` and `bm25()` belong to the
 * SQLite engine and are given by a ranking function.
 */
module FtsIndex {
  import opened Wrappers
  import opened SqliteTypes
  import Text
  import Sorting

  /** One indexed document; `projectId` is None in the earlier schema, which has no such column. */
  datatype FtsEntry = FtsEntry(content: string, projectId: Option<string>)

  /** The two layouts of `memories_fts`: content only, or content plus an unindexed project_id. */
  datatype FtsSchema = Legacy | Current

  /** The document the insert trigger writes for a row. */
  function EntryOf(row: Row, schema: FtsSchema): (e: FtsEntry)
    ensures e.content == row.content
    ensures e.projectId == if schema == Current then Some(row.projectId) else None
  {
    FtsEntry(row.content, if schema == Current then Some(row.projectId) else None)
  }

  /** SQLite hands out rowids in increasing order, so table order is rowid order. */
  predicate IncreasingRowids(rows: seq<Row>)
  {
    forall i, j :: 0 <= i < j < |rows| ==> rows[i].rowid < rows[j].rowid
  }

  function Rowids(rows: seq<Row>): set<nat>
  {
    set i | 0 <= i < |rows| :: rows[i].rowid
  }

  /** The index as the triggers leave it: one document per row, keyed by rowid. */
  function Shadow(rows: seq<Row>, schema: FtsSchema): (m: map<nat, FtsEntry>)
    ensures m.Keys == Rowids(rows)
  {
    if rows == [] then map[]
    else
      var init := rows[..|rows| - 1];
      var last := rows[|rows| - 1];
      assert Rowids(rows) == Rowids(init) + {last.rowid} by {
        assert forall i :: 0 <= i < |init| ==> init[i] == rows[i];
      }
      Shadow(init, schema)[last.rowid := EntryOf(last, schema)]
  }

  /** Each row's document is in the index under its rowid. */
  lemma {:induction false} ShadowAt(rows: seq<Row>, schema: FtsSchema, i: nat)
    requires IncreasingRowids(rows) && i < |rows|
    ensures rows[i].rowid in Shadow(rows, schema)
    ensures Shadow(rows, schema)[rows[i].rowid] == EntryOf(rows[i], schema)
  {
    var init := rows[..|rows| - 1];
    if i < |rows| - 1 {
      assert init[i] == rows[i];
      ShadowAt(init, schema, i);
    }
  }

  /** With distinct rowids the index holds exactly as many documents as the table holds rows. */
  lemma {:induction false} ShadowSize(rows: seq<Row>, schema: FtsSchema)
    requires IncreasingRowids(rows)
    ensures |Shadow(rows, schema)| == |rows|
  {
    if rows != [] {
      var init := rows[..|rows| - 1];
      var last := rows[|rows| - 1];
      ShadowSize(init, schema);
      assert last.rowid !in Rowids(init) by {
        assert forall i :: 0 <= i < |init| ==> init[i].rowid < last.rowid;
      }
    }
  }

  /** The insert trigger: appending a row with a fresh, larger rowid adds its document. */
  lemma {:induction false} ShadowAppend(rows: seq<Row>, row: Row, schema: FtsSchema)
    ensures Shadow(rows + [row], schema) == Shadow(rows, schema)[row.rowid := EntryOf(row, schema)]
  {
    assert (rows + [row])[..|rows|] == rows;
  }

  lemma {:induction false} RemoveKeepsIncreasing(rows: seq<Row>, i: nat)
    requires IncreasingRowids(rows) && i < |rows|
    ensures IncreasingRowids(rows[..i] + rows[i + 1..])
  {
    var rest := rows[..i] + rows[i + 1..];
    forall a, b | 0 <= a < b < |rest| ensures rest[a].rowid < rest[b].rowid {
      assert rest[a] == rows[if a < i then a else a + 1];
      assert rest[b] == rows[if b < i then b else b + 1];
    }
  }

  /** The delete trigger: removing row `i` removes exactly its document. */
  lemma {:induction false} ShadowRemove(rows: seq<Row>, schema: FtsSchema, i: nat)
    requires IncreasingRowids(rows) && i < |rows|
    ensures IncreasingRowids(rows[..i] + rows[i + 1..])
    ensures Shadow(rows[..i] + rows[i + 1..], schema) == Shadow(rows, schema) - {rows[i].rowid}
  {
    RemoveKeepsIncreasing(rows, i);
    RemoveKeys(rows, i);
    var after := Shadow(rows[..i] + rows[i + 1..], schema);
    var expected := Shadow(rows, schema) - {rows[i].rowid};
    forall key | key in after.Keys ensures after[key] == expected[key] {
      RemoveAt(rows, schema, i, key);
    }
    MapsEqual(after, expected);
  }

  lemma {:induction false} RemoveKeys(rows: seq<Row>, i: nat)
    requires IncreasingRowids(rows) && i < |rows|
    ensures Rowids(rows[..i] + rows[i + 1..]) == Rowids(rows) - {rows[i].rowid}
  {
    var rest := rows[..i] + rows[i + 1..];
    forall k | 0 <= k < |rows| && k != i ensures rows[k].rowid in Rowids(rest) {
      assert rows[k] == rest[if k < i then k else k - 1];
    }
    forall k | 0 <= k < |rest| ensures rest[k].rowid in Rowids(rows) - {rows[i].rowid} {
      assert rest[k] == rows[if k < i then k else k + 1];
    }
  }

  lemma {:induction false} RemoveAt(rows: seq<Row>, schema: FtsSchema, i: nat, key: nat)
    requires IncreasingRowids(rows) && i < |rows|
    requires key in Rowids(rows[..i] + rows[i + 1..])
    ensures key in Shadow(rows, schema)
    ensures Shadow(rows[..i] + rows[i + 1..], schema)[key] == Shadow(rows, schema)[key]
  {
    var rest := rows[..i] + rows[i + 1..];
    RemoveKeepsIncreasing(rows, i);
    var k :| 0 <= k < |rest| && rest[k].rowid == key;
    assert rest[k] == rows[if k < i then k else k + 1];
    ShadowAt(rest, schema, k);
    ShadowAt(rows, schema, if k < i then k else k + 1);
  }

  /** The update trigger: replacing row `i` by one with the same rowid replaces its document. */
  lemma {:induction false} ShadowReplace(rows: seq<Row>, schema: FtsSchema, i: nat, row: Row)
    requires IncreasingRowids(rows) && i < |rows| && row.rowid == rows[i].rowid
    ensures IncreasingRowids(rows[i := row])
    ensures Shadow(rows[i := row], schema) == Shadow(rows, schema)[row.rowid := EntryOf(row, schema)]
  {
    ReplaceKeepsIncreasing(rows, i, row);
    var after := Shadow(rows[i := row], schema);
    var expected := Shadow(rows, schema)[row.rowid := EntryOf(row, schema)];
    forall key | key in after.Keys ensures key in expected && after[key] == expected[key] {
      ReplaceAt(rows, schema, i, row, key);
    }
    forall key | key in expected.Keys ensures key in after {
      ReplaceAt(rows, schema, i, row, key);
    }
    MapsEqual(after, expected);
  }

  lemma {:induction false} ReplaceKeepsIncreasing(rows: seq<Row>, i: nat, row: Row)
    requires IncreasingRowids(rows) && i < |rows| && row.rowid == rows[i].rowid
    ensures IncreasingRowids(rows[i := row])
    ensures Rowids(rows[i := row]) == Rowids(rows)
  {
    assert forall k :: 0 <= k < |rows| ==> rows[i := row][k].rowid == rows[k].rowid;
  }

  lemma {:induction false} ReplaceAt(rows: seq<Row>, schema: FtsSchema, i: nat, row: Row, key: nat)
    requires IncreasingRowids(rows) && i < |rows| && row.rowid == rows[i].rowid
    ensures key in Shadow(rows[i := row], schema) <==> key in Shadow(rows, schema)
    ensures key in Shadow(rows, schema) ==>
              Shadow(rows[i := row], schema)[key] == Shadow(rows, schema)[row.rowid := EntryOf(row, schema)][key]
  {
    ReplaceKeepsIncreasing(rows, i, row);
    if key in Rowids(rows) {
      var k :| 0 <= k < |rows| && rows[k].rowid == key;
      ShadowAt(rows[i := row], schema, k);
      ShadowAt(rows, schema, k);
    }
  }

  lemma {:induction false} MapsEqual<K, V>(a: map<K, V>, b: map<K, V>)
    requires a.Keys == b.Keys && forall k :: k in a.Keys ==> a[k] == b[k]
    ensures a == b
  {
  }

  /** `str::replace` of one character by a string. */
  function Replace(s: string, c: char, rep: string): (r: string)
    ensures forall x :: x in r ==> (x in s && x != c) || x in rep
  {
    if s == [] then []
    else (if s[0] == c then rep else [s[0]]) + Replace(s[1..], c, rep)
  }

  lemma {:induction false} ReplaceAppend(a: string, b: string, c: char, rep: string)
    ensures Replace(a + b, c, rep) == Replace(a, c, rep) + Replace(b, c, rep)
  {
    if a != [] {
      assert (a + b)[1..] == a[1..] + b;
      ReplaceAppend(a[1..], b, c, rep);
    } else {
      assert a + b == b;
    }
  }

  /** Backslashes and double quotes doubled, in one pass. */
  function Doubled(w: string): string
  {
    if w == [] then []
    else (if w[0] == '\\' || w[0] == '"' then [w[0], w[0]] else [w[0]]) + Doubled(w[1..])
  }

  /** The two `replace` calls of `escape_fts_query` double each backslash and each double quote. */
  lemma {:induction false} ReplacesDouble(w: string)
    ensures Replace(Replace(w, '\\', "\\\\"), '"', "\"\"") == Doubled(w)
  {
    if w != [] {
      var head := if w[0] == '\\' then "\\\\" else [w[0]];
      assert Replace(w, '\\', "\\\\") == head + Replace(w[1..], '\\', "\\\\");
      ReplaceAppend(head, Replace(w[1..], '\\', "\\\\"), '"', "\"\"");
      ReplacesDouble(w[1..]);
      if w[0] == '\\' {
        assert Replace(head, '"', "\"\"") == "\\\\" by {
          assert head[1..] == "\\";
          assert head[1..][1..] == [];
        }
      } else {
        assert Replace(head, '"', "\"\"") == if w[0] == '"' then "\"\"" else [w[0]] by {
          assert head[1..] == [];
        }
      }
    }
  }

  /** Inverse of `Doubled`: each doubled backslash or quote stands for one. */
  function Undoubled(t: string): string
  {
    if |t| >= 2 && (t[0] == '\\' || t[0] == '"') && t[1] == t[0] then [t[0]] + Undoubled(t[2..])
    else if t == [] then []
    else [t[0]] + Undoubled(t[1..])
  }

  lemma {:induction false} UndoubleDoubled(w: string)
    ensures Undoubled(Doubled(w)) == w
  {
    if w != [] {
      var d := Doubled(w);
      UndoubleDoubled(w[1..]);
      if w[0] == '\\' || w[0] == '"' {
        assert d[2..] == Doubled(w[1..]);
      } else {
        assert d[1..] == Doubled(w[1..]);
      }
      assert w == [w[0]] + w[1..];
    }
  }

  /** One token as a double-quoted FTS5 string. */
  function EscapeTerm(w: string): (t: string)
    ensures |t| >= 2 && t[0] == '"' && t[|t| - 1] == '"'
  {
    "\"" + Replace(Replace(w, '\\', "\\\\"), '"', "\"\"") + "\""
  }

  /** The token a quoted term stands for. */
  function Unescape(t: string): string
  {
    if |t| >= 2 then Undoubled(t[1..|t| - 1]) else t
  }

  /** Unescaping an escaped token gives the token back. */
  lemma {:induction false} EscapeTermRoundTrip(w: string)
    ensures Unescape(EscapeTerm(w)) == w
  {
    var t := EscapeTerm(w);
    ReplacesDouble(w);
    assert t[1..|t| - 1] == Doubled(w);
    UndoubleDoubled(w);
  }

  function EscapeAll(words: seq<string>): (r: seq<string>)
    ensures |r| == |words| && forall i :: 0 <= i < |words| ==> r[i] == EscapeTerm(words[i])
  {
    if words == [] then [] else [EscapeTerm(words[0])] + EscapeAll(words[1..])
  }

  /** `escape_fts_query`: the whitespace-separated tokens, each quoted, joined by single spaces. */
  function EscapeFtsQuery(query: string): string
  {
    Text.Join(EscapeAll(Text.SplitWhitespace(query)), " ")
  }

  /** A quoted term of a token is itself a token. */
  lemma {:induction false} EscapeTermIsWord(w: string)
    requires Text.IsWord(w)
    ensures Text.IsWord(EscapeTerm(w))
  {
    var t := EscapeTerm(w);
    var inner := Replace(Replace(w, '\\', "\\\\"), '"', "\"\"");
    assert t == "\"" + inner + "\"";
    Text.VisibleAsciiNotWhitespace('"');
    Text.VisibleAsciiNotWhitespace('\\');
    forall i | 0 <= i < |t| ensures !Text.IsWhitespace(t[i]) {
      if 0 < i < |t| - 1 {
        assert t[i] == inner[i - 1];
        assert t[i] in inner;
      }
    }
  }

  lemma {:induction false} EscapeAllWords(words: seq<string>)
    requires Text.AllWords(words)
    ensures Text.AllWords(EscapeAll(words))
  {
    if words != [] {
      EscapeTermIsWord(words[0]);
      EscapeAllWords(words[1..]);
      assert EscapeAll(words)[1..] == EscapeAll(words[1..]);
    }
  }

  /**
   * The escaped query consists of one quoted term per token of the input, in
   * token order and separated by single spaces, and each term unescapes to
   * its token.
   */
  lemma {:induction false} EscapeFtsQueryTerms(query: string)
    ensures var words := Text.SplitWhitespace(query);
            var terms := Text.SplitWhitespace(EscapeFtsQuery(query));
            EscapeFtsQuery(query) == Text.Join(terms, " ")
            && |terms| == |words|
            && forall i :: 0 <= i < |terms| ==> terms[i] == EscapeTerm(words[i]) && Unescape(terms[i]) == words[i]
  {
    var words := Text.SplitWhitespace(query);
    Text.SplitWhitespaceWords(query);
    EscapeAllWords(words);
    Text.SplitJoinedWords(EscapeAll(words));
    forall i | 0 <= i < |words| ensures Unescape(EscapeTerm(words[i])) == words[i] {
      EscapeTermRoundTrip(words[i]);
    }
  }

  /** The escaped query is empty exactly when the input is empty or all whitespace. */
  lemma {:induction false} EscapeEmptyIffBlank(query: string)
    ensures EscapeFtsQuery(query) == [] <==> Text.AllWhitespace(query)
  {
    var terms := EscapeAll(Text.SplitWhitespace(query));
    if terms != [] {
      assert |Text.Join(terms, " ")| >= |terms[0]|;
    }
  }

  /** BM25 order: lower scores are better and come first. */
  predicate Bm25Before(a: Memory, b: Memory)
  {
    Score(a) < Score(b)
  }

  lemma {:induction false} Bm25BeforeIsStrictOrder()
    ensures Sorting.StrictOrder(Bm25Before)
  {
  }

  /** The join with `memories`: the project's rows whose documents matched, scored by `bm25()`. */
  function Bm25Candidates(rows: seq<Row>, matches: map<nat, real>, projectId: string): (r: seq<Memory>)
    ensures forall m :: m in r <==> exists row :: row in rows && row.projectId == projectId && row.rowid in matches
                                                && m == AsMemory(row).(similarity := Some(matches[row.rowid]))
  {
    if rows == [] then []
    else
      var init := rows[..|rows| - 1];
      var last := rows[|rows| - 1];
      assert rows == init + [last];
      Bm25Candidates(init, matches, projectId)
      + (if last.projectId == projectId && last.rowid in matches
         then [AsMemory(last).(similarity := Some(matches[last.rowid]))] else [])
  }

  /**
   * What `search_bm25` returns once the limit is valid and the index is set
   * up: nothing for a blank query, otherwise the matching rows of the
   * project by ascending BM25 score, at most `limit` of them. `rank` is the
   * engine's `MATCH` plus `bm25()`: for an FTS5 query and an index, the
   * scores of the matching documents.
   */
  function Bm25Result(rows: seq<Row>, index: map<nat, FtsEntry>, query: string, projectId: string, limit: nat,
                      rank: (string, map<nat, FtsEntry>) -> map<nat, real>): (r: seq<Memory>)
    ensures EscapeFtsQuery(query) == [] ==> r == []
    ensures |r| <= limit
  {
    var escaped := EscapeFtsQuery(query);
    if escaped == [] then []
    else Sorting.Take(Sorting.SortBy(Bm25Candidates(rows, rank(escaped, index), projectId), Bm25Before), limit)
  }

  /** BM25 results belong to the project, matched the query, and are ordered best (lowest) first. */
  lemma {:induction false} Bm25ResultProperties(rows: seq<Row>, index: map<nat, FtsEntry>, query: string, projectId: string,
                             limit: nat, rank: (string, map<nat, FtsEntry>) -> map<nat, real>)
    ensures var r := Bm25Result(rows, index, query, projectId, limit, rank);
            Sorting.SortedBy(r, Bm25Before)
            && forall m :: m in r ==> m.projectId == projectId
                                      && exists row :: row in rows && row.id == m.id && row.rowid in rank(EscapeFtsQuery(query), index)
  {
    var escaped := EscapeFtsQuery(query);
    if escaped != [] {
      var cands := Bm25Candidates(rows, rank(escaped, index), projectId);
      var ranked := Sorting.SortBy(cands, Bm25Before);
      Bm25BeforeIsStrictOrder();
      Sorting.SortBySorted(cands, Bm25Before);
      Sorting.TakeSortedIsTop(ranked, limit, Bm25Before);
      forall m | m in Sorting.Take(ranked, limit)
        ensures m in cands
      {
        assert m in multiset(Sorting.Take(ranked, limit));
        assert m in multiset(ranked);
      }
    }
  }
}
