/**
 * The demo vector controller of the Node.js layer: `searchSimilar` ranks
 * three hard-coded documents by word-overlap score and returns the best
 * `top_k`; `uploadDocument` validates a body and answers with a demo id.
 * Responses are values: an HTTP 400 with its error text, or the JSON body
 * of the success reply.
 */
module VectorController {
  import opened Wrappers
  import Text
  import Similarity

  datatype Doc = Doc(id: string, title: string, category: string, content: string)

  /** `HARDCODED_DOCS`. */
  const HardcodedDocs: seq<Doc> := [
    Doc("doc-1", "Constitution Amendment - Free Speech", "Fundamental Rights",
        "Every citizen shall have freedom of speech and expression subject to reasonable restrictions for public order and security."),
    Doc("doc-2", "Constitution Amendment - Right to Privacy", "Fundamental Rights",
        "The privacy of every individual's correspondence and personal information shall be safeguarded by law, except as necessary for national security."),
    Doc("doc-3", "Criminal Procedure Act - Arrests", "Criminal Law",
        "Police may arrest without warrant where a person is reasonably suspected of committing a cognizable offence and where delay would frustrate the investigation.")
  ]

  /** `{ ...d, score }`: a document with its score for the query. */
  datatype Scored = Scored(doc: Doc, score: real)

  /** One element of the `results` array of the search reply. */
  datatype ResultRow = ResultRow(docId: string, title: string, category: string, score: real, content: string)

  /** A reply: an HTTP error code with its `error` text, or the JSON body of
      a 200 reply, whose `status` field is always `"ok"`. */
  datatype Response =
    | Failure(code: nat, error: string)
    | SearchOk(status: string, query: string, topK: int, results: seq<ResultRow>)
    | UploadOk(status: string, docId: string, message: string)

  // ---------------------------------------------------------------------
  // The stable sort by descending score
  // ---------------------------------------------------------------------

  predicate SortedByScore(xs: seq<Scored>)
  {
    forall i, j :: 0 <= i < j < |xs| ==> xs[i].score >= xs[j].score
  }

  /** Among equal scores, `key` increases: the order the sort must keep. */
  predicate StableBy(xs: seq<Scored>, key: Scored -> int)
  {
    forall i, j :: 0 <= i < j < |xs| && xs[i].score == xs[j].score ==> key(xs[i]) < key(xs[j])
  }

  predicate KeysDistinct(xs: seq<Scored>, key: Scored -> int)
  {
    forall i, j :: 0 <= i < j < |xs| ==> key(xs[i]) != key(xs[j])
  }

  /** Put `x` in front of the first element whose score is not above its own. */
  function Insert(x: Scored, ys: seq<Scored>): (r: seq<Scored>)
    ensures |r| == |ys| + 1
    ensures multiset(r) == multiset([x] + ys)
  {
    if ys == [] || x.score >= ys[0].score then [x] + ys
    else
      assert ys == [ys[0]] + ys[1..];
      [ys[0]] + Insert(x, ys[1..])
  }

  lemma {:induction false} InsertMembers(x: Scored, ys: seq<Scored>, z: Scored)
    requires z in Insert(x, ys)
    ensures z == x || z in ys
  {
    if ys == [] || x.score >= ys[0].score {
    } else if z != ys[0] {
      InsertMembers(x, ys[1..], z);
    }
  }

  lemma {:induction false} InsertSorted(x: Scored, ys: seq<Scored>)
    requires SortedByScore(ys)
    ensures SortedByScore(Insert(x, ys))
  {
    if ys == [] || x.score >= ys[0].score {
      ConsSorted(x, ys);
    } else {
      var tail := Insert(x, ys[1..]);
      InsertSorted(x, ys[1..]);
      forall z | z in tail
        ensures z.score <= ys[0].score
      {
        InsertMembers(x, ys[1..], z);
      }
      ConsSorted(ys[0], tail);
    }
  }

  /** Putting `h` in front of a sorted list keeps it sorted when nothing in
      the list scores above `h`. */
  lemma {:induction false} ConsSorted(h: Scored, tail: seq<Scored>)
    requires SortedByScore(tail)
    requires forall z :: z in tail ==> z.score <= h.score
    ensures SortedByScore([h] + tail)
  {
    var r := [h] + tail;
    forall i, j | 0 <= i < j < |r|
      ensures r[i].score >= r[j].score
    {
      assert r[j] == tail[j - 1];
      if i > 0 {
        assert r[i] == tail[i - 1];
      }
    }
  }

  /** `array.sort((a, b) => b.score - a.score)`: a stable sort by descending
      score, written as an insertion sort. Any stable sort gives the same
      order, so this is the order the reply has. */
  function SortByScore(xs: seq<Scored>): (r: seq<Scored>)
    ensures |r| == |xs|
    ensures multiset(r) == multiset(xs)
    ensures SortedByScore(r)
  {
    if xs == [] then []
    else
      assert xs == [xs[0]] + xs[1..];
      InsertSorted(xs[0], SortByScore(xs[1..]));
      Insert(xs[0], SortByScore(xs[1..]))
  }

  lemma {:induction false} InsertStable(x: Scored, ys: seq<Scored>, key: Scored -> int)
    requires SortedByScore(ys) && StableBy(ys, key)
    requires forall y :: y in ys ==> key(x) < key(y)
    ensures StableBy(Insert(x, ys), key)
  {
    if ys == [] || x.score >= ys[0].score {
      ConsStable(x, ys, key);
    } else {
      var tail := Insert(x, ys[1..]);
      InsertStable(x, ys[1..], key);
      forall z | z in tail && z.score == ys[0].score
        ensures key(ys[0]) < key(z)
      {
        InsertMembers(x, ys[1..], z);
        if z != x {
          StableHead(ys, key, z);
        }
      }
      ConsStable(ys[0], tail, key);
    }
  }

  /** Putting `h` in front of a stable list keeps it stable when every
      equal-scored element has a larger key. */
  lemma {:induction false} ConsStable(h: Scored, tail: seq<Scored>, key: Scored -> int)
    requires StableBy(tail, key)
    requires forall z :: z in tail && z.score == h.score ==> key(h) < key(z)
    ensures StableBy([h] + tail, key)
  {
    var r := [h] + tail;
    forall i, j | 0 <= i < j < |r| && r[i].score == r[j].score
      ensures key(r[i]) < key(r[j])
    {
      assert r[j] == tail[j - 1];
      if i > 0 {
        assert r[i] == tail[i - 1];
      }
    }
  }

  /** Putting `h` in front of a list without repeated keys keeps it so when
      `h`'s key is new. */
  lemma {:induction false} ConsDistinct(h: Scored, tail: seq<Scored>, key: Scored -> int)
    requires KeysDistinct(tail, key)
    requires forall z :: z in tail ==> key(h) != key(z)
    ensures KeysDistinct([h] + tail, key)
  {
    var r := [h] + tail;
    forall i, j | 0 <= i < j < |r|
      ensures key(r[i]) != key(r[j])
    {
      assert r[j] == tail[j - 1];
      if i > 0 {
        assert r[i] == tail[i - 1];
      }
    }
  }

  lemma {:induction false} StableHead(ys: seq<Scored>, key: Scored -> int, z: Scored)
    requires StableBy(ys, key) && |ys| > 0
    requires z in ys[1..] && z.score == ys[0].score
    ensures key(ys[0]) < key(z)
  {
    var m :| 0 <= m < |ys[1..]| && ys[1..][m] == z;
    assert ys[m + 1] == z;
  }

  lemma {:induction false} DistinctHead(ys: seq<Scored>, key: Scored -> int, z: Scored)
    requires KeysDistinct(ys, key) && |ys| > 0
    requires z in ys[1..]
    ensures key(ys[0]) != key(z)
  {
    var m :| 0 <= m < |ys[1..]| && ys[1..][m] == z;
    assert ys[m + 1] == z;
  }

  lemma {:induction false} InsertKeepsKeysDistinct(x: Scored, ys: seq<Scored>, key: Scored -> int)
    requires KeysDistinct(ys, key)
    requires forall y :: y in ys ==> key(x) != key(y)
    ensures KeysDistinct(Insert(x, ys), key)
  {
    if ys == [] || x.score >= ys[0].score {
      ConsDistinct(x, ys, key);
    } else {
      var tail := Insert(x, ys[1..]);
      InsertKeepsKeysDistinct(x, ys[1..], key);
      forall z | z in tail
        ensures key(ys[0]) != key(z)
      {
        InsertMembers(x, ys[1..], z);
        if z != x {
          DistinctHead(ys, key, z);
        }
      }
      ConsDistinct(ys[0], tail, key);
    }
  }

  /** When `key` increases along the input, equal scores keep that order in
      the output and no key is repeated. */
  lemma {:induction false} SortStable(xs: seq<Scored>, key: Scored -> int)
    requires forall i, j :: 0 <= i < j < |xs| ==> key(xs[i]) < key(xs[j])
    ensures StableBy(SortByScore(xs), key)
    ensures KeysDistinct(SortByScore(xs), key)
  {
    if xs != [] {
      var rest := xs[1..];
      SortStable(rest, key);
      var sorted := SortByScore(rest);
      forall y | y in sorted
        ensures key(xs[0]) < key(y)
      {
        assert y in multiset(rest);
        var m :| 0 <= m < |rest| && rest[m] == y;
        assert xs[m + 1] == y;
      }
      InsertStable(xs[0], sorted, key);
      InsertKeepsKeysDistinct(xs[0], sorted, key);
    }
  }

  // ---------------------------------------------------------------------
  // searchSimilar
  // ---------------------------------------------------------------------

  /** `array.slice(0, k)`'s end on an array of length `len`: a negative `k`
      counts from the end. */
  function SliceEnd(k: int, len: nat): (e: nat)
    ensures e <= len
    ensures 0 <= k ==> e == Text.Min(k, len)
    ensures k < 0 ==> e == Text.Max(len + k, 0)
  {
    if k < 0 then (if len + k > 0 then len + k else 0)
    else if k < len then k
    else len
  }

  /** `HARDCODED_DOCS.map(d => ({ ...d, score: simpleMostSimilar(query, d.content) }))`. */
  function ScoreDocs(query: Option<string>): (r: seq<Scored>)
    ensures |r| == |HardcodedDocs|
    ensures forall i :: 0 <= i < |r| ==>
      r[i] == Scored(HardcodedDocs[i], Similarity.Score(query, Some(HardcodedDocs[i].content)))
  {
    seq(|HardcodedDocs|, i requires 0 <= i < |HardcodedDocs| =>
      Scored(HardcodedDocs[i], Similarity.Score(query, Some(HardcodedDocs[i].content))))
  }

  function Row(s: Scored): ResultRow
  {
    ResultRow(s.doc.id, s.doc.title, s.doc.category, s.score, s.doc.content)
  }

  /** The reply row a hard-coded document gives for a query. */
  function RowFor(query: Option<string>, d: Doc): ResultRow
  {
    Row(Scored(d, Similarity.Score(query, Some(d.content))))
  }

  /** The position of a document id in `HARDCODED_DOCS` (3 for any other id). */
  function TablePos(id: string): int
  {
    if id == "doc-1" then 0 else if id == "doc-2" then 1 else if id == "doc-3" then 2 else 3
  }

  function ScoredPos(s: Scored): int
  {
    TablePos(s.doc.id)
  }

  /** `searchSimilar`: `top_k` defaults to 1 when absent; a falsy query is a
      400; otherwise the scored documents, sorted, cut at `top_k`. */
  function SearchSimilar(query: Option<string>, topK: Option<int>): Response
  {
    var k := if topK.Some? then topK.value else 1;
    if !Text.Truthy(query) then
      Failure(400, "query is required")
    else
      SearchOk("ok", query.value, k, Rows(Ranked(query, k)))
  }

  /** The scored documents, best first, cut at `top_k`. */
  function Ranked(query: Option<string>, k: int): seq<Scored>
  {
    var sorted := SortByScore(ScoreDocs(query));
    sorted[..SliceEnd(k, |sorted|)]
  }

  function Rows(ranked: seq<Scored>): (rows: seq<ResultRow>)
    ensures |rows| == |ranked|
    ensures forall i :: 0 <= i < |ranked| ==> rows[i] == Row(ranked[i])
  {
    seq(|ranked|, i requires 0 <= i < |ranked| => Row(ranked[i]))
  }

  /** A missing or empty query is refused before anything is ranked. */
  lemma {:induction false} SearchNeedsQuery(query: Option<string>, topK: Option<int>)
    requires !Text.Truthy(query)
    ensures SearchSimilar(query, topK) == Failure(400, "query is required")
  {
  }

  /** How many results come back: `min(top_k, 3)` for a non-negative `top_k`,
      one when it is absent, and all but the last `-top_k` for a negative one;
      the reply echoes `top_k`, with its default filled in. */
  lemma {:induction false} SearchResultCount(query: Option<string>, topK: Option<int>)
    requires Text.Truthy(query)
    ensures var r := SearchSimilar(query, topK);
      var k := if topK.Some? then topK.value else 1;
      && r.SearchOk? && r.status == "ok" && r.query == query.value && r.topK == k
      && (0 <= k ==> |r.results| == Text.Min(k, 3))
      && (k < 0 ==> |r.results| == Text.Max(3 + k, 0))
      && (topK.None? ==> |r.results| == 1)
  {
  }

  lemma {:induction false} TableOrder()
    ensures forall i, j :: 0 <= i < j < |HardcodedDocs| ==> TablePos(HardcodedDocs[i].id) < TablePos(HardcodedDocs[j].id)
    ensures forall i :: 0 <= i < |HardcodedDocs| ==> TablePos(HardcodedDocs[i].id) == i
  {
  }

  lemma {:induction false} CutFacts(xs: seq<Scored>, n: nat, key: Scored -> int)
    requires n <= |xs|
    requires SortedByScore(xs) && StableBy(xs, key) && KeysDistinct(xs, key)
    ensures SortedByScore(xs[..n]) && StableBy(xs[..n], key) && KeysDistinct(xs[..n], key)
    ensures forall i :: 0 <= i < n ==> xs[..n][i] == xs[i]
  {
  }

  lemma {:induction false} SortMembers(xs: seq<Scored>, z: Scored)
    requires z in SortByScore(xs)
    ensures z in xs
  {
    assert z in multiset(SortByScore(xs));
  }

  lemma {:induction false} ScoreDocsInTableOrder(query: Option<string>)
    ensures var scored := ScoreDocs(query);
      forall i, j :: 0 <= i < j < |scored| ==> ScoredPos(scored[i]) < ScoredPos(scored[j])
  {
    TableOrder();
  }

  /** The cut keeps what the sort established, and each ranked entry is one
      of the scored documents. */
  lemma {:induction false} RankedFacts(query: Option<string>, k: int)
    ensures var ranked := Ranked(query, k);
      && SortedByScore(ranked)
      && StableBy(ranked, ScoredPos)
      && KeysDistinct(ranked, ScoredPos)
      && (forall i :: 0 <= i < |ranked| ==> ranked[i] in ScoreDocs(query))
  {
    var scored := ScoreDocs(query);
    ScoreDocsInTableOrder(query);
    SortStable(scored, ScoredPos);
    var sorted := SortByScore(scored);
    var n := SliceEnd(k, |sorted|);
    CutFacts(sorted, n, ScoredPos);
    forall i | 0 <= i < n
      ensures sorted[..n][i] in scored
    {
      SortMembers(scored, sorted[i]);
    }
  }

  /** `row` is the reply row of one of the hard-coded documents. */
  predicate IsDocRow(query: Option<string>, row: ResultRow)
  {
    exists d :: d in HardcodedDocs && row == RowFor(query, d)
  }

  lemma {:induction false} ScoredDocIsRow(query: Option<string>, s: Scored)
    requires s in ScoreDocs(query)
    ensures IsDocRow(query, Row(s))
  {
    var scored := ScoreDocs(query);
    var m :| 0 <= m < |scored| && scored[m] == s;
    assert Row(s) == RowFor(query, HardcodedDocs[m]);
  }

  /** Results are best first; equal scores keep the order of
      `HARDCODED_DOCS`; every result is a different hard-coded document
      carrying its own fields and its score for the query. */
  lemma {:induction false} SearchRanking(query: Option<string>, topK: Option<int>)
    requires Text.Truthy(query)
    ensures var rs := SearchSimilar(query, topK).results;
      && (forall i, j :: 0 <= i < j < |rs| ==> rs[i].score >= rs[j].score)
      && (forall i, j :: 0 <= i < j < |rs| && rs[i].score == rs[j].score ==>
            TablePos(rs[i].docId) < TablePos(rs[j].docId))
      && (forall i, j :: 0 <= i < j < |rs| ==> rs[i].docId != rs[j].docId)
      && (forall i :: 0 <= i < |rs| ==>
            IsDocRow(query, rs[i]))
  {
    var k := if topK.Some? then topK.value else 1;
    RankedFacts(query, k);
    RowsFacts(query, Ranked(query, k));
    assert SearchSimilar(query, topK).results == Rows(Ranked(query, k));
  }

  /** `r` comes before `o` in the ranking: a higher score, or the same score
      and an earlier place in `HARDCODED_DOCS`. */
  predicate Outranks(r: ResultRow, o: ResultRow)
  {
    r.score > o.score || (r.score == o.score && TablePos(r.docId) < TablePos(o.docId))
  }

  /** The cut of the sorted documents keeps the best ones: every kept entry
      scores at least as high as every dropped one, and wins a tie by its
      place in `HARDCODED_DOCS`. */
  lemma {:induction false} CutIsBest(query: Option<string>, k: int, i: nat, j: nat)
    requires i < SliceEnd(k, |HardcodedDocs|) <= j < |HardcodedDocs|
    ensures var sorted := SortByScore(ScoreDocs(query));
      && sorted[i].score >= sorted[j].score
      && (sorted[i].score == sorted[j].score ==> ScoredPos(sorted[i]) < ScoredPos(sorted[j]))
  {
    ScoreDocsInTableOrder(query);
    SortStable(ScoreDocs(query), ScoredPos);
  }

  /** Where a hard-coded document lands in the sorted list. */
  lemma {:induction false} PlaceOf(query: Option<string>, d: Doc) returns (j: nat)
    requires d in HardcodedDocs
    ensures var sorted := SortByScore(ScoreDocs(query));
      j < |sorted| && Row(sorted[j]) == RowFor(query, d)
  {
    var scored := ScoreDocs(query);
    var sorted := SortByScore(scored);
    var m :| 0 <= m < |HardcodedDocs| && HardcodedDocs[m] == d;
    assert scored[m] in multiset(sorted);
    j :| 0 <= j < |sorted| && sorted[j] == scored[m];
  }

  /** The cut keeps the best: each hard-coded document is either among the
      rows or outranked by every row. */
  lemma {:induction false} RankedKeepsBest(query: Option<string>, k: int, d: Doc)
    requires d in HardcodedDocs
    ensures var rs := Rows(Ranked(query, k));
      || (exists i :: 0 <= i < |rs| && rs[i] == RowFor(query, d))
      || (forall i :: 0 <= i < |rs| ==> Outranks(rs[i], RowFor(query, d)))
  {
    var sorted := SortByScore(ScoreDocs(query));
    var n := SliceEnd(k, |sorted|);
    var j := PlaceOf(query, d);
    if j >= n {
      forall i | 0 <= i < n
        ensures Outranks(Row(sorted[i]), Row(sorted[j]))
      {
        CutIsBest(query, k, i, j);
      }
    }
    RowsKeepBest(sorted, n, j);
  }

  /** The rows of a prefix either hold the row of entry `j` or, when every
      kept entry outranks entry `j`, all outrank its row. */
  lemma {:induction false} RowsKeepBest(sorted: seq<Scored>, n: nat, j: nat)
    requires n <= |sorted| && j < |sorted|
    requires j >= n ==> forall i :: 0 <= i < n ==> Outranks(Row(sorted[i]), Row(sorted[j]))
    ensures var rs := Rows(sorted[..n]);
      || (exists i :: 0 <= i < |rs| && rs[i] == Row(sorted[j]))
      || (forall i :: 0 <= i < |rs| ==> Outranks(rs[i], Row(sorted[j])))
  {
    var rs := Rows(sorted[..n]);
    if j < n {
      assert rs[j] == Row(sorted[j]);
    } else {
      forall i | 0 <= i < |rs|
        ensures Outranks(rs[i], Row(sorted[j]))
      {
        assert rs[i] == Row(sorted[i]);
      }
    }
  }

  /** `searchSimilar` returns the top `top_k`: each hard-coded document is
      either among the results, with its own row, or outranked by every
      result. */
  lemma {:induction false} SearchKeepsBest(query: Option<string>, topK: Option<int>, d: Doc)
    requires Text.Truthy(query) && d in HardcodedDocs
    ensures var rs := SearchSimilar(query, topK).results;
      || (exists i :: 0 <= i < |rs| && rs[i] == RowFor(query, d))
      || (forall i :: 0 <= i < |rs| ==> Outranks(rs[i], RowFor(query, d)))
  {
    var k := if topK.Some? then topK.value else 1;
    assert SearchSimilar(query, topK).results == Rows(Ranked(query, k));
    RankedKeepsBest(query, k, d);
  }

  lemma {:induction false} RowsFacts(query: Option<string>, ranked: seq<Scored>)
    requires SortedByScore(ranked) && StableBy(ranked, ScoredPos) && KeysDistinct(ranked, ScoredPos)
    requires forall i :: 0 <= i < |ranked| ==> ranked[i] in ScoreDocs(query)
    ensures var rs := Rows(ranked);
      && (forall i, j :: 0 <= i < j < |rs| ==> rs[i].score >= rs[j].score)
      && (forall i, j :: 0 <= i < j < |rs| && rs[i].score == rs[j].score ==>
            TablePos(rs[i].docId) < TablePos(rs[j].docId))
      && (forall i, j :: 0 <= i < j < |rs| ==> rs[i].docId != rs[j].docId)
      && (forall i :: 0 <= i < |rs| ==>
            IsDocRow(query, rs[i]))
  {
    var rs := Rows(ranked);
    forall i | 0 <= i < |rs|
      ensures IsDocRow(query, rs[i])
    {
      ScoredDocIsRow(query, ranked[i]);
    }
    forall i, j | 0 <= i < j < |rs|
      ensures rs[i].score == rs[j].score ==> TablePos(rs[i].docId) < TablePos(rs[j].docId)
      ensures rs[i].docId != rs[j].docId
    {
      assert TablePos(rs[i].docId) == ScoredPos(ranked[i]);
      assert TablePos(rs[j].docId) == ScoredPos(ranked[j]);
    }
  }

  // ---------------------------------------------------------------------
  // uploadDocument
  // ---------------------------------------------------------------------

  const UploadAccepted: string := "Document accepted (demo mode). In production this triggers vectorization."

  /** `uploadDocument` with `Date.now()` passed in as `now`; `category` is
      read from the body and not used. */
  function UploadDocument(title: Option<string>, content: Option<string>, category: Option<string>, now: nat)
    : Response
  {
    if !Text.Truthy(title) || !Text.Truthy(content) then
      Failure(400, "title and content required")
    else
      UploadOk("ok", DemoId(now), UploadAccepted)
  }

  /** A missing title or content is a 400; otherwise the reply says `ok`
      and carries the demo id for the timestamp. */
  lemma {:induction false} UploadOutcome(title: Option<string>, content: Option<string>, category: Option<string>, now: nat)
    ensures var r := UploadDocument(title, content, category, now);
      && (r.Failure? <==> !Text.Truthy(title) || !Text.Truthy(content))
      && (r.Failure? ==> r.code == 400 && r.error == "title and content required")
      && (!r.Failure? ==> r == UploadOk("ok", DemoId(now), UploadAccepted))
  {
  }

  /** Uploads at different times get different ids. */
  lemma {:induction false} UploadIdsDiffer(title: Option<string>, content: Option<string>, category: Option<string>, t1: nat, t2: nat)
    requires Text.Truthy(title) && Text.Truthy(content) && t1 != t2
    ensures UploadDocument(title, content, category, t1).docId != UploadDocument(title, content, category, t2).docId
  {
    DemoIdParts(t1);
    DemoIdParts(t2);
  }

  /** `` `demo-${Date.now()}` ``. */
  function DemoId(now: nat): string
  {
    "demo-" + Text.NatToString(now)
  }

  /** The id is `demo-` followed by the timestamp's decimal digits, from
      which the timestamp can be read back. */
  lemma {:induction false} DemoIdParts(now: nat)
    ensures var id := DemoId(now);
      |id| > 5 && id[..5] == "demo-" && Text.IsDigits(id[5..]) && Text.DigitsValue(id[5..]) == now
  {
    var digits := Text.NatToString(now);
    var id := DemoId(now);
    assert id[5..] == digits;
    Text.NatToStringRoundTrip(now);
  }

}
