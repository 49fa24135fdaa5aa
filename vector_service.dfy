/**
 * The Python vectorisation service: ingest a JSON file into a vector index
 * under an id derived from its file name, retrieve the nearest stored
 * vectors for a query text, and cluster every stored vector.
 *
 * The external capabilities are oracles: the sentence encoder is the
 * function carried by `Embedder.Loaded`, the index's nearest-neighbour search
 * and id listing are functions held by `VectorIndex`, the mini-batch k-means
 * step is a function parameter, and the file system is a map from paths of
 * regular files to their text.
 */
module VectorService {
  import opened Wrappers
  import Text

  type Vector = seq<real>

  datatype Metadata = Metadata(fileName: string)

  /** What the index stores under one id. */
  datatype Entry = Entry(vector: Vector, metadata: Metadata)

  /** One match as the index's query returns it. */
  datatype Match = Match(id: string, score: real, metadata: Metadata)

  /** One element of `retrieve_similar`'s answer. */
  datatype Retrieved = Retrieved(vectorId: string, score: real, metadata: Metadata)

  /** The module-level `model`: a loaded encoder, or `None` after a failed load. */
  datatype Embedder = NotLoaded | Loaded(encode: string -> Vector)

  /** The Python exceptions the core raises, with their messages. `OSError`
      stands for a failing `open`, whose message the operating system writes. */
  datatype PyError =
    | RuntimeError(message: string)
    | FileNotFoundError(message: string)
    | ValueError(message: string)
    | AttributeError(message: string)
    | OSError(path: string)
    | ClusteringError(message: string)

  /** What `process_and_upsert` returns on success. */
  datatype Ingested = Ingested(docId: string, fileName: string)

  predicate Distinct<T(==)>(s: seq<T>)
  {
    forall i, j :: 0 <= i < j < |s| ==> s[i] != s[j]
  }

  // ---------------------------------------------------------------------
  // File names
  // ---------------------------------------------------------------------

  /** `s.rfind(c)`: the index of the last `c` in `s`, or -1. */
  function RFind(s: string, c: char): (i: int)
    ensures -1 <= i < |s|
    ensures 0 <= i ==> s[i] == c
    ensures forall j :: i < j < |s| ==> s[j] != c
  {
    if s == [] then -1
    else if s[|s| - 1] == c then |s| - 1
    else RFind(s[..|s| - 1], c)
  }

  /** The text after the last `c` of `s`, all of `s` when it has none. This is
      both `s.split(c)[-1]` and, for `c == '/'`, `os.path.basename(s)`. */
  function AfterLast(s: string, c: char): (r: string)
    ensures c !in r
    ensures |r| <= |s| && r == s[|s| - |r|..]
    ensures |r| == |s| || s[|s| - |r| - 1] == c
  {
    s[RFind(s, c) + 1..]
  }

  /** `path.lower().split('.')[-1]`. */
  function Extension(path: string): string
  {
    AfterLast(Text.Lower(path), '.')
  }

  /** `os.path.basename(path)` on POSIX. */
  function Basename(path: string): string
  {
    AfterLast(path, '/')
  }

  /** `os.path.splitext(p)` on POSIX: split at the last '.' after the last '/',
      unless every character between that '/' and that '.' is itself a '.'
      (so `.json` and `..json` have no extension). */
  function SplitExt(p: string): (r: (string, string))
    ensures r.0 + r.1 == p
    ensures r.1 == [] || (r.1[0] == '.' && '.' !in r.1[1..] && '/' !in r.1)
  {
    var sepIndex := RFind(p, '/');
    var dotIndex := RFind(p, '.');
    if dotIndex > sepIndex && exists k :: sepIndex < k < dotIndex && p[k] != '.' then
      (p[..dotIndex], p[dotIndex..])
    else
      (p, [])
  }

  /** `os.path.splitext(os.path.basename(path))[0]`: the document id. */
  function DocId(path: string): string
  {
    SplitExt(Basename(path)).0
  }

  /** The extension test is on the lower-cased path, so upper-case extensions
      pass; only the text after the last '.' counts; and a path without any
      '.' is its own "extension". */
  lemma {:induction false} ExtensionExamples()
    ensures Extension("docs/A.JSON") == "json"
    ensures Extension("notes.json.txt") == "txt"
    ensures Extension("json") == "json"
    ensures Extension("v1.2/config") == "2/config"
  {
    UpperJsonExtension();
    DoubleExtension();
    NoDotExtension();
    DirectoryDotExtension();
  }

  /** The extension of a path whose lower-cased form is `lowered`, with its
      last '.' at `dot` (-1 for none). */
  lemma {:induction false} ExtensionAt(path: string, lowered: string, dot: int)
    requires Text.Lower(path) == lowered
    requires -1 <= dot < |lowered| && (dot >= 0 ==> lowered[dot] == '.')
    requires forall j :: dot < j < |lowered| ==> lowered[j] != '.'
    ensures Extension(path) == lowered[dot + 1..]
  {
    assert RFind(lowered, '.') == dot;
  }

  lemma {:induction false} UpperJsonExtension()
    ensures Extension("docs/A.JSON") == "json"
  {
    var a := "docs/a.json";
    assert Text.Lower("docs/A.JSON") == a;
    ExtensionAt("docs/A.JSON", a, 6);
    assert a[7..] == "json";
  }

  lemma {:induction false} DoubleExtension()
    ensures Extension("notes.json.txt") == "txt"
  {
    var b := "notes.json.txt";
    assert Text.Lower(b) == b;
    ExtensionAt(b, b, 10);
    assert b[11..] == "txt";
  }

  lemma {:induction false} NoDotExtension()
    ensures Extension("json") == "json"
  {
    var c := "json";
    assert Text.Lower(c) == c;
    ExtensionAt(c, c, -1);
    assert c[0..] == c;
  }

  lemma {:induction false} DirectoryDotExtension()
    ensures Extension("v1.2/config") == "2/config"
  {
    var d := "v1.2/config";
    assert Text.Lower(d) == d;
    ExtensionAt(d, d, 2);
    assert d[3..] == "2/config";
  }

  /** A slash-free name whose last '.' is at `dot`, with some character other
      than '.' before it, splits at that '.', so its id is the part before it;
      the part before may hold further dots, leading ones included
      (`a.b.JSON` gives `a.b`, `.env.json` gives `.env`). */
  lemma {:induction false} StemOfName(name: string, dot: nat)
    requires dot < |name| && name[dot] == '.'
    requires exists k :: 0 <= k < dot && name[k] != '.'
    requires forall j :: dot < j < |name| ==> name[j] != '.'
    requires forall j :: 0 <= j < |name| ==> name[j] != '/'
    ensures Basename(name) == name
    ensures SplitExt(name).0 == name[..dot]
    ensures DocId(name) == name[..dot]
  {
    var k :| 0 <= k < dot && name[k] != '.';
    assert RFind(name, '/') == -1;
    assert RFind(name, '.') == dot;
    assert name[RFind(name, '/') + 1..] == name;
    assert RFind(name, '/') < k < RFind(name, '.') && name[k] != '.';
  }

  /** A slash-free name in which only dots come before its last '.' (or that
      has no '.') has no extension: its id is the whole name (`.json` and
      `..json` give themselves, as `README` does). */
  lemma {:induction false} NoExtension(name: string)
    requires forall j :: 0 <= j < |name| ==> name[j] != '/'
    requires forall k :: 0 <= k < RFind(name, '.') ==> name[k] == '.'
    ensures DocId(name) == name
  {
    assert RFind(name, '/') == -1;
  }

  /** The directory part never reaches the id: `dir/stem.ext` has base name
      `stem.ext` and id `stem` (`/data/report.json` gives `report`,
      `/data/.env.json` gives `.env`). */
  lemma {:induction false} DocIdInDirectory(dir: string, stem: string, ext: string)
    requires (exists k :: 0 <= k < |stem| && stem[k] != '.') && '/' !in stem
    requires '.' !in ext && '/' !in ext
    ensures Basename(dir + "/" + (stem + "." + ext)) == stem + "." + ext
    ensures DocId(dir + "/" + (stem + "." + ext)) == stem
  {
    var name := stem + "." + ext;
    NameFacts(stem, ext);
    InDirectory(dir, name);
    StemOfName(name, |stem|);
  }

  lemma {:induction false} NameFacts(stem: string, ext: string)
    requires (exists k :: 0 <= k < |stem| && stem[k] != '.') && '/' !in stem
    requires '.' !in ext && '/' !in ext
    ensures var name := stem + "." + ext;
      && |stem| < |name| && name[|stem|] == '.'
      && (exists k :: 0 <= k < |stem| && name[k] != '.')
      && (forall j :: |stem| < j < |name| ==> name[j] != '.')
      && (forall j :: 0 <= j < |name| ==> name[j] != '/')
      && name[..|stem|] == stem
  {
    var name := stem + "." + ext;
    var k :| 0 <= k < |stem| && stem[k] != '.';
    assert name[k] == stem[k];
    forall j | 0 <= j < |name|
      ensures name[j] != '/'
      ensures |stem| < j ==> name[j] != '.'
    {
      if j < |stem| {
        assert name[j] == stem[j];
      } else if j > |stem| {
        assert name[j] == ext[j - |stem| - 1];
      }
    }
  }

  /** `os.path.basename(dir + "/" + name)` is `name` for a slash-free name. */
  lemma {:induction false} InDirectory(dir: string, name: string)
    requires '/' !in name
    ensures Basename(dir + "/" + name) == name
    ensures DocId(dir + "/" + name) == SplitExt(name).0
  {
    var path := dir + "/" + name;
    assert path[|dir|] == '/';
    assert forall j :: |dir| < j < |path| ==> path[j] == name[j - |dir| - 1];
    assert RFind(path, '/') == |dir|;
    assert path[|dir| + 1..] == name;
  }

  /** A hidden file keeps its leading dot: `dir/.ext` has id `.ext`, since
      `splitext` does not treat a leading '.' as an extension. */
  lemma {:induction false} HiddenFile(dir: string, ext: string)
    requires '.' !in ext && '/' !in ext
    ensures DocId(dir + "/" + ("." + ext)) == "." + ext
  {
    var h := "." + ext;
    assert h[0] == '.';
    forall j | 0 < j < |h|
      ensures h[j] != '.' && h[j] != '/'
    {
      assert h[j] == ext[j - 1];
    }
    InDirectory(dir, h);
    assert RFind(h, '/') == -1;
    assert RFind(h, '.') == 0;
    assert SplitExt(h) == (h, []);
  }

  /** The document id is the file name minus its final extension; the
      id is a prefix of the file name and neither holds a '/'. */
  lemma {:induction false} DocIdIsStem(path: string)
    ensures Basename(path) == DocId(path) + SplitExt(Basename(path)).1
    ensures '/' !in Basename(path) && '/' !in DocId(path)
    ensures Basename(path) == path[|path| - |Basename(path)|..]
  {
    var b := Basename(path);
    var r := SplitExt(b);
    assert b == r.0 + r.1;
    assert '/' !in b;
    PrefixAvoids(r.0, r.1, '/');
  }

  lemma {:induction false} PrefixAvoids(x: string, y: string, c: char)
    requires c !in x + y
    ensures c !in x
  {
    assert forall i :: 0 <= i < |x| ==> x[i] == (x + y)[i];
  }

  // ---------------------------------------------------------------------
  // extract_text and vectorize_text
  // ---------------------------------------------------------------------

  /** `extract_text(path)`: the file's text when its extension is `json`;
      the extension is tested before the file is opened. */
  function ExtractText(files: map<string, string>, path: string): (r: Result<string, PyError>)
    ensures Extension(path) != "json" ==> r == Err(ValueError("Unsupported type: " + Extension(path)))
    ensures Extension(path) == "json" && path !in files ==> r == Err(OSError(path))
    ensures r.Ok? <==> Extension(path) == "json" && path in files
    ensures r.Ok? ==> r.value == files[path]
  {
    var ext := Extension(path);
    if ext == "json" then
      if path in files then Ok(files[path]) else Err(OSError(path))
    else
      Err(ValueError("Unsupported type: " + ext))
  }

  /** `vectorize_text(text)`: with the model absent, `model.encode` fails with
      Python's attribute error on `None`. */
  function VectorizeText(model: Embedder, text: string): (r: Result<Vector, PyError>)
    ensures model.NotLoaded? ==> r == Err(AttributeError("'NoneType' object has no attribute 'encode'"))
    ensures model.Loaded? ==> r == Ok(model.encode(text))
  {
    match model
    case NotLoaded => Err(AttributeError("'NoneType' object has no attribute 'encode'"))
    case Loaded(encode) => Ok(encode(text))
  }

  // ---------------------------------------------------------------------
  // The index
  // ---------------------------------------------------------------------

  function Ids(items: seq<(string, Vector)>): (r: seq<string>)
    ensures |r| == |items|
    ensures forall k :: 0 <= k < |items| ==> r[k] == items[k].0
  {
    seq(|items|, k requires 0 <= k < |items| => items[k].0)
  }

  function Vectors(items: seq<(string, Vector)>): (r: seq<Vector>)
    ensures |r| == |items|
    ensures forall k :: 0 <= k < |items| ==> r[k] == items[k].1
  {
    seq(|items|, k requires 0 <= k < |items| => items[k].1)
  }

  /** The remote vector index: its stored entries, updated in place by
      `upsert`, and the service's own nearest-neighbour search and id
      listing, which are opaque functions of the stored entries. */
  class VectorIndex {
    var entries: map<string, Entry>
    const nearest: (map<string, Entry>, Vector, int) -> seq<Match>
    const lister: map<string, Entry> -> seq<string>

    constructor (initial: map<string, Entry>,
                 nearest: (map<string, Entry>, Vector, int) -> seq<Match>,
                 lister: map<string, Entry> -> seq<string>)
      ensures entries == initial && this.nearest == nearest && this.lister == lister
    {
      entries := initial;
      this.nearest := nearest;
      this.lister := lister;
    }

    /** `index.upsert(vectors=[(id, vector, metadata)])`: insert or replace. */
    method Upsert(id: string, vector: Vector, metadata: Metadata)
      modifies this
      ensures entries == old(entries)[id := Entry(vector, metadata)]
    {
      entries := entries[id := Entry(vector, metadata)];
    }

    /** `index.query(vector=v, top_k=k, include_metadata=True).matches`. */
    function Query(v: Vector, topK: int): seq<Match>
      reads this
    {
      nearest(entries, v, topK)
    }

    /** `index.list_ids()`. */
    function ListIds(): seq<string>
      reads this
    {
      lister(entries)
    }

    /** `index.fetch(ids)` read as a dictionary: the stored ids among `ids`,
        each once, in the order first requested, with their vectors. */
    function Fetch(ids: seq<string>): (items: seq<(string, Vector)>)
      reads this
      ensures Distinct(Ids(items))
      ensures forall k :: 0 <= k < |items| ==> items[k].0 in entries && items[k].1 == entries[items[k].0].vector
      ensures forall id :: id in Ids(items) <==> id in ids && id in entries
    {
      if ids == [] then []
      else
        var prev := Fetch(ids[..|ids| - 1]);
        var id := ids[|ids| - 1];
        if id in entries && id !in Ids(prev) then
          assert Ids(prev + [(id, entries[id].vector)]) == Ids(prev) + [id];
          prev + [(id, entries[id].vector)]
        else
          prev
    }
  }

  // ---------------------------------------------------------------------
  // process_and_upsert
  // ---------------------------------------------------------------------

  /** What `process_and_upsert(path)` returns or raises. The guards run in
      this order: the model, the file, the extension. */
  function Ingest(model: Embedder, files: map<string, string>, path: string): (r: Result<Ingested, PyError>)
    ensures r.Ok? <==> model.Loaded? && path in files && Extension(path) == "json"
  {
    if model.NotLoaded? then
      Err(RuntimeError("Embedding model not loaded."))
    else if path !in files then
      Err(FileNotFoundError("File not found: " + path))
    else if Extension(path) != "json" then
      Err(ValueError("Unsupported file type: " + Extension(path)))
    else
      Ok(Ingested(DocId(path), Basename(path)))
  }

  /** The index's entries after `process_and_upsert(path)`. */
  function AfterIngest(entries: map<string, Entry>, model: Embedder, files: map<string, string>, path: string)
    : map<string, Entry>
  {
    match Ingest(model, files, path)
    case Err(_) => entries
    case Ok(d) => entries[d.docId := Entry(model.encode(files[path]), Metadata(d.fileName))]
  }

  method ProcessAndUpsert(index: VectorIndex, model: Embedder, files: map<string, string>, path: string)
    returns (r: Result<Ingested, PyError>)
    modifies index
    ensures r == Ingest(model, files, path)
    ensures index.entries == AfterIngest(old(index.entries), model, files, path)
  {
    if model.NotLoaded? {
      return Err(RuntimeError("Embedding model not loaded."));
    }
    if path !in files {
      return Err(FileNotFoundError("File not found: " + path));
    }
    var ext := Extension(path);
    var text := "";
    if ext == "json" {
      text := files[path];
    } else {
      return Err(ValueError("Unsupported file type: " + ext));
    }
    var vector := model.encode(text);
    var docId := SplitExt(Basename(path)).0;
    index.Upsert(docId, vector, Metadata(Basename(path)));
    return Ok(Ingested(docId, Basename(path)));
  }

  /** Each guard fails with its own message, and an earlier guard wins over
      every later one. */
  lemma {:induction false} IngestGuardOrder(model: Embedder, files: map<string, string>, path: string)
    ensures model.NotLoaded? ==> Ingest(model, files, path) == Err(RuntimeError("Embedding model not loaded."))
    ensures model.Loaded? && path !in files ==>
      Ingest(model, files, path) == Err(FileNotFoundError("File not found: " + path))
    ensures model.Loaded? && path in files && Extension(path) != "json" ==>
      Ingest(model, files, path) == Err(ValueError("Unsupported file type: " + Extension(path)))
    ensures Ingest(model, files, path).Ok? ==>
      Ingest(model, files, path).value == Ingested(DocId(path), Basename(path))
  {
  }

  /** A failed ingest leaves the index as it was; a successful one stores the
      encoded text and the file name under the document id and changes no
      other key. */
  lemma {:induction false} IngestFrame(entries: map<string, Entry>, model: Embedder, files: map<string, string>, path: string)
    ensures Ingest(model, files, path).Err? ==> AfterIngest(entries, model, files, path) == entries
    ensures Ingest(model, files, path).Ok? ==>
      var after := AfterIngest(entries, model, files, path);
      && after.Keys == entries.Keys + {DocId(path)}
      && after[DocId(path)] == Entry(model.encode(files[path]), Metadata(Basename(path)))
      && forall k :: k in entries && k != DocId(path) ==> after[k] == entries[k]
  {
    if Ingest(model, files, path).Ok? {
      IngestStores(entries, model, files, path);
      UpdateFrame(entries, DocId(path), Entry(model.encode(files[path]), Metadata(Basename(path))));
    }
  }

  lemma {:induction false} UpdateFrame(m: map<string, Entry>, k: string, e: Entry)
    ensures m[k := e].Keys == m.Keys + {k}
    ensures m[k := e][k] == e
    ensures forall j :: j in m && j != k ==> m[k := e][j] == m[j]
  {
  }


  /** Ids are file stems, not fresh: ingesting a second file with the same
      stem replaces the first one's entry, and ingesting the same file twice
      is the same as ingesting it once. */
  lemma {:induction false} ReingestOverwrites(entries: map<string, Entry>, model: Embedder, files: map<string, string>,
                           first: string, second: string)
    requires Ingest(model, files, first).Ok? && Ingest(model, files, second).Ok?
    requires DocId(first) == DocId(second)
    ensures AfterIngest(AfterIngest(entries, model, files, first), model, files, second)
         == AfterIngest(entries, model, files, second)
    ensures AfterIngest(AfterIngest(entries, model, files, second), model, files, second)
         == AfterIngest(entries, model, files, second)
  {
    var id := DocId(second);
    var e1 := Entry(model.encode(files[first]), Metadata(Basename(first)));
    var e2 := Entry(model.encode(files[second]), Metadata(Basename(second)));
    IngestStores(entries, model, files, first);
    IngestStores(entries, model, files, second);
    IngestStores(entries[id := e1], model, files, second);
    IngestStores(entries[id := e2], model, files, second);
    OverwriteKey(entries, id, e1, e2);
    OverwriteKey(entries, id, e2, e2);
  }

  lemma {:induction false} OverwriteKey(m: map<string, Entry>, k: string, a: Entry, b: Entry)
    ensures m[k := a][k := b] == m[k := b]
  {
  }

  lemma {:induction false} IngestStores(entries: map<string, Entry>, model: Embedder, files: map<string, string>, path: string)
    requires Ingest(model, files, path).Ok?
    ensures AfterIngest(entries, model, files, path)
         == entries[DocId(path) := Entry(model.encode(files[path]), Metadata(Basename(path)))]
  {
    IngestGuardOrder(model, files, path);
  }

  /** With the model loaded, `process_and_upsert` accepts exactly the files
      `extract_text` reads, and it encodes the same text. */
  lemma {:induction false} IngestAgreesWithExtractText(entries: map<string, Entry>, model: Embedder, files: map<string, string>, path: string)
    requires model.Loaded?
    ensures Ingest(model, files, path).Ok? <==> ExtractText(files, path).Ok?
    ensures ExtractText(files, path).Ok? ==>
      AfterIngest(entries, model, files, path)[DocId(path)].vector == model.encode(ExtractText(files, path).value)
  {
  }

  // ---------------------------------------------------------------------
  // retrieve_similar
  // ---------------------------------------------------------------------

  function Reshape(m: Match): Retrieved
  {
    Retrieved(m.id, m.score, m.metadata)
  }

  function MatchOf(r: Retrieved): Match
  {
    Match(r.vectorId, r.score, r.metadata)
  }

  /** `retrieve_similar(query_text, top_k)`: encode the query, ask the index,
      and rename each match's fields. There is no model guard: without a
      model the call fails inside `vectorize_text`. */
  function RetrieveSimilar(index: VectorIndex, model: Embedder, queryText: string, topK: int := 5)
    : (r: Result<seq<Retrieved>, PyError>)
    reads index
    ensures model.NotLoaded? ==> r.Err? && r.error.AttributeError?
    ensures model.Loaded? ==> r.Ok?
    ensures r.Ok? ==>
      var matches := index.Query(model.encode(queryText), topK);
      && |r.value| == |matches|
      && forall i :: 0 <= i < |matches| ==>
           r.value[i].vectorId == matches[i].id && r.value[i].score == matches[i].score
           && r.value[i].metadata == matches[i].metadata
  {
    match VectorizeText(model, queryText)
    case Err(e) => Err(e)
    case Ok(v) =>
      var matches := index.Query(v, topK);
      Ok(seq(|matches|, i requires 0 <= i < |matches| => Reshape(matches[i])))
  }

  /** Reshaping loses nothing: the index's matches, in its order, can be read
      back from the answer. */
  lemma {:induction false} RetrieveKeepsMatches(index: VectorIndex, model: Embedder, queryText: string, topK: int)
    requires model.Loaded?
    ensures var r := RetrieveSimilar(index, model, queryText, topK);
      r.Ok? && seq(|r.value|, i requires 0 <= i < |r.value| => MatchOf(r.value[i]))
               == index.Query(model.encode(queryText), topK)
  {
    var r := RetrieveSimilar(index, model, queryText, topK);
    var matches := index.Query(model.encode(queryText), topK);
    var back := seq(|r.value|, i requires 0 <= i < |r.value| => MatchOf(r.value[i]));
    assert |back| == |matches|;
    forall i | 0 <= i < |matches|
      ensures back[i] == matches[i]
    {
    }
  }

  // ---------------------------------------------------------------------
  // cluster_documents
  // ---------------------------------------------------------------------

  /** `dict(zip(keys, values))`: pairs up to the shorter length, a later
      duplicate key overriding an earlier one. */
  function Zip(keys: seq<string>, values: seq<int>): map<string, int>
    decreases |keys|
  {
    var n := Text.Min(|keys|, |values|);
    if n == 0 then map[]
    else Zip(keys[..n - 1], values[..n - 1])[keys[n - 1] := values[n - 1]]
  }

  /** The keys of `dict(zip(keys, values))` are those of the shorter prefix,
      and with distinct keys each maps to the value at its own position. */
  lemma {:induction false} ZipSpec(keys: seq<string>, values: seq<int>)
    ensures forall k :: k in Zip(keys, values) <==> k in keys[..Text.Min(|keys|, |values|)]
    ensures Distinct(keys) ==>
      forall i :: 0 <= i < Text.Min(|keys|, |values|) ==> Zip(keys, values)[keys[i]] == values[i]
    decreases |keys|
  {
    var n := Text.Min(|keys|, |values|);
    if n > 0 {
      var prefix := keys[..n - 1];
      ZipSpec(prefix, values[..n - 1]);
      assert prefix[..Text.Min(|prefix|, n - 1)] == prefix;
      assert keys[..n] == prefix + [keys[n - 1]];
      if Distinct(keys) {
        assert Distinct(prefix);
        forall i | 0 <= i < n
          ensures Zip(keys, values)[keys[i]] == values[i]
        {
          if i < n - 1 {
            assert keys[i] != keys[n - 1];
            assert prefix[i] == keys[i];
          }
        }
      }
    }
  }

  /** `cluster_documents(n_clusters)`: fetch every listed vector, collecting
      ids and vectors in lock-step; an empty fetch gives `{}` without running
      k-means (`MiniBatchKMeans(n_clusters, random_state=42, batch_size=32)`,
      the oracle `kmeans`); otherwise each fetched id gets the label at its
      position. */
  method ClusterDocuments(index: VectorIndex, kmeans: (seq<Vector>, int) -> Result<seq<int>, PyError>,
                          nClusters: int := 5)
    returns (r: Result<map<string, int>, PyError>)
    ensures var fetched := index.Fetch(index.ListIds());
      fetched == [] ==> r == Ok(map[])
    ensures var fetched := index.Fetch(index.ListIds());
      fetched != [] && kmeans(Vectors(fetched), nClusters).Err? ==> r == Err(kmeans(Vectors(fetched), nClusters).error)
    ensures var fetched := index.Fetch(index.ListIds());
      fetched != [] && kmeans(Vectors(fetched), nClusters).Ok? ==>
        var labels := kmeans(Vectors(fetched), nClusters).value;
        && r.Ok?
        && (|labels| == |fetched| ==>
             && (forall id :: id in r.value <==> id in index.ListIds() && id in index.entries)
             && forall i :: 0 <= i < |fetched| ==> r.value[fetched[i].0] == labels[i])
  {
    var allVectors := index.Fetch(index.ListIds());
    var vectors: seq<Vector> := [];
    var vectorIds: seq<string> := [];
    for i := 0 to |allVectors|
      invariant |vectorIds| == i && |vectors| == i
      invariant forall k :: 0 <= k < i ==> vectorIds[k] == allVectors[k].0 && vectors[k] == allVectors[k].1
    {
      vectorIds := vectorIds + [allVectors[i].0];
      vectors := vectors + [allVectors[i].1];
    }
    if |vectors| == 0 {
      return Ok(map[]);
    }
    assert vectors == Vectors(allVectors);
    assert vectorIds == Ids(allVectors);
    var labels := kmeans(vectors, nClusters);
    match labels
    case Err(e) =>
      return Err(e);
    case Ok(ls) =>
      r := Ok(Zip(vectorIds, ls));
      ZipSpec(vectorIds, ls);
      if |ls| == |allVectors| {
        assert vectorIds[..Text.Min(|vectorIds|, |ls|)] == vectorIds;
      }
  }

  /** When the service lists every stored id, clustering labels every stored
      document, each with a label in range when k-means keeps its promise. */
  lemma {:induction false} ClusterCoversIndex(index: VectorIndex, labels: seq<int>, nClusters: int)
    requires forall id :: id in index.entries ==> id in index.ListIds()
    requires |labels| == |index.Fetch(index.ListIds())|
    requires forall i :: 0 <= i < |labels| ==> 0 <= labels[i] < nClusters
    ensures var fetched := index.Fetch(index.ListIds());
      var m := Zip(Ids(fetched), labels);
      && m.Keys == index.entries.Keys
      && forall id :: id in m ==> 0 <= m[id] < nClusters
  {
    var fetched := index.Fetch(index.ListIds());
    var ids := Ids(fetched);
    var m := Zip(ids, labels);
    ZipSpec(ids, labels);
    assert ids[..Text.Min(|ids|, |labels|)] == ids;
    forall id | id in m
      ensures 0 <= m[id] < nClusters
    {
      var i :| 0 <= i < |ids| && ids[i] == id;
      assert m[ids[i]] == labels[i];
    }
  }
}
