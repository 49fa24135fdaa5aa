# Legal-document vector service: a Dafny model

The repository is a small legal-document assistant. It has two halves:

- A Python vector service (`python/vectorize_and_upsert.py`). It reads a
  JSON file, embeds its text with a sentence-transformer model, and upserts
  the vector into a Pinecone index under the file's stem. It also answers
  nearest-neighbour queries and clusters every stored vector with
  mini-batch k-means.
- A Node.js API. In it:
  - `simpleMostSimilar` (`src/utils/helpers.js`) scores two texts by token
    overlap;
  - a demo controller (`src/controllers/vectorController.js`) ranks three
    hard-coded documents with that score and fakes document upload;
  - an Express middleware (`src/middleware/authMiddleware.js`) admits a
    request only with a `Bearer` token that Firebase accepts.

The model has six modules:

| file | module | models |
|---|---|---|
| `wrappers.dfy` | `Wrappers` | `Option` and `Result` |
| `text.dfy` | `Text` | ASCII lower-casing, JavaScript truthiness of an optional string, decimal rendering of a natural number |
| `vector_service.dfy` | `VectorService` | `extract_text`, `vectorize_text`, `process_and_upsert`, `retrieve_similar`, `cluster_documents` |
| `similarity.dfy` | `Similarity` | `simpleMostSimilar` and its inner `normalize` |
| `vector_controller.dfy` | `VectorController` | `searchSimilar`, `uploadDocument` |
| `auth_middleware.dfy` | `AuthMiddleware` | `verifyFirebaseToken` |

The sources depend on external services, clocks and libraries. The model
represents them as follows:

- **The index** is the class `VectorIndex`. Its field `entries` maps an id to
  its vector and metadata, and `Upsert` updates it in place. Pinecone's
  nearest-neighbour search and its id listing are function-valued fields
  (`nearest`, `lister`) that the model does not interpret. `Fetch` is
  modelled as a dictionary lookup.
- **The embedding model** is either not loaded or an uninterpreted `encode`
  function.
- **The filesystem** is a map from path to file text.
- **MiniBatchKMeans** is a function parameter that returns labels or an
  error.
- **Firebase's `verifyIdToken`** is a function parameter that gives either
  the decoded token or a rejection.
- **`Date.now()`** is a natural-number parameter.
- **Python exceptions** are the values of the `PyError` datatype.
- **HTTP replies** are the values of `Response` / `Outcome`. The middleware's
  request and response objects are the classes `Request` and
  `ServerResponse`, and it writes their fields.

What the code does, as the model has it:

- The code ingests only `.json` files. It embeds the raw file text without
  parsing it, and the text itself is not stored: the index keeps the vector
  and `{"file_name": basename}`.
- The document id is the file stem, so a second file with the same stem
  overwrites the first (`ReingestOverwrites`).
- There is no document store. `retrieve_similar` returns the index's
  matches reshaped, with no join.
- `process_and_upsert` raises `RuntimeError`, `FileNotFoundError` and
  `ValueError`, with the messages the model reproduces. `extract_text`
  raises `ValueError` or, for a missing file, an `OSError`, and
  `retrieve_similar` without a model raises the `AttributeError` of calling
  `encode` on `None`.

Several functions are the operations themselves, defined by their bodies;
the lemmas named beside them state what they promise:

- `Text.Lower` (`python/vectorize_and_upsert.py:37`, `src/utils/helpers.js:11`): `LowerFolds`.
- `VectorService.Extension` (`python/vectorize_and_upsert.py:59`): `ExtensionExamples` and `AfterLast`.
- `VectorService.Basename` and `VectorService.DocId` (`python/vectorize_and_upsert.py:68`): `DocIdIsStem`, `StemOfName`, `NoExtension`, `DocIdInDirectory`, `HiddenFile`.
- `VectorService.VectorizeText` (`python/vectorize_and_upsert.py:42-44`): `IngestStores` and `RetrieveSimilar`.
- `VectorService.AfterIngest` (`python/vectorize_and_upsert.py:71`): `IngestFrame`, `IngestStores`, `ReingestOverwrites`.
- `VectorService.Zip` (`python/vectorize_and_upsert.py:96`): `ZipSpec`.
- `Similarity.SplitOnSpace` (`src/utils/helpers.js:13`): `SplitWord`, `SplitConcat`, `SplitPieces`.
- `Similarity.NonEmpty` (`src/utils/helpers.js:14`): `NonEmptyKeeps`, `NonEmptyKeepsAll`, `NonEmptyOne`, `NonEmptyConcat`.
- `Similarity.TokenSet` (`src/utils/helpers.js:16`): `ScoreSeesTokenSetOfA`, `ScoreOneIff`, `ScoreZeroIff`.
- `VectorController.ScoreDocs`, `SortByScore`, `SliceEnd` and `Ranked` (`src/controllers/vectorController.js:55-58`): `SearchRanking`, `CutIsBest`, `SearchKeepsBest`, `SearchResultCount`.
- `VectorController.SearchSimilar` (`src/controllers/vectorController.js:50-75`): `SearchNeedsQuery`, `SearchResultCount`, `SearchRanking`, `SearchKeepsBest`.
- `VectorController.UploadDocument` and `VectorController.DemoId` (`src/controllers/vectorController.js:33-47`): `UploadOutcome`, `DemoIdParts`, `UploadIdsDiffer`.
- `AuthMiddleware.ParseBearer` (`src/middleware/authMiddleware.js:9-13`): `ParseBearerIff`, `SchemeRequired`, `ParseBearerExamples`.
- `AuthMiddleware.Authenticate` (`src/middleware/authMiddleware.js:7-22`): `AuthenticateOutcome`, `MissingHeaderRejected`, `VerifierSeesOnlyToken`, `BadHeaderIgnoresVerifier`.

## Model

| member | source | states |
|---|---|---|
| Text.LowerFolds | src/utils/helpers.js:11 | a lower-cased text has no upper-case letter left, non-letters are untouched, and lower-casing twice is the same as once |
| Text.NatToString | src/controllers/vectorController.js:42 | the decimal rendering of `Date.now()` is a non-empty string of digits with no leading zero unless the number is 0 |
| Text.NatToStringRoundTrip | src/controllers/vectorController.js:42 | the number can be read back from its decimal rendering |
| Text.NatToStringInjective | src/controllers/vectorController.js:42 | different numbers render as different strings |
| VectorService.RFind | python/vectorize_and_upsert.py:59 | gives the index of the last occurrence of the separator, or -1 when there is none |
| VectorService.AfterLast | python/vectorize_and_upsert.py:59 | `split(c)[-1]` is a suffix of the text with no separator in it, and it starts right after a separator or at the start of the text |
| VectorService.ExtensionExamples | python/vectorize_and_upsert.py:59 | the extension is read from the lower-cased path: `docs/A.JSON` gives `json`, `notes.json.txt` gives `txt`, a name without a dot is its own extension, and a dot in a directory name counts |
| VectorService.SplitExt | python/vectorize_and_upsert.py:68 | `os.path.splitext` cuts a name into a root and an extension that put back together give the name; the extension is empty or one leading dot followed by no dot and no slash |
| VectorService.DocIdIsStem | python/vectorize_and_upsert.py:68-72 | the document id plus its extension is the basename; neither contains a slash; the basename is the path's last component |
| VectorService.StemOfName | python/vectorize_and_upsert.py:68 | for a slash-free name with some character other than `.` before its last dot, the id is everything before that dot, earlier and leading dots included (`a.b.JSON` gives `a.b`, `.env.json` gives `.env`) |
| VectorService.NoExtension | python/vectorize_and_upsert.py:68 | for a slash-free name with no dot, or only dots before its last dot, the id is the whole name (`README`, `.json`, `..json`); with `StemOfName` this fixes the id of every slash-free name |
| VectorService.DocIdInDirectory | python/vectorize_and_upsert.py:68-72 | for `dir/stem.ext` with a stem that is not all dots, the file name is `stem.ext` and the id is `stem`, whatever the directory (`/data/report.json` gives `report`, `/data/.env.json` gives `.env`) |
| VectorService.HiddenFile | python/vectorize_and_upsert.py:68 | the leading dot of a hidden file does not start an extension: `dir/.ext` has id `.ext` |
| VectorService.ExtractText | python/vectorize_and_upsert.py:36-40 | returns the file's text exactly when the extension is `json` and the file exists; any other extension is `ValueError("Unsupported type: ...")` whether or not the file exists; a missing JSON file is an `OSError` |
| VectorService.VectorIndex.Upsert | python/vectorize_and_upsert.py:71 | the entry under the id becomes the given vector and metadata; no other entry changes |
| VectorService.VectorIndex.Fetch | python/vectorize_and_upsert.py:83 | fetching gives each requested id that is stored, once, with its stored vector, and nothing else |
| VectorService.Ingest | python/vectorize_and_upsert.py:46-72 | `process_and_upsert` succeeds exactly when the model is loaded, the file exists and the extension is `json` |
| VectorService.ProcessAndUpsert | python/vectorize_and_upsert.py:46-72 | the imperative procedure returns `Ingest`'s answer and leaves the index as `AfterIngest` describes |
| VectorService.IngestGuardOrder | python/vectorize_and_upsert.py:53-65 | the missing model wins over a missing file, which wins over a bad extension, each with its own message; success returns the stem and the basename |
| VectorService.IngestFrame | python/vectorize_and_upsert.py:53-71 | a failed call leaves the index unchanged; a successful one adds or replaces only the document id's entry, with the encoded text and the basename as metadata |
| VectorService.ReingestOverwrites | python/vectorize_and_upsert.py:68-71 | a later file with the same stem replaces the earlier entry, and ingesting a file twice is the same as once |
| VectorService.IngestStores | python/vectorize_and_upsert.py:67-71 | after a successful call the index is the old one with the id mapped to the new entry |
| VectorService.IngestAgreesWithExtractText | python/vectorize_and_upsert.py:36-67 | with a model loaded, ingestion accepts exactly the files `extract_text` reads and embeds the same text |
| VectorService.RetrieveSimilar | python/vectorize_and_upsert.py:74-78 | with a model, one result per index match, in the index's order, with its id, score and metadata; without one, an `AttributeError` |
| VectorService.RetrieveKeepsMatches | python/vectorize_and_upsert.py:76-78 | the index's match list can be rebuilt exactly from the answer |
| VectorService.ZipSpec | python/vectorize_and_upsert.py:96 | `dict(zip(keys, values))` has exactly the keys of the shorter prefix, and with distinct keys each key maps to the value at its position |
| VectorService.ClusterDocuments | python/vectorize_and_upsert.py:80-96 | an empty fetch gives `{}`; a k-means error is propagated; otherwise the keys are exactly the fetched ids and each id gets the label at its own position (the two lists are built in lock-step) |
| VectorService.ClusterCoversIndex | python/vectorize_and_upsert.py:83-96 | when the listing covers the index and k-means labels each vector in range, every stored document gets a label in range and nothing else does |
| Similarity.Depunctuate | src/utils/helpers.js:12 | the result keeps the length and holds only word characters and whitespace; every word or whitespace character stays in place, and every other character becomes whitespace |
| Similarity.SplitWord | src/utils/helpers.js:13 | a text without whitespace splits into itself alone |
| Similarity.SplitPieces | src/utils/helpers.js:13 | no piece contains whitespace, and every character of every piece comes from the text |
| Similarity.NonEmptyKeeps | src/utils/helpers.js:14 | every string it keeps was in the list |
| Similarity.NonEmptyKeepsAll | src/utils/helpers.js:14 | every non-empty string of the list is kept |
| Similarity.NonEmptyOne | src/utils/helpers.js:14 | a single string is kept exactly when it is non-empty; with `NonEmptyConcat` this fixes the result on every list: the non-empty strings in their order |
| Similarity.Normalize | src/utils/helpers.js:9-14 | every token is non-empty and made only of `a`-`z`, `0`-`9` and `_` |
| Similarity.CountIn | src/utils/helpers.js:19-20 | the number of matches never exceeds the number of tokens of `b` |
| Similarity.Score | src/utils/helpers.js:7-23 | the score lies in [0, 1]; it is 0 when either argument is falsy or `b` has no token |
| Similarity.SimpleMostSimilar | src/utils/helpers.js:7-23 | the match-counting loop returns exactly `Score` |
| Similarity.CountInAll | src/utils/helpers.js:19-20 | every position counts exactly when every token of `b` is in the set of `a` |
| Similarity.CountInNone | src/utils/helpers.js:19-20 | no position counts exactly when no token of `b` is in the set of `a` |
| Similarity.ScoreOneIff | src/utils/helpers.js:16-22 | the score is 1 exactly when both texts are truthy, `b` has a token and all of `b`'s tokens occur in `a` |
| Similarity.ScoreZeroIff | src/utils/helpers.js:8-22 | the score is 0 exactly when an argument is falsy or none of `b`'s tokens occurs in `a` |
| Similarity.SelfSimilarity | src/utils/helpers.js:16-22 | a text with at least one token scores 1 against itself |
| Similarity.ScoreSeesTokenSetOfA | src/utils/helpers.js:16 | `a` only counts through its set of tokens: texts with the same tokens score alike |
| Similarity.SplitSeesOnlySpacePositions | src/utils/helpers.js:13 | texts with whitespace at the same positions and identical characters elsewhere split alike |
| Similarity.SeparatorsInterchangeable | src/utils/helpers.js:12-13 | replacing a punctuation or whitespace character by another leaves the tokens unchanged |
| Similarity.CaseInsensitive | src/utils/helpers.js:11 | lower-casing a text first changes none of its tokens |
| Similarity.SplitConcat | src/utils/helpers.js:13 | splitting two texts joined by a whitespace character gives the pieces of the first followed by those of the second |
| Similarity.NonEmptyConcat | src/utils/helpers.js:14 | filtering out empty strings commutes with concatenation |
| Similarity.NormalizeConcat | src/utils/helpers.js:9-14 | the tokens of two texts joined by a space are the tokens of the first followed by those of the second |
| Similarity.SingleToken | src/utils/helpers.js:9-14 | a non-empty run of token characters is exactly one token |
| Similarity.PunctuatedWord | src/utils/helpers.js:10-14 | a word followed by a punctuation mark, in any case, has the lower-cased word as its only token, as the lower-cased word alone does (`"Hello,"` and `"hello"` both give `hello`) |
| Similarity.NotSymmetric | src/utils/helpers.js:16-22 | for two different tokens `u` and `v`, `("u v", "u")` scores 1 but `("u", "u v")` scores 1/2 |
| Similarity.RepeatsInSecondCount | src/utils/helpers.js:17-22 | a repeated token of `b` counts each time: for different tokens `u` and `v`, `("u", "u u v")` scores 2/3 |
| VectorController.Insert | src/controllers/vectorController.js:57 | inserting one document adds it, so the list is a permutation of the input plus that document |
| VectorController.InsertSorted | src/controllers/vectorController.js:57 | insertion into a list sorted by non-increasing score keeps it sorted |
| VectorController.InsertStable | src/controllers/vectorController.js:57 | inserting a document whose key is below every other key into a sorted list with equal scores in key order keeps equal scores in key order |
| VectorController.SortByScore | src/controllers/vectorController.js:57 | the sort is a permutation of its input ordered by non-increasing score |
| VectorController.SortStable | src/controllers/vectorController.js:57 | the sort is stable: when keys increase along the input, equal scores keep that key order in the output and no key occurs twice |
| VectorController.SearchNeedsQuery | src/controllers/vectorController.js:52 | a missing or empty query gives 400 `query is required` |
| VectorController.SearchResultCount | src/controllers/vectorController.js:51-66 | `top_k` defaults to 1; the reply says `status: ok`, echoes the query and `top_k`, and holds `min(top_k, 3)` results, or `max(3 + top_k, 0)` for a negative `top_k` |
| VectorController.CutIsBest | src/controllers/vectorController.js:55-58 | after the stable sort, every entry the `slice` keeps scores at least as high as every entry it drops, and on a tie comes earlier in `HARDCODED_DOCS` |
| VectorController.SearchKeepsBest | src/controllers/vectorController.js:55-73 | the results are the top `top_k`: each hard-coded document is either among the results with its own row, or every result outranks it (a higher score, or the same score and an earlier place in `HARDCODED_DOCS`) |
| VectorController.SearchRanking | src/controllers/vectorController.js:55-73 | results come in non-increasing score order; equal scores keep the table order; no document appears twice; each result is a hard-coded document with its own id, title, category, content and its score for the query |
| VectorController.UploadOutcome | src/controllers/vectorController.js:33-47 | a missing or empty title or content gives exactly 400 `title and content required`; otherwise the reply is `status: ok`, the demo id for the timestamp and the fixed message |
| VectorController.DemoIdParts | src/controllers/vectorController.js:42 | the id is `demo-` followed by the timestamp's decimal digits, and the timestamp can be read back from it |
| VectorController.UploadIdsDiffer | src/controllers/vectorController.js:42 | uploads at different times get different ids |
| AuthMiddleware.DotPlusToEnd | src/middleware/authMiddleware.js:9 | `(.+)$` matches the whole remainder exactly when it is non-empty and has no line terminator |
| AuthMiddleware.ParseBearerIff | src/middleware/authMiddleware.js:9-13 | the header matches with token `t` exactly when it is `Bearer ` followed by `t`, with `t` non-empty and free of line terminators |
| AuthMiddleware.SchemeRequired | src/middleware/authMiddleware.js:9-12 | a header that does not begin with exactly `Bearer ` does not match |
| AuthMiddleware.ParseBearerExamples | src/middleware/authMiddleware.js:9-13 | further leading spaces stay in the token; `bearer` in lower case, a bare `Bearer ` and a token with a newline are refused |
| AuthMiddleware.AuthenticateOutcome | src/middleware/authMiddleware.js:7-22 | the request proceeds, with the verifier's user, exactly when the header matches and the verifier accepts the token; a bad header is 401 `Missing or invalid Authorization header`; a refused token is 401 `Invalid auth token` |
| AuthMiddleware.MissingHeaderRejected | src/middleware/authMiddleware.js:8-11 | an absent or empty header is refused with the header message, whatever the verifier |
| AuthMiddleware.VerifierSeesOnlyToken | src/middleware/authMiddleware.js:13-16 | the verifier is asked about the captured token only |
| AuthMiddleware.BadHeaderIgnoresVerifier | src/middleware/authMiddleware.js:9-12 | when the header does not match, the outcome is a rejection that does not depend on the verifier |
| AuthMiddleware.ServerResponse.SendError | src/middleware/authMiddleware.js:11 | `res.status(code).json({error})` sets the status and the error body |
| AuthMiddleware.VerifyFirebaseToken | src/middleware/authMiddleware.js:7-22 | `next` is called exactly when `Authenticate` admits the request; then only `req.firebaseUser` is set, to the decoded token; otherwise only the response gets the 401 and its message |

## Left out

- Foreign calls are taken to be total: `model.encode` (`python/vectorize_and_upsert.py:67`, `:44`), `index.upsert` (`:71`), `index.query` (`:77`) and `index.list_ids`/`index.fetch` (`:83`) never raise in the model. In the code any of them can raise (a network failure, a dimension mismatch, `top_k < 1`), and the exception propagates to the caller, so `Ingest`'s "succeeds exactly when" holds only when those calls succeed. The k-means failure, by contrast, is modelled as an error result.
- VectorService.SplitExt: its own contract states only that root and extension put back together give the name and what shape the extension has, not where the cut falls; `StemOfName`, `NoExtension` and `HiddenFile` state that for every slash-free name, and `InDirectory` carries it to a path.
- Similarity.SplitOnSpace: splits at every whitespace character, not at runs as `.split(/\s+/)` does, so `"a  b"` gives `["a", "", "b"]` rather than `["a", "b"]`. The `.filter(Boolean)` that follows removes exactly those extra empty pieces, so `Normalize` gives the tokens the code gives; the split alone is not the JavaScript split.
- Module set-up at import time (`python/vectorize_and_upsert.py:1-34`) is not modelled: environment loading, the Pinecone client and loading the model with its fallback to `None`. Only the outcome remains, a model that is loaded or not.
- Library internals are uninterpreted functions: Pinecone's similarity search and id listing, the sentence-transformer embedding and MiniBatchKMeans (`random_state=42`, `batch_size=32`). The model says nothing about vector values, scores or reproducibility.
- VectorService.VectorIndex.Fetch: returns the requested ids in request order, skipping missing and duplicate ids. Pinecone's real `fetch` response order is not documented, so this order is an assumption. `ClusterDocuments` pairs ids with labels in whatever order `Fetch` gives.
- VectorService.ClusterDocuments: does not state that labels lie in `[0, n_clusters)`. That is MiniBatchKMeans' promise, so it appears as a hypothesis of `ClusterCoversIndex`. A label list of the wrong length is still modelled as `dict(zip)` truncation.
- Operating-system errors are modelled only partly. A file that exists but cannot be read, or is not valid UTF-8, is not modelled. `extract_text`'s error for a missing JSON file is an opaque `OSError` carrying the path, not Python's exact message.
- `.tolist()` and `np.array` are left out: vectors are sequences of mathematical reals.
- Python's and JavaScript's Unicode case mapping is left out: `lower()`/`toLowerCase()` change only `A`-`Z`. JavaScript's `\w`, and the token characters built from it, are ASCII as in the source.
- Similarity.Score: the result is the exact rational `matches / wb.length`, not its IEEE-754 double. Equal ratios therefore compare equal, which the sort's tie behaviour relies on.
- Non-string JavaScript values are left out. `query`, `title`, `content` and the `Authorization` header are optional strings. A non-integer or `null` `top_k`, and a non-string truthy header, are not modelled.
- `res.json`, Express wiring and the route tables are left out (`src/app.js`, `server.js`, `src/routes/*.js`). The controller's replies are values, and the middleware writes only the status and error fields of a response object.
- `console.error` in the middleware is left out, and so are the console output and warnings of the Python module.
- `async`/`await` and concurrency between requests are left out. Each call runs alone, and the verifier is a total function of the token.
- `python/app.py` (HTTP routing and exception-to-500 mapping) is not part of this model. Its defaults (`top_k=5`, `n_clusters=5`) are the default arguments of `RetrieveSimilar` and `ClusterDocuments`.
- `src/services/pythonBridge.js`, `src/services/llmService.js`, `src/controllers/llmController.js` and `src/config/firebaseConfig.js` are not part of this model.
