# Text-understanding services: post-processing and dispatch, in Dafny

This project models the deterministic layer of three command-line services.
Each service wraps a pretrained model that it treats as a black box:

- **Skill classification** (`classification_service.py`). A zero-shot classifier in multi-label mode scores a label set against a text. The caller's labels are used when given, otherwise a built-in list of 46 skills. The service keeps the labels whose score reaches a threshold, in the classifier's order, and tags each with the method `zero-shot-classification`.
- **Entity recognition** (`ner_service.py`). The text's whitespace is normalised (`" ".join(text.split())`) before it goes to a token-classification model. Each record that comes back becomes an entity span:
  - every `##` sub-word marker is removed from the word;
  - the label falls back from `entity_group` to `entity` to `"UNKNOWN"`;
  - a missing offset becomes 0.
  
  The entry point reads the text from an existing `--file` first and from `--text` otherwise.
- **Embeddings** (`embedding_service.py`). The tokenizer and encoder output is mean-pooled under the attention mask, with the mask total clamped to at least 1e-9, and then L2-normalised. The entry point decodes its argument as JSON: a list selects batch mode, any other value selects single mode on its `str()`, and an argument that is not JSON selects single mode on the raw text.

All three services wrap their outcome in an envelope. Its invariant is stated once per service as `WellFormed`:
- on success, `error` is absent and `count`/`dimension` agree with the payload;
- on failure, `error` is present and the payload is empty.

An entry point with no usable input exits with status 1.

The collaborators are function-typed parameters that return `Success(value)` or `Failure(message)`; the message is `str(e)` of the exception they raised:
- the zero-shot classifier: `Classification.Classifier`;
- the token classifier: `Ner.Recognizer`;
- the tokenizer and encoder: `Embedding.Encoder`, whose result type guarantees consistent tensor shapes.

JSON decoding, `float(...)` and the square root are parameters too. Scores and vectors are `real`.

Files: `common.dfy` (Option, Result, command-line outcome, subsequence relation),
`classification.dfy`, `whitespace.dfy` (Python's `str.split()` and `" ".join`),
`subword.dfy` (`str.replace('##', '')`), `ner.dfy`, `pooling.dfy`, `embedding.dfy`.

Two behaviours of the code are easy to misread:
- A malformed `candidate_labels` argument is not replaced by the default labels: the decode error escapes and the process crashes. The model therefore only covers arguments that decode; JSON `null` means "no list".
- In embedding single mode the text is `str(value)` of the decoded value, not always the literal argument. For example, `"\"hi\""` embeds `hi` and `true` embeds `True`.

## Model

| member | source | states |
|---|---|---|
| Classification.Candidates | backend/python/classification_service.py:36 | `zip` yields exactly min(len(labels), len(scores)) pairs; later pairs are ignored |
| Classification.Kept | backend/python/classification_service.py:35-42 | the kept skills are a subsequence of the zipped pairs (model order, never re-sorted); a pair is kept iff its score is at least the threshold; every kept entry has confidence at least the threshold and the method tag; each passing pair is kept as many times as `zip` yields it, and a failing one not at all; at most min(len(labels), len(scores)) entries |
| Classification.KeptMonotone | backend/python/classification_service.py:37 | raising the threshold from t1 to t2 leaves a subsequence of the skills kept at t1 |
| Classification.ClassifyMonotone | backend/python/classification_service.py:25-48 | the same monotonicity for whole replies: same text, labels and classifier, higher threshold, subsequence of skills |
| Classification.Classify | backend/python/classification_service.py:25-54 | the classifier is asked about the given labels, or the defaults when none are given; success iff the classifier returned, and then skills are the threshold filter of its output and count equals their number; on failure the error is the exception's message and skills are empty |
| Classification.DefaultLabels | backend/python/classification_service.py:14-29 | the default vocabulary has 46 entries, and omitting the labels is the same as passing that vocabulary |
| Classification.ConfidenceInUnitRange | backend/python/classification_service.py:36-42 | if every score is in [0, 1], every reported confidence is in [0, 1] |
| Classification.ClassifyMain | backend/python/classification_service.py:56-68 | no text argument gives exit status 1; an empty text is accepted; threshold defaults to 0.5; the positional threshold and label list are used when present |
| Whitespace.Split | backend/python/ner_service.py:23 | every piece `str.split()` yields is non-empty and whitespace-free |
| Whitespace.SplitAtSpace | backend/python/ner_service.py:23 | every whitespace character ends a word: splitting `a + c + b` at a whitespace `c` gives the words of `a` followed by those of `b` (so a newline or tab between two words becomes one space) |
| Whitespace.SplitJoin | backend/python/ner_service.py:23 | splitting a space-joined list of such pieces gives back the list |
| Whitespace.JoinIsCollapsed | backend/python/ner_service.py:23 | a space-joined list of pieces has no leading or trailing whitespace, no whitespace other than a single space, and no two adjacent spaces |
| Whitespace.Collapse | backend/python/ner_service.py:23 | the normalised text has that shape and the same words as the input |
| Whitespace.CollapseIdempotent | backend/python/ner_service.py:23 | normalising twice equals normalising once |
| Whitespace.CollapseKeepsContent | backend/python/ner_service.py:23 | the non-whitespace characters survive in order and nothing else is added |
| Whitespace.BlankCollapsesToEmpty | backend/python/ner_service.py:23 | a text made only of whitespace has no words and normalises to the empty text |
| Whitespace.CollapseFixedPoints | backend/python/ner_service.py:23 | normalisation leaves a text unchanged iff the text already has the normalised shape |
| Subword.RemoveMarker | backend/python/ner_service.py:30 | characters are deleted only in pairs, and a first character other than `#` stays first |
| Subword.RemoveMarkerLeavesNone | backend/python/ner_service.py:30 | no `##` survives the left-to-right non-overlapping removal |
| Subword.RemoveMarkerKeepsText | backend/python/ner_service.py:30 | every character other than `#` is kept, in order |
| Subword.RemoveMarkerUnchanged | backend/python/ner_service.py:30 | a word without `##` is returned unchanged |
| Subword.RemoveMarkerIdempotent | backend/python/ner_service.py:30 | cleaning twice equals cleaning once |
| Ner.FormatEntity | backend/python/ner_service.py:30-37 | a record formats iff it has `word` and `score`, otherwise the error is the `KeyError` text of the first missing key (`word` first); the word is the cleaned word and has no `##`; the label is `entity_group`, else `entity`, else `UNKNOWN`; the score passes through; a missing start or end becomes 0 |
| Ner.FormatAll | backend/python/ner_service.py:27-38 | success iff every record formats, and then there is exactly one span per record, in the same order; on failure the error is that of the first record that fails |
| Ner.ExtractEntities | backend/python/ner_service.py:19-50 | the recognizer sees the normalised text; the envelope invariant holds (count equals the number of entities; failure has an error and no entities); when the recognizer returns, the reply succeeds iff every record formats, with one marker-free span per record, in order, and otherwise the error is that of the first failing record; a recognizer exception becomes the error |
| Ner.ExtractIgnoresSpacing | backend/python/ner_service.py:23-24 | two texts with the same words get the same reply |
| Ner.ExtractOfCollapsed | backend/python/ner_service.py:23-24 | normalising the text before calling the service changes nothing |
| Ner.NerMain | backend/python/ner_service.py:58-69 | (input selection via `InputText`) exit status 1 iff the existing file is empty, or there is no file and no non-empty `--text`; a non-empty file's content wins over `--text`; a missing file falls back to `--text` |
| Ner.BlankTextReachesRecognizer | backend/python/ner_service.py:63-69 | a `--text` made only of whitespace counts as input (exit status 0), and the recognizer is called on the empty text |
| Ner.EmptyFileShadowsText | backend/python/ner_service.py:58-68 | an existing empty file yields exit status 1 even when `--text` is given |
| Pooling.PoolOne | backend/python/embedding_service.py:16-20 | the pooled vector of a sequence has the hidden width |
| Pooling.MeanPooling | backend/python/embedding_service.py:16-20 | one pooled vector per sequence, each of the hidden width |
| Pooling.PoolIgnoresMasked | backend/python/embedding_service.py:19-20 | changing the hidden vectors of tokens whose mask is 0 leaves the pooled vector unchanged |
| Pooling.PoolAllMaskedIsZero | backend/python/embedding_service.py:20 | an all-zero (or empty) mask pools to the zero vector: the clamp at 1e-9 avoids a division by zero |
| Pooling.PoolIgnoresPadding | backend/python/embedding_service.py:19-20 | appending masked-out padding tokens does not change a sequence's pooled vector |
| Pooling.PoolWithinBounds | backend/python/embedding_service.py:16-20 | with a 0/1 mask and at least one unmasked token, every pooled component lies between the least and the greatest value of that component over the unmasked tokens |
| Pooling.L2Normalize | backend/python/embedding_service.py:36 | normalisation preserves the vector's length |
| Pooling.NormalizeUnit | backend/python/embedding_service.py:36 | if the norm is at least the 1e-12 clamp and `sqrt` is a true square root, the normalised vector has squared norm 1 |
| Pooling.NormalizeRows | backend/python/embedding_service.py:64 | row-wise normalisation keeps the number of rows and each row's length |
| Embedding.Embed | backend/python/embedding_service.py:33-36 | one vector per encoded sequence, each of the encoder's width; row `b` is the L2-normalised mean-pooled vector of sequence `b` |
| Embedding.GenerateEmbedding | backend/python/embedding_service.py:22-48 | single-mode envelope invariant (dimension equals the embedding's length; failure has an error and an empty embedding); success iff the encoder returned at least one row, and then the embedding is the normalised pooled vector of row 0 and dimension equals the encoder's width; an encoder exception becomes the error; no rows at all gives the index error text of reading row 0 |
| Embedding.GenerateEmbeddingsBatch | backend/python/embedding_service.py:50-77 | batch envelope invariant: count equals the number of embeddings, at least 1; dimension equals the first embedding's length, and every embedding has that length; failure has an error and no embeddings (the batch fails as a whole); on success the embeddings are the normalised pooled vectors of all encoded sequences, their count is the number of sequences and the dimension is the encoder's width; no rows at all gives the index error text of reading row 0 |
| Embedding.EmbeddingIsUnit | backend/python/embedding_service.py:33-42 | when the pooled vector's norm reaches the 1e-12 clamp and `sqrt` is a true square root, single mode succeeds with a vector of squared norm 1 |
| Embedding.BatchIgnoresMasked | backend/python/embedding_service.py:61-70 | hidden states at masked-out positions do not affect the batch reply |
| Embedding.BatchOfOneIsSingle | backend/python/embedding_service.py:26-54 | a batch of one text and single mode on that text agree on outcome, vector, dimension and error |
| Embedding.ChooseMode | backend/python/embedding_service.py:88-96 | a decoded list selects batch mode on exactly its elements; a decoded non-list value selects single mode on its `str()`; a decode error selects single mode on the raw argument unchanged |
| Embedding.EmbeddingMain | backend/python/embedding_service.py:81-96 | no argument gives exit status 1; an argument that is not JSON gives the single-mode reply for the raw argument; a JSON list gives the batch reply for its elements; a JSON string gives the single-mode reply for its text, and any other JSON value that for its `str()`; every reply satisfies its envelope invariant |
| Embedding.QuotedStringEmbedsText | backend/python/embedding_service.py:89-93 | a JSON-quoted string gets the same reply as its unquoted text, when that text is not itself JSON |

## Left out

- Loading the models and running inference are foreign library calls, so they are parameters of the model. This covers the zero-shot pipeline, the token-classification pipeline and its "max" sub-word aggregation, the tokenizer with padding and truncation, and the encoder's forward pass.
- The square root is a parameter: the model has no real square root, and `NormalizeUnit` assumes the parameter returns one.
- Floating point is idealised as `real`. Scores are compared only with `>=`, and no rounding is modelled.
- JSON decoding and encoding, `float(...)` of the threshold argument, argparse, printing and `sys.exit` are all left out. Decoding is a parameter returning a decoded value or a decode error, and the exit status is `Cli.ExitCode`.
- Classification.ClassifyMain: does not model the uncaught exceptions of `float(sys.argv[2])` and `json.loads(sys.argv[3])`, which crash the process instead of producing an envelope; it also does not model a decoded label argument that is not a list of strings.
- Reading the `--file` path (existence check, UTF-8 decoding with errors ignored) is I/O; its outcome is the `Option<string>` parameter of `Ner.NerMain`.
- Embedding.JsonValue: renders numbers, booleans, `null` and objects by an opaque `str()` text carried in the value, because Python's float and dict formatting is not modelled.
- Embedding.GenerateEmbeddingsBatch: passes the decoded list to the encoder as it is, so list elements that are not strings fail inside the encoder's own error path. How the tokenizer treats an empty list is the encoder's business; if the encoder returns no rows, the model reports the tensor library's index error text.
- Where the exceptions come from (out of memory, tokenizer errors, malformed model state) is not modelled. Only their message reaching the failure envelope is.
- Whether the dimension is the same on every call depends on the model weights. The model states it per call, as the encoder's width.
