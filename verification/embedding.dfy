/** The embedding service: tokenize and encode the text (an opaque
    collaborator), mean-pool and L2-normalise the hidden states, wrap the
    outcome in the result envelope; plus the entry point that decides between
    single and batch mode from the decoded argument. */
module Embedding {
  import opened Common
  import Pooling

  /** A decoded JSON value, as far as the entry point distinguishes it: a
      string, a list, or any other value together with Python's `str()` of it
      (numbers, booleans, `null`, objects). */
  datatype JsonValue = JString(text: string) | JList(items: seq<JsonValue>) | JOther(rendered: string)

  /** The tokenizer and encoder's output for a batch: per sequence, the hidden
      vector of every token and the attention mask, all vectors of one width. */
  datatype TokenStates = TokenStates(hidden: seq<seq<Pooling.Vector>>, mask: seq<seq<int>>, width: nat)

  type Encoded = s: TokenStates | Pooling.BatchShaped(s.hidden, s.mask, s.width)
    witness TokenStates([], [], 0)

  /** The tokenizer and encoder collaborator applied to the list the service
      hands to the tokenizer, or the message of the exception it raised. */
  type Encoder = seq<JsonValue> -> Result<Encoded>

  /** The message of the `IndexError` raised when row 0 of an empty batch of
      embeddings is read. */
  const EmptyBatchError: string := "index 0 is out of bounds for dimension 0 with size 0"

  /** The single-mode JSON reply. */
  datatype SingleEnvelope = SingleEnvelope(
    success: bool,
    embedding: Pooling.Vector,
    dimension: Option<nat>,
    error: Option<string>)

  /** The batch-mode JSON reply. */
  datatype BatchEnvelope = BatchEnvelope(
    success: bool,
    embeddings: seq<Pooling.Vector>,
    count: Option<nat>,
    dimension: Option<nat>,
    error: Option<string>)

  /** On success `dimension` is the length of `embedding`; on failure there is
      an error and the embedding is empty. */
  predicate SingleWellFormed(e: SingleEnvelope) {
    if e.success then e.error.None? && e.dimension == Some(|e.embedding|)
    else e.error.Some? && e.embedding == [] && e.dimension.None?
  }

  /** On success `count` is the number of embeddings, at least one, and
      `dimension` is the length of the first and of every other; on failure
      there is an error and no embedding at all. */
  predicate BatchWellFormed(e: BatchEnvelope) {
    if e.success then
      && e.error.None?
      && e.count == Some(|e.embeddings|)
      && |e.embeddings| >= 1
      && e.dimension == Some(|e.embeddings[0]|)
      && forall k :: 0 <= k < |e.embeddings| ==> |e.embeddings[k]| == |e.embeddings[0]|
    else e.error.Some? && e.embeddings == [] && e.count.None? && e.dimension.None?
  }

  /** Mean pooling followed by L2 normalisation: one vector per sequence, each
      of the encoder's width, and row `b` is the normalised pooled vector of
      sequence `b`. */
  function Embed(states: Encoded, sqrt: real -> real): (rows: seq<Pooling.Vector>)
    ensures |rows| == |states.hidden|
    ensures forall b :: 0 <= b < |rows| ==> |rows[b]| == states.width
    ensures forall b :: 0 <= b < |rows| ==>
      rows[b] == Pooling.L2Normalize(Pooling.PoolOne(states.hidden[b], states.mask[b], states.width), sqrt)
  {
    Pooling.NormalizeRows(Pooling.MeanPooling(states.hidden, states.mask, states.width), sqrt)
  }

  /** `generate_embedding`: the text is encoded as a batch of one; on success
      the reply holds row 0 and its dimension, the encoder's width; any
      exception becomes the failure envelope. */
  function GenerateEmbedding(text: string, encode: Encoder, sqrt: real -> real): (r: SingleEnvelope)
    ensures SingleWellFormed(r)
    ensures var out := encode([JString(text)]);
      && (r.success <==> out.Success? && |out.value.hidden| > 0)
      && (out.Failure? ==> r.error == Some(out.error))
      && (out.Success? && |out.value.hidden| == 0 ==> r.error == Some(EmptyBatchError))
      && (r.success ==> r.dimension == Some(out.value.width) && r.embedding == Embed(out.value, sqrt)[0])
  {
    match encode([JString(text)])
    case Failure(m) => SingleEnvelope(false, [], None, Some(m))
    case Success(states) =>
      var rows := Embed(states, sqrt);
      if |rows| == 0 then SingleEnvelope(false, [], None, Some(EmptyBatchError))
      else SingleEnvelope(true, rows[0], Some(|rows[0]|), None)
  }

  /** `generate_embeddings_batch`: the list is encoded as it is; on success the
      reply holds one row per encoded sequence, their count and their common
      dimension; a failure anywhere fails the whole batch. */
  function GenerateEmbeddingsBatch(texts: seq<JsonValue>, encode: Encoder, sqrt: real -> real): (r: BatchEnvelope)
    ensures BatchWellFormed(r)
    ensures var out := encode(texts);
      && (r.success <==> out.Success? && |out.value.hidden| > 0)
      && (out.Failure? ==> r.error == Some(out.error))
      && (r.success ==> r.count == Some(|out.value.hidden|) && r.dimension == Some(out.value.width))
      && (r.success ==> r.embeddings == Embed(out.value, sqrt))
      && (out.Success? && |out.value.hidden| == 0 ==> r.error == Some(EmptyBatchError))
  {
    match encode(texts)
    case Failure(m) => BatchEnvelope(false, [], None, None, Some(m))
    case Success(states) =>
      var rows := Embed(states, sqrt);
      if |rows| == 0 then BatchEnvelope(false, [], None, None, Some(EmptyBatchError))
      else BatchEnvelope(true, rows, Some(|rows|), Some(|rows[0]|), None)
  }

  /** Single mode returns a unit vector: when the text's pooled vector has a
      norm of at least the clamp and `sqrt` returns its square root, the reply
      succeeds and its embedding has squared norm 1. */
  lemma EmbeddingIsUnit(text: string, encode: Encoder, sqrt: real -> real)
    requires encode([JString(text)]).Success?
    requires var states := encode([JString(text)]).value;
      |states.hidden| > 0 &&
      var v := Pooling.PoolOne(states.hidden[0], states.mask[0], states.width);
      sqrt(Pooling.SumSquares(v)) >= Pooling.NormFloor && sqrt(Pooling.SumSquares(v)) * sqrt(Pooling.SumSquares(v)) == Pooling.SumSquares(v)
    ensures GenerateEmbedding(text, encode, sqrt).success
    ensures Pooling.SumSquares(GenerateEmbedding(text, encode, sqrt).embedding) == 1.0
  {
    var states := encode([JString(text)]).value;
    Pooling.NormalizeUnit(Pooling.PoolOne(states.hidden[0], states.mask[0], states.width), sqrt);
  }

  /** The batch reply depends on the hidden states of unmasked tokens only:
      two encoder outputs with the same masks that differ only at padding
      positions give the same reply. */
  lemma BatchIgnoresMasked(texts: seq<JsonValue>, encode1: Encoder, encode2: Encoder, sqrt: real -> real)
    requires encode1(texts).Success? && encode2(texts).Success?
    requires var s1, s2 := encode1(texts).value, encode2(texts).value;
      && s1.mask == s2.mask && s1.width == s2.width && |s1.hidden| == |s2.hidden|
      && forall b, t :: 0 <= b < |s1.hidden| && 0 <= t < |s1.mask[b]| && s1.mask[b][t] != 0 ==>
           s1.hidden[b][t] == s2.hidden[b][t]
    ensures GenerateEmbeddingsBatch(texts, encode1, sqrt) == GenerateEmbeddingsBatch(texts, encode2, sqrt)
  {
    var s1, s2 := encode1(texts).value, encode2(texts).value;
    forall b | 0 <= b < |s1.hidden|
      ensures Pooling.PoolOne(s1.hidden[b], s1.mask[b], s1.width) == Pooling.PoolOne(s2.hidden[b], s2.mask[b], s2.width)
    {
      Pooling.PoolIgnoresMasked(s1.hidden[b], s2.hidden[b], s1.mask[b], s1.width);
    }
    assert Embed(s1, sqrt) == Embed(s2, sqrt);
  }

  /** A batch of one text agrees with single mode on that text: same outcome,
      same vector, same dimension, same error. */
  lemma BatchOfOneIsSingle(text: string, encode: Encoder, sqrt: real -> real)
    ensures var single, batch := GenerateEmbedding(text, encode, sqrt), GenerateEmbeddingsBatch([JString(text)], encode, sqrt);
      && single.success == batch.success
      && (single.success ==> batch.embeddings[0] == single.embedding && batch.dimension == single.dimension)
      && single.error == batch.error
  {
  }

  /** Which generator the entry point runs. */
  datatype Mode = Batch(items: seq<JsonValue>) | Single(text: string)

  /** The mode for the raw argument, given the outcome of decoding it as JSON
      (`None` for a decode error): a list selects batch mode on exactly its
      elements, any other value single mode on its `str()`, and an argument
      that is not JSON single mode on the raw argument unchanged. */
  function ChooseMode(raw: string, decoded: Option<JsonValue>): (m: Mode)
    ensures decoded.None? ==> m == Single(raw)
    ensures decoded.Some? && decoded.value.JList? ==> m == Batch(decoded.value.items)
    ensures decoded.Some? && decoded.value.JString? ==> m == Single(decoded.value.text)
    ensures decoded.Some? && decoded.value.JOther? ==> m == Single(decoded.value.rendered)
  {
    match decoded
    case None => Single(raw)
    case Some(JList(items)) => Batch(items)
    case Some(JString(text)) => Single(text)
    case Some(JOther(rendered)) => Single(rendered)
  }

  /** What the entry point prints. */
  datatype Output = SingleReply(single: SingleEnvelope) | BatchReply(batch: BatchEnvelope)

  /** The embedding entry point, given the arguments after the program name
      and the JSON decoder (`None` for a decode error): no argument exits with
      status 1; otherwise the first argument is dispatched by `ChooseMode`. */
  function EmbeddingMain(args: seq<string>, decode: string -> Option<JsonValue>, encode: Encoder, sqrt: real -> real): (r: Cli<Output>)
    ensures r.MissingInput? <==> |args| == 0
    ensures |args| > 0 && decode(args[0]).None? ==>
      r == Reply(SingleReply(GenerateEmbedding(args[0], encode, sqrt)))
    ensures |args| > 0 && decode(args[0]).Some? && decode(args[0]).value.JList? ==>
      r == Reply(BatchReply(GenerateEmbeddingsBatch(decode(args[0]).value.items, encode, sqrt)))
    ensures |args| > 0 && decode(args[0]).Some? && decode(args[0]).value.JString? ==>
      r == Reply(SingleReply(GenerateEmbedding(decode(args[0]).value.text, encode, sqrt)))
    ensures |args| > 0 && decode(args[0]).Some? && decode(args[0]).value.JOther? ==>
      r == Reply(SingleReply(GenerateEmbedding(decode(args[0]).value.rendered, encode, sqrt)))
    ensures r.Reply? && r.envelope.SingleReply? ==> SingleWellFormed(r.envelope.single)
    ensures r.Reply? && r.envelope.BatchReply? ==> BatchWellFormed(r.envelope.batch)
  {
    if |args| == 0 then MissingInput
    else
      match ChooseMode(args[0], decode(args[0]))
      case Batch(items) => Reply(BatchReply(GenerateEmbeddingsBatch(items, encode, sqrt)))
      case Single(text) => Reply(SingleReply(GenerateEmbedding(text, encode, sqrt)))
  }

  /** A JSON-quoted string embeds its unquoted text: the reply for the quoted
      argument is the reply for the bare text, when the bare text is itself
      not JSON. */
  lemma QuotedStringEmbedsText(quoted: string, text: string, decode: string -> Option<JsonValue>, encode: Encoder, sqrt: real -> real)
    requires decode(quoted) == Some(JString(text))
    requires decode(text).None?
    ensures EmbeddingMain([quoted], decode, encode, sqrt) == EmbeddingMain([text], decode, encode, sqrt)
    ensures EmbeddingMain([quoted], decode, encode, sqrt) == Reply(SingleReply(GenerateEmbedding(text, encode, sqrt)))
  {
  }
}
