/** The entity service: normalise the text, hand it to the token-classification
    collaborator, turn each of its records into an entity span, and wrap the
    outcome in the result envelope; plus the choice of input text on the
    command line. */
module Ner {
  import opened Common
  import Whitespace
  import Subword

  /** The label reported when a record carries neither an aggregated group nor
      a raw entity label. */
  const Unknown: string := "UNKNOWN"

  /** One record of the token-classification collaborator: a dictionary, any
      of whose keys may be missing. */
  datatype RawEntity = RawEntity(
    entityGroup: Option<string>,
    entity: Option<string>,
    word: Option<string>,
    score: Option<real>,
    start: Option<int>,
    end: Option<int>)

  /** One reported entity. */
  datatype EntitySpan = EntitySpan(entityGroup: string, word: string, score: real, start: int, end: int)

  /** The service's JSON reply: `entities` and `count` on success, `error` and
      an empty `entities` on failure. */
  datatype EntitiesEnvelope = EntitiesEnvelope(
    success: bool,
    entities: seq<EntitySpan>,
    count: Option<nat>,
    error: Option<string>)

  /** The envelope invariant shared by every reply of this service. */
  predicate WellFormed(e: EntitiesEnvelope) {
    if e.success then e.error.None? && e.count == Some(|e.entities|)
    else e.error.Some? && e.entities == [] && e.count.None?
  }

  /** The token-classification collaborator (with its "max" sub-word
      aggregation): records for a text, or the message of the exception it
      raised. */
  type Recognizer = string -> Result<seq<RawEntity>>

  /** `str(KeyError(key))`: the key in single quotes. */
  function KeyError(key: string): string {
    "'" + key + "'"
  }

  function GroupLabel(e: RawEntity): string {
    match e.entityGroup
    case Some(g) => g
    case None =>
      match e.entity
      case Some(l) => l
      case None => Unknown
  }

  function OrZero(o: Option<int>): int {
    match o
    case Some(v) => v
    case None => 0
  }

  /** Formats one record: the word loses its markers, the label falls back from
      the aggregated group to the raw entity label to `UNKNOWN`, the score is
      passed through, and each missing offset becomes 0. A record without
      `word` or `score` raises a `KeyError`, `word` being read first. */
  function FormatEntity(e: RawEntity): (r: Result<EntitySpan>)
    ensures r.Success? <==> e.word.Some? && e.score.Some?
    ensures e.word.None? ==> r.error == KeyError("word")
    ensures e.word.Some? && e.score.None? ==> r.error == KeyError("score")
    ensures r.Success? ==>
      && !Subword.HasMarker(r.value.word)
      && r.value.word == Subword.RemoveMarker(e.word.value)
      && r.value.score == e.score.value
      && (e.entityGroup.Some? ==> r.value.entityGroup == e.entityGroup.value)
      && (e.entityGroup.None? && e.entity.Some? ==> r.value.entityGroup == e.entity.value)
      && (e.entityGroup.None? && e.entity.None? ==> r.value.entityGroup == Unknown)
      && r.value.start == (if e.start.Some? then e.start.value else 0)
      && r.value.end == (if e.end.Some? then e.end.value else 0)
  {
    match e.word
    case None => Failure(KeyError("word"))
    case Some(raw) =>
      var word := Subword.RemoveMarker(raw);
      Subword.RemoveMarkerLeavesNone(raw);
      match e.score
      case None => Failure(KeyError("score"))
      case Some(score) => Success(EntitySpan(GroupLabel(e), word, score, OrZero(e.start), OrZero(e.end)))
  }

  /** The formatting loop: one span per record, in order; the first record
      that raises aborts the whole loop with its message. */
  function FormatAll(records: seq<RawEntity>): (r: Result<seq<EntitySpan>>)
    ensures r.Success? <==> forall i :: 0 <= i < |records| ==> FormatEntity(records[i]).Success?
    ensures r.Success? ==>
      && |r.value| == |records|
      && forall i :: 0 <= i < |records| ==> FormatEntity(records[i]) == Success(r.value[i])
    ensures r.Failure? ==> exists i :: FirstFailure(records, i) && r.error == FormatEntity(records[i]).error
  {
    if |records| == 0 then Success([])
    else
      match FormatEntity(records[0])
      case Failure(m) =>
        assert FirstFailure(records, 0);
        Failure(m)
      case Success(span) =>
        match FormatAll(records[1..])
        case Failure(m) =>
          assert exists i :: FirstFailure(records, i) && m == FormatEntity(records[i]).error by {
            var i :| FirstFailure(records[1..], i) && m == FormatEntity(records[1..][i]).error;
            assert FirstFailure(records, i + 1);
          }
          Failure(m)
        case Success(spans) => Success([span] + spans)
  }

  /** Record `i` is the first one whose formatting raises. */
  ghost predicate FirstFailure(records: seq<RawEntity>, i: int) {
    && 0 <= i < |records|
    && FormatEntity(records[i]).Failure?
    && forall j :: 0 <= j < i ==> FormatEntity(records[j]).Success?
  }

  /** `extract_entities`: the collaborator sees the whitespace-normalised text;
      the reply succeeds exactly when the collaborator returns and every record
      formats, and then there is exactly one span per record, in order, each
      with a marker-free word; any exception, the collaborator's or the first
      failing record's, becomes the failure envelope. */
  function ExtractEntities(text: string, recognize: Recognizer): (r: EntitiesEnvelope)
    ensures WellFormed(r)
    ensures var out := recognize(Whitespace.Collapse(text));
      && (out.Failure? ==> r.error == Some(out.error))
      && (out.Success? ==> (r.success <==> FormatAll(out.value).Success?))
      && (out.Success? && FormatAll(out.value).Failure? ==> r.error == Some(FormatAll(out.value).error))
      && (r.success ==>
            && out.Success?
            && |r.entities| == |out.value|
            && forall i :: 0 <= i < |out.value| ==>
                 && FormatEntity(out.value[i]) == Success(r.entities[i])
                 && !Subword.HasMarker(r.entities[i].word))
  {
    var condensed := Whitespace.Collapse(text);
    match recognize(condensed)
    case Failure(m) => EntitiesEnvelope(false, [], None, Some(m))
    case Success(records) =>
      match FormatAll(records)
      case Failure(m) => EntitiesEnvelope(false, [], None, Some(m))
      case Success(entities) => EntitiesEnvelope(true, entities, Some(|entities|), None)
  }

  /** Spacing is invisible to the service: texts with the same words get the
      same reply. */
  lemma ExtractIgnoresSpacing(a: string, b: string, recognize: Recognizer)
    requires Whitespace.Split(a) == Whitespace.Split(b)
    ensures ExtractEntities(a, recognize) == ExtractEntities(b, recognize)
  {
  }

  /** Normalising the text before calling the service changes nothing. */
  lemma ExtractOfCollapsed(text: string, recognize: Recognizer)
    ensures ExtractEntities(Whitespace.Collapse(text), recognize) == ExtractEntities(text, recognize)
  {
    Whitespace.CollapseIdempotent(text);
  }

  /** The text the entry point works on: the content of the `--file` path when
      it names an existing file (even if that content is empty), otherwise a
      non-empty `--text`. `fileContent` is `None` when `--file` was not given,
      was empty, or did not name a file. */
  function InputText(fileContent: Option<string>, textArg: Option<string>): Option<string> {
    if fileContent.Some? then fileContent
    else if textArg.Some? && textArg.value != "" then textArg
    else None
  }

  /** The entity entry point: an existing file wins over `--text`, a missing
      file falls back to `--text`, and an empty or absent input exits with
      status 1 without calling the collaborator. */
  function NerMain(fileContent: Option<string>, textArg: Option<string>, recognize: Recognizer): (r: Cli<EntitiesEnvelope>)
    ensures r.ExitCode() == 1 <==>
      || (fileContent.Some? && fileContent.value == "")
      || (fileContent.None? && (textArg.None? || textArg.value == ""))
    ensures fileContent.Some? && fileContent.value != "" ==>
      r == Reply(ExtractEntities(fileContent.value, recognize))
    ensures fileContent.None? && textArg.Some? && textArg.value != "" ==>
      r == Reply(ExtractEntities(textArg.value, recognize))
    ensures r.Reply? ==> WellFormed(r.envelope)
  {
    match InputText(fileContent, textArg)
    case None => MissingInput
    case Some(text) =>
      if text == "" then MissingInput else Reply(ExtractEntities(text, recognize))
  }

  /** A `--text` made only of whitespace counts as input, so the entry point
      does not exit with status 1; the recognizer is then called on the empty
      text. */
  lemma BlankTextReachesRecognizer(text: string, recognize: Recognizer)
    requires text != ""
    requires forall i :: 0 <= i < |text| ==> Whitespace.IsSpace(text[i])
    ensures NerMain(None, Some(text), recognize) == Reply(ExtractEntities(text, recognize))
    ensures Whitespace.Collapse(text) == ""
  {
    Whitespace.BlankCollapsesToEmpty(text);
  }

  /** An existing but empty file shadows `--text`: the invocation fails even
      when `--text` was given. */
  lemma EmptyFileShadowsText(textArg: Option<string>, recognize: Recognizer)
    ensures NerMain(Some(""), textArg, recognize) == MissingInput
  {
  }
}
