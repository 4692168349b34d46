/** The skill classification service: score a label set against a text with
    the zero-shot collaborator in multi-label mode, keep the labels whose score
    reaches the threshold, and wrap the outcome in the result envelope. */
module Classification {
  import opened Common

  /** The tag identifying how a skill was found. */
  const MethodTag: string := "zero-shot-classification"

  const DefaultThreshold: real := 0.5

  /** The built-in label vocabulary used when the caller supplies none. */
  const DefaultSkills: seq<string> := [
    "javascript", "python", "java", "react", "angular", "vue", "node.js",
    "express", "mongodb", "postgresql", "mysql", "aws", "azure", "gcp",
    "docker", "kubernetes", "git", "html", "css", "typescript",
    "graphql", "rest api", "microservices", "ci/cd", "jenkins",
    "agile", "scrum", "sql", "nosql", "redis", "elasticsearch",
    "machine learning", "artificial intelligence", "data science",
    "tensorflow", "pytorch", "spring boot", "django", "flask",
    "dotnet", "c#", "go", "rust", "php", "ruby", "rails"
  ]

  /** One reported skill; `methodTag` is the JSON key `method`. */
  datatype Skill = Skill(skill: string, confidence: real, methodTag: string)

  /** The collaborator's answer: two aligned lists, labels and their scores. */
  datatype ZeroShotOutput = ZeroShotOutput(labels: seq<string>, scores: seq<real>)

  /** The zero-shot collaborator in multi-label mode: scores for the given
      labels against a text, or the message of the exception it raised. */
  type Classifier = (string, seq<string>) -> Result<ZeroShotOutput>

  /** The service's JSON reply: `skills` and `count` on success, `error` and
      an empty `skills` on failure. */
  datatype SkillsEnvelope = SkillsEnvelope(
    success: bool,
    skills: seq<Skill>,
    count: Option<nat>,
    error: Option<string>)

  /** The envelope invariant shared by every reply of this service. */
  predicate WellFormed(e: SkillsEnvelope) {
    if e.success then e.error.None? && e.count == Some(|e.skills|)
    else e.error.Some? && e.skills == [] && e.count.None?
  }

  /** Every pair that `zip(labels, scores)` yields, already tagged: pairs
      beyond the shorter list do not exist. */
  function Candidates(labels: seq<string>, scores: seq<real>): (c: seq<Skill>)
    ensures |c| == Min(|labels|, |scores|)
  {
    seq(Min(|labels|, |scores|), i requires 0 <= i < Min(|labels|, |scores|) =>
      Skill(labels[i], scores[i], MethodTag))
  }

  /** The threshold filter over the zipped lists. The kept skills are the
      candidates, in model order, with some left out; a candidate is kept
      exactly when its score reaches the threshold, and then every copy of it
      is kept. */
  function Kept(labels: seq<string>, scores: seq<real>, threshold: real): (skills: seq<Skill>)
    ensures |skills| <= Min(|labels|, |scores|)
    ensures forall k :: 0 <= k < |skills| ==> skills[k].confidence >= threshold && skills[k].methodTag == MethodTag
    ensures IsSubsequence(skills, Candidates(labels, scores))
    ensures forall s :: s in skills <==> s in Candidates(labels, scores) && s.confidence >= threshold
    ensures forall s :: multiset(skills)[s] == if s.confidence >= threshold then multiset(Candidates(labels, scores))[s] else 0
    decreases |labels|
  {
    if |labels| == 0 || |scores| == 0 then []
    else
      var rest := Kept(labels[1..], scores[1..], threshold);
      var head := Skill(labels[0], scores[0], MethodTag);
      var tail := Candidates(labels[1..], scores[1..]);
      assert Candidates(labels, scores) == [head] + tail;
      KeptStep(head, rest, tail, threshold);
      if scores[0] >= threshold then [head] + rest else rest
  }

  /** One step of the filter: prepending a candidate to the list keeps the
      filter's properties, the candidate being kept in front exactly when it
      passes. */
  lemma KeptStep(head: Skill, rest: seq<Skill>, tail: seq<Skill>, threshold: real)
    requires IsSubsequence(rest, tail)
    requires forall s :: multiset(rest)[s] == if s.confidence >= threshold then multiset(tail)[s] else 0
    ensures var kept := if head.confidence >= threshold then [head] + rest else rest;
      && IsSubsequence(kept, [head] + tail)
      && (forall s :: multiset(kept)[s] == if s.confidence >= threshold then multiset([head] + tail)[s] else 0)
      && (forall s :: s in kept <==> s in [head] + tail && s.confidence >= threshold)
  {
    assert multiset([head] + tail) == multiset{head} + multiset(tail);
    assert multiset([head] + rest) == multiset{head} + multiset(rest);
    assert ([head] + rest)[1..] == rest && ([head] + tail)[1..] == tail;
  }

  /** `classify_skills`: the collaborator is asked about the caller's labels,
      or about `DefaultSkills` when none are given; on success the reply holds
      the kept skills and their count, and any exception becomes the failure
      envelope with its message. */
  function Classify(text: string, labels: Option<seq<string>>, threshold: real, classify: Classifier): (r: SkillsEnvelope)
    ensures WellFormed(r)
    ensures var out := classify(text, if labels.Some? then labels.value else DefaultSkills);
      && (r.success <==> out.Success?)
      && (out.Failure? ==> r.error == Some(out.error))
      && (out.Success? ==> r.skills == Kept(out.value.labels, out.value.scores, threshold))
  {
    var candidateLabels := if labels.None? then DefaultSkills else labels.value;
    match classify(text, candidateLabels)
    case Failure(m) => SkillsEnvelope(false, [], None, Some(m))
    case Success(out) =>
      var skills := Kept(out.labels, out.scores, threshold);
      SkillsEnvelope(true, skills, Some(|skills|), None)
  }

  /** Leaving the labels out is asking about the 46 default skills. */
  lemma DefaultLabels(text: string, threshold: real, classify: Classifier)
    ensures |DefaultSkills| == 46
    ensures Classify(text, None, threshold, classify) == Classify(text, Some(DefaultSkills), threshold, classify)
  {
  }

  /** Raising the threshold only ever removes skills: the skills kept at the
      higher threshold are a subsequence of those kept at the lower one. */
  lemma {:induction false} KeptMonotone(labels: seq<string>, scores: seq<real>, t1: real, t2: real)
    requires t1 <= t2
    ensures IsSubsequence(Kept(labels, scores, t2), Kept(labels, scores, t1))
    decreases |labels|
  {
    if |labels| > 0 && |scores| > 0 {
      var head := Skill(labels[0], scores[0], MethodTag);
      var low, high := Kept(labels[1..], scores[1..], t1), Kept(labels[1..], scores[1..], t2);
      KeptMonotone(labels[1..], scores[1..], t1, t2);
      if scores[0] >= t2 {
        assert ([head] + high)[1..] == high && ([head] + low)[1..] == low;
      } else if scores[0] >= t1 {
        assert ([head] + low)[1..] == low;
        if |high| > 0 {
          assert IsSubsequence(high, ([head] + low)[1..]);
        }
      }
    }
  }

  /** The same, for whole replies: with the same text, labels and
      collaborator, a higher threshold yields a subsequence of the skills. */
  lemma ClassifyMonotone(text: string, labels: Option<seq<string>>, t1: real, t2: real, classify: Classifier)
    requires t1 <= t2
    ensures IsSubsequence(Classify(text, labels, t2, classify).skills, Classify(text, labels, t1, classify).skills)
  {
    var out := classify(text, if labels.Some? then labels.value else DefaultSkills);
    if out.Success? {
      KeptMonotone(out.value.labels, out.value.scores, t1, t2);
    }
  }

  /** Scores the collaborator keeps within [0, 1] give confidences within [0, 1]. */
  lemma ConfidenceInUnitRange(labels: seq<string>, scores: seq<real>, threshold: real)
    requires forall i :: 0 <= i < |scores| ==> 0.0 <= scores[i] <= 1.0
    ensures forall s :: s in Kept(labels, scores, threshold) ==> 0.0 <= s.confidence <= 1.0
  {
  }

  /** The classification entry point, given the arguments after the program
      name: the text is required (an empty text is accepted), the threshold
      and the label list are optional and positional. `parseThreshold` stands
      for `float(...)` and `parseLabels` for the JSON decoding of the label
      list, where JSON `null` means no list. */
  function ClassifyMain(args: seq<string>, parseThreshold: string -> real,
                        parseLabels: string -> Option<seq<string>>, classify: Classifier): (r: Cli<SkillsEnvelope>)
    ensures r.MissingInput? <==> |args| == 0
    ensures |args| == 1 ==> r == Reply(Classify(args[0], None, DefaultThreshold, classify))
    ensures |args| == 2 ==> r == Reply(Classify(args[0], None, parseThreshold(args[1]), classify))
    ensures |args| >= 3 ==> r == Reply(Classify(args[0], parseLabels(args[2]), parseThreshold(args[1]), classify))
    ensures r.Reply? ==> WellFormed(r.envelope)
  {
    if |args| == 0 then MissingInput
    else
      var threshold := if |args| > 1 then parseThreshold(args[1]) else DefaultThreshold;
      var labels := if |args| > 2 then parseLabels(args[2]) else None;
      Reply(Classify(args[0], labels, threshold, classify))
  }
}
