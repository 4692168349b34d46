/** Types shared by the three text-understanding services: optional values,
    collaborator results, the command-line outcome, and the subsequence
    relation used to state order-preserving filters. */
module Common {

  /** A value that may be absent (a missing dictionary key, a missing
      command-line argument, a missing file). */
  datatype Option<+T> = None | Some(value: T)

  /** The outcome of a call into an opaque collaborator or of a step that may
      raise: either a value, or the text of the exception (`str(e)`). */
  datatype Result<+T> = Success(value: T) | Failure(error: string)

  /** What one command-line invocation does: print an envelope and exit 0, or
      print `{"success": false, "error": "No input text provided"}` and exit 1. */
  datatype Cli<+E> = Reply(envelope: E) | MissingInput {

    /** The process exit status. */
    function ExitCode(): nat {
      if MissingInput? then 1 else 0
    }
  }

  /** `a` is `b` with some elements left out, the remaining ones in their
      original order. */
  ghost predicate IsSubsequence<T>(a: seq<T>, b: seq<T>)
    decreases |b|
  {
    if |a| == 0 then true
    else if |b| == 0 then false
    else (a[0] == b[0] && IsSubsequence(a[1..], b[1..])) || IsSubsequence(a, b[1..])
  }

  function Min(a: int, b: int): int {
    if a <= b then a else b
  }
}
