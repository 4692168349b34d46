/** Whitespace normalisation applied to the entity service's input before
    inference: split on runs of whitespace, drop empty pieces, join with
    single spaces (`" ".join(text.split())`). */
module Whitespace {

  /** Python's `str.isspace` for one character: the ASCII controls TAB to CR
      and FS to US, SPACE, NEL, NO-BREAK SPACE, OGHAM SPACE MARK, the spaces
      U+2000 to U+200A, LINE and PARAGRAPH SEPARATOR, NARROW NO-BREAK SPACE,
      MEDIUM MATHEMATICAL SPACE and IDEOGRAPHIC SPACE. */
  predicate IsSpace(c: char) {
    || ('\t' <= c <= '\r')
    || ('\U{1C}' <= c <= '\U{1F}')
    || c == ' '
    || c == '\U{85}'
    || c == '\U{A0}'
    || c == '\U{1680}'
    || ('\U{2000}' <= c <= '\U{200A}')
    || c == '\U{2028}'
    || c == '\U{2029}'
    || c == '\U{202F}'
    || c == '\U{205F}'
    || c == '\U{3000}'
  }

  predicate NoSpace(w: string) {
    forall i :: 0 <= i < |w| ==> !IsSpace(w[i])
  }

  /** A piece produced by `str.split()`: non-empty and free of whitespace. */
  predicate IsWord(w: string) {
    |w| > 0 && NoSpace(w)
  }

  predicate AllWords(words: seq<string>) {
    forall k :: 0 <= k < |words| ==> IsWord(words[k])
  }

  /** The shape of a normalised text: it neither starts nor ends with
      whitespace, its only whitespace character is the plain space, and no
      two spaces are adjacent. */
  predicate Collapsed(t: string) {
    && (|t| > 0 ==> !IsSpace(t[0]) && !IsSpace(t[|t| - 1]))
    && (forall i :: 0 <= i < |t| && IsSpace(t[i]) ==> t[i] == ' ')
    && (forall i :: 0 <= i < |t| - 1 ==> !(t[i] == ' ' && t[i + 1] == ' '))
  }

  /** `s` with every whitespace character deleted. */
  function Squeeze(s: string): string {
    if |s| == 0 then ""
    else (if IsSpace(s[0]) then "" else [s[0]]) + Squeeze(s[1..])
  }

  /** Python's `str.split()` with no separator: the maximal runs of
      non-whitespace characters, in order. */
  function Split(s: string): (words: seq<string>)
    ensures AllWords(words)
  {
    SplitFrom(s, "")
  }

  /** Splits `s`, where `pending` is the part of the current run already read. */
  function SplitFrom(s: string, pending: string): (words: seq<string>)
    requires NoSpace(pending)
    ensures AllWords(words)
    decreases |s|
  {
    if |s| == 0 then Flush(pending)
    else if IsSpace(s[0]) then Flush(pending) + SplitFrom(s[1..], "")
    else SplitFrom(s[1..], pending + [s[0]])
  }

  function Flush(pending: string): seq<string> {
    if pending == "" then [] else [pending]
  }

  /** Python's `sep.join(words)`. */
  function Join(words: seq<string>, sep: string): string {
    if |words| == 0 then ""
    else if |words| == 1 then words[0]
    else words[0] + sep + Join(words[1..], sep)
  }

  /** `" ".join(s.split())`: the normalised text has the shape `Collapsed`
      and exactly the words of `s`. */
  function Collapse(s: string): (t: string)
    ensures Collapsed(t)
    ensures Split(t) == Split(s)
  {
    var words := Split(s);
    JoinIsCollapsed(words);
    SplitJoin(words);
    Join(words, " ")
  }

  /** A space-joined sequence of non-empty first and last words begins with
      the first word's first character and ends with the last word's last. */
  lemma {:induction false} JoinEnds(words: seq<string>)
    requires |words| > 0 && AllWords(words)
    ensures var j := Join(words, " ");
      |j| > 0 && j[0] == words[0][0] && j[|j| - 1] == words[|words| - 1][|words[|words| - 1]| - 1]
  {
    if |words| > 1 {
      var w, rest := words[0], Join(words[1..], " ");
      JoinEnds(words[1..]);
      var j := w + " " + rest;
      assert Join(words, " ") == j;
      assert j[0] == w[0];
      assert j[|j| - 1] == rest[|rest| - 1];
      assert words[1..][|words[1..]| - 1] == words[|words| - 1];
    }
  }

  lemma {:induction false} JoinIsCollapsed(words: seq<string>)
    requires AllWords(words)
    ensures Collapsed(Join(words, " "))
  {
    if |words| > 1 {
      var w, rest := words[0], Join(words[1..], " ");
      JoinIsCollapsed(words[1..]);
      JoinEnds(words[1..]);
      var j := w + " " + rest;
      assert j == Join(words, " ");
      forall i | 0 <= i < |j| && IsSpace(j[i])
        ensures j[i] == ' '
      {
        if i > |w| {
          assert j[i] == rest[i - |w| - 1];
        }
      }
      forall i | 0 <= i < |j| - 1
        ensures !(j[i] == ' ' && j[i + 1] == ' ')
      {
        if i < |w| {
          assert j[i] == w[i];
        } else if i == |w| {
          assert j[i + 1] == rest[0];
        } else {
          assert j[i] == rest[i - |w| - 1] && j[i + 1] == rest[i - |w|];
        }
      }
      assert j[|j| - 1] == rest[|rest| - 1];
    }
  }

  /** Reading a whitespace-free run only extends the pending word. */
  lemma {:induction false} SplitFromRun(w: string, rest: string, pending: string)
    requires NoSpace(w) && NoSpace(pending)
    ensures SplitFrom(w + rest, pending) == SplitFrom(rest, pending + w)
    decreases |w|
  {
    if |w| > 0 {
      assert (w + rest)[1..] == w[1..] + rest;
      assert pending + [w[0]] + w[1..] == pending + w;
      SplitFromRun(w[1..], rest, pending + [w[0]]);
    } else {
      assert w + rest == rest;
      assert pending + w == pending;
    }
  }

  /** Splitting undoes joining with single spaces. */
  lemma {:induction false} SplitJoin(words: seq<string>)
    requires AllWords(words)
    ensures Split(Join(words, " ")) == words
  {
    if |words| == 1 {
      assert words[0] + "" == words[0] && "" + words[0] == words[0];
      SplitFromRun(words[0], "", "");
    } else if |words| > 1 {
      var w, rest := words[0], Join(words[1..], " ");
      assert Join(words, " ") == w + (" " + rest);
      SplitFromRun(w, " " + rest, "");
      assert "" + w == w;
      assert (" " + rest)[1..] == rest;
      SplitJoin(words[1..]);
      assert words == [w] + words[1..];
    }
  }

  lemma {:induction false} SplitFromAtSpace(a: string, c: char, b: string, pending: string)
    requires IsSpace(c) && NoSpace(pending)
    ensures SplitFrom(a + [c] + b, pending) == SplitFrom(a, pending) + SplitFrom(b, "")
    decreases |a|
  {
    if |a| == 0 {
      assert a + [c] + b == [c] + b;
      assert ([c] + b)[1..] == b;
    } else {
      assert (a + [c] + b)[1..] == a[1..] + [c] + b;
      if IsSpace(a[0]) {
        SplitFromAtSpace(a[1..], c, b, "");
      } else {
        SplitFromAtSpace(a[1..], c, b, pending + [a[0]]);
      }
    }
  }

  /** Every whitespace character ends a word: the words of a text split at
      any whitespace character are the words of the part before it followed
      by the words of the part after it. */
  lemma SplitAtSpace(a: string, c: char, b: string)
    requires IsSpace(c)
    ensures Split(a + [c] + b) == Split(a) + Split(b)
  {
    SplitFromAtSpace(a, c, b, "");
  }

  /** A text made only of whitespace has no words and normalises to the
      empty text. */
  lemma {:induction false} BlankCollapsesToEmpty(s: string)
    requires forall i :: 0 <= i < |s| ==> IsSpace(s[i])
    ensures Split(s) == [] && Collapse(s) == ""
    decreases |s|
  {
    if |s| > 0 {
      BlankCollapsesToEmpty(s[1..]);
    }
  }

  /** Normalising twice is normalising once. */
  lemma CollapseIdempotent(s: string)
    ensures Collapse(Collapse(s)) == Collapse(s)
  {
  }

  lemma {:induction false} SqueezeAppend(a: string, b: string)
    ensures Squeeze(a + b) == Squeeze(a) + Squeeze(b)
    decreases |a|
  {
    if |a| > 0 {
      assert (a + b)[1..] == a[1..] + b;
      SqueezeAppend(a[1..], b);
    } else {
      assert a + b == b;
    }
  }

  lemma {:induction false} SqueezeNoSpace(w: string)
    requires NoSpace(w)
    ensures Squeeze(w) == w
    decreases |w|
  {
    if |w| > 0 {
      SqueezeNoSpace(w[1..]);
      assert w == [w[0]] + w[1..];
    }
  }

  /** The concatenation of `words`. */
  function Concat(words: seq<string>): string {
    if |words| == 0 then "" else words[0] + Concat(words[1..])
  }

  lemma {:induction false} ConcatAppend(a: seq<string>, b: seq<string>)
    ensures Concat(a + b) == Concat(a) + Concat(b)
    decreases |a|
  {
    if |a| > 0 {
      assert (a + b)[1..] == a[1..] + b;
      ConcatAppend(a[1..], b);
    } else {
      assert a + b == b;
    }
  }

  /** The words read from `s` spell out the non-whitespace characters of `s`. */
  lemma {:induction false} SplitFromSqueeze(s: string, pending: string)
    requires NoSpace(pending)
    ensures Concat(SplitFrom(s, pending)) == pending + Squeeze(s)
    decreases |s|
  {
    if |s| == 0 {
    } else if IsSpace(s[0]) {
      SplitFromSqueeze(s[1..], "");
      ConcatAppend(Flush(pending), SplitFrom(s[1..], ""));
    } else {
      SplitFromSqueeze(s[1..], pending + [s[0]]);
    }
  }

  lemma {:induction false} JoinSqueeze(words: seq<string>)
    requires AllWords(words)
    ensures Squeeze(Join(words, " ")) == Concat(words)
  {
    if |words| == 1 {
      SqueezeNoSpace(words[0]);
    } else if |words| > 1 {
      var w, rest := words[0], Join(words[1..], " ");
      assert Join(words, " ") == w + (" " + rest);
      SqueezeAppend(w, " " + rest);
      SqueezeAppend(" ", rest);
      SqueezeNoSpace(w);
      assert Squeeze(" ") == "";
      JoinSqueeze(words[1..]);
      assert Squeeze(" " + rest) == Concat(words[1..]);
    }
  }

  /** Normalisation changes whitespace only: the non-whitespace characters of
      the text survive, in order, and no other character appears. */
  lemma CollapseKeepsContent(s: string)
    ensures Squeeze(Collapse(s)) == Squeeze(s)
  {
    JoinSqueeze(Split(s));
    SplitFromSqueeze(s, "");
  }

  /** A suffix of a normalised text that starts on a non-space is normalised. */
  lemma CollapsedSuffix(t: string, i: nat)
    requires Collapsed(t) && i < |t| && !IsSpace(t[i])
    ensures Collapsed(t[i..])
  {
  }

  lemma {:induction false} JoinSplitFromCollapsed(s: string, pending: string)
    requires NoSpace(pending) && Collapsed(pending + s)
    requires pending != "" || s == "" || !IsSpace(s[0])
    ensures Join(SplitFrom(s, pending), " ") == pending + s
    decreases |s|
  {
    var t := pending + s;
    if |s| == 0 {
      assert t == pending;
    } else if IsSpace(s[0]) {
      assert t[|pending|] == s[0];
      assert |pending| < |t| - 1;
      assert s[0] == ' ';
      assert t[|pending| + 1] == s[1];
      assert !IsSpace(s[1]);
      assert t[|pending| + 1..] == s[1..];
      CollapsedSuffix(t, |pending| + 1);
      assert "" + s[1..] == s[1..];
      JoinSplitFromCollapsed(s[1..], "");
      var rest := SplitFrom(s[1..], "");
      assert |rest| > 0;
      assert Join([pending] + rest, " ") == pending + " " + Join(rest, " ");
      assert s == " " + s[1..];
    } else {
      assert pending + [s[0]] + s[1..] == t;
      JoinSplitFromCollapsed(s[1..], pending + [s[0]]);
    }
  }

  /** The texts that normalisation leaves unchanged are exactly the texts of
      the shape `Collapsed`. */
  lemma CollapseFixedPoints(t: string)
    ensures Collapse(t) == t <==> Collapsed(t)
  {
    if Collapsed(t) {
      assert "" + t == t;
      JoinSplitFromCollapsed(t, "");
    }
  }
}
