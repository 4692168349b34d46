/** Removal of the sub-word continuation marker `##` from an entity's surface
    text (`word.replace('##', '')`). */
module Subword {

  /** The two-character continuation marker a WordPiece tokenizer puts in
      front of a sub-word piece. */
  const Marker: string := "##"

  /** `s` contains the marker at some position. */
  predicate HasMarker(s: string) {
    exists i :: 0 <= i < |s| - 1 && s[i] == '#' && s[i + 1] == '#'
  }

  /** `s` with every `#` deleted: the part of a text that marker removal must
      leave untouched. */
  function Unhashed(s: string): string {
    if |s| == 0 then ""
    else (if s[0] == '#' then "" else [s[0]]) + Unhashed(s[1..])
  }

  /** Python's `s.replace('##', '')`: scanning left to right, every
      non-overlapping occurrence of the marker is deleted. Characters are only
      ever deleted in pairs, and a first character other than `#` stays first. */
  function RemoveMarker(s: string): (r: string)
    ensures |r| <= |s| && (|s| - |r|) % 2 == 0
    ensures |s| > 0 && s[0] != '#' ==> |r| > 0 && r[0] == s[0]
    decreases |s|
  {
    if |s| >= 2 && s[..2] == Marker then RemoveMarker(s[2..])
    else if |s| == 0 then s
    else [s[0]] + RemoveMarker(s[1..])
  }

  /** No marker survives the removal, although deleting one occurrence joins
      the characters on either side of it. */
  lemma {:induction false} RemoveMarkerLeavesNone(s: string)
    ensures !HasMarker(RemoveMarker(s))
    decreases |s|
  {
    if |s| >= 2 && s[..2] == Marker {
      RemoveMarkerLeavesNone(s[2..]);
    } else if |s| > 0 {
      var rest := RemoveMarker(s[1..]);
      RemoveMarkerLeavesNone(s[1..]);
      var r := [s[0]] + rest;
      assert RemoveMarker(s) == r;
      forall i | 0 <= i < |r| - 1
        ensures !(r[i] == '#' && r[i + 1] == '#')
      {
        if i > 0 {
          assert r[i] == rest[i - 1] && r[i + 1] == rest[i];
        } else if s[0] == '#' {
          assert s[1] != '#';
          assert r[1] == s[1];
        }
      }
    }
  }

  /** Every character other than `#` is kept, in order, and nothing else is
      inserted. */
  lemma {:induction false} RemoveMarkerKeepsText(s: string)
    ensures Unhashed(RemoveMarker(s)) == Unhashed(s)
    decreases |s|
  {
    if |s| >= 2 && s[..2] == Marker {
      RemoveMarkerKeepsText(s[2..]);
      assert s[1..][1..] == s[2..];
    } else if |s| > 0 {
      RemoveMarkerKeepsText(s[1..]);
      assert ([s[0]] + RemoveMarker(s[1..]))[1..] == RemoveMarker(s[1..]);
    }
  }

  /** A text without the marker comes back unchanged. */
  lemma {:induction false} RemoveMarkerUnchanged(s: string)
    requires !HasMarker(s)
    ensures RemoveMarker(s) == s
    decreases |s|
  {
    if |s| > 0 {
      if |s| >= 2 {
        assert !(s[0] == '#' && s[1] == '#');
        assert s[..2][0] == s[0] && s[..2][1] == s[1];
      }
      forall i | 0 <= i < |s[1..]| - 1
        ensures !(s[1..][i] == '#' && s[1..][i + 1] == '#')
      {
        assert s[1..][i] == s[i + 1] && s[1..][i + 1] == s[i + 2];
      }
      RemoveMarkerUnchanged(s[1..]);
      assert s == [s[0]] + s[1..];
    }
  }

  /** Cleaning a word twice is cleaning it once. */
  lemma RemoveMarkerIdempotent(s: string)
    ensures RemoveMarker(RemoveMarker(s)) == RemoveMarker(s)
  {
    RemoveMarkerLeavesNone(s);
    RemoveMarkerUnchanged(RemoveMarker(s));
  }
}
