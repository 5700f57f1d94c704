/**
 * The part of JavaScript's `String.prototype.split` that the source relies on:
 * splitting on a NON-EMPTY string separator. Occurrences are found from left to
 * right and never overlap; text between them (possibly empty) becomes a part.
 */
module JsString {

  /** `sep` occurs in `s` starting at index `i`. */
  predicate OccursAt(s: string, sep: string, i: int) {
    0 <= i && i + |sep| <= |s| && s[i..i + |sep|] == sep
  }

  /** `s.split(sep)` for a non-empty separator `sep`. */
  function Split(s: string, sep: string): (parts: seq<string>)
    requires sep != []
    ensures |parts| >= 1
    decreases |s|
  {
    if |s| < |sep| then [s]
    else if sep <= s then [[]] + Split(s[|sep|..], sep)
    else
      var rest := Split(s[1..], sep);
      [[s[0]] + rest[0]] + rest[1..]
  }

  /** `parts.join(sep)`: the inverse of `Split`. */
  function Join(parts: seq<string>, sep: string): string
    requires |parts| >= 1
    decreases |parts|
  {
    if |parts| == 1 then parts[0] else parts[0] + sep + Join(parts[1..], sep)
  }

  /** Extending the first part by one character extends the joined string. */
  lemma {:induction false} JoinExtendFirst(c: char, parts: seq<string>, sep: string)
    requires |parts| >= 1
    ensures Join([[c] + parts[0]] + parts[1..], sep) == [c] + Join(parts, sep)
  {
    var ext := [[c] + parts[0]] + parts[1..];
    assert ext[1..] == parts[1..];
    if |parts| > 1 {
      assert Join(ext, sep) == [c] + parts[0] + sep + Join(parts[1..], sep);
    }
  }

  /** Joining the parts with the separator gives back the split string. */
  lemma {:induction false} JoinSplit(s: string, sep: string)
    requires sep != []
    ensures Join(Split(s, sep), sep) == s
    decreases |s|
  {
    if |s| < |sep| {
    } else if sep <= s {
      var rest := Split(s[|sep|..], sep);
      assert Split(s, sep) == [[]] + rest;
      JoinSplit(s[|sep|..], sep);
      assert Join([[]] + rest, sep) == [] + sep + Join(rest, sep);
      assert s == sep + s[|sep|..];
    } else {
      var rest := Split(s[1..], sep);
      assert Split(s, sep) == [[s[0]] + rest[0]] + rest[1..];
      JoinSplit(s[1..], sep);
      JoinExtendFirst(s[0], rest, sep);
      assert s == [s[0]] + s[1..];
    }
  }

  /** Occurrences in a suffix are occurrences in the whole string, shifted. */
  lemma OccursInSuffix(s: string, sep: string, d: nat, k: int)
    requires d <= |s|
    ensures OccursAt(s[d..], sep, k) <==> k >= 0 && OccursAt(s, sep, k + d)
  {
    if 0 <= k && k + |sep| <= |s| - d {
      assert s[d..][k..k + |sep|] == s[k + d..k + d + |sep|];
    }
  }

  /** A string in which the separator does not occur is split into itself alone. */
  lemma {:induction false} SplitWithoutOccurrence(s: string, sep: string)
    requires sep != []
    requires forall k :: !OccursAt(s, sep, k)
    ensures Split(s, sep) == [s]
    decreases |s|
  {
    if |s| < |sep| {
    } else {
      assert !OccursAt(s, sep, 0);
      assert !(sep <= s) by { assert s[0..|sep|] == s[..|sep|]; }
      forall k ensures !OccursAt(s[1..], sep, k) {
        OccursInSuffix(s, sep, 1, k);
      }
      SplitWithoutOccurrence(s[1..], sep);
      assert [s[0]] + s[1..] == s;
    }
  }

  /** An occurrence of the separator yields at least two parts. */
  lemma {:induction false} SplitAtOccurrence(s: string, sep: string, i: int)
    requires sep != []
    requires OccursAt(s, sep, i)
    ensures |Split(s, sep)| >= 2
    decreases |s|
  {
    if sep <= s {
    } else {
      assert i != 0 by { assert s[0..|sep|] == s[..|sep|]; }
      OccursInSuffix(s, sep, 1, i - 1);
      SplitAtOccurrence(s[1..], sep, i - 1);
    }
  }

  /** Two occurrences that do not overlap yield at least three parts. */
  lemma {:induction false} SplitAtTwoOccurrences(s: string, sep: string, i: int, j: int)
    requires sep != []
    requires OccursAt(s, sep, i) && OccursAt(s, sep, j) && i + |sep| <= j
    ensures |Split(s, sep)| >= 3
    decreases |s|
  {
    if sep <= s {
      OccursInSuffix(s, sep, |sep|, j - |sep|);
      SplitAtOccurrence(s[|sep|..], sep, j - |sep|);
    } else {
      assert i != 0 by { assert s[0..|sep|] == s[..|sep|]; }
      OccursInSuffix(s, sep, 1, i - 1);
      OccursInSuffix(s, sep, 1, j - 1);
      SplitAtTwoOccurrences(s[1..], sep, i - 1, j - 1);
    }
  }

  /** A single occurrence at `i` splits `s` into the text before and after it. */
  lemma {:induction false} SplitAtUniqueOccurrence(s: string, sep: string, i: int)
    requires sep != []
    requires OccursAt(s, sep, i)
    requires forall k :: OccursAt(s, sep, k) ==> k == i
    ensures Split(s, sep) == [s[..i], s[i + |sep|..]]
    decreases |s|
  {
    if sep <= s {
      assert OccursAt(s, sep, 0) by { assert s[0..|sep|] == s[..|sep|]; }
      var t := s[|sep|..];
      forall k ensures !OccursAt(t, sep, k) {
        OccursInSuffix(s, sep, |sep|, k);
      }
      SplitWithoutOccurrence(t, sep);
    } else {
      assert i != 0 by { assert s[0..|sep|] == s[..|sep|]; }
      var t := s[1..];
      OccursInSuffix(s, sep, 1, i - 1);
      forall k | OccursAt(t, sep, k) ensures k == i - 1 {
        OccursInSuffix(s, sep, 1, k);
      }
      SplitAtUniqueOccurrence(t, sep, i - 1);
      assert [s[0]] + t[..i - 1] == s[..i];
    }
  }

  /** `s.split(';').shift()`: the text of `s` up to its first `;`, or all of `s`. */
  function FirstField(s: string): string {
    Split(s, ";")[0]
  }

  /** The first field is the longest prefix of `s` that holds no `;`. */
  lemma {:induction false} FirstFieldIsPrefixUpToSemicolon(s: string)
    ensures FirstField(s) <= s
    ensures ';' !in FirstField(s)
    ensures |FirstField(s)| < |s| ==> s[|FirstField(s)|] == ';'
    ensures ';' !in s ==> FirstField(s) == s
    decreases |s|
  {
    if |s| < 1 {
    } else if ";" <= s {
    } else {
      FirstFieldIsPrefixUpToSemicolon(s[1..]);
      assert s[0] != ';' by { assert [s[0]] == s[..1]; }
      assert FirstField(s) == [s[0]] + FirstField(s[1..]);
    }
  }
}
