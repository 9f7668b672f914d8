/** Python's `str.split(sep)` over strings, as the
    classifier of observation lines uses them. */
module Text {
  import opened Options

  /** `sep` occurs in `s` starting at index `i`. */
  predicate OccursAt(s: string, sep: string, i: nat)
  {
    i + |sep| <= |s| && s[i..i + |sep|] == sep
  }

  /** `sep` occurs nowhere in `s`. */
  predicate Free(s: string, sep: string)
  {
    forall j: nat :: j < |s| ==> !OccursAt(s, sep, j)
  }

  /** The first occurrence of `sep` in `s` at or after index `i`. */
  function FindFrom(s: string, sep: string, i: nat): (r: Option<nat>)
    requires |sep| > 0
    ensures r.Some? ==> i <= r.value && OccursAt(s, sep, r.value)
    ensures r.Some? ==> forall j: nat :: i <= j < r.value ==> !OccursAt(s, sep, j)
    ensures r.None? ==> forall j: nat :: i <= j < |s| ==> !OccursAt(s, sep, j)
    decreases |s| - i
  {
    if i + |sep| > |s| then None
    else if OccursAt(s, sep, i) then Some(i)
    else FindFrom(s, sep, i + 1)
  }

  /** Python's `s.split(sep)` for a non-empty separator: the pieces between
      the leftmost non-overlapping occurrences of `sep`. */
  function Split(s: string, sep: string): (r: seq<string>)
    requires |sep| > 0
    ensures |r| >= 1
    decreases |s|
  {
    match FindFrom(s, sep, 0)
    case None => [s]
    case Some(k) =>
      [s[..k]] + Split(s[k + |sep|..], sep)
  }

  /** Python's `sep.join(parts)`. */
  function Join(parts: seq<string>, sep: string): string
    requires |parts| >= 1
  {
    if |parts| == 1 then parts[0] else parts[0] + sep + Join(parts[1..], sep)
  }

  /** Splitting loses nothing: joining the pieces back gives the input. */
  lemma {:induction false} JoinSplit(s: string, sep: string)
    requires |sep| > 0
    ensures Join(Split(s, sep), sep) == s
    decreases |s|
  {
    match FindFrom(s, sep, 0)
    case None =>
    case Some(k) =>
      var rest := s[k + |sep|..];
      var parts := Split(rest, sep);
      JoinSplit(rest, sep);
      assert Split(s, sep) == [s[..k]] + parts;
      assert ([s[..k]] + parts)[1..] == parts;
      assert s[k..k + |sep|] == sep;
      assert s == s[..k] + s[k..k + |sep|] + rest;
  }

  /** One step of the split: the piece before the first separator, then
      the split of the remainder. */
  lemma SplitAt(s: string, sep: string, k: nat)
    requires |sep| > 0
    requires FindFrom(s, sep, 0) == Some(k)
    ensures Split(s, sep) == [s[..k]] + Split(s[k + |sep|..], sep)
  {
  }

  /** The first piece reaches up to the leftmost occurrence of the
      separator: when there is a second piece, the separator occurs right
      after the first piece and nowhere before. */
  lemma SplitFirstCut(s: string, sep: string)
    requires |sep| > 0
    ensures var p := Split(s, sep);
            |p| >= 2 ==> OccursAt(s, sep, |p[0]|) && forall j: nat :: j < |p[0]| ==> !OccursAt(s, sep, j)
  {
  }

  /** A string that begins with `name + sep`, where `name` contains no
      character of `sep` at all, has its first separator right after `name`. */
  lemma FindAfterName(s: string, name: string, sep: string)
    requires |sep| > 0
    requires name + sep <= s
    requires forall c :: c in name ==> c != sep[0]
    ensures FindFrom(s, sep, 0) == Some(|name|)
  {
    assert OccursAt(s, sep, |name|);
    forall j: nat | j < |name|
      ensures !OccursAt(s, sep, j)
    {
      assert s[j] == name[j] && name[j] in name;
      assert j + |sep| <= |s| ==> s[j..j + |sep|][0] == s[j] != sep[0];
    }
  }

  /** ... so its first piece is `name` and the rest is the split of what
      follows the separator. */
  lemma SplitAfterName(s: string, name: string, sep: string)
    requires |sep| > 0
    requires name + sep <= s
    requires forall c :: c in name ==> c != sep[0]
    ensures Split(s, sep) == [name] + Split(s[|name + sep|..], sep)
  {
    FindAfterName(s, name, sep);
    SplitAt(s, sep, |name|);
    assert s[..|name|] == name;
    assert |name| + |sep| == |name + sep|;
  }

  /** No piece of a split contains the separator. */
  lemma {:induction false} SplitPiecesFree(s: string, sep: string)
    requires |sep| > 0
    ensures forall i :: 0 <= i < |Split(s, sep)| ==> Free(Split(s, sep)[i], sep)
    decreases |s|
  {
    match FindFrom(s, sep, 0)
    case None =>
    case Some(k) =>
      var head := s[..k];
      var rest := s[k + |sep|..];
      SplitPiecesFree(rest, sep);
      assert forall j: nat :: j < |head| && OccursAt(head, sep, j) ==> OccursAt(s, sep, j);
      assert Split(s, sep) == [head] + Split(rest, sep);
  }

  /** A string without the separator splits into itself alone. */
  lemma SplitOfFree(s: string, sep: string)
    requires |sep| > 0
    requires Free(s, sep)
    ensures Split(s, sep) == [s]
  {
    assert FindFrom(s, sep, 0).None?;
  }

  /** The split yields a single piece exactly when the separator does not
      occur. */
  lemma SplitOnceIffFree(s: string, sep: string)
    requires |sep| > 0
    ensures |Split(s, sep)| == 1 <==> Free(s, sep)
  {
    match FindFrom(s, sep, 0)
    case None =>
      SplitOfFree(s, sep);
    case Some(k) =>
      assert !Free(s, sep) by {
        assert OccursAt(s, sep, k) && k < |s|;
      }
  }

  /** A string that lacks the separator's first character does not contain
      the separator. */
  lemma FreeOfMissingChar(s: string, sep: string)
    requires |sep| > 0
    requires sep[0] !in s
    ensures Free(s, sep)
  {
    forall j: nat | j < |s|
      ensures !OccursAt(s, sep, j)
    {
      assert s[j] in s;
      assert j + |sep| <= |s| ==> s[j..j + |sep|][0] == s[j];
    }
  }

  /** Every character of a piece comes from the string that was split. */
  lemma {:induction false} PiecesWithin(s: string, sep: string, c: char)
    requires |sep| > 0
    requires c !in s
    ensures forall i :: 0 <= i < |Split(s, sep)| ==> c !in Split(s, sep)[i]
    decreases |s|
  {
    match FindFrom(s, sep, 0)
    case None =>
    case Some(k) =>
      var rest := s[k + |sep|..];
      assert forall x :: x in rest ==> x in s;
      assert forall x :: x in s[..k] ==> x in s;
      PiecesWithin(rest, sep, c);
      assert Split(s, sep) == [s[..k]] + Split(rest, sep);
  }
}
