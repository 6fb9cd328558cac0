/** Shared vocabulary: optional values for the source's nullable references,
    results for operations that throw, and the .NET string predicates the
    services call. */
module Common {

  /** A nullable reference (`T?` in the source). */
  datatype Option<+T> = None | Some(value: T) {
    /** The `??` operator: the value, or `default` when null. */
    function OrElse(default: T): T {
      match this
      case Some(v) => v
      case None => default
    }
  }

  /** Either a returned value or the exception that was thrown instead. */
  datatype Result<+T, +E> = Success(value: T) | Failure(error: E)

  /** The exceptions the modelled code throws itself. */
  datatype Exception =
    | ArgumentNullException(paramName: string)
    | InvalidOperationException(message: string)

  /** An unsigned 8-bit value (`byte`). */
  type byte = b: int | 0 <= b < 256

  /** `char.IsWhiteSpace`: the Unicode White_Space characters. */
  predicate IsWhiteSpace(c: char) {
    || ('\U{9}' <= c <= '\U{D}')
    || c == ' ' || c == '\U{85}' || c == '\U{A0}' || c == '\U{1680}'
    || ('\U{2000}' <= c <= '\U{200A}')
    || c == '\U{2028}' || c == '\U{2029}' || c == '\U{202F}' || c == '\U{205F}' || c == '\U{3000}'
  }

  /** `string.IsNullOrWhiteSpace` on a non-null string: empty or all white space. */
  predicate IsNullOrWhiteSpace(s: string) {
    forall i :: 0 <= i < |s| ==> IsWhiteSpace(s[i])
  }

  // ---------------------------------------------------------------------
  // First match (`FirstOrDefault` with a predicate)
  // ---------------------------------------------------------------------

  /** The index of the first element satisfying `p`, if any. */
  function FirstMatch<T>(s: seq<T>, p: T -> bool): (k: Option<nat>)
    ensures k.Some? ==> k.value < |s| && p(s[k.value])
    ensures k.Some? ==> forall j :: 0 <= j < k.value ==> !p(s[j])
    ensures k.None? ==> forall j :: 0 <= j < |s| ==> !p(s[j])
  {
    if |s| == 0 then None
    else if p(s[0]) then Some(0)
    else
      match FirstMatch(s[1..], p)
      case None => None
      case Some(j) => Some(j + 1)
  }

  /** Appending never hides an earlier match; the new element is the match only when
      nothing before it matches. */
  lemma {:induction false} FirstMatchAppend<T>(s: seq<T>, x: T, p: T -> bool)
    ensures FirstMatch(s + [x], p) ==
      if FirstMatch(s, p).Some? then FirstMatch(s, p)
      else if p(x) then Some(|s|)
      else None
  {
    if |s| > 0 {
      assert (s + [x])[1..] == s[1..] + [x];
      FirstMatchAppend(s[1..], x, p);
    }
  }

  /** Replacing an element by one that matches exactly when it did changes no match. */
  lemma {:induction false} FirstMatchUpdate<T>(s: seq<T>, k: nat, x: T, p: T -> bool)
    requires k < |s| && p(x) == p(s[k])
    ensures FirstMatch(s[k := x], p) == FirstMatch(s, p)
  {
    if k > 0 {
      assert s[k := x][1..] == s[1..][k - 1 := x];
      FirstMatchUpdate(s[1..], k - 1, x, p);
    }
  }
}
