/** Shared vocabulary of the link-browser model: optional values, results,
    the two exceptions the worker can raise, and the character-level notions
    (ASCII case folding, newline-freedom) the regular expressions rely on. */
module Base {

  datatype Option<+T> = None | Some(value: T)

  datatype Result<+T, +E> = Ok(value: T) | Err(error: E)

  /** The exceptions that escape the worker.
      `UnpackError(found)`: unpacking the list of captures into a single
      variable met `found` captures instead of one (Python's ValueError).
      `HistoryMissing`: the configured history file could not be opened for
      reading (Python's FileNotFoundError).
      `LinkFileMissing`: the created file was gone when the handler opened
      it (also FileNotFoundError). */
  datatype Fault = UnpackError(found: nat) | HistoryMissing | LinkFileMissing

  /** ASCII lower-casing: the case folding `re.IGNORECASE` applies to the
      characters this model cares about. */
  function Fold(c: char): (r: char)
    ensures r == '\n' <==> c == '\n'
    ensures 'a' <= c <= 'z' ==> r == c
    ensures !('A' <= c <= 'Z') ==> r == c
  {
    if 'A' <= c <= 'Z' then (c as int + 32) as char else c
  }

  /** Two characters are equal when case is ignored. */
  predicate SameFold(a: char, b: char) {
    Fold(a) == Fold(b)
  }

  /** `w` lies within one line. */
  predicate NoNewline(w: string) {
    forall k :: 0 <= k < |w| ==> w[k] != '\n'
  }

  /** `w` equals the literal `x`, ignoring case. */
  predicate FoldEquals(x: string, w: string) {
    |w| == |x| && forall k :: 0 <= k < |w| ==> SameFold(x[k], w[k])
  }

  /** Comparing `x` with `w`, ignoring case only when `ignoreCase` holds. */
  predicate LitEquals(x: string, w: string, ignoreCase: bool) {
    if ignoreCase then FoldEquals(x, w) else w == x
  }

  lemma SameFoldIsEquivalence(a: char, b: char, c: char)
    ensures SameFold(a, a)
    ensures SameFold(a, b) ==> SameFold(b, a)
    ensures SameFold(a, b) && SameFold(b, c) ==> SameFold(a, c)
  {
  }

  /** Case folding never turns a line into two, nor two lines into one. */
  lemma NoNewlineRespectsFold(x: string, w: string)
    requires FoldEquals(x, w)
    ensures NoNewline(x) <==> NoNewline(w)
  {
    forall k | 0 <= k < |w|
      ensures x[k] == '\n' <==> w[k] == '\n'
    {
      assert Fold(x[k]) == Fold(w[k]);
    }
  }

  lemma NoNewlineAppend(a: string, b: string)
    ensures NoNewline(a + b) <==> NoNewline(a) && NoNewline(b)
  {
    if NoNewline(a) && NoNewline(b) {
      forall k | 0 <= k < |a + b|
        ensures (a + b)[k] != '\n'
      {
        if k < |a| { assert (a + b)[k] == a[k]; } else { assert (a + b)[k] == b[k - |a|]; }
      }
    }
    if NoNewline(a + b) {
      forall k | 0 <= k < |a|
        ensures a[k] != '\n'
      {
        assert (a + b)[k] == a[k];
      }
      forall k | 0 <= k < |b|
        ensures b[k] != '\n'
      {
        assert (a + b)[|a| + k] == b[k];
      }
    }
  }

  lemma AppendAssoc<T>(a: seq<T>, b: seq<T>, c: seq<T>)
    ensures (a + b) + c == a + (b + c)
  {
  }
}
