/** Values shared by the other modules: optional values and C strings. */
module Base {

  datatype Option<+T> = None | Some(value: T)

  const NUL: char := '\0'

  /** The C string held in `s`: the characters before the first NUL, or all of
      `s` when it holds no NUL. */
  function CString(s: string): (r: string)
    ensures r <= s && NUL !in r
    ensures |r| < |s| ==> s[|r|] == NUL
  {
    if s == [] || s[0] == NUL then [] else [s[0]] + CString(s[1..])
  }

  /** A buffer with a NUL at `n` holds a C string that ends there or earlier. */
  lemma {:induction false} CStringOfBuffer(s: string, n: nat)
    requires n < |s| && s[n] == NUL
    ensures CString(s) == CString(s[..n])
  {
    if n > 0 && s[0] != NUL {
      CStringOfBuffer(s[1..], n - 1);
      assert s[1..][..n - 1] == s[..n][1..];
    }
  }

  /** Where strchr would find `c`: the first index of `c`, or None. */
  function IndexOf(s: string, c: char): (r: Option<nat>)
    ensures r.None? <==> c !in s
    ensures r.Some? ==> r.value < |s| && s[r.value] == c && c !in s[..r.value]
  {
    if s == [] then None
    else if s[0] == c then Some(0)
    else match IndexOf(s[1..], c) case None => None case Some(i) => Some(i + 1)
  }
}
