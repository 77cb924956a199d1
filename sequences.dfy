/**
 * Facts about sequences that the game's backward scans rely on: a scan that has handled
 * every element after index i holds the untouched prefix up to i followed by the outcome
 * for the suffix.
 */
module Sequences {

  /** Handling element i of such a scan either drops it (splice) or replaces it in place; in
      both cases the result is the shorter prefix followed by the new outcome. */
  lemma {:induction false} ScanStep<T>(a: seq<T>, rest: seq<T>, i: nat, x: T)
    requires i < |a|
    ensures (a[..i + 1] + rest)[i] == a[i]
    ensures (a[..i + 1] + rest)[..i] + (a[..i + 1] + rest)[i + 1..] == a[..i] + rest
    ensures (a[..i + 1] + rest)[i := x] == a[..i] + ([x] + rest)
  {
    var s := a[..i + 1] + rest;
    assert s[..i] == a[..i];
    assert s[i + 1..] == rest;
  }
}
