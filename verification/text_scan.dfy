/** Scanning text for a separator character, as the readers of number and
    path text do. */
module TextScan {

  /** Index of the first `c` in `s`, or `|s|` when there is none. */
  function Span(s: string, c: char): (k: nat)
    ensures k <= |s|
    ensures forall i :: 0 <= i < k ==> s[i] != c
    ensures k < |s| ==> s[k] == c
  {
    if s == [] then 0
    else if s[0] == c then 0
    else 1 + Span(s[1..], c)
  }

  /** Scanning text that starts with a `c`-free part stops right after that part. */
  lemma SpanStopsAt(a: string, c: char, b: string)
    requires c !in a
    ensures Span(a + [c] + b, c) == |a|
  {
    var s := a + [c] + b;
    assert s[|a|] == c;
    assert forall i :: 0 <= i < |a| ==> s[i] == a[i];
  }

  /** Scanning text that has no `c` at all runs to its end. */
  lemma SpanRunsOut(a: string, c: char)
    requires c !in a
    ensures Span(a, c) == |a|
  {
  }
}
