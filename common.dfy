/** Option and Result, and the `filter(...).findFirst()` idiom of Java streams. */
module Common {

  datatype Option<+T> = None | Some(value: T)

  datatype Result<+T, +E> = Ok(value: T) | Err(error: E)

  /** The first element of `xs` that satisfies `p`, as `stream().filter(p).findFirst()`. */
  function FindFirst<T>(xs: seq<T>, p: T -> bool): (r: Option<T>)
    ensures r.None? <==> forall i :: 0 <= i < |xs| ==> !p(xs[i])
    ensures r.Some? ==> exists k :: 0 <= k < |xs| && xs[k] == r.value && p(xs[k]) &&
                                    forall i :: 0 <= i < k ==> !p(xs[i])
  {
    if |xs| == 0 then None
    else if p(xs[0]) then Some(xs[0])
    else
      var r := FindFirst(xs[1..], p);
      assert forall i :: 1 <= i < |xs| ==> xs[i] == xs[1..][i - 1];
      r
  }

  /** FindFirst returns the element at the first index that satisfies `p`. */
  lemma {:induction false} FindFirstAt<T>(xs: seq<T>, p: T -> bool, k: nat)
    requires k < |xs| && p(xs[k])
    requires forall i :: 0 <= i < k ==> !p(xs[i])
    ensures FindFirst(xs, p) == Some(xs[k])
  {
    if k > 0 {
      FindFirstAt(xs[1..], p, k - 1);
    }
  }

  /** Searching a prefix of `xs` that reaches past the first hit finds that hit. */
  lemma FindFirstInPrefix<T>(pre: seq<T>, xs: seq<T>, p: T -> bool, k: nat)
    requires |pre| <= |xs| && pre == xs[..|pre|]
    requires k < |pre| && p(xs[k])
    requires forall i :: 0 <= i < k ==> !p(xs[i])
    ensures FindFirst(pre, p) == Some(xs[k])
  {
    FindFirstAt(pre, p, k);
  }

  /** Searching a prefix of a sequence with no hit finds nothing. */
  lemma FindNoneInPrefix<T>(pre: seq<T>, xs: seq<T>, p: T -> bool)
    requires |pre| <= |xs| && pre == xs[..|pre|]
    requires forall i :: 0 <= i < |xs| ==> !p(xs[i])
    ensures FindFirst(pre, p).None?
  {
    assert forall i :: 0 <= i < |pre| ==> pre[i] == xs[i];
  }
}
