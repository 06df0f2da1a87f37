/** First-match search in list order: the shape of every `for ... range` loop that returns early. */
module Search {
  import opened Wrappers

  /** The index of the first element satisfying `p`, or None when there is none. */
  function FindFirst<T>(s: seq<T>, p: T -> bool): (r: Option<nat>)
    ensures r.Some? ==> r.value < |s| && p(s[r.value])
    ensures r.Some? ==> forall j :: 0 <= j < r.value ==> !p(s[j])
    ensures r.None? <==> forall j :: 0 <= j < |s| ==> !p(s[j])
    decreases |s|
  {
    if |s| == 0 then None
    else if p(s[0]) then Some(0)
    else
      match FindFirst(s[1..], p)
      case None => None
      case Some(k) => Some(k + 1)
  }

  /** An index that satisfies `p` with no earlier one is what FindFirst finds. */
  lemma FindFirstAt<T>(s: seq<T>, p: T -> bool, i: nat)
    requires i < |s| && p(s[i])
    requires forall j :: 0 <= j < i ==> !p(s[j])
    ensures FindFirst(s, p) == Some(i)
  {
  }

  /** Once a match exists in `a`, nothing appended after `a` changes the result. */
  lemma FindFirstPrefix<T>(a: seq<T>, b: seq<T>, p: T -> bool)
    requires FindFirst(a, p).Some?
    ensures FindFirst(a + b, p) == FindFirst(a, p)
  {
    var i := FindFirst(a, p).value;
    assert (a + b)[i] == a[i];
    forall j | 0 <= j < i ensures !p((a + b)[j]) {
      assert (a + b)[j] == a[j];
    }
    FindFirstAt(a + b, p, i);
  }

  /** The same, for a sequence `w` that begins with `a`. */
  lemma FindFirstExtends<T>(a: seq<T>, w: seq<T>, p: T -> bool)
    requires |a| <= |w| && a == w[..|a|]
    requires FindFirst(a, p).Some?
    ensures FindFirst(w, p) == FindFirst(a, p)
  {
    assert w == a + w[|a|..];
    FindFirstPrefix(a, w[|a|..], p);
  }
}
