/** Small vocabulary shared by every part of the model. */
module Common {

  datatype Option<+T> = None | Some(value: T)

  /** The outcome of one request: a value, or the HTTP status the service answers with. */
  datatype Outcome<+T> = Ok(value: T) | Rejected(code: int)

  /** A sequence has no repeated element. */
  ghost predicate Distinct<T(!new)>(s: seq<T>) {
    forall i, j :: 0 <= i < j < |s| ==> s[i] != s[j]
  }

  function Elements<T>(s: seq<T>): (r: set<T>)
  {
    set x | x in s
  }

  /** A sequence covers as many elements as it has positions exactly when nothing repeats. */
  lemma {:induction false} DistinctCount<T(!new)>(s: seq<T>)
    ensures |Elements(s)| <= |s|
    ensures |Elements(s)| == |s| <==> Distinct(s)
  {
    if |s| > 0 {
      var init, last := s[..|s| - 1], s[|s| - 1];
      DistinctCount(init);
      assert s == init + [last];
      assert Elements(s) == Elements(init) + {last};
      if last in init {
        assert Elements(s) == Elements(init);
        var k :| 0 <= k < |init| && init[k] == last;
        assert s[k] == s[|s| - 1];
      } else {
        assert forall i, j :: 0 <= i < j < |s| && j < |s| - 1 ==> s[i] == init[i] && s[j] == init[j];
        if !Distinct(init) {
          var i, j :| 0 <= i < j < |init| && init[i] == init[j];
          assert s[i] == s[j];
        }
      }
    }
  }

  /** A subset with at least as many elements is the whole set. */
  lemma SubsetOfSameSize<T>(small: set<T>, large: set<T>)
    requires small <= large && |large| <= |small|
    ensures small == large
  {
    var rest := large - small;
    assert large == small + rest;
    assert |large| == |small| + |rest|;
  }
}
