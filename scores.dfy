/** Search scores: the integers extended with the two infinities that the
    search uses as the initial running best and as the full window. */
module Scores {

  datatype Score = NegInf | Fin(n: int) | PosInf

  /** The order `<=` on extended integers. */
  predicate Leq(a: Score, b: Score)
  {
    a.NegInf? || b.PosInf? || (a.Fin? && b.Fin? && a.n <= b.n)
  }

  predicate Lt(a: Score, b: Score)
  {
    !Leq(b, a)
  }

  /** Python's `max(a, b)`: b only when it is strictly greater. */
  function Max(a: Score, b: Score): (r: Score)
    ensures Leq(a, r) && Leq(b, r)
    ensures r == a || r == b
  {
    if Lt(a, b) then b else a
  }

  /** Python's `min(a, b)`: b only when it is strictly smaller. */
  function Min(a: Score, b: Score): (r: Score)
    ensures Leq(r, a) && Leq(r, b)
    ensures r == a || r == b
  {
    if Lt(b, a) then b else a
  }

  /** Leq is a total order. */
  lemma LeqTotalOrder(a: Score, b: Score, c: Score)
    ensures Leq(a, a)
    ensures Leq(a, b) || Leq(b, a)
    ensures Leq(a, b) && Leq(b, a) ==> a == b
    ensures Leq(a, b) && Leq(b, c) ==> Leq(a, c)
  {
  }

  /** The maximum of a list of scores, folded front to back from minus
      infinity with Max. */
  function MaxOf(s: seq<Score>): Score
  {
    if s == [] then NegInf else Max(MaxOf(s[..|s| - 1]), s[|s| - 1])
  }

  /** The minimum of a list of scores, folded front to back from plus
      infinity with Min. */
  function MinOf(s: seq<Score>): Score
  {
    if s == [] then PosInf else Min(MinOf(s[..|s| - 1]), s[|s| - 1])
  }

  /** MaxOf is an upper bound of the list that is attained, or minus
      infinity for the empty list. */
  lemma {:induction false} MaxOfIsMax(s: seq<Score>)
    ensures forall k :: 0 <= k < |s| ==> Leq(s[k], MaxOf(s))
    ensures s == [] ==> MaxOf(s) == NegInf
    ensures s != [] ==> MaxOf(s) in s
  {
    if s != [] {
      var init := s[..|s| - 1];
      MaxOfIsMax(init);
      assert forall k :: 0 <= k < |init| ==> init[k] == s[k];
      if init != [] {
        var k :| 0 <= k < |init| && init[k] == MaxOf(init);
        assert s[k] == MaxOf(init);
      }
    }
  }

  /** MinOf is a lower bound of the list that is attained, or plus infinity
      for the empty list. */
  lemma {:induction false} MinOfIsMin(s: seq<Score>)
    ensures forall k :: 0 <= k < |s| ==> Leq(MinOf(s), s[k])
    ensures s == [] ==> MinOf(s) == PosInf
    ensures s != [] ==> MinOf(s) in s
  {
    if s != [] {
      var init := s[..|s| - 1];
      MinOfIsMin(init);
      assert forall k :: 0 <= k < |init| ==> init[k] == s[k];
      if init != [] {
        var k :| 0 <= k < |init| && init[k] == MinOf(init);
        assert s[k] == MinOf(init);
      }
    }
  }

  /** One more element folds into the running maximum. */
  lemma MaxOfNext(s: seq<Score>, k: nat)
    requires k < |s|
    ensures MaxOf(s[..k + 1]) == Max(MaxOf(s[..k]), s[k])
  {
    assert s[..k + 1][..k] == s[..k];
  }

  /** One more element folds into the running minimum. */
  lemma MinOfNext(s: seq<Score>, k: nat)
    requires k < |s|
    ensures MinOf(s[..k + 1]) == Min(MinOf(s[..k]), s[k])
  {
    assert s[..k + 1][..k] == s[..k];
  }

  /** A prefix never has a larger maximum. */
  lemma MaxOfPrefix(s: seq<Score>, k: nat)
    requires k <= |s|
    ensures Leq(MaxOf(s[..k]), MaxOf(s))
  {
    MaxOfIsMax(s[..k]);
    MaxOfIsMax(s);
    if k > 0 {
      var i :| 0 <= i < k && s[..k][i] == MaxOf(s[..k]);
      assert s[i] == MaxOf(s[..k]);
    }
  }

  /** A prefix never has a smaller minimum. */
  lemma MinOfPrefix(s: seq<Score>, k: nat)
    requires k <= |s|
    ensures Leq(MinOf(s), MinOf(s[..k]))
  {
    MinOfIsMin(s[..k]);
    MinOfIsMin(s);
    if k > 0 {
      var i :| 0 <= i < k && s[..k][i] == MinOf(s[..k]);
      assert s[i] == MinOf(s[..k]);
    }
  }
}
