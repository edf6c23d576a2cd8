/** Counting the elements of a sequence that satisfy a predicate. */
module Counting {

  /** The number of positions of `s` whose element satisfies `p`. */
  function CountWhere<T>(s: seq<T>, p: T -> bool): nat {
    |set i | 0 <= i < |s| && p(s[i])|
  }

  /** Appending one element adds one to the count exactly when it satisfies `p`. */
  lemma CountWhereSnoc<T>(s: seq<T>, x: T, p: T -> bool)
    ensures CountWhere(s + [x], p) == CountWhere(s, p) + (if p(x) then 1 else 0)
  {
    var t := s + [x];
    var a := set i | 0 <= i < |t| && p(t[i]);
    var b := set i | 0 <= i < |s| && p(s[i]);
    if p(x) {
      assert a == b + {|s|};
    } else {
      assert a == b;
    }
  }

  lemma CountWhereEmpty<T>(s: seq<T>, p: T -> bool)
    requires |s| == 0
    ensures CountWhere(s, p) == 0
  {
    assert (set i | 0 <= i < |s| && p(s[i])) == {};
  }

  /** A weaker predicate counts at least as many elements. */
  lemma CountWhereMonotone<T>(s: seq<T>, p: T -> bool, q: T -> bool)
    requires forall i :: 0 <= i < |s| && p(s[i]) ==> q(s[i])
    ensures CountWhere(s, p) <= CountWhere(s, q)
  {
    var a := set i | 0 <= i < |s| && p(s[i]);
    var b := set i | 0 <= i < |s| && q(s[i]);
    assert b == a + (b - a);
    assert a * (b - a) == {};
  }

  /** Counting with a predicate that is the exclusive union of two others adds their counts. */
  lemma CountWhereSplit<T>(s: seq<T>, p: T -> bool, q: T -> bool, both: T -> bool)
    requires forall i :: 0 <= i < |s| ==> (both(s[i]) <==> p(s[i]) || q(s[i]))
    requires forall i :: 0 <= i < |s| ==> !(p(s[i]) && q(s[i]))
    ensures CountWhere(s, both) == CountWhere(s, p) + CountWhere(s, q)
  {
    var a := set i | 0 <= i < |s| && p(s[i]);
    var b := set i | 0 <= i < |s| && q(s[i]);
    var c := set i | 0 <= i < |s| && both(s[i]);
    assert c == a + b;
    assert a * b == {};
  }

  /** Predicates that agree on every element give the same count. */
  lemma CountWhereCongruent<T>(s: seq<T>, p: T -> bool, q: T -> bool)
    requires forall i :: 0 <= i < |s| ==> (p(s[i]) <==> q(s[i]))
    ensures CountWhere(s, p) == CountWhere(s, q)
  {
    assert (set i | 0 <= i < |s| && p(s[i])) == (set i | 0 <= i < |s| && q(s[i]));
  }

  /** No more elements are counted than there are. */
  lemma {:induction false} CountWhereBound<T>(s: seq<T>, p: T -> bool)
    ensures CountWhere(s, p) <= |s|
    decreases |s|
  {
    if |s| == 0 {
      CountWhereEmpty(s, p);
    } else {
      var init := s[..|s| - 1];
      assert s == init + [s[|s| - 1]];
      CountWhereBound(init, p);
      CountWhereSnoc(init, s[|s| - 1], p);
    }
  }
}
