/** Order-preserving selection from a sequence, as `Array.prototype.filter` does it. */
module Seqs {

  function Filter<T>(p: T -> bool, s: seq<T>): (r: seq<T>)
    ensures |r| <= |s|
    decreases |s|
  {
    if |s| == 0 then []
    else (if p(s[0]) then [s[0]] else []) + Filter(p, s[1..])
  }

  /** The selected elements are exactly the elements of `s` satisfying `p`. */
  lemma {:induction false} FilterMembers<T>(p: T -> bool, s: seq<T>)
    ensures forall i :: 0 <= i < |Filter(p, s)| ==> Filter(p, s)[i] in s && p(Filter(p, s)[i])
    ensures forall i :: 0 <= i < |s| && p(s[i]) ==> s[i] in Filter(p, s)
    ensures Filter(p, s) == [] <==> forall i :: 0 <= i < |s| ==> !p(s[i])
    decreases |s|
  {
    if |s| > 0 {
      FilterMembers(p, s[1..]);
      var head := if p(s[0]) then [s[0]] else [];
      assert Filter(p, s) == head + Filter(p, s[1..]);
      forall i | 0 < i < |s| ensures s[i] == s[1..][i - 1] { }
    }
  }

  /** Filtering a sequence that starts with `x` decides `x` first. */
  lemma FilterCons<T>(p: T -> bool, x: T, s: seq<T>)
    ensures Filter(p, [x] + s) == (if p(x) then [x] else []) + Filter(p, s)
  {
    assert ([x] + s)[1..] == s;
  }

  /** Filtering a concatenation filters each part, keeping the parts in order. */
  lemma {:induction false} FilterConcat<T>(p: T -> bool, a: seq<T>, b: seq<T>)
    ensures Filter(p, a + b) == Filter(p, a) + Filter(p, b)
    decreases |a|
  {
    if |a| == 0 {
      assert a + b == b;
    } else {
      var head := if p(a[0]) then [a[0]] else [];
      assert a == [a[0]] + a[1..];
      assert a + b == [a[0]] + (a[1..] + b);
      FilterCons(p, a[0], a[1..] + b);
      FilterCons(p, a[0], a[1..]);
      FilterConcat(p, a[1..], b);
    }
  }

  /** The last selected element is the last element of `s` that satisfies `p`. */
  lemma {:induction false} FilterLast<T>(p: T -> bool, s: seq<T>)
    requires Filter(p, s) != []
    ensures exists j :: 0 <= j < |s| && s[j] == Filter(p, s)[|Filter(p, s)| - 1] && p(s[j])
                        && forall i :: j < i < |s| ==> !p(s[i])
    decreases |s|
  {
    var rest := Filter(p, s[1..]);
    FilterMembers(p, s[1..]);
    if rest == [] {
      assert p(s[0]);
      assert Filter(p, s) == [s[0]];
      forall i | 0 < i < |s| ensures !p(s[i]) {
        assert s[i] == s[1..][i - 1];
      }
    } else {
      FilterLast(p, s[1..]);
      var j' :| 0 <= j' < |s[1..]| && s[1..][j'] == rest[|rest| - 1] && p(s[1..][j'])
                && forall i :: j' < i < |s[1..]| ==> !p(s[1..][i]);
      assert Filter(p, s)[|Filter(p, s)| - 1] == rest[|rest| - 1];
      forall i | j' + 1 < i < |s| ensures !p(s[i]) {
        assert s[i] == s[1..][i - 1];
      }
    }
  }
}
