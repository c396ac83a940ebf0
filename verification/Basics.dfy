/** Small vocabulary shared by every module: optional values and duplicate-free sequences. */
module Basics {

  datatype Option<+T> = None | Some(value: T)

  /** Python's `first or second` where the first operand is None or a truthy value. */
  function OrElse<T>(first: Option<T>, second: T): Option<T> {
    if first.Some? then first else Some(second)
  }

  /** A column after a commit that took it from `seen` to `wanted`: unchanged columns are not written. */
  function Column<T(==)>(stored: T, seen: T, wanted: T): T {
    if wanted == seen then stored else wanted
  }

  ghost predicate NoDups<T>(s: seq<T>) {
    forall i, j :: 0 <= i < j < |s| ==> s[i] != s[j]
  }

  function Elements<T>(s: seq<T>): set<T> {
    set x | x in s
  }

  lemma {:induction false} ElementsAreFew<T>(s: seq<T>)
    ensures |Elements(s)| <= |s|
    ensures NoDups(s) ==> |Elements(s)| == |s|
  {
    if s != [] {
      var last := |s| - 1;
      ElementsAreFew(s[..last]);
      assert s == s[..last] + [s[last]];
      assert Elements(s) == Elements(s[..last]) + {s[last]};
    }
  }

  lemma SubsetIsNoLarger<T>(a: set<T>, b: set<T>)
    requires a <= b
    ensures |a| <= |b|
    ensures |a| == |b| ==> a == b
  {
    assert b == a + (b - a);
  }
}
