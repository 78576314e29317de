/** The array operations the source uses as library calls:
    `filter`, `find`, `indexOf`, `slice(-n)` and `slice(0, n)`, and the
    ascending order in which `Object.entries` lists integer keys. */
module Seqs {
  import opened Wrappers

  /** `s.filter(p)`: the elements of `s` satisfying `p`, in their order. */
  function Filter<T>(s: seq<T>, p: T -> bool): (r: seq<T>)
    ensures |r| <= |s|
    ensures forall i :: 0 <= i < |r| ==> r[i] in s && p(r[i])
    ensures forall i :: 0 <= i < |s| && p(s[i]) ==> s[i] in r
  {
    if s == [] then []
    else Filter(s[..|s| - 1], p) + (if p(s[|s| - 1]) then [s[|s| - 1]] else [])
  }

  /** Filtering distributes over concatenation, so the order of `s` is kept. */
  lemma {:induction false} FilterAppend<T>(a: seq<T>, b: seq<T>, p: T -> bool)
    ensures Filter(a + b, p) == Filter(a, p) + Filter(b, p)
    decreases |b|
  {
    if b == [] {
      assert a + b == a;
    } else {
      var b' := b[..|b| - 1];
      assert (a + b)[..|a + b| - 1] == a + b';
      assert (a + b)[|a + b| - 1] == b[|b| - 1];
      FilterAppend(a, b', p);
    }
  }

  /** `s.find(p)`: the first element satisfying `p`, or none. */
  function Find<T>(s: seq<T>, p: T -> bool): (r: Option<T>)
    ensures r.None? <==> forall i :: 0 <= i < |s| ==> !p(s[i])
    ensures r.Some? ==> exists i :: 0 <= i < |s| && s[i] == r.value && p(s[i]) &&
                                   forall j :: 0 <= j < i ==> !p(s[j])
  {
    if s == [] then None
    else if p(s[0]) then Some(s[0])
    else
      var r := Find(s[1..], p);
      assert forall j :: 1 <= j < |s| ==> s[j] == s[1..][j - 1];
      r
  }

  /** `s.indexOf(x)`: the position of the first `x`, or -1 when there is none. */
  function IndexOf<T(==)>(s: seq<T>, x: T): (i: int)
    ensures -1 <= i < |s|
    ensures i == -1 <==> x !in s
    ensures i >= 0 ==> s[i] == x && x !in s[..i]
  {
    if s == [] then -1
    else if s[0] == x then 0
    else
      var j := IndexOf(s[1..], x);
      assert j >= 0 ==> s[..j + 1] == [s[0]] + s[1..][..j];
      if j == -1 then -1 else j + 1
  }

  /** `s.slice(-n)` for n > 0: the last n elements (all of them when fewer). */
  function Last<T>(s: seq<T>, n: nat): (r: seq<T>)
    ensures |r| == if |s| < n then |s| else n
    ensures r == s[|s| - |r|..]
  {
    if |s| <= n then s else s[|s| - n..]
  }

  /** `s.slice(0, n)`: the first n elements (all of them when fewer). */
  function Take<T>(s: seq<T>, n: nat): (r: seq<T>)
    ensures |r| == if |s| < n then |s| else n
    ensures r == s[..|r|]
  {
    if |s| <= n then s else s[..n]
  }

  /** The smallest member of a set of integers, searched downwards from
      the member `w`. */
  ghost function MinimumFrom(keys: set<int>, w: int): (m: int)
    requires w in keys
    ensures m in keys && m <= w
    ensures forall k :: k in keys ==> m <= k
    decreases |keys|
  {
    if forall k :: k in keys ==> w <= k then w
    else
      var y :| y in keys && y < w;
      var m := MinimumFrom(keys - {w}, y);
      assert forall k :: k in keys ==> k == w || k in keys - {w};
      m
  }

  predicate StrictlyAscending(r: seq<int>) {
    forall i, j :: 0 <= i < j < |r| ==> r[i] < r[j]
  }

  /** `r` lists exactly the members of `keys`. */
  predicate Lists(r: seq<int>, keys: set<int>) {
    (forall i :: 0 <= i < |r| ==> r[i] in keys) && (forall k :: k in keys ==> k in r)
  }

  /** Putting the smallest key in front of an ascending list of the others. */
  lemma ConsSmallest(m: int, rest: seq<int>, keys: set<int>)
    requires m in keys && forall k :: k in keys ==> m <= k
    requires Lists(rest, keys - {m}) && StrictlyAscending(rest)
    ensures Lists([m] + rest, keys) && StrictlyAscending([m] + rest)
  {
    var r := [m] + rest;
    assert forall i :: 1 <= i < |r| ==> r[i] == rest[i - 1];
    forall k | k in keys
      ensures k in r
    {
      if k == m {
        assert r[0] == k;
      } else {
        assert k in keys - {m};
        var i :| 0 <= i < |rest| && rest[i] == k;
        assert r[i + 1] == k;
      }
    }
  }

  /** `Object.entries` on an object with integer keys lists them in ascending order. */
  ghost function AscendingKeys(keys: set<int>): (r: seq<int>)
    ensures |r| == |keys|
    ensures Lists(r, keys) && StrictlyAscending(r)
    decreases |keys|
  {
    if forall k :: k !in keys then
      assert keys == {};
      []
    else
      var w :| w in keys;
      var m := MinimumFrom(keys, w);
      var rest := AscendingKeys(keys - {m});
      ConsSmallest(m, rest, keys);
      [m] + rest
  }
}
