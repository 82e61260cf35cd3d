/** Small value helpers shared by the model: an optional value and the
    filter / first-match / reverse operations the table queries are built from. */
module Common {

  /** A value that may be absent: the model's stand-in for `null`. */
  datatype Option<+T> = None | Some(value: T)

  /** The elements of `s` that satisfy `p`, in their original order. */
  function Filter<T>(s: seq<T>, p: T -> bool): (r: seq<T>)
    ensures |r| <= |s|
    ensures forall x :: x in r ==> x in s && p(x)
  {
    if s == [] then [] else (if p(s[0]) then [s[0]] else []) + Filter(s[1..], p)
  }

  lemma {:induction false} FilterComplete<T>(s: seq<T>, p: T -> bool, x: T)
    requires x in s && p(x)
    ensures x in Filter(s, p)
  {
    if s[0] != x {
      FilterComplete(s[1..], p, x);
    }
  }

  lemma {:induction false} FilterAppend<T>(a: seq<T>, b: seq<T>, p: T -> bool)
    ensures Filter(a + b, p) == Filter(a, p) + Filter(b, p)
  {
    if a != [] {
      assert (a + b)[1..] == a[1..] + b;
      FilterAppend(a[1..], b, p);
    } else {
      assert a + b == b;
    }
  }

  /** Filtering twice by the same predicate is filtering once. */
  lemma {:induction false} FilterIdempotent<T>(s: seq<T>, p: T -> bool)
    ensures Filter(Filter(s, p), p) == Filter(s, p)
  {
    if s != [] {
      FilterIdempotent(s[1..], p);
      if p(s[0]) {
        assert Filter(s, p) == [s[0]] + Filter(s[1..], p);
        var f := Filter(s, p);
        assert f[0] == s[0] && f[1..] == Filter(s[1..], p);
        assert Filter(f, p) == [s[0]] + Filter(f[1..], p);
      } else {
        assert Filter(s, p) == Filter(s[1..], p);
      }
    }
  }

  /** Every element of `s` satisfies `p`: filtering keeps everything. */
  lemma {:induction false} FilterAll<T>(s: seq<T>, p: T -> bool)
    requires forall i :: 0 <= i < |s| ==> p(s[i])
    ensures Filter(s, p) == s
  {
    if s != [] {
      FilterAll(s[1..], p);
    }
  }

  /** The first element of `s` satisfying `p`, if any (a `.limit(1)` query). */
  function First<T>(s: seq<T>, p: T -> bool): (r: Option<T>)
    ensures r.Some? ==> r.value in s && p(r.value)
    ensures r.None? ==> forall i :: 0 <= i < |s| ==> !p(s[i])
  {
    if s == [] then None else if p(s[0]) then Some(s[0]) else First(s[1..], p)
  }

  /** `First` finds a match exactly when there is one, and it is the earliest:
      no element before it matches. */
  lemma {:induction false} FirstEarliest<T>(s: seq<T>, p: T -> bool)
    ensures First(s, p).Some? <==> exists i :: 0 <= i < |s| && p(s[i])
    ensures First(s, p).Some? ==>
      exists i :: 0 <= i < |s| && s[i] == First(s, p).value && forall k :: 0 <= k < i ==> !p(s[k])
  {
    if s != [] && !p(s[0]) {
      FirstEarliest(s[1..], p);
      if First(s, p).Some? {
        var t := s[1..];
        var i :| 0 <= i < |t| && t[i] == First(s, p).value && forall k :: 0 <= k < i ==> !p(t[k]);
        assert s[i + 1] == First(s, p).value;
        forall k | 0 <= k < i + 1
          ensures !p(s[k])
        {
          if k > 0 {
            assert s[k] == t[k - 1];
          }
        }
      }
    }
  }

  /** `First` of a longer table: an appended row is only found if nothing before it matches. */
  lemma {:induction false} FirstAppend<T>(a: seq<T>, b: seq<T>, p: T -> bool)
    ensures First(a + b, p) == if First(a, p).Some? then First(a, p) else First(b, p)
  {
    if a != [] {
      assert (a + b)[1..] == a[1..] + b;
      FirstAppend(a[1..], b, p);
    } else {
      assert a + b == b;
    }
  }

  /** Looking for `q` among the rows a filter `p` keeps finds the same row as
      looking in the whole table, when every `q` row is a `p` row. */
  lemma {:induction false} FirstFilter<T>(s: seq<T>, p: T -> bool, q: T -> bool)
    requires forall i :: 0 <= i < |s| && q(s[i]) ==> p(s[i])
    ensures First(Filter(s, p), q) == First(s, q)
  {
    if s != [] {
      FirstFilter(s[1..], p, q);
      if p(s[0]) {
        assert Filter(s, p) == [s[0]] + Filter(s[1..], p);
        assert ([s[0]] + Filter(s[1..], p))[1..] == Filter(s[1..], p);
      } else {
        assert Filter(s, p) == Filter(s[1..], p);
      }
    }
  }

  /** The elements of `s` in reverse order (newest row first, when rows are appended). */
  function Reverse<T>(s: seq<T>): (r: seq<T>)
    ensures |r| == |s|
    ensures forall i :: 0 <= i < |s| ==> r[i] == s[|s| - 1 - i]
    ensures multiset(r) == multiset(s)
  {
    if s == [] then []
    else
      assert s == [s[0]] + s[1..];
      Reverse(s[1..]) + [s[0]]
  }

  /** Every row of `s` passed through `f`: an `.update(...)` whose `.eq(...)`
      filter is folded into `f` (rows it does not select are returned as they are). */
  function MapRows<T>(s: seq<T>, f: T -> T): (r: seq<T>)
    ensures |r| == |s|
    ensures forall i :: 0 <= i < |s| ==> r[i] == f(s[i])
  {
    if s == [] then [] else [f(s[0])] + MapRows(s[1..], f)
  }

  /** An update that never changes whether a row matches `p` moves the
      first match of `p` to its updated self. */
  lemma {:induction false} FirstMapRows<T>(s: seq<T>, p: T -> bool, f: T -> T)
    requires forall i :: 0 <= i < |s| ==> p(f(s[i])) == p(s[i])
    ensures First(MapRows(s, f), p) == if First(s, p).Some? then Some(f(First(s, p).value)) else None
  {
    if s != [] {
      assert MapRows(s, f)[1..] == MapRows(s[1..], f);
      FirstMapRows(s[1..], p, f);
    }
  }
}
