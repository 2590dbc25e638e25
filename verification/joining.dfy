/**
 * Separator-joined sequences. The converter's word and body visitors append
 * each part in order and put one separator strictly between consecutive
 * parts; `Join` is that loop, and `Split` is the inverse that recovers the
 * parts when no part contains the separator.
 */
module Joining {

  /** Concatenation of the parts in order. */
  function Flatten<T>(parts: seq<seq<T>>): (r: seq<T>)
  {
    if |parts| == 0 then [] else parts[0] + Flatten(parts[1..])
  }

  /** Number of occurrences of `x` in `s`. */
  function Count<T(==)>(s: seq<T>, x: T): (n: nat)
    ensures n <= |s|
  {
    if |s| == 0 then 0 else (if s[0] == x then 1 else 0) + Count(s[1..], x)
  }

  /** `s` does not contain `x`. */
  predicate Free<T(==)>(s: seq<T>, x: T) {
    forall i :: 0 <= i < |s| ==> s[i] != x
  }

  /** No part contains `x`. */
  predicate AllFree<T(==)>(parts: seq<seq<T>>, x: T) {
    forall i :: 0 <= i < |parts| ==> Free(parts[i], x)
  }

  /** The parts in order, with `sep` between consecutive parts and never before the first or after the last. */
  function Join<T>(parts: seq<seq<T>>, sep: T): (r: seq<T>)
    ensures |parts| == 0 ==> r == []
    ensures |parts| > 0 ==> |r| == |Flatten(parts)| + |parts| - 1
  {
    if |parts| == 0 then []
    else if |parts| == 1 then parts[0]
    else parts[0] + [sep] + Join(parts[1..], sep)
  }

  /** Cuts `s` at every occurrence of `sep`; the separators themselves are dropped. */
  function Split<T(==)>(s: seq<T>, sep: T): (r: seq<seq<T>>)
    ensures |r| == Count(s, sep) + 1
    ensures AllFree(r, sep)
  {
    if |s| == 0 then [[]]
    else
      var rest := Split(s[1..], sep);
      if s[0] == sep then [[]] + rest else [[s[0]] + rest[0]] + rest[1..]
  }

  lemma {:induction false} CountAppend<T>(a: seq<T>, b: seq<T>, x: T)
    ensures Count(a + b, x) == Count(a, x) + Count(b, x)
  {
    if |a| > 0 {
      assert (a + b)[1..] == a[1..] + b;
      CountAppend(a[1..], b, x);
    } else {
      assert a + b == b;
    }
  }

  /** A sequence is free of `x` exactly when `x` occurs zero times in it. */
  lemma {:induction false} CountZeroIffFree<T>(s: seq<T>, x: T)
    ensures Count(s, x) == 0 <==> Free(s, x)
  {
    if |s| > 0 {
      CountZeroIffFree(s[1..], x);
      if Free(s[1..], x) && s[0] != x {
        forall i | 0 <= i < |s| ensures s[i] != x {
          if i > 0 { assert s[i] == s[1..][i - 1]; }
        }
      }
      if Free(s, x) {
        forall i | 0 <= i < |s[1..]| ensures s[1..][i] != x {
          assert s[1..][i] == s[i + 1];
        }
      }
    }
  }

  lemma {:induction false} FlattenAllFree<T>(parts: seq<seq<T>>, x: T)
    requires AllFree(parts, x)
    ensures Count(Flatten(parts), x) == 0
  {
    if |parts| > 0 {
      assert Free(parts[0], x);
      CountZeroIffFree(parts[0], x);
      FlattenAllFree(parts[1..], x);
      CountAppend(parts[0], Flatten(parts[1..]), x);
    }
  }

  /**
   * Joining adds exactly `|parts| - 1` separators to what the parts already
   * contain, and nothing else.
   */
  lemma {:induction false} JoinCount<T>(parts: seq<seq<T>>, sep: T, x: T)
    ensures Count(Join(parts, sep), x)
         == Count(Flatten(parts), x) + (if x == sep && |parts| > 0 then |parts| - 1 else 0)
  {
    if |parts| == 1 {
      assert Flatten(parts) == parts[0] + Flatten(parts[1..]);
      assert Flatten(parts[1..]) == [];
      assert Flatten(parts) == parts[0];
    } else if |parts| > 1 {
      JoinCount(parts[1..], sep, x);
      CountAppend(parts[0] + [sep], Join(parts[1..], sep), x);
      CountAppend(parts[0], [sep], x);
      CountAppend(parts[0], Flatten(parts[1..]), x);
      assert Count([sep], x) == (if x == sep then 1 else 0) by {
        assert [sep][1..] == [];
      }
    }
  }

  /** When no part holds the separator, the joined sequence holds exactly `|parts| - 1` of them. */
  lemma SeparatorCount<T>(parts: seq<seq<T>>, sep: T)
    requires |parts| > 0
    requires AllFree(parts, sep)
    ensures Count(Join(parts, sep), sep) == |parts| - 1
  {
    JoinCount(parts, sep, sep);
    FlattenAllFree(parts, sep);
  }

  /** Joining singletons alternates the parts' elements (even indices) with the separator (odd indices). */
  lemma {:induction false} JoinSingletons<T>(parts: seq<seq<T>>, sep: T)
    requires |parts| > 0
    requires forall i :: 0 <= i < |parts| ==> |parts[i]| == 1
    ensures |Join(parts, sep)| == 2 * |parts| - 1
    ensures forall k :: 0 <= k < |Join(parts, sep)| ==>
              Join(parts, sep)[k] == if k % 2 == 0 then parts[k / 2][0] else sep
  {
    if |parts| > 1 {
      var tail := Join(parts[1..], sep);
      JoinSingletons(parts[1..], sep);
      var r := Join(parts, sep);
      assert r == parts[0] + [sep] + tail;
      forall k | 0 <= k < |r|
        ensures r[k] == if k % 2 == 0 then parts[k / 2][0] else sep
      {
        if k >= 2 {
          assert r[k] == tail[k - 2];
          assert parts[1..][(k - 2) / 2] == parts[k / 2];
        }
      }
    }
  }

  /** `Join` of a non-empty list `[p] + parts` starts with `p` followed by the separator. */
  lemma JoinCons<T>(p: seq<T>, parts: seq<seq<T>>, sep: T)
    requires |parts| > 0
    ensures Join([p] + parts, sep) == p + [sep] + Join(parts, sep)
  {
    assert ([p] + parts)[1..] == parts;
  }

  /** Splitting a separator-free sequence leaves it whole. */
  lemma {:induction false} SplitFree<T>(s: seq<T>, sep: T)
    requires Free(s, sep)
    ensures Split(s, sep) == [s]
  {
    if |s| > 0 {
      assert Free(s[1..], sep) by {
        forall i | 0 <= i < |s[1..]| ensures s[1..][i] != sep {
          assert s[1..][i] == s[i + 1];
        }
      }
      SplitFree(s[1..], sep);
      assert [s[0]] + s[1..] == s;
    }
  }

  /** Splitting stops at the first separator after a separator-free prefix. */
  lemma {:induction false} SplitAtFirst<T>(p: seq<T>, t: seq<T>, sep: T)
    requires Free(p, sep)
    ensures Split(p + [sep] + t, sep) == [p] + Split(t, sep)
  {
    var s := p + [sep] + t;
    if |p| == 0 {
      assert s[1..] == t;
    } else {
      assert s[1..] == p[1..] + [sep] + t;
      assert Free(p[1..], sep) by {
        forall i | 0 <= i < |p[1..]| ensures p[1..][i] != sep {
          assert p[1..][i] == p[i + 1];
        }
      }
      SplitAtFirst(p[1..], t, sep);
      assert [p[0]] + p[1..] == p;
    }
  }

  /** Splitting undoes joining when no part contains the separator. */
  lemma {:induction false} SplitJoin<T>(parts: seq<seq<T>>, sep: T)
    requires |parts| > 0
    requires AllFree(parts, sep)
    ensures Split(Join(parts, sep), sep) == parts
  {
    assert Free(parts[0], sep);
    if |parts| == 1 {
      SplitFree(parts[0], sep);
    } else {
      SplitAtFirst(parts[0], Join(parts[1..], sep), sep);
      assert AllFree(parts[1..], sep) by {
        forall i | 0 <= i < |parts[1..]| ensures Free(parts[1..][i], sep) {
          assert parts[1..][i] == parts[i + 1];
        }
      }
      SplitJoin(parts[1..], sep);
      assert [parts[0]] + parts[1..] == parts;
    }
  }

  /** Joining undoes splitting. */
  lemma {:induction false} JoinSplit<T>(s: seq<T>, sep: T)
    ensures Join(Split(s, sep), sep) == s
  {
    if |s| > 0 {
      var rest := Split(s[1..], sep);
      JoinSplit(s[1..], sep);
      if s[0] == sep {
        JoinCons([], rest, sep);
        assert [sep] + s[1..] == s;
      } else if |rest| == 1 {
        assert [s[0]] + s[1..] == s;
      } else {
        JoinCons(rest[0], rest[1..], sep);
        assert [rest[0]] + rest[1..] == rest;
        JoinCons([s[0]] + rest[0], rest[1..], sep);
        assert [s[0]] + s[1..] == s;
      }
    }
  }

  /** Every element of a joined sequence is the separator or an element of some part. */
  lemma {:induction false} JoinElements<T>(parts: seq<seq<T>>, sep: T, P: T -> bool)
    requires P(sep)
    requires forall i, j :: 0 <= i < |parts| && 0 <= j < |parts[i]| ==> P(parts[i][j])
    ensures forall k :: 0 <= k < |Join(parts, sep)| ==> P(Join(parts, sep)[k])
  {
    if |parts| > 1 {
      JoinElements(parts[1..], sep, P);
      var r := Join(parts, sep);
      var tail := Join(parts[1..], sep);
      assert r == parts[0] + [sep] + tail;
      forall k | 0 <= k < |r| ensures P(r[k]) {
        if k < |parts[0]| {
          assert r[k] == parts[0][k];
        } else if k > |parts[0]| {
          assert r[k] == tail[k - |parts[0]| - 1];
        }
      }
    }
  }
}
