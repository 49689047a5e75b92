/** The two orders `ksort` imposes: directory entries by path (byte-wise
    lexicographic) and command groups by integer version. */
module Ordering {

  /** `a` sorts no later than `b`, comparing character by character. */
  predicate PathLe(a: string, b: string)
    decreases |a|
  {
    if a == [] then true
    else if b == [] then false
    else if a[0] != b[0] then a[0] < b[0]
    else PathLe(a[1..], b[1..])
  }

  lemma {:induction false} PathLeReflexive(a: string)
    ensures PathLe(a, a)
    decreases |a|
  {
    if a != [] { PathLeReflexive(a[1..]); }
  }

  lemma {:induction false} PathLeTotal(a: string, b: string)
    ensures PathLe(a, b) || PathLe(b, a)
    decreases |a|
  {
    if a != [] && b != [] && a[0] == b[0] { PathLeTotal(a[1..], b[1..]); }
  }

  lemma {:induction false} PathLeAntisymmetric(a: string, b: string)
    requires PathLe(a, b) && PathLe(b, a)
    ensures a == b
    decreases |a|
  {
    if a != [] {
      PathLeAntisymmetric(a[1..], b[1..]);
      assert a == [a[0]] + a[1..] && b == [b[0]] + b[1..];
    }
  }

  lemma {:induction false} PathLeTransitive(a: string, b: string, c: string)
    requires PathLe(a, b) && PathLe(b, c)
    ensures PathLe(a, c)
    decreases |a|
  {
    if a != [] && b != [] && c != [] && a[0] == b[0] && b[0] == c[0] {
      PathLeTransitive(a[1..], b[1..], c[1..]);
    }
  }

  lemma AntisymmetricEverywhere()
    ensures forall a, b :: PathLe(a, b) && PathLe(b, a) ==> a == b
  {
    forall a, b | PathLe(a, b) && PathLe(b, a) ensures a == b {
      PathLeAntisymmetric(a, b);
    }
  }

  lemma {:induction false} LeastPathExists(s: set<string>)
    requires s != {}
    ensures exists m :: m in s && forall y :: y in s ==> PathLe(m, y)
    decreases |s|
  {
    var x :| x in s;
    if s == {x} {
      PathLeReflexive(x);
      assert forall y :: y in s ==> y == x;
    } else {
      LeastPathExists(s - {x});
      var m :| m in s - {x} && forall y :: y in s - {x} ==> PathLe(m, y);
      if PathLe(x, m) {
        forall y | y in s ensures PathLe(x, y) {
          if y == x { PathLeReflexive(x); } else { assert y in s - {x}; PathLeTransitive(x, m, y); }
        }
      } else {
        PathLeTotal(x, m);
        forall y | y in s ensures PathLe(m, y) {
          if y != x { assert y in s - {x}; }
        }
      }
    }
  }

  /** The first path of a non-empty set. */
  function LeastPath(s: set<string>): (m: string)
    requires s != {}
    ensures m in s && forall y :: y in s ==> PathLe(m, y)
  {
    LeastPathExists(s);
    AntisymmetricEverywhere();
    var m :| m in s && forall y :: y in s ==> PathLe(m, y);
    m
  }

  /** The paths of `s` in the order `ksort` leaves them: every path once,
      each strictly before the next. */
  function AscendingPaths(s: set<string>): (r: seq<string>)
    ensures |r| == |s|
    ensures forall p :: p in r <==> p in s
    ensures forall i, j :: 0 <= i < j < |r| ==> PathLe(r[i], r[j]) && r[i] != r[j]
    decreases |s|
  {
    if s == {} then []
    else
      var m := LeastPath(s);
      [m] + AscendingPaths(s - {m})
  }

  /** A version set is empty or has a member (stated for the solver, which
      does not always draw this from `s != {}` on integer sets). */
  lemma EmptyOrHasMember(s: set<int>)
    ensures s == {} || exists v :: v in s
  {
    if forall v: int :: v !in s { assert s == {}; }
  }

  /** A non-empty version set has a lowest member; the lemma names it. */
  lemma {:induction false} FindLeastVersion(s: set<int>) returns (m: int)
    requires s != {}
    ensures m in s && forall y :: y in s ==> m <= y
    decreases |s|
  {
    EmptyOrHasMember(s);
    var x :| x in s;
    var rest := s - {x};
    if rest == {} {
      m := x;
      forall y | y in s ensures m <= y {
        assert y !in rest;
      }
    } else {
      var r := FindLeastVersion(rest);
      m := if x <= r then x else r;
      forall y | y in s ensures m <= y {
        if y != x { assert y in rest; }
      }
    }
  }

  /** A non-empty version set has a lowest member. */
  lemma LeastVersionExists(s: set<int>)
    requires s != {}
    ensures exists m :: m in s && forall y :: y in s ==> m <= y
  {
    var m := FindLeastVersion(s);
  }

  /** The lowest version of a non-empty set. */
  function LeastVersion(s: set<int>): (m: int)
    requires s != {}
    ensures m in s && forall y :: y in s ==> m <= y
  {
    LeastVersionExists(s);
    var m :| m in s && forall y :: y in s ==> m <= y;
    m
  }

  /** Each version strictly below the next. */
  predicate Increasing(s: seq<int>)
  {
    forall i, j :: 0 <= i < j < |s| ==> s[i] < s[j]
  }

  /** The versions of `s` in ascending numeric order, each once. */
  function AscendingVersions(s: set<int>): (r: seq<int>)
    ensures |r| == |s|
    ensures forall v :: v in r <==> v in s
    ensures Increasing(r)
    decreases |s|
  {
    if s == {} then []
    else
      var m := LeastVersion(s);
      var rest := AscendingVersions(s - {m});
      IncreasingCons(m, rest);
      [m] + rest
  }

  /** A version below every member of an increasing list can lead it. */
  lemma IncreasingCons(m: int, rest: seq<int>)
    requires Increasing(rest) && forall v :: v in rest ==> m < v
    ensures Increasing([m] + rest)
  {
    var r := [m] + rest;
    forall i, j | 0 <= i < j < |r| ensures r[i] < r[j] {
      assert r[j] == rest[j - 1];
      if i > 0 { assert r[i] == rest[i - 1]; } else { assert rest[j - 1] in rest; }
    }
  }

  /** The head of an increasing list is its least member. */
  lemma HeadIsLeast(s: seq<int>, v: int)
    requires Increasing(s) && v in s
    ensures s[0] <= v
  {
    var k :| 0 <= k < |s| && s[k] == v;
    if k > 0 { assert s[0] < s[k]; }
  }

  /** Two strictly increasing version lists with the same members are equal. */
  lemma {:induction false} IncreasingUnique(a: seq<int>, b: seq<int>)
    requires Increasing(a) && Increasing(b)
    requires forall v :: v in a <==> v in b
    ensures a == b
    decreases |a|
  {
    if a != [] { assert a[0] in a; }
    if b != [] { assert b[0] in b; }
    if a != [] && b != [] {
      assert a[0] == b[0] by {
        HeadIsLeast(b, a[0]);
        HeadIsLeast(a, b[0]);
      }
      forall v ensures v in a[1..] <==> v in b[1..] {
        if v in a[1..] {
          var k :| 1 <= k < |a| && a[k] == v;
          assert v in b;
          var l :| 0 <= l < |b| && b[l] == v;
          assert l != 0;
        }
        if v in b[1..] {
          var k :| 1 <= k < |b| && b[k] == v;
          assert v in a;
          var l :| 0 <= l < |a| && a[l] == v;
          assert l != 0;
        }
      }
      IncreasingUnique(a[1..], b[1..]);
      assert a == [a[0]] + a[1..] && b == [b[0]] + b[1..];
    }
  }

  /** `a` is `b` with some entries left out, the rest in the same order. */
  predicate IsSubseq<T(==)>(a: seq<T>, b: seq<T>)
    decreases |b|
  {
    if b == [] then a == []
    else
      (a != [] && a[|a| - 1] == b[|b| - 1] && IsSubseq(a[..|a| - 1], b[..|b| - 1]))
      || IsSubseq(a, b[..|b| - 1])
  }

  lemma {:induction false} SubseqReflexive<T>(a: seq<T>)
    ensures IsSubseq(a, a)
    decreases |a|
  {
    if a != [] { SubseqReflexive(a[..|a| - 1]); }
  }

  lemma SubseqDropRight<T>(a: seq<T>, b: seq<T>, x: T)
    requires IsSubseq(a, b)
    ensures IsSubseq(a, b + [x])
  {
    assert (b + [x])[..|b|] == b;
  }

  lemma SubseqKeepRight<T>(a: seq<T>, b: seq<T>, x: T)
    requires IsSubseq(a, b)
    ensures IsSubseq(a + [x], b + [x])
  {
    assert (a + [x])[..|a|] == a;
    assert (b + [x])[..|b|] == b;
  }

  lemma {:induction false} SubseqTransitive<T>(a: seq<T>, b: seq<T>, c: seq<T>)
    requires IsSubseq(a, b) && IsSubseq(b, c)
    ensures IsSubseq(a, c)
    decreases |c|
  {
    if c == [] {
    } else if IsSubseq(b, c[..|c| - 1]) {
      SubseqTransitive(a, b, c[..|c| - 1]);
    } else if a != [] && a[|a| - 1] == b[|b| - 1] && IsSubseq(a[..|a| - 1], b[..|b| - 1]) {
      SubseqTransitive(a[..|a| - 1], b[..|b| - 1], c[..|c| - 1]);
    } else {
      SubseqTransitive(a, b[..|b| - 1], c[..|c| - 1]);
    }
  }

  /** Extending both sides of a subsequence by the same last element, then
      dropping more from the left. */
  lemma SubseqChain<T>(a: seq<T>, b: seq<T>, init: seq<T>, last: T)
    requires IsSubseq(a, b + [last]) && IsSubseq(b, init)
    ensures IsSubseq(a, init + [last])
  {
    SubseqKeepRight(b, init, last);
    SubseqTransitive(a, b + [last], init + [last]);
  }

  /** `SubseqChain` for a list taken apart at its last element. */
  lemma SubseqChainLast<T>(a: seq<T>, b: seq<T>, s: seq<T>)
    requires s != []
    requires IsSubseq(a, b + [s[|s| - 1]]) && IsSubseq(b, s[..|s| - 1])
    ensures IsSubseq(a, s)
  {
    SubseqChain(a, b, s[..|s| - 1], s[|s| - 1]);
    assert s == s[..|s| - 1] + [s[|s| - 1]];
  }

  lemma {:induction false} SubseqMembers<T>(a: seq<T>, b: seq<T>)
    requires IsSubseq(a, b)
    ensures forall x :: x in a ==> x in b
    decreases |b|
  {
    if b != [] {
      if a != [] && a[|a| - 1] == b[|b| - 1] && IsSubseq(a[..|a| - 1], b[..|b| - 1]) {
        SubseqMembers(a[..|a| - 1], b[..|b| - 1]);
        assert a == a[..|a| - 1] + [a[|a| - 1]];
        assert b == b[..|b| - 1] + [b[|b| - 1]];
      } else {
        SubseqMembers(a, b[..|b| - 1]);
        assert b == b[..|b| - 1] + [b[|b| - 1]];
      }
    }
  }

  /** Joining two increasing runs around a pivot that separates them. */
  lemma IncreasingAround(lo: seq<int>, v: int, hi: seq<int>)
    requires Increasing(lo) && Increasing(hi)
    requires forall i :: 0 <= i < |lo| ==> lo[i] < v
    requires forall i :: 0 <= i < |hi| ==> v < hi[i]
    ensures Increasing(lo + [v] + hi)
  {
    var all := lo + [v] + hi;
    forall i, j | 0 <= i < j < |all| ensures all[i] < all[j] {
      if j < |lo| {
        assert all[i] == lo[i] && all[j] == lo[j];
      } else if i > |lo| {
        assert all[i] == hi[i - |lo| - 1] && all[j] == hi[j - |lo| - 1];
      } else if i == |lo| {
        assert all[j] == hi[j - |lo| - 1];
      } else if j == |lo| {
        assert all[i] == lo[i];
      } else {
        assert all[i] == lo[i] && all[j] == hi[j - |lo| - 1];
      }
    }
  }

  /** Growing a prefix of `list` by one element, after a fixed front. */
  lemma PrefixSnoc<T>(front: seq<T>, list: seq<T>, i: nat)
    requires i < |list|
    ensures front + list[..i + 1] == (front + list[..i]) + [list[i]]
  {
  }

  /** A list split after its element at `i`, after a fixed front. */
  lemma SplitAfter<T>(front: seq<T>, list: seq<T>, i: nat)
    requires i < |list|
    ensures front + list == (front + list[..i + 1]) + list[i + 1..]
  {
    assert list == list[..i + 1] + list[i + 1..];
  }
}
