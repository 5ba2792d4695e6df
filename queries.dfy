/** The LINQ operators the controllers compose their read queries from:
    `Where`, `OrderBy`/`OrderByDescending` (stable), `Skip` and `Take`. */
module Queries {

  function Min(a: int, b: int): int { if a <= b then a else b }

  function Max(a: int, b: int): int { if a <= b then b else a }

  /** `Where(p)`: the elements satisfying p, in their original order. */
  function Filter<T(!new)>(s: seq<T>, p: T -> bool): (r: seq<T>)
    ensures |r| <= |s|
    ensures forall x :: x in r <==> x in s && p(x)
    ensures forall i :: 0 <= i < |r| ==> p(r[i])
    decreases |s|
  {
    if s == [] then []
    else
      var init, last := s[..|s| - 1], s[|s| - 1];
      assert s == init + [last];
      Filter(init, p) + (if p(last) then [last] else [])
  }

  lemma FilterAppend<T(!new)>(s: seq<T>, x: T, p: T -> bool)
    ensures Filter(s + [x], p) == Filter(s, p) + (if p(x) then [x] else [])
  {
    assert (s + [x])[..|s|] == s;
  }

  /** Filtering a sequence whose elements all fail p yields nothing. */
  lemma FilterNone<T(!new)>(s: seq<T>, p: T -> bool)
    requires forall i :: 0 <= i < |s| ==> !p(s[i])
    ensures Filter(s, p) == []
  {
  }

  /** Filtering a sequence whose elements all pass p yields it unchanged. */
  lemma {:induction false} FilterAllPass<T(!new)>(s: seq<T>, p: T -> bool)
    requires forall i :: 0 <= i < |s| ==> p(s[i])
    ensures Filter(s, p) == s
    decreases |s|
  {
    if s != [] {
      var init, last := s[..|s| - 1], s[|s| - 1];
      assert s == init + [last];
      assert forall i :: 0 <= i < |init| ==> p(init[i]) by {
        forall i | 0 <= i < |init| ensures p(init[i]) { assert init[i] == s[i]; }
      }
      FilterAllPass(init, p);
      FilterAppend(init, last, p);
    }
  }

  /** Splitting a sequence by a test and its negation loses and adds nothing. */
  lemma {:induction false} FilterSplit<T(!new)>(s: seq<T>, p: T -> bool, q: T -> bool)
    requires forall x :: q(x) == !p(x)
    ensures multiset(Filter(s, p)) + multiset(Filter(s, q)) == multiset(s)
    decreases |s|
  {
    if s != [] {
      var init, last := s[..|s| - 1], s[|s| - 1];
      FilterSplit(init, p, q);
      assert s == init + [last];
    }
  }

  /** Replacing one element changes the length of a filter by at most the
      change in whether that one element passes. */
  lemma {:induction false} FilterLengthUpdate<T(!new)>(s: seq<T>, i: nat, y: T, p: T -> bool)
    requires i < |s|
    ensures |Filter(s[i := y], p)| ==
            |Filter(s, p)| - (if p(s[i]) then 1 else 0) + (if p(y) then 1 else 0)
    decreases |s|
  {
    var n := |s| - 1;
    var t := s[i := y];
    assert s == s[..n] + [s[n]];
    assert t == t[..n] + [t[n]];
    if i == n {
      assert t[..n] == s[..n];
    } else {
      assert t[..n] == s[..n][i := y];
      FilterLengthUpdate(s[..n], i, y, p);
    }
  }

  /** Two sequences whose elements pass the test at the same positions have
      filters of the same length. */
  lemma {:induction false} FilterSameTests<T(!new)>(a: seq<T>, b: seq<T>, p: T -> bool)
    requires |a| == |b|
    requires forall i :: 0 <= i < |a| ==> p(a[i]) == p(b[i])
    ensures |Filter(a, p)| == |Filter(b, p)|
    decreases |a|
  {
    if a != [] {
      var n := |a| - 1;
      FilterSameTests(a[..n], b[..n], p);
      assert a == a[..n] + [a[n]];
      assert b == b[..n] + [b[n]];
      FilterAppend(a[..n], a[n], p);
      FilterAppend(b[..n], b[n], p);
    }
  }

  ghost predicate SortedBy<T>(s: seq<T>, key: T -> int)
  {
    forall i, j :: 0 <= i < j < |s| ==> key(s[i]) <= key(s[j])
  }

  /** Inserts x into a sorted sequence after every element whose key is not
      larger, which is what makes the sort below stable. */
  function Insert<T>(x: T, s: seq<T>, key: T -> int): seq<T>
  {
    if s == [] then [x]
    else if key(x) < key(s[0]) then [x] + s
    else [s[0]] + Insert(x, s[1..], key)
  }

  lemma {:induction false} InsertMultiset<T>(x: T, s: seq<T>, key: T -> int)
    ensures multiset(Insert(x, s, key)) == multiset(s) + multiset{x}
    ensures |Insert(x, s, key)| == |s| + 1
  {
    if s != [] && key(x) >= key(s[0]) {
      InsertMultiset(x, s[1..], key);
      assert s == [s[0]] + s[1..];
    }
  }

  lemma {:induction false} InsertSorted<T>(x: T, s: seq<T>, key: T -> int)
    requires SortedBy(s, key)
    ensures SortedBy(Insert(x, s, key), key)
  {
    var r := Insert(x, s, key);
    if s == [] {
    } else if key(x) < key(s[0]) {
      forall i, j | 0 <= i < j < |r| ensures key(r[i]) <= key(r[j]) {
        if i == 0 { assert r[j] == s[j - 1]; }
        else { assert r[i] == s[i - 1] && r[j] == s[j - 1]; }
      }
    } else {
      var rest := Insert(x, s[1..], key);
      InsertSorted(x, s[1..], key);
      InsertMultiset(x, s[1..], key);
      forall i, j | 0 <= i < j < |r| ensures key(r[i]) <= key(r[j]) {
        assert r[j] == rest[j - 1];
        if i == 0 {
          assert rest[j - 1] in multiset(rest);
          assert rest[j - 1] == x || rest[j - 1] in s[1..];
        } else {
          assert r[i] == rest[i - 1];
        }
      }
    }
  }

  /** `OrderBy(key)`: a stable insertion sort. */
  function SortBy<T(!new)>(s: seq<T>, key: T -> int): (r: seq<T>)
    ensures SortedBy(r, key)
    ensures multiset(r) == multiset(s)
    ensures |r| == |s|
    ensures forall x :: x in r <==> x in s
    decreases |s|
  {
    if s == [] then []
    else
      var init, last := s[..|s| - 1], s[|s| - 1];
      assert s == init + [last];
      var sorted := SortBy(init, key);
      InsertSorted(last, sorted, key);
      InsertMultiset(last, sorted, key);
      var r := Insert(last, sorted, key);
      assert forall x :: x in r <==> x in multiset(r);
      r
  }

  /** `OrderByDescending(key)`. */
  function SortByDescending<T(!new)>(s: seq<T>, key: T -> int): (r: seq<T>)
    ensures forall i, j :: 0 <= i < j < |r| ==> key(r[i]) >= key(r[j])
    ensures multiset(r) == multiset(s)
    ensures |r| == |s|
    ensures forall x :: x in r <==> x in s
  {
    var r := SortBy(s, x => -key(x));
    assert forall i, j :: 0 <= i < j < |r| ==> -key(r[i]) <= -key(r[j]);
    r
  }

  /** `Skip(n)` as LINQ to Objects evaluates it: a negative count skips
      nothing. A database query refuses a negative offset instead. */
  function Skip<T>(s: seq<T>, n: int): (r: seq<T>)
    ensures |r| == Max(0, |s| - Max(0, n))
    ensures forall k {:trigger r[k]} :: 0 <= k < |r| ==> Max(0, n) + k < |s| && r[k] == s[Max(0, n) + k]
  {
    if n <= 0 then s else if n >= |s| then [] else s[n..]
  }

  /** `Take(n)` as LINQ to Objects evaluates it: a count of zero or less takes
      nothing. A database query refuses such a count instead. */
  function Take<T>(s: seq<T>, n: int): (r: seq<T>)
    ensures |r| == Min(Max(0, n), |s|)
    ensures forall k {:trigger r[k]} :: 0 <= k < |r| ==> r[k] == s[k]
  {
    if n <= 0 then [] else if n >= |s| then s else s[..n]
  }

  /** An element of a sorted list that a prefix of it leaves out sorts no
      earlier than anything the prefix keeps, and is left out only when the
      prefix is full. */
  lemma TakeLeavesLater<T>(s: seq<T>, n: nat, key: T -> int, x: T)
    requires SortedBy(s, key)
    requires x in s && x !in Take(s, n)
    ensures |Take(s, n)| == n
    ensures forall y :: y in Take(s, n) ==> key(y) <= key(x)
  {
    var r := Take(s, n);
    var k :| 0 <= k < |s| && s[k] == x;
    assert r == s[..|r|];
    assert k >= |r|;
    forall y | y in r ensures key(y) <= key(x) {
      var i :| 0 <= i < |r| && r[i] == y;
      assert s[i] == y;
    }
  }

  lemma MulNonNegative(a: int, b: int)
    requires a >= 0 && b >= 0
    ensures a * b >= 0
  {
  }

  /** `Skip(offset).Take(size)`: a consecutive run of the list. */
  function Window<T>(s: seq<T>, offset: int, size: int): (r: seq<T>)
    ensures |r| == Min(Max(0, size), Max(0, |s| - Max(0, offset)))
    ensures forall k {:trigger r[k]} :: 0 <= k < |r| ==> Max(0, offset) + k < |s| && r[k] == s[Max(0, offset) + k]
    ensures forall x :: x in r ==> x in s
  {
    var r := Take(Skip(s, offset), size);
    assert forall x :: x in r ==> x in s by {
      forall x | x in r ensures x in s {
        var k :| 0 <= k < |r| && r[k] == x;
        assert s[Max(0, offset) + k] == x;
      }
    }
    r
  }

  /** A run of a list ordered by descending key is ordered the same way. */
  lemma WindowKeepsDescending<T>(s: seq<T>, offset: int, size: int, key: T -> int)
    requires forall i, j :: 0 <= i < j < |s| ==> key(s[i]) >= key(s[j])
    ensures forall i, j :: 0 <= i < j < |Window(s, offset, size)| ==>
      key(Window(s, offset, size)[i]) >= key(Window(s, offset, size)[j])
  {
    var r, start := Window(s, offset, size), Max(0, offset);
    forall i, j | 0 <= i < j < |r| ensures key(r[i]) >= key(r[j]) {
      WindowAt(s, offset, size, i);
      WindowAt(s, offset, size, j);
    }
  }

  /** A run of a list ordered by any pairwise test is ordered the same way. */
  lemma WindowKeepsOrder<T>(s: seq<T>, offset: int, size: int, before: (T, T) -> bool)
    requires forall i, j :: 0 <= i < j < |s| ==> before(s[i], s[j])
    ensures forall i, j :: 0 <= i < j < |Window(s, offset, size)| ==>
      before(Window(s, offset, size)[i], Window(s, offset, size)[j])
  {
    var r := Window(s, offset, size);
    forall i, j | 0 <= i < j < |r| ensures before(r[i], r[j]) {
      WindowAt(s, offset, size, i);
      WindowAt(s, offset, size, j);
    }
  }

  lemma WindowAt<T>(s: seq<T>, offset: int, size: int, k: int)
    requires 0 <= k < |Window(s, offset, size)|
    ensures Max(0, offset) + k < |s| && Window(s, offset, size)[k] == s[Max(0, offset) + k]
  {
  }

  /** Where a page begins: `(page - 1) * pageSize`, a negative offset
      skipping nothing. */
  function PageStart(page: int, pageSize: int): nat
  {
    Max(0, (page - 1) * pageSize)
  }

  /** `r` is page `page` of `s`: the consecutive run of `s` beginning at
      `PageStart`, and for a page numbered from 1 as many items as remain,
      up to pageSize. */
  ghost predicate PageOf<T>(r: seq<T>, s: seq<T>, page: int, pageSize: int)
  {
    (forall k {:trigger r[k]} :: 0 <= k < |r| ==> PageStart(page, pageSize) + k < |s| && r[k] == s[PageStart(page, pageSize) + k]) &&
    (page >= 1 && pageSize >= 0 ==> |r| == Min(pageSize, Max(0, |s| - (page - 1) * pageSize)))
  }

  /** `Skip((page - 1) * pageSize).Take(pageSize)`: at most pageSize items,
      a consecutive run of the list beginning at `PageStart`, and for a page
      numbered from 1 as many items as remain, up to pageSize. */
  function Page<T>(s: seq<T>, page: int, pageSize: int): (r: seq<T>)
    ensures |r| <= Max(pageSize, 0)
    ensures forall k {:trigger r[k]} :: 0 <= k < |r| ==> PageStart(page, pageSize) + k < |s| && r[k] == s[PageStart(page, pageSize) + k]
    ensures forall x :: x in r ==> x in s
    ensures page >= 1 && pageSize >= 0 ==>
      |r| == Min(pageSize, Max(0, |s| - (page - 1) * pageSize))
    ensures PageOf(r, s, page, pageSize)
  {
    var offset := (page - 1) * pageSize;
    var r := Window(s, offset, pageSize);
    assert PageStart(page, pageSize) == Max(0, offset);
    assert page >= 1 && pageSize >= 0 ==> |r| == Min(pageSize, Max(0, |s| - offset)) by {
      if page >= 1 && pageSize >= 0 { MulNonNegative(page - 1, pageSize); }
    }
    r
  }

  /** Two adjacent runs of the same size make one run of twice the size. */
  lemma WindowsAdjacent<T>(s: seq<T>, offset: nat, size: nat)
    ensures Window(s, offset, size) + Window(s, offset + size, size) == Window(s, offset, 2 * size)
  {
    var a, b, c := Window(s, offset, size), Window(s, offset + size, size), Window(s, offset, 2 * size);
    forall k | 0 <= k < |c| ensures (a + b)[k] == c[k] {
      WindowAt(s, offset, 2 * size, k);
      if k < |a| {
        WindowAt(s, offset, size, k);
      } else {
        WindowAt(s, offset + size, size, k - |a|);
      }
    }
  }

  /** Two consecutive pages are two adjacent runs of the list: nothing is
      skipped or repeated between them. */
  lemma PagesAdjacent<T>(s: seq<T>, page: int, pageSize: int)
    requires page >= 1 && pageSize >= 0
    ensures Page(s, page, pageSize) + Page(s, page + 1, pageSize)
         == Take(Skip(s, (page - 1) * pageSize), 2 * pageSize)
  {
    var offset := (page - 1) * pageSize;
    MulNonNegative(page - 1, pageSize);
    assert (page + 1 - 1) * pageSize == offset + pageSize by {
      assert page * pageSize == (page - 1) * pageSize + pageSize;
    }
    assert Page(s, page, pageSize) == Window(s, offset, pageSize);
    assert Page(s, page + 1, pageSize) == Window(s, offset + pageSize, pageSize);
    WindowsAdjacent(s, offset, pageSize);
  }
}
