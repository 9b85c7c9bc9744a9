/** Lists shown a page at a time: filtering, the window an offset and a limit
    (or `slice(start, start + size)`) cut out of a list, the number of pages,
    and the clamping of page numbers. Shared by the backend's `offset/limit`
    queries and the frontend's paginated tables. */
module ListView {

  /** `list.filter(p)`: the elements that satisfy `p`, in their order. */
  function Filter<T(!new)>(s: seq<T>, p: T -> bool): (r: seq<T>)
    ensures |r| <= |s|
    ensures forall x :: x in r <==> x in s && p(x)
  {
    if s == [] then []
    else if p(s[0]) then [s[0]] + Filter(s[1..], p)
    else Filter(s[1..], p)
  }

  /** A filter that keeps everything keeps the list as it is. */
  lemma {:induction false} FilterAll<T(!new)>(s: seq<T>, p: T -> bool)
    requires forall x :: x in s ==> p(x)
    ensures Filter(s, p) == s
  {
    if s != [] {
      assert s[0] in s;
      assert forall x :: x in s[1..] ==> x in s;
      FilterAll(s[1..], p);
    }
  }

  /** `a` is `b` with some elements left out, the rest in their order. */
  predicate IsSubsequence<T(==)>(a: seq<T>, b: seq<T>)
    decreases |b|
  {
    if a == [] then true
    else if b == [] then false
    else (a[0] == b[0] && IsSubsequence(a[1..], b[1..])) || IsSubsequence(a, b[1..])
  }

  /** Filtering keeps the order of the elements it keeps. */
  lemma {:induction false} FilterIsSubsequence<T(!new)>(s: seq<T>, p: T -> bool)
    ensures IsSubsequence(Filter(s, p), s)
  {
    if s != [] {
      FilterIsSubsequence(s[1..], p);
    }
  }

  /** The elements from `start` on, at most `count` of them: SQL
      `OFFSET start LIMIT count`, and JavaScript `slice(start, start + count)`
      for a non-negative start. */
  function Window<T>(s: seq<T>, start: nat, count: nat): (r: seq<T>)
    ensures |r| <= count
    ensures start >= |s| ==> r == []
    ensures start < |s| ==> |r| == if start + count <= |s| then count else |s| - start
    ensures forall i :: 0 <= i < |r| ==> r[i] == s[start + i]
  {
    if start >= |s| then [] else s[start..if start + count <= |s| then start + count else |s|]
  }

  /** `Math.ceil(n / size)`: the fewest pages of `size` that hold `n` items. */
  function PageCount(n: nat, size: nat): (pages: nat)
    requires size > 0
    ensures pages * size >= n
    ensures pages > 0 ==> (pages - 1) * size < n
    ensures pages == 0 <==> n == 0
  {
    if n % size == 0 then n / size else n / size + 1
  }

  /** The items shown on 1-based page `page`. */
  function Page<T>(s: seq<T>, page: nat, size: nat): seq<T>
    requires page >= 1
  {
    Window(s, (page - 1) * size, size)
  }

  /** Every item is shown on a page that exists: item `i` is at position
      `i % size` of page `i / size + 1`. */
  lemma ItemOnItsPage<T>(s: seq<T>, size: nat, i: nat)
    requires size > 0 && i < |s|
    ensures 1 <= i / size + 1 <= PageCount(|s|, size)
    ensures i % size < |Page(s, i / size + 1, size)|
    ensures Page(s, i / size + 1, size)[i % size] == s[i]
  {
    var p, m := i / size, i % size;
    assert i == p * size + m && 0 <= m < size;
    var page := Page(s, p + 1, size);
    assert (p + 1 - 1) * size == p * size;
    assert p * size <= i < |s|;
    var total := PageCount(|s|, size);
    if total <= p {
      MulLeq(total, p, size);
      assert false;
    }
  }

  /** A page past the last one starts at or after the end of the list; a page
      up to the last one starts before it. */
  lemma PageBounds(n: nat, size: nat, page: nat)
    requires size > 0 && page >= 1
    ensures page > PageCount(n, size) ==> (page - 1) * size >= n
    ensures page <= PageCount(n, size) ==> (page - 1) * size < n
  {
    var total := PageCount(n, size);
    if page > total {
      MulLeq(total, page - 1, size);
    } else {
      MulLeq(page - 1, total - 1, size);
    }
  }

  /** Multiplying by a natural number keeps the order. */
  lemma MulLeq(a: nat, b: nat, c: nat)
    requires a <= b
    ensures a * c <= b * c
  {
    assert b * c == a * c + (b - a) * c;
  }

  /** One more page starts one page size further on. */
  lemma MulSucc(a: nat, b: nat)
    ensures (a + 1) * b == a * b + b
  {
  }

  /** The pages, read in order from `first` to the last, give back the list
      from the start of page `first`. */
  lemma {:induction false} PagesFrom<T>(s: seq<T>, size: nat, first: nat)
    requires size > 0 && 1 <= first
    ensures Pages(s, size, first) == s[if (first - 1) * size <= |s| then (first - 1) * size else |s|..]
    decreases |s| - (first - 1) * size
  {
    var start := (first - 1) * size;
    if start < |s| {
      var next := (first + 1 - 1) * size;
      MulSucc(first - 1, size);
      PagesFrom(s, size, first + 1);
      var end := if next <= |s| then next else |s|;
      assert Page(s, first, size) == s[start..end];
      assert s[start..] == s[start..end] + s[end..];
    }
  }

  /** Pages `first`, `first + 1`, ... up to the last non-empty one, joined. */
  function Pages<T>(s: seq<T>, size: nat, first: nat): seq<T>
    requires size > 0 && 1 <= first
    decreases |s| - (first - 1) * size
  {
    if (first - 1) * size >= |s| then []
    else Page(s, first, size) + Pages(s, size, first + 1)
  }

  /** All pages together are the list. */
  lemma AllPages<T>(s: seq<T>, size: nat)
    requires size > 0
    ensures Pages(s, size, 1) == s
  {
    PagesFrom(s, size, 1);
  }

  /** `Math.max(1, Math.min(page, total))`: a page number inside the range;
      with no pages at all it is 1. */
  function ClampPage(page: int, total: int): (r: int)
    ensures r >= 1
    ensures total >= 1 ==> r <= total
    ensures 1 <= page <= total ==> r == page
  {
    if page < total then (if page > 1 then page else 1) else (if total > 1 then total else 1)
  }

  /** `Math.max(1, page - 1)`. */
  function PreviousPage(page: int): (r: int)
    ensures r >= 1
    ensures page > 1 ==> r == page - 1
  {
    if page - 1 > 1 then page - 1 else 1
  }

  /** `Math.min(total, page + 1)`. */
  function NextPage(page: int, total: int): (r: int)
    ensures r <= total
    ensures page < total ==> r == page + 1
  {
    if page + 1 < total then page + 1 else total
  }
}
