/** Operations that Ruby's Array and String share: repetition with `*`,
    indexing with a start and a length or with a range (negative positions
    count from the end), and removal of later duplicates (`uniq`). */
module Sequences {
  import opened RubyCore

  /** `s * n` for a count that is not negative: `n` copies of `s`, end to end. */
  function Repeat<T>(s: seq<T>, n: nat): (r: seq<T>)
    ensures |r| == n * |s|
  {
    if n == 0 then [] else s + Repeat(s, n - 1)
  }

  /** Copy `q` of `s` inside `s * n` starts at position `q * |s|`: element
      `k` of that copy is element `k` of `s`. */
  lemma {:induction false} RepeatAt<T>(s: seq<T>, n: nat, q: nat, k: nat)
    requires q < n && k < |s|
    ensures q * |s| + k < |Repeat(s, n)|
    ensures Repeat(s, n)[q * |s| + k] == s[k]
  {
    if q > 0 {
      RepeatAt(s, n - 1, q - 1, k);
      assert q * |s| == (q - 1) * |s| + |s|;
    }
  }

  /** `s * n` on a count of any sign: a negative count raises ArgumentError (None). */
  function Times<T>(s: seq<T>, n: int): (r: Option<seq<T>>)
    ensures r.None? <==> n < 0
    ensures r.Some? ==> r.value == Repeat(s, n)
  {
    if n < 0 then None else Some(Repeat(s, n))
  }

  /** A start position as Ruby reads it: a negative one counts back from the
      end; None when it falls before the start or past the end. */
  function StartIndex(size: nat, start: int): (r: Option<nat>)
    ensures r.Some? <==> 0 <= start + size && start <= size
    ensures r.Some? ==> r.value <= size && (r.value == start || r.value == start + size)
  {
    if start < 0 then (if start + size < 0 then None else Some(start + size))
    else if start > size then None
    else Some(start)
  }

  /** `s[start, length]` and `s.slice(start, length)`: at most `length`
      elements from position `start`; nil for a negative length or a start
      outside the sequence. A start equal to the size gives the empty piece. */
  function SliceLen<T>(s: seq<T>, start: int, length: int): (r: Option<seq<T>>)
    ensures r.Some? <==> StartIndex(|s|, start).Some? && length >= 0
    ensures r.Some? ==>
      var b := StartIndex(|s|, start).value;
      |r.value| == (if b + length <= |s| then length else |s| - b) &&
      forall k :: 0 <= k < |r.value| ==> r.value[k] == s[b + k]
  {
    match StartIndex(|s|, start)
    case None => None
    case Some(b) =>
      if length < 0 then None
      else if b + length <= |s| then Some(s[b..b + length])
      else Some(s[b..])
  }

  /** `s[first..last]` (inclusive) and `s[first...last]` (exclusive): the
      positions are read as by StartIndex (the last may also lie past the end);
      a range that ends before it starts gives the empty piece. */
  function SliceRange<T>(s: seq<T>, first: int, last: int, exclusive: bool): (r: Option<seq<T>>)
    ensures r.None? <==> StartIndex(|s|, first).None?
    ensures r.Some? ==>
      var b := StartIndex(|s|, first).value;
      var e := (if last < 0 then last + |s| else last) + (if exclusive then 0 else 1);
      var stop := if e < b then b else if e > |s| then |s| else e;
      r.value == s[b..stop]
  {
    var lastIndex := if last < 0 then last + |s| else last;
    var length := lastIndex - (if first < 0 then first + |s| else first) + (if exclusive then 0 else 1);
    SliceLen(s, first, if length < 0 then 0 else length)
  }

  /** An inclusive range inside the sequence selects exactly the elements
      from `first` to `last`. */
  lemma SliceRangeInside<T>(s: seq<T>, first: nat, last: nat)
    requires first <= last < |s|
    ensures SliceRange(s, first, last, false) == Some(s[first..last + 1])
    ensures SliceRange(s, first, last + 1, true) == Some(s[first..last + 1])
  {
  }

  /** `s[0..-1]` is the whole sequence and `s[0, n]` its first `n` elements. */
  lemma SliceWholeAndPrefix<T>(s: seq<T>, n: nat)
    requires n <= |s|
    ensures SliceRange(s, 0, -1, false) == Some(s)
    ensures SliceLen(s, 0, n) == Some(s[..n])
  {
    assert s[0..|s|] == s;
  }

  /** `s.include?(t)` on strings: `t` occurs as a contiguous piece of `s`. */
  predicate Contains<T(==)>(s: seq<T>, t: seq<T>) {
    exists i :: 0 <= i <= |s| && t <= s[i..]
  }

  predicate NoDuplicates<T(==)>(s: seq<T>) {
    forall i, j :: 0 <= i < j < |s| ==> s[i] != s[j]
  }

  /** `uniq`: the first occurrence of every element, in order of first occurrence. */
  function Uniq<T(==)>(s: seq<T>): (r: seq<T>)
    ensures forall k :: 0 <= k < |r| ==> r[k] in s
    ensures forall k :: 0 <= k < |s| ==> s[k] in r
    ensures NoDuplicates(r)
    ensures |r| <= |s|
  {
    if s == [] then []
    else
      var u := Uniq(s[..|s| - 1]);
      if s[|s| - 1] in s[..|s| - 1] then u else u + [s[|s| - 1]]
  }

  /** `r` lists its elements in the order in which they first occur in `s`:
      an element of `r` occurs in `s` before every occurrence of any later
      element of `r`. */
  ghost predicate FirstOccurrenceOrder<T>(r: seq<T>, s: seq<T>) {
    forall i, j, q :: 0 <= i < j < |r| && 0 <= q < |s| && s[q] == r[j] ==> r[i] in s[..q]
  }

  /** `uniq` keeps the first occurrences in the order of the input. */
  lemma {:induction false} UniqOrder<T>(s: seq<T>)
    ensures FirstOccurrenceOrder(Uniq(s), s)
  {
    if s != [] {
      var p, e := s[..|s| - 1], s[|s| - 1];
      var u, r := Uniq(p), Uniq(s);
      UniqOrder(p);
      forall i, j, q | 0 <= i < j < |r| && 0 <= q < |s| && s[q] == r[j]
        ensures r[i] in s[..q]
      {
        assert r[i] == u[i];
        if q < |p| {
          assert s[q] == p[q] && s[..q] == p[..q];
        } else {
          assert s[..q] == p;
        }
      }
    }
  }

  /** A sequence without duplicates is its own `uniq`. */
  lemma {:induction false} UniqOfDistinct<T>(s: seq<T>)
    requires NoDuplicates(s)
    ensures Uniq(s) == s
  {
    if s != [] {
      var p := s[..|s| - 1];
      UniqOfDistinct(p);
      assert s[|s| - 1] !in p by {
        forall k | 0 <= k < |p| ensures p[k] != s[|s| - 1] {
          assert s[k] != s[|s| - 1];
        }
      }
      assert s == p + [s[|s| - 1]];
    }
  }
}
