/** arrays.rb: Ruby's Array. Reading operations (indexing, `fetch`, `&`,
    `-`, `sort`) are functions on the sequence of elements; the operations
    that change the array in place (`<<`/`push`, `pop`, `shift`, `unshift`,
    `insert`, `delete_at`, `delete`, `sort!`) are methods of a class whose
    `elems` field they reassign. An array may hold any mix of objects, so
    its elements are Values. */
module Arrays {
  import opened RubyCore
  import opened Sequences
  import opened Enumerables

  // ---------------------------------------------------------------------
  // Reading
  // ---------------------------------------------------------------------

  /** The position `i` denotes in an array of `size` elements (a negative one
      counts from the end), when it is inside the array. */
  function Position(size: nat, i: int): (r: Option<nat>)
    ensures r.Some? <==> 0 <= i + size && i < size
    ensures r.Some? ==> r.value < size && (r.value == i || r.value == i + size)
  {
    var p := if i < 0 then i + size else i;
    if 0 <= p < size then Some(p) else None
  }

  /** `a[i]`: the element at the position, or nil outside the array. */
  function At<T>(s: seq<T>, i: int): (r: Option<T>)
    ensures r.None? <==> Position(|s|, i).None?
  {
    match Position(|s|, i)
    case None => None
    case Some(p) => Some(s[p])
  }

  /** `a[i]` is the one element of `a[i, 1]` whenever it exists. */
  lemma AtIsSliceOfOne<T>(s: seq<T>, i: int)
    ensures At(s, i).Some? ==> SliceLen(s, i, 1) == Some([At(s, i).value])
    ensures i == |s| ==> SliceLen(s, i, 1) == Some([])
    ensures i > |s| || i < -|s| ==> SliceLen(s, i, 1).None?
  {
    if At(s, i).Some? {
      var p := Position(|s|, i).value;
      assert s[p..p + 1] == [s[p]];
    }
  }

  /** `a.fetch(i, default)`: the element at the position, or the default
      outside the array (`fetch` without a default raises IndexError there). */
  function Fetch<T>(s: seq<T>, i: int, default: T): (r: T)
    ensures Position(|s|, i).Some? ==> At(s, i) == Some(r)
    ensures Position(|s|, i).None? ==> r == default
  {
    match At(s, i)
    case None => default
    case Some(v) => v
  }

  /** `a.last`: the last element, or nil for an empty array. */
  function Last<T>(s: seq<T>): (r: Option<T>)
    ensures r.None? <==> s == []
    ensures r.Some? ==> r == At(s, -1)
  {
    if s == [] then None else Some(s[|s| - 1])
  }

  /** `a & b`: the elements of `a` that `b` also has, each once, in the order
      of `a`. */
  function Intersect<T(==)>(a: seq<T>, b: seq<T>): (r: seq<T>)
    ensures forall k :: 0 <= k < |r| ==> r[k] in a && r[k] in b
    ensures forall k :: 0 <= k < |a| && a[k] in b ==> a[k] in r
    ensures NoDuplicates(r)
    ensures FirstOccurrenceOrder(r, a)
  {
    var common := Select(a, x => x in b);
    forall k | 0 <= k < |a| && a[k] in b
      ensures a[k] in common
    {
      SelectMembers(a, x => x in b, a[k]);
    }
    forall k | 0 <= k < |common|
      ensures common[k] in a
    {
      SelectMembers(a, x => x in b, common[k]);
    }
    UniqOrder(common);
    SelectKeepsFirstOrder(Uniq(common), a, x => x in b);
    Uniq(common)
  }

  /** An order by first occurrence among the selected items is the same order
      among all the items. */
  lemma SelectKeepsFirstOrder<T>(r: seq<T>, s: seq<T>, p: T -> bool)
    requires FirstOccurrenceOrder(r, Select(s, p))
    requires forall k :: 0 <= k < |r| ==> p(r[k])
    ensures FirstOccurrenceOrder(r, s)
  {
    forall i, j, q | 0 <= i < j < |r| && 0 <= q < |s| && s[q] == r[j]
      ensures r[i] in s[..q]
    {
      var before := Select(s[..q], p);
      assert s == s[..q] + ([s[q]] + s[q + 1..]);
      SelectAppend(s[..q], [s[q]] + s[q + 1..], p);
      SelectAppend([s[q]], s[q + 1..], p);
      SelectOne(s[q], p);
      var c := Select(s, p);
      assert c == before + ([s[q]] + Select(s[q + 1..], p));
      assert c[|before|] == r[j];
      assert c[..|before|] == before;
      SelectMembers(s[..q], p, r[i]);
    }
  }

  /** `a - b`: every element of `a` that `b` does not have, duplicates and
      order kept. */
  function Difference<T(==)>(a: seq<T>, b: seq<T>): (r: seq<T>)
    ensures forall k :: 0 <= k < |r| ==> r[k] !in b
  {
    Reject(a, x => x in b)
  }

  /** `a - b` keeps the order of `a`: it goes element by element, dropping an
      element exactly when `b` has it. */
  lemma DifferenceKeepsOrder<T>(a1: seq<T>, a2: seq<T>, b: seq<T>, x: T)
    ensures Difference(a1 + a2, b) == Difference(a1, b) + Difference(a2, b)
    ensures Difference([x], b) == if x in b then [] else [x]
  {
    RejectAppend(a1, a2, y => y in b);
    RejectOne(x, y => y in b);
  }

  /** `a - b` keeps every occurrence of an element `b` lacks and drops every
      occurrence of one it has. */
  lemma DifferenceCounts<T>(a: seq<T>, b: seq<T>, x: T)
    ensures x !in b ==> multiset(Difference(a, b))[x] == multiset(a)[x]
    ensures x in b ==> multiset(Difference(a, b))[x] == 0
  {
    RejectCounts(a, y => y in b);
  }

  /** `reject` keeps every occurrence of an item the block refuses and none
      of an item it accepts. */
  lemma {:induction false} RejectCounts<T>(s: seq<T>, p: T -> bool)
    ensures forall x :: !p(x) ==> multiset(Reject(s, p))[x] == multiset(s)[x]
    ensures forall x :: p(x) ==> multiset(Reject(s, p))[x] == 0
  {
    if s != [] {
      RejectCounts(s[1..], p);
      assert s == [s[0]] + s[1..];
    }
  }

  /** Line 174. */
  lemma IntersectExample()
    ensures Intersect([1, 1, 3, 5], [3, 2, 1]) == [1, 3]
  {
    var a, b := [1, 1, 3, 5], [3, 2, 1];
    assert a[1..][1..][1..] == [5];
    assert Select(a, x => x in b) == [1, 1, 3];
    assert [1, 1, 3][..2] == [1, 1] && [1, 1][..1] == [1];
  }

  /** Lines 175-176. */
  lemma DifferenceExamples()
    ensures Difference([1, 1, 3, 5], [3, 2, 1]) == [5]
    ensures Difference([3, 2, 1], [1, 1, 3, 5]) == [2]
  {
    var a, b := [1, 1, 3, 5], [3, 2, 1];
    assert a[1..][1..][1..] == [5];
    assert b[1..][1..] == [1];
  }

  /** Lines 178-179. */
  lemma ConcatRepeatExamples()
    ensures [1, 2, 3] + [4, 5, 6] == [1, 2, 3, 4, 5, 6]
    ensures Times([1, 2, 3], 3) == Some([1, 2, 3, 1, 2, 3, 1, 2, 3])
  {
    assert Repeat([1, 2, 3], 1) == [1, 2, 3];
    assert Repeat([1, 2, 3], 2) == [1, 2, 3, 1, 2, 3];
    assert Repeat([1, 2, 3], 3) == [1, 2, 3] + [1, 2, 3, 1, 2, 3] == [1, 2, 3, 1, 2, 3, 1, 2, 3];
    assert Times([1, 2, 3], 3) == Some(Repeat([1, 2, 3], 3));
  }

  /** Lines 181-192: indexing, slicing and `index` with a block. */
  lemma IndexingExamples()
    ensures var arr := [1, 2, 3, 4, 5, 6];
      At(arr, 3) == Some(4) &&
      SliceLen(arr, 1, 2) == Some([2, 3]) &&
      SliceRange(arr, 1, 2, false) == Some([2, 3]) &&
      SliceRange(arr, 1, -1, false) == Some([2, 3, 4, 5, 6]) &&
      FindIndex(arr, x => x == 2 * 2) == Some(3)
  {
    var arr := [1, 2, 3, 4, 5, 6];
    assert arr[1..3] == [2, 3];
    assert arr[1..6] == arr[1..] == [2, 3, 4, 5, 6];
    assert arr[1..][1..][1..] == [4, 5, 6];
  }

  /** Lines 112-131: reading `new_arr = [1, 2, 3, 4, 5]`. */
  lemma ReadingExamples()
    ensures var a := [Int(1), Int(2), Int(3), Int(4), Int(5)];
      At(a, 0) == Some(Int(1)) && At(a, 6) == None &&
      Fetch(a, 6, Str("shit, out of bounds")) == Str("shit, out of bounds") &&
      First(a) == Some(Int(1)) && Last(a) == Some(Int(5)) &&
      Take(a, 3) == Some([Int(1), Int(2), Int(3)]) &&
      Drop(a, 2) == Some([Int(3), Int(4), Int(5)]) &&
      |a| == 5 && a != [] && Int(5) in a
  {
    var a := [Int(1), Int(2), Int(3), Int(4), Int(5)];
    assert a[..3] == [Int(1), Int(2), Int(3)];
    assert a[2..] == [Int(3), Int(4), Int(5)];
  }

  // ---------------------------------------------------------------------
  // Sorting
  // ---------------------------------------------------------------------

  predicate AllInts(s: seq<Value>)
  {
    forall k :: 0 <= k < |s| ==> s[k].Int?
  }

  /** The integers an all-integer array holds. */
  function IntsOf(s: seq<Value>): (r: seq<int>)
    requires AllInts(s)
    ensures |r| == |s| && forall k :: 0 <= k < |s| ==> s[k] == Int(r[k])
  {
    if s == [] then [] else [s[0].i] + IntsOf(s[1..])
  }

  predicate Sorted(s: seq<int>)
  {
    forall j, k :: 0 <= j < k < |s| ==> s[j] <= s[k]
  }

  /** Places an integer in front of the first larger one. */
  function InsertSorted(x: int, s: seq<int>): seq<int>
  {
    if s == [] || x <= s[0] then [x] + s else [s[0]] + InsertSorted(x, s[1..])
  }

  /** `sort` on integers: a new array in increasing order. */
  function Sort(s: seq<int>): seq<int>
  {
    if s == [] then [] else InsertSorted(s[0], Sort(s[1..]))
  }

  lemma {:induction false} InsertSortedSpec(x: int, s: seq<int>)
    requires Sorted(s)
    ensures multiset(InsertSorted(x, s)) == multiset(s) + multiset{x}
    ensures Sorted(InsertSorted(x, s))
  {
    if s != [] && x > s[0] {
      InsertSortedSpec(x, s[1..]);
      assert s == [s[0]] + s[1..];
      LowerBound(s[0], x, s[1..], InsertSorted(x, s[1..]));
    }
  }

  /** A bound below `x` and every element of `s` is below every element of a
      rearrangement of `s` with `x` added. */
  lemma LowerBound(b: int, x: int, s: seq<int>, t: seq<int>)
    requires b <= x && forall k :: 0 <= k < |s| ==> b <= s[k]
    requires multiset(t) == multiset(s) + multiset{x}
    ensures forall k :: 0 <= k < |t| ==> b <= t[k]
  {
    forall k | 0 <= k < |t|
      ensures b <= t[k]
    {
      assert t[k] in multiset(t);
      if t[k] != x {
        assert t[k] in multiset(s);
      }
    }
  }

  /** `sort` gives an increasing arrangement of the same elements. */
  lemma {:induction false} SortSorts(s: seq<int>)
    ensures Sorted(Sort(s)) && multiset(Sort(s)) == multiset(s)
  {
    if s != [] {
      SortSorts(s[1..]);
      InsertSortedSpec(s[0], Sort(s[1..]));
      assert s == [s[0]] + s[1..];
    }
  }

  /** An array already in order is left as it is. */
  lemma {:induction false} SortOfSorted(s: seq<int>)
    requires Sorted(s)
    ensures Sort(s) == s
  {
    if s != [] {
      SortOfSorted(s[1..]);
      assert s[1..] == [] || s[0] <= s[1..][0];
    }
  }

  /** Lines 89-93: `[3, 1, 5, 6, 3].sort` is `[1, 3, 3, 5, 6]`. */
  lemma SortExample()
    ensures Sort([3, 1, 5, 6, 3]) == [1, 3, 3, 5, 6]
  {
    var s := [3, 1, 5, 6, 3];
    assert s[1..] == [1, 5, 6, 3];
    assert s[1..][1..] == [5, 6, 3];
    assert s[1..][1..][1..] == [6, 3];
    assert s[1..][1..][1..][1..] == [3];
  }

  // ---------------------------------------------------------------------
  // Insertion and removal at a position
  // ---------------------------------------------------------------------

  /** Where `insert(i, x)` puts `x`: at `i` for a non-negative index, and just
      after the element that a negative index denotes (-1 appends). */
  function InsertPosition(size: nat, i: int): int
  {
    if i >= 0 then i else size + i + 1
  }

  /** `insert(i, x)` as a function of the elements: past the end the gap is
      filled with nil; a negative index before the start raises IndexError
      (None). */
  function InsertAt(s: seq<Value>, i: int, x: Value): (r: Option<seq<Value>>)
    ensures r.None? <==> InsertPosition(|s|, i) < 0
    ensures r.Some? ==>
      var p := InsertPosition(|s|, i);
      |r.value| == (if p <= |s| then |s| else p) + 1 && r.value[p] == x &&
      (forall k :: 0 <= k < p ==> r.value[k] == if k < |s| then s[k] else Nil) &&
      (forall k :: p < k < |r.value| ==> r.value[k] == s[k - 1])
  {
    var p := InsertPosition(|s|, i);
    if p < 0 then None
    else if p <= |s| then Some(s[..p] + [x] + s[p..])
    else
      var pad := Repeat([Nil], p - |s|);
      forall k | 0 <= k < |pad|
        ensures pad[k] == Nil
      {
        RepeatAt([Nil], p - |s|, k, 0);
      }
      Some(s + pad + [x])
  }

  /** `delete_at(i)` as a function of the elements: the removed element and
      what remains, or nil and the same elements outside the array. */
  function RemoveAt<T>(s: seq<T>, i: int): (r: (Option<T>, seq<T>))
    ensures r.0 == At(s, i)
    ensures r.0.None? ==> r.1 == s
    ensures r.0.Some? ==> (
      var p := Position(|s|, i).value;
      |r.1| == |s| - 1 && r.1 == s[..p] + s[p + 1..])
  {
    match Position(|s|, i)
    case None => (None, s)
    case Some(p) => (Some(s[p]), s[..p] + s[p + 1..])
  }

  /** `delete_at` undoes `insert` at the same position, counted from the
      start or, for a negative one, from the end, anywhere inside the array
      or just past either end. */
  lemma InsertThenRemove(s: seq<Value>, i: int, x: Value)
    requires -|s| - 1 <= i <= |s|
    ensures InsertAt(s, i, x).Some?
    ensures RemoveAt(InsertAt(s, i, x).value, i) == (Some(x), s)
  {
    var p := InsertPosition(|s|, i);
    var t := s[..p] + [x] + s[p..];
    assert InsertAt(s, i, x) == Some(t);
    assert Position(|t|, i) == Some(p);
    assert t[..p] + t[p + 1..] == s;
  }

  /** `delete(x)`: every element equal to `x` removed. */
  function DeleteAll<T(==)>(s: seq<T>, x: T): (r: seq<T>)
    ensures forall k :: 0 <= k < |r| ==> r[k] != x
  {
    Reject(s, y => y == x)
  }

  /** `delete(x)` keeps the order of the other elements: it goes element by
      element, dropping exactly the ones equal to `x`. */
  lemma DeleteAllKeepsOrder<T>(s1: seq<T>, s2: seq<T>, x: T, y: T)
    ensures DeleteAll(s1 + s2, x) == DeleteAll(s1, x) + DeleteAll(s2, x)
    ensures DeleteAll([y], x) == if y == x then [] else [y]
  {
    RejectAppend(s1, s2, z => z == x);
    RejectOne(y, z => z == x);
  }

  /** `delete(x)` drops every occurrence of `x`, keeps every occurrence of
      anything else, and shortens the array by the number of `x`s. */
  lemma DeleteAllCounts<T>(s: seq<T>, x: T, y: T)
    ensures y != x ==> multiset(DeleteAll(s, x))[y] == multiset(s)[y]
    ensures multiset(DeleteAll(s, x))[x] == 0
    ensures |DeleteAll(s, x)| == |s| - multiset(s)[x]
  {
    RejectCounts(s, z => z == x);
    SelectRejectPartition(s, z => z == x);
    CountIsSelected(s, x);
  }

  // ---------------------------------------------------------------------
  // The array as a mutable object
  // ---------------------------------------------------------------------

  class RubyArray {
    var elems: seq<Value>

    /** An array literal. */
    constructor (elems: seq<Value>)
      ensures this.elems == elems
    {
      this.elems := elems;
    }

    /** `a << x` and `a.push(x)`: appends. */
    method Push(x: Value)
      modifies this
      ensures elems == old(elems) + [x]
    {
      elems := elems + [x];
    }

    /** `pop`: removes and returns the last element; nil when empty. */
    method Pop() returns (r: Option<Value>)
      modifies this
      ensures r == Last(old(elems))
      ensures elems == if old(elems) == [] then [] else old(elems)[..|old(elems)| - 1]
    {
      if elems == [] {
        r := None;
      } else {
        r := Some(elems[|elems| - 1]);
        elems := elems[..|elems| - 1];
      }
    }

    /** `shift`: removes and returns the first element; nil when empty. */
    method Shift() returns (r: Option<Value>)
      modifies this
      ensures r == First(old(elems))
      ensures elems == if old(elems) == [] then [] else old(elems)[1..]
    {
      if elems == [] {
        r := None;
      } else {
        r := Some(elems[0]);
        elems := elems[1..];
      }
    }

    /** `unshift(x)`: puts `x` in front. */
    method Unshift(x: Value)
      modifies this
      ensures elems == [x] + old(elems)
    {
      elems := [x] + elems;
    }

    /** `insert(i, x)`; `ok` is false where Ruby raises IndexError, and the
        array is then left as it was. */
    method Insert(i: int, x: Value) returns (ok: bool)
      modifies this
      ensures ok == InsertAt(old(elems), i, x).Some?
      ensures elems == if ok then InsertAt(old(elems), i, x).value else old(elems)
    {
      var r := InsertAt(elems, i, x);
      ok := r.Some?;
      if ok {
        elems := r.value;
      }
    }

    /** `delete_at(i)`: removes and returns the element at the position. */
    method DeleteAt(i: int) returns (r: Option<Value>)
      modifies this
      ensures (r, elems) == RemoveAt(old(elems), i)
    {
      var p := Position(|elems|, i);
      if p.None? {
        r := None;
      } else {
        r := Some(elems[p.value]);
        elems := elems[..p.value] + elems[p.value + 1..];
      }
    }

    /** `delete(x)`: removes every element equal to `x`; returns `x` when
        there was one, nil otherwise. */
    method Delete(x: Value) returns (r: Option<Value>)
      modifies this
      ensures r == if x in old(elems) then Some(x) else None
      ensures elems == DeleteAll(old(elems), x)
    {
      r := if x in elems then Some(x) else None;
      elems := DeleteAll(elems, x);
    }

    /** `sort!` on an array of integers: sorts in place. */
    method SortInPlace()
      requires AllInts(elems)
      modifies this
      ensures AllInts(elems) && IntsOf(elems) == Sort(IntsOf(old(elems)))
    {
      var sorted := Sort(IntsOf(elems));
      elems := Enumerables.Map(sorted, n => Int(n));
      IntsOfInts(sorted);
    }
  }

  lemma {:induction false} IntsOfInts(xs: seq<int>)
    ensures AllInts(Enumerables.Map(xs, n => Int(n)))
    ensures IntsOf(Enumerables.Map(xs, n => Int(n))) == xs
  {
    var vs := Enumerables.Map(xs, n => Int(n));
    assert AllInts(vs);
    var r := IntsOf(vs);
    assert forall k :: 0 <= k < |xs| ==> r[k] == xs[k];
  }

  /** `reverse_each { |x| puts x }`: the elements printed last to first. */
  method ReverseEach(s: seq<Value>) returns (printed: seq<Value>)
    ensures |printed| == |s|
    ensures forall k :: 0 <= k < |s| ==> printed[k] == s[|s| - 1 - k]
  {
    printed := [];
    var i := |s|;
    while i > 0
      invariant 0 <= i <= |s|
      invariant |printed| == |s| - i
      invariant forall k :: 0 <= k < |printed| ==> printed[k] == s[|s| - 1 - k]
    {
      i := i - 1;
      printed := printed + [s[i]];
    }
  }

  /** Lines 51-59: push 1, 2, 3, then twice push the sum of two pops. */
  method StackDemo() returns (result: seq<Value>)
    ensures result == [Int(6)]
  {
    var nums := new RubyArray([]);
    nums.Push(Int(1));
    nums.Push(Int(2));
    nums.Push(Int(3));
    var a := nums.Pop();
    var b := nums.Pop();
    nums.Push(Int(a.value.i + b.value.i));
    a := nums.Pop();
    b := nums.Pop();
    nums.Push(Int(a.value.i + b.value.i));
    result := nums.elems;
  }

  /** Lines 63-74: a queue by `delete_at(0)` and `push`, and `shift` then
      `unshift`. */
  method QueueDemo() returns (queue: seq<Value>, shifted: seq<Value>)
    ensures queue == [Int(2), Int(3), Int(4)]
    ensures shifted == [Int(5), Int(2), Int(3)]
  {
    var nums := new RubyArray([Int(1), Int(2), Int(3)]);
    var _ := nums.DeleteAt(0);
    nums.Push(Int(4));
    queue := nums.elems;
    nums := new RubyArray([Int(1), Int(2), Int(3)]);
    var _ := nums.Shift();
    nums.Unshift(Int(5));
    shifted := nums.elems;
  }

  /** Lines 134-144: `<< 6`, `push(7)`, `unshift(0)`, `insert(3, "banana")`,
      `pop`, `shift` and `delete_at(2)` on `[1, 2, 3, 4, 5]`. */
  method AddRemoveDemo() returns (popped: Option<Value>, shifted: Option<Value>, removed: Option<Value>, after: seq<Value>)
    ensures popped == Some(Int(7)) && shifted == Some(Int(0)) && removed == Some(Str("banana"))
    ensures after == [Int(1), Int(2), Int(3), Int(4), Int(5), Int(6)]
  {
    var a := new RubyArray([Int(1), Int(2), Int(3), Int(4), Int(5)]);
    a.Push(Int(6));
    a.Push(Int(7));
    a.Unshift(Int(0));
    var _ := a.Insert(3, Str("banana"));
    assert a.elems == [Int(0), Int(1), Int(2), Str("banana"), Int(3), Int(4), Int(5), Int(6), Int(7)];
    popped := a.Pop();
    shifted := a.Shift();
    removed := a.DeleteAt(2);
    after := a.elems;
  }

  /** Lines 146-152: `push(6).delete(6)` returns 6 and removes both sixes;
      after `<< 6 << 6`, `uniq` drops the second 6. */
  method DeleteUniqDemo() returns (deleted: Option<Value>, afterDelete: seq<Value>, uniq: seq<Value>)
    ensures deleted == Some(Int(6))
    ensures afterDelete == [Int(1), Int(2), Int(3), Int(4), Int(5)]
    ensures uniq == [Int(1), Int(2), Int(3), Int(4), Int(5), Int(6)]
  {
    var a := new RubyArray([Int(1), Int(2), Int(3), Int(4), Int(5), Int(6)]);
    a.Push(Int(6));
    assert a.elems == [Int(1), Int(2), Int(3), Int(4), Int(5), Int(6), Int(6)];
    deleted := a.Delete(Int(6));
    DeleteAllSixes();
    afterDelete := a.elems;
    uniq := UniqAfterPushes(a);
  }

  method UniqAfterPushes(a: RubyArray) returns (uniq: seq<Value>)
    requires a.elems == [Int(1), Int(2), Int(3), Int(4), Int(5)]
    modifies a
    ensures uniq == [Int(1), Int(2), Int(3), Int(4), Int(5), Int(6)]
  {
    a.Push(Int(6));
    a.Push(Int(6));
    assert a.elems == [Int(1), Int(2), Int(3), Int(4), Int(5), Int(6), Int(6)];
    UniqSixes();
    uniq := Uniq(a.elems);
  }

  lemma DeleteAllSixes()
    ensures DeleteAll([Int(1), Int(2), Int(3), Int(4), Int(5), Int(6), Int(6)], Int(6)) == [Int(1), Int(2), Int(3), Int(4), Int(5)]
  {
    var s := [Int(1), Int(2), Int(3), Int(4), Int(5), Int(6), Int(6)];
    assert s[1..][1..][1..][1..][1..] == [Int(6), Int(6)];
  }

  lemma UniqSixes()
    ensures Uniq([Int(1), Int(2), Int(3), Int(4), Int(5), Int(6), Int(6)]) == [Int(1), Int(2), Int(3), Int(4), Int(5), Int(6)]
  {
    var u := [Int(1), Int(2), Int(3), Int(4), Int(5), Int(6)];
    assert NoDuplicates(u);
    UniqOfDistinct(u);
    assert (u + [Int(6)])[..6] == u;
    assert u + [Int(6)] == [Int(1), Int(2), Int(3), Int(4), Int(5), Int(6), Int(6)];
  }

  /** Lines 168-172: `select { num > 2 }` and `reject { num < 3 }` agree. */
  lemma SelectRejectExample()
    ensures Select([1, 2, 3, 4, 5, 6], n => n > 2) == [3, 4, 5, 6]
    ensures Reject([1, 2, 3, 4, 5, 6], n => n < 3) == [3, 4, 5, 6]
  {
    var s := [1, 2, 3, 4, 5, 6];
    assert s[1..] == [2, 3, 4, 5, 6];
    assert s[1..][1..] == [3, 4, 5, 6];
    assert s[1..][1..][1..] == [4, 5, 6];
    assert s[1..][1..][1..][1..] == [5, 6];
    assert s[1..][1..][1..][1..][1..] == [6];
  }
}
