/** iterator_enumerable_loop.rb: an external Enumerator with a cursor, the
    Enumerable methods the notes demonstrate (each as a function over the
    sequence of items `each` yields, a block as a function argument), the two
    ways of counting occurrences, and the `for`, `while` and `until` loops,
    whose printed lines are returned as a sequence. */
module Enumerables {
  import opened RubyCore
  import opened Sequences
  import Hashes

  // ---------------------------------------------------------------------
  // External enumerator (lines 57-76, 273-276)
  // ---------------------------------------------------------------------

  /** `ary.each` without a block: the items and an internal position. */
  class Enumerator<T> {
    const items: seq<T>
    var pos: nat

    ghost predicate Valid()
      reads this
    {
      pos <= |items|
    }

    constructor (items: seq<T>)
      ensures Valid() && this.items == items && pos == 0
    {
      this.items := items;
      pos := 0;
    }

    /** `enum.size` */
    function Size(): nat
    {
      |items|
    }

    /** `enum.next`: the item at the position, which then moves forward; at
        the end it raises StopIteration (None) and the position stays. */
    method Next() returns (r: Option<T>)
      requires Valid()
      modifies this
      ensures Valid()
      ensures old(pos) < |items| ==> r == Some(items[old(pos)]) && pos == old(pos) + 1
      ensures old(pos) == |items| ==> r == None && pos == old(pos)
    {
      if pos < |items| {
        r := Some(items[pos]);
        pos := pos + 1;
      } else {
        r := None;
      }
    }

    /** `enum.peek`: the item `next` would return, without moving. */
    function Peek(): (r: Option<T>)
      reads this
      requires Valid()
      ensures r.Some? <==> pos < |items|
      ensures r.Some? ==> r.value == items[pos]
    {
      if pos < |items| then Some(items[pos]) else None
    }

    /** `enum.rewind` */
    method Rewind()
      modifies this
      ensures Valid() && pos == 0
    {
      pos := 0;
    }
  }

  /** Lines 57-76 on `[1, 2, 3, 4, 5].each`: size, next, next, peek, next,
      rewind, next. */
  method EnumeratorDemo() returns (observed: seq<Option<int>>, size: nat)
    ensures size == 5
    ensures observed == [Some(1), Some(2), Some(3), Some(3), Some(1)]
  {
    var e := new Enumerator([1, 2, 3, 4, 5]);
    size := e.Size();
    var a := e.Next();
    var b := e.Next();
    var c := e.Peek();
    var d := e.Next();
    e.Rewind();
    var f := e.Next();
    observed := [a, b, c, d, f];
  }

  /** Lines 273-276: `loop do puts it.next end`; `loop` ends the loop quietly
      when `next` raises StopIteration. Returns the printed items. */
  method LoopUntilStop<T>(e: Enumerator<T>) returns (printed: seq<T>)
    requires e.Valid()
    modifies e
    ensures e.Valid() && e.pos == |e.items|
    ensures printed == e.items[old(e.pos)..]
  {
    printed := [];
    while true
      invariant e.Valid() && old(e.pos) <= e.pos
      invariant printed == e.items[old(e.pos)..e.pos]
      decreases |e.items| - e.pos
    {
      var x := e.Next();
      if x.None? {
        break;
      }
      printed := printed + [x.value];
    }
  }

  // ---------------------------------------------------------------------
  // Enumerable methods over the items `each` yields
  // ---------------------------------------------------------------------

  /** `map { |x| f(x) }` */
  function Map<T, U>(s: seq<T>, f: T -> U): (r: seq<U>)
    ensures |r| == |s|
    ensures forall i :: 0 <= i < |s| ==> r[i] == f(s[i])
  {
    if s == [] then [] else [f(s[0])] + Map(s[1..], f)
  }

  /** `count(x)`: how many items equal `x`. */
  function Count<T(==)>(s: seq<T>, x: T): (r: nat)
    ensures r == multiset(s)[x]
  {
    if s == [] then 0
    else
      assert s == [s[0]] + s[1..];
      (if s[0] == x then 1 else 0) + Count(s[1..], x)
  }

  /** `select { |x| p(x) }`: the items the block accepts, in order. */
  function Select<T>(s: seq<T>, p: T -> bool): (r: seq<T>)
    ensures |r| <= |s|
    ensures forall i :: 0 <= i < |r| ==> p(r[i])
  {
    if s == [] then [] else (if p(s[0]) then [s[0]] else []) + Select(s[1..], p)
  }

  /** `reject { |x| p(x) }`: the items the block refuses, in order. */
  function Reject<T>(s: seq<T>, p: T -> bool): (r: seq<T>)
    ensures |r| <= |s|
    ensures forall i :: 0 <= i < |r| ==> !p(r[i])
  {
    if s == [] then [] else (if p(s[0]) then [] else [s[0]]) + Reject(s[1..], p)
  }

  /** `select` and `reject` with the same block split the items between
      them: together they hold every item exactly as often as the input. */
  lemma {:induction false} SelectRejectPartition<T>(s: seq<T>, p: T -> bool)
    ensures multiset(Select(s, p)) + multiset(Reject(s, p)) == multiset(s)
    ensures |Select(s, p)| + |Reject(s, p)| == |s|
  {
    if s != [] {
      SelectRejectPartition(s[1..], p);
      assert s == [s[0]] + s[1..];
    }
  }

  /** `select` keeps the order of the input: on the concatenation of two
      pieces it is the concatenation of the two selections (with SelectOne,
      this fixes the result item by item). */
  lemma {:induction false} SelectAppend<T>(a: seq<T>, b: seq<T>, p: T -> bool)
    ensures Select(a + b, p) == Select(a, p) + Select(b, p)
  {
    if a != [] {
      SelectAppend(a[1..], b, p);
      assert (a + b)[1..] == a[1..] + b;
    } else {
      assert a + b == b;
    }
  }

  /** On a single item `select` keeps it or drops it as the block says. */
  lemma SelectOne<T>(x: T, p: T -> bool)
    ensures Select([x], p) == if p(x) then [x] else []
  {
    assert [x][1..] == [];
  }

  /** `reject` keeps the order of the input in the same way. */
  lemma {:induction false} RejectAppend<T>(a: seq<T>, b: seq<T>, p: T -> bool)
    ensures Reject(a + b, p) == Reject(a, p) + Reject(b, p)
  {
    if a != [] {
      RejectAppend(a[1..], b, p);
      assert (a + b)[1..] == a[1..] + b;
    } else {
      assert a + b == b;
    }
  }

  /** On a single item `reject` keeps it or drops it as the block says. */
  lemma RejectOne<T>(x: T, p: T -> bool)
    ensures Reject([x], p) == if p(x) then [] else [x]
  {
    assert [x][1..] == [];
  }

  /** An item is selected exactly when it is an item the block accepts. */
  lemma {:induction false} SelectMembers<T>(s: seq<T>, p: T -> bool, x: T)
    ensures x in Select(s, p) <==> x in s && p(x)
  {
    if s != [] {
      SelectMembers(s[1..], p, x);
      assert s == [s[0]] + s[1..];
    }
  }

  /** `count { |x| p(x) }`: the number of items the block accepts. */
  function CountIf<T>(s: seq<T>, p: T -> bool): (r: nat)
    ensures r == |Select(s, p)|
  {
    if s == [] then 0 else (if p(s[0]) then 1 else 0) + CountIf(s[1..], p)
  }

  /** `all? { |x| p(x) }` (and `all?` without a block, with p = Truthy). */
  predicate All<T>(s: seq<T>, p: T -> bool)
    ensures All(s, p) <==> forall i :: 0 <= i < |s| ==> p(s[i])
  {
    s == [] || (p(s[0]) && All(s[1..], p))
  }

  /** `any? { |x| p(x) }`: stops at the first item the block accepts. */
  predicate Any<T>(s: seq<T>, p: T -> bool)
    ensures Any(s, p) <==> exists i :: 0 <= i < |s| && p(s[i])
  {
    s != [] && (p(s[0]) || Any(s[1..], p))
  }

  /** `none? { |x| p(x) }` */
  predicate NoneOf<T>(s: seq<T>, p: T -> bool)
    ensures NoneOf(s, p) <==> forall i :: 0 <= i < |s| ==> !p(s[i])
  {
    s == [] || (!p(s[0]) && NoneOf(s[1..], p))
  }

  /** `none?` is the negation of `any?`, and `all?` holds exactly when
      `reject` leaves nothing. */
  lemma {:induction false} QuantifierDualities<T>(s: seq<T>, p: T -> bool)
    ensures NoneOf(s, p) <==> !Any(s, p)
    ensures All(s, p) <==> Reject(s, p) == []
  {
    if s != [] {
      QuantifierDualities(s[1..], p);
    }
  }

  /** `take_while { |x| p(x) }`: the longest prefix the block accepts. */
  function TakeWhile<T>(s: seq<T>, p: T -> bool): (r: seq<T>)
    ensures |r| <= |s| && r == s[..|r|]
    ensures forall i :: 0 <= i < |r| ==> p(s[i])
    ensures |r| < |s| ==> !p(s[|r|])
  {
    if s == [] || !p(s[0]) then [] else [s[0]] + TakeWhile(s[1..], p)
  }

  /** `find_index { |x| p(x) }`: the position of the first item the block
      accepts, or nil. */
  function FindIndex<T>(s: seq<T>, p: T -> bool): (r: Option<nat>)
    ensures r.Some? ==> r.value < |s| && p(s[r.value])
    ensures r.Some? ==> forall j :: 0 <= j < r.value ==> !p(s[j])
    ensures r.None? <==> forall j :: 0 <= j < |s| ==> !p(s[j])
  {
    if s == [] then None
    else if p(s[0]) then Some(0)
    else match FindIndex(s[1..], p)
      case None => None
      case Some(i) => Some(i + 1)
  }

  /** `find { |x| p(x) }` (alias `detect`): the first item the block
      accepts, or nil. */
  function Find<T>(s: seq<T>, p: T -> bool): (r: Option<T>)
    ensures r.Some? ==> p(r.value) && r.value in s
    ensures r.None? <==> NoneOf(s, p)
  {
    if s == [] then None
    else if p(s[0]) then Some(s[0])
    else Find(s[1..], p)
  }

  /** `find` returns the item at the position `find_index` reports. */
  lemma {:induction false} FindAtFindIndex<T>(s: seq<T>, p: T -> bool)
    ensures Find(s, p).Some? <==> FindIndex(s, p).Some?
    ensures FindIndex(s, p).Some? ==> Find(s, p) == Some(s[FindIndex(s, p).value])
  {
    if s != [] && !p(s[0]) {
      FindAtFindIndex(s[1..], p);
    }
  }

  /** `first`: the first item, or nil for an empty collection. */
  function First<T>(s: seq<T>): (r: Option<T>)
    ensures r.None? <==> s == []
    ensures r.Some? ==> r.value == s[0]
  {
    if s == [] then None else Some(s[0])
  }

  /** `first(n)` and Array#take(n): the first `n` items (all of them when
      there are fewer); a negative count raises ArgumentError (None). */
  function Take<T>(s: seq<T>, n: int): (r: Option<seq<T>>)
    ensures r.None? <==> n < 0
    ensures r.Some? ==> |r.value| == (if n < |s| then n else |s|) && r.value == s[..|r.value|]
  {
    if n < 0 then None else if n < |s| then Some(s[..n]) else Some(s)
  }

  /** Array#drop(n): everything after the first `n` items. */
  function Drop<T>(s: seq<T>, n: int): (r: Option<seq<T>>)
    ensures r.None? <==> n < 0
    ensures r.Some? ==> |r.value| == (if n < |s| then |s| - n else 0) && r.value == s[|s| - |r.value|..]
  {
    if n < 0 then None else if n < |s| then Some(s[n..]) else Some([])
  }

  /** `take(n) + drop(n)` gives back the collection. */
  lemma TakeDropSplit<T>(s: seq<T>, n: nat)
    ensures Take(s, n).value + Drop(s, n).value == s
  {
  }

  /** `reduce { |acc, x| op(acc, x) }` without an initial value: folds from
      the left starting with the first item; nil for an empty collection. */
  function Reduce<T>(s: seq<T>, op: (T, T) -> T): (r: Option<T>)
    ensures r.None? <==> s == []
  {
    if s == [] then None else Some(FoldLeft(s[0], s[1..], op))
  }

  function FoldLeft<T>(acc: T, s: seq<T>, op: (T, T) -> T): T
  {
    if s == [] then acc else FoldLeft(op(acc, s[0]), s[1..], op)
  }

  /** The sum of integers, defined from the right. */
  function Sum(s: seq<int>): int
  {
    if s == [] then 0 else s[0] + Sum(s[1..])
  }

  /** The product of integers, defined from the right. */
  function Product(s: seq<int>): int
  {
    if s == [] then 1 else s[0] * Product(s[1..])
  }

  lemma {:induction false} FoldLeftAdd(acc: int, s: seq<int>)
    decreases s
    ensures FoldLeft(acc, s, (a: int, b: int) => a + b) == acc + Sum(s)
  {
    if s != [] {
      FoldLeftAdd(acc + s[0], s[1..]);
    }
  }

  lemma {:induction false} FoldLeftMul(acc: int, s: seq<int>)
    decreases s
    ensures FoldLeft(acc, s, (a: int, b: int) => a * b) == acc * Product(s)
  {
    if s != [] {
      FoldLeftMul(acc * s[0], s[1..]);
      assert acc * s[0] * Product(s[1..]) == acc * (s[0] * Product(s[1..]));
    }
  }

  /** `reduce(:+)` and `reduce(:*)` on a non-empty collection are its sum and
      its product. */
  lemma ReduceSumProduct(s: seq<int>)
    requires s != []
    ensures Reduce(s, (a: int, b: int) => a + b) == Some(Sum(s))
    ensures Reduce(s, (a: int, b: int) => a * b) == Some(Product(s))
  {
    FoldLeftAdd(s[0], s[1..]);
    FoldLeftMul(s[0], s[1..]);
  }

  /** `a.zip(b)`: pairs items by position; the result is as long as `a`, and
      positions past the end of `b` pair with nil. */
  function Zip<T, U>(a: seq<T>, b: seq<U>): (r: seq<(T, Option<U>)>)
    ensures |r| == |a|
  {
    if a == [] then []
    else [(a[0], First(b))] + Zip(a[1..], if b == [] then [] else b[1..])
  }

  /** Position `i` of `a.zip(b)` holds `a[i]` and, when `b` reaches that far, `b[i]`. */
  lemma {:induction false} ZipAt<T, U>(a: seq<T>, b: seq<U>, i: nat)
    requires i < |a|
    ensures Zip(a, b)[i] == (a[i], if i < |b| then Some(b[i]) else None)
  {
    if i > 0 {
      ZipAt(a[1..], if b == [] then [] else b[1..], i - 1);
    }
  }

  // ---------------------------------------------------------------------
  // The results written next to the calls (lines 125-245)
  // ---------------------------------------------------------------------

  /** Lines 125-133; a missing block tests truthiness. Every item of
      `[2, 4, 6, 8]` is below 10, so `none? { |n| n < 10 }` is false (the
      comment at line 133 says true). */
  lemma QuantifierExamples()
    ensures All([2, 4, 6], n => n % 2 == 0)
    ensures !All([Int(1), Int(2), Nil, Int(5)], Truthy)
    ensures Any([2, 4, 6, 9], n => n % 2 == 1)
    ensures Any([Nil, Bool(false), Str("foo")], Truthy)
    ensures !NoneOf([2, 4, 6, 8], n => n < 10)
  {
    assert !Truthy([Int(1), Int(2), Nil, Int(5)][2]);
    assert [2, 4, 6, 9][3] % 2 == 1;
    assert Truthy([Nil, Bool(false), Str("foo")][2]);
  }

  /** Lines 137-139. */
  lemma CountExamples()
    ensures Count(["foo", "bar", "baz", "foo"], "foo") == 2
    ensures CountIf([2, 5, 6, 9, 10], i => i % 2 == 0) == 3
  {
    var a := ["foo", "bar", "baz", "foo"];
    assert a[1..][1..][1..] == ["foo"];
    var b := [2, 5, 6, 9, 10];
    assert b[1..][1..][1..][1..] == [10];
  }

  /** Lines 163 and 176. */
  lemma SelectRejectExamples()
    ensures Select([1, 2, 3, 4, 5, 6, 8, 9], n => n > 3) == [4, 5, 6, 8, 9]
    ensures Reject([1, 2, 3, 4, 5, 6, 8, 9], n => n > 3) == [1, 2, 3]
  {
    var s := [1, 2, 3, 4, 5, 6, 8, 9];
    assert s[1..][1..][1..] == [4, 5, 6, 8, 9];
    assert s[1..][1..][1..][1..][1..][1..] == [8, 9];
  }

  /** Lines 196-200. */
  lemma TakeWhileFindExamples()
    ensures TakeWhile([1, 2, 3, 4, 5, 6, 1, 2, 3, 8], a => a < 4) == [1, 2, 3]
    ensures Find([1, 3, 6, 8, 10], n => n > 5) == Some(6)
  {
    var s := [1, 2, 3, 4, 5, 6, 1, 2, 3, 8];
    assert s[1..][1..][1..] == [4, 5, 6, 1, 2, 3, 8];
    var t := [1, 3, 6, 8, 10];
    assert t[1..][1..] == [6, 8, 10];
  }

  /** Line 206: the first string that includes "ba" is at position 2. */
  lemma FindIndexExample()
    ensures FindIndex(["foo", "foo", "bar", "baz"], x => Contains(x, "ba")) == Some(2)
  {
    assert Contains("bar", "ba") by {
      assert "bar"[0..][0] == 'b' && "bar"[0..][1] == 'a';
      assert "ba" <= "bar"[0..];
    }
    assert !Contains("foo", "ba") by {
      forall i | 0 <= i <= 3
        ensures !("ba" <= "foo"[i..])
      {
        assert i < 3 ==> "foo"[i..][0] != 'b';
      }
    }
    var u := ["foo", "foo", "bar", "baz"];
    assert u[1..][1..] == ["bar", "baz"];
  }

  /** Lines 209-211. */
  lemma FirstExamples()
    ensures First(["foo", "bar", "baz"]) == Some("foo")
    ensures Take(["foo", "bar", "baz"], 2) == Some(["foo", "bar"])
  {
    assert ["foo", "bar", "baz"][..2] == ["foo", "bar"];
  }

  /** Lines 226-230. */
  lemma ReduceExamples()
    ensures Reduce([2, 3, 5], (a: int, b: int) => a + b) == Some(10)
    ensures Reduce([2, 3, 5], (a: int, b: int) => a * b) == Some(30)
  {
    ReduceSumProduct([2, 3, 5]);
    assert [2, 3, 5][1..][1..] == [5];
  }

  /** Lines 243-245. */
  lemma ZipExample()
    ensures Zip([1, 3, 5], [9, 5, 1]) == [(1, Some(9)), (3, Some(5)), (5, Some(1))]
  {
    assert [1, 3, 5][1..][1..] == [5];
    assert [9, 5, 1][1..][1..] == [1];
  }

  /** Lines 273-276 on `(1..9).each`: the nine numbers, then a quiet stop. */
  method LoopDemo() returns (printed: seq<int>)
    ensures printed == [1, 2, 3, 4, 5, 6, 7, 8, 9]
  {
    var e := new Enumerator([1, 2, 3, 4, 5, 6, 7, 8, 9]);
    printed := LoopUntilStop(e);
  }

  // ---------------------------------------------------------------------
  // Counting occurrences (lines 146-158)
  // ---------------------------------------------------------------------

  /** The occurrence count of every distinct item, built item by item as
      the `each_with_object` loop does. */
  function Tally<T(==)>(s: seq<T>): map<T, nat>
  {
    if s == [] then map[]
    else
      var t := Tally(s[..|s| - 1]);
      var x := s[|s| - 1];
      t[x := (if x in t then t[x] else 0) + 1]
  }

  /** The tally has a key for exactly the items there are, and each key maps
      to its number of occurrences. */
  lemma {:induction false} TallyCounts<T>(s: seq<T>)
    ensures forall i :: 0 <= i < |s| ==> s[i] in Tally(s)
    ensures forall x :: x in Tally(s) ==> x in s && Tally(s)[x] == multiset(s)[x]
  {
    if s != [] {
      var p, x := s[..|s| - 1], s[|s| - 1];
      assert s == p + [x];
      TallyCounts(p);
    }
  }

  /** One more item adds one to its count and leaves the others alone. */
  lemma TallySnoc<T>(p: seq<T>, x: T)
    ensures Tally(p + [x]) == Tally(p)[x := (if x in Tally(p) then Tally(p)[x] else 0) + 1]
  {
    assert (p + [x])[..|p|] == p;
  }

  lemma TallyStep<T>(arr: seq<T>, i: nat)
    requires i < |arr|
    ensures var t := Tally(arr[..i]);
      Tally(arr[..i + 1]) == t[arr[i] := (if arr[i] in t then t[arr[i]] else 0) + 1]
  {
    assert arr[..i + 1] == arr[..i] + [arr[i]];
    TallySnoc(arr[..i], arr[i]);
  }

  /** `arr.each_with_object(Hash.new(0)) { |word, counts| counts[word] += 1 }` */
  method CountWithObject<T(==)>(arr: seq<T>) returns (counts: map<T, nat>)
    ensures counts == Tally(arr)
  {
    var h := new Hashes.RubyHash<T, nat>(Some(0));
    var i := 0;
    while i < |arr|
      invariant 0 <= i <= |arr|
      invariant h.default == Some(0)
      invariant h.entries == Tally(arr[..i])
    {
      var word := arr[i];
      ghost var t := Tally(arr[..i]);
      var current := h.Get(word);
      assert current.value == if word in t then t[word] else 0;
      h.Store(word, current.value + 1);
      TallyStep(arr, i);
      i := i + 1;
    }
    assert arr[..i] == arr;
    counts := h.entries;
  }

  /** `arr.group_by(&:itself)`: every distinct item with the list of its
      occurrences. */
  function GroupByItself<T(==)>(s: seq<T>): (r: map<T, seq<T>>)
    ensures forall x :: x in r ==> x in s
    ensures forall k :: 0 <= k < |s| ==> s[k] in r
    ensures forall x :: x in r ==> r[x] == Select(s, y => y == x)
  {
    map x | x in s :: Select(s, y => y == x)
  }

  /** `Hash[arr.group_by(&:itself).map { |key, value| [key, value.size] }]`
      gives the same counts as the loop. */
  lemma GroupByCountsAgree<T>(s: seq<T>)
    ensures (map x | x in GroupByItself(s) :: |GroupByItself(s)[x]|) == Tally(s)
  {
    var g := GroupByItself(s);
    var c := map x | x in g :: |g[x]|;
    TallyCounts(s);
    forall x | x in c
      ensures x in Tally(s) && c[x] == Tally(s)[x]
    {
      CountIsSelected(s, x);
      var i :| 0 <= i < |s| && s[i] == x;
    }
  }

  lemma {:induction false} CountIsSelected<T>(s: seq<T>, x: T)
    ensures |Select(s, y => y == x)| == multiset(s)[x]
  {
    if s != [] {
      CountIsSelected(s[1..], x);
      assert s == [s[0]] + s[1..];
    }
  }

  /** The counts of the distinct items, in first-occurrence order, add up. */
  function SumOver<T>(keys: seq<T>, c: map<T, nat>): nat
    requires forall i :: 0 <= i < |keys| ==> keys[i] in c
  {
    if keys == [] then 0 else SumOver(keys[..|keys| - 1], c) + c[keys[|keys| - 1]]
  }

  lemma {:induction false} SumOverUpdate<T>(keys: seq<T>, c: map<T, nat>, x: T, v: nat)
    requires forall i :: 0 <= i < |keys| ==> keys[i] in c
    requires NoDuplicates(keys)
    ensures x !in keys ==> SumOver(keys, c[x := v]) == SumOver(keys, c)
    ensures x in keys && x in c ==> SumOver(keys, c[x := v]) == SumOver(keys, c) - c[x] + v
  {
    if keys != [] {
      var p := keys[..|keys| - 1];
      SumOverUpdate(p, c, x, v);
      if keys[|keys| - 1] == x {
        assert x !in p by {
          forall i | 0 <= i < |p| ensures p[i] != x {
            assert keys[i] != keys[|keys| - 1];
          }
        }
      } else {
        assert x in keys ==> x in p by {
          if x in keys {
            var i :| 0 <= i < |keys| && keys[i] == x;
            assert i < |keys| - 1;
            assert p[i] == x;
          }
        }
      }
    }
  }

  /** The counts add up to the number of items. */
  lemma {:induction false} TallySumsToLength<T>(s: seq<T>)
    ensures forall i :: 0 <= i < |Uniq(s)| ==> Uniq(s)[i] in Tally(s)
    ensures SumOver(Uniq(s), Tally(s)) == |s|
  {
    if s != [] {
      var p, x := s[..|s| - 1], s[|s| - 1];
      assert s == p + [x];
      TallySumsToLength(p);
      TallyCounts(p);
      var t, u := Tally(p), Uniq(p);
      SumOverUpdate(u, t, x, (if x in t then t[x] else 0) + 1);
      if x !in p {
        assert x !in u;
        assert Uniq(s) == u + [x];
        assert (u + [x])[..|u|] == u;
      }
    }
  }

  /** Line 149: `{"foo"=>3, "bar"=>1, "baz"=>2}`. */
  lemma TallyExample()
    ensures Tally(["foo", "bar", "baz", "foo", "foo", "baz"]) == map["foo" := 3, "bar" := 1, "baz" := 2]
  {
    var foo, bar, baz := "foo", "bar", "baz";
    assert foo != bar && foo != baz && bar != baz;
    TallyExampleSteps(foo, bar, baz);
  }

  lemma TallyExampleFirstThree<T>(foo: T, bar: T, baz: T)
    requires foo != bar && foo != baz && bar != baz
    ensures Tally([foo, bar, baz]) == map[foo := 1, bar := 1, baz := 1]
  {
    TallySnoc([], foo);
    assert [] + [foo] == [foo];
    TallySnoc([foo], bar);
    assert [foo] + [bar] == [foo, bar];
    TallySnoc([foo, bar], baz);
    assert [foo, bar] + [baz] == [foo, bar, baz];
  }

  lemma TallyExampleSteps<T>(foo: T, bar: T, baz: T)
    requires foo != bar && foo != baz && bar != baz
    ensures Tally([foo, bar, baz, foo, foo, baz]) == map[foo := 3, bar := 1, baz := 2]
  {
    TallyExampleFirstThree(foo, bar, baz);
    TallySnoc([foo, bar, baz], foo);
    assert [foo, bar, baz] + [foo] == [foo, bar, baz, foo];
    TallySnoc([foo, bar, baz, foo], foo);
    assert [foo, bar, baz, foo] + [foo] == [foo, bar, baz, foo, foo];
    TallySnoc([foo, bar, baz, foo, foo], baz);
    assert [foo, bar, baz, foo, foo] + [baz] == [foo, bar, baz, foo, foo, baz];
  }

  // ---------------------------------------------------------------------
  // Loops (lines 254-270)
  // ---------------------------------------------------------------------

  /** Lines 259-263: `while (i < ary.size)` prints every item once. */
  method WhileLoop<T>(ary: seq<T>) returns (printed: seq<T>)
    ensures printed == ary
  {
    printed := [];
    var i := 0;
    while i < |ary|
      invariant 0 <= i <= |ary|
      invariant printed == ary[..i]
    {
      printed := printed + [ary[i]];
      i := i + 1;
    }
  }

  /** Lines 266-270 as written: `until (i > ary.size)` runs while
      `i <= ary.size`, so the last pass reads `ary[ary.size]`, which is nil. */
  method UntilLoopAsWritten<T>(ary: seq<T>) returns (printed: seq<Option<T>>)
    ensures |printed| == |ary| + 1
    ensures forall i :: 0 <= i < |ary| ==> printed[i] == Some(ary[i])
    ensures printed[|ary|] == None
  {
    printed := [];
    var i := 0;
    while !(i > |ary|)
      invariant 0 <= i <= |ary| + 1
      decreases |ary| + 1 - i
      invariant |printed| == i
      invariant forall j :: 0 <= j < i ==> printed[j] == (if j < |ary| then Some(ary[j]) else None)
    {
      printed := printed + [if i < |ary| then Some(ary[i]) else None];
      i := i + 1;
    }
  }

  /** The until loop the comment describes: `until (i >= ary.size)` prints
      every item once, as the while loop does. */
  method UntilLoop<T>(ary: seq<T>) returns (printed: seq<T>)
    ensures printed == ary
  {
    printed := [];
    var i := 0;
    while !(i >= |ary|)
      invariant 0 <= i <= |ary|
      decreases |ary| - i
      invariant printed == ary[..i]
    {
      printed := printed + [ary[i]];
      i := i + 1;
    }
  }

  /** Lines 266-270 on `ary = [1, 2, 3, 4, 5]`: five numbers and then a
      sixth line for nil, not the 1 to 5 the comment at line 267 shows. */
  method UntilLoopDemo() returns (asWritten: seq<Option<int>>, intended: seq<int>)
    ensures |asWritten| == 6 && asWritten[5] == None
    ensures intended == [1, 2, 3, 4, 5]
  {
    asWritten := UntilLoopAsWritten([1, 2, 3, 4, 5]);
    intended := UntilLoop([1, 2, 3, 4, 5]);
  }

  /** Lines 254-256: `for i in lo..hi; puts i if i % k == 0; end` prints the
      multiples of `k` in the range, in increasing order. */
  method ForMultiples(lo: int, hi: int, k: int) returns (printed: seq<int>)
    requires k != 0
    ensures forall j :: 0 <= j < |printed| ==> lo <= printed[j] <= hi && printed[j] % k == 0
    ensures forall j, l :: 0 <= j < l < |printed| ==> printed[j] < printed[l]
    ensures forall x :: lo <= x <= hi && x % k == 0 ==> x in printed
  {
    printed := [];
    var i := lo;
    while i <= hi
      invariant lo <= i <= hi + 1 || (hi < lo && i == lo)
      invariant forall j :: 0 <= j < |printed| ==> lo <= printed[j] < i && printed[j] % k == 0
      invariant forall j, l :: 0 <= j < l < |printed| ==> printed[j] < printed[l]
      invariant forall x :: lo <= x < i && x % k == 0 ==> x in printed
    {
      if i % k == 0 {
        printed := printed + [i];
      }
      i := i + 1;
    }
  }
}
