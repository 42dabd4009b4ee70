/** ruby/memoization.rb: the three conditional-assignment idioms on a hash
    whose `[]=` announces every write, and a Fibonacci function that fills
    a memo hash in place. */
module Memoization {
  import opened RubyCore

  // ---------------------------------------------------------------------
  // Conditional assignment on a hash that reports its writes
  // ---------------------------------------------------------------------

  /** The demo's keys are the symbols :x, :y and :z, written here by name. */
  type Key = string

  /** A hash together with the list of writes its overridden `[]=` has
      announced, oldest first. */
  datatype Store = Store(entries: map<Key, Value>, writes: seq<(Key, Value)>)

  /** `h[k]`: the stored value, or nil for a missing key. */
  function Lookup(st: Store, k: Key): (r: Value)
    ensures k !in st.entries ==> r == Nil
  {
    if k in st.entries then st.entries[k] else Nil
  }

  /** The overridden `h[k] = v`: stores the value and announces the write. */
  function Write(st: Store, k: Key, v: Value): (r: Store)
    ensures Lookup(r, k) == v
    ensures forall j :: j != k ==> Lookup(r, j) == Lookup(st, j)
    ensures r.writes == st.writes + [(k, v)]
  {
    Store(st.entries[k := v], st.writes + [(k, v)])
  }

  /** `h[k] ||= v`, and equally `h[k] || h[k] = v`: the write happens only
      when the current value is nil or false. */
  function OrAssign(st: Store, k: Key, v: Value): (r: Store)
    ensures Lookup(r, k) == OrElse(Lookup(st, k), v)
    ensures forall j :: j != k ==> Lookup(r, j) == Lookup(st, j)
    ensures Truthy(Lookup(st, k)) ==> r == st
    ensures !Truthy(Lookup(st, k)) ==> r.writes == st.writes + [(k, v)]
  {
    if Truthy(Lookup(st, k)) then st else Write(st, k, v)
  }

  /** `h[k] = h[k] || v`: always a write, even when it stores the value
      that was already there. */
  function AssignOr(st: Store, k: Key, v: Value): (r: Store)
    ensures Lookup(r, k) == OrElse(Lookup(st, k), v)
    ensures forall j :: j != k ==> Lookup(r, j) == Lookup(st, j)
    ensures r.writes == st.writes + [(k, OrElse(Lookup(st, k), v))]
  {
    Write(st, k, OrElse(Lookup(st, k), v))
  }

  /** The two idioms leave the same value behind; they differ only in the
      extra write that `h[k] = h[k] || v` makes when the key already holds a
      truthy value. */
  lemma IdiomsDifferOnlyInWrites(st: Store, k: Key, v: Value)
    ensures OrAssign(st, k, v).entries == AssignOr(st, k, v).entries
    ensures |AssignOr(st, k, v).writes| == |st.writes| + 1
    ensures |OrAssign(st, k, v).writes| == |st.writes| + (if Truthy(Lookup(st, k)) then 0 else 1)
  {
    if Truthy(Lookup(st, k)) {
      assert st.entries[k := st.entries[k]] == st.entries;
    }
  }

  /** The demonstration at lines 31-40, starting from an empty hash: four
      announced writes, in the order x, y, y, z, and 10 under every key. */
  lemma DemoWrites()
    ensures var s0 := Store(map[], []);
      var s1 := OrAssign(OrAssign(s0, "x", Int(10)), "x", Int(20));
      var s2 := AssignOr(AssignOr(s1, "y", Int(10)), "y", Int(20));
      var s3 := OrAssign(OrAssign(s2, "z", Int(10)), "z", Int(10));
      s3.writes == [("x", Int(10)), ("y", Int(10)), ("y", Int(10)), ("z", Int(10))] &&
      s3.entries == map["x" := Int(10), "y" := Int(10), "z" := Int(10)]
  {
    var s0 := Store(map[], []);
    var s1 := OrAssign(OrAssign(s0, "x", Int(10)), "x", Int(20));
    var s2 := AssignOr(AssignOr(s1, "y", Int(10)), "y", Int(20));
    var s3 := OrAssign(OrAssign(s2, "z", Int(10)), "z", Int(10));
    assert "x" != "y" && "x" != "z" && "y" != "z";
    assert s3.entries == map["x" := Int(10), "y" := Int(10), "z" := Int(10)];
  }

  /** The hash `h` of lines 23-28, updated in place. */
  class PrintingHash {
    var entries: map<Key, Value>
    var writes: seq<(Key, Value)>

    function State(): Store
      reads this
    {
      Store(entries, writes)
    }

    constructor ()
      ensures State() == Store(map[], [])
    {
      entries := map[];
      writes := [];
    }

    /** `h[k]` */
    function Get(k: Key): (r: Value)
      reads this
      ensures r == Lookup(State(), k)
    {
      if k in entries then entries[k] else Nil
    }

    /** The overridden `h[k] = v`. */
    method Set(k: Key, v: Value)
      modifies this
      ensures State() == Write(old(State()), k, v)
    {
      entries := entries[k := v];
      writes := writes + [(k, v)];
    }

    /** `h[k] ||= v` */
    method OrAssignKey(k: Key, v: Value)
      modifies this
      ensures State() == OrAssign(old(State()), k, v)
    {
      var cur := Get(k);
      if !Truthy(cur) {
        Set(k, v);
      }
    }

    /** `h[k] = h[k] || v` */
    method AssignOrKey(k: Key, v: Value)
      modifies this
      ensures State() == AssignOr(old(State()), k, v)
    {
      var cur := Get(k);
      Set(k, OrElse(cur, v));
    }

    /** `h[k] || h[k] = v`: the assignment is the right operand of `||`, so it
        runs only when the lookup is falsy, exactly as for `||=`. */
    method OrElseAssignKey(k: Key, v: Value)
      modifies this
      ensures State() == OrAssign(old(State()), k, v)
    {
      var cur := Get(k);
      // `||` short-circuits: a truthy lookup is the value and nothing is written.
      if !Truthy(cur) {
        Set(k, v);
      }
    }
  }

  /** Lines 23-40 run on a fresh hash; returns the announced writes and the
      final contents. */
  method RunDemo() returns (log: seq<(string, Value)>, contents: map<string, Value>)
    ensures log == [("x", Int(10)), ("y", Int(10)), ("y", Int(10)), ("z", Int(10))]
    ensures contents == map["x" := Int(10), "y" := Int(10), "z" := Int(10)]
  {
    var h := new PrintingHash();
    h.OrAssignKey("x", Int(10));
    h.OrAssignKey("x", Int(20));
    h.AssignOrKey("y", Int(10));
    h.AssignOrKey("y", Int(20));
    h.OrElseAssignKey("z", Int(10));
    h.OrElseAssignKey("z", Int(10));
    DemoWrites();
    log, contents := h.writes, h.entries;
  }

  /** Lines 5-18: `a = nil; a ||= 20` gives 20, and then `c = nil; c = c || a`
      gives 20 as well. */
  lemma LocalOrAssign()
    ensures OrElse(Nil, Int(20)) == Int(20)
    ensures var a := OrElse(Nil, Int(20)); OrElse(Nil, a) == Int(20)
  {
  }

  // ---------------------------------------------------------------------
  // Memoised Fibonacci
  // ---------------------------------------------------------------------

  /** The Fibonacci numbers that `fib` computes. */
  function Fib(n: nat): nat
  {
    if n < 2 then n else Fib(n - 1) + Fib(n - 2)
  }

  /** The memo hash passed through the recursive calls of `fib`. */
  class Memo {
    var table: map<nat, nat>

    /** Every stored entry is the true Fibonacci number of a key of at least 2
        (`fib` never stores 0 or 1). */
    ghost predicate Valid()
      reads this
    {
      forall k :: k in table ==> 2 <= k && table[k] == Fib(k)
    }

    /** The default argument `memo = {}`. */
    constructor ()
      ensures Valid() && table == map[]
    {
      table := map[];
    }
  }

  /** `fib(n, memo)`: 0 and 1 are returned at once without touching the memo;
      otherwise `memo[n] ||= fib(n-1, memo) + fib(n-2, memo)`. Since Ruby
      integers are never falsy, a stored entry is returned as it is. */
  method FibMemo(n: nat, memo: Memo) returns (r: nat)
    requires memo.Valid()
    modifies memo
    decreases n
    ensures memo.Valid()
    ensures r == Fib(n)
    ensures n < 2 ==> memo.table == old(memo.table)
    ensures n >= 2 ==> n in memo.table
    ensures forall k :: k in old(memo.table) ==> k in memo.table
    ensures forall k :: k in memo.table ==> k in old(memo.table) || k <= n
  {
    if n == 0 || n == 1 {
      return n;
    }
    if n in memo.table {
      r := memo.table[n];
    } else {
      var a := FibMemo(n - 1, memo);
      var b := FibMemo(n - 2, memo);
      r := a + b;
      memo.table := memo.table[n := r];
    }
  }

  /** `fib(n)` called with its default, empty memo. */
  method FibFresh(n: nat) returns (r: nat)
    ensures r == Fib(n)
  {
    var memo := new Memo();
    r := FibMemo(n, memo);
  }
}
