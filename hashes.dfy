/** hashes.rb: Ruby's Hash as a finite map. The mutating operations
    (`[]=`, `store`, `delete`, `delete_if`, `keep_if`, `clear`) live on a class
    whose `entries` field they reassign; `merge`, `merge` with a block,
    `reject` and `select` and the recursive merge of nested hashes are
    functions that return new maps. */
module Hashes {
  import opened RubyCore

  // ---------------------------------------------------------------------
  // Operations that return a new hash
  // ---------------------------------------------------------------------

  /** `a.merge(b)` without a block: every key of either hash; on a key both
      have, the argument's value wins. */
  function Merge<K, V>(a: map<K, V>, b: map<K, V>): (r: map<K, V>)
    ensures r.Keys == a.Keys + b.Keys
    ensures forall k :: k in b ==> r[k] == b[k]
    ensures forall k :: k in a && k !in b ==> r[k] == a[k]
  {
    a + b
  }

  /** `a.merge(b) { |key, a_val, b_val| f(key, a_val, b_val) }`: as Merge, but
      a key both hashes have gets the block's value. */
  function MergeWith<K, V>(a: map<K, V>, b: map<K, V>, f: (K, V, V) -> V): (r: map<K, V>)
    ensures r.Keys == a.Keys + b.Keys
    ensures forall k :: k in a && k in b ==> r[k] == f(k, a[k], b[k])
    ensures forall k :: k in a && k !in b ==> r[k] == a[k]
    ensures forall k :: k !in a && k in b ==> r[k] == b[k]
  {
    map k | k in a.Keys + b.Keys ::
      if k in a && k in b then f(k, a[k], b[k]) else if k in b then b[k] else a[k]
  }

  /** A block that returns the argument's value makes `merge` with a block
      the plain `merge`. */
  lemma MergeWithLastIsMerge<K, V>(a: map<K, V>, b: map<K, V>)
    ensures MergeWith(a, b, (k: K, x: V, y: V) => y) == Merge(a, b)
  {
  }

  /** When no key is shared the block is never called. */
  lemma {:induction false} MergeWithDisjoint<K, V>(a: map<K, V>, b: map<K, V>, f: (K, V, V) -> V)
    requires a.Keys !! b.Keys
    ensures MergeWith(a, b, f) == Merge(a, b)
    ensures Merge(a, b) == Merge(b, a)
  {
    assert forall k :: k in Merge(a, b) ==> k in a || k in b;
  }

  /** Lines 101-106. */
  lemma MergeExamples()
    ensures var h1 := map["a" := 100, "b" := 200];
      var h2 := map["b" := 254, "c" := 300];
      Merge(h1, h2) == map["a" := 100, "b" := 254, "c" := 300] &&
      Merge(h2, h1) == map["a" := 100, "b" := 200, "c" := 300] &&
      MergeWith(h1, h2, (k: string, x: int, y: int) => x + y) == map["a" := 100, "b" := 454, "c" := 300]
  {
    var h1 := map["a" := 100, "b" := 200];
    var h2 := map["b" := 254, "c" := 300];
    assert MergeWith(h1, h2, (k: string, x: int, y: int) => x + y).Keys == {"a", "b", "c"};
  }

  /** `h.reject { |key, value| p(key, value) }`: a new hash without the entries
      the block accepts (line 87; the block as written at line 88 uses an
      undefined variable). */
  function Reject<K, V>(m: map<K, V>, p: (K, V) -> bool): (r: map<K, V>)
    ensures forall k :: k in r ==> k in m && !p(k, m[k])
    ensures forall k :: k in m && !p(k, m[k]) ==> k in r
    ensures forall k :: k in r ==> r[k] == m[k]
  {
    map k | k in m && !p(k, m[k]) :: m[k]
  }

  /** `h.select { |key, value| p(key, value) }`: a new hash of the entries the
      block accepts. */
  function Select<K, V>(m: map<K, V>, p: (K, V) -> bool): (r: map<K, V>)
    ensures forall k :: k in r ==> k in m && p(k, m[k])
    ensures forall k :: k in m && p(k, m[k]) ==> k in r
    ensures forall k :: k in r ==> r[k] == m[k]
  {
    map k | k in m && p(k, m[k]) :: m[k]
  }

  /** `select` and `reject` with the same block split a hash in two: no key
      lands in both and together they give back the hash. */
  lemma {:induction false} SelectRejectPartition<K, V>(m: map<K, V>, p: (K, V) -> bool)
    ensures Select(m, p).Keys !! Reject(m, p).Keys
    ensures Merge(Select(m, p), Reject(m, p)) == m
  {
    var s, j := Select(m, p), Reject(m, p);
    assert forall k :: k in m ==> k in s || k in j;
    assert Merge(s, j).Keys == m.Keys;
  }

  // ---------------------------------------------------------------------
  // Recursive merge of nested hashes
  // ---------------------------------------------------------------------

  /** A value in a nested hash: a plain object, or a hash of further values
      keyed by symbols (or any other keys). */
  datatype Nested<K> = Leaf(v: Value) | Hash(m: map<K, Nested<K>>)

  /** `merge_recursively(a, b)` (lines 116-118): `a.merge(b)` whose block
      merges the two values of a shared key recursively. It raises (None) when
      either argument is not a hash, which is what happens as soon as a shared
      key holds anything other than two hashes. */
  function MergeRecursively<K>(a: Nested<K>, b: Nested<K>): (r: Option<Nested<K>>)
    decreases a
    ensures !a.Hash? || !b.Hash? ==> r.None?
    ensures r.Some? ==> a.Hash? && b.Hash? && r.value.Hash?
    ensures r.Some? ==> r.value.m.Keys == a.m.Keys + b.m.Keys
    ensures r.Some? ==> forall k :: k in a.m && k !in b.m ==> r.value.m[k] == a.m[k]
    ensures r.Some? ==> forall k :: k !in a.m && k in b.m ==> r.value.m[k] == b.m[k]
  {
    if !a.Hash? || !b.Hash? then None
    else
      var shared := map k | k in a.m && k in b.m :: MergeRecursively(a.m[k], b.m[k]);
      if exists k :: k in shared && shared[k].None? then None
      else Some(Hash(map k | k in a.m.Keys + b.m.Keys ::
        if k in shared then shared[k].value else if k in b.m then b.m[k] else a.m[k]))
  }

  /** On a key both hashes hold, the result holds the recursive merge of the
      two values, and the whole call raises when that inner merge raises. */
  lemma MergeRecursivelyShared<K>(a: map<K, Nested<K>>, b: map<K, Nested<K>>, k: K)
    requires k in a && k in b
    ensures var r := MergeRecursively(Hash(a), Hash(b));
      (r.Some? ==> MergeRecursively(a[k], b[k]) == Some(r.value.m[k])) &&
      (MergeRecursively(a[k], b[k]).None? ==> r.None?)
  {
  }

  /** Two hashes whose shared keys all merge recursively give a result. */
  lemma MergeRecursivelySucceeds<K>(a: map<K, Nested<K>>, b: map<K, Nested<K>>)
    requires forall k :: k in a && k in b ==> MergeRecursively(a[k], b[k]).Some?
    ensures MergeRecursively(Hash(a), Hash(b)).Some?
  {
  }

  /** Two hashes without a shared key merge recursively exactly as `merge` does. */
  lemma MergeRecursivelyDisjoint<K>(a: map<K, Nested<K>>, b: map<K, Nested<K>>)
    requires a.Keys !! b.Keys
    ensures MergeRecursively(Hash(a), Hash(b)) == Some(Hash(Merge(a, b)))
  {
    MergeRecursivelySucceeds(a, b);
    var r := MergeRecursively(Hash(a), Hash(b));
    assert r.value.m == Merge(a, b);
  }

  /** A shared key holding a plain value on both sides makes the call raise
      (the block calls `merge` on something that is not a hash). */
  lemma MergeRecursivelyClash<K>(a: map<K, Nested<K>>, b: map<K, Nested<K>>, k: K)
    requires k in a && k in b && a[k].Leaf?
    ensures MergeRecursively(Hash(a), Hash(b)).None?
  {
    assert MergeRecursively(a[k], b[k]).None?;
    MergeRecursivelyShared(a, b, k);
  }

  /** Two single-key hashes with the same key merge into a single-key hash
      holding the recursive merge of the two values. */
  lemma MergeRecursivelySameKey<K>(k: K, x: Nested<K>, y: Nested<K>, z: Nested<K>)
    requires MergeRecursively(x, y) == Some(z)
    ensures MergeRecursively(Hash(map[k := x]), Hash(map[k := y])) == Some(Hash(map[k := z]))
  {
    MergeRecursivelySucceeds(map[k := x], map[k := y]);
    MergeRecursivelyShared(map[k := x], map[k := y], k);
    SingleKeyResult(k, x, y, z);
  }

  lemma SingleKeyResult<K>(k: K, x: Nested<K>, y: Nested<K>, z: Nested<K>)
    requires MergeRecursively(Hash(map[k := x]), Hash(map[k := y])).Some?
    requires MergeRecursively(Hash(map[k := x]), Hash(map[k := y])).value.m[k] == z
    ensures MergeRecursively(Hash(map[k := x]), Hash(map[k := y])) == Some(Hash(map[k := z]))
  {
    var m := MergeRecursively(Hash(map[k := x]), Hash(map[k := y])).value.m;
    assert m.Keys == {k};
    assert m == map[k := z];
  }

  /** Lines 109-120: `{car: {color: "red"}}` merged recursively with
      `{car: {speed: "100mph"}}` is `{car: {color: "red", speed: "100mph"}}`,
      while the plain `merge` keeps only the argument's inner hash. */
  lemma MergeRecursivelyExample()
    ensures var a := Hash(map["car" := Hash(map["color" := Leaf(Str("red"))])]);
      var b := Hash(map["car" := Hash(map["speed" := Leaf(Str("100mph"))])]);
      MergeRecursively(a, b) ==
        Some(Hash(map["car" := Hash(map["color" := Leaf(Str("red")), "speed" := Leaf(Str("100mph"))])])) &&
      Merge(a.m, b.m) == b.m
  {
    var color, speed := map["color" := Leaf(Str("red"))], map["speed" := Leaf(Str("100mph"))];
    var both := map["color" := Leaf(Str("red")), "speed" := Leaf(Str("100mph"))];
    MergeRecursivelyDisjoint(color, speed);
    assert Merge(color, speed) == both by {
      assert Merge(color, speed).Keys == both.Keys;
    }
    MergeRecursivelySameKey("car", Hash(color), Hash(speed), Hash(both));
  }

  // ---------------------------------------------------------------------
  // A hash updated in place
  // ---------------------------------------------------------------------

  /** A Ruby Hash object: its entries and the default that `[]` returns for a
      missing key (nil for `Hash.new`, 0 for `Hash.new(0)`). */
  class RubyHash<K(==), V(==)> {
    var entries: map<K, V>
    const default: Option<V>

    /** `Hash.new` (default None, that is nil) or `Hash.new(d)`. */
    constructor (default: Option<V>)
      ensures entries == map[] && this.default == default
    {
      entries := map[];
      this.default := default;
    }

    /** A hash literal `{ k1 => v1, ... }` (lines 12-16): the given entries,
        default nil. */
    constructor Literal(m: map<K, V>)
      ensures entries == m && default == None
    {
      entries := m;
      default := None;
    }

    /** `h[k]`: the stored value, or the default for a missing key. */
    function Get(k: K): (r: Option<V>)
      reads this
      ensures k in entries ==> r == Some(entries[k])
      ensures k !in entries ==> r == default
    {
      if k in entries then Some(entries[k]) else default
    }

    /** `h[k] = v` and `h.store(k, v)`. */
    method Store(k: K, v: V)
      modifies this
      ensures entries == old(entries)[k := v]
    {
      entries := entries[k := v];
    }

    /** `h.delete(k)`: removes the key and returns the value it had, or nil
        when it was missing; the other entries stay as they were. */
    method Delete(k: K) returns (r: Option<V>)
      modifies this
      ensures r == (if k in old(entries) then Some(old(entries)[k]) else None)
      ensures entries == old(entries) - {k}
    {
      r := if k in entries then Some(entries[k]) else None;
      entries := entries - {k};
    }

    /** `h.delete_if { |key, value| p(key, value) }` */
    method DeleteIf(p: (K, V) -> bool)
      modifies this
      ensures entries == Reject(old(entries), p)
    {
      entries := map k | k in entries && !p(k, entries[k]) :: entries[k];
    }

    /** `h.keep_if { |key, value| p(key, value) }` */
    method KeepIf(p: (K, V) -> bool)
      modifies this
      ensures entries == Select(old(entries), p)
    {
      entries := map k | k in entries && p(k, entries[k]) :: entries[k];
    }

    /** `h.clear` */
    method Clear()
      modifies this
      ensures entries == map[]
    {
      entries := map[];
    }

    /** `h.key(v)`: a key that holds the value, or nil when no key does. */
    method Key(v: V) returns (r: Option<K>)
      ensures r.Some? ==> r.value in entries && entries[r.value] == v
      ensures r.None? <==> v !in entries.Values
    {
      if v in entries.Values {
        var k :| k in entries && entries[k] == v;
        r := Some(k);
      } else {
        r := None;
      }
    }
  }

  /** Line 31: `(1..5).each { |i| hash[i] = f(i) }` fills the hash with one
      entry per integer of the range (line 34 builds the same hash with
      `each_with_object`). */
  function Tabulate<V>(lo: int, hi: int, f: int -> V): (r: map<int, V>)
    decreases hi - lo
    ensures forall i :: i in r <==> lo <= i <= hi
    ensures forall i :: i in r ==> r[i] == f(i)
  {
    if lo > hi then map[] else Tabulate(lo, hi - 1, f)[hi := f(hi)]
  }

  /** The `each` loop of line 31, storing into an existing hash. */
  method FillFromRange<V(==)>(h: RubyHash<int, V>, lo: int, hi: int, f: int -> V)
    modifies h
    ensures h.entries == old(h.entries) + Tabulate(lo, hi, f)
  {
    ghost var m0 := h.entries;
    var i := lo;
    while i <= hi
      invariant lo <= i && (i <= hi + 1 || i == lo)
      invariant h.entries == m0 + Tabulate(lo, i - 1, f)
    {
      h.Store(i, f(i));
      TabulateStep(m0, lo, i, f);
      i := i + 1;
    }
  }

  lemma TabulateStep<V>(m: map<int, V>, lo: int, i: int, f: int -> V)
    requires lo <= i
    ensures (m + Tabulate(lo, i - 1, f))[i := f(i)] == m + Tabulate(lo, i, f)
  {
  }

  /** Lines 37-56 on the month names: `months[1]`, `key('January')`,
      `include?`/`has_key?`, `value?`, `empty?` and `size`. */
  method MonthsQueries() returns (first: Option<string>, januaryKey: Option<int>, hasTwo: bool,
                                  hasJanuary: bool, empty: bool, size: nat)
    ensures first == Some("January")
    ensures januaryKey == Some(1)
    ensures hasTwo && hasJanuary && !empty
    ensures size == 3
  {
    var months := new RubyHash.Literal(map[1 := "January", 2 := "February", 3 := "March"]);
    first := months.Get(1);
    assert months.entries[1] == "January";
    januaryKey := months.Key("January");
    hasTwo := 2 in months.entries;
    hasJanuary := "January" in months.entries.Values;
    empty := months.entries == map[];
    assert months.entries.Keys == {1, 2, 3};
    size := |months.entries|;
  }

  /** Lines 63-66 on the month names, keyed by integers as lines 37 and 63
      use them: `[]=` and `store` add entries and `delete(5)` gives back "May". */
  method MonthsStoreDelete() returns (deleted: Option<string>, after: map<int, string>)
    ensures deleted == Some("May")
    ensures after == map[1 := "January", 2 := "February", 3 := "March", 4 := "April"]
  {
    var months := new RubyHash.Literal(map[1 := "January", 2 := "February", 3 := "March"]);
    months.Store(4, "April");
    months.Store(5, "May");
    deleted := months.Delete(5);
    after := months.entries;
  }

  /** Lines 69-72: `delete_if { key > 2 }` keeps January and February, then
      `keep_if { value == 'January' }` keeps January alone. */
  method MonthsConditional() returns (afterDeleteIf: map<int, string>, afterKeepIf: map<int, string>)
    ensures afterDeleteIf == map[1 := "January", 2 := "February"]
    ensures afterKeepIf == map[1 := "January"]
  {
    var months := new RubyHash.Literal(map[1 := "January", 2 := "February", 3 := "March", 4 := "April"]);
    months.DeleteIf((key: int, value: string) => key > 2);
    afterDeleteIf := months.entries;
    assert afterDeleteIf.Keys == {1, 2};
    months.KeepIf((key: int, value: string) => value == "January");
    afterKeepIf := months.entries;
    assert afterKeepIf.Keys == {1};
  }

  /** Lines 11 and 74: a `Hash.new(0)` answers 0 for a missing key, and
      `clear` empties a hash. */
  method DefaultDemo() returns (missing: Option<int>, afterClear: map<string, int>)
    ensures missing == Some(0)
    ensures afterClear == map[]
  {
    var counts := new RubyHash<string, int>(Some(0));
    missing := counts.Get("absent");
    counts.Store("a", 100);
    counts.Clear();
    afterClear := counts.entries;
  }
}
