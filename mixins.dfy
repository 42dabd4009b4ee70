/** modules_namespaces_mixins.rb: the Comparable mixin, which derives `<`,
    `<=`, `==`, `>=`, `>` and `between?` from a class's `<=>`; the Song and
    Computation classes that include it; and the Vowels class, which gains
    Enumerable's `map` by defining `each`. */
module Mixins {
  import opened RubyCore
  import Enumerables

  // ---------------------------------------------------------------------
  // Comparable
  // ---------------------------------------------------------------------

  /** The operators Comparable defines in terms of `<=>`. */
  datatype Operator = Lt | Le | Eq | Ge | Gt

  /** `x op y`, read off the answer `c` of `x <=> y`. */
  predicate Holds(op: Operator, c: int)
  {
    match op
    case Lt => c < 0
    case Le => c <= 0
    case Eq => c == 0
    case Ge => c >= 0
    case Gt => c > 0
  }

  /** `x.between?(min, max)`, read off the answers of `x <=> min` and
      `x <=> max`: false when `x < min` or `x > max`, true otherwise. */
  predicate Between(toMin: int, toMax: int)
  {
    !Holds(Lt, toMin) && !Holds(Gt, toMax)
  }

  /** On Integer, whose `<=>` is the spaceship operator, the derived operators
      are the usual comparisons and `between?` is the inclusive range test. */
  lemma IntegerComparable(a: int, b: int, lo: int, hi: int)
    ensures Holds(Lt, Spaceship(a, b)) <==> a < b
    ensures Holds(Le, Spaceship(a, b)) <==> a <= b
    ensures Holds(Eq, Spaceship(a, b)) <==> a == b
    ensures Holds(Ge, Spaceship(a, b)) <==> a >= b
    ensures Holds(Gt, Spaceship(a, b)) <==> a > b
    ensures Between(Spaceship(a, lo), Spaceship(a, hi)) <==> lo <= a <= hi
  {
  }

  /** Line 187: `4.between?(3, 10)` is true. */
  lemma BetweenExample()
    ensures Between(Spaceship(4, 3), Spaceship(4, 10))
  {
  }

  /** For a `<=>` that is antisymmetric, `x < y` is `y > x` and `x <= y` is
      `y >= x`. */
  lemma ComparableConverse(c: int, d: int)
    requires d == -c
    ensures Holds(Lt, c) <==> Holds(Gt, d)
    ensures Holds(Le, c) <==> Holds(Ge, d)
    ensures Holds(Eq, c) <==> Holds(Eq, d)
  {
  }

  // ---------------------------------------------------------------------
  // Song (lines 192-213)
  // ---------------------------------------------------------------------

  datatype Song = Song(name: string, length: int)

  /** Song#<=>: songs are ordered by length alone. */
  function SongCmp(a: Song, b: Song): (r: int)
    ensures r == -1 || r == 0 || r == 1
    ensures r < 0 <==> a.length < b.length
    ensures r == 0 <==> a.length == b.length
  {
    Spaceship(a.length, b.length)
  }

  /** The names play no part: two songs of the same length are `==` under
      Comparable, and renaming a song never changes how it compares. */
  lemma SongOrderIgnoresName(a: Song, b: Song, n: string)
    ensures a.length == b.length ==> Holds(Eq, SongCmp(a, b))
    ensures SongCmp(a.(name := n), b) == SongCmp(a, b)
    ensures SongCmp(a, b) == -SongCmp(b, a)
  {
    SpaceshipAntisymmetric(a.length, b.length);
  }

  /** Lines 206-213. */
  lemma SongExamples()
    ensures var a := Song("Rock around the clock", 143);
      var b := Song("Bohemian Rhapsody", 544);
      var c := Song("Minute Waltz", 60);
      Holds(Lt, SongCmp(a, b)) && Holds(Ge, SongCmp(b, c)) &&
      !Holds(Gt, SongCmp(c, a)) && Between(SongCmp(a, c), SongCmp(a, b))
  {
  }

  // ---------------------------------------------------------------------
  // Computation (lines 216-242)
  // ---------------------------------------------------------------------

  /** A computation given as a block, whose result is worked out on first
      demand and kept in `@result`. `calls` counts the calls of the block. */
  class Computation {
    const action: () -> int
    var cached: Option<int>
    var calls: nat

    /** A kept result is the block's value, and the block has been called
        once exactly when a result is kept. */
    ghost predicate Valid()
      reads this
    {
      (cached.Some? ==> cached.value == action()) &&
      calls == (if cached.Some? then 1 else 0)
    }

    /** `Computation.new { ... }` */
    constructor (action: () -> int)
      ensures Valid() && this.action == action && cached == None
    {
      this.action := action;
      cached := None;
      calls := 0;
    }

    /** `result`: `@result ||= @action.call`. An integer is never falsy, so
        the block runs on the first call only. */
    method Result() returns (r: int)
      requires Valid()
      modifies this
      ensures Valid() && r == action() && cached == Some(r)
      ensures calls == old(calls) + (if old(cached).None? then 1 else 0)
      ensures calls <= 1
    {
      if cached.None? {
        var v := action();
        calls := calls + 1;
        cached := Some(v);
      }
      r := cached.value;
    }

    /** `<=>`: 0, 1 or -1 as the results compare; each test asks both
        objects for their result again. */
    method Cmp(other: Computation) returns (c: int)
      requires Valid() && other.Valid()
      modifies this, other
      ensures Valid() && other.Valid()
      ensures c == Spaceship(action(), other.action())
      ensures cached == Some(action()) && other.cached == Some(other.action())
    {
      var x := Result();
      var y := other.Result();
      if x == y {
        return 0;
      }
      x := Result();
      y := other.Result();
      if x > y {
        return 1;
      }
      x := Result();
      y := other.Result();
      if x < y {
        return -1;
      }
    }
  }

  /** Lines 234-242: `a < b`, `a <= b`, `b > c`, `b >= c` hold and `a == b`
      does not. */
  method ComputationDemo() returns (lt: bool, le: bool, gt: bool, ge: bool, eq: bool)
    ensures lt && le && gt && ge && !eq
  {
    var a := new Computation(() => 1 + 1);
    var b := new Computation(() => 4 * 5);
    var c := new Computation(() => -3);
    var ab := a.Cmp(b);
    lt := Holds(Lt, ab);
    ab := a.Cmp(b);
    le := Holds(Le, ab);
    var bc := b.Cmp(c);
    gt := Holds(Gt, bc);
    bc := b.Cmp(c);
    ge := Holds(Ge, bc);
    ab := a.Cmp(b);
    eq := Holds(Eq, ab);
  }

  /** Asking twice calls the block once and gives the same result. */
  method ResultTwice(comp: Computation) returns (first: int, second: int)
    requires comp.Valid()
    modifies comp
    ensures first == second == comp.action()
    ensures comp.calls == 1
  {
    first := comp.Result();
    second := comp.Result();
  }

  // ---------------------------------------------------------------------
  // Vowels (lines 159-182)
  // ---------------------------------------------------------------------

  /** The class variable `@@vowels`. */
  const Vowels: seq<string> := ["a", "e", "i", "o", "u"]

  /** `Vowels#each`: yields the vowels in order; every Enumerable method of
      the class is built on the items it yields. */
  function Each(): (r: seq<string>)
    ensures |r| == 5 && r[0] == "a" && r[4] == "u"
  {
    Vowels
  }

  /** Line 182: `vowels.map { |v| v + 'x' }`. */
  lemma VowelsMap()
    ensures Enumerables.Map(Each(), (v: string) => v + "x") == ["ax", "ex", "ix", "ox", "ux"]
  {
    var r := Enumerables.Map(Each(), (v: string) => v + "x");
    assert r[0] == "ax" && r[1] == "ex" && r[2] == "ix" && r[3] == "ox" && r[4] == "ux";
  }
}
