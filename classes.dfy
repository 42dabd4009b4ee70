/** classes.rb: a method added to Integer, the same mapping as a method
    taking a parameter, and three versions of a die. `rand(6)`, which gives
    an integer from 0 to 5, is a parameter of the methods that call it. */
module Classes {
  import opened RubyCore
  import Mixins

  /** Integer#to_eng: "five" for 5, "199" for 199, "smd" for every other integer. */
  function ToEng(n: int): (r: string)
    ensures r == "five" <==> n == 5
    ensures r == "199" <==> n == 199
    ensures r == "smd" <==> n != 5 && n != 199
  {
    if n == 5 then "five" else if n == 199 then "199" else "smd"
  }

  /** `to_engli(var)`: the same tests on a parameter, which may be any object;
      among nil, booleans, integers and strings, only the integers 5 and 199
      are `==` to them. */
  function ToEngli(v: Value): (r: string)
  {
    if v == Int(5) then "five" else if v == Int(199) then "199" else "smd"
  }

  /** On an integer, `to_engli(n)` agrees with `n.to_eng`; on nil, booleans and
      strings it is "smd". */
  lemma ToEngliAgrees(n: int, v: Value)
    ensures ToEngli(Int(n)) == ToEng(n)
    ensures !v.Int? ==> ToEngli(v) == "smd"
  {
  }

  /** `1 + rand(6)` */
  function RollValue(rand6: int): (r: int)
    requires 0 <= rand6 < 6
    ensures 1 <= r <= 6
  {
    1 + rand6
  }

  /** Die: no state; every roll is a fresh number. */
  class Die {
    constructor ()
    {
    }

    method Roll(rand6: int) returns (r: int)
      requires 0 <= rand6 < 6
      ensures r == RollValue(rand6)
    {
      r := 1 + rand6;
    }
  }

  /** Die2: the roll is kept in `@num`, which is nil until the first roll. */
  class Die2 {
    var num: Option<int>

    constructor ()
      ensures num == None
    {
      num := None;
    }

    method Roll(rand6: int) returns (r: int)
      requires 0 <= rand6 < 6
      modifies this
      ensures r == RollValue(rand6) && num == Some(r)
    {
      r := 1 + rand6;
      num := Some(r);
    }

    /** `show`: the last roll, or nil before any roll. */
    function Show(): (r: Option<int>)
      reads this
      ensures r == num
    {
      num
    }
  }

  /** What `cheat(t)` stores: `t` when `t.between?(1, 6)`, otherwise 6. */
  function CheatValue(t: int): (r: int)
    ensures 1 <= r <= 6
    ensures 1 <= t <= 6 ==> r == t
    ensures (t < 1 || t > 6) ==> r == 6
  {
    Mixins.IntegerComparable(t, t, 1, 6);
    if Mixins.Between(Spaceship(t, 1), Spaceship(t, 6)) then t else 6
  }

  /** Die3: `initialize` rolls, so `@num` always holds a face from 1 to 6. */
  class Die3 {
    var num: int

    ghost predicate Valid()
      reads this
    {
      1 <= num <= 6
    }

    constructor (rand6: int)
      requires 0 <= rand6 < 6
      ensures Valid() && num == RollValue(rand6)
    {
      num := 1 + rand6;
    }

    method Roll(rand6: int) returns (r: int)
      requires 0 <= rand6 < 6
      modifies this
      ensures Valid() && r == RollValue(rand6) && num == r
    {
      r := 1 + rand6;
      num := r;
    }

    function Show(): (r: int)
      reads this
      requires Valid()
      ensures 1 <= r <= 6 && r == num
    {
      num
    }

    /** `cheat(t)`: sets the face to `t` when it is a face, otherwise to 6,
        and returns the face set. */
    method Cheat(t: int) returns (r: int)
      modifies this
      ensures Valid() && num == r && r == CheatValue(t)
    {
      if Mixins.Between(Spaceship(t, 1), Spaceship(t, 6)) {
        num := t;
      } else {
        num := 6;
      }
      r := num;
    }
  }

  /** Lines 71-73 and the remark at line 75: a Die2 shows nil before its
      first roll and the rolled number after it. */
  method Die2Demo(rand6: int) returns (before: Option<int>, after: Option<int>)
    requires 0 <= rand6 < 6
    ensures before == None
    ensures after.Some? && 1 <= after.value <= 6
  {
    var d := new Die2();
    before := d.Show();
    var _ := d.Roll(rand6);
    after := d.Show();
  }

  /** Lines 99-102: a new Die3 shows a face at once; after `cheat(99)` it shows 6. */
  method Die3Demo(rand6: int) returns (first: int, afterCheat: int)
    requires 0 <= rand6 < 6
    ensures 1 <= first <= 6
    ensures afterCheat == 6
  {
    var die := new Die3(rand6);
    first := die.Show();
    var _ := die.Cheat(99);
    afterCheat := die.Show();
  }
}
