/** strings.rb: the String operations that need no regular expression.
    Strings are sequences of characters; `<<`, `concat`, `insert`, `clear`
    and `str[pattern] = value` change their receiver and are methods of a
    class holding the characters, the rest are functions returning new
    strings. */
module Strings {
  import opened RubyCore
  import opened Sequences
  import Enumerables

  // ---------------------------------------------------------------------
  // Repetition and concatenation (lines 29-39)
  // ---------------------------------------------------------------------

  /** Lines 30-31 and 34. */
  lemma RepeatConcatExamples()
    ensures Times("Ho! ", 3) == Some("Ho! Ho! Ho! ")
    ensures Times("Ho! ", 0) == Some("")
    ensures "Hello from the " + "moon" == "Hello from the moon"
  {
    assert Repeat("Ho! ", 1) == "Ho! ";
    assert Repeat("Ho! ", 2) == "Ho! Ho! ";
    assert Repeat("Ho! ", 3) == "Ho! " + "Ho! Ho! " == "Ho! Ho! Ho! ";
    assert Times("Ho! ", 3) == Some(Repeat("Ho! ", 3));
  }

  /** A string object whose characters the mutating methods replace. */
  class MutableString {
    var chars: string

    constructor (chars: string)
      ensures this.chars == chars
    {
      this.chars := chars;
    }

    /** `a << t` and `a.concat(t)`: appends in place. */
    method Append(t: string)
      modifies this
      ensures chars == old(chars) + t
    {
      chars := chars + t;
    }

    /** `insert(i, t)`; `ok` is false where Ruby raises IndexError, and the
        string is then left as it was. */
    method Insert(i: int, t: string) returns (ok: bool)
      modifies this
      ensures ok == InsertAt(old(chars), i, t).Some?
      ensures chars == if ok then InsertAt(old(chars), i, t).value else old(chars)
    {
      var r := InsertAt(chars, i, t);
      ok := r.Some?;
      if ok {
        chars := r.value;
      }
    }

    /** `replace(t)`: the whole content becomes `t`. */
    method Replace(t: string)
      modifies this
      ensures chars == t
    {
      chars := t;
    }

    /** `clear` */
    method Clear()
      modifies this
      ensures chars == ""
    {
      chars := "";
    }

    /** `str[pattern] = value`: replaces the first occurrence of `pattern`;
        `ok` is false where Ruby raises IndexError (no occurrence). */
    method SetSubstring(pattern: string, value: string) returns (ok: bool)
      modifies this
      ensures ok == Index(old(chars), pattern).Some?
      ensures ok ==> chars == ReplaceFirst(old(chars), pattern, value).value
      ensures !ok ==> chars == old(chars)
    {
      var r := ReplaceFirst(chars, pattern, value);
      ok := r.Some?;
      if ok {
        chars := r.value;
      }
    }
  }

  /** Lines 37-39: `a = "hello "; a << "world"; a.concat(" I am George!")`. */
  method AppendDemo() returns (afterShovel: string, afterConcat: string)
    ensures afterShovel == "hello world"
    ensures afterConcat == "hello world I am George!"
  {
    var a := new MutableString("hello ");
    a.Append("world");
    afterShovel := a.chars;
    a.Append(" I am George!");
    afterConcat := a.chars;
  }

  /** Lines 77, 127-133 and 136: `clear` empties the string, `replace`
      swaps all of it, `str["hello"] = "world"` only the first occurrence,
      and `insert(2, "c")` fills the gap in "abd". */
  method ReplaceDemo() returns (cleared: string, replaced: string, firstReplaced: string, inserted: string)
    ensures cleared == ""
    ensures replaced == "world"
    ensures firstReplaced == "world i like saying hello"
    ensures inserted == "abcd"
  {
    var c := new MutableString("I a boss and no one can touch me");
    c.Clear();
    cleared := c.chars;
    var r := new MutableString("hello i like saying hello");
    r.Replace("world");
    replaced := r.chars;
    var f := new MutableString("hello i like saying hello");
    FirstHello();
    var _ := f.SetSubstring("hello", "world");
    firstReplaced := f.chars;
    var i := new MutableString("abd");
    InsertExample();
    var _ := i.Insert(2, "c");
    inserted := i.chars;
  }

  lemma FirstHello()
    ensures ReplaceFirst("hello i like saying hello", "hello", "world") == Some("world i like saying hello")
  {
    var s := "hello i like saying hello";
    assert s[0..] == s && "hello" <= s;
    assert Index(s, "hello") == IndexFrom(s, "hello", 0) == Some(0);
    assert s[..0] + "world" + s[5..] == "world i like saying hello";
  }

  // ---------------------------------------------------------------------
  // Comparison (lines 41-46)
  // ---------------------------------------------------------------------

  /** String#<=>: compares character codes from the left; when one string is
      a prefix of the other, the shorter one is less. */
  function Compare(a: string, b: string): (r: int)
    ensures r == -1 || r == 0 || r == 1
  {
    if a == [] && b == [] then 0
    else if a == [] then -1
    else if b == [] then 1
    else if a[0] < b[0] then -1
    else if a[0] > b[0] then 1
    else Compare(a[1..], b[1..])
  }

  /** `a` sorts before `b`: it is a proper prefix of `b`, or the first
      position where they differ holds a smaller character in `a`. */
  ghost predicate LexLess(a: string, b: string)
  {
    exists k :: 0 <= k <= |a| && k <= |b| && a[..k] == b[..k] &&
      ((k == |a| && k < |b|) || (k < |a| && k < |b| && a[k] < b[k]))
  }

  /** `<=>` is -1 exactly when `a` sorts before `b`, and 0 exactly when
      they are the same string. */
  lemma {:induction false} CompareMeaning(a: string, b: string)
    ensures Compare(a, b) == 0 <==> a == b
    ensures Compare(a, b) == -1 <==> LexLess(a, b)
  {
    if a != [] && b != [] && a[0] == b[0] {
      CompareMeaning(a[1..], b[1..]);
      if LexLess(a[1..], b[1..]) {
        var k :| 0 <= k <= |a[1..]| && k <= |b[1..]| && a[1..][..k] == b[1..][..k] &&
          ((k == |a[1..]| && k < |b[1..]|) || (k < |a[1..]| && k < |b[1..]| && a[1..][k] < b[1..][k]));
        assert a[..k + 1] == [a[0]] + a[1..][..k];
        assert b[..k + 1] == [b[0]] + b[1..][..k];
      }
      if LexLess(a, b) {
        var k :| 0 <= k <= |a| && k <= |b| && a[..k] == b[..k] &&
          ((k == |a| && k < |b|) || (k < |a| && k < |b| && a[k] < b[k]));
        assert k > 0;
        assert a[1..][..k - 1] == a[1..k] && b[1..][..k - 1] == b[1..k];
        assert a[1..k] == a[..k][1..];
        assert b[1..k] == b[..k][1..];
      }
      assert a == [a[0]] + a[1..] && b == [b[0]] + b[1..];
    } else {
      assert a[..0] == b[..0];
      if a != [] && b != [] {
        forall k | 0 < k <= |a| && k <= |b|
          ensures a[..k] != b[..k]
        {
          assert a[..k][0] != b[..k][0];
        }
      }
    }
  }

  /** Swapping the operands of `<=>` negates the answer. */
  lemma {:induction false} CompareAntisymmetric(a: string, b: string)
    ensures Compare(b, a) == -Compare(a, b)
  {
    if a != [] && b != [] && a[0] == b[0] {
      CompareAntisymmetric(a[1..], b[1..]);
    }
  }

  /** `<=>` on any two objects: strings compare as above, integers by value,
      and a string against anything else is nil (line 46). */
  function CompareObjects(a: Value, b: Value): (r: Option<int>)
    ensures a.Str? && b.Str? ==> r == Some(Compare(a.s, b.s))
    ensures a.Str? && !b.Str? ==> r == None
  {
    match (a, b)
    case (Str(x), Str(y)) => Some(Compare(x, y))
    case (Int(x), Int(y)) => Some(Spaceship(x, y))
    case _ => if a == b then Some(0) else None
  }

  /** Lines 42-46. */
  lemma CompareExamples()
    ensures Compare("abcdef", "abcde") == 1
    ensures Compare("abcdef", "abcdef") == 0
    ensures Compare("abcdef", "Abcdef") == 1
    ensures Compare("abcdefg", "abdfefgh") == -1
    ensures CompareObjects(Str("a"), Int(1)) == None
  {
    CompareMeaning("abcdef", "abcdef");
    var a, b := "abcdef", "abcde";
    assert a[1..][1..][1..][1..][1..] == "f" && b[1..][1..][1..][1..][1..] == "";
    var c, d := "abcdefg", "abdfefgh";
    assert c[1..][1..] == "cdefg" && d[1..][1..] == "dfefgh";
  }

  // ---------------------------------------------------------------------
  // Indexing and searching (lines 49-56, 115-124)
  // ---------------------------------------------------------------------

  /** `s[i]`: the one-character string at the position (a negative one
      counts from the end), or nil outside the string. */
  function CharAt(s: string, i: int): (r: Option<string>)
    ensures r.Some? <==> 0 <= i + |s| && i < |s|
    ensures r.Some? ==> r == SliceLen(s, i, 1)
  {
    match StartIndex(|s|, i)
    case None => None
    case Some(b) => if b < |s| then Some(s[b..b + 1]) else None
  }

  /** `s.index(t)`: the first position where `t` occurs, or nil. */
  function Index(s: string, t: string): (r: Option<nat>)
    ensures r.Some? ==> r.value <= |s| && t <= s[r.value..]
    ensures r.Some? ==> forall j :: 0 <= j < r.value ==> !(t <= s[j..])
    ensures r.None? <==> !Contains(s, t)
  {
    IndexFrom(s, t, 0)
  }

  function IndexFrom(s: string, t: string, start: nat): (r: Option<nat>)
    requires start <= |s|
    decreases |s| - start
    ensures r.Some? ==> start <= r.value <= |s| && t <= s[r.value..]
    ensures r.Some? ==> forall j :: start <= j < r.value ==> !(t <= s[j..])
    ensures r.None? <==> forall j :: start <= j <= |s| ==> !(t <= s[j..])
  {
    if t <= s[start..] then Some(start)
    else if start == |s| then None
    else IndexFrom(s, t, start + 1)
  }

  /** `s.rindex(t)`: the last position where `t` occurs, or nil. */
  function RIndex(s: string, t: string): (r: Option<nat>)
    ensures r.Some? ==> r.value <= |s| && t <= s[r.value..]
    ensures r.Some? ==> forall j :: r.value < j <= |s| ==> !(t <= s[j..])
    ensures r.None? <==> !Contains(s, t)
  {
    RIndexBelow(s, t, |s| + 1)
  }

  function RIndexBelow(s: string, t: string, end: nat): (r: Option<nat>)
    requires end <= |s| + 1
    ensures r.Some? ==> r.value < end && t <= s[r.value..]
    ensures r.Some? ==> forall j :: r.value < j < end ==> !(t <= s[j..])
    ensures r.None? <==> forall j :: 0 <= j < end ==> !(t <= s[j..])
  {
    if end == 0 then None
    else if t <= s[end - 1..] then Some(end - 1)
    else RIndexBelow(s, t, end - 1)
  }

  /** `index` and `rindex` fail together, and the first occurrence is never
      after the last. */
  lemma IndexBeforeRIndex(s: string, t: string)
    ensures Index(s, t).Some? <==> RIndex(s, t).Some?
    ensures Index(s, t).Some? ==> Index(s, t).value <= RIndex(s, t).value
  {
  }

  /** `s[t]` with a string argument: `t` when it occurs in `s`, else nil. */
  function Lookup(s: string, t: string): (r: Option<string>)
    ensures r.Some? <==> Contains(s, t)
    ensures r.Some? ==> r.value == t
  {
    if Index(s, t).Some? then Some(t) else None
  }

  /** `str[pattern] = value` as a function: the first occurrence of the
      pattern replaced, or nil (IndexError) when there is none. */
  function ReplaceFirst(s: string, pattern: string, value: string): (r: Option<string>)
    ensures r.Some? <==> Contains(s, pattern)
    ensures r.Some? ==>
      var i := Index(s, pattern).value;
      r.value == s[..i] + value + s[i + |pattern|..]
  {
    match Index(s, pattern)
    case None => None
    case Some(i) => Some(s[..i] + value + s[i + |pattern|..])
  }

  /** Lines 49-56. */
  lemma SlicingExamples()
    ensures var s := "I am a string 19 times over";
      CharAt(s, 0) == Some("I") &&
      SliceLen(s, 0, 4) == Some("I am") &&
      SliceRange(s, 0, 12, false) == Some("I am a string") &&
      SliceRange(s, 0, -1, false) == Some(s) &&
      Lookup(s, "times") == Some("times")
  {
    var s := "I am a string 19 times over";
    assert s[0..1] == "I";
    assert s[0..4] == "I am";
    assert s[0..13] == "I am a string";
    assert s[0..|s|] == s;
    assert "times" <= s[17..];
  }

  /** `chars`: the string as an array of one-character strings. */
  function Chars(s: string): (r: seq<string>)
    ensures |r| == |s|
    ensures forall k :: 0 <= k < |s| ==> r[k] == [s[k]]
  {
    Enumerables.Map(s, (c: char) => [c])
  }

  /** Joining the characters back gives the string. */
  lemma {:induction false} CharsJoin(s: string)
    ensures Join(Chars(s)) == s
  {
    if s != [] {
      CharsJoin(s[1..]);
      assert Chars(s) == [[s[0]]] + Chars(s[1..]);
      assert s == [s[0]] + s[1..];
    }
  }

  /** The strings of a sequence written one after another. */
  function Join(parts: seq<string>): string
  {
    if parts == [] then "" else parts[0] + Join(parts[1..])
  }

  /** Line 65. */
  lemma CharsExample()
    ensures Chars("test 123") == ["t", "e", "s", "t", " ", "1", "2", "3"]
  {
  }

  /** `t` is not a prefix of `s` once they differ at some position. */
  lemma NotPrefix(t: string, s: string, k: nat)
    requires k < |t| && k < |s| && t[k] != s[k]
    ensures !(t <= s)
  {
    if |t| <= |s| {
      assert t[k] != s[..|t|][k];
    }
  }

  /** Lines 115-124. */
  lemma SearchExamples()
    ensures Contains("hello", "llo")
    ensures Index("hello", "e") == Some(1)
    ensures Index("hello", "a") == None
    ensures Index("cat in the hat", "a") == Some(1)
    ensures RIndex("cat in the hat", "a") == Some(12)
  {
    var h := "hello";
    assert "llo" <= h[2..];
    assert "e" <= h[1..];
    NotPrefix("e", h[0..], 0);
    assert !Contains(h, "a") by {
      forall j | 0 <= j <= 5 ensures !("a" <= h[j..]) {
        if j < 5 {
          assert h[j..][0] == h[j];
          NotPrefix("a", h[j..], 0);
        }
      }
    }
    var c := "cat in the hat";
    assert "a" <= c[1..];
    NotPrefix("a", c[0..], 0);
    assert "a" <= c[12..];
    NotPrefix("a", c[13..], 0);
    assert !("a" <= c[14..]);
  }

  // ---------------------------------------------------------------------
  // chomp (lines 68-74)
  // ---------------------------------------------------------------------

  predicate EndsWith(s: string, suffix: string)
  {
    |suffix| <= |s| && s[|s| - |suffix|..] == suffix
  }

  predicate StartsWith(s: string, prefix: string)
  {
    prefix <= s
  }

  /** `chomp` without an argument: removes one trailing "\r\n", "\n" or "\r". */
  function Chomp(s: string): (r: string)
    ensures r <= s
    ensures s == r + "\r\n" || s == r + "\n" || s == r + "\r" || s == r
    ensures s == r <==> !EndsWith(s, "\n") && !EndsWith(s, "\r")
    ensures EndsWith(s, "\r\n") ==> r == s[..|s| - 2]
  {
    if EndsWith(s, "\r\n") then s[..|s| - 2]
    else if EndsWith(s, "\n") || EndsWith(s, "\r") then s[..|s| - 1]
    else s
  }

  /** `chomp(sep)`: "\n" behaves as no argument; the empty separator removes
      every trailing "\n" and "\r\n"; any other separator is removed once
      when the string ends with it. */
  function ChompWith(s: string, sep: string): (r: string)
    ensures r <= s
  {
    if sep == "\n" then Chomp(s)
    else if sep == "" then ChompNewlines(s)
    else if EndsWith(s, sep) then s[..|s| - |sep|]
    else s
  }

  /** All trailing "\n" and "\r\n" removed. */
  function ChompNewlines(s: string): (r: string)
    ensures r <= s && !EndsWith(r, "\n")
  {
    if EndsWith(s, "\r\n") then ChompNewlines(s[..|s| - 2])
    else if EndsWith(s, "\n") then ChompNewlines(s[..|s| - 1])
    else s
  }

  /** `chomp(sep)` undoes appending `sep` for a separator other than "" and "\n". */
  lemma ChompWithRoundTrip(t: string, sep: string)
    requires sep != "" && sep != "\n"
    ensures ChompWith(t + sep, sep) == t
  {
    assert (t + sep)[|t|..] == sep;
    assert (t + sep)[..|t|] == t;
  }

  /** `chomp` undoes appending one line ending to a string that does not
      already end with "\r" (after which "\n" would join it as "\r\n"). */
  lemma ChompRoundTrip(t: string, ending: string)
    requires ending == "\n" || ending == "\r" || ending == "\r\n"
    requires !EndsWith(t, "\r") || ending != "\n"
    ensures Chomp(t + ending) == t
  {
    var s := t + ending;
    assert s[..|t|] == t;
    if ending == "\n" && |t| > 0 {
      assert s[|s| - 2..] == [t[|t| - 1], '\n'];
      assert t[|t| - 1..] == [t[|t| - 1]];
    }
    if ending == "\r" && |s| >= 2 {
      assert s[|s| - 2..][1] == '\r';
    }
  }

  /** Lines 69-72. */
  lemma ChompExamples()
    ensures Chomp("hello") == "hello"
    ensures Chomp("hello\n") == "hello"
    ensures Chomp("hello\r") == "hello"
    ensures Chomp("hello\r\n") == "hello"
  {
    ChompRoundTrip("hello", "\n");
    ChompRoundTrip("hello", "\r");
    ChompRoundTrip("hello", "\r\n");
    assert "hello\n" == "hello" + "\n";
    assert "hello\r" == "hello" + "\r";
    assert "hello\r\n" == "hello" + "\r\n";
  }

  /** Lines 73-74: "\n\r" is not a line ending, so only the "\r" goes; and
      `chomp(" bitch")` drops that suffix. */
  lemma ChompOtherExamples()
    ensures Chomp("hello\n\r") == "hello\n"
    ensures ChompWith("hello bitch", " bitch") == "hello"
  {
    ChompRoundTrip("hello\n", "\r");
    ChompWithRoundTrip("hello", " bitch");
    assert "hello\n\r" == "hello\n" + "\r";
    assert "hello bitch" == "hello" + " bitch";
  }

  // ---------------------------------------------------------------------
  // delete, start_with?, end_with? (lines 77-90)
  // ---------------------------------------------------------------------

  /** `s.delete(chars)`: every character that appears in `chars` removed
      (ranges and negation in the argument are not modelled). */
  function DeleteChars(s: string, chars: string): (r: string)
    ensures forall k :: 0 <= k < |r| ==> r[k] !in chars
    ensures |r| <= |s|
  {
    Enumerables.Reject(s, c => c in chars)
  }

  /** Deleting keeps every occurrence of every other character (the order is
      kept too, by DeleteAppend), and a string with nothing to delete stays as
      it is. */
  lemma {:induction false} DeleteCharsKeeps(s: string, chars: string)
    ensures forall c :: c !in chars ==> multiset(DeleteChars(s, chars))[c] == multiset(s)[c]
    ensures (forall k :: 0 <= k < |s| ==> s[k] !in chars) ==> DeleteChars(s, chars) == s
  {
    NoneRejected(s, chars);
    forall c | c !in chars
      ensures multiset(DeleteChars(s, chars))[c] == multiset(s)[c]
    {
      RejectKeeps(s, chars, c);
    }
  }

  lemma {:induction false} RejectKeeps(s: string, chars: string, c: char)
    requires c !in chars
    ensures multiset(Enumerables.Reject(s, x => x in chars))[c] == multiset(s)[c]
  {
    if s != [] {
      RejectKeeps(s[1..], chars, c);
      assert s == [s[0]] + s[1..];
    }
  }

  lemma {:induction false} NoneRejected(s: string, chars: string)
    ensures (forall k :: 0 <= k < |s| ==> s[k] !in chars) ==> Enumerables.Reject(s, x => x in chars) == s
  {
    if s != [] {
      NoneRejected(s[1..], chars);
      assert s == [s[0]] + s[1..];
    }
  }

  /** Line 78. */
  lemma DeleteExample()
    ensures DeleteChars("I am a boss and no one can touch me", "o") == "I am a bss and n ne can tuch me"
  {
    assert "I am a boss and no one can touch me" == "I am a b" + "oss and n" + "o o" + "ne can t" + "ouch me";
    DeletePieces();
    assert "I am a b" + "ss and n" + " " + "ne can t" + "uch me" == "I am a bss and n ne can tuch me";
  }

  lemma DeletePieces()
    ensures DeleteChars("I am a b" + "oss and n" + "o o" + "ne can t" + "ouch me", "o")
      == "I am a b" + "ss and n" + " " + "ne can t" + "uch me"
  {
    DeletePieceFirst();
    DeletePieceSecond();
    DeletePieceThird();
    DeletePieceFourth();
    DeletePieceLast();
    DeleteFive("I am a b", "oss and n", "o o", "ne can t", "ouch me", "o");
  }

  lemma DeletePieceFirst()
    ensures DeleteChars("I am a b", "o") == "I am a b"
  {
    DeleteNoneOf("I am a b", "o");
  }

  lemma DeletePieceFourth()
    ensures DeleteChars("ne can t", "o") == "ne can t"
  {
    DeleteNoneOf("ne can t", "o");
  }

  lemma DeletePieceSecond()
    ensures DeleteChars("oss and n", "o") == "ss and n"
  {
    DeleteLeading("oss and n", "o");
  }

  lemma DeletePieceThird()
    ensures DeleteChars("o o", "o") == " "
  {
    DeleteLeading("o o", "o");
  }

  lemma DeletePieceLast()
    ensures DeleteChars("ouch me", "o") == "uch me"
  {
    DeleteLeading("ouch me", "o");
  }

  /** A piece made of one deleted character and nothing else to delete. */
  lemma DeleteLeading(s: string, chars: string)
    requires s != [] && s[0] in chars
    requires forall k :: 1 <= k < |s| ==> s[k] !in chars || (s[k] == s[0] && k == |s| - 1)
    ensures DeleteChars(s, chars) == if s[|s| - 1] == s[0] && |s| > 1 then s[1..|s| - 1] else s[1..]
  {
    if |s| > 1 && s[|s| - 1] == s[0] {
      var mid := s[1..|s| - 1];
      assert s[1..] == mid + [s[0]];
      DeleteAppend(mid, [s[0]], chars);
      DeleteNoneOf(mid, chars);
    } else {
      DeleteNoneOf(s[1..], chars);
    }
  }

  lemma DeleteFive(p1: string, p2: string, p3: string, p4: string, p5: string, chars: string)
    ensures DeleteChars(p1 + p2 + p3 + p4 + p5, chars) ==
      DeleteChars(p1, chars) + DeleteChars(p2, chars) + DeleteChars(p3, chars) + DeleteChars(p4, chars) + DeleteChars(p5, chars)
  {
    DeleteAppend(p1 + p2 + p3 + p4, p5, chars);
    DeleteAppend(p1 + p2 + p3, p4, chars);
    DeleteAppend(p1 + p2, p3, chars);
    DeleteAppend(p1, p2, chars);
  }

  lemma DeleteNoneOf(s: string, chars: string)
    requires forall k :: 0 <= k < |s| ==> s[k] !in chars
    ensures DeleteChars(s, chars) == s
  {
    DeleteCharsKeeps(s, chars);
  }

  lemma {:induction false} DeleteAppend(a: string, b: string, chars: string)
    ensures DeleteChars(a + b, chars) == DeleteChars(a, chars) + DeleteChars(b, chars)
  {
    if a != [] {
      DeleteAppend(a[1..], b, chars);
      assert (a + b)[1..] == a[1..] + b;
    } else {
      assert a + b == b;
    }
  }

  /** `s.start_with?(p1, p2, ...)`: true when any of the prefixes matches. */
  predicate StartWithAny(s: string, prefixes: seq<string>)
    ensures StartWithAny(s, prefixes) <==> exists k :: 0 <= k < |prefixes| && StartsWith(s, prefixes[k])
  {
    Enumerables.Any(prefixes, p => StartsWith(s, p))
  }

  /** `s.end_with?(x1, x2, ...)`: true when any of the suffixes matches. */
  predicate EndWithAny(s: string, suffixes: seq<string>)
    ensures EndWithAny(s, suffixes) <==> exists k :: 0 <= k < |suffixes| && EndsWith(s, suffixes[k])
  {
    Enumerables.Any(suffixes, x => EndsWith(s, x))
  }

  /** Lines 81-90. */
  lemma PredicateExamples()
    ensures "" == [] && "not empty" != []
    ensures EndWithAny("hello", ["ello"])
    ensures !EndWithAny("hello", ["heaven", "cows"])
    ensures EndWithAny("hello", ["heaven", "ello"])
    ensures StartWithAny("hello", ["hel"])
    ensures !StartWithAny("hello", ["dog", "cat"])
  {
    assert "hello"[1..] == "ello";
    assert "hel" <= "hello";
    assert "hello"[4..] != "cows";
    NotPrefix("dog", "hello", 0);
    NotPrefix("cat", "hello", 0);
  }

  // ---------------------------------------------------------------------
  // insert (line 136)
  // ---------------------------------------------------------------------

  /** Where `insert(i, t)` puts `t`: before position `i`, or after the
      character a negative index denotes (-1 appends); None (IndexError) when
      that lies outside the string. */
  function InsertAt(s: string, i: int, t: string): (r: Option<string>)
    ensures r.Some? <==> -|s| - 1 <= i <= |s|
    ensures r.Some? ==> |r.value| == |s| + |t|
    ensures r.Some? ==>
      var p := if i >= 0 then i else |s| + i + 1;
      0 <= p <= |s| && r.value[..p] == s[..p] && r.value[p..p + |t|] == t && r.value[p + |t|..] == s[p..]
  {
    var p := if i >= 0 then i else |s| + i + 1;
    if 0 <= p <= |s| then
      var r := s[..p] + t + s[p..];
      assert r[..p] == s[..p] && r[p..p + |t|] == t && r[p + |t|..] == s[p..];
      Some(r)
    else None
  }

  /** Line 136. */
  lemma InsertExample()
    ensures InsertAt("abd", 2, "c") == Some("abcd")
  {
    assert "abd"[..2] + "c" + "abd"[2..] == "abcd";
  }

  // ---------------------------------------------------------------------
  // Whitespace (lines 138-141)
  // ---------------------------------------------------------------------

  /** Ruby's whitespace for the strip family: null, tab, line feed, vertical
      tab, form feed, carriage return and space. */
  predicate IsSpace(c: char)
  {
    c == '\0' || c == '\t' || c == '\n' || c == '\U{0B}' || c == '\U{0C}' || c == '\r' || c == ' '
  }

  /** `lstrip`: leading whitespace removed. */
  function Lstrip(s: string): (r: string)
    ensures |r| <= |s|
  {
    if s != [] && IsSpace(s[0]) then Lstrip(s[1..]) else s
  }

  /** `rstrip`: trailing whitespace removed. */
  function Rstrip(s: string): (r: string)
    ensures |r| <= |s|
  {
    if s != [] && IsSpace(s[|s| - 1]) then Rstrip(s[..|s| - 1]) else s
  }

  /** `lstrip` keeps a suffix of the string, drops only whitespace, and
      leaves none at the front. */
  lemma {:induction false} LstripSpec(s: string)
    ensures var r := Lstrip(s);
      r == s[|s| - |r|..] && (forall k :: 0 <= k < |s| - |r| ==> IsSpace(s[k])) &&
      (r == [] || !IsSpace(r[0]))
  {
    if s != [] && IsSpace(s[0]) {
      LstripSpec(s[1..]);
    }
  }

  /** `rstrip` keeps a prefix of the string, drops only whitespace, and
      leaves none at the end. */
  lemma {:induction false} RstripSpec(s: string)
    ensures var r := Rstrip(s);
      r == s[..|r|] && (forall k :: |r| <= k < |s| ==> IsSpace(s[k])) &&
      (r == [] || !IsSpace(r[|r| - 1]))
  {
    if s != [] && IsSpace(s[|s| - 1]) {
      RstripSpec(s[..|s| - 1]);
    }
  }

  /** `strip`: both. */
  function Strip(s: string): string
  {
    Lstrip(Rstrip(s))
  }

  /** A string with no leading whitespace is its own `lstrip`, and one with
      no trailing whitespace its own `rstrip`. */
  lemma StripFixedPoints(s: string)
    ensures s == [] || !IsSpace(s[0]) ==> Lstrip(s) == s
    ensures s == [] || !IsSpace(s[|s| - 1]) ==> Rstrip(s) == s
  {
  }

  /** The order of the two strips does not matter. */
  lemma {:induction false} StripCommutes(s: string)
    ensures Lstrip(Rstrip(s)) == Rstrip(Lstrip(s))
  {
    if s != [] {
      RstripCons(s);
      if IsSpace(s[0]) {
        StripCommutes(s[1..]);
        if Rstrip(s[1..]) != [] {
          assert ([s[0]] + Rstrip(s[1..]))[1..] == Rstrip(s[1..]);
        }
      }
    }
  }

  /** Stripping twice is stripping once. */
  lemma StripIdempotent(s: string)
    ensures Strip(Strip(s)) == Strip(s)
  {
    var u := Rstrip(s);
    var t := Lstrip(u);
    RstripSpec(s);
    LstripSpec(u);
    if t != [] {
      assert t[|t| - 1] == u[|u| - 1];
    }
    StripFixedPoints(t);
  }

  /** How `rstrip` treats the first character: it goes only when it is
      whitespace and everything after it is whitespace too. */
  lemma {:induction false} RstripCons(s: string)
    requires s != []
    ensures Rstrip(s) == if IsSpace(s[0]) && Rstrip(s[1..]) == [] then [] else [s[0]] + Rstrip(s[1..])
  {
    if IsSpace(s[|s| - 1]) {
      if |s| >= 2 {
        var p := s[..|s| - 1];
        assert p[1..] == s[1..][..|s[1..]| - 1];
        RstripCons(p);
      }
    } else if |s| >= 2 {
      assert s == [s[0]] + s[1..];
    }
  }

  /** Line 139. */
  lemma LstripExample()
    ensures Lstrip("   hello.") == "hello."
  {
    assert "   hello."[1..] == "  hello.";
    assert "  hello."[1..] == " hello.";
    assert " hello."[1..] == "hello.";
  }

  /** Line 140. */
  lemma RstripExample()
    ensures Rstrip("   hello.   ") == "   hello."
  {
    var s := "   hello.   ";
    assert s[..11] == "   hello.  ";
    assert "   hello.  "[..10] == "   hello. ";
    assert "   hello. "[..9] == "   hello.";
    assert Rstrip(s) == Rstrip("   hello.  ") == Rstrip("   hello. ") == Rstrip("   hello.");
  }

  /** Line 141. */
  lemma StripExample()
    ensures Strip("   hello.   ") == "hello."
  {
    RstripExample();
    LstripExample();
  }

  // ---------------------------------------------------------------------
  // hex (lines 110-112)
  // ---------------------------------------------------------------------

  /** The value of a hexadecimal digit in either case, or None. */
  function HexDigit(c: char): (r: Option<nat>)
    ensures r.Some? ==> r.value < 16
  {
    if '0' <= c <= '9' then Some(c as nat - '0' as nat)
    else if 'a' <= c <= 'f' then Some(c as nat - 'a' as nat + 10)
    else if 'A' <= c <= 'F' then Some(c as nat - 'A' as nat + 10)
    else None
  }

  predicate IsHexDigit(c: char)
  {
    HexDigit(c).Some?
  }

  /** The value of a string of hexadecimal digits, most significant first. */
  function HexValue(ds: string): nat
    requires forall k :: 0 <= k < |ds| ==> IsHexDigit(ds[k])
  {
    if ds == [] then 0
    else
      assert IsHexDigit(ds[|ds| - 1]);
      HexValue(ds[..|ds| - 1]) * 16 + HexDigit(ds[|ds| - 1]).value
  }

  /** A leading "0x" or "0X" dropped. */
  function Strip0x(u: string): (r: string)
    ensures r == u || (|u| >= 2 && r == u[2..] && (u[..2] == "0x" || u[..2] == "0X"))
  {
    if |u| >= 2 && u[0] == '0' && (u[1] == 'x' || u[1] == 'X') then u[2..] else u
  }

  /** `hex` after the sign: the longest run of hexadecimal digits after an
      optional "0x"; anything after it is ignored and no digits give 0. */
  function HexUnsigned(u: string): nat
  {
    HexValue(Enumerables.TakeWhile(Strip0x(u), IsHexDigit))
  }

  /** `s.hex`: an optional sign, then the unsigned part. */
  function Hex(s: string): int
  {
    if s != [] && s[0] == '-' then -(HexUnsigned(s[1..]) as int)
    else if s != [] && s[0] == '+' then HexUnsigned(s[1..])
    else HexUnsigned(s)
  }

  /** The lower-case hexadecimal digit for a value below 16. */
  function DigitChar(d: nat): (c: char)
    requires d < 16
    ensures HexDigit(c) == Some(d)
  {
    if d < 10 then ('0' as nat + d) as char else ('a' as nat + d - 10) as char
  }

  /** `n.to_s(16)` for a non-negative integer. */
  function ToHex(n: nat): (r: string)
    ensures r != [] && forall k :: 0 <= k < |r| ==> IsHexDigit(r[k])
  {
    if n < 16 then [DigitChar(n)] else ToHex(n / 16) + [DigitChar(n % 16)]
  }

  lemma {:induction false} HexValueOfToHex(n: nat)
    ensures HexValue(ToHex(n)) == n
  {
    if n >= 16 {
      HexValueOfToHex(n / 16);
      var r := ToHex(n);
      assert r[..|r| - 1] == ToHex(n / 16);
    } else {
      assert ToHex(n)[..0] == [];
    }
  }

  /** `hex` reads back what `to_s(16)` writes, with or without a sign or
      a "0x" in front. */
  lemma HexRoundTrip(n: nat)
    ensures Hex(ToHex(n)) == n
    ensures Hex("-" + ToHex(n)) == -(n as int)
    ensures Hex("+0x" + ToHex(n)) == n
  {
    var r := ToHex(n);
    HexUnsignedOfToHex(n);
    HexSigns(r);
    HexSigns("0x" + r);
    Hex0x(r);
    HexUnsignedNoSign(r);
  }

  /** A string that starts with a digit has no sign to read. */
  lemma HexUnsignedNoSign(u: string)
    requires u != [] && IsHexDigit(u[0])
    ensures Hex(u) == HexUnsigned(u)
  {
  }

  /** "0x" in front of digits is skipped. */
  lemma Hex0x(u: string)
    ensures HexUnsigned("0x" + u) == HexValue(Enumerables.TakeWhile(u, IsHexDigit))
  {
    assert ("0x" + u)[2..] == u;
  }

  /** A sign in front is read first. */
  lemma HexSigns(u: string)
    ensures Hex("-" + u) == -(HexUnsigned(u) as int)
    ensures Hex("+" + u) == HexUnsigned(u)
  {
    assert ("-" + u)[1..] == u;
    assert ("+" + u)[1..] == u;
  }

  lemma HexUnsignedOfToHex(n: nat)
    ensures HexUnsigned(ToHex(n)) == n
    ensures HexValue(Enumerables.TakeWhile(ToHex(n), IsHexDigit)) == n
  {
    var r := ToHex(n);
    HexValueOfToHex(n);
    AllDigitsTaken(r);
    HexNoLeadingZero(n);
  }

  /** `to_s(16)` writes no leading zero except for 0 itself. */
  lemma {:induction false} HexNoLeadingZero(n: nat)
    ensures |ToHex(n)| >= 2 ==> ToHex(n)[0] != '0'
  {
    if n >= 16 {
      HexNoLeadingZero(n / 16);
      assert ToHex(n)[0] == ToHex(n / 16)[0];
    }
  }

  lemma AllDigitsTaken(r: string)
    requires forall k :: 0 <= k < |r| ==> IsHexDigit(r[k])
    ensures Enumerables.TakeWhile(r, IsHexDigit) == r
  {
  }

  /** Line 111. */
  lemma HexExample()
    ensures Hex("00A0FF") == 41215
  {
    var s := "00A0FF";
    AllDigitsTaken(s);
    assert Strip0x(s) == s;
    HexValueExample();
  }

  lemma HexValueExample()
    ensures HexValue("00A0FF") == 41215
  {
    assert "00A0FF"[..5] == "00A0F" && "00A0F"[..4] == "00A0" && "00A0"[..3] == "00A";
    assert "00A"[..2] == "00" && "00"[..1] == "0" && "0"[..0] == "";
  }

  /** Line 112. */
  lemma HexShortExamples()
    ensures Hex("00") == 0
    ensures Hex("A0") == 160
    ensures Hex("FF") == 255
  {
    AllDigitsTaken("00");
    AllDigitsTaken("A0");
    AllDigitsTaken("FF");
    assert "00"[..1] == "0" && "A0"[..1] == "A" && "FF"[..1] == "F";
    assert "0"[..0] == "" && "A"[..0] == "" && "F"[..0] == "";
  }
}
