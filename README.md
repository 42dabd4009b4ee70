# Ruby study notes, modelled in Dafny

The repository is a set of Ruby study notes. Most of its lines call a core-library method and print the result. This project models seven of those files:

- the memoised Fibonacci function and the three conditional-assignment idioms (`ruby/memoization.rb`);
- Hash and its merges (`hashes.rb`);
- the `to_eng` mapping and the three dice classes (`classes.rb`);
- the Comparable and Enumerable mixins (`modules_namespaces_mixins.rb`);
- the Enumerator cursor, Enumerable methods and loops (`iterator_enumerable_loop.rb`);
- Array (`arrays.rb`);
- String (`strings.rb`).

The model proves each behaviour the notes rely on or write down beside a call.

The model has one module per Ruby file, plus two shared modules:

- `RubyCore` (core.dfy): nil, truthiness, `||` and Integer `<=>`.
- `Sequences` (sequences.dfy): `*`, slicing with negative positions, and `uniq`. Array and String both use these.
- `Memoization`, `Hashes`, `Classes`, `Mixins`, `Enumerables`, `Arrays` and `Strings`: one each for the seven files.

An object that the Ruby code changes in place is a Dafny class, and its methods carry `modifies` clauses:

- the printing hash `h`;
- the memo hash of `fib`;
- a Hash;
- an Array;
- a mutable String;
- an Enumerator;
- the dice;
- a `Computation`.

Operations that return new values are functions. Each function is tied to a specification or an inverse by lemmas. The results written in the notes' comments become example lemmas and demo methods that rebuild the same objects and call the modelled operations.

Sometimes a comment beside the code disagrees with what the code does. The model then follows the code:

- `[2, 4, 6, 8].none? { |n| n < 10 }` is false. Every item is below 10, but the comment at iterator_enumerable_loop.rb:133 says true. See `Enumerables.QuantifierExamples`.
- The `until` loop at iterator_enumerable_loop.rb:266-270 prints a sixth, nil line. See "Findings".

## Model

| member | source | states |
|---|---|---|
| RubyCore.Truthy | ruby/memoization.rb:11-12 | a value is truthy exactly when it is neither nil nor false; `OrElse` and `OrAssignIdempotent` are stated in terms of it |
| RubyCore.OrElse | ruby/memoization.rb:4-12 | `a \|\| b` is `a` when `a` is neither nil nor false, otherwise `b`; the result is truthy exactly when one of the operands is |
| RubyCore.OrAssignIdempotent | ruby/memoization.rb:11-12 | once `x ||= v` has stored a truthy value, a further `x ||= w` leaves it unchanged |
| RubyCore.Spaceship | modules_namespaces_mixins.rb:186-190 | Integer `<=>` is -1, 0 or 1, negative exactly when less, 0 exactly when equal, positive exactly when greater |
| RubyCore.SpaceshipAntisymmetric | modules_namespaces_mixins.rb:186-190 | swapping the operands of `<=>` negates the answer |
| Sequences.Repeat | arrays.rb:179 | `s * n` has `n` times the length of `s` |
| Sequences.RepeatAt | arrays.rb:179 | copy `q` inside `s * n` starts at position `q * |s|` and repeats `s` element by element |
| Sequences.Times | strings.rb:29-31 | `s * n` fails (ArgumentError) exactly for a negative count, otherwise it is `n` copies of `s` |
| Sequences.StartIndex | arrays.rb:181-187 | a start position is valid exactly when it lies between `-size` and `size`; a negative one counts back from the end |
| Sequences.SliceLen | arrays.rb:183-185 | `s[start, length]` is nil exactly for an invalid start or a negative length; otherwise it holds the next `length` elements, or fewer when the sequence ends first |
| Sequences.SliceRange | arrays.rb:183-186 | `s[first..last]` and `s[first...last]` are nil exactly when the start is invalid; otherwise they are the elements from the start to the end of the range, the end clamped to the size and never before the start |
| Sequences.SliceRangeInside | arrays.rb:184-186 | an inclusive range, or an exclusive range one past its end, inside the sequence selects exactly the elements from `first` to `last` |
| Sequences.SliceWholeAndPrefix | strings.rb:51-53 | `s[0..-1]` is the whole sequence and `s[0, n]` its first `n` elements |
| Sequences.Uniq | arrays.rb:149-152 | `uniq` holds exactly the elements of the input, each once, and is no longer than the input; its order is stated by `UniqOrder` |
| Sequences.UniqOrder | arrays.rb:149-152 | `uniq` lists the elements in the order of their first occurrence: each comes before every occurrence of any later one (with `Uniq`'s membership and no-duplicates clauses this fixes the result) |
| Sequences.UniqOfDistinct | arrays.rb:149-152 | a sequence without duplicates is its own `uniq` |
| Memoization.Lookup | ruby/memoization.rb:23 | `h[k]` on a missing key is nil |
| Memoization.Write | ruby/memoization.rb:25-28 | the overridden `[]=` stores the value under the key, changes no other key, and appends one announcement to the log |
| Memoization.OrAssign | ruby/memoization.rb:30-40 | `h[k] \|\|= v` (and `h[k] \|\| h[k] = v`) leaves `h[k] \|\| v` under the key and writes only when the old value is nil or false; otherwise the hash and log are untouched |
| Memoization.AssignOr | ruby/memoization.rb:34-36 | `h[k] = h[k] \|\| v` leaves the same value but always logs a write |
| Memoization.IdiomsDifferOnlyInWrites | ruby/memoization.rb:48-55 | the two idioms leave identical contents; `h[k] = h[k] \|\| v` always adds one write, `\|\|=` adds one only when the key held nil or false |
| Memoization.DemoWrites | ruby/memoization.rb:30-46 | the six statements of the demo make exactly four writes, x, y, y, z, each of 10, and leave 10 under every key |
| Memoization.PrintingHash.constructor | ruby/memoization.rb:23 | a new hash is empty and has announced nothing |
| Memoization.PrintingHash.Get | ruby/memoization.rb:23-28 | the object's `h[k]` is the modelled lookup of its state |
| Memoization.PrintingHash.Set | ruby/memoization.rb:25-28 | the in-place `[]=` moves the object to the state `Write` describes |
| Memoization.PrintingHash.OrAssignKey | ruby/memoization.rb:31-32 | in-place `h[k] \|\|= v` is `OrAssign` on the object's state |
| Memoization.PrintingHash.AssignOrKey | ruby/memoization.rb:35-36 | in-place `h[k] = h[k] \|\| v` is `AssignOr` on the object's state |
| Memoization.PrintingHash.OrElseAssignKey | ruby/memoization.rb:39-40 | in-place `h[k] \|\| h[k] = v` has exactly the effect of `\|\|=` |
| Memoization.RunDemo | ruby/memoization.rb:23-46 | running the demo on one hash object announces x, y, y, z and leaves 10 under x, y and z |
| Memoization.LocalOrAssign | ruby/memoization.rb:5-18 | `a = nil; a \|\|= 20` gives 20, and `c = nil; c = c \|\| a` then gives 20 too |
| Memoization.Memo.constructor | ruby/memoization.rb:58 | the default `memo = {}` is empty and satisfies the memo invariant |
| Memoization.FibMemo | ruby/memoization.rb:58-64 | `fib(n, memo)` returns the n-th Fibonacci number; every memo entry stays the true Fibonacci number of a key of at least 2; 0 and 1 leave the memo alone; for `n >= 2` the memo gains `n` and only keys up to `n`, losing none |
| Memoization.FibFresh | ruby/memoization.rb:58-66 | `fib(n)` with its default memo is the n-th Fibonacci number |
| Hashes.Merge | hashes.rb:97-105 | `a.merge(b)` has the keys of both; a key of `b` keeps `b`'s value, a key only in `a` keeps `a`'s |
| Hashes.MergeWith | hashes.rb:97-106 | `merge` with a block has the keys of both; a shared key gets the block's value of (key, a's value, b's value), any other key its one value |
| Hashes.MergeWithLastIsMerge | hashes.rb:97-98 | a block returning the argument's value makes `merge` with a block the plain `merge` |
| Hashes.MergeWithDisjoint | hashes.rb:97-98 | without shared keys the block is never used and `merge` is symmetric |
| Hashes.MergeExamples | hashes.rb:101-106 | `h1.merge(h2)` has "b" => 254, `h2.merge(h1)` has "b" => 200, and the summing block gives "b" => 454 |
| Hashes.Reject | hashes.rb:87-88 | `reject` keeps exactly the entries the block refuses, with their values |
| Hashes.Select | iterator_enumerable_loop.rb:170-173 | Hash `select` keeps exactly the entries the block accepts, with their values |
| Hashes.SelectRejectPartition | hashes.rb:87-88 | `select` and `reject` with one block share no key and together rebuild the hash |
| Hashes.MergeRecursively | hashes.rb:116-118 | `merge_recursively` raises unless both arguments are hashes; a result has the keys of both and keeps the value of a key only one side has |
| Hashes.MergeRecursivelyShared | hashes.rb:116-118 | on a shared key the result holds the recursive merge of the two values, and an inner failure makes the whole call fail |
| Hashes.MergeRecursivelySucceeds | hashes.rb:116-118 | when every shared key merges recursively, the whole merge succeeds |
| Hashes.MergeRecursivelyDisjoint | hashes.rb:116-118 | without shared keys `merge_recursively` is `merge` |
| Hashes.MergeRecursivelyClash | hashes.rb:116-118 | a shared key holding a plain value makes `merge_recursively` raise |
| Hashes.MergeRecursivelySameKey | hashes.rb:109-118 | two one-key hashes with the same key merge into a one-key hash holding the merged values |
| Hashes.MergeRecursivelyExample | hashes.rb:109-120 | `{car: {color: "red"}}` and `{car: {speed: "100mph"}}` merge recursively into `{car: {color: "red", speed: "100mph"}}`, while plain `merge` keeps only the second inner hash |
| Hashes.RubyHash.constructor | hashes.rb:10-11 | `Hash.new` and `Hash.new(0)` start empty with the given default |
| Hashes.RubyHash.Literal | hashes.rb:12-16 | a hash literal holds exactly its entries, default nil |
| Hashes.RubyHash.Get | hashes.rb:36-37 | `h[k]` is the stored value, or the default for a missing key |
| Hashes.RubyHash.Store | hashes.rb:63-64 | `[]=` and `store` set one key and change nothing else |
| Hashes.RubyHash.Delete | hashes.rb:66 | `delete(k)` returns the old value (nil when absent) and removes only that key |
| Hashes.RubyHash.DeleteIf | hashes.rb:68-69 | `delete_if` leaves exactly the entries the block refuses |
| Hashes.RubyHash.KeepIf | hashes.rb:71-72 | `keep_if` leaves exactly the entries the block accepts |
| Hashes.RubyHash.Clear | hashes.rb:74 | `clear` empties the hash |
| Hashes.RubyHash.Key | hashes.rb:38 | `key(v)` returns a key holding `v`, and nil exactly when no key does |
| Hashes.Tabulate | hashes.rb:29-34 | the hash built over a range has exactly the range's integers as keys, each mapped to the block's value |
| Hashes.FillFromRange | hashes.rb:30-31 | the `each` loop storing `hash[i]` adds exactly the tabulated entries to the hash |
| Hashes.MonthsQueries | hashes.rb:36-56 | on the months hash, `months[1]` is "January", `key('January')` is 1, key 2 is present, `value?('January')` holds, `empty?` is false and the size is 3 |
| Hashes.MonthsStoreDelete | hashes.rb:63-66 | storing April and May and deleting 5 returns "May" and leaves January to April |
| Hashes.MonthsConditional | hashes.rb:68-72 | `delete_if { key > 2 }` leaves January and February, then `keep_if { value == 'January' }` leaves January |
| Hashes.DefaultDemo | hashes.rb:10-11 | a `Hash.new(0)` answers 0 for a missing key, and after `clear` it is empty (line 74) |
| Enumerables.Enumerator.constructor | iterator_enumerable_loop.rb:57 | `ary.each` without a block is a cursor at the first item |
| Enumerables.Enumerator.Size | iterator_enumerable_loop.rb:69 | `enum.size` is the number of items the enumerator yields (5 for `[1, 2, 3, 4, 5].each`, `EnumeratorDemo`) |
| Enumerables.Enumerator.Next | iterator_enumerable_loop.rb:70-71 | `next` returns the item at the cursor and advances it; at the end it raises StopIteration and stays |
| Enumerables.Enumerator.Peek | iterator_enumerable_loop.rb:72-73 | `peek` returns the item `next` would return, and fails exactly at the end |
| Enumerables.Enumerator.Rewind | iterator_enumerable_loop.rb:75-76 | `rewind` puts the cursor back at the first item |
| Enumerables.EnumeratorDemo | iterator_enumerable_loop.rb:57-76 | on `[1, 2, 3, 4, 5].each`: size 5, then 1, 2, peek 3, 3, and after rewind 1 |
| Enumerables.LoopUntilStop | iterator_enumerable_loop.rb:272-276 | `loop do puts e.next end` prints every remaining item in order and ends at StopIteration with the cursor at the end |
| Enumerables.Map | iterator_enumerable_loop.rb:111-112 | `map` keeps the length and applies the block at every position |
| Enumerables.Count | iterator_enumerable_loop.rb:137-138 | `count(x)` is the number of occurrences of `x` |
| Enumerables.Select | iterator_enumerable_loop.rb:162-163 | every item `select` returns is accepted by the block; its order and contents are stated by `SelectAppend`, `SelectOne` and `SelectMembers` |
| Enumerables.Reject | iterator_enumerable_loop.rb:175-176 | every item `reject` returns is refused by the block; its order is stated by `RejectAppend` and `RejectOne` |
| Enumerables.SelectRejectPartition | iterator_enumerable_loop.rb:160-176 | `select` and `reject` with one block together hold every item exactly as often as the input |
| Enumerables.SelectAppend | iterator_enumerable_loop.rb:162-163 | `select` keeps the input's order: on two pieces end to end it is the two selections end to end |
| Enumerables.SelectOne | iterator_enumerable_loop.rb:162-163 | on one item, `select` keeps it exactly when the block accepts it |
| Enumerables.RejectAppend | iterator_enumerable_loop.rb:175-176 | `reject` keeps the input's order: on two pieces end to end it is the two rejections end to end |
| Enumerables.RejectOne | iterator_enumerable_loop.rb:175-176 | on one item, `reject` keeps it exactly when the block refuses it |
| Enumerables.SelectMembers | iterator_enumerable_loop.rb:162-163 | an item is selected exactly when it is in the input and the block accepts it |
| Enumerables.CountIf | iterator_enumerable_loop.rb:139 | `count { ... }` is the number of items `select` keeps |
| Enumerables.All | iterator_enumerable_loop.rb:124-126 | `all?` holds exactly when the block accepts every item |
| Enumerables.Any | iterator_enumerable_loop.rb:128-130 | `any?` holds exactly when the block accepts some item |
| Enumerables.NoneOf | iterator_enumerable_loop.rb:132-134 | `none?` holds exactly when the block accepts no item |
| Enumerables.QuantifierDualities | iterator_enumerable_loop.rb:124-134 | `none?` is the negation of `any?`, and `all?` holds exactly when `reject` leaves nothing |
| Enumerables.TakeWhile | iterator_enumerable_loop.rb:194-197 | `take_while` is the longest prefix the block accepts: every item of it is accepted and the next one is not |
| Enumerables.FindIndex | iterator_enumerable_loop.rb:205-206 | `find_index` is the first accepted position, and nil exactly when no item is accepted |
| Enumerables.Find | iterator_enumerable_loop.rb:199-203 | `find` returns an accepted item of the input, and nil exactly when none is accepted |
| Enumerables.FindAtFindIndex | iterator_enumerable_loop.rb:199-206 | `find` returns the item at the position `find_index` reports |
| Enumerables.First | iterator_enumerable_loop.rb:208-210 | `first` is the first item, and missing (None) exactly for an empty collection |
| Enumerables.Take | iterator_enumerable_loop.rb:211 | `first(n)` and `take(n)` are the first `n` items (all when there are fewer); a negative count raises |
| Enumerables.Drop | arrays.rb:125-126 | `drop(n)` is what follows the first `n` items; a negative count raises |
| Enumerables.TakeDropSplit | arrays.rb:123-126 | `take(n) + drop(n)` is the original collection |
| Enumerables.Reduce | iterator_enumerable_loop.rb:224-226 | `reduce` without an initial value is nil exactly for an empty collection |
| Enumerables.FoldLeftAdd | iterator_enumerable_loop.rb:229 | folding with `+` from an accumulator adds the sum of the items |
| Enumerables.FoldLeftMul | iterator_enumerable_loop.rb:230 | folding with `*` from an accumulator multiplies by the product of the items |
| Enumerables.ReduceSumProduct | iterator_enumerable_loop.rb:228-230 | `reduce(:+)` and `reduce(:*)` on a non-empty collection are its sum and its product |
| Enumerables.Zip | iterator_enumerable_loop.rb:242-245 | `a.zip(b)` is as long as `a` |
| Enumerables.ZipAt | iterator_enumerable_loop.rb:242-245 | position `i` of `a.zip(b)` pairs `a[i]` with `b[i]`, or with nil past the end of `b` |
| Enumerables.QuantifierExamples | iterator_enumerable_loop.rb:124-133 | `all?` on evens is true; `all?` with a nil is false; `any?` odd and `any?` on `"foo"` are true; `[2, 4, 6, 8].none? { n < 10 }` is false |
| Enumerables.CountExamples | iterator_enumerable_loop.rb:136-139 | `count("foo")` is 2 and the even count is 3 |
| Enumerables.SelectRejectExamples | iterator_enumerable_loop.rb:162-176 | `select { n > 3 }` is `[4, 5, 6, 8, 9]` and `reject { n > 3 }` is `[1, 2, 3]` |
| Enumerables.TakeWhileFindExamples | iterator_enumerable_loop.rb:196-200 | `take_while { a < 4 }` is `[1, 2, 3]` and `find { n > 5 }` is 6 |
| Enumerables.FindIndexExample | iterator_enumerable_loop.rb:206 | the first string including "ba" is at position 2 |
| Enumerables.FirstExamples | iterator_enumerable_loop.rb:209-211 | `first` is "foo" and `first(2)` is `["foo", "bar"]` |
| Enumerables.ReduceExamples | iterator_enumerable_loop.rb:226-230 | `[2, 3, 5]` reduces to 10 with `+` and to 30 with `*` |
| Enumerables.ZipExample | iterator_enumerable_loop.rb:243-245 | `[1, 3, 5].zip([9, 5, 1])` is `[[1, 9], [3, 5], [5, 1]]` |
| Enumerables.LoopDemo | iterator_enumerable_loop.rb:273-276 | the loop over `(1..9).each` prints 1 to 9 and stops quietly |
| Enumerables.Tally | iterator_enumerable_loop.rb:146-158 | the occurrence counts: a key for exactly the items present, each mapped to its number of occurrences (`TallyCounts`), built by the counting loop (`CountWithObject`) and equal to the `group_by` counts (`GroupByCountsAgree`) |
| Enumerables.TallyCounts | iterator_enumerable_loop.rb:146-158 | the counts hash has a key for exactly the items present, each mapped to its number of occurrences |
| Enumerables.TallySnoc | iterator_enumerable_loop.rb:158 | one more item adds one to its own count and changes no other |
| Enumerables.CountWithObject | iterator_enumerable_loop.rb:158 | the `each_with_object(Hash.new(0)) { counts[word] += 1 }` loop builds exactly the tally of the array |
| Enumerables.GroupByItself | iterator_enumerable_loop.rb:149-152 | `group_by(&:itself)` has a key for exactly the items present, and maps each to the list of its occurrences |
| Enumerables.GroupByCountsAgree | iterator_enumerable_loop.rb:148-158 | the `group_by` counts and the `each_with_object` counts are the same hash |
| Enumerables.CountIsSelected | iterator_enumerable_loop.rb:149-154 | the group of an item has as many entries as the item has occurrences |
| Enumerables.TallySumsToLength | iterator_enumerable_loop.rb:146-158 | every distinct item has a count, and the counts add up to the number of items |
| Enumerables.TallyExample | iterator_enumerable_loop.rb:146-149 | the counts of `["foo", "bar", "baz", "foo", "foo", "baz"]` are foo 3, bar 1, baz 2 |
| Enumerables.WhileLoop | iterator_enumerable_loop.rb:258-263 | the `while (i < ary.size)` loop prints every item once, in order |
| Enumerables.UntilLoopAsWritten | iterator_enumerable_loop.rb:265-270 | the `until (i > ary.size)` loop prints one line more than there are items: every item, then nil |
| Enumerables.UntilLoop | iterator_enumerable_loop.rb:265-267 | the `until` loop the comment describes prints every item once, in order |
| Enumerables.UntilLoopDemo | iterator_enumerable_loop.rb:265-270 | on `[1, 2, 3, 4, 5]` the loop as written prints six lines, the last nil, and the corrected loop prints 1 to 5 |
| Enumerables.ForMultiples | iterator_enumerable_loop.rb:253-256 | the `for` loop prints, in increasing order, exactly the multiples of `k` in the range |
| Mixins.Holds | modules_namespaces_mixins.rb:184-190 | the Comparable operators `<`, `<=`, `==`, `>=` and `>` read off the answer of `<=>`; on Integer they are the usual comparisons (`IntegerComparable`) and for an antisymmetric `<=>` they satisfy the converse laws (`ComparableConverse`) |
| Mixins.Between | modules_namespaces_mixins.rb:186-187 | `between?(min, max)` is false exactly when `x < min` or `x > max`; on Integer it is the inclusive range test (`IntegerComparable`) |
| Mixins.IntegerComparable | modules_namespaces_mixins.rb:184-190 | on Integer the Comparable operators read off `<=>` are the usual comparisons, and `between?` is the inclusive range test |
| Mixins.BetweenExample | modules_namespaces_mixins.rb:186-187 | `4.between?(3, 10)` is true |
| Mixins.ComparableConverse | modules_namespaces_mixins.rb:184-190 | for an antisymmetric `<=>`, `x < y` is `y > x`, `x <= y` is `y >= x`, and `==` is symmetric |
| Mixins.SongCmp | modules_namespaces_mixins.rb:196-198 | `Song#<=>` is -1, 0 or 1, negative exactly for a shorter song and 0 exactly for the same length |
| Mixins.SongOrderIgnoresName | modules_namespaces_mixins.rb:192-204 | songs of equal length are `==`, renaming never changes the order, and `<=>` is antisymmetric |
| Mixins.SongExamples | modules_namespaces_mixins.rb:206-213 | `a < b` and `b >= c` hold, `c > a` does not, and `a.between?(c, b)` holds |
| Mixins.Computation.constructor | modules_namespaces_mixins.rb:219-221 | a new computation keeps its block and has no result yet |
| Mixins.Computation.Result | modules_namespaces_mixins.rb:223-225 | `result` is the block's value and is cached; the block runs on the first call only, so at most once in all |
| Mixins.Computation.Cmp | modules_namespaces_mixins.rb:227-231 | `Computation#<=>` is Integer `<=>` on the two results, and leaves both cached |
| Mixins.ComputationDemo | modules_namespaces_mixins.rb:234-242 | `a < b`, `a <= b`, `b > c` and `b >= c` hold and `a == b` does not |
| Mixins.ResultTwice | modules_namespaces_mixins.rb:223-225 | asking twice gives the same value and calls the block once |
| Mixins.Each | modules_namespaces_mixins.rb:159-168 | `Vowels#each` yields five vowels from "a" to "u"; `VowelsMap` fixes all five, "a", "e", "i", "o", "u", in order |
| Mixins.VowelsMap | modules_namespaces_mixins.rb:170-182 | Enumerable's `map { v + 'x' }` over `Vowels` is "ax", "ex", "ix", "ox", "ux" |
| Classes.ToEng | classes.rb:2-14 | `to_eng` is "five" exactly for 5, "199" exactly for 199, and "smd" exactly for every other integer |
| Classes.ToEngliAgrees | classes.rb:37-47 | `to_engli(n)` agrees with `n.to_eng` on integers and is "smd" on nil, booleans and strings |
| Classes.RollValue | classes.rb:52-54 | `1 + rand(6)` lies in 1..6 |
| Classes.Die.Roll | classes.rb:51-55 | `Die#roll` returns a face from 1 to 6 |
| Classes.Die2.constructor | classes.rb:71 | a new Die2 has no number yet |
| Classes.Die2.Roll | classes.rb:62-64 | `Die2#roll` stores and returns a face from 1 to 6 |
| Classes.Die2.Show | classes.rb:66-68 | `show` returns the stored number, nil before any roll |
| Classes.CheatValue | classes.rb:90-96 | `cheat(t)` picks `t` when `t.between?(1, 6)` and 6 otherwise, so always a face |
| Classes.Die3.constructor | classes.rb:78-80 | `initialize` rolls, so a new Die3 already holds a face from 1 to 6 |
| Classes.Die3.Roll | classes.rb:82-84 | `Die3#roll` stores and returns a face from 1 to 6 |
| Classes.Die3.Show | classes.rb:86-88 | `show` on a Die3 is never nil: it is the stored face, from 1 to 6 |
| Classes.Die3.Cheat | classes.rb:90-96 | `cheat(t)` stores and returns the face `CheatValue(t)`, keeping the die valid |
| Classes.Die2Demo | classes.rb:71-76 | a Die2 shows nil before its first roll and a face after it |
| Classes.Die3Demo | classes.rb:99-102 | a new Die3 shows a face, and after `cheat(99)` it shows 6 |
| Arrays.Position | arrays.rb:111-114 | a position is inside the array exactly when it lies between `-size` and `size - 1`; a negative one counts from the end |
| Arrays.At | arrays.rb:112-114 | `a[i]` is missing (None) exactly outside the array |
| Arrays.AtIsSliceOfOne | arrays.rb:181-183 | `a[i]` is the one element of `a[i, 1]`; at the size `a[i, 1]` is empty and beyond it nil |
| Arrays.Fetch | arrays.rb:116-118 | `fetch(i, default)` is `a[i]` inside the array and the default outside |
| Arrays.Last | arrays.rb:120-122 | `last` is `a[-1]`, and missing (None) exactly for an empty array |
| Arrays.Intersect | arrays.rb:174 | `a & b` holds exactly the elements common to both, without duplicates, in the order of their first occurrence in `a` |
| Arrays.Difference | arrays.rb:175-176 | `a - b` holds no element of `b`; its order and counts are stated by `DifferenceKeepsOrder` and `DifferenceCounts` |
| Arrays.DifferenceKeepsOrder | arrays.rb:175-176 | `a - b` keeps the order of `a`: it distributes over concatenation and keeps a single element exactly when `b` lacks it |
| Arrays.DifferenceCounts | arrays.rb:175-176 | `a - b` keeps every occurrence of an element `b` lacks and none of one it has |
| Arrays.RejectCounts | arrays.rb:171-172 | `reject` keeps every occurrence of a refused item and none of an accepted one |
| Arrays.IntersectExample | arrays.rb:174 | `[1, 1, 3, 5] & [3, 2, 1]` is `[1, 3]` |
| Arrays.DifferenceExamples | arrays.rb:175-176 | `[1, 1, 3, 5] - [3, 2, 1]` is `[5]` and `[3, 2, 1] - [1, 1, 3, 5]` is `[2]` |
| Arrays.ConcatRepeatExamples | arrays.rb:178-179 | `+` concatenates in order and `[1, 2, 3] * 3` repeats three times |
| Arrays.IndexingExamples | arrays.rb:181-192 | `arr[3]` is 4; `arr[1, 2]` and `arr[1..2]` are `[2, 3]`; `arr.slice(1..-1)` is `[2, 3, 4, 5, 6]`; `index { x == 4 }` is 3 |
| Arrays.ReadingExamples | arrays.rb:111-131 | on `[1, 2, 3, 4, 5]`: `[0]` is 1; `[6]` is nil; `fetch(6, msg)` is the message; first 1; last 5; `take(3)`; `drop(2)`; size 5; not empty; includes 5 |
| Arrays.Sort | arrays.rb:85-93 | `sort` on integers returns an increasing permutation of the array (`SortSorts`) and leaves an array already in order as it is (`SortOfSorted`) |
| Arrays.InsertSortedSpec | arrays.rb:85-93 | inserting into a sorted array keeps it sorted and adds exactly that element |
| Arrays.SortSorts | arrays.rb:85-93 | `sort` returns an increasing permutation of the array |
| Arrays.SortOfSorted | arrays.rb:85-93 | an array already in order sorts to itself |
| Arrays.SortExample | arrays.rb:89-93 | `[3, 1, 5, 6, 3].sort` is `[1, 3, 3, 5, 6]` |
| Arrays.InsertAt | arrays.rb:138 | `insert(i, x)` raises exactly when a negative index falls before the start; otherwise `x` lands at its position, earlier elements stay (nil-padded past the end) and later ones shift right by one |
| Arrays.RemoveAt | arrays.rb:143 | `delete_at(i)` returns `a[i]`; inside the array it removes exactly that element, outside it changes nothing |
| Arrays.InsertThenRemove | arrays.rb:138-143 | for every position from `-size-1` to `size`, negative ones counted from the end, `delete_at(i)` undoes `insert(i, x)` and returns `x` |
| Arrays.DeleteAll | arrays.rb:146 | after `delete(x)` no element equals `x`; the order and counts of the rest are stated by `DeleteAllKeepsOrder` and `DeleteAllCounts` |
| Arrays.DeleteAllKeepsOrder | arrays.rb:146 | `delete(x)` keeps the order of the other elements: it distributes over concatenation and drops a single element exactly when it equals `x` |
| Arrays.DeleteAllCounts | arrays.rb:146 | `delete(x)` drops every `x`, keeps every other element, and shortens the array by the number of `x`s |
| Arrays.RubyArray.constructor | arrays.rb:112 | an array literal holds exactly its elements |
| Arrays.RubyArray.Push | arrays.rb:31-34 | `<<` and `push` append one element at the end |
| Arrays.RubyArray.Pop | arrays.rb:139 | `pop` returns the last element and removes it; None on an empty array |
| Arrays.RubyArray.Shift | arrays.rb:141 | `shift` returns the first element and removes it; None on an empty array |
| Arrays.RubyArray.Unshift | arrays.rb:136 | `unshift(x)` puts `x` in front |
| Arrays.RubyArray.Insert | arrays.rb:138 | in-place `insert` becomes `InsertAt`, or raises and leaves the array unchanged |
| Arrays.RubyArray.DeleteAt | arrays.rb:143 | in-place `delete_at` returns and leaves what `RemoveAt` describes |
| Arrays.RubyArray.Delete | arrays.rb:146 | `delete(x)` removes every `x` and returns `x` when there was one, nil otherwise |
| Arrays.RubyArray.SortInPlace | arrays.rb:93 | `sort!` replaces the elements by the sorted ones |
| Arrays.ReverseEach | arrays.rb:158-159 | `reverse_each` visits every element once, last to first |
| Arrays.StackDemo | arrays.rb:51-59 | pushing 1, 2, 3 and twice pushing the sum of two pops leaves `[6]` |
| Arrays.QueueDemo | arrays.rb:62-74 | `delete_at(0)` then `push(4)` on `[1, 2, 3]` gives `[2, 3, 4]`; `shift` then `unshift(5)` gives `[5, 2, 3]` |
| Arrays.AddRemoveDemo | arrays.rb:133-144 | on `[1, 2, 3, 4, 5]`, the appends, `insert(3, "banana")` and removals give: pop 7, shift 0, `delete_at(2)` "banana", leaving `[1, 2, 3, 4, 5, 6]` |
| Arrays.DeleteUniqDemo | arrays.rb:146-152 | `push(6).delete(6)` returns 6 and removes both sixes; after `<< 6 << 6`, `uniq` keeps one 6 |
| Arrays.SelectRejectExample | arrays.rb:168-172 | `select { num > 2 }` and `reject { num < 3 }` both give `[3, 4, 5, 6]` |
| Strings.RepeatConcatExamples | strings.rb:29-34 | `"Ho! " * 3` is three copies, `"Ho! " * 0` is empty, and `+` concatenates |
| Strings.MutableString.constructor | strings.rb:37 | a string literal holds exactly its characters |
| Strings.MutableString.Append | strings.rb:37-39 | `<<` and `concat` append in place |
| Strings.MutableString.Insert | strings.rb:136 | in-place `insert` becomes `InsertAt`, or raises and leaves the string unchanged |
| Strings.MutableString.Replace | strings.rb:127 | `replace(t)` makes the whole string `t` |
| Strings.MutableString.Clear | strings.rb:77 | `clear` empties the string |
| Strings.MutableString.SetSubstring | strings.rb:129-133 | `str[pattern] = value` replaces the first occurrence, and raises exactly when there is none, leaving the string unchanged |
| Strings.AppendDemo | strings.rb:37-39 | `"hello " << "world"` is "hello world", then `concat` gives "hello world I am George!" |
| Strings.ReplaceDemo | strings.rb:126-136 | `clear` gives "", `replace("world")` gives "world", `["hello"] = "world"` replaces only the first "hello", and `"abd".insert(2, "c")` gives "abcd" |
| Strings.FirstHello | strings.rb:133 | replacing the first "hello" in "hello i like saying hello" gives "world i like saying hello" |
| Strings.Compare | strings.rb:41-45 | String `<=>` is -1, 0 or 1 |
| Strings.CompareMeaning | strings.rb:41-45 | `<=>` is 0 exactly for equal strings and -1 exactly when the first sorts before the second (a proper prefix, or a smaller character at the first difference) |
| Strings.CompareAntisymmetric | strings.rb:41-45 | swapping the operands of String `<=>` negates the answer |
| Strings.CompareObjects | strings.rb:41-46 | `<=>` between two strings is String `<=>`, and between a string and a non-string is nil |
| Strings.CompareExamples | strings.rb:42-46 | the four listed comparisons give 1, 0, 1 and -1, and `"a" <=> 1` is nil |
| Strings.CharAt | strings.rb:50 | `s[i]` is nil exactly outside the string, and otherwise the one-character slice at `i` |
| Strings.Index | strings.rb:117-123 | `index(t)` is the first position where `t` occurs, and nil exactly when it does not occur |
| Strings.RIndex | strings.rb:124 | `rindex(t)` is the last position where `t` occurs, and nil exactly when it does not occur |
| Strings.IndexBeforeRIndex | strings.rb:117-124 | `index` and `rindex` fail together, and the first occurrence is never after the last |
| Strings.Lookup | strings.rb:56 | `s["times"]` returns the argument exactly when it occurs, nil otherwise |
| Strings.ReplaceFirst | strings.rb:129-133 | substituting the first occurrence fails exactly when there is none, and otherwise splices the value in at `index` |
| Strings.SlicingExamples | strings.rb:48-56 | on "I am a string 19 times over": `[0]` is "I", `[0, 4]` is "I am", `[0..12]` is "I am a string", `[0..-1]` is the whole, `["times"]` is "times" |
| Strings.Chars | strings.rb:64-65 | `chars` has one one-character string per character, in order |
| Strings.CharsJoin | strings.rb:64-66 | joining `chars` gives back the string |
| Strings.CharsExample | strings.rb:65 | `"test 123".chars` is the eight one-character strings |
| Strings.SearchExamples | strings.rb:114-124 | `include?("llo")` holds; `index('e')` is 1; `index('a')` is nil; on "cat in the hat" `index("a")` is 1 and `rindex("a")` is 12 |
| Strings.Chomp | strings.rb:68-73 | `chomp` removes one trailing "\r\n", "\n" or "\r" and nothing else, a trailing "\r\n" as a whole, and changes the string exactly when it ends in "\n" or "\r" |
| Strings.ChompWith | strings.rb:74 | `chomp(sep)` returns a prefix of the string |
| Strings.ChompWithRoundTrip | strings.rb:74 | `chomp(sep)` undoes appending `sep` |
| Strings.ChompRoundTrip | strings.rb:68-72 | `chomp` undoes appending one line ending (unless a "\n" would join a trailing "\r") |
| Strings.ChompExamples | strings.rb:69-72 | "hello" stays; "hello\n", "hello\r" and "hello\r\n" chomp to "hello" |
| Strings.ChompOtherExamples | strings.rb:73-74 | "hello\n\r" chomps to "hello\n", and `chomp(" bitch")` removes the suffix |
| Strings.DeleteChars | strings.rb:78 | after `delete(chars)` no character of `chars` remains, and the string does not grow |
| Strings.DeleteCharsKeeps | strings.rb:78 | `delete` keeps every occurrence of every other character, and leaves a string without them as it is |
| Strings.DeleteExample | strings.rb:78 | `delete "o"` turns "I am a boss and no one can touch me" into "I am a bss and n ne can tuch me" |
| Strings.StartWithAny | strings.rb:89-90 | `start_with?(p1, p2, ...)` holds exactly when one of the prefixes matches |
| Strings.EndWithAny | strings.rb:84-87 | `end_with?(x1, x2, ...)` holds exactly when one of the suffixes matches |
| Strings.PredicateExamples | strings.rb:80-90 | `empty?` results, and the five `end_with?`/`start_with?` results written in the notes |
| Strings.InsertAt | strings.rb:135-136 | String `insert(i, t)` raises exactly outside `-size-1..size`; otherwise `t` lands at its position, earlier characters stay and later ones move right |
| Strings.InsertExample | strings.rb:136 | `"abd".insert(2, "c")` is "abcd" |
| Strings.Lstrip | strings.rb:139 | `lstrip` is never longer than the string; `LstripSpec` states that it keeps a suffix, drops only whitespace and leaves none in front |
| Strings.Rstrip | strings.rb:140 | `rstrip` is never longer than the string; `RstripSpec` states that it keeps a prefix, drops only whitespace and leaves none at the end |
| Strings.Strip | strings.rb:141 | `strip` removes the whitespace at both ends, in either order (`StripCommutes`), and a second `strip` changes nothing (`StripIdempotent`) |
| Strings.LstripSpec | strings.rb:139 | `lstrip` keeps a suffix, drops only whitespace, and leaves no whitespace in front |
| Strings.RstripSpec | strings.rb:140 | `rstrip` keeps a prefix, drops only whitespace, and leaves no whitespace at the end |
| Strings.StripFixedPoints | strings.rb:138-141 | a string with no whitespace at that end is its own `lstrip` or `rstrip` |
| Strings.StripCommutes | strings.rb:141 | stripping left then right is stripping right then left |
| Strings.StripIdempotent | strings.rb:141 | `strip` applied twice is `strip` applied once |
| Strings.LstripExample | strings.rb:139 | `"   hello.".lstrip` is "hello." |
| Strings.RstripExample | strings.rb:140 | `"   hello.   ".rstrip` is "   hello." |
| Strings.StripExample | strings.rb:141 | `"   hello.   ".strip` is "hello." |
| Strings.Hex | strings.rb:110-112 | `hex` reads an optional sign, an optional "0x" and the longest run of hexadecimal digits; it inverts writing a number in hexadecimal, with or without a sign and "0x" (`HexRoundTrip`) |
| Strings.HexRoundTrip | strings.rb:110-112 | `hex` reads back the hexadecimal digits of any natural number, also after a minus sign or "+0x" |
| Strings.HexExample | strings.rb:111 | `"00A0FF".hex` is 41215 |
| Strings.HexShortExamples | strings.rb:112 | `"00".hex`, `"A0".hex` and `"FF".hex` are 0, 160 and 255 |

## Findings

| source | as written | input that shows it | evidently intended | confidence | as-written member | corrected member |
|---|---|---|---|---|---|---|
| iterator_enumerable_loop.rb:266-270 | `until (i > ary.size)` runs while `i <= ary.size`, so its last pass prints `ary[ary.size]`, which is nil | `ary = [1, 2, 3, 4, 5]`: six lines, the last one empty | `until (i >= ary.size)`, printing 1 to 5 as the comment on line 267 shows | high, not executed | Enumerables.UntilLoopAsWritten | Enumerables.UntilLoop |

## Left out

- A missing element is `None` and a stored nil is `Some(Nil)` in `Arrays.At`, `Arrays.Last`, `Enumerables.First`, `Arrays.RubyArray.Pop`, `Arrays.RubyArray.Shift` and the other lookups returning an option. Ruby returns the same nil for both (`[nil].pop`, `[nil][0]`, a slot that `insert` padded), so a caller in Ruby cannot tell them apart where the model can.
- Console output: every `puts`, `p` and `inspect` is left out. Printed lines are returned as sequences, and the printing `[]=` of ruby/memoization.rb:25-28 is a log of announced writes.
- Randomness: `rand(6)` is a parameter of `roll` and `Die3.new`, restricted to 0..5, so every statement about a roll holds for every possible draw. `shuffle` and `sample` (arrays.rb:96-107) are not modelled.
- Hash insertion order: hashes are finite maps, so `keys`, `values`, `to_a`, `invert`, `each`, `each_key`, `each_value` and `find_all` (hashes.rb:41-42, 81-91, 122-123; iterator_enumerable_loop.rb:170-173, 217-222) are not modelled.
- Hashes.RubyHash.Key: returns some key holding the value. Ruby returns the first one in insertion order, which a map does not record.
- The months hash is keyed by integers, as lines 37 and 63 of hashes.rb use it. The symbol literals at hashes.rb:25-27 are not valid Ruby.
- Comments that contradict their code are not encoded:
  - iterator_enumerable_loop.rb:7-10 and 48.
  - iterator_enumerable_loop.rb:134, whose block would call `<` on false.
  - hashes.rb:88, whose block uses an undefined `k`.
  - hashes.rb:91, whose inverted hash is wrong.
- Regular expressions are not modelled:
  - strings.rb: `string[/\d+/]`, `=~`, `match`, `gsub` and `scan` (lines 54, 92-108, 128, 132, 142-157), and `index(/[aeiou]/, 2)` (line 121).
  - `grep` and `grep_v` (iterator_enumerable_loop.rb:178-192).
  - the `gsub` in `map` (arrays.rb:164).
- Case mapping (`capitalize`, `downcase`, `upcase`, `upcase` in `map`) and `split('')` are not modelled, because they depend on Unicode case tables (strings.rb:58-66; iterator_enumerable_loop.rb:112-115). `chars` is modelled.
- `join`, `each_with_index`, `sort` of mixed-case strings and `sort_by` (arrays.rb:76-77; iterator_enumerable_loop.rb:109, 235-240) are not modelled. They only print, or depend on collation.
- `"Hello from " + self.to_s` (strings.rb:35) depends on the top-level object and is not modelled.
- `[1,2].hash == [2,1].hash` (arrays.rb:194) depends on the interpreter's hash function and is not modelled.
- Method-object equality such as `instance_method(:map) == instance_method(:collect)` (iterator_enumerable_loop.rb:121-122, 203, 233) is reflection and is not modelled.
- `to_engl` (classes.rb:22-34) is not modelled: it is a private top-level method, and calling it on 5 raises NoMethodError.
- Classes.ToEngli: no contract of its own. Its meaning is stated by `Classes.ToEngliAgrees`.
- Arrays.Sort: specified for integer arrays only. `sort` on other element types (strings, mixed arrays, which raise) is not modelled.
- Arrays.RubyArray.SortInPlace: requires an all-integer array for the same reason.
- Mixins.Computation.Result: blocks are modelled as returning integers, which are never falsy. A block returning nil or false, which `||=` would call again on every `result`, is not modelled.
- Mixins.Computation.Cmp: models `<=>` on integer results, so the nil that the source's `<=>` returns when no branch matches cannot arise.
- Memoization.FibMemo: takes a natural number. In Ruby `fib` with a negative argument never reaches `n == 0 || n == 1` and recurses until SystemStackError; every call in the notes passes a natural number.
- Classes.Die3.Cheat: takes an integer. Ruby's `between?` also accepts a non-integer such as 3.5, which `cheat` would store as the face; the model has integer faces only.
- Mixins.Song: the `attr_accessor :length` writer (modules_namespaces_mixins.rb:194) is not modelled. A song is a value.
- Enumerables.ForMultiples: requires a non-zero divisor; the source uses 7. Ruby raises ZeroDivisionError for 0.
- Enumerables.Reduce: only the block form without an initial value is modelled.
- Enumerables.Zip: takes one argument.
- Enumerables.Enumerator: `size` is the item count. `with_index`, `next_values`, `peek_values`, `feed` and the other instance methods listed in the notes are not modelled.
- Strings.Compare: compares character codes. Ruby compares bytes, which agrees for the ASCII strings of the notes.
- Strings.DeleteChars: treats its argument as a plain set of characters. The `a-z` ranges and `^` negation that `delete` also accepts are not modelled.
- Strings.Hex: reads a sign, an optional "0x" and the longest run of hexadecimal digits. Leading whitespace and underscores between digits, which Ruby also accepts, are not modelled.
- Strings.Lstrip: whitespace includes the null character at both ends. Older Rubies strip a leading null only with `rstrip`.
- Strings.ChompWith: `chomp("")` removes every trailing "\n" and "\r\n". Its only stated property is that the result is a prefix; the notes use only a plain suffix, whose round trip is proved.
- blocks_closures.rb, ruby/methods.rb, ruby/interview_questions.rb and js/notes.js are not part of this model, nor is the module namespacing and `require` in modules_namespaces_mixins.rb. They are about control flow and reflection, or have no code.
