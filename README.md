# Vibe utilities in Dafny

This project models `src/utils.js`, the utility library of the Vibe project, and proves what its functions promise. The library is a set of small, independent, stateless helpers:

- `capitalize`, `reverseString`, `isPalindrome` and `charFrequency` work on strings (module `Strings`, file `strings.dfy`). ASCII case mapping is in module `Ascii` (`ascii.dfy`).
- `randomInt`, `randomChoice` and `shuffle` use `Math.random()` (module `Random`, `random.dfy`).
- `deepClone` copies nested values (module `Clone`, `clone.dfy`).
- `Option` and `Result` (`wrappers.dfy`) stand for an `undefined` return and a thrown error.

Each library function becomes a Dafny function or method in the form the JavaScript code has:

- Single-expression functions are Dafny functions. A function whose result is only computed has its properties stated in lemmas beside it.
- `charFrequency` fills an object in a loop. It is a method that updates a `map<char, nat>` in a loop.
- `shuffle` copies the array and swaps in place. It is a method over an `array` with a `while` loop. Its result is tied to `SwapDown`, a sequence-level account of the same loop, and its permutation and length properties are proved from that.
- `deepClone` recurses, and fills arrays and objects element by element. It is a recursive method that hands arrays and objects to a method each, with a loop over the elements or properties. Its result is tied to `Cloned`, a function giving the clone as a value, or to the `TypeError` it throws.

Randomness: one value of `Math.random()` is a real `u` with `0 <= u < 1`. `Math.floor(Math.random() * n)` is `Random.Draw(u, n)`. `randomInt` and `randomChoice` take their draw as a parameter. Their `requires 0.0 <= u < 1.0` is the guarantee `Math.random()` gives, not a demand on the library's callers. The shuffle loop takes an arbitrary `u` in that range on every iteration. Its contract therefore holds for every sequence of random values. The indices drawn so far are recorded in a ghost list (`Random.Draws`), which ties the array to `SwapDown`. Lemmas `RandomIntCovers` and `RandomChoiceCovers` show that no allowed result is out of reach.

## Model

| member | source | states |
|---|---|---|
| `Strings.Capitalize` | src/utils.js:10-15 | the empty string comes back unchanged; otherwise the length is kept, the first character is upper-cased and every later character is unchanged |
| `Strings.CapitalizeKeepsCapitalized` | tests/utils.test.js:19-21 | a string whose first character is not a lower-case letter comes back unchanged |
| `Strings.CapitalizeIdempotent` | src/utils.js:14 | capitalizing twice gives the same string as capitalizing once |
| `Strings.CapitalizeExamples` | tests/utils.test.js:13-35 | 'hello' → 'Hello', 'Hello' → 'Hello', 'a' → 'A', '' → '' |
| `Ascii.ToUpperSpec` | src/utils.js:14 | upper-casing turns a lower-case letter into the matching upper-case letter and fixes every other character |
| `Ascii.ToLowerSpec` | src/utils.js:42 | lower-casing turns an upper-case letter into the matching lower-case letter and fixes every other character |
| `Strings.Reverse` | src/utils.js:131-136 | the result has the input's length and holds at index k the input's character at index length-1-k |
| `Strings.ReverseInvolution` | src/utils.js:135 | reversing twice gives back the input |
| `Strings.ReverseAppend` | src/utils.js:135 | the reversal of a + b is the reversal of b followed by the reversal of a |
| `Strings.ReverseExamples` | tests/utils.test.js:249-271 | 'hello' → 'olleh', '' → '', 'a' → 'a', 'a b c' → 'c b a' |
| `Strings.Lower` | src/utils.js:42 | toLowerCase keeps the length and lower-cases each character in place |
| `Strings.KeepLowerAlnumSpec` | src/utils.js:42 | removing every match of `[^a-z0-9]` leaves only characters of `[a-z0-9]`, each as often as in the input |
| `Strings.CleanLowerAlnum` | src/utils.js:42 | a string made only of characters of `[a-z0-9]` passes the removal unchanged |
| `Strings.KeepLowerAlnumAppend` | src/utils.js:42 | the removal distributes over concatenation |
| `Strings.KeepLowerAlnumReverse` | src/utils.js:42-43 | the removal commutes with reversal |
| `Strings.IsPalindrome` | src/utils.js:38-44 | true exactly when the cleaned string (lower-cased, outside `[a-z0-9]` removed) has the same character at every index k and at length-1-k; true whenever the cleaned string is empty |
| `Strings.PalindromeReverse` | src/utils.js:42-43 | a string and its reversal get the same answer |
| `Strings.PalindromeIgnoresCase` | tests/utils.test.js:72-75 | two strings that agree after lower-casing get the same answer |
| `Strings.PalindromeOfEmpty` | tests/utils.test.js:82-84 | '' is a palindrome |
| `Strings.PalindromeOfNoon` | tests/utils.test.js:61-75 | 'Noon', the palindrome 'noon' with a capital, is a palindrome |
| `Strings.NotPalindromeHello` | tests/utils.test.js:67-70 | 'hello' is not a palindrome |
| `Strings.CharFrequency` | src/utils.js:143-153 | the keys of the result are exactly the characters of the input, and each maps to its exact number of occurrences |
| `Strings.FrequencyTableUnique` | src/utils.js:148-152 | the frequency table of a string is unique |
| `Strings.FrequencyOfEmpty` | tests/utils.test.js:293-295 | '' gives the empty table |
| `Strings.FrequencyCaseSensitive` | tests/utils.test.js:307-315 | 'AaBb' gives A:1, a:1, B:1, b:1, so counting is case-sensitive |
| `Strings.FrequencyOfHello` | tests/utils.test.js:280-287 | 'hello' gives h:1, e:1, l:2, o:1 |
| `Strings.CountsSumToLength` | src/utils.js:149-151 | the counts of the table, each key taken once, add up to the length of the input |
| `Random.Draw` | src/utils.js:30 | `Math.floor(u * n)` with `0 <= u < 1` is an index in `[0, n)` when n > 0 |
| `Random.DrawHits` | src/utils.js:123 | every index in `[0, n)` is `Math.floor(u * n)` for some `u` in `[0, 1)` |
| `Random.RandomInt` | src/utils.js:23-31 | a RangeError exactly when min > max; otherwise a value r with min <= r <= max; min == max gives min |
| `Random.RandomIntCovers` | src/utils.js:30 | every integer of `[min, max]` is the result for some value of `Math.random()` |
| `Random.RandomIntAsWritten` | src/utils.js:23-31 | the code as written, with bounds that may be any finite numbers: a RangeError exactly when min > max |
| `Random.RandomIntAsWrittenOnIntegers` | src/utils.js:30 | with integer bounds the code as written gives exactly what `RandomInt` gives |
| `Random.RandomIntAsWrittenLeavesRange` | src/utils.js:30 | randomInt(0, 0.5) can return 1 and randomInt(0.5, 1) can return 1.5 |
| `Random.RandomChoice` | src/utils.js:116-124 | undefined exactly for the empty array; otherwise an element of the array; a singleton's only element |
| `Random.RandomChoiceCovers` | src/utils.js:123 | every element of a non-empty array is the result for some value of `Math.random()` |
| `Random.SwapAt` | src/utils.js:106 | the swap exchanges the two places and leaves every other place alone |
| `Random.SwapPermutes` | src/utils.js:106 | the swap keeps the multiset of elements |
| `Random.SwapInPlace` | src/utils.js:106 | the destructuring swap on an array leaves it equal to the swap of its old contents |
| `Random.SwapDown` | src/utils.js:104-107 | the array after the loop's first iterations, given the list of drawn indices, has the input's length |
| `Random.SwapDownPermutes` | src/utils.js:103-108 | whatever the draws, the loop's result is a permutation of its input |
| `Random.SwapDownSettles` | src/utils.js:104-107 | an index the loop has passed never moves again |
| `Random.ShuffleOutcomeOf` | src/utils.js:103-108 | a complete run of the loop is a shuffle outcome and a permutation, and leaves arrays of at most one element unchanged |
| `Random.CopyOf` | src/utils.js:103 | the spread copy is a new array with the same contents |
| `Random.ShuffleStep` | src/utils.js:104-107 | one iteration draws one more index `j <= i`, leaves the array equal to the loop's result for the draws so far, and keeps its multiset |
| `Random.Shuffle` | src/utils.js:98-109 | the result is a new array of the same length, the outcome of the reverse Fisher–Yates loop for some valid draws, a permutation of the input; the input is unchanged; empty and singleton inputs come back equal |
| `Clone.DeepClone` | src/utils.js:69-91 | throws a TypeError exactly when some object in the input, at any depth, has an own property named `hasOwnProperty`; otherwise returns the clone `Cloned` gives |
| `Clone.CloneArray` | src/utils.js:78-80 | an array throws exactly when one of its elements does; otherwise it comes back as the array of the clones of its elements |
| `Clone.CloneObject` | src/utils.js:82-89 | an object throws when it has an own `hasOwnProperty` or one of its values throws; otherwise it comes back with the clone of each property, in order, except `__proto__` |
| `Clone.AssignedMembers` | src/utils.js:84-88 | the assignments create exactly the properties not named `__proto__` |
| `Clone.AssignedWithoutProtoKey` | src/utils.js:84-88 | without a `__proto__` key the assignments create every property as it is, in order |
| `Clone.AssignedClonedProperties` | src/utils.js:84-88 | cloning the values and making the assignments give the same result in either order |
| `Clone.ElementsHaveKeyAt` | src/utils.js:79 | the elements of an array hold a key at some depth exactly when one of them does |
| `Clone.PropertiesHaveKeyAt` | src/utils.js:84-88 | the properties of an object hold a key at some depth exactly when one of them is named so or holds it |
| `Clone.ClonedElements` | src/utils.js:79 | `map` keeps the length and puts the clone of each element in its place |
| `Clone.ClonedShape` | src/utils.js:70-89 | primitives, null and Dates come back as they are, an array with the same length, an object with its keys apart from `__proto__`, in the same order |
| `Clone.ClonedIdentity` | src/utils.js:69-91 | with no `__proto__` key at any depth, the clone equals the input |
| `Clone.ClonedHasNoProtoKey` | src/utils.js:86 | no object in a clone has an own `__proto__` key |
| `Clone.ClonedIdempotent` | src/utils.js:69-91 | in the value model, cloning a clone gives an equal value (prototypes are not modelled; see Left out) |
| `Clone.ClonedPrimitives` | tests/utils.test.js:130-135 | 5, 'hello', true and null come back as they are |
| `Clone.ClonedNestedObject` | tests/utils.test.js:144-151 | {a: 1, b: {c: 2, d: {e: 3}}} is cloned to an equal object, without a throw |
| `Clone.ClonedNestedArray` | tests/utils.test.js:160-166 | [1, [2, [3, 4]]] is cloned to an equal array, without a throw |
| `Clone.ShadowedHasOwnProperty` | src/utils.js:85 | `{"hasOwnProperty": 1}` makes deepClone throw |
| `Clone.ProtoKeyDropped` | src/utils.js:86 | `{"__proto__": {"x": 1}}` is cloned to an object with no own property |

## Left out

- `debounce` (src/utils.js:52-62) is not modelled. It is about timers and the event loop: `setTimeout`, `clearTimeout` and a captured handle. That is asynchronous scheduling, not a sequential contract.
- The `typeof` and `Array.isArray` checks are not modelled. This covers their `TypeError` throws, `capitalize` returning a non-string unchanged and `isPalindrome` returning false for a non-string. The typed parameters make these branches unreachable. `randomInt`'s `RangeError` is modelled.
- Uniformity of `Math.random()` is not modelled, and neither is the uniform distribution of `shuffle`'s permutations. Both are probabilistic claims. The model keeps only the range of each draw.
- Floating-point rounding of `Math.random() * n` is not modelled. The product is exact in the model.
- Case mapping is ASCII only. Full Unicode `toUpperCase`/`toLowerCase` can change a string's length ('ß' → 'SS') or map a non-ASCII character into `[a-z]` (the Kelvin sign → 'k').
- A string is a sequence of characters. The difference between `split('')` (UTF-16 code units) and `for…of` (code points) is not modelled.
- `Strings.CharFrequency`: the result is a map, so the enumeration order of the object's keys is not modelled. (JavaScript lists integer-like keys such as '1' first, then other keys in insertion order.)
- `Clone.DeepClone`: the clone is stated as a value. That it shares no object with the input is not modelled, because that needs a model of the JavaScript heap. Also not modelled:
  - the prototype that the `__proto__` setter gives the clone when it receives an object or null; the model only drops the key;
  - an own `hasOwnProperty` that is a function: the model has no function values, so such a property always makes the call throw;
  - inherited enumerable keys, which the `hasOwnProperty` filter skips: a `Value` lists own properties only;
  - distinct keys: a JavaScript object has each key once, and `Value` does not enforce it;
  - objects that are not plain objects, arrays or Dates (one not derived from `Object` falls through to `undefined`);
  - cyclic inputs;
  - `NaN`, infinities and invalid Dates.
- `Clone.ClonedIdempotent` holds for values, not for the program's objects. When a `__proto__` key holds null, an array or a Date, the setter at src/utils.js:86 replaces the clone's prototype. A second deepClone of that clone then behaves differently:
  - for `{"__proto__": null}` it fails `instanceof Object` and returns `undefined`;
  - for `{"__proto__": [1, 2]}` it passes `instanceof Array` and returns `[1, 2]`;
  - for `{"__proto__": <a Date>}` it passes `instanceof Date` and `getTime()` throws a TypeError.
- `Random.RandomInt` takes integer bounds. `Random.RandomIntAsWritten` models the code for any finite bounds.
- `Random.RandomIntAsWritten`: NaN and ±Infinity bounds are not modelled. They pass both checks. `randomInt(NaN, 1)` then returns NaN without a RangeError, and `randomInt(0, Infinity)` returns Infinity whenever `Math.random()` is positive.
- `Random.RandomChoice`: `undefined` returned for the empty array is kept apart from an `undefined` element of the array.

## Findings

| source | as written | input that shows it | evidently intended | confidence | as-written member | corrected member |
|---|---|---|---|---|---|---|
| src/utils.js:23-31 | `Math.floor(Math.random() * (max - min + 1)) + min` never checks that the bounds are integers | randomInt(0, 0.5) returns 1 whenever `Math.random()` is at least 2/3; randomInt(0.5, 1) can return 1.5, which is not an integer | an integer r with min <= r <= max, for integer bounds | medium, not executed | `Random.RandomIntAsWrittenLeavesRange` | `Random.RandomInt` |
