/**
 * The string utilities of src/utils.js: capitalize, reverseString,
 * isPalindrome and charFrequency. A JavaScript string is a sequence of
 * characters; case mapping is the ASCII one of module Ascii.
 */
module Strings {
  import opened Ascii

  // ---------------------------------------------------------------------------
  // capitalize
  // ---------------------------------------------------------------------------

  /** capitalize: the first character upper-cased, the rest as given; '' unchanged. */
  function Capitalize(s: string): (r: string)
    ensures |r| == |s|
    ensures s == [] ==> r == s
    ensures s != [] ==> r[0] == ToUpper(s[0])
    ensures forall k :: 0 < k < |s| ==> r[k] == s[k]
  {
    if |s| == 0 then s else [ToUpper(s[0])] + s[1..]
  }

  /** A string that already starts with anything but a lower-case letter comes back unchanged. */
  lemma CapitalizeKeepsCapitalized(s: string)
    requires s != [] ==> !IsLower(s[0])
    ensures Capitalize(s) == s
  {
    if s != [] {
      ToUpperSpec(s[0]);
      assert [s[0]] + s[1..] == s;
    }
  }

  /** Capitalizing twice is capitalizing once. */
  lemma CapitalizeIdempotent(s: string)
    ensures Capitalize(Capitalize(s)) == Capitalize(s)
  {
    var c := Capitalize(s);
    if c != [] {
      ToUpperSpec(s[0]);
      CapitalizeKeepsCapitalized(c);
    }
  }

  lemma CapitalizeExamples()
    ensures Capitalize("hello") == "Hello"
    ensures Capitalize("Hello") == "Hello"
    ensures Capitalize("a") == "A"
    ensures Capitalize("") == ""
  {
  }

  // ---------------------------------------------------------------------------
  // reverseString
  // ---------------------------------------------------------------------------

  /** reverseString: split into characters, reverse, join. */
  function Reverse(s: string): (r: string)
    ensures |r| == |s|
    ensures forall k :: 0 <= k < |s| ==> r[k] == s[|s| - 1 - k]
  {
    if s == [] then [] else Reverse(s[1..]) + [s[0]]
  }

  /** Reversing twice gives back the input. */
  lemma {:induction false} ReverseInvolution(s: string)
    ensures Reverse(Reverse(s)) == s
  {
    var rr := Reverse(Reverse(s));
    forall k | 0 <= k < |s| ensures rr[k] == s[k] {
      assert rr[k] == Reverse(s)[|s| - 1 - k];
    }
  }

  /** Reversal turns a concatenation around. */
  lemma {:induction false} ReverseAppend(a: string, b: string)
    ensures Reverse(a + b) == Reverse(b) + Reverse(a)
  {
    var l, r := Reverse(a + b), Reverse(b) + Reverse(a);
    forall k | 0 <= k < |a| + |b| ensures l[k] == r[k] {
      assert l[k] == (a + b)[|a| + |b| - 1 - k];
    }
  }

  lemma ReverseExamples()
    ensures Reverse("hello") == "olleh"
    ensures Reverse("") == ""
    ensures Reverse("a") == "a"
    ensures Reverse("a b c") == "c b a"
  {
  }

  // ---------------------------------------------------------------------------
  // isPalindrome
  // ---------------------------------------------------------------------------

  /** String.prototype.toLowerCase, character by character. */
  function Lower(s: string): (r: string)
    ensures |r| == |s|
    ensures forall k :: 0 <= k < |s| ==> r[k] == ToLower(s[k])
  {
    seq(|s|, k requires 0 <= k < |s| => ToLower(s[k]))
  }

  /** `replace(/[^a-z0-9]/g, '')`: drop every character outside `[a-z0-9]`, keep the rest in order. */
  function KeepLowerAlnum(s: string): string
  {
    if s == [] then [] else (if IsLowerAlnum(s[0]) then [s[0]] else []) + KeepLowerAlnum(s[1..])
  }

  /**
   * What the replacement leaves: only characters of `[a-z0-9]`, each of them
   * as often as in the input.
   */
  lemma {:induction false} KeepLowerAlnumSpec(s: string)
    ensures forall k :: 0 <= k < |KeepLowerAlnum(s)| ==> IsLowerAlnum(KeepLowerAlnum(s)[k])
    ensures forall c :: IsLowerAlnum(c) ==> multiset(KeepLowerAlnum(s))[c] == multiset(s)[c]
  {
    if s != [] {
      KeepLowerAlnumSpec(s[1..]);
      assert s == [s[0]] + s[1..];
      assert multiset(s) == multiset{s[0]} + multiset(s[1..]);
    }
  }

  /** A string made of `[a-z0-9]` alone passes the removal unchanged. */
  lemma {:induction false} CleanLowerAlnum(s: string)
    requires forall k :: 0 <= k < |s| ==> IsLowerAlnum(s[k])
    ensures KeepLowerAlnum(s) == s
  {
    if s != [] {
      CleanLowerAlnum(s[1..]);
      assert [s[0]] + s[1..] == s;
    }
  }

  /** The normalised form isPalindrome compares with its reversal. */
  function Cleaned(s: string): string
  {
    KeepLowerAlnum(Lower(s))
  }

  /**
   * isPalindrome: true exactly when the cleaned string reads the same from
   * both ends, character by character.
   */
  function IsPalindrome(s: string): (b: bool)
    ensures b <==> forall k :: 0 <= k < |Cleaned(s)| ==> Cleaned(s)[k] == Cleaned(s)[|Cleaned(s)| - 1 - k]
    ensures Cleaned(s) == [] ==> b
  {
    var cleaned := Cleaned(s);
    assert cleaned == Reverse(cleaned) <==> forall k :: 0 <= k < |cleaned| ==> cleaned[k] == Reverse(cleaned)[k];
    cleaned == Reverse(cleaned)
  }

  /** Dropping characters commutes with reversal. */
  lemma {:induction false} KeepLowerAlnumReverse(s: string)
    ensures KeepLowerAlnum(Reverse(s)) == Reverse(KeepLowerAlnum(s))
  {
    if s != [] {
      var head := if IsLowerAlnum(s[0]) then [s[0]] else [];
      KeepLowerAlnumReverse(s[1..]);
      KeepLowerAlnumAppend(Reverse(s[1..]), [s[0]]);
      assert KeepLowerAlnum([s[0]]) == head by {
        assert [s[0]][1..] == [];
      }
      ReverseAppend(head, KeepLowerAlnum(s[1..]));
      assert Reverse(head) == head;
    }
  }

  /** Dropping characters distributes over concatenation. */
  lemma {:induction false} KeepLowerAlnumAppend(a: string, b: string)
    ensures KeepLowerAlnum(a + b) == KeepLowerAlnum(a) + KeepLowerAlnum(b)
  {
    if a != [] {
      assert (a + b)[1..] == a[1..] + b;
      KeepLowerAlnumAppend(a[1..], b);
    } else {
      assert a + b == b;
    }
  }

  /** isPalindrome gives the same answer for a string and its reversal. */
  lemma PalindromeReverse(s: string)
    ensures IsPalindrome(Reverse(s)) == IsPalindrome(s)
  {
    assert Lower(Reverse(s)) == Reverse(Lower(s));
    KeepLowerAlnumReverse(Lower(s));
    ReverseInvolution(Cleaned(s));
  }

  /**
   * isPalindrome ignores case: two strings that agree after lower-casing
   * get the same answer.
   */
  lemma PalindromeIgnoresCase(s: string, t: string)
    requires |s| == |t|
    requires forall k :: 0 <= k < |s| ==> ToLower(s[k]) == ToLower(t[k])
    ensures IsPalindrome(s) == IsPalindrome(t)
  {
    assert Lower(s) == Lower(t);
  }

  lemma PalindromeOfEmpty()
    ensures IsPalindrome("")
  {
  }

  lemma PalindromeOfNoon()
    ensures IsPalindrome("Noon")
  {
    assert Lower("Noon") == "noon";
    assert KeepLowerAlnum("noon") == "noon" by {
      CleanLowerAlnum("noon");
    }
    assert Reverse("noon") == "noon";
  }

  lemma NotPalindromeHello()
    ensures !IsPalindrome("hello")
  {
    assert Lower("hello") == "hello";
    assert KeepLowerAlnum("hello") == "hello" by {
      CleanLowerAlnum("hello");
    }
    assert Reverse("hello")[0] == 'o';
  }

  // ---------------------------------------------------------------------------
  // charFrequency
  // ---------------------------------------------------------------------------

  /**
   * The object charFrequency builds: a key for each character occurring in
   * `s`, and nothing else, holding how often it occurs.
   */
  ghost predicate IsFrequencyTable(s: string, freq: map<char, nat>)
  {
    && (forall c :: c in freq <==> c in s)
    && (forall c :: c in freq ==> freq[c] == multiset(s)[c])
  }

  /** charFrequency: one pass over the string, bumping the entry of each character. */
  method CharFrequency(s: string) returns (freq: map<char, nat>)
    ensures IsFrequencyTable(s, freq)
  {
    freq := map[];
    for i := 0 to |s|
      invariant IsFrequencyTable(s[..i], freq)
    {
      var c := s[i];
      assert s[..i + 1] == s[..i] + [c];
      freq := freq[c := (if c in freq then freq[c] else 0) + 1];
    }
    assert s[..|s|] == s;
  }

  /** The table is determined by the string. */
  lemma FrequencyTableUnique(s: string, f: map<char, nat>, g: map<char, nat>)
    requires IsFrequencyTable(s, f) && IsFrequencyTable(s, g)
    ensures f == g
  {
  }

  /** The empty string gives the empty table. */
  lemma FrequencyOfEmpty(f: map<char, nat>)
    requires IsFrequencyTable("", f)
    ensures f == map[]
  {
  }

  /** Counting is case-sensitive: 'A' and 'a' are separate keys. */
  lemma FrequencyCaseSensitive(f: map<char, nat>)
    requires IsFrequencyTable("AaBb", f)
    ensures f == map['A' := 1, 'a' := 1, 'B' := 1, 'b' := 1]
  {
    assert multiset("AaBb") == multiset{'A', 'a', 'B', 'b'};
  }

  lemma FrequencyOfHello(f: map<char, nat>)
    requires IsFrequencyTable("hello", f)
    ensures f == map['h' := 1, 'e' := 1, 'l' := 2, 'o' := 1]
  {
    assert multiset("hello") == multiset{'h', 'e', 'l', 'l', 'o'};
  }

  // Sum of the counts

  predicate NoDuplicates(ks: seq<char>)
  {
    forall i, j :: 0 <= i < j < |ks| ==> ks[i] != ks[j]
  }

  /** The sum of the entries of `freq` at the keys `ks` (0 for a missing key). */
  function SumAt(ks: seq<char>, freq: map<char, nat>): nat
  {
    if ks == [] then 0 else (if ks[0] in freq then freq[ks[0]] else 0) + SumAt(ks[1..], freq)
  }

  /** The sum of the occurrence counts in `s` of the keys `ks`. */
  function SumCounts(ks: seq<char>, s: string): nat
  {
    if ks == [] then 0 else multiset(s)[ks[0]] + SumCounts(ks[1..], s)
  }

  lemma {:induction false} SumCountsEmpty(ks: seq<char>)
    ensures SumCounts(ks, []) == 0
  {
    if ks != [] {
      SumCountsEmpty(ks[1..]);
    }
  }

  /** Prepending one character adds one to the sum exactly when it is one of the keys. */
  lemma {:induction false} SumCountsCons(ks: seq<char>, x: char, t: string)
    requires NoDuplicates(ks)
    ensures SumCounts(ks, [x] + t) == SumCounts(ks, t) + (if x in ks then 1 else 0)
  {
    if ks != [] {
      assert multiset([x] + t) == multiset{x} + multiset(t);
      SumCountsCons(ks[1..], x, t);
      assert x in ks <==> x == ks[0] || x in ks[1..];
    }
  }

  lemma {:induction false} SumCountsCover(ks: seq<char>, s: string)
    requires NoDuplicates(ks)
    requires forall c :: c in s ==> c in ks
    ensures SumCounts(ks, s) == |s|
  {
    if s == [] {
      SumCountsEmpty(ks);
    } else {
      assert s == [s[0]] + s[1..];
      SumCountsCons(ks, s[0], s[1..]);
      SumCountsCover(ks, s[1..]);
    }
  }

  lemma {:induction false} SumAtCounts(ks: seq<char>, s: string, freq: map<char, nat>)
    requires IsFrequencyTable(s, freq)
    ensures SumAt(ks, freq) == SumCounts(ks, s)
  {
    if ks != [] {
      SumAtCounts(ks[1..], s, freq);
    }
  }

  /** The counts of the table, each key taken once, add up to the length of the string. */
  lemma CountsSumToLength(s: string, freq: map<char, nat>, ks: seq<char>)
    requires IsFrequencyTable(s, freq)
    requires NoDuplicates(ks)
    requires forall c :: c in ks <==> c in freq
    ensures SumAt(ks, freq) == |s|
  {
    SumAtCounts(ks, s, freq);
    SumCountsCover(ks, s);
  }
}
