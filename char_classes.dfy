/** The four character classes of the random password generator and the
    round-robin arrangement in which the generator draws from them. The
    counting lemmas are stated for any four pairwise disjoint classes and
    then applied to CHARS. */
module CharClasses {

  const DIGITS: string := "0123456789"
  const LOWERCASE: string := "abcdefghijklmnopqrstuvwxyz"
  const UPPERCASE: string := "ABCDEFGHIJKLMNOPQRSTUVWXYZ"
  const SYMBOLS: string := "!@#$%^&*()-_=+[]{}|;:,.<>?/~"

  /** The classes in the fixed order the generator cycles through them. */
  const CHARS: seq<string> := [DIGITS, LOWERCASE, UPPERCASE, SYMBOLS]

  /** The number of classes, |CHARS|. */
  const CLASS_COUNT: nat := 4

  /** A character the generator may ever produce: one of some class. */
  predicate InAlphabet(c: char) {
    c in DIGITS || c in LOWERCASE || c in UPPERCASE || c in SYMBOLS
  }

  /** Every class is non-empty, so a uniform pick from it always exists. */
  lemma ClassesNonEmpty(k: nat)
    requires k < CLASS_COUNT
    ensures |CHARS| == CLASS_COUNT && |CHARS[k]| > 0
    ensures forall j :: 0 <= j < |CHARS[k]| ==> InAlphabet(CHARS[k][j])
  {
    forall j | 0 <= j < |CHARS[k]| ensures InAlphabet(CHARS[k][j]) {
      assert CHARS[k][j] in CHARS[k];
    }
  }

  /** Digits, letters and symbols occupy separate ranges of character codes. */
  lemma DigitsRange(c: char)
    ensures c in DIGITS ==> '0' <= c <= '9'
  {
  }

  lemma LowercaseRange(c: char)
    ensures c in LOWERCASE ==> 'a' <= c <= 'z'
  {
  }

  lemma UppercaseRange(c: char)
    ensures c in UPPERCASE ==> 'A' <= c <= 'Z'
  {
  }

  lemma SymbolsOutsideRanges(c: char)
    ensures c in SYMBOLS ==> !('0' <= c <= '9' || 'a' <= c <= 'z' || 'A' <= c <= 'Z')
  {
  }

  /** No character belongs to two different classes. */
  lemma ClassesDisjoint(c: char, j: nat, k: nat)
    requires j < k < CLASS_COUNT
    ensures !(c in CHARS[j] && c in CHARS[k])
  {
    DigitsRange(c);
    LowercaseRange(c);
    UppercaseRange(c);
    SymbolsOutsideRanges(c);
  }

  /** No character is in two of the given classes. */
  ghost predicate PairwiseDisjoint(classes: seq<string>) {
    forall c: char, j, k :: 0 <= j < k < |classes| && c in classes[j] ==> c !in classes[k]
  }

  lemma CharsPairwiseDisjoint()
    ensures PairwiseDisjoint(CHARS)
  {
    forall c: char, j, k | 0 <= j < k < |CHARS| && c in CHARS[j] ensures c !in CHARS[k] {
      ClassesDisjoint(c, j, k);
    }
  }

  /** Position i holds a character of class i mod 4. */
  ghost predicate RoundRobin(s: string, classes: seq<string>)
    requires |classes| == CLASS_COUNT
  {
    forall i :: 0 <= i < |s| ==> s[i] in classes[i % CLASS_COUNT]
  }

  /** The number of characters of s that belong to the class cls. */
  function CountIn(s: string, cls: string): (n: nat)
    ensures n <= |s|
  {
    if s == [] then 0
    else (if s[0] in cls then 1 else 0) + CountIn(s[1..], cls)
  }

  /** How many of the positions 0 .. n-1 are congruent to k modulo 4. */
  function Share(n: nat, k: nat): (m: nat)
    requires k < CLASS_COUNT
    ensures n / CLASS_COUNT <= m <= n / CLASS_COUNT + 1
    ensures n >= CLASS_COUNT ==> m >= 1
  {
    n / CLASS_COUNT + (if k < n % CLASS_COUNT then 1 else 0)
  }

  /** The shares of the four classes add up to the whole length. */
  lemma SharesPartition(n: nat)
    ensures Share(n, 0) + Share(n, 1) + Share(n, 2) + Share(n, 3) == n
  {
  }

  /** Extending by one position adds one to the share of that position's class. */
  lemma ShareStep(n: nat, k: nat)
    requires k < CLASS_COUNT
    ensures Share(n + 1, k) == Share(n, k) + (if n % CLASS_COUNT == k then 1 else 0)
  {
  }

  lemma {:induction false} CountAppend(a: string, b: string, cls: string)
    ensures CountIn(a + b, cls) == CountIn(a, cls) + CountIn(b, cls)
  {
    if a != [] {
      assert (a + b)[1..] == a[1..] + b;
      CountAppend(a[1..], b, cls);
    } else {
      assert a + b == b;
    }
  }

  /** A class with a positive count has a character at some position. */
  lemma {:induction false} CountWitness(s: string, cls: string)
    requires CountIn(s, cls) > 0
    ensures exists i :: 0 <= i < |s| && s[i] in cls
  {
    if s[0] !in cls {
      CountWitness(s[1..], cls);
      var i :| 0 <= i < |s[1..]| && s[1..][i] in cls;
      assert s[i + 1] in cls;
    }
  }

  /** Removing the character at position j takes it out of the count. */
  lemma CountRemove(t: string, j: nat, cls: string)
    requires j < |t|
    ensures CountIn(t, cls) == (if t[j] in cls then 1 else 0) + CountIn(t[..j] + t[j + 1..], cls)
  {
    assert t == t[..j] + ([t[j]] + t[j + 1..]);
    CountAppend(t[..j], [t[j]] + t[j + 1..], cls);
    CountAppend([t[j]], t[j + 1..], cls);
    CountAppend(t[..j], t[j + 1..], cls);
  }

  /** Removing the character at position j takes one copy of it out of the multiset. */
  lemma MultisetRemove(t: string, j: nat)
    requires j < |t|
    ensures multiset(t[..j] + t[j + 1..]) == multiset(t) - multiset{t[j]}
  {
    assert t == t[..j] + [t[j]] + t[j + 1..];
  }

  /** Counts depend only on the multiset of characters: reordering keeps them. */
  lemma {:induction false} CountPermutation(s: string, t: string, cls: string)
    requires multiset(s) == multiset(t)
    ensures CountIn(s, cls) == CountIn(t, cls)
  {
    if s != [] {
      assert s[0] in multiset(t);
      var j :| 0 <= j < |t| && t[j] == s[0];
      MultisetRemove(s, 0);
      MultisetRemove(t, j);
      assert s[..0] + s[1..] == s[1..];
      CountPermutation(s[1..], t[..j] + t[j + 1..], cls);
      CountRemove(t, j, cls);
    } else {
      assert |t| == |multiset(t)| == 0;
    }
  }

  /** Appending one character adds one to the count of its own class only. */
  lemma CountSnoc(s: string, c: char, cls: string)
    ensures CountIn(s + [c], cls) == CountIn(s, cls) + (if c in cls then 1 else 0)
  {
    CountAppend(s, [c], cls);
    assert CountIn([c], cls) == if c in cls then 1 else 0;
  }

  /** Dropping the last position keeps a round-robin arrangement. */
  lemma RoundRobinPrefix(s: string, classes: seq<string>)
    requires |classes| == CLASS_COUNT
    requires RoundRobin(s, classes) && s != []
    ensures RoundRobin(s[..|s| - 1], classes)
  {
    var init := s[..|s| - 1];
    forall i | 0 <= i < |init| ensures init[i] in classes[i % CLASS_COUNT] {
      assert init[i] == s[i];
    }
  }

  /** In a round-robin arrangement over four disjoint classes, class k
      appears exactly its share of times. */
  lemma {:induction false} RoundRobinCount(s: string, classes: seq<string>, k: nat)
    requires |classes| == CLASS_COUNT && k < CLASS_COUNT
    requires PairwiseDisjoint(classes)
    requires RoundRobin(s, classes)
    ensures CountIn(s, classes[k]) == Share(|s|, k)
  {
    if s != [] {
      var n := |s| - 1;
      var c, m := s[n], n % CLASS_COUNT;
      RoundRobinPrefix(s, classes);
      RoundRobinCount(s[..n], classes, k);
      assert s == s[..n] + [c];
      CountSnoc(s[..n], c, classes[k]);
      assert c in classes[m];
      assert c in classes[k] <==> m == k;
      ShareStep(n, k);
    }
  }

  /** Some rearrangement of a round-robin arrangement over the classes. */
  ghost predicate RearrangedRoundRobin(p: string, classes: seq<string>)
    requires |classes| == CLASS_COUNT
  {
    exists s: string :: RoundRobin(s, classes) && multiset(s) == multiset(p)
  }

  /** Any rearrangement of a round-robin arrangement over four disjoint
      classes still holds each class exactly its share of times. */
  lemma RearrangedRoundRobinCount(p: string, classes: seq<string>, k: nat)
    requires |classes| == CLASS_COUNT && k < CLASS_COUNT
    requires PairwiseDisjoint(classes)
    requires RearrangedRoundRobin(p, classes)
    ensures CountIn(p, classes[k]) == Share(|p|, k)
  {
    var s: string :| RoundRobin(s, classes) && multiset(s) == multiset(p);
    assert |s| == |multiset(s)| == |multiset(p)| == |p|;
    RoundRobinCount(s, classes, k);
    CountPermutation(s, p, classes[k]);
  }
}
