/** The random password generator: a length policy fixed at construction and
    an operation that fills the positions round-robin from the four character
    classes with random picks, then shuffles them. The random source is not
    modelled as a distribution: every random index is a choice the method
    makes, and every contract below holds whatever the choices are. */
module PasswordGenerator {
  import opened CharClasses
  import opened LengthPolicy

  datatype Option<T> = None | Some(value: T)

  /** Hard-coded fallbacks when neither an argument nor the configuration gives a bound. */
  const DEFAULT_MINIMAL_LENGTH: int := 9
  const DEFAULT_MAXIMUM_LENGTH: int := 72

  /** The request length used when the caller gives none. */
  const DEFAULT_REQUESTED_LENGTH: int := 16

  /** One bound of the policy: the argument if one was passed, otherwise the
      configured value, otherwise (configured value unset or zero) the fallback.
      `configured` is the configuration entry after the integer cast, so an
      unset entry arrives as 0. */
  function ResolveBound(explicit: Option<int>, configured: int, fallback: int): (r: int)
    // an argument that was passed is kept as it is, zero included
    ensures explicit.Some? ==> r == explicit.value
    // a non-zero configured value is used when no argument was passed
    ensures explicit.None? && configured != 0 ==> r == configured
    // otherwise the fallback, so a missing argument never resolves to zero
    ensures explicit.None? && configured == 0 ==> r == fallback
    ensures explicit.None? && fallback != 0 ==> r != 0
  {
    match explicit
    case Some(bound) => bound
    case None => if configured != 0 then configured else fallback
  }

  class RandomPasswordGenerator {
    const minimalLength: int
    const maximumLength: int

    /** `configuredMinimum` and `configuredMaximum` stand for the process-wide
        settings gbl_minimum_password_length and gbl_maximum_password_length. */
    constructor (minimalLength: Option<int>, maximumLength: Option<int>,
                 configuredMinimum: int, configuredMaximum: int)
      ensures this.minimalLength == ResolveBound(minimalLength, configuredMinimum, DEFAULT_MINIMAL_LENGTH)
      ensures this.maximumLength == ResolveBound(maximumLength, configuredMaximum, DEFAULT_MAXIMUM_LENGTH)
    {
      this.minimalLength := ResolveBound(minimalLength, configuredMinimum, DEFAULT_MINIMAL_LENGTH);
      this.maximumLength := ResolveBound(maximumLength, configuredMaximum, DEFAULT_MAXIMUM_LENGTH);
    }

    method GeneratePassword(length: int := DEFAULT_REQUESTED_LENGTH) returns (r: Result<string>)
      // first check: a non-zero maximum below the minimum
      ensures maximumLength != 0 && maximumLength < minimalLength ==>
                r == Failure(MaximumBelowMinimal(minimalLength, maximumLength))
      // second check: a non-zero maximum below four
      ensures maximumLength != 0 && minimalLength <= maximumLength < MINIMUM_PASSWORD_LENGTH ==>
                r == Failure(MaximumBelowFloor(maximumLength))
      // third check, and otherwise a password of exactly the effective length
      ensures PolicyConsistent(minimalLength, maximumLength) ==>
                var n := EffectiveLength(length, minimalLength, maximumLength);
                if n < MINIMUM_PASSWORD_LENGTH then r == Failure(LengthBelowFloor(n))
                else r.Success? && |r.value| == n && RearrangedRoundRobin(r.value, CHARS)
    {
      if !(maximumLength == 0 || maximumLength >= minimalLength) {
        return Failure(MaximumBelowMinimal(minimalLength, maximumLength));
      }
      if !(maximumLength == 0 || maximumLength >= MINIMUM_PASSWORD_LENGTH) {
        return Failure(MaximumBelowFloor(maximumLength));
      }

      var n := EffectiveLength(length, minimalLength, maximumLength);
      if n < MINIMUM_PASSWORD_LENGTH {
        return Failure(LengthBelowFloor(n));
      }

      var password := new char[n];
      for i := 0 to n
        invariant forall j :: 0 <= j < i ==> password[j] in CHARS[j % CLASS_COUNT]
      {
        var chars := CHARS[i % CLASS_COUNT];
        ClassesNonEmpty(i % CLASS_COUNT);
        var pick :| 0 <= pick < |chars|;  // the random index into the class
        password[i] := chars[pick];
      }
      ghost var filled := password[..];
      assert RoundRobin(filled, CHARS);

      Shuffle(password);
      r := Success(password[..]);
    }
  }

  /** The in-place shuffle of the runtime, as a Fisher-Yates pass from the
      last position down: each position swaps with an arbitrarily chosen
      position at or before it. */
  method Shuffle(a: array<char>)
    modifies a
    ensures multiset(a[..]) == old(multiset(a[..]))
  {
    var i := a.Length;
    while i > 1
      invariant 0 <= i <= a.Length
      invariant multiset(a[..]) == old(multiset(a[..]))
    {
      i := i - 1;
      var j :| 0 <= j <= i;  // the random partner
      a[i], a[j] := a[j], a[i];
    }
  }

  /** Every class contributes exactly its round-robin share to a generated
      password, whatever order the shuffle left it in (by Share's contract,
      floor(n/4) or floor(n/4) + 1 characters). */
  lemma GeneratedClassCounts(p: string, k: nat)
    requires k < CLASS_COUNT
    requires RearrangedRoundRobin(p, CHARS)
    ensures CountIn(p, CHARS[k]) == Share(|p|, k)
  {
    assert PairwiseDisjoint(CHARS) by { CharsPairwiseDisjoint(); }
    RearrangedRoundRobinCount(p, CHARS, k);
  }

  /** A generated password of length at least four holds a character of every class. */
  lemma GeneratedCoversEveryClass(p: string, k: nat)
    requires k < CLASS_COUNT
    requires RearrangedRoundRobin(p, CHARS) && |p| >= MINIMUM_PASSWORD_LENGTH
    ensures exists i :: 0 <= i < |p| && p[i] in CHARS[k]
  {
    GeneratedClassCounts(p, k);
    CountWitness(p, CHARS[k]);
  }

  /** Every character of a generated password comes from the four classes. */
  lemma GeneratedAlphabet(p: string)
    requires RearrangedRoundRobin(p, CHARS)
    ensures forall i :: 0 <= i < |p| ==> InAlphabet(p[i])
  {
    var s: string :| RoundRobin(s, CHARS) && multiset(s) == multiset(p);
    forall i | 0 <= i < |p| ensures InAlphabet(p[i]) {
      assert p[i] in multiset(s);
      var j :| 0 <= j < |s| && s[j] == p[i];
      ClassesNonEmpty(j % CLASS_COUNT);
      assert s[j] in CHARS[j % CLASS_COUNT];
      var q :| 0 <= q < |CHARS[j % CLASS_COUNT]| && CHARS[j % CLASS_COUNT][q] == s[j];
    }
  }

  /** The default policy, taken when no bound is passed and none is
      configured, is (9, 72): it passes both checks, and every request is
      clamped into [9, 72], so it never fails. */
  lemma DefaultPolicyNeverFails(length: int)
    ensures ResolveBound(None, 0, DEFAULT_MINIMAL_LENGTH) == 9
    ensures ResolveBound(None, 0, DEFAULT_MAXIMUM_LENGTH) == 72
    ensures PolicyConsistent(9, 72)
    ensures 9 <= EffectiveLength(length, 9, 72) <= 72
    ensures EffectiveLength(2, 9, 72) == 9 && EffectiveLength(100, 9, 72) == 72
    ensures EffectiveLength(DEFAULT_REQUESTED_LENGTH, 9, 72) == 16
  {
  }

  /** A generator built with no arguments, as the user fixture builds it,
      serves the default request of 16 under every configuration whose
      resolved policy passes both checks: the third check never fails there. */
  lemma FixtureRequestSucceeds(configuredMinimum: int, configuredMaximum: int)
    requires PolicyConsistent(ResolveBound(None, configuredMinimum, DEFAULT_MINIMAL_LENGTH),
                              ResolveBound(None, configuredMaximum, DEFAULT_MAXIMUM_LENGTH))
    ensures EffectiveLength(DEFAULT_REQUESTED_LENGTH,
                            ResolveBound(None, configuredMinimum, DEFAULT_MINIMAL_LENGTH),
                            ResolveBound(None, configuredMaximum, DEFAULT_MAXIMUM_LENGTH))
              >= MINIMUM_PASSWORD_LENGTH
  {
    var minimal := ResolveBound(None, configuredMinimum, DEFAULT_MINIMAL_LENGTH);
    var maximum := ResolveBound(None, configuredMaximum, DEFAULT_MAXIMUM_LENGTH);
    FallsBelowFloorIff(DEFAULT_REQUESTED_LENGTH, minimal, maximum);
  }
}
