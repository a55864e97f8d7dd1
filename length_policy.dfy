/** The length policy of the random password generator: the two consistency
    checks on (minimalLength, maximumLength), the clamp of a requested length
    into the policy's bounds, and the floor of four characters. A maximum of
    zero means "no upper bound". */
module LengthPolicy {

  /** The smallest password that can hold one character of each of the four classes. */
  const MINIMUM_PASSWORD_LENGTH: int := 4

  /** The three assertion failures, each with the values its message reports. */
  datatype PolicyError =
    | MaximumBelowMinimal(minimalLength: int, maximumLength: int)
    | MaximumBelowFloor(maximumLength: int)
    | LengthBelowFloor(length: int)

  datatype Result<T> = Success(value: T) | Failure(error: PolicyError)

  /** Both policy checks pass: the maximum is zero (unbounded), or it is at
      least the minimum and at least four. */
  predicate PolicyConsistent(minimalLength: int, maximumLength: int) {
    maximumLength == 0 || (maximumLength >= minimalLength && maximumLength >= MINIMUM_PASSWORD_LENGTH)
  }

  /** The length a request is turned into: raised to the minimum, then capped
      by the maximum unless the maximum is zero. */
  function EffectiveLength(length: int, minimalLength: int, maximumLength: int): (r: int)
    // the result is always one of the three inputs, and never above a non-zero maximum
    ensures r == length || r == minimalLength || r == maximumLength
    ensures maximumLength != 0 ==> r <= maximumLength
    // without a maximum, never below the request or the minimum
    ensures maximumLength == 0 ==> r >= length && r >= minimalLength
    // with a consistent maximum, always within [minimalLength, maximumLength]
    ensures maximumLength != 0 && maximumLength >= minimalLength ==> minimalLength <= r <= maximumLength
    // a request already inside the bounds is kept as it is
    ensures minimalLength <= length && (maximumLength == 0 || length <= maximumLength) ==> r == length
    // a request below the minimum is raised to exactly the minimum
    ensures length < minimalLength && (maximumLength == 0 || maximumLength >= minimalLength) ==> r == minimalLength
    // a request above a non-zero maximum is capped to exactly the maximum
    ensures maximumLength != 0 && maximumLength >= minimalLength && length > maximumLength ==> r == maximumLength
    // a non-zero maximum below the minimum wins over the raise to the minimum
    ensures maximumLength != 0 && maximumLength < minimalLength ==> r == maximumLength
  {
    var raised := if length >= minimalLength then length else minimalLength;
    if maximumLength == 0 then raised
    else if maximumLength <= raised then maximumLength else raised
  }

  /** Under a policy that passes both checks, the effective length falls below
      four exactly when both the minimum and the request are below four: a
      policy with minimalLength >= 4 never hits the third check. */
  lemma FallsBelowFloorIff(length: int, minimalLength: int, maximumLength: int)
    requires PolicyConsistent(minimalLength, maximumLength)
    ensures (EffectiveLength(length, minimalLength, maximumLength) < MINIMUM_PASSWORD_LENGTH) <==>
            (minimalLength < MINIMUM_PASSWORD_LENGTH && length < MINIMUM_PASSWORD_LENGTH)
  {
  }

  /** The third check is reachable under consistent policies: with no bounds at
      all, and with the bounds (0, 72), a request for two characters passes the
      first two checks and is still below the floor. */
  lemma FloorCheckReachable()
    ensures PolicyConsistent(0, 0) && EffectiveLength(2, 0, 0) == 2
    ensures PolicyConsistent(0, 72) && EffectiveLength(2, 0, 72) == 2
  {
  }
}
