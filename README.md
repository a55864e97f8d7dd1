# Random password generator — Dafny model

This project models `RandomPasswordGenerator`, the utility OpenEMR uses to
make a default password for a new user account when none was given. A
generator holds a length policy `(minimalLength, maximumLength)`. A maximum
of zero means "no upper bound". The policy is fixed at construction, from
explicit arguments, the process-wide configuration, or the fallbacks 9 and 72.

`GeneratePassword(length = 16)` works in four steps:

1. It checks the policy: a non-zero maximum must be at least the minimum, and at least 4.
2. It raises the request to the minimum and caps it at a non-zero maximum.
3. It fails when that effective length is below 4.
4. It fills position `i` with a random character of class `i mod 4`, then shuffles the array in place.

The four classes are digits, lower-case letters, upper-case letters and 28 symbols.

The model has three modules:

- `CharClasses` (`char_classes.dfy`) holds the four classes. It proves the
  classes are non-empty and pairwise disjoint. It also defines the
  round-robin arrangement and each class's share of it, and proves that
  class counts survive any reordering.
- `LengthPolicy` (`length_policy.dfy`) holds the three failure cases as a
  `Result`, the consistency condition of the first two checks, and the
  effective-length clamp.
- `PasswordGenerator` (`password_generator.dfy`) holds the class
  `RandomPasswordGenerator`, with its constructor and its `GeneratePassword`
  method, and the in-place `Shuffle`. It also holds the lemmas that carry the
  method's guarantee over to the shuffled output: per-class counts, every
  class present, and the alphabet.

Randomness is modelled as choice. `random_int(0, n - 1)` is an index
`pick :| 0 <= pick < n` that the method chooses. Each swap partner of the
shuffle is a chosen index in the same way. Every contract holds for every
choice.

Configuration reading is modelled as two constructor parameters:
`configuredMinimum` and `configuredMaximum` are the values of
`gbl_minimum_password_length` and `gbl_maximum_password_length` after the
integer cast. An unset entry casts to 0, so "missing" and "zero" are the same
input here, and both select the fallback.

Two behaviours of the code are easy to expect otherwise, and the model follows the code in both:

- With the policy (0, 0), a request for 0 characters is not raised to 4. The
  code's third assertion fails instead, and `GeneratePassword` returns
  `Failure(LengthBelowFloor(0))`. `LengthPolicy.FloorCheckReachable` shows
  that this third check is reachable under policies that pass the first two.
- A maximum of 3, or a maximum below the minimum, does not make construction
  fail. The constructor stores whatever it is given. The failure comes from
  the first call to `GeneratePassword`.

## Model

| member | source | states |
|---|---|---|
| `CharClasses.ClassesNonEmpty` | src/Common/Auth/Password/RandomPasswordGenerator.php:27-32 | there are four classes, each is non-empty (so a random pick from it exists), and each of their characters is in the alphabet |
| `CharClasses.ClassesDisjoint` | src/Common/Auth/Password/RandomPasswordGenerator.php:27-32 | no character belongs to two different classes |
| `CharClasses.CharsPairwiseDisjoint` | src/Common/Auth/Password/RandomPasswordGenerator.php:27-32 | the four classes, taken as a sequence, are pairwise disjoint |
| `CharClasses.Share` | src/Common/Auth/Password/RandomPasswordGenerator.php:64-65 | the number of positions below n with index congruent to k mod 4 is floor(n/4) or floor(n/4)+1, and at least 1 once n >= 4 |
| `CharClasses.SharesPartition` | src/Common/Auth/Password/RandomPasswordGenerator.php:64-65 | the four shares add up to the whole length |
| `CharClasses.CountPermutation` | src/Common/Auth/Password/RandomPasswordGenerator.php:69 | two strings with the same multiset of characters have the same number of characters from any class, so reordering keeps every class count |
| `CharClasses.RoundRobinCount` | src/Common/Auth/Password/RandomPasswordGenerator.php:64-66 | when position i holds a character of class i mod 4 and the four classes are disjoint, class k occurs exactly Share(n, k) times |
| `CharClasses.RearrangedRoundRobinCount` | src/Common/Auth/Password/RandomPasswordGenerator.php:64-71 | the same count holds for every rearrangement of such a fill |
| `LengthPolicy.EffectiveLength` | src/Common/Auth/Password/RandomPasswordGenerator.php:55-56 | the clamped length is one of the request, the minimum or the maximum. It never exceeds a non-zero maximum. Without a maximum it is at least the request and the minimum. With a consistent maximum it lies in [minimum, maximum]. A request already inside the bounds is kept unchanged, a request below the minimum becomes exactly the minimum, and a request above a non-zero maximum becomes exactly the maximum. Under a non-zero maximum below the minimum (a policy the first check rejects) the result is the maximum, so the value is fixed for every input |
| `LengthPolicy.FallsBelowFloorIff` | src/Common/Auth/Password/RandomPasswordGenerator.php:44-61 | under a policy that passes both checks, the third check fails exactly when both the minimum and the request are below 4 |
| `LengthPolicy.FloorCheckReachable` | src/Common/Auth/Password/RandomPasswordGenerator.php:58-61 | the policies (0, 0) and (0, 72) pass both checks, yet a request for 2 yields an effective length of 2, below the floor |
| `PasswordGenerator.ResolveBound` | src/Common/Auth/Password/RandomPasswordGenerator.php:38-39 | a bound that was passed is kept, zero included. Otherwise a non-zero configured value is used, else the fallback, so with a non-zero fallback an omitted bound is never zero |
| `PasswordGenerator.RandomPasswordGenerator.constructor` | src/Common/Auth/Password/RandomPasswordGenerator.php:34-40 | the stored minimum and maximum are the resolved bounds, with fallbacks 9 and 72 |
| `PasswordGenerator.RandomPasswordGenerator.GeneratePassword` | src/Common/Auth/Password/RandomPasswordGenerator.php:42-72 | a non-zero maximum below the minimum fails with the first error. A non-zero maximum below 4 fails with the second. Otherwise an effective length below 4 fails with the third. Else the result has exactly the effective length and is a rearrangement of a round-robin fill |
| `PasswordGenerator.Shuffle` | src/Common/Auth/Password/RandomPasswordGenerator.php:69 | the in-place shuffle leaves the multiset of characters unchanged, whatever swap partners it picks |
| `PasswordGenerator.GeneratedClassCounts` | src/Common/Auth/Password/RandomPasswordGenerator.php:63-71 | in a generated password each class occurs exactly its round-robin share of times (so between floor(n/4) and floor(n/4)+1, by `Share`) |
| `PasswordGenerator.GeneratedCoversEveryClass` | src/Common/Auth/Password/RandomPasswordGenerator.php:12-13 | a generated password of length at least 4 contains a character of every class |
| `PasswordGenerator.GeneratedAlphabet` | src/Common/Auth/Password/RandomPasswordGenerator.php:63-71 | every character of a generated password belongs to one of the four classes |
| `PasswordGenerator.DefaultPolicyNeverFails` | src/Common/Auth/Password/RandomPasswordGenerator.php:38-56 | with nothing passed and nothing configured the policy is (9, 72). It passes both checks, and every request is clamped into [9, 72]: 2 becomes 9, 100 becomes 72, and the default 16 stays 16 |
| `PasswordGenerator.FixtureRequestSucceeds` | src/Common/Auth/Password/RandomPasswordGenerator.php:38-61 | for a generator built without arguments, under any configured pair whose resolved policy passes both checks, the default request of 16 never fails the third check |

## Left out

- `src/Validators/UserValidator.php` is not part of this model. It configures an external validation library, and its checks run SQL queries and a password-strength check (`PasswordStrengthChecker::isPasswordStrongEnough`, `src/Validators/UserValidator.php:96`), a separate component outside this model.
- `src/RestControllers/UserRestController.php` is not part of this model. It dispatches HTTP verbs to a user service.
- `tests/Tests/Fixtures/*.php` are not part of this model. They are database seeding. `UserFixture` builds the generator without arguments and calls it with the default request of 16. `DefaultPolicyNeverFails` covers the case where neither configuration entry is set. `FixtureRequestSucceeds` covers any configuration whose resolved policy passes both checks. A configuration that fails them, such as (9, 5), makes that call fail.
- The quality of the randomness (the strength of `random_int`, the uniformity of `shuffle`) is not modelled. Each random index is an arbitrary choice.
- `PasswordGenerator.RandomPasswordGenerator.GeneratePassword`: does not model the exception `random_int` throws when no secure source of randomness is available (`Random\RandomException`, a plain `Exception` before PHP 8.2). The model assumes every random pick succeeds, so it promises a password for every consistent policy whose effective length is at least 4.
- The runtime's own shuffle algorithm is not part of this model. `Shuffle` is a Fisher-Yates pass from the last position down, with an arbitrary swap partner, and it promises only what any shuffle does: a permutation.
- Reading `$GLOBALS` and the `(int)` cast of the configured values are left to the caller. The constructor takes the cast integers.
- `PasswordGenerator.RandomPasswordGenerator.constructor`: does not model the "Undefined array key" warning the runtime raises when a configuration entry is unset. Only the resulting value 0, and so the fallback, is modelled.
- The assertion messages are not modelled as text. Each `PolicyError` case carries the numbers its message reports.
- 64-bit integer limits are not modelled. Lengths are unbounded integers, and the memory needed for a very large unbounded request is not modelled.
