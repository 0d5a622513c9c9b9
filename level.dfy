/** Compression levels (src/level.rs): one closed scale, Zero to TwentyOne,
    and its conversion to the native scale of each codec library. */
module Levels {

  datatype Level =
    | Zero | One | Two | Three | Four | Five | Six | Seven | Eight | Nine | Ten
    | Eleven | Twelve | Thirteen | Fourteen | Fifteen | Sixteen | Seventeen
    | Eighteen | Nineteen | Twenty | TwentyOne

  /** The variants in declaration order, from fastest to smallest output. */
  const DeclarationOrder: seq<Level> := [
    Zero, One, Two, Three, Four, Five, Six, Seven, Eight, Nine, Ten,
    Eleven, Twelve, Thirteen, Fourteen, Fifteen, Sixteen, Seventeen,
    Eighteen, Nineteen, Twenty, TwentyOne
  ]

  const U32Max: int := 0x1_0000_0000 - 1
  const I32Max: int := 0x8000_0000 - 1

  /** `From<Level> for u32`: the level's position in declaration order. */
  function ToU32(level: Level): (n: nat)
    ensures n < |DeclarationOrder| && DeclarationOrder[n] == level
    ensures n <= U32Max
  {
    match level
    case Zero => 0
    case One => 1
    case Two => 2
    case Three => 3
    case Four => 4
    case Five => 5
    case Six => 6
    case Seven => 7
    case Eight => 8
    case Nine => 9
    case Ten => 10
    case Eleven => 11
    case Twelve => 12
    case Thirteen => 13
    case Fourteen => 14
    case Fifteen => 15
    case Sixteen => 16
    case Seventeen => 17
    case Eighteen => 18
    case Nineteen => 19
    case Twenty => 20
    case TwentyOne => 21
  }

  /** `From<Level> for i32`: the same numbers as the `u32` conversion. */
  function ToI32(level: Level): (n: int)
    ensures n == ToU32(level)
    ensures 0 <= n <= I32Max
  {
    match level
    case Zero => 0
    case One => 1
    case Two => 2
    case Three => 3
    case Four => 4
    case Five => 5
    case Six => 6
    case Seven => 7
    case Eight => 8
    case Nine => 9
    case Ten => 10
    case Eleven => 11
    case Twelve => 12
    case Thirteen => 13
    case Fourteen => 14
    case Fifteen => 15
    case Sixteen => 16
    case Seventeen => 17
    case Eighteen => 18
    case Nineteen => 19
    case Twenty => 20
    case TwentyOne => 21
  }

  function Min(a: int, b: int): int {
    if a <= b then a else b
  }

  /** `From<Level> for flate2::Compression`: the argument of `Compression::new`,
      which saturates at 9. */
  function Flate2(level: Level): (n: nat)
    ensures n == Min(ToU32(level), 9)
    ensures n <= 9
  {
    match level
    case Zero => 0
    case One => 1
    case Two => 2
    case Three => 3
    case Four => 4
    case Five => 5
    case Six => 6
    case Seven => 7
    case Eight => 8
    case Nine => 9
    case _ => 9
  }

  /** `From<Level> for bzip2::Compression`: the argument of `Compression::new`,
      which saturates at 9 the same way. */
  function Bzip2(level: Level): (n: nat)
    ensures n == Min(ToU32(level), 9)
    ensures n <= 9
  {
    match level
    case Zero => 0
    case One => 1
    case Two => 2
    case Three => 3
    case Four => 4
    case Five => 5
    case Six => 6
    case Seven => 7
    case Eight => 8
    case Nine => 9
    case _ => 9
  }

  /** The k-th declared variant converts to k. */
  lemma U32IsDeclarationIndex(k: nat)
    requires k < |DeclarationOrder|
    ensures ToU32(DeclarationOrder[k]) == k
  {
  }

  /** The `u32` conversion is strictly increasing over declaration order. */
  lemma {:induction false} U32StrictlyIncreasing(i: nat, j: nat)
    requires i < j < |DeclarationOrder|
    ensures ToU32(DeclarationOrder[i]) < ToU32(DeclarationOrder[j])
  {
    U32IsDeclarationIndex(i);
    U32IsDeclarationIndex(j);
  }

  /** Hence it is injective: two levels with one number are one level. */
  lemma U32Injective(a: Level, b: Level)
    requires ToU32(a) == ToU32(b)
    ensures a == b
  {
  }

  /** Both saturating tables are monotone over declaration order. */
  lemma {:induction false} NativeLevelsMonotone(i: nat, j: nat)
    requires i <= j < |DeclarationOrder|
    ensures Flate2(DeclarationOrder[i]) <= Flate2(DeclarationOrder[j])
    ensures Bzip2(DeclarationOrder[i]) <= Bzip2(DeclarationOrder[j])
  {
    U32IsDeclarationIndex(i);
    U32IsDeclarationIndex(j);
  }

  /** Zero..Nine keep their number; Ten..TwentyOne all become 9. */
  lemma {:induction false} Flate2Saturates(k: nat)
    requires k < |DeclarationOrder|
    ensures Flate2(DeclarationOrder[k]) == (if k <= 9 then k else 9)
    ensures Bzip2(DeclarationOrder[k]) == Flate2(DeclarationOrder[k])
  {
    U32IsDeclarationIndex(k);
  }
}
