/**
 * `Tapper.generate_random_string`: each character is picked by one random
 * byte from `os.urandom(1)`, scaled onto the 62-letter alphabet with
 * `int(62 * b / 256)`. The bytes are an input here, one per character.
 */
module RandomString {

  /** An unsigned byte, as `int.from_bytes(os.urandom(1), 'big')` yields. */
  newtype Byte = x: int | 0 <= x < 256

  /** The alphabet of `generate_random_string`. */
  const Characters: string := "ABCDEFGHIJKLMNOPQRSTUVWXYZabcdefghijklmnopqrstuvwxyz0123456789"

  /**
   * `int((len(characters) * b) / 256)`: Python's true division is exact
   * here (the divisor is a power of two) and `int` truncates a
   * non-negative value, so this is floor division.
   */
  function CharIndex(b: Byte): (k: nat)
    ensures k < |Characters|
  {
    (|Characters| * b as int) / 256
  }

  /**
   * `generate_random_string(length)` with the random bytes `draws`, one per
   * round of `range(length)`; a negative length runs no round and gives `''`.
   */
  method GenerateRandomString(length: int, draws: seq<Byte>) returns (s: string)
    requires |draws| == if length < 0 then 0 else length
    ensures |s| == |draws|
    ensures length <= 0 ==> s == ""
    ensures forall i :: 0 <= i < |draws| ==> s[i] == Characters[CharIndex(draws[i])]
    ensures forall i :: 0 <= i < |draws| ==> s[i] in Characters
  {
    s := "";
    var i := 0;
    while i < length
      invariant 0 <= i <= |draws|
      invariant |s| == i
      invariant forall j :: 0 <= j < i ==> s[j] == Characters[CharIndex(draws[j])]
    {
      var randomIndex := CharIndex(draws[i]);
      s := s + [Characters[randomIndex]];
      i := i + 1;
    }
  }

  /** Every character of the alphabet can be produced: byte `ceil(256 k / 62)` picks index `k`. */
  lemma EveryCharacterReachable(k: nat)
    requires k < |Characters|
    ensures CharIndex(((256 * k + 61) / 62) as Byte) == k
  {
    var b := (256 * k + 61) / 62;
    assert 62 * b <= 256 * k + 61 < 62 * b + 62;
    assert 256 * k <= 62 * b < 256 * k + 256;
    assert (62 * b) / 256 == k;
  }
}
