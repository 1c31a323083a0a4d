/** The fixed configuration of the shortener: domains, the code alphabet,
    the bit layout of the code generator and the reserved route names. */
module Constants {

  /** The short domain shown in the bare short form. */
  const DomainName: string := "fast.aeekay.co"
  /** The same domain with its protocol, used in the canonical link. */
  const LongDomainName: string := "https://fast.aeekay.co"

  /** The long domain is the short one behind the https protocol prefix. */
  lemma DomainsAgree()
    ensures LongDomainName == "https://" + DomainName
    ensures |DomainName| == 14
  {
  }

  /** Number of letters in the code alphabet. */
  const AlphabetSize: nat := 52
  /** Bits used to index one letter. */
  const LetterIdxBits: nat := 6
  /** All LetterIdxBits low bits set: `1 << LetterIdxBits - 1`. */
  const LetterIdxMask: nat := Pow2(LetterIdxBits) - 1
  /** Number of values one chunk of LetterIdxBits bits can take. */
  const ChunkBase: nat := LetterIdxMask + 1
  /** Number of letter indices that fit in one 63-bit draw. */
  const LetterIdxMax: nat := 63 / LetterIdxBits
  /** Length of a generated code. */
  const UriStringCnt: nat := 8

  /** Codes that collide with system routes; a code is rejected when it is
      present here with the value true. */
  const DefaultReservedList: map<string, bool> := map["ping" := true, "error" := true]

  /** 2^e, standing for the shift `1 << e`. */
  function Pow2(e: nat): (r: nat)
    ensures r >= 1
  {
    if e == 0 then 1 else 2 * Pow2(e - 1)
  }

  /** Upper bound (exclusive) of a draw of the random source: 2^63. */
  const Int63Bound: nat := 0x8000_0000_0000_0000

  /** A value returned by the random source: a non-negative 63-bit integer. */
  type Word63 = w: nat | w < Int63Bound

  predicate IsLetter(c: char) {
    'a' <= c <= 'z' || 'A' <= c <= 'Z'
  }

  /** Letter k of the alphabet, computed from its position: the lower-case
      letters in order, then the upper-case ones. */
  function Letter(k: nat): (c: char)
    requires k < AlphabetSize
    ensures IsLetter(c)
  {
    if k < 26 then ('a' as int + k) as char else ('A' as int + (k - 26)) as char
  }

  /** The 52-letter code alphabet, lower case first, then upper case,
      defined letter by letter; AlphabetText proves it is the text
      "abc...zABC...Z". */
  const LetterBytes: string := Alphabet()

  /** The alphabet as a function rather than an inline comprehension in
      LetterBytes: a constant holding a lambda cannot be used from another
      module, and the function keeps the string literal out of proofs that
      only need letters by index. */
  function Alphabet(): string {
    seq(AlphabetSize, (k: int) requires 0 <= k < AlphabetSize => Letter(k))
  }

  lemma LowerCase()
    ensures LetterBytes[..26] == "abcdefghijklmnopqrstuvwxyz"
  {
  }

  lemma UpperCase()
    ensures LetterBytes[26..] == "ABCDEFGHIJKLMNOPQRSTUVWXYZ"
  {
  }

  /** The alphabet is the 26 lower-case letters followed by the 26
      upper-case ones, each in order. */
  lemma AlphabetText()
    ensures LetterBytes == "abcdefghijklmnopqrstuvwxyz" + "ABCDEFGHIJKLMNOPQRSTUVWXYZ"
  {
    LowerCase();
    UpperCase();
    assert LetterBytes == LetterBytes[..26] + LetterBytes[26..];
  }

  /** The alphabet has AlphabetSize letters, letter k of it is Letter(k),
      no letter occurs twice, a chunk can index every letter, and 63 bits
      hold LetterIdxMax chunks. */
  lemma AlphabetShape()
    ensures |LetterBytes| == AlphabetSize && AlphabetSize <= ChunkBase
    ensures forall k :: 0 <= k < AlphabetSize ==> LetterBytes[k] == Letter(k)
    ensures forall i, j :: 0 <= i < j < |LetterBytes| ==> LetterBytes[i] != LetterBytes[j]
    ensures LetterIdxMask == 63 && ChunkBase == 64 && LetterIdxMax == 10
  {
  }
}
