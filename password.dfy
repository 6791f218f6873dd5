/**
 * Salts and salted password hashes. The shuffle of `Math.random` is an
 * arbitrary permutation of the alphabet's positions, and the MD5 digest
 * (of the UTF-8 bytes of its text) is a parameter `digest`.
 */
module Password {
  type byte = x: int | 0 <= x < 256

  /** The salt alphabet: lower-case letters in keyboard order, then the digits. */
  const Alphabet: string := "qwertyuiopasdfghjklzxcvbnm1234567890"

  /** The default salt length. */
  const DefaultSaltLength := 10

  /** The offset at which the salt is taken from the shuffled alphabet. */
  const SaltOffset := 10

  predicate IsLowerOrDigit(c: char) {
    'a' <= c <= 'z' || '0' <= c <= '9'
  }

  predicate Distinct(s: string) {
    forall i, j :: 0 <= i < j < |s| ==> s[i] != s[j]
  }

  /** The place of a character in the alphabet: letters by key, then the digits `1` to `9` and `0`. */
  function KeyPosition(c: char): int {
    match c
    case 'q' => 0 case 'w' => 1 case 'e' => 2 case 'r' => 3 case 't' => 4 case 'y' => 5 case 'u' => 6
    case 'i' => 7 case 'o' => 8 case 'p' => 9 case 'a' => 10 case 's' => 11 case 'd' => 12 case 'f' => 13
    case 'g' => 14 case 'h' => 15 case 'j' => 16 case 'k' => 17 case 'l' => 18 case 'z' => 19 case 'x' => 20
    case 'c' => 21 case 'v' => 22 case 'b' => 23 case 'n' => 24 case 'm' => 25
    case _ => if c == '0' then 35 else 26 + (c as int - '1' as int)
  }

  lemma KeyPositions0()
    ensures |Alphabet| == 36 && forall i :: 0 <= i < 9 ==> KeyPosition(Alphabet[i]) == i
  {
  }

  lemma KeyPositions1()
    ensures |Alphabet| == 36 && forall i :: 9 <= i < 18 ==> KeyPosition(Alphabet[i]) == i
  {
  }

  lemma KeyPositions2()
    ensures |Alphabet| == 36 && forall i :: 18 <= i < 27 ==> KeyPosition(Alphabet[i]) == i
  {
  }

  lemma KeyPositions3()
    ensures |Alphabet| == 36 && forall i :: 27 <= i < 36 ==> KeyPosition(Alphabet[i]) == i
  {
  }

  /** The 36 characters of the alphabet are pairwise different: each sits at its own key position. */
  lemma AlphabetDistinct()
    ensures |Alphabet| == 36
    ensures Distinct(Alphabet)
  {
    KeyPositions0();
    KeyPositions1();
    KeyPositions2();
    KeyPositions3();
  }

  lemma AlphabetChars()
    ensures forall i :: 0 <= i < |Alphabet| ==> IsLowerOrDigit(Alphabet[i])
  {
  }

  /** `perm` is a permutation of the positions `0 .. n-1`. */
  predicate IsPermutation(perm: seq<int>, n: nat) {
    |perm| == n &&
    (forall i :: 0 <= i < n ==> 0 <= perm[i] < n) &&
    (forall i, j :: 0 <= i < j < n ==> perm[i] != perm[j])
  }

  /** `str.split('').sort(() => Math.random() - 0.5).join('')`, the sort having put position `perm[i]` at `i`. */
  function Shuffle(perm: seq<int>): (r: string)
    requires IsPermutation(perm, |Alphabet|)
    ensures |r| == |Alphabet|
    ensures forall i :: 0 <= i < |r| ==> r[i] == Alphabet[perm[i]]
  {
    seq(|Alphabet|, i requires 0 <= i < |Alphabet| => Alphabet[perm[i]])
  }

  /** `s.substr(start, length)`: a negative length gives the empty string, and the end is clamped to the string. */
  function Substr(s: string, start: nat, length: int): (r: string)
    requires start <= |s|
    ensures |r| == if length <= 0 then 0 else if start + length <= |s| then length else |s| - start
    ensures forall i :: 0 <= i < |r| ==> r[i] == s[start + i]
  {
    if length <= 0 then "" else if start + length <= |s| then s[start..start + length] else s[start..]
  }

  /** `generateSalt(num)` for the shuffle `perm`. */
  function GenerateSalt(num: int, perm: seq<int>): (salt: string)
    requires IsPermutation(perm, |Alphabet|)
    ensures |salt| == if num <= 0 then 0 else if num <= 26 then num else 26
    ensures forall i :: 0 <= i < |salt| ==> salt[i] == Alphabet[perm[SaltOffset + i]]
  {
    Substr(Shuffle(perm), SaltOffset, num)
  }

  /**
   * A salt has `num` characters, capped at the 26 the shuffle leaves after
   * offset 10, none for a negative `num`; its characters are pairwise
   * distinct lower-case letters and digits.
   */
  lemma SaltShape(num: int, perm: seq<int>)
    requires IsPermutation(perm, |Alphabet|)
    ensures var salt := GenerateSalt(num, perm);
      |salt| == (if num <= 0 then 0 else if num <= 26 then num else 26) &&
      Distinct(salt) &&
      forall i :: 0 <= i < |salt| ==> IsLowerOrDigit(salt[i])
  {
    AlphabetDistinct();
    AlphabetChars();
    var sh := Shuffle(perm);
    var salt := GenerateSalt(num, perm);
    forall i, j | 0 <= i < j < |salt| ensures salt[i] != salt[j] {
      assert salt[i] == Alphabet[perm[SaltOffset + i]] && salt[j] == Alphabet[perm[SaltOffset + j]];
    }
  }

  /** The default salt has ten characters. */
  lemma DefaultSaltLengthIsTen(perm: seq<int>)
    requires IsPermutation(perm, |Alphabet|)
    ensures |GenerateSalt(DefaultSaltLength, perm)| == 10
  {
    SaltShape(DefaultSaltLength, perm);
  }

  const HexAlphabet: string := "0123456789abcdef"

  predicate IsHexDigit(c: char) {
    '0' <= c <= '9' || 'a' <= c <= 'f'
  }

  function HexDigit(n: int): (c: char)
    requires 0 <= n < 16
    ensures IsHexDigit(c)
  {
    HexAlphabet[n]
  }

  function HexValue(c: char): (n: int)
    requires IsHexDigit(c)
    ensures 0 <= n < 16
  {
    if c <= '9' then c as int - '0' as int else c as int - 'a' as int + 10
  }

  lemma HexValueOfDigit(n: int)
    requires 0 <= n < 16
    ensures HexValue(HexDigit(n)) == n
  {
  }

  /** `n.toString(16)`: the lower-case hexadecimal digits of `n`, without leading zeros. */
  function ToHexString(n: nat): (s: string)
    ensures |s| >= 1
  {
    if n < 16 then [HexDigit(n)] else ToHexString(n / 16) + [HexDigit(n % 16)]
  }

  /** `s.padStart(len, c)`. */
  function PadStart(s: string, len: nat, c: char): (r: string)
    ensures |r| == if |s| >= len then |s| else len
  {
    if |s| >= len then s else seq(len - |s|, _ => c) + s
  }

  /** `b.toString(16).padStart(2, '0')`. */
  function ByteHex(b: byte): string {
    PadStart(ToHexString(b), 2, '0')
  }

  /** A byte prints as exactly two hex digits, high nibble first, with a leading zero below 16. */
  lemma ByteHexDigits(b: byte)
    ensures ByteHex(b) == [HexDigit(b / 16), HexDigit(b % 16)]
  {
    if b >= 16 {
      assert ToHexString(b / 16) == [HexDigit(b / 16)];
    }
  }

  /** `hashArray.map(b => b.toString(16).padStart(2, '0')).join('')`. */
  function Hex(bytes: seq<byte>): string {
    if bytes == [] then "" else ByteHex(bytes[0]) + Hex(bytes[1..])
  }

  /** Two characters per byte, all of them lower-case hex digits. */
  lemma {:induction false} HexShape(bytes: seq<byte>)
    ensures |Hex(bytes)| == 2 * |bytes|
    ensures forall i :: 0 <= i < |Hex(bytes)| ==> IsHexDigit(Hex(bytes)[i])
  {
    if bytes != [] {
      ByteHexDigits(bytes[0]);
      HexShape(bytes[1..]);
    }
  }

  /** Text that `UnHex` reads: an even number of lower-case hex digits. */
  predicate HexShapeHolds(s: string) {
    |s| % 2 == 0 && forall i :: 0 <= i < |s| ==> IsHexDigit(s[i])
  }

  /** The inverse of `Hex`: two hex digits per byte. */
  function UnHex(s: string): seq<byte>
    requires HexShapeHolds(s)
  {
    if s == "" then [] else [16 * HexValue(s[0]) + HexValue(s[1])] + UnHex(s[2..])
  }

  /** One byte's two digits read back as that byte. */
  lemma ByteHexRoundTrip(b: byte)
    ensures HexShapeHolds(ByteHex(b))
    ensures UnHex(ByteHex(b)) == [b]
  {
    ByteHexDigits(b);
    HexValueOfDigit(b / 16);
    HexValueOfDigit(b % 16);
    var s := ByteHex(b);
    assert s[2..] == "";
  }

  /** `UnHex` reads a two-digit prefix on its own. */
  lemma UnHexPrefix(x: string, rest: string)
    requires |x| == 2 && HexShapeHolds(x) && HexShapeHolds(rest)
    ensures HexShapeHolds(x + rest)
    ensures UnHex(x + rest) == UnHex(x) + UnHex(rest)
  {
    assert (x + rest)[2..] == rest;
    assert x[2..] == "";
  }

  /** Reading the hex text back gives the bytes. */
  lemma {:induction false} HexRoundTrip(bytes: seq<byte>)
    ensures HexShapeHolds(Hex(bytes))
    ensures UnHex(Hex(bytes)) == bytes
  {
    if bytes != [] {
      ByteHexDigits(bytes[0]);
      ByteHexRoundTrip(bytes[0]);
      HexRoundTrip(bytes[1..]);
      UnHexPrefix(ByteHex(bytes[0]), Hex(bytes[1..]));
      assert bytes == [bytes[0]] + bytes[1..];
    }
  }

  /** Different byte strings print differently. */
  lemma HexInjective(a: seq<byte>, b: seq<byte>)
    requires Hex(a) == Hex(b)
    ensures a == b
  {
    HexRoundTrip(a);
    HexRoundTrip(b);
  }

  /** `md5(text)`: the hex text of the digest. */
  function Md5(text: string, digest: string -> seq<byte>): (r: string)
    ensures |r| == 2 * |digest(text)| && HexShapeHolds(r) && UnHex(r) == digest(text)
  {
    HexShape(digest(text));
    HexRoundTrip(digest(text));
    Hex(digest(text))
  }

  /** `setPassword(pwd, salt)`: the digest applied twice, the salt appended both times. */
  function SetPassword(pwd: string, salt: string, digest: string -> seq<byte>): (r: string)
    ensures HexShapeHolds(r) && UnHex(r) == digest(Md5(pwd + salt, digest) + salt)
  {
    Md5(Md5(pwd + salt, digest) + salt, digest)
  }

  /**
   * `verifyPassword(password, hashed, salt)`: the stored text is accepted
   * exactly when it reads as hex and reads back as the outer digest
   * recomputed from the password and salt.
   */
  predicate VerifyPassword(password: string, hashed: string, salt: string, digest: string -> seq<byte>): (ok: bool)
    ensures ok <==> HexShapeHolds(hashed) && UnHex(hashed) == digest(Md5(password + salt, digest) + salt)
  {
    if HexShapeHolds(hashed) then UnHexRoundTrip(hashed); SetPassword(password, salt, digest) == hashed
    else SetPassword(password, salt, digest) == hashed
  }

  /** The hex digit of a digit's value is that digit. */
  lemma DigitOfValue(c: char)
    requires IsHexDigit(c)
    ensures HexDigit(HexValue(c)) == c
  {
  }

  /** Hex text printed from the bytes it reads as is itself. */
  lemma {:induction false} UnHexRoundTrip(s: string)
    requires HexShapeHolds(s)
    ensures Hex(UnHex(s)) == s
  {
    if s != "" {
      var b := 16 * HexValue(s[0]) + HexValue(s[1]);
      assert b / 16 == HexValue(s[0]) && b % 16 == HexValue(s[1]);
      ByteHexDigits(b);
      DigitOfValue(s[0]);
      DigitOfValue(s[1]);
      assert HexShapeHolds(s[2..]) by {
        assert forall i :: 0 <= i < |s[2..]| ==> s[2..][i] == s[i + 2];
      }
      UnHexRoundTrip(s[2..]);
      assert UnHex(s) == [b] + UnHex(s[2..]);
      assert ([b] + UnHex(s[2..]))[1..] == UnHex(s[2..]);
      assert s == [s[0], s[1]] + s[2..];
    }
  }

  /** A stored hash is 32 hex digits when the digest is 16 bytes long, as MD5's is. */
  lemma StoredHashShape(pwd: string, salt: string, digest: string -> seq<byte>)
    requires forall t :: |digest(t)| == 16
    ensures |SetPassword(pwd, salt, digest)| == 32
    ensures forall i :: 0 <= i < 32 ==> IsHexDigit(SetPassword(pwd, salt, digest)[i])
  {
    HexShape(digest(Md5(pwd + salt, digest) + salt));
  }

  /** A password verifies against the hash made from it with the same salt. */
  lemma VerifyOwnHash(pwd: string, salt: string, digest: string -> seq<byte>)
    ensures VerifyPassword(pwd, SetPassword(pwd, salt, digest), salt, digest)
  {
  }

  lemma AppendCancel(a: string, b: string, s: string)
    requires a + s == b + s
    ensures a == b
  {
    assert a == (a + s)[..|a|];
    assert |a| == |b|;
    assert b == (b + s)[..|b|];
  }

  /**
   * The idealised statement: with a collision-free digest, a hash verifies
   * exactly the password it was made from. No MD5-sized digest is
   * collision-free (it maps every string into finitely many 16-byte values),
   * so for the real digest this says only that a wrong password verifies
   * solely through a collision of the doubled hash.
   */
  lemma VerifyOnlyOwnPassword(pwd: string, other: string, salt: string, digest: string -> seq<byte>)
    requires forall a, b :: digest(a) == digest(b) ==> a == b
    ensures VerifyPassword(other, SetPassword(pwd, salt, digest), salt, digest) <==> other == pwd
  {
    if VerifyPassword(other, SetPassword(pwd, salt, digest), salt, digest) {
      HexInjective(digest(Md5(other + salt, digest) + salt), digest(Md5(pwd + salt, digest) + salt));
      AppendCancel(Md5(other + salt, digest), Md5(pwd + salt, digest), salt);
      HexInjective(digest(other + salt), digest(pwd + salt));
      AppendCancel(other, pwd, salt);
    }
  }
}
