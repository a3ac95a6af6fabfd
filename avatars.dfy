/**
 * Deterministic fallback avatars (src/lib/utils.ts).
 *
 * The hash is the 31-multiplier string hash with JavaScript's 32-bit
 * wrap-around: `hash << 5` and `hash & hash` both reduce to a signed 32-bit
 * integer. A character's UTF-16 code unit is taken to be `c as int`.
 */
module Avatars {
  import opened Wrappers
  import Text

  const TwoTo32: int := 0x1_0000_0000
  const TwoTo31: int := 0x8000_0000

  predicate IsInt32(x: int) { -TwoTo31 <= x < TwoTo31 }

  /** JavaScript's ToInt32: the signed 32-bit value congruent to `x`. */
  function ToInt32(x: int): (r: int)
    ensures IsInt32(r)
    ensures (r - x) % TwoTo32 == 0
    ensures IsInt32(x) ==> r == x
  {
    (x + TwoTo31) % TwoTo32 - TwoTo31
  }

  /** Congruent values have the same 32-bit image. */
  lemma ToInt32Congruent(x: int, y: int)
    requires (x - y) % TwoTo32 == 0
    ensures ToInt32(x) == ToInt32(y)
  {
    var q := (x - y) / TwoTo32;
    assert x == y + q * TwoTo32;
    assert (x + TwoTo31) == (y + TwoTo31) + q * TwoTo32;
  }

  /** One step of the loop: `hash = ((hash << 5) - hash) + char; hash = hash & hash`. */
  function HashStep(hash: int, c: char): (r: int)
    ensures IsInt32(r)
  {
    ToInt32(ToInt32(hash * 32) - hash + c as int)
  }

  /** The accumulator after the loop has read all of `s`. */
  function HashFold(s: string): (h: int)
    ensures IsInt32(h)
  {
    if s == [] then 0 else HashStep(HashFold(s[..|s| - 1]), s[|s| - 1])
  }

  /** The textbook polynomial hash `sum of s[i] * 31^(n-1-i)`, unbounded. */
  function PolyHash(s: string): (h: int)
    ensures h >= 0
    ensures s != [] ==> h >= s[|s| - 1] as int
  {
    if s == [] then 0 else 31 * PolyHash(s[..|s| - 1]) + s[|s| - 1] as int
  }

  /** One loop step keeps the accumulator congruent to the polynomial hash. */
  lemma StepCongruent(h: int, p: int, t: int, c: int)
    requires (h - p) % TwoTo32 == 0
    requires (t - h * 32) % TwoTo32 == 0
    ensures ((t - h + c) - (31 * p + c)) % TwoTo32 == 0
  {
    var k := (h - p) / TwoTo32;
    var m := (t - h * 32) / TwoTo32;
    assert h - p == k * TwoTo32;
    assert t - h * 32 == m * TwoTo32;
    assert (t - h + c) - (31 * p + c) == (m + 31 * k) * TwoTo32;
  }

  /** The wrapping loop computes the polynomial hash modulo 2^32. */
  lemma {:induction false} HashFoldIsPolyHash(s: string)
    ensures HashFold(s) == ToInt32(PolyHash(s))
  {
    if s != [] {
      var p := s[..|s| - 1];
      var c := s[|s| - 1] as int;
      HashFoldIsPolyHash(p);
      var h := HashFold(p);
      var t := ToInt32(h * 32);
      StepCongruent(h, PolyHash(p), t, c);
      ToInt32Congruent(t - h + c, 31 * PolyHash(p) + c);
    }
  }

  function Abs(x: int): nat { if x < 0 then -x else x }

  /** `hashString`: a loop over the code units, then `Math.abs`. */
  method HashString(s: string) returns (hash: int)
    ensures hash == Abs(HashFold(s))
    ensures 0 <= hash <= TwoTo31
  {
    var h := 0;
    for i := 0 to |s|
      invariant h == HashFold(s[..i])
    {
      assert s[..i + 1][..i] == s[..i];
      h := ToInt32(ToInt32(h * 32) - h + s[i] as int);
    }
    assert s[..|s|] == s;
    hash := Abs(h);
  }

  /** The hash as a value: what `hashString` returns. */
  function StringHash(s: string): (hash: nat)
    ensures hash <= TwoTo31
  {
    Abs(HashFold(s))
  }

  const AvatarCount: nat := 30

  /** `avatar-NN.<extension>` for NN = 01 … 30, zero-padded, in order. */
  function AvatarFileName(i: nat, extension: string): (name: string)
    ensures exists digits :: name == "avatar-" + digits + extension && |digits| >= 2 &&
              forall k :: 0 <= k < |digits| ==> '0' <= digits[k] <= '9'
  {
    var digits := Text.PadStart(Text.DecimalString(i + 1), 2, '0');
    PaddedDigits(i + 1);
    "avatar-" + digits + extension
  }

  /** Zero-padding a decimal numeral leaves only digits. */
  lemma PaddedDigits(n: nat)
    ensures var d := Text.PadStart(Text.DecimalString(n), 2, '0');
            |d| >= 2 && forall k :: 0 <= k < |d| ==> '0' <= d[k] <= '9'
  {
    var s := Text.DecimalString(n);
    var d := Text.PadStart(s, 2, '0');
    forall k | 0 <= k < |d| ensures '0' <= d[k] <= '9' {
      if k >= |d| - |s| {
        assert d[k] == d[|d| - |s|..][k - (|d| - |s|)];
      }
    }
  }

  function AvatarOptions(extension: string): (options: seq<string>)
    ensures |options| == AvatarCount
    ensures forall i :: 0 <= i < AvatarCount ==> options[i] == AvatarFileName(i, extension)
  {
    seq(AvatarCount, i requires 0 <= i < AvatarCount => AvatarFileName(i, extension))
  }

  /** `String(n).padStart(2, '0')` is the two decimal digits of `n`. */
  lemma PaddedTwoDigits(n: nat)
    requires 1 <= n < 100
    ensures Text.PadStart(Text.DecimalString(n), 2, '0') ==
            [Text.DigitChar(n / 10), Text.DigitChar(n % 10)]
  {
    if n < 10 {
      assert Text.DecimalString(n) == [Text.DigitChar(n)];
    } else {
      assert Text.DecimalString(n / 10) == [Text.DigitChar(n / 10)];
    }
  }

  /** Every file name carries the two digits of its position plus one. */
  lemma AvatarFileNameDigits(i: nat, extension: string)
    requires i < AvatarCount
    ensures var d := [Text.DigitChar((i + 1) / 10), Text.DigitChar((i + 1) % 10)];
            AvatarFileName(i, extension) == "avatar-" + d + extension &&
            AvatarFileName(i, extension)[7..9] == d
  {
    PaddedTwoDigits(i + 1);
  }

  /** The URL of position `i`, with its two digits spelled out. */
  lemma AvatarUrlDigits(i: nat, extension: string)
    requires i < AvatarCount
    ensures var d := [Text.DigitChar((i + 1) / 10), Text.DigitChar((i + 1) % 10)];
            "/avatars/" + AvatarFileName(i, extension) == "/avatars/avatar-" + d + extension
  {
    AvatarFileNameDigits(i, extension);
  }

  /** No two positions share a file name. */
  lemma AvatarFileNamesDistinct(i: nat, j: nat, extension: string)
    requires i < AvatarCount && j < AvatarCount && i != j
    ensures AvatarFileName(i, extension) != AvatarFileName(j, extension)
  {
    AvatarFileNameDigits(i, extension);
    AvatarFileNameDigits(j, extension);
    var di := AvatarFileName(i, extension)[7..9];
    var dj := AvatarFileName(j, extension)[7..9];
    assert di[0] as int - '0' as int == (i + 1) / 10;
    assert di[1] as int - '0' as int == (i + 1) % 10;
    assert dj[0] as int - '0' as int == (j + 1) / 10;
    assert dj[1] as int - '0' as int == (j + 1) % 10;
    assert di != dj;
  }

  /** The index the hash of `name` picks. */
  function AvatarIndex(name: string): (i: nat)
    ensures i < AvatarCount
  {
    StringHash(name) % AvatarCount
  }

  /** Truthy strings: neither `null` nor empty. */
  predicate Truthy(s: Option<string>) { s.Some? && s.value != "" }

  /** `getPersonaAvatarUrl`: an existing URL wins, otherwise a hashed default. */
  function GetPersonaAvatarUrl(personaName: string, existingAvatarUrl: Option<string>): (url: string)
    ensures Truthy(existingAvatarUrl) ==> url == existingAvatarUrl.value
    ensures !Truthy(existingAvatarUrl) ==>
      url == "/avatars/" + AvatarOptions(".webp")[AvatarIndex(personaName)] &&
      url == "/avatars/" + AvatarFileName(AvatarIndex(personaName), ".webp")
  {
    if Truthy(existingAvatarUrl) then existingAvatarUrl.value
    else "/avatars/" + AvatarOptions(".webp")[StringHash(personaName) % |AvatarOptions(".webp")|]
  }

  lemma FirstAvatarFileName(extension: string)
    ensures AvatarFileName(0, extension) == "avatar-01" + extension
  {
    AvatarFileNameDigits(0, extension);
    assert [Text.DigitChar(0), Text.DigitChar(1)] == "01";
  }

  /** The empty name hashes to 0 and so gets the first avatar. */
  lemma EmptyNameAvatar()
    ensures AvatarIndex("") == 0
    ensures GetPersonaAvatarUrl("", None) == "/avatars/avatar-01.webp"
  {
    assert HashFold("") == 0;
    var options := AvatarOptions(".webp");
    assert GetPersonaAvatarUrl("", None) == "/avatars/" + options[0];
    FirstAvatarFileName(".webp");
    FirstAvatarUrl();
  }

  lemma FirstAvatarUrl()
    ensures "/avatars/" + ("avatar-01" + ".webp") == "/avatars/avatar-01.webp"
  {
  }
}
