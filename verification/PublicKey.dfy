/** The AUTH RSAPUBLICKEY payload: Android's binary key, in base64, a space, the
    comment and a final NUL. */
module PublicKey {
  import opened Bytes
  import opened Montgomery
  import opened Base64

  const WORDS: U32 := 64
  const SIZE := 256

  // ---- fixed-width little-endian numbers ---------------------------------

  /** Byte i of a number, byte 0 being the least significant. */
  function Digit(n: nat, i: nat): Byte {
    if i == 0 then n % 256 else Digit(n / 256, i - 1)
  }

  /** big.Int's Bytes: no leading zeros. */
  function BigEndian(n: nat): seq<Byte> {
    if n == 0 then [] else BigEndian(n / 256) + [n % 256]
  }

  function LittleEndian(n: nat, size: nat): (b: seq<Byte>)
    ensures |b| == size
  {
    seq(size, i requires 0 <= i < size => Digit(n, i))
  }

  function FromLittleEndian(b: seq<Byte>): nat {
    if |b| == 0 then 0 else b[0] + 256 * FromLittleEndian(b[1..])
  }

  lemma {:induction false} BigEndianDigit(n: nat, i: nat)
    ensures if i < |BigEndian(n)| then BigEndian(n)[|BigEndian(n)| - 1 - i] == Digit(n, i) else Digit(n, i) == 0
    decreases i
  {
    if n == 0 {
      ZeroDigit(i);
    } else if i > 0 {
      BigEndianDigit(n / 256, i - 1);
    }
  }

  lemma {:induction false} ZeroDigit(i: nat)
    ensures Digit(0, i) == 0
  {
    if i > 0 { ZeroDigit(i - 1); }
  }

  function FromBigEndian(b: seq<Byte>): nat {
    if |b| == 0 then 0 else 256 * FromBigEndian(b[..|b| - 1]) + b[|b| - 1]
  }

  /** The bytes have the value of the number and no leading zero. */
  lemma {:induction false} BigEndianValue(n: nat)
    ensures FromBigEndian(BigEndian(n)) == n && (n > 0 ==> BigEndian(n)[0] != 0)
  {
    if n > 0 {
      BigEndianValue(n / 256);
      assert BigEndian(n)[..|BigEndian(n)| - 1] == BigEndian(n / 256);
    }
  }

  /** littleEndianFixed, a loop over the bytes of the number. */
  method LittleEndianFixed(n: nat, size: nat) returns (out: array<Byte>)
    ensures fresh(out) && out[..] == LittleEndian(n, size)
  {
    out := new Byte[size](i => 0);
    var be := BigEndian(n);
    var i := 0;
    while i < |be| && i < size
      invariant i <= |be| && i <= size
      invariant forall j :: 0 <= j < i ==> out[j] == Digit(n, j)
      invariant forall j :: i <= j < size ==> out[j] == 0
    {
      BigEndianDigit(n, i);
      out[i] := be[|be| - 1 - i];
      i := i + 1;
    }
    forall j | i <= j < size ensures out[j] == Digit(n, j) {
      BigEndianDigit(n, j);
    }
  }

  /** Main result. littleEndianFixed has the value of the number modulo 256^size. */
  lemma {:induction false} LittleEndianValue(n: nat, size: nat)
    ensures FromLittleEndian(LittleEndian(n, size)) == n % Pow(256, size)
    decreases size
  {
    if size > 0 {
      LittleEndianValue(n / 256, size - 1);
      assert LittleEndian(n, size)[1..] == LittleEndian(n / 256, size - 1);
      ModSplit(n, Pow(256, size - 1));
    }
  }

  lemma ModSplit(n: nat, p: nat)
    requires p > 0
    ensures n % 256 + 256 * (n / 256 % p) == n % (256 * p)
  {
    var m := n / 256;
    var r := n % 256 + 256 * (m % p);
    assert m == (m / p) * p + m % p;
    assert n == 256 * m + n % 256;
    assert 256 * ((m / p) * p) == (m / p) * (256 * p);
    QuotientUnique(n, 256 * p, m / p, r);
  }

  // ---- the binary key ----------------------------------------------------

  /** The bits of big.Int's BitLen. */
  function BitLen(n: nat): nat {
    if n == 0 then 0 else 1 + BitLen(n / 2)
  }

  lemma {:induction false} BitLenBound(n: nat)
    ensures n < Pow(2, BitLen(n))
  {
    if n > 0 { BitLenBound(n / 2); }
  }

  /** It is one more than the exponent of the highest power of two in the number. */
  lemma {:induction false} BitLenExactly(n: nat, k: nat)
    ensures BitLen(n) == k + 1 <==> Pow(2, k) <= n < Pow(2, k + 1)
  {
    if n == 0 {
    } else if k == 0 {
      assert BitLen(n / 2) == 0 <==> n / 2 == 0;
    } else {
      BitLenExactly(n / 2, k - 1);
    }
  }

  /** A modulus of the size the client accepts. */
  ghost predicate Has2048Bits(n: nat) {
    Pow(2, 8 * SIZE - 1) <= n < Pow(2, 8 * SIZE)
  }

  datatype AndroidKey = AndroidKey(words: U32, n0inv: U32, modulus: nat, rr: nat, exponent: U32)

  datatype KeyError = InvalidKey | WrongSize(bits: nat) | BadExponent | BadComment | NotInvertible

  function Packed(key: AndroidKey): seq<Byte> {
    Le32(key.words) + Le32(key.n0inv) + LittleEndian(key.modulus, SIZE) + LittleEndian(key.rr, SIZE) + Le32(key.exponent)
  }

  function Unpacked(b: seq<Byte>): Option<AndroidKey> {
    if |b| != 12 + 2 * SIZE then None
    else Some(AndroidKey(FromLe32(b[..4]), FromLe32(b[4..8]), FromLittleEndian(b[8..8 + SIZE]),
                         FromLittleEndian(b[8 + SIZE..8 + 2 * SIZE]), FromLe32(b[8 + 2 * SIZE..])))
  }

  /** The key a device is to get: its modulus, the two Montgomery constants, and the
      exponent as a 32-bit number. */
  function KeyOf(n: nat, e: nat): Result<AndroidKey, KeyError> {
    if BitLen(n) != 8 * SIZE then Err(WrongSize(BitLen(n)))
    else
      match N0Inv(n)
      case None => Err(NotInvertible)
      case Some(v) => Ok(AndroidKey(WORDS, v, n, RR(n, WORDS), Wrap32(e)))
  }

  /** encodeAndroidRSAPublicKey. */
  method EncodeAndroidRSAPublicKey(n: nat, e: nat) returns (r: Result<seq<Byte>, KeyError>)
    ensures match KeyOf(n, e)
      case Err(why) => r == Err(why)
      case Ok(key) => r == Ok(Packed(key))
    ensures r.Ok? <==> Has2048Bits(n) && n % 2 == 1
  {
    BitLenExactly(n, 8 * SIZE - 1);
    N0InvIsNegatedInverse(n);
    hide Montgomery.Pow, BitLen;
    if BitLen(n) != 8 * SIZE {
      return Err(WrongSize(BitLen(n)));
    }
    hide RR, N0Inv, Montgomery.Pow;
    var modulus := LittleEndianFixed(n, SIZE);
    var rr := LittleEndianFixed(RR(n, WORDS), SIZE);
    var n0inv := N0Inv(n);
    if n0inv.None? {
      return Err(NotInvertible);
    }
    var out := Le32(WORDS);
    out := out + Le32(n0inv.value);
    out := out + modulus[..];
    out := out + rr[..];
    out := out + Le32(Wrap32(e));
    return Ok(out);
  }

  /** Numbers below 2^2048 keep their value in the binary key. */
  predicate Fits(key: AndroidKey) {
    key.modulus < Pow(256, SIZE) && key.rr < Pow(256, SIZE)
  }

  lemma PackedParts(key: AndroidKey)
    ensures var b := Packed(key);
            && |b| == 12 + 2 * SIZE && b[..4] == Le32(key.words) && b[4..8] == Le32(key.n0inv)
            && b[8..8 + SIZE] == LittleEndian(key.modulus, SIZE)
            && b[8 + SIZE..8 + 2 * SIZE] == LittleEndian(key.rr, SIZE) && b[8 + 2 * SIZE..] == Le32(key.exponent)
  {
    hide LittleEndian;
  }

  lemma PackedRoundTrip(key: AndroidKey)
    requires Fits(key)
    ensures Unpacked(Packed(key)) == Some(key)
  {
    hide Pow, Packed, Le32, FromLe32;
    PackedParts(key);
    Le32RoundTrip(key.words);
    Le32RoundTrip(key.n0inv);
    Le32RoundTrip(key.exponent);
    LittleEndianValue(key.modulus, SIZE);
    LittleEndianValue(key.rr, SIZE);
    BelowIsMod(key.modulus, Pow(256, SIZE));
    BelowIsMod(key.rr, Pow(256, SIZE));
    hide LittleEndian, FromLittleEndian;
  }

  lemma BelowIsMod(a: nat, n: nat)
    requires a < n
    ensures a % n == a
  {
  }

  lemma KeyFits(n: nat, e: nat)
    requires KeyOf(n, e).Ok?
    ensures Fits(KeyOf(n, e).value) && n > 0
  {
    hide Pow;
    BitLenBound(n);
    PowOfPow(2, 8, SIZE);
    TwoToEight();
    hide N0Inv;
    assert n < Pow(256, SIZE);
    assert RR(n, WORDS) < n;
  }

  lemma TwoToEight()
    ensures Pow(2, 8) == 256
  {
    PowAdd(2, 4, 4);
  }

  // ---- the payload -------------------------------------------------------

  const NUL: Byte := 0

  function Payload(key: AndroidKey, comment: seq<Byte>): seq<Byte> {
    Encode64(Packed(key)) + [SPACE] + comment + [NUL]
  }

  function FirstSpace(s: seq<Byte>, from: nat): (r: Option<nat>)
    requires from <= |s|
    ensures r.Some? ==> from <= r.value < |s| && s[r.value] == SPACE
    decreases |s| - from
  {
    if from == |s| then None else if s[from] == SPACE then Some(from) else FirstSpace(s, from + 1)
  }

  /** What a device makes of a payload: the key before the first space, and the
      comment up to the final NUL. */
  function ReadPayload(p: seq<Byte>): Option<(AndroidKey, seq<Byte>)> {
    if |p| == 0 || p[|p| - 1] != NUL then None
    else
      match FirstSpace(p, 0)
      case None => None
      case Some(i) =>
        match Decode64(p[..i])
        case None => None
        case Some(b) =>
          match Unpacked(b)
          case None => None
          case Some(key) => Some((key, p[i + 1..|p| - 1]))
  }

  lemma {:induction false} FirstSpaceAt(s: seq<Byte>, from: nat, at: nat)
    requires from <= at < |s| && s[at] == SPACE && forall j :: from <= j < at ==> s[j] != SPACE
    ensures FirstSpace(s, from) == Some(at)
    decreases at - from
  {
    if from < at { FirstSpaceAt(s, from + 1, at); }
  }

  lemma PayloadRoundTrip(key: AndroidKey, comment: seq<Byte>)
    requires Fits(key)
    ensures ReadPayload(Payload(key, comment)) == Some((key, comment))
  {
    hide Packed, Unpacked, Fits, Encode64, Decode64;
    var b, p := Packed(key), Payload(key, comment);
    var text := Encode64(b);
    NoSpaceInside(b);
    assert forall j :: 0 <= j < |text| ==> p[j] == text[j];
    FirstSpaceAt(p, 0, |text|);
    assert p[..|text|] == text && p[|text| + 1..|p| - 1] == comment;
    Base64RoundTrip(b);
    PackedRoundTrip(key);
  }

  // ---- credentials -------------------------------------------------------

  /** "adb-go" */
  const DEFAULT_COMMENT: seq<Byte> := [0x61, 0x64, 0x62, 0x2d, 0x67, 0x6f]

  const CR: Byte := 0x0d
  const LF: Byte := 0x0a

  /** The UTF-8 encodings of the characters that unicode.IsSpace accepts. */
  predicate IsSpace(r: seq<Byte>) {
    || (|r| == 1 && (0x09 <= r[0] <= 0x0d || r[0] == SPACE))
    || (|r| == 2 && r[0] == 0xc2 && (r[1] == 0x85 || r[1] == 0xa0))
    || (|r| == 3 && IsWideSpace(r[0], r[1], r[2]))
  }

  predicate IsWideSpace(a: Byte, b: Byte, c: Byte) {
    || (a == 0xe1 && b == 0x9a && c == 0x80)
    || (a == 0xe2 && b == 0x80 && (0x80 <= c <= 0x8a || c == 0xa8 || c == 0xa9 || c == 0xaf))
    || (a == 0xe2 && b == 0x81 && c == 0x9f)
    || (a == 0xe3 && b == 0x80 && c == 0x80)
  }

  /** The UTF-8 encoding of a code point. */
  function Utf8(c: nat): seq<Byte>
    requires c < 0x11_0000
  {
    if c < 0x80 then [c]
    else if c < 0x800 then [0xc0 + c / 0x40, 0x80 + c % 0x40]
    else if c < 0x1_0000 then [0xe0 + c / 0x1000, 0x80 + c / 0x40 % 0x40, 0x80 + c % 0x40]
    else [0xf0 + c / 0x4_0000, 0x80 + c / 0x1000 % 0x40, 0x80 + c / 0x40 % 0x40, 0x80 + c % 0x40]
  }

  /** The characters that count as spaces are Unicode's. */
  lemma SpacesAreUnicode(c: nat)
    requires c < 0x11_0000
    ensures IsSpace(Utf8(c)) <==>
      || 0x09 <= c <= 0x0d || c in {0x20, 0x85, 0xa0, 0x1680, 0x2028, 0x2029, 0x202f, 0x205f, 0x3000} || 0x2000 <= c <= 0x200a
  {
    if 0x800 <= c < 0x1_0000 {
      var a, b, d := c / 0x1000, c / 0x40 % 0x40, c % 0x40;
      assert c == 0x1000 * a + 0x40 * b + d;
    }
  }

  predicate StartsWithSpace(s: seq<Byte>, n: nat) {
    n <= |s| && IsSpace(s[..n])
  }

  predicate EndsWithSpace(s: seq<Byte>, n: nat) {
    n <= |s| && IsSpace(s[|s| - n..])
  }

  /** How many bytes a text's first character takes, if it is a space; else 0. */
  function FrontSpace(s: seq<Byte>): (n: nat)
    ensures n <= |s|
  {
    if StartsWithSpace(s, 1) then 1
    else if StartsWithSpace(s, 2) then 2
    else if StartsWithSpace(s, 3) then 3
    else 0
  }

  function BackSpace(s: seq<Byte>): (n: nat)
    ensures n <= |s|
  {
    if EndsWithSpace(s, 1) then 1
    else if EndsWithSpace(s, 2) then 2
    else if EndsWithSpace(s, 3) then 3
    else 0
  }

  function TrimLeft(s: seq<Byte>): seq<Byte>
    decreases |s|
  {
    var n := FrontSpace(s);
    if n == 0 then s else TrimLeft(s[n..])
  }

  function TrimRight(s: seq<Byte>): seq<Byte>
    decreases |s|
  {
    var n := BackSpace(s);
    if n == 0 then s else TrimRight(s[..|s| - n])
  }

  function TrimSpace(s: seq<Byte>): seq<Byte> {
    TrimRight(TrimLeft(s))
  }

  /** A text that is nothing but spaces. */
  ghost predicate Spaces(s: seq<Byte>) {
    exists rs: seq<seq<Byte>> :: Flat(rs) == s && forall i :: 0 <= i < |rs| ==> IsSpace(rs[i])
  }

  lemma SpacesBefore(r: seq<Byte>, s: seq<Byte>)
    requires IsSpace(r) && Spaces(s)
    ensures Spaces(r + s)
  {
    var rs: seq<seq<Byte>> :| Flat(rs) == s && forall i :: 0 <= i < |rs| ==> IsSpace(rs[i]);
    var more := [r] + rs;
    assert more[1..] == rs;
    assert Flat(more) == r + s;
    hide IsSpace;
  }

  lemma SpacesAfter(s: seq<Byte>, r: seq<Byte>)
    requires IsSpace(r) && Spaces(s)
    ensures Spaces(s + r)
  {
    var rs: seq<seq<Byte>> :| Flat(rs) == s && forall i :: 0 <= i < |rs| ==> IsSpace(rs[i]);
    FlatSnoc(rs, r);
    hide IsSpace;
    assert forall i :: 0 <= i < |rs + [r]| ==> IsSpace((rs + [r])[i]);
  }

  lemma NoSpaces()
    ensures Spaces([])
  {
    assert Flat([]) == [];
  }

  /** The comment a credential gets for a comment that is asked for. */
  function CommentFor(comment: seq<Byte>): Option<seq<Byte>> {
    if NUL in comment || CR in comment || LF in comment then None
    else if TrimSpace(comment) == [] then Some(DEFAULT_COMMENT)
    else Some(TrimSpace(comment))
  }

  /** What is wrong first with a key and a comment that are refused. */
  function FirstFault(valid: bool, n: nat, e: int, comment: seq<Byte>): KeyError {
    if !valid then InvalidKey
    else if BitLen(n) != 8 * SIZE then WrongSize(BitLen(n))
    else if e <= 0 then BadExponent
    else if CommentFor(comment).None? then BadComment
    else NotInvertible
  }

  /** NewCredentialWithComment, down to its payload; `valid` is what the library's own
      check of the private key says. A refusal names the first thing that is wrong. */
  method NewCredentialWithComment(valid: bool, n: nat, e: int, comment: seq<Byte>) returns (r: Result<seq<Byte>, KeyError>)
    ensures r.Ok? <==> valid && Has2048Bits(n) && n % 2 == 1 && e > 0 && NUL !in comment && CR !in comment && LF !in comment
    ensures r.Ok? ==> KeyOf(n, e).Ok? && r.value == Payload(KeyOf(n, e).value, CommentFor(comment).value)
    ensures r.Err? ==> r.error == FirstFault(valid, n, e, comment)
  {
    hide N0Inv, RR, Packed, TrimSpace, BitLen, Montgomery.Pow;
    N0InvIsNegatedInverse(n);
    BitLenExactly(n, 8 * SIZE - 1);
    if !valid {
      return Err(InvalidKey);
    }
    if BitLen(n) != 8 * SIZE {
      return Err(WrongSize(BitLen(n)));
    }
    if e <= 0 {
      return Err(BadExponent);
    }
    if NUL in comment || CR in comment || LF in comment {
      return Err(BadComment);
    }
    var text := TrimSpace(comment);
    if text == [] {
      text := DEFAULT_COMMENT;
    }
    var key := EncodeAndroidRSAPublicKey(n, e);
    if key.Err? {
      return Err(key.error);
    }
    var payload := Encode64(key.value);
    payload := payload + [SPACE];
    payload := payload + text;
    payload := payload + [NUL];
    return Ok(payload);
  }

  /** Trimming takes spaces from both ends, and leaves none there. */
  lemma TrimInside(s: seq<Byte>) returns (left: seq<Byte>, right: seq<Byte>)
    ensures s == left + TrimSpace(s) + right && Spaces(left) && Spaces(right)
    ensures FrontSpace(TrimSpace(s)) == 0 && BackSpace(TrimSpace(s)) == 0
  {
    hide TrimLeft, TrimRight, FrontSpace, BackSpace, Spaces;
    left := TrimLeftAt(s);
    right := TrimRightAt(TrimLeft(s));
    assert s == left + (TrimSpace(s) + right);
    PrefixHasNoFrontSpace(TrimSpace(s), right);
  }

  lemma PrefixHasNoFrontSpace(s: seq<Byte>, rest: seq<Byte>)
    requires FrontSpace(s + rest) == 0
    ensures FrontSpace(s) == 0
  {
    hide IsSpace;
    StillStarts(s, rest, 1);
    StillStarts(s, rest, 2);
    StillStarts(s, rest, 3);
    hide StartsWithSpace;
  }

  lemma StillStarts(s: seq<Byte>, rest: seq<Byte>, n: nat)
    ensures StartsWithSpace(s, n) ==> StartsWithSpace(s + rest, n)
  {
    hide IsSpace;
    if n <= |s| { assert (s + rest)[..n] == s[..n]; }
  }

  lemma SpacesAtEnds(s: seq<Byte>)
    ensures var n := FrontSpace(s); n > 0 ==> n <= |s| && IsSpace(s[..n])
    ensures var n := BackSpace(s); n > 0 ==> n <= |s| && IsSpace(s[|s| - n..])
  {
    hide IsSpace;
  }

  lemma TrimLeftStep(s: seq<Byte>)
    ensures TrimLeft(s) == if FrontSpace(s) == 0 then s else TrimLeft(s[FrontSpace(s)..])
    ensures TrimRight(s) == if BackSpace(s) == 0 then s else TrimRight(s[..|s| - BackSpace(s)])
  {
    hide FrontSpace, BackSpace;
  }

  lemma {:induction false} TrimLeftAt(s: seq<Byte>) returns (left: seq<Byte>)
    ensures s == left + TrimLeft(s) && Spaces(left) && FrontSpace(TrimLeft(s)) == 0
    decreases |s|
  {
    hide *;
    var n := FrontSpace(s);
    SpacesAtEnds(s);
    TrimLeftStep(s);
    if n == 0 {
      left := [];
      NoSpaces();
    } else {
      var more := TrimLeftAt(s[n..]);
      left := s[..n] + more;
      SpacesBefore(s[..n], more);
      assert s == s[..n] + s[n..];
    }
  }

  lemma {:induction false} TrimRightAt(s: seq<Byte>) returns (right: seq<Byte>)
    ensures s == TrimRight(s) + right && Spaces(right) && BackSpace(TrimRight(s)) == 0
    decreases |s|
  {
    hide *;
    var n := BackSpace(s);
    SpacesAtEnds(s);
    TrimLeftStep(s);
    if n == 0 {
      right := [];
      NoSpaces();
    } else {
      var k := |s| - n;
      var more := TrimRightAt(s[..k]);
      right := more + s[k..];
      SpacesAfter(more, s[k..]);
      assert s == s[..k] + s[k..];
    }
  }

  /** Spaces are recognised at either end of any text. */
  lemma SpaceAtFront(r: seq<Byte>, s: seq<Byte>)
    requires IsSpace(r)
    ensures FrontSpace(r + s) == |r| && (r + s)[|r|..] == s
  {
    var t := r + s;
    assert t[..|r|] == r;
    if |r| >= 2 { assert t[..1] == [r[0]]; }
    if |r| == 3 { assert t[..2] == [r[0], r[1]]; }
  }

  lemma SpaceAtBack(s: seq<Byte>, r: seq<Byte>)
    requires IsSpace(r)
    ensures BackSpace(s + r) == |r| && (s + r)[..|s|] == s
  {
    var t := s + r;
    assert t[|s|..] == r;
    if |r| >= 2 { assert t[|t| - 1..] == [r[|r| - 1]]; }
    if |r| == 3 { assert t[|t| - 2..] == [r[1], r[2]]; }
  }

  /** A text that does not start with a space does not when spaces follow it. */
  lemma SpacesBehind(s: seq<Byte>, r: seq<Byte>, more: seq<Byte>)
    requires s != [] && FrontSpace(s) == 0 && IsSpace(r)
    ensures FrontSpace(s + r + more) == 0
  {
    var t := s + r + more;
    assert t[..1] == s[..1];
    if |s| == 1 {
      assert t[1] == r[0];
    } else {
      assert t[..2] == s[..2];
      if |s| == 2 { assert t[2] == r[0]; } else { assert t[..3] == s[..3]; }
    }
  }

  lemma {:induction false} LeftTrimmed(rs: seq<seq<Byte>>, s: seq<Byte>)
    requires forall i :: 0 <= i < |rs| ==> IsSpace(rs[i])
    ensures TrimLeft(Flat(rs) + s) == TrimLeft(s)
  {
    hide IsSpace, FrontSpace, TrimLeft;
    if |rs| == 0 {
      assert Flat(rs) + s == s;
    } else {
      LeftTrimmed(rs[1..], s);
      var tail := Flat(rs[1..]) + s;
      assert Flat(rs) + s == rs[0] + tail;
      SpaceAtFront(rs[0], tail);
      TrimLeftStep(rs[0] + tail);
      SpaceIsSome(rs[0]);
    }
  }

  lemma {:induction false} RightTrimmed(s: seq<Byte>, rs: seq<seq<Byte>>)
    requires forall i :: 0 <= i < |rs| ==> IsSpace(rs[i])
    ensures TrimRight(s + Flat(rs)) == TrimRight(s)
  {
    hide IsSpace, BackSpace, TrimRight;
    if |rs| == 0 {
      assert s + Flat(rs) == s;
    } else {
      var init, last := rs[..|rs| - 1], rs[|rs| - 1];
      RightTrimmed(s, init);
      assert rs == init + [last];
      FlatSnoc(init, last);
      assert s + Flat(rs) == (s + Flat(init)) + last;
      SpaceAtBack(s + Flat(init), last);
      TrimLeftStep(s + Flat(init) + last);
      SpaceIsSome(last);
    }
  }

  lemma SpaceIsSome(r: seq<Byte>)
    requires IsSpace(r)
    ensures |r| > 0
  {
  }

  /** Main result. Of a comment without control characters the credential keeps what is
      between the spaces at both ends, and "adb-go" when that is nothing. */
  lemma CommentIsTrimmed(left: seq<Byte>, text: seq<Byte>, right: seq<Byte>)
    requires Spaces(left) && Spaces(right) && FrontSpace(text) == 0 && BackSpace(text) == 0
    requires var c := left + text + right; NUL !in c && CR !in c && LF !in c
    ensures CommentFor(left + text + right) == Some(if text == [] then [0x61, 0x64, 0x62, 0x2d, 0x67, 0x6f] else text)
  {
    TrimSpaceIs(left, text, right);
    hide Spaces, FrontSpace, BackSpace, TrimSpace;
  }

  lemma TrimSpaceIs(left: seq<Byte>, text: seq<Byte>, right: seq<Byte>)
    requires Spaces(left) && Spaces(right) && FrontSpace(text) == 0 && BackSpace(text) == 0
    ensures TrimSpace(left + text + right) == text
  {
    hide IsSpace, FrontSpace, BackSpace, TrimLeft, TrimRight, Flat;
    var ls: seq<seq<Byte>> :| Flat(ls) == left && forall i :: 0 <= i < |ls| ==> IsSpace(ls[i]);
    var rs: seq<seq<Byte>> :| Flat(rs) == right && forall i :: 0 <= i < |rs| ==> IsSpace(rs[i]);
    hide Spaces;
    LeftTrimmed(ls, text + right);
    assert left + text + right == left + (text + right);
    if text == [] {
      LeftTrimmed(rs, []);
      assert text + right == right && right + [] == right;
      EmptyTrimmed();
    } else {
      StartKept(text, rs);
      RightTrimmed(text, rs);
      TrimLeftStep(text + right);
      TrimLeftStep(text);
    }
  }

  lemma StartKept(text: seq<Byte>, rs: seq<seq<Byte>>)
    requires text != [] && FrontSpace(text) == 0 && forall i :: 0 <= i < |rs| ==> IsSpace(rs[i])
    ensures FrontSpace(text + Flat(rs)) == 0
  {
    hide *;
    if |rs| > 0 {
      FlatHead(rs);
      var more := Flat(rs[1..]);
      SpacesBehind(text, rs[0], more);
      Regroup(text, rs[0], more);
    } else {
      FlatNone();
      assert rs == [];
      Regroup(text, [], []);
    }
  }

  lemma Regroup(a: seq<Byte>, b: seq<Byte>, c: seq<Byte>)
    ensures a + b + c == a + (b + c) && a + [] == a
  {
  }

  lemma FlatHead(rs: seq<seq<Byte>>)
    requires |rs| > 0
    ensures Flat(rs) == rs[0] + Flat(rs[1..])
  {
  }

  lemma FlatNone()
    ensures Flat([]) == []
  {
  }

  lemma EmptyTrimmed()
    ensures TrimLeft([]) == [] && TrimRight([]) == []
  {
  }

  /** Main result. For every key the client accepts, the device reads back the modulus,
      the exponent modulo 2^32 and the trimmed comment, together with the two
      constants that make its arithmetic right for every x below 2^2048. */
  lemma CredentialRoundTrip(n: nat, e: int, comment: seq<Byte>, x: nat)
    requires e > 0 && Has2048Bits(n) && n % 2 == 1 && CommentFor(comment).Some? && x < Pow(TWO32, WORDS)
    ensures KeyOf(n, e).Ok?
    ensures var key := KeyOf(n, e).value;
            && ReadPayload(Payload(key, CommentFor(comment).value)) == Some((key, CommentFor(comment).value))
            && key.modulus == n && key.exponent == e % TWO32
            && key.words == WORDS && Converts(key, x)
  {
    hide Pow, N0Inv, RR, Payload, ReadPayload, CommentFor, BitLen, Converts;
    BitLenExactly(n, 8 * SIZE - 1);
    N0InvIsNegatedInverse(n);
    KeyFits(n, e);
    KeyParts(n, e);
    hide KeyOf, Fits;
    PayloadRoundTrip(KeyOf(n, e).value, CommentFor(comment).value);
    KeyConverts(KeyOf(n, e).value, x);
  }

  /** The device's arithmetic on a key is right for x: a reduction of x * rr, with at
      most one subtraction, is x * R modulo the modulus. */
  predicate Converts(key: AndroidKey, x: nat) {
    var r := Reduce(key.modulus, key.n0inv, x * key.rr, key.words);
    && 0 < key.modulus && r < 2 * key.modulus
    && (if r >= key.modulus then r - key.modulus else r) == (x * Pow(TWO32, key.words)) % key.modulus
  }

  lemma KeyConverts(key: AndroidKey, x: nat)
    requires key.modulus > 0 && N0Inv(key.modulus) == Some(key.n0inv)
    requires key.rr == RR(key.modulus, key.words) && x <= Pow(TWO32, key.words)
    ensures Converts(key, x)
  {
    hide Pow, N0Inv, RR, Reduce;
    ToMontgomeryForm(key.modulus, key.n0inv, x, key.words);
  }

  lemma KeyParts(n: nat, e: nat)
    requires KeyOf(n, e).Ok? && n > 0
    ensures var key := KeyOf(n, e).value;
            && key.words == WORDS && N0Inv(n) == Some(key.n0inv) && key.modulus == n
            && key.rr == RR(n, WORDS) && key.exponent == e % TWO32
  {
    hide N0Inv, RR, BitLen;
  }
}
