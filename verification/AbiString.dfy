/** Reading a contract's string: `decodeString` takes both the ABI form and the fixed 32-byte form, and `sanitizeUTF8`
    drops whatever is not printable text.

    Strings are bytes. Runes follow Go's UTF-8 rules: a byte that starts no well-formed sequence is one RuneError. */
module AbiString {

  type byte = x: int | 0 <= x < 256

  type bytes = seq<byte>

  /** A Unicode scalar value: no surrogate. */
  type rune = x: int | 0 <= x < 0xD800 || 0xE000 <= x <= 0x10FFFF

  const RUNE_ERROR: rune := 0xFFFD

  // ---------------------------------------------------------------- UTF-8

  datatype Decoded = Decoded(value: rune, width: nat)

  predicate IsTail(b: byte) {
    0x80 <= b <= 0xBF
  }

  /** The second byte is restricted further after four of the leading bytes: no overlong form, no surrogate, nothing
      above U+10FFFF. */
  predicate IsSecond(lead: byte, b: byte) {
    && IsTail(b)
    && (lead == 0xE0 ==> b >= 0xA0)
    && (lead == 0xED ==> b <= 0x9F)
    && (lead == 0xF0 ==> b >= 0x90)
    && (lead == 0xF4 ==> b <= 0x8F)
  }

  function Low6(b: byte): nat
    requires IsTail(b)
  {
    b - 0x80
  }

  /** Four digits to the base 64. */
  function FromDigits(a: nat, b: nat, c: nat, d: nat): nat {
    a * 0x40000 + b * 0x1000 + c * 0x40 + d
  }

  function DecodeRune(s: bytes): (d: Decoded)
    requires s != []
    ensures 1 <= d.width <= |s|
  {
    var lead := s[0];
    if lead < 0x80 then
      Decoded(lead, 1)
    else if 0xC2 <= lead <= 0xDF && |s| >= 2 && IsTail(s[1]) then
      Decoded(FromDigits(0, 0, lead - 0xC0, Low6(s[1])), 2)
    else if 0xE0 <= lead <= 0xEF && |s| >= 3 && IsSecond(lead, s[1]) && IsTail(s[2]) then
      Decoded(FromDigits(0, lead - 0xE0, Low6(s[1]), Low6(s[2])), 3)
    else if 0xF0 <= lead <= 0xF4 && |s| >= 4 && IsSecond(lead, s[1]) && IsTail(s[2]) && IsTail(s[3]) then
      Decoded(FromDigits(lead - 0xF0, Low6(s[1]), Low6(s[2]), Low6(s[3])), 4)
    else
      Decoded(RUNE_ERROR, 1)
  }

  function EncodeRune(r: rune): (s: bytes)
    ensures s != []
  {
    if r < 0x80 then
      [r]
    else if r < 0x800 then
      [0xC0 + r / 0x40, 0x80 + r % 0x40]
    else if r < 0x10000 then
      [0xE0 + r / 0x40 / 0x40, 0x80 + r / 0x40 % 0x40, 0x80 + r % 0x40]
    else
      [0xF0 + r / 0x40 / 0x40 / 0x40, 0x80 + r / 0x40 / 0x40 % 0x40, 0x80 + r / 0x40 % 0x40, 0x80 + r % 0x40]
  }

  /** The runes `range` iterates over. */
  function Runes(s: bytes): seq<rune> {
    if s == [] then [] else [DecodeRune(s).value] + Runes(s[DecodeRune(s).width..])
  }

  function Encode(rs: seq<rune>): bytes {
    if rs == [] then [] else EncodeRune(rs[0]) + Encode(rs[1..])
  }

  lemma DigitsOf(a: nat, b: nat, c: nat, d: nat)
    requires b < 0x40 && c < 0x40 && d < 0x40
    ensures FromDigits(a, b, c, d) % 0x40 == d && FromDigits(a, b, c, d) / 0x40 == a * 0x1000 + b * 0x40 + c
    ensures (a * 0x1000 + b * 0x40 + c) % 0x40 == c && (a * 0x1000 + b * 0x40 + c) / 0x40 == a * 0x40 + b
    ensures (a * 0x40 + b) % 0x40 == b && (a * 0x40 + b) / 0x40 == a
  {
  }

  lemma FromItsDigits(r: nat)
    ensures FromDigits(r / 0x40 / 0x40 / 0x40, r / 0x40 / 0x40 % 0x40, r / 0x40 % 0x40, r % 0x40) == r
  {
  }

  lemma DecodeOfEncode(r: rune, rest: bytes)
    ensures DecodeRune(EncodeRune(r) + rest) == Decoded(r, |EncodeRune(r)|)
  {
    FromItsDigits(r);
    var e := EncodeRune(r);
    var s := e + rest;
    assert s[0] == e[0] && (|e| > 1 ==> s[1] == e[1]) && (|e| > 2 ==> s[2] == e[2]) && (|e| > 3 ==> s[3] == e[3]);
  }

  lemma EncodeOfDecode2(s: bytes)
    requires s != [] && DecodeRune(s).width == 2
    ensures EncodeRune(DecodeRune(s).value) == s[..2]
  {
    DigitsOf(0, 0, s[0] as int - 0xC0, Low6(s[1]));
  }

  lemma EncodeOfDecode3(s: bytes)
    requires s != [] && DecodeRune(s).width == 3
    ensures EncodeRune(DecodeRune(s).value) == s[..3]
  {
    DigitsOf(0, s[0] as int - 0xE0, Low6(s[1]), Low6(s[2]));
  }

  lemma EncodeOfDecode4(s: bytes)
    requires s != [] && DecodeRune(s).width == 4
    ensures EncodeRune(DecodeRune(s).value) == s[..4]
  {
    DigitsOf(s[0] as int - 0xF0, Low6(s[1]), Low6(s[2]), Low6(s[3]));
  }

  lemma EncodeOfDecode(s: bytes)
    requires s != [] && DecodeRune(s).value != RUNE_ERROR
    ensures EncodeRune(DecodeRune(s).value) == s[..DecodeRune(s).width]
  {
    match DecodeRune(s).width
    case 2 => EncodeOfDecode2(s);
    case 3 => EncodeOfDecode3(s);
    case 4 => EncodeOfDecode4(s);
    case _ =>
  }

  /** Reading back written runes gives the runes. */
  lemma {:induction false} RunesOfEncode(rs: seq<rune>)
    ensures Runes(Encode(rs)) == rs
  {
    if rs != [] {
      var rest := Encode(rs[1..]);
      RunesOfEncode(rs[1..]);
      DecodeOfEncode(rs[0], rest);
      assert Encode(rs)[|EncodeRune(rs[0])|..] == rest;
    }
  }

  lemma EncodeOfCons(r: rune, rest: seq<rune>)
    ensures Encode([r] + rest) == EncodeRune(r) + Encode(rest)
  {
    assert ([r] + rest)[1..] == rest;
  }

  lemma EncodeOfSplit(head: bytes, tail: bytes, r: rune, rest: seq<rune>)
    requires EncodeRune(r) == head && Encode(rest) == tail
    ensures Encode([r] + rest) == head + tail
  {
    EncodeOfCons(r, rest);
  }

  lemma RunesOfSplit(head: bytes, tail: bytes)
    requires head != [] && DecodeRune(head + tail).width == |head|
    ensures Runes(head + tail) == [DecodeRune(head + tail).value] + Runes(tail)
  {
    assert (head + tail)[|head|..] == tail;
  }

  /** Bytes without an error in them are the encoding of their runes. */
  lemma {:induction false} EncodeOfRunes(s: bytes)
    requires RUNE_ERROR !in Runes(s)
    ensures Encode(Runes(s)) == s
    decreases |s|
  {
    if s != [] {
      var d := DecodeRune(s);
      var head, tail := s[..d.width], s[d.width..];
      assert s == head + tail;
      RunesOfSplit(head, tail);
      EncodeOfDecode(s);
      EncodeOfRunes(tail);
      EncodeOfSplit(head, tail, d.value, Runes(tail));
    }
  }

  // ---------------------------------------------------------------- sanitizing

  predicate IsKept(r: rune) {
    !(r == RUNE_ERROR || r < 0x20 || r == 0x7F)
  }

  function Kept(rs: seq<rune>): (ks: seq<rune>)
    ensures forall r :: r in ks ==> IsKept(r)
  {
    if rs == [] then [] else (if IsKept(rs[0]) then [rs[0]] else []) + Kept(rs[1..])
  }

  /** `unicode.IsSpace`. */
  predicate IsSpace(r: rune) {
    || 0x09 <= r <= 0x0D
    || r in {0x20, 0x85, 0xA0, 0x1680, 0x2028, 0x2029, 0x202F, 0x205F, 0x3000}
    || 0x2000 <= r <= 0x200A
  }

  function TrimLeft(rs: seq<rune>): (t: seq<rune>)
    ensures t != [] ==> !IsSpace(t[0])
    ensures forall r :: r in t ==> r in rs
  {
    if rs != [] && IsSpace(rs[0]) then TrimLeft(rs[1..]) else rs
  }

  function TrimRight(rs: seq<rune>): (t: seq<rune>)
    ensures t <= rs
    ensures t != [] ==> !IsSpace(t[|t| - 1])
  {
    if rs != [] && IsSpace(rs[|rs| - 1]) then TrimRight(rs[..|rs| - 1]) else rs
  }

  function Trim(rs: seq<rune>): seq<rune> {
    TrimRight(TrimLeft(rs))
  }

  /** `strings.TrimSpace`, on the well-formed text it is given here. */
  function TrimSpace(s: bytes): bytes {
    Encode(Trim(Runes(s)))
  }

  function Sanitized(s: bytes): bytes {
    Encode(Trim(Kept(Runes(s))))
  }

  /** What the builder receives from the rest of the string. */
  function Written(s: bytes): bytes {
    Encode(Kept(Runes(s)))
  }

  method SanitizeUTF8(s: bytes) returns (out: bytes)
    ensures out == Sanitized(s)
  {
    var b: bytes := [];
    var i := 0;
    ghost var rest := Written(s);
    assert s[0..] == s;
    while i < |s|
      invariant 0 <= i <= |s|
      invariant rest == Written(s[i..])
      invariant b + rest == Written(s)
    {
      var d := DecodeRune(s[i..]);
      rest := WrittenStep(b, s, i, d);
      if IsKept(d.value) {
        b := b + EncodeRune(d.value);
      }
      i := i + d.width;
    }
    AllWritten(b, s, rest);
    out := TrimSpace(b);
  }

  lemma AllWritten(b: bytes, s: bytes, rest: bytes)
    requires rest == Written(s[|s|..]) && b + rest == Written(s)
    ensures TrimSpace(b) == Sanitized(s)
  {
    assert s[|s|..] == [];
    assert Kept(Runes([])) == [];
    assert b + [] == b;
    RunesOfEncode(Kept(Runes(s)));
  }

  lemma EncodeKeptStep(r: rune, rest: seq<rune>)
    ensures Encode(Kept([r] + rest)) == (if IsKept(r) then EncodeRune(r) else []) + Encode(Kept(rest))
  {
    assert ([r] + rest)[1..] == rest;
    if IsKept(r) {
      assert ([r] + Kept(rest))[1..] == Kept(rest);
    } else {
      assert Kept([r] + rest) == Kept(rest);
    }
  }

  lemma WrittenStep(b: bytes, s: bytes, i: nat, d: Decoded) returns (rest: bytes)
    requires i < |s| && d == DecodeRune(s[i..])
    ensures rest == Written(s[i + d.width..])
    ensures b + Written(s[i..]) == (if IsKept(d.value) then b + EncodeRune(d.value) else b) + rest
  {
    rest := Written(s[i + d.width..]);
    assert s[i..][d.width..] == s[i + d.width..];
    EncodeKeptStep(d.value, Runes(s[i + d.width..]));
  }

  /** Text that can be shown: printable runes only, none of them a stand-in for bad bytes, no space at either end. */
  predicate Presentable(rs: seq<rune>) {
    && (forall r :: r in rs ==> IsKept(r))
    && (rs != [] ==> !IsSpace(rs[0]) && !IsSpace(rs[|rs| - 1]))
  }

  predicate Clean(s: bytes) {
    Presentable(Runes(s))
  }

  lemma {:induction false} KeptOfKept(rs: seq<rune>)
    requires forall r :: r in rs ==> IsKept(r)
    ensures Kept(rs) == rs
  {
    if rs != [] {
      KeptOfKept(rs[1..]);
    }
  }

  /** Whatever the bytes, the result is clean. */
  lemma SanitizedIsClean(s: bytes)
    ensures Clean(Sanitized(s))
  {
    RunesOfEncode(Trim(Kept(Runes(s))));
  }

  lemma PresentableIsUntouched(rs: seq<rune>)
    requires Presentable(rs)
    ensures Trim(Kept(rs)) == rs
  {
    KeptOfKept(rs);
  }

  lemma CleanIsUntouched(s: bytes)
    requires Clean(s)
    ensures Sanitized(s) == s
  {
    PresentableIsUntouched(Runes(s));
    EncodeOfRunes(s);
  }

  /** Sanitizing leaves exactly the clean strings alone. */
  lemma SanitizedIsSameIff(s: bytes)
    ensures Sanitized(s) == s <==> Clean(s)
  {
    if Clean(s) {
      CleanIsUntouched(s);
    } else {
      SanitizedIsClean(s);
    }
  }

  lemma SanitizedIsIdempotent(s: bytes)
    ensures Sanitized(Sanitized(s)) == Sanitized(s)
  {
    SanitizedIsClean(s);
    CleanIsUntouched(Sanitized(s));
  }

  lemma SanitizedOfEncode(rs: seq<rune>)
    ensures Sanitized(Encode(rs)) == Encode(Trim(Kept(rs)))
  {
    RunesOfEncode(rs);
  }

  predicate IsText(r: rune) {
    0x20 <= r && r != 0x7F && r != 0xFFFD
  }

  /** Text without control, delete and replacement characters, and without space at either end, is left alone. */
  lemma TextIsUntouched(rs: seq<rune>)
    requires forall r :: r in rs ==> IsText(r)
    requires rs != [] ==> !IsSpace(rs[0]) && !IsSpace(rs[|rs| - 1])
    ensures Sanitized(Encode(rs)) == Encode(rs)
  {
    SanitizedOfEncode(rs);
    KeptOfKept(rs);
  }

  lemma {:induction false} KeptOfConcat(rs: seq<rune>, ts: seq<rune>)
    ensures Kept(rs + ts) == Kept(rs) + Kept(ts)
  {
    if rs == [] {
      assert rs + ts == ts;
    } else {
      assert (rs + ts)[1..] == rs[1..] + ts;
      KeptOfConcat(rs[1..], ts);
    }
  }

  lemma KeptWithout(rs: seq<rune>, r: rune, ts: seq<rune>)
    requires !IsKept(r)
    ensures Kept(rs + [r] + ts) == Kept(rs + ts)
  {
    assert rs + [r] + ts == rs + ([r] + ts);
    KeptOfConcat(rs, [r] + ts);
    KeptOfConcat(rs, ts);
    assert ([r] + ts)[1..] == ts;
  }

  /** A control, delete or replacement character makes no difference, wherever it stands. */
  lemma ControlIsDropped(rs: seq<rune>, r: rune, ts: seq<rune>)
    requires !IsText(r)
    ensures Sanitized(Encode(rs + [r] + ts)) == Sanitized(Encode(rs + ts))
  {
    SanitizedOfEncode(rs + [r] + ts);
    SanitizedOfEncode(rs + ts);
    KeptWithout(rs, r, ts);
  }

  predicate IsAscii(s: bytes) {
    forall i :: 0 <= i < |s| ==> s[i] < 0x80
  }

  /** The runes of ASCII text are its bytes. */
  lemma {:induction false} RunesOfAscii(s: bytes)
    requires IsAscii(s)
    ensures |Runes(s)| == |s| && forall i :: 0 <= i < |s| ==> Runes(s)[i] == s[i]
  {
    if s != [] {
      RunesOfAscii(s[1..]);
      assert DecodeRune(s) == Decoded(s[0], 1);
      assert Runes(s) == [s[0] as rune] + Runes(s[1..]);
    }
  }

  /** No line break, no NUL, no other control byte. */
  predicate Harmless(s: bytes) {
    forall i :: 0 <= i < |s| ==> s[i] >= 0x20 && s[i] != 0x7F
  }

  lemma RuneIsHarmless(r: rune)
    requires IsKept(r)
    ensures Harmless(EncodeRune(r))
  {
  }

  lemma {:induction false} EncodedIsHarmless(rs: seq<rune>)
    requires forall i :: 0 <= i < |rs| ==> IsKept(rs[i])
    ensures Harmless(Encode(rs))
  {
    if rs != [] {
      EncodedIsHarmless(rs[1..]);
      RuneIsHarmless(rs[0]);
    }
  }

  /** Whatever the bytes, no control byte is left. */
  lemma SanitizedIsHarmless(s: bytes)
    ensures Harmless(Sanitized(s))
  {
    EncodedIsHarmless(Trim(Kept(Runes(s))));
  }

  // ---------------------------------------------------------------- words

  const TWO_TO_THE_64: nat := 0x1_0000_0000_0000_0000

  function Pow256(k: nat): nat {
    if k == 0 then 1 else 256 * Pow256(k - 1)
  }

  /** `n` in k bytes, the highest first. */
  function BigEndian(n: nat, k: nat): (s: bytes)
    ensures |s| == k
  {
    if k == 0 then [] else BigEndian(n / 256, k - 1) + [n % 256]
  }

  function WordValue(s: bytes): nat {
    if s == [] then 0 else WordValue(s[..|s| - 1]) * 256 + s[|s| - 1]
  }

  /** `new(big.Int).SetBytes(s).Uint64()`: the low 64 bits. */
  function Low64(s: bytes): nat {
    WordValue(s) % TWO_TO_THE_64
  }

  lemma {:induction false} ValueOfBigEndian(n: nat, m: nat, k: nat)
    requires n < Pow256(m) && m <= k
    ensures WordValue(BigEndian(n, k)) == n
  {
    if k > 0 {
      var high := BigEndian(n / 256, k - 1);
      assert n / 256 < Pow256(if m > 0 then m - 1 else 0);
      ValueOfBigEndian(n / 256, if m > 0 then m - 1 else 0, k - 1);
      AppendByte(high, n % 256);
    }
  }

  lemma AppendByte(s: bytes, b: byte)
    ensures WordValue(s + [b]) == WordValue(s) * 256 + b
  {
    assert (s + [b])[..|s|] == s;
  }

  lemma Low64OfWord(n: nat)
    requires n < TWO_TO_THE_64
    ensures Low64(BigEndian(n, 32)) == n
  {
    ValueOfBigEndian(n, 8, 32);
  }

  // ---------------------------------------------------------------- decoding

  function Zeros(n: nat): bytes {
    seq(n, i => 0)
  }

  /** `strings.TrimRight(s, "\x00")`. */
  function TrimNuls(s: bytes): (t: bytes)
    ensures t <= s && s == t + Zeros(|s| - |t|)
  {
    if s != [] && s[|s| - 1] == 0 then TrimNuls(s[..|s| - 1]) else s
  }

  function FixedWidth(out: bytes): bytes
    requires |out| >= 32
  {
    Sanitized(TrimNuls(out[..32]))
  }

  function DecodeString(out: bytes): bytes {
    if |out| >= 64 then
      if Low64(out[..32]) == 32 && Low64(out[32..64]) <= |out| - 64 then
        Sanitized(out[64..64 + Low64(out[32..64])])
      else
        FixedWidth(out)
    else if |out| >= 32 then
      FixedWidth(out)
    else
      []
  }

  /** The ABI encoding of a call that returns one string: offset, length, the bytes, padding to whole words. */
  function AbiEncode(s: bytes): bytes {
    BigEndian(32, 32) + BigEndian(|s|, 32) + s + Zeros((32 - |s| % 32) % 32)
  }

  /** Decoding what a contract returned as ABI gives its string, sanitized, whatever else follows in the buffer. */
  lemma DecodeOfAbi(s: bytes, more: bytes)
    requires |s| < TWO_TO_THE_64
    ensures DecodeString(AbiEncode(s) + more) == Sanitized(s)
  {
    Low64OfWord(32);
    Low64OfWord(|s|);
    PartsOf(BigEndian(32, 32), BigEndian(|s|, 32), s, Zeros((32 - |s| % 32) % 32), more);
    DecodeOfParts(AbiEncode(s) + more, s);
  }

  lemma DecodeOfParts(out: bytes, s: bytes)
    requires |out| >= 64 + |s| && out[64..64 + |s|] == s
    requires Low64(out[..32]) == 32 && Low64(out[32..64]) == |s|
    ensures DecodeString(out) == Sanitized(s)
  {
  }

  lemma PartsOf(offset: bytes, length: bytes, s: bytes, padding: bytes, more: bytes)
    requires |offset| == |length| == 32
    ensures var out := offset + length + s + padding + more;
            out[..32] == offset && out[32..64] == length && out[64..64 + |s|] == s
  {
  }

  /** A NUL starts nothing and continues nothing. */
  lemma NulEndsRune(s: bytes, n: nat)
    requires s != []
    ensures DecodeRune(s + Zeros(n)) == DecodeRune(s)
  {
    var t := s + Zeros(n);
    assert forall i :: 0 <= i < |t| ==> t[i] == if i < |s| then s[i] else 0;
  }

  lemma {:induction false} KeptOfNuls(n: nat)
    ensures Kept(Runes(Zeros(n))) == []
  {
    if n > 0 {
      var z := Zeros(n);
      assert DecodeRune(z) == Decoded(0, 1);
      assert z[1..] == Zeros(n - 1);
      KeptOfNuls(n - 1);
      assert Runes(z)[1..] == Runes(Zeros(n - 1));
    }
  }

  lemma {:induction false} PaddingIsDropped(s: bytes, n: nat)
    ensures Kept(Runes(s + Zeros(n))) == Kept(Runes(s))
    decreases |s|
  {
    if s == [] {
      assert s + Zeros(n) == Zeros(n);
      KeptOfNuls(n);
    } else {
      var w := DecodeRune(s).width;
      NulEndsRune(s, n);
      assert (s + Zeros(n))[w..] == s[w..] + Zeros(n);
      PaddingIsDropped(s[w..], n);
      assert Runes(s)[1..] == Runes(s[w..]);
      assert Runes(s + Zeros(n))[1..] == Runes(s[w..] + Zeros(n));
    }
  }

  lemma SanitizedOfPadded(s: bytes, t: bytes)
    requires t <= s && s == t + Zeros(|s| - |t|)
    ensures Sanitized(s) == Sanitized(t)
  {
    PaddingIsDropped(t, |s| - |t|);
  }

  lemma FixedWidthIs(out: bytes, word: bytes)
    requires |out| >= 32 && word == out[..32]
    ensures FixedWidth(out) == Sanitized(word)
  {
    SanitizedOfPadded(word, TrimNuls(word));
  }

  /** The older form, up to 32 bytes padded with NULs: again the text, sanitized, even when it ends mid-rune or in NULs.
      */
  lemma DecodeOfFixed(s: bytes, out: bytes)
    requires |s| <= 32 && out == s + Zeros(32 - |s|)
    ensures DecodeString(out) == Sanitized(s)
  {
    assert out[..32] == out;
    FixedWidthIs(out, out);
    SanitizedOfPadded(out, s);
  }

  /** No input, however malformed, decodes to anything that is not clean. */
  lemma DecodedIsClean(out: bytes)
    ensures Clean(DecodeString(out))
  {
    if |out| >= 64 && Low64(out[..32]) == 32 && Low64(out[32..64]) <= |out| - 64 {
      SanitizedIsClean(out[64..64 + Low64(out[32..64])]);
    } else if |out| >= 32 {
      SanitizedIsClean(TrimNuls(out[..32]));
    }
  }

  /** A length that runs past the buffer makes the offset word itself the text, and that is one space after NULs. */
  lemma OverlongLengthIsEmpty(out: bytes)
    requires |out| >= 64 && out[..32] == BigEndian(32, 32) && Low64(out[32..64]) > |out| - 64
    ensures DecodeString(out) == []
  {
    FixedWidthIs(out, BigEndian(32, 32));
    OffsetWordIsBlank();
  }

  lemma {:induction false} SmallWord(n: nat, k: nat)
    requires n < 256 && k > 0
    ensures BigEndian(n, k) == Zeros(k - 1) + [n]
  {
    if k > 1 {
      SmallWord(0, k - 1);
    }
  }

  lemma {:induction false} NulsThenSpace(n: nat)
    ensures Kept(Runes(Zeros(n) + [0x20])) == [0x20]
  {
    var s: bytes := Zeros(n) + [0x20];
    if n == 0 {
      assert s == [0x20] && s[1..] == [];
      assert Runes(s) == [0x20];
    } else {
      assert DecodeRune(s) == Decoded(0, 1);
      assert s[1..] == Zeros(n - 1) + [0x20];
      NulsThenSpace(n - 1);
      assert Runes(s)[1..] == Runes(s[1..]);
    }
  }

  lemma OffsetWordIsBlank()
    ensures Sanitized(BigEndian(32, 32)) == []
  {
    SmallWord(32, 32);
    NulsThenSpace(31);
    var blank: seq<rune> := [0x20];
    assert IsSpace(blank[0]) && blank[1..] == [];
    assert TrimLeft(blank) == TrimLeft([]);
  }
}
