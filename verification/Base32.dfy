/** Unpadded lower-case base32 (alphabet of section 6 of RFC 4648): the bit-buffer
    encoder and decoder against the regrouping of a bit string. */
module Base32 {
  import opened Arithmetic
  import opened Bits

  // ----- The alphabet -----

  type quint = x: int | 0 <= x < 32

  function Letter(v: quint): char {
    if v < 26 then 'a' + v as char else '2' + (v - 26) as char
  }

  function LowerChar(c: char): char { if 'A' <= c <= 'Z' then c - 'A' + 'a' else c }

  function Lower(s: string): (r: string)
    ensures |r| == |s| && forall i :: 0 <= i < |s| ==> r[i] == LowerChar(s[i])
  {
    seq(|s|, i requires 0 <= i < |s| => LowerChar(s[i]))
  }

  /** The five bits of a character, letters in either case. */
  function LetterValue(c: char): Option<quint> {
    var l := LowerChar(c);
    if 'a' <= l <= 'z' then Some((l - 'a') as int)
    else if '2' <= l <= '7' then Some((l - '2') as int + 26)
    else None
  }

  lemma LetterRoundTrip(v: quint)
    ensures LetterValue(Letter(v)) == Some(v) && LowerChar(Letter(v)) == Letter(v)
  {
  }

  lemma LetterOfValue(c: char)
    requires LetterValue(c).Some?
    ensures Letter(LetterValue(c).value) == LowerChar(c)
  {
  }

  const ALPHABET: string := "abcdefghijklmnopqrstuvwxyz234567"

  /** Letters are the alphabet's, and a character is read as a letter in either case. */
  lemma LettersAre(v: quint)
    ensures |ALPHABET| == 32 && Letter(v) == ALPHABET[v]
    ensures forall c ::
      LetterValue(c) == Some(v) <==> c == ALPHABET[v] || ('A' <= c <= 'Z' && c - 'A' + 'a' == ALPHABET[v])
  {
  }

  predicate AllLetters(s: string) {
    forall i :: 0 <= i < |s| ==> LetterValue(s[i]).Some?
  }

  function Quints(s: string): (r: seq<quint>)
    requires AllLetters(s)
    ensures |r| == |s| && forall i :: 0 <= i < |s| ==> r[i] == LetterValue(s[i]).value
  {
    seq(|s|, i requires 0 <= i < |s| => LetterValue(s[i]).value)
  }

  function Text(q: seq<quint>): (s: string)
    ensures |s| == |q| && forall i :: 0 <= i < |q| ==> s[i] == Letter(q[i])
  {
    seq(|q|, i requires 0 <= i < |q| => Letter(q[i]))
  }

  lemma TextRoundTrip(q: seq<quint>)
    ensures AllLetters(Text(q)) && Quints(Text(q)) == q && Lower(Text(q)) == Text(q)
  {
    forall i | 0 <= i < |q|
      ensures LetterValue(Text(q)[i]) == Some(q[i]) && LowerChar(Text(q)[i]) == Text(q)[i]
    {
      LetterRoundTrip(q[i]);
    }
  }

  lemma TextOfQuints(s: string)
    requires AllLetters(s)
    ensures Text(Quints(s)) == Lower(s)
  {
    forall i | 0 <= i < |s| ensures Text(Quints(s))[i] == Lower(s)[i] {
      LetterOfValue(s[i]);
    }
  }

  // ----- Bit strings -----

  ghost function ByteBits(b: seq<byte>): (s: seq<bool>)
    ensures |s| == 8 * |b|
  {
    if b == [] then [] else ByteBits(b[..|b| - 1]) + BitsOf(b[|b| - 1], 8)
  }

  ghost function QuintBits(q: seq<quint>): (s: seq<bool>)
    ensures |s| == 5 * |q|
  {
    if q == [] then [] else QuintBits(q[..|q| - 1]) + BitsOf(q[|q| - 1], 5)
  }

  ghost function Zeros(n: nat): (s: seq<bool>)
    ensures |s| == n
  {
    seq(n, _ => false)
  }

  /** The five-bit groups are the bits of the bytes with fewer than five zero bits behind them. */
  ghost predicate Encodes(q: seq<quint>, b: seq<byte>) {
    var padding := 5 * |q| - 8 * |b|;
    0 <= padding < 5 && QuintBits(q) == ByteBits(b) + Zeros(padding)
  }

  // ----- As numbers -----

  /** The number that big-endian digits denote. */
  ghost function Number(digits: seq<nat>, base: nat): nat {
    if digits == [] then 0 else Number(digits[..|digits| - 1], base) * base + digits[|digits| - 1]
  }

  lemma {:induction false} BytesAsNumber(b: seq<byte>)
    ensures ValueOf(ByteBits(b)) == Number(b, 256)
  {
    hide BitsOf;
    if b != [] {
      var n := |b| - 1;
      BytesAsNumber(b[..n]);
      ValueOfConcat(ByteBits(b[..n]), BitsOf(b[n], 8));
      assert Pow2(8) == 256;
      ValueOfBitsOf(b[n], 8);
    }
  }

  lemma {:induction false} QuintsAsNumber(q: seq<quint>)
    ensures ValueOf(QuintBits(q)) == Number(q, 32)
  {
    hide BitsOf;
    if q != [] {
      var n := |q| - 1;
      QuintsAsNumber(q[..n]);
      ValueOfConcat(QuintBits(q[..n]), BitsOf(q[n], 5));
      assert Pow2(5) == 32;
      ValueOfBitsOf(q[n], 5);
    }
  }

  lemma {:induction false} ZerosAreNothing(n: nat)
    ensures ValueOf(Zeros(n)) == 0
  {
    if n > 0 {
      ZerosAreNothing(n - 1);
      assert Zeros(n)[..n - 1] == Zeros(n - 1);
    }
  }

  /** Base32 is a change of base: the digits are those of the bytes' number, shifted to whole digits. */
  lemma EncodesNumber(q: seq<quint>, b: seq<byte>)
    requires Encodes(q, b)
    ensures |q| == (8 * |b| + 4) / 5
    ensures Number(q, 32) == Number(b, 256) * Pow2(5 * |q| - 8 * |b|)
  {
    hide ValueOf, QuintBits, ByteBits, Number;
    var padding := 5 * |q| - 8 * |b|;
    BytesAsNumber(b);
    QuintsAsNumber(q);
    ValueOfConcat(ByteBits(b), Zeros(padding));
    ZerosAreNothing(padding);
  }

  lemma {:induction false} ByteBitsUnique(a: seq<byte>, b: seq<byte>)
    requires ByteBits(a) == ByteBits(b)
    ensures a == b
  {
    assert 8 * |a| == 8 * |b|;
    if a != [] {
      var n := |a| - 1;
      var x, y := ByteBits(a), ByteBits(b);
      assert x[..8 * n] == ByteBits(a[..n]) && y[..8 * n] == ByteBits(b[..n]);
      assert x[8 * n..] == BitsOf(a[n], 8) && y[8 * n..] == BitsOf(b[n], 8);
      ByteBitsUnique(a[..n], b[..n]);
      BitsUnique(a[n], b[n], 8);
      assert a == a[..n] + [a[n]] && b == b[..n] + [b[n]];
    }
  }

  lemma {:induction false} QuintBitsUnique(a: seq<quint>, b: seq<quint>)
    requires QuintBits(a) == QuintBits(b)
    ensures a == b
  {
    assert 5 * |a| == 5 * |b|;
    if a != [] {
      var n := |a| - 1;
      var x, y := QuintBits(a), QuintBits(b);
      assert x[..5 * n] == QuintBits(a[..n]) && y[..5 * n] == QuintBits(b[..n]);
      assert x[5 * n..] == BitsOf(a[n], 5) && y[5 * n..] == BitsOf(b[n], 5);
      QuintBitsUnique(a[..n], b[..n]);
      BitsUnique(a[n], b[n], 5);
      assert a == a[..n] + [a[n]] && b == b[..n] + [b[n]];
    }
  }

  lemma BitsUnique(v: nat, w: nat, n: nat)
    requires v < Pow2(n) && w < Pow2(n) && BitsOf(v, n) == BitsOf(w, n)
    ensures v == w
  {
    ValueOfBitsOf(v, n);
    ValueOfBitsOf(w, n);
  }

  /** The groups determine the bytes, and the bytes the groups. */
  lemma EncodesUnique(q: seq<quint>, b: seq<byte>, q': seq<quint>, b': seq<byte>)
    requires Encodes(q, b) && Encodes(q', b')
    ensures q == q' <==> b == b'
  {
    if q == q' {
      assert |b| == |b'|;
      assert QuintBits(q)[..8 * |b|] == ByteBits(b) && QuintBits(q')[..8 * |b'|] == ByteBits(b');
      ByteBitsUnique(b, b');
    }
    if b == b' {
      assert |q| == |q'|;
      QuintBitsUnique(q, q');
    }
  }

  // ----- Reference codec -----

  ghost function QuintOf(s: seq<bool>): (q: quint)
    requires |s| == 5
    ensures BitsOf(q, 5) == s
  {
    ValueBound(s);
    assert Pow2(5) == 32;
    BitsOfValueOf(s);
    ValueOf(s)
  }

  /** Cut a bit string into five-bit groups. */
  ghost function Grouped(s: seq<bool>): (q: seq<quint>)
    requires |s| % 5 == 0
    ensures QuintBits(q) == s
    decreases |s|
  {
    if s == [] then []
    else
      var n := |s| - 5;
      AppendQuint(Grouped(s[..n]), QuintOf(s[n..]));
      assert s == s[..n] + s[n..];
      Grouped(s[..n]) + [QuintOf(s[n..])]
  }

  /** The lower-case text of a byte string. */
  ghost function Encoded(b: seq<byte>): (t: string)
    ensures AllLetters(t) && Lower(t) == t && Encodes(Quints(t), b)
  {
    var padding := (5 - 8 * |b| % 5) % 5;
    var q := Grouped(ByteBits(b) + Zeros(padding));
    TextRoundTrip(q);
    Text(q)
  }

  /** The text is the base32 form of some bytes, in either case. */
  ghost predicate Accepted(t: string) {
    AllLetters(t) && exists b: seq<byte> :: Encodes(Quints(t), b)
  }

  ghost function Decoded(t: string): (r: Option<seq<byte>>)
    ensures r.Some? <==> Accepted(t)
    ensures r.Some? ==> Encodes(Quints(t), r.value)
  {
    if Accepted(t) then var b: seq<byte> :| Encodes(Quints(t), b); Some(b) else None
  }

  /** The text of a byte string, letter by letter. */
  lemma EncodedIs(b: seq<byte>)
    ensures var t := Encoded(b);
      && |t| == (8 * |b| + 4) / 5
      && Number(Quints(t), 32) == Number(b, 256) * Pow2(5 * |t| - 8 * |b|)
      && forall i :: 0 <= i < |t| ==> t[i] == ALPHABET[Quints(t)[i]]
  {
    hide Encodes, Encoded, Number;
    var t := Encoded(b);
    EncodesNumber(Quints(t), b);
    forall i | 0 <= i < |t| ensures t[i] == ALPHABET[Quints(t)[i]] {
      LetterOfValue(t[i]);
      LettersAre(Quints(t)[i]);
      assert Lower(t)[i] == t[i];
    }
  }

  lemma SameLettersLower(t: string)
    ensures AllLetters(Lower(t)) <==> AllLetters(t)
    ensures AllLetters(t) ==> Quints(Lower(t)) == Quints(t)
  {
    forall i | 0 <= i < |t| ensures LetterValue(Lower(t)[i]) == LetterValue(t[i]) {
      assert LowerChar(LowerChar(t[i])) == LowerChar(t[i]);
    }
  }

  /** Decoding does not look at the case of letters. */
  lemma DecodedLower(t: string)
    ensures Decoded(Lower(t)) == Decoded(t)
  {
    hide Encodes, Lower, Quints, AllLetters;
    SameLettersLower(t);
    if Accepted(t) {
      EncodesUnique(Quints(t), Decoded(t).value, Quints(t), Decoded(Lower(t)).value);
    }
  }

  /** Decoding an encoding gives the bytes back. */
  lemma DecodeEncoded(b: seq<byte>)
    ensures Decoded(Encoded(b)) == Some(b)
  {
    hide Encodes, Encoded, Decoded;
    var t := Encoded(b);
    assert Accepted(t);
    EncodesUnique(Quints(t), b, Quints(t), Decoded(t).value);
  }

  /** Encoding what an accepted text decodes to gives the text in lower case. */
  lemma EncodeDecoded(t: string)
    requires Accepted(t)
    ensures Encoded(Decoded(t).value) == Lower(t)
  {
    hide Encodes, Encoded, Decoded;
    var b := Decoded(t).value;
    EncodesUnique(Quints(t), b, Quints(Encoded(b)), b);
    TextOfQuints(t);
    TextOfQuints(Encoded(b));
  }

  lemma EncodedUnique(t: string, b: seq<byte>)
    requires AllLetters(t) && Lower(t) == t && Encodes(Quints(t), b)
    ensures t == Encoded(b)
  {
    hide Encodes, Encoded;
    EncodesUnique(Quints(t), b, Quints(Encoded(b)), b);
    TextOfQuints(t);
    TextOfQuints(Encoded(b));
  }

  // ----- Buffer arithmetic -----

  lemma AppendByte(b: seq<byte>, x: byte)
    ensures ByteBits(b + [x]) == ByteBits(b) + BitsOf(x, 8)
  {
    assert (b + [x])[..|b + [x]| - 1] == b;
  }

  lemma AppendQuint(q: seq<quint>, x: quint)
    ensures QuintBits(q + [x]) == QuintBits(q) + BitsOf(x, 5)
  {
    assert (q + [x])[..|q + [x]| - 1] == q;
  }

  lemma PushByte(buffer: nat, bits: nat, x: byte)
    ensures BitsOf(256 * buffer + x, bits + 8) == BitsOf(buffer, bits) + BitsOf(x, 8)
  {
    assert Pow2(8) == 256;
    BitsOfShift(buffer, bits, x, 8);
  }

  lemma PushQuint(buffer: nat, bits: nat, x: quint)
    ensures BitsOf(32 * buffer + x, bits + 5) == BitsOf(buffer, bits) + BitsOf(x, 5)
  {
    assert Pow2(5) == 32;
    BitsOfShift(buffer, bits, x, 5);
  }

  // ----- The encoder -----

  /** Emit whole groups from the buffer; `fewer` bits stay behind. */
  method EmitQuints(output: seq<quint>, buffer: nat, bits: nat) returns (more: seq<quint>, fewer: nat)
    ensures fewer < 5
    ensures QuintBits(more) + BitsOf(buffer, fewer) == QuintBits(output) + BitsOf(buffer, bits)
  {
    hide BitsOf, ShiftRight, QuintBits;
    more, fewer := output, bits;
    while fewer >= 5
      invariant QuintBits(more) + BitsOf(buffer, fewer) == QuintBits(output) + BitsOf(buffer, bits)
    {
      fewer := fewer - 5;
      TakeQuint(buffer, fewer);
      AppendQuint(more, Low5(ShiftRight(buffer, fewer)));
      more := more + [Low5(ShiftRight(buffer, fewer))];
    }
  }

  /** The buffer never exceeds twelve bits, so its 32-bit shifts lose nothing. */
  method Base32Encode(bytes: seq<byte>) returns (text: string)
    ensures text == Encoded(bytes)
  {
    hide BitsOf, Encoded, LowBits, QuintBits, ByteBits, Pow2;
    var output: seq<quint> := [];
    var buffer: nat, bits: nat := 0, 0;
    StartBits();
    var i := 0;
    while i < |bytes|
      invariant i <= |bytes| && bits < 5 && buffer < 16
      invariant QuintBits(output) + BitsOf(buffer, bits) == ByteBits(bytes[..i])
    {
      assert bytes[..i + 1] == bytes[..i] + [bytes[i]];
      AppendByte(bytes[..i], bytes[i]);
      PushByte(buffer, bits, bytes[i]);
      buffer := 256 * buffer + bytes[i];
      assert buffer < 4096;
      output, bits := EmitQuints(output, buffer, bits + 8);
      MaskKeepsBits(buffer, bits);
      SmallMask(buffer, bits);
      buffer := LowBits(buffer, bits);
      i := i + 1;
    }
    assert bytes[..i] == bytes;
    if bits != 0 {
      PadQuint(buffer, bits);
      AppendQuint(output, Low5(buffer * Pow2(5 - bits)));
      output := output + [Low5(buffer * Pow2(5 - bits))];
    } else {
      NoBits(buffer);
    }
    text := Text(output);
    TextRoundTrip(output);
    EncodedUnique(text, bytes);
  }

  lemma SmallMask(v: nat, n: nat)
    requires n <= 4
    ensures LowBits(v, n) < 16
  {
    Pow2Monotone(n, 4);
    assert Pow2(4) == 16;
  }

  /** `v & 0x1f` */
  function Low5(v: nat): quint { v % 32 }

  lemma Low5Bits(v: nat)
    ensures BitsOf(Low5(v), 5) == BitsOf(v, 5)
  {
    MaskKeepsBits(v, 5);
    ShiftMask(v, 5);
    assert Pow2(5) == 32;
    DivisionUnique(v, 32, ShiftRight(v, 5), LowBits(v, 5));
  }

  lemma TakeQuint(buffer: nat, bits: nat)
    ensures BitsOf(buffer, bits + 5) == BitsOf(Low5(ShiftRight(buffer, bits)), 5) + BitsOf(buffer, bits)
  {
    hide BitsOf, ShiftRight;
    SplitBits(buffer, 5, bits);
    Low5Bits(ShiftRight(buffer, bits));
  }

  /** The last, short group is shifted up and filled with zero bits. */
  lemma PadQuint(buffer: nat, bits: nat)
    requires 0 < bits < 5
    ensures BitsOf(Low5(buffer * Pow2(5 - bits)), 5) == BitsOf(buffer, bits) + Zeros(5 - bits)
  {
    hide BitsOf;
    Low5Bits(buffer * Pow2(5 - bits));
    BitsOfShift(buffer, bits, 0, 5 - bits);
    BitsOfZero(5 - bits);
  }

  lemma {:induction false} BitsOfZero(n: nat)
    ensures BitsOf(0, n) == Zeros(n)
  {
    if n > 0 {
      BitsOfZero(n - 1);
    }
  }

  lemma StartBits()
    ensures QuintBits([]) + BitsOf(0, 0) == ByteBits([]) == []
  {
  }

  lemma NoBits(buffer: nat)
    ensures BitsOf(buffer, 0) == Zeros(0)
  {
  }

  // ----- The decoder -----

  /** One more group: it goes into the buffer, and a full byte from there to the output. */
  method TakeGroup(output: seq<byte>, buffer: nat, bits: nat, value: quint)
    returns (more: seq<byte>, rest: nat, left: nat)
    requires bits < 8 && buffer < Pow2(bits)
    ensures left < 8 && rest < Pow2(left) && (left == 0 ==> rest == 0)
    ensures ByteBits(more) + BitsOf(rest, left) == ByteBits(output) + BitsOf(buffer, bits) + BitsOf(value, 5)
  {
    hide BitsOf, LowBits, ShiftRight, ByteBits, Pow2;
    PushQuint(buffer, bits, value);
    PushBound(buffer, bits, value);
    ghost var all := ByteBits(output) + BitsOf(buffer, bits) + BitsOf(value, 5);
    more, rest, left := output, 32 * buffer + value, bits + 5;
    assert ByteBits(more) + BitsOf(rest, left) == all;
    if left >= 8 {
      left := left - 8;
      TakeByte(rest, left);
      AppendByte(output, ShiftRight(rest, left));
      more := output + [ShiftRight(rest, left)];
      assert ByteBits(more) + BitsOf(rest, left) == all;
      MaskKeepsBits(rest, left);
      NoLowBits(rest);
      rest := LowBits(rest, left);
    }
  }

  /** Decoding finds the bytes a text encodes, in either case, and fails exactly
      when there are none. */
  method Base32Decode(text: string) returns (r: Option<seq<byte>>)
    ensures r == Decoded(text)
  {
    hide BitsOf, LowBits, ShiftRight, QuintBits, ByteBits, Pow2, LetterValue, Encodes, Decoded;
    var output: seq<byte> := [];
    var buffer: nat, bits: nat := 0, 0;
    ghost var q: seq<quint> := [];
    StartBits();
    var i := 0;
    while i < |text|
      invariant i <= |text| && bits < 8 && buffer < Pow2(bits) && (bits == 0 ==> buffer == 0)
      invariant |q| == i && forall j :: 0 <= j < i ==> LetterValue(text[j]) == Some(q[j])
      invariant ByteBits(output) + BitsOf(buffer, bits) == QuintBits(q)
    {
      var value := LetterValue(text[i]);
      if value.None? {
        return None;
      }
      AppendQuint(q, value.value);
      q := q + [value.value];
      output, buffer, bits := TakeGroup(output, buffer, bits, value.value);
      i := i + 1;
    }
    assert q == Quints(text);
    if bits >= 5 || (bits > 0 && buffer != 0) {
      forall b: seq<byte> ensures !Encodes(q, b) { LeftoverRejects(q, output, buffer, bits, b); }
      return None;
    }
    LeftoverAccepts(q, output, buffer, bits);
    assert Accepted(text);
    EncodesUnique(q, output, q, Decoded(text).value);
    return Some(output);
  }

  lemma PushBound(buffer: nat, bits: nat, x: quint)
    requires buffer < Pow2(bits)
    ensures 32 * buffer + x < Pow2(bits + 5)
  {
    Pow2Add(bits, 5);
    assert Pow2(5) == 32;
  }

  lemma NoLowBits(v: nat)
    ensures LowBits(v, 0) == 0
  {
  }

  /** The byte taken out fits eight bits. */
  lemma TakeByte(buffer: nat, bits: nat)
    requires buffer < Pow2(bits + 8)
    ensures ShiftRight(buffer, bits) < 256
    ensures BitsOf(buffer, bits + 8) == BitsOf(ShiftRight(buffer, bits), 8) + BitsOf(buffer, bits)
  {
    SplitBits(buffer, 8, bits);
    ShiftBound(buffer, bits, 8);
    assert Pow2(8) == 256;
  }

  lemma {:induction false} ShiftBound(v: nat, n: nat, m: nat)
    requires v < Pow2(n + m)
    ensures ShiftRight(v, n) < Pow2(m)
  {
    if n > 0 {
      ShiftBound(v / 2, n - 1, m);
    }
  }

  lemma LeftoverAccepts(q: seq<quint>, output: seq<byte>, buffer: nat, bits: nat)
    requires bits < 5 && buffer == 0 && ByteBits(output) + BitsOf(buffer, bits) == QuintBits(q)
    ensures Encodes(q, output)
  {
    BitsOfZero(bits);
  }

  lemma LeftoverRejects(q: seq<quint>, output: seq<byte>, buffer: nat, bits: nat, b: seq<byte>)
    requires bits < 8 && buffer < Pow2(bits) && ByteBits(output) + BitsOf(buffer, bits) == QuintBits(q)
    requires bits >= 5 || buffer != 0
    ensures !Encodes(q, b)
  {
    hide BitsOf;
    if Encodes(q, b) {
      var n := 8 * |output|;
      assert |b| == |output|;
      assert QuintBits(q)[n..] == BitsOf(buffer, bits) == Zeros(bits);
      BitsOfZero(bits);
      ValueOfBitsOf(buffer, bits);
      ValueOfBitsOf(0, bits);
    }
  }
}
