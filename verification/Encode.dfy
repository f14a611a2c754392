/** Binary data as base64 text, section 4 of RFC 4648. */
module Encode {
  import opened Wrappers

  type Byte = x: int | 0 <= x < 256

  type Sextet = x: int | 0 <= x < 64

  const PAD := '='

  predicate Ascii(s: string) {
    forall i | 0 <= i < |s| :: s[i] < 128 as char
  }

  // ----- The base64 alphabet -----

  /** Upper case, lower case, digits, plus and slash. */
  function Letter(v: Sextet): char {
    if v < 26 then 'A' + v as char
    else if v < 52 then 'a' + (v - 26) as char
    else if v < 62 then '0' + (v - 52) as char
    else if v == 62 then '+' else '/'
  }

  /** The value of a letter in the decode table. */
  function LetterValue(c: char): Option<Sextet> {
    if 'A' <= c <= 'Z' then Some(c as int - 'A' as int)
    else if 'a' <= c <= 'z' then Some(c as int - 'a' as int + 26)
    else if '0' <= c <= '9' then Some(c as int - '0' as int + 52)
    else if c == '+' then Some(62)
    else if c == '/' then Some(63)
    else None
  }

  // ----- Base64 text -----

  /** Letters of a group of three bytes, as the four sextets of a 24-bit number. */
  function Quantum(a: Byte, b: Byte, c: Byte): (q: seq<Sextet>)
    ensures |q| == 4
  {
    var n := a * 65536 + b * 256 + c;
    [n / 262144, n / 4096 % 64, n / 64 % 64, n % 64]
  }

  function Base64(s: seq<Byte>): string {
    if |s| == 0 then ""
    else if |s| == 1 then
      var q := Quantum(s[0], 0, 0);
      [Letter(q[0]), Letter(q[1]), PAD, PAD]
    else if |s| == 2 then
      var q := Quantum(s[0], s[1], 0);
      [Letter(q[0]), Letter(q[1]), Letter(q[2]), PAD]
    else
      var q := Quantum(s[0], s[1], s[2]);
      [Letter(q[0]), Letter(q[1]), Letter(q[2]), Letter(q[3])] + Base64(s[3..])
  }

  /** The sextets of a group, byte by byte. */
  lemma QuantumBits(a: Byte, b: Byte, c: Byte)
    ensures Quantum(a, b, c) == [a / 4, a % 4 * 16 + b / 16, b % 16 * 4 + c / 64, c % 64]
  {
    SextetsGiveBytes(a, b, c);
    SextetDigits(a / 4, a % 4 * 16 + b / 16, b % 16 * 4 + c / 64, c % 64);
  }

  lemma SextetDigits(v0: Sextet, v1: Sextet, v2: Sextet, v3: Sextet)
    ensures var n := v0 * 262144 + v1 * 4096 + v2 * 64 + v3;
            n / 262144 == v0 && n / 4096 % 64 == v1 && n / 64 % 64 == v2 && n % 64 == v3
  {
    DivMod(v0, v1 * 4096 + v2 * 64 + v3, 262144);
    DivMod(v0 * 64 + v1, v2 * 64 + v3, 4096);
    DivMod(v0 * 4096 + v1 * 64 + v2, v3, 64);
    DivMod(v0, v1, 64);
    DivMod(v0 * 64 + v1, v2, 64);
  }

  lemma DivMod(q: nat, r: nat, m: nat)
    requires r < m && m in {4, 16, 64, 256, 4096, 65536, 262144}
    ensures (q * m + r) / m == q && (q * m + r) % m == r
  {
  }

  lemma SextetsGiveBytes(a: Byte, b: Byte, c: Byte)
    ensures a / 4 * 262144 + (a % 4 * 16 + b / 16) * 4096 + (b % 16 * 4 + c / 64) * 64 + c % 64 == a * 65536 + b * 256 + c
  {
  }

  lemma ByteDigits(a: Byte, b: Byte, c: Byte)
    ensures var n := a * 65536 + b * 256 + c; n / 65536 == a && n / 256 % 256 == b && n % 256 == c
  {
  }

  function SizeBase64(size: nat): nat {
    (size / 3 + if size % 3 != 0 then 1 else 0) * 4
  }

  /** The size is exact. */
  lemma {:induction false} Base64Size(s: seq<Byte>)
    ensures |Base64(s)| == SizeBase64(|s|)
  {
    hide Quantum;
    hide Letter;
    if |s| >= 3 {
      Base64Size(s[3..]);
    }
  }

  /** What is left after `n` bytes. */
  function From(s: seq<Byte>, n: nat): seq<Byte> {
    if n < |s| then s[n..] else []
  }

  lemma FromFrom(s: seq<Byte>, i: nat)
    requires i < |s|
    ensures From(From(s, i), 3) == From(s, i + 3)
  {
  }

  /** The letters of the first group of three bytes or less, made with shifts and masks. */
  function FirstFour(s: seq<Byte>): (r: string)
    requires s != []
    ensures |r| == 4
  {
    [Letter(s[0] / 4),
     Letter(s[0] % 4 * 16 + if |s| == 1 then 0 else s[1] / 16),
     if |s| == 1 then PAD else Letter(s[1] % 16 * 4 + if |s| == 2 then 0 else s[2] / 64),
     if |s| <= 2 then PAD else Letter(s[2] % 64)]
  }

  lemma FirstFourIsFirst(s: seq<Byte>)
    requires s != []
    ensures Base64(s) == FirstFour(s) + Base64(From(s, 3))
  {
    hide Quantum;
    hide Letter;
    QuantumBits(s[0], if |s| == 1 then 0 else s[1], if |s| <= 2 then 0 else s[2]);
    if |s| == 3 {
      assert s[3..] == [];
    }
  }

  /** The first group of three bytes or less. */
  method EncodeGroup(s: seq<Byte>) returns (c0: char, c1: char, c2: char, c3: char)
    requires s != []
    ensures Base64(s) == [c0, c1, c2, c3] + Base64(From(s, 3))
  {
    hide Letter;
    hide Base64;
    c0 := Letter(s[0] / 4);
    if |s| == 1 {
      c1, c2, c3 := Letter(s[0] % 4 * 16), PAD, PAD;
    } else {
      c1 := Letter(s[0] % 4 * 16 + s[1] / 16);
      if |s| == 2 {
        c2, c3 := Letter(s[1] % 16 * 4), PAD;
      } else {
        c2, c3 := Letter(s[1] % 16 * 4 + s[2] / 64), Letter(s[2] % 64);
      }
    }
    FirstFourIsFirst(s);
  }

  method WriteFour(destination: array<char>, d: nat, c0: char, c1: char, c2: char, c3: char)
    requires d + 4 <= destination.Length
    modifies destination
    ensures destination[..d + 4] == old(destination[..d]) + [c0, c1, c2, c3]
    ensures destination[d + 4..] == old(destination[d + 4..])
  {
    destination[d], destination[d + 1], destination[d + 2], destination[d + 3] := c0, c1, c2, c3;
    assert destination[..d + 4] == destination[..d] + [c0, c1, c2, c3];
  }

  /** Writes the text and a terminating zero, and nothing behind it. */
  method EncodeBase64(source: seq<Byte>, destination: array<char>)
    requires destination.Length > SizeBase64(|source|)
    modifies destination
    ensures destination[..SizeBase64(|source|)] == Base64(source)
    ensures destination[SizeBase64(|source|)] == 0 as char
    ensures destination[SizeBase64(|source|) + 1..] == old(destination[SizeBase64(|source|) + 1..])
  {
    hide Base64;
    var i, d := 0, 0;
    Base64Size(source);
    ghost var text := Base64(source);
    assert From(source, 0) == source && destination[..0] == [];
    while i < |source|
      invariant 0 <= i && 0 <= d <= |text| && text == destination[..d] + Base64(From(source, i))
      invariant destination[|text|..] == old(destination[|text|..])
      decreases |source| - i
    {
      var c0, c1, c2, c3 := EncodeGroup(From(source, i));
      FromFrom(source, i);
      WriteFour(destination, d, c0, c1, c2, c3);
      assert destination[|text|..] == destination[d + 4..][|text| - d - 4..];
      assert old(destination[|text|..]) == old(destination[d + 4..])[|text| - d - 4..];
      i := i + 3;
      d := d + 4;
    }
    assert Base64([]) == "" by {
      NoText();
    }
    destination[d] := 0 as char;
    assert destination[..d] == text;
    assert destination[d + 1..] == old(destination[|text|..])[1..];
  }

  lemma NoText()
    ensures Base64([]) == ""
  {
  }

  // ----- Validation -----

  predicate IsLetter(c: char) {
    LetterValue(c).Some?
  }

  /** Groups of four letters, of which the last one or two may be padding. */
  predicate IsBase64(s: string) {
    && |s| % 4 == 0
    && (forall i | 0 <= i < |s| - 2 :: IsLetter(s[i]))
    && (s != "" ==>
        && (IsLetter(s[|s| - 2]) || s[|s| - 2] == PAD)
        && (IsLetter(s[|s| - 1]) || s[|s| - 1] == PAD)
        && (s[|s| - 2] == PAD ==> s[|s| - 1] == PAD))
  }

  datatype Problem = BadSize | EarlyPadding | LonePadding | BadCharacter(pos: nat)

  method ValidateBase64(source: string) returns (problem: Option<Problem>)
    requires Ascii(source)
    ensures problem == None <==> IsBase64(source)
    ensures problem == Some(BadSize) <==> |source| % 4 != 0
  {
    var size := |source|;
    if size % 4 != 0 {
      return Some(BadSize);
    }
    var i := 0;
    while i < size
      invariant 0 <= i <= size
      invariant forall k | 0 <= k < i && k < size - 2 :: IsLetter(source[k])
      invariant i > size - 2 && size > 0 ==> IsLetter(source[size - 2]) || source[size - 2] == PAD
      invariant i > size - 2 && size > 0 && source[size - 2] == PAD ==> source[size - 1] == PAD
      invariant i > size - 1 && size > 0 ==> IsLetter(source[size - 1]) || source[size - 1] == PAD
    {
      if source[i] == PAD {
        if i < size - 2 {
          return Some(EarlyPadding);
        }
        if i == size - 2 && source[size - 1] != PAD {
          return Some(LonePadding);
        }
      } else if LetterValue(source[i]) == None {
        return Some(BadCharacter(i));
      }
      i := i + 1;
    }
    problem := None;
  }

  lemma LettersAreLetters()
    ensures forall v: Sextet :: IsLetter(Letter(v)) && Letter(v) < 128 as char
  {
  }

  lemma Base64Append(head: string, rest: string)
    requires |head| == 4 && (forall i | 0 <= i < 4 :: IsLetter(head[i]) && head[i] < 128 as char)
    requires IsBase64(rest) && Ascii(rest)
    ensures IsBase64(head + rest) && Ascii(head + rest)
  {
  }

  /** What is encoded is accepted. */
  lemma {:induction false} EncodedIsBase64(s: seq<Byte>)
    ensures IsBase64(Base64(s)) && Ascii(Base64(s))
  {
    hide Quantum;
    hide Letter;
    hide LetterValue;
    LettersAreLetters();
    if |s| >= 3 {
      EncodedIsBase64(s[3..]);
      var q := Quantum(s[0], s[1], s[2]);
      Base64Append([Letter(q[0]), Letter(q[1]), Letter(q[2]), Letter(q[3])], Base64(s[3..]));
    }
  }

  // ----- Decoding -----

  function SextetOf(c: char): Sextet {
    match LetterValue(c)
    case Some(v) => v
    case None => 0
  }

  /** The bytes of a group of four letters. */
  function DecodeQuantum(s: string): seq<Byte>
    requires |s| == 4
  {
    var n := SextetOf(s[0]) * 262144 + SextetOf(s[1]) * 4096 + SextetOf(s[2]) * 64 + SextetOf(s[3]);
    if s[2] == PAD then [n / 65536]
    else if s[3] == PAD then [n / 65536, n / 256 % 256]
    else [n / 65536, n / 256 % 256, n % 256]
  }

  function Decoded(s: string): seq<Byte>
    requires |s| % 4 == 0
  {
    if s == "" then [] else DecodeQuantum(s[..4]) + Decoded(s[4..])
  }

  lemma QuantumRoundTrip(a: Byte, b: Byte, c: Byte)
    ensures var q := Quantum(a, b, c);
            DecodeQuantum([Letter(q[0]), Letter(q[1]), Letter(q[2]), Letter(q[3])]) == [a, b, c]
    ensures var q := Quantum(a, b, 0); DecodeQuantum([Letter(q[0]), Letter(q[1]), Letter(q[2]), PAD]) == [a, b]
    ensures var q := Quantum(a, 0, 0); DecodeQuantum([Letter(q[0]), Letter(q[1]), PAD, PAD]) == [a]
  {
    QuantumBits(a, b, c);
    QuantumBits(a, b, 0);
    QuantumBits(a, 0, 0);
    hide Quantum;
    hide Letter;
    hide LetterValue;
    LettersRoundTrip(Quantum(a, b, c));
    LettersRoundTrip(Quantum(a, b, 0));
    LettersRoundTrip(Quantum(a, 0, 0));
    PadIsNoLetter();
    SextetsGiveBytes(a, b, c);
    SextetsGiveBytes(a, b, 0);
    SextetsGiveBytes(a, 0, 0);
    ByteDigits(a, b, c);
    ByteDigits(a, b, 0);
    ByteDigits(a, 0, 0);
  }

  lemma PadIsNoLetter()
    ensures LetterValue(PAD) == None
  {
  }

  lemma LettersRoundTrip(q: seq<Sextet>)
    ensures forall i | 0 <= i < |q| :: SextetOf(Letter(q[i])) == q[i] && Letter(q[i]) != PAD
  {
  }

  /** Decoding undoes encoding. */
  lemma {:induction false} DecodeUndoesEncode(s: seq<Byte>)
    ensures |Base64(s)| % 4 == 0 && Decoded(Base64(s)) == s
  {
    hide Quantum;
    hide Letter;
    hide DecodeQuantum;
    Base64Size(s);
    var text := Base64(s);
    if |s| == 0 {
    } else if |s| <= 2 {
      QuantumRoundTrip(s[0], if |s| == 2 then s[1] else 0, 0);
      assert text[..4] == text && text[4..] == "";
    } else {
      QuantumRoundTrip(s[0], s[1], s[2]);
      Base64Size(s[3..]);
      DecodeUndoesEncode(s[3..]);
      var q := Quantum(s[0], s[1], s[2]);
      assert text[..4] == [Letter(q[0]), Letter(q[1]), Letter(q[2]), Letter(q[3])];
      assert text[4..] == Base64(s[3..]);
    }
  }

  /** The bytes of a group from the sextets of its letters. Each byte is made of parts of two sextets. */
  lemma DecodeBits(s: string)
    requires |s| == 4
    ensures var v0: int, v1: int, v2: int, v3: int := SextetOf(s[0]), SextetOf(s[1]), SextetOf(s[2]), SextetOf(s[3]);
            var first, second, third := v0 * 4 + v1 / 16, v1 % 16 * 16 + v2 / 4, v2 % 4 * 64 + v3;
            DecodeQuantum(s) == if s[2] == PAD then [first] else if s[3] == PAD then [first, second] else [first, second, third]
  {
    hide LetterValue;
    var v0: int, v1: int, v2: int, v3: int := SextetOf(s[0]), SextetOf(s[1]), SextetOf(s[2]), SextetOf(s[3]);
    var a, b, c := v0 * 4 + v1 / 16, v1 % 16 * 16 + v2 / 4, v2 % 4 * 64 + v3;
    assert v1 == v1 / 16 * 16 + v1 % 16 && v2 == v2 / 4 * 4 + v2 % 4;
    assert v0 * 262144 + v1 * 4096 + v2 * 64 + v3 == a * 65536 + b * 256 + c;
    ByteDigits(a, b, c);
  }

  /** The number of bytes that a text stands for. */
  function DecodedSize(s: string): nat
    requires |s| % 4 == 0 && s != ""
  {
    |s| / 4 * 3 - if s[|s| - 1] != PAD then 0 else if s[|s| - 2] != PAD then 1 else 2
  }

  lemma Base64HasNoEarlyPad(s: string)
    requires IsBase64(s)
    ensures forall i | 0 <= i < |s| - 2 :: s[i] != PAD
  {
  }

  lemma TailIsBase64(s: string)
    requires IsBase64(s) && s != ""
    ensures IsBase64(s[4..])
  {
  }

  /** The size function is exact for every text that is accepted. */
  lemma {:induction false} DecodedSizeExact(s: string)
    requires IsBase64(s) && s != ""
    ensures |Decoded(s)| == DecodedSize(s)
  {
    Base64HasNoEarlyPad(s);
    if |s| == 4 {
      assert s[..4] == s && s[4..] == "";
    } else {
      TailIsBase64(s);
      DecodedSizeExact(s[4..]);
    }
  }

  method SizeOfDecoded(source: string) returns (size: Result<nat, Problem>)
    requires Ascii(source) && source != ""
    ensures size.Ok? <==> IsBase64(source)
    ensures size.Ok? ==> size.value == |Decoded(source)|
  {
    var problem := ValidateBase64(source);
    if problem != None {
      return Err(problem.value);
    }
    var n := |source|;
    var result := n / 4 * 3;
    if source[n - 1] == PAD {
      result := result - 1;
      if source[n - 2] == PAD {
        result := result - 1;
      }
    }
    DecodedSizeExact(source);
    return Ok(result);
  }

  /** The bytes of one group; a byte keeps the low eight bits of what is shifted into it. */
  method DecodeGroup(s: string) returns (bytes: seq<Byte>)
    requires |s| == 4 && (s[2] == PAD ==> s[3] == PAD)
    ensures bytes == DecodeQuantum(s)
  {
    hide DecodeQuantum;
    DecodeBits(s);
    var v0: int, v1: int, v2: int, v3: int := SextetOf(s[0]), SextetOf(s[1]), SextetOf(s[2]), SextetOf(s[3]);
    bytes := [v0 * 4 + v1 / 16];
    if s[2] != PAD {
      bytes := bytes + [v1 % 16 * 16 + v2 / 4];
    }
    if s[3] != PAD {
      bytes := bytes + [v2 % 4 * 64 + v3];
    }
  }

  method WriteBytes(destination: array<Byte>, d: nat, bytes: seq<Byte>)
    requires d + |bytes| <= destination.Length
    modifies destination
    ensures destination[..d + |bytes|] == old(destination[..d]) + bytes
    ensures destination[d + |bytes|..] == old(destination[d + |bytes|..])
  {
    forall i | 0 <= i < |bytes| {
      destination[d + i] := bytes[i];
    }
    assert destination[..d + |bytes|] == destination[..d] + bytes;
  }

  /** Decodes an accepted text, writing exactly the bytes that the size function announces. */
  method DecodeBase64(source: string, destination: array<Byte>) returns (problem: Option<Problem>)
    requires Ascii(source) && (IsBase64(source) ==> |Decoded(source)| <= destination.Length)
    modifies destination
    ensures problem == None <==> IsBase64(source)
    ensures problem == None ==> destination[..|Decoded(source)|] == Decoded(source)
    ensures problem == None ==> destination[|Decoded(source)|..] == old(destination[|Decoded(source)|..])
    ensures problem != None ==> destination[..] == old(destination[..])
  {
    hide DecodeQuantum;
    hide Decoded;
    problem := ValidateBase64(source);
    if problem != None {
      return;
    }
    var i, d := 0, 0;
    ghost var all := Decoded(source);
    assert source[0..] == source && destination[..0] == [];
    while i < |source|
      invariant 0 <= i <= |source| && 0 <= d <= |all| && IsBase64(source[i..])
      invariant all == destination[..d] + Decoded(source[i..])
      invariant destination[|all|..] == old(destination[|all|..])
      decreases |source| - i
    {
      hide IsBase64;
      GroupIsFirst(source, i);
      var bytes := DecodeGroup(source[i..i + 4]);
      WriteBytes(destination, d, bytes);
      assert destination[|all|..] == destination[d + |bytes|..][|all| - d - |bytes|..];
      assert old(destination[|all|..]) == old(destination[d + |bytes|..])[|all| - d - |bytes|..];
      i := i + 4;
      d := d + |bytes|;
    }
    assert source[i..] == "";
    NothingDecoded();
  }

  lemma NothingDecoded()
    ensures Decoded("") == []
  {
  }

  /** The group at `i` and what follows it. */
  lemma GroupIsFirst(s: string, i: nat)
    requires i < |s| && IsBase64(s[i..])
    ensures i + 4 <= |s| && IsBase64(s[i + 4..]) && |s[i..]| % 4 == 0 && |s[i + 4..]| % 4 == 0
    ensures s[i + 2] == PAD ==> s[i + 3] == PAD
    ensures Decoded(s[i..]) == DecodeQuantum(s[i..i + 4]) + Decoded(s[i + 4..])
  {
  }

  /** Letters that the bytes of the last group do not need must be A, or bits are lost. */
  predicate Canonical(s: string)
    requires |s| % 4 == 0
  {
    s != "" ==>
      && (s[|s| - 2] == PAD ==> SextetOf(s[|s| - 3]) % 16 == 0)
      && (s[|s| - 2] != PAD && s[|s| - 1] == PAD ==> SextetOf(s[|s| - 2]) % 4 == 0)
  }

  lemma OneByteBack(v0: Sextet, v1: Sextet)
    ensures Base64([v0 * 4 + v1 / 16]) == [Letter(v0), Letter(v1 / 16 * 16), PAD, PAD]
  {
    hide Quantum;
    hide Letter;
    BitsBack(v0, v1, 0);
    QuantumBits(v0 * 4 + v1 / 16, 0, 0);
  }

  lemma TwoBytesBack(v0: Sextet, v1: Sextet, v2: Sextet)
    ensures Base64([v0 * 4 + v1 / 16, v1 % 16 * 16 + v2 / 4]) == [Letter(v0), Letter(v1), Letter(v2 / 4 * 4), PAD]
  {
    hide Quantum;
    hide Letter;
    BitsBack(v0, v1, v2);
    QuantumBits(v0 * 4 + v1 / 16, v1 % 16 * 16 + v2 / 4, 0);
  }

  lemma ThreeBytesBack(v0: Sextet, v1: Sextet, v2: Sextet, v3: Sextet)
    ensures Base64([v0 * 4 + v1 / 16, v1 % 16 * 16 + v2 / 4, v2 % 4 * 64 + v3]) ==
            [Letter(v0), Letter(v1), Letter(v2), Letter(v3)]
  {
    hide Quantum;
    hide Letter;
    BitsBack(v0, v1, v2);
    DivMod(v2 % 4, v3, 64);
    var s: seq<Byte> := [v0 * 4 + v1 / 16, v1 % 16 * 16 + v2 / 4, v2 % 4 * 64 + v3];
    QuantumBits(s[0], s[1], s[2]);
    assert s[3..] == [];
    assert Base64(s) == [Letter(v0), Letter(v1), Letter(v2), Letter(v3)] + Base64([]);
  }

  lemma GroupEncodesBack(s: string)
    requires |s| == 4 && IsBase64(s)
    ensures Base64(DecodeQuantum(s)) == s <==> Canonical(s)
  {
    hide DecodeQuantum;
    hide Base64;
    Base64HasNoEarlyPad(s);
    GroupLetters(s);
    DecodeBits(s);
    hide IsBase64;
    hide Letter;
    hide LetterValue;
    var v0, v1, v2, v3 := SextetOf(s[0]), SextetOf(s[1]), SextetOf(s[2]), SextetOf(s[3]);
    hide SextetOf;
    if s[2] == PAD {
      OneByteBack(v0, v1);
      LetterOne(v1 / 16 * 16, v1);
    } else if s[3] == PAD {
      TwoBytesBack(v0, v1, v2);
      LetterOne(v2 / 4 * 4, v2);
    } else {
      ThreeBytesBack(v0, v1, v2, v3);
    }
    assert s == [s[0], s[1], s[2], s[3]];
  }

  lemma LetterOne(v: Sextet, w: Sextet)
    ensures Letter(v) == Letter(w) <==> v == w
  {
  }

  lemma GroupLetters(s: string)
    requires |s| == 4 && IsBase64(s)
    ensures Letter(SextetOf(s[0])) == s[0] && Letter(SextetOf(s[1])) == s[1]
    ensures s[2] != PAD ==> Letter(SextetOf(s[2])) == s[2]
    ensures s[3] != PAD ==> Letter(SextetOf(s[3])) == s[3]
  {
  }

  lemma BitsBack(v0: Sextet, v1: Sextet, v2: Sextet)
    ensures (v0 * 4 + v1 / 16) / 4 == v0 && (v0 * 4 + v1 / 16) % 4 * 16 + (v1 % 16 * 16 + v2 / 4) / 16 == v1
    ensures (v0 * 4 + v1 / 16) % 4 * 16 == v1 / 16 * 16
    ensures (v1 % 16 * 16 + v2 / 4) % 16 * 4 == v2 / 4 * 4
    ensures (v1 % 16 * 16 + v2 / 4) % 16 * 4 + v2 % 4 == v2
  {
  }

  /** Encoding undoes decoding exactly for texts whose unused bits are zero; other texts are accepted too. */
  lemma {:induction false} EncodeUndoesDecodeExactlyWhen(s: string)
    requires IsBase64(s)
    ensures Base64(Decoded(s)) == s <==> Canonical(s)
  {
    hide DecodeQuantum;
    hide Quantum;
    if |s| == 4 {
      assert s[..4] == s && s[4..] == "";
      GroupEncodesBack(s);
      assert Decoded(s) == DecodeQuantum(s);
    } else if s != "" {
      var head, tail := s[..4], s[4..];
      Base64HasNoEarlyPad(s);
      TailIsBase64(s);
      EncodeUndoesDecodeExactlyWhen(tail);
      assert IsBase64(head);
      GroupEncodesBack(head);
      FullGroup(head, Decoded(tail));
      assert s == head + tail;
      assert s[|s| - 3] == tail[|tail| - 3] && s[|s| - 2] == tail[|tail| - 2] && s[|s| - 1] == tail[|tail| - 1];
      SameTail(head, Base64(Decoded(tail)), tail);
    }
  }

  lemma SameTail(head: string, a: string, b: string)
    ensures head + a == head + b <==> a == b
  {
    assert (head + a)[|head|..] == a && (head + b)[|head|..] == b;
  }

  lemma FullGroup(head: string, rest: seq<Byte>)
    requires |head| == 4 && head[2] != PAD && head[3] != PAD && Base64(DecodeQuantum(head)) == head
    ensures Base64(DecodeQuantum(head) + rest) == head + Base64(rest)
  {
  }

  // ----- Section 10 of RFC 4648 -----

  const FOOBAR: seq<Byte> := [102, 111, 111, 98, 97, 114]

  lemma FirstVectors()
    ensures Base64([]) == "" && Base64([102]) == "Zg==" && Base64([102, 111]) == "Zm8="
    ensures Base64([98]) == "Yg==" && Base64([98, 97]) == "YmE="
  {
  }

  lemma GroupVectors(rest: seq<Byte>)
    ensures Base64([102, 111, 111] + rest) == "Zm9v" + Base64(rest) && Base64([98, 97, 114] + rest) == "YmFy" + Base64(rest)
  {
    hide Base64;
    QuantumBits(102, 111, 111);
    QuantumBits(98, 97, 114);
    hide Quantum;
    FirstGroup(102, 111, 111, rest);
    FirstGroup(98, 97, 114, rest);
  }

  lemma FirstGroup(a: Byte, b: Byte, c: Byte, rest: seq<Byte>)
    ensures var q := Quantum(a, b, c);
            Base64([a, b, c] + rest) == [Letter(q[0]), Letter(q[1]), Letter(q[2]), Letter(q[3])] + Base64(rest)
  {
    hide Quantum;
    hide Letter;
    assert ([a, b, c] + rest)[3..] == rest;
  }

  lemma TestVectors()
    ensures Base64([]) == "" && Base64(FOOBAR[..1]) == "Zg==" && Base64(FOOBAR[..2]) == "Zm8=" && Base64(FOOBAR[..3]) == "Zm9v"
    ensures Base64(FOOBAR[..4]) == "Zm9vYg==" && Base64(FOOBAR[..5]) == "Zm9vYmE=" && Base64(FOOBAR) == "Zm9vYmFy"
  {
    hide Base64;
    FirstVectors();
    GroupVectors([]);
    GroupVectors([98]);
    GroupVectors([98, 97]);
    GroupVectors([98, 97, 114]);
    assert FOOBAR[..1] == [102] && FOOBAR[..2] == [102, 111] && FOOBAR[..3] == [102, 111, 111] + [];
    assert FOOBAR[..4] == [102, 111, 111] + [98] && FOOBAR[..5] == [102, 111, 111] + [98, 97];
    assert FOOBAR == [102, 111, 111] + [98, 97, 114] && [98, 97, 114] + [] == [98, 97, 114];
  }
}
