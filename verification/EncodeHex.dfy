/** Binary data as hex text, section 8 of RFC 4648, in lower case. */
module EncodeHex {
  import opened Wrappers
  import opened Encode

  type Nibble = x: int | 0 <= x < 16

  function Digit(v: Nibble): char {
    if v < 10 then '0' + v as char else 'a' + (v - 10) as char
  }

  /** The value of a digit; upper case is accepted. */
  function DigitValue(c: char): Option<Nibble> {
    if '0' <= c <= '9' then Some(c as int - '0' as int)
    else if 'a' <= c <= 'f' then Some(c as int - 'a' as int + 10)
    else if 'A' <= c <= 'F' then Some(c as int - 'A' as int + 10)
    else None
  }

  function Lower(c: char): char {
    if 'A' <= c <= 'F' then 'a' + (c - 'A') else c
  }

  /** High digit first. */
  function Hex(s: seq<Byte>): string {
    if s == [] then "" else [Digit(s[0] / 16), Digit(s[0] % 16)] + Hex(s[1..])
  }

  lemma {:induction false} HexSize(s: seq<Byte>)
    ensures |Hex(s)| == 2 * |s|
  {
    if s != [] {
      HexSize(s[1..]);
    }
  }

  lemma NoHex()
    ensures Hex([]) == ""
  {
  }

  lemma HexStep(s: seq<Byte>, i: nat)
    requires i < |s|
    ensures Hex(s[i..]) == [Digit(s[i] / 16), Digit(s[i] % 16)] + Hex(s[i + 1..])
  {
  }

  method WriteTwo(destination: array<char>, d: nat, c0: char, c1: char)
    requires d + 2 <= destination.Length
    modifies destination
    ensures destination[..d + 2] == old(destination[..d]) + [c0, c1]
    ensures destination[d + 2..] == old(destination[d + 2..])
  {
    destination[d], destination[d + 1] := c0, c1;
    assert destination[..d + 2] == destination[..d] + [c0, c1];
  }

  /** Writes the text and a terminating zero, and nothing behind it. */
  method EncodeToHex(source: seq<Byte>, destination: array<char>)
    requires destination.Length > 2 * |source|
    modifies destination
    ensures destination[..2 * |source|] == Hex(source)
    ensures destination[2 * |source|] == 0 as char
    ensures destination[2 * |source| + 1..] == old(destination[2 * |source| + 1..])
  {
    hide Digit;
    hide Hex;
    var i, d := 0, 0;
    HexSize(source);
    ghost var all := Hex(source);
    assert source[0..] == source && destination[..0] == [];
    while i < |source|
      invariant 0 <= i <= |source| && d == 2 * i
      invariant all == destination[..d] + Hex(source[i..])
      invariant destination[|all|..] == old(destination[|all|..])
    {
      HexStep(source, i);
      WriteTwo(destination, d, Digit(source[i] / 16), Digit(source[i] % 16));
      assert destination[|all|..] == destination[d + 2..][|all| - d - 2..];
      assert old(destination[|all|..]) == old(destination[d + 2..])[|all| - d - 2..];
      i := i + 1;
      d := d + 2;
    }
    NoHex();
    destination[d] := 0 as char;
    assert destination[..d] == all;
    assert destination[d + 1..] == old(destination[|all|..])[1..];
  }

  predicate IsHex(s: string) {
    |s| % 2 == 0 && forall i | 0 <= i < |s| :: DigitValue(s[i]).Some?
  }

  method ValidateHex(source: string) returns (problem: Option<Problem>)
    requires Ascii(source)
    ensures problem == None <==> IsHex(source)
    ensures problem == Some(BadSize) <==> |source| % 2 != 0
    ensures problem.Some? && problem.value.BadCharacter? ==>
              && problem.value.pos < |source| && DigitValue(source[problem.value.pos]) == None
              && forall i | 0 <= i < problem.value.pos :: DigitValue(source[i]).Some?
  {
    if |source| % 2 != 0 {
      return Some(BadSize);
    }
    var i := 0;
    while i < |source|
      invariant 0 <= i <= |source| && forall k | 0 <= k < i :: DigitValue(source[k]).Some?
    {
      if DigitValue(source[i]) == None {
        return Some(BadCharacter(i));
      }
      i := i + 1;
    }
    problem := None;
  }

  function Decode(s: string): seq<Byte>
    requires IsHex(s)
  {
    if s == "" then []
    else
      var hi: int, lo: int := DigitValue(s[0]).value, DigitValue(s[1]).value;
      [hi * 16 + lo] + Decode(s[2..])
  }

  /** The size function is exact. */
  lemma {:induction false} DecodeSize(s: string)
    requires IsHex(s)
    ensures |Decode(s)| == |s| / 2
  {
    if s != "" {
      DecodeSize(s[2..]);
    }
  }

  /** Decodes an accepted text. */
  method DecodeFromHex(source: string, destination: array<Byte>) returns (problem: Option<Problem>)
    requires Ascii(source) && |source| / 2 <= destination.Length
    modifies destination
    ensures problem == None <==> IsHex(source)
    ensures problem == None ==> destination[..|source| / 2] == Decode(source)
    ensures problem == None ==> destination[|source| / 2..] == old(destination[|source| / 2..])
    ensures problem != None ==> destination[..] == old(destination[..])
  {
    hide DigitValue;
    hide Decode;
    problem := ValidateHex(source);
    if problem != None {
      return;
    }
    DecodeSize(source);
    ghost var all := Decode(source);
    var i, d := 0, 0;
    assert source[0..] == source && destination[..0] == [];
    while i < |source|
      invariant 0 <= i <= |source| && i == 2 * d && IsHex(source[i..])
      invariant all == destination[..d] + Decode(source[i..])
      invariant destination[|all|..] == old(destination[|all|..])
    {
      DecodeStep(source, i);
      var hi: int, lo: int := DigitValue(source[i]).value, DigitValue(source[i + 1]).value;
      WriteByte(destination, d, hi * 16 + lo);
      assert destination[|all|..] == destination[d + 1..][|all| - d - 1..];
      assert old(destination[|all|..]) == old(destination[d + 1..])[|all| - d - 1..];
      i := i + 2;
      d := d + 1;
    }
    assert source[i..] == "";
    NothingToDecode();
  }

  lemma NothingToDecode()
    ensures Decode("") == []
  {
  }

  lemma DecodeStep(s: string, i: nat)
    requires i < |s| && IsHex(s[i..])
    ensures i + 2 <= |s| && IsHex(s[i + 2..]) && DigitValue(s[i]).Some? && DigitValue(s[i + 1]).Some?
    ensures var hi: int, lo: int := DigitValue(s[i]).value, DigitValue(s[i + 1]).value;
            Decode(s[i..]) == [hi * 16 + lo] + Decode(s[i + 2..])
  {
  }

  method WriteByte(destination: array<Byte>, d: nat, b: Byte)
    requires d < destination.Length
    modifies destination
    ensures destination[..d + 1] == old(destination[..d]) + [b]
    ensures destination[d + 1..] == old(destination[d + 1..])
  {
    destination[d] := b;
    assert destination[..d + 1] == destination[..d] + [b];
  }

  lemma DigitRoundTrip(v: Nibble)
    ensures DigitValue(Digit(v)) == Some(v) && Digit(v) < 128 as char
  {
  }

  /** Decoding undoes encoding. */
  lemma {:induction false} DecodeUndoesHex(s: seq<Byte>)
    ensures IsHex(Hex(s)) && Ascii(Hex(s)) && Decode(Hex(s)) == s
  {
    hide Digit;
    hide DigitValue;
    if s != [] {
      DecodeUndoesHex(s[1..]);
      DigitRoundTrip(s[0] / 16);
      DigitRoundTrip(s[0] % 16);
      var text := Hex(s);
      assert text[2..] == Hex(s[1..]);
      assert forall i | 2 <= i < |text| :: text[i] == Hex(s[1..])[i - 2];
    }
  }

  function LowerCase(s: string): string {
    if s == "" then "" else [Lower(s[0])] + LowerCase(s[1..])
  }

  lemma DigitOfValue(c: char)
    requires DigitValue(c).Some?
    ensures Digit(DigitValue(c).value) == Lower(c)
  {
  }

  /** Encoding undoes decoding up to the case of letters. */
  lemma {:induction false} HexUndoesDecode(s: string)
    requires IsHex(s)
    ensures Hex(Decode(s)) == LowerCase(s)
  {
    hide Digit;
    hide DigitValue;
    hide Lower;
    if s != "" {
      HexUndoesDecode(s[2..]);
      DigitOfValue(s[0]);
      DigitOfValue(s[1]);
      var hi: int, lo: int := DigitValue(s[0]).value, DigitValue(s[1]).value;
      assert (hi * 16 + lo) / 16 == hi && (hi * 16 + lo) % 16 == lo;
      assert Decode(s)[1..] == Decode(s[2..]);
      assert s[1..][1..] == s[2..];
      assert LowerCase(s) == [Lower(s[0])] + ([Lower(s[1])] + LowerCase(s[2..]));
    }
  }

  /** The test vector of section 10 of RFC 4648, in lower case. */
  lemma TestVector()
    ensures Hex([102, 111, 111, 98, 97, 114]) == "666f6f626172"
  {
    assert Hex([]) == "" && Hex([114]) == "72" && Hex([97, 114]) == "6172" && Hex([98, 97, 114]) == "626172";
    assert Hex([111, 98, 97, 114]) == "6f626172" && Hex([111, 111, 98, 97, 114]) == "6f6f626172";
  }
}
