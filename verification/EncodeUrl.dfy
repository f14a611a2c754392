/** Binary data as base64url text without padding, section 5 of RFC 4648. */
module EncodeUrl {
  import opened Encode

  function UrlLetter(v: Sextet): char {
    if v == 62 then '-' else if v == 63 then '_' else Letter(v)
  }

  function UrlChar(c: char): char {
    if c == '+' then '-' else if c == '/' then '_' else c
  }

  /** Base64 text with two letters replaced and padding dropped. */
  function ToUrl(s: string): string {
    if s == "" then ""
    else (if s[0] == PAD then "" else [UrlChar(s[0])]) + ToUrl(s[1..])
  }

  lemma {:induction false} ToUrlAppend(a: string, b: string)
    ensures ToUrl(a + b) == ToUrl(a) + ToUrl(b)
  {
    if a == "" {
      assert a + b == b;
    } else {
      assert (a + b)[0] == a[0] && (a + b)[1..] == a[1..] + b;
      ToUrlAppend(a[1..], b);
    }
  }

  lemma UrlLetterIs(v: Sextet)
    ensures UrlChar(Letter(v)) == UrlLetter(v) && Letter(v) != PAD
  {
  }

  lemma ToUrlFour(c0: char, c1: char, c2: char, c3: char)
    ensures ToUrl([c0, c1, c2, c3]) ==
            (if c0 == PAD then "" else [UrlChar(c0)]) + ((if c1 == PAD then "" else [UrlChar(c1)])
            + ((if c2 == PAD then "" else [UrlChar(c2)]) + (if c3 == PAD then "" else [UrlChar(c3)])))
  {
    hide UrlChar;
    assert [c0, c1, c2, c3][1..] == [c1, c2, c3] && [c1, c2, c3][1..] == [c2, c3] && [c2, c3][1..] == [c3];
    assert [c3][1..] == "" && ToUrl("") == "";
    assert ToUrl([c3]) == if c3 == PAD then "" else [UrlChar(c3)];
    assert ToUrl([c2, c3]) == (if c2 == PAD then "" else [UrlChar(c2)]) + ToUrl([c3]);
    assert ToUrl([c1, c2, c3]) == (if c1 == PAD then "" else [UrlChar(c1)]) + ToUrl([c2, c3]);
  }

  function SizeBase64Url(size: nat): nat {
    size / 3 * 4 + match size % 3 case 1 => 2 case 2 => 3 case _ => 0
  }

  /** Letters of the first group of three bytes or less. */
  method EncodeGroupUrl(s: seq<Byte>) returns (text: string)
    requires s != []
    ensures ToUrl(Base64(s)) == text + ToUrl(Base64(From(s, 3)))
    ensures |text| == if |s| == 1 then 2 else if |s| == 2 then 3 else 4
  {
    hide UrlLetter;
    hide Letter;
    hide Base64;
    text := [UrlLetter(s[0] / 4)];
    UrlLetterIs(s[0] / 4);
    if |s| == 1 {
      text := text + [UrlLetter(s[0] % 4 * 16)];
      UrlLetterIs(s[0] % 4 * 16);
    } else {
      text := text + [UrlLetter(s[0] % 4 * 16 + s[1] / 16)];
      UrlLetterIs(s[0] % 4 * 16 + s[1] / 16);
      if |s| == 2 {
        text := text + [UrlLetter(s[1] % 16 * 4)];
        UrlLetterIs(s[1] % 16 * 4);
      } else {
        text := text + [UrlLetter(s[1] % 16 * 4 + s[2] / 64), UrlLetter(s[2] % 64)];
        UrlLetterIs(s[1] % 16 * 4 + s[2] / 64);
        UrlLetterIs(s[2] % 64);
      }
    }
    FirstFourIsFirst(s);
    ghost var group := FirstFour(s);
    ToUrlFour(group[0], group[1], group[2], group[3]);
    assert ToUrl(group) == text by {
      hide ToUrl;
      assert group == [group[0], group[1], group[2], group[3]];
    }
    ToUrlAppend(group, Base64(From(s, 3)));
  }

  lemma {:induction false} UrlSize(s: seq<Byte>)
    ensures |ToUrl(Base64(s))| == SizeBase64Url(|s|)
    decreases |s|
  {
    hide Quantum;
    if s != [] {
      GroupUrlSize(s);
      UrlSize(From(s, 3));
    } else {
      assert ToUrl("") == "";
    }
  }

  lemma GroupUrlSize(s: seq<Byte>)
    requires s != []
    ensures |ToUrl(Base64(s))| == (if |s| == 1 then 2 else if |s| == 2 then 3 else 4) + |ToUrl(Base64(From(s, 3)))|
  {
    hide Letter;
    hide Base64;
    FirstFourIsFirst(s);
    var group := FirstFour(s);
    forall v: Sextet
      ensures Letter(v) != PAD
    {
      UrlLetterIs(v);
    }
    ToUrlFour(group[0], group[1], group[2], group[3]);
    assert group == [group[0], group[1], group[2], group[3]];
    ToUrlAppend(group, Base64(From(s, 3)));
  }

  method Write(destination: array<char>, d: nat, text: string)
    requires d + |text| <= destination.Length
    modifies destination
    ensures destination[..d + |text|] == old(destination[..d]) + text
    ensures destination[d + |text|..] == old(destination[d + |text|..])
  {
    forall i | 0 <= i < |text| {
      destination[d + i] := text[i];
    }
    assert destination[..d + |text|] == destination[..d] + text;
  }

  /** Writes the text and a terminating zero, and nothing behind it. */
  method EncodeBase64Url(source: seq<Byte>, destination: array<char>)
    requires destination.Length > SizeBase64Url(|source|)
    modifies destination
    ensures destination[..SizeBase64Url(|source|)] == ToUrl(Base64(source))
    ensures destination[SizeBase64Url(|source|)] == 0 as char
    ensures destination[SizeBase64Url(|source|) + 1..] == old(destination[SizeBase64Url(|source|) + 1..])
  {
    hide Base64;
    hide ToUrl;
    var i, d := 0, 0;
    UrlSize(source);
    ghost var all := ToUrl(Base64(source));
    assert From(source, 0) == source && destination[..0] == [];
    while i < |source|
      invariant 0 <= i && 0 <= d <= |all| && all == destination[..d] + ToUrl(Base64(From(source, i)))
      invariant destination[|all|..] == old(destination[|all|..])
      decreases |source| - i
    {
      var text := EncodeGroupUrl(From(source, i));
      FromFrom(source, i);
      Write(destination, d, text);
      assert destination[|all|..] == destination[d + |text|..][|all| - d - |text|..];
      assert old(destination[|all|..]) == old(destination[d + |text|..])[|all| - d - |text|..];
      i := i + 3;
      d := d + |text|;
    }
    NoUrl();
    destination[d] := 0 as char;
    assert destination[..d] == all;
    assert destination[d + 1..] == old(destination[|all|..])[1..];
  }

  lemma NoUrl()
    ensures ToUrl(Base64([])) == ""
  {
  }
}
