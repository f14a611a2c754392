/** The JSON reader as it validates a value: it departs from RFC 8259 in what it accepts and in the errors it throws, which
    matters where an ini line is split into key and value. */
module JsonReader {
  import opened Wrappers
  import opened JsonText
  import opened IniFile

  const CVT_BASE10_BUFFER_SIZE: nat := 64
  const UINT64_MAX: nat := 0xFFFF_FFFF_FFFF_FFFF
  const INT64_MIN_MAGNITUDE: nat := 0x8000_0000_0000_0000

  /** The position after what was skipped, JsonFormatError, or FormatError. */
  datatype Skipped = To(pos: nat) | BadFormat | OutOfRange

  /** The value of the digits from `i` to `j`. */
  function Decimal(t: string, i: nat, j: nat): nat
    requires i <= j <= |t| && forall k | i <= k < j :: IsDigit(t[k])
    decreases j
  {
    if i == j then 0 else assert IsDigit(t[j - 1]); 10 * Decimal(t, i, j - 1) + (t[j - 1] as nat - '0' as nat)
  }

  function SkipNumber(t: string, i: nat): (r: Skipped)
    requires i <= |t|
    ensures r.To? ==> i < r.pos <= |t|
  {
    var signed := At(t, i, '-');
    var start := if signed then i + 1 else i;
    var end := SkipDigits(t, start);
    DigitsArePlain(t, start);
    if end == start || end - start >= CVT_BASE10_BUFFER_SIZE then BadFormat
    else if Decimal(t, start, end) > (if signed then INT64_MIN_MAGNITUDE else UINT64_MAX) then OutOfRange
    else To(end)
  }

  /** Up to and including the closing quotation mark. After a Unicode escape one more character is skipped. */
  function SkipChars(t: string, i: nat): (r: Skipped)
    requires i <= |t|
    ensures r.To? ==> i < r.pos <= |t|
    ensures r != OutOfRange
    decreases |t| - i
  {
    if i == |t| then BadFormat
    else if t[i] == '"' then To(i + 1)
    else if t[i] == '\\' then
      if At(t, i + 1, 'u') then
        if i + 6 < |t| && IsDigit(t[i + 2]) && IsDigit(t[i + 3]) && IsDigit(t[i + 4]) && IsDigit(t[i + 5])
        then SkipChars(t, i + 7)
        else BadFormat
      else if i + 1 < |t| then SkipChars(t, i + 2) else BadFormat
    else SkipChars(t, i + 1)
  }

  function SkipWord(t: string, i: nat, word: string): (r: Skipped)
    requires i <= |t|
    ensures r.To? ==> i + |word| == r.pos <= |t| && t[i..r.pos] == word
    ensures r != OutOfRange
  {
    if i + |word| <= |t| && t[i..i + |word|] == word then To(i + |word|) else BadFormat
  }

  /** The character that tells the type of what comes next, looking past one comma. */
  function Peek(t: string, i: nat): (r: Option<char>)
    requires i <= |t|
    ensures r.Some? ==> r.value in t
  {
    var k := if At(t, i, ',') then SkipWhite(t, i + 1) else i;
    if k < |t| then Some(t[k]) else None
  }

  /** Where reading of a value or key starts: a comma is consumed only where one is due. */
  function Begin(t: string, i: nat, due: bool): (r: Option<nat>)
    requires i <= |t|
    ensures r.Some? ==> i <= r.value <= |t|
  {
    if !due then Some(i) else if At(t, i, ',') then Some(SkipWhite(t, i + 1)) else None
  }

  function SkipScalar(t: string, i: nat, c: char): (r: Skipped)
    requires i < |t|
    ensures r.To? ==> i < r.pos <= |t|
  {
    if c == 't' || c == 'f' then
      var r := SkipWord(t, i, "true");
      if r.To? then r else SkipWord(t, i, "false")
    else if c == 'n' then SkipWord(t, i, "null")
    else if c == '"' then SkipChars(t, i + 1)
    else if c == '-' || IsDigit(c) then SkipNumber(t, i)
    else BadFormat
  }

  /** One value. The first character of a string, array or object is skipped without a look at it. */
  function SkipValue(t: string, i: nat, due: bool): (r: Skipped)
    requires i <= |t|
    ensures r.To? ==> i < r.pos <= |t|
    decreases |t| - i, 0
  {
    var j := SkipWhite(t, i);
    var c := Peek(t, j);
    var k := Begin(t, j, due);
    if c == None || k == None || k.value == |t| then BadFormat
    else if c.value == '[' then SkipElements(t, k.value + 1, false)
    else if c.value == '{' then SkipMembers(t, k.value + 1, false)
    else SkipScalar(t, k.value, c.value)
  }

  function SkipElements(t: string, i: nat, due: bool): (r: Skipped)
    requires i <= |t|
    ensures r.To? ==> i < r.pos <= |t|
    decreases |t| - i, 1
  {
    var j := SkipWhite(t, i);
    if Peek(t, j) == Some(']') then
      if At(t, j, ']') then To(j + 1) else BadFormat
    else
      match SkipValue(t, j, due)
      case To(k) => SkipElements(t, k, true)
      case BadFormat => BadFormat
      case OutOfRange => OutOfRange
  }

  /** A key and the colon after it. */
  function SkipKey(t: string, i: nat, due: bool): (r: Skipped)
    requires i <= |t|
    ensures r.To? ==> i < r.pos <= |t|
    ensures r != OutOfRange
  {
    var k := Begin(t, i, due);
    if Peek(t, i) != Some('"') || k == None || k.value == |t| then BadFormat
    else
      match SkipChars(t, k.value + 1)
      case BadFormat => BadFormat
      case To(l) =>
        var m := SkipWhite(t, l);
        if At(t, m, ':') then To(m + 1) else BadFormat
  }

  function SkipMembers(t: string, i: nat, due: bool): (r: Skipped)
    requires i <= |t|
    ensures r.To? ==> i < r.pos <= |t|
    decreases |t| - i, 1
  {
    var j := SkipWhite(t, i);
    if Peek(t, j) == Some('}') then
      if At(t, j, '}') then To(j + 1) else BadFormat
    else
      match SkipKey(t, j, due)
      case BadFormat => BadFormat
      case To(k) =>
        match SkipValue(t, k, false)
        case To(l) => SkipMembers(t, l, true)
        case BadFormat => BadFormat
        case OutOfRange => OutOfRange
  }

  /** What jsonValidate() does with a text. */
  function Validate(t: string): Verdict {
    match SkipValue(t, 0, false)
    case To(j) => if SkipWhite(t, j) == |t| then Valid else Malformed
    case BadFormat => Malformed
    case OutOfRange => Fails
  }

  // ----- Keys that are split correctly -----

  /** Up to `e`, where an equals sign is, there are no quotation marks and fewer than 19 digits in a row. */
  ghost predicate Tame(t: string, e: nat) {
    && At(t, e, '=')
    && (forall k | 0 <= k < e :: t[k] != '"')
    && (forall i, j | 0 <= i <= j <= e && j - i >= 19 :: !AllDigits(t, i, j))
  }

  ghost predicate AllDigits(t: string, i: nat, j: nat)
    requires i <= j <= |t|
  {
    forall k | i <= k < j :: IsDigit(t[k])
  }

  /** What is skipped from before the equals sign does not reach it and throws only JsonFormatError. */
  predicate Stops(r: Skipped, e: nat) {
    r == BadFormat || (r.To? && r.pos <= e)
  }

  lemma WhiteStops(t: string, i: nat, e: nat)
    requires Tame(t, e) && i <= e
    ensures SkipWhite(t, i) <= e
  {
    WhiteIsPlain(t, i);
  }

  lemma {:induction false} DecimalBound(t: string, i: nat, j: nat)
    requires i <= j <= |t| && j - i <= 18 && forall k | i <= k < j :: IsDigit(t[k])
    ensures Decimal(t, i, j) < Power10(j - i) <= 1_000_000_000_000_000_000
    decreases j - i
  {
    Power10Grows(j - i, 18);
    if i < j {
      DecimalBound(t, i, j - 1);
    }
  }

  function Power10(n: nat): nat {
    if n == 0 then 1 else 10 * Power10(n - 1)
  }

  lemma {:induction false} Power10Grows(m: nat, n: nat)
    requires m <= n == 18
    ensures Power10(m) <= Power10(n) == 1_000_000_000_000_000_000
    decreases n - m
  {
    if m < n {
      Power10Grows(m + 1, n);
    } else {
      assert Power10(6) == 1_000_000;
      assert Power10(12) == 1_000_000_000_000;
    }
  }

  lemma NumberStops(t: string, i: nat, e: nat)
    requires Tame(t, e) && i <= e
    ensures Stops(SkipNumber(t, i), e)
  {
    var start := if At(t, i, '-') then i + 1 else i;
    var end := SkipDigits(t, start);
    DigitsArePlain(t, start);
    assert end <= e && AllDigits(t, start, end);
    DecimalBound(t, start, end);
  }

  lemma WordStops(t: string, i: nat, e: nat, word: string)
    requires Tame(t, e) && i <= e && '=' !in word
    ensures Stops(SkipWord(t, i, word), e)
  {
    var r := SkipWord(t, i, word);
    if r.To? {
      assert forall k | i <= k < r.pos :: t[k] == word[k - i] && word[k - i] in word by {
        assert t[i..r.pos] == word;
      }
    }
  }

  /** Before the equals sign no quotation mark is in sight, unless it is past the equals sign. */
  lemma PeekStops(t: string, i: nat, e: nat)
    requires Tame(t, e) && i <= e
    ensures Peek(t, i).Some? && Peek(t, i).value != '"'
    ensures Begin(t, i, true).Some? ==> Begin(t, i, true).value <= e
  {
    if At(t, i, ',') {
      WhiteStops(t, i + 1, e);
    }
  }

  lemma {:induction false} ValueStops(t: string, i: nat, due: bool, e: nat)
    requires Tame(t, e) && i <= e
    ensures Stops(SkipValue(t, i, due), e)
    decreases |t| - i, 0
  {
    hide SkipNumber;
    hide SkipWord;
    hide SkipWhite;
    hide AllDigits;
    var j := SkipWhite(t, i);
    WhiteStops(t, i, e);
    PeekStops(t, j, e);
    var c := Peek(t, j).value;
    var b := Begin(t, j, due);
    if b.Some? {
      var k := b.value;
      if c == '[' || c == '{' {
        ContainerBegins(t, j, due, e);
        if c == '[' {
          ElementsStop(t, k + 1, false, e);
        } else {
          MembersStop(t, k + 1, false, e);
        }
      } else if c == 't' || c == 'f' {
        WordStops(t, k, e, "true");
        WordStops(t, k, e, "false");
      } else if c == 'n' {
        WordStops(t, k, e, "null");
      } else {
        NumberStops(t, k, e);
      }
    }
  }

  /** A bracket in sight is before the equals sign. */
  lemma ContainerBegins(t: string, j: nat, due: bool, e: nat)
    requires Tame(t, e) && j <= e
    requires Peek(t, j) == Some('[') || Peek(t, j) == Some('{')
    ensures Begin(t, j, due).Some? ==> Begin(t, j, due).value < e
  {
    if At(t, j, ',') {
      WhiteStops(t, j + 1, e);
    }
  }

  lemma {:induction false} ElementsStop(t: string, i: nat, due: bool, e: nat)
    requires Tame(t, e) && i <= e
    ensures Stops(SkipElements(t, i, due), e)
    decreases |t| - i, 1
  {
    var j := SkipWhite(t, i);
    WhiteStops(t, i, e);
    if Peek(t, j) != Some(']') {
      ValueStops(t, j, due, e);
      var r := SkipValue(t, j, due);
      if r.To? {
        ElementsStop(t, r.pos, true, e);
      }
    }
  }

  lemma {:induction false} MembersStop(t: string, i: nat, due: bool, e: nat)
    requires Tame(t, e) && i <= e
    ensures Stops(SkipMembers(t, i, due), e)
  {
    var j := SkipWhite(t, i);
    WhiteStops(t, i, e);
    PeekStops(t, j, e);
  }

  /** Behind a text without quotation marks and long numbers, an equals sign makes every value malformed. */
  lemma TameIsMalformed(t: string, e: nat)
    requires Tame(t, e)
    ensures Validate(t) == Malformed
  {
    ValueStops(t, 0, false, e);
    match SkipValue(t, 0, false)
    case To(j) => WhiteStops(t, j, e);
    case _ =>
  }

  /** A key without quotation marks and without 19 digits in a row survives with every value the reader accepts, whatever
      equals signs it holds; for values that end in a bracket it must not begin with one. */
  lemma PlainKeySurvives(key: string, value: string)
    requires key != "" && Validate(value) == Valid
    requires '"' !in key
    requires forall i, j | 0 <= i <= j <= |key| && j - i >= 19 :: !AllDigits(key, i, j)
    requires key[0] == '[' ==> value == "" || value[|value| - 1] != ']'
    ensures Survives(Validate, key, value)
  {
    forall d | 0 <= d < |key| && key[d] == '='
      ensures Validate(key[d + 1..] + "=" + value) == Malformed
    {
      var t := key[d + 1..] + "=" + value;
      var e := |key| - d - 1;
      assert forall k | 0 <= k < e :: t[k] == key[d + 1 + k] && key[d + 1 + k] in key;
      forall i, j | 0 <= i <= j <= e && j - i >= 19
        ensures !AllDigits(t, i, j)
      {
        var k :| d + 1 + i <= k < d + 1 + j && !IsDigit(key[k]) by {
          assert !AllDigits(key, d + 1 + i, d + 1 + j);
        }
        assert !IsDigit(t[k - d - 1]);
      }
      TameIsMalformed(t, e);
    }
  }

  // ----- Keys that are not -----

  /** The digits from `i` to `j` end where `j` does. */
  lemma {:induction false} DigitsEnd(t: string, i: nat, j: nat)
    requires i <= j <= |t| && AllDigits(t, i, j) && (j < |t| ==> !IsDigit(t[j]))
    ensures SkipDigits(t, i) == j
    decreases j - i
  {
    if i < j {
      DigitsEnd(t, i + 1, j);
    }
  }

  lemma {:induction false} DecimalGrows(t: string, i: nat, j: nat)
    requires i < j <= |t| && AllDigits(t, i, j) && t[i] != '0'
    ensures Decimal(t, i, j) >= Power10(j - i - 1)
    decreases j
  {
    if i + 1 < j {
      DecimalGrows(t, i, j - 1);
    }
  }

  lemma {:induction false} Power10From20(n: nat)
    requires n >= 20
    ensures Power10(n) > UINT64_MAX
  {
    if n == 20 {
      Power10Grows(18, 18);
    } else {
      Power10From20(n - 1);
    }
  }

  /** A number of 21 to 63 digits throws before anything after it is seen, and not the error the retry loop catches. */
  lemma LongNumberIsNotPassed(digits: string, rest: string)
    requires 21 <= |digits| < CVT_BASE10_BUFFER_SIZE && AllDigits(digits, 0, |digits|) && digits[0] != '0'
    ensures Validate(digits + "=" + rest) == Fails
  {
    var t := digits + "=" + rest;
    var n := |digits|;
    assert t[n] == '=';
    assert forall k | 0 <= k < n :: t[k] == digits[k];
    DigitsEnd(t, 0, n);
    DecimalGrows(t, 0, n);
    Power10From20(n - 1);
    assert SkipWhite(t, 0) == 0;
    assert Peek(t, 0) == Some(t[0]);
    assert SkipValue(t, 0, false) == SkipNumber(t, 0) == OutOfRange;
  }

  /** So a key whose first equals sign is followed by such a number cannot be loaded with any value. */
  lemma LongNumberInKey(name: string, digits: string, value: string)
    requires '=' !in name
    requires 21 <= |digits| < CVT_BASE10_BUFFER_SIZE && AllDigits(digits, 0, |digits|) && digits[0] != '0'
    ensures KeyValue(Validate, name + "=" + digits + "=" + value) == Err(ValidatorFailed)
  {
    hide Validate;
    hide Find;
    LongNumberIsNotPassed(digits, value);
    var t := digits + "=" + value;
    var line := name + "=" + digits + "=" + value;
    var n := |name|;
    assert line[n] == '=' && line[n] in line;
    assert line[n + 1..] == t;
    assert forall k | 0 <= k < n :: line[k] == name[k] && name[k] in name;
    assert Find(line, '=', 0) == n;
    assert Separator(Validate, line, 0) == Err(ValidatorFailed);
  }

  const WRITTEN := "{\":1,\":\":,\"}"
  const ACCEPTED := "{\"b={\":1,\":\":,\"}"

  lemma WrittenIsJson()
    ensures IsJson(WRITTEN)
  {
    var t := WRITTEN;
    assert Chars(t, 4) == Some(6) && Chars(t, 2) == Some(6) && Name(t, 1) == Some(7);
    assert Chars(t, 10) == Some(11) && Value(t, 7) == Some(11);
    assert Members(t, 1) == Some(12);
    assert Value(t, 0) == Some(12);
  }

  lemma FirstKey()
    ensures SkipKey(ACCEPTED, 1, false) == To(7)
  {
    assert SkipChars(ACCEPTED, 4) == To(6) && SkipChars(ACCEPTED, 2) == To(6);
  }

  lemma FirstValue()
    ensures SkipValue(ACCEPTED, 7, false) == To(8)
  {
    var t := ACCEPTED;
    assert SkipDigits(t, 8) == 8 && SkipDigits(t, 7) == 8 && Decimal(t, 7, 8) == 1;
    assert SkipNumber(t, 7) == To(8);
  }

  lemma SecondKey()
    ensures SkipKey(ACCEPTED, 8, true) == To(13)
  {
    assert SkipChars(ACCEPTED, 10) == To(12);
  }

  lemma SecondValue()
    ensures SkipValue(ACCEPTED, 13, false) == To(15)
  {
    assert SkipChars(ACCEPTED, 14) == To(15);
  }

  lemma AcceptedIsValid()
    ensures Validate(ACCEPTED) == Valid
  {
    hide SkipKey;
    var t := ACCEPTED;
    FirstKey();
    FirstValue();
    SecondKey();
    SecondValue();
    assert SkipMembers(t, 15, true) == To(16);
    assert SkipMembers(t, 8, true) == To(16);
    assert SkipMembers(t, 1, false) == To(16);
    assert SkipValue(t, 0, false) == To(16);
  }

  /** In the value of a member, a comma and a quotation mark are taken for a string, so the separator can be found early
      although the value that was written is JSON. */
  lemma QuotesSplitEarly()
    ensures IsJson(WRITTEN) && "k={\"b" + "=" + WRITTEN == "k=" + ACCEPTED
    ensures KeyValue(Validate, "k=" + ACCEPTED) == Ok(("k", ACCEPTED))
  {
    hide Validate;
    hide IsJson;
    hide KeyValue;
    WrittenIsJson();
    AcceptedIsValid();
    assert KeyIsPassed(Validate, "k", ACCEPTED);
    assert "k" + "=" + ACCEPTED == "k=" + ACCEPTED;
    KeyValueReadsBack(Validate, "k", ACCEPTED);
  }
}
