/** JSON texts as sections 2 to 7 of RFC 8259 define them, and what their quotation marks say. A reader works on a text
    `t` from a position and returns the position after what it read. */
module JsonText {
  import opened Wrappers

  predicate IsWhite(c: char) {
    c == ' ' || c == '\t' || c == '\n' || c == '\r'
  }

  predicate IsDigit(c: char) {
    '0' <= c <= '9'
  }

  predicate IsHex(c: char) {
    IsDigit(c) || 'a' <= c <= 'f' || 'A' <= c <= 'F'
  }

  predicate IsEscape(c: char) {
    c == '"' || c == '\\' || c == '/' || c == 'b' || c == 'f' || c == 'n' || c == 'r' || c == 't'
  }

  /** The character at `i` is `c`. */
  predicate At(t: string, i: nat, c: char) {
    i < |t| && t[i] == c
  }

  function SkipWhite(t: string, i: nat): (j: nat)
    requires i <= |t|
    ensures i <= j <= |t|
    decreases |t| - i
  {
    if i < |t| && IsWhite(t[i]) then SkipWhite(t, i + 1) else i
  }

  function SkipDigits(t: string, i: nat): (j: nat)
    requires i <= |t|
    ensures i <= j <= |t|
    decreases |t| - i
  {
    if i < |t| && IsDigit(t[i]) then SkipDigits(t, i + 1) else i
  }

  /** The literal `word`. */
  function Literal(t: string, i: nat, word: string): (r: Option<nat>)
    requires i <= |t|
    ensures r.Some? ==> i + |word| == r.value <= |t| && t[i..r.value] == word
  {
    if i + |word| <= |t| && t[i..i + |word|] == word then Some(i + |word|) else None
  }

  /** One or more digits. */
  function Digits(t: string, i: nat): (r: Option<nat>)
    requires i <= |t|
    ensures r.Some? ==> i < r.value <= |t|
  {
    if i < |t| && IsDigit(t[i]) then Some(SkipDigits(t, i)) else None
  }

  /** int = zero / ( digit1-9 *DIGIT ) */
  function Int(t: string, i: nat): (r: Option<nat>)
    requires i <= |t|
    ensures r.Some? ==> i < r.value <= |t|
  {
    if At(t, i, '0') then Some(i + 1) else Digits(t, i)
  }

  /** [ frac ] */
  function Frac(t: string, i: nat): (r: Option<nat>)
    requires i <= |t|
    ensures r.Some? ==> i <= r.value <= |t|
  {
    if At(t, i, '.') then Digits(t, i + 1) else Some(i)
  }

  /** [ exp ] */
  function Exp(t: string, i: nat): (r: Option<nat>)
    requires i <= |t|
    ensures r.Some? ==> i <= r.value <= |t|
  {
    if At(t, i, 'e') || At(t, i, 'E') then
      Digits(t, if At(t, i + 1, '+') || At(t, i + 1, '-') then i + 2 else i + 1)
    else Some(i)
  }

  /** number = [ minus ] int [ frac ] [ exp ] */
  function Number(t: string, i: nat): (r: Option<nat>)
    requires i <= |t|
    ensures r.Some? ==> i < r.value <= |t|
  {
    match Int(t, if At(t, i, '-') then i + 1 else i)
    case None => None
    case Some(j) =>
      match Frac(t, j)
      case None => None
      case Some(k) => Exp(t, k)
  }

  /** The characters of a string and the closing quotation mark. */
  function Chars(t: string, i: nat): (r: Option<nat>)
    requires i <= |t|
    ensures r.Some? ==> i < r.value <= |t| && t[r.value - 1] == '"'
    decreases |t| - i
  {
    if i == |t| then None
    else if t[i] == '"' then Some(i + 1)
    else if t[i] == '\\' then
      if i + 1 < |t| && IsEscape(t[i + 1]) then Chars(t, i + 2)
      else if i + 5 < |t| && t[i + 1] == 'u' && IsHex(t[i + 2]) && IsHex(t[i + 3]) && IsHex(t[i + 4]) && IsHex(t[i + 5])
      then Chars(t, i + 6)
      else None
    else if t[i] < ' ' then None
    else Chars(t, i + 1)
  }

  /** A value; whitespace before it has been skipped. */
  function Value(t: string, i: nat): (r: Option<nat>)
    requires i <= |t|
    ensures r.Some? ==> i < r.value <= |t|
    decreases |t| - i, 0
  {
    if i == |t| then None
    else if t[i] == '"' then Chars(t, i + 1)
    else if t[i] == '{' then
      var j := SkipWhite(t, i + 1);
      if At(t, j, '}') then Some(j + 1) else Members(t, j)
    else if t[i] == '[' then
      var j := SkipWhite(t, i + 1);
      if At(t, j, ']') then Some(j + 1) else Elements(t, j)
    else if t[i] == 't' then Literal(t, i, "true")
    else if t[i] == 'f' then Literal(t, i, "false")
    else if t[i] == 'n' then Literal(t, i, "null")
    else Number(t, i)
  }

  /** string name-separator, up to the value. */
  function Name(t: string, i: nat): (r: Option<nat>)
    requires i <= |t|
    ensures r.Some? ==> i < r.value <= |t|
  {
    if !At(t, i, '"') then None
    else
      match Chars(t, i + 1)
      case None => None
      case Some(j) =>
        var k := SkipWhite(t, j);
        if At(t, k, ':') then Some(SkipWhite(t, k + 1)) else None
  }

  /** member *( value-separator member ) end-object */
  function Members(t: string, i: nat): (r: Option<nat>)
    requires i <= |t|
    ensures r.Some? ==> i < r.value <= |t|
    decreases |t| - i, 1
  {
    match Name(t, i)
    case None => None
    case Some(j) =>
      match Value(t, j)
      case None => None
      case Some(k) =>
        var l := SkipWhite(t, k);
        if At(t, l, '}') then Some(l + 1)
        else if At(t, l, ',') then Members(t, SkipWhite(t, l + 1)) else None
  }

  /** value *( value-separator value ) end-array */
  function Elements(t: string, i: nat): (r: Option<nat>)
    requires i <= |t|
    ensures r.Some? ==> i < r.value <= |t|
    decreases |t| - i, 1
  {
    match Value(t, i)
    case None => None
    case Some(k) =>
      var l := SkipWhite(t, k);
      if At(t, l, ']') then Some(l + 1)
      else if At(t, l, ',') then Elements(t, SkipWhite(t, l + 1)) else None
  }

  /** JSON-text = ws value ws */
  predicate IsJson(t: string) {
    var v := Value(t, SkipWhite(t, 0));
    v.Some? && SkipWhite(t, v.value) == |t|
  }

  predicate IsArray(t: string) {
    At(t, SkipWhite(t, 0), '[')
  }

  // ----- Quotation marks -----

  /** Outside a string, inside one, or just after a backslash inside one. An equals sign or a backslash outside a string
      is an error for good. */
  datatype Quoting = Outside | Inside | Escaped | Broken

  function Next(q: Quoting, c: char): Quoting {
    match q
    case Outside => if c == '"' then Inside else if c == '=' || c == '\\' then Broken else Outside
    case Inside => if c == '"' then Outside else if c == '\\' then Escaped else Inside
    case Escaped => Inside
    case Broken => Broken
  }

  /** Where reading from `i` in state `q` ends. */
  function Scan(q: Quoting, t: string, i: nat): Quoting
    requires i <= |t|
    decreases |t| - i
  {
    if i == |t| then q else Scan(Next(q, t[i]), t, i + 1)
  }

  /** Every character from `i` to `j` keeps a reader outside strings. */
  predicate Plain(t: string, i: nat, j: nat) {
    i <= j <= |t| && forall k | i <= k < j :: t[k] != '"' && t[k] != '=' && t[k] != '\\'
  }

  lemma {:induction false} ScanPlain(t: string, i: nat, j: nat)
    requires Plain(t, i, j)
    ensures Scan(Outside, t, i) == Scan(Outside, t, j)
    decreases j - i
  {
    if i < j {
      ScanPlain(t, i + 1, j);
    }
  }

  lemma {:induction false} WhiteIsPlain(t: string, i: nat)
    requires i <= |t|
    ensures Plain(t, i, SkipWhite(t, i))
    ensures forall k | i <= k < SkipWhite(t, i) :: IsWhite(t[k])
    decreases |t| - i
  {
    if i < |t| && IsWhite(t[i]) {
      WhiteIsPlain(t, i + 1);
    }
  }

  lemma ScanWhite(t: string, i: nat)
    requires i <= |t|
    ensures Scan(Outside, t, i) == Scan(Outside, t, SkipWhite(t, i))
  {
    WhiteIsPlain(t, i);
    ScanPlain(t, i, SkipWhite(t, i));
  }

  lemma {:induction false} DigitsArePlain(t: string, i: nat)
    requires i <= |t|
    ensures Plain(t, i, SkipDigits(t, i))
    ensures forall k | i <= k < SkipDigits(t, i) :: IsDigit(t[k])
    decreases |t| - i
  {
    if i < |t| && IsDigit(t[i]) {
      DigitsArePlain(t, i + 1);
    }
  }

  lemma DigitsPlain(t: string, i: nat)
    requires i <= |t| && Digits(t, i).Some?
    ensures Plain(t, i, Digits(t, i).value) && IsDigit(t[Digits(t, i).value - 1])
  {
    DigitsArePlain(t, i);
  }

  lemma NumberIsPlain(t: string, i: nat)
    requires i <= |t| && Number(t, i).Some?
    ensures Plain(t, i, Number(t, i).value) && IsDigit(t[Number(t, i).value - 1])
  {
    hide Digits;
    var i1 := if At(t, i, '-') then i + 1 else i;
    var j := Int(t, i1).value;
    if !At(t, i1, '0') {
      DigitsPlain(t, i1);
    }
    var k := Frac(t, j).value;
    if At(t, j, '.') {
      DigitsPlain(t, j + 1);
    }
    if At(t, k, 'e') || At(t, k, 'E') {
      DigitsPlain(t, if At(t, k + 1, '+') || At(t, k + 1, '-') then k + 2 else k + 1);
    }
  }

  lemma LiteralIsPlain(t: string, i: nat, word: string)
    requires i <= |t| && Literal(t, i, word).Some?
    requires word == "true" || word == "false" || word == "null"
    ensures Plain(t, i, i + |word|)
  {
    assert forall k | i <= k < i + |word| :: t[k] == word[k - i] by {
      assert t[i..i + |word|] == word;
    }
  }

  lemma {:induction false} ScanChars(t: string, i: nat)
    requires i <= |t| && Chars(t, i).Some?
    ensures Scan(Inside, t, i) == Scan(Outside, t, Chars(t, i).value)
    decreases |t| - i
  {
    if t[i] == '\\' {
      assert Scan(Inside, t, i) == Scan(Escaped, t, i + 1) == Scan(Inside, t, i + 2);
      if IsEscape(t[i + 1]) {
        ScanChars(t, i + 2);
      } else {
        assert Scan(Inside, t, i + 2) == Scan(Inside, t, i + 3) == Scan(Inside, t, i + 4);
        assert Scan(Inside, t, i + 4) == Scan(Inside, t, i + 5) == Scan(Inside, t, i + 6);
        ScanChars(t, i + 6);
      }
    } else if t[i] != '"' {
      ScanChars(t, i + 1);
    }
  }

  lemma {:induction false} ScanValue(t: string, i: nat)
    requires i <= |t| && Value(t, i).Some?
    ensures Scan(Outside, t, i) == Scan(Outside, t, Value(t, i).value)
    decreases |t| - i, 0
  {
    if t[i] == '"' {
      ScanChars(t, i + 1);
    } else if t[i] == '{' {
      ScanWhite(t, i + 1);
      if !At(t, SkipWhite(t, i + 1), '}') {
        ScanMembers(t, SkipWhite(t, i + 1));
      }
    } else if t[i] == '[' {
      ScanWhite(t, i + 1);
      if !At(t, SkipWhite(t, i + 1), ']') {
        ScanElements(t, SkipWhite(t, i + 1));
      }
    } else {
      ScalarIsPlain(t, i);
      ScanPlain(t, i, Value(t, i).value);
    }
  }

  lemma ScalarIsPlain(t: string, i: nat)
    requires i < |t| && t[i] != '"' && t[i] != '{' && t[i] != '[' && Value(t, i).Some?
    ensures Plain(t, i, Value(t, i).value)
  {
    if t[i] == 't' {
      LiteralIsPlain(t, i, "true");
    } else if t[i] == 'f' {
      LiteralIsPlain(t, i, "false");
    } else if t[i] == 'n' {
      LiteralIsPlain(t, i, "null");
    } else {
      NumberIsPlain(t, i);
    }
  }

  lemma ScanName(t: string, i: nat)
    requires i <= |t| && Name(t, i).Some?
    ensures Scan(Outside, t, i) == Scan(Outside, t, Name(t, i).value)
  {
    ScanChars(t, i + 1);
    var j := Chars(t, i + 1).value;
    ScanWhite(t, j);
    ScanWhite(t, SkipWhite(t, j) + 1);
  }

  lemma {:induction false} ScanMembers(t: string, i: nat)
    requires i <= |t| && Members(t, i).Some?
    ensures Scan(Outside, t, i) == Scan(Outside, t, Members(t, i).value)
    decreases |t| - i, 1
  {
    hide Scan;
    hide Name;
    hide Value;
    hide SkipWhite;
    ScanName(t, i);
    var j := Name(t, i).value;
    ScanValue(t, j);
    var k := Value(t, j).value;
    ScanWhite(t, k);
    var l := SkipWhite(t, k);
    ScanPlain(t, l, l + 1);
    if !At(t, l, '}') {
      ScanWhite(t, l + 1);
      ScanMembers(t, SkipWhite(t, l + 1));
    }
  }

  lemma {:induction false} ScanElements(t: string, i: nat)
    requires i <= |t| && Elements(t, i).Some?
    ensures Scan(Outside, t, i) == Scan(Outside, t, Elements(t, i).value)
    decreases |t| - i, 1
  {
    hide Scan;
    hide Value;
    hide SkipWhite;
    ScanValue(t, i);
    var k := Value(t, i).value;
    ScanWhite(t, k);
    var l := SkipWhite(t, k);
    ScanPlain(t, l, l + 1);
    if !At(t, l, ']') {
      ScanWhite(t, l + 1);
      ScanElements(t, SkipWhite(t, l + 1));
    }
  }

  /** In a JSON text every string is closed, and no equals sign or backslash is outside a string. */
  lemma JsonIsBalanced(t: string)
    requires IsJson(t)
    ensures Scan(Outside, t, 0) == Outside
  {
    ScanWhite(t, 0);
    ScanValue(t, SkipWhite(t, 0));
    ScanWhite(t, Value(t, SkipWhite(t, 0)).value);
  }

  /** Read with strings and gaps exchanged, or after an error, a balanced text does not end outside a string. */
  lemma {:induction false} FlippedScan(t: string, i: nat, p: Quoting, q: Quoting)
    requires i <= |t|
    requires (p == Outside && q == Inside) || (p == Inside && q == Outside) || q == Broken
    ensures Scan(p, t, i) == Outside ==> Scan(q, t, i) != Outside
    decreases |t| - i
  {
    if q == Broken {
      ScanBroken(t, i);
    } else if i < |t| {
      if Next(p, t[i]) == Broken {
        ScanBroken(t, i + 1);
      } else {
        FlippedScan(t, i + 1, Next(p, t[i]), Next(q, t[i]));
      }
    }
  }

  lemma {:induction false} ScanBroken(t: string, i: nat)
    requires i <= |t|
    ensures Scan(Broken, t, i) == Broken
    decreases |t| - i
  {
    if i < |t| {
      ScanBroken(t, i + 1);
    }
  }

  lemma {:induction false} ScanSuffix(q: Quoting, a: string, b: string, i: nat)
    requires i <= |b|
    ensures Scan(q, a + b, |a| + i) == Scan(q, b, i)
    decreases |b| - i
  {
    if i < |b| {
      assert (a + b)[|a| + i] == b[i];
      ScanSuffix(Next(q, b[i]), a, b, i + 1);
    }
  }

  /** Reading from `i` comes to `j` in some state. */
  lemma {:induction false} ScanReaches(q: Quoting, t: string, i: nat, j: nat) returns (p: Quoting)
    requires i <= j <= |t|
    ensures Scan(q, t, i) == Scan(p, t, j)
    decreases j - i
  {
    if i == j {
      p := q;
    } else {
      p := ScanReaches(Next(q, t[i]), t, i + 1, j);
    }
  }

  /** A text in which an equals sign is followed by a JSON text is not a JSON text. */
  lemma EqualsBeforeJson(a: string, v: string)
    requires IsJson(v)
    ensures !IsJson(a + "=" + v)
  {
    var t := a + "=" + v;
    JsonIsBalanced(v);
    var p := ScanReaches(Outside, t, 0, |a|);
    var q := Next(p, '=');
    assert t[|a|] == '=';
    assert Scan(p, t, |a|) == Scan(q, t, |a| + 1);
    ScanSuffix(q, a + "=", v, 0);
    assert Scan(Outside, t, 0) == Scan(q, v, 0);
    if q == Inside {
      FlippedScan(v, 0, Outside, Inside);
    } else {
      assert q == Broken;
      ScanBroken(v, 0);
    }
    if IsJson(t) {
      JsonIsBalanced(t);
    }
  }

  lemma {:induction false} ObjectEndsInBrace(t: string, i: nat)
    requires i <= |t| && Members(t, i).Some?
    ensures t[Members(t, i).value - 1] == '}'
    decreases |t| - i
  {
    hide Name;
    hide Value;
    hide SkipWhite;
    var k := Value(t, Name(t, i).value).value;
    var l := SkipWhite(t, k);
    if !At(t, l, '}') {
      ObjectEndsInBrace(t, SkipWhite(t, l + 1));
    }
  }

  /** Only an array ends in a closing bracket. */
  lemma OnlyArraysEndInBracket(t: string)
    requires IsJson(t) && !IsArray(t)
    ensures t != "" && t[|t| - 1] != ']'
  {
    var i := SkipWhite(t, 0);
    var j := Value(t, i).value;
    WhiteIsPlain(t, j);
    if j == |t| {
      if t[i] == 't' || t[i] == 'f' || t[i] == 'n' {
        var word := if t[i] == 't' then "true" else if t[i] == 'f' then "false" else "null";
        assert t[i..j] == word;
        assert t[i..j][|word| - 1] == t[j - 1];
      } else if t[i] != '"' && t[i] != '{' {
        NumberIsPlain(t, i);
      } else if t[i] == '{' && !At(t, SkipWhite(t, i + 1), '}') {
        ObjectEndsInBrace(t, SkipWhite(t, i + 1));
      }
    }
  }
}
