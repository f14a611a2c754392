/** How strings, numbers and flat objects are written as JSON and read again. A reader works on a text `t` from a position;
    it gives None where the program throws. */
module JsonCodec {
  import opened Wrappers
  import opened JsonText
  import opened JsonReader
  import opened IniFile
  import InfoFile
  import Numerals
  import StringOrder

  const UINT_MAX: nat := 0xFFFF_FFFF

  type UInt32 = n: nat | n <= UINT_MAX
  type UInt64 = n: nat | n <= UINT64_MAX

  const BACKSPACE: char := '\U{0008}'
  const FORM_FEED: char := '\U{000C}'

  // ----- What is written -----

  /** The letter that stands for a character after a backslash. */
  function Escape(c: char): Option<char> {
    if c == '"' || c == '\\' then Some(c)
    else if c == '\n' then Some('n')
    else if c == '\r' then Some('r')
    else if c == '\t' then Some('t')
    else if c == BACKSPACE then Some('b')
    else if c == FORM_FEED then Some('f')
    else None
  }

  function CharText(c: char): string {
    if Escape(c).Some? then ['\\', Escape(c).value] else [c]
  }

  function Escaped(s: string): string {
    if s == "" then "" else CharText(s[0]) + Escaped(s[1..])
  }

  function Quote(s: string): string {
    "\"" + Escaped(s) + "\""
  }

  datatype Scalar = Number(n: UInt64) | Text(s: string)

  function ScalarText(v: Scalar): string {
    match v
    case Number(n) => Numerals.Print(n)
    case Text(s) => Quote(s)
  }

  /** Names of members are written without escapes. */
  predicate PlainName(name: string) {
    forall i | 0 <= i < |name| :: Escape(name[i]) == None
  }

  function NameText(name: string): string {
    "\"" + name + "\":"
  }

  /** The members, each but the first after a comma, and the closing brace. */
  function MembersText(fields: seq<(string, Scalar)>, due: bool): string {
    if fields == [] then "}"
    else (if due then "," else "") + NameText(fields[0].0) + ScalarText(fields[0].1) + MembersText(fields[1..], true)
  }

  function ObjectText(fields: seq<(string, Scalar)>): string {
    "{" + MembersText(fields, false)
  }

  predicate PlainNames(fields: seq<(string, Scalar)>) {
    forall i | 0 <= i < |fields| :: PlainName(fields[i].0)
  }

  /** The seven escapes, and no others. */
  lemma SevenEscapes(c: char)
    ensures CharText('"') == "\\\"" && CharText('\\') == "\\\\" && CharText('\n') == "\\n" && CharText('\r') == "\\r"
    ensures CharText('\t') == "\\t" && CharText(BACKSPACE) == "\\b" && CharText(FORM_FEED) == "\\f"
    ensures c !in {'"', '\\', '\n', '\r', '\t', BACKSPACE, FORM_FEED} ==> CharText(c) == [c]
  {
  }

  lemma {:induction false} EscapedAppend(s: string, c: char)
    ensures Escaped(s + [c]) == Escaped(s) + CharText(c)
  {
    if s == "" {
      assert s + [c] == [c];
      assert Escaped([c]) == CharText(c) + Escaped([c][1..]) == CharText(c);
    } else {
      assert (s + [c])[1..] == s[1..] + [c];
      EscapedAppend(s[1..], c);
    }
  }

  lemma {:induction false} EscapedAppendPlain(s: string, plain: string)
    requires PlainName(plain)
    ensures Escaped(s + plain) == Escaped(s) + plain
  {
    if plain == "" {
      assert s + plain == s;
    } else {
      var n := |plain| - 1;
      EscapedAppendPlain(s, plain[..n]);
      assert s + plain == s + plain[..n] + [plain[n]];
      EscapedAppend(s + plain[..n], plain[n]);
    }
  }

  /** Runs of characters without escapes are copied in one piece. */
  method WriteString(s: string) returns (json: string)
    ensures json == Quote(s)
  {
    hide Escaped;
    hide Escape;
    json := "\"";
    var i, run := 0, 0;
    assert Escaped("") == "" by { EscapedEmpty(); }
    assert s[..0] == "";
    while i < |s|
      invariant 0 <= run <= i <= |s|
      invariant PlainName(s[run..i])
      invariant json == "\"" + Escaped(s[..run])
    {
      assert s[..i] == s[..run] + s[run..i];
      EscapedAppendPlain(s[..run], s[run..i]);
      assert s[..i + 1] == s[..i] + [s[i]];
      EscapedAppend(s[..i], s[i]);
      if Escape(s[i]).Some? {
        json := json + s[run..i] + ['\\', Escape(s[i]).value];
        run := i + 1;
      }
      i := i + 1;
    }
    assert s[..i] == s[..run] + s[run..i] == s;
    EscapedAppendPlain(s[..run], s[run..i]);
    json := json + s[run..] + "\"";
  }

  lemma EscapedEmpty()
    ensures Escaped("") == ""
  {
  }

  // ----- What is read -----

  function Unescape(c: char): Option<char> {
    if c == '"' || c == '\\' || c == '/' then Some(c)
    else if c == 'n' then Some('\n')
    else if c == 'r' then Some('\r')
    else if c == 't' then Some('\t')
    else if c == 'b' then Some(BACKSPACE)
    else if c == 'f' then Some(FORM_FEED)
    else None
  }

  function HexValue(c: char): (n: nat)
    requires IsHex(c)
    ensures n < 16
  {
    if IsDigit(c) then c as nat - '0' as nat
    else if 'a' <= c <= 'f' then 10 + c as nat - 'a' as nat
    else 10 + c as nat - 'A' as nat
  }

  /** One character of a string and the position after it. A Unicode escape is read only below 256. */
  function ReadChar(t: string, i: nat): (r: Option<(char, nat)>)
    requires i < |t|
    ensures r.Some? ==> i < r.value.1 <= |t|
  {
    if t[i] != '\\' then Some((t[i], i + 1))
    else if i + 1 == |t| then None
    else if t[i + 1] == 'u' then
      if i + 5 < |t| && t[i + 2] == '0' && t[i + 3] == '0' && IsHex(t[i + 4]) && IsHex(t[i + 5])
      then Some(((16 * HexValue(t[i + 4]) + HexValue(t[i + 5])) as char, i + 6))
      else None
    else if Unescape(t[i + 1]) == None then None
    else Some((Unescape(t[i + 1]).value, i + 2))
  }

  /** The rest of a string and the position after its closing quotation mark. */
  function ReadChars(t: string, i: nat): (r: Option<(string, nat)>)
    requires i <= |t|
    ensures r.Some? ==> i < r.value.1 <= |t|
    decreases |t| - i
  {
    if i == |t| then None
    else if t[i] == '"' then Some(("", i + 1))
    else
      match ReadChar(t, i)
      case None => None
      case Some((c, j)) =>
        match ReadChars(t, j)
        case None => None
        case Some((s, k)) => Some(([c] + s, k))
  }

  /** A string, or None for null, and the position after it. */
  function ReadText(t: string, i: nat): (r: Option<(Option<string>, nat)>)
    requires i <= |t|
    ensures r.Some? ==> i < r.value.1 <= |t|
  {
    var j := SkipWhite(t, i);
    var c := Peek(t, j);
    if c == Some('n') then
      var r := SkipWord(t, j, "null");
      if r.To? then Some((None, r.pos)) else None
    else if c == Some('"') && j < |t| then
      match ReadChars(t, j + 1)
      case None => None
      case Some((s, k)) => Some((Some(s), k))
    else None
  }

  /** An unsigned number and the position after it. */
  function ReadNumber(t: string, i: nat): (r: Option<(UInt64, nat)>)
    requires i <= |t|
    ensures r.Some? ==> i < r.value.1 <= |t|
  {
    var j := SkipWhite(t, i);
    var c := Peek(t, j);
    if c == None || !IsDigit(c.value) || !SkipNumber(t, j).To? then None
    else
      DigitsArePlain(t, j);
      Some((Decimal(t, j, SkipNumber(t, j).pos), SkipNumber(t, j).pos))
  }

  /** The closing quotation mark of a name; escapes are not allowed. */
  function NameEnd(t: string, i: nat): (r: Option<nat>)
    requires i <= |t|
    ensures r.Some? ==> i <= r.value < |t|
    decreases |t| - i
  {
    if i == |t| || t[i] == '\\' then None else if t[i] == '"' then Some(i) else NameEnd(t, i + 1)
  }

  /** The name of a member and the position after the colon. */
  function ReadName(t: string, i: nat, due: bool): (r: Option<(string, nat)>)
    requires i <= |t|
    ensures r.Some? ==> i < r.value.1 <= |t|
  {
    var k := Begin(t, i, due);
    if Peek(t, i) != Some('"') || k == None || k.value == |t| then None
    else
      match NameEnd(t, k.value + 1)
      case None => None
      case Some(e) =>
        var m := SkipWhite(t, e + 1);
        if At(t, m, ':') then Some((t[k.value + 1..e], m + 1)) else None
  }

  /** The position of the value under a name that is required. Names are expected in ascending order, and only as many
      characters are compared as the name that was found has. */
  function FindName(t: string, i: nat, due: bool, name: string): (r: Option<nat>)
    requires i <= |t|
    ensures r.Some? ==> i < r.value <= |t|
    decreases |t| - i
  {
    var j := SkipWhite(t, i);
    if Peek(t, j) == Some('}') then None
    else
      match ReadName(t, j, due)
      case None => None
      case Some((found, k)) =>
        if found <= name then Some(k)
        else if StringOrder.Less(name, found) then None
        else
          match SkipValue(t, k, false)
          case To(l) => FindName(t, l, true, name)
          case _ => None
  }

  /** The value of a numeric member and the position after it. */
  function NumberField(t: string, i: nat, due: bool, name: string): (r: Option<(UInt64, nat)>)
    requires i <= |t|
    ensures r.Some? ==> i < r.value.1 <= |t|
  {
    match FindName(t, i, due, name)
    case None => None
    case Some(k) => ReadNumber(t, k)
  }

  /** The same for a member that has to fit 32 bits. */
  function NumberField32(t: string, i: nat, due: bool, name: string): (r: Option<(UInt32, nat)>)
    requires i <= |t|
    ensures r.Some? ==> i < r.value.1 <= |t|
  {
    match NumberField(t, i, due, name)
    case None => None
    case Some((n, k)) => if n <= UINT_MAX then Some((n, k)) else None
  }

  function TextField(t: string, i: nat, due: bool, name: string): (r: Option<(Option<string>, nat)>)
    requires i <= |t|
    ensures r.Some? ==> i < r.value.1 <= |t|
  {
    match FindName(t, i, due, name)
    case None => None
    case Some(k) => ReadText(t, k)
  }

  /** Where the members of an object begin. */
  function ObjectBegin(t: string): (r: Option<nat>)
    ensures r.Some? ==> r.value <= |t|
  {
    var j := SkipWhite(t, 0);
    if Peek(t, j) == Some('{') then Some(j + 1) else None
  }

  /** A string value, or None for null. */
  function ReadString(t: string): Option<Option<string>> {
    match ReadText(t, 0)
    case None => None
    case Some((s, _)) => Some(s)
  }

  function ReadUInt64(t: string): Option<nat> {
    match ReadNumber(t, 0)
    case None => None
    case Some((n, _)) => Some(n)
  }

  /** A 32-bit number from its digits. */
  function ParseUInt32(s: string): (r: Option<UInt32>) {
    var n := Numerals.Parse(s);
    if n.Some? && n.value <= UINT_MAX then Some(n.value) else None
  }

  /** A 32-bit number from a number, a boolean or a string of digits. */
  function ForceUInt32(t: string): Option<UInt32> {
    var j := SkipWhite(t, 0);
    var c := Peek(t, j);
    var n :=
      if c == Some('t') || c == Some('f') then
        if SkipWord(t, j, "true").To? then Some(1) else if SkipWord(t, j, "false").To? then Some(0) else None
      else if c == Some('-') then
        DigitsArePlain(t, if j < |t| then j + 1 else j);
        if SkipNumber(t, j).To? && At(t, j, '-') && Decimal(t, j + 1, SkipNumber(t, j).pos) == 0 then Some(0) else None
      else if c == Some('"') then
        var s := ReadString(t);
        if s.Some? && s.value.Some? then ParseUInt32(s.value.value) else None
      else ReadUInt64(t);
    if n.Some? && n.value <= UINT_MAX then Some(n.value) else None
  }

  const JSON := InfoFile.Json(Validate, Quote, ReadString, ReadUInt64)

  // ----- Written texts are read back -----

  /** The text `x` is in `t` at `i`. */
  ghost predicate Holds(t: string, i: nat, x: string) {
    i + |x| <= |t| && forall k | 0 <= k < |x| :: t[i + k] == x[k]
  }

  lemma HoldsParts(t: string, i: nat, x: string, y: string)
    requires Holds(t, i, x + y)
    ensures Holds(t, i, x) && Holds(t, i + |x|, y)
  {
    assert forall k | 0 <= k < |x| :: (x + y)[k] == x[k];
    assert forall k | 0 <= k < |y| :: t[i + |x| + k] == (x + y)[|x| + k] == y[k];
  }

  lemma HoldsHead(t: string, i: nat, x: string)
    requires Holds(t, i, x) && x != ""
    ensures t[i] == x[0]
  {
    assert t[i + 0] == x[0];
  }

  lemma CharIsRead(t: string, i: nat, c: char)
    requires Holds(t, i, CharText(c))
    ensures ReadChar(t, i) == Some((c, i + |CharText(c)|)) && t[i] != '"'
    ensures SkipChars(t, i) == SkipChars(t, i + |CharText(c)|)
  {
    HoldsHead(t, i, CharText(c));
    if Escape(c).Some? {
      assert t[i + 1] == CharText(c)[1];
    }
  }

  /** The characters of an escaped string are read, and skipped, one after the other. */
  lemma {:induction false} CharsArePassed(t: string, i: nat, s: string)
    requires Holds(t, i, Escaped(s))
    ensures var rest := ReadChars(t, i + |Escaped(s)|);
            ReadChars(t, i) == if rest.Some? then Some((s + rest.value.0, rest.value.1)) else None
    ensures SkipChars(t, i) == SkipChars(t, i + |Escaped(s)|)
    decreases |s|
  {
    hide CharText;
    hide ReadChar;
    hide SkipChars;
    if s == "" {
      var rest := ReadChars(t, i);
      assert rest.Some? ==> s + rest.value.0 == rest.value.0;
    } else {
      HoldsParts(t, i, CharText(s[0]), Escaped(s[1..]));
      CharIsRead(t, i, s[0]);
      CharsArePassed(t, i + |CharText(s[0])|, s[1..]);
      var rest := ReadChars(t, i + |Escaped(s)|);
      if rest.Some? {
        assert [s[0]] + (s[1..] + rest.value.0) == s + rest.value.0;
      }
    }
  }

  /** An escaped string is read as the string it was made from, and skipped as far as it is read. */
  lemma CharsAreRead(t: string, i: nat, s: string)
    requires Holds(t, i, Escaped(s) + "\"")
    ensures ReadChars(t, i) == Some((s, i + |Escaped(s)| + 1))
    ensures SkipChars(t, i) == To(i + |Escaped(s)| + 1)
  {
    hide Escaped;
    HoldsParts(t, i, Escaped(s), "\"");
    HoldsHead(t, i + |Escaped(s)|, "\"");
    CharsArePassed(t, i, s);
    assert s + "" == s;
  }

  /** The digits of a number in its decimal text. */
  lemma {:induction false} PrintIsShort(n: nat, digits: nat)
    requires digits > 0 && n < Power10(digits)
    ensures |Numerals.Print(n)| <= digits
  {
    if n >= 10 {
      assert digits > 1 by {
        assert Power10(1) == 10;
      }
      PrintIsShort(n / 10, digits - 1);
    }
  }

  lemma {:induction false} DecimalIsValue(t: string, i: nat, s: string)
    requires Holds(t, i, s) && Numerals.AllDigits(s)
    ensures AllDigits(t, i, i + |s|) && Decimal(t, i, i + |s|) == Numerals.Value(s)
    decreases |s|
  {
    assert forall k | i <= k < i + |s| :: t[k] == s[k - i];
    if s != "" {
      var n := |s| - 1;
      DecimalIsValue(t, i, s[..n]);
      assert t[i + n] == s[n];
    }
  }

  /** Behind a number there is no further digit. */
  predicate Ends(t: string, i: nat) {
    i < |t| ==> !IsDigit(t[i])
  }

  lemma NumberIsRead(t: string, i: nat, n: UInt64)
    requires Holds(t, i, Numerals.Print(n)) && Ends(t, i + |Numerals.Print(n)|)
    ensures ReadNumber(t, i) == Some((n, i + |Numerals.Print(n)|))
    ensures SkipValue(t, i, false) == To(i + |Numerals.Print(n)|)
  {
    hide Numerals.Print;
    hide Numerals.Value;
    hide Decimal;
    hide SkipDigits;
    var s := Numerals.Print(n);
    DecimalIsValue(t, i, s);
    Numerals.ValueOfPrint(n);
    DigitsEnd(t, i, i + |s|);
    Power10From20(20);
    PrintIsShort(n, 20);
    assert t[i] == s[0];
    NoWhite(t, i);
    assert SkipNumber(t, i) == To(i + |s|);
  }

  lemma NoWhite(t: string, i: nat)
    requires i < |t| && !IsWhite(t[i])
    ensures SkipWhite(t, i) == i
    ensures t[i] != ',' ==> Peek(t, i) == Some(t[i])
  {
  }

  lemma TextIsRead(t: string, i: nat, s: string)
    requires Holds(t, i, Quote(s))
    ensures ReadText(t, i) == Some((Some(s), i + |Quote(s)|))
    ensures SkipValue(t, i, false) == To(i + |Quote(s)|)
  {
    hide ReadChars;
    hide SkipChars;
    hide Escaped;
    assert Quote(s) == "\"" + (Escaped(s) + "\"");
    HoldsParts(t, i, "\"", Escaped(s) + "\"");
    HoldsHead(t, i, "\"");
    NoWhite(t, i);
    CharsAreRead(t, i + 1, s);
  }

  lemma ScalarIsSkipped(t: string, i: nat, v: Scalar)
    requires Holds(t, i, ScalarText(v)) && Ends(t, i + |ScalarText(v)|)
    ensures SkipValue(t, i, false) == To(i + |ScalarText(v)|)
  {
    match v
    case Number(n) => NumberIsRead(t, i, n);
    case Text(s) => TextIsRead(t, i, s);
  }

  lemma {:induction false} NameIsPassed(t: string, i: nat, name: string)
    requires PlainName(name) && Holds(t, i, name + "\"")
    ensures NameEnd(t, i) == Some(i + |name|)
    ensures SkipChars(t, i) == To(i + |name| + 1)
    decreases |name|
  {
    if name == "" {
      HoldsHead(t, i, name + "\"");
    } else {
      assert name + "\"" == [name[0]] + (name[1..] + "\"");
      HoldsParts(t, i, [name[0]], name[1..] + "\"");
      HoldsHead(t, i, [name[0]]);
      NameIsPassed(t, i + 1, name[1..]);
    }
  }

  lemma NameParts(t: string, i: nat, name: string)
    requires Holds(t, i, NameText(name))
    ensures t[i] == '"' && Holds(t, i + 1, name + "\"") && t[i + 2 + |name|] == ':'
    ensures t[i + 1..i + 1 + |name|] == name
  {
    assert NameText(name) == "\"" + ((name + "\"") + ":");
    HoldsParts(t, i, "\"", (name + "\"") + ":");
    HoldsParts(t, i + 1, name + "\"", ":");
    HoldsParts(t, i + 1, name, "\"");
    HoldsHead(t, i, "\"");
    HoldsHead(t, i + 2 + |name|, ":");
  }

  /** Where a name is due after a comma, the comma is passed. */
  lemma CommaIsPassed(t: string, i: nat, due: bool)
    requires due ==> At(t, i, ',')
    requires At(t, i + (if due then 1 else 0), '"')
    ensures SkipWhite(t, i) == i && Peek(t, i) == Some('"')
    ensures Begin(t, i, due) == Some(i + (if due then 1 else 0))
  {
    NoWhite(t, i);
    NoWhite(t, i + (if due then 1 else 0));
  }

  /** A name is read, and skipped, up to its value. */
  lemma NameIsRead(t: string, i: nat, due: bool, name: string)
    requires PlainName(name) && Holds(t, i, (if due then "," else "") + NameText(name))
    ensures var k := i + (if due then 1 else 0) + |NameText(name)|;
            && ReadName(t, i, due) == Some((name, k)) && SkipKey(t, i, due) == To(k)
            && SkipWhite(t, i) == i && Peek(t, i) == Some('"')
  {
    hide SkipChars;
    hide NameEnd;
    hide PlainName;
    hide Holds;
    hide SkipWhite;
    hide Peek;
    hide Begin;
    var j := i + if due then 1 else 0;
    HoldsParts(t, i, if due then "," else "", NameText(name));
    if due {
      HoldsHead(t, i, ",");
    }
    NameParts(t, j, name);
    CommaIsPassed(t, i, due);
    NameIsPassed(t, j + 1, name);
    NoWhite(t, j + 2 + |name|);
  }

  /** What the members are made of. */
  lemma MembersParts(t: string, i: nat, fields: seq<(string, Scalar)>, due: bool)
    requires Holds(t, i, MembersText(fields, due)) && fields != []
    ensures Holds(t, i, (if due then "," else "") + NameText(fields[0].0))
    ensures var k := i + (if due then 1 else 0) + |NameText(fields[0].0)|;
            var l := k + |ScalarText(fields[0].1)|;
            && Holds(t, k, ScalarText(fields[0].1)) && Holds(t, l, MembersText(fields[1..], true)) && Ends(t, l)
            && l + |MembersText(fields[1..], true)| == i + |MembersText(fields, due)|
  {
    hide NameText;
    hide ScalarText;
    var comma := if due then "," else "";
    var name := NameText(fields[0].0);
    var value := ScalarText(fields[0].1);
    var rest := MembersText(fields[1..], true);
    assert MembersText(fields, due) == (comma + name) + (value + rest);
    HoldsParts(t, i, comma + name, value + rest);
    HoldsParts(t, i + |comma + name|, value, rest);
    MembersBegin(fields[1..]);
    HoldsHead(t, i + |comma + name| + |value|, rest);
  }

  lemma MembersBegin(fields: seq<(string, Scalar)>)
    ensures MembersText(fields, true) != "" && !IsDigit(MembersText(fields, true)[0])
  {
  }

  lemma {:induction false} MembersAreSkipped(t: string, i: nat, fields: seq<(string, Scalar)>, due: bool)
    requires PlainNames(fields) && Holds(t, i, MembersText(fields, due))
    ensures SkipMembers(t, i, due) == To(i + |MembersText(fields, due)|)
    decreases |fields|
  {
    hide Holds;
    hide SkipKey;
    hide SkipValue;
    hide MembersText;
    hide NameText;
    hide ScalarText;
    hide PlainName;
    hide SkipWhite;
    hide Peek;
    if fields == [] {
      EmptyIsSkipped(t, i, due);
    } else {
      MembersParts(t, i, fields, due);
      NameIsRead(t, i, due, fields[0].0);
      var k := i + (if due then 1 else 0) + |NameText(fields[0].0)|;
      ScalarIsSkipped(t, k, fields[0].1);
      MembersAreSkipped(t, k + |ScalarText(fields[0].1)|, fields[1..], true);
    }
  }

  lemma EmptyIsSkipped(t: string, i: nat, due: bool)
    requires Holds(t, i, MembersText([], due))
    ensures SkipMembers(t, i, due) == To(i + |MembersText([], due)|)
  {
    HoldsHead(t, i, "}");
  }

  lemma NameIsFound(t: string, i: nat, due: bool, name: string)
    requires PlainName(name) && Holds(t, i, (if due then "," else "") + NameText(name))
    ensures FindName(t, i, due, name) == Some(i + (if due then 1 else 0) + |NameText(name)|)
  {
    hide ReadName;
    hide Holds;
    hide SkipWhite;
    hide SkipValue;
    hide Peek;
    hide NameText;
    NameIsRead(t, i, due, name);
  }

  lemma ScalarIsRead(t: string, i: nat, v: Scalar)
    requires Holds(t, i, ScalarText(v)) && Ends(t, i + |ScalarText(v)|)
    ensures match v
            case Number(n) => ReadNumber(t, i) == Some((n, i + |ScalarText(v)|))
            case Text(s) => ReadText(t, i) == Some((Some(s), i + |ScalarText(v)|))
  {
    hide Holds;
    hide ReadNumber;
    hide ReadText;
    match v
    case Number(n) => NumberIsRead(t, i, n);
    case Text(s) => TextIsRead(t, i, s);
  }

  /** The member that comes next is found under its name and read, and the members after it are next. */
  lemma FieldIsRead(t: string, i: nat, fields: seq<(string, Scalar)>, due: bool)
    requires fields != [] && PlainName(fields[0].0) && Holds(t, i, MembersText(fields, due))
    ensures var k := i + (if due then 1 else 0) + |NameText(fields[0].0)| + |ScalarText(fields[0].1)|;
            && Holds(t, k, MembersText(fields[1..], true))
            && match fields[0].1
               case Number(n) => NumberField(t, i, due, fields[0].0) == Some((n, k))
               case Text(s) => TextField(t, i, due, fields[0].0) == Some((Some(s), k))
  {
    hide Holds;
    hide MembersText;
    hide Ends;
    hide PlainName;
    hide ReadNumber;
    hide ReadText;
    hide FindName;
    hide NameText;
    hide ScalarText;
    MembersParts(t, i, fields, due);
    NameIsFound(t, i, due, fields[0].0);
    ScalarIsRead(t, i + (if due then 1 else 0) + |NameText(fields[0].0)|, fields[0].1);
  }

  // ----- Whole texts -----

  lemma HoldsWhole(t: string)
    ensures Holds(t, 0, t)
  {
  }

  lemma WholeIsValid(t: string)
    requires SkipValue(t, 0, false) == To(|t|)
    ensures Validate(t) == Valid
  {
  }

  /** What a line of an ini file can carry as a value: it is accepted and not taken for the end of a section header. */
  predicate Printable(value: string) {
    value != "" && IsLine(value) && Validate(value) == Valid && value[|value| - 1] != ']'
  }

  lemma {:induction false} EscapedIsLine(s: string)
    ensures IsLine(Escaped(s))
  {
    if s != "" {
      EscapedIsLine(s[1..]);
    }
  }

  /** Every string is written as one valid line and read back. */
  lemma StringSurvives(s: string)
    ensures Printable(Quote(s)) && ReadString(Quote(s)) == Some(Some(s))
  {
    hide Validate;
    hide ReadText;
    HoldsWhole(Quote(s));
    TextIsRead(Quote(s), 0, s);
    WholeIsValid(Quote(s));
    EscapedIsLine(s);
  }

  /** Every number of 64 bits is written as one valid line and read back. */
  lemma NumberSurvives(n: UInt64)
    ensures Printable(Numerals.Print(n)) && ReadUInt64(Numerals.Print(n)) == Some(n)
    ensures n <= UINT_MAX ==> ForceUInt32(Numerals.Print(n)) == Some(n)
  {
    hide Validate;
    hide ReadNumber;
    hide SkipValue;
    hide Numerals.Print;
    var t := Numerals.Print(n);
    HoldsWhole(t);
    NumberIsRead(t, 0, n);
    WholeIsValid(t);
    assert IsLine(t) by {
      assert !Numerals.IsDigit('\n');
    }
    assert Numerals.IsDigit(t[0]) && Numerals.IsDigit(t[|t| - 1]);
    NoWhite(t, 0);
  }

  /** Of the numbers with a sign, a forced read takes only zero. */
  lemma ForcedFromSigned(n: nat)
    ensures ForceUInt32("-" + Numerals.Print(n)) == if n == 0 then Some(0) else None
  {
    hide Numerals.Print;
    hide Numerals.Value;
    hide Decimal;
    hide SkipDigits;
    var s := Numerals.Print(n);
    var t := "-" + s;
    DecimalIsValue(t, 1, s);
    Numerals.ValueOfPrint(n);
    DigitsEnd(t, 1, |t|);
    NoWhite(t, 0);
    if n == 0 {
      PrintIsShort(0, 1);
    }
  }

  /** True and false count as one and zero; the words are valid texts by themselves. */
  lemma WordsAreRead()
    ensures ForceUInt32("true") == Some(1) && ForceUInt32("false") == Some(0) && ForceUInt32("null") == None
    ensures Printable("true") && Printable("false") && Printable("null") && ReadString("null") == Some(None)
  {
    NoWhite("true", 0);
    NoWhite("false", 0);
    NoWhite("null", 0);
  }

  /** A forced read also takes the digits from a string. */
  lemma ForcedFromString(n: UInt32)
    ensures ForceUInt32(Quote(Numerals.Print(n))) == Some(n)
  {
    hide Quote;
    hide ReadText;
    hide Numerals.Print;
    hide Numerals.Parse;
    var t := Quote(Numerals.Print(n));
    assert t[0] == '"' by {
      QuoteBegins(Numerals.Print(n));
    }
    NoWhite(t, 0);
    StringSurvives(Numerals.Print(n));
    Numerals.ParseOfPrint(n);
  }

  lemma QuoteBegins(s: string)
    ensures Quote(s) != "" && Quote(s)[0] == '"'
  {
  }

  // ----- Strings that the validator accepts -----

  /** From `i`, where the reader is inside a string, the validator ends the string where the reader does. */
  predicate InStep(t: string, i: nat)
    requires i <= |t|
    decreases |t| - i
  {
    if i == |t| then false
    else if t[i] == '"' then true
    else if t[i] != '\\' then InStep(t, i + 1)
    else if i + 1 == |t| then false
    else if t[i + 1] != 'u' then InStep(t, i + 2)
    else i + 5 < |t| && IsDigit(t[i + 4]) && IsDigit(t[i + 5]) && Ahead(t, i + 6)
  }

  /** The same from `j` for the reader and `j + 1` for the validator, which is one character ahead after a Unicode escape. */
  predicate Ahead(t: string, j: nat)
    requires j <= |t|
    decreases |t| - j
  {
    if j == |t| || t[j] == '"' then false
    else if t[j] != '\\' then InStep(t, j + 1)
    else if j + 1 == |t| || t[j + 1] == '"' then false
    else if t[j + 1] == 'u' then j + 6 <= |t| && InStep(t, j + 6)
    else if t[j + 1] != '\\' then InStep(t, j + 2)
    else if !At(t, j + 2, 'u') then Ahead(t, j + 2)
    else
      && j + 7 <= |t| && IsDigit(t[j + 3]) && IsDigit(t[j + 4]) && IsDigit(t[j + 5]) && IsDigit(t[j + 6])
      && Ahead(t, j + 7)
  }

  /** The reader goes on from the next character. */
  lemma ReadStep(t: string, i: nat)
    requires i < |t| && t[i] != '"' && ReadChars(t, i).Some?
    ensures ReadChar(t, i).Some? && ReadChars(t, ReadChar(t, i).value.1).Some?
    ensures ReadChars(t, ReadChar(t, i).value.1).value.1 == ReadChars(t, i).value.1
  {
  }

  /** The reader passes over plain characters. */
  lemma {:induction false} ReadPlain(t: string, i: nat, j: nat)
    requires i <= j <= |t| && ReadChars(t, i).Some?
    requires forall k | i <= k < j :: t[k] != '"' && t[k] != '\\'
    ensures ReadChars(t, j).Some? && ReadChars(t, j).value.1 == ReadChars(t, i).value.1
    decreases j - i
  {
    if i < j {
      ReadStep(t, i);
      ReadPlain(t, i + 1, j);
    }
  }

  /** The validator passes over plain characters. */
  lemma {:induction false} SkipPlain(t: string, i: nat, j: nat)
    requires i <= j <= |t| && forall k | i <= k < j :: t[k] != '"' && t[k] != '\\'
    ensures SkipChars(t, i) == SkipChars(t, j)
    decreases j - i
  {
    if i < j {
      SkipPlain(t, i + 1, j);
    }
  }

  lemma {:induction false} EndsInStepExactlyWhen(t: string, i: nat)
    requires i <= |t| && ReadChars(t, i).Some?
    ensures SkipChars(t, i) == To(ReadChars(t, i).value.1) <==> InStep(t, i)
    decreases |t| - i, 0
  {
    if t[i] != '"' {
      ReadStep(t, i);
      var j := ReadChar(t, i).value.1;
      if t[i] == '\\' && t[i + 1] == 'u' {
        EndsAheadExactlyWhen(t, j);
      } else {
        EndsInStepExactlyWhen(t, j);
      }
    }
  }

  lemma {:induction false} EndsAheadExactlyWhen(t: string, j: nat)
    requires j < |t| && ReadChars(t, j).Some?
    ensures SkipChars(t, j + 1) == To(ReadChars(t, j).value.1) <==> Ahead(t, j)
    decreases |t| - j, 1
  {
    if t[j] != '"' {
      ReadStep(t, j);
      var k := ReadChar(t, j).value.1;
      if t[j] != '\\' {
        EndsInStepExactlyWhen(t, k);
      } else if t[j + 1] == 'u' {
        SkipPlain(t, j + 1, j + 6);
        EndsInStepExactlyWhen(t, k);
      } else if t[j + 1] == '\\' {
        if At(t, j + 2, 'u') {
          EndsAheadOfEscape(t, j);
        } else {
          EndsAheadExactlyWhen(t, k);
        }
      } else if t[j + 1] != '"' {
        EndsInStepExactlyWhen(t, k);
      }
    }
  }

  /** Where the reader sees a backslash and the letter u, the validator may see a Unicode escape. */
  lemma {:induction false} EndsAheadOfEscape(t: string, j: nat)
    requires j + 2 < |t| && t[j] == '\\' && t[j + 1] == '\\' && t[j + 2] == 'u' && ReadChars(t, j).Some?
    ensures SkipChars(t, j + 1) == To(ReadChars(t, j).value.1) <==> Ahead(t, j)
    decreases |t| - j, 0
  {
    ReadStep(t, j);
    if j + 7 <= |t| && IsDigit(t[j + 3]) && IsDigit(t[j + 4]) && IsDigit(t[j + 5]) && IsDigit(t[j + 6]) {
      ReadPlain(t, j + 2, j + 7);
      EndsAheadExactlyWhen(t, j + 7);
    }
  }

  lemma {:induction false} StringsEndInQuotes(t: string, i: nat)
    requires i <= |t|
    ensures ReadChars(t, i).Some? ==> t[ReadChars(t, i).value.1 - 1] == '"'
    ensures SkipChars(t, i).To? ==> t[SkipChars(t, i).pos - 1] == '"'
    decreases |t| - i
  {
    if i < |t| && t[i] != '"' {
      var j := ReadChar(t, i);
      if j.Some? {
        StringsEndInQuotes(t, j.value.1);
      }
      var k := if t[i] != '\\' then i + 1 else if At(t, i + 1, 'u') then i + 7 else i + 2;
      if k <= |t| {
        StringsEndInQuotes(t, k);
      }
    }
  }

  /** A text that the reader takes for one string, with any whitespace around it, is accepted by the validator exactly when
      both end the string at the same place. */
  lemma AcceptsExactlyWhen(t: string)
    requires var j := SkipWhite(t, 0);
             At(t, j, '"') && ReadChars(t, j + 1).Some? && SkipWhite(t, ReadChars(t, j + 1).value.1) == |t|
    ensures Validate(t) == Valid <==> InStep(t, SkipWhite(t, 0) + 1)
  {
    hide ReadChars;
    hide SkipChars;
    hide InStep;
    var j := SkipWhite(t, 0);
    var k := ReadChars(t, j + 1).value.1;
    assert SkipValue(t, 0, false) == SkipChars(t, j + 1);
    EndsInStepExactlyWhen(t, j + 1);
    StringsEndInQuotes(t, j + 1);
    if SkipChars(t, j + 1).To? {
      WhiteIsPlain(t, SkipChars(t, j + 1).pos);
      WhiteIsPlain(t, k);
    }
  }

  lemma EscapeAtEnd(t: string, k: nat, d: char, e: char)
    requires IsDigit(d) && IsDigit(e) && k + 7 == |t| && t[k..] == ['\\', 'u', '0', '0', d, e, '"']
    ensures ReadChars(t, k) == Some(([(16 * HexValue(d) + HexValue(e)) as char], k + 7))
    ensures SkipChars(t, k) == BadFormat
  {
    hide HexValue;
    var rest := t[k..];
    assert forall i | 0 <= i < 7 :: t[k + i] == rest[i];
    assert t[k + 0] == '\\' && t[k + 1] == 'u' && t[k + 2] == '0' && t[k + 3] == '0';
    assert t[k + 4] == d && t[k + 5] == e && t[k + 6] == '"';
    assert ReadChars(t, k + 6) == Some(("", k + 7));
    var c := (16 * HexValue(d) + HexValue(e)) as char;
    assert ReadChar(t, k) == Some((c, k + 6));
    assert [c] + "" == [c];
    assert SkipChars(t, k) == SkipChars(t, k + 7);
  }

  lemma StringIsWhole(t: string)
    requires At(t, 0, '"')
    ensures ReadString(t) == match ReadChars(t, 1) case None => None case Some((s, _)) => Some(Some(s))
    ensures SkipChars(t, 1) == BadFormat ==> Validate(t) == Malformed
  {
    hide ReadChars;
    hide SkipChars;
    NoWhite(t, 0);
  }

  /** A string that ends in a Unicode escape is read, but not accepted by the validator, which skips its closing quotation
      mark. */
  lemma UnicodeAtEnd(s: string, d: char, e: char)
    requires IsDigit(d) && IsDigit(e)
    ensures var t := "\"" + Escaped(s) + ['\\', 'u', '0', '0', d, e, '"'];
            && ReadString(t) == Some(Some(s + [(16 * HexValue(d) + HexValue(e)) as char]))
            && Validate(t) == Malformed
  {
    hide Escaped;
    hide HexValue;
    hide ReadChars;
    hide SkipChars;
    hide ReadString;
    hide Validate;
    var t := "\"" + Escaped(s) + ['\\', 'u', '0', '0', d, e, '"'];
    var k := 1 + |Escaped(s)|;
    assert Holds(t, 1, Escaped(s));
    hide Holds;
    CharsArePassed(t, 1, s);
    EscapeAtEnd(t, k, d, e);
    StringIsWhole(t);
  }

  lemma {:induction false} MembersAreLine(fields: seq<(string, Scalar)>, due: bool)
    requires PlainNames(fields)
    ensures IsLine(MembersText(fields, due))
    ensures MembersText(fields, due) != "" && MembersText(fields, due)[|MembersText(fields, due)| - 1] == '}'
    decreases |fields|
  {
    hide ScalarText;
    hide Escape;
    if fields != [] {
      assert IsLine(ScalarText(fields[0].1)) by {
        ScalarIsLine(fields[0].1);
      }
      assert IsLine(fields[0].0) by {
        NameIsLine(fields[0].0);
      }
      MembersAreLine(fields[1..], true);
    }
  }

  lemma NameIsLine(name: string)
    requires PlainName(name)
    ensures IsLine(name)
  {
  }

  lemma ScalarIsLine(v: Scalar)
    ensures IsLine(ScalarText(v))
  {
    match v
    case Number(n) => NumberSurvives(n);
    case Text(s) => StringSurvives(s);
  }

  lemma ObjectBegins(t: string)
    requires At(t, 0, '{')
    ensures ObjectBegin(t) == Some(1) && SkipValue(t, 0, false) == SkipMembers(t, 1, false)
  {
    NoWhite(t, 0);
  }

  lemma ObjectHoldsMembers(fields: seq<(string, Scalar)>)
    ensures At(ObjectText(fields), 0, '{') && Holds(ObjectText(fields), 1, MembersText(fields, false))
  {
  }

  lemma ObjectIsLine(fields: seq<(string, Scalar)>)
    requires PlainNames(fields)
    ensures IsLine(ObjectText(fields)) && ObjectText(fields)[|ObjectText(fields)| - 1] != ']'
  {
    hide MembersText;
    hide PlainName;
    MembersAreLine(fields, false);
  }

  /** Every object of numbers and strings is written as one valid line. */
  lemma ObjectIsPrintable(fields: seq<(string, Scalar)>)
    requires PlainNames(fields)
    ensures Printable(ObjectText(fields))
    ensures ObjectBegin(ObjectText(fields)) == Some(1) && Holds(ObjectText(fields), 1, MembersText(fields, false))
  {
    hide Validate;
    hide MembersText;
    hide SkipMembers;
    hide SkipValue;
    hide ObjectBegin;
    hide PlainNames;
    hide Holds;
    var t := ObjectText(fields);
    ObjectHoldsMembers(fields);
    ObjectBegins(t);
    MembersAreSkipped(t, 1, fields, false);
    WholeIsValid(t);
    ObjectIsLine(fields);
  }

  /** The checksum line of an info file can be relied on with this JSON. */
  lemma JsonIsTrusted()
    ensures InfoFile.Trusted(JSON)
  {
    hide Validate;
    hide Quote;
    hide ReadString;
    forall s
      ensures IsLine(Quote(s)) && ReadString(Quote(s)) == Some(Some(s)) && Survives(Validate, InfoFile.KEY_CHECKSUM, Quote(s))
    {
      StringSurvives(s);
    }
  }

  // ----- Finding a member by its name -----

  ghost predicate AscendingNames(fields: seq<(string, Scalar)>) {
    forall i, j | 0 <= i < j < |fields| :: StringOrder.Less(fields[i].0, fields[j].0)
  }

  /** The first member whose name is a prefix of the name that is looked for. */
  function FirstPrefix(fields: seq<(string, Scalar)>, name: string): (r: Option<nat>)
    ensures r.Some? ==> r.value < |fields| && fields[r.value].0 <= name
    ensures forall k | 0 <= k < (if r.Some? then r.value else |fields|) :: !(fields[k].0 <= name)
  {
    if fields == [] then None
    else if fields[0].0 <= name then Some(0)
    else
      match FirstPrefix(fields[1..], name)
      case None => None
      case Some(k) => Some(k + 1)
  }

  /** Where the value of member `m` begins when the members begin at `i`. */
  function ValuePos(i: nat, fields: seq<(string, Scalar)>, due: bool, m: nat): nat
    requires m < |fields|
    decreases m
  {
    var k := i + (if due then 1 else 0) + |NameText(fields[0].0)|;
    if m == 0 then k else ValuePos(k + |ScalarText(fields[0].1)|, fields[1..], true, m - 1)
  }

  lemma {:induction false} ValuePosGrows(i: nat, fields: seq<(string, Scalar)>, due: bool, m: nat, n: nat)
    requires m < n < |fields|
    ensures i < ValuePos(i, fields, due, m) < ValuePos(i, fields, due, n)
    decreases m, |fields|
  {
    hide NameText;
    hide ScalarText;
    ValuePosAfter(i, fields, due, m);
    var k := i + (if due then 1 else 0) + |NameText(fields[0].0)|;
    if m > 0 {
      ValuePosGrows(k + |ScalarText(fields[0].1)|, fields[1..], true, m - 1, n - 1);
    } else {
      ValuePosAfter(k + |ScalarText(fields[0].1)|, fields[1..], true, n - 1);
    }
  }

  lemma {:induction false} ValuePosAfter(i: nat, fields: seq<(string, Scalar)>, due: bool, m: nat)
    requires m < |fields|
    ensures i < ValuePos(i, fields, due, m)
    decreases m
  {
    hide ScalarText;
    if m > 0 {
      var k := i + (if due then 1 else 0) + |NameText(fields[0].0)|;
      ValuePosAfter(k + |ScalarText(fields[0].1)|, fields[1..], true, m - 1);
    }
  }

  /** A prefix does not come after the name. */
  lemma {:induction false} PrefixIsNotGreater(p: string, name: string)
    requires p <= name
    ensures !StringOrder.Less(name, p)
  {
    if p != "" {
      PrefixIsNotGreater(p[1..], name[1..]);
    }
  }

  lemma NoPrefixAfter(fields: seq<(string, Scalar)>, name: string)
    requires AscendingNames(fields) && fields != [] && StringOrder.Less(name, fields[0].0)
    ensures FirstPrefix(fields, name) == None
  {
    var r := FirstPrefix(fields, name);
    if r.Some? {
      var found := fields[r.value].0;
      PrefixIsNotGreater(found, name);
      if r.value > 0 {
        StringOrder.LessTransitive(name, fields[0].0, found);
      }
    }
  }

  /** Among members in ascending order the search stops at the first name that is a prefix of the one it looks for. */
  lemma {:induction false} SearchFindsPrefix(t: string, i: nat, fields: seq<(string, Scalar)>, due: bool, name: string)
    requires PlainNames(fields) && AscendingNames(fields) && Holds(t, i, MembersText(fields, due))
    ensures FindName(t, i, due, name) ==
            match FirstPrefix(fields, name) case None => None case Some(m) => Some(ValuePos(i, fields, due, m))
    decreases |fields|
  {
    hide Holds;
    hide ReadName;
    hide SkipValue;
    hide SkipWhite;
    hide Peek;
    hide MembersText;
    hide NameText;
    hide ScalarText;
    hide PlainName;
    hide StringOrder.Less;
    if fields == [] {
      NothingIsFound(t, i, due, name);
    } else {
      MembersParts(t, i, fields, due);
      NameIsRead(t, i, due, fields[0].0);
      if !(fields[0].0 <= name) {
        if StringOrder.Less(name, fields[0].0) {
          NoPrefixAfter(fields, name);
        } else {
          var k := i + (if due then 1 else 0) + |NameText(fields[0].0)|;
          ScalarIsSkipped(t, k, fields[0].1);
          SearchFindsPrefix(t, k + |ScalarText(fields[0].1)|, fields[1..], true, name);
        }
      }
    }
  }

  lemma NothingIsFound(t: string, i: nat, due: bool, name: string)
    requires Holds(t, i, MembersText([], due))
    ensures FindName(t, i, due, name) == None
  {
    HoldsHead(t, i, "}");
    NoWhite(t, i);
  }

  /** So a member is found under its name exactly when no member before it has a prefix of that name for its own. */
  lemma MemberIsFoundExactlyWhen(fields: seq<(string, Scalar)>, m: nat)
    requires PlainNames(fields) && AscendingNames(fields) && m < |fields|
    ensures FindName(ObjectText(fields), 1, false, fields[m].0) == Some(ValuePos(1, fields, false, m)) <==>
            forall k | 0 <= k < m :: !(fields[k].0 <= fields[m].0)
  {
    hide FindName;
    hide ValuePos;
    hide MembersText;
    ObjectIsPrintable(fields);
    SearchFindsPrefix(ObjectText(fields), 1, fields, false, fields[m].0);
    assert fields[m].0 <= fields[m].0;
    var r := FirstPrefix(fields, fields[m].0);
    assert r.Some? && r.value <= m;
    if r.value < m {
      ValuePosGrows(1, fields, false, r.value, m);
    }
  }

  /** Such as: the member "a" is taken for the member "ab". */
  lemma PrefixIsTaken(x: Scalar, y: Scalar)
    ensures var fields := [("a", x), ("ab", y)];
            && PlainNames(fields) && AscendingNames(fields)
            && FindName(ObjectText(fields), 1, false, "ab") == Some(ValuePos(1, fields, false, 0))
            && ValuePos(1, fields, false, 0) < ValuePos(1, fields, false, 1)
  {
    hide FindName;
    hide ValuePos;
    hide ObjectText;
    var fields := [("a", x), ("ab", y)];
    assert "ab"[1..] == "b" && "a"[1..] == "" && StringOrder.Less("a", "ab");
    ObjectHoldsMembers(fields);
    SearchFindsPrefix(ObjectText(fields), 1, fields, false, "ab");
    assert FirstPrefix(fields, "ab") == Some(0);
    ValuePosGrows(1, fields, false, 0, 1);
  }
}
