/** Loading an ini file whose values are JSON. The character between key and value may also be part of the key, so it is
    found by trying the value at each equals sign. */
module IniFile {
  import opened Wrappers
  import JsonText

  /** What the JSON validator does with a text: returns, throws JsonFormatError, or throws something else. */
  datatype Verdict = Valid | Malformed | Fails

  type Validator = string -> Verdict

  datatype Entry = Entry(section: string, key: string, value: string)

  datatype Problem = EmptySection | OutsideSection | MissingEqual | InvalidJson | EmptyKey | ValidatorFailed

  /** A load that stopped: the entries delivered before, the line number and what was wrong. */
  datatype Failure = Failure(entries: seq<Entry>, line: nat, problem: Problem)

  /** The section read last, how many lines have been read, and the entries delivered to the callback. */
  datatype State = State(section: string, line: nat, entries: seq<Entry>)

  const START := State("", 0, [])

  // ----- Lines -----

  /** Position of the first `c` at or after `i`, or the length of the text. */
  function Find(text: string, c: char, i: nat): (j: nat)
    requires i <= |text|
    ensures i <= j <= |text| && (j < |text| ==> text[j] == c)
    ensures forall k | i <= k < j :: text[k] != c
    decreases |text| - i
  {
    if i == |text| || text[i] == c then i else Find(text, c, i + 1)
  }

  /** The lines of a text; the last one need not end in a linefeed. */
  function Lines(text: string): seq<string>
    decreases |text|
  {
    if text == "" then []
    else
      var j := Find(text, '\n', 0);
      if j == |text| then [text] else [text[..j]] + Lines(text[j + 1..])
  }

  /** The text that has the given lines. */
  function Joined(lines: seq<string>): string {
    if lines == [] then "" else lines[0] + "\n" + Joined(lines[1..])
  }

  predicate IsLine(s: string) {
    '\n' !in s
  }

  /** What is left of a text after its first line. */
  function AfterLine(text: string): (rest: string)
    requires text != ""
    ensures |rest| < |text|
  {
    var end := Find(text, '\n', 0);
    if end == |text| then "" else text[end + 1..]
  }

  lemma LinesStep(text: string)
    requires text != ""
    ensures Lines(text) == [text[..Find(text, '\n', 0)]] + Lines(AfterLine(text))
  {
    if Find(text, '\n', 0) == |text| {
      assert text[..|text|] == text;
    }
  }

  lemma NoLines()
    ensures Lines("") == []
  {
  }

  lemma FirstLine(line: string, rest: string)
    requires IsLine(line)
    ensures Lines(line + "\n" + rest) == [line] + Lines(rest)
  {
    hide Find;
    var text := line + "\n" + rest;
    var n := |line|;
    assert text[n] == '\n';
    assert forall k | 0 <= k < n :: text[k] == line[k] && line[k] in line;
    assert Find(text, '\n', 0) == n;
    assert text[..n] == line && text[n + 1..] == rest;
  }

  /** Reading lines undoes writing them. */
  lemma {:induction false} LinesOfJoined(lines: seq<string>)
    requires forall l | l in lines :: IsLine(l)
    ensures Lines(Joined(lines)) == lines
  {
    if lines != [] {
      LinesOfJoined(lines[1..]);
      FirstLine(lines[0], Joined(lines[1..]));
    }
  }

  lemma {:induction false} JoinedAppend(a: seq<string>, b: seq<string>)
    ensures Joined(a + b) == Joined(a) + Joined(b)
  {
    if a == [] {
      assert a + b == b;
    } else {
      assert (a + b)[0] == a[0] && (a + b)[1..] == a[1..] + b;
      JoinedAppend(a[1..], b);
    }
  }

  // ----- One line -----

  predicate IsSection(line: string) {
    line != "" && line[0] == '[' && line[|line| - 1] == ']'
  }

  /** The separator of a line: the first equals sign at or after `i` that a valid value follows. */
  function Separator(validate: Validator, line: string, i: nat): (r: Result<nat, Problem>)
    requires i <= |line|
    ensures r.Ok? ==> i <= r.value < |line| && line[r.value] == '='
    decreases |line| - i
  {
    var e := Find(line, '=', i);
    if e == |line| then Err(InvalidJson)
    else
      match validate(line[e + 1..])
      case Valid => Ok(e)
      case Malformed => Separator(validate, line, e + 1)
      case Fails => Err(ValidatorFailed)
  }

  /** Key and value of a line that is neither blank nor a section. */
  function KeyValue(validate: Validator, line: string): (r: Result<(string, string), Problem>) {
    if '=' !in line then Err(MissingEqual)
    else
      match Separator(validate, line, 0)
      case Err(problem) => Err(problem)
      case Ok(e) => if e == 0 then Err(EmptyKey) else Ok((line[..e], line[e + 1..]))
  }

  function ReadLine(validate: Validator, st: State, line: string): Result<State, Failure> {
    if line == "" then Ok(st.(line := st.line + 1))
    else if IsSection(line) then
      if |line| <= 2 then Err(Failure(st.entries, st.line + 1, EmptySection))
      else Ok(State(line[1..|line| - 1], st.line + 1, st.entries))
    else if st.section == "" then Err(Failure(st.entries, st.line + 1, OutsideSection))
    else
      match KeyValue(validate, line)
      case Err(problem) => Err(Failure(st.entries, st.line + 1, problem))
      case Ok((key, value)) => Ok(State(st.section, st.line + 1, st.entries + [Entry(st.section, key, value)]))
  }

  function ReadLines(validate: Validator, st: State, lines: seq<string>): Result<State, Failure>
    decreases |lines|
  {
    if lines == [] then Ok(st)
    else
      match ReadLine(validate, st, lines[0])
      case Err(failure) => Err(failure)
      case Ok(next) => ReadLines(validate, next, lines[1..])
  }

  lemma {:induction false} ReadLinesAppend(validate: Validator, st: State, a: seq<string>, b: seq<string>)
    ensures ReadLines(validate, st, a + b) ==
            match ReadLines(validate, st, a)
            case Err(failure) => Err(failure)
            case Ok(next) => ReadLines(validate, next, b)
    decreases |a|
  {
    if a == [] {
      assert a + b == b;
    } else {
      assert (a + b)[0] == a[0] && (a + b)[1..] == a[1..] + b;
      match ReadLine(validate, st, a[0])
      case Err(_) =>
      case Ok(next) => ReadLinesAppend(validate, next, a[1..], b);
    }
  }

  /** The search can start at the first equals sign. */
  lemma SeparatorFrom(validate: Validator, line: string, i: nat)
    requires i <= |line|
    ensures Separator(validate, line, i) == Separator(validate, line, Find(line, '=', i))
  {
  }

  lemma SeparatorAtEnd(validate: Validator, line: string)
    ensures Separator(validate, line, |line|) == Err(InvalidJson)
  {
  }

  /** One turn of the retry loop. */
  lemma SeparatorStep(validate: Validator, line: string, e: nat)
    requires e < |line| && line[e] == '='
    ensures Separator(validate, line, e) ==
            match validate(line[e + 1..])
            case Valid => Ok(e)
            case Fails => Err(ValidatorFailed)
            case Malformed => Separator(validate, line, Find(line, '=', e + 1))
  {
  }

  // ----- The loader -----

  /** The retry loop: moves the separator to the next equals sign as long as the value is malformed. */
  method FindSeparator(validate: Validator, line: string) returns (r: Result<(string, string), Problem>)
    ensures r == KeyValue(validate, line)
  {
    hide Find;
    hide Separator;
    var e := Find(line, '=', 0);
    if e == |line| {
      return Err(MissingEqual);
    }
    assert line[e] in line;
    SeparatorFrom(validate, line, 0);
    var key, value := "", "";
    var retry := true;
    while retry
      invariant e < |line| && line[e] == '='
      invariant retry ==> Separator(validate, line, 0) == Separator(validate, line, e)
      invariant !retry ==> Separator(validate, line, 0) == Ok(e) && key == line[..e] && value == line[e + 1..]
      decreases |line| - e, retry
    {
      retry := false;
      key := line[..e];
      value := line[e + 1..];
      SeparatorStep(validate, line, e);
      match validate(value) {
        case Valid =>
        case Fails => return Err(ValidatorFailed);
        case Malformed =>
          e := Find(line, '=', e + 1);
          if e == |line| {
            SeparatorAtEnd(validate, line);
            return Err(InvalidJson);
          }
          retry := true;
      }
    }
    if |key| == 0 {
      return Err(EmptyKey);
    }
    return Ok((key, value));
  }

  /** Reads the text line by line and delivers an entry for each line that is neither blank nor a section. */
  method Load(validate: Validator, text: string) returns (r: Result<State, Failure>)
    ensures r == ReadLines(validate, START, Lines(text))
  {
    hide Find;
    hide Lines;
    hide AfterLine;
    hide KeyValue;
    var section := "";
    var lineIdx := 0;
    var entries: seq<Entry> := [];
    var rest := text;
    while rest != ""
      invariant ReadLines(validate, State(section, lineIdx, entries), Lines(rest)) == ReadLines(validate, START, Lines(text))
      decreases |rest|
    {
      var end := Find(rest, '\n', 0);
      var line := rest[..end];
      ghost var st := State(section, lineIdx, entries);
      LinesStep(rest);
      assert Lines(rest)[0] == line && Lines(rest)[1..] == Lines(AfterLine(rest));
      if line != "" {
        if line[0] == '[' && line[|line| - 1] == ']' {
          if |line| <= 2 {
            return Err(Failure(entries, lineIdx + 1, EmptySection));
          }
          section := line[1..|line| - 1];
        } else {
          if section == "" {
            return Err(Failure(entries, lineIdx + 1, OutsideSection));
          }
          var pair := FindSeparator(validate, line);
          if pair.Err? {
            return Err(Failure(entries, lineIdx + 1, pair.error));
          }
          entries := entries + [Entry(section, pair.value.0, pair.value.1)];
        }
      }
      lineIdx := lineIdx + 1;
      assert ReadLine(validate, st, line) == Ok(State(section, lineIdx, entries));
      rest := AfterLine(rest);
    }
    NoLines();
    r := Ok(State(section, lineIdx, entries));
  }

  // ----- Where the separator is found -----

  /** The first `e` characters hold no separator that the retry loop accepts or stops at. */
  predicate NoneBefore(validate: Validator, line: string, i: nat, e: nat)
    requires e <= |line|
  {
    forall d | i <= d < e :: line[d] == '=' ==> validate(line[d + 1..]) == Malformed
  }

  /** The retry loop stops at `e` exactly when a valid value follows the equals sign there and what follows each earlier
      equals sign is malformed. */
  lemma {:induction false} StopsExactlyAt(validate: Validator, line: string, i: nat, e: nat)
    requires i <= e < |line|
    ensures Separator(validate, line, i) == Ok(e) <==>
            line[e] == '=' && validate(line[e + 1..]) == Valid && NoneBefore(validate, line, i, e)
    decreases e - i
  {
    hide Find;
    var d := Find(line, '=', i);
    if d < e {
      if validate(line[d + 1..]) == Malformed {
        StopsExactlyAt(validate, line, d + 1, e);
        assert NoneBefore(validate, line, i, e) <==> NoneBefore(validate, line, d + 1, e);
      }
    }
  }

  /** No equals sign in the key is taken for the separator. */
  predicate KeyIsPassed(validate: Validator, key: string, value: string) {
    forall d | 0 <= d < |key| :: key[d] == '=' ==> validate(key[d + 1..] + "=" + value) == Malformed
  }

  /** A key and value that the line made of them gives back. */
  predicate Survives(validate: Validator, key: string, value: string) {
    && key != ""
    && validate(value) == Valid
    && KeyIsPassed(validate, key, value)
    && (key[0] == '[' ==> value == "" || value[|value| - 1] != ']')
  }

  lemma PassedIsNoneBefore(validate: Validator, key: string, value: string)
    ensures NoneBefore(validate, key + "=" + value, 0, |key|) <==> KeyIsPassed(validate, key, value)
  {
    var line := key + "=" + value;
    forall d | 0 <= d < |key|
      ensures line[d] == key[d] && line[d + 1..] == key[d + 1..] + "=" + value
    {
    }
  }

  lemma KeyValueReadsBack(validate: Validator, key: string, value: string)
    ensures KeyValue(validate, key + "=" + value) == Ok((key, value)) <==>
            key != "" && validate(value) == Valid && KeyIsPassed(validate, key, value)
  {
    var line := key + "=" + value;
    var e := |key|;
    assert line[e] == '=' && line[..e] == key && line[e + 1..] == value;
    PassedIsNoneBefore(validate, key, value);
    StopsExactlyAt(validate, line, 0, e);
    assert line[e] in line;
    if KeyValue(validate, line) == Ok((key, value)) {
      assert |line[..Separator(validate, line, 0).value]| == e;
    }
  }

  /** A line is read as the key and value it was made of exactly when they survive. */
  lemma ReadsBack(validate: Validator, st: State, key: string, value: string)
    requires st.section != ""
    ensures ReadLine(validate, st, key + "=" + value) ==
            Ok(State(st.section, st.line + 1, st.entries + [Entry(st.section, key, value)]))
            <==> Survives(validate, key, value)
  {
    hide KeyValue;
    hide KeyIsPassed;
    var line := key + "=" + value;
    KeyValueReadsBack(validate, key, value);
    assert line[|line| - 1] == if value == "" then '=' else value[|value| - 1];
    assert line[0] == if key == "" then '=' else key[0];
    match ReadLine(validate, st, line)
    case Err(_) =>
    case Ok(next) =>
      if !IsSection(line) {
        assert next.entries[|st.entries|].key == KeyValue(validate, line).value.0;
        assert next.entries[|st.entries|].value == KeyValue(validate, line).value.1;
      }
  }

  // ----- The grammar of RFC 8259 as validator -----

  function Rfc(value: string): Verdict {
    if JsonText.IsJson(value) then Valid else Malformed
  }

  lemma RfcPassesKey(key: string, value: string)
    requires JsonText.IsJson(value)
    ensures KeyIsPassed(Rfc, key, value)
  {
    forall d | 0 <= d < |key| && key[d] == '='
      ensures Rfc(key[d + 1..] + "=" + value) == Malformed
    {
      JsonText.EqualsBeforeJson(key[d + 1..], value);
    }
  }

  /** Every key, even one that holds equals signs, quotes or brackets, survives with every JSON value that is not an
      array: the separator is never found early and the line is never taken for a section. */
  lemma EveryKeySurvives(key: string, value: string)
    requires key != "" && JsonText.IsJson(value) && !JsonText.IsArray(value)
    ensures Survives(Rfc, key, value)
  {
    JsonText.OnlyArraysEndInBracket(value);
    RfcPassesKey(key, value);
  }

  /** Only for arrays does the first character of the key matter. */
  lemma ArraySurvives(key: string, value: string)
    requires key != "" && JsonText.IsJson(value) && value[|value| - 1] == ']'
    ensures Survives(Rfc, key, value) <==> key[0] != '['
  {
    RfcPassesKey(key, value);
  }
}
