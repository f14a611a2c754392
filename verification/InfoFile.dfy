/** Info files: sections of key/value pairs with a checksum over all of them at the end. */
module InfoFile {
  import opened Wrappers
  import opened IniFile
  import JsonText

  const SECTION_BACKREST := "backrest"
  const SECTION_CIPHER := "cipher"
  const KEY_FORMAT := "backrest-format"
  const KEY_VERSION := "backrest-version"
  const KEY_CHECKSUM := "backrest-checksum"
  const KEY_CIPHER_PASS := "cipher-pass"
  const REPOSITORY_FORMAT: nat := 5

  /** JSON as far as info files use it. Reading gives None where the reader throws; a string may also be null. */
  datatype Json = Json(validate: Validator, quote: string -> string,
                       readString: string -> Option<Option<string>>, readUInt: string -> Option<nat>)

  type Hash = string -> string

  datatype Problem = Ini(failure: Failure) | BadValue | WrongFormat | NoChecksum | WrongChecksum

  /** What a load keeps of the common sections, and the entries of the other sections. */
  datatype Info = Info(version: Option<string>, cipherPass: Option<string>, others: seq<Entry>)

  // ----- What is written -----

  function LastSection(es: seq<Entry>): Option<string> {
    if es == [] then None else Some(es[|es| - 1].section)
  }

  /** The lines an entry adds to the file after section `last`. */
  function EntryLines(last: Option<string>, e: Entry): seq<string> {
    (if last == Some(e.section) then [] else (if last == None then [] else [""]) + ["[" + e.section + "]"])
    + [e.key + "=" + e.value]
  }

  function FileLines(es: seq<Entry>): seq<string> {
    if es == [] then []
    else
      var n := |es| - 1;
      FileLines(es[..n]) + EntryLines(LastSection(es[..n]), es[n])
  }

  /** What an entry adds to the hashed stream after section `last`. */
  function EntryHashed(quote: string -> string, last: Option<string>, e: Entry): string {
    (if last == Some(e.section) then "," else (if last == None then "" else "},") + "\"" + e.section + "\":{")
    + quote(e.key) + ":" + e.value
  }

  function Hashed(quote: string -> string, es: seq<Entry>): string {
    if es == [] then "{"
    else
      var n := |es| - 1;
      Hashed(quote, es[..n]) + EntryHashed(quote, LastSection(es[..n]), es[n])
  }

  function Checksum(json: Json, sha1: Hash, es: seq<Entry>): string {
    sha1(Hashed(json.quote, es) + "}}")
  }

  function ChecksumEntry(json: Json, sha1: Hash, es: seq<Entry>): Entry {
    Entry(SECTION_BACKREST, KEY_CHECKSUM, json.quote(Checksum(json, sha1, es)))
  }

  function ChecksumLines(e: Entry): seq<string> {
    ["", "[" + e.section + "]", e.key + "=" + e.value]
  }

  /** A file that holds the given entries and a checksum. */
  function FileWith(json: Json, es: seq<Entry>, checksum: string): string {
    Joined(FileLines(es) + ChecksumLines(Entry(SECTION_BACKREST, KEY_CHECKSUM, json.quote(checksum))))
  }

  /** The file that holds the given entries. */
  function FileText(json: Json, sha1: Hash, es: seq<Entry>): string {
    FileWith(json, es, Checksum(json, sha1, es))
  }

  class InfoSave {
    const json: Json
    var write: string
    var checksum: string
    var sectionLast: Option<string>
    ghost var saved: seq<Entry>

    ghost predicate Valid()
      reads this
    {
      && write == Joined(FileLines(saved))
      && checksum == Hashed(json.quote, saved)
      && sectionLast == LastSection(saved)
    }

    constructor (json: Json)
      ensures Valid() && this.json == json && saved == []
    {
      this.json := json;
      write := "";
      checksum := "{";
      sectionLast := None;
      saved := [];
    }

    /** Saves one value, with a section header when the section is another one than before. */
    method SaveValue(section: string, key: string, value: string)
      requires Valid()
      modifies this
      ensures Valid() && saved == old(saved) + [Entry(section, key, value)]
    {
      hide FileLines;
      hide Hashed;
      hide Joined;
      hide EntryLines;
      ghost var e := Entry(section, key, value);
      ghost var last := sectionLast;
      var text, hashed := "", ",";
      if sectionLast == None || sectionLast.value != section {
        hashed := "";
        if sectionLast != None {
          hashed := "},";
          text := "\n";
        }
        hashed := hashed + "\"" + section + "\":{";
        text := text + "[" + section + "]" + "\n";
        sectionLast := Some(section);
      }
      hashed := hashed + json.quote(key) + ":" + value;
      text := text + key + "=" + value + "\n";
      assert hashed == EntryHashed(json.quote, last, e);
      assert text == EntryText(last, e);
      checksum := checksum + hashed;
      write := write + text;

      saved := saved + [e];
      Extended(json.quote, old(saved), e);
      JoinedEntry(last, e);
      JoinedAppend(FileLines(old(saved)), EntryLines(last, e));
    }

    /** Ends the file with the checksum of what was saved. */
    method End(sha1: Hash) returns (text: string)
      requires Valid()
      modifies this
      ensures saved == old(saved) && text == FileText(json, sha1, saved)
    {
      hide FileLines;
      hide Hashed;
      hide Joined;
      checksum := checksum + "}}";
      var trailer := "\n" + "[" + SECTION_BACKREST + "]" + "\n" + KEY_CHECKSUM + "=" + json.quote(sha1(checksum)) + "\n";
      write := write + trailer;
      text := write;
      ghost var e := ChecksumEntry(json, sha1, saved);
      JoinedAppend(FileLines(saved), ChecksumLines(e));
      JoinedChecksum(e);
    }
  }

  lemma Extended(quote: string -> string, es: seq<Entry>, e: Entry)
    ensures FileLines(es + [e]) == FileLines(es) + EntryLines(LastSection(es), e)
    ensures Hashed(quote, es + [e]) == Hashed(quote, es) + EntryHashed(quote, LastSection(es), e)
  {
  }

  /** The text an entry adds to the file after section `last`. */
  function EntryText(last: Option<string>, e: Entry): string {
    (if last == Some(e.section) then "" else (if last == None then "" else "\n") + "[" + e.section + "]" + "\n")
    + e.key + "=" + e.value + "\n"
  }

  lemma JoinedEntry(last: Option<string>, e: Entry)
    ensures Joined(EntryLines(last, e)) == EntryText(last, e)
  {
    var pair := [e.key + "=" + e.value];
    var header := "[" + e.section + "]";
    JoinedOne(pair[0]);
    if last != Some(e.section) {
      JoinedOne(header);
      JoinedAppend([header], pair);
      if last == None {
        assert EntryLines(last, e) == [header] + pair;
      } else {
        JoinedOne("");
        JoinedAppend([""], [header] + pair);
        assert EntryLines(last, e) == [""] + ([header] + pair);
      }
    }
  }

  lemma JoinedOne(line: string)
    ensures Joined([line]) == line + "\n"
  {
  }

  lemma JoinedChecksum(e: Entry)
    ensures Joined(ChecksumLines(e)) == "\n" + "[" + e.section + "]" + "\n" + e.key + "=" + e.value + "\n"
  {
    JoinedEntry(Some(e.section + "x"), e);
    assert EntryLines(Some(e.section + "x"), e) == ChecksumLines(e);
  }

  // ----- What is read -----

  predicate IsChecksum(e: Entry) {
    e.section == SECTION_BACKREST && e.key == KEY_CHECKSUM
  }

  /** The entries that the checksum covers. */
  function Covered(es: seq<Entry>): seq<Entry> {
    if es == [] then []
    else
      var n := |es| - 1;
      Covered(es[..n]) + (if IsChecksum(es[n]) then [] else [es[n]])
  }

  /** The value that was last given to a key. */
  function LastValue(es: seq<Entry>, section: string, key: string): Option<string> {
    if es == [] then None
    else
      var e := es[|es| - 1];
      if e.section == section && e.key == key then Some(e.value) else LastValue(es[..|es| - 1], section, key)
  }

  /** The entries of the sections that the common part does not know. */
  function Others(es: seq<Entry>): seq<Entry> {
    if es == [] then []
    else
      var e := es[|es| - 1];
      Others(es[..|es| - 1]) + (if e.section == SECTION_BACKREST || e.section == SECTION_CIPHER then [] else [e])
  }

  /** What is kept of a string value: nothing for null. */
  function ReadValue(json: Json, value: string): Option<string> {
    match json.readString(value)
    case None => None
    case Some(s) => s
  }

  function ReadLast(json: Json, es: seq<Entry>, section: string, key: string): Option<string> {
    match LastValue(es, section, key)
    case None => None
    case Some(v) => ReadValue(json, v)
  }

  predicate IsText(e: Entry) {
    || (e.section == SECTION_BACKREST && (e.key == KEY_VERSION || e.key == KEY_CHECKSUM))
    || (e.section == SECTION_CIPHER && e.key == KEY_CIPHER_PASS)
  }

  /** Why an entry of the common sections is refused. */
  function ProblemOf(json: Json, e: Entry): Option<Problem> {
    if e.section == SECTION_BACKREST && e.key == KEY_FORMAT then
      match json.readUInt(e.value)
      case None => Some(BadValue)
      case Some(n) => if n == REPOSITORY_FORMAT then None else Some(WrongFormat)
    else if IsText(e) && json.readString(e.value) == None then Some(BadValue)
    else None
  }

  function FirstProblem(json: Json, es: seq<Entry>): Option<Problem> {
    if es == [] then None
    else if ProblemOf(json, es[0]).Some? then ProblemOf(json, es[0])
    else FirstProblem(json, es[1..])
  }

  function InfoOf(json: Json, es: seq<Entry>): Info {
    Info(ReadLast(json, es, SECTION_BACKREST, KEY_VERSION),
         ReadLast(json, es, SECTION_CIPHER, KEY_CIPHER_PASS),
         Others(es))
  }

  function Delivered(r: Result<State, Failure>): seq<Entry> {
    if r.Ok? then r.value.entries else r.error.entries
  }

  /** The result of loading a file. */
  function Loaded(json: Json, sha1: Hash, text: string): Result<Info, Problem> {
    var r := ReadLines(json.validate, START, Lines(text));
    var es := Delivered(r);
    if FirstProblem(json, es).Some? then Err(FirstProblem(json, es).value)
    else if r.Err? then Err(Ini(r.error))
    else
      match ReadLast(json, es, SECTION_BACKREST, KEY_CHECKSUM)
      case None => Err(NoChecksum)
      case Some(expected) =>
        if expected == Checksum(json, sha1, Covered(es)) then Ok(InfoOf(json, es)) else Err(WrongChecksum)
  }

  lemma KeysDiffer()
    ensures KEY_CHECKSUM != KEY_VERSION && KEY_CHECKSUM != KEY_FORMAT && SECTION_BACKREST != SECTION_CIPHER
  {
  }

  class InfoLoad {
    const json: Json
    var sectionLast: Option<string>
    var checksumActual: string
    var checksumExpected: Option<string>
    var version: Option<string>
    var cipherPass: Option<string>
    var others: seq<Entry>
    ghost var seen: seq<Entry>

    ghost predicate Valid()
      reads this
    {
      && sectionLast == LastSection(Covered(seen))
      && checksumActual == Hashed(json.quote, Covered(seen))
      && checksumExpected == ReadLast(json, seen, SECTION_BACKREST, KEY_CHECKSUM)
      && version == ReadLast(json, seen, SECTION_BACKREST, KEY_VERSION)
      && cipherPass == ReadLast(json, seen, SECTION_CIPHER, KEY_CIPHER_PASS)
      && others == Others(seen)
    }

    constructor (json: Json)
      ensures Valid() && this.json == json && seen == []
    {
      this.json := json;
      sectionLast := None;
      checksumActual := "{";
      checksumExpected := None;
      version := None;
      cipherPass := None;
      others := [];
      seen := [];
    }

    /** The stream that is hashed grows by every entry except the checksum itself. */
    method Hash(e: Entry)
      requires Valid() && !IsChecksum(e)
      modifies this`sectionLast, this`checksumActual
      ensures sectionLast == Some(e.section)
      ensures checksumActual == Hashed(json.quote, Covered(seen) + [e])
    {
      hide Hashed;
      hide Covered;
      ghost var last := sectionLast;
      var hashed := ",";
      if sectionLast == None || e.section != sectionLast.value {
        hashed := if sectionLast == None then "" else "},";
        hashed := hashed + "\"" + e.section + "\":{";
        sectionLast := Some(e.section);
      }
      hashed := hashed + json.quote(e.key) + ":" + e.value;
      assert hashed == EntryHashed(json.quote, last, e);
      checksumActual := checksumActual + hashed;
      Extended(json.quote, Covered(seen), e);
    }

    /** Takes one entry of the file. */
    method Callback(e: Entry) returns (problem: Option<Problem>)
      requires Valid()
      modifies this
      ensures problem == ProblemOf(json, e)
      ensures problem == None ==> Valid() && seen == old(seen) + [e]
    {
      hide Hashed;
      hide Covered;
      hide Others;
      hide LastValue;
      hide ReadLast;
      KeysDiffer();
      if !IsChecksum(e) {
        Hash(e);
      }
      if e.section == SECTION_BACKREST {
        if e.key == KEY_FORMAT {
          match json.readUInt(e.value) {
            case None => return Some(BadValue);
            case Some(n) =>
              if n != REPOSITORY_FORMAT {
                return Some(WrongFormat);
              }
          }
        } else if e.key == KEY_VERSION {
          if json.readString(e.value) == None {
            return Some(BadValue);
          }
          version := ReadValue(json, e.value);
        } else if e.key == KEY_CHECKSUM {
          if json.readString(e.value) == None {
            return Some(BadValue);
          }
          checksumExpected := ReadValue(json, e.value);
        }
      } else if e.section == SECTION_CIPHER {
        if e.key == KEY_CIPHER_PASS {
          if json.readString(e.value) == None {
            return Some(BadValue);
          }
          cipherPass := ReadValue(json, e.value);
        }
      } else {
        others := others + [e];
      }
      seen := seen + [e];
      SeenOneMore(json, old(seen), e);
      problem := None;
    }
  }

  lemma SeenOneMore(json: Json, es: seq<Entry>, e: Entry)
    ensures Covered(es + [e]) == if IsChecksum(e) then Covered(es) else Covered(es) + [e]
    ensures Others(es + [e]) ==
            if e.section == SECTION_BACKREST || e.section == SECTION_CIPHER then Others(es) else Others(es) + [e]
    ensures forall section, key :: ReadLast(json, es + [e], section, key) ==
              if e.section == section && e.key == key then ReadValue(json, e.value) else ReadLast(json, es, section, key)
  {
  }

  /** An entry that is no obstacle: the format is the current one, and version, checksum and passphrase are strings or null. */
  predicate Acceptable(json: Json, e: Entry) {
    && (e.section == "backrest" && e.key == "backrest-format" ==> json.readUInt(e.value) == Some(5))
    && (e.section == "backrest" && e.key in {"backrest-version", "backrest-checksum"} ==> json.readString(e.value).Some?)
    && (e.section == "cipher" && e.key == "cipher-pass" ==> json.readString(e.value).Some?)
  }

  /** The first entry that is not acceptable decides: a number that is another format, or a value that cannot be read. */
  lemma {:induction false} ProblemIsFirst(json: Json, es: seq<Entry>, i: nat)
    requires i < |es| && !Acceptable(json, es[i]) && forall j | 0 <= j < i :: Acceptable(json, es[j])
    ensures FirstProblem(json, es)
         == Some(if es[i].key == "backrest-format" && json.readUInt(es[i].value).Some? then WrongFormat else BadValue)
  {
    if i > 0 {
      assert Acceptable(json, es[0]);
      ProblemIsFirst(json, es[1..], i - 1);
    }
  }

  lemma {:induction false} NoProblem(json: Json, es: seq<Entry>)
    requires forall j | 0 <= j < |es| :: Acceptable(json, es[j])
    ensures FirstProblem(json, es) == None
  {
    if es != [] {
      assert Acceptable(json, es[0]);
      NoProblem(json, es[1..]);
    }
  }

  /** A file is refused for an entry if and only if one of the entries before the end, or before the line that cannot be read,
      is not acceptable. */
  lemma RefusedForEntryExactlyWhen(json: Json, sha1: Hash, text: string)
    ensures Loaded(json, sha1, text) == Err(BadValue) || Loaded(json, sha1, text) == Err(WrongFormat) <==>
            !AllAcceptable(json, Delivered(ReadLines(json.validate, START, Lines(text))))
  {
    hide ReadLast;
    hide ReadLines;
    hide Lines;
    hide AllAcceptable;
    ProblemExactlyWhen(json, Delivered(ReadLines(json.validate, START, Lines(text))));
  }

  predicate AllAcceptable(json: Json, es: seq<Entry>) {
    forall j | 0 <= j < |es| :: Acceptable(json, es[j])
  }

  lemma ProblemExactlyWhen(json: Json, es: seq<Entry>)
    ensures !AllAcceptable(json, es) <==> FirstProblem(json, es).Some?
    ensures FirstProblem(json, es).Some? ==> FirstProblem(json, es).value in {BadValue, WrongFormat}
  {
    hide FirstProblem;
    hide Acceptable;
    var j := 0;
    while j < |es| && Acceptable(json, es[j])
      invariant j <= |es| && forall k | 0 <= k < j :: Acceptable(json, es[k])
    {
      j := j + 1;
    }
    if j < |es| {
      ProblemIsFirst(json, es, j);
    } else {
      NoProblem(json, es);
    }
  }

  lemma {:induction false} FirstProblemAppend(json: Json, a: seq<Entry>, b: seq<Entry>)
    ensures FirstProblem(json, a + b) == if FirstProblem(json, a).Some? then FirstProblem(json, a) else FirstProblem(json, b)
  {
    if a == [] {
      assert a + b == b;
    } else {
      assert (a + b)[0] == a[0] && (a + b)[1..] == a[1..] + b;
      FirstProblemAppend(json, a[1..], b);
    }
  }

  /** Loads a file: the common sections are kept, the others handed on, and the checksum is verified. */
  method NewLoad(json: Json, sha1: Hash, text: string) returns (r: Result<Info, Problem>)
    ensures r == Loaded(json, sha1, text)
  {
    hide Hashed;
    hide Covered;
    hide Others;
    hide LastValue;
    hide ReadLast;
    hide ReadLines;
    hide Lines;
    hide ProblemOf;
    var ini := IniFile.Load(json.validate, text);
    var es := Delivered(ini);
    var data := new InfoLoad(json);
    var i := 0;
    while i < |es|
      invariant 0 <= i <= |es|
      invariant fresh(data) && data.json == json && data.Valid() && data.seen == es[..i]
      invariant FirstProblem(json, es[..i]) == None
    {
      assert es[..i] + [es[i]] == es[..i + 1];
      FirstProblemAppend(json, es[..i], [es[i]]);
      FirstProblemAppend(json, es[..i + 1], es[i + 1..]);
      assert es[..i + 1] + es[i + 1..] == es;
      assert FirstProblem(json, [es[i]]) == ProblemOf(json, es[i]);
      var problem := data.Callback(es[i]);
      if problem != None {
        return Err(problem.value);
      }
      i := i + 1;
    }
    assert es[..i] == es;
    if ini.Err? {
      return Err(Ini(ini.error));
    }
    data.checksumActual := data.checksumActual + "}}";
    if data.checksumExpected == None {
      return Err(NoChecksum);
    }
    if data.checksumExpected.value != sha1(data.checksumActual) {
      return Err(WrongChecksum);
    }
    r := Ok(Info(data.version, data.cipherPass, data.others));
  }

  // ----- Round trip -----

  /** An entry that the file format can carry. */
  predicate Savable(json: Json, e: Entry) {
    && e.section != "" && IsLine(e.section) && IsLine(e.key) && IsLine(e.value)
    && Survives(json.validate, e.key, e.value)
  }

  /** What saving and loading rely on: strings round trip and fit on a line. `JsonCodec.JsonIsTrusted` proves it of the JSON
      in use. */
  ghost predicate Trusted(json: Json) {
    forall s ::
      && IsLine(json.quote(s))
      && json.readString(json.quote(s)) == Some(Some(s))
      && Survives(json.validate, KEY_CHECKSUM, json.quote(s))
  }

  ghost predicate AllSavable(json: Json, es: seq<Entry>) {
    forall i | 0 <= i < |es| :: Savable(json, es[i]) && !IsChecksum(es[i])
  }

  lemma HeaderIsRead(validate: Validator, st: State, section: string)
    requires section != ""
    ensures ReadLine(validate, st, "[" + section + "]") == Ok(State(section, st.line + 1, st.entries))
  {
  }

  lemma {:induction false} ReadTwo(validate: Validator, st: State, a: string, b: string)
    ensures ReadLines(validate, st, [a, b]) ==
            match ReadLine(validate, st, a)
            case Err(failure) => Err(failure)
            case Ok(next) => ReadLine(validate, next, b)
  {
    match ReadLine(validate, st, a)
    case Err(_) =>
    case Ok(next) =>
      assert [a, b][1..] == [b];
      ReadOne(validate, next, b);
  }

  lemma ReadOne(validate: Validator, st: State, line: string)
    ensures ReadLines(validate, st, [line]) == ReadLine(validate, st, line)
  {
  }

  /** The lines of an entry are read as that entry, whatever section was read before. */
  lemma EntryIsRead(json: Json, st: State, last: Option<string>, e: Entry)
    requires Savable(json, e) && (last == Some(e.section) ==> st.section == e.section)
    ensures ReadLines(json.validate, st, EntryLines(last, e)) ==
            Ok(State(e.section, st.line + |EntryLines(last, e)|, st.entries + [e]))
  {
    hide ReadLine;
    hide Savable;
    var pair := e.key + "=" + e.value;
    var header := "[" + e.section + "]";
    PairIsRead(json, st, e);
    if last == Some(e.section) {
      ReadOne(json.validate, st, pair);
    } else {
      HeaderAndPair(json, st, e);
      if last == None {
        assert EntryLines(last, e) == [header, pair];
      } else {
        BlankIsRead(json.validate, st);
        HeaderAndPair(json, st.(line := st.line + 1), e);
        assert EntryLines(last, e) == [""] + [header, pair];
        ReadOne(json.validate, st, "");
        ReadLinesAppend(json.validate, st, [""], [header, pair]);
      }
    }
  }

  lemma BlankIsRead(validate: Validator, st: State)
    ensures ReadLine(validate, st, "") == Ok(st.(line := st.line + 1))
  {
  }

  lemma PairIsRead(json: Json, st: State, e: Entry)
    requires Savable(json, e)
    ensures st.section == e.section ==>
              ReadLine(json.validate, st, e.key + "=" + e.value) == Ok(State(e.section, st.line + 1, st.entries + [e]))
  {
    if st.section == e.section {
      ReadsBack(json.validate, st, e.key, e.value);
    }
  }

  lemma HeaderAndPair(json: Json, st: State, e: Entry)
    requires Savable(json, e)
    ensures ReadLines(json.validate, st, ["[" + e.section + "]", e.key + "=" + e.value]) ==
            Ok(State(e.section, st.line + 2, st.entries + [e]))
  {
    hide ReadLine;
    HeaderIsRead(json.validate, st, e.section);
    PairIsRead(json, State(e.section, st.line + 1, st.entries), e);
    ReadTwo(json.validate, st, "[" + e.section + "]", e.key + "=" + e.value);
  }

  function SectionAfter(es: seq<Entry>): string {
    if es == [] then "" else es[|es| - 1].section
  }

  /** Everything that was saved is read back, in order. */
  lemma {:induction false} FileIsRead(json: Json, es: seq<Entry>)
    requires AllSavable(json, es)
    ensures ReadLines(json.validate, START, FileLines(es)) == Ok(State(SectionAfter(es), |FileLines(es)|, es))
  {
    hide Savable;
    if es != [] {
      var n := |es| - 1;
      var init := es[..n];
      assert es == init + [es[n]];
      FileIsRead(json, init);
      var lines := EntryLines(LastSection(init), es[n]);
      var st := State(SectionAfter(init), |FileLines(init)|, init);
      EntryIsRead(json, st, LastSection(init), es[n]);
      ReadLinesAppend(json.validate, START, FileLines(init), lines);
    }
  }

  lemma {:induction false} FileLinesAreLines(json: Json, es: seq<Entry>)
    requires AllSavable(json, es)
    ensures forall l | l in FileLines(es) :: IsLine(l)
  {
    if es != [] {
      var n := |es| - 1;
      FileLinesAreLines(json, es[..n]);
      assert Savable(json, es[n]);
      assert forall l | l in EntryLines(LastSection(es[..n]), es[n]) :: IsLine(l);
    }
  }

  lemma {:induction false} AllCovered(es: seq<Entry>)
    requires forall i | 0 <= i < |es| :: !IsChecksum(es[i])
    ensures Covered(es) == es
  {
    if es != [] {
      AllCovered(es[..|es| - 1]);
      assert es[..|es| - 1] + [es[|es| - 1]] == es;
    }
  }

  /** Loading delivers exactly what was saved, followed by the checksum, whatever it is, and hashes the stream that was hashed
      on save. */
  lemma SavedIsDelivered(json: Json, es: seq<Entry>, checksum: string)
    requires Trusted(json) && AllSavable(json, es)
    ensures var e := Entry(SECTION_BACKREST, KEY_CHECKSUM, json.quote(checksum));
            var r := ReadLines(json.validate, START, Lines(FileWith(json, es, checksum)));
            r.Ok? && r.value.entries == es + [e] && Covered(es + [e]) == es
  {
    hide ReadLine;
    var e := Entry(SECTION_BACKREST, KEY_CHECKSUM, json.quote(checksum));
    assert Savable(json, e);
    FileLinesAreLines(json, es);
    var lines := FileLines(es) + ChecksumLines(e);
    assert forall l | l in ChecksumLines(e) :: IsLine(l);
    LinesOfJoined(lines);
    FileIsRead(json, es);
    var st := State(SectionAfter(es), |FileLines(es)|, es);
    assert ChecksumLines(e) == EntryLines(Some(e.section + "x"), e);
    EntryIsRead(json, st, Some(e.section + "x"), e);
    ReadLinesAppend(json.validate, START, FileLines(es), ChecksumLines(e));
    SeenOneMore(json, es, e);
    AllCovered(es);
  }

  /** A file with the given entries loads exactly when its checksum is the hash of the stream of these entries, and is
      refused for its checksum otherwise. */
  lemma LoadsExactlyWhen(json: Json, sha1: Hash, es: seq<Entry>, checksum: string)
    requires Trusted(json) && AllSavable(json, es) && FirstProblem(json, es) == None
    ensures Loaded(json, sha1, FileWith(json, es, checksum)) ==
            if checksum == sha1(Hashed(json.quote, es) + "}}") then Ok(InfoOf(json, es)) else Err(WrongChecksum)
  {
    hide FileWith;
    hide ReadLines;
    hide Lines;
    hide Hashed;
    hide Covered;
    hide Others;
    hide LastValue;
    hide ReadLast;
    var e := Entry(SECTION_BACKREST, KEY_CHECKSUM, json.quote(checksum));
    KeysDiffer();
    SavedIsDelivered(json, es, checksum);
    SeenOneMore(json, es, e);
    FirstProblemAppend(json, es, [e]);
    assert ProblemOf(json, e) == None;
    assert FirstProblem(json, [e]) == None;
  }

  /** Loading a saved file succeeds and gives back what was saved. */
  lemma SaveThenLoad(json: Json, sha1: Hash, es: seq<Entry>)
    requires Trusted(json) && AllSavable(json, es) && FirstProblem(json, es) == None
    ensures Loaded(json, sha1, FileText(json, sha1, es)) == Ok(InfoOf(json, es))
  {
    hide Loaded;
    hide FileWith;
    hide Hashed;
    LoadsExactlyWhen(json, sha1, es, Checksum(json, sha1, es));
  }

  /** A file without a checksum is refused. */
  lemma NoChecksumIsRefused(json: Json, sha1: Hash, es: seq<Entry>)
    requires AllSavable(json, es) && FirstProblem(json, es) == None
    ensures Loaded(json, sha1, Joined(FileLines(es))) == Err(NoChecksum)
  {
    hide ReadLine;
    FileLinesAreLines(json, es);
    LinesOfJoined(FileLines(es));
    FileIsRead(json, es);
    NoChecksumAmong(es);
  }

  lemma {:induction false} NoChecksumAmong(es: seq<Entry>)
    requires forall i | 0 <= i < |es| :: !IsChecksum(es[i])
    ensures LastValue(es, SECTION_BACKREST, KEY_CHECKSUM) == None
  {
    if es != [] {
      NoChecksumAmong(es[..|es| - 1]);
    }
  }

  /** With the grammar of RFC 8259 as validator every JSON value that is not an array can be saved under every key. */
  lemma JsonIsSavable(json: Json, e: Entry)
    requires json.validate == Rfc
    requires e.section != "" && e.key != "" && IsLine(e.section) && IsLine(e.key) && IsLine(e.value)
    requires JsonText.IsJson(e.value) && !JsonText.IsArray(e.value)
    ensures Savable(json, e)
  {
    EveryKeySurvives(e.key, e.value);
  }
}
