/** The PostgreSQL history of an info file: how it is built, saved and loaded. */
module InfoPg {
  import opened Wrappers
  import opened IniFile
  import opened InfoFile
  import opened Sections
  import opened StringOrder
  import opened JsonCodec
  import Numerals
  import PgVersion

  const SECTION_DB := "db"
  const SECTION_DB_HISTORY := "db:history"
  const KEY_CATALOG_VERSION := "db-catalog-version"
  const KEY_CONTROL_VERSION := "db-control-version"
  const KEY_DB_ID := "db-id"
  const KEY_SYSTEM_ID := "db-system-id"
  const KEY_DB_VERSION := "db-version"

  datatype PgType = Archive | Backup

  datatype PgData = PgData(id: UInt32, version: UInt32, systemId: UInt64, catalogVersion: UInt32, controlVersion: UInt32)

  // ----- What is saved -----

  /** The save looks up the control version of the current entry again and throws where there is none. */
  predicate CanSave(t: PgType, current: PgData) {
    t == Backup ==> PgVersion.ControlVersion(current.version).Some?
  }

  /** Values of the db section. */
  function DbValues(t: PgType, d: PgData): seq<(string, string)>
    requires CanSave(t, d)
  {
    (if t == Backup then [(KEY_CATALOG_VERSION, Numerals.Print(d.catalogVersion)),
                          (KEY_CONTROL_VERSION, Numerals.Print(PgVersion.ControlVersion(d.version).value))] else [])
    + [(KEY_DB_ID, Numerals.Print(d.id)),
       (KEY_SYSTEM_ID, Numerals.Print(d.systemId)),
       (KEY_DB_VERSION, Quote(PgVersion.ToStr(d.version)))]
  }

  /** Fields of a history entry. In archive.info the system id is stored under the name of the id. */
  function Fields(t: PgType, d: PgData): seq<(string, Scalar)> {
    match t
    case Backup => [(KEY_CATALOG_VERSION, Number(d.catalogVersion)),
                    (KEY_CONTROL_VERSION, Number(d.controlVersion)),
                    (KEY_SYSTEM_ID, Number(d.systemId)),
                    (KEY_DB_VERSION, Text(PgVersion.ToStr(d.version)))]
    case Archive => [(KEY_DB_ID, Number(d.systemId)),
                     (KEY_DB_VERSION, Text(PgVersion.ToStr(d.version)))]
  }

  function HistoryValue(t: PgType, d: PgData): (string, string) {
    (Numerals.Print(d.id), ObjectText(Fields(t, d)))
  }

  /** Values of the history section, oldest first. */
  function HistoryValues(t: PgType, history: seq<PgData>): seq<(string, string)> {
    if history == [] then [] else HistoryValues(t, history[1..]) + [HistoryValue(t, history[0])]
  }

  function PgLayer(t: PgType, history: seq<PgData>, current: nat): Layer
    requires current < |history| && CanSave(t, history[current])
  {
    [Section(SECTION_DB, DbValues(t, history[current])),
     Section(SECTION_DB_HISTORY, HistoryValues(t, history))]
  }

  class InfoPg {
    const pgType: PgType
    var history: seq<PgData>
    var historyCurrent: nat

    constructor (pgType: PgType)
      ensures this.pgType == pgType && history == [] && historyCurrent == 0
    {
      this.pgType := pgType;
      history := [];
      historyCurrent := 0;
    }

    /** The new entry comes first and becomes the current one. */
    method Add(d: PgData)
      modifies this
      ensures history == [d] + old(history) && historyCurrent == 0
    {
      history := [d] + history;
      historyCurrent := 0;
    }

    /** Adds an entry whose id follows that of the current entry. A series of calls numbers the entries 1, 2, 3, ... A
        version without control version is refused in backup.info. */
    method Set(version: UInt32, systemId: UInt64, catalogVersion: UInt32) returns (problem: Option<PgProblem>)
      requires history == [] || historyCurrent < |history|
      modifies this
      ensures problem == if pgType == Backup && PgVersion.ControlVersion(version) == None then Some(UnknownVersion) else None
      ensures problem.Some? ==> history == old(history) && historyCurrent == old(historyCurrent)
      ensures problem == None ==> historyCurrent == 0 && |history| == |old(history)| + 1 && history[1..] == old(history)
      ensures problem == None ==>
                && history[0].id ==
                   (if old(history) == [] then 1 else (old(history[historyCurrent].id) + 1) % (UINT_MAX + 1))
                && history[0].version == version && history[0].systemId == systemId
                && (pgType == Backup ==> && history[0].catalogVersion == catalogVersion
                                         && Some(history[0].controlVersion) == PgVersion.ControlVersion(version))
      ensures old(IsSeries(pgType, history) && |history| < UINT_MAX && historyCurrent == 0) ==> IsSeries(pgType, history)
    {
      hide PgVersion.ControlVersion;
      var id: UInt32 := 1;
      if |history| > 0 {
        id := (history[historyCurrent].id + 1) % (UINT_MAX + 1);
      }
      var d := PgData(id, version, systemId, 0, 0);
      if pgType == Backup {
        var control := PgVersion.ControlVersion(version);
        if control == None {
          return Some(UnknownVersion);
        }
        d := d.(catalogVersion := catalogVersion, controlVersion := control.value);
      }
      Add(d);
      problem := None;
    }

    /** The layer that the save callback works through: the history is written in reverse, oldest first. */
    method Save() returns (r: Result<Layer, PgProblem>)
      requires historyCurrent < |history|
      ensures r == if CanSave(pgType, history[historyCurrent]) then Ok(PgLayer(pgType, history, historyCurrent))
                   else Err(UnknownVersion)
    {
      var d := history[historyCurrent];
      var db: seq<(string, string)> := [];
      if pgType == Backup {
        var control := PgVersion.ControlVersion(d.version);
        if control == None {
          return Err(UnknownVersion);
        }
        db := db + [(KEY_CATALOG_VERSION, Numerals.Print(d.catalogVersion)),
                    (KEY_CONTROL_VERSION, Numerals.Print(control.value))];
      }
      hide PgVersion.ControlVersion;
      hide Numerals.Print;
      db := db + [(KEY_DB_ID, Numerals.Print(d.id)), (KEY_SYSTEM_ID, Numerals.Print(d.systemId)),
                  (KEY_DB_VERSION, Quote(PgVersion.ToStr(d.version)))];
      assert db == DbValues(pgType, d);

      var values: seq<(string, string)> := [];
      var i := |history|;
      while i > 0
        invariant 0 <= i <= |history|
        invariant values == HistoryValues(pgType, history[i..])
      {
        i := i - 1;
        values := values + [HistoryValue(pgType, history[i])];
        assert history[i..][1..] == history[i + 1..];
      }
      assert history[0..] == history;
      r := Ok([Section(SECTION_DB, db), Section(SECTION_DB_HISTORY, values)]);
    }
  }

  /** What any series of calls to Set leaves: ids count up from the oldest entry, and fields that are not saved are not
      set. */
  ghost predicate IsSeries(t: PgType, history: seq<PgData>) {
    |history| <= UINT_MAX &&
    forall i | 0 <= i < |history| ::
      && history[i].id == |history| - i && CanSave(t, history[i])
      && (t == Archive ==> history[i].catalogVersion == 0 && history[i].controlVersion == 0)
  }

  // ----- What is loaded -----

  datatype PgProblem = Unreadable | NoHistory | NoCurrent | CurrentNotFound | UnknownVersion

  /** The members that both kinds of file have, which come last. */
  function ReadTail(d: PgData, value: string, i: nat, due: bool, systemIdKey: string): Option<PgData>
    requires i <= |value|
  {
    match NumberField(value, i, due, systemIdKey)
    case None => None
    case Some((systemId, j)) =>
      match TextField(value, j, true, KEY_DB_VERSION)
      case None => None
      case Some((None, _)) => None
      case Some((Some(name), _)) =>
        match PgVersion.FromStr(name)
        case None => None
        case Some(version) => Some(d.(systemId := systemId, version := version))
  }

  /** An entry of the history: the members are read in the order in which they are written. */
  function ReadData(t: PgType, e: Entry): Option<PgData> {
    var id := ParseUInt32(e.key);
    var begin := ObjectBegin(e.value);
    if id == None || begin == None then None
    else
      var d := PgData(id.value, 0, 0, 0, 0);
      match t
      case Archive => ReadTail(d, e.value, begin.value, false, KEY_DB_ID)
      case Backup =>
        match NumberField32(e.value, begin.value, false, KEY_CATALOG_VERSION)
        case None => None
        case Some((catalogVersion, j)) =>
          match NumberField32(e.value, j, true, KEY_CONTROL_VERSION)
          case None => None
          case Some((controlVersion, k)) =>
            ReadTail(d.(catalogVersion := catalogVersion, controlVersion := controlVersion), e.value, k, true, KEY_SYSTEM_ID)
  }

  /** The current id that the entries leave. */
  function CurrentId(es: seq<Entry>): Option<UInt32> {
    match LastValue(es, SECTION_DB, KEY_DB_ID)
    case None => Some(0)
    case Some(value) => ForceUInt32(value)
  }

  predicate Readable(t: PgType, e: Entry) {
    && (e.section == SECTION_DB && e.key == KEY_DB_ID ==> ForceUInt32(e.value).Some?)
    && (e.section == SECTION_DB_HISTORY ==> ReadData(t, e).Some?)
  }

  predicate AllReadable(t: PgType, es: seq<Entry>) {
    forall i | 0 <= i < |es| :: Readable(t, es[i])
  }

  /** The history that the entries leave: the last entry read comes first. */
  function History(t: PgType, es: seq<Entry>): seq<PgData> {
    if es == [] then []
    else
      var e := es[|es| - 1];
      var older := History(t, es[..|es| - 1]);
      var d := ReadData(t, e);
      if e.section == SECTION_DB_HISTORY && d.Some? then [d.value] + older else older
  }

  /** The last position at which an id is found. */
  function LastIndex(history: seq<PgData>, id: nat): (r: Option<nat>)
    ensures r.Some? ==> r.value < |history| && history[r.value].id == id
    ensures forall i | 0 <= i < |history| && history[i].id == id :: r.Some? && i <= r.value
  {
    if history == [] then None
    else if history[|history| - 1].id == id then Some(|history| - 1)
    else LastIndex(history[..|history| - 1], id)
  }

  function LoadedPg(t: PgType, es: seq<Entry>): Result<(seq<PgData>, nat), PgProblem> {
    if !AllReadable(t, es) then Err(Unreadable)
    else
      var history := History(t, es);
      var id := CurrentId(es);
      if history == [] then Err(NoHistory)
      else if id == None || id.value == 0 then Err(NoCurrent)
      else
        match LastIndex(history, id.value)
        case None => Err(CurrentNotFound)
        case Some(current) => Ok((history, current))
  }

  /** Loads history and current entry from the sections that the common part hands on. */
  method NewLoad(t: PgType, es: seq<Entry>) returns (r: Result<(seq<PgData>, nat), PgProblem>)
    ensures r == LoadedPg(t, es)
  {
    hide ReadData;
    hide ForceUInt32;
    var history: seq<PgData> := [];
    var currentId := 0;
    var i := 0;
    while i < |es|
      invariant 0 <= i <= |es|
      invariant AllReadable(t, es[..i]) && history == History(t, es[..i])
      invariant CurrentId(es[..i]) == Some(currentId)
    {
      var e := es[i];
      assert es[..i + 1][..i] == es[..i] && es[..i + 1][i] == e;
      if e.section == SECTION_DB {
        if e.key == KEY_DB_ID {
          var id := ForceUInt32(e.value);
          if id == None {
            assert !Readable(t, es[i]);
            return Err(Unreadable);
          }
          currentId := id.value;
        }
      } else if e.section == SECTION_DB_HISTORY {
        var d := ReadData(t, e);
        if d == None {
          assert !Readable(t, es[i]);
          return Err(Unreadable);
        }
        history := [d.value] + history;
      }
      assert Readable(t, e);
      i := i + 1;
    }
    assert es[..i] == es;
    if history == [] {
      return Err(NoHistory);
    }
    if currentId == 0 {
      return Err(NoCurrent);
    }
    var current: Option<nat> := None;
    i := 0;
    while i < |history|
      invariant 0 <= i <= |history|
      invariant current == LastIndex(history[..i], currentId)
    {
      assert history[..i + 1][..i] == history[..i];
      if history[i].id == currentId {
        current := Some(i);
      }
      i := i + 1;
    }
    assert history[..i] == history;
    r := if current == None then Err(CurrentNotFound) else Ok((history, current.value));
  }

  // ----- Entries of one section -----

  ghost function OfSection(es: seq<Entry>, name: string): seq<Entry> {
    if es == [] then []
    else
      var n := |es| - 1;
      if es[n].section == name then OfSection(es[..n], name) + [es[n]] else OfSection(es[..n], name)
  }

  lemma {:induction false} OfSectionAppend(a: seq<Entry>, b: seq<Entry>, name: string)
    ensures OfSection(a + b, name) == OfSection(a, name) + OfSection(b, name)
  {
    if b == [] {
      assert a + b == a;
    } else {
      var n := |b| - 1;
      assert (a + b)[..|a| + n] == a + b[..n];
      OfSectionAppend(a, b[..n], name);
    }
  }

  lemma {:induction false} OfSameSection(name: string, values: seq<(string, string)>, other: string)
    ensures OfSection(SectionEntries(name, values), other) == if name == other then SectionEntries(name, values) else []
  {
    if values != [] {
      var n := |values| - 1;
      var es := SectionEntries(name, values);
      assert es[..|es| - 1] == SectionEntries(name, values[..n]);
      OfSameSection(name, values[..n], other);
    }
  }

  /** In a merge the entries of a section are exactly its values. */
  lemma {:induction false} OfMerged(out: seq<Section>, name: string)
    requires Ascending(out)
    ensures forall s | s in out && s.name == name :: OfSection(Entries(out), name) == SectionEntries(name, s.values)
    ensures (forall s | s in out :: s.name != name) ==> OfSection(Entries(out), name) == []
  {
    if out != [] {
      var n := |out| - 1;
      var last := out[n];
      OfMerged(out[..n], name);
      OfSectionAppend(Entries(out[..n]), SectionEntries(last.name, last.values), name);
      OfSameSection(last.name, last.values, name);
      forall s | s in out[..n]
        ensures s.name != last.name
      {
        LessIrreflexive(last.name);
      }
    }
  }

  lemma {:induction false} OfOthers(es: seq<Entry>, name: string)
    requires name != SECTION_BACKREST && name != SECTION_CIPHER
    ensures OfSection(Others(es), name) == OfSection(es, name)
  {
    if es != [] {
      var n := |es| - 1;
      OfOthers(es[..n], name);
      var e := es[n];
      if e.section == SECTION_BACKREST || e.section == SECTION_CIPHER {
        assert Others(es) == Others(es[..n]);
      } else {
        var others := Others(es);
        assert others[..|others| - 1] == Others(es[..n]);
      }
    }
  }

  lemma {:induction false} HistoryOfSection(t: PgType, es: seq<Entry>)
    ensures History(t, es) == History(t, OfSection(es, SECTION_DB_HISTORY))
  {
    if es != [] {
      var n := |es| - 1;
      HistoryOfSection(t, es[..n]);
      if es[n].section == SECTION_DB_HISTORY {
        var section := OfSection(es, SECTION_DB_HISTORY);
        assert section[..|section| - 1] == OfSection(es[..n], SECTION_DB_HISTORY);
      }
    }
  }

  lemma {:induction false} LastValueOfSection(es: seq<Entry>, section: string, key: string)
    ensures LastValue(es, section, key) == LastValue(OfSection(es, section), section, key)
  {
    if es != [] {
      var n := |es| - 1;
      LastValueOfSection(es[..n], section, key);
      if es[n].section == section {
        var of := OfSection(es, section);
        assert of[..|of| - 1] == OfSection(es[..n], section);
      }
    }
  }

  // ----- Round trip -----

  /** What an info file keeps of an entry: the version as far as its name shows it, and in archive.info neither catalog nor
      control version. */
  function Kept(t: PgType, d: PgData): PgData {
    var version := PgVersion.Kept(d.version);
    match t
    case Backup => d.(version := version)
    case Archive => d.(version := version, catalogVersion := 0, controlVersion := 0)
  }

  function KeptHistory(t: PgType, history: seq<PgData>): seq<PgData> {
    if history == [] then [] else [Kept(t, history[0])] + KeptHistory(t, history[1..])
  }

  predicate Storable(t: PgType, d: PgData) {
    && d.version % (if d.version >= PgVersion.PG_VERSION_10 then 10000 else 100) == 0
    && (t == Archive ==> d.catalogVersion == 0 && d.controlVersion == 0)
  }

  /** An entry is kept as it is exactly when it is storable. */
  lemma KeptExactlyWhen(t: PgType, d: PgData)
    ensures Kept(t, d) == d <==> Storable(t, d)
  {
  }

  lemma {:induction false} HistoryKeptExactlyWhen(t: PgType, history: seq<PgData>)
    ensures |KeptHistory(t, history)| == |history|
    ensures forall i | 0 <= i < |history| :: KeptHistory(t, history)[i] == Kept(t, history[i])
    ensures KeptHistory(t, history) == history <==> forall i | 0 <= i < |history| :: Storable(t, history[i])
  {
    hide Kept;
    hide Storable;
    if history != [] {
      var kept := KeptHistory(t, history);
      HistoryKeptExactlyWhen(t, history[1..]);
      KeptExactlyWhen(t, history[0]);
      assert history == [history[0]] + history[1..];
      assert kept[1..] == KeptHistory(t, history[1..]);
      if kept == history {
        assert KeptHistory(t, history[1..]) == history[1..];
        assert forall i | 1 <= i < |history| :: history[i] == history[1..][i - 1];
      }
    }
  }

  lemma FieldNamesDiffer()
    ensures KEY_CATALOG_VERSION != KEY_DB_ID && KEY_CONTROL_VERSION != KEY_DB_ID
    ensures KEY_SYSTEM_ID != KEY_DB_ID && KEY_DB_VERSION != KEY_DB_ID
  {
  }

  lemma FieldNamesArePlain(t: PgType, d: PgData)
    ensures PlainNames(Fields(t, d))
  {
    hide PlainName;
    NamesArePlain();
  }

  lemma NamesArePlain()
    ensures PlainName(KEY_CATALOG_VERSION) && PlainName(KEY_CONTROL_VERSION) && PlainName(KEY_DB_ID)
    ensures PlainName(KEY_SYSTEM_ID) && PlainName(KEY_DB_VERSION)
  {
  }

  /** System id and version come back from the last two members. */
  lemma TailIsRead(d: PgData, value: string, i: nat, due: bool, key: string, systemId: UInt64, version: UInt32)
    requires PlainName(key) && PlainName(KEY_DB_VERSION)
    requires Holds(value, i, MembersText([(key, Number(systemId)), (KEY_DB_VERSION, Text(PgVersion.ToStr(version)))], due))
    ensures ReadTail(d, value, i, due, key) == Some(d.(systemId := systemId, version := PgVersion.Kept(version)))
  {
    hide Holds;
    hide MembersText;
    hide NumberField;
    hide TextField;
    hide PlainName;
    hide PgVersion.FromStr;
    hide PgVersion.ToStr;
    hide PgVersion.Kept;
    hide NameText;
    hide ScalarText;
    var fields := [(key, Number(systemId)), (KEY_DB_VERSION, Text(PgVersion.ToStr(version)))];
    FieldIsRead(value, i, fields, due);
    var j := i + (if due then 1 else 0) + |NameText(key)| + |ScalarText(Number(systemId))|;
    FieldIsRead(value, j, fields[1..], true);
    PgVersion.VersionIsRead(version);
  }

  /** Both versions of a backup.info entry come back from the first two members. */
  lemma HeadIsRead(d: PgData, value: string) returns (j: nat, k: nat)
    requires PlainName(KEY_CATALOG_VERSION) && PlainName(KEY_CONTROL_VERSION)
    requires Holds(value, 1, MembersText(Fields(Backup, d), false))
    ensures 1 < j < k <= |value|
    ensures NumberField32(value, 1, false, KEY_CATALOG_VERSION) == Some((d.catalogVersion, j))
    ensures NumberField32(value, j, true, KEY_CONTROL_VERSION) == Some((d.controlVersion, k))
    ensures Holds(value, k, MembersText(Fields(Backup, d)[2..], true))
  {
    hide Holds;
    hide MembersText;
    hide NumberField;
    hide PlainName;
    hide NameText;
    hide ScalarText;
    var fields := Fields(Backup, d);
    FieldIsRead(value, 1, fields, false);
    j := 1 + |NameText(fields[0].0)| + |ScalarText(fields[0].1)|;
    FieldIsRead(value, j, fields[1..], true);
    k := j + 1 + |NameText(fields[1].0)| + |ScalarText(fields[1].1)|;
    assert fields[1..][1..] == fields[2..];
  }

  /** Every entry is read back as far as the file keeps it. */
  lemma DataIsRead(t: PgType, d: PgData)
    ensures ReadData(t, Entry(SECTION_DB_HISTORY, HistoryValue(t, d).0, HistoryValue(t, d).1)) == Some(Kept(t, d))
  {
    hide Holds;
    hide MembersText;
    hide NumberField32;
    hide ReadTail;
    hide PlainName;
    hide PlainNames;
    hide ObjectText;
    hide ObjectBegin;
    hide Printable;
    hide Numerals.Print;
    hide PgVersion.Kept;
    hide PgVersion.ToStr;
    PgVersion.ParseOfPrint(d.id);
    hide ParseUInt32;
    FieldNamesArePlain(t, d);
    NamesArePlain();
    var fields := Fields(t, d);
    var value := ObjectText(fields);
    ObjectIsPrintable(fields);
    var e := PgData(d.id, 0, 0, 0, 0);
    match t
    case Archive => TailIsRead(e, value, 1, false, KEY_DB_ID, d.systemId, d.version);
    case Backup =>
      var _, k := HeadIsRead(d, value);
      assert fields[2..] == [(KEY_SYSTEM_ID, Number(d.systemId)), (KEY_DB_VERSION, Text(PgVersion.ToStr(d.version)))];
      TailIsRead(e.(catalogVersion := d.catalogVersion, controlVersion := d.controlVersion), value, k, true, KEY_SYSTEM_ID,
                 d.systemId, d.version);
  }

  lemma SectionEntriesAppend(name: string, values: seq<(string, string)>, v: (string, string))
    ensures SectionEntries(name, values + [v]) == SectionEntries(name, values) + [Entry(name, v.0, v.1)]
  {
  }

  lemma HistoryAppend(t: PgType, es: seq<Entry>, e: Entry, d: PgData)
    requires e.section == SECTION_DB_HISTORY && ReadData(t, e) == Some(d)
    ensures History(t, es + [e]) == [d] + History(t, es)
  {
  }

  lemma {:induction false} HistoryIsRead(t: PgType, history: seq<PgData>)
    ensures History(t, SectionEntries(SECTION_DB_HISTORY, HistoryValues(t, history))) == KeptHistory(t, history)
  {
    hide ReadData;
    hide HistoryValue;
    hide Kept;
    if history != [] {
      hide SectionEntries;
      hide History;
      var older := HistoryValues(t, history[1..]);
      var v := HistoryValue(t, history[0]);
      SectionEntriesAppend(SECTION_DB_HISTORY, older, v);
      DataIsRead(t, history[0]);
      HistoryAppend(t, SectionEntries(SECTION_DB_HISTORY, older), Entry(SECTION_DB_HISTORY, v.0, v.1), Kept(t, history[0]));
      HistoryIsRead(t, history[1..]);
    }
  }

  // ----- A whole file -----

  function BaseLayer(version: string, cipherPass: Option<string>): Layer {
    [Section(SECTION_BACKREST, [(KEY_FORMAT, Numerals.Print(REPOSITORY_FORMAT)), (KEY_VERSION, Quote(version))])]
    + if cipherPass == None then []
      else [Section(SECTION_CIPHER, [(KEY_CIPHER_PASS, Quote(cipherPass.value))])]
  }

  /** An entry that can be saved and is not refused on load. */
  ghost predicate Fine(t: PgType, e: Entry) {
    Savable(JSON, e) && !IsChecksum(e) && ProblemOf(JSON, e) == None && Readable(t, e)
  }

  ghost predicate SectionFine(t: PgType, s: Section) {
    forall i | 0 <= i < |s.values| :: Fine(t, Entry(s.name, s.values[i].0, s.values[i].1))
  }

  ghost predicate AllFine(t: PgType, es: seq<Entry>) {
    forall i | 0 <= i < |es| :: Fine(t, es[i])
  }

  lemma {:induction false} SectionEntriesFine(t: PgType, s: Section, n: nat)
    requires SectionFine(t, s) && n <= |s.values|
    ensures AllFine(t, SectionEntries(s.name, s.values[..n]))
  {
    hide Fine;
    if n > 0 {
      SectionEntriesFine(t, s, n - 1);
      assert s.values[..n][..n - 1] == s.values[..n - 1];
    }
  }

  lemma {:induction false} EntriesFine(t: PgType, out: seq<Section>)
    requires forall i | 0 <= i < |out| :: SectionFine(t, out[i])
    ensures AllFine(t, Entries(out))
  {
    hide Fine;
    hide SectionFine;
    if out != [] {
      var n := |out| - 1;
      EntriesFine(t, out[..n]);
      SectionEntriesFine(t, out[n], |out[n].values|);
      assert out[n].values[..|out[n].values|] == out[n].values;
    }
  }

  lemma {:induction false} FineHasNoProblem(t: PgType, es: seq<Entry>)
    requires AllFine(t, es)
    ensures FirstProblem(JSON, es) == None
  {
    if es != [] {
      assert Fine(t, es[0]);
      FineHasNoProblem(t, es[1..]);
    }
  }

  lemma {:induction false} OthersReadable(t: PgType, es: seq<Entry>)
    requires AllFine(t, es)
    ensures AllReadable(t, Others(es))
  {
    if es != [] {
      var n := |es| - 1;
      assert Fine(t, es[n]);
      OthersReadable(t, es[..n]);
    }
  }

  predicate PlainKey(key: string) {
    key != "" && IsLine(key) && '=' !in key
  }

  lemma KeysArePlain()
    ensures PlainKey(KEY_CATALOG_VERSION) && PlainKey(KEY_CONTROL_VERSION) && PlainKey(KEY_DB_ID)
    ensures PlainKey(KEY_SYSTEM_ID) && PlainKey(KEY_DB_VERSION)
  {
  }

  lemma BaseKeysArePlain()
    ensures PlainKey(KEY_FORMAT) && PlainKey(KEY_VERSION) && PlainKey(KEY_CIPHER_PASS)
  {
  }

  /** A key without an equals sign survives with every printed value. */
  lemma PlainIsSavable(section: string, key: string, value: string)
    requires section != "" && IsLine(section) && PlainKey(key)
    requires Printable(value)
    ensures Savable(JSON, Entry(section, key, value))
  {
  }

  lemma SectionNamesDiffer()
    ensures SECTION_DB != SECTION_BACKREST && SECTION_DB != SECTION_CIPHER && SECTION_DB != SECTION_DB_HISTORY
    ensures SECTION_DB_HISTORY != SECTION_BACKREST && SECTION_DB_HISTORY != SECTION_CIPHER
    ensures SECTION_BACKREST != SECTION_CIPHER
  {
  }

  lemma BackrestFine(t: PgType, version: string)
    ensures Fine(t, Entry(SECTION_BACKREST, KEY_FORMAT, Numerals.Print(REPOSITORY_FORMAT)))
    ensures Fine(t, Entry(SECTION_BACKREST, KEY_VERSION, Quote(version)))
  {
    hide PlainKey;
    hide Savable;
    hide Printable;
    hide Quote;
    hide Numerals.Print;
    hide ReadString;
    hide ReadUInt64;
    SectionNamesDiffer();
    KeysDiffer();
    BaseKeysArePlain();
    NumberSurvives(REPOSITORY_FORMAT);
    StringSurvives(version);
    PlainIsSavable(SECTION_BACKREST, KEY_FORMAT, Numerals.Print(REPOSITORY_FORMAT));
    PlainIsSavable(SECTION_BACKREST, KEY_VERSION, Quote(version));
  }

  lemma CipherFine(t: PgType, pass: string)
    ensures Fine(t, Entry(SECTION_CIPHER, KEY_CIPHER_PASS, Quote(pass)))
  {
    hide PlainKey;
    hide Savable;
    hide Printable;
    hide Quote;
    hide ReadString;
    SectionNamesDiffer();
    BaseKeysArePlain();
    StringSurvives(pass);
    PlainIsSavable(SECTION_CIPHER, KEY_CIPHER_PASS, Quote(pass));
  }

  lemma BaseFine(t: PgType, version: string, cipherPass: Option<string>)
    ensures forall i | 0 <= i < |BaseLayer(version, cipherPass)| :: SectionFine(t, BaseLayer(version, cipherPass)[i])
  {
    hide Fine;
    BackrestFine(t, version);
    if cipherPass.Some? {
      CipherFine(t, cipherPass.value);
    }
  }

  lemma DbEntryFine(t: PgType, key: string, value: string)
    requires Printable(value) && PlainKey(key)
    requires key == KEY_DB_ID ==> ForceUInt32(value).Some?
    ensures Fine(t, Entry(SECTION_DB, key, value))
  {
    hide PlainKey;
    hide Savable;
    hide Printable;
    hide ForceUInt32;
    SectionNamesDiffer();
    PlainIsSavable(SECTION_DB, key, value);
  }

  lemma DbNumberFine(t: PgType, key: string, n: UInt64)
    requires PlainKey(key) && key != KEY_DB_ID
    ensures Fine(t, Entry(SECTION_DB, key, Numerals.Print(n)))
  {
    NumberSurvives(n);
    DbEntryFine(t, key, Numerals.Print(n));
  }

  lemma DbFine(t: PgType, d: PgData)
    requires CanSave(t, d)
    ensures SectionFine(t, Section(SECTION_DB, DbValues(t, d)))
  {
    hide Fine;
    hide PlainKey;
    hide Printable;
    hide ForceUInt32;
    hide Quote;
    hide Numerals.Print;
    hide PgVersion.ControlVersion;
    hide PgVersion.ToStr;
    KeysArePlain();
    FieldNamesDiffer();
    DbNumberFine(t, KEY_CATALOG_VERSION, d.catalogVersion);
    if t == Backup {
      DbNumberFine(t, KEY_CONTROL_VERSION, PgVersion.ControlVersion(d.version).value);
    }
    NumberSurvives(d.id);
    DbEntryFine(t, KEY_DB_ID, Numerals.Print(d.id));
    DbNumberFine(t, KEY_SYSTEM_ID, d.systemId);
    StringSurvives(PgVersion.ToStr(d.version));
    DbEntryFine(t, KEY_DB_VERSION, Quote(PgVersion.ToStr(d.version)));
  }

  lemma HistoryEntryFine(t: PgType, d: PgData)
    ensures Fine(t, Entry(SECTION_DB_HISTORY, HistoryValue(t, d).0, HistoryValue(t, d).1))
  {
    hide ReadData;
    hide Savable;
    hide Printable;
    hide ObjectText;
    hide PlainNames;
    hide Fields;
    hide Kept;
    SectionNamesDiffer();
    DataIsRead(t, d);
    FieldNamesArePlain(t, d);
    ObjectIsPrintable(Fields(t, d));
    var key := Numerals.Print(d.id);
    assert PlainKey(key) by {
      assert !Numerals.IsDigit('=') && !Numerals.IsDigit('\n');
    }
    PlainIsSavable(SECTION_DB_HISTORY, key, ObjectText(Fields(t, d)));
  }

  lemma {:induction false} HistoryFine(t: PgType, history: seq<PgData>)
    ensures SectionFine(t, Section(SECTION_DB_HISTORY, HistoryValues(t, history)))
  {
    hide Fine;
    hide HistoryValue;
    if history != [] {
      HistoryFine(t, history[1..]);
      HistoryEntryFine(t, history[0]);
    }
  }

  /** Sections of further layers: savable, and not named like a section of the common or the PostgreSQL part. */
  ghost predicate ForeignLayer(leaf: Layer) {
    forall i, j | 0 <= i < |leaf| && 0 <= j < |leaf[i].values| ::
      && leaf[i].name != SECTION_BACKREST && leaf[i].name != SECTION_CIPHER
      && leaf[i].name != SECTION_DB && leaf[i].name != SECTION_DB_HISTORY
      && Savable(JSON, Entry(leaf[i].name, leaf[i].values[j].0, leaf[i].values[j].1))
  }

  lemma LeafFine(t: PgType, leaf: Layer, i: nat)
    requires ForeignLayer(leaf) && i < |leaf|
    ensures SectionFine(t, leaf[i])
  {
  }

  /** What the layers save is fine, whatever the merge of them looks like. */
  lemma MergeFine(t: PgType, history: seq<PgData>, current: nat, version: string, cipherPass: Option<string>,
                  leaf: Layer, out: seq<Section>)
    requires current < |history| && CanSave(t, history[current]) && ForeignLayer(leaf)
    requires IsMerge(out, BaseLayer(version, cipherPass), PgLayer(t, history, current), leaf)
    ensures AllFine(t, Entries(out))
  {
    hide SectionFine;
    hide BaseLayer;
    hide Entries;
    hide AllFine;
    hide ForeignLayer;
    var base := BaseLayer(version, cipherPass);
    BaseFine(t, version, cipherPass);
    DbFine(t, history[current]);
    HistoryFine(t, history);
    forall i | 0 <= i < |out|
      ensures SectionFine(t, out[i])
    {
      assert out[i] in out;
      if out[i] in leaf {
        var k :| 0 <= k < |leaf| && leaf[k] == out[i];
        LeafFine(t, leaf, k);
      }
    }
    EntriesFine(t, out);
  }

  lemma {:induction false} FineIsSavable(t: PgType, es: seq<Entry>)
    requires AllFine(t, es)
    ensures AllSavable(JSON, es)
  {
  }

  /** The id that is saved as the current one. */
  lemma CurrentIdSaved(t: PgType, d: PgData)
    requires CanSave(t, d)
    ensures CurrentId(SectionEntries(SECTION_DB, DbValues(t, d))) == Some(d.id)
  {
    hide ForceUInt32;
    hide Numerals.Print;
    hide Quote;
    hide PgVersion.ControlVersion;
    hide PgVersion.ToStr;
    NumberSurvives(d.id);
    FieldNamesDiffer();
    var values := DbValues(t, d);
    var n := |values|;
    var es := SectionEntries(SECTION_DB, values);
    SectionEntriesAt(SECTION_DB, values);
    assert es[..n - 1][n - 2] == es[n - 2] && es[..n - 1][..n - 2] == es[..n - 2];
    assert es[..n - 2][n - 3] == es[n - 3];
    assert LastValue(es[..n - 2], SECTION_DB, KEY_DB_ID) == Some(values[n - 3].1);
    assert LastValue(es[..n - 1], SECTION_DB, KEY_DB_ID) == Some(values[n - 3].1);
  }

  lemma {:induction false} SectionEntriesAt(name: string, values: seq<(string, string)>)
    ensures |SectionEntries(name, values)| == |values|
    ensures forall i | 0 <= i < |values| :: SectionEntries(name, values)[i] == Entry(name, values[i].0, values[i].1)
  {
    if values != [] {
      SectionEntriesAt(name, values[..|values| - 1]);
    }
  }

  lemma {:induction false} SameIdsSameIndex(a: seq<PgData>, b: seq<PgData>, id: nat)
    requires |a| == |b| && forall i | 0 <= i < |a| :: a[i].id == b[i].id
    ensures LastIndex(a, id) == LastIndex(b, id)
  {
    if a != [] {
      SameIdsSameIndex(a[..|a| - 1], b[..|b| - 1], id);
    }
  }

  /** The whole way: whatever other sections there are, a saved file loads, and gives back the history in its order as far
      as the file keeps it, unless the current id is zero. The current entry is the oldest with that id. */
  lemma HistorySurvives(t: PgType, sha1: Hash, history: seq<PgData>, current: nat, version: string,
                        cipherPass: Option<string>, leaf: Layer, out: seq<Section>)
    requires current < |history| && CanSave(t, history[current]) && ForeignLayer(leaf)
    requires IsMerge(out, BaseLayer(version, cipherPass), PgLayer(t, history, current), leaf)
    ensures Loaded(JSON, sha1, FileText(JSON, sha1, Entries(out))) ==
            Ok(Info(Some(version), cipherPass, Others(Entries(out))))
    ensures var id := history[current].id;
            LastIndex(history, id).Some? &&
            LoadedPg(t, Others(Entries(out))) ==
            if id == 0 then Err(NoCurrent) else Ok((KeptHistory(t, history), LastIndex(history, id).value))
  {
    hide BaseLayer;
    hide PgLayer;
    hide Entries;
    hide CanSave;
    hide FileText;
    hide Loaded;
    hide ForeignLayer;
    hide KeptHistory;
    hide Kept;
    hide Storable;
    hide AllFine;
    hide IsMerge;
    hide AllReadable;
    var es := Entries(out);
    MergeFine(t, history, current, version, cipherPass, leaf, out);
    FineIsSavable(t, es);
    FineHasNoProblem(t, es);
    JsonIsTrusted();
    SaveThenLoad(JSON, sha1, es);
    BaseSurvives(t, history, current, version, cipherPass, leaf, out);
    OthersReadable(t, es);
    PgSectionsSurvive(t, history, current, BaseLayer(version, cipherPass), leaf, out);
    HistoryKeptExactlyWhen(t, history);
    IdIsKept(t, history);
    SameIdsSameIndex(KeptHistory(t, history), history, history[current].id);
  }

  /** The values of the common sections. */
  lemma BaseSurvives(t: PgType, history: seq<PgData>, current: nat, version: string, cipherPass: Option<string>, leaf: Layer,
                     out: seq<Section>)
    requires current < |history| && CanSave(t, history[current]) && ForeignLayer(leaf)
    requires IsMerge(out, BaseLayer(version, cipherPass), PgLayer(t, history, current), leaf)
    ensures InfoOf(JSON, Entries(out)) == Info(Some(version), cipherPass, Others(Entries(out)))
  {
    hide Entries;
    hide OfSection;
    hide Quote;
    hide ReadString;
    hide Printable;
    hide Others;
    hide Numerals.Print;
    hide ForeignLayer;
    var es := Entries(out);
    SectionNamesDiffer();
    KeysDiffer();
    OfMerged(out, SECTION_BACKREST);
    OfMerged(out, SECTION_CIPHER);
    LastValueOfSection(es, SECTION_BACKREST, KEY_VERSION);
    LastValueOfSection(es, SECTION_CIPHER, KEY_CIPHER_PASS);
    StringSurvives(version);
    var base := BaseLayer(version, cipherPass);
    assert base[0] in out;
    LastOfTwo(SECTION_BACKREST, base[0].values);
    if cipherPass.Some? {
      StringSurvives(cipherPass.value);
      assert base[1] in out;
      LastOfOne(SECTION_CIPHER, base[1].values);
    } else {
      NoCipherSection(t, history, current, version, leaf, out);
      NoEntry(SECTION_CIPHER, KEY_CIPHER_PASS);
    }
  }

  lemma NoEntry(section: string, key: string)
    ensures LastValue([], section, key) == None
  {
  }

  lemma LastOfOne(section: string, values: seq<(string, string)>)
    requires |values| == 1
    ensures LastValue(SectionEntries(section, values), section, values[0].0) == Some(values[0].1)
  {
    SectionEntriesAt(section, values);
  }

  lemma LastOfTwo(section: string, values: seq<(string, string)>)
    requires |values| == 2
    ensures LastValue(SectionEntries(section, values), section, values[1].0) == Some(values[1].1)
  {
    SectionEntriesAt(section, values);
  }

  lemma NoCipherSection(t: PgType, history: seq<PgData>, current: nat, version: string, leaf: Layer, out: seq<Section>)
    requires current < |history| && CanSave(t, history[current]) && ForeignLayer(leaf)
    requires IsMerge(out, BaseLayer(version, None), PgLayer(t, history, current), leaf)
    ensures forall s | s in out :: s.name != SECTION_CIPHER
  {
    SectionNamesDiffer();
    forall s | s in out
      ensures s.name != SECTION_CIPHER
    {
      hide ForeignLayer;
      hide DbValues;
      hide HistoryValues;
      hide Quote;
      hide Numerals.Print;
      if s in leaf {
        var k :| 0 <= k < |leaf| && leaf[k] == s;
        ForeignName(leaf, k);
      }
    }
  }

  lemma ForeignName(leaf: Layer, k: nat)
    requires ForeignLayer(leaf) && k < |leaf| && leaf[k].values != []
    ensures leaf[k].name != SECTION_BACKREST && leaf[k].name != SECTION_CIPHER
  {
    var _ := leaf[k].values[0];
  }

  lemma IdIsKept(t: PgType, history: seq<PgData>)
    ensures |KeptHistory(t, history)| == |history|
    ensures forall i | 0 <= i < |history| :: KeptHistory(t, history)[i].id == history[i].id
  {
    hide PgVersion.Kept;
    HistoryKeptExactlyWhen(t, history);
  }

  /** So history and current entry come back as they were exactly when the current id is not zero, no older entry has it,
      and every entry is storable. */
  lemma SurvivesExactlyWhen(t: PgType, sha1: Hash, history: seq<PgData>, current: nat, version: string,
                            cipherPass: Option<string>, leaf: Layer, out: seq<Section>)
    requires current < |history| && CanSave(t, history[current]) && ForeignLayer(leaf)
    requires IsMerge(out, BaseLayer(version, cipherPass), PgLayer(t, history, current), leaf)
    ensures LoadedPg(t, Others(Entries(out))) == Ok((history, current)) <==>
            && history[current].id > 0
            && (forall i | current < i < |history| :: history[i].id != history[current].id)
            && (forall i | 0 <= i < |history| :: Storable(t, history[i]))
  {
    hide ForeignLayer;
    hide IsMerge;
    hide LoadedPg;
    hide CanSave;
    hide BaseLayer;
    hide PgLayer;
    hide Entries;
    hide Others;
    hide KeptHistory;
    hide Storable;
    hide FileText;
    hide Loaded;
    HistorySurvives(t, sha1, history, current, version, cipherPass, leaf, out);
    HistoryKeptExactlyWhen(t, history);
  }

  lemma PgSectionsSurvive(t: PgType, history: seq<PgData>, current: nat, base: Layer, leaf: Layer,
                          out: seq<Section>)
    requires current < |history| && CanSave(t, history[current])
    requires IsMerge(out, base, PgLayer(t, history, current), leaf)
    ensures History(t, Others(Entries(out))) == KeptHistory(t, history)
    ensures CurrentId(Others(Entries(out))) == Some(history[current].id)
  {
    hide Entries;
    hide OfSection;
    hide SectionEntries;
    hide History;
    hide Others;
    hide LastValue;
    var es := Entries(out);
    var layer := PgLayer(t, history, current);
    DbHasValues(t, history, current);
    assert layer[0] in base + layer + leaf && layer[1] in base + layer + leaf;
    assert layer[0] in out && layer[1] in out;
    SectionNamesDiffer();
    OfMerged(out, SECTION_DB);
    OfMerged(out, SECTION_DB_HISTORY);
    OfOthers(es, SECTION_DB);
    OfOthers(es, SECTION_DB_HISTORY);
    HistoryOfSection(t, Others(es));
    HistoryIsRead(t, history);
    LastValueOfSection(Others(es), SECTION_DB, KEY_DB_ID);
    LastValueOfSection(SectionEntries(SECTION_DB, layer[0].values), SECTION_DB, KEY_DB_ID);
    CurrentIdSaved(t, history[current]);
  }

  lemma DbHasValues(t: PgType, history: seq<PgData>, current: nat)
    requires current < |history| && CanSave(t, history[current])
    ensures DbValues(t, history[current]) != [] && HistoryValues(t, history) != []
  {
  }

  /** A history made by any series of calls to Set comes back as it was, in archive.info exactly when every version is
      one that its name shows in full. */
  lemma SeriesSurvives(t: PgType, sha1: Hash, history: seq<PgData>, version: string, cipherPass: Option<string>,
                       leaf: Layer, out: seq<Section>)
    requires history != [] && IsSeries(t, history) && ForeignLayer(leaf)
    requires IsMerge(out, BaseLayer(version, cipherPass), PgLayer(t, history, 0), leaf)
    ensures var r := Loaded(JSON, sha1, FileText(JSON, sha1, Entries(out)));
            && r.Ok? && LoadedPg(t, r.value.others).Ok?
            && (LoadedPg(t, r.value.others) == Ok((history, 0)) <==>
                t == Backup || forall i | 0 <= i < |history| :: PgVersion.Kept(history[i].version) == history[i].version)
  {
    hide ForeignLayer;
    hide IsMerge;
    hide Loaded;
    hide LoadedPg;
    hide BaseLayer;
    hide PgLayer;
    hide Entries;
    hide KeptHistory;
    hide FileText;
    HistorySurvives(t, sha1, history, 0, version, cipherPass, leaf, out);
    SurvivesExactlyWhen(t, sha1, history, 0, version, cipherPass, leaf, out);
  }

  /** The db section has the values of the current entry, and the control version of its PostgreSQL version. */
  lemma DbValuesAreRead(t: PgType, d: PgData)
    requires CanSave(t, d)
    ensures var es := SectionEntries(SECTION_DB, DbValues(t, d));
            && ValueUnder(es, KEY_DB_ID) == Some(d.id) && ValueUnder(es, KEY_SYSTEM_ID) == Some(d.systemId)
            && (t == Backup ==> && ValueUnder(es, KEY_CATALOG_VERSION) == Some(d.catalogVersion)
                                && ValueUnder(es, KEY_CONTROL_VERSION) == PgVersion.ControlVersion(d.version))
            && (t == Archive ==> ValueUnder(es, KEY_CATALOG_VERSION) == None && ValueUnder(es, KEY_CONTROL_VERSION) == None)
            && LastValue(es, SECTION_DB, KEY_DB_VERSION) == Some(Quote(PgVersion.ToStr(d.version)))
  {
    hide ReadUInt64;
    hide Numerals.Print;
    hide Quote;
    hide PgVersion.ControlVersion;
    hide PgVersion.ToStr;
    hide ForceUInt32;
    hide Printable;
    var values := DbValues(t, d);
    var n := |values|;
    DbNamesDiffer();
    NumberSurvives(d.id);
    NumberSurvives(d.systemId);
    ValueAt(values, n - 3);
    ValueAt(values, n - 2);
    ValueAt(values, n - 1);
    if t == Backup {
      NumberSurvives(d.catalogVersion);
      NumberSurvives(PgVersion.ControlVersion(d.version).value);
      ValueAt(values, 0);
      ValueAt(values, 1);
    } else {
      NoValue(values, KEY_CATALOG_VERSION);
      NoValue(values, KEY_CONTROL_VERSION);
    }
  }

  /** The number that the db section has under a key. */
  function ValueUnder(es: seq<Entry>, key: string): Option<nat> {
    match LastValue(es, SECTION_DB, key)
    case None => None
    case Some(value) => ReadUInt64(value)
  }

  lemma DbNamesDiffer()
    ensures KEY_CATALOG_VERSION != KEY_CONTROL_VERSION && KEY_CATALOG_VERSION != KEY_DB_ID
    ensures KEY_CATALOG_VERSION != KEY_SYSTEM_ID && KEY_CATALOG_VERSION != KEY_DB_VERSION
    ensures KEY_CONTROL_VERSION != KEY_DB_ID && KEY_CONTROL_VERSION != KEY_SYSTEM_ID
    ensures KEY_CONTROL_VERSION != KEY_DB_VERSION && KEY_DB_ID != KEY_SYSTEM_ID
    ensures KEY_DB_ID != KEY_DB_VERSION && KEY_SYSTEM_ID != KEY_DB_VERSION
  {
  }

  lemma {:induction false} ValueAt(values: seq<(string, string)>, i: nat)
    requires i < |values| && forall j | i < j < |values| :: values[j].0 != values[i].0
    ensures LastValue(SectionEntries(SECTION_DB, values), SECTION_DB, values[i].0) == Some(values[i].1)
    decreases |values|
  {
    var n := |values| - 1;
    var es := SectionEntries(SECTION_DB, values);
    assert es[..|es| - 1] == SectionEntries(SECTION_DB, values[..n]);
    if i < n {
      ValueAt(values[..n], i);
    }
  }

  lemma {:induction false} NoValue(values: seq<(string, string)>, key: string)
    requires forall j | 0 <= j < |values| :: values[j].0 != key
    ensures LastValue(SectionEntries(SECTION_DB, values), SECTION_DB, key) == None
  {
    if values != [] {
      var n := |values| - 1;
      var es := SectionEntries(SECTION_DB, values);
      assert es[..|es| - 1] == SectionEntries(SECTION_DB, values[..n]);
      NoValue(values[..n], key);
    }
  }
}
