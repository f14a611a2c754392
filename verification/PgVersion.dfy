/** PostgreSQL versions as info files name them. */
module PgVersion {
  import opened Wrappers
  import opened JsonCodec
  import IniFile
  import Numerals

  const PG_VERSION_93: UInt32 := 90300
  const PG_VERSION_94: UInt32 := 90400
  const PG_VERSION_95: UInt32 := 90500
  const PG_VERSION_96: UInt32 := 90600
  const PG_VERSION_10: UInt32 := 100000
  const PG_VERSION_11: UInt32 := 110000
  const PG_VERSION_12: UInt32 := 120000
  const PG_VERSION_13: UInt32 := 130000
  const PG_VERSION_14: UInt32 := 140000
  const PG_VERSION_15: UInt32 := 150000

  /** The control version that goes with a version; other versions are refused. */
  function ControlVersion(version: UInt32): Option<UInt32> {
    if version == PG_VERSION_93 then Some(937)
    else if version == PG_VERSION_94 || version == PG_VERSION_95 then Some(942)
    else if version == PG_VERSION_96 then Some(960)
    else if version == PG_VERSION_10 then Some(1002)
    else if version == PG_VERSION_11 then Some(1100)
    else if version == PG_VERSION_12 then Some(1201)
    else if version == PG_VERSION_13 || version == PG_VERSION_14 || version == PG_VERSION_15 then Some(1300)
    else None
  }

  function ToStr(version: UInt32): string {
    if version >= PG_VERSION_10 then Numerals.Print(version / 10000)
    else Numerals.Print(version / 10000) + "." + Numerals.Print(version % 10000 / 100)
  }

  /** The version that a name stands for, reduced to 32 bits. A name without a dot has at least two digits. */
  function FromStr(name: string): Option<UInt32> {
    var dot := IniFile.Find(name, '.', 0);
    if dot == |name| then
      if |name| < 2 || ParseUInt32(name) == None then None else Some(ParseUInt32(name).value * 10000 % (UINT_MAX + 1))
    else
      var major := ParseUInt32(name[..dot]);
      var minor := ParseUInt32(name[dot + 1..]);
      if major == None || minor == None then None
      else Some((major.value * 10000 + minor.value * 100) % (UINT_MAX + 1))
  }

  /** What the name keeps of a version. */
  function Kept(version: UInt32): UInt32 {
    version - version % (if version >= PG_VERSION_10 then 10000 else 100)
  }

  lemma NoDotInNumber(n: nat)
    ensures '.' !in Numerals.Print(n)
  {
    assert !Numerals.IsDigit('.');
  }

  lemma ParseOfPrint(n: UInt32)
    ensures ParseUInt32(Numerals.Print(n)) == Some(n)
  {
    Numerals.ParseOfPrint(n);
  }

  lemma TwoDigits(n: nat)
    requires n >= 10
    ensures |Numerals.Print(n)| >= 2
  {
  }

  lemma KeptIs(version: UInt32)
    ensures version >= PG_VERSION_10 ==> Kept(version) == version / 10000 * 10000
    ensures version < PG_VERSION_10 ==> Kept(version) == version / 10000 * 10000 + version % 10000 / 100 * 100
  {
  }

  lemma KeptFits(n: UInt32)
    ensures n % (UINT_MAX + 1) == n
  {
  }

  lemma DottedName(major: UInt32, minor: UInt32)
    ensures var name := Numerals.Print(major) + "." + Numerals.Print(minor);
            FromStr(name) == Some((major * 10000 + minor * 100) % (UINT_MAX + 1))
  {
    hide Numerals.Print;
    hide ParseUInt32;
    var name := Numerals.Print(major) + "." + Numerals.Print(minor);
    var n := |Numerals.Print(major)|;
    NoDotInNumber(major);
    ParseOfPrint(major);
    ParseOfPrint(minor);
    assert name[n] == '.' && name[..n] == Numerals.Print(major) && name[n + 1..] == Numerals.Print(minor);
    assert forall k | 0 <= k < n :: name[k] == Numerals.Print(major)[k] && name[k] in Numerals.Print(major);
    assert IniFile.Find(name, '.', 0) == n;
  }

  lemma PlainNumber(major: UInt32)
    requires major >= 10
    ensures FromStr(Numerals.Print(major)) == Some(major * 10000 % (UINT_MAX + 1))
  {
    hide Numerals.Print;
    hide ParseUInt32;
    NoDotInNumber(major);
    ParseOfPrint(major);
    TwoDigits(major);
    assert IniFile.Find(Numerals.Print(major), '.', 0) == |Numerals.Print(major)|;
  }

  /** A name is always read, as the version it was made from without the parts that a name does not show. */
  lemma VersionIsRead(version: UInt32)
    ensures FromStr(ToStr(version)) == Some(Kept(version))
  {
    hide FromStr;
    hide Kept;
    KeptIs(version);
    KeptFits(Kept(version));
    if version >= PG_VERSION_10 {
      PlainNumber(version / 10000);
    } else {
      DottedName(version / 10000, version % 10000 / 100);
    }
  }

  /** So it comes back exactly when it has no such parts. */
  lemma VersionSurvivesExactlyWhen(version: UInt32)
    ensures FromStr(ToStr(version)) == Some(version) <==>
            version % (if version >= PG_VERSION_10 then 10000 else 100) == 0
  {
    hide FromStr;
    hide ToStr;
    VersionIsRead(version);
  }

  /** Such as: 9.3.1 is named 9.3. */
  lemma PatchLevelIsLost()
    ensures ToStr(90301) == "9.3" && FromStr(ToStr(90301)) == Some(90300)
  {
    hide FromStr;
    assert Numerals.Print(9) == "9" && Numerals.Print(3) == "3";
    VersionIsRead(90301);
  }

  /** Every version with a control version comes back. */
  lemma KnownVersionsSurvive(version: UInt32)
    requires ControlVersion(version).Some?
    ensures FromStr(ToStr(version)) == Some(version)
  {
    hide FromStr;
    hide ToStr;
    VersionSurvivesExactlyWhen(version);
  }
}
