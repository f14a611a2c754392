/** Names of options on the command line and in messages: printing and recognising them. */
module OptionName {
  import opened Wrappers
  import opened StringOrder
  import opened Numerals

  const OPTION_NAME_SIZE_MAX: nat := 64
  const CFG_OPTION_KEY_MAX: nat := 256
  const UINT_LIMIT: nat := 0x1_0000_0000
  const PREFIX_NEGATE := "no-"
  const PREFIX_RESET := "reset-"

  /** An option; the name of an option in a group starts with the name of the group. */
  datatype Opt = Opt(name: string, group: Option<string>, negate: bool, reset: bool, deprecateMatch: bool)

  datatype Deprecation = Deprecation(name: string, id: nat, indexed: bool, unindexed: bool)

  datatype Table = Table(options: seq<Opt>, deprecations: seq<Deprecation>)

  datatype Found = Found(id: nat, keyIdx: nat, negate: bool, reset: bool, deprecated: bool)

  datatype Error =
    | TooLong | BeginsWithDash | BeginsWithNumber | KeyTooBig | DeprecatedIndexed | DeprecatedUnindexed
    | CannotNegate | CannotReset | CannotIndex | NeedsIndex

  // ----- The pieces of a name -----

  datatype Stripped = Stripped(negate: bool, reset: bool, rest: string)

  function Strip(name: string): Stripped {
    if PREFIX_NEGATE <= name then Stripped(true, false, name[|PREFIX_NEGATE|..])
    else if PREFIX_RESET <= name then Stripped(false, true, name[|PREFIX_RESET|..])
    else Stripped(false, false, name)
  }

  function FirstDash(name: string): (d: nat)
    ensures d <= |name| && (d < |name| ==> name[d] == '-') && forall i | 0 <= i < d :: name[i] != '-'
  {
    if name == "" || name[0] == '-' then 0 else 1 + FirstDash(name[1..])
  }

  /** Where the digits that end at `d` begin. */
  function NumberStart(name: string, d: nat): (n: nat)
    requires d <= |name|
    ensures n <= d && AllDigits(name[n..d]) && (n > 0 ==> !IsDigit(name[n - 1]))
    decreases d
  {
    if d > 0 && IsDigit(name[d - 1]) then
      var n := NumberStart(name, d - 1);
      assert name[n..d] == name[n..d - 1] + [name[d - 1]];
      n
    else d
  }

  datatype Keyed = Keyed(indexed: bool, keyIdx: nat, base: string)

  /** The key in front of the first dash and the name without it. Arithmetic is that of 32-bit unsigned numbers. */
  function SplitKey(name: string): (r: Result<Keyed, Error>) {
    var d := FirstDash(name);
    if d == |name| then Ok(Keyed(false, 0, name))
    else if d == 0 then Err(BeginsWithDash)
    else
      var n := NumberStart(name, d);
      if n == 0 then Err(BeginsWithNumber)
      else if n == d then Ok(Keyed(false, 0, name))
      else
        var key := Value(name[n..d]) % UINT_LIMIT;
        if key > CFG_OPTION_KEY_MAX then Err(KeyTooBig)
        else Ok(Keyed(true, if key == 0 then UINT_LIMIT - 1 else key - 1, name[..n] + name[d..]))
  }

  // ----- Looking names up -----

  ghost predicate SortedNames(names: seq<string>) {
    forall i, j | 0 <= i < j < |names| :: Less(names[i], names[j])
  }

  /** Binary search for a name. */
  method Search(names: seq<string>, name: string) returns (r: Option<nat>)
    requires SortedNames(names)
    ensures r.Some? ==> r.value < |names| && names[r.value] == name
    ensures r.None? ==> name !in names
  {
    var lo, hi := 0, |names|;
    while lo < hi
      invariant 0 <= lo <= hi <= |names|
      invariant forall i | 0 <= i < lo :: Less(names[i], name)
      invariant forall i | hi <= i < |names| :: Less(name, names[i])
    {
      var mid := (lo + hi) / 2;
      if names[mid] == name {
        return Some(mid);
      }
      LessTotal(names[mid], name);
      if Less(names[mid], name) {
        forall i | 0 <= i < mid + 1
          ensures Less(names[i], name)
        {
          if i < mid {
            LessTransitive(names[i], names[mid], name);
          }
        }
        lo := mid + 1;
      } else {
        forall i | mid <= i < |names|
          ensures Less(name, names[i])
        {
          if i > mid {
            LessTransitive(name, names[mid], names[i]);
          }
        }
        hi := mid;
      }
    }
    LessIrreflexive(name);
    r := None;
  }

  /** The positions of the names that begin with `prefix`. */
  function Partial(names: seq<string>, prefix: string): seq<nat> {
    if names == [] then []
    else
      var n := |names| - 1;
      Partial(names[..n], prefix) + if prefix <= names[n] then [n] else []
  }

  /** The only name that begins with `prefix`. */
  method SearchPartial(names: seq<string>, prefix: string) returns (r: Option<nat>)
    ensures var all := Partial(names, prefix); r == if |all| == 1 then Some(all[0]) else None
  {
    var idx, total := 0, 0;
    var i := 0;
    while i < |names|
      invariant 0 <= i <= |names| && total <= 1
      invariant |Partial(names[..i], prefix)| == total
      invariant total == 1 ==> Partial(names[..i], prefix) == [idx]
    {
      assert names[..i + 1][..i] == names[..i];
      if prefix <= names[i] {
        idx := i;
        total := total + 1;
        if total > 1 {
          PartialGrows(names, prefix, i + 1);
          break;
        }
      }
      i := i + 1;
    }
    assert names[..|names|] == names;
    r := if total == 1 then Some(idx) else None;
  }

  lemma {:induction false} PartialGrows(names: seq<string>, prefix: string, n: nat)
    requires n <= |names|
    ensures |Partial(names[..n], prefix)| <= |Partial(names, prefix)|
    decreases |names|
  {
    if n < |names| {
      PartialGrows(names[..|names| - 1], prefix, n);
      assert names[..|names| - 1][..n] == names[..n];
    } else {
      assert names[..n] == names;
    }
  }

  /** Adds up the digits in front of the first dash, last digit first, in 32-bit arithmetic. */
  method Tally(name: string, d: nat) returns (start: nat, key: nat)
    requires d <= |name|
    ensures start == NumberStart(name, d) && key == Value(name[start..d]) % UINT_LIMIT
  {
    start, key := d, 0;
    var multiplier := 1;
    ghost var power := 1;
    assert name[d..d] == "";
    while start > 0 && IsDigit(name[start - 1])
      invariant 0 <= start <= d && AllDigits(name[start..d])
      invariant NumberStart(name, d) == NumberStart(name, start)
      invariant key == Value(name[start..d]) % UINT_LIMIT
      invariant power == Power(d - start) && multiplier == power % UINT_LIMIT
    {
      ghost var digits := name[start..d];
      start := start - 1;
      var v := DigitValue(name[start]);
      assert name[start..d] == [name[start]] + digits;
      ValueOfPrepended(name[start], digits);
      TallyStep(Value(digits), v, power);
      key := (key + v * multiplier) % UINT_LIMIT;
      power := power * 10;
      multiplier := (multiplier * 10) % UINT_LIMIT;
    }
  }

  function Power(n: nat): nat {
    if n == 0 then 1 else 10 * Power(n - 1)
  }

  lemma {:induction false} ValueOfPrepended(c: char, digits: string)
    requires IsDigit(c) && AllDigits(digits)
    ensures AllDigits([c] + digits)
    ensures Value([c] + digits) == DigitValue(c) * Power(|digits|) + Value(digits)
  {
    var s := [c] + digits;
    if digits == "" {
      assert s[..0] == "" && s[0] == c;
    } else {
      var n := |digits| - 1;
      assert s[..n + 1] == [c] + digits[..n];
      ValueOfPrepended(c, digits[..n]);
    }
  }

  lemma TallyStep(key: nat, v: nat, power: nat)
    ensures (key % UINT_LIMIT + v * (power % UINT_LIMIT)) % UINT_LIMIT == (v * power + key) % UINT_LIMIT
    ensures (power % UINT_LIMIT * 10) % UINT_LIMIT == (power * 10) % UINT_LIMIT
  {
    var a, b := power / UINT_LIMIT, key / UINT_LIMIT;
    var p, k := power % UINT_LIMIT, key % UINT_LIMIT;
    assert power == a * UINT_LIMIT + p && key == b * UINT_LIMIT + k;
    assert v * power + key == (k + v * p) + (v * a + b) * UINT_LIMIT by {
      assert v * power == v * (a * UINT_LIMIT) + v * p;
      assert v * (a * UINT_LIMIT) == (v * a) * UINT_LIMIT;
    }
    Modulo(k + v * p, v * a + b);
    Modulo(p * 10, a * 10);
  }

  lemma Modulo(x: nat, q: nat)
    ensures (x + q * UINT_LIMIT) % UINT_LIMIT == x % UINT_LIMIT
  {
  }

  // ----- Recognising a name -----

  function IndexOf(names: seq<string>, name: string): (i: nat)
    requires name in names
    ensures i < |names| && names[i] == name
  {
    if names[0] == name then 0 else 1 + IndexOf(names[1..], name)
  }

  /** An exact match, or the only match of the beginning where that is allowed. */
  function Lookup(names: seq<string>, name: string, prefixMatch: bool): (r: Option<nat>) {
    if name in names then Some(IndexOf(names, name))
    else if prefixMatch && |Partial(names, name)| == 1 then Some(Partial(names, name)[0])
    else None
  }

  /** Position `k` is that of the only name that begins with `prefix`. */
  predicate OnlyMatch(names: seq<string>, prefix: string, k: nat) {
    && k < |names| && prefix <= names[k]
    && forall j | 0 <= j < |names| && j != k :: !(prefix <= names[j])
  }

  lemma {:induction false} PartialElements(names: seq<string>, prefix: string, k: nat)
    ensures k in Partial(names, prefix) <==> k < |names| && prefix <= names[k]
  {
    if names != [] {
      PartialElements(names[..|names| - 1], prefix, k);
    }
  }

  lemma PartialIsOnlyMatch(names: seq<string>, prefix: string, k: nat)
    ensures Partial(names, prefix) == [k] <==> OnlyMatch(names, prefix, k)
  {
    PartialElements(names, prefix, k);
    if Partial(names, prefix) == [k] {
      forall j | 0 <= j < |names| && j != k
        ensures !(prefix <= names[j])
      {
        PartialElements(names, prefix, j);
      }
    } else if OnlyMatch(names, prefix, k) {
      OnlyOneFound(names, prefix, k);
    }
  }

  lemma {:induction false} OnlyOneFound(names: seq<string>, prefix: string, k: nat)
    requires OnlyMatch(names, prefix, k)
    ensures Partial(names, prefix) == [k]
  {
    var n := |names| - 1;
    if k == n {
      NoneFound(names[..n], prefix);
    } else {
      OnlyOneFound(names[..n], prefix, k);
    }
  }

  lemma {:induction false} NoneFound(names: seq<string>, prefix: string)
    requires forall j | 0 <= j < |names| :: !(prefix <= names[j])
    ensures Partial(names, prefix) == []
  {
    if names != [] {
      NoneFound(names[..|names| - 1], prefix);
    }
  }

  /** A name that is not in the table is found exactly when it is allowed to be the beginning of one and begins only that one. */
  lemma FoundExactlyWhen(names: seq<string>, name: string, prefixMatch: bool, k: nat)
    requires name !in names
    ensures Lookup(names, name, prefixMatch) == Some(k) <==> prefixMatch && OnlyMatch(names, name, k)
  {
    PartialIsOnlyMatch(names, name, k);
  }

  lemma {:induction false} PartialInRange(names: seq<string>, prefix: string)
    ensures forall i | 0 <= i < |Partial(names, prefix)| :: Partial(names, prefix)[i] < |names|
  {
    if names != [] {
      PartialInRange(names[..|names| - 1], prefix);
    }
  }

  method Find(names: seq<string>, name: string, prefixMatch: bool) returns (r: Option<nat>)
    requires SortedNames(names)
    ensures r == Lookup(names, name, prefixMatch) && (r.Some? ==> r.value < |names|)
  {
    r := Search(names, name);
    if r.Some? {
      SortedIsUnique(names, r.value, IndexOf(names, name));
    } else if prefixMatch {
      r := SearchPartial(names, name);
      PartialInRange(names, name);
    }
  }

  lemma SortedIsUnique(names: seq<string>, i: nat, j: nat)
    requires SortedNames(names) && i < |names| && j < |names| && names[i] == names[j]
    ensures i == j
  {
    LessIrreflexive(names[i]);
  }

  function Names(options: seq<Opt>): (r: seq<string>)
    ensures |r| == |options| && forall i | 0 <= i < |r| :: r[i] == options[i].name
  {
    seq(|options|, i requires 0 <= i < |options| => options[i].name)
  }

  function DeprecatedNames(ds: seq<Deprecation>): (r: seq<string>)
    ensures |r| == |ds| && forall i | 0 <= i < |r| :: r[i] == ds[i].name
  {
    seq(|ds|, i requires 0 <= i < |ds| => ds[i].name)
  }

  /** Checks on an option that was found. */
  function Checked(o: Opt, id: nat, s: Stripped, k: Keyed, byDeprecation: bool, ignoreMissingIndex: bool): Result<Found, Error> {
    var deprecated := byDeprecation || (!k.indexed && o.deprecateMatch);
    if s.negate && !o.negate then Err(CannotNegate)
    else if s.reset && !o.reset then Err(CannotReset)
    else if !deprecated && k.indexed && o.group == None then Err(CannotIndex)
    else if !deprecated && !k.indexed && o.group.Some? && !ignoreMissingIndex then Err(NeedsIndex)
    else Ok(Found(id, k.keyIdx, s.negate, s.reset, deprecated))
  }

  function Recognised(t: Table, name: string, prefixMatch: bool, ignoreMissingIndex: bool): Result<Option<Found>, Error>
    requires Sound(t)
  {
    if |name| > OPTION_NAME_SIZE_MAX then Err(TooLong)
    else
      var s := Strip(name);
      match SplitKey(s.rest)
      case Err(e) => Err(e)
      case Ok(k) =>
        var option := Lookup(Names(t.options), k.base, prefixMatch);
        PartialInRange(Names(t.options), k.base);
        PartialInRange(DeprecatedNames(t.deprecations), k.base);
        if option.Some? then
          match Checked(t.options[option.value], option.value, s, k, false, ignoreMissingIndex)
          case Err(e) => Err(e)
          case Ok(found) => Ok(Some(found))
        else
          match Lookup(DeprecatedNames(t.deprecations), k.base, prefixMatch)
          case None => Ok(None)
          case Some(i) =>
            var d := t.deprecations[i];
            if k.indexed && !d.indexed then Err(DeprecatedIndexed)
            else if !k.indexed && !d.unindexed && !ignoreMissingIndex then Err(DeprecatedUnindexed)
            else
              match Checked(t.options[d.id], d.id, s, k, true, ignoreMissingIndex)
              case Err(e) => Err(e)
              case Ok(found) => Ok(Some(found))
  }

  /** The tables are sorted and deprecations name options of the table. */
  ghost predicate Sound(t: Table) {
    && SortedNames(Names(t.options)) && SortedNames(DeprecatedNames(t.deprecations))
    && forall i | 0 <= i < |t.deprecations| :: t.deprecations[i].id < |t.options|
  }

  /** Takes a prefix for negation or reset off the name. */
  method StripPrefix(candidate: string) returns (negate: bool, reset: bool, optionName: string)
    ensures Stripped(negate, reset, optionName) == Strip(candidate)
  {
    optionName, negate, reset := candidate, false, false;
    if PREFIX_NEGATE <= optionName {
      negate := true;
      optionName := optionName[|PREFIX_NEGATE|..];
    } else if PREFIX_RESET <= optionName {
      reset := true;
      optionName := optionName[|PREFIX_RESET|..];
    }
  }

  /** Takes the key out of the name. */
  method StripKey(optionName: string) returns (r: Result<Keyed, Error>)
    ensures r == SplitKey(optionName)
  {
    hide NumberStart;
    hide FirstDash;
    hide Value;
    var dash := FirstDash(optionName);
    if dash == |optionName| {
      return Ok(Keyed(false, 0, optionName));
    }
    if dash == 0 {
      return Err(BeginsWithDash);
    }
    var number, key := Tally(optionName, dash);
    if number == 0 {
      return Err(BeginsWithNumber);
    }
    if number == dash {
      return Ok(Keyed(false, 0, optionName));
    }
    if key > CFG_OPTION_KEY_MAX {
      return Err(KeyTooBig);
    }
    return Ok(Keyed(true, if key == 0 then UINT_LIMIT - 1 else key - 1, optionName[..number] + optionName[dash..]));
  }

  method ParseOption(t: Table, candidate: string, prefixMatch: bool, ignoreMissingIndex: bool)
    returns (r: Result<Option<Found>, Error>)
    requires Sound(t)
    ensures r == Recognised(t, candidate, prefixMatch, ignoreMissingIndex)
  {
    hide Lookup;
    hide Strip;
    hide SplitKey;
    hide Checked;
    if |candidate| > OPTION_NAME_SIZE_MAX {
      return Err(TooLong);
    }
    var negate, reset, rest := StripPrefix(candidate);
    var keyed := StripKey(rest);
    if keyed.Err? {
      return Err(keyed.error);
    }
    var Keyed(indexed, keyIdx, optionName) := keyed.value;
    ghost var s, k := Strip(candidate), keyed.value;

    var found := Find(Names(t.options), optionName, prefixMatch);
    var byDeprecation := false;
    if found == None {
      var i := Find(DeprecatedNames(t.deprecations), optionName, prefixMatch);
      if i == None {
        return Ok(None);
      }
      var d := t.deprecations[i.value];
      if indexed && !d.indexed {
        return Err(DeprecatedIndexed);
      }
      if !indexed && !d.unindexed && !ignoreMissingIndex {
        return Err(DeprecatedUnindexed);
      }
      byDeprecation := true;
      found := Some(d.id);
    }
    var checked := Check(t.options[found.value], found.value, negate, reset, indexed, keyIdx, byDeprecation, ignoreMissingIndex);
    assert checked == Checked(t.options[found.value], found.value, s, k, byDeprecation, ignoreMissingIndex);
    if checked.Err? {
      return Err(checked.error);
    }
    return Ok(Some(checked.value));
  }

  method Check(o: Opt, id: nat, negate: bool, reset: bool, indexed: bool, keyIdx: nat, byDeprecation: bool,
               ignoreMissingIndex: bool)
    returns (r: Result<Found, Error>)
    ensures forall base, rest :: r == Checked(o, id, Stripped(negate, reset, rest), Keyed(indexed, keyIdx, base),
                                              byDeprecation, ignoreMissingIndex)
  {
    var deprecated := byDeprecation;
    if negate && !o.negate {
      return Err(CannotNegate);
    }
    if reset && !o.reset {
      return Err(CannotReset);
    }
    if !indexed && o.deprecateMatch {
      deprecated := true;
    }
    if !deprecated {
      if indexed && o.group == None {
        return Err(CannotIndex);
      }
      if !indexed && o.group.Some? && !ignoreMissingIndex {
        return Err(NeedsIndex);
      }
    }
    return Ok(Found(id, keyIdx, negate, reset, deprecated));
  }

  lemma LookupInRange(names: seq<string>, name: string, prefixMatch: bool)
    ensures Lookup(names, name, prefixMatch).Some? ==> Lookup(names, name, prefixMatch).value < |names|
  {
    PartialInRange(names, name);
  }

  /** Without a number in the name the key index is the first. */
  lemma UnindexedIsFirst(name: string)
    ensures SplitKey(name).Ok? && !SplitKey(name).value.indexed ==> SplitKey(name).value.keyIdx == 0
  {
  }

  // ----- Printing -----

  /** The name with key `n`. */
  function Numbered(o: Opt, n: nat): string
    requires o.group.Some? && |o.group.value| <= |o.name|
  {
    o.group.value + Print(n) + o.name[|o.group.value|..]
  }

  function PrintName(o: Opt, keyIdx: nat): string
    requires GoodOption(o)
  {
    if o.group.Some? then Numbered(o, keyIdx + 1) else o.name
  }

  predicate HasDash(s: string) {
    exists i | 0 <= i < |s| :: s[i] == '-'
  }

  /** What the option table must be like: names cannot be taken for negated or reset ones, no digit comes before the first
      dash, a group has a name without dash that does not end in a digit, and the option continues it with a dash. */
  predicate GoodOption(o: Opt) {
    match o.group
    case None =>
      && |o.name| <= OPTION_NAME_SIZE_MAX
      && !(PREFIX_NEGATE <= o.name) && !(PREFIX_RESET <= o.name)
      && (var d := FirstDash(o.name); d < |o.name| ==> d > 0 && !IsDigit(o.name[d - 1]))
    case Some(group) =>
      && |o.name| + 3 <= OPTION_NAME_SIZE_MAX
      && group != "" && !HasDash(group) && !IsDigit(group[|group| - 1])
      && group + "-" <= o.name
  }

  ghost predicate WellFormed(t: Table) {
    Sound(t) && forall i | 0 <= i < |t.options| :: GoodOption(t.options[i])
  }

  lemma FirstDashIs(name: string, d: nat)
    requires d < |name| && name[d] == '-' && forall i | 0 <= i < d :: name[i] != '-'
    ensures FirstDash(name) == d
  {
  }

  lemma {:induction false} NumberStartIs(name: string, n: nat, d: nat)
    requires 0 < n <= d <= |name| && !IsDigit(name[n - 1]) && forall i | n <= i < d :: IsDigit(name[i])
    ensures NumberStart(name, d) == n
    decreases d
  {
  }

  lemma NumberedNotStripped(o: Opt, n: nat)
    requires GoodOption(o) && o.group.Some?
    ensures Strip(Numbered(o, n)) == Stripped(false, false, Numbered(o, n))
  {
    var group := o.group.value;
    var name := Numbered(o, n);
    assert forall i | 0 <= i < |group| :: name[i] == group[i];
    assert IsDigit(name[|group|]) by {
      assert name[|group|] == Print(n)[0];
    }
    NotAPrefix(name, PREFIX_NEGATE, 2, group);
    NotAPrefix(name, PREFIX_RESET, 5, group);
  }

  /** A prefix that ends in its only dash cannot begin a name whose group has no dash and is followed by a digit. */
  lemma NotAPrefix(name: string, prefix: string, d: nat, group: string)
    requires d == |prefix| - 1 && prefix[d] == '-' && forall i | 0 <= i < d :: !IsDigit(prefix[i])
    requires |group| < |name| && IsDigit(name[|group|]) && !HasDash(group)
    requires forall i | 0 <= i < |group| :: name[i] == group[i]
    ensures !(prefix <= name)
  {
  }

  lemma NumberedSplit(o: Opt, n: nat)
    requires GoodOption(o) && o.group.Some?
    ensures SplitKey(Numbered(o, n)) ==
            var key := n % UINT_LIMIT;
            if key > CFG_OPTION_KEY_MAX then Err(KeyTooBig)
            else Ok(Keyed(true, if key == 0 then UINT_LIMIT - 1 else key - 1, o.name))
  {
    hide FirstDash;
    hide NumberStart;
    var group, digits := o.group.value, Print(n);
    var suffix := o.name[|group|..];
    var name := Numbered(o, n);
    var g := |group|;
    var d := g + |digits|;
    assert suffix[0] == '-' by {
      assert (group + "-")[g] == o.name[g];
    }
    assert name[..g] == group && name[g..d] == digits && name[d..] == suffix;
    assert name[g - 1] == group[g - 1];
    assert forall i | g <= i < d :: name[i] == digits[i - g];
    forall i | 0 <= i < d
      ensures name[i] != '-'
    {
      if i < g {
        assert name[i] == group[i];
      }
    }
    FirstDashIs(name, d);
    NumberStartIs(name, g, d);
    ValueOfPrint(n);
    assert group + suffix == o.name;
  }

  lemma PlainSplit(o: Opt)
    requires GoodOption(o) && o.group.None?
    ensures Strip(o.name) == Stripped(false, false, o.name) && SplitKey(o.name) == Ok(Keyed(false, 0, o.name))
  {
  }

  lemma ExactMatch(t: Table, id: nat, prefixMatch: bool)
    requires Sound(t) && id < |t.options|
    ensures Lookup(Names(t.options), t.options[id].name, prefixMatch) == Some(id)
  {
    var names := Names(t.options);
    assert names[id] in names;
    SortedIsUnique(names, id, IndexOf(names, names[id]));
  }

  /** A printed name is recognised as the option and key index it was printed from. */
  lemma PrintedIsRecognised(t: Table, id: nat, keyIdx: nat, prefixMatch: bool, ignoreMissingIndex: bool)
    requires WellFormed(t) && id < |t.options| && keyIdx < CFG_OPTION_KEY_MAX
    requires t.options[id].group == None ==> keyIdx == 0
    ensures var r := Recognised(t, PrintName(t.options[id], keyIdx), prefixMatch, ignoreMissingIndex);
            r.Ok? && r.value.Some? && r.value.value.id == id && r.value.value.keyIdx == keyIdx
            && !r.value.value.negate && !r.value.value.reset
  {
    hide Lookup;
    hide Strip;
    hide SplitKey;
    hide Sound;
    hide Numbered;
    var o := t.options[id];
    ExactMatch(t, id, prefixMatch);
    if o.group.Some? {
      NumberedNotStripped(o, keyIdx + 1);
      NumberedSplit(o, keyIdx + 1);
      NumberedIsShort(o, keyIdx + 1);
    } else {
      PlainSplit(o);
    }
  }

  /** With the prefix for negation or reset a printed name is recognised as that option and key index, negated or reset, where
      the option allows it, and refused where it does not. */
  lemma PrefixedIsRecognised(t: Table, id: nat, keyIdx: nat, negate: bool, prefixMatch: bool, ignoreMissingIndex: bool)
    requires WellFormed(t) && id < |t.options| && keyIdx < CFG_OPTION_KEY_MAX
    requires t.options[id].group == None ==> keyIdx == 0
    requires |if negate then "no-" else "reset-"| + |PrintName(t.options[id], keyIdx)| <= OPTION_NAME_SIZE_MAX
    ensures var o := t.options[id];
            var name := (if negate then "no-" else "reset-") + PrintName(o, keyIdx);
            var r := Recognised(t, name, prefixMatch, ignoreMissingIndex);
            if negate then
              && (!o.negate ==> r == Err(CannotNegate))
              && (o.negate ==> r.Ok? && r.value.Some? && r.value.value.id == id && r.value.value.keyIdx == keyIdx
                               && r.value.value.negate && !r.value.value.reset)
            else
              && (!o.reset ==> r == Err(CannotReset))
              && (o.reset ==> r.Ok? && r.value.Some? && r.value.value.id == id && r.value.value.keyIdx == keyIdx
                              && !r.value.value.negate && r.value.value.reset)
  {
    var o := t.options[id];
    var rest := PrintName(o, keyIdx);
    hide Lookup;
    hide Strip;
    hide SplitKey;
    hide Sound;
    hide Numbered;
    hide Recognised;
    hide GoodOption;
    var k := Keyed(o.group.Some?, keyIdx, o.name);
    StripsPrefix(negate, rest);
    SplitsPrinted(o, keyIdx);
    ExactMatch(t, id, prefixMatch);
    RecognisedAs(t, (if negate then "no-" else "reset-") + rest, Stripped(negate, !negate, rest), k, id, prefixMatch,
                 ignoreMissingIndex);
  }

  lemma SplitsPrinted(o: Opt, keyIdx: nat)
    requires GoodOption(o) && keyIdx < CFG_OPTION_KEY_MAX && (o.group == None ==> keyIdx == 0)
    ensures SplitKey(PrintName(o, keyIdx)) == Ok(Keyed(o.group.Some?, keyIdx, o.name))
  {
    hide SplitKey;
    if o.group.Some? {
      NumberedSplit(o, keyIdx + 1);
    } else {
      PlainSplit(o);
    }
  }

  /** A name that is found is recognised as the checks on the option say. */
  lemma RecognisedAs(t: Table, name: string, s: Stripped, k: Keyed, id: nat, prefixMatch: bool, ignoreMissingIndex: bool)
    requires Sound(t) && |name| <= OPTION_NAME_SIZE_MAX && Strip(name) == s && SplitKey(s.rest) == Ok(k)
    requires id < |t.options| && Lookup(Names(t.options), k.base, prefixMatch) == Some(id)
    ensures Recognised(t, name, prefixMatch, ignoreMissingIndex) ==
            match Checked(t.options[id], id, s, k, false, ignoreMissingIndex)
            case Err(e) => Err(e)
            case Ok(found) => Ok(Some(found))
  {
    hide Lookup;
    hide Strip;
    hide SplitKey;
    hide Checked;
  }

  lemma StripsPrefix(negate: bool, rest: string)
    ensures Strip((if negate then "no-" else "reset-") + rest) == Stripped(negate, !negate, rest)
  {
    var name := (if negate then "no-" else "reset-") + rest;
    if !negate {
      assert name[0] == 'r';
      assert !(PREFIX_NEGATE <= name);
    }
  }

  lemma NumberedIsShort(o: Opt, n: nat)
    requires GoodOption(o) && o.group.Some? && n <= CFG_OPTION_KEY_MAX
    ensures |Numbered(o, n)| <= OPTION_NAME_SIZE_MAX
  {
    assert n / 10 / 10 < 10;
    assert |Print(n / 10 / 10)| == 1;
    assert |Print(n / 10)| <= 2;
    assert |Print(n)| <= 3;
    assert |Numbered(o, n)| == |Print(n)| + |o.name|;
  }

  /** A name with any number in it is recognised with that number as key exactly for keys 1 to 256, and for 2^32, where two
      wrap-arounds cancel out. */
  lemma NumberIsKeyExactlyWhen(t: Table, id: nat, n: nat, prefixMatch: bool, ignoreMissingIndex: bool)
    requires WellFormed(t) && id < |t.options| && t.options[id].group.Some?
    requires |Numbered(t.options[id], n)| <= OPTION_NAME_SIZE_MAX
    ensures var r := Recognised(t, Numbered(t.options[id], n), prefixMatch, ignoreMissingIndex);
            (r.Ok? && r.value.Some? && r.value.value.id == id && r.value.value.keyIdx + 1 == n)
            <==> 1 <= n <= CFG_OPTION_KEY_MAX || n == UINT_LIMIT
  {
    hide Lookup;
    hide Strip;
    hide SplitKey;
    hide Sound;
    hide Numbered;
    var o := t.options[id];
    ExactMatch(t, id, prefixMatch);
    NumberedNotStripped(o, n);
    NumberedSplit(o, n);
  }

  /** A recognised key index is below the maximum exactly when the number is not a multiple of 2^32; key 0 is accepted and
      wraps around to the largest index. */
  lemma KeyIndexIsInRangeExactlyWhen(t: Table, id: nat, n: nat, prefixMatch: bool, ignoreMissingIndex: bool)
    requires WellFormed(t) && id < |t.options| && t.options[id].group.Some?
    requires |Numbered(t.options[id], n)| <= OPTION_NAME_SIZE_MAX && n % UINT_LIMIT <= CFG_OPTION_KEY_MAX
    ensures var r := Recognised(t, Numbered(t.options[id], n), prefixMatch, ignoreMissingIndex);
            r.Ok? && r.value.Some? && (r.value.value.keyIdx < CFG_OPTION_KEY_MAX <==> n % UINT_LIMIT != 0)
  {
    hide Lookup;
    hide Strip;
    hide SplitKey;
    hide Sound;
    hide Numbered;
    var o := t.options[id];
    ExactMatch(t, id, prefixMatch);
    NumberedNotStripped(o, n);
    NumberedSplit(o, n);
  }

  /** A deprecated name without a number stands for the first key of its option, where the deprecation allows that, and is
      marked as deprecated; with a number it stands for that key, where the deprecation allows that. */
  lemma DeprecatedIsRecognised(t: Table, i: nat, k: Keyed, name: string, ignoreMissingIndex: bool)
    requires Sound(t) && i < |t.deprecations| && |name| <= OPTION_NAME_SIZE_MAX
    requires Strip(name) == Stripped(false, false, name) && SplitKey(name) == Ok(k) && k.base == t.deprecations[i].name
    requires k.base !in Names(t.options)
    ensures var d := t.deprecations[i];
            var r := Recognised(t, name, false, ignoreMissingIndex);
            if k.indexed then
              r == if d.indexed then Ok(Some(Found(d.id, k.keyIdx, false, false, true))) else Err(DeprecatedIndexed)
            else if d.unindexed || ignoreMissingIndex then r == Ok(Some(Found(d.id, 0, false, false, true)))
            else r == Err(DeprecatedUnindexed)
  {
    hide Strip;
    hide SplitKey;
    UnindexedIsFirst(name);
    var names := DeprecatedNames(t.deprecations);
    assert names[i] in names;
    SortedIsUnique(names, i, IndexOf(names, names[i]));
  }

  /** A name that is neither that of an option nor a deprecated one is not recognised, and without the number that it needs,
      or with one that it cannot have, an option is refused. */
  lemma UnknownOrMisnumbered(t: Table, k: Keyed, name: string, ignoreMissingIndex: bool)
    requires Sound(t) && |name| <= OPTION_NAME_SIZE_MAX && Strip(name) == Stripped(false, false, name)
    requires SplitKey(name) == Ok(k)
    ensures k.base !in Names(t.options) && k.base !in DeprecatedNames(t.deprecations) ==>
              Recognised(t, name, false, ignoreMissingIndex) == Ok(None)
    ensures forall id | 0 <= id < |t.options| && t.options[id].name == k.base ::
              var o := t.options[id];
              var r := Recognised(t, name, false, ignoreMissingIndex);
              && (k.indexed && o.group == None ==> r == Err(CannotIndex))
              && (!k.indexed && o.group.Some? && !o.deprecateMatch && !ignoreMissingIndex ==> r == Err(NeedsIndex))
              && (!k.indexed && (o.group == None || o.deprecateMatch || ignoreMissingIndex) ==>
                    r == Ok(Some(Found(id, 0, false, false, o.deprecateMatch))))
  {
    hide Strip;
    hide SplitKey;
    UnindexedIsFirst(name);
    forall id | 0 <= id < |t.options| && t.options[id].name == k.base
      ensures Lookup(Names(t.options), k.base, false) == Some(id)
    {
      ExactMatch(t, id, false);
    }
  }

  /** Different options or key indexes have different printed names. */
  lemma PrintedNamesDiffer(t: Table, id: nat, keyIdx: nat, id': nat, keyIdx': nat)
    requires WellFormed(t) && id < |t.options| && id' < |t.options|
    requires keyIdx < CFG_OPTION_KEY_MAX && keyIdx' < CFG_OPTION_KEY_MAX
    requires t.options[id].group == None ==> keyIdx == 0
    requires t.options[id'].group == None ==> keyIdx' == 0
    requires PrintName(t.options[id], keyIdx) == PrintName(t.options[id'], keyIdx')
    ensures id == id' && keyIdx == keyIdx'
  {
    hide Recognised;
    hide PrintName;
    PrintedIsRecognised(t, id, keyIdx, false, false);
    PrintedIsRecognised(t, id', keyIdx', false, false);
  }
}
