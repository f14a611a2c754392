/** Options are taken from the command line, the environment and the sections of the configuration file, in this order of
    precedence, and collected by option and key index. */
module OptionMerge {
  import opened Wrappers
  import OptionName

  datatype Place = CommandLineOnly | Global | Stanza

  /** What the option table says about an option, for the command that is run. */
  datatype Rule = Rule(grouped: bool, boolean: bool, multi: bool, secure: bool, place: Place, valid: bool)

  /** What an option name is recognised as, if it is one; other names may throw. */
  type Parsed = OptionName.Found

  type Parser = string -> Result<Option<Parsed>, OptionName.Error>

  /** The option table, and the parsers of option names on the command line and elsewhere. */
  datatype Table = Table(rules: seq<Rule>, parseArg: Parser, parseKey: Parser)

  datatype Slot = Slot(id: nat, keyIdx: nat)

  datatype Source = Param | Config

  datatype Value = Value(negate: bool, reset: bool, source: Source, values: Option<seq<string>>)

  type Store = map<Slot, Value>

  datatype Error =
    | MustBeginWithDashes | InvalidOption | BadBoolean | NeedsArgument | NoArgumentAllowed | NotOnCommandLine
    | NegatedTwice | ResetTwice | NegatedAndReset | SetAndNegated | SetAndReset | SetTwice | EmptyValue | Duplicate
    | Name(name: OptionName.Error) | KeyOutOfRange

  const CFG_OPTION_KEY_MAX := OptionName.CFG_OPTION_KEY_MAX
  const UINT_LIMIT := OptionName.UINT_LIMIT

  predicate InTable(t: Table, p: Parsed) {
    p.id < |t.rules| && (!t.rules[p.id].grouped ==> p.keyIdx == 0)
  }

  predicate AnyInTable(t: Table, r: Result<Option<Parsed>, OptionName.Error>) {
    r.Ok? && r.value.Some? ==> InTable(t, r.value.value)
  }

  /** Parsers recognise only options of the table, and give a key index only to options of a group. */
  ghost predicate Sound(t: Table) {
    forall s :: AnyInTable(t, t.parseArg(s)) && AnyInTable(t, t.parseKey(s))
  }

  /** The list of values has no place for the key index that key 0 wraps around to: in 32 bits its size would be 0. */
  predicate OutOfRange(p: Parsed) {
    p.keyIdx >= CFG_OPTION_KEY_MAX
  }

  function SlotOf(p: Parsed): Slot {
    Slot(p.id, p.keyIdx)
  }

  function Get(store: Store, slot: Slot): Option<Value> {
    if slot in store then Some(store[slot]) else None
  }

  function OrElse(a: Option<Value>, b: Option<Value>): Option<Value> {
    if a.Some? then a else b
  }

  // ----- Command line -----

  /** An option of the command line with its argument. */
  datatype Setting = Setting(parsed: Parsed, arg: Option<string>)

  function FindChar(s: string, c: char): (i: nat)
    ensures i <= |s| && (i < |s| ==> s[i] == c) && forall k | 0 <= k < i :: s[k] != c
  {
    if s == "" || s[0] == c then 0 else 1 + FindChar(s[1..], c)
  }

  function NameOf(arg: string): string
    requires |arg| >= 2
  {
    var s := arg[2..];
    s[..FindChar(s, '=')]
  }

  function ArgumentOf(arg: string): Option<string>
    requires |arg| >= 2
  {
    var s := arg[2..];
    var e := FindChar(s, '=');
    if e < |s| then Some(s[e + 1..]) else None
  }

  /** The first setting of a command line, if the first argument is an option, and how many arguments it takes. */
  function Token(t: Table, args: seq<string>): (r: Result<(Option<Setting>, nat), Error>)
    requires args != [] && Sound(t)
    ensures r.Ok? ==> 0 < r.value.1 <= |args| && (r.value.0.Some? ==> InTable(t, r.value.0.value.parsed))
  {
    var arg := args[0];
    if arg == "" || arg[0] != '-' then Ok((None, 1))
    else if |arg| == 1 || arg[1] != '-' then Err(MustBeginWithDashes)
    else
      match t.parseArg(NameOf(arg))
      case Err(e) => Err(Name(e))
      case Ok(None) => Err(InvalidOption)
      case Ok(Some(p)) =>
        var given := ArgumentOf(arg);
        if p.negate || p.reset then
          if given.Some? then Err(NoArgumentAllowed) else Ok((Some(Setting(p, None)), 1))
        else if t.rules[p.id].boolean then
          if given.Some? && given.value != "n" && given.value != "y" then Err(BadBoolean)
          else Ok((Some(Setting(p.(negate := given == Some("n")), given)), 1))
        else if given.Some? then Ok((Some(Setting(p, given)), 1))
        else if |args| == 1 then Err(NeedsArgument)
        else Ok((Some(Setting(p, Some(args[1]))), 2))
  }

  function AddSetting(t: Table, store: Store, s: Setting): Result<Store, Error>
    requires InTable(t, s.parsed)
  {
    var p, slot := s.parsed, SlotOf(s.parsed);
    if t.rules[p.id].secure then Err(NotOnCommandLine)
    else if OutOfRange(p) then Err(KeyOutOfRange)
    else if slot !in store then
      Ok(store[slot := Value(p.negate, p.reset, Param, if s.arg.Some? then Some([s.arg.value]) else None)])
    else
      var v := store[slot];
      if v.negate && p.negate then Err(NegatedTwice)
      else if v.reset && p.reset then Err(ResetTwice)
      else if (v.reset && p.negate) || (v.negate && p.reset) then Err(NegatedAndReset)
      else if v.negate != p.negate then Err(SetAndNegated)
      else if v.reset != p.reset then Err(SetAndReset)
      else if s.arg.Some? && t.rules[p.id].multi then
        Ok(store[slot := v.(values := Some((if v.values.Some? then v.values.value else []) + [s.arg.value]))])
      else Err(SetTwice)
  }

  /** The command line from the given arguments on. */
  function ParseArgs(t: Table, store: Store, args: seq<string>): Result<Store, Error>
    requires Sound(t)
    decreases |args|
  {
    if args == [] then Ok(store)
    else
      match Token(t, args)
      case Err(e) => Err(e)
      case Ok((None, n)) => ParseArgs(t, store, args[n..])
      case Ok((Some(s), n)) =>
        match AddSetting(t, store, s)
        case Err(e) => Err(e)
        case Ok(next) => ParseArgs(t, next, args[n..])
  }

  /** All settings of a command line. */
  function Settings(t: Table, args: seq<string>): seq<Setting>
    requires Sound(t)
    decreases |args|
  {
    if args == [] then []
    else
      match Token(t, args)
      case Err(_) => []
      case Ok((s, n)) => (if s.Some? then [s.value] else []) + Settings(t, args[n..])
  }

  /** The settings of one option and key. */
  function Mine(ss: seq<Setting>, slot: Slot): seq<Setting> {
    if ss == [] then []
    else (if SlotOf(ss[0].parsed) == slot then [ss[0]] else []) + Mine(ss[1..], slot)
  }

  function Arguments(ss: seq<Setting>): seq<string> {
    if ss == [] then []
    else (if ss[0].arg.Some? then [ss[0].arg.value] else []) + Arguments(ss[1..])
  }

  /** What the command line says about an option and key: the flags it was first given with and all its arguments. */
  function FromArgs(ss: seq<Setting>, slot: Slot): Option<Value> {
    var mine := Mine(ss, slot);
    if mine == [] then None
    else
      var args := Arguments(mine);
      Some(Value(mine[0].parsed.negate, mine[0].parsed.reset, Param, if args == [] then None else Some(args)))
  }

  // ----- Environment -----

  /** The value of an option given as one text outside of the command line. */
  function ReadValue(rule: Rule, text: string): Result<Value, Error> {
    if rule.boolean then
      if text == "n" then Ok(Value(true, false, Config, None))
      else if text == "y" then Ok(Value(false, false, Config, None)) else Err(BadBoolean)
    else Ok(Value(false, false, Config, Some([text])))
  }

  function Split(text: string): seq<string>
    decreases |text|
  {
    var i := FindChar(text, ':');
    if i == |text| then [text] else [text[..i]] + Split(text[i + 1..])
  }

  /** As ReadValue, but lists are written with colons. */
  function ReadVariable(rule: Rule, text: string): Result<Value, Error> {
    if !rule.boolean && rule.multi then Ok(Value(false, false, Config, Some(Split(text)))) else ReadValue(rule, text)
  }

  /** The option that a key stands for, where it may be used and negation and reset are not possible. */
  function Recognised(t: Table, key: string): (r: Result<Option<Parsed>, Error>)
    requires Sound(t)
    ensures r.Ok? && r.value.Some? ==> InTable(t, r.value.value)
  {
    match t.parseKey(key)
    case Err(e) => Err(Name(e))
    case Ok(None) => Ok(None)
    case Ok(Some(p)) => Ok(if p.negate || p.reset then None else Some(p))
  }

  datatype Variable = Variable(key: string, text: string)

  function AddVariable(t: Table, store: Store, v: Variable): Result<Store, Error>
    requires Sound(t)
  {
    match Recognised(t, v.key)
    case Err(e) => Err(e)
    case Ok(None) => Ok(store)
    case Ok(Some(p)) =>
      if !t.rules[p.id].valid then Ok(store)
      else if v.text == "" then Err(EmptyValue)
      else if OutOfRange(p) then Err(KeyOutOfRange)
      else if SlotOf(p) in store then Ok(store)
      else
        match ReadVariable(t.rules[p.id], v.text)
        case Err(e) => Err(e)
        case Ok(value) => Ok(store[SlotOf(p) := value])
  }

  function ParseEnvironment(t: Table, store: Store, vs: seq<Variable>): Result<Store, Error>
    requires Sound(t)
    decreases |vs|
  {
    if vs == [] then Ok(store)
    else
      match AddVariable(t, store, vs[0])
      case Err(e) => Err(e)
      case Ok(next) => ParseEnvironment(t, next, vs[1..])
  }

  predicate VariableFor(t: Table, v: Variable, slot: Slot)
    requires Sound(t)
  {
    var p := Recognised(t, v.key);
    p.Ok? && p.value.Some? && SlotOf(p.value.value) == slot && t.rules[slot.id].valid
  }

  /** What the environment says: the first variable of an option counts. */
  function FromEnvironment(t: Table, vs: seq<Variable>, slot: Slot): Option<Value>
    requires Sound(t)
  {
    if vs == [] then None
    else if VariableFor(t, vs[0], slot) then
      match ReadVariable(t.rules[slot.id], vs[0].text)
      case Err(_) => None
      case Ok(value) => Some(value)
    else FromEnvironment(t, vs[1..], slot)
  }

  // ----- Configuration file -----

  /** A key is given once or several times in a section. */
  datatype Given = One(text: string) | Several(texts: seq<string>)

  datatype Key = Key(key: string, given: Given)

  datatype IniSection = IniSection(isGlobal: bool, keys: seq<Key>)

  function ReadGiven(rule: Rule, given: Given): Result<Value, Error> {
    match given
    case Several(texts) => if rule.multi then Ok(Value(false, false, Config, Some(texts))) else Err(SetTwice)
    case One(text) => if text == "" then Err(EmptyValue) else ReadValue(rule, text)
  }

  /** The option that a key of the file stands for; some options are for the command line only. */
  function InFile(t: Table, key: string): (r: Result<Option<Parsed>, Error>)
    requires Sound(t)
    ensures r.Ok? && r.value.Some? ==> InTable(t, r.value.value)
  {
    match Recognised(t, key)
    case Err(e) => Err(e)
    case Ok(None) => Ok(None)
    case Ok(Some(p)) => Ok(if t.rules[p.id].place == CommandLineOnly then None else Some(p))
  }

  predicate Usable(rule: Rule, isGlobal: bool) {
    rule.valid && !(rule.place == Stanza && isGlobal)
  }

  /** The number under which a section remembers that it has given an option, in 32 bits. */
  function FoundKey(slot: Slot): nat {
    (slot.id * CFG_OPTION_KEY_MAX + slot.keyIdx) % UINT_LIMIT
  }

  /** One key of a section; `seen` are the options that the section has given already. */
  function AddKey(t: Table, store: Store, seen: set<nat>, isGlobal: bool, k: Key): Result<(Store, set<nat>), Error>
    requires Sound(t)
  {
    match InFile(t, k.key)
    case Err(e) => Err(e)
    case Ok(None) => Ok((store, seen))
    case Ok(Some(p)) =>
      var slot := SlotOf(p);
      if FoundKey(slot) in seen then Err(Duplicate)
      else if !Usable(t.rules[p.id], isGlobal) then Ok((store, seen + {FoundKey(slot)}))
      else if OutOfRange(p) then Err(KeyOutOfRange)
      else if slot in store then Ok((store, seen + {FoundKey(slot)}))
      else
        match ReadGiven(t.rules[p.id], k.given)
        case Err(e) => Err(e)
        case Ok(value) => Ok((store[slot := value], seen + {FoundKey(slot)}))
  }

  function ParseKeys(t: Table, store: Store, seen: set<nat>, isGlobal: bool, keys: seq<Key>): Result<Store, Error>
    requires Sound(t)
    decreases |keys|
  {
    if keys == [] then Ok(store)
    else
      match AddKey(t, store, seen, isGlobal, keys[0])
      case Err(e) => Err(e)
      case Ok((next, seen')) => ParseKeys(t, next, seen', isGlobal, keys[1..])
  }

  function ParseFile(t: Table, store: Store, sections: seq<IniSection>): Result<Store, Error>
    requires Sound(t)
    decreases |sections|
  {
    if sections == [] then Ok(store)
    else
      match ParseKeys(t, store, {}, sections[0].isGlobal, sections[0].keys)
      case Err(e) => Err(e)
      case Ok(next) => ParseFile(t, next, sections[1..])
  }

  predicate KeyFor(t: Table, k: Key, slot: Slot)
    requires Sound(t)
  {
    var p := InFile(t, k.key);
    p.Ok? && p.value.Some? && SlotOf(p.value.value) == slot
  }

  /** What a section says about an option and key. */
  function FromSection(t: Table, isGlobal: bool, keys: seq<Key>, slot: Slot): Option<Value>
    requires Sound(t)
  {
    if keys == [] then None
    else if KeyFor(t, keys[0], slot) && Usable(t.rules[slot.id], isGlobal) then
      match ReadGiven(t.rules[slot.id], keys[0].given)
      case Err(_) => None
      case Ok(value) => Some(value)
    else FromSection(t, isGlobal, keys[1..], slot)
  }

  /** What the file says: the first section that has a usable key counts. */
  function FromFile(t: Table, sections: seq<IniSection>, slot: Slot): Option<Value>
    requires Sound(t)
  {
    if sections == [] then None
    else OrElse(FromSection(t, sections[0].isGlobal, sections[0].keys, slot), FromFile(t, sections[1..], slot))
  }

  // ----- First source wins -----

  lemma {:induction false} EnvironmentAddsFirst(t: Table, store: Store, vs: seq<Variable>, slot: Slot)
    requires Sound(t) && ParseEnvironment(t, store, vs).Ok?
    ensures Get(ParseEnvironment(t, store, vs).value, slot) == OrElse(Get(store, slot), FromEnvironment(t, vs, slot))
    decreases |vs|
  {
    hide Sound;
    hide ReadVariable;
    if vs != [] {
      var next := AddVariable(t, store, vs[0]).value;
      EnvironmentAddsFirst(t, next, vs[1..], slot);
    }
  }

  lemma {:induction false} KeysAddFirst(t: Table, store: Store, seen: set<nat>, isGlobal: bool, keys: seq<Key>, slot: Slot)
    requires Sound(t) && ParseKeys(t, store, seen, isGlobal, keys).Ok?
    ensures Get(ParseKeys(t, store, seen, isGlobal, keys).value, slot) ==
            OrElse(Get(store, slot), FromSection(t, isGlobal, keys, slot))
    decreases |keys|
  {
    hide Sound;
    hide ReadGiven;
    if keys != [] {
      var next := AddKey(t, store, seen, isGlobal, keys[0]).value;
      KeysAddFirst(t, next.0, next.1, isGlobal, keys[1..], slot);
    }
  }

  lemma {:induction false} FileAddsFirst(t: Table, store: Store, sections: seq<IniSection>, slot: Slot)
    requires Sound(t) && ParseFile(t, store, sections).Ok?
    ensures Get(ParseFile(t, store, sections).value, slot) == OrElse(Get(store, slot), FromFile(t, sections, slot))
    decreases |sections|
  {
    hide Sound;
    hide ParseKeys;
    hide FromSection;
    if sections != [] {
      var s := sections[0];
      KeysAddFirst(t, store, {}, s.isGlobal, s.keys, slot);
      FileAddsFirst(t, ParseKeys(t, store, {}, s.isGlobal, s.keys).value, sections[1..], slot);
    }
  }

  lemma {:induction false} MineAppend(a: seq<Setting>, b: seq<Setting>, slot: Slot)
    ensures Mine(a + b, slot) == Mine(a, slot) + Mine(b, slot)
  {
    if a == [] {
      assert a + b == b;
    } else {
      assert (a + b)[0] == a[0] && (a + b)[1..] == a[1..] + b;
      MineAppend(a[1..], b, slot);
    }
  }

  lemma {:induction false} ArgumentsAppend(a: seq<Setting>, b: seq<Setting>)
    ensures Arguments(a + b) == Arguments(a) + Arguments(b)
  {
    if a == [] {
      assert a + b == b;
    } else {
      assert (a + b)[0] == a[0] && (a + b)[1..] == a[1..] + b;
      ArgumentsAppend(a[1..], b);
    }
  }

  lemma MineOne(s: Setting, slot: Slot)
    ensures Mine([s], slot) == if SlotOf(s.parsed) == slot then [s] else []
    ensures Arguments([s]) == if s.arg.Some? then [s.arg.value] else []
  {
  }

  /** One more setting changes what the command line says as the table allows. */
  lemma SettingIsAdded(t: Table, store: Store, done: seq<Setting>, s: Setting, slot: Slot)
    requires InTable(t, s.parsed) && AddSetting(t, store, s).Ok?
    requires Get(store, slot) == FromArgs(done, slot)
    ensures Get(AddSetting(t, store, s).value, slot) == FromArgs(done + [s], slot)
  {
    hide Mine;
    hide Arguments;
    MineAppend(done, [s], slot);
    MineOne(s, slot);
    var mine := Mine(done, slot);
    ArgumentsAppend(mine, [s]);
    if SlotOf(s.parsed) != slot {
      assert mine + [] == mine;
    } else if mine == [] {
      assert [] + [s] == [s];
    } else {
      assert (mine + [s])[0] == mine[0];
      if Arguments(mine) == [] {
        assert Arguments(mine) + [s.arg.value] == [s.arg.value];
      }
    }
  }

  lemma {:induction false} ArgsAreAdded(t: Table, store: Store, done: seq<Setting>, args: seq<string>, slot: Slot)
    requires Sound(t) && ParseArgs(t, store, args).Ok?
    requires forall any :: Get(store, any) == FromArgs(done, any)
    ensures Get(ParseArgs(t, store, args).value, slot) == FromArgs(done + Settings(t, args), slot)
    decreases |args|
  {
    hide Sound;
    hide AddSetting;
    hide FromArgs;
    hide Token;
    if args == [] {
      assert done + [] == done;
    } else {
      var (s, n) := Token(t, args).value;
      if s == None {
        assert [] + Settings(t, args[n..]) == Settings(t, args[n..]);
        ArgsAreAdded(t, store, done, args[n..], slot);
      } else {
        var next := AddSetting(t, store, s.value).value;
        forall any
          ensures Get(next, any) == FromArgs(done + [s.value], any)
        {
          SettingIsAdded(t, store, done, s.value, any);
        }
        assert done + [s.value] + Settings(t, args[n..]) == done + ([s.value] + Settings(t, args[n..]));
        ArgsAreAdded(t, next, done + [s.value], args[n..], slot);
      }
    }
  }

  /** The three phases together. */
  function ParseAll(t: Table, args: seq<string>, vs: seq<Variable>, sections: seq<IniSection>): Result<Store, Error>
    requires Sound(t)
  {
    match ParseArgs(t, map[], args)
    case Err(e) => Err(e)
    case Ok(a) =>
      match ParseEnvironment(t, a, vs)
      case Err(e) => Err(e)
      case Ok(b) => ParseFile(t, b, sections)
  }

  /** When no error is raised, every option and key has the value of the first source that gives one: the command line,
      the environment, then the sections in their order. */
  lemma FirstSourceWins(t: Table, args: seq<string>, vs: seq<Variable>, sections: seq<IniSection>, slot: Slot)
    requires Sound(t) && ParseAll(t, args, vs, sections).Ok?
    ensures Get(ParseAll(t, args, vs, sections).value, slot) ==
            OrElse(FromArgs(Settings(t, args), slot),
                   OrElse(FromEnvironment(t, vs, slot), FromFile(t, sections, slot)))
  {
    hide Sound;
    var a := ParseArgs(t, map[], args).value;
    ArgsAreAdded(t, map[], [], args, slot);
    assert [] + Settings(t, args) == Settings(t, args);
    var b := ParseEnvironment(t, a, vs).value;
    EnvironmentAddsFirst(t, a, vs, slot);
    FileAddsFirst(t, b, sections, slot);
  }

  // ----- What a text stands for -----

  function JoinedWithColons(pieces: seq<string>): string
    requires pieces != []
  {
    if |pieces| == 1 then pieces[0] else pieces[0] + ":" + JoinedWithColons(pieces[1..])
  }

  /** The pieces are those between the colons. */
  lemma {:induction false} SplitAtColons(text: string)
    ensures Split(text) != [] && JoinedWithColons(Split(text)) == text
    ensures forall i | 0 <= i < |Split(text)| :: ':' !in Split(text)[i]
    decreases |text|
  {
    var i := FindChar(text, ':');
    if i < |text| {
      SplitAtColons(text[i + 1..]);
      var rest := Split(text[i + 1..]);
      assert Split(text) == [text[..i]] + rest;
      hide Split;
      assert text == text[..i] + ":" + text[i + 1..];
      JoinedWithFirst(text[..i], rest);
    }
  }

  lemma JoinedWithFirst(first: string, rest: seq<string>)
    requires rest != []
    ensures JoinedWithColons([first] + rest) == first + ":" + JoinedWithColons(rest)
  {
    assert ([first] + rest)[1..] == rest;
  }

  /** The value is what the text says: for a boolean option "n" negates it and "y" does not; for another one it is the text
      itself, or the pieces between its colons. */
  predicate Means(rule: Rule, text: string, colons: bool, v: Value) {
    && v.source == Config && !v.reset
    && (rule.boolean ==> (text == "n" || text == "y") && (v.negate <==> text == "n") && v.values == None)
    && (!rule.boolean ==> !v.negate && v.values.Some? && v.values.value != [])
    && (!rule.boolean && !(colons && rule.multi) ==> v.values.value == [text])
    && (!rule.boolean && colons && rule.multi ==>
          && JoinedWithColons(v.values.value) == text
          && forall i | 0 <= i < |v.values.value| :: ':' !in v.values.value[i])
  }

  lemma ReadMeans(rule: Rule, text: string)
    ensures ReadValue(rule, text).Ok? ==> Means(rule, text, false, ReadValue(rule, text).value)
    ensures ReadVariable(rule, text).Ok? ==> Means(rule, text, true, ReadVariable(rule, text).value)
    ensures ReadValue(rule, text) == Err(BadBoolean) <==> rule.boolean && text != "n" && text != "y"
    ensures ReadVariable(rule, text) == Err(BadBoolean) <==> rule.boolean && text != "n" && text != "y"
    ensures ReadValue(rule, text).Err? ==> ReadValue(rule, text) == Err(BadBoolean)
    ensures ReadVariable(rule, text).Err? ==> ReadVariable(rule, text) == Err(BadBoolean)
  {
    hide Split;
    SplitAtColons(text);
  }

  /** A key names an option and key of the table, neither negated nor reset. */
  predicate NamesSlot(t: Table, key: string, slot: Slot) {
    match t.parseKey(key)
    case Ok(Some(p)) => !p.negate && !p.reset && p.id == slot.id && p.keyIdx == slot.keyIdx
    case _ => false
  }

  /** An option may be used with the command, and if it is for stanzas not in a global section. */
  predicate MayBeUsed(rule: Rule, isGlobal: bool) {
    rule.valid && (rule.place == Stanza ==> !isGlobal) && rule.place != CommandLineOnly
  }

  lemma WhoIsFor(t: Table, key: string, slot: Slot, isGlobal: bool)
    requires Sound(t)
    ensures NamesSlot(t, key, slot) ==> slot.id < |t.rules|
    ensures VariableFor(t, Variable(key, ""), slot) <==> NamesSlot(t, key, slot) && t.rules[slot.id].valid
    ensures forall given :: KeyFor(t, Key(key, given), slot) <==>
              NamesSlot(t, key, slot) && t.rules[slot.id].place != CommandLineOnly
    ensures NamesSlot(t, key, slot) && t.rules[slot.id].place != CommandLineOnly ==>
              (Usable(t.rules[slot.id], isGlobal) <==> MayBeUsed(t.rules[slot.id], isGlobal))
  {
    assert AnyInTable(t, t.parseKey(key));
  }

  lemma VariableNames(t: Table, v: Variable, slot: Slot)
    requires Sound(t)
    ensures VariableFor(t, v, slot) <==> NamesSlot(t, v.key, slot) && slot.id < |t.rules| && t.rules[slot.id].valid
  {
    WhoIsFor(t, v.key, slot, false);
  }

  lemma KeyNames(t: Table, k: Key, slot: Slot, isGlobal: bool)
    requires Sound(t)
    ensures NamesSlot(t, k.key, slot) ==> slot.id < |t.rules|
    ensures KeyFor(t, k, slot) && Usable(t.rules[slot.id], isGlobal) <==>
            NamesSlot(t, k.key, slot) && MayBeUsed(t.rules[slot.id], isGlobal)
    ensures KeyFor(t, k, slot) ==> NamesSlot(t, k.key, slot)
  {
    WhoIsFor(t, k.key, slot, isGlobal);
    assert k == Key(k.key, k.given);
  }

  /** An option that the environment gives is stored as the text of its first variable says. */
  lemma {:induction false} VariableIsStored(t: Table, store: Store, vs: seq<Variable>, i: nat, slot: Slot)
    requires Sound(t) && ParseEnvironment(t, store, vs).Ok? && i < |vs| && slot !in store
    requires VariableFor(t, vs[i], slot) && forall k | 0 <= k < i :: !VariableFor(t, vs[k], slot)
    ensures var v := Get(ParseEnvironment(t, store, vs).value, slot);
            v.Some? && Means(t.rules[slot.id], vs[i].text, true, v.value)
    decreases |vs|
  {
    hide Sound;
    hide Means;
    hide ReadVariable;
    var next := AddVariable(t, store, vs[0]).value;
    if i == 0 {
      ReadMeans(t.rules[slot.id], vs[0].text);
      EnvironmentAddsFirst(t, next, vs[1..], slot);
    } else {
      assert slot !in next;
      VariableIsStored(t, next, vs[1..], i - 1, slot);
    }
  }

  /** A boolean option that is given another text ends the phase. */
  lemma {:induction false} BadVariableStops(t: Table, store: Store, vs: seq<Variable>, i: nat, slot: Slot)
    requires Sound(t) && i < |vs| && VariableFor(t, vs[i], slot) && slot.keyIdx < CFG_OPTION_KEY_MAX
    requires t.rules[slot.id].boolean && vs[i].text != "" && vs[i].text != "n" && vs[i].text != "y"
    requires var before := ParseEnvironment(t, store, vs[..i]); before.Ok? && slot !in before.value
    ensures ParseEnvironment(t, store, vs) == Err(BadBoolean)
    decreases |vs|
  {
    hide Sound;
    hide ReadVariable;
    if i == 0 {
      ReadMeans(t.rules[slot.id], vs[0].text);
    } else {
      assert vs[..i][0] == vs[0] && vs[..i][1..] == vs[1..][..i - 1];
      BadVariableStops(t, AddVariable(t, store, vs[0]).value, vs[1..], i - 1, slot);
    }
  }

  /** An option that a section gives as one text, and is not given before, is stored as that text says; given several times
      it has the texts in their order. */
  lemma {:induction false} KeyIsStored(t: Table, store: Store, seen: set<nat>, isGlobal: bool, keys: seq<Key>, i: nat,
                                       slot: Slot)
    requires Sound(t) && ParseKeys(t, store, seen, isGlobal, keys).Ok? && i < |keys| && slot !in store
    requires KeyFor(t, keys[i], slot) && Usable(t.rules[slot.id], isGlobal)
    requires forall k | 0 <= k < i :: !KeyFor(t, keys[k], slot)
    ensures var v := Get(ParseKeys(t, store, seen, isGlobal, keys).value, slot);
            GivenIsStored(t, keys[i], slot, v)
    decreases |keys|
  {
    hide Sound;
    hide Means;
    hide ReadValue;
    var next := AddKey(t, store, seen, isGlobal, keys[0]).value;
    if i == 0 {
      if keys[0].given.One? {
        ReadMeans(t.rules[slot.id], keys[0].given.text);
      }
      KeysAddFirst(t, next.0, next.1, isGlobal, keys[1..], slot);
    } else {
      assert slot !in next.0;
      KeyIsStored(t, next.0, next.1, isGlobal, keys[1..], i - 1, slot);
    }
  }

  /** What the keys before have done. */
  function KeysDone(t: Table, store: Store, seen: set<nat>, isGlobal: bool, keys: seq<Key>): Result<(Store, set<nat>), Error>
    requires Sound(t)
    decreases |keys|
  {
    if keys == [] then Ok((store, seen))
    else
      match AddKey(t, store, seen, isGlobal, keys[0])
      case Err(e) => Err(e)
      case Ok((next, seen')) => KeysDone(t, next, seen', isGlobal, keys[1..])
  }

  lemma {:induction false} BadKeyStops(t: Table, store: Store, seen: set<nat>, isGlobal: bool, keys: seq<Key>, i: nat, slot: Slot)
    requires Sound(t) && i < |keys| && KeyFor(t, keys[i], slot) && slot.keyIdx < CFG_OPTION_KEY_MAX
    requires Usable(t.rules[slot.id], isGlobal) && t.rules[slot.id].boolean && keys[i].given.One?
    requires keys[i].given.text != "" && keys[i].given.text != "n" && keys[i].given.text != "y"
    requires var before := KeysDone(t, store, seen, isGlobal, keys[..i]);
             before.Ok? && slot !in before.value.0 && FoundKey(slot) !in before.value.1
    ensures ParseKeys(t, store, seen, isGlobal, keys) == Err(BadBoolean)
    decreases |keys|
  {
    hide Sound;
    hide ReadValue;
    if i == 0 {
      ReadMeans(t.rules[slot.id], keys[0].given.text);
    } else {
      assert keys[..i][0] == keys[0] && keys[..i][1..] == keys[1..][..i - 1];
      var next := AddKey(t, store, seen, isGlobal, keys[0]).value;
      BadKeyStops(t, next.0, next.1, isGlobal, keys[1..], i - 1, slot);
    }
  }

  /** In a whole run without error: an option that is not on the command line has the value that the text of its first
      environment variable stands for. */
  lemma EnvironmentDecides(t: Table, args: seq<string>, vs: seq<Variable>, sections: seq<IniSection>, i: nat, slot: Slot)
    requires Sound(t) && ParseAll(t, args, vs, sections).Ok? && Mine(Settings(t, args), slot) == []
    requires i < |vs| && NamesSlot(t, vs[i].key, slot) && slot.id < |t.rules| && t.rules[slot.id].valid
    requires forall k | 0 <= k < i :: !NamesSlot(t, vs[k].key, slot)
    ensures var v := Get(ParseAll(t, args, vs, sections).value, slot);
            v.Some? && Means(t.rules[slot.id], vs[i].text, true, v.value)
  {
    hide Sound;
    hide Means;
    hide ParseEnvironment;
    hide ParseFile;
    var a := ParseArgs(t, map[], args).value;
    ArgsAreAdded(t, map[], [], args, slot);
    assert [] + Settings(t, args) == Settings(t, args);
    forall k | 0 <= k <= i
      ensures VariableFor(t, vs[k], slot) <==> k == i
    {
      VariableNames(t, vs[k], slot);
    }
    VariableIsStored(t, a, vs, i, slot);
    FileAddsFirst(t, ParseEnvironment(t, a, vs).value, sections, slot);
  }

  /** And one that is in neither has the value that its key in the first section with a usable one stands for. */
  lemma FileDecides(t: Table, args: seq<string>, vs: seq<Variable>, sections: seq<IniSection>, j: nat, i: nat, slot: Slot)
    requires Sound(t) && ParseAll(t, args, vs, sections).Ok? && Mine(Settings(t, args), slot) == []
    requires (forall k | 0 <= k < |vs| :: !NamesSlot(t, vs[k].key, slot)) && FirstKeyIs(t, sections, j, i, slot)
    ensures GivenIsStored(t, sections[j].keys[i], slot, Get(ParseAll(t, args, vs, sections).value, slot))
  {
    hide Sound;
    hide GivenIsStored;
    hide FirstKeyIs;
    hide ParseEnvironment;
    hide ParseFile;
    var a := ParseArgs(t, map[], args).value;
    ArgsAreAdded(t, map[], [], args, slot);
    assert [] + Settings(t, args) == Settings(t, args);
    forall k | 0 <= k < |vs|
      ensures !VariableFor(t, vs[k], slot)
    {
      VariableNames(t, vs[k], slot);
    }
    NotInEnvironment(t, vs, slot);
    EnvironmentAddsFirst(t, a, vs, slot);
    FileKeyIsStored(t, ParseEnvironment(t, a, vs).value, sections, j, i, slot);
  }

  /** The key at `i` of section `j` is the first of its section for the option and key, and no section before has a usable
      one. */
  ghost predicate FirstKeyIs(t: Table, sections: seq<IniSection>, j: nat, i: nat, slot: Slot)
    requires Sound(t)
  {
    && j < |sections| && i < |sections[j].keys| && slot.id < |t.rules|
    && NamesSlot(t, sections[j].keys[i].key, slot) && MayBeUsed(t.rules[slot.id], sections[j].isGlobal)
    && (forall k | 0 <= k < i :: !NamesSlot(t, sections[j].keys[k].key, slot))
    && (forall l, k | 0 <= l < j && 0 <= k < |sections[l].keys| ::
          !(NamesSlot(t, sections[l].keys[k].key, slot) && MayBeUsed(t.rules[slot.id], sections[l].isGlobal)))
  }

  /** What a key of the file stands for. */
  predicate GivenIsStored(t: Table, k: Key, slot: Slot, v: Option<Value>) {
    && slot.id < |t.rules| && v.Some?
    && (k.given.One? ==> k.given.text != "" && Means(t.rules[slot.id], k.given.text, false, v.value))
    && (k.given.Several? ==> t.rules[slot.id].multi && v.value == Value(false, false, Config, Some(k.given.texts)))
  }

  lemma {:induction false} NotInEnvironment(t: Table, vs: seq<Variable>, slot: Slot)
    requires Sound(t) && forall k | 0 <= k < |vs| :: !VariableFor(t, vs[k], slot)
    ensures FromEnvironment(t, vs, slot) == None
  {
    hide Sound;
    if vs != [] {
      NotInEnvironment(t, vs[1..], slot);
    }
  }

  lemma {:induction false} NotInSection(t: Table, isGlobal: bool, keys: seq<Key>, slot: Slot)
    requires Sound(t)
    requires forall k | 0 <= k < |keys| :: !(KeyFor(t, keys[k], slot) && Usable(t.rules[slot.id], isGlobal))
    ensures FromSection(t, isGlobal, keys, slot) == None
  {
    hide Sound;
    if keys != [] {
      NotInSection(t, isGlobal, keys[1..], slot);
    }
  }

  lemma {:induction false} FileKeyIsStored(t: Table, store: Store, sections: seq<IniSection>, j: nat, i: nat, slot: Slot)
    requires Sound(t) && ParseFile(t, store, sections).Ok? && slot !in store && FirstKeyIs(t, sections, j, i, slot)
    ensures GivenIsStored(t, sections[j].keys[i], slot, Get(ParseFile(t, store, sections).value, slot))
    decreases |sections|
  {
    hide Sound;
    hide ParseKeys;
    hide Means;
    var s := sections[0];
    var next := ParseKeys(t, store, {}, s.isGlobal, s.keys).value;
    if j == 0 {
      forall k | 0 <= k < i
        ensures !KeyFor(t, s.keys[k], slot)
      {
        KeyNames(t, s.keys[k], slot, s.isGlobal);
      }
      KeyNames(t, s.keys[i], slot, s.isGlobal);
      KeyIsStored(t, store, {}, s.isGlobal, s.keys, i, slot);
      FileAddsFirst(t, next, sections[1..], slot);
    } else {
      forall k | 0 <= k < |s.keys|
        ensures !(KeyFor(t, s.keys[k], slot) && Usable(t.rules[slot.id], s.isGlobal))
      {
        KeyNames(t, s.keys[k], slot, s.isGlobal);
      }
      NotInSection(t, s.isGlobal, s.keys, slot);
      KeysAddFirst(t, store, {}, s.isGlobal, s.keys, slot);
      FileKeyIsStored(t, next, sections[1..], j - 1, i, slot);
    }
  }

  /** On the command line a boolean option is negated by "=n" and not by "=y" or without an argument; another option has the
      text after the equals sign, or else the next argument, for its argument. */
  lemma ArgumentMeans(t: Table, name: string, given: Option<string>, rest: seq<string>, p: Parsed)
    requires Sound(t) && '=' !in name && t.parseArg(name) == Ok(Some(p)) && !p.negate && !p.reset
    ensures var arg := "--" + name + (if given.Some? then "=" + given.value else "");
            var r := Token(t, [arg] + rest);
            if t.rules[p.id].boolean then
              && (given == None || given == Some("y") ==> r == Ok((Some(Setting(p, given)), 1)))
              && (given == Some("n") ==> r == Ok((Some(Setting(p.(negate := true), given)), 1)))
              && (given != None && given != Some("n") && given != Some("y") ==> r == Err(BadBoolean))
            else
              && (given.Some? ==> r == Ok((Some(Setting(p, given)), 1)))
              && (given == None && rest != [] ==> r == Ok((Some(Setting(p, Some(rest[0]))), 2)))
              && (given == None && rest == [] ==> r == Err(NeedsArgument))
  {
    hide Sound;
    var arg := "--" + name + (if given.Some? then "=" + given.value else "");
    NameAndArgument(name, given);
    assert ([arg] + rest)[0] == arg && (rest != [] ==> ([arg] + rest)[1] == rest[0]);
  }

  /** An option that is given again on the command line is accepted exactly when it takes several values, has one, and is
      neither time negated or reset; what is refused otherwise is named in this order. */
  lemma GivenAgain(t: Table, store: Store, s: Setting)
    requires InTable(t, s.parsed) && !t.rules[s.parsed.id].secure && s.parsed.keyIdx < CFG_OPTION_KEY_MAX
    requires SlotOf(s.parsed) in store
    ensures var p, v := s.parsed, store[SlotOf(s.parsed)];
            var r := AddSetting(t, store, s);
            && (r.Ok? <==> v.negate == p.negate && v.reset == p.reset && !p.negate && !p.reset
                           && t.rules[p.id].multi && s.arg.Some?)
            && (r == Err(NegatedTwice) <==> v.negate && p.negate)
            && (v.reset && p.reset && !(v.negate && p.negate) ==> r == Err(ResetTwice))
            && (p.negate && v.reset && !v.negate && !p.reset ==> r == Err(NegatedAndReset))
            && (p.reset && v.negate && !v.reset && !p.negate ==> r == Err(NegatedAndReset))
            && (v.negate != p.negate && !v.reset && !p.reset ==> r == Err(SetAndNegated))
            && (v.reset != p.reset && !v.negate && !p.negate ==> r == Err(SetAndReset))
            && (!v.negate && !p.negate && !v.reset && !p.reset && !r.Ok? ==> r == Err(SetTwice))
  {
  }

  /** A secret is refused on the command line, also when it is given for the first time. */
  lemma SecretsAreRefused(t: Table, store: Store, s: Setting)
    requires InTable(t, s.parsed) && t.rules[s.parsed.id].secure
    ensures AddSetting(t, store, s) == Err(NotOnCommandLine)
  {
  }

  /** The argument of a negated or reset option is refused. */
  lemma NoArgumentForNegated(t: Table, name: string, given: Option<string>, rest: seq<string>, p: Parsed)
    requires Sound(t) && '=' !in name && t.parseArg(name) == Ok(Some(p)) && (p.negate || p.reset)
    ensures var arg := "--" + name + (if given.Some? then "=" + given.value else "");
            Token(t, [arg] + rest) == if given.Some? then Err(NoArgumentAllowed) else Ok((Some(Setting(p, None)), 1))
  {
    hide Sound;
    NameAndArgument(name, given);
  }

  lemma NameAndArgument(name: string, given: Option<string>)
    requires '=' !in name
    ensures var arg := "--" + name + (if given.Some? then "=" + given.value else "");
            arg[0] == '-' && arg[1] == '-' && NameOf(arg) == name && ArgumentOf(arg) == given
  {
    var tail := if given.Some? then "=" + given.value else "";
    var arg := "--" + name + tail;
    var s := arg[2..];
    assert s == name + tail;
    assert forall k | 0 <= k < |name| :: s[k] == name[k] && name[k] in name;
    var n := |name|;
    if given.Some? {
      assert s[n] == '=';
      assert s[n + 1..] == given.value;
    }
    assert FindChar(s, '=') == n;
    assert s[..n] == name;
  }

  // ----- Sections in use -----

  const SECTION_GLOBAL := "global"

  /** A name is that of a global section exactly when it is "global" or begins with "global:"; so the sections of a stanza are
      not, unless its own name is of that kind. */
  lemma GlobalSections(stanza: string, command: string)
    requires ':' !in stanza && stanza != "global"
    ensures IsGlobal("global") && IsGlobal("global:" + command)
    ensures !IsGlobal(stanza) && !IsGlobal(stanza + ":" + command)
  {
    assert SECTION_GLOBAL + ":" == "global:";
    var name := stanza + ":" + command;
    assert forall k | 0 <= k < |stanza| :: name[k] == stanza[k] && stanza[k] in stanza;
    assert name[|stanza|] == ':' && name[..|stanza|] == stanza;
    assert forall k | 0 <= k < 6 :: "global:"[k] != ':' && "global:"[k] == "global"[k];
    assert |stanza| == 6 && "global:" <= name ==> stanza == "global";
    assert ':' !in "global" && name[|stanza|] in name;
    assert "global:"[6] == ':';
  }

  /** The names of the sections that are searched, the most specific first. */
  function SectionNames(stanza: Option<string>, command: string): seq<string> {
    (if stanza.Some? then [stanza.value + ":" + command, stanza.value] else [])
    + [SECTION_GLOBAL + ":" + command, SECTION_GLOBAL]
  }

  predicate IsGlobal(name: string) {
    name == SECTION_GLOBAL || SECTION_GLOBAL + ":" <= name
  }

  function SectionOf(ini: map<string, seq<Key>>, name: string): IniSection {
    IniSection(IsGlobal(name), if name in ini then ini[name] else [])
  }

  function SectionsInUse(ini: map<string, seq<Key>>, stanza: Option<string>, command: string): seq<IniSection> {
    var names := SectionNames(stanza, command);
    seq(|names|, i requires 0 <= i < |names| => SectionOf(ini, names[i]))
  }

  /** Section precedence spelled out: stanza:command, stanza, global:command, global. */
  lemma SectionPrecedence(t: Table, ini: map<string, seq<Key>>, stanza: string, command: string, slot: Slot)
    requires Sound(t)
    ensures var of := (name: string) => FromFile(t, [SectionOf(ini, name)], slot);
            FromFile(t, SectionsInUse(ini, Some(stanza), command), slot) ==
            OrElse(of(stanza + ":" + command), OrElse(of(stanza), OrElse(of("global:" + command), of("global"))))
  {
    hide Sound;
    hide FromSection;
    var names := SectionNames(Some(stanza), command);
    assert SECTION_GLOBAL + ":" == "global:";
    assert names == [stanza + ":" + command, stanza, "global:" + command, "global"];
    var ss := SectionsInUse(ini, Some(stanza), command);
    FromFileFour(t, ss[0], ss[1], ss[2], ss[3], slot);
    assert ss == [ss[0], ss[1], ss[2], ss[3]];
    FromFileOne(t, ss[0], slot);
    FromFileOne(t, ss[1], slot);
    FromFileOne(t, ss[2], slot);
    FromFileOne(t, ss[3], slot);
  }

  lemma FromFileOne(t: Table, s: IniSection, slot: Slot)
    requires Sound(t)
    ensures FromFile(t, [s], slot) == FromSection(t, s.isGlobal, s.keys, slot)
  {
  }

  lemma FromFileFour(t: Table, a: IniSection, b: IniSection, c: IniSection, d: IniSection, slot: Slot)
    requires Sound(t)
    ensures FromFile(t, [a, b, c, d], slot) ==
            OrElse(FromSection(t, a.isGlobal, a.keys, slot), OrElse(FromSection(t, b.isGlobal, b.keys, slot),
              OrElse(FromSection(t, c.isGlobal, c.keys, slot), FromSection(t, d.isGlobal, d.keys, slot))))
  {
    hide Sound;
    hide FromSection;
    assert [a, b, c, d][1..] == [b, c, d] && [b, c, d][1..] == [c, d] && [c, d][1..] == [d];
    FromFileOne(t, d, slot);
    assert FromFile(t, [c, d], slot) == OrElse(FromSection(t, c.isGlobal, c.keys, slot), FromFile(t, [d], slot));
    assert FromFile(t, [b, c, d], slot) == OrElse(FromSection(t, b.isGlobal, b.keys, slot), FromFile(t, [c, d], slot));
  }

  // ----- The parser in use -----

  /** The rules are those of the named options: an option has keys exactly when it is in a group, and a deprecated name has
      one only for such an option. */
  ghost predicate Describes(names: OptionName.Table, rules: seq<Rule>) {
    && OptionName.Sound(names) && |rules| == |names.options|
    && (forall i | 0 <= i < |rules| :: rules[i].grouped <==> names.options[i].group.Some?)
    && (forall i | 0 <= i < |names.deprecations| ::
          names.deprecations[i].indexed ==> names.options[names.deprecations[i].id].group.Some?)
  }

  /** On the command line a name may be abbreviated. */
  function NamedTable(names: OptionName.Table, rules: seq<Rule>): Table
    requires OptionName.Sound(names)
  {
    Table(rules,
          name => OptionName.Recognised(names, name, true, false),
          name => OptionName.Recognised(names, name, false, false))
  }

  lemma RecognisedIsInTable(names: OptionName.Table, rules: seq<Rule>, name: string, prefixMatch: bool)
    requires Describes(names, rules)
    ensures AnyInTable(NamedTable(names, rules), OptionName.Recognised(names, name, prefixMatch, false))
  {
    hide OptionName.Lookup;
    hide OptionName.SplitKey;
    var k := OptionName.SplitKey(OptionName.Strip(name).rest);
    OptionName.UnindexedIsFirst(OptionName.Strip(name).rest);
    if k.Ok? {
      OptionName.LookupInRange(OptionName.Names(names.options), k.value.base, prefixMatch);
      OptionName.LookupInRange(OptionName.DeprecatedNames(names.deprecations), k.value.base, prefixMatch);
    }
  }

  /** What the merge relies on is true of the parser of option names. */
  lemma NamedTableIsSound(names: OptionName.Table, rules: seq<Rule>)
    requires Describes(names, rules)
    ensures Sound(NamedTable(names, rules))
  {
    hide OptionName.Recognised;
    hide AnyInTable;
    var t := NamedTable(names, rules);
    forall s
      ensures AnyInTable(t, t.parseArg(s)) && AnyInTable(t, t.parseKey(s))
    {
      RecognisedIsInTable(names, rules, s, true);
      RecognisedIsInTable(names, rules, s, false);
    }
  }

  /** So the first source wins for every option table of this kind. */
  lemma FirstSourceWinsByName(names: OptionName.Table, rules: seq<Rule>, args: seq<string>, vs: seq<Variable>,
                              sections: seq<IniSection>, slot: Slot)
    requires Describes(names, rules)
    ensures var t := NamedTable(names, rules);
            && Sound(t)
            && (ParseAll(t, args, vs, sections).Ok? ==>
                  Get(ParseAll(t, args, vs, sections).value, slot) ==
                  OrElse(FromArgs(Settings(t, args), slot),
                         OrElse(FromEnvironment(t, vs, slot), FromFile(t, sections, slot))))
  {
    hide Sound;
    hide ParseAll;
    hide FromArgs;
    hide FromEnvironment;
    hide FromFile;
    hide NamedTable;
    NamedTableIsSound(names, rules);
    var t := NamedTable(names, rules);
    if ParseAll(t, args, vs, sections).Ok? {
      FirstSourceWins(t, args, vs, sections, slot);
    }
  }

  /** A key of the file that is the printed name of an option and key gives a value to that option and key and no other. */
  lemma PrintedKeyIsFor(names: OptionName.Table, rules: seq<Rule>, id: nat, keyIdx: nat, given: Given, slot: Slot)
    requires Describes(names, rules) && OptionName.WellFormed(names)
    requires id < |rules| && keyIdx < CFG_OPTION_KEY_MAX && (!rules[id].grouped ==> keyIdx == 0)
    ensures var t := NamedTable(names, rules);
            && Sound(t)
            && (KeyFor(t, Key(OptionName.PrintName(names.options[id], keyIdx), given), slot) <==>
                rules[id].place != CommandLineOnly && slot == Slot(id, keyIdx))
  {
    hide OptionName.Recognised;
    hide OptionName.PrintName;
    hide OptionName.Sound;
    hide Sound;
    NamedTableIsSound(names, rules);
    OptionName.PrintedIsRecognised(names, id, keyIdx, false, false);
  }

  /** Within a section different options and keys are remembered under different numbers. */
  lemma FoundKeysDiffer(a: Slot, b: Slot)
    requires a.id < 0x100_0000 && b.id < 0x100_0000
    requires a.keyIdx < CFG_OPTION_KEY_MAX && b.keyIdx < CFG_OPTION_KEY_MAX
    ensures FoundKey(a) == FoundKey(b) ==> a == b
  {
    assert FoundKey(a) == a.id * 256 + a.keyIdx && FoundKey(b) == b.id * 256 + b.keyIdx;
  }

  // ----- The growing list of values -----

  const LIST_INITIAL_SIZE: nat := 8

  class OptionList {
    const table: Table
    var indexList: seq<seq<Option<Value>>>

    ghost predicate Valid()
      reads this
    {
      && Sound(table)
      && |indexList| == |table.rules|
      && forall id | 0 <= id < |indexList| && !table.rules[id].grouped :: |indexList[id]| <= 1
    }

    /** The value found for an option and key. */
    ghost function Entry(slot: Slot): Option<Value>
      reads this
    {
      if slot.id < |indexList| && slot.keyIdx < |indexList[slot.id]| then indexList[slot.id][slot.keyIdx] else None
    }

    /** The list holds exactly the values of a store. */
    ghost predicate Holds(store: Store)
      reads this
    {
      Valid() && forall slot :: Entry(slot) == Get(store, slot)
    }

    /** Whether there is a place for an option and key. */
    predicate Fits(slot: Slot) {
      && slot.id < |table.rules| && slot.keyIdx < CFG_OPTION_KEY_MAX
      && (!table.rules[slot.id].grouped ==> slot.keyIdx == 0)
    }

    constructor (table: Table)
      requires Sound(table)
      ensures this.table == table && Holds(map[])
    {
      this.table := table;
      indexList := seq(|table.rules|, _ => []);
    }

    /** Makes room for an option and key; no value that is there changes. */
    method IdxValue(slot: Slot)
      requires Valid() && Fits(slot)
      modifies this
      ensures Valid() && slot.keyIdx < |indexList[slot.id]|
      ensures forall any :: Entry(any) == old(Entry(any))
    {
      var was := indexList[slot.id];
      if slot.keyIdx >= |was| {
        var size := 1;
        if table.rules[slot.id].grouped {
          if |was| == 0 {
            size := if slot.keyIdx >= LIST_INITIAL_SIZE / 2 then slot.keyIdx + 1 else LIST_INITIAL_SIZE / 2;
          } else {
            size := slot.keyIdx + 1;
          }
        }
        var list := was + seq(size - |was|, _ => None);
        indexList := indexList[slot.id := list];
      }
    }

    /** Stores a value. */
    method Put(slot: Slot, value: Value, ghost store: Store)
      requires Holds(store) && Fits(slot)
      modifies this
      ensures Holds(store[slot := value])
    {
      IdxValue(slot);
      label grown:
      indexList := indexList[slot.id := indexList[slot.id][slot.keyIdx := Some(value)]];
      forall any
        ensures Entry(any) == Get(store[slot := value], any)
      {
        assert old@grown(Entry(any)) == Get(store, any);
      }
    }

    /** The value that is there, after making room for it. */
    method Look(slot: Slot, ghost store: Store) returns (value: Option<Value>)
      requires Holds(store) && Fits(slot)
      modifies this
      ensures Holds(store) && value == Get(store, slot)
    {
      IdxValue(slot);
      value := indexList[slot.id][slot.keyIdx];
      assert value == Entry(slot);
    }

    /** Merges one setting of the command line. */
    method AddOption(s: Setting, ghost store: Store) returns (error: Option<Error>, ghost next: Store)
      requires Holds(store) && InTable(table, s.parsed)
      modifies this
      ensures error == None ==> Holds(next)
      ensures AddSetting(table, store, s) == if error.Some? then Err(error.value) else Ok(next)
    {
      hide Sound;
      next := store;
      var p, slot := s.parsed, SlotOf(s.parsed);
      if table.rules[p.id].secure {
        return Some(NotOnCommandLine), next;
      }
      if OutOfRange(p) {
        return Some(KeyOutOfRange), next;
      }
      var found := Look(slot, store);
      if found == None {
        var value := Value(p.negate, p.reset, Param, None);
        if s.arg.Some? {
          value := value.(values := Some([s.arg.value]));
        }
        Put(slot, value, store);
        return None, store[slot := value];
      }
      var v := found.value;
      if v.negate && p.negate {
        return Some(NegatedTwice), next;
      }
      if v.reset && p.reset {
        return Some(ResetTwice), next;
      }
      if (v.reset && p.negate) || (v.negate && p.reset) {
        return Some(NegatedAndReset), next;
      }
      if v.negate != p.negate {
        return Some(SetAndNegated), next;
      }
      if v.reset != p.reset {
        return Some(SetAndReset), next;
      }
      if s.arg == None || !table.rules[p.id].multi {
        return Some(SetTwice), next;
      }
      var value := v.(values := Some((if v.values.Some? then v.values.value else []) + [s.arg.value]));
      Put(slot, value, store);
      return None, store[slot := value];
    }

    /** Phase 1: the command line. */
    method PhaseArgs(args: seq<string>) returns (error: Option<Error>, ghost store: Store)
      requires Holds(map[])
      modifies this
      ensures error == None ==> Holds(store)
      ensures ParseArgs(table, map[], args) == if error.Some? then Err(error.value) else Ok(store)
    {
      hide Sound;
      hide Token;
      hide AddSetting;
      hide Valid;
      ValidIsSound(map[]);
      store := map[];
      error := None;
      var i := 0;
      while i < |args|
        invariant 0 <= i <= |args| && Holds(store) && error == None && Sound(table)
        invariant ParseArgs(table, map[], args) == ParseArgs(table, store, args[i..])
        decreases |args| - i
      {
        var token := Token(table, args[i..]);
        if token.Err? {
          return Some(token.error), store;
        }
        var (s, n) := token.value;
        assert args[i..][n..] == args[i + n..];
        if s.Some? {
          error, store := AddOption(s.value, store);
          if error.Some? {
            return;
          }
        }
        i := i + n;
      }
    }

    lemma ValidIsSound(store: Store)
      requires Holds(store)
      ensures Sound(table)
    {
    }

    /** Phase 2: the environment. */
    method PhaseEnvironment(vs: seq<Variable>, ghost was: Store) returns (error: Option<Error>, ghost store: Store)
      requires Holds(was)
      modifies this
      ensures error == None ==> Holds(store)
      ensures Sound(table) && ParseEnvironment(table, was, vs) == if error.Some? then Err(error.value) else Ok(store)
    {
      hide Sound;
      hide ReadVariable;
      hide Valid;
      ValidIsSound(was);
      store := was;
      error := None;
      var i := 0;
      while i < |vs|
        invariant 0 <= i <= |vs| && Holds(store) && error == None
        invariant ParseEnvironment(table, was, vs) == ParseEnvironment(table, store, vs[i..])
      {
        var v := vs[i];
        assert vs[i..][0] == v && vs[i..][1..] == vs[i + 1..];
        i := i + 1;
        var option := Recognised(table, v.key);
        if option.Err? {
          return Some(option.error), store;
        }
        if option.value == None {
          continue;
        }
        var p := option.value.value;
        if !table.rules[p.id].valid {
          continue;
        }
        if |v.text| == 0 {
          return Some(EmptyValue), store;
        }
        if OutOfRange(p) {
          return Some(KeyOutOfRange), store;
        }
        var found := Look(SlotOf(p), store);
        if found.Some? {
          continue;
        }
        var value := ReadVariable(table.rules[p.id], v.text);
        if value.Err? {
          return Some(value.error), store;
        }
        Put(SlotOf(p), value.value, store);
        store := store[SlotOf(p) := value.value];
      }
    }

    /** Phase 3: one section of the configuration file. */
    method PhaseSection(section: IniSection, ghost was: Store) returns (error: Option<Error>, ghost store: Store)
      requires Holds(was)
      modifies this
      ensures error == None ==> Holds(store)
      ensures Sound(table) && ParseKeys(table, was, {}, section.isGlobal, section.keys) ==
                              if error.Some? then Err(error.value) else Ok(store)
    {
      hide Sound;
      hide ReadGiven;
      hide Valid;
      ValidIsSound(was);
      store := was;
      error := None;
      var optionFound: set<nat> := {};
      var keys := section.keys;
      var i := 0;
      while i < |keys|
        invariant 0 <= i <= |keys| && Holds(store) && error == None
        invariant ParseKeys(table, was, {}, section.isGlobal, keys) ==
                  ParseKeys(table, store, optionFound, section.isGlobal, keys[i..])
      {
        var k := keys[i];
        assert keys[i..][0] == k && keys[i..][1..] == keys[i + 1..];
        i := i + 1;
        var option := InFile(table, k.key);
        if option.Err? {
          return Some(option.error), store;
        }
        if option.value == None {
          continue;
        }
        var p := option.value.value;
        var slot := SlotOf(p);
        if FoundKey(slot) in optionFound {
          return Some(Duplicate), store;
        }
        optionFound := optionFound + {FoundKey(slot)};
        if !Usable(table.rules[p.id], section.isGlobal) {
          continue;
        }
        if OutOfRange(p) {
          return Some(KeyOutOfRange), store;
        }
        var found := Look(slot, store);
        if found.Some? {
          continue;
        }
        var value := ReadGiven(table.rules[p.id], k.given);
        if value.Err? {
          return Some(value.error), store;
        }
        Put(slot, value.value, store);
        store := store[slot := value.value];
      }
    }

    /** Phase 3: the sections in their order. */
    method PhaseFile(sections: seq<IniSection>, ghost was: Store) returns (error: Option<Error>, ghost store: Store)
      requires Holds(was)
      modifies this
      ensures error == None ==> Holds(store)
      ensures Sound(table) && ParseFile(table, was, sections) == if error.Some? then Err(error.value) else Ok(store)
    {
      hide Sound;
      hide ParseKeys;
      hide Valid;
      ValidIsSound(was);
      store := was;
      error := None;
      var i := 0;
      while i < |sections|
        invariant 0 <= i <= |sections| && Holds(store) && error == None
        invariant ParseFile(table, was, sections) == ParseFile(table, store, sections[i..])
      {
        assert sections[i..][0] == sections[i] && sections[i..][1..] == sections[i + 1..];
        error, store := PhaseSection(sections[i], store);
        if error.Some? {
          return;
        }
        i := i + 1;
      }
    }
  }
}
