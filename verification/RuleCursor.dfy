/** Optional rules of an option are read from a packed list through a cursor that only moves forward. */
module RuleCursor {
  import opened Wrappers

  type Command = nat

  /** A rule type, numbered in the order in which rules are stored, and its data. */
  datatype Rule<D> = Rule(kind: nat, data: D)

  /** Rules for some commands, or for all when there is no filter. */
  datatype Group<D> = Group(filter: Option<seq<Command>>, rules: seq<Rule<D>>)

  predicate Applies<D>(g: Group<D>, command: Command) {
    g.filter == None || command in g.filter.value
  }

  /** The rules of the first group that applies. */
  function RulesFor<D>(groups: seq<Group<D>>, command: Command): Option<seq<Rule<D>>> {
    if groups == [] then None
    else if Applies(groups[0], command) then Some(groups[0].rules)
    else RulesFor(groups[1..], command)
  }

  /** The first rule of the given type. */
  function Find<D>(rules: seq<Rule<D>>, kind: nat): Option<D> {
    if rules == [] then None
    else if rules[0].kind == kind then Some(rules[0].data)
    else Find(rules[1..], kind)
  }

  /** A search from the start, independent of all others. */
  function Fresh<D>(groups: seq<Group<D>>, command: Command, kind: nat): Option<D> {
    match RulesFor(groups, command)
    case None => None
    case Some(rules) => Find(rules, kind)
  }

  predicate Ascending<D>(rules: seq<Rule<D>>) {
    forall i, j | 0 <= i < j < |rules| :: rules[i].kind <= rules[j].kind
  }

  /** Every group lists at least one rule, and its rules in ascending order of type. */
  predicate WellFormed<D>(groups: seq<Group<D>>) {
    forall i | 0 <= i < |groups| ::
      && groups[i].rules != [] && Ascending(groups[i].rules)
      && forall k | 0 <= k < |groups[i].rules| :: groups[i].rules[k].kind > 0
  }

  lemma {:induction false} RulesWellFormed<D>(groups: seq<Group<D>>, command: Command)
    requires WellFormed(groups)
    ensures var r := RulesFor(groups, command);
            r.Some? ==> r.value != [] && Ascending(r.value) && forall k | 0 <= k < |r.value| :: r.value[k].kind > 0
  {
    if groups != [] && !Applies(groups[0], command) {
      RulesWellFormed(groups[1..], command);
    }
  }

  lemma {:induction false} FindSkips<D>(rules: seq<Rule<D>>, pos: nat, kind: nat)
    requires pos <= |rules| && forall i | 0 <= i < pos :: rules[i].kind != kind
    ensures Find(rules, kind) == Find(rules[pos..], kind)
  {
    if pos > 0 {
      FindSkips(rules[1..], pos - 1, kind);
      assert rules[1..][pos - 1..] == rules[pos..];
    } else {
      assert rules[0..] == rules;
    }
  }

  lemma {:induction false} FindPast<D>(rules: seq<Rule<D>>, kind: nat)
    requires forall i | 0 <= i < |rules| :: rules[i].kind != kind
    ensures Find(rules, kind) == None
  {
    if rules != [] {
      FindPast(rules[1..], kind);
    }
  }

  /** In ascending order nothing follows a rule of a higher type. */
  lemma FindBetween<D>(rules: seq<Rule<D>>, pos: nat, kind: nat)
    requires Ascending(rules) && pos <= |rules| && forall i | 0 <= i < pos :: rules[i].kind < kind
    requires pos < |rules| ==> kind < rules[pos].kind
    ensures Find(rules, kind) == None
  {
    FindPast(rules, kind);
  }

  /** The rule at the position is the first of its type. */
  lemma FindHere<D>(rules: seq<Rule<D>>, pos: nat, kind: nat)
    requires pos < |rules| && rules[pos].kind == kind && forall i | 0 <= i < pos :: rules[i].kind < kind
    ensures Find(rules, kind) == Some(rules[pos].data)
  {
    FindSkips(rules, pos, kind);
    assert rules[pos..][0] == rules[pos];
  }

  /** A filter is searched for the command. */
  method Lists(commands: seq<Command>, command: Command) returns (found: bool)
    ensures found <==> command in commands
  {
    found := false;
    var i := 0;
    while i < |commands| && !found
      invariant 0 <= i <= |commands|
      invariant found <==> command in commands[..i]
    {
      found := commands[i] == command;
      i := i + 1;
    }
    assert !found ==> commands[..i] == commands;
  }

  /** No group applies to the command. */
  lemma {:induction false} NoGroupApplies<D>(groups: seq<Group<D>>, command: Command, kind: nat)
    requires forall i | 0 <= i < |groups| :: groups[i].filter.Some? && command !in groups[i].filter.value
    ensures RulesFor(groups, command) == None && Fresh(groups, command, kind) == None
  {
    if groups != [] {
      NoGroupApplies(groups[1..], command, kind);
    }
  }

  lemma {:induction false} FirstGroupApplies<D>(groups: seq<Group<D>>, command: Command, g: nat)
    requires g < |groups| && (groups[g].filter == None || command in groups[g].filter.value)
    requires forall i | 0 <= i < g :: groups[i].filter.Some? && command !in groups[i].filter.value
    ensures RulesFor(groups, command) == Some(groups[g].rules)
    decreases g
  {
    if g > 0 {
      FirstGroupApplies(groups[1..], command, g - 1);
    }
  }

  /** The answer to a query: the data of the first rule of that type in the first group that has no filter or lists the
      command, and none when that group has no such rule, whatever later groups have. */
  lemma AnswerIs<D>(groups: seq<Group<D>>, command: Command, kind: nat, g: nat, k: nat)
    requires g < |groups| && (groups[g].filter == None || command in groups[g].filter.value)
    requires forall i | 0 <= i < g :: groups[i].filter.Some? && command !in groups[i].filter.value
    requires k <= |groups[g].rules| && forall i | 0 <= i < k :: groups[g].rules[i].kind != kind
    requires k < |groups[g].rules| ==> groups[g].rules[k].kind == kind
    ensures Fresh(groups, command, kind) == if k < |groups[g].rules| then Some(groups[g].rules[k].data) else None
  {
    FirstGroupApplies(groups, command, g);
    FindSkips(groups[g].rules, k, kind);
    assert k < |groups[g].rules| ==> groups[g].rules[k..][0] == groups[g].rules[k];
  }

  /** The state that several queries share: the group that was found, how far it has been read, and a rule type that has
      been read but whose data has not. */
  class Cursor<D(!new)> {
    const groups: seq<Group<D>>
    const command: Command
    var pack: Option<seq<Rule<D>>>
    var pos: nat
    var typeNext: nat
    var done: bool
    ghost var last: nat

    ghost predicate Valid()
      reads this
    {
      && WellFormed(groups)
      && (pack.Some? ==> pack == RulesFor(groups, command) && pos <= |pack.value| && Passed(pack.value))
      && (done && pack.None? ==> RulesFor(groups, command).None?)
      && (done && pack.Some? ==> pos == |pack.value|)
      && (typeNext != 0 ==> pack.Some? && pos < |pack.value| && typeNext == pack.value[pos].kind)
    }

    /** No rule that was passed is of a type still to be asked for. */
    ghost predicate Passed(rules: seq<Rule<D>>)
      requires pos <= |rules|
      reads this
    {
      forall i | 0 <= i < pos :: rules[i].kind <= last
    }

    constructor (groups: seq<Group<D>>, command: Command)
      requires WellFormed(groups)
      ensures Valid() && this.groups == groups && this.command == command && last == 0
    {
      this.groups := groups;
      this.command := command;
      pack := None;
      pos := 0;
      typeNext := 0;
      done := false;
      last := 0;
    }

    /** Finds the first group that applies and reads the type of its first rule. */
    method Open()
      requires Valid() && !done && pack == None
      modifies this
      ensures Valid() && last == old(last)
      ensures pack.Some? ==> !done && pack == RulesFor(groups, command)
      ensures pack.None? ==> done && RulesFor(groups, command).None?
    {
      RulesWellFormed(groups, command);
      var i := 0;
      while i < |groups|
        invariant 0 <= i <= |groups|
        invariant pack == None && RulesFor(groups, command) == RulesFor(groups[i..], command)
        invariant unchanged(this)
      {
        assert groups[i..][0] == groups[i] && groups[i..][1..] == groups[i + 1..];
        var applies := groups[i].filter == None;
        if !applies {
          applies := Lists(groups[i].filter.value, command);
        }
        if applies {
          pack := Some(groups[i].rules);
          pos := 0;
          typeNext := groups[i].rules[0].kind;
          return;
        }
        i := i + 1;
      }
      done := true;
    }

    /** Looks for a rule from where the last query stopped. Asked for types in ascending order, it answers as a fresh
        search would. */
    method Query(kind: nat) returns (r: Option<D>)
      requires Valid() && kind > last
      modifies this
      ensures Valid() && last == kind
      ensures r == Fresh(groups, command, kind)
    {
      hide WellFormed;
      hide RulesFor;
      hide Find;
      if done {
        last := kind;
        if pack.Some? {
          FindPast(pack.value, kind);
        }
        return None;
      }
      if pack == None {
        Open();
        if pack == None {
          last := kind;
          return None;
        }
      }
      r := Search(kind);
    }

    /** The search loop in the group that was found. */
    method Search(kind: nat) returns (r: Option<D>)
      requires Valid() && kind > last && !done && pack.Some?
      modifies this
      ensures Valid() && last == kind
      ensures pack == old(pack) && r == Find(pack.value, kind)
    {
      hide WellFormed;
      hide RulesFor;
      hide Find;
      RulesWellFormed(groups, command);
      ghost var rules := pack.value;
      while true
        invariant Valid() && !done && pack == old(pack)
        invariant last == old(last) || last == kind
        invariant forall i | 0 <= i < pos :: rules[i].kind < kind
        decreases |rules| - pos
      {
        if typeNext == 0 {
          if pos == |pack.value| {
            done := true;
            last := kind;
            FindBetween(rules, pos, kind);
            return None;
          }
          typeNext := pack.value[pos].kind;
        }
        last := kind;
        if typeNext == kind {
          FindHere(rules, pos, kind);
          r := Some(pack.value[pos].data);
          pos := pos + 1;
          typeNext := 0;
          return;
        }
        if typeNext > kind {
          FindBetween(rules, pos, kind);
          return None;
        }
        pos := pos + 1;
        typeNext := 0;
      }
      assert false;
    }
  }

  /** Any ascending series of queries through one cursor gives the answers of independent searches. */
  method AskAll<D(!new)>(groups: seq<Group<D>>, command: Command, kinds: seq<nat>) returns (answers: seq<Option<D>>)
    requires WellFormed(groups)
    requires forall i, j | 0 <= i < j < |kinds| :: kinds[i] < kinds[j]
    requires forall i | 0 <= i < |kinds| :: kinds[i] > 0
    ensures |answers| == |kinds| && forall i | 0 <= i < |kinds| :: answers[i] == Fresh(groups, command, kinds[i])
  {
    var cursor := new Cursor(groups, command);
    answers := [];
    var i := 0;
    while i < |kinds|
      invariant 0 <= i <= |kinds| && |answers| == i
      invariant fresh(cursor) && cursor.Valid() && cursor.groups == groups && cursor.command == command
      invariant i == 0 ==> cursor.last == 0
      invariant i > 0 ==> cursor.last == kinds[i - 1]
      invariant forall k | 0 <= k < i :: answers[k] == Fresh(groups, command, kinds[k])
    {
      var answer := cursor.Query(kinds[i]);
      answers := answers + [answer];
      i := i + 1;
    }
  }
}
