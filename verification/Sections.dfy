/** Saving the sections of an info file in order. Each layer (common part, PostgreSQL part, backup part) knows only its own
    sections; before a layer saves a section it calls the next layer with that section's name, so that the next layer can
    save what sorts before it. */
module Sections {
  import opened Wrappers
  import opened IniFile
  import opened InfoFile
  import opened StringOrder

  // ----- Layers -----

  datatype Section = Section(name: string, values: seq<(string, string)>)

  type Layer = seq<Section>

  ghost predicate Ascending(ss: seq<Section>) {
    forall i, j | 0 <= i < j < |ss| :: Less(ss[i].name, ss[j].name)
  }

  /** No name is used in both layers. */
  ghost predicate Distinct(a: Layer, b: Layer) {
    forall s, t | s in a && t in b :: s.name != t.name
  }

  /** `s` sorts before `next`; with no next section everything does. */
  predicate Before(s: string, next: Option<string>) {
    next == None || Less(s, next.value)
  }

  function LastName(out: seq<Section>): Option<string> {
    if out == [] then None else Some(out[|out| - 1].name)
  }

  /** `s` sorts after all that has been saved. */
  predicate After(out: seq<Section>, s: string) {
    out == [] || Less(out[|out| - 1].name, s)
  }

  ghost predicate AllBefore(out: seq<Section>, next: Option<string>) {
    forall i | 0 <= i < |out| :: Before(out[i].name, next)
  }

  /** Every section of the layer that has values and sorts before `next` has been saved. */
  ghost predicate Covers(out: seq<Section>, layer: Layer, next: Option<string>) {
    forall i | 0 <= i < |layer| :: layer[i].values != [] && Before(layer[i].name, next) ==> layer[i] in out
  }

  /** The layer has nothing left to save before or at what has been saved last. */
  ghost predicate UpToDate(out: seq<Section>, layer: Layer) {
    forall i | 0 <= i < |layer| :: layer[i].values != [] && !After(out, layer[i].name) ==> layer[i] in out
  }

  /** The entries of saved sections. */
  ghost function Entries(out: seq<Section>): seq<Entry> {
    if out == [] then [] else Entries(out[..|out| - 1]) + SectionEntries(out[|out| - 1].name, out[|out| - 1].values)
  }

  ghost function SectionEntries(name: string, values: seq<(string, string)>): seq<Entry> {
    if values == [] then []
    else
      var n := |values| - 1;
      SectionEntries(name, values[..n]) + [Entry(name, values[n].0, values[n].1)]
  }

  /** Sections saved so far: with values, in ascending order, and nothing else in the file. */
  ghost predicate Saved(save: InfoSave, out: seq<Section>)
    reads save
  {
    && save.Valid()
    && save.saved == Entries(out)
    && Ascending(out)
    && forall i | 0 <= i < |out| :: out[i].values != []
  }

  /** `after` is `out` and further sections of the given layers. */
  ghost predicate Grew(out: seq<Section>, after: seq<Section>, layers: seq<Section>) {
    |out| <= |after| && after[..|out|] == out && forall i | |out| <= i < |after| :: after[i] in layers
  }

  lemma EntriesAppend(out: seq<Section>, s: Section)
    ensures Entries(out + [s]) == Entries(out) + SectionEntries(s.name, s.values)
  {
    assert (out + [s])[..|out|] == out;
  }

  lemma NoEntries(name: string)
    ensures SectionEntries(name, []) == []
  {
  }

  lemma OneMoreValue(name: string, values: seq<(string, string)>, i: nat)
    requires i < |values|
    ensures SectionEntries(name, values[..i + 1]) ==
            SectionEntries(name, values[..i]) + [Entry(name, values[i].0, values[i].1)]
  {
    assert values[..i + 1][..i] == values[..i];
  }

  lemma {:induction false} SectionEntriesLast(name: string, values: seq<(string, string)>)
    requires values != []
    ensures |SectionEntries(name, values)| == |values|
    ensures LastSection(SectionEntries(name, values)) == Some(name)
  {
    if |values| > 1 {
      SectionEntriesLast(name, values[..|values| - 1]);
    } else {
      assert SectionEntries(name, values[..0]) == [];
    }
  }

  lemma LastSaved(out: seq<Section>)
    requires forall i | 0 <= i < |out| :: out[i].values != []
    ensures LastSection(Entries(out)) == LastName(out)
  {
    if out != [] {
      var s := out[|out| - 1];
      SectionEntriesLast(s.name, s.values);
    }
  }

  /** Is it time to save a section: after what was saved last and before what comes next. */
  method SaveSection(save: InfoSave, section: string, next: Option<string>, ghost out: seq<Section>) returns (r: bool)
    requires Saved(save, out)
    ensures r <==> After(out, section) && Before(section, next)
  {
    LastSaved(out);
    r := (save.sectionLast == None || Less(save.sectionLast.value, section)) && (next == None || Less(section, next.value));
  }

  lemma AppendAscending(out: seq<Section>, s: Section)
    requires Ascending(out) && After(out, s.name)
    ensures Ascending(out + [s])
  {
    forall i, j | 0 <= i < j < |out| + 1
      ensures Less((out + [s])[i].name, (out + [s])[j].name)
    {
      if j == |out| && i < |out| - 1 {
        LessTransitive(out[i].name, out[|out| - 1].name, s.name);
      }
    }
  }

  /** Saves the values of a section. */
  method SaveValues(save: InfoSave, s: Section, ghost out: seq<Section>) returns (ghost after: seq<Section>)
    requires Saved(save, out) && After(out, s.name)
    modifies save
    ensures Saved(save, after) && after == if s.values == [] then out else out + [s]
  {
    hide Entries;
    hide SectionEntries;
    hide InfoSave.Valid;
    NoEntries(s.name);
    var i := 0;
    while i < |s.values|
      invariant 0 <= i <= |s.values|
      invariant save.Valid() && save.saved == Entries(out) + SectionEntries(s.name, s.values[..i])
    {
      save.SaveValue(s.name, s.values[i].0, s.values[i].1);
      OneMoreValue(s.name, s.values, i);
      i := i + 1;
    }
    assert s.values[..i] == s.values;
    AppendAscending(out, s);
    after := if s.values == [] then out else out + [s];
    EntriesAppend(out, s);
  }

  // ----- What a saved section does to the other layers -----

  /** A layer that has saved everything before `next` is up to date as long as `next` has not been reached. */
  lemma CoveredIsUpToDate(out: seq<Section>, layer: Layer, next: Option<string>)
    requires Covers(out, layer, next) && AllBefore(out, next)
    ensures UpToDate(out, layer)
  {
    forall i | 0 <= i < |layer| && layer[i].values != [] && !After(out, layer[i].name)
      ensures layer[i] in out
    {
      var last := out[|out| - 1];
      LessTotal(layer[i].name, last.name);
      assert Before(last.name, next);
      if layer[i].name != last.name && next.Some? {
        LessTransitive(layer[i].name, last.name, next.value);
      }
    }
  }

  /** Saving the section that was announced as next keeps the layer up to date. */
  lemma NextIsSaved(out: seq<Section>, layer: Layer, s: Section)
    requires Covers(out, layer, Some(s.name)) && UpToDate(out, layer)
    requires forall t | t in layer :: t.name != s.name
    ensures UpToDate(out + [s], layer)
  {
    forall i | 0 <= i < |layer| && layer[i].values != [] && !After(out + [s], layer[i].name)
      ensures layer[i] in out + [s]
    {
      LessTotal(layer[i].name, s.name);
      assert (out + [s])[|out|] == s;
    }
  }

  lemma AfterAllBefore(out: seq<Section>, name: string)
    requires Ascending(out)
    ensures After(out, name) <==> AllBefore(out, Some(name))
  {
    if After(out, name) {
      forall i | 0 <= i < |out|
        ensures Before(out[i].name, Some(name))
      {
        if i < |out| - 1 {
          LessTransitive(out[i].name, out[|out| - 1].name, name);
        }
      }
    }
  }

  lemma BeforeLater(out: seq<Section>, name: string, next: Option<string>)
    requires AllBefore(out, Some(name)) && Before(name, next)
    ensures AllBefore(out, next)
  {
    forall i | 0 <= i < |out|
      ensures Before(out[i].name, next)
    {
      assert Before(out[i].name, Some(name));
      if next.Some? {
        LessTransitive(out[i].name, name, next.value);
      }
    }
  }

  lemma StillCovers(out: seq<Section>, after: seq<Section>, layer: Layer, next: Option<string>)
    requires Covers(out, layer, next) && |out| <= |after| && after[..|out|] == out
    ensures Covers(after, layer, next)
  {
    forall i | 0 <= i < |layer| && layer[i].values != [] && Before(layer[i].name, next)
      ensures layer[i] in after
    {
      assert layer[i] in after[..|out|];
    }
  }

  lemma CoversOneMore(out: seq<Section>, layer: Layer, n: nat, next: Option<string>)
    requires n < |layer| && Covers(out, layer[..n], next)
    requires layer[n].values != [] && Before(layer[n].name, next) ==> layer[n] in out
    ensures Covers(out, layer[..n + 1], next)
  {
    var longer := layer[..n + 1];
    forall i | 0 <= i < |longer| && longer[i].values != [] && Before(longer[i].name, next)
      ensures longer[i] in out
    {
      if i < n {
        assert layer[..n][i] == longer[i];
      }
    }
  }

  /** A layer is up to date while it works on its section `n`. */
  lemma WorkingOn(out: seq<Section>, layer: Layer, n: nat, next: Option<string>)
    requires n < |layer| && Ascending(layer) && AllBefore(out, next)
    requires Covers(out, layer[..n + 1], next)
    requires out == [] || out[|out| - 1].name == layer[n].name || Less(out[|out| - 1].name, layer[n].name)
    ensures UpToDate(out, layer)
  {
    CoveredIsUpToDate(out, layer[..n + 1], next);
    forall i | 0 <= i < |layer| && layer[i].values != [] && !After(out, layer[i].name)
      ensures layer[i] in out
    {
      if n < i && out != [] && Less(out[|out| - 1].name, layer[n].name) {
        LessTransitive(out[|out| - 1].name, layer[n].name, layer[i].name);
      }
      assert i <= n;
      assert layer[..n + 1][i] == layer[i];
    }
  }

  // ----- The callbacks -----

  /** The last layer: saves those of its sections whose turn it is. */
  method SaveLeaf(save: InfoSave, leaf: Layer, next: Option<string>, ghost out: seq<Section>)
    returns (ghost after: seq<Section>)
    requires Saved(save, out) && AllBefore(out, next)
    requires Ascending(leaf) && UpToDate(out, leaf)
    modifies save
    ensures Saved(save, after) && AllBefore(after, next) && Grew(out, after, leaf)
    ensures Covers(after, leaf, next) && UpToDate(after, leaf)
  {
    after := out;
    var i := 0;
    while i < |leaf|
      invariant 0 <= i <= |leaf|
      invariant Saved(save, after) && AllBefore(after, next) && Grew(out, after, leaf)
      invariant Covers(after, leaf[..i], next) && UpToDate(after, leaf)
    {
      after := SaveLeafStep(save, leaf, i, next, out, after);
      i := i + 1;
    }
    assert leaf[..i] == leaf;
  }

  method SaveLeafStep(save: InfoSave, leaf: Layer, i: nat, next: Option<string>, ghost out: seq<Section>,
                      ghost before: seq<Section>)
    returns (ghost after: seq<Section>)
    requires i < |leaf| && Ascending(leaf)
    requires Saved(save, before) && AllBefore(before, next) && Grew(out, before, leaf)
    requires Covers(before, leaf[..i], next) && UpToDate(before, leaf)
    modifies save
    ensures Saved(save, after) && AllBefore(after, next) && Grew(out, after, leaf)
    ensures Covers(after, leaf[..i + 1], next) && UpToDate(after, leaf)
  {
    hide InfoSave.Valid;
    hide Entries;
    var turn := SaveSection(save, leaf[i].name, next, before);
    after := before;
    if turn {
      after := SaveValues(save, leaf[i], before);
      StillCovers(before, after, leaf[..i], next);
      CoversOneMore(after, leaf, i, next);
      WorkingOn(after, leaf, i, next);
    } else {
      CoversOneMore(after, leaf, i, next);
    }
  }

  /** A layer between: before it saves one of its sections it lets the next layer save what sorts before. */
  method SaveMiddle(save: InfoSave, middle: Layer, leaf: Layer, next: Option<string>, ghost out: seq<Section>)
    returns (ghost after: seq<Section>)
    requires Saved(save, out) && AllBefore(out, next)
    requires Ascending(middle) && Ascending(leaf) && Distinct(middle, leaf)
    requires UpToDate(out, middle) && UpToDate(out, leaf)
    modifies save
    ensures Saved(save, after) && AllBefore(after, next) && Grew(out, after, middle + leaf)
    ensures Covers(after, middle, next) && Covers(after, leaf, next)
    ensures UpToDate(after, middle) && UpToDate(after, leaf)
  {
    hide InfoSave.Valid;
    hide Entries;
    after := out;
    var i := 0;
    while i < |middle|
      invariant 0 <= i <= |middle|
      invariant Saved(save, after) && AllBefore(after, next) && Grew(out, after, middle + leaf)
      invariant Covers(after, middle[..i], next) && UpToDate(after, middle) && UpToDate(after, leaf)
    {
      after := SaveMiddleStep(save, middle, leaf, i, next, out, after);
      i := i + 1;
    }
    assert middle[..i] == middle;
    ghost var before := after;
    after := SaveLeaf(save, leaf, next, before);
    StillCovers(before, after, middle, next);
    CoveredIsUpToDate(after, middle, next);
    GrewMore(out, before, after, middle, leaf);
  }

  lemma GrewMore(out: seq<Section>, before: seq<Section>, after: seq<Section>, middle: Layer, leaf: Layer)
    requires Grew(out, before, middle + leaf) && Grew(before, after, leaf)
    ensures Grew(out, after, middle + leaf)
  {
    assert after[..|out|] == after[..|before|][..|out|];
    forall i | |out| <= i < |after|
      ensures after[i] in middle + leaf
    {
      if i < |before| {
        assert after[i] == after[..|before|][i];
      }
    }
  }

  method SaveMiddleStep(save: InfoSave, middle: Layer, leaf: Layer, i: nat, next: Option<string>, ghost out: seq<Section>,
                        ghost before: seq<Section>)
    returns (ghost after: seq<Section>)
    requires i < |middle| && Ascending(middle) && Ascending(leaf) && Distinct(middle, leaf)
    requires Saved(save, before) && AllBefore(before, next) && Grew(out, before, middle + leaf)
    requires Covers(before, middle[..i], next) && UpToDate(before, middle) && UpToDate(before, leaf)
    modifies save
    ensures Saved(save, after) && AllBefore(after, next) && Grew(out, after, middle + leaf)
    ensures Covers(after, middle[..i + 1], next) && UpToDate(after, middle) && UpToDate(after, leaf)
  {
    hide InfoSave.Valid;
    hide Entries;
    hide UpToDate;
    hide Covers;
    var s := middle[i];
    var turn := SaveSection(save, s.name, next, before);
    after := before;
    if turn {
      AfterAllBefore(before, s.name);
      ghost var between := SaveLeaf(save, leaf, Some(s.name), before);
      GrewMore(out, before, between, middle, leaf);
      AfterAllBefore(between, s.name);
      BeforeLater(between, s.name, next);
      after := SaveValues(save, s, between);
      NextIsSaved(between, leaf, s);
      StillCovers(before, after, middle[..i], next);
      CoversOneMore(after, middle, i, next);
      WorkingOn(after, middle, i, next);
    } else {
      TurnIsOver(before, middle, i, next);
      CoversOneMore(after, middle, i, next);
    }
  }

  lemma TurnIsOver(out: seq<Section>, layer: Layer, i: nat, next: Option<string>)
    requires i < |layer| && UpToDate(out, layer) && !(After(out, layer[i].name) && Before(layer[i].name, next))
    ensures layer[i].values != [] && Before(layer[i].name, next) ==> layer[i] in out
  {
  }

  // ----- The whole file -----

  /** `out` holds each section with values of the three layers once, in ascending order, and nothing else. */
  ghost predicate IsMerge(out: seq<Section>, base: Layer, middle: Layer, leaf: Layer) {
    && Ascending(out)
    && (forall s :: s in out <==> s in base + middle + leaf && s.values != [])
  }

  /** The common layer starts the save and announces each of its sections, then that nothing follows. */
  method SaveInfo(json: Json, sha1: Hash, base: Layer, middle: Layer, leaf: Layer) returns (text: string)
    requires Ascending(base) && Ascending(middle) && Ascending(leaf)
    requires Distinct(base, middle) && Distinct(base, leaf) && Distinct(middle, leaf)
    ensures exists out :: IsMerge(out, base, middle, leaf) && text == FileText(json, sha1, Entries(out))
  {
    hide InfoSave.Valid;
    var save := new InfoSave(json);
    ghost var out: seq<Section> := [];
    NothingSaved(base, middle, leaf);
    var i := 0;
    while i < |base|
      invariant 0 <= i <= |base|
      invariant fresh(save) && save.json == json && Saved(save, out) && Grew([], out, base + middle + leaf)
      invariant i < |base| ==> After(out, base[i].name)
      invariant Covers(out, base[..i], None) && UpToDate(out, middle) && UpToDate(out, leaf)
    {
      out := SaveBaseStep(save, base, middle, leaf, i, out);
      i := i + 1;
    }
    assert base[..i] == base;
    ghost var before := out;
    out := SaveMiddle(save, middle, leaf, None, before);
    StillCovers(before, out, base, None);
    MergeDone(before, out, base, middle, leaf);
    text := save.End(sha1);
  }

  lemma NothingSaved(base: Layer, middle: Layer, leaf: Layer)
    ensures Ascending([]) && Entries([]) == [] && Grew([], [], base + middle + leaf)
    ensures Covers([], base[..0], None) && UpToDate([], middle) && UpToDate([], leaf)
  {
  }

  lemma MergeDone(before: seq<Section>, out: seq<Section>, base: Layer, middle: Layer, leaf: Layer)
    requires Ascending(out) && forall i | 0 <= i < |out| :: out[i].values != []
    requires Grew([], before, base + middle + leaf) && Grew(before, out, middle + leaf)
    requires Covers(out, base, None) && Covers(out, middle, None) && Covers(out, leaf, None)
    ensures IsMerge(out, base, middle, leaf)
  {
    forall s
      ensures s in out <==> s in base + middle + leaf && s.values != []
    {
      if s in out {
        var i :| 0 <= i < |out| && out[i] == s;
        if i < |before| {
          assert out[..|before|][i] == before[i];
        }
      }
    }
  }

  method SaveBaseStep(save: InfoSave, base: Layer, middle: Layer, leaf: Layer, i: nat, ghost before: seq<Section>)
    returns (ghost after: seq<Section>)
    requires i < |base| && Ascending(base) && Ascending(middle) && Ascending(leaf)
    requires Distinct(base, middle) && Distinct(base, leaf) && Distinct(middle, leaf)
    requires Saved(save, before) && Grew([], before, base + middle + leaf) && After(before, base[i].name)
    requires Covers(before, base[..i], None) && UpToDate(before, middle) && UpToDate(before, leaf)
    modifies save
    ensures Saved(save, after) && Grew([], after, base + middle + leaf)
    ensures i + 1 < |base| ==> After(after, base[i + 1].name)
    ensures Covers(after, base[..i + 1], None) && UpToDate(after, middle) && UpToDate(after, leaf)
  {
    hide InfoSave.Valid;
    hide Entries;
    hide UpToDate;
    hide Covers;
    var s := base[i];
    AfterAllBefore(before, s.name);
    ghost var between := SaveMiddle(save, middle, leaf, Some(s.name), before);
    AfterAllBefore(between, s.name);
    after := SaveValues(save, s, between);
    NextIsSaved(between, middle, s);
    NextIsSaved(between, leaf, s);
    BaseGrew(before, between, after, base, middle, leaf, i);
    StillCovers(before, after, base[..i], None);
    CoversOneMore(after, base, i, None);
    if i + 1 < |base| && s.values == [] && between != [] {
      LessTransitive(between[|between| - 1].name, s.name, base[i + 1].name);
    }
  }

  lemma BaseGrew(before: seq<Section>, between: seq<Section>, after: seq<Section>, base: Layer, middle: Layer, leaf: Layer,
                 i: nat)
    requires i < |base| && Grew([], before, base + middle + leaf) && Grew(before, between, middle + leaf)
    requires after == between || after == between + [base[i]]
    ensures Grew([], after, base + middle + leaf) && after[..|before|] == before
  {
    forall k | 0 <= k < |after|
      ensures after[k] in base + middle + leaf
    {
      if k < |before| {
        assert before[k] == between[..|before|][k];
      }
    }
  }

  /** The file does not depend on how the sections are split among the layers. */
  lemma {:induction false} AscendingIsUnique(a: seq<Section>, b: seq<Section>)
    requires Ascending(a) && Ascending(b)
    requires forall s :: s in a <==> s in b
    ensures a == b
  {
    assert a != [] ==> a[0] in b;
    assert b != [] ==> b[0] in a;
    if a != [] {
      var m, n := |a| - 1, |b| - 1;
      assert a[m] in b && b[n] in a;
      var i :| 0 <= i <= n && b[i] == a[m];
      var j :| 0 <= j <= m && a[j] == b[n];
      if i < n && j < m {
        LessTransitive(a[m].name, b[n].name, a[m].name);
        LessIrreflexive(a[m].name);
      }
      assert a[m] == b[n];
      forall s
        ensures s in a[..m] <==> s in b[..n]
      {
        LastIsOnce(a, s);
        LastIsOnce(b, s);
      }
      AscendingIsUnique(a[..m], b[..n]);
      assert a == a[..m] + [a[m]] && b == b[..n] + [b[n]];
    }
  }

  lemma LastIsOnce(a: seq<Section>, s: Section)
    requires a != [] && Ascending(a)
    ensures s in a[..|a| - 1] <==> s in a && s != a[|a| - 1]
  {
    if s in a[..|a| - 1] {
      var i :| 0 <= i < |a| - 1 && a[i] == s;
      LessIrreflexive(s.name);
    }
  }

  /** Two saves of the same sections, however split, write the same entries. */
  lemma SplitDoesNotMatter(out: seq<Section>, base: Layer, middle: Layer, leaf: Layer,
                           out': seq<Section>, base': Layer, middle': Layer, leaf': Layer)
    requires IsMerge(out, base, middle, leaf) && IsMerge(out', base', middle', leaf')
    requires forall s :: s in base + middle + leaf <==> s in base' + middle' + leaf'
    ensures Entries(out) == Entries(out')
  {
    AscendingIsUnique(out, out');
  }

  /** The names in use are in the order that the layers need. */
  lemma NamesInUse()
    ensures Less("backrest", "backup:current") && Less("backup:current", "cipher") && Less("cipher", "db")
    ensures Less("db", "db:history")
  {
    assert "backrest"[1..] == "ackrest" && "backup:current"[1..] == "ackup:current";
    assert "ackrest"[1..] == "ckrest" && "ackup:current"[1..] == "ckup:current";
    assert "ckrest"[1..] == "krest" && "ckup:current"[1..] == "kup:current";
    assert "krest"[1..] == "rest" && "kup:current"[1..] == "up:current";
    assert Less("rest", "up:current") && Less("krest", "kup:current") && Less("ckrest", "ckup:current");
    assert "db"[1..] == "b" && "db:history"[1..] == "b:history";
    assert "b"[1..] == "" && "b:history"[1..] == ":history";
    assert Less("b", "b:history");
  }
}
