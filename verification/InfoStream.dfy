/** The stream whose hash protects an info file: what it looks like, and that it leaves nothing out. */
module InfoStream {
  import opened Wrappers
  import opened JsonText
  import opened IniFile
  import opened InfoFile
  import opened Sections
  import JsonCodec
  import StringOrder

  // ----- The stream is one object -----

  function Pair(quote: string -> string, value: (string, string)): string {
    quote(value.0) + ":" + value.1
  }

  function Pairs(quote: string -> string, values: seq<(string, string)>): string {
    if values == [] then ""
    else
      var n := |values| - 1;
      Pairs(quote, values[..n]) + ((if n == 0 then "" else ",") + Pair(quote, values[n]))
  }

  function Object(quote: string -> string, s: Section): string {
    "\"" + s.name + "\":{" + Pairs(quote, s.values) + "}"
  }

  function Objects(quote: string -> string, out: seq<Section>): string {
    if out == [] then ""
    else
      var n := |out| - 1;
      Objects(quote, out[..n]) + ((if n == 0 then "" else ",") + Object(quote, out[n]))
  }

  lemma Grouped(a: string, b: string, c: string)
    ensures a + b + c == a + (b + c)
  {
  }

  lemma EntryIsHashed(quote: string -> string, last: Option<string>, e: Entry)
    ensures last == Some(e.section) ==> EntryHashed(quote, last, e) == "," + Pair(quote, (e.key, e.value))
    ensures last == None ==>
              EntryHashed(quote, last, e) == "\"" + e.section + "\":{" + Pair(quote, (e.key, e.value))
    ensures last.Some? && last.value != e.section ==>
              EntryHashed(quote, last, e) == "}," + ("\"" + e.section + "\":{" + Pair(quote, (e.key, e.value)))
  {
    var head := "\"" + e.section + "\":{";
    Grouped(head, quote(e.key) + ":", e.value);
    Grouped(",", quote(e.key) + ":", e.value);
  }

  lemma LastOfSection(name: string, values: seq<(string, string)>)
    requires values != []
    ensures LastSection(SectionEntries(name, values)) == Some(name)
    ensures var n := |values| - 1;
            SectionEntries(name, values) == SectionEntries(name, values[..n]) + [Entry(name, values[n].0, values[n].1)]
  {
  }

  /** The values of a section that follows entries of another one. */
  lemma {:induction false} SectionIsHashed(quote: string -> string, es: seq<Entry>, name: string, values: seq<(string, string)>)
    requires values != [] && LastSection(es) != Some(name)
    ensures Hashed(quote, es + SectionEntries(name, values)) ==
            Hashed(quote, es) + ((if es == [] then "" else "},") + ("\"" + name + "\":{" + Pairs(quote, values)))
    ensures LastSection(es + SectionEntries(name, values)) == Some(name)
    decreases |values|
  {
    hide Hashed;
    hide EntryHashed;
    hide Pair;
    var n := |values| - 1;
    var e := Entry(name, values[n].0, values[n].1);
    var before := es + SectionEntries(name, values[..n]);
    LastOfSection(name, values);
    assert es + SectionEntries(name, values) == before + [e];
    Extended(quote, before, e);
    EntryIsHashed(quote, LastSection(before), e);
    var pair := Pair(quote, (e.key, e.value));
    assert (e.key, e.value) == values[n];
    if n == 0 {
      assert SectionEntries(name, values[..0]) == [];
      assert before == es;
      assert Pairs(quote, values) == "" + ("" + pair) == pair;
    } else {
      SectionIsHashed(quote, es, name, values[..n]);
      hide SectionEntries;
      var head := if es == [] then "" else "},";
      var open := "\"" + name + "\":{";
      var pairs := Pairs(quote, values[..n]);
      Regroup(Hashed(quote, es), head, open, pairs, "," + pair);
    }
  }

  lemma Regroup(a: string, b: string, c: string, d: string, e: string)
    ensures a + (b + (c + d)) + e == a + (b + (c + (d + e)))
  {
    Grouped(c, d, e);
    Grouped(b, c + d, e);
    Grouped(a, b + (c + d), e);
  }

  /** What is hashed for a file is the text of an object with an object for each section. */
  lemma StreamIsObject(quote: string -> string, out: seq<Section>)
    requires out != [] && Ascending(out) && forall i | 0 <= i < |out| :: out[i].values != []
    ensures Hashed(quote, Entries(out)) + "}}" == "{" + Objects(quote, out) + "}"
  {
    hide Hashed;
    hide Objects;
    hide Entries;
    hide Ascending;
    ObjectsAreHashed(quote, out);
    assert "}}" == "}" + "}";
    Grouped(Hashed(quote, Entries(out)), "}", "}");
  }

  lemma {:induction false} ObjectsAreHashed(quote: string -> string, out: seq<Section>)
    requires out != [] && Ascending(out) && forall i | 0 <= i < |out| :: out[i].values != []
    ensures Hashed(quote, Entries(out)) + "}" == "{" + Objects(quote, out)
    ensures LastSection(Entries(out)) == Some(out[|out| - 1].name)
    decreases |out|
  {
    hide Hashed;
    hide SectionEntries;
    hide Pairs;
    var n := |out| - 1;
    var last := out[n];
    var before := Entries(out[..n]);
    var h := Hashed(quote, before);
    var open := "\"" + last.name + "\":{" + Pairs(quote, last.values);
    assert Entries(out) == before + SectionEntries(last.name, last.values);
    if n == 0 {
      assert before == [];
      NothingHashed(quote);
      SectionIsHashed(quote, before, last.name, last.values);
      assert Objects(quote, out) == "" + ("" + Object(quote, last)) == Object(quote, last) == open + "}";
      Grouped("{", open, "}");
      assert "" + open == open;
    } else {
      ObjectsAreHashed(quote, out[..n]);
      NamesDiffer(out);
      SectionIsHashed(quote, before, last.name, last.values);
      assert Object(quote, last) == open + "}";
      hide Objects;
      hide Object;
      assert Objects(quote, out) == Objects(quote, out[..n]) + ("," + Object(quote, last)) by {
        OneMoreObject(quote, out);
      }
      Closing(h, open, Objects(quote, out[..n]));
    }
  }

  lemma OneMoreObject(quote: string -> string, out: seq<Section>)
    requires |out| > 1
    ensures Objects(quote, out) == Objects(quote, out[..|out| - 1]) + ("," + Object(quote, out[|out| - 1]))
  {
  }

  lemma Closing(h: string, open: string, objects: string)
    requires h + "}" == "{" + objects
    ensures h + ("}," + open) + "}" == "{" + (objects + ("," + (open + "}")))
  {
    assert "}," == "}" + ",";
    Grouped("}", ",", open);
    Grouped(h, "}", "," + open);
    Grouped(h + "}", "," + open, "}");
    Grouped(",", open, "}");
    Grouped("{", objects, "," + (open + "}"));
  }

  lemma NothingHashed(quote: string -> string)
    ensures Hashed(quote, []) == "{"
  {
  }

  lemma NamesDiffer(out: seq<Section>)
    requires Ascending(out) && |out| > 1
    ensures out[|out| - 2].name != out[|out| - 1].name
  {
    StringOrder.LessIrreflexive(out[|out| - 1].name);
  }

  // ----- The stream leaves nothing out -----

  /** A reader outside or inside of strings, and how many braces and brackets are open. */
  datatype Place = Place(q: Quoting, depth: int)

  const OPEN := Place(Outside, 0)

  function Move(p: Place, c: char): Place {
    Place(Next(p.q, c),
          if p.q != Outside then p.depth
          else if c == '{' || c == '[' then p.depth + 1
          else if c == '}' || c == ']' then p.depth - 1 else p.depth)
  }

  /** Where reading the first `n` characters ends. */
  function PlaceAt(t: string, n: nat): Place
    requires n <= |t|
  {
    if n == 0 then OPEN else Move(PlaceAt(t, n - 1), t[n - 1])
  }

  /** A value that ends where it began, with no comma or closing brace that is not inside of it. */
  ghost predicate Closed(v: string) {
    && PlaceAt(v, |v|) == OPEN
    && forall j | 0 <= j < |v| && PlaceAt(v, j) == OPEN :: v[j] != ',' && v[j] != '}'
  }

  lemma PlaceStep(t: string, n: nat)
    requires n < |t|
    ensures PlaceAt(t, n + 1) == Move(PlaceAt(t, n), t[n])
  {
  }

  lemma {:induction false} SamePlace(s: string, t: string, n: nat)
    requires n <= |s| && n <= |t| && s[..n] == t[..n]
    ensures PlaceAt(s, n) == PlaceAt(t, n)
    decreases n
  {
    if n > 0 {
      assert s[..n - 1] == s[..n][..n - 1] && t[..n - 1] == t[..n][..n - 1];
      assert s[..n][n - 1] == s[n - 1] && t[..n][n - 1] == t[n - 1];
      SamePlace(s, t, n - 1);
    }
  }

  /** Where a closed value ends inside of another one, the next character is not inside of anything. */
  lemma NextInLonger(v: string, r: string, v': string, r': string)
    requires v + r == v' + r' && PlaceAt(v, |v|) == OPEN && |v| < |v'| && r != ""
    ensures PlaceAt(v', |v|) == OPEN && v'[|v|] == r[0]
  {
    var n := |v|;
    assert v[..n] == (v + r)[..n] && v'[..n] == (v' + r')[..n];
    SamePlace(v, v', n);
    assert v'[n] == (v' + r')[n] == (v + r)[n] == r[0];
  }

  /** Where a closed value is followed by a comma or a brace it is known where it ends. */
  lemma ValueEnds(v: string, r: string, v': string, r': string)
    requires v + r == v' + r' && Closed(v) && Closed(v') && r != "" && r' != ""
    requires (r[0] == ',' || r[0] == '}') && (r'[0] == ',' || r'[0] == '}')
    ensures v == v' && r == r'
  {
    if |v| < |v'| {
      NextInLonger(v, r, v', r');
      assert false;
    } else if |v'| < |v| {
      NextInLonger(v', r', v, r);
      assert false;
    }
    assert v == (v + r)[..|v|] && v' == (v' + r')[..|v|];
    assert r == (v + r)[|v|..] && r' == (v' + r')[|v|..];
  }

  /** The stream from an entry on, after section `last`. */
  function Stream(last: Option<string>, es: seq<Entry>): string
    decreases |es|
  {
    if es == [] then "}}" else EntryHashed(JsonCodec.Quote, last, es[0]) + Stream(Some(es[0].section), es[1..])
  }

  lemma {:induction false} StreamFrom(es: seq<Entry>, n: nat)
    requires n <= |es|
    ensures Hashed(JsonCodec.Quote, es) + "}}" == Hashed(JsonCodec.Quote, es[..n]) + Stream(LastSection(es[..n]), es[n..])
    decreases |es| - n
  {
    hide Hashed;
    hide EntryHashed;
    if n == |es| {
      assert es[..n] == es && es[n..] == [];
    } else {
      StreamFrom(es, n + 1);
      assert es[..n + 1] == es[..n] + [es[n]] && es[n..][1..] == es[n + 1..] && es[n..][0] == es[n];
      Extended(JsonCodec.Quote, es[..n], es[n]);
      Grouped(Hashed(JsonCodec.Quote, es[..n]), EntryHashed(JsonCodec.Quote, LastSection(es[..n]), es[n]),
              Stream(Some(es[n].section), es[n + 1..]));
    }
  }

  /** The section has no quotation mark and the value is closed. */
  ghost predicate Orderly(e: Entry) {
    '"' !in e.section && Closed(e.value)
  }

  lemma StreamBegins(last: Option<string>, es: seq<Entry>)
    ensures var s := Stream(last, es);
            && |s| > 1
            && (last.Some? ==> s[0] == ',' || s[0] == '}')
            && (last.Some? && s[0] == '}' ==> s[1] == if es == [] then '}' else ',')
            && (last.Some? && s[0] == ',' ==> es != [] && es[0].section == last.value)
            && (last.Some? && es != [] && es[0].section == last.value ==> s[0] == ',')
            && (last == None ==> s[0] == if es == [] then '}' else '"')
  {
    if es != [] {
      EntryIsHashed(JsonCodec.Quote, last, es[0]);
    }
  }

  /** A key in quotation marks is known from what follows. */
  lemma KeyEnds(k: string, r: string, k': string, r': string)
    requires JsonCodec.Quote(k) + r == JsonCodec.Quote(k') + r'
    ensures k == k' && r == r'
  {
    hide JsonCodec.Escaped;
    hide JsonCodec.ReadChars;
    var t := JsonCodec.Quote(k) + r;
    QuotedIsRead(k, r);
    QuotedIsRead(k', r');
    assert r == t[|JsonCodec.Quote(k)|..] && r' == t[|JsonCodec.Quote(k')|..];
  }

  lemma QuotedIsRead(k: string, r: string)
    ensures JsonCodec.ReadChars(JsonCodec.Quote(k) + r, 1) == Some((k, |JsonCodec.Quote(k)|))
  {
    hide JsonCodec.Escaped;
    hide JsonCodec.ReadChars;
    var t := JsonCodec.Quote(k) + r;
    var rest := JsonCodec.Escaped(k) + "\"";
    assert JsonCodec.Quote(k) == "\"" + rest;
    assert forall i | 0 <= i < |rest| :: t[1 + i] == JsonCodec.Quote(k)[1 + i] == rest[i];
    JsonCodec.CharsAreRead(t, 1, k);
  }

  /** So is a section name. */
  lemma NameEnds(a: string, r: string, b: string, r': string)
    requires a + ("\"" + r) == b + ("\"" + r') && '"' !in a && '"' !in b
    ensures a == b && r == r'
  {
    var t := a + ("\"" + r);
    assert t[|a|] == '"' && t[|b|] == '"';
    assert forall i | 0 <= i < |a| :: t[i] == a[i] && a[i] in a;
    assert forall i | 0 <= i < |b| :: t[i] == b[i] && b[i] in b;
    assert |a| == |b|;
    assert a == t[..|a|] && b == t[..|b|];
    assert r == t[|a| + 1..] && r' == t[|b| + 1..];
  }

  /** Pair and rest are known from each other's beginning. */
  lemma PairEnds(e: Entry, r: string, e': Entry, r': string)
    requires Closed(e.value) && Closed(e'.value) && r != "" && r' != ""
    requires (r[0] == ',' || r[0] == '}') && (r'[0] == ',' || r'[0] == '}')
    requires Pair(JsonCodec.Quote, (e.key, e.value)) + r == Pair(JsonCodec.Quote, (e'.key, e'.value)) + r'
    ensures e.key == e'.key && e.value == e'.value && r == r'
  {
    hide Closed;
    hide JsonCodec.Quote;
    var q, q' := JsonCodec.Quote(e.key), JsonCodec.Quote(e'.key);
    assert q + ":" + e.value + r == q + (":" + (e.value + r));
    assert q' + ":" + e'.value + r' == q' + (":" + (e'.value + r'));
    KeyEnds(e.key, ":" + (e.value + r), e'.key, ":" + (e'.value + r'));
    assert e.value + r == (":" + (e.value + r))[1..] && e'.value + r' == (":" + (e'.value + r'))[1..];
    ValueEnds(e.value, r, e'.value, r');
  }

  /** With their section in front. */
  lemma HeadedPairEnds(e: Entry, r: string, e': Entry, r': string)
    requires Orderly(e) && Orderly(e') && r != "" && r' != ""
    requires (r[0] == ',' || r[0] == '}') && (r'[0] == ',' || r'[0] == '}')
    requires var p, p' := Pair(JsonCodec.Quote, (e.key, e.value)), Pair(JsonCodec.Quote, (e'.key, e'.value));
             "\"" + e.section + "\":{" + p + r == "\"" + e'.section + "\":{" + p' + r'
    ensures e == e' && r == r'
  {
    hide Closed;
    hide Pair;
    var p, p' := Pair(JsonCodec.Quote, (e.key, e.value)), Pair(JsonCodec.Quote, (e'.key, e'.value));
    assert "\"" + e.section + "\":{" + p + r == "\"" + (e.section + ("\"" + (":{" + (p + r))));
    assert "\"" + e'.section + "\":{" + p' + r' == "\"" + (e'.section + ("\"" + (":{" + (p' + r'))));
    assert e.section + ("\"" + (":{" + (p + r))) == ("\"" + (e.section + ("\"" + (":{" + (p + r)))))[1..];
    assert e'.section + ("\"" + (":{" + (p' + r'))) == ("\"" + (e'.section + ("\"" + (":{" + (p' + r')))))[1..];
    NameEnds(e.section, ":{" + (p + r), e'.section, ":{" + (p' + r'));
    assert p + r == (":{" + (p + r))[2..] && p' + r' == (":{" + (p' + r'))[2..];
    PairEnds(e, r, e', r');
  }

  /** An entry and what follows it are known from the stream. */
  lemma EntryEnds(last: Option<string>, e: Entry, r: string, e': Entry, r': string)
    requires Orderly(e) && Orderly(e') && r != "" && r' != ""
    requires (r[0] == ',' || r[0] == '}') && (r'[0] == ',' || r'[0] == '}')
    requires last.Some? ==> (last.value == e.section <==> last.value == e'.section)
    requires EntryHashed(JsonCodec.Quote, last, e) + r == EntryHashed(JsonCodec.Quote, last, e') + r'
    ensures e == e' && r == r'
  {
    hide Orderly;
    hide Pair;
    EntryIsHashed(JsonCodec.Quote, last, e);
    EntryIsHashed(JsonCodec.Quote, last, e');
    hide EntryHashed;
    var p, p' := Pair(JsonCodec.Quote, (e.key, e.value)), Pair(JsonCodec.Quote, (e'.key, e'.value));
    if last == Some(e.section) {
      assert p + r == ("," + p + r)[1..] && p' + r' == ("," + p' + r')[1..];
      assert Closed(e.value) && Closed(e'.value) by {
        OrderlyIsClosed(e);
        OrderlyIsClosed(e');
      }
      PairEnds(e, r, e', r');
    } else {
      var h, h' := "\"" + e.section + "\":{" + p, "\"" + e'.section + "\":{" + p';
      if last.Some? {
        assert h + r == ("}," + h + r)[2..] && h' + r' == ("}," + h' + r')[2..];
      }
      HeadedPairEnds(e, r, e', r');
    }
  }

  lemma OrderlyIsClosed(e: Entry)
    requires Orderly(e)
    ensures Closed(e.value)
  {
  }

  lemma {:induction false} StreamDetermines(last: Option<string>, es: seq<Entry>, fs: seq<Entry>)
    requires (forall i | 0 <= i < |es| :: Orderly(es[i])) && (forall i | 0 <= i < |fs| :: Orderly(fs[i]))
    requires Stream(last, es) == Stream(last, fs)
    ensures es == fs
    decreases |es|
  {
    hide Orderly;
    hide EntryHashed;
    StreamBegins(last, es);
    StreamBegins(last, fs);
    if es != [] && fs != [] {
      var next, next' := Some(es[0].section), Some(fs[0].section);
      StreamBegins(next, es[1..]);
      StreamBegins(next', fs[1..]);
      EntryEnds(last, es[0], Stream(next, es[1..]), fs[0], Stream(next', fs[1..]));
      StreamDetermines(next, es[1..], fs[1..]);
      assert es == [es[0]] + es[1..] && fs == [fs[0]] + fs[1..];
    }
  }

  /** Two files with orderly entries have the same hashed stream exactly when they have the same entries: whatever is changed,
      added, left out or moved changes what is hashed. */
  lemma SameStreamExactlyWhen(es: seq<Entry>, fs: seq<Entry>)
    requires (forall i | 0 <= i < |es| :: Orderly(es[i])) && (forall i | 0 <= i < |fs| :: Orderly(fs[i]))
    ensures Hashed(JsonCodec.Quote, es) + "}}" == Hashed(JsonCodec.Quote, fs) + "}}" <==> es == fs
  {
    hide Orderly;
    if Hashed(JsonCodec.Quote, es) + "}}" == Hashed(JsonCodec.Quote, fs) + "}}" {
      StreamFrom(es, 0);
      StreamFrom(fs, 0);
      assert es[..0] == [] && es[0..] == es && fs[..0] == [] && fs[0..] == fs;
      NothingHashed(JsonCodec.Quote);
      hide Hashed;
      hide Stream;
      assert Stream(None, es) == ("{" + Stream(None, es))[1..] && Stream(None, fs) == ("{" + Stream(None, fs))[1..];
      StreamDetermines(None, es, fs);
    }
  }

  // ----- JSON values are closed -----

  /** From `i` to `j` a reader at depth `d` is never less deep, ends as it began, and meets no comma or closing brace at that
      depth. */
  ghost predicate Inner(t: string, i: nat, j: nat, d: int) {
    && i <= j <= |t| && PlaceAt(t, i) == Place(Outside, d) == PlaceAt(t, j)
    && forall k | i <= k < j ::
         PlaceAt(t, k).depth >= d && (PlaceAt(t, k) == Place(Outside, d) ==> t[k] != ',' && t[k] != '}')
  }

  /** Characters that neither open nor close anything. */
  predicate Level(c: char) {
    c != '"' && c != '=' && c != '\\' && c != '{' && c != '}' && c != '[' && c != ']' && c != ','
  }

  lemma {:induction false} LevelIsInner(t: string, i: nat, j: nat, d: int)
    requires i <= j <= |t| && PlaceAt(t, i) == Place(Outside, d) && forall k | i <= k < j :: Level(t[k])
    ensures Inner(t, i, j, d)
    decreases j - i
  {
    if i < j {
      LevelIsInner(t, i, j - 1, d);
    }
  }

  lemma InnerJoin(t: string, i: nat, j: nat, k: nat, d: int)
    requires Inner(t, i, j, d) && Inner(t, j, k, d)
    ensures Inner(t, i, k, d)
  {
  }

  lemma WhiteIsInner(t: string, i: nat, d: int)
    requires i <= |t| && PlaceAt(t, i) == Place(Outside, d)
    ensures Inner(t, i, SkipWhite(t, i), d)
  {
    WhiteIsPlain(t, i);
    LevelIsInner(t, i, SkipWhite(t, i), d);
  }

  /** The characters of a string stay at the depth of its quotation marks. */
  lemma {:induction false} CharsStay(t: string, i: nat, d: int)
    requires i <= |t| && Chars(t, i).Some? && PlaceAt(t, i) == Place(Inside, d)
    ensures var j := Chars(t, i).value;
            PlaceAt(t, j) == Place(Outside, d) && forall k | i <= k < j :: PlaceAt(t, k).depth == d && PlaceAt(t, k).q != Outside
    decreases |t| - i
  {
    if t[i] == '"' {
      assert PlaceAt(t, i + 1) == Place(Outside, d);
    } else if t[i] == '\\' {
      assert PlaceAt(t, i + 1) == Place(JsonText.Escaped, d) && PlaceAt(t, i + 2) == Place(Inside, d);
      if IsEscape(t[i + 1]) {
        CharsStay(t, i + 2, d);
      } else {
        assert PlaceAt(t, i + 3) == Place(Inside, d) && PlaceAt(t, i + 4) == Place(Inside, d);
        assert PlaceAt(t, i + 5) == Place(Inside, d) && PlaceAt(t, i + 6) == Place(Inside, d);
        CharsStay(t, i + 6, d);
      }
    } else {
      assert PlaceAt(t, i + 1) == Place(Inside, d);
      CharsStay(t, i + 1, d);
    }
  }

  lemma StringIsInner(t: string, i: nat, d: int)
    requires i < |t| && t[i] == '"' && Chars(t, i + 1).Some? && PlaceAt(t, i) == Place(Outside, d)
    ensures Inner(t, i, Chars(t, i + 1).value, d)
  {
    hide PlaceAt;
    PlaceStep(t, i);
    CharsStay(t, i + 1, d);
  }

  /** What is between two braces or brackets. */
  lemma Enclosed(t: string, i: nat, j: nat, d: int)
    requires i + 1 <= j < |t| && PlaceAt(t, i) == Place(Outside, d) && (t[i] == '{' || t[i] == '[')
    requires PlaceAt(t, j) == Place(Outside, d + 1) && (t[j] == '}' || t[j] == ']')
    requires forall k | i + 1 <= k < j :: PlaceAt(t, k).depth >= d + 1
    ensures Inner(t, i, j + 1, d)
  {
    hide PlaceAt;
    PlaceStep(t, j);
  }

  lemma ScalarIsInner(t: string, i: nat, d: int)
    requires i < |t| && t[i] != '"' && t[i] != '{' && t[i] != '[' && Value(t, i).Some? && PlaceAt(t, i) == Place(Outside, d)
    ensures Inner(t, i, Value(t, i).value, d)
  {
    var j := Value(t, i).value;
    forall k | i <= k < j
      ensures Level(t[k])
    {
      ScalarIsLevel(t, i, k);
    }
    LevelIsInner(t, i, j, d);
  }

  lemma ScalarIsLevel(t: string, i: nat, k: nat)
    requires i < |t| && t[i] != '"' && t[i] != '{' && t[i] != '[' && Value(t, i).Some? && i <= k < Value(t, i).value
    ensures Level(t[k])
  {
    if t[i] == 't' {
      WordIsLevel(t, i, "true", k);
    } else if t[i] == 'f' {
      WordIsLevel(t, i, "false", k);
    } else if t[i] == 'n' {
      WordIsLevel(t, i, "null", k);
    } else {
      NumberIsLevel(t, i, k);
    }
  }

  lemma WordIsLevel(t: string, i: nat, word: string, k: nat)
    requires i <= |t| && Literal(t, i, word).Some? && i <= k < i + |word|
    requires word == "true" || word == "false" || word == "null"
    ensures Level(t[k])
  {
    assert t[k] == t[i..i + |word|][k - i] == word[k - i];
  }

  lemma DigitsAreLevel(t: string, i: nat)
    requires i <= |t|
    ensures forall k | i <= k < SkipDigits(t, i) :: Level(t[k])
  {
    DigitsArePlain(t, i);
  }

  lemma NumberIsLevel(t: string, i: nat, k: nat)
    requires i <= |t| && Number(t, i).Some? && i <= k < Number(t, i).value
    ensures Level(t[k])
  {
    hide SkipDigits;
    var i1 := if At(t, i, '-') then i + 1 else i;
    DigitsAreLevel(t, i1);
    var j := Int(t, i1).value;
    if At(t, j, '.') {
      DigitsAreLevel(t, j + 1);
    }
    var l := Frac(t, j).value;
    if At(t, l, 'e') || At(t, l, 'E') {
      DigitsAreLevel(t, if At(t, l + 1, '+') || At(t, l + 1, '-') then l + 2 else l + 1);
    }
  }

  lemma {:induction false} ValueIsInner(t: string, i: nat, d: int)
    requires i <= |t| && Value(t, i).Some? && PlaceAt(t, i) == Place(Outside, d)
    ensures Inner(t, i, Value(t, i).value, d)
    decreases |t| - i, 1
  {
    hide Inner;
    hide PlaceAt;
    if t[i] == '"' {
      StringIsInner(t, i, d);
    } else if t[i] == '{' || t[i] == '[' {
      ContainerIsInner(t, i, d);
    } else {
      ScalarIsInner(t, i, d);
    }
  }

  lemma {:induction false} ContainerIsInner(t: string, i: nat, d: int)
    requires i < |t| && (t[i] == '{' || t[i] == '[') && Value(t, i).Some? && PlaceAt(t, i) == Place(Outside, d)
    ensures Inner(t, i, Value(t, i).value, d)
    decreases |t| - i, 0
  {
    hide SkipWhite;
    hide PlaceAt;
    hide Inner;
    hide Members;
    hide Elements;
    PlaceStep(t, i);
    var j := SkipWhite(t, i + 1);
    WhiteIsInner(t, i + 1, d + 1);
    InnerEnds(t, i + 1, j, d + 1);
    if At(t, j, if t[i] == '{' then '}' else ']') {
      Enclosed(t, i, j, d);
    } else {
      if t[i] == '{' {
        MembersAreInner(t, j, d + 1);
      } else {
        ElementsAreInner(t, j, d + 1);
      }
      Enclosed(t, i, Value(t, i).value - 1, d);
    }
  }

  lemma NameIsInner(t: string, i: nat, d: int)
    requires i <= |t| && Name(t, i).Some? && PlaceAt(t, i) == Place(Outside, d)
    ensures Inner(t, i, Name(t, i).value, d)
  {
    hide SkipWhite;
    hide Inner;
    hide PlaceAt;
    StringIsInner(t, i, d);
    var j := Chars(t, i + 1).value;
    assert PlaceAt(t, j) == Place(Outside, d) by {
      InnerEnds(t, i, j, d);
    }
    WhiteIsInner(t, j, d);
    var k := SkipWhite(t, j);
    InnerJoin(t, i, j, k, d);
    InnerEnds(t, i, k, d);
    LevelIsInner(t, k, k + 1, d);
    InnerJoin(t, i, k, k + 1, d);
    InnerEnds(t, i, k + 1, d);
    WhiteIsInner(t, k + 1, d);
    InnerJoin(t, i, k + 1, SkipWhite(t, k + 1), d);
  }

  lemma InnerEnds(t: string, i: nat, j: nat, d: int)
    requires Inner(t, i, j, d)
    ensures i <= j <= |t| && PlaceAt(t, j) == Place(Outside, d)
    ensures forall k | i <= k < j :: PlaceAt(t, k).depth >= d
  {
  }

  /** Members up to the closing brace are never less deep than the first of them. */
  ghost predicate Upto(t: string, i: nat, j: nat, d: int) {
    i < j <= |t| && PlaceAt(t, j - 1) == Place(Outside, d) && forall k | i <= k < j :: PlaceAt(t, k).depth >= d
  }

  lemma {:induction false} MembersAreInner(t: string, i: nat, d: int)
    requires i <= |t| && Members(t, i).Some? && PlaceAt(t, i) == Place(Outside, d)
    ensures Upto(t, i, Members(t, i).value, d) && t[Members(t, i).value - 1] == '}'
    decreases |t| - i, 2
  {
    hide SkipWhite;
    hide Inner;
    hide PlaceAt;
    hide Name;
    hide Value;
    NameIsInner(t, i, d);
    var j := Name(t, i).value;
    InnerEnds(t, i, j, d);
    ValueIsInner(t, j, d);
    var k := Value(t, j).value;
    InnerEnds(t, j, k, d);
    WhiteIsInner(t, k, d);
    var l := SkipWhite(t, k);
    InnerEnds(t, k, l, d);
    if !At(t, l, '}') {
      PlaceStep(t, l);
      WhiteIsInner(t, l + 1, d);
      InnerEnds(t, l + 1, SkipWhite(t, l + 1), d);
      MembersAreInner(t, SkipWhite(t, l + 1), d);
    }
  }

  lemma {:induction false} ElementsAreInner(t: string, i: nat, d: int)
    requires i <= |t| && Elements(t, i).Some? && PlaceAt(t, i) == Place(Outside, d)
    ensures Upto(t, i, Elements(t, i).value, d) && t[Elements(t, i).value - 1] == ']'
    decreases |t| - i, 2
  {
    hide SkipWhite;
    hide Inner;
    hide PlaceAt;
    hide Value;
    ValueIsInner(t, i, d);
    var k := Value(t, i).value;
    InnerEnds(t, i, k, d);
    WhiteIsInner(t, k, d);
    var l := SkipWhite(t, k);
    InnerEnds(t, k, l, d);
    if !At(t, l, ']') {
      PlaceStep(t, l);
      WhiteIsInner(t, l + 1, d);
      InnerEnds(t, l + 1, SkipWhite(t, l + 1), d);
      ElementsAreInner(t, SkipWhite(t, l + 1), d);
    }
  }

  /** Every JSON value of RFC 8259 is closed. */
  lemma JsonIsClosed(v: string)
    requires IsJson(v)
    ensures Closed(v)
  {
    hide Value;
    hide SkipWhite;
    var i := SkipWhite(v, 0);
    WhiteIsInner(v, 0, 0);
    ValueIsInner(v, i, 0);
    var j := Value(v, i).value;
    WhiteIsInner(v, j, 0);
    InnerJoin(v, 0, i, j, 0);
    InnerJoin(v, 0, j, |v|, 0);
  }

  // ----- What the checksum protects -----

  /** A file that carries the checksum of other entries loads only if the hash of two different streams is the same. */
  lemma ChecksumProtects(sha1: Hash, es: seq<Entry>, fs: seq<Entry>)
    requires (forall i | 0 <= i < |es| :: Orderly(es[i])) && (forall i | 0 <= i < |fs| :: Orderly(fs[i])) && es != fs
    requires AllSavable(JsonCodec.JSON, fs) && FirstProblem(JsonCodec.JSON, fs) == None
    ensures var s, t := Hashed(JsonCodec.Quote, es) + "}}", Hashed(JsonCodec.Quote, fs) + "}}";
            && s != t
            && (Loaded(JsonCodec.JSON, sha1, FileWith(JsonCodec.JSON, fs, sha1(s))).Ok? <==> sha1(s) == sha1(t))
  {
    hide Orderly;
    hide Hashed;
    hide Loaded;
    hide FileWith;
    hide AllSavable;
    JsonCodec.JsonIsTrusted();
    SameStreamExactlyWhen(es, fs);
    LoadsExactlyWhen(JsonCodec.JSON, sha1, fs, sha1(Hashed(JsonCodec.Quote, es) + "}}"));
  }

  /** Section names are not escaped in the stream, so one with quotation marks stands for two sections. */
  lemma QuotesHideEntries(quote: string -> string, a: Entry, b: Entry)
    requires a.section != b.section
    ensures Hashed(quote, [a, b]) == Hashed(quote, [Entry(HidingName(quote, a, b.section), b.key, b.value)])
  {
    hide Hashed;
    hide EntryHashed;
    hide HidingName;
    var e := Entry(HidingName(quote, a, b.section), b.key, b.value);
    OneHashed(quote, a);
    OneHashed(quote, e);
    NextHashed(quote, a, b);
    HeadsMeet(quote, a, b);
    Grouped(Hashed(quote, []), EntryHashed(quote, None, a), EntryHashed(quote, Some(a.section), b));
  }

  lemma OneHashed(quote: string -> string, e: Entry)
    ensures Hashed(quote, [e]) == Hashed(quote, []) + EntryHashed(quote, None, e)
  {
    hide Hashed;
    hide EntryHashed;
    assert [e] == [] + [e];
    Extended(quote, [], e);
  }

  lemma NextHashed(quote: string -> string, a: Entry, b: Entry)
    ensures Hashed(quote, [a, b]) == Hashed(quote, [a]) + EntryHashed(quote, Some(a.section), b)
  {
    hide Hashed;
    hide EntryHashed;
    assert [a, b] == [a] + [b];
    Extended(quote, [a], b);
  }

  /** A name that has the text of an entry in it, up to the name of the next section. */
  function HidingName(quote: string -> string, a: Entry, name: string): string {
    a.section + ("\":{" + quote(a.key) + ":" + a.value + "},\"") + name
  }

  lemma HeadsMeet(quote: string -> string, a: Entry, b: Entry)
    requires a.section != b.section
    ensures EntryHashed(quote, None, Entry(HidingName(quote, a, b.section), b.key, b.value))
         == EntryHashed(quote, None, a) + EntryHashed(quote, Some(a.section), b)
  {
    var own, last := "\":{" + quote(a.key) + ":" + a.value, "\":{" + quote(b.key) + ":" + b.value;
    assert EntryHashed(quote, None, a) == "\"" + a.section + own;
    assert EntryHashed(quote, Some(a.section), b) == "},\"" + b.section + last;
    assert EntryHashed(quote, None, Entry(HidingName(quote, a, b.section), b.key, b.value))
        == "\"" + (a.section + (own + "},\"") + b.section) + last;
    hide EntryHashed;
    hide HidingName;
    Regrouped("\"", a.section, own, "},\"", b.section, last);
  }

  lemma Regrouped(a: string, b: string, c: string, d: string, e: string, f: string)
    ensures a + (b + (c + d) + e) + f == a + b + c + (d + e + f)
  {
    assert b + (c + d) + e == b + c + d + e;
  }
}
