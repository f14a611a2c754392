/** The list of backups in backup.info: deletion and what depends on a backup. */
module BackupList {
  import opened Wrappers

  type Label = string

  datatype Backup = Backup(name: Label, prior: Option<Label>)

  // ----- Deletion -----

  /** What the delete loop leaves. After a removal the entry that moved into the gap is not looked at. */
  function Deleted(bs: seq<Backup>, name: Label): seq<Backup> {
    if bs == [] then []
    else if bs[0].name != name then [bs[0]] + Deleted(bs[1..], name)
    else if |bs| == 1 then []
    else [bs[1]] + Deleted(bs[2..], name)
  }

  /** The list without the entries of that label. */
  function Without(bs: seq<Backup>, name: Label): (r: seq<Backup>)
    ensures forall b :: b in r <==> b in bs && b.name != name
  {
    if bs == [] then []
    else (if bs[0].name != name then [bs[0]] else []) + Without(bs[1..], name)
  }

  predicate NoTwoInARow(bs: seq<Backup>, name: Label) {
    forall i | 0 <= i < |bs| - 1 :: bs[i].name == name ==> bs[i + 1].name != name
  }

  lemma SameAfterFirst(b: Backup, s: seq<Backup>, t: seq<Backup>)
    ensures [b] + s == [b] + t <==> s == t
  {
    assert ([b] + s)[1..] == s && ([b] + t)[1..] == t;
  }

  lemma NoTwoFrom(bs: seq<Backup>, name: Label, n: nat)
    requires 0 < n <= |bs| && n <= 2 && bs[n - 1].name != name
    ensures NoTwoInARow(bs, name) <==> NoTwoInARow(bs[n..], name)
  {
  }

  /** Deletion removes every entry of the label exactly when no two of them are neighbours. */
  lemma {:induction false} DeletesAllExactlyWhen(bs: seq<Backup>, name: Label)
    ensures Deleted(bs, name) == Without(bs, name) <==> NoTwoInARow(bs, name)
    ensures |Deleted(bs, name)| >= |Without(bs, name)|
  {
    if bs == [] {
    } else if bs[0].name != name {
      DeletesAllExactlyWhen(bs[1..], name);
      SameAfterFirst(bs[0], Deleted(bs[1..], name), Without(bs[1..], name));
      NoTwoFrom(bs, name, 1);
    } else if |bs| > 1 {
      DeletesAllExactlyWhen(bs[2..], name);
      assert bs[1..][1..] == bs[2..] && bs[1..][0] == bs[1];
      if bs[1].name != name {
        SameAfterFirst(bs[1], Deleted(bs[2..], name), Without(bs[2..], name));
        NoTwoFrom(bs, name, 2);
      } else {
        assert bs[0].name == name && bs[0 + 1].name == name;
        assert |Without(bs, name)| == |Without(bs[2..], name)|;
      }
    }
  }

  predicate Unique(bs: seq<Backup>) {
    forall i, j | 0 <= i < j < |bs| :: bs[i].name != bs[j].name
  }

  predicate Exists(bs: seq<Backup>, name: Label) {
    exists i | 0 <= i < |bs| :: bs[i].name == name
  }

  // ----- Dependents -----

  /** `to` depends on `from` through `n` priors. */
  ghost predicate DependsIn(bs: seq<Backup>, from: Label, to: Label, n: nat)
    decreases n
  {
    if n == 0 then from == to
    else exists i | 0 <= i < |bs| :: bs[i].name == to && bs[i].prior.Some? && DependsIn(bs, from, bs[i].prior.value, n - 1)
  }

  /** The reflexive and transitive closure of "has as prior". */
  ghost predicate Depends(bs: seq<Backup>, from: Label, to: Label) {
    exists n: nat :: DependsIn(bs, from, to, n)
  }

  /** No entry comes before the entry of its prior. */
  predicate PriorsFirst(bs: seq<Backup>) {
    forall i, j | 0 <= i < |bs| && 0 <= j < |bs| && bs[j].prior == Some(bs[i].name) :: i < j
  }

  lemma DependsStep(bs: seq<Backup>, from: Label, b: Backup)
    requires b in bs && b.prior.Some? && Depends(bs, from, b.prior.value)
    ensures Depends(bs, from, b.name)
  {
    var n: nat :| DependsIn(bs, from, b.prior.value, n);
    var i :| 0 <= i < |bs| && bs[i] == b;
    assert DependsIn(bs, from, b.name, n + 1);
  }

  lemma DependsSelf(bs: seq<Backup>, name: Label)
    ensures Depends(bs, name, name)
  {
    assert DependsIn(bs, name, name, 0);
  }

  lemma {:induction false} DependsInMore(bs: seq<Backup>, more: seq<Backup>, from: Label, to: Label, n: nat)
    requires DependsIn(bs, from, to, n) && forall b | b in bs :: b in more
    ensures DependsIn(more, from, to, n)
    decreases n
  {
    if n > 0 {
      var i :| 0 <= i < |bs| && bs[i].name == to && bs[i].prior.Some? && DependsIn(bs, from, bs[i].prior.value, n - 1);
      DependsInMore(bs, more, from, bs[i].prior.value, n - 1);
      assert bs[i] in more;
      var j :| 0 <= j < |more| && more[j] == bs[i];
    }
  }

  lemma DependsMore(bs: seq<Backup>, more: seq<Backup>, from: Label, to: Label)
    requires Depends(bs, from, to) && forall b | b in bs :: b in more
    ensures Depends(more, from, to)
  {
    var n: nat :| DependsIn(bs, from, to, n);
    DependsInMore(bs, more, from, to, n);
  }

  /** What one more entry adds to the closure: at most itself, because nothing before it has it as prior. */
  lemma {:induction false} DependsInLast(bs: seq<Backup>, b: Backup, from: Label, to: Label, n: nat)
    requires PriorsFirst(bs + [b]) && DependsIn(bs + [b], from, to, n)
    ensures Depends(bs, from, to) || (to == b.name && b.prior.Some? && Depends(bs, from, b.prior.value))
    decreases n
  {
    if n == 0 {
      DependsSelf(bs, from);
    } else {
      var longer := bs + [b];
      var i :| 0 <= i < |longer| && longer[i].name == to && longer[i].prior.Some? &&
               DependsIn(longer, from, longer[i].prior.value, n - 1);
      var prior := longer[i].prior.value;
      DependsInLast(bs, b, from, prior, n - 1);
      assert longer[|bs|] == b;
      assert prior != b.name;
      if i < |bs| {
        DependsStep(bs, from, bs[i]);
      }
    }
  }

  lemma DependsLast(bs: seq<Backup>, b: Backup, from: Label, to: Label)
    requires PriorsFirst(bs + [b])
    ensures Depends(bs + [b], from, to) <==>
            Depends(bs, from, to) || (to == b.name && b.prior.Some? && Depends(bs, from, b.prior.value))
  {
    if Depends(bs + [b], from, to) {
      var n: nat :| DependsIn(bs + [b], from, to, n);
      DependsInLast(bs, b, from, to, n);
    }
    if Depends(bs, from, to) {
      DependsMore(bs, bs + [b], from, to);
    }
    if b.prior.Some? && Depends(bs, from, b.prior.value) {
      DependsMore(bs, bs + [b], from, b.prior.value);
      DependsStep(bs + [b], from, b);
    }
  }

  ghost predicate NoDuplicates(labels: seq<Label>) {
    forall i, j | 0 <= i < j < |labels| :: labels[i] != labels[j]
  }

  /** One pass over the list finds the label and what depends on it. Everything that depends on it is found, and each
      label once, when priors come before their dependents and labels are unique. */
  method DependentList(bs: seq<Backup>, name: Label) returns (labels: seq<Label>)
    ensures labels != [] && labels[0] == name
    ensures forall x | x in labels :: Depends(bs, name, x)
    ensures PriorsFirst(bs) ==> forall x | Depends(bs, name, x) :: x in labels
    ensures PriorsFirst(bs) && Unique(bs) ==> NoDuplicates(labels)
  {
    hide Depends;
    hide FromList;
    hide PriorsFirst;
    hide NoDuplicates;
    hide Unique;
    labels := [name];
    NothingDepends(name);
    OneLabel(bs, name);
    assert bs[..0] == [];
    var i := 0;
    while i < |bs|
      invariant 0 <= i <= |bs|
      invariant labels != [] && labels[0] == name
      invariant forall x | x in labels :: Depends(bs[..i], name, x)
      invariant PriorsFirst(bs) ==> forall x | Depends(bs[..i], name, x) :: x in labels
      invariant PriorsFirst(bs) && Unique(bs) ==> NoDuplicates(labels) && FromList(bs, i, name, labels)
    {
      var b := bs[i];
      ghost var before := labels;
      StillDepend(bs, i, name, labels);
      if PriorsFirst(bs) {
        OneMoreDepends(bs, i, name, labels);
      }
      if b.prior.Some? && b.prior.value in labels {
        if PriorsFirst(bs) && Unique(bs) {
          NotYetListed(bs, i, name, labels);
        }
        labels := labels + [b.name];
      }
      if PriorsFirst(bs) && Unique(bs) {
        StillFromList(bs, i, name, before, labels);
      }
      i := i + 1;
    }
    assert bs[..i] == bs;
  }

  lemma StillDepend(bs: seq<Backup>, i: nat, name: Label, labels: seq<Label>)
    requires i < |bs| && forall x | x in labels :: Depends(bs[..i], name, x)
    ensures forall x | x in labels :: Depends(bs[..i + 1], name, x)
    ensures bs[i].prior.Some? && bs[i].prior.value in labels ==> Depends(bs[..i + 1], name, bs[i].name)
  {
    hide Depends;
    assert bs[..i + 1] == bs[..i] + [bs[i]];
    forall x | x in labels
      ensures Depends(bs[..i + 1], name, x)
    {
      DependsMore(bs[..i], bs[..i + 1], name, x);
    }
    if bs[i].prior.Some? && bs[i].prior.value in labels {
      DependsStep(bs[..i + 1], name, bs[i]);
    }
  }

  lemma NothingDepends(name: Label)
    ensures forall x :: x in [name] <==> Depends([], name, x)
  {
    DependsSelf([], name);
    forall x | Depends([], name, x)
      ensures x == name
    {
      var n: nat :| DependsIn([], name, x, n);
    }
  }

  lemma PrefixPriorsFirst(bs: seq<Backup>, n: nat)
    requires n <= |bs| && PriorsFirst(bs)
    ensures PriorsFirst(bs[..n])
  {
  }

  /** All labels but the first are those of entries before `i` whose prior is listed. */
  ghost predicate FromList(bs: seq<Backup>, i: nat, name: Label, labels: seq<Label>)
    requires i <= |bs|
  {
    forall k | 1 <= k < |labels| :: Explained(bs, i, labels, k)
  }

  ghost predicate Explained(bs: seq<Backup>, i: nat, labels: seq<Label>, k: nat)
    requires i <= |bs| && k < |labels|
  {
    exists j | 0 <= j < i :: Explains(bs[j], labels, k)
  }

  /** The label at `k` is that of an entry whose prior is listed before. */
  predicate Explains(b: Backup, labels: seq<Label>, k: nat)
    requires k < |labels|
  {
    b.name == labels[k] && b.prior.Some? && b.prior.value in labels[..k]
  }

  lemma OneLabel(bs: seq<Backup>, name: Label)
    ensures NoDuplicates([name]) && FromList(bs, 0, name, [name])
  {
  }

  lemma OneMoreDepends(bs: seq<Backup>, i: nat, name: Label, labels: seq<Label>)
    requires i < |bs| && PriorsFirst(bs)
    requires forall x :: x in labels <==> Depends(bs[..i], name, x)
    ensures forall x :: Depends(bs[..i + 1], name, x) <==>
              x in labels || (x == bs[i].name && bs[i].prior.Some? && bs[i].prior.value in labels)
  {
    hide Depends;
    var b := bs[i];
    assert bs[..i] + [b] == bs[..i + 1];
    PrefixPriorsFirst(bs, i + 1);
    forall x
      ensures Depends(bs[..i + 1], name, x) <==>
              x in labels || (x == b.name && b.prior.Some? && b.prior.value in labels)
    {
      DependsLast(bs[..i], b, name, x);
    }
  }

  lemma StillFromList(bs: seq<Backup>, i: nat, name: Label, before: seq<Label>, labels: seq<Label>)
    requires i < |bs| && before != [] && FromList(bs, i, name, before) && NoDuplicates(before)
    requires labels == before ||
             (labels == before + [bs[i].name] && bs[i].prior.Some? && bs[i].prior.value in before && bs[i].name !in before)
    ensures FromList(bs, i + 1, name, labels) && NoDuplicates(labels)
  {
    var n := i + 1;
    forall k | 1 <= k < |labels|
      ensures Explained(bs, n, labels, k)
    {
      if k < |before| {
        assert Explained(bs, i, before, k);
        var j :| 0 <= j < i && Explains(bs[j], before, k);
        assert labels[..k] == before[..k];
        assert Explains(bs[j], labels, k);
      } else {
        assert labels[..k] == before;
        assert Explains(bs[i], labels, k);
      }
    }
  }

  lemma SecondDepends(bs: seq<Backup>, i: nat, name: Label, labels: seq<Label>)
    requires i <= |bs| && |labels| > 1 && FromList(bs, i, name, labels)
    ensures exists j | 0 <= j < i :: bs[j].prior == Some(labels[0])
  {
    assert Explained(bs, i, labels, 1);
    var j :| 0 <= j < i && Explains(bs[j], labels, 1);
  }

  /** As long as the entry of the label itself has not been passed, nothing else is listed. */
  lemma OnlyItself(bs: seq<Backup>, i: nat, name: Label, labels: seq<Label>)
    requires i < |bs| && PriorsFirst(bs) && labels != [] && FromList(bs, i, name, labels)
    requires labels[0] == bs[i].name
    ensures labels == [bs[i].name]
  {
    hide FromList;
    if |labels| > 1 {
      SecondDepends(bs, i, name, labels);
      assert false;
    }
  }

  lemma NotYetListed(bs: seq<Backup>, i: nat, name: Label, labels: seq<Label>)
    requires i < |bs| && Unique(bs) && PriorsFirst(bs)
    requires labels != [] && FromList(bs, i, name, labels)
    requires bs[i].prior.Some? && bs[i].prior.value in labels
    ensures bs[i].name !in labels
  {
    NotFirst(bs, i, name, labels);
    forall k | 1 <= k < |labels|
      ensures labels[k] != bs[i].name
    {
      assert Explained(bs, i, labels, k);
      var j :| 0 <= j < i && Explains(bs[j], labels, k);
    }
  }

  lemma NotFirst(bs: seq<Backup>, i: nat, name: Label, labels: seq<Label>)
    requires i < |bs| && PriorsFirst(bs) && labels != [] && FromList(bs, i, name, labels)
    requires bs[i].prior.Some? && bs[i].prior.value in labels
    ensures labels[0] != bs[i].name
  {
    hide FromList;
    if labels[0] == bs[i].name {
      OnlyItself(bs, i, name, labels);
      assert false;
    }
  }
}
