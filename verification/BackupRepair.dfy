/** Rebuilding the backup list from what the repository holds. */
module BackupRepair {
  import opened Wrappers
  import opened StringOrder
  import opened BackupList
  import InfoPg

  /** A manifest found in the repository. */
  datatype Manifest = Manifest(full: bool, prior: Option<Label>, pgId: nat, pgSystemId: nat, pgVersion: nat)

  /** Backup directories of the repository in ascending order, and the manifests of those that have one. */
  datatype Repo = Repo(dirs: seq<Label>, manifests: map<Label, Manifest>)

  /** The entry that is made from a manifest. */
  function EntryOf(name: Label, m: Manifest): Backup {
    Backup(name, if m.full then None else m.prior)
  }

  predicate Matches(history: seq<InfoPg.PgData>, m: Manifest) {
    exists i | 0 <= i < |history| ::
      m.pgId == history[i].id && m.pgSystemId == history[i].systemId && m.pgVersion == history[i].version
  }

  // ----- Lists -----

  /** Sorted by label, and priors sort before their dependents. */
  ghost predicate InOrder(bs: seq<Backup>) {
    && (forall i, j | 0 <= i < j < |bs| :: Less(bs[i].name, bs[j].name))
    && (forall i | 0 <= i < |bs| && bs[i].prior.Some? :: Less(bs[i].prior.value, bs[i].name))
  }

  ghost predicate PriorClosed(bs: seq<Backup>) {
    forall i | 0 <= i < |bs| && bs[i].prior.Some? :: Exists(bs, bs[i].prior.value)
  }

  lemma InOrderIsListed(bs: seq<Backup>)
    requires InOrder(bs)
    ensures Unique(bs) && PriorsFirst(bs)
  {
    forall i, j | 0 <= i < j < |bs|
      ensures bs[i].name != bs[j].name
    {
      LessIrreflexive(bs[i].name);
    }
    forall i, j | 0 <= i < |bs| && 0 <= j < |bs| && bs[j].prior == Some(bs[i].name)
      ensures i < j
    {
      if j < i {
        LessTransitive(bs[i].name, bs[j].name, bs[i].name);
      }
      LessIrreflexive(bs[i].name);
    }
  }

  /** Two sorted lists with the same entries are the same. */
  lemma {:induction false} SameEntries(a: seq<Backup>, b: seq<Backup>)
    requires InOrder(a) && InOrder(b) && forall x :: x in a <==> x in b
    ensures a == b
  {
    assert a != [] ==> a[0] in b;
    assert b != [] ==> b[0] in a;
    if a != [] {
      var m, n := |a| - 1, |b| - 1;
      assert a[m] in b && b[n] in a;
      var i :| 0 <= i <= n && b[i] == a[m];
      var j :| 0 <= j <= m && a[j] == b[n];
      if i < n && j < m {
        LessTransitive(a[m].name, b[n].name, a[m].name);
        LessIrreflexive(a[m].name);
      }
      assert a[m] == b[n];
      forall x
        ensures x in a[..m] <==> x in b[..n]
      {
        LastOnce(a, x);
        LastOnce(b, x);
      }
      SameEntries(a[..m], b[..n]);
      assert a == a[..m] + [a[m]] && b == b[..n] + [b[n]];
    }
  }

  lemma LastOnce(a: seq<Backup>, x: Backup)
    requires a != [] && InOrder(a)
    ensures x in a[..|a| - 1] <==> x in a && x != a[|a| - 1]
  {
    if x in a[..|a| - 1] {
      var i :| 0 <= i < |a| - 1 && a[i] == x;
      LessIrreflexive(x.name);
    }
  }

  // ----- Sorting -----

  function Insert(bs: seq<Backup>, b: Backup): (r: seq<Backup>)
    ensures forall x :: x in r <==> x in bs || x == b
  {
    if bs == [] || !Less(bs[0].name, b.name) then [b] + bs else [bs[0]] + Insert(bs[1..], b)
  }

  function Sorted(bs: seq<Backup>): (r: seq<Backup>)
    ensures forall x :: x in r <==> x in bs
  {
    if bs == [] then [] else Insert(Sorted(bs[..|bs| - 1]), bs[|bs| - 1])
  }

  lemma {:induction false} InsertInOrder(bs: seq<Backup>, b: Backup)
    requires InOrder(bs) && !Exists(bs, b.name) && (b.prior.Some? ==> Less(b.prior.value, b.name))
    ensures InOrder(Insert(bs, b))
  {
    var r := Insert(bs, b);
    if bs == [] {
    } else if !Less(bs[0].name, b.name) {
      LessTotal(bs[0].name, b.name);
      assert bs[0].name != b.name;
      forall j | 0 < j < |r|
        ensures Less(b.name, r[j].name)
      {
        if j > 1 {
          LessTransitive(b.name, bs[0].name, bs[j - 1].name);
        }
      }
    } else {
      var rest := bs[1..];
      assert forall i | 0 <= i < |rest| :: rest[i] == bs[i + 1];
      InsertInOrder(rest, b);
      forall j | 0 < j < |r|
        ensures Less(bs[0].name, r[j].name)
      {
        assert r[j] in Insert(rest, b);
      }
    }
  }

  lemma {:induction false} InsertLast(bs: seq<Backup>, b: Backup)
    requires forall i | 0 <= i < |bs| :: Less(bs[i].name, b.name)
    ensures Insert(bs, b) == bs + [b]
  {
    if bs != [] {
      InsertLast(bs[1..], b);
    }
  }

  lemma {:induction false} SortedIsFixed(bs: seq<Backup>)
    requires InOrder(bs)
    ensures Sorted(bs) == bs
  {
    if bs != [] {
      var n := |bs| - 1;
      SortedIsFixed(bs[..n]);
      InsertLast(bs[..n], bs[n]);
      assert bs[..n] + [bs[n]] == bs;
    }
  }

  lemma SortedAfterAdd(bs: seq<Backup>, b: Backup)
    requires InOrder(bs) && !Exists(bs, b.name) && (b.prior.Some? ==> Less(b.prior.value, b.name))
    ensures InOrder(Sorted(bs + [b]))
  {
    assert (bs + [b])[..|bs|] == bs;
    SortedIsFixed(bs);
    InsertInOrder(bs, b);
  }

  // ----- What is assumed of the repository -----

  /** Directories are listed once and in order, and priors sort before their dependents. */
  ghost predicate SoundRepo(repo: Repo) {
    && (forall i, j | 0 <= i < j < |repo.dirs| :: Less(repo.dirs[i], repo.dirs[j]))
    && (forall name | name in repo.manifests && repo.manifests[name].prior.Some? ::
          Less(repo.manifests[name].prior.value, name))
  }

  /** The entry has no prior if the manifest is that of a full backup, and the prior of the manifest otherwise. */
  predicate PriorAgrees(b: Backup, m: Manifest) {
    (m.full ==> b.prior == None) && (!m.full ==> b.prior == m.prior)
  }

  /** Where there is a manifest it agrees with the list on the prior. */
  ghost predicate Agree(bs: seq<Backup>, repo: Repo) {
    forall i | 0 <= i < |bs| && bs[i].name in repo.manifests :: PriorAgrees(bs[i], repo.manifests[bs[i].name])
  }

  /** The backup or one that it depends on has no manifest. */
  ghost predicate Doomed(bs: seq<Backup>, repo: Repo, name: Label) {
    exists x :: x !in repo.manifests && Exists(bs, x) && Depends(bs, x, name)
  }

  /** The repository has a complete backup that could be listed. */
  predicate Eligible(bs: seq<Backup>, repo: Repo, history: seq<InfoPg.PgData>, name: Label) {
    && name in repo.dirs && name in repo.manifests
    && Matches(history, repo.manifests[name])
    && (repo.manifests[name].prior.Some? ==> Exists(bs, repo.manifests[name].prior.value))
  }

  ghost predicate AllHaveManifests(bs: seq<Backup>, repo: Repo) {
    forall i | 0 <= i < |bs| :: bs[i].name in repo.manifests
  }

  // ----- The delete loop -----

  /** What the delete loop will leave from index `idx` on. */
  ghost function Progress(bs: seq<Backup>, idx: nat, name: Label): seq<Backup> {
    if idx <= |bs| then bs[..idx] + Deleted(bs[idx..], name) else bs
  }

  lemma ProgressEnds(bs: seq<Backup>, name: Label)
    ensures Progress(bs, 0, name) == Deleted(bs, name)
    ensures Progress(bs, |bs|, name) == Progress(bs, |bs| + 1, name) == bs
  {
  }

  lemma DeleteStep(bs: seq<Backup>, idx: nat, name: Label)
    requires idx < |bs|
    ensures Progress(if bs[idx].name == name then bs[..idx] + bs[idx + 1..] else bs, idx + 1, name) == Progress(bs, idx, name)
  {
    var rest := bs[idx..];
    if bs[idx].name != name {
      assert rest[1..] == bs[idx + 1..];
      assert bs[..idx + 1] == bs[..idx] + [bs[idx]];
    } else {
      var less := bs[..idx] + bs[idx + 1..];
      if |rest| > 1 {
        assert rest[2..] == less[idx + 1..];
        assert less[..idx + 1] == bs[..idx] + [rest[1]];
      } else {
        assert less == bs[..idx];
      }
    }
  }

  // ----- The class -----

  class InfoBackup {
    var backup: seq<Backup>
    const history: seq<InfoPg.PgData>

    constructor (backup: seq<Backup>, history: seq<InfoPg.PgData>)
      ensures this.backup == backup && this.history == history
    {
      this.backup := backup;
      this.history := history;
    }

    /** Removes a label. The index moves on after a removal, so the entry that fills the gap is passed over. */
    method DataDelete(name: Label)
      modifies this
      ensures backup == Deleted(old(backup), name)
    {
      hide Progress;
      var idx := 0;
      ProgressEnds(backup, name);
      while idx < |backup|
        invariant 0 <= idx <= |backup| + 1
        invariant Progress(backup, idx, name) == Deleted(old(backup), name)
        decreases |backup| - idx
      {
        DeleteStep(backup, idx, name);
        if backup[idx].name == name {
          backup := backup[..idx] + backup[idx + 1..];
        }
        idx := idx + 1;
      }
      ProgressEnds(backup, name);
    }

    /** Adds the entry of a manifest and sorts the list. */
    method DataAdd(name: Label, m: Manifest)
      modifies this
      ensures backup == Sorted(old(backup) + [EntryOf(name, m)])
      ensures forall b :: b in backup <==> b in old(backup) || (b.name == name && PriorAgrees(b, m))
      ensures old(InOrder(backup) && !Exists(backup, name)) && (m.prior.Some? ==> Less(m.prior.value, name)) ==> InOrder(backup)
    {
      hide InOrder;
      hide Sorted;
      backup := Sorted(backup + [EntryOf(name, m)]);
      if old(InOrder(backup) && !Exists(backup, name)) && (m.prior.Some? ==> Less(m.prior.value, name)) {
        SortedAfterAdd(old(backup), EntryOf(name, m));
      }
    }
  
    /** Removes a backup without manifest and everything that depends on it. */
    method RemoveDependents(name: Label)
      requires InOrder(backup) && PriorClosed(backup)
      modifies this
      ensures InOrder(backup) && PriorClosed(backup)
      ensures forall b :: b in backup <==> b in old(backup) && !Depends(old(backup), name, b.name)
    {
      hide InOrder;
      hide PriorClosed;
      hide Depends;
      InOrderIsListed(backup);
      var labels := DependentList(backup, name);
      var i := |labels|;
      while i > 0
        invariant 0 <= i <= |labels|
        invariant InOrder(backup)
        invariant forall b :: b in backup <==> b in old(backup) && b.name !in labels[i..]
      {
        i := i - 1;
        ghost var before := backup;
        InOrderIsListed(backup);
        DataDelete(labels[i]);
        assert labels[i..] == [labels[i]] + labels[i + 1..];
        DeletedInOrder(before, labels[i]);
      }
      assert labels[0..] == labels;
      StillClosed(old(backup), name, backup);
    }

    /** First half: removes the backups without manifest and their dependents, and nothing else. */
    method RemoveMissing(repo: Repo)
      requires InOrder(backup) && PriorClosed(backup)
      modifies this
      ensures InOrder(backup) && PriorClosed(backup) && AllHaveManifests(backup, repo)
      ensures forall b :: b in backup <==> b in old(backup) && !Doomed(old(backup), repo, b.name)
    {
      hide InOrder;
      hide PriorClosed;
      hide Doomed;
      hide Exists;
      ghost var was := backup;
      var labels := Labels(backup);
      var i := 0;
      while i < |labels|
        invariant 0 <= i <= |labels|
        invariant InOrder(backup) && PriorClosed(backup)
        invariant forall b | b in backup :: b in was
        invariant forall b | b in was && b !in backup :: Doomed(was, repo, b.name)
        invariant forall j | 0 <= j < i :: labels[j] in repo.manifests || !Exists(backup, labels[j])
      {
        ghost var before := backup;
        if labels[i] !in repo.manifests && Exists(backup, labels[i]) {
          RemoveDependents(labels[i]);
          RemovedWereDoomed(was, before, backup, repo, labels[i]);
          StillAbsent(before, backup, labels[i]);
        }
        StillMissing(labels, i, before, backup, repo);
        i := i + 1;
      }
      AllProcessed(was, backup, labels, repo);
      NobodyIsDoomed(was, backup, repo);
    }

    /** Does the history have the cluster of the manifest, and the list its prior? */
    method CanAdd(m: Manifest) returns (found: bool)
      ensures found <==> Matches(history, m) && (m.prior.Some? ==> Exists(backup, m.prior.value))
      ensures found ==> exists d | d in history :: d.id == m.pgId && d.systemId == m.pgSystemId && d.version == m.pgVersion
    {
      found := false;
      var i := 0;
      while i < |history| && !found
        invariant 0 <= i <= |history|
        invariant found ==> Matches(history, m) && (m.prior.Some? ==> Exists(backup, m.prior.value))
        invariant !found ==> !Matches(history[..i], m) || (m.prior.Some? && !Exists(backup, m.prior.value))
      {
        var pg := history[i];
        if m.pgId == pg.id && m.pgSystemId == pg.systemId && m.pgVersion == pg.version &&
           (m.prior == None || Exists(backup, m.prior.value))
        {
          found := true;
        }
        i := i + 1;
      }
      if !found {
        assert history[..i] == history;
      }
    }

    /** Second half: adds what the repository has and the list could hold, priors first. */
    method AddMissing(repo: Repo)
      requires SoundRepo(repo) && InOrder(backup) && PriorClosed(backup) && AllHaveManifests(backup, repo)
      modifies this
      ensures Extended(old(backup), repo, history, |repo.dirs|, backup)
    {
      hide InOrder;
      hide PriorClosed;
      hide Exists;
      hide SoundRepo;
      ghost var was := backup;
      var current := Labels(backup);
      NothingAdded(was, repo, history);
      var i := 0;
      while i < |repo.dirs|
        invariant 0 <= i <= |repo.dirs|
        invariant Extended(was, repo, history, i, backup)
      {
        hide Extended;
        var name := repo.dirs[i];
        LabelsExist(was, name);
        if name in current || name !in repo.manifests {
          NotAdded(was, repo, history, i, backup);
        } else {
          var m := repo.manifests[name];
          var found := CanAdd(m);
          if found {
            DirIsNew(was, repo, history, i, backup);
            ghost var before := backup;
            DataAdd(name, m);
            Added(was, repo, history, i, before);
          } else {
            NotAdded(was, repo, history, i, backup);
          }
        }
        i := i + 1;
      }
    }

    /** Makes the list agree with the repository. */
    method Reconstruct(repo: Repo)
      requires SoundRepo(repo) && InOrder(backup) && PriorClosed(backup) && Agree(backup, repo)
      modifies this
      ensures Repaired(old(backup), repo, history, backup)
      ensures Agree(backup, repo)
    {
      hide InOrder;
      hide PriorClosed;
      hide Exists;
      hide SoundRepo;
      hide AllHaveManifests;
      ghost var was := backup;
      RemoveMissing(repo);
      ghost var kept := backup;
      AddMissing(repo);
      BothHalves(was, kept, backup, repo, history);
    }
  }

  function Labels(bs: seq<Backup>): (r: seq<Label>)
    ensures |r| == |bs| && forall i | 0 <= i < |bs| :: r[i] == bs[i].name
  {
    seq(|bs|, i requires 0 <= i < |bs| => bs[i].name)
  }

  // ----- First half -----

  lemma RemovedWereDoomed(was: seq<Backup>, before: seq<Backup>, after: seq<Backup>, repo: Repo, name: Label)
    requires forall b | b in before :: b in was
    requires Exists(before, name) && name !in repo.manifests
    requires forall b :: b in after <==> b in before && !Depends(before, name, b.name)
    ensures forall b | b in before && b !in after :: Doomed(was, repo, b.name)
  {
    hide Depends;
    var i :| 0 <= i < |before| && before[i].name == name;
    assert before[i] in was;
    assert Exists(was, name);
    forall b | b in before && b !in after
      ensures Doomed(was, repo, b.name)
    {
      DependsMore(before, was, name, b.name);
    }
  }

  lemma StillAbsent(before: seq<Backup>, after: seq<Backup>, name: Label)
    requires forall b :: b in after <==> b in before && !Depends(before, name, b.name)
    ensures !Exists(after, name)
  {
    DependsSelf(before, name);
    forall i | 0 <= i < |after|
      ensures after[i].name != name
    {
      assert after[i] in after;
    }
  }

  lemma StillMissing(labels: seq<Label>, i: nat, before: seq<Backup>, after: seq<Backup>, repo: Repo)
    requires i < |labels| && forall b | b in after :: b in before
    requires forall j | 0 <= j < i :: labels[j] in repo.manifests || !Exists(before, labels[j])
    requires labels[i] in repo.manifests || !Exists(after, labels[i])
    ensures forall j | 0 <= j < i + 1 :: labels[j] in repo.manifests || !Exists(after, labels[j])
  {
    forall j | 0 <= j < i && Exists(after, labels[j])
      ensures Exists(before, labels[j])
    {
      var k :| 0 <= k < |after| && after[k].name == labels[j];
      assert after[k] in before;
    }
  }

  lemma AllProcessed(was: seq<Backup>, after: seq<Backup>, labels: seq<Label>, repo: Repo)
    requires labels == Labels(was) && forall b | b in after :: b in was
    requires forall j | 0 <= j < |labels| :: labels[j] in repo.manifests || !Exists(after, labels[j])
    ensures AllHaveManifests(after, repo)
  {
    forall i | 0 <= i < |after|
      ensures after[i].name in repo.manifests
    {
      assert after[i] in was;
      var j :| 0 <= j < |was| && was[j] == after[i];
      assert labels[j] == after[i].name;
      assert Exists(after, labels[j]);
    }
  }

  /** In a closed part of a list every backup that another one depends on is in that part too. */
  lemma {:induction false} PriorsAreKept(was: seq<Backup>, kept: seq<Backup>, from: Label, name: Label, n: nat)
    requires Unique(was) && PriorClosed(kept) && forall b | b in kept :: b in was
    requires DependsIn(was, from, name, n) && Exists(kept, name)
    ensures Exists(kept, from)
    decreases n
  {
    if n > 0 {
      var i :| 0 <= i < |was| && was[i].name == name && was[i].prior.Some? &&
               DependsIn(was, from, was[i].prior.value, n - 1);
      var j :| 0 <= j < |kept| && kept[j].name == name;
      assert kept[j] in was;
      var k :| 0 <= k < |was| && was[k] == kept[j];
      assert k == i;
      assert Exists(kept, kept[j].prior.value);
      PriorsAreKept(was, kept, from, was[i].prior.value, n - 1);
    }
  }

  lemma NobodyIsDoomed(was: seq<Backup>, kept: seq<Backup>, repo: Repo)
    requires InOrder(was) && PriorClosed(kept) && AllHaveManifests(kept, repo) && forall b | b in kept :: b in was
    ensures forall b | b in kept :: !Doomed(was, repo, b.name)
  {
    InOrderIsListed(was);
    forall b | b in kept && Doomed(was, repo, b.name)
      ensures false
    {
      var x :| x !in repo.manifests && Exists(was, x) && Depends(was, x, b.name);
      var n: nat :| DependsIn(was, x, b.name, n);
      var i :| 0 <= i < |kept| && kept[i] == b;
      assert Exists(kept, b.name);
      PriorsAreKept(was, kept, x, b.name, n);
    }
  }

  // ----- Second half -----

  lemma LabelsExist(bs: seq<Backup>, name: Label)
    ensures name in Labels(bs) <==> Exists(bs, name)
  {
  }

  /** The list after the first `n` directories: what was there, and what has been added from the repository. */
  ghost predicate Extended(was: seq<Backup>, repo: Repo, history: seq<InfoPg.PgData>, n: nat, bs: seq<Backup>)
    requires n <= |repo.dirs|
  {
    && InOrder(bs) && PriorClosed(bs) && AllHaveManifests(bs, repo)
    && (forall b | b in was :: b in bs)
    && (forall b | b in bs && b !in was :: IsNew(was, repo, history, n, bs, b))
    && (forall j | 0 <= j < n && Eligible(bs, repo, history, repo.dirs[j]) :: Exists(bs, repo.dirs[j]))
  }

  ghost predicate IsNew(was: seq<Backup>, repo: Repo, history: seq<InfoPg.PgData>, n: nat, bs: seq<Backup>, b: Backup)
    requires n <= |repo.dirs|
  {
    && b.name in repo.dirs[..n]
    && Eligible(bs, repo, history, b.name)
    && PriorAgrees(b, repo.manifests[b.name])
  }

  lemma NothingAdded(was: seq<Backup>, repo: Repo, history: seq<InfoPg.PgData>)
    requires InOrder(was) && PriorClosed(was) && AllHaveManifests(was, repo)
    ensures Extended(was, repo, history, 0, was)
  {
  }

  lemma NotAdded(was: seq<Backup>, repo: Repo, history: seq<InfoPg.PgData>, n: nat, bs: seq<Backup>)
    requires n < |repo.dirs| && Extended(was, repo, history, n, bs)
    requires Eligible(bs, repo, history, repo.dirs[n]) ==> Exists(was, repo.dirs[n])
    ensures Extended(was, repo, history, n + 1, bs)
  {
    hide InOrder;
    hide PriorClosed;
    hide Eligible;
    if Exists(was, repo.dirs[n]) {
      var i :| 0 <= i < |was| && was[i].name == repo.dirs[n];
      assert was[i] in bs;
    }
  }

  lemma DeletedInOrder(bs: seq<Backup>, name: Label)
    requires InOrder(bs)
    ensures InOrder(Deleted(bs, name))
    ensures forall b :: b in Deleted(bs, name) <==> b in bs && b.name != name
  {
    InOrderIsListed(bs);
    DeletesAllExactlyWhen(bs, name);
    assert Deleted(bs, name) == Without(bs, name);
    WithoutInOrder(bs, name);
  }

  lemma {:induction false} WithoutInOrder(bs: seq<Backup>, name: Label)
    requires InOrder(bs)
    ensures InOrder(Without(bs, name))
  {
    if bs != [] {
      var rest := bs[1..];
      assert forall i | 0 <= i < |rest| :: rest[i] == bs[i + 1];
      WithoutInOrder(rest, name);
      var r := Without(bs, name);
      if bs[0].name != name {
        forall j | 0 < j < |r|
          ensures Less(bs[0].name, r[j].name)
        {
          assert r[j] in Without(rest, name);
        }
      }
    }
  }

  /** Removing everything that depends on a backup leaves no entry without its prior. */
  lemma StillClosed(bs: seq<Backup>, name: Label, less: seq<Backup>)
    requires PriorClosed(bs) && forall b :: b in less <==> b in bs && !Depends(bs, name, b.name)
    ensures PriorClosed(less)
  {
    hide Depends;
    forall i | 0 <= i < |less| && less[i].prior.Some?
      ensures Exists(less, less[i].prior.value)
    {
      assert less[i] in less;
      var j :| 0 <= j < |bs| && bs[j] == less[i];
      var k :| 0 <= k < |bs| && bs[k].name == bs[j].prior.value;
      if Depends(bs, name, bs[k].name) {
        DependsStep(bs, name, bs[j]);
      }
      assert bs[k] in less;
    }
  }

  lemma DirIsNew(was: seq<Backup>, repo: Repo, history: seq<InfoPg.PgData>, n: nat, bs: seq<Backup>)
    requires n < |repo.dirs| && SoundRepo(repo) && Extended(was, repo, history, n, bs)
    requires !Exists(was, repo.dirs[n])
    ensures !Exists(bs, repo.dirs[n])
  {
    hide InOrder;
    hide PriorClosed;
    hide Eligible;
    var name := repo.dirs[n];
    forall i | 0 <= i < |bs|
      ensures bs[i].name != name
    {
      assert bs[i] in bs;
      if bs[i] in was {
        var k :| 0 <= k < |was| && was[k] == bs[i];
      } else {
        assert IsNew(was, repo, history, n, bs, bs[i]);
        var k :| 0 <= k < n && repo.dirs[k] == bs[i].name;
        LessIrreflexive(name);
      }
    }
  }

  lemma ExistsMore(bs: seq<Backup>, more: seq<Backup>, name: Label)
    requires Exists(bs, name) && forall b | b in bs :: b in more
    ensures Exists(more, name)
  {
    var i :| 0 <= i < |bs| && bs[i].name == name;
    assert bs[i] in more;
    var j :| 0 <= j < |more| && more[j] == bs[i];
  }

  lemma EligibleMore(bs: seq<Backup>, more: seq<Backup>, repo: Repo, history: seq<InfoPg.PgData>, name: Label)
    requires Eligible(bs, repo, history, name) && forall b | b in bs :: b in more
    ensures Eligible(more, repo, history, name)
  {
    if repo.manifests[name].prior.Some? {
      ExistsMore(bs, more, repo.manifests[name].prior.value);
    }
  }

  lemma Added(was: seq<Backup>, repo: Repo, history: seq<InfoPg.PgData>, n: nat, bs: seq<Backup>)
    requires n < |repo.dirs| && SoundRepo(repo) && Extended(was, repo, history, n, bs)
    requires Eligible(bs, repo, history, repo.dirs[n]) && !Exists(bs, repo.dirs[n])
    ensures Extended(was, repo, history, n + 1,
                     Sorted(bs + [EntryOf(repo.dirs[n], repo.manifests[repo.dirs[n]])]))
  {
    hide Extended;
    var name := repo.dirs[n];
    var b := EntryOf(name, repo.manifests[name]);
    var more := Sorted(bs + [b]);
    AddedInOrder(was, repo, history, n, bs, more);
    AddedAreNew(was, repo, history, n, bs, more);
    NothingMissed(was, repo, history, n, bs, more);
    ExtendedFrom(was, repo, history, n + 1, more);
  }

  lemma ExtendedFrom(was: seq<Backup>, repo: Repo, history: seq<InfoPg.PgData>, n: nat, bs: seq<Backup>)
    requires n <= |repo.dirs| && InOrder(bs) && PriorClosed(bs) && AllHaveManifests(bs, repo)
    requires forall b | b in was :: b in bs
    requires forall b | b in bs && b !in was :: IsNew(was, repo, history, n, bs, b)
    requires forall j | 0 <= j < n && Eligible(bs, repo, history, repo.dirs[j]) :: Exists(bs, repo.dirs[j])
    ensures Extended(was, repo, history, n, bs)
  {
  }

  lemma AddedInOrder(was: seq<Backup>, repo: Repo, history: seq<InfoPg.PgData>, n: nat, bs: seq<Backup>, more: seq<Backup>)
    requires n < |repo.dirs| && SoundRepo(repo) && Extended(was, repo, history, n, bs)
    requires Eligible(bs, repo, history, repo.dirs[n]) && !Exists(bs, repo.dirs[n])
    requires more == Sorted(bs + [EntryOf(repo.dirs[n], repo.manifests[repo.dirs[n]])])
    ensures InOrder(more) && PriorClosed(more) && AllHaveManifests(more, repo)
    ensures forall x | x in bs :: x in more
  {
    hide InOrder;
    hide Sorted;
    var name := repo.dirs[n];
    var b := EntryOf(name, repo.manifests[name]);
    SortedAfterAdd(bs, b);
    forall i | 0 <= i < |more|
      ensures more[i].name in repo.manifests && (more[i].prior.Some? ==> Exists(more, more[i].prior.value))
    {
      assert more[i] in bs + [b];
      if more[i] in bs {
        var k :| 0 <= k < |bs| && bs[k] == more[i];
      }
      if more[i].prior.Some? {
        ExistsMore(bs, more, more[i].prior.value);
      }
    }
  }

  lemma AddedAreNew(was: seq<Backup>, repo: Repo, history: seq<InfoPg.PgData>, n: nat, bs: seq<Backup>, more: seq<Backup>)
    requires n < |repo.dirs| && Extended(was, repo, history, n, bs)
    requires Eligible(bs, repo, history, repo.dirs[n])
    requires forall x :: x in more <==> x in bs || x == EntryOf(repo.dirs[n], repo.manifests[repo.dirs[n]])
    ensures forall x | x in was :: x in more
    ensures forall x | x in more && x !in was :: IsNew(was, repo, history, n + 1, more, x)
  {
    hide InOrder;
    hide PriorClosed;
    hide Eligible;
    var name := repo.dirs[n];
    forall x | x in more && x !in was
      ensures IsNew(was, repo, history, n + 1, more, x)
    {
      if x in bs {
        assert IsNew(was, repo, history, n, bs, x);
        EligibleMore(bs, more, repo, history, x.name);
        assert x.name in repo.dirs[..n + 1];
      } else {
        EligibleMore(bs, more, repo, history, name);
        assert repo.dirs[..n + 1][n] == name;
      }
    }
  }

  /** What could not be added before cannot be added because of a later directory, whose name sorts after its prior. */
  lemma NothingMissed(was: seq<Backup>, repo: Repo, history: seq<InfoPg.PgData>, n: nat, bs: seq<Backup>, more: seq<Backup>)
    requires n < |repo.dirs| && SoundRepo(repo) && Extended(was, repo, history, n, bs)
    requires repo.dirs[n] in repo.manifests
    requires forall x :: x in more <==> x in bs || x == EntryOf(repo.dirs[n], repo.manifests[repo.dirs[n]])
    ensures forall j | 0 <= j < n + 1 && Eligible(more, repo, history, repo.dirs[j]) :: Exists(more, repo.dirs[j])
  {
    hide InOrder;
    hide PriorClosed;
    var last := EntryOf(repo.dirs[n], repo.manifests[repo.dirs[n]]);
    forall j | 0 <= j < n + 1 && Eligible(more, repo, history, repo.dirs[j])
      ensures Exists(more, repo.dirs[j])
    {
      if j == n {
        assert last in more;
        var k :| 0 <= k < |more| && more[k] == last;
      } else {
        var m := repo.manifests[repo.dirs[j]];
        if m.prior.Some? {
          var k :| 0 <= k < |more| && more[k].name == m.prior.value;
          assert more[k] in more;
          if more[k] == last {
            LessTransitive(m.prior.value, repo.dirs[j], repo.dirs[n]);
            LessIrreflexive(repo.dirs[n]);
          }
          assert more[k] in bs;
          var l :| 0 <= l < |bs| && bs[l] == more[k];
          assert Exists(bs, m.prior.value);
        }
        assert Eligible(bs, repo, history, repo.dirs[j]);
        ExistsMore(bs, more, repo.dirs[j]);
      }
    }
  }

  // ----- The whole -----

  /** The list after a repair: every backup has a manifest and its prior, exactly the doomed backups are gone, what came in
      is in the repository, and nothing that could be listed is missing. */
  ghost predicate Repaired(bs: seq<Backup>, repo: Repo, history: seq<InfoPg.PgData>, final: seq<Backup>) {
    && InOrder(final) && PriorClosed(final) && AllHaveManifests(final, repo)
    && (forall b | b in bs && !Doomed(bs, repo, b.name) :: b in final)
    && (forall b | b in final :: (b in bs && !Doomed(bs, repo, b.name)) || IsFound(repo, history, final, b))
    && (forall name | Eligible(final, repo, history, name) :: Exists(final, name))
  }

  ghost predicate IsFound(repo: Repo, history: seq<InfoPg.PgData>, final: seq<Backup>, b: Backup) {
    Eligible(final, repo, history, b.name) && PriorAgrees(b, repo.manifests[b.name])
  }

  lemma BothHalves(was: seq<Backup>, kept: seq<Backup>, final: seq<Backup>, repo: Repo, history: seq<InfoPg.PgData>)
    requires Agree(was, repo) && Extended(kept, repo, history, |repo.dirs|, final)
    requires forall b :: b in kept <==> b in was && !Doomed(was, repo, b.name)
    ensures Repaired(was, repo, history, final) && Agree(final, repo)
  {
  }

  /** What a listed backup depended on before the repair is listed after it. */
  lemma {:induction false} ChainIsListed(bs: seq<Backup>, repo: Repo, history: seq<InfoPg.PgData>, final: seq<Backup>,
                                         x: Label, name: Label, n: nat)
    requires Unique(bs) && Agree(bs, repo) && Repaired(bs, repo, history, final)
    requires DependsIn(bs, x, name, n) && Exists(final, name)
    ensures Exists(final, x)
    decreases n
  {
    hide InOrder;
    hide Doomed;
    if n > 0 {
      var i :| 0 <= i < |bs| && bs[i].name == name && bs[i].prior.Some? && DependsIn(bs, x, bs[i].prior.value, n - 1);
      var f :| 0 <= f < |final| && final[f].name == name;
      assert final[f] in final && name in repo.manifests;
      if final[f] in bs {
        var k :| 0 <= k < |bs| && bs[k] == final[f];
        assert k == i;
      }
      assert final[f] == bs[i];
      assert Exists(final, final[f].prior.value);
      ChainIsListed(bs, repo, history, final, x, bs[i].prior.value, n - 1);
    }
  }

  /** Neither a backup without manifest nor anything that depends on one comes back. */
  lemma DoomedStayOut(bs: seq<Backup>, repo: Repo, history: seq<InfoPg.PgData>, final: seq<Backup>, name: Label)
    requires InOrder(bs) && Agree(bs, repo) && Repaired(bs, repo, history, final)
    requires Doomed(bs, repo, name)
    ensures !Exists(final, name)
  {
    InOrderIsListed(bs);
    var x :| x !in repo.manifests && Exists(bs, x) && Depends(bs, x, name);
    var n: nat :| DependsIn(bs, x, name, n);
    if Exists(final, name) {
      ChainIsListed(bs, repo, history, final, x, name, n);
      assert false;
    }
  }

  /** After a repair every listed backup depends on the prior in its manifest, unless it is a full one, and on what that
      depends on. */
  lemma ListedDependsOnPrior(repo: Repo, final: seq<Backup>, b: Backup, x: Label)
    requires Agree(final, repo) && AllHaveManifests(final, repo) && b in final
    ensures var m := repo.manifests[b.name];
            && (m.full ==> b.prior == None)
            && (!m.full && m.prior.Some? ==> Depends(final, m.prior.value, b.name))
            && (!m.full && m.prior.Some? && Depends(final, x, m.prior.value) ==> Depends(final, x, b.name))
  {
    hide Depends;
    var i :| 0 <= i < |final| && final[i] == b;
    assert PriorAgrees(final[i], repo.manifests[b.name]);
    if b.prior.Some? {
      DependsSelf(final, b.prior.value);
      DependsStep(final, b.prior.value, b);
      if Depends(final, x, b.prior.value) {
        DependsStep(final, x, b);
      }
    }
  }

  /** So a backup that is not full goes with what its prior depends on, when that is removed with its dependents. */
  lemma GoesWithPrior(repo: Repo, final: seq<Backup>, x: Label, less: seq<Backup>, name: Label)
    requires Agree(final, repo) && AllHaveManifests(final, repo)
    requires forall b :: b in less <==> b in final && !Depends(final, x, b.name)
    requires name in repo.manifests && !repo.manifests[name].full && repo.manifests[name].prior.Some?
    requires Depends(final, x, repo.manifests[name].prior.value)
    ensures !Exists(less, name)
  {
    hide Depends;
    forall i | 0 <= i < |less|
      ensures less[i].name != name
    {
      var b := less[i];
      assert b in less && b in final;
      if b.name == name {
        ListedDependsOnPrior(repo, final, b, x);
      }
    }
  }

  lemma NoneDoomed(bs: seq<Backup>, repo: Repo, name: Label)
    requires AllHaveManifests(bs, repo)
    ensures !Doomed(bs, repo, name)
  {
  }

  /** Nothing comes in that was not there after the first repair. */
  lemma {:induction false} NothingComesIn(first: seq<Backup>, second: seq<Backup>, repo: Repo, history: seq<InfoPg.PgData>,
                                          n: nat)
    requires SoundRepo(repo) && n <= |second|
    requires forall name | Eligible(first, repo, history, name) :: Exists(first, name)
    requires forall b | b in first :: b in second
    requires InOrder(second) && forall b | b in second && b !in first :: IsFound(repo, history, second, b)
    ensures forall i | 0 <= i < n :: second[i] in first
    decreases n
  {
    if n > 0 {
      NothingComesIn(first, second, repo, history, n - 1);
      var b := second[n - 1];
      if b !in first {
        assert b in second;
        assert IsFound(repo, history, second, b);
        PriorWasThere(first, second, repo, n - 1);
        assert Eligible(first, repo, history, b.name);
        SameNameSameEntry(first, second, n - 1);
      }
    }
  }

  lemma PriorWasThere(first: seq<Backup>, second: seq<Backup>, repo: Repo, n: nat)
    requires SoundRepo(repo) && InOrder(second) && n < |second| && forall i | 0 <= i < n :: second[i] in first
    requires second[n].name in repo.manifests
    ensures var m := repo.manifests[second[n].name];
            m.prior.Some? && Exists(second, m.prior.value) ==> Exists(first, m.prior.value)
  {
    var m := repo.manifests[second[n].name];
    if m.prior.Some? && Exists(second, m.prior.value) {
      var i :| 0 <= i < |second| && second[i].name == m.prior.value;
      LessIrreflexive(second[n].name);
      if i > n {
        LessTransitive(second[n].name, second[i].name, second[n].name);
      }
      assert second[i] in first;
      var k :| 0 <= k < |first| && first[k] == second[i];
    }
  }

  lemma SameNameSameEntry(first: seq<Backup>, second: seq<Backup>, n: nat)
    requires InOrder(second) && n < |second| && forall b | b in first :: b in second
    requires Exists(first, second[n].name)
    ensures second[n] in first
  {
    InOrderIsListed(second);
    var k :| 0 <= k < |first| && first[k].name == second[n].name;
    assert first[k] in second;
    var l :| 0 <= l < |second| && second[l] == first[k];
    assert l == n;
  }

  /** A second repair with the same repository changes nothing. */
  lemma RepairTwice(bs: seq<Backup>, repo: Repo, history: seq<InfoPg.PgData>, first: seq<Backup>, second: seq<Backup>)
    requires SoundRepo(repo) && Repaired(bs, repo, history, first) && Repaired(first, repo, history, second)
    ensures second == first
  {
    hide InOrder;
    hide PriorClosed;
    hide Doomed;
    hide Eligible;
    forall b | b in first
      ensures b in second
    {
      NoneDoomed(first, repo, b.name);
    }
    NothingComesIn(first, second, repo, history, |second|);
    forall b | b in second
      ensures b in first
    {
      var i :| 0 <= i < |second| && second[i] == b;
    }
    SameEntries(first, second);
  }
}
