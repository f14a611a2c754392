/** Lock files: processes exclude each other by flock() on a file that is removed on release. Every system call is a step,
    and the steps of any number of processes interleave. */
module LockFile {
  import opened Wrappers

  type Pid = nat
  type Path = nat
  type Inode = nat

  /** What a process has of a lock file: a descriptor, a locked descriptor, a locked descriptor of a file it has removed, or
      the lock of another process with the same exec id. */
  datatype Hold = Opened(inode: Inode) | Locked(inode: Inode) | Removed(inode: Inode) | SameExecId

  /** Names of files, owners of flock() locks, descriptors of processes, and the next unused inode. */
  datatype State = State(dir: map<Path, Inode>, locks: map<Inode, Pid>, holds: map<(Pid, Path), Hold>, next: Inode)

  datatype Action =
    | Open(p: Pid, f: Path)     // open the file, creating it if it does not exist
    | Flock(p: Pid, f: Path)    // lock it without waiting, successfully
    | GiveUp(p: Pid, f: Path)   // close it because another process has the lock
    | Share(p: Pid, f: Path)    // close it because the process that has the lock has the same exec id
    | Unlink(p: Pid, f: Path)   // release: remove the file
    | Close(p: Pid, f: Path)    // release: close it, which frees the lock
    | Forget(p: Pid, f: Path)   // release of a lock that is only shared
    | Crash(p: Pid)             // the kernel closes all descriptors; no file is removed

  const START := State(map[], map[], map[], 0)

  predicate Enabled(s: State, a: Action) {
    match a
    case Open(p, f) => (p, f) !in s.holds
    case Flock(p, f) => (p, f) in s.holds && s.holds[(p, f)].Opened? && s.holds[(p, f)].inode !in s.locks
    case GiveUp(p, f) => (p, f) in s.holds && s.holds[(p, f)].Opened? && s.holds[(p, f)].inode in s.locks
    case Share(p, f) => (p, f) in s.holds && s.holds[(p, f)].Opened? && s.holds[(p, f)].inode in s.locks
    case Unlink(p, f) => (p, f) in s.holds && s.holds[(p, f)].Locked?
    case Close(p, f) => (p, f) in s.holds && s.holds[(p, f)].Removed?
    case Forget(p, f) => (p, f) in s.holds && s.holds[(p, f)].SameExecId?
    case Crash(_) => true
  }

  function Next(s: State, a: Action): State
    requires Enabled(s, a)
  {
    match a
    case Open(p, f) =>
      if f in s.dir then s.(holds := s.holds[(p, f) := Opened(s.dir[f])])
      else s.(dir := s.dir[f := s.next], holds := s.holds[(p, f) := Opened(s.next)], next := s.next + 1)
    case Flock(p, f) =>
      var i := s.holds[(p, f)].inode;
      s.(locks := s.locks[i := p], holds := s.holds[(p, f) := Locked(i)])
    case GiveUp(p, f) => s.(holds := s.holds - {(p, f)})
    case Share(p, f) => s.(holds := s.holds[(p, f) := SameExecId])
    case Unlink(p, f) =>
      s.(dir := s.dir - {f}, holds := s.holds[(p, f) := Removed(s.holds[(p, f)].inode)])
    case Close(p, f) =>
      s.(locks := s.locks - {s.holds[(p, f)].inode}, holds := s.holds - {(p, f)})
    case Forget(p, f) => s.(holds := s.holds - {(p, f)})
    case Crash(p) =>
      s.(locks := map i | i in s.locks && s.locks[i] != p :: s.locks[i],
         holds := map k | k in s.holds && k.0 != p :: s.holds[k])
  }

  // ----- What holds -----

  predicate Has(h: Hold) {
    h.Locked? || h.Removed?
  }

  /** Who has a lock and has not begun to release it has the file that its path names. */
  ghost predicate HoldsWhatPathNames(s: State) {
    forall k | k in s.holds && s.holds[k].Locked? :: k.1 in s.dir && s.dir[k.1] == s.holds[k].inode
  }

  /** Descriptors that are locked are locked by their process. */
  ghost predicate OwnsLocks(s: State) {
    forall k | k in s.holds && Has(s.holds[k]) :: s.holds[k].inode in s.locks && s.locks[s.holds[k].inode] == k.0
  }

  /** No inode is locked through two descriptors. */
  ghost predicate LockedOnce(s: State) {
    forall k, l | k in s.holds && l in s.holds && Has(s.holds[k]) && Has(s.holds[l]) && k != l ::
      s.holds[k].inode != s.holds[l].inode
  }

  /** A removed file is not found under any name. */
  ghost predicate RemovedIsGone(s: State) {
    forall k, f | k in s.holds && f in s.dir && s.holds[k].Removed? :: s.dir[f] != s.holds[k].inode
  }

  /** Names are for different files, and the next inode is unused. */
  ghost predicate Files(s: State) {
    && (forall f, g | f in s.dir && g in s.dir && f != g :: s.dir[f] != s.dir[g])
    && (forall f | f in s.dir :: s.dir[f] < s.next)
    && (forall i | i in s.locks :: i < s.next)
    && (forall k | k in s.holds && !s.holds[k].SameExecId? :: s.holds[k].inode < s.next)
  }

  ghost predicate Inv(s: State) {
    HoldsWhatPathNames(s) && OwnsLocks(s) && LockedOnce(s) && RemovedIsGone(s) && Files(s)
  }

  /** The opened file is still the one that the path names. */
  predicate StillNamed(s: State, p: Pid, f: Path) {
    (p, f) in s.holds && s.holds[(p, f)].Opened? && f in s.dir && s.dir[f] == s.holds[(p, f)].inode
  }

  // ----- Every step keeps it -----

  lemma OpenKeeps(s: State, p: Pid, f: Path)
    requires Inv(s) && Enabled(s, Open(p, f))
    ensures Inv(Next(s, Open(p, f))) && StillNamed(Next(s, Open(p, f)), p, f)
  {
    OpenKeepsLocks(s, p, f);
    hide OwnsLocks;
    hide LockedOnce;
    var t := Next(s, Open(p, f));
    assert forall k | k in s.holds :: k in t.holds && t.holds[k] == s.holds[k];
  }

  lemma OpenKeepsLocks(s: State, p: Pid, f: Path)
    requires Inv(s) && Enabled(s, Open(p, f))
    ensures OwnsLocks(Next(s, Open(p, f))) && LockedOnce(Next(s, Open(p, f)))
  {
  }

  /** Locking keeps the invariant exactly when the opened file is still the one that the path names. */
  lemma FlockKeepsExactlyWhen(s: State, p: Pid, f: Path)
    requires Inv(s) && Enabled(s, Flock(p, f))
    ensures Inv(Next(s, Flock(p, f))) <==> StillNamed(s, p, f)
  {
  }

  lemma LeaveKeeps(s: State, a: Action)
    requires Inv(s) && Enabled(s, a) && (a.GiveUp? || a.Share? || a.Forget?)
    ensures Inv(Next(s, a))
  {
  }

  lemma UnlinkKeeps(s: State, p: Pid, f: Path)
    requires Inv(s) && Enabled(s, Unlink(p, f))
    ensures Inv(Next(s, Unlink(p, f)))
  {
  }

  lemma CloseKeeps(s: State, p: Pid, f: Path)
    requires Inv(s) && Enabled(s, Close(p, f))
    ensures Inv(Next(s, Close(p, f)))
  {
  }

  lemma CrashKeeps(s: State, p: Pid)
    requires Inv(s)
    ensures Inv(Next(s, Crash(p)))
  {
  }

  /** No step changes what another process has, and only removing a file or making a new one changes names. */
  lemma OthersAreLeftAlone(s: State, a: Action, q: Pid, f: Path)
    requires Inv(s) && Enabled(s, a) && a.p != q
    ensures var t := Next(s, a);
            && ((q, f) in t.holds <==> (q, f) in s.holds) && ((q, f) in s.holds ==> t.holds[(q, f)] == s.holds[(q, f)])
            && (forall i | i in s.locks && s.locks[i] == q :: i in t.locks && t.locks[i] == q)
            && (f in s.dir && !(a.Unlink? && a.f == f) ==> f in t.dir && t.dir[f] == s.dir[f])
            && (f in t.dir && f !in s.dir ==> a == Open(a.p, f))
  {
  }

  /** A process that gives up, or has released a lock or one that it shared, has nothing of the file and can open it again;
      one that shares does not have the lock itself. */
  lemma LeavesNothing(s: State, a: Action)
    requires Inv(s) && Enabled(s, a)
    ensures a.GiveUp? || a.Close? || a.Forget? ==> Enabled(Next(s, a), Open(a.p, a.f))
    ensures a.Share? ==> && Enabled(Next(s, a), Forget(a.p, a.f)) && Next(s, a).locks == s.locks
    ensures a.GiveUp? || a.Share? || a.Forget? ==> Next(s, a).locks == s.locks && Next(s, a).dir == s.dir
    ensures a.Unlink? ==> a.f !in Next(s, a).dir && Next(s, a).locks == s.locks && Enabled(Next(s, a), Close(a.p, a.f))
  {
  }

  /** Whoever has something of a lock file can go on: it is locked if nobody has the lock and otherwise given up or shared, and
      a lock that was taken, or is shared, can be released. */
  lemma CanGoOn(s: State, p: Pid, f: Path)
    requires Inv(s) && !Enabled(s, Open(p, f))
    ensures s.holds[(p, f)].Opened? ==>
              && (Enabled(s, Flock(p, f)) <==> !Enabled(s, GiveUp(p, f)))
              && (Enabled(s, Share(p, f)) <==> Enabled(s, GiveUp(p, f)))
    ensures s.holds[(p, f)].Locked? ==> Enabled(s, Unlink(p, f)) && Enabled(Next(s, Unlink(p, f)), Close(p, f))
    ensures s.holds[(p, f)].SameExecId? ==> Enabled(s, Forget(p, f))
  {
  }

  /** A crash frees exactly the locks of the process and its descriptors; files and everything of other processes stay. */
  lemma CrashFrees(s: State, p: Pid)
    requires Inv(s)
    ensures var t := Next(s, Crash(p));
            && t.dir == s.dir && t.next == s.next
            && (forall i | i in s.locks :: i in t.locks <==> s.locks[i] != p)
            && (forall i | i in t.locks :: i in s.locks && t.locks[i] == s.locks[i])
            && (forall k | k in s.holds :: k in t.holds <==> k.0 != p)
            && (forall k | k in t.holds :: k in s.holds && t.holds[k] == s.holds[k])
  {
  }

  /** So a process that has opened a file which the crashed one had locked can lock it. */
  lemma LockAfterCrash(s: State, p: Pid, q: Pid, f: Path)
    requires Inv(s) && p != q && (q, f) in s.holds && s.holds[(q, f)].Opened?
    requires s.holds[(q, f)].inode in s.locks && s.locks[s.holds[(q, f)].inode] == p
    ensures !Enabled(s, Flock(q, f)) && Enabled(Next(s, Crash(p)), Flock(q, f))
  {
  }

  /** A release ends with the lock free: a process that has opened the file can lock it then. */
  lemma LockAfterRelease(s: State, p: Pid, q: Pid, f: Path, g: Path)
    requires Inv(s) && Enabled(s, Close(p, f)) && p != q && (q, g) in s.holds && s.holds[(q, g)].Opened?
    requires s.holds[(q, g)].inode == s.holds[(p, f)].inode
    ensures !Enabled(s, Flock(q, g)) && Enabled(Next(s, Close(p, f)), Flock(q, g))
    ensures (p, f) !in Next(s, Close(p, f)).holds
  {
  }

  lemma StepKeeps(s: State, a: Action)
    requires Inv(s) && Enabled(s, a) && (a.Flock? ==> StillNamed(s, a.p, a.f))
    ensures Inv(Next(s, a))
  {
    hide Inv;
    hide Next;
    match a
    case Open(p, f) => OpenKeeps(s, p, f);
    case Flock(p, f) => FlockKeepsExactlyWhen(s, p, f);
    case Unlink(p, f) => UnlinkKeeps(s, p, f);
    case Close(p, f) => CloseKeeps(s, p, f);
    case Crash(p) => CrashKeeps(s, p);
    case _ => LeaveKeeps(s, a);
  }

  // ----- Runs -----

  /** The state that a series of steps leads to, if each of them can be taken. */
  function Run(s: State, actions: seq<Action>): Option<State>
    decreases |actions|
  {
    if actions == [] then Some(s)
    else if Enabled(s, actions[0]) then Run(Next(s, actions[0]), actions[1..])
    else None
  }

  /** Every successful lock is taken while the path still names the opened file. */
  predicate LocksWhatIsNamed(s: State, actions: seq<Action>)
    decreases |actions|
  {
    actions != [] && Enabled(s, actions[0]) ==>
      (actions[0].Flock? ==> StillNamed(s, actions[0].p, actions[0].f))
      && LocksWhatIsNamed(Next(s, actions[0]), actions[1..])
  }

  lemma {:induction false} RunKeeps(s: State, actions: seq<Action>)
    requires Inv(s) && LocksWhatIsNamed(s, actions) && Run(s, actions).Some?
    ensures Inv(Run(s, actions).value)
    decreases |actions|
  {
    hide Inv;
    if actions != [] {
      StepKeeps(s, actions[0]);
      RunKeeps(Next(s, actions[0]), actions[1..]);
    }
  }

  /** In every state of the run who has a lock and has not begun to release it has the file that its path names. */
  ghost predicate AlwaysHoldsWhatPathNames(s: State, actions: seq<Action>)
    decreases |actions|
  {
    HoldsWhatPathNames(s) &&
    (actions != [] && Enabled(s, actions[0]) ==> AlwaysHoldsWhatPathNames(Next(s, actions[0]), actions[1..]))
  }

  lemma LockedIsNamed(s: State, p: Pid, f: Path)
    requires Enabled(s, Flock(p, f)) && HoldsWhatPathNames(Next(s, Flock(p, f)))
    ensures StillNamed(s, p, f)
  {
    var t := Next(s, Flock(p, f));
    assert (p, f) in t.holds && t.holds[(p, f)].Locked?;
  }

  /** Over every run, with any interleaving, that is so exactly when every successful lock is taken while the path still
      names the opened file. */
  lemma {:induction false} AlwaysHoldsExactlyWhen(s: State, actions: seq<Action>)
    requires Inv(s)
    ensures AlwaysHoldsWhatPathNames(s, actions) <==> LocksWhatIsNamed(s, actions)
    decreases |actions|
  {
    hide Next;
    hide Enabled;
    hide StillNamed;
    assert HoldsWhatPathNames(s);
    hide Inv;
    hide HoldsWhatPathNames;
    if actions != [] && Enabled(s, actions[0]) {
      var a := actions[0];
      if a.Flock? && AlwaysHoldsWhatPathNames(s, actions) {
        assert AlwaysHoldsWhatPathNames(Next(s, a), actions[1..]);
        LockedIsNamed(s, a.p, a.f);
      }
      if a.Flock? ==> StillNamed(s, a.p, a.f) {
        StepKeeps(s, a);
        AlwaysHoldsExactlyWhen(Next(s, a), actions[1..]);
      }
    }
  }

  /** In a run every lock directly follows the open of the same process: an attempt is one step. */
  predicate AttemptsAreOneStep(actions: seq<Action>) {
    forall i | 0 <= i < |actions| && actions[i].Flock? ::
      i > 0 && actions[i - 1] == Open(actions[i].p, actions[i].f)
  }

  lemma {:induction false} OneStepLocksWhatIsNamed(s: State, actions: seq<Action>, n: nat)
    requires n <= |actions| && AttemptsAreOneStep(actions) && Run(START, actions[..n]) == Some(s) && Inv(s)
    ensures LocksWhatIsNamed(s, actions[n..])
    decreases |actions| - n
  {
    hide Inv;
    if n < |actions| && Enabled(s, actions[n]) {
      var a := actions[n];
      var rest := actions[n..];
      assert rest[0] == a && rest[1..] == actions[n + 1..];
      if a.Flock? {
        JustOpened(s, actions, n);
      }
      StepKeeps(s, a);
      RunOneMore(START, actions, n);
      OneStepLocksWhatIsNamed(Next(s, a), actions, n + 1);
    }
  }

  lemma {:induction false} RunOneMore(s: State, actions: seq<Action>, n: nat)
    requires n < |actions| && Run(s, actions[..n]).Some?
    ensures Run(s, actions[..n + 1]) ==
            var t := Run(s, actions[..n]).value;
            if Enabled(t, actions[n]) then Some(Next(t, actions[n])) else None
    decreases n
  {
    hide Next;
    hide Enabled;
    if n == 0 {
      assert actions[..1][1..] == [];
    } else {
      assert actions[..n][1..] == actions[1..][..n - 1];
      assert actions[..n + 1][1..] == actions[1..][..n];
      RunOneMore(Next(s, actions[0]), actions[1..], n - 1);
    }
  }

  lemma JustOpened(s: State, actions: seq<Action>, n: nat)
    requires 0 < n < |actions| && Run(START, actions[..n]) == Some(s)
    requires actions[n].Flock? && actions[n - 1] == Open(actions[n].p, actions[n].f)
    ensures StillNamed(s, actions[n].p, actions[n].f)
  {
    RunPrefix(START, actions, n);
    RunOneMore(START, actions, n - 1);
  }

  lemma {:induction false} RunPrefix(s: State, actions: seq<Action>, n: nat)
    requires 0 < n <= |actions| && Run(s, actions[..n]).Some?
    ensures Run(s, actions[..n - 1]).Some?
    decreases n
  {
    hide Next;
    hide Enabled;
    if n > 1 {
      assert actions[..n][1..] == actions[1..][..n - 1];
      assert actions[..n - 1][1..] == actions[1..][..n - 2];
      RunPrefix(Next(s, actions[0]), actions[1..], n - 1);
    }
  }

  lemma StartHolds()
    ensures Inv(START)
  {
  }

  /** Over every interleaving in which an attempt is one step, who has a lock and has not begun to release it has the file
      that its path names, and nobody else has a lock for the same path. */
  lemma LocksExclude(actions: seq<Action>, p: Pid, q: Pid, f: Path)
    requires AttemptsAreOneStep(actions) && Run(START, actions).Some?
    ensures var s := Run(START, actions).value;
            (p, f) in s.holds && s.holds[(p, f)].Locked? ==>
              && f in s.dir && s.dir[f] == s.holds[(p, f)].inode
              && s.dir[f] in s.locks && s.locks[s.dir[f]] == p
              && ((q, f) in s.holds && s.holds[(q, f)].Locked? ==> p == q)
  {
    StartHolds();
    assert actions[..0] == [] && actions[0..] == actions;
    OneStepLocksWhatIsNamed(START, actions, 0);
    RunKeeps(START, actions);
  }

  /** And no release removes a file that another process has locked. */
  lemma ReleaseRemovesOwnFile(actions: seq<Action>, p: Pid, f: Path, q: Pid, g: Path)
    requires AttemptsAreOneStep(actions) && Run(START, actions).Some?
    requires Enabled(Run(START, actions).value, Unlink(p, f)) && (q, g) != (p, f)
    ensures var s := Run(START, actions).value;
            && f in s.dir && s.dir[f] in s.locks && s.locks[s.dir[f]] == p
            && ((q, g) in s.holds && Has(s.holds[(q, g)]) ==> s.holds[(q, g)].inode != s.dir[f])
  {
    StartHolds();
    assert actions[..0] == [] && actions[0..] == actions;
    OneStepLocksWhatIsNamed(START, actions, 0);
    RunKeeps(START, actions);
  }

  // ----- When open and flock are two steps -----

  const OLD_FILE := [Open(1, 0), Flock(1, 0), Open(2, 0), Unlink(1, 0), Close(1, 0)]
  const TWO_LOCKS := [Flock(2, 0), Open(3, 0), Flock(3, 0)]
  const OLD_FILE_OPEN := State(map[], map[], map[(2, 0) := Opened(0)], 1)

  lemma OldFileRun(rest: seq<Action>)
    ensures Run(START, OLD_FILE + rest) == Run(OLD_FILE_OPEN, rest)
  {
    var s1 := Next(START, Open(1, 0));
    var s2 := Next(s1, Flock(1, 0));
    var s3 := Next(s2, Open(2, 0));
    var s4 := Next(s3, Unlink(1, 0));
    assert s3 == State(map[0 := 0], map[0 := 1], map[(1, 0) := Locked(0), (2, 0) := Opened(0)], 1);
    assert Next(s4, Close(1, 0)) == OLD_FILE_OPEN;
    FollowRun(START, s1, OLD_FILE, rest, 0);
    FollowRun(s1, s2, OLD_FILE, rest, 1);
    FollowRun(s2, s3, OLD_FILE, rest, 2);
    FollowRun(s3, s4, OLD_FILE, rest, 3);
    FollowRun(s4, OLD_FILE_OPEN, OLD_FILE, rest, 4);
    assert OLD_FILE[0..] + rest == OLD_FILE + rest && OLD_FILE[5..] + rest == rest;
  }

  lemma TwoLocksRun()
    ensures Run(OLD_FILE_OPEN, TWO_LOCKS) ==
            Some(State(map[0 := 1], map[0 := 2, 1 := 3], map[(2, 0) := Locked(0), (3, 0) := Locked(1)], 2))
  {
    var s1 := Next(OLD_FILE_OPEN, Flock(2, 0));
    var s2 := Next(s1, Open(3, 0));
    assert s2 == State(map[0 := 1], map[0 := 2], map[(2, 0) := Locked(0), (3, 0) := Opened(1)], 2);
    FollowRun(OLD_FILE_OPEN, s1, TWO_LOCKS, [], 0);
    FollowRun(s1, s2, TWO_LOCKS, [], 1);
    var s3 := State(map[0 := 1], map[0 := 2, 1 := 3], map[(2, 0) := Locked(0), (3, 0) := Locked(1)], 2);
    assert Next(s2, Flock(3, 0)) == s3;
    FollowRun(s2, s3, TWO_LOCKS, [], 2);
    assert TWO_LOCKS[0..] + [] == TWO_LOCKS && TWO_LOCKS[3..] + [] == [];
  }

  /** The second process opens the file before the first removes it and locks it afterwards; the third creates a new file.
      Both then have a lock for the same path. */
  lemma SplitAttemptBreaksExclusion()
    ensures var s := Run(START, OLD_FILE + TWO_LOCKS);
            && s.Some? && (2, 0) in s.value.holds && (3, 0) in s.value.holds
            && s.value.holds[(2, 0)].Locked? && s.value.holds[(3, 0)].Locked?
  {
    hide Run;
    OldFileRun(TWO_LOCKS);
    TwoLocksRun();
  }

  lemma FollowRun(s: State, t: State, actions: seq<Action>, rest: seq<Action>, n: nat)
    requires n < |actions| && Enabled(s, actions[n]) && Next(s, actions[n]) == t
    ensures Run(s, actions[n..] + rest) == Run(t, actions[n + 1..] + rest)
  {
    var all := actions[n..] + rest;
    assert all[0] == actions[n] && all[1..] == actions[n + 1..] + rest;
  }
}
