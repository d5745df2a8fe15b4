/** The lock-file protocol by which any number of concurrent callers load one keypair
    from a file, or create it. Every file-system call on the keypair file and on the lock file
    is a step of its own. */
module KeypairLock {
  import opened Options

  type Key = nat

  /** The keypair file. It is written by an atomic rename, so readers see all of it or none. */
  datatype File = Absent | Corrupt | Stored(key: Key)

  /** Where a caller stands, named by the file-system call that comes next. */
  datatype Caller =
    | Start                          // path.exists()
    | Reading                        // the load after it
    | Unlinking                      // path.unlink() after a failed load
    | Inspecting                     // lock_path.exists()
    | Statting                       // lock_path.stat() after it
    | RemovingStale                  // lock_path.unlink() of a lock that is old, or whose stat failed
    | Locking(left: nat)             // os.open(O_CREAT | O_EXCL), `left` attempts to go
    | WaitExists(left: nat)          // path.exists() after the lock was found taken
    | WaitRead(left: nat)            // the load after it
    | Locked                         // path.exists() under the lock
    | LockedRead                     // the load after it
    | Generating                     // no usable file: make a fresh keypair
    | Writing(key: Key)              // os.rename() of the temporary file
    | Releasing(result: Option<Key>) // the finally block: unlink the lock file
    | Done(key: Key)
    | Failed
    | Crashed

  /** How a step turns out, where that is not decided by the file system's state. */
  datatype Choice =
    | Go
    | Fresh(key: Key)   // the keypair that is generated
    | ReadFault         // a load fails although the file is sound
    | WriteFault        // the temporary file cannot be written or renamed
    | JudgeOld          // the lock file of a running caller is found to be older than 30 seconds
    | JudgeStale        // so is an abandoned lock file
    | StatFault         // the stat fails although the lock file is there
    | Crash             // the process ends here

  /** The lock file: its owner is at work, or it was left behind by a process that has ended. */
  datatype Lock = Free | Live(owner: nat) | Abandoned

  datatype System = System(file: File, lock: Lock, callers: seq<Caller>)

  const ATTEMPTS: nat := 500

  datatype Turn = Turn(who: nat, choice: Choice)

  predicate InCritical(c: Caller) {
    c.Locked? || c.LockedRead? || c.Generating? || c.Writing? || c.Releasing?
  }

  /** The result of a load: only a sound file can be read. */
  predicate Loads(file: File, choice: Choice) {
    file.Stored? && choice != ReadFault
  }

  /** Whether the caller removes the lock file after the stat. Without a lock file the stat
      raises, and the handler unlinks whatever is there by then. */
  predicate FindsStale(lock: Lock, choice: Choice) {
    || lock.Free? || choice == StatFault
    || (choice == JudgeOld && lock.Live?) || (choice == JudgeStale && lock.Abandoned?)
  }

  /** What one step of one caller leaves behind. */
  datatype Outcome = Outcome(file: File, lock: Lock, caller: Caller)

  /** The step of caller `me`, which stands at `c`. */
  function Move(file: File, lock: Lock, me: nat, c: Caller, choice: Choice): Outcome {
    var present := file != Absent;
    if c.Done? || c.Failed? || c.Crashed? then Outcome(file, lock, c)
    else if choice == Crash then Outcome(file, if lock == Live(me) then Abandoned else lock, Crashed)
    else
      match c
      case Start => Outcome(file, lock, if present then Reading else Inspecting)
      case Reading => Outcome(file, lock, if Loads(file, choice) then Done(file.key) else Unlinking)
      case Unlinking => Outcome(Absent, lock, Inspecting)
      case Inspecting => Outcome(file, lock, if lock.Free? then Locking(ATTEMPTS) else Statting)
      case Statting => Outcome(file, lock, if FindsStale(lock, choice) then RemovingStale else Locking(ATTEMPTS))
      case RemovingStale => Outcome(file, Free, Locking(ATTEMPTS))
      case Locking(left) =>
        if left == 0 then Outcome(file, lock, Failed)
        else if lock.Free? then Outcome(file, Live(me), Locked)
        else Outcome(file, lock, WaitExists(left - 1))
      case WaitExists(left) => Outcome(file, lock, if present then WaitRead(left) else Locking(left))
      case WaitRead(left) => Outcome(file, lock, if Loads(file, choice) then Done(file.key) else Locking(left))
      case Locked => Outcome(file, lock, if present then LockedRead else Generating)
      case LockedRead => Outcome(file, lock, if Loads(file, choice) then Releasing(Some(file.key)) else Generating)
      case Generating => Outcome(file, lock, if choice.Fresh? then Writing(choice.key) else Generating)
      case Writing(key) =>
        if choice == WriteFault then Outcome(file, lock, Releasing(None))
        else Outcome(Stored(key), lock, Releasing(Some(key)))
      case Releasing(result) => Outcome(file, Free, if result.Some? then Done(result.value) else Failed)
  }

  /** One turn of one caller. A turn of nobody changes nothing. */
  function Exec(s: System, turn: Turn): System {
    if turn.who >= |s.callers| then s
    else
      var after := Move(s.file, s.lock, turn.who, s.callers[turn.who], turn.choice);
      System(after.file, after.lock, s.callers[turn.who := after.caller])
  }

  function Run(s: System, turns: seq<Turn>): System {
    if turns == [] then s else Exec(Run(s, turns[..|turns| - 1]), turns[|turns| - 1])
  }

  /** Where a run begins: with a lock file that an earlier process has left over, or with none. */
  function Initial(file: File, leftOver: bool, n: nat): System {
    System(file, if leftOver then Abandoned else Free, seq(n, _ => Start))
  }

  // ----- What is promised

  /** Whoever has returned a keypair returned the one in the file. */
  ghost predicate Agreement(s: System) {
    forall i :: 0 <= i < |s.callers| && s.callers[i].Done? ==> s.file == Stored(s.callers[i].key)
  }

  /** What may go wrong around the protocol: loads of a sound file that fail, writes that fail, processes
      that end at any point, lock files that get old while their owner runs, lock files that
      are old after their owner has ended, and stats of a lock file that fail although it is there. */
  datatype Environment = Environment(readFaults: bool, writeFaults: bool, crashes: bool,
                                     oldLocks: bool, staleLocks: bool, statFaults: bool)

  predicate Permits(env: Environment, choice: Choice) {
    && (choice == ReadFault ==> env.readFaults) && (choice == WriteFault ==> env.writeFaults)
    && (choice == Crash ==> env.crashes)
    && (choice == JudgeOld ==> env.oldLocks) && (choice == JudgeStale ==> env.staleLocks)
    && (choice == StatFault ==> env.statFaults)
  }

  predicate Allowed(env: Environment, turns: seq<Turn>) {
    forall t <- turns :: Permits(env, t.choice)
  }

  /** In every interleaving of any number of callers: all callers that return agree
      with the file, and a file once present never changes. */
  ghost predicate Safe(env: Environment, file: File, leftOver: bool) {
    forall n: nat, turns, more ::
      Allowed(env, turns + more) ==>
        var s, t := Run(Initial(file, leftOver, n), turns), Run(Initial(file, leftOver, n), turns + more);
        Agreement(s) && (s.file.Stored? ==> t.file == s.file)
  }

  // ----- The invariant

  /** What a caller's place in the protocol says about the files. */
  ghost predicate Fits(c: Caller, file: File, lock: Lock) {
    match c
    case Reading => file.Stored?
    case WaitRead(_) => file.Stored?
    case LockedRead => file.Stored?
    case Unlinking => false
    case Statting => !lock.Free? || file.Stored?
    case RemovingStale => file.Stored?
    case Generating => file == Absent
    case Writing(_) => file == Absent
    case Releasing(result) => result.Some? && file == Stored(result.value)
    case Done(key) => file == Stored(key)
    case _ => true
  }

  /** While the file is to be made, one caller at most is in the critical section, and it holds the lock. */
  ghost predicate Exclusive(s: System) {
    && (forall i :: 0 <= i < |s.callers| && InCritical(s.callers[i]) ==> !s.lock.Free?)
    && (forall i, j :: 0 <= i < j < |s.callers| && InCritical(s.callers[i]) ==> !InCritical(s.callers[j]))
  }

  /** Loads, writes and stats do not fail, no lock gets old while its owner runs, and if processes end
      early, the locks they leave behind do not count as old. */
  predicate IsSound(env: Environment) {
    && !env.readFaults && !env.writeFaults && !env.oldLocks && !env.statFaults
    && !(env.crashes && env.staleLocks)
  }

  ghost predicate Inv(env: Environment, s: System) {
    && s.file != Corrupt
    && (env.staleLocks && !s.file.Stored? ==> !s.lock.Abandoned?)
    && (forall i :: 0 <= i < |s.callers| ==> Fits(s.callers[i], s.file, s.lock))
    && (s.file == Absent ==> Exclusive(s))
  }

  /** What a step does, seen from the caller that takes it. */
  lemma MoveKeepsFit(env: Environment, file: File, lock: Lock, me: nat, c: Caller, choice: Choice)
    requires IsSound(env) && file != Corrupt && Fits(c, file, lock) && Permits(env, choice)
    requires env.staleLocks && !file.Stored? ==> !lock.Abandoned?
    requires file == Absent && InCritical(c) ==> !lock.Free?
    ensures var after := Move(file, lock, me, c, choice);
            && after.file != Corrupt && Fits(after.caller, after.file, after.lock)
            && (InCritical(after.caller) && after.file == Absent ==> !after.lock.Free?)
            && (file.Stored? ==> after.file == file)
            && (after.file != file ==> InCritical(c) && file == Absent && after.lock == lock)
            && (after.file == Absent && !lock.Free? ==> !after.lock.Free?)
            && (after.file == Absent && InCritical(after.caller) && !InCritical(c) ==> lock.Free?)
            && (env.staleLocks && !after.file.Stored? ==> !after.lock.Abandoned?)
  {
  }

  /** A step does not disturb the callers that do not take it. */
  lemma OthersStillFit(file: File, lock: Lock, other: Caller, file': File, lock': Lock)
    requires Fits(other, file, lock)
    requires file' == file || (file == Absent && !InCritical(other) && lock' == lock)
    requires file' != Corrupt && (file' == Absent && !lock.Free? ==> !lock'.Free?)
    ensures Fits(other, file', lock')
  {
  }

  lemma ExecKeepsInv(env: Environment, s: System, turn: Turn)
    requires IsSound(env) && Inv(env, s) && Permits(env, turn.choice)
    ensures Inv(env, Exec(s, turn))
    ensures s.file.Stored? ==> Exec(s, turn).file == s.file
  {
    var t := Exec(s, turn);
    if turn.who < |s.callers| {
      var w := turn.who;
      MoveKeepsFit(env, s.file, s.lock, w, s.callers[w], turn.choice);
      forall i | 0 <= i < |t.callers|
        ensures Fits(t.callers[i], t.file, t.lock)
        ensures t.file == Absent && i != w && InCritical(t.callers[w]) ==> !InCritical(t.callers[i])
      {
        if i != w {
          OthersStay(env, s, turn, i);
        }
      }
    }
  }

  lemma OthersStay(env: Environment, s: System, turn: Turn, i: nat)
    requires IsSound(env) && Inv(env, s) && Permits(env, turn.choice)
    requires turn.who < |s.callers| && i < |s.callers| && i != turn.who
    ensures var t := Exec(s, turn);
            && Fits(t.callers[i], t.file, t.lock)
            && (t.file == Absent && InCritical(t.callers[turn.who]) ==> !InCritical(t.callers[i]))
  {
    var t, w := Exec(s, turn), turn.who;
    MoveKeepsFit(env, s.file, s.lock, w, s.callers[w], turn.choice);
    assert i < w || w < i;
    OthersStillFit(s.file, s.lock, s.callers[i], t.file, t.lock);
  }

  lemma {:induction false} RunKeepsInv(env: Environment, s: System, turns: seq<Turn>)
    requires IsSound(env) && Inv(env, s) && Allowed(env, turns)
    ensures Inv(env, Run(s, turns))
    ensures s.file.Stored? ==> Run(s, turns).file == s.file
  {
    if turns != [] {
      assert turns[|turns| - 1] in turns;
      RunKeepsInv(env, s, turns[..|turns| - 1]);
      ExecKeepsInv(env, Run(s, turns[..|turns| - 1]), turns[|turns| - 1]);
    }
  }

  lemma {:induction false} RunAppend(s: System, a: seq<Turn>, b: seq<Turn>)
    ensures Run(s, a + b) == Run(Run(s, a), b)
  {
    if b == [] {
      assert a + b == a;
    } else {
      var last := b[|b| - 1];
      assert a + b == (a + b[..|b| - 1]) + [last];
      assert (a + b)[..|a + b| - 1] == a + b[..|b| - 1];
      RunAppend(s, a, b[..|b| - 1]);
    }
  }

  lemma InvAgrees(env: Environment, s: System)
    requires Inv(env, s)
    ensures Agreement(s)
  {
    assert forall i :: 0 <= i < |s.callers| && s.callers[i].Done? ==> Fits(s.callers[i], s.file, s.lock);
  }

  lemma SoundRun(env: Environment, s: System, turns: seq<Turn>, more: seq<Turn>)
    requires IsSound(env) && Inv(env, s) && Allowed(env, turns + more)
    ensures Agreement(Run(s, turns))
    ensures Run(s, turns).file.Stored? ==> Run(s, turns + more).file == Run(s, turns).file
  {
    forall t | t in turns ensures t in turns + more {}
    forall t | t in more ensures t in turns + more {}
    RunKeepsInv(env, s, turns);
    InvAgrees(env, Run(s, turns));
    RunAppend(s, turns, more);
    RunKeepsInv(env, Run(s, turns), more);
  }

  /** From nothing, with no lock file left over: the first caller makes the file, the others load it. */
  lemma SafeFromNothing(env: Environment)
    requires IsSound(env)
    ensures Safe(env, Absent, false)
  {
    forall n: nat, turns, more | Allowed(env, turns + more)
      ensures Agreement(Run(Initial(Absent, false, n), turns))
      ensures Run(Initial(Absent, false, n), turns).file.Stored? ==>
                Run(Initial(Absent, false, n), turns + more).file == Run(Initial(Absent, false, n), turns).file
    {
      SoundRun(env, Initial(Absent, false, n), turns, more);
    }
  }

  // ----- A lock file that is left over and stays

  /** Nobody gets past the lock file, and there is nothing to load. */
  ghost predicate Blocked(s: System) {
    && s.lock.Abandoned? && !s.file.Stored?
    && forall i :: 0 <= i < |s.callers| ==>
         !InCritical(s.callers[i]) && !s.callers[i].RemovingStale? && !s.callers[i].Done?
  }

  /** As long as the lock file that was left over does not count as old, every caller fails or waits: no
      keypair is made, and none is returned. */
  lemma {:induction false} LeftOverLockBlocks(env: Environment, file: File, n: nat, turns: seq<Turn>)
    requires !file.Stored? && !env.staleLocks && !env.statFaults && Allowed(env, turns)
    ensures Blocked(Run(Initial(file, true, n), turns))
  {
    if turns != [] {
      assert turns[|turns| - 1] in turns;
      LeftOverLockBlocks(env, file, n, turns[..|turns| - 1]);
    }
  }

  lemma SafeBehindLeftOverLock(env: Environment, file: File)
    requires !file.Stored? && !env.staleLocks && !env.statFaults
    ensures Safe(env, file, true)
  {
    forall n: nat, turns, more | Allowed(env, turns + more)
      ensures Agreement(Run(Initial(file, true, n), turns)) && !Run(Initial(file, true, n), turns).file.Stored?
    {
      forall t | t in turns ensures t in turns + more {}
      LeftOverLockBlocks(env, file, n, turns);
    }
  }

  // ----- Every assumption is needed

  /** `t` can come about from `s`. */
  ghost predicate Reaches(env: Environment, s: System, t: System) {
    exists turns :: Allowed(env, turns) && Run(s, turns) == t
  }

  lemma ReachesSelf(env: Environment, s: System)
    ensures Reaches(env, s, s)
  {
    assert Run(s, []) == s;
  }

  /** One more turn. */
  lemma Take(env: Environment, s: System, t: System, turn: Turn)
    requires Reaches(env, s, t) && Permits(env, turn.choice)
    ensures Reaches(env, s, Exec(t, turn))
  {
    var turns :| Allowed(env, turns) && Run(s, turns) == t;
    assert (turns + [turn])[..|turns|] == turns;
    assert Allowed(env, turns + [turn]) && Run(s, turns + [turn]) == Exec(t, turn);
  }

  /** Caller `i` takes one more step, to `after`. */
  lemma Goes(env: Environment, s: System, t: System, i: nat, choice: Choice, after: Outcome)
    requires Reaches(env, s, t) && Permits(env, choice) && i < |t.callers|
    requires Move(t.file, t.lock, i, t.callers[i], choice) == after
    ensures Reaches(env, s, System(after.file, after.lock, t.callers[i := after.caller]))
  {
    Take(env, s, t, Turn(i, choice));
  }

  /** Caller `i` takes two steps, over `mid` to `after`. */
  lemma GoesTwice(env: Environment, s: System, t: System, i: nat, first: Choice, mid: Outcome, second: Choice,
                  after: Outcome)
    requires Reaches(env, s, t) && Permits(env, first) && Permits(env, second) && i < |t.callers|
    requires Move(t.file, t.lock, i, t.callers[i], first) == mid
             && Move(mid.file, mid.lock, i, mid.caller, second) == after
    ensures Reaches(env, s, System(after.file, after.lock, t.callers[i := after.caller]))
  {
    Goes(env, s, t, i, first, mid);
    var u := System(mid.file, mid.lock, t.callers[i := mid.caller]);
    Goes(env, s, u, i, second, after);
    assert u.callers[i := after.caller] == t.callers[i := after.caller];
  }

  /** A run that ends in disagreement. */
  lemma Disproves(env: Environment, file: File, leftOver: bool, n: nat, t: System)
    requires Reaches(env, Initial(file, leftOver, n), t) && !Agreement(t)
    ensures !Safe(env, file, leftOver)
  {
    var turns :| Allowed(env, turns) && Run(Initial(file, leftOver, n), turns) == t;
    assert turns + [] == turns;
  }

  /** A run that changes a file once present. */
  lemma DisprovedByChange(env: Environment, file: File, leftOver: bool, n: nat, t: System)
    requires file.Stored? && Reaches(env, Initial(file, leftOver, n), t) && t.file != file
    ensures !Safe(env, file, leftOver)
  {
    var s := Initial(file, leftOver, n);
    var turns :| Allowed(env, turns) && Run(s, turns) == t;
    assert [] + turns == turns && Run(s, []) == s;
    assert Run(s, [] + turns).file != Run(s, []).file;
  }

  /** A caller that is about to take the free lock, with no file there, gets to generate. */
  lemma Locks(env: Environment, s: System, t: System, i: nat)
    requires Reaches(env, s, t) && i < |t.callers| && t.callers[i] == Locking(ATTEMPTS) && t.lock.Free?
             && t.file == Absent
    ensures Reaches(env, s, System(Absent, Live(i), t.callers[i := Generating]))
  {
    GoesTwice(env, s, t, i, Go, Outcome(Absent, Live(i), Locked), Go, Outcome(Absent, Live(i), Generating));
  }

  /** So does a caller about to look for a lock file, with none there. */
  lemma Acquires(env: Environment, s: System, t: System, i: nat)
    requires Reaches(env, s, t) && i < |t.callers| && t.callers[i] == Inspecting && t.lock.Free? && t.file == Absent
    ensures Reaches(env, s, System(Absent, Live(i), t.callers[i := Generating]))
  {
    Goes(env, s, t, i, Go, Outcome(Absent, Free, Locking(ATTEMPTS)));
    var u := System(Absent, Free, t.callers[i := Locking(ATTEMPTS)]);
    Locks(env, s, u, i);
    assert u.callers[i := Generating] == t.callers[i := Generating];
  }

  /** And so does a caller about to remove a lock file, whoever holds the lock. */
  lemma Steals(env: Environment, s: System, t: System, i: nat)
    requires Reaches(env, s, t) && i < |t.callers| && t.callers[i] == RemovingStale && t.file == Absent
    ensures Reaches(env, s, System(Absent, Live(i), t.callers[i := Generating]))
  {
    Goes(env, s, t, i, Go, Outcome(Absent, Free, Locking(ATTEMPTS)));
    var u := System(Absent, Free, t.callers[i := Locking(ATTEMPTS)]);
    Locks(env, s, u, i);
    assert u.callers[i := Generating] == t.callers[i := Generating];
  }

  /** A caller that found no file under the lock writes `key` and returns it, if left alone. */
  lemma Finishes(env: Environment, s: System, t: System, i: nat, key: Key)
    requires Reaches(env, s, t) && i < |t.callers| && t.callers[i] == Generating
    ensures Reaches(env, s, System(Stored(key), Free, t.callers[i := Done(key)]))
  {
    Goes(env, s, t, i, Fresh(key), Outcome(t.file, t.lock, Writing(key)));
    var u := System(t.file, t.lock, t.callers[i := Writing(key)]);
    GoesTwice(env, s, u, i, Go, Outcome(Stored(key), t.lock, Releasing(Some(key))), Go,
              Outcome(Stored(key), Free, Done(key)));
    assert u.callers[i := Done(key)] == t.callers[i := Done(key)];
  }

  /** Two callers that both generate return different keypairs. */
  lemma TwoGenerate(env: Environment, file: File, leftOver: bool, n: nat, t: System, i: nat, j: nat)
    requires Reaches(env, Initial(file, leftOver, n), t) && i < |t.callers| && j < |t.callers| && i != j
    requires t.callers[i] == Generating && t.callers[j] == Generating
    ensures !Safe(env, file, leftOver)
  {
    var s := Initial(file, leftOver, n);
    Finishes(env, s, t, i, 1);
    var u := System(Stored(1), Free, t.callers[i := Done(1)]);
    Finishes(env, s, u, j, 2);
    var v := System(Stored(2), Free, u.callers[j := Done(2)]);
    assert v.callers[i] == Done(1);
    Disproves(env, file, leftOver, n, v);
  }

  /** Two callers that are both about to remove a lock file, each for the one it has seen: the second
      one removes the lock of the first, and both generate. */
  lemma TwoSteal(env: Environment, file: File, leftOver: bool, n: nat, t: System, i: nat, j: nat)
    requires Reaches(env, Initial(file, leftOver, n), t) && i < |t.callers| && j < |t.callers| && i != j
    requires t.callers[i] == RemovingStale && t.callers[j] == RemovingStale && t.file == Absent
    ensures !Safe(env, file, leftOver)
  {
    var s := Initial(file, leftOver, n);
    Steals(env, s, t, i);
    var u := System(Absent, Live(i), t.callers[i := Generating]);
    Steals(env, s, u, j);
    TwoGenerate(env, file, leftOver, n, System(Absent, Live(j), u.callers[j := Generating]), i, j);
  }

  /** A caller about to start finds the file it cannot load, and is about to unlink it. */
  lemma SeesCorrupt(env: Environment, s: System, t: System, i: nat)
    requires Reaches(env, s, t) && i < |t.callers| && t.callers[i] == Start && t.file == Corrupt
    ensures Reaches(env, s, System(Corrupt, t.lock, t.callers[i := Unlinking]))
  {
    GoesTwice(env, s, t, i, Go, Outcome(Corrupt, t.lock, Reading), Go, Outcome(Corrupt, t.lock, Unlinking));
  }

  lemma BothSeeCorrupt(env: Environment)
    ensures Reaches(env, Initial(Corrupt, false, 2), System(Corrupt, Free, [Unlinking, Unlinking]))
  {
    var s := Initial(Corrupt, false, 2);
    ReachesSelf(env, s);
    SeesCorrupt(env, s, s, 0);
    var t := System(Corrupt, Free, [Unlinking, Start]);
    assert s.callers[0 := Unlinking] == t.callers;
    SeesCorrupt(env, s, t, 1);
    assert t.callers[1 := Unlinking] == [Unlinking, Unlinking];
  }

  /** The first of them makes a new keypair and returns it. */
  lemma FirstReplacesCorrupt(env: Environment)
    ensures Reaches(env, Initial(Corrupt, false, 2), System(Stored(1), Free, [Done(1), Unlinking]))
  {
    var s := Initial(Corrupt, false, 2);
    BothSeeCorrupt(env);
    var t := System(Corrupt, Free, [Unlinking, Unlinking]);
    Goes(env, s, t, 0, Go, Outcome(Absent, Free, Inspecting));
    var u := System(Absent, Free, t.callers[0 := Inspecting]);
    Acquires(env, s, u, 0);
    var v := System(Absent, Live(0), u.callers[0 := Generating]);
    Finishes(env, s, v, 0, 1);
    assert v.callers[0 := Done(1)] == [Done(1), Unlinking];
  }

  /** Two callers that both saw a corrupt file: the second one unlinks the first one's keypair. */
  lemma UnsafeFromCorruptFile(env: Environment)
    ensures !Safe(env, Corrupt, false)
  {
    var t := System(Stored(1), Free, [Done(1), Unlinking]);
    FirstReplacesCorrupt(env);
    Goes(env, Initial(Corrupt, false, 2), t, 1, Go, Outcome(Absent, Free, Inspecting));
    var u := System(Absent, Free, t.callers[1 := Inspecting]);
    assert u.callers[0].Done?;
    Disproves(env, Corrupt, false, 2, u);
  }

  /** A caller for which a sound file fails to load unlinks it. */
  lemma FaultUnlinks(env: Environment, s: System, t: System, i: nat)
    requires Reaches(env, s, t) && env.readFaults
    requires i < |t.callers| && t.callers[i] == Start && t.file.Stored?
    ensures Reaches(env, s, System(Absent, t.lock, t.callers[i := Inspecting]))
  {
    GoesTwice(env, s, t, i, Go, Outcome(t.file, t.lock, Reading), ReadFault, Outcome(t.file, t.lock, Unlinking));
    var u := System(t.file, t.lock, t.callers[i := Unlinking]);
    Goes(env, s, u, i, Go, Outcome(Absent, t.lock, Inspecting));
    assert u.callers[i := Inspecting] == t.callers[i := Inspecting];
  }

  lemma UnsafeWithReadFaults(env: Environment, key: Key, leftOver: bool)
    requires env.readFaults
    ensures !Safe(env, Stored(key), leftOver)
  {
    var s := Initial(Stored(key), leftOver, 1);
    ReachesSelf(env, s);
    FaultUnlinks(env, s, s, 0);
    DisprovedByChange(env, Stored(key), leftOver, 1, System(Absent, s.lock, s.callers[0 := Inspecting]));
  }

  /** One caller starts from nothing and gets to generate; the others have not started. */
  lemma FirstGenerates(env: Environment, n: nat)
    requires n > 0
    ensures Reaches(env, Initial(Absent, false, n),
              System(Absent, Live(0), Initial(Absent, false, n).callers[0 := Generating]))
  {
    var s := Initial(Absent, false, n);
    ReachesSelf(env, s);
    Goes(env, s, s, 0, Go, Outcome(Absent, Free, Inspecting));
    var t := System(Absent, Free, s.callers[0 := Inspecting]);
    Acquires(env, s, t, 0);
    assert t.callers[0 := Generating] == s.callers[0 := Generating];
  }

  /** A keypair was made and returned; then its file fails to load, and is unlinked. */
  lemma UnsafeWithLateReadFaults(env: Environment)
    requires env.readFaults
    ensures !Safe(env, Absent, false)
  {
    var s := Initial(Absent, false, 2);
    FirstGenerates(env, 2);
    var t := System(Absent, Live(0), s.callers[0 := Generating]);
    Finishes(env, s, t, 0, 1);
    var u := System(Stored(1), Free, t.callers[0 := Done(1)]);
    FaultUnlinks(env, s, u, 1);
    var v := System(Absent, Free, u.callers[1 := Inspecting]);
    assert v.callers[0].Done?;
    Disproves(env, Absent, false, 2, v);
  }

  /** One caller holds the lock and generates; a second one has seen the lock file. */
  lemma SecondSeesLock(env: Environment, n: nat)
    requires n >= 2
    ensures Reaches(env, Initial(Absent, false, n),
                    System(Absent, Live(0), Initial(Absent, false, n).callers[0 := Generating][1 := Statting]))
  {
    var s := Initial(Absent, false, n);
    FirstGenerates(env, n);
    var t := System(Absent, Live(0), s.callers[0 := Generating]);
    GoesTwice(env, s, t, 1, Go, Outcome(Absent, Live(0), Inspecting), Go, Outcome(Absent, Live(0), Statting));
  }

  /** The second caller takes the lock of the first one for stale, and removes it: both generate. */
  lemma UnsafeWithStaleJudgements(env: Environment)
    requires env.oldLocks || env.statFaults
    ensures !Safe(env, Absent, false)
  {
    var s := Initial(Absent, false, 2);
    SecondSeesLock(env, 2);
    var t := System(Absent, Live(0), s.callers[0 := Generating][1 := Statting]);
    Goes(env, s, t, 1, if env.oldLocks then JudgeOld else StatFault, Outcome(Absent, Live(0), RemovingStale));
    var u := System(Absent, Live(0), t.callers[1 := RemovingStale]);
    Steals(env, s, u, 1);
    TwoGenerate(env, Absent, false, 2, System(Absent, Live(1), u.callers[1 := Generating]), 0, 1);
  }

  /** A caller that generates fails to write, and releases the lock. */
  lemma Fails(env: Environment, s: System, t: System, i: nat)
    requires Reaches(env, s, t) && env.writeFaults && i < |t.callers| && t.callers[i] == Generating
    ensures Reaches(env, s, System(t.file, Free, t.callers[i := Failed]))
  {
    Goes(env, s, t, i, Fresh(0), Outcome(t.file, t.lock, Writing(0)));
    var u := System(t.file, t.lock, t.callers[i := Writing(0)]);
    GoesTwice(env, s, u, i, WriteFault, Outcome(t.file, t.lock, Releasing(None)), Go, Outcome(t.file, Free, Failed));
    assert u.callers[i := Failed] == t.callers[i := Failed];
  }

  /** The first caller's write fails, and it releases the lock that the second one has just seen:
      the second one's stat fails, and it is about to remove whatever lock file it finds. */
  lemma LockVanishes(env: Environment)
    requires env.writeFaults
    ensures Reaches(env, Initial(Absent, false, 3), System(Absent, Free, [Failed, RemovingStale, Start]))
  {
    var s := Initial(Absent, false, 3);
    SecondSeesLock(env, 3);
    var t := System(Absent, Live(0), [Generating, Statting, Start]);
    assert s.callers[0 := Generating][1 := Statting] == t.callers;
    Fails(env, s, t, 0);
    var u := System(Absent, Free, [Failed, Statting, Start]);
    assert t.callers[0 := Failed] == u.callers;
    Goes(env, s, u, 1, Go, Outcome(Absent, Free, RemovingStale));
    assert u.callers[1 := RemovingStale] == [Failed, RemovingStale, Start];
  }

  /** A third caller takes the lock and generates; the second one removes its lock and generates as well.
      No lock has been judged by its age. */
  lemma UnsafeWithWriteFaults(env: Environment)
    requires env.writeFaults
    ensures !Safe(env, Absent, false)
  {
    var s := Initial(Absent, false, 3);
    LockVanishes(env);
    var t := System(Absent, Free, [Failed, RemovingStale, Start]);
    Goes(env, s, t, 2, Go, Outcome(Absent, Free, Inspecting));
    var u := System(Absent, Free, t.callers[2 := Inspecting]);
    Acquires(env, s, u, 2);
    var v := System(Absent, Live(2), u.callers[2 := Generating]);
    Steals(env, s, v, 1);
    TwoGenerate(env, Absent, false, 3, System(Absent, Live(1), v.callers[1 := Generating]), 1, 2);
  }

  /** Caller 0 ends while it holds the lock, which is old when callers 1 and 2 look at it. */
  lemma FirstCrashes(env: Environment)
    requires env.crashes
    ensures Reaches(env, Initial(Absent, false, 3), System(Absent, Abandoned, [Crashed, Start, Start]))
  {
    var s := Initial(Absent, false, 3);
    FirstGenerates(env, 3);
    var t := System(Absent, Live(0), s.callers[0 := Generating]);
    Goes(env, s, t, 0, Crash, Outcome(Absent, Abandoned, Crashed));
    assert t.callers[0 := Crashed] == [Crashed, Start, Start];
  }

  /** A caller about to start looks at an abandoned lock file, with no usable file there, and finds it stale. */
  lemma FindsAbandoned(env: Environment, s: System, t: System, i: nat)
    requires Reaches(env, s, t) && i < |t.callers| && t.callers[i] == Inspecting && t.lock.Abandoned?
             && t.file == Absent
    requires env.staleLocks || env.statFaults
    ensures Reaches(env, s, System(Absent, Abandoned, t.callers[i := RemovingStale]))
  {
    GoesTwice(env, s, t, i, Go, Outcome(Absent, Abandoned, Statting),
              if env.staleLocks then JudgeStale else StatFault, Outcome(Absent, Abandoned, RemovingStale));
  }

  /** Two callers find the same abandoned lock file stale, and both remove a lock file for it. */
  lemma BothFindAbandoned(env: Environment, file: File, leftOver: bool, n: nat, t: System, i: nat, j: nat)
    requires Reaches(env, Initial(file, leftOver, n), t) && i < |t.callers| && j < |t.callers| && i != j
    requires t.callers[i] == Inspecting && t.callers[j] == Inspecting && t.lock.Abandoned? && t.file == Absent
    requires env.staleLocks || env.statFaults
    ensures !Safe(env, file, leftOver)
  {
    var s := Initial(file, leftOver, n);
    FindsAbandoned(env, s, t, i);
    var u := System(Absent, Abandoned, t.callers[i := RemovingStale]);
    FindsAbandoned(env, s, u, j);
    TwoSteal(env, file, leftOver, n, System(Absent, Abandoned, u.callers[j := RemovingStale]), i, j);
  }

  /** The lock of a caller that ended early is old: the other two callers both get to generate. */
  lemma UnsafeAfterCrash(env: Environment)
    requires env.crashes && env.staleLocks
    ensures !Safe(env, Absent, false)
  {
    var s, t := Initial(Absent, false, 3), System(Absent, Abandoned, [Crashed, Start, Start]);
    FirstCrashes(env);
    Goes(env, s, t, 1, Go, Outcome(Absent, Abandoned, Inspecting));
    var u := System(Absent, Abandoned, t.callers[1 := Inspecting]);
    Goes(env, s, u, 2, Go, Outcome(Absent, Abandoned, Inspecting));
    BothFindAbandoned(env, Absent, false, 3, System(Absent, Abandoned, u.callers[2 := Inspecting]), 1, 2);
  }

  /** A caller finds no file, or one that it cannot load and unlinks, and turns to the lock file. */
  lemma TurnsToLock(env: Environment, s: System, t: System, i: nat)
    requires Reaches(env, s, t) && i < |t.callers| && t.callers[i] == Start && !t.file.Stored?
    ensures Reaches(env, s, System(Absent, t.lock, t.callers[i := Inspecting]))
  {
    if t.file == Absent {
      Goes(env, s, t, i, Go, Outcome(Absent, t.lock, Inspecting));
    } else {
      SeesCorrupt(env, s, t, i);
      var u := System(Corrupt, t.lock, t.callers[i := Unlinking]);
      Goes(env, s, u, i, Go, Outcome(Absent, t.lock, Inspecting));
      assert u.callers[i := Inspecting] == t.callers[i := Inspecting];
    }
  }

  /** A lock file is left over from an earlier process, and old or unreadable: two callers both look at it; one
      removes it, takes the lock and generates; the other one removes that lock and generates as well. */
  lemma UnsafeFromLeftOverLock(env: Environment, file: File)
    requires !file.Stored? && (env.staleLocks || env.statFaults)
    ensures !Safe(env, file, true)
  {
    var s := Initial(file, true, 2);
    ReachesSelf(env, s);
    TurnsToLock(env, s, s, 0);
    var t := System(Absent, Abandoned, s.callers[0 := Inspecting]);
    TurnsToLock(env, s, t, 1);
    BothFindAbandoned(env, file, true, 2, System(Absent, Abandoned, t.callers[1 := Inspecting]), 0, 1);
  }

  // ----- The exact condition

  /** With a sound file there, a removed lock or a failed write does no harm: nobody generates. */
  lemma StoredIsSafeWithStaleJudgements(env: Environment, key: Key, leftOver: bool)
    requires !env.readFaults
    ensures Safe(env, Stored(key), leftOver)
  {
    forall n: nat, turns, more | Allowed(env, turns + more)
      ensures Agreement(Run(Initial(Stored(key), leftOver, n), turns))
      ensures Run(Initial(Stored(key), leftOver, n), turns).file
                == Run(Initial(Stored(key), leftOver, n), turns + more).file
    {
      forall t | t in turns ensures t in turns + more {}
      StaysStored(key, leftOver, n, turns);
      StaysStored(key, leftOver, n, turns + more);
    }
  }

  lemma {:induction false} StaysStored(key: Key, leftOver: bool, n: nat, turns: seq<Turn>)
    requires forall t <- turns :: t.choice != ReadFault
    ensures var s := Run(Initial(Stored(key), leftOver, n), turns);
            && s.file == Stored(key)
            && forall i :: 0 <= i < |s.callers| ==>
                 var c := s.callers[i];
                 !c.Unlinking? && !c.Generating? && !c.Writing? && (c.Done? ==> c.key == key)
                 && (c.Releasing? && c.result.Some? ==> c.result.value == key)
  {
    if turns != [] {
      assert turns[|turns| - 1] in turns;
      StaysStored(key, leftOver, n, turns[..|turns| - 1]);
    }
  }

  /** Exactly when the protocol keeps its promise. A sound file: loads must not fail. No sound file, and
      a lock file left over: that must not count as old, and its stat must not fail; nobody gets past it
      then. Otherwise the file must not be corrupt, and the environment must be sound. */
  lemma SafeExactlyWhen(env: Environment, file: File, leftOver: bool)
    ensures Safe(env, file, leftOver) <==>
            if file.Stored? then !env.readFaults
            else if leftOver then !env.staleLocks && !env.statFaults
            else file == Absent && IsSound(env)
  {
    if file.Stored? {
      if env.readFaults {
        UnsafeWithReadFaults(env, file.key, leftOver);
      } else {
        StoredIsSafeWithStaleJudgements(env, file.key, leftOver);
      }
    } else if leftOver {
      if env.staleLocks || env.statFaults {
        UnsafeFromLeftOverLock(env, file);
      } else {
        SafeBehindLeftOverLock(env, file);
      }
    } else if file == Corrupt {
      UnsafeFromCorruptFile(env);
    } else {
      FromNothing(env);
    }
  }

  lemma FromNothing(env: Environment)
    ensures Safe(env, Absent, false) <==> IsSound(env)
  {
    if env.readFaults {
      UnsafeWithLateReadFaults(env);
    } else if env.writeFaults {
      UnsafeWithWriteFaults(env);
    } else if env.oldLocks || env.statFaults {
      UnsafeWithStaleJudgements(env);
    } else if env.crashes && env.staleLocks {
      UnsafeAfterCrash(env);
    } else {
      SafeFromNothing(env);
    }
  }
}
