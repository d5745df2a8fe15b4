/** Whoever holds the lock makes the keypair, and once it is there, every caller with an attempt left returns it. */
module KeypairProgress {
  import opened Options
  import opened KeypairLock

  /** How many turns caller `w` takes. */
  function Taken(turns: seq<Turn>, w: nat): nat {
    if turns == [] then 0
    else Taken(turns[..|turns| - 1], w) + if turns[|turns| - 1].who == w then 1 else 0
  }

  /** Caller `w` does not end early. The others may. */
  predicate Survives(turns: seq<Turn>, w: nat) {
    forall t <- turns :: t.who == w ==> t.choice != Crash
  }

  // ----- With the file

  /** The caller has not ended without a key, and is not about to give up. */
  predicate MayReturn(c: Caller) {
    !c.Failed? && !c.Crashed? && c != Locking(0)
  }

  /** How many more turns of its own a caller needs at most, once the file is there. */
  function TurnsLeft(c: Caller): (n: nat)
    ensures n <= 7
  {
    match c
    case Inspecting => 7
    case Statting => 6
    case RemovingStale => 5
    case Locking(_) => 4
    case Locked => 3
    case Start => 2
    case WaitExists(_) => 2
    case LockedRead => 2
    case Reading => 1
    case WaitRead(_) => 1
    case Releasing(_) => 1
    case _ => 0
  }

  lemma MoveApproaches(env: Environment, file: File, lock: Lock, me: nat, c: Caller, choice: Choice)
    requires IsSound(env) && file.Stored? && Fits(c, file, lock) && Permits(env, choice) && choice != Crash
    ensures var after := Move(file, lock, me, c, choice).caller;
            && (MayReturn(after) <==> MayReturn(c))
            && (MayReturn(c) ==> TurnsLeft(after) < TurnsLeft(c) || (c == Done(file.key) && after == c))
  {
  }

  lemma {:induction false} Approaches(env: Environment, s: System, turns: seq<Turn>, w: nat)
    requires IsSound(env) && Inv(env, s) && s.file.Stored? && w < |s.callers|
    requires Allowed(env, turns) && Survives(turns, w)
    ensures var t := Run(s, turns);
            && Inv(env, t) && t.file == s.file && |t.callers| == |s.callers|
            && (MayReturn(t.callers[w]) <==> MayReturn(s.callers[w]))
            && (MayReturn(s.callers[w]) ==>
                  TurnsLeft(t.callers[w]) + Taken(turns, w) <= TurnsLeft(s.callers[w]) || t.callers[w].Done?)
  {
    if turns != [] {
      var front, last := turns[..|turns| - 1], turns[|turns| - 1];
      assert last in turns;
      Approaches(env, s, front, w);
      var t := Run(s, front);
      ExecKeepsInv(env, t, last);
      if last.who == w {
        MoveApproaches(env, t.file, t.lock, w, t.callers[w], last.choice);
      }
    }
  }

  /** Once the file is there, in every interleaving, a caller returns the key in the file within seven turns of its
      own, unless it had ended or used up its attempts before. One that waits behind a lock needs two turns. */
  lemma ReturnsOnceStored(env: Environment, s: System, turns: seq<Turn>, w: nat)
    requires IsSound(env) && Inv(env, s) && s.file.Stored? && w < |s.callers|
    requires Allowed(env, turns) && Survives(turns, w)
    requires Taken(turns, w) >= match s.callers[w] case WaitExists(_) => 2 case WaitRead(_) => 1 case _ => 7
    ensures var t := Run(s, turns);
            && |t.callers| == |s.callers|
            && (t.callers[w] == Done(s.file.key) <==> MayReturn(s.callers[w]))
  {
    Approaches(env, s, turns, w);
    var t := Run(s, turns);
    assert Fits(t.callers[w], t.file, t.lock);
  }

  // ----- Without the file

  /** How many more turns of its own the holder of the lock needs at most. */
  function TurnsToStore(c: Caller): nat {
    match c
    case Locked => 3
    case Generating => 2
    case Writing(_) => 1
    case _ => 0
  }

  /** Whenever caller `w` takes a turn, it has a fresh keypair at hand. */
  predicate HasKeys(turns: seq<Turn>, w: nat) {
    forall t <- turns :: t.who == w ==> t.choice.Fresh?
  }

  /** The file is there, or `w` holds the lock on the way to make it. */
  ghost predicate IsMaking(s: System, w: nat) {
    w < |s.callers| && (s.file.Stored? || (s.file == Absent && InCritical(s.callers[w])))
  }

  lemma OthersLeaveHolder(env: Environment, s: System, turn: Turn, w: nat)
    requires IsSound(env) && Inv(env, s) && Permits(env, turn.choice) && IsMaking(s, w) && turn.who != w
    ensures IsMaking(Exec(s, turn), w) && Exec(s, turn).callers[w] == s.callers[w]
  {
    ExecKeepsInv(env, s, turn);
    if turn.who < |s.callers| && s.file == Absent {
      assert turn.who < w || w < turn.who;
      assert !InCritical(s.callers[turn.who]);
      MoveKeepsFit(env, s.file, s.lock, turn.who, s.callers[turn.who], turn.choice);
    }
  }

  lemma HolderMoves(env: Environment, s: System, turn: Turn)
    requires IsSound(env) && Inv(env, s) && Permits(env, turn.choice) && turn.choice.Fresh?
    requires IsMaking(s, turn.who)
    ensures IsMaking(Exec(s, turn), turn.who)
    ensures var t := Exec(s, turn);
            t.file.Stored? || TurnsToStore(t.callers[turn.who]) < TurnsToStore(s.callers[turn.who])
  {
    ExecKeepsInv(env, s, turn);
    assert Fits(s.callers[turn.who], s.file, s.lock);
  }

  lemma {:induction false} HolderProceeds(env: Environment, s: System, turns: seq<Turn>, w: nat)
    requires IsSound(env) && Inv(env, s) && IsMaking(s, w) && Allowed(env, turns) && HasKeys(turns, w)
    ensures var t := Run(s, turns);
            && Inv(env, t) && IsMaking(t, w)
            && (t.file.Stored? || TurnsToStore(t.callers[w]) + Taken(turns, w) <= TurnsToStore(s.callers[w]))
  {
    if turns != [] {
      var front, last := turns[..|turns| - 1], turns[|turns| - 1];
      assert last in turns;
      HolderProceeds(env, s, front, w);
      ExecKeepsInv(env, Run(s, front), last);
      if last.who == w {
        HolderMoves(env, Run(s, front), last);
      } else {
        OthersLeaveHolder(env, Run(s, front), last, w);
      }
    }
  }

  /** In every interleaving, a caller that holds the lock while there is no file has made one after three turns. */
  lemma HolderStores(env: Environment, s: System, turns: seq<Turn>, w: nat)
    requires IsSound(env) && Inv(env, s) && s.file == Absent && w < |s.callers| && InCritical(s.callers[w])
    requires Allowed(env, turns) && HasKeys(turns, w) && Taken(turns, w) >= 3
    ensures Run(s, turns).file.Stored?
  {
    HolderProceeds(env, s, turns, w);
    assert Fits(Run(s, turns).callers[w], Run(s, turns).file, Run(s, turns).lock);
  }

  /** From nothing: as soon as some caller holds the lock, it makes the file in three turns, and each other caller
      that has an attempt left by then returns its key in seven turns more. */
  lemma AllReturn(env: Environment, n: nat, first: seq<Turn>, making: seq<Turn>, more: seq<Turn>, h: nat, w: nat)
    requires IsSound(env) && Allowed(env, first) && Allowed(env, making) && Allowed(env, more) && h < n && w < n
    requires var s := Run(Initial(Absent, false, n), first); |s.callers| == n && InCritical(s.callers[h])
    requires HasKeys(making, h) && Taken(making, h) >= 3 && Survives(more, w) && Taken(more, w) >= 7
    ensures var s := Run(Initial(Absent, false, n), first + making);
            var t := Run(Initial(Absent, false, n), first + making + more);
            && |s.callers| == |t.callers| == n && s.file.Stored?
            && (t.callers[w] == Done(s.file.key) <==> MayReturn(s.callers[w]))
  {
    var start := Initial(Absent, false, n);
    var s := Run(start, first);
    RunKeepsInv(env, start, first);
    RunAppend(start, first, making);
    RunAppend(start, first + making, more);
    RunKeepsInv(env, s, making);
    CallersStay(s, making);
    if s.file == Absent {
      HolderStores(env, s, making, h);
    }
    ReturnsOnceStored(env, Run(s, making), more, w);
  }

  lemma {:induction false} CallersStay(s: System, turns: seq<Turn>)
    ensures |Run(s, turns).callers| == |s.callers|
  {
    if turns != [] {
      CallersStay(s, turns[..|turns| - 1]);
    }
  }

  // ----- Giving up

  /** How many turns a caller takes at least until it fails. */
  function TurnsToFail(c: Caller): nat {
    match c
    case Failed => 0
    case Releasing(None) => 1
    case Locking(left) => 2 * left + 1
    case WaitExists(left) => 2 * left + 2
    case WaitRead(left) => 2 * left + 2
    case _ => 2 * ATTEMPTS + 1
  }

  lemma MoveNearsFailure(env: Environment, file: File, lock: Lock, me: nat, c: Caller, choice: Choice)
    requires !env.writeFaults && Permits(env, choice) && TurnsToFail(c) <= 1001
    ensures var after := Move(file, lock, me, c, choice).caller;
            TurnsToFail(c) <= TurnsToFail(after) + 1 <= 1002
  {
  }

  /** Without write faults, nobody gives up before it has taken a thousand turns, two for each attempt at the lock,
      whatever else goes wrong. */
  lemma {:induction false} FailsOnlyAfterAttempts(env: Environment, file: File, leftOver: bool, n: nat,
                                                  turns: seq<Turn>, w: nat)
    requires !env.writeFaults && Allowed(env, turns) && w < n
    ensures var t := Run(Initial(file, leftOver, n), turns);
            |t.callers| == n && TurnsToFail(t.callers[w]) <= 1001 <= TurnsToFail(t.callers[w]) + Taken(turns, w)
  {
    if turns != [] {
      var front, last := turns[..|turns| - 1], turns[|turns| - 1];
      assert last in turns;
      FailsOnlyAfterAttempts(env, file, leftOver, n, front, w);
      var t := Run(Initial(file, leftOver, n), front);
      if last.who == w {
        MoveNearsFailure(env, t.file, t.lock, w, t.callers[w], last.choice);
      }
    }
  }
}
