/** What each transaction on the token table does to the live tokens, and what a logout therefore
    achieves among concurrent requests. */
module TokenAnswers {
  import opened Options
  import opened TokenRotation

  ghost predicate Holds(s: System, id: RowId, t: Token) {
    id in s.rows && s.rows[id].token == t
  }

  /** The tokens that are live afterwards are those of the rows that are kept, and perhaps a new one. */
  ghost predicate KeepsOnly(s: System, t: System, kept: set<RowId>, added: Option<Token>) {
    forall u: Token :: Live(t, u) <==> added == Some(u) || exists i <- kept :: Holds(s, i, u)
  }

  ghost predicate OthersWait(s: System, t: System, who: nat) {
    |t.requests| == |s.requests| && forall k :: 0 <= k < |s.requests| && k != who ==> t.requests[k] == s.requests[k]
  }

  lemma RowsKeepOnly(s: System, t: System, kept: set<RowId>)
    requires t.rows == map i | i in s.rows && i in kept :: s.rows[i]
    ensures KeepsOnly(s, t, kept, None)
  {
    forall u: Token ensures Live(t, u) <==> exists i <- kept :: Holds(s, i, u) {
      if Live(t, u) {
        var i :| i in t.rows && t.rows[i].token == u;
        assert i in kept && Holds(s, i, u);
      }
      if i :| i in kept && Holds(s, i, u) {
        assert i in t.rows && t.rows[i].token == u;
      }
    }
  }

  lemma RowsAdd(s: System, t: System, kept: set<RowId>, id: RowId, r: Row)
    requires t.rows == (map i | i in s.rows && i in kept :: s.rows[i])[id := r] && !(id in s.rows && id in kept)
    ensures KeepsOnly(s, t, kept, Some(r.token))
  {
    forall u: Token ensures Live(t, u) <==> u == r.token || exists i <- kept :: Holds(s, i, u) {
      if Live(t, u) {
        var i :| i in t.rows && t.rows[i].token == u;
        assert i != id ==> i in kept && Holds(s, i, u);
      }
      if i :| i in kept && Holds(s, i, u) {
        assert i in t.rows && t.rows[i].token == u;
      }
      assert id in t.rows && t.rows[id].token == r.token;
    }
  }

  /** Two rows never hold the same token. */
  lemma OneRowPerToken(s: System, i: RowId, j: RowId)
    requires Inv(s) && i in s.rows && j in s.rows && s.rows[i].token == s.rows[j].token
    ensures i == j
  {
    assert RowFits(s, s.rows[i]) && RowFits(s, s.rows[j]);
  }

  // ----- The single transactions

  /** A login adds its token, as the first of a new descent, and takes none away. */
  lemma LoginAnswers(s: System, turn: Turn)
    requires Usable(s, turn) && turn.who < |s.requests| && s.requests[turn.who].LoggingIn?
    ensures var t := Exec(s, turn);
            && t.requests[turn.who] == Answered(Some(turn.token)) && OthersWait(s, t, turn.who)
            && KeepsOnly(s, t, s.rows.Keys, Some(turn.token))
            && turn.token in t.origin && t.origin[turn.token] == s.logins
            && turn.id in t.rows && t.rows[turn.id] == Row(s.requests[turn.who].user, turn.token, turn.expires)
  {
    var t, user := Exec(s, turn), s.requests[turn.who].user;
    assert (map i | i in s.rows && i in s.rows.Keys :: s.rows[i]) == s.rows;
    RowsAdd(s, t, s.rows.Keys - {turn.id}, turn.id, Row(user, turn.token, turn.expires));
  }

  /** Selecting gives the row that holds the token, if there is one; nothing changes in the table. */
  lemma SelectingSees(s: System, turn: Turn)
    requires turn.Act? && turn.who < |s.requests|
    requires s.requests[turn.who].Selecting? || s.requests[turn.who].LogoutSelecting?
    ensures var t, req := Exec(s, turn), s.requests[turn.who];
            && t.rows == s.rows && OthersWait(s, t, turn.who)
            && (!Live(s, req.token) ==> t.requests[turn.who] == Answered(None))
            && (Live(s, req.token) && req.Selecting? ==>
                  var next := t.requests[turn.who];
                  next.Consuming? && Holds(s, next.id, req.token) && next.stored == s.rows[next.id])
            && (Live(s, req.token) && req.LogoutSelecting? ==>
                  var next := t.requests[turn.who];
                  next.LogoutDeleting? && Holds(s, next.id, req.token))
  {
  }

  predicate IsExpired(r: Row, now: int) {
    r.expires.None? || r.expires.value < now
  }

  /** A refresh takes away the row it selected, if that has expired or still holds the token, and adds a new
      token exactly if the old one was there, had not expired and has a user. */
  lemma RefreshTakes(s: System, turn: Turn)
    requires Inv(s) && Usable(s, turn) && turn.who < |s.requests| && s.requests[turn.who].Consuming?
    ensures var t, req := Exec(s, turn), s.requests[turn.who];
            var granted := Holds(s, req.id, req.stored.token) && !IsExpired(req.stored, turn.now)
                           && req.stored.user in s.users;
            var taken := IsExpired(req.stored, turn.now) || Holds(s, req.id, req.stored.token);
            && t.requests[turn.who] == Answered(if granted then Some(turn.token) else None)
            && OthersWait(s, t, turn.who)
            && KeepsOnly(s, t, if taken then s.rows.Keys - {req.id} else s.rows.Keys,
                         if granted then Some(turn.token) else None)
            && (granted ==>
                  && turn.token in t.origin && req.stored.token in s.origin
                  && t.origin[turn.token] == s.origin[req.stored.token]
                  && turn.id in t.rows && t.rows[turn.id] == Row(req.stored.user, turn.token, turn.expires))
  {
    var t, req := Exec(s, turn), s.requests[turn.who];
    assert RowFits(s, req.stored);
    var expired, there := IsExpired(req.stored, turn.now), Holds(s, req.id, req.stored.token);
    if !expired && there && req.stored.user in s.users {
      var kept := s.rows.Keys - {req.id};
      assert (map i | i in s.rows && i in kept :: s.rows[i]) == s.rows - {req.id};
      RowsAdd(s, t, kept, turn.id, Row(req.stored.user, turn.token, turn.expires));
    } else {
      RowsKeepOnly(s, t, if expired || there then s.rows.Keys - {req.id} else s.rows.Keys);
    }
  }

  /** A logout takes away the row it selected, whichever token that holds by then. */
  lemma LogoutTakes(s: System, turn: Turn)
    requires turn.Act? && turn.who < |s.requests| && s.requests[turn.who].LogoutDeleting?
    ensures var t, req := Exec(s, turn), s.requests[turn.who];
            && t.requests[turn.who] == Answered(None) && OthersWait(s, t, turn.who)
            && KeepsOnly(s, t, s.rows.Keys - {req.id}, None)
  {
    RowsKeepOnly(s, Exec(s, turn), s.rows.Keys - {s.requests[turn.who].id});
  }

  /** A revocation takes away all rows of its user, and so does the deletion of a user; no other row goes. */
  lemma RevocationTakes(s: System, turn: Turn)
    requires turn.Act? && turn.who < |s.requests| && s.requests[turn.who].Revoking?
    ensures var t, user := Exec(s, turn), s.requests[turn.who].user;
            && t.requests[turn.who] == Answered(None) && OthersWait(s, t, turn.who)
            && KeepsOnly(s, t, (set i | i in s.rows && s.rows[i].user != user), None)
  {
    var user := s.requests[turn.who].user;
    RowsKeepOnly(s, Exec(s, turn), set i | i in s.rows && s.rows[i].user != user);
  }

  lemma UserDeletionTakes(s: System, user: User)
    ensures var t := Exec(s, DeleteUser(user));
            && t.users == s.users - {user} && t.requests == s.requests
            && KeepsOnly(s, t, (set i | i in s.rows && s.rows[i].user != user), None)
  {
    RowsKeepOnly(s, Exec(s, DeleteUser(user)), set i | i in s.rows && s.rows[i].user != user);
  }

  // ----- Refreshes

  /** A refresh that nothing comes between succeeds exactly if its token is live, has not expired and has a user. */
  lemma RefreshSucceedsIff(s: System, select: Turn, consume: Turn)
    requires Inv(s) && select.Act? && consume.Act? && select.who == consume.who < |s.requests|
    requires s.requests[select.who].Selecting? && Usable(s, consume)
    ensures var token := s.requests[select.who].token;
            Exec(Exec(s, select), consume).requests[select.who]
            == Answered(if exists i :: Holds(s, i, token) && !IsExpired(s.rows[i], consume.now)
                                       && s.rows[i].user in s.users
                        then Some(consume.token) else None)
  {
    var t, token := Exec(s, select), s.requests[select.who].token;
    SelectingSees(s, select);
    if Live(s, token) {
      ExecKeepsInv(s, select);
      RefreshTakes(t, consume);
      var id := t.requests[select.who].id;
      forall i | Holds(s, i, token) ensures i == id {
        OneRowPerToken(s, i, id);
      }
    } else {
      assert forall i :: !Holds(s, i, token);
    }
  }

  // ----- Logouts

  ghost predicate NeverExchanged(s: System, t: Token) {
    forall k :: 0 <= k < |s.exchanged| ==> s.exchanged[k].0 != t
  }

  lemma LiveIsNotExchanged(s: System, t: Token)
    requires Inv(s) && Live(s, t)
    ensures t in s.origin && NeverExchanged(s, t)
  {
    var i :| i in s.rows && s.rows[i].token == t;
    assert RowFits(s, s.rows[i]);
  }

  lemma {:induction false} SpentIsNotExchanged(s: System, turns: seq<Turn>, t: Token)
    requires Inv(s) && Spent(s, t) && NeverExchanged(s, t)
    ensures NeverExchanged(Run(s, turns), t)
  {
    if turns != [] {
      var front, last := turns[..|turns| - 1], turns[|turns| - 1];
      var before := Run(s, front);
      SpentIsNotExchanged(s, front, t);
      SpentForGood(s, front, t);
      RunKeepsInv(s, front);
      var prev, id, r := StepKinds(before, last);
      assert prev in before.rows ==> before.rows[prev].token != t;
    }
  }

  /** The delete of a logout: if the row still holds the token, that token is spent, and no other is. */
  lemma LogoutSpends(s: System, turn: Turn, t: Token)
    requires Inv(s) && turn.Act? && turn.who < |s.requests| && s.requests[turn.who].LogoutDeleting?
    requires Holds(s, s.requests[turn.who].id, t)
    ensures Spent(Exec(s, turn), t) && NeverExchanged(Exec(s, turn), t)
    ensures forall u: Token :: u != t ==> (Live(Exec(s, turn), u) <==> Live(s, u))
  {
    var id := s.requests[turn.who].id;
    LogoutTakes(s, turn);
    assert Live(s, t);
    LiveIsNotExchanged(s, t);
    forall i | Holds(s, i, t) ensures i == id {
      OneRowPerToken(s, i, id);
    }
    forall u: Token | u != t ensures Live(Exec(s, turn), u) <==> Live(s, u) {
      if i :| i in s.rows && s.rows[i].token == u {
        assert i in s.rows.Keys - {id} && Holds(s, i, u);
      }
      if Live(Exec(s, turn), u) {
        var i :| i in s.rows.Keys - {id} && Holds(s, i, u);
      }
    }
  }

  /** In every interleaving: a logout that selects a live token, and whose delete finds the row as it was, spends that
      token for good. No request ever exchanges it, and no other token is touched. */
  lemma LogoutIsFinal(users: set<User>, n: nat, before: seq<Turn>, select: Turn, between: seq<Turn>, delete: Turn,
                      after: seq<Turn>, t: Token)
    returns (id: RowId)
    requires select.Act? && delete.Act? && select.who == delete.who < |Run(Initial(users, n), before).requests|
    requires Run(Initial(users, n), before).requests[select.who] == LogoutSelecting(t)
    requires Live(Run(Initial(users, n), before), t)
    ensures var s1 := Exec(Run(Initial(users, n), before), select);
            var s2 := Run(s1, between);
            && select.who < |s1.requests| == |s2.requests| && s1.requests[select.who] == LogoutDeleting(id)
            && Holds(s1, id, t)
            && (s2.requests[select.who] == LogoutDeleting(id) && Holds(s2, id, t) ==>
                  var s3 := Exec(s2, delete);
                  && s3.requests[select.who] == Answered(None)
                  && Spent(s3, t) && Spent(Run(s3, after), t) && NeverExchanged(Run(s3, after), t)
                  && forall u: Token :: u != t ==> (Live(s3, u) <==> Live(s2, u)))
  {
    var s0 := Run(Initial(users, n), before);
    RunKeepsInv(Initial(users, n), before);
    SelectingSees(s0, select);
    var s1 := Exec(s0, select);
    ExecKeepsInv(s0, select);
    id := s1.requests[select.who].id;
    RunKeepsInv(s1, between);
    SameRequests(s1, between);
    var s2 := Run(s1, between);
    if s2.requests[select.who] == LogoutDeleting(id) && Holds(s2, id, t) {
      LogoutSpends(s2, delete, t);
      LogoutTakes(s2, delete);
      ExecKeepsInv(s2, delete);
      SpentForGood(Exec(s2, delete), after, t);
      SpentIsNotExchanged(Exec(s2, delete), after, t);
    }
  }

  lemma {:induction false} SameRequests(s: System, turns: seq<Turn>)
    ensures |Run(s, turns).requests| == |s.requests|
  {
    if turns != [] {
      SameRequests(s, turns[..|turns| - 1]);
      StepReadsRows(Run(s, turns[..|turns| - 1]), turns[|turns| - 1]);
    }
  }

  /** When a refresh has come between select and delete, the token it has issued survives the logout exactly
      if its row is not the one that was selected: row ids are used again. */
  lemma LogoutOvertaken(s: System, turn: Turn, u: Token)
    requires Inv(s) && turn.Act? && turn.who < |s.requests| && s.requests[turn.who].LogoutDeleting?
    requires Live(s, u)
    ensures Live(Exec(s, turn), u) <==> !Holds(s, s.requests[turn.who].id, u)
    ensures u in s.origin && (Ended(Exec(s, turn), s.origin[u]) <==> Holds(s, s.requests[turn.who].id, u))
  {
    var id, t := s.requests[turn.who].id, Exec(s, turn);
    LogoutTakes(s, turn);
    LiveIsNotExchanged(s, u);
    var i :| i in s.rows && s.rows[i].token == u;
    assert RowFits(s, s.rows[i]);
    forall j | Holds(s, j, u) ensures j == i {
      OneRowPerToken(s, i, j);
    }
    if i == id {
      forall j | j in t.rows ensures !(t.rows[j].token in t.origin && t.origin[t.rows[j].token] == s.origin[u]) {
        assert j in s.rows && j != i && RowFits(s, s.rows[j]);
      }
    } else {
      assert i in s.rows.Keys - {id} && Holds(s, i, u);
      assert i in t.rows && t.rows[i].token == u;
    }
  }

  /** Such a run, for every user: the refresh gets the token's successor into another row, and the login goes on
      after its logout. */
  lemma LoginOutlivesLogout(user: User)
    ensures exists turns ::
              var s := Run(Initial({user}, 2), turns);
              s.requests == [Answered(None), Answered(Some(2))] && Live(s, 2) && !Ended(s, 0)
  {
    var begun := Initial({user}, 2);
    var loggedIn := [Begin(0, LoggingIn(user)), Act(0, 0, 1, 1, Some(9))];
    var selected := [Begin(0, LogoutSelecting(1)), Begin(1, Selecting(1)),
                     Act(0, 0, 0, 0, None), Act(1, 0, 0, 0, None)];
    var done := [Act(1, 0, 2, 2, Some(9)), Act(0, 0, 0, 0, None)];
    OneLogin(user);
    BothSelect(user);
    RefreshThenLogout(user);
    RunAppend(begun, loggedIn, selected);
    RunAppend(begun, loggedIn + selected, done);
    var s := Run(begun, loggedIn + selected + done);
    assert s.rows[2].token == 2 && s.origin[2] == 0;
    assert Live(s, 2) && LiveLogin(s, 0);
  }

  function LoggedIn(user: User, requests: seq<Request>): System {
    System(map[1 := Row(user, 1, Some(9))], {user}, requests, map[1 := 0], map[0 := user], 1, [])
  }

  lemma RunPair(s: System, a: Turn, b: Turn)
    ensures Run(s, [a, b]) == Exec(Exec(s, a), b)
  {
    assert [a, b][..|[a, b]| - 1] == [a] && [a][..|[a]| - 1] == [];
    assert Run(s, [a]) == Exec(Run(s, []), a);
  }

  lemma OneLogin(user: User)
    ensures Run(Initial({user}, 2), [Begin(0, LoggingIn(user)), Act(0, 0, 1, 1, Some(9))])
         == LoggedIn(user, [Answered(Some(1)), Idle])
  {
    var s := Initial({user}, 2);
    RunPair(s, Begin(0, LoggingIn(user)), Act(0, 0, 1, 1, Some(9)));
    assert s.requests == [Idle, Idle];
  }

  lemma BothSelect(user: User)
    ensures var r := Row(user, 1, Some(9));
            Run(LoggedIn(user, [Answered(Some(1)), Idle]),
                [Begin(0, LogoutSelecting(1)), Begin(1, Selecting(1)), Act(0, 0, 0, 0, None), Act(1, 0, 0, 0, None)])
            == LoggedIn(user, [LogoutDeleting(1), Consuming(1, r)])
  {
    var s := LoggedIn(user, [Answered(Some(1)), Idle]);
    var a, b := [Begin(0, LogoutSelecting(1)), Begin(1, Selecting(1))], [Act(0, 0, 0, 0, None), Act(1, 0, 0, 0, None)];
    RunAppend(s, a, b);
    RunPair(s, a[0], a[1]);
    var t := LoggedIn(user, [LogoutSelecting(1), Selecting(1)]);
    assert Run(s, a) == t;
    RunPair(t, b[0], b[1]);
    assert t.rows[1].token == 1 && Live(t, 1);
    assert a + b
        == [Begin(0, LogoutSelecting(1)), Begin(1, Selecting(1)), Act(0, 0, 0, 0, None), Act(1, 0, 0, 0, None)];
  }

  lemma RefreshThenLogout(user: User)
    ensures var r := Row(user, 1, Some(9));
            var t := Run(LoggedIn(user, [LogoutDeleting(1), Consuming(1, r)]),
                         [Act(1, 0, 2, 2, Some(9)), Act(0, 0, 0, 0, None)]);
            && t.rows == map[2 := Row(user, 2, Some(9))] && t.origin == map[1 := 0, 2 := 0] && t.logins == 1
            && t.requests == [Answered(None), Answered(Some(2))]
  {
    var s := LoggedIn(user, [LogoutDeleting(1), Consuming(1, Row(user, 1, Some(9)))]);
    RunPair(s, Act(1, 0, 2, 2, Some(9)), Act(0, 0, 0, 0, None));
  }
}
