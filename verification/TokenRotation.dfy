/** Refresh-token rotation: concurrent logins, refreshes, logouts and revocations against one
    table. A request's select is one step; each of its transactions is another. */
module TokenRotation {
  import opened Options

  /** A token value. Only its hash is stored; hashes are taken to be injective. */
  type Token = nat
  type RowId = nat
  type User = nat
  type Login = nat

  /** A row of the token table. An expiry that does not parse is `None`. Row ids may be used again. */
  datatype Row = Row(user: User, token: Token, expires: Option<int>)

  /** A request, named by what it does next. */
  datatype Request =
    | Idle
    | LoggingIn(user: User)                            // password checked; create_tokens
    | Selecting(token: Token)                          // refresh_tokens: the select
    | Consuming(id: RowId, stored: Row)                // ... and what follows it, with the row it saw
    | LogoutSelecting(token: Token)                    // revoke_refresh_token: the select
    | LogoutDeleting(id: RowId)                        // ... and the delete
    | Revoking(user: User)                             // revoke_admin_credentials and its commit
    | Answered(result: Option<Token>)

  /** The database and the requests in flight. The last four are history, for the proof:
      which login each issued token descends from, whose login it was, how many logins there
      were, and which token was exchanged for which. */
  datatype System = System(
    rows: map<RowId, Row>,
    users: set<User>,
    requests: seq<Request>,
    origin: map<Token, Login>,
    owner: map<Login, User>,
    logins: Login,
    exchanged: seq<(Token, Token)>)

  /** `now`, the new row's id, token and expiry are whatever the environment makes of them. */
  datatype Turn =
    | Begin(who: nat, request: Request)
    | Act(who: nat, now: int, id: RowId, token: Token, expires: Option<int>)
    | DeleteUser(user: User)

  // ----- The transactions

  predicate Live(s: System, t: Token) {
    exists i <- s.rows :: s.rows[i].token == t
  }

  predicate LiveLogin(s: System, l: Login) {
    exists i <- s.rows :: s.rows[i].token in s.origin && s.origin[s.rows[i].token] == l
  }

  function RowsOf(s: System, u: User): set<RowId> {
    set i | i in s.rows && s.rows[i].user == u
  }

  /** A new row has an unused id, and a fresh token was never issued before. */
  predicate Usable(s: System, turn: Turn) {
    turn.Act? && turn.id !in s.rows && turn.token !in s.origin
  }

  function Answer(s: System, who: nat, token: Option<Token>): System
    requires who < |s.requests|
  {
    s.(requests := s.requests[who := Answered(token)])
  }

  /** `create_tokens` for a login. */
  function LoginCommits(s: System, turn: Turn, user: User): System
    requires turn.Act? && turn.who < |s.requests|
  {
    if !Usable(s, turn) then s
    else
      Answer(s, turn.who, Some(turn.token))
      .(rows := s.rows[turn.id := Row(user, turn.token, turn.expires)],
        origin := s.origin[turn.token := s.logins],
        owner := s.owner[s.logins := user],
        logins := s.logins + 1)
  }

  /** The rest of `refresh_tokens`, once the stored row has been selected. */
  function RefreshCommits(s: System, turn: Turn, id: RowId, stored: Row): System
    requires turn.Act? && turn.who < |s.requests|
  {
    if stored.expires.None? || stored.expires.value < turn.now then
      Answer(s, turn.who, None).(rows := s.rows - {id})
    else if id !in s.rows || s.rows[id].token != stored.token then
      Answer(s, turn.who, None)
    else if stored.user !in s.users then
      Answer(s, turn.who, None).(rows := s.rows - {id})
    else
      var deleted := s.(rows := s.rows - {id});
      if !Usable(deleted, turn) || stored.token !in s.origin then s
      else
        Answer(s, turn.who, Some(turn.token))
        .(rows := deleted.rows[turn.id := Row(stored.user, turn.token, turn.expires)],
          origin := s.origin[turn.token := s.origin[stored.token]],
          exchanged := s.exchanged + [(stored.token, turn.token)])
  }

  /** One turn. A turn that makes no sense changes nothing. */
  ghost function Exec(s: System, turn: Turn): System {
    match turn
    case Begin(who, request) =>
      if who < |s.requests| && (s.requests[who].Idle? || s.requests[who].Answered?)
         && (request.LoggingIn? || request.Selecting? || request.LogoutSelecting? || request.Revoking?)
      then s.(requests := s.requests[who := request])
      else s
    case DeleteUser(user) =>
      s.(users := s.users - {user}, rows := s.rows - RowsOf(s, user))
    case Act(who, _, _, _, _) =>
      if who >= |s.requests| then s
      else
        match s.requests[who]
        case LoggingIn(user) => LoginCommits(s, turn, user)
        case Selecting(token) =>
          if Live(s, token) then
            var i :| i in s.rows && s.rows[i].token == token;
            s.(requests := s.requests[who := Consuming(i, s.rows[i])])
          else Answer(s, who, None)
        case Consuming(id, stored) => RefreshCommits(s, turn, id, stored)
        case LogoutSelecting(token) =>
          if Live(s, token) then
            var i :| i in s.rows && s.rows[i].token == token;
            s.(requests := s.requests[who := LogoutDeleting(i)])
          else Answer(s, who, None)
        case LogoutDeleting(id) => Answer(s, who, None).(rows := s.rows - {id})
        case Revoking(user) => Answer(s, who, None).(rows := s.rows - RowsOf(s, user))
        case _ => s
  }

  ghost function Run(s: System, turns: seq<Turn>): System {
    if turns == [] then s else Exec(Run(s, turns[..|turns| - 1]), turns[|turns| - 1])
  }

  function Initial(users: set<User>, n: nat): System {
    System(map[], users, seq(n, _ => Idle), map[], map[], 0, [])
  }

  // ----- The invariant

  ghost predicate RowFits(s: System, r: Row) {
    r.token in s.origin && s.origin[r.token] in s.owner && s.owner[s.origin[r.token]] == r.user
  }

  /** Tokens are traced to logins, and each login to its user. */
  ghost predicate Traced(s: System) {
    && (forall t <- s.origin :: s.origin[t] < s.logins)
    && (forall l: Login :: l in s.owner <==> l < s.logins)
    && (forall i <- s.rows :: RowFits(s, s.rows[i]))
    && (forall k :: 0 <= k < |s.requests| && s.requests[k].Consuming? ==> RowFits(s, s.requests[k].stored))
  }

  /** A login has at most one live token. */
  ghost predicate OneLivePerLogin(s: System) {
    forall i, j :: i in s.rows && j in s.rows && i != j
                   && s.rows[i].token in s.origin && s.rows[j].token in s.origin
                   ==> s.origin[s.rows[i].token] != s.origin[s.rows[j].token]
  }

  /** An exchanged token is gone, and was exchanged once, for a token of the same login. */
  ghost predicate ExchangedOnce(s: System) {
    && (forall k :: 0 <= k < |s.exchanged| ==>
          && s.exchanged[k].0 in s.origin && s.exchanged[k].1 in s.origin
          && s.origin[s.exchanged[k].0] == s.origin[s.exchanged[k].1])
    && (forall i, k :: i in s.rows && 0 <= k < |s.exchanged| ==> s.rows[i].token != s.exchanged[k].0)
    && (forall j, k :: 0 <= j < k < |s.exchanged| ==> s.exchanged[j].0 != s.exchanged[k].0)
  }

  ghost predicate Inv(s: System) {
    Traced(s) && OneLivePerLogin(s) && ExchangedOnce(s)
  }

  // ----- What a step can do to the table

  /** Rows only go away, and the history stays. */
  ghost predicate Shrinks(s: System, t: System) {
    && (forall i <- t.rows :: i in s.rows && t.rows[i] == s.rows[i])
    && t.origin == s.origin && t.owner == s.owner && t.logins == s.logins && t.exchanged == s.exchanged
  }

  /** A login adds the first token of a new descent. */
  ghost predicate LogsIn(s: System, t: System, id: RowId, r: Row) {
    && id !in s.rows && r.token !in s.origin
    && t.rows == s.rows[id := r]
    && t.origin == s.origin[r.token := s.logins]
    && t.owner == s.owner[s.logins := r.user] && t.logins == s.logins + 1
    && t.exchanged == s.exchanged
  }

  /** A refresh replaces a live token by a fresh one of the same login. */
  ghost predicate Exchanges(s: System, t: System, prev: RowId, id: RowId, r: Row) {
    && prev in s.rows && s.rows[prev].token in s.origin && r.user == s.rows[prev].user
    && id !in s.rows - {prev} && r.token !in s.origin
    && t.rows == (s.rows - {prev})[id := r]
    && t.origin == s.origin[r.token := s.origin[s.rows[prev].token]]
    && t.owner == s.owner && t.logins == s.logins
    && t.exchanged == s.exchanged + [(s.rows[prev].token, r.token)]
  }

  /** The requests in flight hold only rows that were read. */
  ghost predicate RequestsFrom(s: System, t: System) {
    && |t.requests| == |s.requests|
    && forall k :: 0 <= k < |t.requests| && t.requests[k].Consuming? ==>
         || t.requests[k] == s.requests[k]
         || (exists i <- s.rows :: s.rows[i] == t.requests[k].stored)
  }

  /** Every turn is one of these three. */
  lemma StepKinds(s: System, turn: Turn) returns (prev: RowId, id: RowId, r: Row)
    requires Inv(s)
    ensures || Shrinks(s, Exec(s, turn))
            || LogsIn(s, Exec(s, turn), id, r)
            || Exchanges(s, Exec(s, turn), prev, id, r)
  {
    prev, id, r := 0, 0, Row(0, 0, None);
    if turn.Act? && turn.who < |s.requests| {
      var req := s.requests[turn.who];
      id := turn.id;
      if req.LoggingIn? {
        r := Row(req.user, turn.token, turn.expires);
        LoginKind(s, turn);
      } else if req.Consuming? {
        prev := req.id;
        r := Row(req.stored.user, turn.token, turn.expires);
        ConsumeKind(s, turn);
      }
    }
  }

  lemma LoginKind(s: System, turn: Turn)
    requires Inv(s) && turn.Act? && turn.who < |s.requests| && s.requests[turn.who].LoggingIn?
    ensures var r := Row(s.requests[turn.who].user, turn.token, turn.expires);
            Shrinks(s, Exec(s, turn)) || LogsIn(s, Exec(s, turn), turn.id, r)
  {
  }

  lemma ConsumeKind(s: System, turn: Turn)
    requires Inv(s) && turn.Act? && turn.who < |s.requests| && s.requests[turn.who].Consuming?
    ensures var req := s.requests[turn.who];
            var r := Row(req.stored.user, turn.token, turn.expires);
            Shrinks(s, Exec(s, turn)) || Exchanges(s, Exec(s, turn), req.id, turn.id, r)
  {
    var req := s.requests[turn.who];
    assert RowFits(s, req.stored);
    if req.id in s.rows {
      assert RowFits(s, s.rows[req.id]);
    }
  }

  lemma StepReadsRows(s: System, turn: Turn)
    ensures RequestsFrom(s, Exec(s, turn))
  {
  }

  lemma ShrinkKeepsInv(s: System, t: System)
    requires Inv(s) && Shrinks(s, t) && RequestsFrom(s, t)
    ensures Inv(t)
  {
    forall i | i in t.rows ensures RowFits(t, t.rows[i]) {
      assert RowFits(s, s.rows[i]);
    }
    RequestsStillFit(s, t);
  }

  lemma RequestsStillFit(s: System, t: System)
    requires Traced(s) && RequestsFrom(s, t)
    requires forall r: Row :: RowFits(s, r) ==> RowFits(t, r)
    ensures forall k :: 0 <= k < |t.requests| && t.requests[k].Consuming? ==> RowFits(t, t.requests[k].stored)
  {
    forall k | 0 <= k < |t.requests| && t.requests[k].Consuming? ensures RowFits(t, t.requests[k].stored) {
      assert RowFits(s, t.requests[k].stored);
    }
  }

  lemma LoginKeepsInv(s: System, t: System, id: RowId, r: Row)
    requires Inv(s) && LogsIn(s, t, id, r) && RequestsFrom(s, t)
    ensures Inv(t)
  {
    forall x: Row | RowFits(s, x) ensures RowFits(t, x) {}
    RequestsStillFit(s, t);
    forall i | i in t.rows ensures RowFits(t, t.rows[i]) {
      if i != id { assert RowFits(s, s.rows[i]); }
    }
    forall i | i in s.rows ensures s.rows[i].token in s.origin && s.origin[s.rows[i].token] < s.logins {
      assert RowFits(s, s.rows[i]);
    }
  }

  lemma ExchangeKeepsInv(s: System, t: System, prev: RowId, id: RowId, r: Row)
    requires Inv(s) && Exchanges(s, t, prev, id, r) && RequestsFrom(s, t)
    ensures Inv(t)
  {
    assert RowFits(s, s.rows[prev]);
    forall x: Row | RowFits(s, x) ensures RowFits(t, x) {}
    RequestsStillFit(s, t);
    forall i | i in t.rows ensures RowFits(t, t.rows[i]) {
      if i != id { assert RowFits(s, s.rows[i]); }
    }
    forall i | i in s.rows && i != prev
      ensures s.rows[i].token in s.origin && s.origin[s.rows[i].token] != s.origin[s.rows[prev].token]
    {
      assert RowFits(s, s.rows[i]);
    }
    assert OneLivePerLogin(t);
    assert ExchangedOnce(t);
  }

  lemma ExecKeepsInv(s: System, turn: Turn)
    requires Inv(s)
    ensures Inv(Exec(s, turn))
  {
    var prev, id, r := StepKinds(s, turn);
    StepReadsRows(s, turn);
    var t := Exec(s, turn);
    if Shrinks(s, t) {
      ShrinkKeepsInv(s, t);
    } else if LogsIn(s, t, id, r) {
      LoginKeepsInv(s, t, id, r);
    } else {
      ExchangeKeepsInv(s, t, prev, id, r);
    }
  }

  lemma {:induction false} RunKeepsInv(s: System, turns: seq<Turn>)
    requires Inv(s)
    ensures Inv(Run(s, turns))
  {
    if turns != [] {
      RunKeepsInv(s, turns[..|turns| - 1]);
      ExecKeepsInv(Run(s, turns[..|turns| - 1]), turns[|turns| - 1]);
    }
  }

  // ----- What is promised

  /** In every interleaving of any number of requests: a refresh token is exchanged at most
      once, and each login has at most one live token. */
  lemma SingleUse(users: set<User>, n: nat, turns: seq<Turn>)
    ensures var s := Run(Initial(users, n), turns);
            && (forall j, k :: 0 <= j < k < |s.exchanged| ==> s.exchanged[j].0 != s.exchanged[k].0)
            && OneLivePerLogin(s)
  {
    RunKeepsInv(Initial(users, n), turns);
  }

  /** A token that was issued and is no longer live. */
  ghost predicate Spent(s: System, t: Token) {
    t in s.origin && !Live(s, t)
  }

  /** A login that happened and has no live token left. */
  ghost predicate Ended(s: System, l: Login) {
    l < s.logins && !LiveLogin(s, l)
  }

  lemma ExecKeepsEnded(s: System, turn: Turn, l: Login)
    requires Inv(s) && Ended(s, l)
    ensures Ended(Exec(s, turn), l)
  {
    var prev, id, r := StepKinds(s, turn);
    var t := Exec(s, turn);
    forall i | i in t.rows ensures !(t.rows[i].token in t.origin && t.origin[t.rows[i].token] == l) {
      if i in s.rows { assert RowFits(s, s.rows[i]); }
      if prev in s.rows { assert RowFits(s, s.rows[prev]); }
    }
  }

  /** Once a login has no live token, none of its descendants ever becomes live again. */
  lemma {:induction false} EndedForGood(s: System, turns: seq<Turn>, l: Login)
    requires Inv(s) && Ended(s, l)
    ensures Ended(Run(s, turns), l)
  {
    if turns != [] {
      var before := Run(s, turns[..|turns| - 1]);
      EndedForGood(s, turns[..|turns| - 1], l);
      RunKeepsInv(s, turns[..|turns| - 1]);
      ExecKeepsEnded(before, turns[|turns| - 1], l);
    }
  }

  lemma ExecKeepsSpent(s: System, turn: Turn, t: Token)
    requires Inv(s) && Spent(s, t)
    ensures Spent(Exec(s, turn), t)
  {
    var prev, id, r := StepKinds(s, turn);
    var after := Exec(s, turn);
    forall i | i in after.rows ensures after.rows[i].token != t {
      if i in s.rows && after.rows[i] == s.rows[i] {
        assert s.rows[i].token != t;
      }
    }
  }

  /** A token that was exchanged, revoked or expired is never accepted again. */
  lemma {:induction false} SpentForGood(s: System, turns: seq<Turn>, t: Token)
    requires Inv(s) && Spent(s, t)
    ensures Spent(Run(s, turns), t)
  {
    if turns != [] {
      SpentForGood(s, turns[..|turns| - 1], t);
      RunKeepsInv(s, turns[..|turns| - 1]);
      ExecKeepsSpent(Run(s, turns[..|turns| - 1]), turns[|turns| - 1], t);
    }
  }

  lemma {:induction false} RunAppend(s: System, a: seq<Turn>, b: seq<Turn>)
    ensures Run(s, a + b) == Run(Run(s, a), b)
  {
    if b == [] {
      assert a + b == a;
    } else {
      assert a + b == (a + b[..|b| - 1]) + [b[|b| - 1]];
      assert (a + b)[..|a + b| - 1] == a + b[..|b| - 1];
      RunAppend(s, a, b[..|b| - 1]);
    }
  }

  /** Revoking a user's credentials ends every login the user had by then, for good: in every
      later state the user's live tokens descend from logins after the revocation. */
  lemma RevocationIsFinal(users: set<User>, n: nat, before: seq<Turn>, turn: Turn, after: seq<Turn>)
    requires var s := Run(Initial(users, n), before);
             turn.Act? && turn.who < n && turn.who < |s.requests| && s.requests[turn.who].Revoking?
    ensures var s := Run(Initial(users, n), before);
            var t := Run(Initial(users, n), before + [turn] + after);
            forall i :: i in t.rows && t.rows[i].user == s.requests[turn.who].user ==>
                          t.rows[i].token in t.origin && t.origin[t.rows[i].token] >= s.logins
  {
    var s0 := Initial(users, n);
    var s := Run(s0, before);
    RunKeepsInv(s0, before);
    assert (before + [turn])[..|before|] == before;
    RunAppend(s0, before + [turn], after);
    var t := Run(Exec(s, turn), after);
    forall i | i in t.rows && t.rows[i].user == s.requests[turn.who].user
      ensures t.rows[i].token in t.origin && t.origin[t.rows[i].token] >= s.logins
    {
      RevokedFrom(s, turn, after, i);
    }
  }

  lemma RevokedFrom(s: System, turn: Turn, after: seq<Turn>, i: int)
    requires Inv(s) && turn.Act? && turn.who < |s.requests| && s.requests[turn.who].Revoking?
    requires var t := Run(Exec(s, turn), after); i in t.rows && t.rows[i].user == s.requests[turn.who].user
    ensures var t := Run(Exec(s, turn), after); t.rows[i].token in t.origin && t.origin[t.rows[i].token] >= s.logins
  {
    ExecKeepsInv(s, turn);
    LaterRowIsNew(s, Exec(s, turn), s.requests[turn.who].user, after, i);
  }

  lemma LaterRowIsNew(s: System, r: System, user: User, after: seq<Turn>, i: int)
    requires Inv(s) && Inv(r)
    requires r.rows == s.rows - RowsOf(s, user) && r.origin == s.origin && r.logins == s.logins && r.owner == s.owner
    requires i in Run(r, after).rows && Run(r, after).rows[i].user == user
    ensures var t := Run(r, after); t.rows[i].token in t.origin && t.origin[t.rows[i].token] >= s.logins
  {
    var t := Run(r, after);
    RunKeepsInv(r, after);
    assert RowFits(t, t.rows[i]);
    var l := t.origin[t.rows[i].token];
    if l < s.logins {
      OwnersStay(r, after, l);
      RevokedLoginEnded(s, r, user, l);
      EndedForGood(r, after, l);
      assert LiveLogin(t, l);
    }
  }

  lemma RevokedLoginEnded(s: System, r: System, user: User, l: Login)
    requires Inv(s) && l in s.owner && s.owner[l] == user
    requires r.rows == s.rows - RowsOf(s, user) && r.origin == s.origin && r.logins == s.logins
    ensures Ended(r, l)
  {
    forall i | i in r.rows ensures !(r.rows[i].token in r.origin && r.origin[r.rows[i].token] == l) {
      assert i in s.rows && RowFits(s, s.rows[i]) && i !in RowsOf(s, user);
    }
  }

  lemma {:induction false} OwnersStay(s: System, turns: seq<Turn>, l: Login)
    requires Inv(s) && l < s.logins
    ensures l < Run(s, turns).logins && l in Run(s, turns).owner && l in s.owner && Run(s, turns).owner[l] == s.owner[l]
  {
    if turns != [] {
      OwnersStay(s, turns[..|turns| - 1], l);
      RunKeepsInv(s, turns[..|turns| - 1]);
      var prev, id, r := StepKinds(Run(s, turns[..|turns| - 1]), turns[|turns| - 1]);
    }
  }

  /** What a refresh answers: a new token exactly if the presented one is still live and unexpired
      and its user exists when the transaction runs; then the presented token is spent. */
  lemma RefreshAnswers(s: System, turn: Turn)
    requires Inv(s) && turn.Act? && turn.who < |s.requests| && s.requests[turn.who].Consuming?
    requires Usable(s, turn)
    ensures var req := s.requests[turn.who];
            var t := Exec(s, turn);
            && t.requests[turn.who].Answered?
            && (t.requests[turn.who].result == Some(turn.token) <==>
                  && req.id in s.rows && s.rows[req.id].token == req.stored.token
                  && req.stored.expires.Some? && req.stored.expires.value >= turn.now
                  && req.stored.user in s.users)
            && (t.requests[turn.who].result.Some? ==> Spent(t, req.stored.token) && Live(t, turn.token))
  {
    var req := s.requests[turn.who];
    assert RowFits(s, req.stored);
    var t := Exec(s, turn);
    if t.requests[turn.who].result.Some? {
      assert t.rows[turn.id].token == turn.token;
      forall i | i in t.rows ensures t.rows[i].token != req.stored.token {
        if i != turn.id {
          assert RowFits(s, s.rows[i]);
        }
      }
    }
  }
}
