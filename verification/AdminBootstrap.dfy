/** Startup enforcement of the single admin: every other admin row is collapsed into the configured one. */
module AdminBootstrap {
  import opened Options
  import opened PyText

  type Id = nat

  datatype Admin = Admin(id: Id, username: string, passwordHash: string, displayName: string)

  /** What identifies a connected account: platform and account name. */
  datatype Key = Key(platform: string, name: string)

  datatype Account = Account(id: Id, user: Id, key: Key)

  datatype Settings = Settings(username: string, password: string, displayName: string)

  // ----- The merge of connected accounts

  function OwnKeys(accounts: seq<Account>, user: Id): set<Key> {
    set a <- accounts | a.user == user :: a.key
  }

  function StaleKeys(accounts: seq<Account>, stale: set<Id>): set<Key> {
    set a <- accounts | a.user in stale :: a.key
  }

  function Keys(accounts: seq<Account>): set<Key> {
    set a <- accounts :: a.key
  }

  /** The accounts after the merge, in order of id: a stale admin's account moves to the target, unless
      the target or an earlier stale account has its key; then it is dropped. */
  function Merged(accounts: seq<Account>, own: set<Key>, target: Id, stale: set<Id>): seq<Account> {
    if accounts == [] then []
    else
      var front, last := accounts[..|accounts| - 1], accounts[|accounts| - 1];
      var kept := Merged(front, own, target, stale);
      if last.user !in stale then kept + [last]
      else if last.key in own || last.key in StaleKeys(front, stale) then kept
      else kept + [last.(user := target)]
  }

  ghost predicate DistinctKeys(accounts: seq<Account>) {
    forall i, j :: 0 <= i < j < |accounts| ==> accounts[i].key != accounts[j].key
  }

  /** The unique constraint on user, platform and account name. */
  ghost predicate UniquePerUser(accounts: seq<Account>) {
    forall i, j :: 0 <= i < j < |accounts| && accounts[i].user == accounts[j].user ==>
        accounts[i].key != accounts[j].key
  }

  ghost predicate OwnedBy(accounts: seq<Account>, users: set<Id>) {
    forall a <- accounts :: a.user in users
  }

  /** No key is lost, none is there twice, and everything belongs to the target. */
  lemma {:induction false} MergeConserves(accounts: seq<Account>, own: set<Key>, target: Id, stale: set<Id>)
    requires target !in stale && OwnedBy(accounts, stale + {target}) && UniquePerUser(accounts)
    requires OwnKeys(accounts, target) <= own
    ensures var after := Merged(accounts, own, target, stale);
            && OwnedBy(after, {target})
            && Keys(after) == OwnKeys(accounts, target) + (StaleKeys(accounts, stale) - own)
            && DistinctKeys(after)
  {
    if accounts != [] {
      var front, last := accounts[..|accounts| - 1], accounts[|accounts| - 1];
      assert accounts == front + [last];
      assert OwnKeys(accounts, target) == OwnKeys(front, target) + if last.user == target then {last.key} else {};
      assert StaleKeys(accounts, stale) == StaleKeys(front, stale) + if last.user in stale then {last.key} else {};
      MergeConserves(front, own, target, stale);
      MergeStep(accounts, own, target, stale);
    }
  }

  lemma KeysSnoc(accounts: seq<Account>, a: Account)
    ensures Keys(accounts + [a]) == Keys(accounts) + {a.key}
  {
    assert (accounts + [a])[|accounts|] == a;
    forall k | k in Keys(accounts) ensures k in Keys(accounts + [a]) {
      var b :| b in accounts && b.key == k;
      assert b in accounts + [a];
    }
  }

  lemma MergeStep(accounts: seq<Account>, own: set<Key>, target: Id, stale: set<Id>)
    requires accounts != [] && target !in stale && OwnedBy(accounts, stale + {target}) && UniquePerUser(accounts)
    requires OwnKeys(accounts, target) <= own
    requires var front := accounts[..|accounts| - 1];
             var kept := Merged(front, own, target, stale);
             && OwnedBy(kept, {target}) && DistinctKeys(kept)
             && Keys(kept) == OwnKeys(front, target) + (StaleKeys(front, stale) - own)
    ensures var front, last := accounts[..|accounts| - 1], accounts[|accounts| - 1];
            var after := Merged(accounts, own, target, stale);
            && OwnedBy(after, {target}) && DistinctKeys(after)
            && Keys(after) == OwnKeys(front, target) + (if last.user == target then {last.key} else {})
                              + (StaleKeys(front, stale) + (if last.user in stale then {last.key} else {}) - own)
  {
    var front, last := accounts[..|accounts| - 1], accounts[|accounts| - 1];
    var kept := Merged(front, own, target, stale);
    if last.user !in stale {
      assert last in accounts && last.user == target;
      LastOwnKeyIsNew(accounts, target);
      assert last.key in OwnKeys(accounts, target);
      KeysSnoc(kept, last);
      AppendDistinct(kept, last);
    } else if last.key !in own && last.key !in StaleKeys(front, stale) {
      forall k | k in OwnKeys(front, target) ensures k in own {
        var a :| a in front && a.user == target && a.key == k;
        assert a in accounts;
      }
      KeysSnoc(kept, last.(user := target));
      AppendDistinct(kept, last.(user := target));
    }
  }

  lemma LastOwnKeyIsNew(accounts: seq<Account>, target: Id)
    requires accounts != [] && UniquePerUser(accounts) && accounts[|accounts| - 1].user == target
    ensures accounts[|accounts| - 1].key !in OwnKeys(accounts[..|accounts| - 1], target)
  {
  }

  lemma AppendDistinct(accounts: seq<Account>, a: Account)
    requires DistinctKeys(accounts) && a.key !in Keys(accounts)
    ensures DistinctKeys(accounts + [a])
  {
    forall i | 0 <= i < |accounts| ensures accounts[i].key != a.key {
      assert accounts[i] in accounts;
    }
  }

  /** With all accounts owned by the target or a stale admin, the keys afterwards are the keys before. */
  lemma MergeKeepsKeys(accounts: seq<Account>, target: Id, stale: set<Id>)
    requires target !in stale && OwnedBy(accounts, stale + {target}) && UniquePerUser(accounts)
    ensures var after := Merged(accounts, OwnKeys(accounts, target), target, stale);
            OwnedBy(after, {target}) && DistinctKeys(after) && Keys(after) == Keys(accounts)
  {
    MergeConserves(accounts, OwnKeys(accounts, target), target, stale);
    forall k | k in Keys(accounts) ensures k in OwnKeys(accounts, target) + StaleKeys(accounts, stale) {
      var a :| a in accounts && a.key == k;
    }
  }

  // ----- The database

  predicate Has(admins: seq<Admin>, username: string) {
    exists a <- admins :: a.username == username
  }

  /** Which row is kept: the one with the configured name, or else the first. */
  function TargetIndex(admins: seq<Admin>, username: string): (k: nat)
    requires admins != []
    ensures k < |admins|
    ensures Has(admins, username) ==> admins[k].username == username
    ensures !Has(admins, username) ==> k == 0
  {
    if admins[0].username == username then 0
    else if |admins| == 1 then 0
    else
      var k := TargetIndex(admins[1..], username);
      assert forall a <- admins[1..] :: a in admins;
      if admins[1..][k].username == username then k + 1
      else 0
  }

  function Ids(admins: seq<Admin>): set<Id> {
    set a <- admins :: a.id
  }

  function OldNames(admins: seq<Admin>, username: string): set<string> {
    set a <- admins | a.username != username :: a.username
  }

  function Reassigned(posts: map<Id, Option<Id>>, target: Id, stale: set<Id>): map<Id, Option<Id>> {
    map i | i in posts :: if posts[i].Some? && posts[i].value in stale then Some(target) else posts[i]
  }

  function DisplayName(settings: Settings): string {
    if Strip(settings.displayName) == "" then settings.username else Strip(settings.displayName)
  }

  /** The tables, and the authors named in the post files. A cross-post may have no user. */
  class AdminDb {
    var admins: seq<Admin>
    var accounts: seq<Account>
    var crossPosts: map<Id, Option<Id>>
    var tokens: map<Id, Id>
    var authors: map<string, string>

    /** The constraints of the schema: unique ids and names, and references to existing admins. */
    ghost predicate Valid()
      reads this
    {
      && (forall i, j :: 0 <= i < j < |admins| ==>
           admins[i].id != admins[j].id && admins[i].username != admins[j].username)
      && UniquePerUser(accounts)
      && OwnedBy(accounts, Ids(admins))
      && (forall i <- crossPosts :: crossPosts[i].Some? ==> crossPosts[i].value in Ids(admins))
      && (forall i <- tokens :: tokens[i] in Ids(admins))
    }

    /** Gives the accounts of stale admins to the target, except those it has already. */
    method MergeAccounts(target: Admin, stale: set<Id>) returns (merged: seq<Account>)
      requires target.id !in stale
      ensures merged == Merged(accounts, OwnKeys(accounts, target.id), target.id, stale)
    {
      var targetAccountKeys := OwnKeys(accounts, target.id);
      ghost var own := targetAccountKeys;
      merged := [];
      for i := 0 to |accounts|
        invariant merged == Merged(accounts[..i], own, target.id, stale)
        invariant targetAccountKeys == own + StaleKeys(accounts[..i], stale)
      {
        var account := accounts[i];
        assert accounts[..i + 1][..i] == accounts[..i] && accounts[..i + 1] == accounts[..i] + [account];
        StaleKeysSnoc(accounts[..i], account, stale);
        if account.user !in stale {
          merged := merged + [account];
        } else if account.key !in targetAccountKeys {
          merged := merged + [account.(user := target.id)];
          targetAccountKeys := targetAccountKeys + {account.key};
        }
      }
      assert accounts[..|accounts|] == accounts;
    }

    /** Moves what belongs to stale admins to the target, and deletes their rows. Deleting a row
        takes with it whatever the admin still owns. */
    method CollapseAdminIdentities(target: Admin, stale: set<Id>)
      requires target.id !in stale
      modifies `accounts, `crossPosts, `tokens, `admins
      ensures accounts == DropOwned(Merged(old(accounts), OwnKeys(old(accounts), target.id), target.id, stale), stale)
      ensures crossPosts == Reassigned(old(crossPosts), target.id, stale)
      ensures tokens == map i | i in old(tokens) && old(tokens)[i] !in stale :: old(tokens)[i]
      ensures admins == KeepAdmins(old(admins), stale)
    {
      if stale == {} {
        MergeNothing(accounts, OwnKeys(accounts, target.id), target.id);
        DropNothing(accounts, {});
        KeepAll(admins);
        return;
      }
      var merged := MergeAccounts(target, stale);
      crossPosts := Reassigned(crossPosts, target.id, stale);
      admins := KeepAdmins(admins, stale);
      accounts := DropOwned(merged, stale);
      tokens := map i | i in tokens && tokens[i] !in stale :: tokens[i];
    }

    /** Rewrites one author name in all posts. A write that fails is passed over. */
    method UpdateAuthorInPosts(oldName: string, newName: string) returns (ok: bool)
      modifies `authors
      ensures authors.Keys == old(authors).Keys
      ensures forall p <- authors ::
                  authors[p] == old(authors)[p] || (old(authors)[p] == oldName && authors[p] == newName)
      ensures ok ==> forall p <- authors :: old(authors)[p] == oldName ==> authors[p] == newName
    {
      ok := true;
      var todo := authors.Keys;
      while todo != {}
        invariant todo <= authors.Keys == old(authors).Keys
        invariant forall p <- todo :: authors[p] == old(authors)[p]
        invariant forall p <- authors ::
                    authors[p] == old(authors)[p] || (old(authors)[p] == oldName && authors[p] == newName)
        invariant ok ==> forall p <- authors :: p !in todo && old(authors)[p] == oldName ==> authors[p] == newName
        decreases todo
      {
        var p :| p in todo;
        todo := todo - {p};
        if authors[p] == oldName {
          var written: bool := *;
          if written {
            authors := authors[p := newName];
          } else {
            ok := false;
          }
        }
      }
    }

    /** Rewrites each of the names, up to the first one for which a write fails. */
    method RewriteAuthors(names: seq<string>, newName: string) returns (ok: bool)
      requires newName !in names
      modifies `authors
      ensures authors.Keys == old(authors).Keys
      ensures forall p <- authors ::
                  authors[p] == old(authors)[p] || (old(authors)[p] in names && authors[p] == newName)
      ensures ok ==> forall p <- authors :: old(authors)[p] in names ==> authors[p] == newName
    {
      ok := true;
      for k := 0 to |names|
        invariant authors.Keys == old(authors).Keys
        invariant forall p <- authors ::
                    authors[p] == old(authors)[p] || (old(authors)[p] in names && authors[p] == newName)
        invariant forall p <- authors :: old(authors)[p] in names[..k] ==> authors[p] == newName
      {
        ok := UpdateAuthorInPosts(names[k], newName);
        if !ok {
          return;
        }
        assert names[..k + 1] == names[..k] + [names[k]];
      }
      assert names[..|names|] == names;
    }

    /** Creates the admin, or makes the one row that is kept match the configuration. `verify` and `hash`
        stand for the password functions; a hash that cannot be made is `None`. */
    method EnsureAdminUser(settings: Settings, verify: (string, string) -> bool, hash: string -> Option<string>,
                           newId: Id, hasContent: bool)
      returns (ok: bool, repaired: bool)
      requires Valid()
      modifies this
      ensures !ok <==> old(admins) == [] && hash(settings.password).None?
      ensures !ok ==> unchanged(this)
      ensures ok ==> Valid() && |admins| == 1
      ensures ok ==> admins[0].username == settings.username && admins[0].displayName == DisplayName(settings)
      ensures ok && old(admins) != [] ==> admins[0].id == old(admins)[TargetIndex(old(admins), settings.username)].id
      ensures ok && old(admins) != [] ==>
                var existing := old(admins)[TargetIndex(old(admins), settings.username)];
                admins[0].passwordHash == SyncedHash(existing.passwordHash, settings.password, verify, hash)
      ensures ok ==> DistinctKeys(accounts) && Keys(accounts) == Keys(old(accounts))
      ensures ok ==> OwnedBy(accounts, {admins[0].id})
      ensures ok ==> crossPosts.Keys == old(crossPosts).Keys
      ensures ok ==> forall i <- crossPosts ::
                       crossPosts[i] == if old(crossPosts)[i].Some? then Some(admins[0].id) else None
      ensures ok && old(admins) != [] ==>
                tokens == if MustRevoke(old(admins), settings, verify, hash) then map[] else old(tokens)
      ensures authors.Keys == old(authors).Keys
      ensures forall p <- authors ::
                  authors[p] == old(authors)[p] ||
                  (old(authors)[p] in OldNames(old(admins), settings.username) && authors[p] == settings.username)
      ensures ok && hasContent && repaired ==>
                forall p <- authors :: old(authors)[p] in OldNames(old(admins), settings.username) ==>
                    authors[p] == settings.username
    {
      ok, repaired := true, true;
      if admins == [] {
        ok := CreateAdmin(settings, hash, newId);
        return;
      }
      var names := NamesToRewrite(admins, settings.username);
      if hasContent && names != [] {
        repaired := RewriteAuthors(names, settings.username);
      }
      SyncAdmin(settings, verify, hash);
    }

    method CreateAdmin(settings: Settings, hash: string -> Option<string>, newId: Id) returns (ok: bool)
      requires Valid() && admins == []
      modifies `admins
      ensures ok <==> hash(settings.password).Some?
      ensures !ok ==> admins == []
      ensures ok ==> Valid() && |admins| == 1
      ensures ok ==> admins[0].username == settings.username && admins[0].displayName == DisplayName(settings)
      ensures accounts == [] && crossPosts == OrphanPosts(crossPosts)
    {
      NothingOwned(accounts, admins);
      ok := hash(settings.password).Some?;
      if ok {
        admins := [Admin(newId, settings.username, hash(settings.password).value, DisplayName(settings))];
      }
    }

    /** The database half of the startup, when there is an admin already. */
    method SyncAdmin(settings: Settings, verify: (string, string) -> bool, hash: string -> Option<string>)
      requires Valid() && admins != []
      modifies `admins, `accounts, `crossPosts, `tokens
      ensures Valid() && |admins| == 1
      ensures var existing := old(admins)[TargetIndex(old(admins), settings.username)];
              && admins[0].id == existing.id
              && admins[0].username == settings.username
              && admins[0].passwordHash == SyncedHash(existing.passwordHash, settings.password, verify, hash)
              && admins[0].displayName == DisplayName(settings)
      ensures DistinctKeys(accounts) && Keys(accounts) == Keys(old(accounts)) && OwnedBy(accounts, {admins[0].id})
      ensures crossPosts.Keys == old(crossPosts).Keys
      ensures forall i <- crossPosts :: crossPosts[i] == if old(crossPosts)[i].Some? then Some(admins[0].id) else None
      ensures tokens == if MustRevoke(old(admins), settings, verify, hash) then map[] else old(tokens)
    {
      var k := TargetIndex(admins, settings.username);
      var existing := admins[k];
      var revoke := MustRevoke(admins, settings, verify, hash);
      var ids := Ids(admins);
      IdsOf(admins, k);
      KeepOnly(k, existing.(username := settings.username, displayName := DisplayName(settings),
                            passwordHash := SyncedHash(existing.passwordHash, settings.password, verify, hash)));
      if revoke {
        DeleteTokensOf(ids);
      } else {
        SingleId(old(admins), k);
      }
      IdsOf(admins, 0);
    }

    /** Makes `target` the only admin, in place of row `k`, and gives it what the others own. */
    method KeepOnly(k: nat, target: Admin)
      requires Valid() && k < |admins| && target.id == admins[k].id
      modifies `admins, `accounts, `crossPosts, `tokens
      ensures admins == [target]
      ensures DistinctKeys(accounts) && Keys(accounts) == Keys(old(accounts)) && OwnedBy(accounts, {target.id})
      ensures crossPosts == Reassigned(old(crossPosts), target.id, Ids(old(admins)) - {target.id})
      ensures forall i :: i in tokens <==> i in old(tokens) && old(tokens)[i] == target.id
      ensures forall i :: i in tokens ==> tokens[i] == target.id
    {
      var stale := Ids(admins) - {target.id};
      IdsOf(admins, k);
      assert Ids(admins) == stale + {target.id};
      MergeKeepsKeys(accounts, target.id, stale);
      KeepOne(admins, k, target);
      admins := admins[k := target];
      CollapseAdminIdentities(target, stale);
      DropNothing(Merged(old(accounts), OwnKeys(old(accounts), target.id), target.id, stale), stale);
    }

    method DeleteTokensOf(users: set<Id>)
      modifies `tokens
      ensures forall i :: i in tokens <==> i in old(tokens) && old(tokens)[i] !in users
      ensures forall i :: i in tokens ==> tokens[i] == old(tokens)[i]
    {
      tokens := tokens - (set i | i in tokens && tokens[i] in users);
    }
  }

  lemma SingleId(admins: seq<Admin>, k: nat)
    requires k < |admins| <= 1
    ensures Ids(admins) == {admins[k].id}
  {
  }

  lemma IdsOf(admins: seq<Admin>, k: nat)
    requires k < |admins|
    ensures admins[k].id in Ids(admins)
    ensures |admins| == 1 ==> Ids(admins) == {admins[0].id}
  {
    assert admins[k] in admins;
  }

  method NamesToRewrite(admins: seq<Admin>, username: string) returns (names: seq<string>)
    ensures forall n :: n in names <==> n in OldNames(admins, username)
  {
    names := [];
    for i := 0 to |admins|
      invariant forall n :: n in names <==> n in OldNames(admins[..i], username)
    {
      var a := admins[i];
      assert admins[..i + 1] == admins[..i] + [a];
      OldNamesSnoc(admins[..i], a, username);
      if a.username != username && a.username !in names {
        names := names + [a.username];
      }
    }
    assert admins[..|admins|] == admins;
  }

  lemma OldNamesSnoc(admins: seq<Admin>, a: Admin, username: string)
    ensures OldNames(admins + [a], username)
         == OldNames(admins, username) + if a.username != username then {a.username} else {}
  {
    assert (admins + [a])[|admins|] == a;
    forall n | n in OldNames(admins, username) ensures n in OldNames(admins + [a], username) {
      var b :| b in admins && b.username != username && b.username == n;
      assert b in admins + [a];
    }
  }

  lemma NothingOwned(accounts: seq<Account>, admins: seq<Admin>)
    requires OwnedBy(accounts, Ids(admins)) && admins == []
    ensures accounts == []
  {
    if accounts != [] {
      FirstIsMember(accounts);
    }
  }

  lemma FirstIsMember(accounts: seq<Account>)
    requires accounts != []
    ensures accounts[0] in accounts
  {
  }

  function OrphanPosts(posts: map<Id, Option<Id>>): map<Id, Option<Id>> {
    map i | i in posts :: None
  }

  /** With every other id stale, one row is kept. */
  lemma KeepOne(admins: seq<Admin>, k: nat, target: Admin)
    requires k < |admins| && target.id == admins[k].id
    requires forall i, j :: 0 <= i < j < |admins| ==> admins[i].id != admins[j].id
    ensures KeepAdmins(admins[k := target], Ids(admins) - {target.id}) == [target]
  {
    KeepFrom(admins, k, target, Ids(admins) - {target.id}, |admins|);
    assert admins[k := target][..|admins|] == admins[k := target];
  }

  lemma {:induction false} KeepFrom(admins: seq<Admin>, k: nat, target: Admin, stale: set<Id>, n: nat)
    requires k < |admins| && target.id == admins[k].id && n <= |admins|
    requires forall i, j :: 0 <= i < j < |admins| ==> admins[i].id != admins[j].id
    requires stale == Ids(admins) - {target.id}
    ensures KeepAdmins(admins[k := target][..n], stale) == if k < n then [target] else []
  {
    if n > 0 {
      var changed := admins[k := target];
      assert changed[..n][..n - 1] == changed[..n - 1];
      KeepFrom(admins, k, target, stale, n - 1);
      if n - 1 != k {
        assert admins[n - 1] in admins && admins[n - 1].id != admins[k].id;
      }
    }
  }

  lemma {:induction false} KeepAll(admins: seq<Admin>)
    ensures KeepAdmins(admins, {}) == admins
  {
    if admins != [] {
      KeepAll(admins[..|admins| - 1]);
    }
  }

  lemma {:induction false} MergeNothing(accounts: seq<Account>, own: set<Key>, target: Id)
    ensures Merged(accounts, own, target, {}) == accounts
  {
    if accounts != [] {
      MergeNothing(accounts[..|accounts| - 1], own, target);
    }
  }

  /** The stored hash, brought in line with the configured password where that is possible. */
  function SyncedHash(stored: string, password: string, verify: (string, string) -> bool,
                      hash: string -> Option<string>): string {
    if !verify(password, stored) && hash(password).Some? then hash(password).value else stored
  }

  /** Sessions end when the password or the identity changes, or when rows are collapsed. */
  predicate MustRevoke(admins: seq<Admin>, settings: Settings, verify: (string, string) -> bool,
                       hash: string -> Option<string>)
    requires admins != []
  {
    var stored := admins[TargetIndex(admins, settings.username)].passwordHash;
    || (!verify(settings.password, stored) && hash(settings.password).Some?)
    || !Has(admins, settings.username)
    || |admins| > 1
  }

  function KeepAdmins(admins: seq<Admin>, stale: set<Id>): seq<Admin> {
    if admins == [] then []
    else
      var last := admins[|admins| - 1];
      KeepAdmins(admins[..|admins| - 1], stale) + if last.id in stale then [] else [last]
  }

  function DropOwned(accounts: seq<Account>, users: set<Id>): seq<Account> {
    if accounts == [] then []
    else
      var last := accounts[|accounts| - 1];
      DropOwned(accounts[..|accounts| - 1], users) + if last.user in users then [] else [last]
  }

  lemma {:induction false} DropNothing(accounts: seq<Account>, users: set<Id>)
    requires forall a <- accounts :: a.user !in users
    ensures DropOwned(accounts, users) == accounts
  {
    if accounts != [] {
      assert accounts[|accounts| - 1] in accounts;
      DropNothing(accounts[..|accounts| - 1], users);
    }
  }

  lemma StaleKeysSnoc(accounts: seq<Account>, a: Account, stale: set<Id>)
    ensures StaleKeys(accounts + [a], stale) == StaleKeys(accounts, stale) + if a.user in stale then {a.key} else {}
  {
    assert (accounts + [a])[|accounts|] == a;
    forall k | k in StaleKeys(accounts, stale) ensures k in StaleKeys(accounts + [a], stale) {
      var b :| b in accounts && b.user in stale && b.key == k;
      assert b in accounts + [a];
    }
  }
}
