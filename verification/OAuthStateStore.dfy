/** The time-limited in-memory store for pending OAuth flows. */
module OAuthStateStore {
  import opened Options

  /** What is kept for a flow; only the user matters to the store. A user id is kept as it prints. */
  datatype Data = Data(userId: Option<string>, payload: string)

  datatype Entry = Entry(data: Data, createdAt: real)

  type Entries = map<string, Entry>

  datatype Limits = Limits(ttl: real, maxEntries: nat, maxEntriesPerUser: nat)

  datatype SetResult = Stored | UserLimit | StoreFull

  /** Flows are grouped by user; flows without a user form one group. */
  function OwnerKey(data: Data): string {
    if data.userId.Some? then data.userId.value else "__global__"
  }

  // ----- The operations on values

  function Cleaned(limits: Limits, entries: Entries, now: real): Entries {
    map k | k in entries && !(now - entries[k].createdAt > limits.ttl) :: entries[k]
  }

  function OwnerEntries(entries: Entries, owner: string): set<string> {
    set k | k in entries && OwnerKey(entries[k].data) == owner
  }

  function SetOutcome(limits: Limits, entries: Entries, state: string, data: Data, now: real): SetResult {
    var rest := Cleaned(limits, entries, now) - {state};
    if |OwnerEntries(rest, OwnerKey(data))| >= limits.maxEntriesPerUser then UserLimit
    else if |rest| >= limits.maxEntries then StoreFull
    else Stored
  }

  /** An existing entry of the state is gone even when the new one is rejected. */
  function AfterSet(limits: Limits, entries: Entries, state: string, data: Data, now: real, stamp: real): Entries {
    var rest := Cleaned(limits, entries, now) - {state};
    if SetOutcome(limits, entries, state, data, now).Stored? then rest[state := Entry(data, stamp)] else rest
  }

  function Lookup(limits: Limits, entries: Entries, state: string, now: real): Option<Data> {
    if state in entries && !(now - entries[state].createdAt > limits.ttl) then Some(entries[state].data) else None
  }

  function AfterGet(limits: Limits, entries: Entries, state: string, now: real): Entries {
    if Lookup(limits, entries, state, now).None? then entries - {state} else entries
  }

  // ----- The object

  class Store {
    const limits: Limits
    var entries: Entries

    constructor (limits: Limits)
      ensures this.limits == limits && entries == map[]
    {
      this.limits := limits;
      entries := map[];
    }

    /** Stores data for a flow. `now` and `stamp` are the two readings of the clock. */
    method Set(state: string, data: Data, now: real, stamp: real) returns (result: SetResult)
      modifies this
      ensures result == SetOutcome(limits, old(entries), state, data, now)
      ensures entries == AfterSet(limits, old(entries), state, data, now, stamp)
    {
      Cleanup(now);
      entries := entries - {state};
      var owned := CountOwned(OwnerKey(data));
      if owned >= limits.maxEntriesPerUser {
        return UserLimit;
      }
      if |entries| >= limits.maxEntries {
        return StoreFull;
      }
      entries := entries[state := Entry(data, stamp)];
      return Stored;
    }

    method CountOwned(owner: string) returns (n: nat)
      ensures n == |OwnerEntries(entries, owner)|
    {
      var owned := OwnerEntries(entries, owner);
      n := |owned|;
    }

    method Get(state: string, now: real) returns (data: Option<Data>)
      modifies this
      ensures data == Lookup(limits, old(entries), state, now)
      ensures entries == AfterGet(limits, old(entries), state, now)
    {
      if state !in entries {
        assert entries - {state} == entries;
        return None;
      }
      var entry := entries[state];
      if now - entry.createdAt > limits.ttl {
        entries := entries - {state};
        return None;
      }
      return Some(entry.data);
    }

    method Pop(state: string, now: real) returns (data: Option<Data>)
      modifies this
      ensures data == Lookup(limits, old(entries), state, now)
      ensures entries == old(entries) - {state}
    {
      if state !in entries {
        assert entries - {state} == entries;
        return None;
      }
      var entry := entries[state];
      entries := entries - {state};
      if now - entry.createdAt > limits.ttl {
        return None;
      }
      return Some(entry.data);
    }

    method Cleanup(now: real)
      modifies this
      ensures entries == Cleaned(limits, old(entries), now)
    {
      var expired := set k | k in entries && now - entries[k].createdAt > limits.ttl;
      ghost var before := entries;
      while expired != {}
        invariant expired <= entries.Keys
        invariant forall k ::
                    k in entries <==> k in before && (k in expired || !(now - before[k].createdAt > limits.ttl))
        invariant forall k :: k in expired ==> k in before && now - before[k].createdAt > limits.ttl
        invariant forall k :: k in entries ==> entries[k] == before[k]
        decreases expired
      {
        var k :| k in expired;
        entries := entries - {k};
        expired := expired - {k};
      }
    }
  }

  // ----- Runs

  datatype Op =
    | DoSet(state: string, data: Data, now: real, stamp: real)
    | DoGet(state: string, now: real)
    | DoPop(state: string, now: real)
    | DoCleanup(now: real)

  function After(limits: Limits, entries: Entries, op: Op): Entries {
    match op
    case DoSet(state, data, now, stamp) => AfterSet(limits, entries, state, data, now, stamp)
    case DoGet(state, now) => AfterGet(limits, entries, state, now)
    case DoPop(state, now) => entries - {state}
    case DoCleanup(now) => Cleaned(limits, entries, now)
  }

  /** The store after the operations, starting empty. */
  function Run(limits: Limits, ops: seq<Op>): Entries {
    if ops == [] then map[] else After(limits, Run(limits, ops[..|ops| - 1]), ops[|ops| - 1])
  }

  ghost predicate WithinLimits(limits: Limits, entries: Entries) {
    && |entries| <= limits.maxEntries
    && forall owner :: |OwnerEntries(entries, owner)| <= limits.maxEntriesPerUser
  }

  lemma SubsetSize<T>(a: set<T>, b: set<T>)
    requires a <= b
    ensures |a| <= |b|
  {
    assert b == a + (b - a);
  }

  lemma FewerStayWithin(limits: Limits, a: Entries, b: Entries)
    requires WithinLimits(limits, b)
    requires forall k :: k in a ==> k in b && a[k] == b[k]
    ensures WithinLimits(limits, a)
  {
    SubsetSize(a.Keys, b.Keys);
    assert |a| == |a.Keys| && |b| == |b.Keys|;
    forall owner ensures |OwnerEntries(a, owner)| <= limits.maxEntriesPerUser {
      SubsetSize(OwnerEntries(a, owner), OwnerEntries(b, owner));
    }
  }

  lemma OneMoreEntry(rest: Entries, state: string, entry: Entry, owner: string)
    requires state !in rest
    ensures OwnerEntries(rest[state := entry], owner) ==
            OwnerEntries(rest, owner) + if owner == OwnerKey(entry.data) then {state} else {}
  {
  }

  lemma AddStaysWithin(limits: Limits, rest: Entries, state: string, entry: Entry)
    requires WithinLimits(limits, rest) && state !in rest
    requires |rest| < limits.maxEntries && |OwnerEntries(rest, OwnerKey(entry.data))| < limits.maxEntriesPerUser
    ensures WithinLimits(limits, rest[state := entry])
  {
    var after := rest[state := entry];
    assert after.Keys == rest.Keys + {state} && |after| == |after.Keys| && |rest| == |rest.Keys|;
    forall owner ensures |OwnerEntries(after, owner)| <= limits.maxEntriesPerUser {
      OneMoreEntry(rest, state, entry, owner);
    }
  }

  lemma SetStaysWithin(limits: Limits, entries: Entries, state: string, data: Data, now: real, stamp: real)
    requires WithinLimits(limits, entries)
    ensures WithinLimits(limits, AfterSet(limits, entries, state, data, now, stamp))
  {
    var rest := Cleaned(limits, entries, now) - {state};
    FewerStayWithin(limits, rest, entries);
    if SetOutcome(limits, entries, state, data, now).Stored? {
      AddStaysWithin(limits, rest, state, Entry(data, stamp));
    }
  }

  /** Over every run: the store never holds more than its limits, in total or for one owner. */
  lemma {:induction false} RunStaysWithin(limits: Limits, ops: seq<Op>)
    ensures WithinLimits(limits, Run(limits, ops))
  {
    if ops == [] {
      forall owner ensures |OwnerEntries(map[], owner)| == 0 {
        assert OwnerEntries(map[], owner) == {};
      }
    } else {
      var before, op := Run(limits, ops[..|ops| - 1]), ops[|ops| - 1];
      RunStaysWithin(limits, ops[..|ops| - 1]);
      if op.DoSet? {
        SetStaysWithin(limits, before, op.state, op.data, op.now, op.stamp);
      } else {
        FewerStayWithin(limits, After(limits, before, op), before);
      }
    }
  }

  // ----- Which entries are there

  /** The operation removes (or replaces) an entry of `state` made at `stamp`. */
  predicate Removes(limits: Limits, op: Op, state: string, stamp: real) {
    match op
    case DoSet(s, _, now, _) => s == state || now - stamp > limits.ttl
    case DoGet(s, now) => s == state && now - stamp > limits.ttl
    case DoPop(s, _) => s == state
    case DoCleanup(now) => now - stamp > limits.ttl
  }

  /** No operation after the first `k + 1` removes an entry of `state` made at `stamp`. */
  predicate IsKept(limits: Limits, ops: seq<Op>, k: nat, state: string, stamp: real) {
    forall m :: k < m < |ops| ==> !Removes(limits, ops[m], state, stamp)
  }

  lemma IsKeptByFront(limits: Limits, ops: seq<Op>, k: nat, state: string, stamp: real)
    requires ops != [] && k < |ops| - 1
    ensures IsKept(limits, ops, k, state, stamp) <==>
              IsKept(limits, ops[..|ops| - 1], k, state, stamp) && !Removes(limits, ops[|ops| - 1], state, stamp)
  {
    assert forall m :: k < m < |ops| - 1 ==> ops[..|ops| - 1][m] == ops[m];
  }

  /** Operation `k` stored the entry, and nothing has removed it since. */
  ghost predicate StoredBy(limits: Limits, ops: seq<Op>, k: nat, state: string, entry: Entry) {
    && k < |ops|
    && ops[k].DoSet? && ops[k].state == state && ops[k].data == entry.data && ops[k].stamp == entry.createdAt
    && SetOutcome(limits, Run(limits, ops[..k]), state, entry.data, ops[k].now).Stored?
    && IsKept(limits, ops, k, state, entry.createdAt)
  }

  lemma OpKeeps(limits: Limits, entries: Entries, op: Op, state: string)
    ensures var after := After(limits, entries, op);
            state in after && !(op.DoSet? && op.state == state) <==>
              state in entries && !Removes(limits, op, state, entries[state].createdAt)
    ensures var after := After(limits, entries, op);
            state in after && !(op.DoSet? && op.state == state) ==> after[state] == entries[state]
  {
  }

  lemma StoredByFront(limits: Limits, ops: seq<Op>, k: nat, state: string, entry: Entry)
    requires ops != [] && k < |ops| - 1
    ensures StoredBy(limits, ops, k, state, entry) <==>
              && StoredBy(limits, ops[..|ops| - 1], k, state, entry)
              && !Removes(limits, ops[|ops| - 1], state, entry.createdAt)
  {
    var front := ops[..|ops| - 1];
    assert ops[..k] == front[..k];
    IsKeptByFront(limits, ops, k, state, entry.createdAt);
  }

  lemma LastSetStored(limits: Limits, ops: seq<Op>)
    requires ops != [] && ops[|ops| - 1].DoSet? && ops[|ops| - 1].state in Run(limits, ops)
    ensures var op := ops[|ops| - 1];
            StoredBy(limits, ops, |ops| - 1, op.state, Run(limits, ops)[op.state])
  {
  }

  lemma LastKept(limits: Limits, ops: seq<Op>, state: string)
    requires ops != [] && state in Run(limits, ops)
    requires !(ops[|ops| - 1].DoSet? && ops[|ops| - 1].state == state)
    ensures var front := ops[..|ops| - 1];
            && state in Run(limits, front) && Run(limits, ops)[state] == Run(limits, front)[state]
            && !Removes(limits, ops[|ops| - 1], state, Run(limits, ops)[state].createdAt)
  {
    OpKeeps(limits, Run(limits, ops[..|ops| - 1]), ops[|ops| - 1], state);
  }

  lemma {:induction false} EntryWasStored(limits: Limits, ops: seq<Op>, state: string) returns (k: nat)
    requires state in Run(limits, ops)
    ensures StoredBy(limits, ops, k, state, Run(limits, ops)[state])
  {
    if ops[|ops| - 1].DoSet? && ops[|ops| - 1].state == state {
      k := |ops| - 1;
      LastSetStored(limits, ops);
    } else {
      LastKept(limits, ops, state);
      k := EntryWasStored(limits, ops[..|ops| - 1], state);
      StoredByFront(limits, ops, k, state, Run(limits, ops)[state]);
    }
  }

  lemma {:induction false} StoredIsThere(limits: Limits, ops: seq<Op>, k: nat, state: string, entry: Entry)
    requires StoredBy(limits, ops, k, state, entry)
    ensures state in Run(limits, ops) && Run(limits, ops)[state] == entry
  {
    var front, op := ops[..|ops| - 1], ops[|ops| - 1];
    if k < |front| {
      StoredByFront(limits, ops, k, state, entry);
      StoredIsThere(limits, front, k, state, entry);
      OpKeeps(limits, Run(limits, front), op, state);
    }
  }

  /** What is in the store, and why: an entry is there exactly if some operation stored it and
      none since has popped, replaced or expired it. */
  lemma EntryIffStored(limits: Limits, ops: seq<Op>, state: string, entry: Entry)
    ensures state in Run(limits, ops) && Run(limits, ops)[state] == entry
            <==> exists k: nat :: StoredBy(limits, ops, k, state, entry)
  {
    if state in Run(limits, ops) {
      var k := EntryWasStored(limits, ops, state);
    }
    forall k: nat | StoredBy(limits, ops, k, state, entry)
      ensures state in Run(limits, ops) && Run(limits, ops)[state] == entry
    {
      StoredIsThere(limits, ops, k, state, entry);
    }
  }

  /** The answer of a `get` or `pop` that comes next: data is returned exactly if it was stored
      under that state no longer ago than the time to live, and has not been popped, replaced or
      expired since. So a `pop` returns a stored value at most once. */
  lemma LookupIffStored(limits: Limits, ops: seq<Op>, state: string, now: real, data: Data)
    ensures Lookup(limits, Run(limits, ops), state, now) == Some(data)
            <==> exists k: nat, stamp: real ::
                   StoredBy(limits, ops, k, state, Entry(data, stamp)) && now - stamp <= limits.ttl
  {
    var entries := Run(limits, ops);
    if Lookup(limits, entries, state, now) == Some(data) {
      EntryIffStored(limits, ops, state, entries[state]);
      var k: nat :| StoredBy(limits, ops, k, state, entries[state]);
      assert StoredBy(limits, ops, k, state, Entry(data, entries[state].createdAt));
    }
    if exists k: nat, stamp: real :: StoredBy(limits, ops, k, state, Entry(data, stamp)) && now - stamp <= limits.ttl {
      var k: nat, stamp: real :| StoredBy(limits, ops, k, state, Entry(data, stamp)) && now - stamp <= limits.ttl;
      EntryIffStored(limits, ops, state, Entry(data, stamp));
    }
  }

  /** After a `pop` at position `k`, the state answers nothing until it is stored anew. */
  lemma PoppedIsGone(limits: Limits, ops: seq<Op>, k: nat, now: real)
    requires k < |ops| && ops[k].DoPop?
    requires forall m :: k < m < |ops| ==> !(ops[m].DoSet? && ops[m].state == ops[k].state)
    ensures Lookup(limits, Run(limits, ops), ops[k].state, now) == None
  {
    var entries := Run(limits, ops);
    if ops[k].state in entries {
      var j := EntryWasStored(limits, ops, ops[k].state);
      assert Removes(limits, ops[k], ops[k].state, entries[ops[k].state].createdAt);
    }
  }

  /** A rejected `set` leaves no entry of its state, not even one that was there before. */
  lemma RejectedSetDiscards(limits: Limits, ops: seq<Op>, op: Op)
    requires op.DoSet? && !SetOutcome(limits, Run(limits, ops), op.state, op.data, op.now).Stored?
    ensures op.state !in Run(limits, ops + [op])
  {
    assert (ops + [op])[..|ops|] == ops;
  }
}
