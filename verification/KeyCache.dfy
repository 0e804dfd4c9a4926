/** deriveKey of src/lib/crypto.ts and its cache. A Map is the sequence of its entries in the
    order it lists them: setting a new key appends, setting an old one overwrites in place. The
    derivation itself (PBKDF2) is a function of secret and user nobody looks into. */
module KeyCache {
  import opened Results
  import opened Sequences

  const MAX_CACHED_KEYS: nat := 1_000

  type Key = seq<bv8>

  datatype Entry = Entry(user: string, secret: string, key: Key)

  datatype Call = Call(secret: string, user: string)

  // ---------------------------------------------------------------- one call

  function Position(entries: seq<Entry>, user: string): (at: Option<nat>)
    ensures at.Some? ==> at.value < |entries| && entries[at.value].user == user
    ensures at.None? ==> forall k :: 0 <= k < |entries| ==> entries[k].user != user
  {
    if entries == [] then None
    else if entries[0].user == user then Some(0)
    else match Position(entries[1..], user)
      case None => None
      case Some(k) => Some(k + 1)
  }

  function Evict(entries: seq<Entry>): seq<Entry> {
    if |entries| > MAX_CACHED_KEYS then entries[1..] else entries
  }

  function Use(entries: seq<Entry>, call: Call, key: Key): seq<Entry> {
    match Position(entries, call.user)
    case None => Evict(entries + [Entry(call.user, call.secret, key)])
    case Some(at) =>
      if entries[at].secret == call.secret then entries[..at] + entries[at + 1..] + [entries[at]]
      else Evict(entries[at := Entry(call.user, call.secret, key)])
  }

  /** A cache that holds at most 1000 users, each once, with the key of its secret. */
  ghost predicate Valid(entries: seq<Entry>, derive: (string, string) -> Key) {
    && |entries| <= 1_000
    && (forall k :: 0 <= k < |entries| ==> entries[k].key == derive(entries[k].secret, entries[k].user))
    && forall j, k :: 0 <= j < k < |entries| ==> entries[j].user != entries[k].user
  }

  /** A cache in which one entry may be too many. */
  ghost predicate Filled(entries: seq<Entry>, derive: (string, string) -> Key) {
    && |entries| <= 1_001
    && (forall k :: 0 <= k < |entries| ==> entries[k].key == derive(entries[k].secret, entries[k].user))
    && forall j, k :: 0 <= j < k < |entries| ==> entries[j].user != entries[k].user
  }

  lemma EvictIsValid(entries: seq<Entry>, derive: (string, string) -> Key)
    requires Filled(entries, derive)
    ensures Valid(Evict(entries), derive)
  {
  }

  lemma MoveKeepsValid(entries: seq<Entry>, at: nat, derive: (string, string) -> Key)
    requires Valid(entries, derive) && at < |entries|
    ensures Valid(entries[..at] + entries[at + 1..] + [entries[at]], derive)
  {
  }

  lemma UseKeepsValid(entries: seq<Entry>, call: Call, derive: (string, string) -> Key)
    requires Valid(entries, derive)
    ensures Valid(Use(entries, call, derive(call.secret, call.user)), derive)
  {
    var entry := Entry(call.user, call.secret, derive(call.secret, call.user));
    match Position(entries, call.user)
    case None => EvictIsValid(entries + [entry], derive);
    case Some(at) =>
      if entries[at].secret == call.secret {
        MoveKeepsValid(entries, at, derive);
      } else {
        EvictIsValid(entries[at := entry], derive);
      }
  }

  class Cache {
    const derive: (string, string) -> Key
    var derivedKeys: seq<Entry>

    constructor (derive: (string, string) -> Key)
      ensures this.derive == derive && derivedKeys == []
    {
      this.derive := derive;
      derivedKeys := [];
    }

    /** The key is always that of the secret of now, whatever secrets the cache was filled with;
        without a secret the call throws. */
    method DeriveKey(secret: Option<string>, user: string) returns (key: Option<Key>)
      requires Valid(derivedKeys, derive)
      modifies this
      ensures Valid(derivedKeys, derive)
      ensures key == if secret.None? || secret.value == "" then None else Some(derive(secret.value, user))
      ensures derivedKeys ==
                if key.None? then old(derivedKeys) else Use(old(derivedKeys), Call(secret.value, user), key.value)
    {
      if secret.None? || secret.value == "" {
        return None;
      }
      UseKeepsValid(derivedKeys, Call(secret.value, user), derive);
      var at := Position(derivedKeys, user);
      if at.Some? && derivedKeys[at.value].secret == secret.value {
        var cached := derivedKeys[at.value];
        derivedKeys := derivedKeys[..at.value] + derivedKeys[at.value + 1..];
        derivedKeys := derivedKeys + [cached];
        return Some(cached.key);
      }
      var entry := Entry(user, secret.value, derive(secret.value, user));
      derivedKeys := if at.Some? then derivedKeys[at.value := entry] else derivedKeys + [entry];
      if |derivedKeys| > MAX_CACHED_KEYS {
        derivedKeys := derivedKeys[1..];
      }
      return Some(entry.key);
    }
  }

  // ---------------------------------------------------------------- recency

  function Without(users: seq<string>, user: string): seq<string> {
    if users == [] then []
    else (if users[0] == user then [] else [users[0]]) + Without(users[1..], user)
  }

  /** Everybody who ever asked, the one who asked last at the end. */
  function ByLastUse(calls: seq<Call>): seq<string> {
    if calls == [] then []
    else
      var call := calls[|calls| - 1];
      Without(ByLastUse(calls[..|calls| - 1]), call.user) + [call.user]
  }

  function Last(users: seq<string>, count: nat): seq<string> {
    if |users| <= count then users else users[|users| - count..]
  }

  function Users(entries: seq<Entry>): (users: seq<string>)
    ensures |users| == |entries|
    ensures forall k :: 0 <= k < |users| ==> users[k] == entries[k].user
  {
    seq(|entries|, k requires 0 <= k < |entries| => entries[k].user)
  }

  function Run(calls: seq<Call>, derive: (string, string) -> Key): seq<Entry> {
    if calls == [] then []
    else
      var call := calls[|calls| - 1];
      Use(Run(calls[..|calls| - 1], derive), call, derive(call.secret, call.user))
  }

  /** The cache holds the users who asked last, in the order in which they did. */
  ghost predicate IsRecent(entries: seq<Entry>, calls: seq<Call>) {
    Users(entries) == Last(ByLastUse(calls), 1_000)
  }

  lemma {:induction false} WithoutSplits(a: seq<string>, b: seq<string>, user: string)
    ensures Without(a + b, user) == Without(a, user) + Without(b, user)
  {
    if a == [] {
      assert a + b == b;
    } else {
      assert (a + b)[1..] == a[1..] + b;
      WithoutSplits(a[1..], b, user);
    }
  }

  lemma {:induction false} WithoutAbsent(users: seq<string>, user: string)
    requires user !in users
    ensures Without(users, user) == users
  {
    if users != [] {
      WithoutAbsent(users[1..], user);
    }
  }

  lemma WithoutAt(front: seq<string>, user: string, back: seq<string>)
    requires user !in front && user !in back
    ensures Without(front + [user] + back, user) == front + back
  {
    WithoutSplits(front + [user], back, user);
    WithoutSplits(front, [user], user);
    WithoutAbsent(front, user);
    WithoutAbsent(back, user);
    WithoutOne(user);
    assert front + [] == front;
  }

  lemma WithoutOne(user: string)
    ensures Without([user], user) == []
  {
  }

  lemma {:induction false} WithoutKeeps(users: seq<string>, user: string)
    ensures user !in Without(users, user)
    ensures forall other :: other in users && other != user <==> other in Without(users, user)
    ensures Distinct(users) ==> Distinct(Without(users, user))
  {
    if users != [] {
      var rest := Without(users[1..], user);
      WithoutKeeps(users[1..], user);
      if Distinct(users) {
        assert users[0] !in users[1..];
        assert Distinct(users[1..]);
      }
    }
  }

  ghost predicate Asked(calls: seq<Call>, user: string) {
    exists k :: 0 <= k < |calls| && calls[k].user == user
  }

  lemma AskedNext(calls: seq<Call>, call: Call, user: string)
    ensures Asked(calls + [call], user) <==> Asked(calls, user) || call.user == user
  {
    var all := calls + [call];
    assert all[|calls|] == call && forall k :: 0 <= k < |calls| ==> all[k] == calls[k];
  }

  lemma {:induction false} ByLastUseIsDistinct(calls: seq<Call>)
    ensures Distinct(ByLastUse(calls))
    ensures forall user :: user in ByLastUse(calls) <==> Asked(calls, user)
  {
    if calls != [] {
      var n := |calls| - 1;
      ByLastUseIsDistinct(calls[..n]);
      WithoutKeeps(ByLastUse(calls[..n]), calls[n].user);
      forall user
        ensures user in ByLastUse(calls) <==> Asked(calls, user)
      {
        AskedNext(calls[..n], calls[n], user);
        assert calls == calls[..n] + [calls[n]];
      }
    }
  }

  /** The second user has a call after all those of the first. */
  ghost predicate LastUsedBefore(calls: seq<Call>, first: string, second: string) {
    exists k :: 0 <= k < |calls| && calls[k].user == second && forall i :: k <= i < |calls| ==> calls[i].user != first
  }

  lemma {:induction false} WithoutKeepsOrder(users: seq<string>, user: string, i: nat, j: nat) returns (p: nat, q: nat)
    requires i < j < |Without(users, user)|
    ensures p < q < |users| && users[p] == Without(users, user)[i] && users[q] == Without(users, user)[j]
  {
    var skip := if users[0] == user then 0 else 1;
    if i < skip {
      q := Place(users[1..], user, j - skip);
      p, q := 0, q + 1;
    } else {
      p, q := WithoutKeepsOrder(users[1..], user, i - skip, j - skip);
      p, q := p + 1, q + 1;
    }
  }

  lemma {:induction false} Place(users: seq<string>, user: string, j: nat) returns (q: nat)
    requires j < |Without(users, user)|
    ensures q < |users| && users[q] == Without(users, user)[j]
  {
    WithoutKeeps(users, user);
    assert Without(users, user)[j] in users;
    q :| q < |users| && users[q] == Without(users, user)[j];
  }

  /** Recency by its meaning: every caller is there once, before those who called after its last
      call. */
  lemma {:induction false} ByLastUseIsOrdered(calls: seq<Call>, i: nat, j: nat)
    requires i < j < |ByLastUse(calls)|
    ensures LastUsedBefore(calls, ByLastUse(calls)[i], ByLastUse(calls)[j])
  {
    var n := |calls| - 1;
    var users, user := ByLastUse(calls[..n]), calls[n].user;
    WithoutKeeps(users, user);
    assert ByLastUse(calls)[i] == Without(users, user)[i];
    if j == |ByLastUse(calls)| - 1 {
      assert calls[n].user == ByLastUse(calls)[j];
    } else {
      var p, q := WithoutKeepsOrder(users, user, i, j);
      ByLastUseIsOrdered(calls[..n], p, q);
      var k :| 0 <= k < n && calls[k].user == users[q] && forall m :: k <= m < n ==> calls[..n][m].user != users[p];
      assert forall m :: k <= m < |calls| ==> m == n || calls[m] == calls[..n][m];
    }
  }

  // ---------------------------------------------------------------- least recently used

  ghost predicate Overwrites(entries: seq<Entry>, call: Call) {
    var at := Position(entries, call.user);
    at.Some? && entries[at.value].secret != call.secret && at.value + 1 < |entries|
  }

  lemma LastTogether(older: seq<string>, recent: seq<string>, count: nat)
    requires |recent| == count || (|recent| < count && older == [])
    ensures Last(older + recent, count) == recent
  {
  }

  lemma OnlyInCached(older: seq<string>, cached: seq<string>, at: nat)
    requires Distinct(older + cached) && at < |cached|
    ensures cached[at] !in older && Distinct(cached)
  {
    var all := older + cached;
    assert forall k :: 0 <= k < |cached| ==> all[|older| + k] == cached[k];
    assert forall k :: 0 <= k < |older| ==> all[k] == older[k];
  }

  lemma HitMoves(older: seq<string>, cached: seq<string>, user: string)
    requires user !in older
    ensures Without(older + cached, user) + [user] == older + (Without(cached, user) + [user])
  {
    WithoutSplits(older, cached, user);
    WithoutAbsent(older, user);
    Associative(older, Without(cached, user), [user]);
  }

  lemma LastAfterHit(older: seq<string>, cached: seq<string>, user: string)
    requires Distinct(older + cached) && user in cached
    requires |cached| == MAX_CACHED_KEYS || (|cached| < MAX_CACHED_KEYS && older == [])
    ensures Last(Without(older + cached, user) + [user], MAX_CACHED_KEYS) == Without(cached, user) + [user]
  {
    var at: nat :| at < |cached| && cached[at] == user;
    OnlyInCached(older, cached, at);
    DropOne(cached, at);
    HitMoves(older, cached, user);
    LastTogether(older, Without(cached, user) + [user], MAX_CACHED_KEYS);
  }

  lemma LastAfterMiss(older: seq<string>, cached: seq<string>, user: string)
    requires user !in cached
    requires |cached| == MAX_CACHED_KEYS || (|cached| < MAX_CACHED_KEYS && older == [])
    ensures Last(Without(older + cached, user) + [user], MAX_CACHED_KEYS) ==
            if |cached| == MAX_CACHED_KEYS then cached[1..] + [user] else cached + [user]
  {
    WithoutSplits(older, cached, user);
    WithoutAbsent(cached, user);
    var rest := Without(older, user);
    if |cached| == MAX_CACHED_KEYS {
      assert rest + cached + [user] == (rest + [cached[0]]) + (cached[1..] + [user]);
      LastTogether(rest + [cached[0]], cached[1..] + [user], MAX_CACHED_KEYS);
    } else {
      assert rest == [];
      LastTogether([], cached + [user], MAX_CACHED_KEYS);
      assert [] + (cached + [user]) == rest + cached + [user];
    }
  }

  lemma DropOne(cached: seq<string>, at: nat)
    requires at < |cached| && Distinct(cached)
    ensures Without(cached, cached[at]) == cached[..at] + cached[at + 1..]
  {
    var front, back := cached[..at], cached[at + 1..];
    assert cached == front + [cached[at]] + back;
    assert forall k :: 0 <= k < |front| ==> front[k] == cached[k];
    assert forall k :: 0 <= k < |back| ==> back[k] == cached[at + 1 + k];
    WithoutAt(front, cached[at], back);
  }

  lemma UsersAfterMove(entries: seq<Entry>, at: nat)
    requires at < |entries|
    ensures Users(entries[..at] + entries[at + 1..] + [entries[at]]) ==
            Users(entries)[..at] + Users(entries)[at + 1..] + [entries[at].user]
  {
  }

  lemma UsersAfter(entries: seq<Entry>, call: Call, key: Key)
    requires |entries| <= MAX_CACHED_KEYS && Distinct(Users(entries))
    ensures var after := Users(Use(entries, call, key));
            var users := Users(entries);
            if call.user !in users then after ==
                if |entries| < MAX_CACHED_KEYS then users + [call.user] else users[1..] + [call.user]
            else if Overwrites(entries, call) then after == users && users[|users| - 1] != call.user
            else after == Without(users, call.user) + [call.user]
  {
    var users := Users(entries);
    var at := Position(entries, call.user);
    if at.Some? {
      assert users[at.value] == call.user;
      DropOne(users, at.value);
      UsersAfterMove(entries, at.value);
    }
  }

  /** The users who asked last, after one more call. */
  lemma RecentAfter(calls: seq<Call>, call: Call)
    ensures var cached := Last(ByLastUse(calls), MAX_CACHED_KEYS);
            Last(ByLastUse(calls + [call]), MAX_CACHED_KEYS) ==
            if call.user in cached then Without(cached, call.user) + [call.user]
            else if |cached| == MAX_CACHED_KEYS then cached[1..] + [call.user]
            else cached + [call.user]
  {
    ByLastUseIsDistinct(calls);
    var all, cached := ByLastUse(calls), Last(ByLastUse(calls), MAX_CACHED_KEYS);
    var older := all[..|all| - |cached|];
    assert all == older + cached;
    assert (calls + [call])[..|calls|] == calls;
    if call.user in cached {
      LastAfterHit(older, cached, call.user);
    } else {
      LastAfterMiss(older, cached, call.user);
    }
  }

  lemma LastKeepsDistinct(calls: seq<Call>, count: nat)
    ensures Distinct(Last(ByLastUse(calls), count))
  {
    ByLastUseIsDistinct(calls);
  }

  /** A call keeps the cache in order exactly if it does not find, under an old secret, an entry
      that is not the newest: that one is overwritten where it stands. */
  lemma UseKeepsRecent(entries: seq<Entry>, calls: seq<Call>, call: Call, key: Key)
    requires |entries| <= MAX_CACHED_KEYS && IsRecent(entries, calls)
    ensures IsRecent(Use(entries, call, key), calls + [call]) <==> !Overwrites(entries, call)
  {
    LastKeepsDistinct(calls, MAX_CACHED_KEYS);
    RecentAfter(calls, call);
    UsersAfter(entries, call, key);
  }

  /** With one secret the cache always is what an LRU cache should be, and evicts the user who
      has not asked for longest. */
  lemma {:induction false} OneSecretIsLeastRecentlyUsed(calls: seq<Call>, secret: string,
                                                        derive: (string, string) -> Key)
    requires forall k :: 0 <= k < |calls| ==> calls[k].secret == secret
    ensures Valid(Run(calls, derive), derive) && IsRecent(Run(calls, derive), calls)
    ensures forall k :: 0 <= k < |Run(calls, derive)| ==> Run(calls, derive)[k].secret == secret
  {
    if calls != [] {
      var n := |calls| - 1;
      OneSecretIsLeastRecentlyUsed(calls[..n], secret, derive);
      UseKeepsValid(Run(calls[..n], derive), calls[n], derive);
      UseKeepsRecent(Run(calls[..n], derive), calls[..n], calls[n], derive(calls[n].secret, calls[n].user));
      assert calls[..n] + [calls[n]] == calls;
    }
  }

  // ---------------------------------------------------------------- whole runs

  /** The calls that moved their user to the end of the Map: all but those that overwrote. */
  ghost function Moving(calls: seq<Call>, derive: (string, string) -> Key): seq<Call> {
    if calls == [] then []
    else
      var n := |calls| - 1;
      Moving(calls[..n], derive) + if Overwrites(Run(calls[..n], derive), calls[n]) then [] else [calls[n]]
  }

  /** After any run, under whatever secrets, the cache is in order if overwriting is not counted
      as use: these are the users kept, and so the others are those evicted. */
  lemma {:induction false} EveryRunIsRecent(calls: seq<Call>, derive: (string, string) -> Key)
    ensures Valid(Run(calls, derive), derive) && IsRecent(Run(calls, derive), Moving(calls, derive))
  {
    if calls != [] {
      var n := |calls| - 1;
      var entries, moving, call := Run(calls[..n], derive), Moving(calls[..n], derive), calls[n];
      EveryRunIsRecent(calls[..n], derive);
      UseKeepsValid(entries, call, derive);
      if Overwrites(entries, call) {
        LastKeepsDistinct(moving, MAX_CACHED_KEYS);
        UsersAfter(entries, call, derive(call.secret, call.user));
        assert moving + [] == moving;
      } else {
        UseKeepsRecent(entries, moving, call, derive(call.secret, call.user));
      }
    }
  }

  ghost predicate RecentAt(calls: seq<Call>, k: nat, derive: (string, string) -> Key)
    requires k <= |calls|
  {
    IsRecent(Run(calls[..k], derive), calls[..k])
  }

  /** Call k finds, under an old secret, an entry that is not the newest. */
  ghost predicate OverwritesAt(calls: seq<Call>, k: nat, derive: (string, string) -> Key)
    requires k < |calls|
  {
    Overwrites(Run(calls[..k], derive), calls[k])
  }

  lemma RecentNext(calls: seq<Call>, k: nat, derive: (string, string) -> Key)
    requires k < |calls| && RecentAt(calls, k, derive)
    ensures RecentAt(calls, k + 1, derive) <==> !OverwritesAt(calls, k, derive)
  {
    EveryRunIsRecent(calls[..k], derive);
    UseKeepsRecent(Run(calls[..k], derive), calls[..k], calls[k], derive(calls[k].secret, calls[k].user));
    RunOne(calls[..k], calls[k], derive);
    assert calls[..k + 1] == calls[..k] + [calls[k]];
  }

  lemma {:induction false} RecentUntil(calls: seq<Call>, k: nat, derive: (string, string) -> Key)
    requires k <= |calls| && forall j: nat :: j < k ==> !OverwritesAt(calls, j, derive)
    ensures RecentAt(calls, k, derive)
  {
    if k > 0 {
      RecentUntil(calls, k - 1, derive);
      RecentNext(calls, k - 1, derive);
    }
  }

  /** Through a run, over any number of rotations, the cache holds the users who asked last, in
      order, exactly if no call overwrites an entry that is not the newest. */
  lemma RecentThroughout(calls: seq<Call>, derive: (string, string) -> Key)
    ensures (forall k: nat :: k <= |calls| ==> RecentAt(calls, k, derive)) <==>
            forall k: nat :: k < |calls| ==> !OverwritesAt(calls, k, derive)
  {
    if forall k: nat :: k < |calls| ==> !OverwritesAt(calls, k, derive) {
      forall k: nat | k <= |calls|
        ensures RecentAt(calls, k, derive)
      {
        RecentUntil(calls, k, derive);
      }
    } else {
      var k: nat :| k < |calls| && OverwritesAt(calls, k, derive);
      if RecentAt(calls, k, derive) {
        RecentNext(calls, k, derive);
      }
    }
  }

  lemma RunOne(calls: seq<Call>, call: Call, derive: (string, string) -> Key)
    ensures Run(calls + [call], derive) == Use(Run(calls, derive), call, derive(call.secret, call.user))
  {
    assert (calls + [call])[..|calls|] == calls;
  }

  // ---------------------------------------------------------------- after a rotation

  /** In a full cache the user at the head calls again, under a new secret, and then somebody
      new: the head is evicted, though nobody but the new user asked later. */
  lemma RotationEvictsNewest(entries: seq<Entry>, call: Call, next: Call, key: Key, nextKey: Key)
    requires |entries| == MAX_CACHED_KEYS && Distinct(Users(entries))
    requires call.user == entries[0].user && call.secret != entries[0].secret
    requires next.user !in Users(entries)
    ensures var after := Use(entries, call, key);
            && call.user in Users(after) && Users(after) == Users(entries)
            && call.user !in Users(Use(after, next, nextKey))
            && Users(Use(after, next, nextKey)) == Users(entries)[1..] + [next.user]
  {
    var after := Use(entries, call, key);
    UsersAfter(entries, call, key);
    assert Users(entries)[0] == call.user;
    UsersAfter(after, next, nextKey);
    assert forall k :: 1 <= k < |entries| ==> Users(entries)[k] != Users(entries)[0];
  }

  function Name(n: nat): string {
    seq(n, _ => 'u')
  }

  /** So many users, one after the other. */
  function Arrivals(count: nat, secret: string): seq<Call> {
    if count == 0 then [] else Arrivals(count - 1, secret) + [Call(secret, Name(count - 1))]
  }

  ghost predicate IsFilled(entries: seq<Entry>, count: nat, secret: string) {
    |entries| == count && forall k :: 0 <= k < count ==> entries[k].user == Name(k) && entries[k].secret == secret
  }

  lemma FillOne(entries: seq<Entry>, count: nat, secret: string, key: Key)
    requires count < MAX_CACHED_KEYS && IsFilled(entries, count, secret)
    ensures IsFilled(Use(entries, Call(secret, Name(count)), key), count + 1, secret)
  {
    assert forall k :: 0 <= k < count ==> |entries[k].user| == k;
    assert Position(entries, Name(count)).None?;
  }

  lemma {:induction false} ArrivalsFill(count: nat, secret: string, derive: (string, string) -> Key)
    requires count <= MAX_CACHED_KEYS
    ensures IsFilled(Run(Arrivals(count, secret), derive), count, secret)
  {
    if count > 0 {
      var before, call := Arrivals(count - 1, secret), Call(secret, Name(count - 1));
      ArrivalsFill(count - 1, secret, derive);
      RunOne(before, call, derive);
      FillOne(Run(before, derive), count - 1, secret, derive(secret, call.user));
    }
  }

  /** There is such a run: after a thousand users, the first calls again under a new secret, and
      the call of a new user evicts the first. */
  lemma EvictedAfterRotation(derive: (string, string) -> Key) returns (calls: seq<Call>, user: string)
    ensures |calls| == MAX_CACHED_KEYS + 2 && calls[MAX_CACHED_KEYS].user == user
    ensures user !in Users(Run(calls, derive)) && |Run(calls, derive)| == MAX_CACHED_KEYS
    ensures user in Last(ByLastUse(calls), 2)
  {
    var before := Arrivals(MAX_CACHED_KEYS, "old");
    ArrivalsFill(MAX_CACHED_KEYS, "old", derive);
    ArrivalsSize(MAX_CACHED_KEYS, "old");
    var entries := Run(before, derive);
    assert forall k :: 0 <= k < |entries| ==> |Users(entries)[k]| == k;
    user := Name(0);
    var call, next := Call("new", user), Call("new", Name(MAX_CACHED_KEYS));
    RotationEvictsNewest(entries, call, next, derive("new", user), derive("new", next.user));
    RunOne(before, call, derive);
    RunOne(before + [call], next, derive);
    calls := before + [call] + [next];
    LastTwo(before, call, next);
  }

  lemma {:induction false} ArrivalsSize(count: nat, secret: string)
    ensures |Arrivals(count, secret)| == count
  {
    if count > 0 {
      ArrivalsSize(count - 1, secret);
    }
  }

  lemma LastTwo(calls: seq<Call>, call: Call, next: Call)
    requires call.user != next.user
    ensures call.user in Last(ByLastUse(calls + [call] + [next]), 2)
  {
    var one, two := calls + [call], calls + [call] + [next];
    assert one[..|calls|] == calls && two[..|one|] == one;
    var older := Without(ByLastUse(calls), call.user);
    assert ByLastUse(one) == older + [call.user];
    WithoutSplits(older, [call.user], next.user);
    WithoutAbsent([call.user], next.user);
    var all := ByLastUse(two);
    assert all == Without(older, next.user) + [call.user] + [next.user];
    assert all[|all| - 2] == call.user;
    assert Last(all, 2)[0] == call.user;
  }
}
