/** The two modes of the tenant store answer alike, up to the identifiers they draw.  Tenants are named by
    the order of their creation; a mode gives the k-th one the identifier `ids(k)`. */
module TenantSimulation {
  import opened Wrappers
  import opened TenantStore

  type Ids = nat -> Uuid

  ghost predicate Injective(ids: Ids) {
    forall i: nat, j: nat :: ids(i) == ids(j) ==> i == j
  }

  /** What both modes keep, by creation index. */
  datatype Spec = Spec(users: seq<string>, envelopes: map<nat, EncryptedToken>, ciphers: map<int, Cipher>)

  function IndexOf(users: seq<string>, user: string): (i: nat)
    ensures i <= |users| && (user in users ==> i < |users| && users[i] == user)
  {
    if users == [] then 0 else if users[0] == user then 0 else 1 + IndexOf(users[1..], user)
  }

  predicate IsNew(users: seq<string>, call: Call) {
    call.GetOrCreate? && call.backendUserId != "" && call.backendUserId !in users
  }

  function SpecNext(a: Spec, call: Call): Spec {
    match call
    case GetOrCreate(user) => if IsNew(a.users, call) then a.(users := a.users + [user]) else a
    case StoreToken(k, token, cipher) =>
      a.(envelopes := a.envelopes[k := Encrypt(cipher, token)], ciphers := a.ciphers[cipher.keyVersion := cipher])
    case BindCipher(version, cipher) => a.(ciphers := a.ciphers[version := cipher])
    case _ => a
  }

  function SpecEnvelope(a: Spec, k: nat): Option<EncryptedToken> {
    if k in a.envelopes then Some(a.envelopes[k]) else None
  }

  /** The answer, a tenant's identifier being its creation index. */
  function SpecAnswer(a: Spec, call: Call): Answer {
    match call
    case GetOrCreate(user) => if user == "" then ValueError else Tenant(TenantRecord(IndexOf(a.users, user), user))
    case StoreToken(_, token, cipher) => Stored(StoredCredential(Encrypt(cipher, token), cipher))
    case GetToken(k) => Opened(a.ciphers, SpecEnvelope(a, k))
    case HasCredentials(k) => Has(SpecEnvelope(a, k).Some?)
    case BindCipher(_, _) => Bound
  }

  /** The call as a mode receives it. */
  function At(ids: Ids, call: Call): Call {
    match call
    case StoreToken(k, token, cipher) => StoreToken(ids(k), token, cipher)
    case GetToken(k) => GetToken(ids(k))
    case HasCredentials(k) => HasCredentials(ids(k))
    case _ => call
  }

  function Renamed(ids: Ids, answer: Answer): Answer {
    if answer.Tenant? then Tenant(TenantRecord(ids(answer.record.id), answer.record.backendUserId)) else answer
  }

  /** The token is for a tenant that exists by then. */
  predicate StoresToExisting(users: seq<string>, call: Call) {
    call.StoreToken? ==> call.tenant < |users|
  }

  ghost predicate KnowsUsers(s: Store, users: seq<string>, ids: Ids) {
    forall user :: Known(s, user) ==
      if user in users then Some(TenantRecord(ids(IndexOf(users, user)), user)) else None
  }

  ghost predicate Represents(s: Store, a: Spec, ids: Ids) {
    && s.ciphers == a.ciphers
    && KnowsUsers(s, a.users, ids)
    && (forall k: nat :: TakesToken(s, ids(k)) <==> s.InTables? || k < |a.users|)
    && (forall k: nat :: Envelope(s, ids(k)) == SpecEnvelope(a, k))
  }

  lemma {:induction false} FindUserAppended(tenants: seq<TenantRecord>, r: TenantRecord, user: string)
    ensures FindUser(tenants + [r], user)
            == if FindUser(tenants, user).Some? then FindUser(tenants, user)
               else if r.backendUserId == user then Some(r) else None
  {
    if tenants != [] {
      assert (tenants + [r])[1..] == tenants[1..] + [r];
      FindUserAppended(tenants[1..], r, user);
    }
  }

  lemma {:induction false} IndexOfAppended(users: seq<string>, user: string, other: string)
    ensures other in users ==> IndexOf(users + [user], other) == IndexOf(users, other)
    ensures other !in users ==> IndexOf(users, other) == |users|
    ensures user !in users ==> IndexOf(users + [user], user) == |users|
  {
    if users != [] {
      assert (users + [user])[1..] == users[1..] + [user];
      IndexOfAppended(users[1..], user, other);
      assert users == [users[0]] + users[1..];
    }
  }

  lemma AnswersRefine(s: Store, a: Spec, ids: Ids, call: Call)
    requires Represents(s, a, ids) && StoresToExisting(a.users, call)
    ensures AnswerTo(s, At(ids, call), ids(|a.users|)) == Renamed(ids, SpecAnswer(a, call))
  {
    if call.GetOrCreate? {
      IndexOfAppended(a.users, call.backendUserId, call.backendUserId);
    }
  }

  lemma CreationRefines(s: Store, a: Spec, ids: Ids, call: Call)
    requires Injective(ids) && Represents(s, a, ids) && IsNew(a.users, call)
    ensures Represents(Next(s, call, ids(|a.users|)), SpecNext(a, call), ids)
  {
    var user, id := call.backendUserId, ids(|a.users|);
    var s', a' := Next(s, call, id), SpecNext(a, call);
    assert Known(s, user) == None;
    forall other ensures Known(s', other) ==
      if other in a'.users then Some(TenantRecord(ids(IndexOf(a'.users, other)), other)) else None
    {
      IndexOfAppended(a.users, user, other);
      assert other in a'.users <==> other in a.users || other == user;
      assert Known(s, other) == if other in a.users then Some(TenantRecord(ids(IndexOf(a.users, other)), other)) else None;
      if s.InTables? { FindUserAppended(s.tenants, TenantRecord(id, user), other); }
    }
  }

  lemma StepRefines(s: Store, a: Spec, ids: Ids, call: Call)
    requires Injective(ids) && Represents(s, a, ids) && StoresToExisting(a.users, call)
    ensures Represents(Next(s, At(ids, call), ids(|a.users|)), SpecNext(a, call), ids)
  {
    if IsNew(a.users, call) {
      CreationRefines(s, a, ids, call);
    } else if call.GetOrCreate? {
      assert call.backendUserId == "" || Known(s, call.backendUserId).Some?;
    } else {
      var s', a' := Next(s, At(ids, call), ids(|a.users|)), SpecNext(a, call);
      forall user ensures Known(s', user) == Known(s, user) {}
      assert call.StoreToken? ==> TakesToken(s, ids(call.tenant));
    }
  }

  // ---- Whole runs ----

  function SpecAfter(ciphers: map<int, Cipher>, calls: seq<Call>): Spec {
    if calls == [] then Spec([], map[], ciphers)
    else SpecNext(SpecAfter(ciphers, calls[..|calls| - 1]), calls[|calls| - 1])
  }

  function EmptyMemory(ciphers: map<int, Cipher>): Store {
    InMemory(map[], map[], map[], ciphers)
  }

  function EmptyTables(ciphers: map<int, Cipher>): Store {
    InTables([], map[], ciphers)
  }

  function Users(calls: seq<Call>): seq<string> {
    if calls == [] then []
    else
      var users, last := Users(calls[..|calls| - 1]), calls[|calls| - 1];
      if IsNew(users, last) then users + [last.backendUserId] else users
  }

  /** A mode that gives the k-th new tenant the identifier `ids(k)`. */
  function StoreAfter(empty: Store, ids: Ids, calls: seq<Call>): Store {
    if calls == [] then empty
    else
      var n := |calls| - 1;
      Next(StoreAfter(empty, ids, calls[..n]), At(ids, calls[n]), ids(|Users(calls[..n])|))
  }

  function AnswerAt(empty: Store, ids: Ids, calls: seq<Call>, i: nat): Answer
    requires i < |calls|
  {
    AnswerTo(StoreAfter(empty, ids, calls[..i]), At(ids, calls[i]), ids(|Users(calls[..i])|))
  }

  predicate StoresOnlyToExisting(calls: seq<Call>) {
    calls == []
    || (StoresOnlyToExisting(calls[..|calls| - 1]) && StoresToExisting(Users(calls[..|calls| - 1]), calls[|calls| - 1]))
  }

  lemma {:induction false} SpecUsers(ciphers: map<int, Cipher>, calls: seq<Call>)
    ensures SpecAfter(ciphers, calls).users == Users(calls)
  {
    if calls != [] { SpecUsers(ciphers, calls[..|calls| - 1]); }
  }

  /** Each mode represents the specification after every such sequence of calls. */
  lemma {:induction false} RunRefines(empty: Store, ids: Ids, calls: seq<Call>)
    requires Injective(ids) && StoresOnlyToExisting(calls)
    requires empty == EmptyMemory(empty.ciphers) || empty == EmptyTables(empty.ciphers)
    ensures Represents(StoreAfter(empty, ids, calls), SpecAfter(empty.ciphers, calls), ids)
  {
    if calls != [] {
      var n := |calls| - 1;
      RunRefines(empty, ids, calls[..n]);
      SpecUsers(empty.ciphers, calls[..n]);
      hide Represents, Injective, SpecNext, Next;
      StepRefines(StoreAfter(empty, ids, calls[..n]), SpecAfter(empty.ciphers, calls[..n]), ids, calls[n]);
    }
  }

  /** Equal answers, except that a tenant's identifier is the one its mode gave it. */
  ghost predicate Alike(x: Answer, y: Answer, m: Ids, d: Ids) {
    if x.Tenant? && y.Tenant?
    then x.record.backendUserId == y.record.backendUserId && exists k: nat :: x.record.id == m(k) && y.record.id == d(k)
    else x == y
  }

  ghost predicate AllAlike(ciphers: map<int, Cipher>, m: Ids, d: Ids, calls: seq<Call>) {
    forall i :: 0 <= i < |calls| ==>
      Alike(AnswerAt(EmptyMemory(ciphers), m, calls, i), AnswerAt(EmptyTables(ciphers), d, calls, i), m, d)
  }

  lemma {:induction false} PrefixStoresToExisting(calls: seq<Call>, i: nat)
    requires StoresOnlyToExisting(calls) && i < |calls|
    ensures StoresOnlyToExisting(calls[..i]) && StoresToExisting(Users(calls[..i]), calls[i])
  {
    var n := |calls| - 1;
    if i < n {
      PrefixStoresToExisting(calls[..n], i);
      assert calls[..n][..i] == calls[..i];
    }
  }

  lemma AnswerIsSpec(empty: Store, ids: Ids, calls: seq<Call>, i: nat)
    requires Injective(ids) && i < |calls| && StoresOnlyToExisting(calls[..i])
    requires StoresToExisting(Users(calls[..i]), calls[i])
    requires empty == EmptyMemory(empty.ciphers) || empty == EmptyTables(empty.ciphers)
    ensures AnswerAt(empty, ids, calls, i) == Renamed(ids, SpecAnswer(SpecAfter(empty.ciphers, calls[..i]), calls[i]))
  {
    RunRefines(empty, ids, calls[..i]);
    SpecUsers(empty.ciphers, calls[..i]);
    hide Represents, SpecAnswer, AnswerTo, Injective;
    AnswersRefine(StoreAfter(empty, ids, calls[..i]), SpecAfter(empty.ciphers, calls[..i]), ids, calls[i]);
  }

  lemma RenamedAlike(answer: Answer, m: Ids, d: Ids)
    ensures Alike(Renamed(m, answer), Renamed(d, answer), m, d)
  {}

  /** A token for a tenant that does not exist is refused in memory and taken by the tables. */
  lemma StrayTokenTellsThemApart(ciphers: map<int, Cipher>, m: Ids, d: Ids, calls: seq<Call>, i: nat)
    requires Injective(m) && i < |calls| && StoresOnlyToExisting(calls[..i])
    requires !StoresToExisting(Users(calls[..i]), calls[i])
    ensures !Alike(AnswerAt(EmptyMemory(ciphers), m, calls, i), AnswerAt(EmptyTables(ciphers), d, calls, i), m, d)
  {
    RunRefines(EmptyMemory(ciphers), m, calls[..i]);
    SpecUsers(ciphers, calls[..i]);
    TablesStay(ciphers, d, calls[..i]);
    MemoryStays(ciphers, m, calls[..i]);
  }

  lemma {:induction false} TablesStay(ciphers: map<int, Cipher>, ids: Ids, calls: seq<Call>)
    ensures StoreAfter(EmptyTables(ciphers), ids, calls).InTables?
  {
    if calls != [] { TablesStay(ciphers, ids, calls[..|calls| - 1]); }
  }

  lemma {:induction false} MemoryStays(ciphers: map<int, Cipher>, ids: Ids, calls: seq<Call>)
    ensures StoreAfter(EmptyMemory(ciphers), ids, calls).InMemory?
  {
    if calls != [] { MemoryStays(ciphers, ids, calls[..|calls| - 1]); }
  }

  /** The modes answer a sequence of calls alike exactly when it stores tokens only for tenants that exist
      by then. */
  lemma ModesAreAlikeExactly(ciphers: map<int, Cipher>, m: Ids, d: Ids, calls: seq<Call>)
    requires Injective(m) && Injective(d)
    ensures AllAlike(ciphers, m, d, calls) <==> StoresOnlyToExisting(calls)
  {
    hide Injective, Alike;
    if StoresOnlyToExisting(calls) {
      forall i | 0 <= i < |calls|
        ensures Alike(AnswerAt(EmptyMemory(ciphers), m, calls, i), AnswerAt(EmptyTables(ciphers), d, calls, i), m, d)
      {
        PrefixStoresToExisting(calls, i);
        AnswerIsSpec(EmptyMemory(ciphers), m, calls, i);
        AnswerIsSpec(EmptyTables(ciphers), d, calls, i);
        RenamedAlike(SpecAnswer(SpecAfter(ciphers, calls[..i]), calls[i]), m, d);
      }
    } else {
      var i := FirstStray(calls);
      StrayTokenTellsThemApart(ciphers, m, d, calls, i);
    }
  }

  lemma {:induction false} FirstStray(calls: seq<Call>) returns (i: nat)
    requires !StoresOnlyToExisting(calls)
    ensures i < |calls| && StoresOnlyToExisting(calls[..i]) && !StoresToExisting(Users(calls[..i]), calls[i])
  {
    var n := |calls| - 1;
    i := n;
    if !StoresOnlyToExisting(calls[..n]) {
      i := FirstStray(calls[..n]);
      assert calls[..n][..i] == calls[..i];
    }
  }

  /** The smallest difference: a token for the first tenant before there is one. */
  lemma StrayTokenExample(m: Ids, d: Ids, token: string, cipher: Cipher)
    ensures var calls := [StoreToken(0, token, cipher)];
      && AnswerAt(EmptyMemory(map[]), m, calls, 0) == TenantNotFound
      && AnswerAt(EmptyTables(map[]), d, calls, 0).Stored?
  {
    assert [StoreToken(0, token, cipher)][..0] == [];
  }

  // ---- What is read ----

  /** The last token stored for a tenant, and its cipher. */
  function LastStored(calls: seq<Call>, k: nat): Option<(string, Cipher)> {
    if calls == [] then None
    else
      var last := calls[|calls| - 1];
      if last.StoreToken? && last.tenant == k then Some((last.token, last.cipher))
      else LastStored(calls[..|calls| - 1], k)
  }

  /** The cipher last bound to a version, by a store or on its own. */
  function LastBound(ciphers: map<int, Cipher>, calls: seq<Call>, version: int): Option<Cipher> {
    if calls == [] then if version in ciphers then Some(ciphers[version]) else None
    else
      var last := calls[|calls| - 1];
      if last.StoreToken? && last.cipher.keyVersion == version then Some(last.cipher)
      else if last.BindCipher? && last.keyVersion == version then Some(last.cipher)
      else LastBound(ciphers, calls[..|calls| - 1], version)
  }

  lemma {:induction false} SpecKeepsLast(ciphers: map<int, Cipher>, calls: seq<Call>, k: nat, version: int)
    ensures var a := SpecAfter(ciphers, calls);
      && SpecEnvelope(a, k)
         == (match LastStored(calls, k) case None => None case Some(t) => Some(Encrypt(t.1, t.0)))
      && (if version in a.ciphers then Some(a.ciphers[version]) else None) == LastBound(ciphers, calls, version)
    ensures LastStored(calls, k).Some? ==> LastBound(ciphers, calls, LastStored(calls, k).value.1.keyVersion).Some?
  {
    if calls != [] {
      SpecKeepsLast(ciphers, calls[..|calls| - 1], k, version);
    }
  }

  lemma ReadOpensEnvelope(s: Store, a: Spec, ids: Ids, k: nat)
    requires Represents(s, a, ids) && Injective(ids)
    ensures AnswerTo(s, GetToken(ids(k)), 0) == Opened(a.ciphers, SpecEnvelope(a, k))
  {}

  /** In either mode a read returns the last token stored for the tenant exactly when the cipher now bound
      to its key version is the one that encrypted it; it fails to decrypt otherwise. */
  lemma ReadsReturnLastStored(empty: Store, ids: Ids, calls: seq<Call>, k: nat)
    requires Injective(ids) && StoresOnlyToExisting(calls)
    requires empty == EmptyMemory(empty.ciphers) || empty == EmptyTables(empty.ciphers)
    ensures var read := AnswerTo(StoreAfter(empty, ids, calls), GetToken(ids(k)), 0);
      match LastStored(calls, k)
      case None => read == TenantNotFound
      case Some(t) =>
        read == if LastBound(empty.ciphers, calls, t.1.keyVersion) == Some(t.1) then Token(t.0) else InvalidToken
  {
    hide Represents, AnswerTo, StoreAfter, SpecAfter, SpecEnvelope, LastStored, LastBound, Injective;
    RunRefines(empty, ids, calls);
    ReadOpensEnvelope(StoreAfter(empty, ids, calls), SpecAfter(empty.ciphers, calls), ids, k);
    if LastStored(calls, k).Some? {
      SpecKeepsLast(empty.ciphers, calls, k, LastStored(calls, k).value.1.keyVersion);
    } else {
      SpecKeepsLast(empty.ciphers, calls, k, 0);
    }
  }

  /** Every cipher is bound under its own version, and a version always stands for one key. */
  ghost predicate OneKeyPerVersion(ciphers: map<int, Cipher>, calls: seq<Call>, keyOf: int -> int) {
    && (forall v :: v in ciphers ==> ciphers[v] == Cipher(keyOf(v), v))
    && (forall call <- calls :: call.StoreToken? ==> call.cipher == Cipher(keyOf(call.cipher.keyVersion), call.cipher.keyVersion))
    && (forall call <- calls :: call.BindCipher? ==> call.cipher == Cipher(keyOf(call.keyVersion), call.keyVersion))
  }

  lemma {:induction false} BoundIsOwnCipher(ciphers: map<int, Cipher>, calls: seq<Call>, keyOf: int -> int, k: nat, version: int)
    requires OneKeyPerVersion(ciphers, calls, keyOf)
    ensures LastBound(ciphers, calls, version).Some? ==> LastBound(ciphers, calls, version) == Some(Cipher(keyOf(version), version))
    ensures LastStored(calls, k).Some? ==>
      var c := LastStored(calls, k).value.1;
      c == Cipher(keyOf(c.keyVersion), c.keyVersion)
  {
    if calls != [] {
      var n := |calls| - 1;
      assert forall call <- calls[..n] :: call in calls;
      assert calls[n] in calls;
      BoundIsOwnCipher(ciphers, calls[..n], keyOf, k, version);
    }
  }

  /** With one key per version every read returns the last token stored for the tenant. */
  lemma ReadsNeverFailToDecrypt(empty: Store, ids: Ids, calls: seq<Call>, keyOf: int -> int, k: nat)
    requires Injective(ids) && StoresOnlyToExisting(calls) && OneKeyPerVersion(empty.ciphers, calls, keyOf)
    requires empty == EmptyMemory(empty.ciphers) || empty == EmptyTables(empty.ciphers)
    requires LastStored(calls, k).Some?
    ensures AnswerTo(StoreAfter(empty, ids, calls), GetToken(ids(k)), 0) == Token(LastStored(calls, k).value.0)
  {
    ReadsReturnLastStored(empty, ids, calls, k);
    var version := LastStored(calls, k).value.1.keyVersion;
    SpecKeepsLast(empty.ciphers, calls, k, version);
    BoundIsOwnCipher(empty.ciphers, calls, keyOf, k, version);
  }

  // ---- The maps in memory ----

  /** The two maps in memory are each other's inverse, and credentials belong to tenants. */
  ghost predicate MapsAgree(s: Store)
    requires s.InMemory?
  {
    && (forall user :: user in s.byBackendUser ==>
         var r := s.byBackendUser[user];
         user != "" && r.backendUserId == user && r.id in s.byId && s.byId[r.id] == r)
    && (forall id :: id in s.byId ==>
         var r := s.byId[id];
         r.id == id && r.backendUserId in s.byBackendUser && s.byBackendUser[r.backendUserId] == r)
    && s.credentials.Keys <= s.byId.Keys
  }

  lemma StepKeepsMapsAgreeing(s: Store, call: Call, id: Uuid)
    requires s.InMemory? && MapsAgree(s) && id !in s.byId
    ensures MapsAgree(Next(s, call, id))
  {}

  /** The tenants in memory are those created, each with its own identifier. */
  ghost predicate HasTenants(s: Store, users: seq<string>, ids: Ids)
    requires s.InMemory?
  {
    && (forall user :: user in s.byBackendUser <==> user in users)
    && (forall id :: id in s.byId ==> exists k: nat :: k < |users| && id == ids(k))
  }

  lemma StepKeepsTenants(s: Store, users: seq<string>, ids: Ids, call: Call)
    requires s.InMemory? && HasTenants(s, users, ids)
    ensures var users' := if IsNew(users, call) then users + [call.backendUserId] else users;
      Next(s, At(ids, call), ids(|users|)).InMemory? && HasTenants(Next(s, At(ids, call), ids(|users|)), users', ids)
  {
    var s' := Next(s, At(ids, call), ids(|users|));
    if IsNew(users, call) {
      forall id | id in s'.byId ensures exists k: nat :: k < |users| + 1 && id == ids(k) {
        if id in s.byId {
          var k: nat :| k < |users| && id == ids(k);
        } else {
          assert id == ids(|users|);
        }
      }
    }
  }

  /** In every run, whatever it stores for whom. */
  lemma {:induction false} MapsAlwaysAgree(ciphers: map<int, Cipher>, ids: Ids, calls: seq<Call>)
    requires Injective(ids)
    ensures var s := StoreAfter(EmptyMemory(ciphers), ids, calls);
      s.InMemory? && MapsAgree(s) && HasTenants(s, Users(calls), ids)
  {
    if calls != [] {
      var n := |calls| - 1;
      MapsAlwaysAgree(ciphers, ids, calls[..n]);
      var s, users := StoreAfter(EmptyMemory(ciphers), ids, calls[..n]), Users(calls[..n]);
      StepKeepsTenants(s, users, ids, calls[n]);
      assert ids(|users|) !in s.byId;
      StepKeepsMapsAgreeing(s, At(ids, calls[n]), ids(|users|));
    }
  }
}
