/** Tenants and their encrypted Canvas tokens, kept in memory or in two database tables. */
module TenantStore {
  import opened Wrappers

  type Uuid = nat

  datatype TenantRecord = TenantRecord(id: Uuid, backendUserId: string)

  // ---- Ciphers ----

  /** A versioned key.  A ciphertext gives its text to the key that sealed it and to no other. */
  datatype Cipher = Cipher(key: int, keyVersion: int)

  datatype Ciphertext = Sealed(key: int, text: string)

  datatype EncryptedToken = EncryptedToken(ciphertext: Ciphertext, keyVersion: int)

  function Encrypt(c: Cipher, token: string): EncryptedToken {
    EncryptedToken(Sealed(c.key, token), c.keyVersion)
  }

  function Decrypt(c: Cipher, e: EncryptedToken): Option<string> {
    if e.keyVersion != c.keyVersion || e.ciphertext.key != c.key then None else Some(e.ciphertext.text)
  }

  // ---- The two stores as values ----

  datatype StoredCredential = StoredCredential(envelope: EncryptedToken, cipher: Cipher)

  datatype Store =
    | InMemory(
        byBackendUser: map<string, TenantRecord>,
        byId: map<Uuid, TenantRecord>,
        credentials: map<Uuid, StoredCredential>,
        ciphers: map<int, Cipher>)
    | InTables(
        tenants: seq<TenantRecord>,
        rows: map<Uuid, EncryptedToken>,
        ciphers: map<int, Cipher>)

  datatype Call =
    | GetOrCreate(backendUserId: string)
    | StoreToken(tenant: Uuid, token: string, cipher: Cipher)
    | GetToken(tenant: Uuid)
    | HasCredentials(tenant: Uuid)
    | BindCipher(keyVersion: int, cipher: Cipher)

  datatype Answer =
    | Tenant(record: TenantRecord)
    | Stored(credential: StoredCredential)
    | Token(text: string)
    | Has(credentials: bool)
    | Bound
    | ValueError
    | TenantNotFound
    | InvalidToken

  function FindUser(tenants: seq<TenantRecord>, backendUserId: string): Option<TenantRecord> {
    if tenants == [] then None
    else if tenants[0].backendUserId == backendUserId then Some(tenants[0])
    else FindUser(tenants[1..], backendUserId)
  }

  function Known(s: Store, backendUserId: string): Option<TenantRecord> {
    match s
    case InMemory(byBackendUser, _, _, _) =>
      if backendUserId in byBackendUser then Some(byBackendUser[backendUserId]) else None
    case InTables(tenants, _, _) => FindUser(tenants, backendUserId)
  }

  function Envelope(s: Store, tenant: Uuid): Option<EncryptedToken> {
    match s
    case InMemory(_, _, credentials, _) =>
      if tenant in credentials then Some(credentials[tenant].envelope) else None
    case InTables(_, rows, _) => if tenant in rows then Some(rows[tenant]) else None
  }

  /** Only the store in memory checks that the tenant is there. */
  predicate TakesToken(s: Store, tenant: Uuid) {
    s.InTables? || tenant in s.byId
  }

  function Opened(ciphers: map<int, Cipher>, envelope: Option<EncryptedToken>): Answer {
    if envelope.None? || envelope.value.keyVersion !in ciphers then TenantNotFound
    else
      match Decrypt(ciphers[envelope.value.keyVersion], envelope.value)
      case None => InvalidToken
      case Some(text) => Token(text)
  }

  /** `id` is the identifier a new tenant gets. */
  function AnswerTo(s: Store, call: Call, id: Uuid): Answer {
    match call
    case GetOrCreate(user) =>
      if user == "" then ValueError
      else if Known(s, user).Some? then Tenant(Known(s, user).value)
      else Tenant(TenantRecord(id, user))
    case StoreToken(tenant, token, cipher) =>
      if TakesToken(s, tenant) then Stored(StoredCredential(Encrypt(cipher, token), cipher)) else TenantNotFound
    case GetToken(tenant) => Opened(s.ciphers, Envelope(s, tenant))
    case HasCredentials(tenant) => Has(Envelope(s, tenant).Some?)
    case BindCipher(_, _) => Bound
  }

  function Next(s: Store, call: Call, id: Uuid): Store {
    match call
    case GetOrCreate(user) =>
      if user == "" || Known(s, user).Some? then s
      else
        var record := TenantRecord(id, user);
        if s.InMemory? then s.(byBackendUser := s.byBackendUser[user := record], byId := s.byId[id := record])
        else s.(tenants := s.tenants + [record])
    case StoreToken(tenant, token, cipher) =>
      if !TakesToken(s, tenant) then s
      else
        var envelope, ciphers := Encrypt(cipher, token), s.ciphers[cipher.keyVersion := cipher];
        if s.InMemory?
        then s.(credentials := s.credentials[tenant := StoredCredential(envelope, cipher)], ciphers := ciphers)
        else s.(rows := s.rows[tenant := envelope], ciphers := ciphers)
    case BindCipher(version, cipher) => s.(ciphers := s.ciphers[version := cipher])
    case _ => s
  }

  // ---- The classes ----

  class TenantRepository {
    var tenants: seq<TenantRecord>
    var rows: map<Uuid, EncryptedToken>

    constructor ()
      ensures tenants == [] && rows == map[]
    {
      tenants, rows := [], map[];
    }

    method GetOrCreateTenant(backendUserId: string, id: Uuid) returns (r: Result<TenantRecord, Answer>)
      modifies this`tenants
      ensures backendUserId == "" ==> r == Err(ValueError) && tenants == old(tenants)
      ensures backendUserId != "" ==>
        match FindUser(old(tenants), backendUserId)
        case Some(record) => r == Ok(record) && tenants == old(tenants)
        case None => r == Ok(TenantRecord(id, backendUserId)) && tenants == old(tenants) + [TenantRecord(id, backendUserId)]
    {
      if backendUserId == "" {
        return Err(ValueError);
      }
      var existing := FindUser(tenants, backendUserId);
      if existing.Some? {
        return Ok(existing.value);
      }
      var row := TenantRecord(id, backendUserId);
      tenants := tenants + [row];
      r := Ok(row);
    }

    method UpsertCanvasCredential(tenant: Uuid, ciphertext: Ciphertext, keyVersion: int)
      modifies this`rows
      ensures rows == old(rows)[tenant := EncryptedToken(ciphertext, keyVersion)]
    {
      if tenant !in rows {
        rows := rows[tenant := EncryptedToken(ciphertext, keyVersion)];
        return;
      }
      var existing := rows[tenant];
      existing := existing.(ciphertext := ciphertext);
      existing := existing.(keyVersion := keyVersion);
      rows := rows[tenant := existing];
    }
  }

  class TenantService {
    var byBackendUser: map<string, TenantRecord>
    var byId: map<Uuid, TenantRecord>
    var credentials: map<Uuid, StoredCredential>
    var ciphers: map<int, Cipher>
    const repository: TenantRepository?

    ghost const Repr: set<object> := {this} + if repository == null then {} else {repository}

    /** What the service keeps, in the mode its constructor selected. */
    ghost function State(): Store
      reads Repr
    {
      if repository == null then InMemory(byBackendUser, byId, credentials, ciphers)
      else InTables(repository.tenants, repository.rows, ciphers)
    }

    constructor (ciphers: map<int, Cipher>, repository: TenantRepository?)
      ensures this.repository == repository
      ensures State() == if repository == null then InMemory(map[], map[], map[], ciphers)
                         else InTables(repository.tenants, repository.rows, ciphers)
    {
      byBackendUser, byId, credentials := map[], map[], map[];
      this.ciphers := ciphers;
      this.repository := repository;
    }

    method BindCipher(keyVersion: int, cipher: Cipher)
      modifies this`ciphers
      ensures State() == Next(old(State()), Call.BindCipher(keyVersion, cipher), 0)
    {
      ciphers := ciphers[keyVersion := cipher];
    }

    method GetOrCreateTenant(backendUserId: string, id: Uuid) returns (r: Answer)
      modifies Repr
      ensures r == AnswerTo(old(State()), GetOrCreate(backendUserId), id)
      ensures State() == Next(old(State()), GetOrCreate(backendUserId), id)
    {
      if backendUserId == "" {
        return ValueError;
      }
      if repository != null {
        var row := repository.GetOrCreateTenant(backendUserId, id);
        return Tenant(row.value);
      }
      if backendUserId in byBackendUser {
        return Tenant(byBackendUser[backendUserId]);
      }
      var record := TenantRecord(id, backendUserId);
      byBackendUser := byBackendUser[backendUserId := record];
      byId := byId[record.id := record];
      r := Tenant(record);
    }

    method StoreCanvasToken(tenant: Uuid, token: string, cipher: Cipher) returns (r: Answer)
      modifies Repr
      ensures r == AnswerTo(old(State()), StoreToken(tenant, token, cipher), 0)
      ensures State() == Next(old(State()), StoreToken(tenant, token, cipher), 0)
    {
      var envelope := Encrypt(cipher, token);
      if repository != null {
        repository.UpsertCanvasCredential(tenant, envelope.ciphertext, envelope.keyVersion);
        ciphers := ciphers[cipher.keyVersion := cipher];
        return Stored(StoredCredential(envelope, cipher));
      }
      if tenant !in byId {
        return TenantNotFound;
      }
      var stored := StoredCredential(envelope, cipher);
      credentials := credentials[tenant := stored];
      ciphers := ciphers[cipher.keyVersion := cipher];
      r := Stored(stored);
    }

    method GetDecryptedCanvasToken(tenant: Uuid) returns (r: Answer)
      ensures r == AnswerTo(State(), GetToken(tenant), 0)
    {
      var envelope: EncryptedToken;
      if repository != null {
        if tenant !in repository.rows {
          return TenantNotFound;
        }
        envelope := repository.rows[tenant];
      } else {
        if tenant !in credentials {
          return TenantNotFound;
        }
        envelope := credentials[tenant].envelope;
      }
      if envelope.keyVersion !in ciphers {
        return TenantNotFound;
      }
      var text := Decrypt(ciphers[envelope.keyVersion], envelope);
      r := if text.Some? then Token(text.value) else InvalidToken;
    }

    method HasCredentials(tenant: Uuid) returns (has: bool)
      ensures Has(has) == AnswerTo(State(), Call.HasCredentials(tenant), 0)
    {
      if repository != null {
        return tenant in repository.rows;
      }
      has := tenant in credentials;
    }
  }
}
