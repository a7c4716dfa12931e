/** The account table: encrypted token columns, login upserts, refresh-or-reuse. */
module AccountStore {
  import opened Wrappers
  import opened TokenCrypto

  type AccId = nat

  /** The unique key of a connected account. */
  datatype LoginKey = LoginKey(user: nat, provider: string, providerUser: string)

  datatype Status = Active | Revoked | Errored | Paused

  /** A row of the table; a NULL refresh token or stamp is None. Times are nanoseconds, None is the zero time. */
  datatype Row = Row(key: LoginKey, email: string, access: Bytes, refresh: Option<Bytes>, expiry: Option<int>,
                     scopes: seq<string>, status: Status, lastChecked: Option<int>)

  datatype Token = Token(access: Bytes, refresh: Bytes, expiry: Option<int>)

  datatype TokenError = NotFound | DatabaseError | Undecryptable | AccessRevoked | RefreshFailed | NotSaved

  /** What the token endpoint may answer. */
  datatype ProviderReply = Issued(token: Token) | InvalidGrant | OtherError

  /** The cipher and key in use, and how long before its expiry a token is no longer used. */
  datatype Config = Config(cipher: Cipher, key: Bytes, margin: nat)

  /** The timestamp column keeps microseconds. */
  function Column(expiry: Option<int>): (kept: Option<int>)
    ensures kept.Some? <==> expiry.Some?
    ensures kept.Some? ==> kept.value <= expiry.value < kept.value + 1000 && kept.value % 1000 == 0
  {
    match expiry
    case None => None
    case Some(t) => Some(t - t % 1000)
  }

  lemma ColumnIdempotent(expiry: Option<int>)
    ensures Column(Column(expiry)) == Column(expiry)
  {
  }

  /** A token is usable while it has an access part and is not about to expire. */
  predicate Usable(token: Token, now: int, margin: nat) {
    token.access != [] && (token.expiry.None? || now <= token.expiry.value - margin)
  }

  function DecryptedToken(c: Cipher, key: Bytes, row: Row): Result<Token, CryptoError> {
    match Decrypt(c, key, row.access)
    case Err(e) => Err(e)
    case Ok(access) =>
      if row.refresh.None? || row.refresh.value == [] then Ok(Token(access, [], row.expiry))
      else match Decrypt(c, key, row.refresh.value)
           case Err(e) => Err(e)
           case Ok(refresh) => Ok(Token(access, refresh, row.expiry))
  }

  /** A refresh token that is empty is not encrypted at all. */
  function EncryptedRefresh(c: Cipher, key: Bytes, random: Bytes, refresh: Bytes): Result<Option<Bytes>, CryptoError> {
    if refresh == [] then Ok(None)
    else match Encrypted(c, key, random, refresh)
         case Err(e) => Err(e)
         case Ok(x) => Ok(Some(x))
  }

  /** The row a login leaves: a new one, or the old one with new tokens, active again, its e-mail
      and stamp kept. */
  function LoginRow(before: Option<Row>, key: LoginKey, email: string, access: Bytes, refresh: Option<Bytes>,
                    expiry: Option<int>, scopes: seq<string>): Row {
    Row(key, if before.Some? then before.value.email else email, access, refresh, Column(expiry), scopes, Active,
        if before.Some? then before.value.lastChecked else None)
  }

  /** The row after saving refreshed tokens; without a new refresh token that column is left alone. */
  function RefreshedRow(row: Row, access: Bytes, refresh: Option<Bytes>, expiry: Option<int>): Row {
    row.(access := access, refresh := if refresh.Some? then refresh else row.refresh, expiry := Column(expiry))
  }

  /** The provider may leave the refresh token out; the old one is then used again. */
  function Merged(before: Token, issued: Token): Token {
    if issued.refresh == [] then issued.(refresh := before.refresh) else issued
  }

  /** What a login saves decrypts to the token given, up to the resolution of the expiry column. */
  lemma LoginReadsBack(c: Cipher, key: Bytes, before: Option<Row>, k: LoginKey, email: string, scopes: seq<string>,
                       random: Bytes, random': Bytes, token: Token)
    requires Genuine(c)
    requires Encrypted(c, key, random, token.access).Ok? && EncryptedRefresh(c, key, random', token.refresh).Ok?
    ensures DecryptedToken(c, key, LoginRow(before, k, email, Encrypted(c, key, random, token.access).value,
                             EncryptedRefresh(c, key, random', token.refresh).value, token.expiry, scopes))
            == Ok(token.(expiry := Column(token.expiry)))
  {
    DecryptEncrypted(c, key, random, token.access);
    if token.refresh != [] {
      DecryptEncrypted(c, key, random', token.refresh);
    }
  }

  /** So does a refresh, provided a token without refresh part is only saved over a row without one. */
  lemma RefreshReadsBack(c: Cipher, key: Bytes, row: Row, random: Bytes, random': Bytes, token: Token)
    requires Genuine(c) && DecryptedToken(c, key, row).Ok?
    requires token.refresh == [] ==> DecryptedToken(c, key, row).value.refresh == []
    requires Encrypted(c, key, random, token.access).Ok? && EncryptedRefresh(c, key, random', token.refresh).Ok?
    ensures DecryptedToken(c, key, RefreshedRow(row, Encrypted(c, key, random, token.access).value,
                             EncryptedRefresh(c, key, random', token.refresh).value, token.expiry))
            == Ok(token.(expiry := Column(token.expiry)))
  {
    DecryptEncrypted(c, key, random, token.access);
    if token.refresh != [] {
      DecryptEncrypted(c, key, random', token.refresh);
    }
  }

  /** Both token columns can be encrypted. */
  predicate Encryptable(key: Bytes, random: Bytes, random': Bytes, refresh: Bytes) {
    |key| == KEY_SIZE && |random| >= NONCE_SIZE && (refresh == [] || |random'| >= NONCE_SIZE)
  }

  lemma EncryptableIff(c: Cipher, key: Bytes, random: Bytes, random': Bytes, token: Token)
    ensures Encryptable(key, random, random', token.refresh) <==>
            Encrypted(c, key, random, token.access).Ok? && EncryptedRefresh(c, key, random', token.refresh).Ok?
  {
  }

  method EncryptTokens(c: Cipher, key: Bytes, random: Bytes, random': Bytes, token: Token)
    returns (ok: bool, access: Bytes, refresh: Option<Bytes>)
    ensures ok <==> Encryptable(key, random, random', token.refresh)
    ensures ok ==> Encrypted(c, key, random, token.access) == Ok(access)
    ensures ok ==> EncryptedRefresh(c, key, random', token.refresh) == Ok(refresh)
    ensures ok ==> (refresh.None? <==> token.refresh == [])
  {
    refresh := None;
    var sealed := Encrypt(c, key, random, token.access);
    if sealed.Err? {
      return false, [], None;
    }
    access := sealed.value;
    if token.refresh != [] {
      sealed := Encrypt(c, key, random', token.refresh);
      if sealed.Err? {
        return false, [], None;
      }
      refresh := Some(sealed.value);
    }
    ok := true;
  }

  // ---------- A call for a valid token ----------

  /** How a call goes: the time, the provider's answer, the random bytes drawn, and which accesses to the table fail. */
  datatype TokenCall = TokenCall(now: int, reply: ProviderReply, random: Bytes, random': Bytes,
                                 readFails: bool, statusFails: bool, saveFails: bool)

  /** What a call for an account that exists leaves in its row, and what it returns. */
  function ValidToken(c: Config, row: Row, call: TokenCall): (Row, Result<Token, TokenError>) {
    if call.readFails then (row, Err(DatabaseError))
    else
      match DecryptedToken(c.cipher, c.key, row)
      case Err(_) => (row, Err(Undecryptable))
      case Ok(stored) =>
        if Usable(stored, call.now, c.margin) then (row, Ok(stored))
        else
          match call.reply
          case InvalidGrant => (if call.statusFails then row else row.(status := Revoked), Err(AccessRevoked))
          case OtherError => (row, Err(RefreshFailed))
          case Issued(issued) => SavedToken(c, row, call, Merged(stored, issued))
  }

  function SavedToken(c: Config, row: Row, call: TokenCall, token: Token): (Row, Result<Token, TokenError>) {
    var access, refresh := Encrypted(c.cipher, c.key, call.random, token.access),
                           EncryptedRefresh(c.cipher, c.key, call.random', token.refresh);
    if access.Err? || refresh.Err? || call.saveFails then (row, Err(NotSaved))
    else (RefreshedRow(row, access.value, refresh.value, token.expiry), Ok(token))
  }

  /** All active accounts of a table, in no particular order. */
  method ActiveAccounts(rows: map<AccId, Row>) returns (active: seq<AccId>)
    ensures forall id :: id in active <==> id in rows && rows[id].status == Active
    ensures forall i, j :: 0 <= i < j < |active| ==> active[i] != active[j]
  {
    active := [];
    var left := rows.Keys;
    while left != {}
      invariant left <= rows.Keys
      invariant forall id :: id in active <==> id in rows.Keys - left && rows[id].status == Active
      invariant forall i, j :: 0 <= i < j < |active| ==> active[i] != active[j]
      decreases left
    {
      var id :| id in left;
      left := left - {id};
      if rows[id].status == Active {
        active := active + [id];
      }
    }
  }

  class AccountStore {
    const cipher: Cipher
    const key: Bytes
    const margin: nat
    var rows: map<AccId, Row>
    var next: AccId

    /** Ids are in use below `next`, no two rows share a login key, and expiries are as the column keeps them. */
    ghost predicate Valid()
      reads this
    {
      && Genuine(cipher)
      && (forall id :: id in rows ==> id < next && Column(rows[id].expiry) == rows[id].expiry)
      && (forall a, b :: a in rows && b in rows && rows[a].key == rows[b].key ==> a == b)
    }

    constructor (cipher: Cipher, key: Bytes, margin: nat)
      requires Genuine(cipher)
      ensures Valid() && rows == map[] && this.cipher == cipher && this.key == key && this.margin == margin
    {
      this.cipher, this.key, this.margin, rows, next := cipher, key, margin, map[], 0;
    }

    method FindByKey(k: LoginKey) returns (found: Option<AccId>)
      requires Valid()
      ensures found.Some? ==> found.value in rows && rows[found.value].key == k
      ensures found.None? ==> forall id :: id in rows ==> rows[id].key != k
    {
      var left := rows.Keys;
      while left != {}
        invariant left <= rows.Keys
        invariant forall id :: id in rows.Keys - left ==> rows[id].key != k
        decreases left
      {
        var id :| id in left;
        if rows[id].key == k {
          return Some(id);
        }
        left := left - {id};
      }
      return None;
    }

    /** Log in: encrypt the tokens and insert the account, or overwrite the one with the same key. */
    method UpsertConnectedAccount(k: LoginKey, email: string, token: Token, scopes: seq<string>,
                                  random: Bytes, random': Bytes, dbFails: bool)
      returns (r: Result<AccId, TokenError>)
      requires Valid()
      modifies this
      ensures Valid()
      ensures r.Err? ==> rows == old(rows) && next == old(next)
      ensures r.Ok? ==>
        && (if r.value in old(rows) then old(rows)[r.value].key == k && next == old(next)
            else r.value == old(next) && next == old(next) + 1 &&
                 forall id :: id in old(rows) ==> old(rows)[id].key != k)
        && r.value in rows && rows == old(rows)[r.value := rows[r.value]]
        && rows[r.value].key == k && rows[r.value].status == Active && rows[r.value].scopes == scopes
        && rows[r.value].email == (if r.value in old(rows) then old(rows)[r.value].email else email)
        && rows[r.value].lastChecked == (if r.value in old(rows) then old(rows)[r.value].lastChecked else None)
        && DecryptedToken(cipher, key, rows[r.value]) == Ok(token.(expiry := Column(token.expiry)))
      ensures r.Ok? <==> !dbFails && Encryptable(key, random, random', token.refresh)
    {
      hide Encrypted, EncryptedRefresh, DecryptedToken, Genuine, Column, Encryptable;
      var ok, access, refresh := EncryptTokens(cipher, key, random, random', token);
      if !ok {
        return Err(NotSaved);
      }
      ColumnIdempotent(token.expiry);
      EncryptableIff(cipher, key, random, random', token);
      if dbFails {
        return Err(DatabaseError);
      }
      var found := FindByKey(k);
      var id := if found.Some? then found.value else next;
      var before := if found.Some? then Some(rows[id]) else None;
      var row := LoginRow(before, k, email, access, refresh, token.expiry, scopes);
      LoginReadsBack(cipher, key, before, k, email, scopes, random, random', token);
      rows := rows[id := row];
      next := if found.Some? then next else next + 1;
      return Ok(id);
    }

    /** Save refreshed tokens. */
    method UpdateAccountTokens(id: AccId, token: Token, random: Bytes, random': Bytes, dbFails: bool) returns (ok: bool)
      requires Valid()
      modifies this`rows
      ensures Valid()
      ensures ok <==> !dbFails && Encryptable(key, random, random', token.refresh) && id in old(rows)
      ensures !ok ==> rows == old(rows)
      ensures ok ==>
        && Encrypted(cipher, key, random, token.access).Ok? && EncryptedRefresh(cipher, key, random', token.refresh).Ok?
        && rows == old(rows)[id := RefreshedRow(old(rows)[id], Encrypted(cipher, key, random, token.access).value,
                                                EncryptedRefresh(cipher, key, random', token.refresh).value,
                                                token.expiry)]
      ensures ok ==> var row := old(rows)[id];
                     rows[id] == row.(access := rows[id].access, refresh := rows[id].refresh,
                                      expiry := Column(token.expiry))
      ensures ok && token.refresh == [] ==> rows[id].refresh == old(rows)[id].refresh
    {
      hide Encrypted, EncryptedRefresh, Genuine, Column, Encryptable;
      var access, refresh;
      ok, access, refresh := EncryptTokens(cipher, key, random, random', token);
      if !ok {
        return false;
      }
      ColumnIdempotent(token.expiry);
      EncryptableIff(cipher, key, random, random', token);
      if dbFails || id !in rows {
        return false;
      }
      var row := rows[id].(access := access, expiry := Column(token.expiry));
      if refresh.Some? {
        row := row.(refresh := refresh);
      }
      rows := rows[id := row];
      return true;
    }

    method UpdateAccountStatus(id: AccId, status: Status, dbFails: bool) returns (ok: bool)
      requires Valid()
      modifies this`rows
      ensures Valid() && ok == !dbFails
      ensures rows == if dbFails || id !in old(rows) then old(rows)
                      else old(rows)[id := old(rows)[id].(status := status)]
    {
      if !dbFails && id in rows {
        rows := rows[id := rows[id].(status := status)];
      }
      ok := !dbFails;
    }

    /** All active accounts, each once. */
    method GetActiveAccounts() returns (active: seq<AccId>)
      requires Valid()
      ensures forall id :: id in active <==> id in rows && rows[id].status == Active
      ensures forall i, j :: 0 <= i < j < |active| ==> active[i] != active[j]
    {
      active := ActiveAccounts(rows);
    }

    predicate Readable(table: map<AccId, Row>, id: AccId, readFails: bool) {
      !readFails && id in table && DecryptedToken(cipher, key, table[id]).Ok?
    }

    /** A usable token for the account: the stored one, or a refreshed one that is saved first. Whenever it
        succeeds, the stored row decrypts to exactly what is returned, up to the resolution of the expiry column;
        only this row changes, and its status only when access turns out to be revoked. */
    method GetValidTokenForAccount(id: AccId, call: TokenCall) returns (r: Result<Token, TokenError>)
      requires Valid()
      modifies this`rows
      ensures Valid()
      ensures id in old(rows) ==> var (row, answer) := ValidToken(Config(cipher, key, margin), old(rows)[id], call);
                                  r == answer && rows == old(rows)[id := row]
      ensures id !in old(rows) ==> r.Err? && rows == old(rows)
      ensures r.Ok? ==> id in rows &&
                        DecryptedToken(cipher, key, rows[id]) == Ok(r.value.(expiry := Column(r.value.expiry)))
      ensures r.Ok? <==> Readable(old(rows), id, call.readFails) &&
                         var stored := DecryptedToken(cipher, key, old(rows)[id]).value;
                         Usable(stored, call.now, margin) ||
                         (call.reply.Issued? && !call.saveFails &&
                          Encryptable(key, call.random, call.random', Merged(stored, call.reply.token).refresh))
      ensures r.Ok? ==> var stored := DecryptedToken(cipher, key, old(rows)[id]).value;
                        r.value == if Usable(stored, call.now, margin) then stored else Merged(stored, call.reply.token)
      ensures Readable(old(rows), id, call.readFails) ==>
                var stored := DecryptedToken(cipher, key, old(rows)[id]).value;
                var usable := stored.access != [] && (stored.expiry.None? || call.now <= stored.expiry.value - margin);
                && (usable ==> r == Ok(stored) && rows == old(rows))
                && (!usable && r.Ok? ==>
                      && call.reply.Issued?
                      && var issued := call.reply.token;
                      && r.value.access == issued.access && r.value.expiry == issued.expiry
                      && r.value.refresh == (if issued.refresh != [] then issued.refresh else stored.refresh)
                      && DecryptedToken(cipher, key, rows[id]) ==
                         Ok(Token(issued.access, r.value.refresh, Column(issued.expiry)))
                      && rows == old(rows)[id := rows[id]]
                      && rows[id].key == old(rows)[id].key && rows[id].email == old(rows)[id].email
                      && rows[id].scopes == old(rows)[id].scopes && rows[id].status == old(rows)[id].status
                      && rows[id].lastChecked == old(rows)[id].lastChecked)
      ensures r.Ok? && Usable(DecryptedToken(cipher, key, old(rows)[id]).value, call.now, margin) ==> rows == old(rows)
      ensures r.Ok? && rows != old(rows) ==>
                rows == old(rows)[id := RefreshedRow(old(rows)[id], rows[id].access, rows[id].refresh, r.value.expiry)]
      ensures r == Err(AccessRevoked) <==> Readable(old(rows), id, call.readFails) && call.reply == InvalidGrant &&
                                           !Usable(DecryptedToken(cipher, key, old(rows)[id]).value, call.now, margin)
      ensures r == Err(AccessRevoked) ==>
                rows == if call.statusFails then old(rows) else old(rows)[id := old(rows)[id].(status := Revoked)]
      ensures r.Err? && r.error != AccessRevoked ==> rows == old(rows)
    {
      hide Encrypted, EncryptedRefresh, Genuine, Column, Encryptable, DecryptedToken;
      assert id in rows ==> rows == rows[id := rows[id]];
      if call.readFails {
        return Err(DatabaseError);
      }
      if id !in rows {
        return Err(NotFound);
      }
      var row := rows[id];
      var stored := DecryptedToken(cipher, key, row);
      if stored.Err? {
        return Err(Undecryptable);
      }
      var token := stored.value;
      if Usable(token, call.now, margin) {
        StoredExpiry(cipher, key, row);
        return Ok(token);
      }
      match call.reply {
        case InvalidGrant =>
          var _ := UpdateAccountStatus(id, Revoked, call.statusFails);
          return Err(AccessRevoked);
        case OtherError =>
          return Err(RefreshFailed);
        case Issued(issued) =>
          var newToken := issued;
          if newToken.refresh == [] {
            newToken := newToken.(refresh := token.refresh);
          }
          EncryptableIff(cipher, key, call.random, call.random', newToken);
          var ok := UpdateAccountTokens(id, newToken, call.random, call.random', call.saveFails);
          if !ok {
            return Err(NotSaved);
          }
          RefreshReadsBack(cipher, key, row, call.random, call.random', newToken);
          return Ok(newToken);
      }
    }
  }

  lemma StoredExpiry(c: Cipher, key: Bytes, row: Row)
    requires DecryptedToken(c, key, row).Ok?
    ensures DecryptedToken(c, key, row).value.expiry == row.expiry
  {
  }
}
