/** Logins, refreshes and revocations by any number of unsynchronised callers: what every stored token is. */
module TokenRuns {
  import opened Wrappers
  import opened TokenCrypto
  import opened AccountStore

  type JobId = nat

  /** A call of GetValidTokenForAccount that found the token expired, and how far it is: waiting for the provider
      with the token read, about to save the refreshed token, or about to mark the account revoked as the token was
      refused. */
  datatype Job = Asking(acc: AccId, token: Token)
               | Saving(acc: AccId, token: Token)
               | Revoking(acc: AccId, token: Token)

  /** The table, the calls under way, and the worker's snapshot of active accounts. The last five fields record
      history: refresh tokens supplied at login or issued, tokens as saved by one single write, the accounts the
      worker has taken up in its current cycle, per account the refresh tokens that stem from its last login, and
      the refresh tokens the provider has refused. */
  datatype State = State(rows: map<AccId, Row>, next: AccId, jobs: map<JobId, Job>, snapshot: set<AccId>,
                         supplied: set<Bytes>, written: set<Token>, taken: set<AccId>, lineage: map<AccId, set<Bytes>>,
                         refused: set<Bytes>)

  datatype Step =
    | Login(id: AccId, loginKey: LoginKey, email: string, scopes: seq<string>, token: Token,
            random: Bytes, random': Bytes)
    | Begin(job: JobId, acc: AccId, now: int, byWorker: bool)
    | Answer(job: JobId, reply: ProviderReply)
    | Save(job: JobId, random: Bytes, random': Bytes, dbFails: bool)
    | Revoke(job: JobId, dbFails: bool)
    | StartCycle
    | Delete(acc: AccId)

  /** No call under way for the account can still save another refresh token than this one. */
  predicate Harmless(s: State, acc: AccId, refresh: Bytes) {
    forall j | j in s.jobs :: s.jobs[j].acc == acc && !s.jobs[j].Revoking? ==> s.jobs[j].token.refresh == refresh
  }

  /** A login callback without a refresh token is turned away; the account it writes is the one with its key,
      or a new one. `overlap`: a login may happen while calls for its account hold another refresh token. */
  predicate Enabled(s: State, step: Step, overlap: bool) {
    match step
    case Login(id, k, _, _, token, _, _) =>
      && token.refresh != []
      && (if id in s.rows then s.rows[id].key == k else id == s.next && forall a | a in s.rows :: s.rows[a].key != k)
      && (overlap || Harmless(s, id, token.refresh))
    case Begin(job, acc, _, byWorker) => job !in s.jobs && (byWorker ==> acc in s.snapshot)
    case Answer(job, _) => job in s.jobs && s.jobs[job].Asking?
    case Save(job, _, _, _) => job in s.jobs && s.jobs[job].Saving?
    case Revoke(job, _) => job in s.jobs && s.jobs[job].Revoking?
    case StartCycle => true
    case Delete(_) => true
  }

  function AfterLogin(c: Config, s: State, step: Step): State
    requires step.Login?
  {
    var access, refresh := Encrypted(c.cipher, c.key, step.random, step.token.access),
                           EncryptedRefresh(c.cipher, c.key, step.random', step.token.refresh);
    if access.Err? || refresh.Err? then s
    else
      var before := if step.id in s.rows then Some(s.rows[step.id]) else None;
      var row := LoginRow(before, step.loginKey, step.email, access.value, refresh.value, step.token.expiry,
          step.scopes);
      s.(rows := s.rows[step.id := row],
         next := if before.Some? then s.next else s.next + 1,
         supplied := s.supplied + {step.token.refresh},
         written := s.written + {step.token.(expiry := Column(step.token.expiry))},
         lineage := s.lineage[step.id := {step.token.refresh}])
  }

  function AfterBegin(c: Config, s: State, step: Step): State
    requires step.Begin?
  {
    var t := if step.byWorker then s.(taken := s.taken + {step.acc}) else s;
    if step.acc !in s.rows then t
    else match DecryptedToken(c.cipher, c.key, s.rows[step.acc])
         case Err(_) => t
         case Ok(token) =>
           if Usable(token, step.now, c.margin) then t
           else t.(jobs := t.jobs[step.job := Asking(step.acc, token)])
  }

  function AfterAnswer(s: State, step: Step): State
    requires step.Answer? && step.job in s.jobs && s.jobs[step.job].Asking?
  {
    var Asking(acc, token) := s.jobs[step.job];
    match step.reply
    case InvalidGrant => s.(jobs := s.jobs[step.job := Revoking(acc, token)], refused := s.refused + {token.refresh})
    case OtherError => s.(jobs := s.jobs - {step.job})
    case Issued(issued) =>
      var stems := acc in s.lineage && token.refresh in s.lineage[acc];
      s.(jobs := s.jobs[step.job := Saving(acc, Merged(token, issued))],
         supplied := s.supplied + {Merged(token, issued).refresh},
         lineage := if stems then s.lineage[acc := s.lineage[acc] + {Merged(token, issued).refresh}] else s.lineage)
  }

  function AfterSave(c: Config, s: State, step: Step): State
    requires step.Save? && step.job in s.jobs && s.jobs[step.job].Saving?
  {
    var Saving(acc, token) := s.jobs[step.job];
    var t := s.(jobs := s.jobs - {step.job});
    var access, refresh := Encrypted(c.cipher, c.key, step.random, token.access),
                           EncryptedRefresh(c.cipher, c.key, step.random', token.refresh);
    if access.Err? || refresh.Err? || step.dbFails || acc !in s.rows then t
    else t.(rows := s.rows[acc := RefreshedRow(s.rows[acc], access.value, refresh.value, token.expiry)],
            written := s.written + {token.(expiry := Column(token.expiry))})
  }

  function Take(c: Config, s: State, step: Step): State
    requires Enabled(s, step, true)
  {
    match step
    case Login(_, _, _, _, _, _, _) => AfterLogin(c, s, step)
    case Begin(_, _, _, _) => AfterBegin(c, s, step)
    case Answer(_, _) => AfterAnswer(s, step)
    case Save(_, _, _, _) => AfterSave(c, s, step)
    case Revoke(job, dbFails) =>
      var acc, t := s.jobs[job].acc, s.(jobs := s.jobs - {job});
      if dbFails || acc !in s.rows then t else t.(rows := s.rows[acc := s.rows[acc].(status := Revoked)])
    case StartCycle => s.(taken := {}, snapshot := (set a | a in s.rows && s.rows[a].status == Active))
    case Delete(acc) => s.(rows := s.rows - {acc})
  }

  // ---------- Runs ----------

  ghost predicate IsRun(c: Config, states: seq<State>, steps: seq<Step>, overlap: bool) {
    && |states| == |steps| + 1
    && forall i :: 0 <= i < |steps| ==>
         Enabled(states[i], steps[i], overlap) && states[i + 1] == Take(c, states[i], steps[i])
  }

  const EMPTY := State(map[], 0, map[], {}, {}, {}, {}, map[], {})

  // ---------- Every stored token ----------

  ghost predicate Supplied(s: State, refresh: Bytes) {
    refresh != [] && refresh in s.supplied
  }

  /** Every row decrypts, to a token that one single write put there whole, with a refresh token that is not empty
      and was supplied at a login or issued by the provider. So are the tokens of the calls under way. */
  ghost predicate Sound(c: Config, s: State) {
    && (forall id :: id in s.rows ==>
          DecryptedToken(c.cipher, c.key, s.rows[id]).Ok? &&
          var token := DecryptedToken(c.cipher, c.key, s.rows[id]).value;
          token in s.written && Supplied(s, token.refresh))
    && (forall j :: j in s.jobs ==> Supplied(s, s.jobs[j].token.refresh))
    && (forall j :: j in s.jobs && s.jobs[j].Revoking? ==> s.jobs[j].token.refresh in s.refused)
  }

  lemma SoundStep(c: Config, s: State, step: Step)
    requires Genuine(c.cipher) && Sound(c, s) && Enabled(s, step, true)
    ensures Sound(c, Take(c, s, step))
  {
    hide Encrypted, EncryptedRefresh, DecryptedToken, Genuine, Column, LoginRow, RefreshedRow, Usable, Harmless;
    match step
    case Login(id, k, email, scopes, token, random, random') =>
      var before := if id in s.rows then Some(s.rows[id]) else None;
      if Encrypted(c.cipher, c.key, random, token.access).Ok? &&
         EncryptedRefresh(c.cipher, c.key, random', token.refresh).Ok? {
        LoginReadsBack(c.cipher, c.key, before, k, email, scopes, random, random', token);
      }
    case Save(job, random, random', dbFails) =>
      var Saving(acc, token) := s.jobs[job];
      if Encrypted(c.cipher, c.key, random, token.access).Ok? &&
         EncryptedRefresh(c.cipher, c.key, random', token.refresh).Ok? && acc in s.rows {
        RefreshReadsBack(c.cipher, c.key, s.rows[acc], random, random', token);
      }
    case Revoke(job, dbFails) =>
      var acc := s.jobs[job].acc;
      if acc in s.rows {
        StatusDoesNotMatter(c, s.rows[acc], Revoked);
      }
    case _ =>
  }

  lemma StatusDoesNotMatter(c: Config, row: Row, status: Status)
    ensures DecryptedToken(c.cipher, c.key, row.(status := status)) == DecryptedToken(c.cipher, c.key, row)
  {
  }

  lemma {:induction false} SoundFrom(c: Config, states: seq<State>, steps: seq<Step>, i: nat)
    requires Genuine(c.cipher) && IsRun(c, states, steps, true) && Sound(c, states[0]) && i < |states|
    ensures Sound(c, states[i])
  {
    if i > 0 {
      SoundFrom(c, states, steps, i - 1);
      SoundStep(c, states[i - 1], steps[i - 1]);
    }
  }

  /** Under any interleaving of logins, refreshes, revocations and deletions. */
  lemma StoredTokensAreSound(c: Config, states: seq<State>, steps: seq<Step>, i: nat)
    requires Genuine(c.cipher) && IsRun(c, states, steps, true) && states[0] == EMPTY && i < |states|
    ensures Sound(c, states[i])
  {
    SoundFrom(c, states, steps, i);
  }

  // ---------- Refreshes arrive ----------

  lemma JobWaits(c: Config, s: State, step: Step, j: JobId)
    requires Enabled(s, step, true) && j in s.jobs && s.jobs[j].Saving? && !(step.Save? && step.job == j)
    ensures j in Take(c, s, step).jobs && Take(c, s, step).jobs[j] == s.jobs[j]
  {
    hide Encrypted, EncryptedRefresh, DecryptedToken, LoginRow, RefreshedRow, Usable;
  }

  /** What the provider issues is what is stored, whatever happens between its answer and the save: the row then
      decrypts to the issued access token and expiry, and to the issued refresh token, or to the one read before
      when the provider gave none. */
  lemma {:induction false} IssuedIsStored(c: Config, states: seq<State>, steps: seq<Step>, i: nat, k: nat)
    requires Genuine(c.cipher) && IsRun(c, states, steps, true) && Sound(c, states[0]) && i < k < |steps|
    requires steps[i].Answer? && steps[i].reply.Issued? && steps[k].Save? && steps[k].job == steps[i].job
    requires forall n :: i < n < k ==> !(steps[n].Save? && steps[n].job == steps[i].job)
    requires !steps[k].dbFails && |c.key| == 32 && |steps[k].random| >= 12 && |steps[k].random'| >= 12
    ensures var Asking(acc, before), t := states[i].jobs[steps[i].job], steps[i].reply.token;
            acc in states[k].rows ==>
              && acc in states[k + 1].rows
              && DecryptedToken(c.cipher, c.key, states[k + 1].rows[acc]) ==
                 Ok(Token(t.access, if t.refresh != [] then t.refresh else before.refresh, Column(t.expiry)))
  {
    hide Genuine, DecryptedToken, Sound, Column;
    var j := steps[i].job;
    var job := Saving(states[i].jobs[j].acc, Merged(states[i].jobs[j].token, steps[i].reply.token));
    var n := i + 1;
    while n < k
      invariant i < n <= k && j in states[n].jobs && states[n].jobs[j] == job
    {
      JobWaits(c, states[n], steps[n], j);
      n := n + 1;
    }
    SoundFrom(c, states, steps, k);
    SaveReadsBack(c, states[k], steps[k]);
  }

  lemma SaveReadsBack(c: Config, s: State, step: Step)
    requires Genuine(c.cipher) && Sound(c, s) && Enabled(s, step, true) && step.Save? && !step.dbFails
    requires Encryptable(c.key, step.random, step.random', s.jobs[step.job].token.refresh)
    ensures var Saving(acc, token) := s.jobs[step.job];
            acc in s.rows ==>
              acc in Take(c, s, step).rows &&
              DecryptedToken(c.cipher, c.key, Take(c, s, step).rows[acc]) == Ok(token.(expiry := Column(token.expiry)))
  {
    hide DecryptedToken, Genuine, Column, Encrypted, EncryptedRefresh, RefreshedRow, Encryptable;
    var Saving(acc, token) := s.jobs[step.job];
    EncryptableIff(c.cipher, c.key, step.random, step.random', token);
    if acc in s.rows {
      RefreshReadsBack(c.cipher, c.key, s.rows[acc], step.random, step.random', token);
    }
  }

  /** A worker cycle takes up exactly the accounts that are active when it starts. */
  lemma CycleTakesActive(c: Config, s: State, acc: AccId, job: JobId, now: int)
    requires job !in s.jobs
    ensures var t := Take(c, s, StartCycle);
            && t.rows == s.rows && t.jobs == s.jobs && acc !in t.taken
            && (Enabled(t, Begin(job, acc, now, true), true) <==> acc in s.rows && s.rows[acc].status == Active)
            && (acc in s.rows && s.rows[acc].status == Active ==> acc in Take(c, t, Begin(job, acc, now, true)).taken)
  {
    hide DecryptedToken, Usable;
  }

  // ---------- Revocation sticks ----------

  /** Revoked, or deleted altogether (ids are not reused). */
  ghost predicate Out(s: State, acc: AccId, k: LoginKey) {
    acc < s.next && (acc in s.rows ==> s.rows[acc].status == Revoked && s.rows[acc].key == k)
  }

  lemma OutStep(c: Config, s: State, step: Step, acc: AccId, k: LoginKey)
    requires Out(s, acc, k) && Enabled(s, step, true) && !(step.Login? && step.loginKey == k)
    ensures Out(Take(c, s, step), acc, k)
    ensures step == StartCycle || (acc !in s.snapshot && acc !in s.taken) ==>
              acc !in Take(c, s, step).snapshot && acc !in Take(c, s, step).taken
  {
  }

  /** Once an account is stored as revoked, a worker cycle that starts later never takes it up, whatever API calls
      do to its tokens, as long as nobody logs in to it again. */
  lemma {:induction false} RevocationSticks(c: Config, states: seq<State>, steps: seq<Step>, acc: AccId, i: nat,
      cycle: nat, j: nat)
    requires IsRun(c, states, steps, true) && i <= cycle < j < |states|
    requires acc in states[i].rows && states[i].rows[acc].status == Revoked && acc < states[i].next
    requires steps[cycle] == StartCycle
    requires forall n :: i <= n < j ==> !(steps[n].Login? && steps[n].loginKey == states[i].rows[acc].key)
    ensures acc !in states[j].snapshot && acc !in states[j].taken
    ensures Out(states[j], acc, states[i].rows[acc].key)
  {
    var k := states[i].rows[acc].key;
    var n := i;
    while n < j
      invariant i <= n <= j && Out(states[n], acc, k)
      invariant n > cycle ==> acc !in states[n].snapshot && acc !in states[n].taken
    {
      OutStep(c, states[n], steps[n], acc, k);
      n := n + 1;
    }
  }

  // ---------- The newest login ----------

  predicate Stemming(s: State, acc: AccId, refresh: Bytes) {
    acc in s.lineage && refresh in s.lineage[acc]
  }

  /** The account's stored refresh token stems from its last login: it is the one given then, or was issued in
      answer to one that does. */
  ghost predicate Stems(c: Config, s: State, acc: AccId) {
    acc in s.rows ==>
      DecryptedToken(c.cipher, c.key, s.rows[acc]).Ok? &&
      Stemming(s, acc, DecryptedToken(c.cipher, c.key, s.rows[acc]).value.refresh)
  }

  ghost predicate JobsStem(s: State, acc: AccId) {
    forall j :: j in s.jobs && s.jobs[j].acc == acc && !s.jobs[j].Revoking? ==>
        Stemming(s, acc, s.jobs[j].token.refresh)
  }

  /** What a step of a sound state puts into the account's row, if it writes the tokens of that row. */
  lemma RowAfter(c: Config, s: State, step: Step, acc: AccId)
    requires Genuine(c.cipher) && Sound(c, s) && Enabled(s, step, true) && acc in Take(c, s, step).rows
    ensures var t := Take(c, s, step);
            var token := DecryptedToken(c.cipher, c.key, t.rows[acc]);
            token.Ok? &&
            if step.Login? && step.id == acc && Encryptable(c.key, step.random, step.random', step.token.refresh)
            then token.value == step.token.(expiry := Column(step.token.expiry))
            else acc in s.rows &&
                 (token == DecryptedToken(c.cipher, c.key, s.rows[acc]) ||
                  (step.Save? && s.jobs[step.job].acc == acc &&
                   token.value == s.jobs[step.job].token.(expiry := Column(s.jobs[step.job].token.expiry))))
  {
    hide Encrypted, EncryptedRefresh, DecryptedToken, Genuine, Column, LoginRow, RefreshedRow;
    match step
    case Login(id, k, email, scopes, token, random, random') =>
      var before := if id in s.rows then Some(s.rows[id]) else None;
      EncryptableIff(c.cipher, c.key, random, random', token);
      if Encrypted(c.cipher, c.key, random, token.access).Ok? &&
         EncryptedRefresh(c.cipher, c.key, random', token.refresh).Ok? {
        LoginReadsBack(c.cipher, c.key, before, k, email, scopes, random, random', token);
      }
    case Save(job, random, random', dbFails) =>
      var token := s.jobs[job].token;
      if Encrypted(c.cipher, c.key, random, token.access).Ok? &&
         EncryptedRefresh(c.cipher, c.key, random', token.refresh).Ok?
         && s.jobs[job].acc in s.rows {
        RefreshReadsBack(c.cipher, c.key, s.rows[s.jobs[job].acc], random, random', token);
      }
    case Revoke(job, _) =>
      if s.jobs[job].acc in s.rows {
        StatusDoesNotMatter(c, s.rows[s.jobs[job].acc], Revoked);
      }
    case _ =>
  }

  /** The refresh tokens that stem from the last login only become more, until there is another one. */
  lemma LineageGrows(c: Config, s: State, step: Step, acc: AccId)
    requires Enabled(s, step, true)
    ensures var t := Take(c, s, step);
            if step.Login? && step.id == acc && Encryptable(c.key, step.random, step.random', step.token.refresh)
            then t.lineage == s.lineage[acc := {step.token.refresh}]
            else forall r :: Stemming(s, acc, r) ==> Stemming(t, acc, r)
    ensures s.refused <= Take(c, s, step).refused
  {
    hide Encrypted, EncryptedRefresh, DecryptedToken, LoginRow, RefreshedRow, Usable, Encryptable;
    if step.Login? {
      EncryptableIff(c.cipher, c.key, step.random, step.random', step.token);
    }
  }

  lemma StemsStep(c: Config, s: State, step: Step, acc: AccId)
    requires Genuine(c.cipher) && Sound(c, s) && Enabled(s, step, true)
    requires step.Login? && step.id == acc ==> Harmless(s, acc, step.token.refresh)
    requires Stems(c, s, acc) && JobsStem(s, acc)
    ensures Stems(c, Take(c, s, step), acc) && JobsStem(Take(c, s, step), acc)
  {
    hide Encrypted, EncryptedRefresh, DecryptedToken, Genuine, Column, LoginRow, RefreshedRow, Usable, Encryptable,
         Sound;
    var t := Take(c, s, step);
    LineageGrows(c, s, step, acc);
    if acc in t.rows {
      RowAfter(c, s, step, acc);
    }
    assert Stems(c, t, acc);
    forall j | j in t.jobs && t.jobs[j].acc == acc && !t.jobs[j].Revoking?
      ensures Stemming(t, acc, t.jobs[j].token.refresh)
    {
      if j in s.jobs && s.jobs[j].acc == acc && !s.jobs[j].Revoking? {
        assert Stemming(s, acc, s.jobs[j].token.refresh);
      }
    }
  }

  lemma {:induction false} StemsRun(c: Config, states: seq<State>, steps: seq<Step>, acc: AccId, i: nat)
    requires Genuine(c.cipher) && IsRun(c, states, steps, false) && i < |states|
    requires Sound(c, states[0]) && Stems(c, states[0], acc) && JobsStem(states[0], acc)
    ensures Stems(c, states[i], acc) && JobsStem(states[i], acc)
  {
    if i > 0 {
      hide Take, Stems, JobsStem, Sound;
      StemsRun(c, states, steps, acc, i - 1);
      WeakenOverlap(c, states, steps);
      SoundFrom(c, states, steps, i - 1);
      StemsStep(c, states[i - 1], steps[i - 1], acc);
    }
  }

  // A login, a refresh that reads the account, a second login, and the refresh saved over it.

  const SOMEBODY := LoginKey(0, "google", "me")
  const NONCE: Bytes := [0, 0, 0, 0, 0, 0, 0, 0, 0, 0, 0, 0]

  function LoginStep(refresh: Bytes): Step {
    Login(0, SOMEBODY, "", [], Token([7], refresh, Some(0)), NONCE, NONCE)
  }

  lemma LoginOutcome(c: Config, s: State, refresh: Bytes)
    requires Genuine(c.cipher) && |c.key| == KEY_SIZE && refresh != []
    ensures var t := AfterLogin(c, s, LoginStep(refresh));
            && 0 in t.rows && t.rows[0].key == SOMEBODY && t.jobs == s.jobs && t.rows.Keys == s.rows.Keys + {0}
            && DecryptedToken(c.cipher, c.key, t.rows[0]) == Ok(Token([7], refresh, Some(0)))
            && t.lineage == s.lineage[0 := {refresh}]
  {
    hide Genuine, DecryptedToken;
    var step := LoginStep(refresh);
    EncryptableIff(c.cipher, c.key, NONCE, NONCE, step.token);
    var before := if 0 in s.rows then Some(s.rows[0]) else None;
    LoginReadsBack(c.cipher, c.key, before, SOMEBODY, "", [], NONCE, NONCE, step.token);
  }

  lemma SaveOutcome(c: Config, s: State)
    requires Genuine(c.cipher) && |c.key| == KEY_SIZE && 0 in s.rows
    requires DecryptedToken(c.cipher, c.key, s.rows[0]).Ok?
    requires 0 in s.jobs && s.jobs[0] == Saving(0, Token([8], [1], Some(0)))
    ensures var t := AfterSave(c, s, Save(0, NONCE, NONCE, false));
            0 in t.rows && t.lineage == s.lineage &&
                DecryptedToken(c.cipher, c.key, t.rows[0]) == Ok(Token([8], [1], Some(0)))
  {
    hide Genuine, DecryptedToken;
    EncryptableIff(c.cipher, c.key, NONCE, NONCE, Token([8], [1], Some(0)));
    RefreshReadsBack(c.cipher, c.key, s.rows[0], NONCE, NONCE, Token([8], [1], Some(0)));
  }

  lemma StaleRefreshOverwrites(c: Config) returns (states: seq<State>, steps: seq<Step>)
    requires Genuine(c.cipher) && |c.key| == KEY_SIZE
    ensures IsRun(c, states, steps, true) && states[0] == EMPTY && !Stems(c, states[|steps|], 0)
  {
    hide Genuine, DecryptedToken, AfterLogin, AfterSave;
    var s1 := Take(c, EMPTY, LoginStep([1]));
    LoginOutcome(c, EMPTY, [1]);
    var begin := Begin(0, 0, 1, false);
    var s2 := Take(c, s1, begin);
    assert s2.jobs == map[0 := Asking(0, Token([7], [1], Some(0)))];
    var s3 := Take(c, s2, LoginStep([2]));
    LoginOutcome(c, s2, [2]);
    var answer := Answer(0, Issued(Token([8], [], Some(0))));
    var s4 := Take(c, s3, answer);
    var save := Save(0, NONCE, NONCE, false);
    SaveOutcome(c, s4);
    var s5 := Take(c, s4, save);
    assert s5.lineage[0] == {[2]} && [1] !in s5.lineage[0] by {
      assert [1][0] != [2][0];
    }
    states, steps := [EMPTY, s1, s2, s3, s4, s5], [LoginStep([1]), begin, LoginStep([2]), answer, save];
  }

  lemma WeakenOverlap(c: Config, states: seq<State>, steps: seq<Step>)
    requires IsRun(c, states, steps, false)
    ensures IsRun(c, states, steps, true)
  {
  }

  /** No login is ever overwritten by an older token, in every run: exactly when logins that are not harmless, being
      made while a call for the account holds another refresh token, are kept out. */
  lemma NewestLoginKeptExactly(c: Config, overlap: bool)
    requires Genuine(c.cipher) && |c.key| == KEY_SIZE
    ensures !overlap <==>
            forall states, steps, i, acc ::
              IsRun(c, states, steps, overlap) && states[0] == EMPTY && 0 <= i < |states| ==>
              Stems(c, states[i], acc)
  {
    if overlap {
      var states, steps := StaleRefreshOverwrites(c);
      assert !Stems(c, states[|steps|], 0);
    } else {
      forall states, steps, i, acc | IsRun(c, states, steps, overlap) && states[0] == EMPTY && 0 <= i < |states|
        ensures Stems(c, states[i], acc)
      {
        StemsRun(c, states, steps, acc, i);
      }
    }
  }

  // ---------- One login ----------

  /** A login that goes through. */
  ghost predicate Succeeds(c: Config, s: State, step: Step) {
    step.Login? && Enabled(s, step, true) && Encryptable(c.key, step.random, step.random', step.token.refresh)
  }

  lemma LoggedIn(c: Config, s: State, step: Step)
    requires Genuine(c.cipher) && Sound(c, s) && Succeeds(c, s, step)
    ensures var t := Take(c, s, step);
            && step.id in t.rows && t.rows[step.id].status == Active && t.jobs == s.jobs && t.refused == s.refused
            && t.lineage == s.lineage[step.id := {step.token.refresh}] && Sound(c, t) && Stems(c, t, step.id)
            && |c.key| == KEY_SIZE
  {
    hide DecryptedToken, Genuine, Sound, Encryptable, Column, Encrypted, EncryptedRefresh;
    EncryptableIff(c.cipher, c.key, step.random, step.random', step.token);
    SoundStep(c, s, step);
    RowAfter(c, s, step, step.id);
    KeyFits(c, step);
  }

  lemma KeyFits(c: Config, step: Step)
    requires step.Login? && Encryptable(c.key, step.random, step.random', step.token.refresh)
    ensures |c.key| == KEY_SIZE
  {
  }

  lemma EnabledAnyway(s: State, step: Step, overlap: bool)
    requires Enabled(s, step, overlap)
    ensures Enabled(s, step, true)
  {
  }

  lemma Prepend(c: Config, s: State, step: Step, states: seq<State>, steps: seq<Step>, overlap: bool)
    requires Enabled(s, step, true) && Enabled(s, step, overlap) && IsRun(c, states, steps, overlap) &&
             states[0] == Take(c, s, step)
    ensures IsRun(c, [s] + states, [step] + steps, overlap)
  {
    hide Enabled, Take;
    var more, taken := [s] + states, [step] + steps;
    forall i | 0 <= i < |steps| ensures Enabled(states[i], steps[i], true) {
      EnabledAnyway(states[i], steps[i], overlap);
    }
    forall i | 0 <= i < |taken|
      ensures Enabled(more[i], taken[i], true) && Enabled(more[i], taken[i], overlap) &&
              more[i + 1] == Take(c, more[i], taken[i])
    {
      if i > 0 {
        assert more[i] == states[i - 1] && taken[i] == steps[i - 1] && more[i + 1] == states[i];
      }
    }
  }

  /** A stale call saves its token over the row. */
  lemma SaveStale(c: Config, s: State, j: JobId) returns (t: State)
    requires Genuine(c.cipher) && Sound(c, s) && |c.key| == KEY_SIZE && j in s.jobs && s.jobs[j].Saving? &&
             s.jobs[j].acc in s.rows
    ensures Enabled(s, Save(j, NONCE, NONCE, false), true) && t == Take(c, s, Save(j, NONCE, NONCE, false)) &&
            Sound(c, t)
    ensures var Saving(acc, token) := s.jobs[j];
            && acc in t.rows && t.jobs == s.jobs - {j} && t.lineage == s.lineage && t.refused == s.refused
            && DecryptedToken(c.cipher, c.key, t.rows[acc]) == Ok(token.(expiry := Column(token.expiry)))
  {
    assert s.jobs[j].token.refresh != [];
    hide DecryptedToken, Genuine, Sound, RefreshedRow, Column;
    var Saving(acc, token) := s.jobs[j];
    EncryptableIff(c.cipher, c.key, NONCE, NONCE, token);
    t := Take(c, s, Save(j, NONCE, NONCE, false));
    SoundStep(c, s, Save(j, NONCE, NONCE, false));
    SavedReads(c, s, acc, token);
  }

  lemma SavedReads(c: Config, s: State, acc: AccId, token: Token)
    requires Genuine(c.cipher) && Sound(c, s) && |c.key| == KEY_SIZE && acc in s.rows && token.refresh != []
    requires Encrypted(c.cipher, c.key, NONCE, token.access).Ok? &&
             EncryptedRefresh(c.cipher, c.key, NONCE, token.refresh).Ok?
    ensures var access, refresh := Encrypted(c.cipher, c.key, NONCE, token.access).value,
                                   EncryptedRefresh(c.cipher, c.key, NONCE, token.refresh).value;
            DecryptedToken(c.cipher, c.key, RefreshedRow(s.rows[acc], access, refresh, token.expiry)) ==
            Ok(token.(expiry := Column(token.expiry)))
  {
    hide DecryptedToken, Genuine, RefreshedRow, Column, Encrypted, EncryptedRefresh;
    RefreshReadsBack(c.cipher, c.key, s.rows[acc], NONCE, NONCE, token);
  }

  /** The provider leaves the refresh token out, and the stale one is saved. */
  lemma StaleIsSaved(c: Config, s: State, j: JobId) returns (states: seq<State>, steps: seq<Step>)
    requires Genuine(c.cipher) && Sound(c, s) && |c.key| == KEY_SIZE
    requires j in s.jobs && !s.jobs[j].Revoking? && s.jobs[j].acc in s.rows && s.jobs[j].acc in s.lineage
    requires s.jobs[j].token.refresh !in s.lineage[s.jobs[j].acc]
    ensures IsRun(c, states, steps, false) && states[0] == s && !Stems(c, states[|steps|], s.jobs[j].acc)
    decreases s.jobs[j].Asking?
  {
    hide DecryptedToken, Genuine, Sound;
    if s.jobs[j].Saving? {
      var t := SaveStale(c, s, j);
      states, steps := [s, t], [Save(j, NONCE, NONCE, false)];
    } else {
      var answer := Answer(j, Issued(Token([], [], None)));
      var u := Take(c, s, answer);
      SoundStep(c, s, answer);
      states, steps := StaleIsSaved(c, u, j);
      Prepend(c, s, answer, states, steps, false);
      states, steps := [s] + states, [answer] + steps;
    }
  }

  /** Seen from a successful login: whatever happens afterwards, harmless logins included, keeps its lineage in place,
      exactly when the login itself was harmless. That is a matter of the calls under way at the time. */
  lemma LoginKeptExactly(c: Config, s: State, step: Step)
    requires Genuine(c.cipher) && Sound(c, s) && Succeeds(c, s, step)
    ensures Harmless(s, step.id, step.token.refresh) <==>
            forall states, steps, i ::
              IsRun(c, states, steps, false) && states[0] == Take(c, s, step) && 0 <= i < |states| ==>
              Stems(c, states[i], step.id)
  {
    var t := Take(c, s, step);
    LoggedIn(c, s, step);
    if Harmless(s, step.id, step.token.refresh) {
      assert JobsStem(t, step.id);
      forall states, steps, i | IsRun(c, states, steps, false) && states[0] == t && 0 <= i < |states|
        ensures Stems(c, states[i], step.id)
      {
        StemsRun(c, states, steps, step.id, i);
      }
    } else {
      var j :| j in s.jobs && s.jobs[j].acc == step.id && !s.jobs[j].Revoking? &&
          s.jobs[j].token.refresh != step.token.refresh;
      var states, steps := StaleIsSaved(c, t, j);
    }
  }

  // ---------- Staying active ----------

  /** An account is marked revoked only after the provider refused a token that stems from its last login. */
  predicate RevokedFairly(s: State, acc: AccId) {
    acc in s.rows && s.rows[acc].status == Revoked ==>
        acc in s.lineage && exists r | r in s.lineage[acc] :: r in s.refused
  }

  /** A token without expiry never needs refreshing. */
  predicate Everlasting(token: Token) {
    token.access != [] && token.expiry.None?
  }

  /** No call under way for the account can bring about a refusal of another refresh token than this one. */
  predicate CannotRevoke(s: State, acc: AccId, refresh: Bytes) {
    forall j | j in s.jobs :: s.jobs[j].acc == acc ==>
      s.jobs[j].token.refresh == refresh || (s.jobs[j].Saving? && Everlasting(s.jobs[j].token))
  }

  predicate NoLogin(steps: seq<Step>, acc: AccId) {
    forall i | 0 <= i < |steps| :: !(steps[i].Login? && steps[i].id == acc)
  }

  /** As long as the login's own token has not been refused: the row and the calls that can be refused stem from it. */
  ghost predicate Fair(c: Config, s: State, acc: AccId) {
    && (acc in s.rows ==>
          var token := DecryptedToken(c.cipher, c.key, s.rows[acc]);
          token.Ok? && (Stemming(s, acc, token.value.refresh) || Everlasting(token.value)))
    && (forall j :: j in s.jobs && s.jobs[j].acc == acc ==>
          Stemming(s, acc, s.jobs[j].token.refresh) || (s.jobs[j].Saving? && Everlasting(s.jobs[j].token)))
    && RevokedFairly(s, acc)
  }

  lemma FairlyStays(c: Config, s: State, step: Step, acc: AccId)
    requires Sound(c, s) && Fair(c, s, acc) && Enabled(s, step, true) && !(step.Login? && step.id == acc)
    ensures RevokedFairly(Take(c, s, step), acc)
  {
    hide Encrypted, EncryptedRefresh, DecryptedToken, LoginRow, Usable;
    var t := Take(c, s, step);
    LineageGrows(c, s, step, acc);
    if acc in t.rows && t.rows[acc].status == Revoked {
      if step.Revoke? && s.jobs[step.job].acc == acc {
        var r := s.jobs[step.job].token.refresh;
        assert Stemming(s, acc, r) && Stemming(t, acc, r) && r in t.refused;
      } else {
        var r :| r in s.lineage[acc] && r in s.refused;
        assert Stemming(s, acc, r) && Stemming(t, acc, r);
      }
    }
  }

  lemma FairStep(c: Config, s: State, step: Step, acc: AccId)
    requires Genuine(c.cipher) && Sound(c, s) && Fair(c, s, acc) && Enabled(s, step, true) &&
             !(step.Login? && step.id == acc)
    ensures Fair(c, Take(c, s, step), acc)
  {
    hide Encrypted, EncryptedRefresh, DecryptedToken, Genuine, LoginRow, Encryptable, Sound;
    var t := Take(c, s, step);
    LineageGrows(c, s, step, acc);
    if acc in t.rows {
      RowAfter(c, s, step, acc);
    }
    assert RevokedFairly(t, acc) by {
      FairlyStays(c, s, step, acc);
    }
    hide RevokedFairly;
    forall j | j in t.jobs && t.jobs[j].acc == acc
      ensures Stemming(t, acc, t.jobs[j].token.refresh) || (t.jobs[j].Saving? && Everlasting(t.jobs[j].token))
    {
      if j in s.jobs && s.jobs[j].acc == acc {
        assert Stemming(s, acc, s.jobs[j].token.refresh) || (s.jobs[j].Saving? && Everlasting(s.jobs[j].token));
      }
    }
  }

  lemma RefusedStays(c: Config, s: State, step: Step, acc: AccId, refresh: Bytes)
    requires Enabled(s, step, true) && !(step.Login? && step.id == acc) && Stemming(s, acc, refresh)
    ensures Stemming(Take(c, s, step), acc, refresh)
    ensures refresh in s.refused ==> refresh in Take(c, s, step).refused
  {
  }

  lemma {:induction false} FairRun(c: Config, states: seq<State>, steps: seq<Step>, acc: AccId, refresh: Bytes, i: nat)
    requires Genuine(c.cipher) && IsRun(c, states, steps, true) && NoLogin(steps, acc) && i < |states|
    requires Sound(c, states[0]) && Stemming(states[0], acc, refresh)
    requires refresh in states[0].refused || Fair(c, states[0], acc)
    ensures Stemming(states[i], acc, refresh)
    ensures if refresh in states[0].refused then refresh in states[i].refused else Fair(c, states[i], acc)
  {
    if i > 0 {
      hide Take, Fair, Sound, Stemming;
      FairRun(c, states, steps, acc, refresh, i - 1);
      SoundFrom(c, states, steps, i - 1);
      RefusedStays(c, states[i - 1], steps[i - 1], acc, refresh);
      if refresh !in states[0].refused {
        FairStep(c, states[i - 1], steps[i - 1], acc);
      }
    }
  }

  /** The row belongs to a login with this refresh token, which has not been refused, and the call holds another one. */
  ghost predicate Endangered(c: Config, s: State, j: JobId, acc: AccId, refresh: Bytes) {
    && j in s.jobs && s.jobs[j].acc == acc && s.jobs[j].token.refresh != refresh
    && acc in s.rows && acc in s.lineage && s.lineage[acc] == {refresh} && refresh !in s.refused
  }

  lemma StaleRevokes(c: Config, s: State, j: JobId, acc: AccId, refresh: Bytes)
      returns (states: seq<State>, steps: seq<Step>)
    requires Endangered(c, s, j, acc, refresh) && s.jobs[j].Revoking?
    ensures IsRun(c, states, steps, true) && states[0] == s && NoLogin(steps, acc) &&
            !RevokedFairly(states[|steps|], acc)
  {
    var t := Take(c, s, Revoke(j, false));
    states, steps := [s, t], [Revoke(j, false)];
  }

  lemma StaleIsRefused(c: Config, s: State, j: JobId, acc: AccId, refresh: Bytes)
      returns (states: seq<State>, steps: seq<Step>)
    requires Endangered(c, s, j, acc, refresh) && s.jobs[j].Asking?
    ensures IsRun(c, states, steps, true) && states[0] == s && NoLogin(steps, acc) &&
            !RevokedFairly(states[|steps|], acc)
  {
    var answer := Answer(j, InvalidGrant);
    states, steps := StaleRevokes(c, Take(c, s, answer), j, acc, refresh);
    Prepend(c, s, answer, states, steps, true);
    states, steps := [s] + states, [answer] + steps;
  }

  lemma StaleIsSavedAndRefused(c: Config, s: State, j: JobId, acc: AccId, refresh: Bytes)
    returns (states: seq<State>, steps: seq<Step>)
    requires Genuine(c.cipher) && Sound(c, s) && |c.key| == KEY_SIZE
    requires Endangered(c, s, j, acc, refresh) && s.jobs[j].Saving? && !Everlasting(s.jobs[j].token)
    ensures IsRun(c, states, steps, true) && states[0] == s && NoLogin(steps, acc) &&
            !RevokedFairly(states[|steps|], acc)
  {
    hide DecryptedToken, Genuine, Sound;
    var token := s.jobs[j].token;
    var t := SaveStale(c, s, j);
    var now := if token.expiry.Some? then Column(token.expiry).value - c.margin + 1 else 0;
    var begin := Begin(j, acc, now, false);
    assert !Usable(token.(expiry := Column(token.expiry)), now, c.margin);
    var u := Take(c, t, begin);
    assert u.jobs[j] == Asking(acc, token.(expiry := Column(token.expiry)));
    states, steps := StaleIsRefused(c, u, j, acc, refresh);
    Prepend(c, t, begin, states, steps, true);
    states, steps := [t] + states, [begin] + steps;
    Prepend(c, s, Save(j, NONCE, NONCE, false), states, steps, true);
    states, steps := [s] + states, [Save(j, NONCE, NONCE, false)] + steps;
  }

  /** Seen from a successful login: until the next one, the account is marked revoked only after the provider refused a
      token that stems from this login, exactly when no call under way at the time can bring about a refusal of another
      token (or the login's own token had been refused before). */
  lemma LoginStaysActiveExactly(c: Config, s: State, step: Step)
    requires Genuine(c.cipher) && Sound(c, s) && Succeeds(c, s, step)
    ensures step.token.refresh in s.refused || CannotRevoke(s, step.id, step.token.refresh) <==>
            forall states, steps, i ::
              IsRun(c, states, steps, true) && states[0] == Take(c, s, step) && NoLogin(steps, step.id)
              && 0 <= i < |states| ==>
              RevokedFairly(states[i], step.id)
  {
    var t, acc, refresh := Take(c, s, step), step.id, step.token.refresh;
    LoggedIn(c, s, step);
    if refresh in s.refused || CannotRevoke(s, acc, refresh) {
      assert refresh !in s.refused ==> Fair(c, t, acc);
      forall states, steps, i | IsRun(c, states, steps, true) && states[0] == t && NoLogin(steps, acc) &&
          0 <= i < |states|
        ensures RevokedFairly(states[i], acc)
      {
        FairRun(c, states, steps, acc, refresh, i);
      }
    } else {
      var j :| j in s.jobs && s.jobs[j].acc == acc && s.jobs[j].token.refresh != refresh
               && !(s.jobs[j].Saving? && Everlasting(s.jobs[j].token));
      var states, steps;
      match s.jobs[j] {
        case Revoking(_, _) => states, steps := StaleRevokes(c, t, j, acc, refresh);
        case Asking(_, _) => states, steps := StaleIsRefused(c, t, j, acc, refresh);
        case Saving(_, _) => states, steps := StaleIsSavedAndRefused(c, t, j, acc, refresh);
      }
    }
  }

  // ---------- A call is a run of steps ----------

  /** The steps of one call, in order. */
  function StepsOf(c: Config, row: Row, job: JobId, acc: AccId, call: TokenCall): seq<Step> {
    var stored := DecryptedToken(c.cipher, c.key, row);
    if call.readFails then []
    else
      [Begin(job, acc, call.now, false)] +
      if stored.Err? || Usable(stored.value, call.now, c.margin) then []
      else
        [Answer(job, call.reply)] +
        match call.reply
        case InvalidGrant => [Revoke(job, call.statusFails)]
        case OtherError => []
        case Issued(_) => [Save(job, call.random, call.random', call.saveFails)]
  }

  function TakeAll(c: Config, s: State, steps: seq<Step>): Option<State>
    decreases steps
  {
    if steps == [] then Some(s)
    else if Enabled(s, steps[0], true) then TakeAll(c, Take(c, s, steps[0]), steps[1..])
    else None
  }

  /** Taken without anything in between, the steps of a call leave the table as the store's own method does, and no call
      under way. */
  lemma CallIsSteps(c: Config, s: State, job: JobId, acc: AccId, call: TokenCall)
    requires acc in s.rows && job !in s.jobs
    ensures var t := TakeAll(c, s, StepsOf(c, s.rows[acc], job, acc, call));
            t.Some? && t.value.jobs == s.jobs && t.value.rows == s.rows[acc := ValidToken(c, s.rows[acc], call).0]
  {
    hide DecryptedToken, Usable, Encrypted, EncryptedRefresh, RefreshedRow;
    var row, steps := s.rows[acc], StepsOf(c, s.rows[acc], job, acc, call);
    var stored := DecryptedToken(c.cipher, c.key, row);
    assert s.rows == s.rows[acc := row];
    if !call.readFails {
      var s1 := Take(c, s, steps[0]);
      if stored.Ok? && !Usable(stored.value, call.now, c.margin) {
        var s2 := Take(c, s1, steps[1]);
        assert steps[1..][0] == steps[1] && steps[1..][1..] == steps[2..];
        assert s1.jobs - {job} == s.jobs;
        if !call.reply.OtherError? {
          assert steps[2..] == [steps[2]] && [steps[2]][1..] == [];
          assert s2.jobs - {job} == s.jobs;
          assert TakeAll(c, s2, steps[2..]) == Some(Take(c, s2, steps[2]));
        } else {
          assert steps[2..] == [];
        }
        assert TakeAll(c, s1, steps[1..]) == TakeAll(c, s2, steps[2..]);
      } else {
        assert steps[1..] == [];
      }
    } else {
      assert steps == [];
    }
  }
}
