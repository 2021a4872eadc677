/**
 The rows that auth.service.ts reads and writes, and the repository calls it makes on them.
 A row's id is its index in its table. Token hashes are numbers: hashing is taken to be injective,
 so a hash stands for the raw token it was computed from.
 */
module AuthTables {
  import opened Sequences
  import opened Wrappers

  datatype TokenRow = TokenRow(user: nat, hash: nat, expiresAt: int, isActive: bool)

  datatype SessionStatus = Active | Revoked

  datatype SessionRow = SessionRow(user: nat, token: nat, status: SessionStatus, expiresAt: int)

  /** A password-reset row of the verification-token table. */
  datatype ResetRow = ResetRow(user: nat, hash: nat, expiresAt: int, consumed: bool)

  datatype Tables = Tables(tokens: seq<TokenRow>, sessions: seq<SessionRow>, resets: seq<ResetRow>)

  /** The `where` part of a bulk update: by token id, by owner, or by token hash. */
  datatype Selector = ById(id: nat) | ByUser(user: nat) | ByHash(hash: nat)

  predicate SelectsToken(w: Selector, id: nat, row: TokenRow) {
    match w
    case ById(i) => id == i
    case ByUser(u) => row.user == u
    case ByHash(h) => row.hash == h
  }

  predicate SelectsSession(w: Selector, row: SessionRow, tokens: seq<TokenRow>) {
    match w
    case ById(i) => row.token == i
    case ByUser(u) => row.user == u
    case ByHash(h) => row.token < |tokens| && tokens[row.token].hash == h
  }

  /** `refreshTokens.update({...w, isActive: true}, {isActive: false})`. */
  function DeactivateTokens(tokens: seq<TokenRow>, w: Selector): (r: seq<TokenRow>)
    ensures |r| == |tokens|
  {
    seq(|tokens|, i requires 0 <= i < |tokens| =>
      if SelectsToken(w, i, tokens[i]) then tokens[i].(isActive := false) else tokens[i])
  }

  /** `sessions.update({...w, status: "active"}, {status: "revoked", ...})`. */
  function RevokeSessions(db: Tables, w: Selector): (r: seq<SessionRow>)
    ensures |r| == |db.sessions|
  {
    seq(|db.sessions|, i requires 0 <= i < |db.sessions| =>
      if SelectsSession(w, db.sessions[i], db.tokens) then db.sessions[i].(status := Revoked) else db.sessions[i])
  }

  /** `refreshTokens.findOne({ where: { tokenHash } })`: the first row with that hash. */
  function FindToken(tokens: seq<TokenRow>, hash: nat): (r: Option<nat>)
    ensures r.None? ==> forall i :: 0 <= i < |tokens| ==> tokens[i].hash != hash
    ensures r.Some? ==> r.value < |tokens| && tokens[r.value].hash == hash
    ensures r.Some? ==> forall i :: 0 <= i < r.value ==> tokens[i].hash != hash
  {
    Find(tokens, (row: TokenRow) => row.hash == hash)
  }

  /** `verificationTokens.findOne({ where: { tokenHash, tokenType: "password_reset" } })`. */
  function FindReset(resets: seq<ResetRow>, hash: nat): (r: Option<nat>)
    ensures r.None? ==> forall i :: 0 <= i < |resets| ==> resets[i].hash != hash
    ensures r.Some? ==> r.value < |resets| && resets[r.value].hash == hash
    ensures r.Some? ==> forall i :: 0 <= i < r.value ==> resets[i].hash != hash
  {
    Find(resets, (row: ResetRow) => row.hash == hash)
  }
}
