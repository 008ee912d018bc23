/**
 Browser sessions.  The table keeps the expiry as text and compares texts; what that decides is whether
 the session has expired.  Secrets stand for their hashes.
 */
module BrowserSessions {
  import opened Wrappers
  import opened Timestamps

  datatype Row = Row(token: string, createdAt: string, expiresAt: string, lastUsedAt: string)
  datatype Error = BadRequest | ExpiryInPast | Conflict | NotFound

  const MIN_SECRET := 32

  /** The textual test of both transactions. */
  predicate Alive(row: Row, now: Time) {
    Less(FormatSortable(now), row.expiresAt)
  }

  /** DELETE WHERE expires_at <= now. */
  function Cleaned(rows: map<string, Row>, now: Time): map<string, Row> {
    map s | s in rows && Alive(rows[s], now) :: rows[s]
  }

  function Created(rows: map<string, Row>, token: string, secret: string, expiry: Time, now: Time): Result<map<string, Row>, Error>
    requires ValidTime(expiry) && ValidTime(now)
  {
    if token == "" || |secret| < MIN_SECRET then Err(BadRequest)
    else if Instant(expiry) <= Instant(now) then Err(ExpiryInPast)
    else if secret in Cleaned(rows, now) then Err(Conflict)
    else Ok(Cleaned(rows, now)[secret := Row(token, FormatSortable(now), FormatSortable(expiry), FormatSortable(now))])
  }

  predicate Authenticates(rows: map<string, Row>, tokens: set<string>, secret: string, now: Time) {
    secret in rows && Alive(rows[secret], now) && rows[secret].token in tokens
  }

  class SessionTable {
    var rows: map<string, Row>
    /** The tokens that exist and are not revoked. */
    var tokens: set<string>

    constructor (tokens: set<string>)
      ensures rows == map[] && this.tokens == tokens
    {
      this.tokens := tokens;
      rows := map[];
    }

    /** Clean up, then insert; an error rolls both back. */
    method Create(token: string, secret: string, expiry: Time, now: Time) returns (r: Result<(), Error>)
      requires ValidTime(expiry) && ValidTime(now)
      modifies `rows
      ensures match Created(old(rows), token, secret, expiry, now)
              case Ok(after) => r == Ok(()) && rows == after
              case Err(e) => r == Err(e) && rows == old(rows)
    {
      if token == "" || |secret| < MIN_SECRET {
        return Err(BadRequest);
      }
      if Instant(expiry) <= Instant(now) {
        return Err(ExpiryInPast);
      }
      var before := rows;
      var todo := rows.Keys;
      while todo != {}
        invariant todo <= old(rows).Keys && rows.Keys <= old(rows).Keys && before == old(rows)
        invariant forall s :: s in todo ==> s in rows
        invariant forall s :: s in rows ==> rows[s] == old(rows)[s]
        invariant forall s :: s in old(rows) && s !in todo ==> (s in rows <==> Alive(old(rows)[s], now))
        decreases |todo|
      {
        var s :| s in todo;
        if !Alive(rows[s], now) {
          rows := rows - {s};
        }
        todo := todo - {s};
      }
      assert rows == Cleaned(old(rows), now);
      if secret in rows {
        rows := before;
        return Err(Conflict);
      }
      rows := rows[secret := Row(token, FormatSortable(now), FormatSortable(expiry), FormatSortable(now))];
      return Ok(());
    }

    method Authenticate(secret: string, now: Time) returns (r: Result<string, Error>)
      requires ValidTime(now)
      modifies `rows
      ensures r.Ok? <==> Authenticates(old(rows), tokens, secret, now)
      ensures r.Err? ==> r == Err(NotFound) && rows == old(rows)
      ensures r.Ok? ==>
                && r.value == old(rows)[secret].token
                && rows == old(rows)[secret := old(rows)[secret].(lastUsedAt := FormatSortable(now))]
    {
      if secret !in rows || !Alive(rows[secret], now) || rows[secret].token !in tokens {
        return Err(NotFound);
      }
      rows := rows[secret := rows[secret].(lastUsedAt := FormatSortable(now))];
      return Ok(rows[secret].token);
    }

    method Delete(secret: string)
      modifies `rows
      ensures rows == old(rows) - {secret}
    {
      rows := rows - {secret};
    }
  }

  /******* A session over time *******/

  datatype Op =
    | CreateOp(token: string, secret: string, expiry: Time, now: Time)
    | UseOp(secret: string, tokens: set<string>, now: Time)
    | DeleteOp(secret: string)

  predicate ValidOp(op: Op) {
    match op
    case CreateOp(_, _, expiry, now) => ValidTime(expiry) && ValidTime(now)
    case UseOp(_, _, now) => ValidTime(now)
    case DeleteOp(_) => true
  }

  function After(rows: map<string, Row>, op: Op): map<string, Row>
    requires ValidOp(op)
  {
    match op
    case CreateOp(token, secret, expiry, now) =>
      var r := Created(rows, token, secret, expiry, now);
      if r.Ok? then r.value else rows
    case UseOp(secret, tokens, now) =>
      if Authenticates(rows, tokens, secret, now)
      then rows[secret := rows[secret].(lastUsedAt := FormatSortable(now))] else rows
    case DeleteOp(secret) => rows - {secret}
  }

  predicate AllValid(ops: seq<Op>) {
    forall i :: 0 <= i < |ops| ==> ValidOp(ops[i])
  }

  function AfterAll(rows: map<string, Row>, ops: seq<Op>): map<string, Row>
    requires AllValid(ops)
    decreases |ops|
  {
    if |ops| == 0 then rows else AfterAll(After(rows, ops[0]), ops[1..])
  }

  /** The operation happens by then, and does not end or replace the session. */
  predicate Leaves(op: Op, secret: string, latest: Time)
    requires ValidOp(op) && ValidTime(latest)
  {
    && (op.CreateOp? ==> Instant(op.now) <= Instant(latest))
    && (op.DeleteOp? ==> op.secret != secret)
  }

  /** The textual test decides whether the expiry has come. */
  lemma AliveIffNotExpired(row: Row, expiry: Time, now: Time)
    requires ValidTime(expiry) && ValidTime(now) && row.expiresAt == FormatSortable(expiry)
    ensures Alive(row, now) <==> Instant(now) < Instant(expiry)
  {
    SortableIsChronological(now, expiry);
  }

  lemma OpLeavesSession(rows: map<string, Row>, op: Op, secret: string, expiry: Time, latest: Time)
    requires ValidTime(expiry) && ValidTime(latest) && Instant(latest) < Instant(expiry)
    requires secret in rows && rows[secret].expiresAt == FormatSortable(expiry) && ValidOp(op) && Leaves(op, secret, latest)
    ensures secret in After(rows, op)
    ensures After(rows, op)[secret].expiresAt == rows[secret].expiresAt && After(rows, op)[secret].token == rows[secret].token
  {
    if op.CreateOp? {
      AliveIffNotExpired(rows[secret], expiry, op.now);
    }
  }

  lemma {:induction false} SessionSurvives(rows: map<string, Row>, ops: seq<Op>, secret: string, expiry: Time, latest: Time)
    requires ValidTime(expiry) && ValidTime(latest) && Instant(latest) < Instant(expiry)
    requires secret in rows && rows[secret].expiresAt == FormatSortable(expiry)
    requires AllValid(ops) && forall i :: 0 <= i < |ops| ==> Leaves(ops[i], secret, latest)
    ensures secret in AfterAll(rows, ops)
    ensures AfterAll(rows, ops)[secret].expiresAt == rows[secret].expiresAt && AfterAll(rows, ops)[secret].token == rows[secret].token
    decreases |ops|
  {
    if |ops| > 0 {
      OpLeavesSession(rows, ops[0], secret, expiry, latest);
      SessionSurvives(After(rows, ops[0]), ops[1..], secret, expiry, latest);
    }
  }

  /** A session is refused exactly if there is none under the secret, its expiry has come, or its token is revoked. */
  lemma RefusedIff(rows: map<string, Row>, tokens: set<string>, secret: string, expiry: Time, now: Time)
    requires ValidTime(expiry) && ValidTime(now)
    requires secret in rows ==> rows[secret].expiresAt == FormatSortable(expiry)
    ensures !Authenticates(rows, tokens, secret, now) <==>
            secret !in rows || Instant(expiry) <= Instant(now) || rows[secret].token !in tokens
  {
    if secret in rows {
      AliveIffNotExpired(rows[secret], expiry, now);
    }
  }

  /**
   A session is created exactly with a token, a secret of 32 characters or more that no live session uses, and an
   expiry to come; it then carries the token, the expiry and the time, and everything that had expired is gone.
   */
  lemma CreatedMeans(rows: map<string, Row>, token: string, secret: string, expiry: Time, now: Time)
    requires ValidTime(expiry) && ValidTime(now)
    ensures var r := Created(rows, token, secret, expiry, now);
            && (r.Ok? <==> token != "" && |secret| >= 32 && Instant(now) < Instant(expiry) &&
                           !(secret in rows && Less(FormatSortable(now), rows[secret].expiresAt)))
            && (r.Ok? ==>
                  && secret in r.value
                  && r.value[secret] == Row(token, FormatSortable(now), FormatSortable(expiry), FormatSortable(now))
                  && forall other :: other != secret ==>
                       && (other in r.value <==> other in rows && Less(FormatSortable(now), rows[other].expiresAt))
                       && (other in r.value ==> r.value[other] == rows[other]))
  {
  }

  /** No operation creates another session under the secret. */
  predicate NotRecreated(op: Op, secret: string) {
    op.CreateOp? ==> op.secret != secret
  }

  lemma {:induction false} ExpiryIsFixed(rows: map<string, Row>, ops: seq<Op>, secret: string)
    requires AllValid(ops) && forall i :: 0 <= i < |ops| ==> NotRecreated(ops[i], secret)
    ensures secret in AfterAll(rows, ops) ==>
              secret in rows && AfterAll(rows, ops)[secret].expiresAt == rows[secret].expiresAt
    decreases |ops|
  {
    if |ops| > 0 {
      ExpiryIsFixed(After(rows, ops[0]), ops[1..], secret);
    }
  }

  /**
   A session authenticates exactly until its expiry and while its own token is not revoked, whatever other sessions
   are created, used, cleaned up or deleted meanwhile.
   */
  lemma SessionLivesUntilExpiry(rows: map<string, Row>, token: string, secret: string, expiry: Time, created: Time,
                                ops: seq<Op>, tokens: set<string>, now: Time)
    requires ValidTime(expiry) && ValidTime(created) && ValidTime(now)
    requires Created(rows, token, secret, expiry, created).Ok?
    requires AllValid(ops) && forall i :: 0 <= i < |ops| ==> Leaves(ops[i], secret, now) && NotRecreated(ops[i], secret)
    ensures Authenticates(AfterAll(Created(rows, token, secret, expiry, created).value, ops), tokens, secret, now) <==>
            Instant(now) < Instant(expiry) && token in tokens
  {
    var start := Created(rows, token, secret, expiry, created).value;
    var end := AfterAll(start, ops);
    ExpiryIsFixed(start, ops, secret);
    if Instant(now) < Instant(expiry) {
      SessionSurvives(start, ops, secret, expiry, now);
    }
    if secret in end {
      AliveIffNotExpired(end[secret], expiry, now);
    }
  }
}
