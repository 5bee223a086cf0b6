/** Services/TokenHelper.cs: issuing an access/refresh pair at MFA login,
    and rotating the user's refresh session: the old row is deleted, then
    the new one inserted. */
module TokenHelper {
  import opened Wrappers
  import opened Models
  import opened Guids
  import opened RefreshTokens
  import TokenService
  import Seqs

  const RefreshLifetime: int := 7 * TokenService.Day

  /** The table after the delete step: the first row of the user, if any,
      is gone. */
  function AfterDelete(rows: seq<RefreshToken>, userId: Guid): seq<RefreshToken>
  {
    match GetRefreshTokenByUserId(rows, userId)
    case None => rows
    case Some(existing) => Without(rows, existing.id)
  }

  /** The row the insert stores for the new session. */
  function NewSession(nextId: nat, userId: Guid, token: string, expiresOn: Time): RefreshToken
  {
    Stored(RefreshToken(None, token, userId, expiresOn), nextId)
  }

  /** The table after a completed rotation. */
  function Rotate(rows: seq<RefreshToken>, nextId: nat, userId: Guid, token: string, expiresOn: Time): seq<RefreshToken>
  {
    AfterDelete(rows, userId) + [NewSession(nextId, userId, token, expiresOn)]
  }

  /** GenerateTokens's outcome: nothing for an empty access token; for a
      failed INSERT nothing either, but the old session is already gone;
      otherwise both tokens and the rotated table. */
  ghost predicate Generated(access: Option<string>, refresh: Option<string>, rows: seq<RefreshToken>, nextId: nat,
                            rows': seq<RefreshToken>, nextId': nat, cfg: TokenService.Config, clock: TokenService.Clock,
                            user: User, random: TokenService.RandomBytes, insertFails: bool)
  {
    var minted := TokenService.GenerateAccessToken(cfg, user, clock);
    var token := TokenService.GenerateRefreshToken(random);
    if minted == "" then
      access.None? && refresh.None? && rows' == rows && nextId' == nextId
    else if insertFails then
      access.None? && refresh.None? && rows' == AfterDelete(rows, user.id) && nextId' == nextId
    else
      access == Some(minted) && refresh == Some(token)
      && rows' == Rotate(rows, nextId, user.id, token, clock.local + RefreshLifetime)
      && nextId' == nextId + 1
  }

  /** GenerateTokens. The repository's INSERT throwing is `insertFails`; the
      catch turns it into (null, null), after the delete has happened. The
      `isAdded == null` test compares a bool with null and never holds. */
  method GenerateTokens(cfg: TokenService.Config, clock: TokenService.Clock, repo: RefreshTokenRepo,
                        user: User, random: TokenService.RandomBytes, insertFails: bool)
    returns (access: Option<string>, refresh: Option<string>)
    requires repo.Valid()
    modifies repo
    ensures repo.Valid()
    ensures Generated(access, refresh, old(repo.rows), old(repo.nextId), repo.rows, repo.nextId, cfg, clock, user, random, insertFails)
  {
    ghost var before, counter := repo.rows, repo.nextId;
    var token := TokenService.GenerateAccessToken(cfg, user, clock);
    var refreshToken := TokenService.GenerateRefreshToken(random);
    if token == "" || refreshToken == "" {
      assert |refreshToken| == 88 && token == "";
      return None, None;
    }
    var existingRefreshToken := GetRefreshTokenByUserId(repo.rows, user.id);
    if existingRefreshToken.Some? {
      var _ := repo.DeleteRefreshToken(existingRefreshToken.value.id);
    }
    assert repo.rows == AfterDelete(before, user.id) && repo.nextId == counter;
    if insertFails {
      return None, None;
    }
    var refreshTokenModel := RefreshToken(None, refreshToken, user.id, clock.local + RefreshLifetime);
    var isAdded := repo.AddRefreshToken(refreshTokenModel);
    assert repo.rows == Rotate(before, counter, user.id, refreshToken, clock.local + RefreshLifetime);
    access, refresh := Some(token), Some(refreshToken);
  }

  function NotOf(userId: Guid): RefreshToken -> bool
  {
    (x: RefreshToken) => x.userId != userId
  }

  /** When the user has at most one row, the delete step removes every row
      of the user and keeps all other rows, in order. */
  lemma {:induction false} AfterDeleteIsFilter(rows: seq<RefreshToken>, nextId: nat, userId: Guid)
    requires WellNumbered(rows, nextId) && AtMostOneOf(rows, userId)
    ensures AfterDelete(rows, userId) == Seqs.Filter(rows, NotOf(userId))
  {
    var p := (x: RefreshToken) => x.userId == userId;
    match Seqs.FirstIndex(rows, p)
    case None =>
      Seqs.FilterAll(rows, NotOf(userId));
    case Some(j) =>
      assert GetRefreshTokenByUserId(rows, userId) == Some(rows[j]);
      WithoutRemovesOne(rows, nextId, j);
      FilterOmitsOnlyRow(rows, userId, j);
  }

  /** When row j is the user's only row, filtering the user out removes
      exactly that row. */
  lemma {:induction false} FilterOmitsOnlyRow(rows: seq<RefreshToken>, userId: Guid, j: nat)
    requires AtMostOneOf(rows, userId)
    requires j < |rows| && rows[j].userId == userId
    requires forall k :: 0 <= k < j ==> rows[k].userId != userId
    ensures Seqs.Filter(rows, NotOf(userId)) == rows[..j] + rows[j + 1..]
  {
    forall k | 0 <= k < |rows| && k != j
      ensures NotOf(userId)(rows[k])
    {
      if k > j {
        assert rows[j].userId != rows[k].userId;
      }
    }
    Seqs.FilterOmitsOne(rows, NotOf(userId), j);
  }

  /** Without the invariant, the delete step removes only the first row of
      the user: a second row of the same user survives the rotation. */
  lemma {:induction false} AfterDeleteRemovesFirstOnly(rows: seq<RefreshToken>, nextId: nat, userId: Guid, j: nat)
    requires WellNumbered(rows, nextId)
    requires Seqs.FirstIndex(rows, (x: RefreshToken) => x.userId == userId) == Some(j)
    ensures AfterDelete(rows, userId) == rows[..j] + rows[j + 1..]
  {
    assert GetRefreshTokenByUserId(rows, userId) == Some(rows[j]);
    WithoutRemovesOne(rows, nextId, j);
  }

  /** Rotation keeps the store's numbering and the one-session invariant. */
  lemma {:induction false} RotateKeepsInvariant(rows: seq<RefreshToken>, nextId: nat, userId: Guid, token: string, expiresOn: Time)
    requires WellNumbered(rows, nextId) && AtMostOnePerUser(rows)
    ensures WellNumbered(Rotate(rows, nextId, userId, token, expiresOn), nextId + 1)
    ensures AtMostOnePerUser(Rotate(rows, nextId, userId, token, expiresOn))
  {
    AfterDeleteIsFilter(rows, nextId, userId);
    FilterKeepsInvariant(rows, nextId, userId);
    AppendKeepsInvariant(Seqs.Filter(rows, NotOf(userId)), nextId, NewSession(nextId, userId, token, expiresOn));
  }

  lemma {:induction false} FilterKeepsInvariant(rows: seq<RefreshToken>, nextId: nat, userId: Guid)
    requires WellNumbered(rows, nextId) && AtMostOnePerUser(rows)
    ensures WellNumbered(Seqs.Filter(rows, NotOf(userId)), nextId)
    ensures AtMostOnePerUser(Seqs.Filter(rows, NotOf(userId)))
    ensures forall x :: x in Seqs.Filter(rows, NotOf(userId)) ==> x.userId != userId
  {
    var kept := Seqs.Filter(rows, NotOf(userId));
    Seqs.FilterMembers(rows, NotOf(userId));
    Seqs.FilterPairwise(rows, NotOf(userId), (a: RefreshToken, b: RefreshToken) => a.userId != b.userId);
    Seqs.FilterPairwise(rows, NotOf(userId), (a: RefreshToken, b: RefreshToken) => a.id != b.id);
    assert forall i :: 0 <= i < |kept| ==> kept[i] in kept;
  }

  lemma {:induction false} AppendKeepsInvariant(kept: seq<RefreshToken>, nextId: nat, row: RefreshToken)
    requires WellNumbered(kept, nextId) && AtMostOnePerUser(kept)
    requires forall x :: x in kept ==> x.userId != row.userId
    requires row.id == Some(nextId)
    ensures WellNumbered(kept + [row], nextId + 1) && AtMostOnePerUser(kept + [row])
  {
    var r := kept + [row];
    assert forall i :: 0 <= i < |kept| ==> r[i] == kept[i] && kept[i] in kept;
    assert r[|kept|] == row;
  }

  /** After a rotation the user's session is the new row. */
  lemma {:induction false} RotateSession(rows: seq<RefreshToken>, nextId: nat, userId: Guid, token: string, expiresOn: Time)
    requires WellNumbered(rows, nextId) && AtMostOneOf(rows, userId)
    ensures GetRefreshTokenByUserId(Rotate(rows, nextId, userId, token, expiresOn), userId)
      == Some(NewSession(nextId, userId, token, expiresOn))
    ensures forall x :: x in Rotate(rows, nextId, userId, token, expiresOn) && x.userId == userId ==>
      x == NewSession(nextId, userId, token, expiresOn)
  {
    AfterDeleteIsFilter(rows, nextId, userId);
    var kept := Seqs.Filter(rows, NotOf(userId));
    Seqs.FilterMembers(rows, NotOf(userId));
    var session := NewSession(nextId, userId, token, expiresOn);
    Seqs.FirstWhereAppend(kept, [session], (x: RefreshToken) => x.userId == userId);
    assert [session][0] == session;
  }

  /** A newly issued refresh token is found by its token, provided no row
      of the table before the rotation carries the same token. */
  lemma {:induction false} RotateFindsNewToken(rows: seq<RefreshToken>, nextId: nat, userId: Guid, token: string, expiresOn: Time)
    requires forall x :: x in rows ==> x.token != token
    ensures GetRefreshTokenByRefreshToken(Rotate(rows, nextId, userId, token, expiresOn), token)
      == Some(NewSession(nextId, userId, token, expiresOn))
  {
    var kept := AfterDelete(rows, userId);
    var session := NewSession(nextId, userId, token, expiresOn);
    assert forall x :: x in kept ==> x in rows;
    Seqs.FirstWhereAppend(kept, [session], (x: RefreshToken) => x.token == token);
    assert [session][0] == session;
  }

  /** The delete step does not touch any other user's rows, however many
      rows the user or the other user holds. */
  lemma {:induction false} AfterDeleteKeepsOthers(rows: seq<RefreshToken>, nextId: nat, userId: Guid, other: Guid)
    requires WellNumbered(rows, nextId) && other != userId
    ensures GetRefreshTokenByUserId(AfterDelete(rows, userId), other) == GetRefreshTokenByUserId(rows, other)
    ensures forall x: RefreshToken :: x.userId == other ==> (x in AfterDelete(rows, userId) <==> x in rows)
  {
    match Seqs.FirstIndex(rows, (x: RefreshToken) => x.userId == userId)
    case None =>
      assert GetRefreshTokenByUserId(rows, userId).None?;
    case Some(j) =>
      AfterDeleteRemovesFirstOnly(rows, nextId, userId, j);
      DroppedRowKeepsOthers(rows, j, other);
  }

  /** Dropping a row of another user keeps `other`'s rows and first row. */
  lemma {:induction false} DroppedRowKeepsOthers(rows: seq<RefreshToken>, j: nat, other: Guid)
    requires j < |rows| && rows[j].userId != other
    ensures GetRefreshTokenByUserId(rows[..j] + rows[j + 1..], other) == GetRefreshTokenByUserId(rows, other)
    ensures forall x: RefreshToken :: x.userId == other ==> (x in rows[..j] + rows[j + 1..] <==> x in rows)
  {
    assert rows == rows[..j] + ([rows[j]] + rows[j + 1..]);
    Seqs.FirstWhereSkip(rows[..j], rows[j], rows[j + 1..], (x: RefreshToken) => x.userId == other);
  }

  /** A rotation does not touch any other user's session, however many rows
      the user or the other user holds. */
  lemma {:induction false} RotateOthers(rows: seq<RefreshToken>, nextId: nat, userId: Guid, token: string, expiresOn: Time, other: Guid)
    requires WellNumbered(rows, nextId) && other != userId
    ensures GetRefreshTokenByUserId(Rotate(rows, nextId, userId, token, expiresOn), other)
      == GetRefreshTokenByUserId(rows, other)
    ensures forall x: RefreshToken :: x.userId == other ==> (x in Rotate(rows, nextId, userId, token, expiresOn) <==> x in rows)
  {
    var session := NewSession(nextId, userId, token, expiresOn);
    var isOther := (x: RefreshToken) => x.userId == other;
    AfterDeleteKeepsOthers(rows, nextId, userId, other);
    Seqs.FirstWhereAppend(AfterDelete(rows, userId), [session], isOther);
    assert Seqs.FirstWhere([session], isOther).None?;
  }

  /** A refresh token of the user issued before the rotation no longer
      finds a row of that user, unless it equals the new token. */
  lemma {:induction false} RotateRevokes(rows: seq<RefreshToken>, nextId: nat, userId: Guid, token: string, expiresOn: Time, oldToken: string)
    requires WellNumbered(rows, nextId) && AtMostOneOf(rows, userId) && oldToken != token
    ensures forall x :: x in Rotate(rows, nextId, userId, token, expiresOn) && x.token == oldToken ==> x.userId != userId
  {
    RotateSession(rows, nextId, userId, token, expiresOn);
  }
}
