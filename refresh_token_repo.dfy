/** Repositories/RefreshTokenRepo.cs: the RefreshTokens table. The queries
    have no ORDER BY, so the row QueryFirstOrDefault returns is up to the
    database; the model fixes that order as insertion order. The store
    numbers rows from a counter. */
module RefreshTokens {
  import opened Wrappers
  import opened Models
  import opened Guids
  import Seqs

  /** Every row has a store-assigned id, below the counter, and no two rows
      share one. */
  ghost predicate WellNumbered(rows: seq<RefreshToken>, nextId: nat)
  {
    (forall i :: 0 <= i < |rows| ==> rows[i].id.Some? && rows[i].id.value < nextId)
    && (forall i, j :: 0 <= i < j < |rows| ==> rows[i].id != rows[j].id)
  }

  /** `DELETE FROM RefreshTokens WHERE Id = @id`: a null @id matches no row. */
  predicate Matches(row: RefreshToken, id: Option<nat>)
  {
    id.Some? && row.id == id
  }

  function Without(rows: seq<RefreshToken>, id: Option<nat>): (r: seq<RefreshToken>)
    ensures forall x :: x in r <==> x in rows && !Matches(x, id)
  {
    var keep := (x: RefreshToken) => !Matches(x, id);
    Seqs.FilterMembers(rows, keep);
    Seqs.Filter(rows, keep)
  }

  /** The row INSERT stores: the payload's Token, UserId and ExpiresOn, and
      the id the store assigns. */
  function Stored(payload: RefreshToken, id: nat): (r: RefreshToken)
    ensures r.token == payload.token && r.userId == payload.userId && r.expiresOn == payload.expiresOn
    ensures r.id == Some(id)
  {
    RefreshToken(Some(id), payload.token, payload.userId, payload.expiresOn)
  }

  /** GetRefreshTokenByUserId: `SELECT * FROM RefreshTokens WHERE UserId =
      @id`, the first such row. */
  function GetRefreshTokenByUserId(rows: seq<RefreshToken>, userId: Guid): (r: Option<RefreshToken>)
    ensures r.Some? ==> r.value in rows && r.value.userId == userId
    ensures r.None? <==> forall x :: x in rows ==> x.userId != userId
  {
    Seqs.FirstWhere(rows, (x: RefreshToken) => x.userId == userId)
  }

  /** GetRefreshTokenByRefreshToken: the first row with that Token, whether
      or not it has expired. */
  function GetRefreshTokenByRefreshToken(rows: seq<RefreshToken>, token: string): (r: Option<RefreshToken>)
    ensures r.Some? ==> r.value in rows && r.value.token == token
    ensures r.None? <==> forall x :: x in rows ==> x.token != token
  {
    Seqs.FirstWhere(rows, (x: RefreshToken) => x.token == token)
  }

  /** The refresh-session invariant: each user has at most one row. */
  ghost predicate AtMostOnePerUser(rows: seq<RefreshToken>)
  {
    forall i, j :: 0 <= i < j < |rows| ==> rows[i].userId != rows[j].userId
  }

  /** The user has at most one row: the one-session invariant for a single
      user, which holds of a table some other user's concurrent logins have
      left with two rows. */
  ghost predicate AtMostOneOf(rows: seq<RefreshToken>, userId: Guid)
  {
    forall i, j :: 0 <= i < j < |rows| && rows[i].userId == userId ==> rows[j].userId != userId
  }

  /** Under distinct ids, deleting a present id removes exactly that one row
      and keeps every other row in order. */
  lemma {:induction false} WithoutRemovesOne(rows: seq<RefreshToken>, nextId: nat, j: nat)
    requires WellNumbered(rows, nextId) && j < |rows|
    ensures Without(rows, rows[j].id) == rows[..j] + rows[j + 1..]
  {
    var id := rows[j].id;
    var pre, post := rows[..j], rows[j + 1..];
    assert rows == pre + ([rows[j]] + post);
    Seqs.FilterAppend(pre, [rows[j]] + post, (x: RefreshToken) => !Matches(x, id));
    Seqs.FilterAppend([rows[j]], post, (x: RefreshToken) => !Matches(x, id));
    assert forall k :: 0 <= k < |pre| ==> pre[k] == rows[k];
    WithoutAbsent(pre, id);
    forall k | 0 <= k < |post|
      ensures !Matches(post[k], id)
    {
      assert post[k] == rows[j + 1 + k];
    }
    WithoutAbsent(post, id);
    assert Without([rows[j]], id) == [];
  }

  /** Deleting an id that no row has, or the null id, changes nothing. */
  lemma {:induction false} WithoutAbsent(rows: seq<RefreshToken>, id: Option<nat>)
    requires forall k :: 0 <= k < |rows| ==> !Matches(rows[k], id)
    ensures Without(rows, id) == rows
  {
    Seqs.FilterAll(rows, (x: RefreshToken) => !Matches(x, id));
  }

  class RefreshTokenRepo {
    var rows: seq<RefreshToken>
    var nextId: nat

    ghost predicate Valid()
      reads this
    {
      WellNumbered(rows, nextId)
    }

    constructor ()
      ensures Valid() && rows == [] && nextId == 0
    {
      rows := [];
      nextId := 0;
    }

    /** INSERT INTO RefreshTokens(Token, UserId, ExpiresOn): one row is
        affected, so the result is true. */
    method AddRefreshToken(payload: RefreshToken) returns (added: bool)
      requires Valid()
      modifies this
      ensures Valid()
      ensures rows == old(rows) + [Stored(payload, old(nextId))] && nextId == old(nextId) + 1
      ensures added
    {
      rows := rows + [Stored(payload, nextId)];
      nextId := nextId + 1;
      added := true;
    }

    /** DELETE FROM RefreshTokens WHERE Id = @id: true iff a row was removed. */
    method DeleteRefreshToken(id: Option<nat>) returns (deleted: bool)
      requires Valid()
      modifies this
      ensures Valid()
      ensures rows == Without(old(rows), id) && nextId == old(nextId)
      ensures deleted <==> exists k :: 0 <= k < |old(rows)| && Matches(old(rows)[k], id)
    {
      deleted := exists k :: 0 <= k < |rows| && Matches(rows[k], id);
      var before := rows;
      rows := Without(rows, id);
      assert forall k :: 0 <= k < |rows| ==> rows[k] in before;
      forall i, j | 0 <= i < j < |rows|
        ensures rows[i].id != rows[j].id
      {
        DistinctAfterFilter(before, id, i, j);
      }
    }
  }

  /** Filtering keeps ids distinct: two kept rows come from two source rows. */
  lemma {:induction false} DistinctAfterFilter(rows: seq<RefreshToken>, id: Option<nat>, i: nat, j: nat)
    requires forall a, b :: 0 <= a < b < |rows| ==> rows[a].id != rows[b].id
    requires i < j < |Without(rows, id)|
    ensures Without(rows, id)[i].id != Without(rows, id)[j].id
    decreases |rows|
  {
    var p := (x: RefreshToken) => !Matches(x, id);
    var rest := Without(rows[1..], id);
    assert Without(rows, id) == if p(rows[0]) then [rows[0]] + rest else rest;
    assert forall a :: 1 <= a < |rows| ==> rows[a] == rows[1..][a - 1];
    if p(rows[0]) {
      if i == 0 {
        assert Without(rows, id)[j] in rest;
        assert Without(rows, id)[j] in rows[1..];
      } else {
        DistinctAfterFilter(rows[1..], id, i - 1, j - 1);
      }
    } else {
      DistinctAfterFilter(rows[1..], id, i, j);
    }
  }
}
