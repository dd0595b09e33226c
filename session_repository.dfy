/**
 * The session table and its per-user cap: keep a user's sessions that expire latest and
 * delete the rest; and the projection of a user's session ids.
 *
 * The table is a sequence of rows in storage order. The database orders ties
 * arbitrarily; the model's sort is one fixed order that satisfies the same contract.
 */
module SessionRepository {
  import opened Text
  import opened Entities

  /** The column a query orders by. */
  datatype SortKey = ByExpiresAt | ByIssuedAt

  function Key(k: SortKey, s: Session): int {
    match k
    case ByExpiresAt => s.expiresAt
    case ByIssuedAt => s.issuedAt
  }

  /** The rows of one user, in storage order (a `Where` on the owner). */
  function UserSessions(rows: seq<Session>, userId: int): seq<Session> {
    if rows == [] then []
    else if rows[0].userId == userId then [rows[0]] + UserSessions(rows[1..], userId)
    else UserSessions(rows[1..], userId)
  }

  /** The table without the user's rows whose id is in `excess` (an `ExecuteDelete`). */
  function RemoveExcess(rows: seq<Session>, userId: int, excess: set<Guid>): seq<Session> {
    if rows == [] then []
    else if rows[0].userId == userId && rows[0].sessionId in excess then RemoveExcess(rows[1..], userId, excess)
    else [rows[0]] + RemoveExcess(rows[1..], userId, excess)
  }

  /** The rows whose id is not in `excess`. */
  function WithoutIds(rows: seq<Session>, excess: set<Guid>): seq<Session> {
    if rows == [] then []
    else if rows[0].sessionId in excess then WithoutIds(rows[1..], excess)
    else [rows[0]] + WithoutIds(rows[1..], excess)
  }

  /** The session ids of `rows`, in order (a `Select`). */
  function Ids(rows: seq<Session>): (r: seq<Guid>)
    ensures |r| == |rows| && forall i :: 0 <= i < |rows| ==> r[i] == rows[i].sessionId
  {
    if rows == [] then [] else [rows[0].sessionId] + Ids(rows[1..])
  }

  lemma IdsMembers(rows: seq<Session>)
    ensures forall id :: id in Ids(rows) <==> exists s :: s in rows && s.sessionId == id
  {
    forall id | id in Ids(rows) ensures exists s :: s in rows && s.sessionId == id {
      var i :| 0 <= i < |rows| && Ids(rows)[i] == id;
      assert rows[i] in rows;
    }
    forall s | s in rows ensures s.sessionId in Ids(rows) {
      var i :| 0 <= i < |rows| && rows[i] == s;
      assert Ids(rows)[i] == s.sessionId;
    }
  }

  function IdSet(rows: seq<Session>): set<Guid> {
    if rows == [] then {} else {rows[0].sessionId} + IdSet(rows[1..])
  }

  /** The primary key: no two rows share a session id. */
  predicate UniqueIds(rows: seq<Session>) {
    forall i, j :: 0 <= i < j < |rows| ==> rows[i].sessionId != rows[j].sessionId
  }

  predicate SortedDesc(k: SortKey, rows: seq<Session>) {
    forall i, j :: 0 <= i < j < |rows| ==> Key(k, rows[i]) >= Key(k, rows[j])
  }

  /** Inserts `x` before the first row with a smaller key. */
  function InsertDesc(k: SortKey, x: Session, sorted: seq<Session>): seq<Session> {
    if sorted == [] || Key(k, x) >= Key(k, sorted[0]) then [x] + sorted
    else [sorted[0]] + InsertDesc(k, x, sorted[1..])
  }

  /** `OrderByDescending` on column `k`. */
  function SortDesc(k: SortKey, rows: seq<Session>): seq<Session> {
    if rows == [] then [] else InsertDesc(k, rows[0], SortDesc(k, rows[1..]))
  }

  /** `Skip(n)` as a start index: a negative count skips nothing, a large one everything. */
  function SkipIndex(n: int, len: nat): (c: nat)
    ensures c <= len
  {
    if n <= 0 then 0 else if n >= len then len else n
  }

  /** The query of `EnsureSessionLimitAsync`: the user's sessions by expiry, latest first, after the first `maxSessions`. */
  function Excess(rows: seq<Session>, userId: int, maxSessions: int): seq<Session> {
    var sorted := SortDesc(ByExpiresAt, UserSessions(rows, userId));
    sorted[SkipIndex(maxSessions, |sorted|)..]
  }

  /** The table after the query's rows are deleted. */
  function LimitSessions(rows: seq<Session>, userId: int, maxSessions: int): seq<Session> {
    RemoveExcess(rows, userId, IdSet(Excess(rows, userId, maxSessions)))
  }

  /** The table after `Update(updated)`: the row with `updated`'s key becomes `updated`. */
  function Replace(rows: seq<Session>, updated: Session): (r: seq<Session>)
    ensures |r| == |rows|
    ensures forall i :: 0 <= i < |rows| ==>
      r[i] == if rows[i].sessionId == updated.sessionId then updated else rows[i]
  {
    if rows == [] then []
    else
      var head := if rows[0].sessionId == updated.sessionId then updated else rows[0];
      [head] + Replace(rows[1..], updated)
  }

  /** Update keeps the primary key: every row keeps its session id. */
  lemma ReplaceKeepsUnique(rows: seq<Session>, updated: Session)
    requires UniqueIds(rows)
    ensures UniqueIds(Replace(rows, updated))
  {
    var r := Replace(rows, updated);
    forall i, j | 0 <= i < j < |r| ensures r[i].sessionId != r[j].sessionId {
      assert r[i].sessionId == rows[i].sessionId && r[j].sessionId == rows[j].sessionId;
    }
  }

  // ---------------------------------------------------------------------------
  // Sequences, id sets and filters

  /** The filters keep exactly the rows they select. */
  lemma {:induction false} FilterMembers(rows: seq<Session>, userId: int, excess: set<Guid>)
    ensures forall x :: x in UserSessions(rows, userId) <==> x in rows && x.userId == userId
    ensures forall x :: x in RemoveExcess(rows, userId, excess) <==>
      x in rows && !(x.userId == userId && x.sessionId in excess)
    ensures forall x :: x in WithoutIds(rows, excess) <==> x in rows && x.sessionId !in excess
    decreases |rows|
  {
    if rows != [] {
      FilterMembers(rows[1..], userId, excess);
      assert forall x :: x in rows <==> x == rows[0] || x in rows[1..];
    }
  }

  lemma {:induction false} IdSetHas(rows: seq<Session>, i: nat)
    requires i < |rows|
    ensures rows[i].sessionId in IdSet(rows)
    decreases i
  {
    if i > 0 {
      IdSetHas(rows[1..], i - 1);
    }
  }

  lemma IdSetMember(rows: seq<Session>, x: Session)
    requires x in rows
    ensures x.sessionId in IdSet(rows)
  {
    var i :| 0 <= i < |rows| && rows[i] == x;
    IdSetHas(rows, i);
  }

  /** A position holding a given id of the id set. */
  lemma {:induction false} IdSetWitness(rows: seq<Session>, id: Guid) returns (i: nat)
    requires id in IdSet(rows)
    ensures i < |rows| && rows[i].sessionId == id
    decreases |rows|
  {
    if rows[0].sessionId == id {
      i := 0;
    } else {
      var j := IdSetWitness(rows[1..], id);
      i := j + 1;
    }
  }

  lemma {:induction false} IdSetAppend(a: seq<Session>, b: seq<Session>)
    ensures IdSet(a + b) == IdSet(a) + IdSet(b)
    decreases |a|
  {
    if a == [] {
      assert a + b == b;
    } else {
      assert (a + b)[0] == a[0] && (a + b)[1..] == a[1..] + b;
      IdSetAppend(a[1..], b);
    }
  }

  /** Rows with the same id in a table with unique ids are the same row. */
  lemma SameIdSameRow(rows: seq<Session>, x: Session, y: Session)
    requires UniqueIds(rows) && x in rows && y in rows && x.sessionId == y.sessionId
    ensures x == y
  {
    var i :| 0 <= i < |rows| && rows[i] == x;
    var j :| 0 <= j < |rows| && rows[j] == y;
  }

  lemma UniqueTail(rows: seq<Session>)
    requires rows != [] && UniqueIds(rows)
    ensures UniqueIds(rows[1..]) && rows[0].sessionId !in IdSet(rows[1..])
  {
    if rows[0].sessionId in IdSet(rows[1..]) {
      var i := IdSetWitness(rows[1..], rows[0].sessionId);
    }
  }

  lemma UniqueCons(x: Session, rows: seq<Session>)
    requires UniqueIds(rows) && x.sessionId !in IdSet(rows)
    ensures UniqueIds([x] + rows)
  {
    var r := [x] + rows;
    forall i, j | 0 <= i < j < |r|
      ensures r[i].sessionId != r[j].sessionId
    {
      assert r[j] == rows[j - 1];
      if i > 0 {
        assert r[i] == rows[i - 1];
      } else {
        IdSetHas(rows, j - 1);
      }
    }
  }

  /** With unique ids, the id set has one id per row. */
  lemma {:induction false} UniqueCard(rows: seq<Session>)
    requires UniqueIds(rows)
    ensures |IdSet(rows)| == |rows|
    decreases |rows|
  {
    if rows != [] {
      UniqueTail(rows);
      UniqueCard(rows[1..]);
    }
  }

  /** The filters keep ids unique. */
  lemma {:induction false} FiltersKeepUnique(rows: seq<Session>, userId: int, excess: set<Guid>)
    requires UniqueIds(rows)
    ensures UniqueIds(UserSessions(rows, userId))
    ensures UniqueIds(RemoveExcess(rows, userId, excess))
    ensures UniqueIds(WithoutIds(rows, excess))
    decreases |rows|
  {
    if rows != [] {
      UniqueTail(rows);
      var x := rows[0];
      var t := rows[1..];
      FiltersKeepUnique(t, userId, excess);
      FilterMembers(t, userId, excess);
      if x.userId == userId {
        NotInFiltered(t, UserSessions(t, userId), x.sessionId);
        UniqueCons(x, UserSessions(t, userId));
      }
      if !(x.userId == userId && x.sessionId in excess) {
        NotInFiltered(t, RemoveExcess(t, userId, excess), x.sessionId);
        UniqueCons(x, RemoveExcess(t, userId, excess));
      }
      if x.sessionId !in excess {
        NotInFiltered(t, WithoutIds(t, excess), x.sessionId);
        UniqueCons(x, WithoutIds(t, excess));
      }
    }
  }

  /** An id absent from a table is absent from any selection of its rows. */
  lemma NotInFiltered(rows: seq<Session>, selected: seq<Session>, id: Guid)
    requires id !in IdSet(rows) && forall x :: x in selected ==> x in rows
    ensures id !in IdSet(selected)
  {
    if id in IdSet(selected) {
      var i := IdSetWitness(selected, id);
      IdSetMember(rows, selected[i]);
    }
  }

  /** The rows kept by removing ids `excess` have exactly the other ids. */
  lemma {:induction false} WithoutIdsIdSet(rows: seq<Session>, excess: set<Guid>)
    ensures IdSet(WithoutIds(rows, excess)) == IdSet(rows) - excess
    decreases |rows|
  {
    if rows != [] {
      WithoutIdsIdSet(rows[1..], excess);
    }
  }

  /** The user's view of the capped table is the user's rows without the excess ids. */
  lemma {:induction false} UserViewOfRemove(rows: seq<Session>, userId: int, excess: set<Guid>)
    ensures UserSessions(RemoveExcess(rows, userId, excess), userId) == WithoutIds(UserSessions(rows, userId), excess)
    decreases |rows|
  {
    if rows != [] {
      UserViewOfRemove(rows[1..], userId, excess);
      var x := rows[0];
      var t := RemoveExcess(rows[1..], userId, excess);
      if !(x.userId == userId && x.sessionId in excess) {
        assert ([x] + t)[1..] == t;
      }
      if x.userId == userId {
        assert ([x] + UserSessions(rows[1..], userId))[1..] == UserSessions(rows[1..], userId);
      }
    }
  }

  /** Another user's view of the table is untouched by removing this user's rows. */
  lemma {:induction false} OtherViewOfRemove(rows: seq<Session>, userId: int, excess: set<Guid>, other: int)
    requires other != userId
    ensures UserSessions(RemoveExcess(rows, userId, excess), other) == UserSessions(rows, other)
    decreases |rows|
  {
    if rows != [] {
      OtherViewOfRemove(rows[1..], userId, excess, other);
      var x := rows[0];
      var t := RemoveExcess(rows[1..], userId, excess);
      if !(x.userId == userId && x.sessionId in excess) {
        assert ([x] + t)[1..] == t;
      }
    }
  }

  lemma {:induction false} RemoveNothing(rows: seq<Session>, userId: int)
    ensures RemoveExcess(rows, userId, {}) == rows
    decreases |rows|
  {
    if rows != [] {
      RemoveNothing(rows[1..], userId);
    }
  }

  // ---------------------------------------------------------------------------
  // Sorting

  lemma {:induction false} InsertDescPermutes(k: SortKey, x: Session, sorted: seq<Session>)
    ensures multiset(InsertDesc(k, x, sorted)) == multiset(sorted) + multiset{x}
    decreases |sorted|
  {
    if sorted != [] && Key(k, x) < Key(k, sorted[0]) {
      InsertDescPermutes(k, x, sorted[1..]);
      assert sorted == [sorted[0]] + sorted[1..];
    }
  }

  lemma {:induction false} InsertDescSorted(k: SortKey, x: Session, sorted: seq<Session>)
    requires SortedDesc(k, sorted)
    ensures SortedDesc(k, InsertDesc(k, x, sorted))
    decreases |sorted|
  {
    if sorted != [] && Key(k, x) < Key(k, sorted[0]) {
      var rest := InsertDesc(k, x, sorted[1..]);
      InsertDescSorted(k, x, sorted[1..]);
      // The rest starts with `x` or with the old second row, and neither is above the head.
      assert Key(k, sorted[0]) >= Key(k, rest[0]) by {
        if sorted[1..] != [] && Key(k, x) < Key(k, sorted[1..][0]) {
          assert rest[0] == sorted[1];
        }
      }
      var r := [sorted[0]] + rest;
      forall i, j | 0 <= i < j < |r| ensures Key(k, r[i]) >= Key(k, r[j]) {
        assert r[j] == rest[j - 1];
        if i > 0 {
          assert r[i] == rest[i - 1];
        } else if j > 1 {
          assert Key(k, rest[0]) >= Key(k, rest[j - 1]);
        }
      }
    }
  }

  lemma {:induction false} InsertDescIds(k: SortKey, x: Session, sorted: seq<Session>)
    ensures IdSet(InsertDesc(k, x, sorted)) == {x.sessionId} + IdSet(sorted)
    ensures UniqueIds(sorted) && x.sessionId !in IdSet(sorted) ==> UniqueIds(InsertDesc(k, x, sorted))
    decreases |sorted|
  {
    if sorted != [] && Key(k, x) < Key(k, sorted[0]) {
      InsertDescIds(k, x, sorted[1..]);
      if UniqueIds(sorted) && x.sessionId !in IdSet(sorted) {
        UniqueTail(sorted);
        UniqueCons(sorted[0], InsertDesc(k, x, sorted[1..]));
      }
    } else if UniqueIds(sorted) && x.sessionId !in IdSet(sorted) {
      UniqueCons(x, sorted);
    }
  }

  /** The sort is a permutation of its input. */
  lemma {:induction false} SortDescPermutes(k: SortKey, rows: seq<Session>)
    ensures multiset(SortDesc(k, rows)) == multiset(rows) && |SortDesc(k, rows)| == |rows|
    decreases |rows|
  {
    if rows != [] {
      SortDescPermutes(k, rows[1..]);
      assert rows == [rows[0]] + rows[1..];
      InsertDescPermutes(k, rows[0], SortDesc(k, rows[1..]));
      assert |multiset(SortDesc(k, rows))| == |multiset(rows)|;
    }
  }

  lemma {:induction false} SortDescSorted(k: SortKey, rows: seq<Session>)
    ensures SortedDesc(k, SortDesc(k, rows))
    decreases |rows|
  {
    if rows != [] {
      SortDescSorted(k, rows[1..]);
      InsertDescSorted(k, rows[0], SortDesc(k, rows[1..]));
    }
  }

  lemma {:induction false} SortDescIds(k: SortKey, rows: seq<Session>)
    ensures IdSet(SortDesc(k, rows)) == IdSet(rows)
    ensures UniqueIds(rows) ==> UniqueIds(SortDesc(k, rows))
    decreases |rows|
  {
    if rows != [] {
      SortDescIds(k, rows[1..]);
      InsertDescIds(k, rows[0], SortDesc(k, rows[1..]));
      if UniqueIds(rows) {
        UniqueTail(rows);
      }
    }
  }

  /** The sort orders by the key, largest first, and is a permutation keeping every id. */
  lemma SortDescFacts(k: SortKey, rows: seq<Session>)
    ensures var r := SortDesc(k, rows);
      SortedDesc(k, r) && multiset(r) == multiset(rows) && |r| == |rows| && IdSet(r) == IdSet(rows)
    ensures UniqueIds(rows) ==> UniqueIds(SortDesc(k, rows))
  {
    SortDescPermutes(k, rows);
    SortDescSorted(k, rows);
    SortDescIds(k, rows);
  }

  // ---------------------------------------------------------------------------
  // The cap

  /** With unique ids, the ids before and after any cut are disjoint. */
  lemma UniqueSplit(rows: seq<Session>, c: nat)
    requires UniqueIds(rows) && c <= |rows|
    ensures IdSet(rows[..c]) !! IdSet(rows[c..])
  {
    forall id | id in IdSet(rows[..c]) ensures id !in IdSet(rows[c..]) {
      var i := IdSetWitness(rows[..c], id);
      forall j | 0 <= j < |rows| - c ensures rows[c..][j].sessionId != id {
        assert rows[c..][j] == rows[c + j] && rows[..c][i] == rows[i];
      }
      IdSetAbsent(rows[c..], id);
    }
  }

  lemma IdSetAbsent(rows: seq<Session>, id: Guid)
    requires forall j :: 0 <= j < |rows| ==> rows[j].sessionId != id
    ensures id !in IdSet(rows)
  {
    if id in IdSet(rows) {
      var i := IdSetWitness(rows, id);
    }
  }

  /** The facts about the excess query the cap lemmas share. */
  lemma ExcessFacts(rows: seq<Session>, userId: int, maxSessions: int)
    requires UniqueIds(rows)
    ensures var sorted := SortDesc(ByExpiresAt, UserSessions(rows, userId));
      var c := SkipIndex(maxSessions, |sorted|);
      && UniqueIds(sorted)
      && Excess(rows, userId, maxSessions) == sorted[c..]
      && IdSet(UserSessions(rows, userId)) - IdSet(sorted[c..]) == IdSet(sorted[..c])
      && |IdSet(sorted[..c])| == c
  {
    var us := UserSessions(rows, userId);
    FiltersKeepUnique(rows, userId, {});
    SortDescFacts(ByExpiresAt, us);
    var sorted := SortDesc(ByExpiresAt, us);
    var c := SkipIndex(maxSessions, |sorted|);
    assert sorted == sorted[..c] + sorted[c..];
    IdSetAppend(sorted[..c], sorted[c..]);
    UniqueSplit(sorted, c);
    assert UniqueIds(sorted[..c]);
    UniqueCard(sorted[..c]);
  }

  /**
   * After the cap, user `userId` keeps exactly `min(n, max(maxSessions, 0))` of its `n`
   * sessions: at most `maxSessions`, and all of them when there were no more than that.
   */
  lemma LimitKeepsAtMost(rows: seq<Session>, userId: int, maxSessions: int)
    requires UniqueIds(rows)
    ensures var n := |UserSessions(rows, userId)|;
      |UserSessions(LimitSessions(rows, userId, maxSessions), userId)| ==
        if maxSessions <= 0 then 0 else if n <= maxSessions then n else maxSessions
  {
    var us := UserSessions(rows, userId);
    var sorted := SortDesc(ByExpiresAt, us);
    var c := SkipIndex(maxSessions, |sorted|);
    ExcessFacts(rows, userId, maxSessions);
    SortDescFacts(ByExpiresAt, us);
    var excess := IdSet(sorted[c..]);
    UserViewOfRemove(rows, userId, excess);
    var kept := WithoutIds(us, excess);
    WithoutIdsIdSet(us, excess);
    FiltersKeepUnique(rows, userId, excess);
    FiltersKeepUnique(us, userId, excess);
    UniqueCard(kept);
  }

  /**
   * Every deleted row is one of the user's sessions, and it expires no later than any of
   * the user's kept sessions; the table only loses rows.
   */
  lemma LimitDropsEarliest(rows: seq<Session>, userId: int, maxSessions: int)
    requires UniqueIds(rows)
    ensures var r := LimitSessions(rows, userId, maxSessions);
      forall d, k :: d in rows && d !in r && k in r && k.userId == userId ==>
        d.userId == userId && d.expiresAt <= k.expiresAt
    ensures forall x :: x in LimitSessions(rows, userId, maxSessions) ==> x in rows
  {
    var us := UserSessions(rows, userId);
    var sorted := SortDesc(ByExpiresAt, us);
    var c := SkipIndex(maxSessions, |sorted|);
    ExcessFacts(rows, userId, maxSessions);
    SortDescFacts(ByExpiresAt, us);
    var excess := IdSet(sorted[c..]);
    var r := LimitSessions(rows, userId, maxSessions);
    FilterMembers(rows, userId, excess);
    forall d, k | d in rows && d !in r && k in r && k.userId == userId
      ensures d.userId == userId && d.expiresAt <= k.expiresAt
    {
      assert d in multiset(sorted) && k in multiset(sorted);
      CutOrdersRows(sorted, c, d, k);
    }
  }

  /** In a sorted table, a row at or after the cut expires no later than a row before it. */
  lemma CutOrdersRows(sorted: seq<Session>, c: nat, d: Session, k: Session)
    requires c <= |sorted| && SortedDesc(ByExpiresAt, sorted) && UniqueIds(sorted)
    requires d in sorted && d.sessionId in IdSet(sorted[c..])
    requires k in sorted && k.sessionId !in IdSet(sorted[c..])
    ensures d.expiresAt <= k.expiresAt
  {
    var j := IdSetWitness(sorted[c..], d.sessionId);
    SameIdSameRow(sorted, d, sorted[c + j]);
    var i :| 0 <= i < |sorted| && sorted[i] == k;
    if i >= c {
      assert sorted[c..][i - c] == k;
      IdSetMember(sorted[c..], k);
    }
    assert Key(ByExpiresAt, sorted[i]) >= Key(ByExpiresAt, sorted[c + j]);
  }

  /** The cap never touches another user's sessions. */
  lemma LimitOthersUntouched(rows: seq<Session>, userId: int, maxSessions: int, other: int)
    requires other != userId
    ensures UserSessions(LimitSessions(rows, userId, maxSessions), other) == UserSessions(rows, other)
  {
    OtherViewOfRemove(rows, userId, IdSet(Excess(rows, userId, maxSessions)), other);
  }

  /** A user with no more than `maxSessions` sessions loses none: the table is unchanged. */
  lemma LimitNoChange(rows: seq<Session>, userId: int, maxSessions: int)
    requires |UserSessions(rows, userId)| <= maxSessions
    ensures LimitSessions(rows, userId, maxSessions) == rows
  {
    SortDescFacts(ByExpiresAt, UserSessions(rows, userId));
    assert Excess(rows, userId, maxSessions) == [];
    RemoveNothing(rows, userId);
  }

  /** The cap keeps the table's primary key unique. */
  lemma LimitKeepsUnique(rows: seq<Session>, userId: int, maxSessions: int)
    requires UniqueIds(rows)
    ensures UniqueIds(LimitSessions(rows, userId, maxSessions))
  {
    FiltersKeepUnique(rows, userId, IdSet(Excess(rows, userId, maxSessions)));
  }

  /** The repository over the session table. */
  class SessionRepository {
    var sessions: seq<Session>

    constructor (sessions: seq<Session>)
      ensures this.sessions == sessions
    {
      this.sessions := sessions;
    }

    /**
     * Deletes the user's sessions beyond the `maxSessions` that expire latest (5 by
     * default), when there are any.
     */
    method EnsureSessionLimitAsync(userId: int, maxSessions: int := 5)
      modifies this
      ensures sessions == LimitSessions(old(sessions), userId, maxSessions)
    {
      var excess := Excess(sessions, userId, maxSessions);
      if |excess| > 0 {
        sessions := RemoveExcess(sessions, userId, IdSet(excess));
      } else {
        RemoveNothing(sessions, userId);
      }
    }

    /** `Add` followed by a save: the row is appended to the table. */
    method Add(session: Session)
      modifies this
      ensures sessions == old(sessions) + [session]
    {
      sessions := sessions + [session];
    }

    /** `Update` followed by a save: the row with the same key is replaced. */
    method Update(updated: Session)
      modifies this
      ensures sessions == Replace(old(sessions), updated)
    {
      sessions := Replace(sessions, updated);
    }

    /** The ids of exactly the user's sessions, one per session. */
    function GetSessionIdsByUserIdAsync(userId: int): (ids: seq<Guid>)
      reads this
      ensures |ids| == |UserSessions(sessions, userId)|
      ensures forall id :: id in ids <==> exists s :: s in sessions && s.userId == userId && s.sessionId == id
    {
      var us := UserSessions(sessions, userId);
      FilterMembers(sessions, userId, {});
      IdsMembers(us);
      Ids(us)
    }
  }
}
