/**
 * The leaderboard command's rank assignment.
 *
 * The store's top-counters query returns `(user, count)` rows, best first;
 * the command walks them with a rank counter starting at 1. A row without a
 * user is skipped and does not use up a rank; a row whose user is no longer
 * a member of the guild uses up its rank but shows nothing; the first three
 * ranks get medals; the walk stops once rank 10 has been used.
 *
 * `Reference` states the same outcome without a counter: drop the rows
 * without a user, keep the first ten, number them from 1, show the members.
 */
module Ranking {

  import opened Wrappers
  import opened Counting

  /** One row of the top-counters query; both columns may be null. */
  datatype Row = Row(user: Option<UserId>, count: Option<nat>)

  datatype Medal = FirstPlace | SecondPlace | ThirdPlace

  /** One line of the leaderboard. */
  datatype Entry = Entry(rank: nat, user: UserId, count: Option<nat>, medal: Option<Medal>)

  /** The leaderboard reply: the "no users have counted yet" notice, or the ranked lines. */
  datatype Board = NoCounters | Standings(entries: seq<Entry>)

  /** The last rank the leaderboard uses. */
  const LastRank: nat := 10

  /** The medal shown for a rank; ranks after the third are shown by number. */
  function MedalFor(rank: nat): (m: Option<Medal>)
    ensures m.Some? <==> 1 <= rank <= 3
  {
    if rank == 1 then Some(FirstPlace)
    else if rank == 2 then Some(SecondPlace)
    else if rank == 3 then Some(ThirdPlace)
    else None
  }

  /** The rows that name a user, in order, as `(user, count)` pairs. */
  function Present(rows: seq<Row>): seq<(UserId, Option<nat>)> {
    if rows == [] then []
    else (if rows[0].user.Some? then [(rows[0].user.value, rows[0].count)] else []) + Present(rows[1..])
  }

  /** The pairs of `p` numbered from `rank` on, keeping only the users that are members. */
  function Numbered(p: seq<(UserId, Option<nat>)>, isMember: UserId -> bool, rank: nat): seq<Entry>
    decreases |p|
  {
    if p == [] then []
    else
      (if isMember(p[0].0) then [Entry(rank, p[0].0, p[0].1, MedalFor(rank))] else [])
        + Numbered(p[1..], isMember, rank + 1)
  }

  /** The leaderboard's lines, stated without a rank counter. */
  function Reference(rows: seq<Row>, isMember: UserId -> bool): seq<Entry> {
    var p := Present(rows);
    Numbered(if |p| <= LastRank then p else p[..LastRank], isMember, 1)
  }

  /** True when the query returned nothing, or only its all-null row. */
  predicate NoRows(rows: seq<Row>) {
    rows == [] || rows[0] == Row(None, None)
  }

  /**
   * The leaderboard command. `isMember` says whether the guild still
   * resolves a user id to a member.
   */
  method Leaderboard(rows: seq<Row>, isMember: UserId -> bool) returns (board: Board)
    ensures board.NoCounters? <==> NoRows(rows)
    ensures board.Standings? ==> board.entries == Reference(rows, isMember)
  {
    if NoRows(rows) {
      return NoCounters;
    }
    var index: nat := 1;
    var entries: seq<Entry> := [];
    var i := 0;
    while i < |rows|
      invariant 0 <= i <= |rows|
      invariant index == 1 + |Present(rows[..i])| <= LastRank
      invariant entries == Numbered(Present(rows[..i]), isMember, 1)
    {
      PresentAppend(rows[..i], [rows[i]]);
      assert rows[..i + 1] == rows[..i] + [rows[i]];
      PresentOne(rows[i]);
      var row := rows[i];
      if row.user.None? {
        assert Present(rows[..i + 1]) == Present(rows[..i]);
        i := i + 1;
        continue;
      }
      var user := row.user.value;
      NumberedAppend(Present(rows[..i]), [(user, row.count)], isMember, 1);
      NumberedOne((user, row.count), isMember, index);
      assert Present(rows[..i + 1]) == Present(rows[..i]) + [(user, row.count)];
      if isMember(user) {
        entries := entries + [Entry(index, user, row.count, MedalFor(index))];
      }
      assert entries == Numbered(Present(rows[..i + 1]), isMember, 1);
      if index == LastRank {
        TakeAtLastRank(rows, i + 1);
        ghost var all := Present(rows);
        assert all[..LastRank] == Present(rows[..i + 1]);
        assert |all| == LastRank ==> all == all[..LastRank];
        return Standings(entries);
      }
      index := index + 1;
      i := i + 1;
    }
    assert rows[..i] == rows;
    return Standings(entries);
  }

  lemma {:induction false} PresentAppend(a: seq<Row>, b: seq<Row>)
    ensures Present(a + b) == Present(a) + Present(b)
  {
    if a == [] {
      assert a + b == b;
    } else {
      assert (a + b)[1..] == a[1..] + b;
      PresentAppend(a[1..], b);
    }
  }

  lemma PresentOne(row: Row)
    ensures Present([row]) == if row.user.Some? then [(row.user.value, row.count)] else []
  {
    assert [row][1..] == [];
  }

  lemma {:induction false} NumberedAppend(p: seq<(UserId, Option<nat>)>, q: seq<(UserId, Option<nat>)>, isMember: UserId -> bool, rank: nat)
    ensures Numbered(p + q, isMember, rank) == Numbered(p, isMember, rank) + Numbered(q, isMember, rank + |p|)
    decreases |p|
  {
    if p == [] {
      assert p + q == q;
    } else {
      assert (p + q)[1..] == p[1..] + q;
      NumberedAppend(p[1..], q, isMember, rank + 1);
    }
  }

  lemma NumberedOne(x: (UserId, Option<nat>), isMember: UserId -> bool, rank: nat)
    ensures Numbered([x], isMember, rank) == if isMember(x.0) then [Entry(rank, x.0, x.1, MedalFor(rank))] else []
  {
    assert [x][1..] == [];
  }

  /** Once the rows up to `j` name ten users, the rest of the rows cannot reach the leaderboard. */
  lemma TakeAtLastRank(rows: seq<Row>, j: nat)
    requires j <= |rows| && |Present(rows[..j])| == LastRank
    ensures var p := Present(rows); |p| >= LastRank && p[..LastRank] == Present(rows[..j])
  {
    assert rows == rows[..j] + rows[j..];
    PresentAppend(rows[..j], rows[j..]);
  }

  /** Ranks are numbered upward from `rank`, one per pair, and never repeat. */
  lemma {:induction false} NumberedRanks(p: seq<(UserId, Option<nat>)>, isMember: UserId -> bool, rank: nat)
    ensures var n := Numbered(p, isMember, rank);
      && |n| <= |p|
      && (forall i :: 0 <= i < |n| ==> rank <= n[i].rank < rank + |p|)
      && (forall i, j :: 0 <= i < j < |n| ==> n[i].rank < n[j].rank)
    decreases |p|
  {
    if p != [] {
      NumberedRanks(p[1..], isMember, rank + 1);
      var n := Numbered(p, isMember, rank);
      var tail := Numbered(p[1..], isMember, rank + 1);
      if isMember(p[0].0) {
        assert n == [Entry(rank, p[0].0, p[0].1, MedalFor(rank))] + tail;
        forall i | 1 <= i < |n|
          ensures n[i] == tail[i - 1]
        {
        }
      } else {
        assert n == tail;
      }
    }
  }

  /** Line `e` shows the pair of `p` its rank points at, counting ranks from `rank`; the user is a member. */
  predicate ShowsPair(e: Entry, p: seq<(UserId, Option<nat>)>, isMember: UserId -> bool, rank: nat) {
    && rank <= e.rank < rank + |p|
    && (e.user, e.count) == p[e.rank - rank]
    && isMember(e.user)
    && e.medal == MedalFor(e.rank)
  }

  /** The line with rank `r` shows the `(r - rank)`-th pair, a member, with the medal of rank `r`. */
  lemma {:induction false} NumberedRows(p: seq<(UserId, Option<nat>)>, isMember: UserId -> bool, rank: nat)
    ensures forall i :: 0 <= i < |Numbered(p, isMember, rank)| ==> ShowsPair(Numbered(p, isMember, rank)[i], p, isMember, rank)
    decreases |p|
  {
    if p != [] {
      NumberedRows(p[1..], isMember, rank + 1);
      var n := Numbered(p, isMember, rank);
      var tail := Numbered(p[1..], isMember, rank + 1);
      var h := if isMember(p[0].0) then 1 else 0;
      assert |n| == h + |tail| && forall i :: h <= i < |n| ==> n[i] == tail[i - h] by {
        if isMember(p[0].0) {
          assert n == [Entry(rank, p[0].0, p[0].1, MedalFor(rank))] + tail;
        } else {
          assert n == tail;
        }
      }
      forall i | h <= i < |n|
        ensures ShowsPair(n[i], p, isMember, rank)
      {
        assert ShowsPair(tail[i - h], p[1..], isMember, rank + 1);
        var r := tail[i - h].rank;
        assert p[1..][r - (rank + 1)] == p[r - rank];
      }
      if h == 1 {
        assert n[0] == Entry(rank, p[0].0, p[0].1, MedalFor(rank));
      }
    }
  }

  /** Every pair whose user is a member gets a line. */
  lemma {:induction false} NumberedComplete(p: seq<(UserId, Option<nat>)>, isMember: UserId -> bool, rank: nat)
    ensures forall k :: 0 <= k < |p| && isMember(p[k].0) ==>
      exists i :: 0 <= i < |Numbered(p, isMember, rank)| && Numbered(p, isMember, rank)[i].rank == rank + k
    decreases |p|
  {
    if p != [] {
      NumberedComplete(p[1..], isMember, rank + 1);
      var n := Numbered(p, isMember, rank);
      var tail := Numbered(p[1..], isMember, rank + 1);
      var h := if isMember(p[0].0) then 1 else 0;
      assert |n| == h + |tail| && forall i :: h <= i < |n| ==> n[i] == tail[i - h] by {
        if isMember(p[0].0) {
          assert n == [Entry(rank, p[0].0, p[0].1, MedalFor(rank))] + tail;
        } else {
          assert n == tail;
        }
      }
      forall k | 0 <= k < |p| && isMember(p[k].0)
        ensures exists i :: 0 <= i < |n| && n[i].rank == rank + k
      {
        if k == 0 {
          assert n == [Entry(rank, p[0].0, p[0].1, MedalFor(rank))] + tail;
          assert n[0].rank == rank;
        } else {
          assert p[1..][k - 1] == p[k];
          var i :| 0 <= i < |tail| && tail[i].rank == rank + 1 + (k - 1);
          assert n[h + i] == tail[i];
        }
      }
      assert n == Numbered(p, isMember, rank);
    }
  }

  /**
   * What the leaderboard shows when the query returned rows: ranks strictly
   * increase from 1 and never pass 10, only ranks 1 to 3 carry medals, and
   * rank `k + 1` belongs to the `k`-th row that names a user (counting from
   * 0). That row appears exactly when its user is a member: rows without a
   * user use up no rank, and members who left use up a rank without a line.
   */
  lemma LeaderboardShape(rows: seq<Row>, isMember: UserId -> bool)
    ensures var e := Reference(rows, isMember);
      var p := Present(rows);
      && |e| <= LastRank
      && (forall i :: 0 <= i < |e| ==> 1 <= e[i].rank <= LastRank && e[i].rank <= |p|)
      && (forall i, j :: 0 <= i < j < |e| ==> e[i].rank < e[j].rank)
      && (forall i :: 0 <= i < |e| ==> (e[i].medal.Some? <==> e[i].rank <= 3))
      && (forall i :: 0 <= i < |e| ==> (e[i].user, e[i].count) == p[e[i].rank - 1] && isMember(e[i].user))
      && (forall k :: 0 <= k < |p| && k < LastRank && isMember(p[k].0) ==>
            exists i :: 0 <= i < |e| && e[i].rank == k + 1)
  {
    var p := Present(rows);
    var top := if |p| <= LastRank then p else p[..LastRank];
    NumberedRanks(top, isMember, 1);
    NumberedRows(top, isMember, 1);
    NumberedComplete(top, isMember, 1);
    var e := Reference(rows, isMember);
    assert e == Numbered(top, isMember, 1);
    forall i | 0 <= i < |e|
      ensures 1 <= e[i].rank <= |p| && (e[i].user, e[i].count) == p[e[i].rank - 1]
    {
      assert ShowsPair(e[i], top, isMember, 1);
      assert top[e[i].rank - 1] == p[e[i].rank - 1];
    }
    forall k | 0 <= k < |p| && k < LastRank && isMember(p[k].0)
      ensures exists i :: 0 <= i < |e| && e[i].rank == k + 1
    {
      assert top[k] == p[k];
    }
  }

  /** A row without a user never reaches the leaderboard and shifts no one's rank. */
  lemma SkippedRowsTakeNoRank(a: seq<Row>, b: seq<Row>, count: Option<nat>, isMember: UserId -> bool)
    ensures Reference(a + [Row(None, count)] + b, isMember) == Reference(a + b, isMember)
  {
    PresentAppend(a + [Row(None, count)], b);
    PresentAppend(a, [Row(None, count)]);
    PresentAppend(a, b);
    PresentOne(Row(None, count));
    assert Present(a + [Row(None, count)]) == Present(a);
  }
}
