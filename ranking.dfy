/**
 * The leaderboard query: users whose tier average is above 0, highest
 * average first, at most ten of them, each as `(username, average)`.
 * server.js and gameRoutes.js run the same query.
 */
module Ranking {
  import opened Wrappers
  import opened Tiers
  import opened Models

  datatype Entry = Entry(username: string, avgSpeed: real)

  const LeaderboardLimit: nat := 10

  /** Every user projected to `(username, tier average)`, in storage order. */
  function Entries(users: seq<User>, t: Tier): (r: seq<Entry>)
    ensures |r| == |users|
    ensures forall i :: 0 <= i < |users| ==> r[i] == Entry(users[i].username, Get(users[i].stats, t).avgSpeed)
  {
    seq(|users|, i requires 0 <= i < |users| => Entry(users[i].username, Get(users[i].stats, t).avgSpeed))
  }

  /** The `{ avgSpeedX: { $gt: 0 } }` filter: exactly the entries whose average is above 0, each as often as before. */
  function Qualifying(s: seq<Entry>): (r: seq<Entry>)
    ensures forall e :: multiset(r)[e] == if e.avgSpeed > 0.0 then multiset(s)[e] else 0
  {
    if |s| == 0 then []
    else
      assert s == [s[0]] + s[1..];
      var rest := Qualifying(s[1..]);
      if s[0].avgSpeed > 0.0 then [s[0]] + rest else rest
  }

  ghost predicate SortedDesc(s: seq<Entry>)
  {
    forall i, j :: 0 <= i < j < |s| ==> s[i].avgSpeed >= s[j].avgSpeed
  }

  /** No entry of `s` has an average above `x`. */
  ghost predicate AllAtMost(s: seq<Entry>, x: real)
  {
    forall k :: 0 <= k < |s| ==> s[k].avgSpeed <= x
  }

  lemma SameEntriesSameBound(a: seq<Entry>, b: seq<Entry>, x: real)
    requires multiset(a) == multiset(b) && AllAtMost(b, x)
    ensures AllAtMost(a, x)
  {
    forall k | 0 <= k < |a|
      ensures a[k].avgSpeed <= x
    {
      assert a[k] in multiset(b);
      var j :| 0 <= j < |b| && b[j] == a[k];
    }
  }

  lemma ConsSorted(h: Entry, s: seq<Entry>)
    requires SortedDesc(s) && AllAtMost(s, h.avgSpeed)
    ensures SortedDesc([h] + s)
  {
  }

  /** Places `e` before the first entry whose average is not above its own. */
  function Insert(e: Entry, s: seq<Entry>): (r: seq<Entry>)
    requires SortedDesc(s)
    ensures SortedDesc(r)
    ensures multiset(r) == multiset(s) + multiset{e}
  {
    if |s| == 0 || e.avgSpeed >= s[0].avgSpeed then
      ConsSorted(e, s);
      [e] + s
    else
      assert s == [s[0]] + s[1..];
      var rest := Insert(e, s[1..]);
      assert AllAtMost(s[1..] + [e], s[0].avgSpeed);
      SameEntriesSameBound(rest, s[1..] + [e], s[0].avgSpeed);
      ConsSorted(s[0], rest);
      [s[0]] + rest
  }

  /** The `.sort({ avgSpeedX: -1 })` step: non-increasing averages, same entries. */
  function SortDesc(s: seq<Entry>): (r: seq<Entry>)
    ensures SortedDesc(r)
    ensures multiset(r) == multiset(s)
  {
    if |s| == 0 then []
    else
      assert s == [s[0]] + s[1..];
      Insert(s[0], SortDesc(s[1..]))
  }

  /** The `.limit(n)` step. */
  function Take(s: seq<Entry>, n: nat): seq<Entry>
  {
    if |s| <= n then s else s[..n]
  }

  /** Filter, sort descending, keep the first `n`. */
  function Top(s: seq<Entry>, n: nat): seq<Entry>
  {
    Take(SortDesc(Qualifying(s)), n)
  }

  /**
   * `r` is a top-`n` pick among the candidates `q`: as many as fit, drawn
   * from `q`, in non-increasing order, and none left out that beats the last
   * one kept.
   */
  ghost predicate IsTopOf(q: seq<Entry>, r: seq<Entry>, n: nat)
  {
    && |r| == (if |q| <= n then |q| else n)
    && multiset(r) <= multiset(q)
    && SortedDesc(r)
    && (|r| > 0 ==> forall e :: e in multiset(q) - multiset(r) ==> e.avgSpeed <= r[|r| - 1].avgSpeed)
  }

  /** `r` is a correct top-`n` answer over `all`: a top-`n` pick among the qualifying entries. */
  ghost predicate IsTopN(all: seq<Entry>, r: seq<Entry>, n: nat)
  {
    && IsTopOf(Qualifying(all), r, n)
    && (forall e :: e in r ==> e in all && e.avgSpeed > 0.0)
  }

  /** Cutting a sorted list after `n` leaves out nothing above the last entry kept. */
  lemma SortedPrefixBeatsRest(sq: seq<Entry>, n: nat)
    requires SortedDesc(sq) && 0 < n < |sq|
    ensures forall e :: e in multiset(sq) - multiset(sq[..n]) ==> e.avgSpeed <= sq[n - 1].avgSpeed
  {
    assert sq == sq[..n] + sq[n..];
    assert multiset(sq) == multiset(sq[..n]) + multiset(sq[n..]);
    forall e | e in multiset(sq) - multiset(sq[..n])
      ensures e.avgSpeed <= sq[n - 1].avgSpeed
    {
      assert e in multiset(sq[n..]);
      var k :| 0 <= k < |sq[n..]| && sq[n..][k] == e;
      assert sq[n + k] == e;
    }
  }

  lemma SameEntriesSameLength(a: seq<Entry>, b: seq<Entry>)
    requires multiset(a) == multiset(b)
    ensures |a| == |b|
  {
    assert |multiset(a)| == |multiset(b)|;
  }

  lemma PrefixEntries(s: seq<Entry>, n: nat)
    requires n <= |s|
    ensures multiset(s[..n]) <= multiset(s)
  {
    assert s == s[..n] + s[n..];
  }

  /** A sorted arrangement of all of `q` is a top-`n` pick when `q` has at most `n` entries. */
  lemma WholeIsTop(q: seq<Entry>, sq: seq<Entry>, n: nat)
    requires SortedDesc(sq) && multiset(sq) == multiset(q) && |sq| <= n
    ensures IsTopOf(q, sq, n)
  {
    SameEntriesSameLength(sq, q);
    assert multiset(q) - multiset(sq) == multiset{};
  }

  /** The first `n` of a sorted arrangement of `q` is a top-`n` pick when `q` has more. */
  lemma PrefixIsTop(q: seq<Entry>, sq: seq<Entry>, n: nat)
    requires SortedDesc(sq) && multiset(sq) == multiset(q) && |sq| > n
    ensures IsTopOf(q, sq[..n], n)
  {
    var r := sq[..n];
    SameEntriesSameLength(sq, q);
    PrefixEntries(sq, n);
    assert SortedDesc(r);
    if n > 0 {
      SortedPrefixBeatsRest(sq, n);
    }
  }

  /** Taking the first `n` of a sorted arrangement of `q` is a top-`n` pick. */
  lemma TakeOfSortedIsTop(q: seq<Entry>, sq: seq<Entry>, n: nat)
    requires SortedDesc(sq) && multiset(sq) == multiset(q)
    ensures IsTopOf(q, Take(sq, n), n)
  {
    if |sq| <= n {
      WholeIsTop(q, sq, n);
    } else {
      PrefixIsTop(q, sq, n);
    }
  }

  /** Whatever survives the filter is one of the input entries and has a positive average. */
  lemma QualifyingMembers(all: seq<Entry>, r: seq<Entry>)
    requires multiset(r) <= multiset(Qualifying(all))
    ensures forall e :: e in r ==> e in all && e.avgSpeed > 0.0
  {
    forall e | e in r
      ensures e in all && e.avgSpeed > 0.0
    {
      assert multiset(r)[e] > 0;
      assert multiset(Qualifying(all))[e] > 0;
    }
  }

  /** The query answers a correct top-`n` list. */
  lemma {:induction false} TopIsTopN(all: seq<Entry>, n: nat)
    ensures IsTopN(all, Top(all, n), n)
  {
    TakeOfSortedIsTop(Qualifying(all), SortDesc(Qualifying(all)), n);
    QualifyingMembers(all, Top(all, n));
  }

  /** What the leaderboard endpoint answers: 400 for an unknown difficulty, else the list. */
  datatype BoardReply = InvalidDifficulty | Board(entries: seq<Entry>)

  function Leaderboard(users: seq<User>, difficulty: string): (r: BoardReply)
    ensures r.InvalidDifficulty? <==> ParseTier(difficulty).None?
    ensures forall t :: ParseTier(difficulty) == Some(t) ==>
      r.Board? && IsTopN(Entries(users, t), r.entries, LeaderboardLimit)
  {
    match ParseTier(difficulty)
    case None => InvalidDifficulty
    case Some(t) =>
      TopIsTopN(Entries(users, t), LeaderboardLimit);
      Board(Top(Entries(users, t), LeaderboardLimit))
  }

  /** The board of a known tier is a correct top-ten list of its entries. */
  lemma TierBoard(users: seq<User>, t: Tier)
    ensures Leaderboard(users, Name(t)).Board?
    ensures IsTopN(Entries(users, t), Leaderboard(users, Name(t)).entries, LeaderboardLimit)
  {
    assert ParseTier(Name(t)) == Some(t);
  }

  /** A tier nobody has a positive average in gives an empty board, not an error. */
  lemma EmptyTierGivesEmptyBoard(users: seq<User>, t: Tier)
    requires forall i :: 0 <= i < |users| ==> Get(users[i].stats, t).avgSpeed <= 0.0
    ensures Leaderboard(users, Name(t)) == Board([])
  {
  }

  /**
   * Users are ranked on the average, not the play count: with unique
   * usernames, a user whose tier average is 0 is never listed, even after
   * playing (a score of 0 counts as a game).
   */
  lemma ZeroAverageNotRanked(users: seq<User>, t: Tier, i: nat)
    requires UniqueUsernames(users) && i < |users|
    requires Get(users[i].stats, t).avgSpeed <= 0.0
    ensures forall e :: e in Leaderboard(users, Name(t)).entries ==> e.username != users[i].username
  {
    TierBoard(users, t);
    PositiveEntriesExclude(users, t, i, Leaderboard(users, Name(t)).entries);
  }

  lemma PositiveEntriesExclude(users: seq<User>, t: Tier, i: nat, r: seq<Entry>)
    requires UniqueUsernames(users) && i < |users|
    requires Get(users[i].stats, t).avgSpeed <= 0.0
    requires forall e :: e in r ==> e in Entries(users, t) && e.avgSpeed > 0.0
    ensures forall e :: e in r ==> e.username != users[i].username
  {
    var es := Entries(users, t);
    forall e | e in r
      ensures e.username != users[i].username
    {
      var j :| 0 <= j < |es| && es[j] == e;
      assert j != i;
    }
  }

  /** Only users still stored can be listed: the board draws every entry from the user list. */
  lemma {:induction false} ListedUsersAreStored(users: seq<User>, difficulty: string, e: Entry)
    requires Leaderboard(users, difficulty).Board? && e in Leaderboard(users, difficulty).entries
    ensures exists u :: u in users && u.username == e.username
  {
    var t := ParseTier(difficulty).value;
    var es := Entries(users, t);
    assert e in es;
    var j :| 0 <= j < |es| && es[j] == e;
    assert users[j] in users;
  }
}
