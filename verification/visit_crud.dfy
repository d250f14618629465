/**
 * The visit collection as an append-only log, with recording and the
 * "most recent visits received" query.
 */
module VisitCrud {
  import opened Models

  /** All visits ever recorded, oldest first; never mutated or shortened. */
  type VisitLog = seq<Visit>

  /** How many visits the listing returns when the caller does not say. */
  const DefaultLimit: nat := 50

  /** Each visit's identifier is its position in the log. */
  predicate ValidLog(log: VisitLog) {
    forall i :: 0 <= i < |log| ==> log[i].id == i
  }

  /** Appends one visit carrying the given emails and OAuth id, stamped `now`. */
  function CreateVisit(log: VisitLog, visitedUserEmail: Email, visitorEmail: Email,
                       visitorOauthId: string, now: Time): (r: (VisitLog, Visit))
    ensures var (log', v) := r;
      && |log'| == |log| + 1 && log'[..|log|] == log && log'[|log|] == v
    ensures var (_, v) := r;
      && v.visitedUserEmail == visitedUserEmail && v.visitorEmail == visitorEmail
      && v.visitorOauthId == visitorOauthId && v.visitedAt == now
    ensures var (log', v) := r;
      ValidLog(log) ==> ValidLog(log') && forall w :: w in log ==> w.id != v.id
  {
    var v := Visit(|log|, visitedUserEmail, visitorEmail, visitorOauthId, now);
    (log + [v], v)
  }

  /** Non-increasing in `visitedAt`: the newest visit first. */
  predicate NewestFirst(s: seq<Visit>) {
    forall i, j :: 0 <= i < j < |s| ==> s[i].visitedAt >= s[j].visitedAt
  }

  /** The visits to `email`'s map, in log order. */
  function {:induction false} VisitsTo(log: VisitLog, email: Email): (r: seq<Visit>)
    ensures forall x :: x in r ==> x in log && x.visitedUserEmail == email
    ensures |r| <= |log|
  {
    if log == [] then []
    else
      var rest := VisitsTo(log[1..], email);
      if log[0].visitedUserEmail == email then [log[0]] + rest else rest
  }

  /** Filtering keeps each visit to `email` as often as the log holds it, and no other visit. */
  lemma {:induction false} VisitsToCounts(log: VisitLog, email: Email, x: Visit)
    ensures multiset(VisitsTo(log, email))[x] == if x.visitedUserEmail == email then multiset(log)[x] else 0
  {
    if log != [] {
      assert log == [log[0]] + log[1..];
      VisitsToCounts(log[1..], email, x);
    }
  }

  /** In a newest-first sequence no visit is newer than the first one. */
  lemma HeadIsNewest(s: seq<Visit>)
    requires NewestFirst(s)
    ensures forall x :: x in s ==> x.visitedAt <= s[0].visitedAt
  {
  }

  /** A visit no older than any of a newest-first sequence can lead it. */
  lemma ConsNewestFirst(h: Visit, t: seq<Visit>)
    requires NewestFirst(t)
    requires forall x :: x in t ==> x.visitedAt <= h.visitedAt
    ensures NewestFirst([h] + t)
  {
  }

  /** Places `v` into a newest-first sequence. */
  function {:induction false} InsertNewestFirst(v: Visit, s: seq<Visit>): (r: seq<Visit>)
    requires NewestFirst(s)
    ensures NewestFirst(r)
    ensures multiset(r) == multiset(s) + multiset{v}
    ensures forall x :: x in r ==> x == v || x in s
  {
    if s == [] || s[0].visitedAt <= v.visitedAt then
      HeadIsNewest(s);
      ConsNewestFirst(v, s);
      [v] + s
    else
      assert s == [s[0]] + s[1..];
      var tail := InsertNewestFirst(v, s[1..]);
      HeadIsNewest(s);
      ConsNewestFirst(s[0], tail);
      assert multiset([s[0]] + tail) == multiset{s[0]} + multiset(tail);
      [s[0]] + tail
  }

  /** Reorders visits newest first (the database's descending sort on `visitedAt`). */
  function {:induction false} SortNewestFirst(s: seq<Visit>): (r: seq<Visit>)
    ensures NewestFirst(r)
    ensures multiset(r) == multiset(s)
  {
    if s == [] then []
    else
      assert s == [s[0]] + s[1..];
      InsertNewestFirst(s[0], SortNewestFirst(s[1..]))
  }

  /** The database's `limit`: zero places no bound. */
  function Limit(s: seq<Visit>, limit: nat): (r: seq<Visit>)
    ensures limit > 0 ==> |r| == if |s| <= limit then |s| else limit
    ensures limit == 0 ==> r == s
    ensures r <= s
  {
    if limit == 0 || |s| <= limit then s else s[..limit]
  }

  /** A prefix of a newest-first sequence is newest-first and draws only on it. */
  lemma PrefixOfNewestFirst(s: seq<Visit>, p: seq<Visit>)
    requires NewestFirst(s) && p <= s
    ensures NewestFirst(p)
    ensures multiset(p) <= multiset(s)
    ensures forall x :: x in p ==> x in s
  {
    assert s == p + s[|p|..];
  }

  /**
   * The visits received by `email`, newest first, at most `limit` of them
   * (no bound when `limit` is zero).
   */
  function GetUserVisits(log: VisitLog, email: Email, limit: nat): (r: seq<Visit>)
    ensures forall v :: v in r ==> v.visitedUserEmail == email && v in log
    ensures NewestFirst(r)
    ensures limit > 0 ==> |r| <= limit
    ensures multiset(r) <= multiset(VisitsTo(log, email))
    ensures limit == 0 || |VisitsTo(log, email)| <= limit ==> multiset(r) == multiset(VisitsTo(log, email))
    ensures limit > 0 && |VisitsTo(log, email)| > limit ==> |r| == limit
  {
    var matching := VisitsTo(log, email);
    var sorted := SortNewestFirst(matching);
    var r := Limit(sorted, limit);
    PrefixOfNewestFirst(sorted, r);
    assert |sorted| == |matching| by {
      assert |multiset(sorted)| == |multiset(matching)|;
    }
    forall v | v in r
      ensures v in matching
    {
      assert v in multiset(sorted);
    }
    r
  }

  /** What a prefix of a newest-first sequence leaves out is no newer than what it keeps. */
  lemma {:induction false} PrefixKeepsNewest(s: seq<Visit>, p: seq<Visit>, v: Visit, w: Visit)
    requires NewestFirst(s) && p <= s
    requires v in multiset(s) - multiset(p) && w in p
    ensures v.visitedAt <= w.visitedAt
  {
    var rest := s[|p|..];
    assert s == p + rest;
    assert multiset(s) == multiset(p) + multiset(rest);
    assert v in rest;
    var j :| 0 <= j < |rest| && rest[j] == v;
    var i :| 0 <= i < |p| && p[i] == w;
    assert s[i] == w && s[|p| + j] == v;
  }

  /**
   * The listing keeps the most recent visits: no visit to `email` that it
   * leaves out is newer than one it returns.
   */
  lemma {:induction false} GetUserVisitsKeepsMostRecent(log: VisitLog, email: Email, limit: nat)
    ensures var r := GetUserVisits(log, email, limit);
      forall v, w :: v in multiset(VisitsTo(log, email)) - multiset(r) && w in r ==> v.visitedAt <= w.visitedAt
  {
    var sorted := SortNewestFirst(VisitsTo(log, email));
    var r := GetUserVisits(log, email, limit);
    assert r == Limit(sorted, limit);
    forall v, w | v in multiset(VisitsTo(log, email)) - multiset(r) && w in r
      ensures v.visitedAt <= w.visitedAt
    {
      PrefixKeepsNewest(sorted, r, v, w);
    }
  }

  /** Filtering a log with one more visit at the end filters the old log, then that visit. */
  lemma {:induction false} VisitsToAppend(log: VisitLog, v: Visit, email: Email)
    ensures VisitsTo(log + [v], email)
      == VisitsTo(log, email) + (if v.visitedUserEmail == email then [v] else [])
  {
    if log == [] {
      assert [] + [v] == [v];
      assert [v][1..] == [];
    } else {
      assert (log + [v])[0] == log[0];
      assert (log + [v])[1..] == log[1..] + [v];
      VisitsToAppend(log[1..], v, email);
    }
  }

  /**
   * Recording a visit to `visited`'s map adds exactly that visit, at the
   * end, to the visits `visited` received, and changes nobody else's.
   */
  lemma RecordedVisitIsReceived(log: VisitLog, visited: Email, visitor: Email, oauthId: string, now: Time, other: Email)
    requires other != visited
    ensures var (log', v) := CreateVisit(log, visited, visitor, oauthId, now);
      && VisitsTo(log', visited) == VisitsTo(log, visited) + [v]
      && VisitsTo(log', other) == VisitsTo(log, other)
  {
    var (log', v) := CreateVisit(log, visited, visitor, oauthId, now);
    assert log' == log + [v];
    VisitsToAppend(log, v, visited);
    VisitsToAppend(log, v, other);
  }

  /**
   * A visit stamped strictly later than every earlier one is the first
   * entry of the listing, whatever the limit.
   */
  lemma NewestVisitListedFirst(log: VisitLog, visited: Email, visitor: Email, oauthId: string, now: Time, limit: nat)
    requires forall w :: w in log ==> w.visitedAt < now
    ensures var (log', v) := CreateVisit(log, visited, visitor, oauthId, now);
      var r := GetUserVisits(log', visited, limit);
      |r| > 0 && r[0] == v
  {
    var (log', v) := CreateVisit(log, visited, visitor, oauthId, now);
    assert log' == log + [v];
    VisitsToAppend(log, v, visited);
    var matching := VisitsTo(log', visited);
    var sorted := SortNewestFirst(matching);
    assert v in multiset(sorted);
    HeadIsNewest(sorted);
    assert sorted[0] in multiset(matching);
    assert GetUserVisits(log', visited, limit) == Limit(sorted, limit);
  }
}
