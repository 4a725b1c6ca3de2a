/** The date-voting engine of the client's availability tab
    (frontend/frontend/src/components/Availability/AvailabilityTab.jsx):
    the trip's candidate dates, each date's group score, the top three
    dates, a member's status on a date, the click cycle, and the local list
    update after a vote is saved. Dates are compared by calendar day. */
module AvailabilityTab {
  import opened Common
  import opened Calendar
  import opened AvailabilityModel
  import opened Sorting

  /** A record as the client holds it after the GET: the voter's id (from
      the populated user), the stored instant, and the status. */
  datatype Vote = Vote(user: UserId, date: int, status: Status)

  /** The points one vote adds to its day. */
  function Weight(s: Status): int {
    match s
    case Can => 3
    case Maybe => 1
    case Cannot => -2
  }

  // ---------------------------------------------------------------- dates

  /** The loop of `getDatesInRange` from `d` on: one instant per day while
      it does not pass `end`. */
  function DatesFrom(d: int, end: int): (r: seq<int>)
    ensures |r| == if end < d then 0 else (end - d) / MsPerDay + 1
    ensures forall i :: 0 <= i < |r| ==> r[i] == d + i * MsPerDay && r[i] <= end
    decreases end - d + MsPerDay
  {
    if d > end then []
    else
      var rest := DatesFrom(d + MsPerDay, end);
      assert end - d < MsPerDay ==> |rest| == 0;
      assert end - d >= MsPerDay ==> (end - d) / MsPerDay == (end - d - MsPerDay) / MsPerDay + 1;
      [d] + rest
  }

  /** `getDatesInRange()`: the candidate dates of the trip. */
  function DatesInRange(start: int, end: int): (r: seq<int>)
    ensures |r| == if end < start then 0 else (end - start) / MsPerDay + 1
    ensures forall i :: 0 <= i < |r| ==> start <= r[i] <= end
  {
    DatesFrom(start, end)
  }

  predicate StrictlyAscending(s: seq<int>) {
    forall i, j :: 0 <= i < j < |s| ==> s[i] < s[j]
  }

  /** For a trip stored at UTC midnights, the candidate dates are exactly the
      days from the first to the last, one each, in ascending order. */
  lemma DatesAreTheTripDays(start: int, end: int)
    requires start % MsPerDay == 0 && end % MsPerDay == 0 && start <= end
    ensures |DatesInRange(start, end)| == DayOf(end) - DayOf(start) + 1
    ensures forall i :: 0 <= i < |DatesInRange(start, end)| ==> DayOf(DatesInRange(start, end)[i]) == DayOf(start) + i
    ensures StrictlyAscending(DatesInRange(start, end))
  {
    var r := DatesInRange(start, end);
    assert r == DatesFrom(start, end);
    MidnightIsDayStart(start);
    MidnightIsDayStart(end);
    var n := DayOf(end) - DayOf(start);
    assert end - start == n * MsPerDay;
    assert (end - start) / MsPerDay == n by {
      DayOfShift(0, n);
    }
    forall i | 0 <= i < |r| ensures DayOf(r[i]) == DayOf(start) + i {
      DayOfShift(start, i);
    }
    forall i, j | 0 <= i < j < |r| ensures r[i] < r[j] {
      assert r[i] == start + i * MsPerDay && r[j] == start + j * MsPerDay;
    }
  }

  // ---------------------------------------------------------------- score

  /** `getDateScore(date)`: the weights of the votes cast on `day`; each
      vote moves it by at most three up or two down. */
  function Score(votes: seq<Vote>, day: int): (r: int)
    ensures -2 * |votes| <= r <= 3 * |votes|
  {
    if |votes| == 0 then 0
    else DayWeight(votes[0], day) + Score(votes[1..], day)
  }

  /** What one vote adds to `day`: its weight if it was cast on that day. */
  function DayWeight(v: Vote, day: int): int {
    if DayOf(v.date) == day then Weight(v.status) else 0
  }

  /** The number of votes with `status` on `day`. */
  function Count(votes: seq<Vote>, day: int, status: Status): nat {
    if |votes| == 0 then 0
    else (if DayOf(votes[0].date) == day && votes[0].status == status then 1 else 0) + Count(votes[1..], day, status)
  }

  /** The score is three per "can", one per "maybe", minus two per "cannot"
      among that day's votes. */
  lemma {:induction false} ScoreByCounts(votes: seq<Vote>, day: int)
    ensures Score(votes, day) == 3 * Count(votes, day, Can) + Count(votes, day, Maybe) - 2 * Count(votes, day, Cannot)
  {
    if |votes| > 0 {
      ScoreByCounts(votes[1..], day);
    }
  }

  /** A day nobody voted on scores zero, whatever the votes on other days. */
  lemma {:induction false} ScoreWithoutVotes(votes: seq<Vote>, day: int)
    requires forall i :: 0 <= i < |votes| ==> DayOf(votes[i].date) != day
    ensures Score(votes, day) == 0
  {
    if |votes| > 0 {
      ScoreWithoutVotes(votes[1..], day);
    }
  }

  lemma {:induction false} ScoreConcat(a: seq<Vote>, b: seq<Vote>, day: int)
    ensures Score(a + b, day) == Score(a, day) + Score(b, day)
  {
    if |a| == 0 {
      assert a + b == b;
    } else {
      ScoreConcat(a[1..], b, day);
      assert (a + b)[1..] == a[1..] + b;
    }
  }

  lemma MultisetRemoveAt(b: seq<Vote>, k: nat)
    requires k < |b|
    ensures multiset(b[..k] + b[k + 1..]) == multiset(b) - multiset{b[k]}
  {
    assert b == b[..k] + [b[k]] + b[k + 1..];
  }

  /** A position holding `x`. */
  lemma PositionOf(b: seq<Vote>, x: Vote) returns (k: nat)
    requires x in multiset(b)
    ensures k < |b| && b[k] == x
  {
    k :| 0 <= k < |b| && b[k] == x;
  }

  /** The score of a list is what any one record adds plus the score of the
      others. */
  lemma ScoreRemoveAt(b: seq<Vote>, k: nat, day: int)
    requires k < |b|
    ensures Score(b, day) == DayWeight(b[k], day) + Score(b[..k] + b[k + 1..], day)
  {
    assert b == b[..k] + [b[k]] + b[k + 1..];
    ScoreConcat(b[..k] + [b[k]], b[k + 1..], day);
    ScoreConcat(b[..k], [b[k]], day);
    ScoreConcat(b[..k], b[k + 1..], day);
    assert [b[k]][1..] == [];
  }

  /** Taking the same record out of two permutations leaves permutations. */
  lemma RestPermutation(a: seq<Vote>, b: seq<Vote>, k: nat)
    requires multiset(a) == multiset(b)
    requires |a| > 0 && k < |b| && b[k] == a[0]
    ensures multiset(a[1..]) == multiset(b[..k] + b[k + 1..])
  {
    calc {
      multiset(a[1..]);
    == { assert a == [a[0]] + a[1..]; }
      multiset(a) - multiset{a[0]};
    ==
      multiset(b) - multiset{b[k]};
    == { MultisetRemoveAt(b, k); }
      multiset(b[..k] + b[k + 1..]);
    }
  }

  /** Lists that agree on one record and score alike without it score alike. */
  lemma ScorePermStep(a: seq<Vote>, b: seq<Vote>, k: nat, day: int)
    requires |a| > 0 && k < |b| && b[k] == a[0]
    requires Score(a[1..], day) == Score(b[..k] + b[k + 1..], day)
    ensures Score(a, day) == Score(b, day)
  {
    ScoreRemoveAt(b, k, day);
  }

  /** The score depends on the records only, not on the order the store
      returned them in. */
  lemma {:induction false} ScoreIgnoresOrder(a: seq<Vote>, b: seq<Vote>, day: int)
    requires multiset(a) == multiset(b)
    ensures Score(a, day) == Score(b, day)
    decreases |a|
  {
    if |a| > 0 {
      var k := PositionOf(b, a[0]);
      RestPermutation(a, b, k);
      ScoreIgnoresOrder(a[1..], b[..k] + b[k + 1..], day);
      ScorePermStep(a, b, k, day);
    } else {
      assert |multiset(b)| == 0;
    }
  }

  // -------------------------------------------------------------- ranking

  /** A candidate date with its group score. */
  datatype Ranked = Ranked(date: int, score: int)

  function ScoreOf(e: Ranked): int {
    e.score
  }

  function Scored(dates: seq<int>, votes: seq<Vote>): (r: seq<Ranked>)
    ensures |r| == |dates|
    ensures forall i :: 0 <= i < |r| ==> r[i] == Ranked(dates[i], Score(votes, DayOf(dates[i])))
  {
    if |dates| == 0 then []
    else [Ranked(dates[0], Score(votes, DayOf(dates[0])))] + Scored(dates[1..], votes)
  }

  function Min(a: int, b: int): int {
    if a < b then a else b
  }

  /** `rankedDates`: the dates sorted by score, highest first, with the
      stable sort, cut to the first three. */
  function RankedDates(dates: seq<int>, votes: seq<Vote>): (r: seq<Ranked>)
    ensures |r| == Min(3, |dates|)
    ensures forall i :: 0 <= i < |r| ==> r[i].date in dates && r[i].score == Score(votes, DayOf(r[i].date))
    ensures forall i, j :: 0 <= i < j < |r| ==> r[i].score >= r[j].score
  {
    var all := Scored(dates, votes);
    var sorted := SortDesc(all, ScoreOf);
    SortedAreScored(dates, votes);
    sorted[..Min(3, |sorted|)]
  }

  /** `e` is one of the candidate dates with its own score. */
  predicate ScoredFrom(e: Ranked, dates: seq<int>, votes: seq<Vote>) {
    e.date in dates && e.score == Score(votes, DayOf(e.date))
  }

  /** Sorting only reorders the scored dates. */
  lemma SortedAreScored(dates: seq<int>, votes: seq<Vote>)
    ensures forall i :: 0 <= i < |SortDesc(Scored(dates, votes), ScoreOf)| ==>
              ScoredFrom(SortDesc(Scored(dates, votes), ScoreOf)[i], dates, votes)
  {
    var all := Scored(dates, votes);
    var sorted := SortDesc(all, ScoreOf);
    forall i | 0 <= i < |sorted| ensures ScoredFrom(sorted[i], dates, votes) {
      assert sorted[i] in multiset(all);
      var j :| 0 <= j < |all| && all[j] == sorted[i];
    }
  }

  /** The ranking order: a higher score first, and on equal scores the
      earlier date first. */
  predicate Precedes(a: Ranked, b: Ranked) {
    a.score > b.score || (a.score == b.score && a.date < b.date)
  }

  predicate RankOrdered(s: seq<Ranked>) {
    forall i, j :: 0 <= i < j < |s| ==> Precedes(s[i], s[j])
  }

  /** An element that precedes every later one can lead an ordered list. */
  lemma ConsRankOrdered(h: Ranked, rest: seq<Ranked>)
    requires RankOrdered(rest)
    requires forall e :: e in rest ==> Precedes(h, e)
    ensures RankOrdered([h] + rest)
  {
    var r := [h] + rest;
    forall i, j | 0 <= i < j < |r| ensures Precedes(r[i], r[j]) {
      if i == 0 {
        assert r[j] == rest[j - 1];
      } else {
        assert r[i] == rest[i - 1] && r[j] == rest[j - 1];
      }
    }
  }

  lemma {:induction false} InsertRankOrdered(x: Ranked, l: seq<Ranked>)
    requires RankOrdered(l)
    requires forall e :: e in l ==> x.date < e.date
    ensures RankOrdered(Insert(x, l, ScoreOf))
  {
    if |l| == 0 || l[0].score <= x.score {
      forall e | e in l ensures Precedes(x, e) {
        var k :| 0 <= k < |l| && l[k] == e;
        if k > 0 {
          assert Precedes(l[0], l[k]);
        }
      }
      ConsRankOrdered(x, l);
    } else {
      var rest := Insert(x, l[1..], ScoreOf);
      InsertRankOrdered(x, l[1..]);
      forall e | e in rest ensures Precedes(l[0], e) {
        assert e in multiset(rest);
        assert e == x || e in multiset(l[1..]);
        if e != x {
          var k :| 0 <= k < |l[1..]| && l[1..][k] == e;
          assert l[k + 1] == e;
        }
      }
      ConsRankOrdered(l[0], rest);
    }
  }

  predicate DatesAscending(s: seq<Ranked>) {
    forall i, j :: 0 <= i < j < |s| ==> s[i].date < s[j].date
  }

  /** Sorting a chronological list stably by score yields the ranking
      order: among equal scores the earlier date stays ahead. */
  lemma {:induction false} StableSortRanks(s: seq<Ranked>)
    requires DatesAscending(s)
    ensures RankOrdered(SortDesc(s, ScoreOf))
  {
    if |s| > 0 {
      var rest := SortDesc(s[1..], ScoreOf);
      StableSortRanks(s[1..]);
      forall e | e in rest ensures s[0].date < e.date {
        assert e in multiset(s[1..]);
      }
      InsertRankOrdered(s[0], rest);
    }
  }

  lemma ScoredAscending(dates: seq<int>, votes: seq<Vote>)
    requires StrictlyAscending(dates)
    ensures DatesAscending(Scored(dates, votes))
  {
  }

  /** Over the chronological candidate dates, equal scores in the top list
      appear in date order. */
  lemma RankedTieBreak(dates: seq<int>, votes: seq<Vote>)
    requires StrictlyAscending(dates)
    ensures RankOrdered(RankedDates(dates, votes))
  {
    ScoredAscending(dates, votes);
    StableSortRanks(Scored(dates, votes));
  }

  /** In a rank-ordered list, whatever lies beyond a prefix ranks behind
      every element of the prefix. */
  lemma BeyondPrefixRanksBehind(sorted: seq<Ranked>, k: nat, e: Ranked)
    requires RankOrdered(sorted) && k <= |sorted|
    requires e in sorted
    requires forall i :: 0 <= i < k ==> sorted[i] != e
    ensures forall i :: 0 <= i < k ==> Precedes(sorted[i], e)
  {
    var q :| 0 <= q < |sorted| && sorted[q] == e;
  }

  /** Every candidate date left out of the top list ranks behind each
      date in it: a lower score, or an equal score and a later date. */
  lemma RankedAreTop(dates: seq<int>, votes: seq<Vote>, d: int)
    requires StrictlyAscending(dates)
    requires d in dates
    requires forall i :: 0 <= i < |RankedDates(dates, votes)| ==> RankedDates(dates, votes)[i].date != d
    ensures forall i :: 0 <= i < |RankedDates(dates, votes)| ==>
              Precedes(RankedDates(dates, votes)[i], Ranked(d, Score(votes, DayOf(d))))
  {
    var top := RankedDates(dates, votes);
    var all := Scored(dates, votes);
    var sorted := SortDesc(all, ScoreOf);
    assert top == sorted[..Min(3, |sorted|)];
    ScoredAscending(dates, votes);
    StableSortRanks(all);
    var e := Ranked(d, Score(votes, DayOf(d)));
    assert e in sorted by {
      var p :| 0 <= p < |dates| && dates[p] == d;
      assert all[p] == e;
      assert e in multiset(all);
    }
    forall i | 0 <= i < |top| ensures sorted[i] != e {
      assert top[i] == sorted[i];
    }
    BeyondPrefixRanksBehind(sorted, |top|, e);
  }

  /** A five-day trip with three members: A can on days 2 and 3, B maybe on
      day 2 and cannot on day 3, C silent. */
  function ExampleVotes(): seq<Vote> {
    [Vote("A", MsPerDay, Can), Vote("A", 2 * MsPerDay, Can),
     Vote("B", MsPerDay, Maybe), Vote("B", 2 * MsPerDay, Cannot)]
  }

  lemma ExampleDates()
    ensures DatesInRange(0, 4 * MsPerDay) == [0, MsPerDay, 2 * MsPerDay, 3 * MsPerDay, 4 * MsPerDay]
  {
  }

  lemma ExampleScores(day: int)
    ensures Score(ExampleVotes(), day) == (if day == 1 then 4 else if day == 2 then 1 else 0)
  {
    var votes := ExampleVotes();
    assert DayOf(MsPerDay) == 1 && DayOf(2 * MsPerDay) == 2;
    assert Score(votes[3..], day) == (if day == 2 then -2 else 0);
    assert Score(votes[2..], day) == (if day == 1 then 1 else if day == 2 then -2 else 0);
    assert Score(votes[1..], day) == (if day == 1 then 1 else if day == 2 then 1 else 0);
  }

  lemma SortStep(all: seq<Ranked>, k: nat)
    requires k < |all|
    ensures SortDesc(all[k..], ScoreOf) == Insert(all[k], SortDesc(all[k + 1..], ScoreOf), ScoreOf)
  {
    assert all[k..][0] == all[k] && all[k..][1..] == all[k + 1..];
  }

  /** `x` goes to the front when the first element does not outrank it. */
  lemma InsertFront(x: Ranked, l: seq<Ranked>)
    requires |l| == 0 || l[0].score <= x.score
    ensures Insert(x, l, ScoreOf) == [x] + l
  {
  }

  /** A suffix already in order stays put when the element in front of it
      is not outranked by its head. */
  lemma SortedSuffixStep(all: seq<Ranked>, k: nat)
    requires k < |all|
    requires SortDesc(all[k + 1..], ScoreOf) == all[k + 1..]
    requires k + 1 == |all| || all[k + 1].score <= all[k].score
    ensures SortDesc(all[k..], ScoreOf) == all[k..]
  {
    SortStep(all, k);
    InsertFront(all[k], all[k + 1..]);
    assert [all[k]] + all[k + 1..] == all[k..];
  }

  lemma ExampleTail(all: seq<Ranked>)
    requires |all| == 5
    requires all[1].score == 4 && all[2].score == 1 && all[3].score == 0 && all[4].score == 0
    ensures SortDesc(all[1..], ScoreOf) == all[1..]
  {
    assert all[5..] == [];
    SortedSuffixStep(all, 4);
    SortedSuffixStep(all, 3);
    SortedSuffixStep(all, 2);
    SortedSuffixStep(all, 1);
  }

  /** `x` moves past a head that outranks it. */
  lemma InsertBehind(x: Ranked, l: seq<Ranked>)
    requires |l| > 0 && l[0].score > x.score
    ensures Insert(x, l, ScoreOf) == [l[0]] + Insert(x, l[1..], ScoreOf)
  {
  }

  /** An element outranked by the first two of a list lands third. */
  lemma InsertThird(x: Ranked, l: seq<Ranked>)
    requires |l| >= 2 && l[0].score > x.score && l[1].score > x.score
    requires |l| == 2 || l[2].score <= x.score
    ensures Insert(x, l, ScoreOf)[..3] == [l[0], l[1], x]
  {
    InsertBehind(x, l);
    InsertBehind(x, l[1..]);
    assert l[1..][1..] == l[2..];
    InsertFront(x, l[2..]);
    var r := [l[0]] + ([l[1]] + ([x] + l[2..]));
    assert Insert(x, l, ScoreOf) == r;
    assert r[0] == l[0] && r[1] == l[1] && r[2] == x;
  }

  lemma ExampleSort(all: seq<Ranked>)
    requires |all| == 5
    requires all[0].score == 0 && all[1].score == 4 && all[2].score == 1 && all[3].score == 0 && all[4].score == 0
    ensures SortDesc(all, ScoreOf)[..3] == [all[1], all[2], all[0]]
  {
    ExampleTail(all);
    SortStep(all, 0);
    assert all[0..] == all;
    var t := all[1..];
    assert t[0] == all[1] && t[1] == all[2] && t[2] == all[3];
    InsertThird(all[0], t);
  }

  /** Day 2 scores 4, day 3 scores 1, the rest 0; day 1 takes third place
      ahead of days 4 and 5 because it comes first. (Dates here are given
      as day numbers times `MsPerDay` from day 0.) */
  lemma FiveDayExample()
    ensures
      var D := MsPerDay;
      RankedDates(DatesInRange(0, 4 * D), ExampleVotes()) == [Ranked(D, 4), Ranked(2 * D, 1), Ranked(0, 0)]
  {
    var D := MsPerDay;
    var dates := DatesInRange(0, 4 * D);
    ExampleDates();
    assert DayOf(0) == 0 && DayOf(D) == 1 && DayOf(2 * D) == 2 && DayOf(3 * D) == 3 && DayOf(4 * D) == 4;
    ExampleScores(0);
    ExampleScores(1);
    ExampleScores(2);
    ExampleScores(3);
    ExampleScores(4);
    var all := Scored(dates, ExampleVotes());
    assert all == [Ranked(0, 0), Ranked(D, 4), Ranked(2 * D, 1), Ranked(3 * D, 0), Ranked(4 * D, 0)];
    ExampleSort(all);
  }

  // ------------------------------------------------- one member on a date

  /** The record is `user`'s vote on `day`. */
  predicate Matches(v: Vote, user: UserId, day: int) {
    v.user == user && DayOf(v.date) == day
  }

  /** `Array.prototype.find` with that test: the position of the first
      matching record. */
  function FindVote(votes: seq<Vote>, user: UserId, day: int): (r: Option<nat>)
    ensures r.None? <==> forall i :: 0 <= i < |votes| ==> !Matches(votes[i], user, day)
    ensures r.Some? ==> r.value < |votes| && Matches(votes[r.value], user, day)
    ensures r.Some? ==> forall i :: 0 <= i < r.value ==> !Matches(votes[i], user, day)
  {
    if |votes| == 0 then None
    else if Matches(votes[0], user, day) then Some(0)
    else match FindVote(votes[1..], user, day)
      case None => None
      case Some(i) => Some(i + 1)
  }

  /** `getUserStatus(date)` for the session user, and the per-member lookup
      of `getDateStatuses`: no response exactly when the member has no
      record on that day; otherwise the status of their first record. */
  function StatusOf(votes: seq<Vote>, user: UserId, day: int): (r: Option<Status>)
    ensures r.None? <==> forall i :: 0 <= i < |votes| ==> !Matches(votes[i], user, day)
    ensures r.Some? ==> exists i :: 0 <= i < |votes| && Matches(votes[i], user, day) && votes[i].status == r.value
                                    && forall j :: 0 <= j < i ==> !Matches(votes[j], user, day)
  {
    match FindVote(votes, user, day)
    case None => None
    case Some(i) => Some(votes[i].status)
  }

  datatype MemberStatus = MemberStatus(member: UserId, status: Option<Status>)

  /** `getDateStatuses(date)`: one entry per trip member, in member order. */
  function DateStatuses(members: seq<UserId>, votes: seq<Vote>, day: int): (r: seq<MemberStatus>)
    ensures |r| == |members|
    ensures forall i :: 0 <= i < |r| ==> r[i].member == members[i] && r[i].status == StatusOf(votes, members[i], day)
    ensures forall i :: 0 <= i < |r| ==>
              (r[i].status.None? <==> forall j :: 0 <= j < |votes| ==> !Matches(votes[j], members[i], day))
  {
    if |members| == 0 then []
    else [MemberStatus(members[0], StatusOf(votes, members[0], day))] + DateStatuses(members[1..], votes, day)
  }

  // ----------------------------------------------------------- the cycle

  /** `cycleStatus`: no response, can, maybe, cannot, and round again. */
  function Cycle(s: Option<Status>): (r: Option<Status>)
    ensures r != s
  {
    match s
    case None => Some(Can)
    case Some(Can) => Some(Maybe)
    case Some(Maybe) => Some(Cannot)
    case Some(Cannot) => None
  }

  lemma CycleHasPeriodFour(s: Option<Status>)
    ensures Cycle(Cycle(Cycle(Cycle(s)))) == s
    ensures Cycle(Cycle(s)) != s && Cycle(Cycle(Cycle(s))) != s
  {
  }

  /** The literal list the client indexes into. */
  const CycleOrder: seq<Option<string>> := [None, Some("can"), Some("maybe"), Some("cannot")]

  /** `Array.prototype.indexOf`: the first position of `x`, or -1. */
  function IndexOf(s: seq<Option<string>>, x: Option<string>): (i: int)
    ensures -1 <= i < |s|
    ensures i == -1 <==> x !in s
    ensures i >= 0 ==> s[i] == x && forall j :: 0 <= j < i ==> s[j] != x
  {
    if |s| == 0 then -1
    else if s[0] == x then 0
    else
      var i := IndexOf(s[1..], x);
      if i == -1 then -1 else i + 1
  }

  /** The client's code: the next entry after the current value's position,
      wrapping around; an unknown value has position -1. */
  function CycleText(current: Option<string>): (r: Option<string>)
    ensures r in CycleOrder
    ensures current in CycleOrder ==> r != current
  {
    var i := IndexOf(CycleOrder, current);
    CycleOrderDistinct();
    CycleOrder[(i + 1) % |CycleOrder|]
  }

  lemma CycleOrderDistinct()
    ensures forall i, j :: 0 <= i < j < |CycleOrder| ==> CycleOrder[i] != CycleOrder[j]
  {
    assert |"can"| == 3 && |"maybe"| == 5 && |"cannot"| == 6;
  }

  function StatusText(s: Option<Status>): Option<string> {
    match s
    case None => None
    case Some(st) => Some(StatusName(st))
  }

  /** A value first listed at position `k` is found there. */
  lemma IndexOfAt(s: seq<Option<string>>, k: nat)
    requires k < |s|
    requires forall j :: 0 <= j < k ==> s[j] != s[k]
    ensures IndexOf(s, s[k]) == k
  {
  }

  /** The step of the client's cycle from the `k`-th entry. */
  lemma CycleTextAt(k: nat)
    requires k < |CycleOrder|
    ensures CycleText(CycleOrder[k]) == CycleOrder[(k + 1) % |CycleOrder|]
  {
    assert Some("can") != Some("maybe") && Some("can") != Some("cannot") && Some("maybe") != Some("cannot") by {
      assert |"can"| == 3 && |"maybe"| == 5 && |"cannot"| == 6;
    }
    IndexOfAt(CycleOrder, k);
  }

  /** The string-level cycle agrees with `Cycle` on every status. */
  lemma CycleTextAgrees(s: Option<Status>)
    ensures CycleText(StatusText(s)) == StatusText(Cycle(s))
  {
    match s
    case None => CycleTextAt(0);
    case Some(Can) => CycleTextAt(1);
    case Some(Maybe) => CycleTextAt(2);
    case Some(Cannot) => CycleTextAt(3);
  }

  /** Any other value, being absent from the list, cycles to no response. */
  lemma CycleTextUnknown(x: string)
    requires x != "can" && x != "maybe" && x != "cannot"
    ensures CycleText(Some(x)) == None
  {
  }

  // ---------------------------------------------------- local list update

  /** The list without `user`'s records on `day`, the rest in order. */
  function WithoutVote(votes: seq<Vote>, user: UserId, day: int): (r: seq<Vote>)
    ensures forall v :: v in r <==> v in votes && !Matches(v, user, day)
    ensures |r| <= |votes|
  {
    if |votes| == 0 then []
    else if Matches(votes[0], user, day) then WithoutVote(votes[1..], user, day)
    else [votes[0]] + WithoutVote(votes[1..], user, day)
  }

  /** `handleStatusChange(date, newStatus)` after the server answered:
      clearing drops the user's records on that day; setting also appends
      the saved record, which the server keyed on the user and on the UTC
      midnight of the ISO day sent. */
  function SavedVote(user: UserId, date: int, s: Status): (v: Vote)
    ensures v.user == user && v.status == s && DayOf(v.date) == DayOf(date)
  {
    DayOfMidnight(date);
    Vote(user, Midnight(date), s)
  }

  function StatusChange(votes: seq<Vote>, user: UserId, date: int, newStatus: Option<Status>): (r: seq<Vote>)
    ensures forall v :: v in votes && !Matches(v, user, DayOf(date)) ==> v in r
    ensures forall v :: v in r && !Matches(v, user, DayOf(date)) ==> v in votes
  {
    var rest := WithoutVote(votes, user, DayOf(date));
    match newStatus
    case None => rest
    case Some(s) => rest + [SavedVote(user, date, s)]
  }

  function CountMatches(votes: seq<Vote>, user: UserId, day: int): nat {
    if |votes| == 0 then 0
    else (if Matches(votes[0], user, day) then 1 else 0) + CountMatches(votes[1..], user, day)
  }

  lemma {:induction false} CountMatchesZero(votes: seq<Vote>, user: UserId, day: int)
    requires forall i :: 0 <= i < |votes| ==> !Matches(votes[i], user, day)
    ensures CountMatches(votes, user, day) == 0
  {
    if |votes| > 0 {
      CountMatchesZero(votes[1..], user, day);
    }
  }

  lemma {:induction false} CountMatchesConcat(a: seq<Vote>, b: seq<Vote>, user: UserId, day: int)
    ensures CountMatches(a + b, user, day) == CountMatches(a, user, day) + CountMatches(b, user, day)
  {
    if |a| == 0 {
      assert a + b == b;
    } else {
      CountMatchesConcat(a[1..], b, user, day);
      assert (a + b)[1..] == a[1..] + b;
    }
  }

  /** After the change the user holds at most one record on that day: none
      after a clear, exactly the new one after a set, and the tab shows the
      status that was chosen. */
  lemma StatusChangeShowsChoice(votes: seq<Vote>, user: UserId, date: int, newStatus: Option<Status>)
    ensures StatusOf(StatusChange(votes, user, date, newStatus), user, DayOf(date)) == newStatus
    ensures CountMatches(StatusChange(votes, user, date, newStatus), user, DayOf(date))
            == (if newStatus.None? then 0 else 1)
  {
    var day := DayOf(date);
    var rest := WithoutVote(votes, user, day);
    assert forall i :: 0 <= i < |rest| ==> !Matches(rest[i], user, day) by {
      forall i | 0 <= i < |rest| ensures !Matches(rest[i], user, day) {
        assert rest[i] in rest;
      }
    }
    CountMatchesZero(rest, user, day);
    if newStatus.Some? {
      var saved := SavedVote(user, date, newStatus.value);
      assert Matches(saved, user, day);
      var r := rest + [saved];
      CountMatchesConcat(rest, [saved], user, day);
      assert r[|rest|] == saved;
      var f := FindVote(r, user, day);
      assert f == Some(|rest|);
    }
  }

  /** Clicking a date's button cycles what the tab shows for the user. */
  lemma ClickAdvancesCycle(votes: seq<Vote>, user: UserId, date: int)
    ensures
      var shown := StatusOf(votes, user, DayOf(date));
      StatusOf(StatusChange(votes, user, date, Cycle(shown)), user, DayOf(date)) == Cycle(shown)
  {
    StatusChangeShowsChoice(votes, user, date, Cycle(StatusOf(votes, user, DayOf(date))));
  }

  /** The first record matching another user or day is not touched by the
      filter, and the appended record does not match, so everybody else's
      status on every day, and the user's status on other days, stay put. */
  lemma {:induction false} WithoutVoteKeepsOthers(votes: seq<Vote>, user: UserId, day: int, other: UserId, otherDay: int)
    requires other != user || otherDay != day
    ensures StatusOf(WithoutVote(votes, user, day), other, otherDay) == StatusOf(votes, other, otherDay)
  {
    if |votes| > 0 {
      WithoutVoteKeepsOthers(votes[1..], user, day, other, otherDay);
      if Matches(votes[0], user, day) {
        assert !Matches(votes[0], other, otherDay);
      }
    }
  }

  lemma {:induction false} FindVoteAppendMiss(votes: seq<Vote>, v: Vote, user: UserId, day: int)
    requires !Matches(v, user, day)
    ensures FindVote(votes + [v], user, day) == FindVote(votes, user, day)
  {
    if |votes| == 0 {
      assert votes + [v] == [v];
    } else {
      assert (votes + [v])[1..] == votes[1..] + [v];
      FindVoteAppendMiss(votes[1..], v, user, day);
    }
  }

  lemma StatusOfAppendMiss(votes: seq<Vote>, v: Vote, user: UserId, day: int)
    requires !Matches(v, user, day)
    ensures StatusOf(votes + [v], user, day) == StatusOf(votes, user, day)
  {
    FindVoteAppendMiss(votes, v, user, day);
    var f := FindVote(votes, user, day);
    if f.Some? {
      assert (votes + [v])[f.value] == votes[f.value];
    }
  }

  lemma StatusChangeKeepsOthers(votes: seq<Vote>, user: UserId, date: int, newStatus: Option<Status>,
                                other: UserId, otherDay: int)
    requires other != user || otherDay != DayOf(date)
    ensures StatusOf(StatusChange(votes, user, date, newStatus), other, otherDay) == StatusOf(votes, other, otherDay)
  {
    var rest := WithoutVote(votes, user, DayOf(date));
    WithoutVoteKeepsOthers(votes, user, DayOf(date), other, otherDay);
    if newStatus.Some? {
      var saved := SavedVote(user, date, newStatus.value);
      assert StatusChange(votes, user, date, newStatus) == rest + [saved];
      StatusOfAppendMiss(rest, saved, other, otherDay);
    }
  }

  /** The scores of the other days do not move when a vote changes. */
  lemma {:induction false} WithoutVoteKeepsScore(votes: seq<Vote>, user: UserId, day: int, otherDay: int)
    requires otherDay != day
    ensures Score(WithoutVote(votes, user, day), otherDay) == Score(votes, otherDay)
  {
    if |votes| > 0 {
      WithoutVoteKeepsScore(votes[1..], user, day, otherDay);
    }
  }

  lemma StatusChangeKeepsOtherScores(votes: seq<Vote>, user: UserId, date: int, newStatus: Option<Status>, otherDay: int)
    requires otherDay != DayOf(date)
    ensures Score(StatusChange(votes, user, date, newStatus), otherDay) == Score(votes, otherDay)
  {
    var rest := WithoutVote(votes, user, DayOf(date));
    WithoutVoteKeepsScore(votes, user, DayOf(date), otherDay);
    if newStatus.Some? {
      var saved := SavedVote(user, date, newStatus.value);
      assert StatusChange(votes, user, date, newStatus) == rest + [saved];
      ScoreConcat(rest, [saved], otherDay);
      assert Score([saved], otherDay) == 0 by {
        assert [saved][1..] == [];
      }
    }
  }
}
