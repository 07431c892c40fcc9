/** The date choice of `handleGenerateItinerary` in `App.tsx`: count the
    "available" votes per date, take the highest count, keep the dates that
    reach it, sort them, and use the first and last as the trip window. */
module BestDates {
  import opened Text
  import opened Types

  // ---------------------------------------------------------------------------
  // The counts, as functions of the votes
  // ---------------------------------------------------------------------------

  /** A vote that the count adds to `date`. */
  predicate CountsFor(v: DateVote, date: string) {
    v.voteType == Available && v.date == date
  }

  /** The number of available votes on `date`. */
  function AvailableCount(vs: seq<DateVote>, date: string): (n: nat)
    ensures n <= |vs|
  {
    if |vs| == 0 then 0
    else AvailableCount(vs[..|vs| - 1], date) + (if CountsFor(vs[|vs| - 1], date) then 1 else 0)
  }

  /** The keys of `voteCounts` in the order they are created: each date with
      an available vote, at its first one. */
  function CountedDates(vs: seq<DateVote>): (ds: seq<string>)
  {
    if |vs| == 0 then []
    else
      var prior, v := CountedDates(vs[..|vs| - 1]), vs[|vs| - 1];
      if v.voteType == Available && v.date !in prior then prior + [v.date] else prior
  }

  /** `voteCounts` once every vote is counted. */
  function Counts(vs: seq<DateVote>): map<string, nat> {
    map d | d in CountedDates(vs) :: AvailableCount(vs, d)
  }

  /** A date is a key exactly when it has an available vote. */
  lemma {:induction false} CountedDatesMembers(vs: seq<DateVote>, date: string)
    ensures date in CountedDates(vs) <==> AvailableCount(vs, date) > 0
  {
    if |vs| > 0 {
      CountedDatesMembers(vs[..|vs| - 1], date);
    }
  }

  /** Each date is a key at most once. */
  lemma {:induction false} CountedDatesDistinct(vs: seq<DateVote>)
    ensures Distinct(CountedDates(vs))
  {
    if |vs| > 0 {
      var prior := CountedDates(vs[..|vs| - 1]);
      CountedDatesDistinct(vs[..|vs| - 1]);
      var v := vs[|vs| - 1];
      if v.voteType == Available && v.date !in prior {
        var ds := prior + [v.date];
        forall i, j | 0 <= i < j < |ds| ensures ds[i] != ds[j] {
          if j == |prior| {
            assert ds[i] == prior[i];
          } else {
            assert ds[i] == prior[i] && ds[j] == prior[j];
          }
        }
      }
    }
  }

  /** A date has an available vote exactly when some vote counts for it. */
  lemma {:induction false} AvailableCountPositive(vs: seq<DateVote>, date: string)
    ensures AvailableCount(vs, date) > 0 <==> exists v | v in vs :: CountsFor(v, date)
  {
    if |vs| > 0 {
      var init := vs[..|vs| - 1];
      AvailableCountPositive(init, date);
      assert vs == init + [vs[|vs| - 1]];
      if AvailableCount(vs, date) > 0 {
        if AvailableCount(init, date) > 0 {
          var v :| v in init && CountsFor(v, date);
          assert v in vs;
        } else {
          assert vs[|vs| - 1] in vs;
        }
      } else {
        forall v | v in vs ensures !CountsFor(v, date) {
          if v in init {
          } else {
            assert v == vs[|vs| - 1];
          }
        }
      }
    }
  }

  // ---------------------------------------------------------------------------
  // The counting loop
  // ---------------------------------------------------------------------------

  /** One more vote adds to its own date only, and appends a new key at most. */
  lemma {:induction false} CountStep(votes: seq<DateVote>, i: nat)
    requires i < |votes|
    ensures forall d :: AvailableCount(votes[..i + 1], d) ==
                        AvailableCount(votes[..i], d) + (if CountsFor(votes[i], d) then 1 else 0)
    ensures CountedDates(votes[..i + 1]) ==
            if votes[i].voteType == Available && votes[i].date !in CountedDates(votes[..i])
            then CountedDates(votes[..i]) + [votes[i].date]
            else CountedDates(votes[..i])
  {
    assert votes[..i + 1][..i] == votes[..i];
  }

  /** `votes.forEach(...)` filling `voteCounts`: the map of available-vote
      counts, and its keys in creation order. */
  method CountAvailable(votes: seq<DateVote>) returns (voteCounts: map<string, nat>, keys: seq<string>)
    ensures keys == CountedDates(votes)
    ensures voteCounts == Counts(votes)
  {
    voteCounts, keys := map[], [];
    var i := 0;
    while i < |votes|
      invariant 0 <= i <= |votes|
      invariant keys == CountedDates(votes[..i])
      invariant forall d :: d in voteCounts <==> d in keys
      invariant forall d | d in voteCounts :: voteCounts[d] == AvailableCount(votes[..i], d)
    {
      var v := votes[i];
      CountStep(votes, i);
      if v.voteType == Available {
        var prior := if v.date in voteCounts then voteCounts[v.date] else 0;
        if v.date !in voteCounts {
          keys := keys + [v.date];
          CountedDatesMembers(votes[..i], v.date);
        }
        voteCounts := voteCounts[v.date := prior + 1];
      }
      i := i + 1;
    }
    assert votes[..i] == votes;
  }

  // ---------------------------------------------------------------------------
  // Maximum, filter and sort
  // ---------------------------------------------------------------------------

  /** `Math.max(...Object.values(voteCounts), 0)`. */
  function MaxCount(keys: seq<string>, counts: map<string, nat>): (m: nat)
    requires forall k | k in keys :: k in counts
    ensures forall k | k in keys :: counts[k] <= m
    ensures m == 0 || exists k | k in keys :: counts[k] == m
  {
    if |keys| == 0 then 0
    else
      var rest := MaxCount(keys[1..], counts);
      assert forall k | k in keys[1..] :: k in keys;
      if counts[keys[0]] > rest then counts[keys[0]] else rest
  }

  /** `Object.keys(voteCounts).filter(d => voteCounts[d] === maxVotes)`. */
  function Reaching(keys: seq<string>, counts: map<string, nat>, m: nat): (r: seq<string>)
    requires forall k | k in keys :: k in counts
  {
    if |keys| == 0 then []
    else (if counts[keys[0]] == m then [keys[0]] else []) + Reaching(keys[1..], counts, m)
  }

  lemma {:induction false} ReachingMembers(keys: seq<string>, counts: map<string, nat>, m: nat, d: string)
    requires forall k | k in keys :: k in counts
    ensures d in Reaching(keys, counts, m) <==> d in keys && counts[d] == m
  {
    if |keys| > 0 {
      ReachingMembers(keys[1..], counts, m, d);
      assert keys == [keys[0]] + keys[1..];
    }
  }

  predicate Sorted(s: seq<string>) {
    forall i, j | 0 <= i < j < |s| :: LessEq(s[i], s[j])
  }

  /** Places `x` before the first element it does not exceed. */
  function Insert(x: string, s: seq<string>): (r: seq<string>)
    ensures multiset(r) == multiset(s) + multiset{x}
  {
    if |s| == 0 then [x]
    else if LessEq(x, s[0]) then [x] + s
    else
      assert s == [s[0]] + s[1..];
      [s[0]] + Insert(x, s[1..])
  }

  /** `.sort()` with the default string order. */
  function Sort(s: seq<string>): (r: seq<string>)
    ensures multiset(r) == multiset(s)
  {
    if |s| == 0 then []
    else
      assert s == [s[0]] + s[1..];
      Insert(s[0], Sort(s[1..]))
  }

  lemma {:induction false} LessEqTransitive(a: string, b: string, c: string)
    requires LessEq(a, b) && LessEq(b, c)
    ensures LessEq(a, c)
  {
    if Less(a, b) && Less(b, c) {
      LessTransitive(a, b, c);
    }
  }

  lemma {:induction false} InsertSorted(x: string, s: seq<string>)
    requires Sorted(s)
    ensures Sorted(Insert(x, s))
  {
    if |s| == 0 {
    } else if LessEq(x, s[0]) {
      var r := [x] + s;
      forall i, j | 0 <= i < j < |r| ensures LessEq(r[i], r[j]) {
        if i == 0 {
          if j > 1 { LessEqTransitive(x, s[0], s[j - 1]); }
        } else {
          assert r[i] == s[i - 1] && r[j] == s[j - 1];
        }
      }
    } else {
      LessTrichotomy(x, s[0]);
      var tail := Insert(x, s[1..]);
      InsertSorted(x, s[1..]);
      forall y | y in tail ensures LessEq(s[0], y) {
        assert y in multiset(tail);
        if y != x {
          assert y in multiset(s[1..]);
          var k :| 0 <= k < |s[1..]| && s[1..][k] == y;
          assert s[k + 1] == y;
        }
      }
      var r := [s[0]] + tail;
      forall i, j | 0 <= i < j < |r| ensures LessEq(r[i], r[j]) {
        if i == 0 {
          assert r[j] == tail[j - 1];
          assert r[j] in tail;
        } else {
          assert r[i] == tail[i - 1] && r[j] == tail[j - 1];
        }
      }
    }
  }

  lemma {:induction false} SortSorted(s: seq<string>)
    ensures Sorted(Sort(s))
  {
    if |s| > 0 {
      SortSorted(s[1..]);
      InsertSorted(s[0], Sort(s[1..]));
    }
  }

  // ---------------------------------------------------------------------------
  // The outcome
  // ---------------------------------------------------------------------------

  /** What the handler does: alert that no date is available, return
      silently when the first best date is empty, or ask for a plan over a
      window of dates. */
  datatype Choice = NoAvailableDate | NoStart | Window(start: string, end: string)

  /** The choice made from the counts and their keys. */
  function Choose(keys: seq<string>, counts: map<string, nat>): (c: Choice)
    requires forall k | k in keys :: k in counts
    // the alert is given exactly when no key has a positive count
    ensures c.NoAvailableDate? <==> forall k | k in keys :: counts[k] == 0
    // no start only when the empty key carries the highest positive count
    ensures c.NoStart? ==> "" in keys && counts[""] > 0 && forall k | k in keys :: counts[k] <= counts[""]
    // both ends of the window are keys with the highest positive count
    ensures c.Window? ==>
              && c.start in keys && c.end in keys && counts[c.start] > 0 && counts[c.end] == counts[c.start]
              && forall k | k in keys :: counts[k] <= counts[c.start]
  {
    var maxVotes := MaxCount(keys, counts);
    if maxVotes == 0 then NoAvailableDate
    else
      var reach := Reaching(keys, counts, maxVotes);
      var bestDates := Sort(reach);
      var k :| k in keys && counts[k] == maxVotes;
      ReachingMembers(keys, counts, maxVotes, k);
      assert k in multiset(bestDates);
      if |bestDates| == 0 || bestDates[0] == "" then
        assert bestDates[0] in multiset(reach);
        ReachingMembers(keys, counts, maxVotes, bestDates[0]);
        NoStart
      else
        assert bestDates[0] in multiset(reach) && bestDates[|bestDates| - 1] in multiset(reach);
        ReachingMembers(keys, counts, maxVotes, bestDates[0]);
        ReachingMembers(keys, counts, maxVotes, bestDates[|bestDates| - 1]);
        Window(bestDates[0], bestDates[|bestDates| - 1])
  }

  /** The choice made from the votes. */
  function ChooseFor(votes: seq<DateVote>): (c: Choice)
    // a window starts and ends on dates with the most "available" votes
    ensures c.Window? ==> IsBest(votes, c.start) && IsBest(votes, c.end)
  {
    var keys, counts := CountedDates(votes), Counts(votes);
    var c := Choose(keys, counts);
    if c.Window? then
      CountedDatesMembers(votes, c.start);
      CountedDatesMembers(votes, c.end);
      forall e ensures AvailableCount(votes, e) <= counts[c.start] {
        MaxIsHighest(votes, e);
        CountedDatesMembers(votes, e);
      }
      c
    else c
  }

  /** The best dates of the votes, sorted. */
  function BestDatesOf(votes: seq<DateVote>): seq<string> {
    var keys, counts := CountedDates(votes), Counts(votes);
    Sort(Reaching(keys, counts, MaxCount(keys, counts)))
  }

  /** No date's available count exceeds the maximum of the counts. */
  lemma {:induction false} MaxIsHighest(votes: seq<DateVote>, e: string)
    ensures AvailableCount(votes, e) <= MaxCount(CountedDates(votes), Counts(votes))
  {
    CountedDatesMembers(votes, e);
    if e in CountedDates(votes) {
      assert Counts(votes)[e] == AvailableCount(votes, e);
    }
  }

  /** A date with an available vote and no date with more. */
  ghost predicate IsBest(votes: seq<DateVote>, d: string) {
    AvailableCount(votes, d) > 0 && forall e :: AvailableCount(votes, e) <= AvailableCount(votes, d)
  }

  /** The best dates come out in the default string order. */
  lemma {:induction false} BestDatesSorted(votes: seq<DateVote>)
    ensures Sorted(BestDatesOf(votes))
  {
    var keys, counts := CountedDates(votes), Counts(votes);
    SortSorted(Reaching(keys, counts, MaxCount(keys, counts)));
  }

  /** The best dates are exactly the dates whose available
      count is positive and highest. */
  lemma {:induction false} BestDatesExact(votes: seq<DateVote>, d: string)
    ensures d in BestDatesOf(votes) <==> IsBest(votes, d)
  {
    var keys, counts := CountedDates(votes), Counts(votes);
    var m := MaxCount(keys, counts);
    var reach := Reaching(keys, counts, m);
    assert BestDatesOf(votes) == Sort(reach);
    assert d in BestDatesOf(votes) <==> d in reach by {
      assert d in BestDatesOf(votes) <==> d in multiset(BestDatesOf(votes));
    }
    ReachingMembers(keys, counts, m, d);
    CountedDatesMembers(votes, d);
    forall e ensures AvailableCount(votes, e) <= m {
      MaxIsHighest(votes, e);
    }
    if d in reach {
      assert counts[d] == AvailableCount(votes, d) == m;
    }
    if IsBest(votes, d) {
      var k :| k in keys && counts[k] == m;
      assert counts[k] == AvailableCount(votes, k);
      assert counts[d] == AvailableCount(votes, d);
      assert d in reach;
    }
  }

  /** The handler alerts exactly when no vote is "available". */
  lemma {:induction false} NoAvailableDateIff(votes: seq<DateVote>)
    ensures ChooseFor(votes) == NoAvailableDate <==> forall v | v in votes :: v.voteType != Available
  {
    var keys, counts := CountedDates(votes), Counts(votes);
    var m := MaxCount(keys, counts);
    if m == 0 {
      forall v | v in votes ensures v.voteType != Available {
        AvailableCountPositive(votes, v.date);
        CountedDatesMembers(votes, v.date);
      }
    } else {
      var k :| k in keys && counts[k] == m;
      CountedDatesMembers(votes, k);
      AvailableCountPositive(votes, k);
    }
  }

  /** The window runs from the smallest to the largest best date, so its start
      does not sort after its end, and both reach the highest count. */
  lemma {:induction false} WindowOrdered(votes: seq<DateVote>)
    requires ChooseFor(votes).Window?
    ensures var w := ChooseFor(votes);
            && LessEq(w.start, w.end)
            && w.start in BestDatesOf(votes) && w.end in BestDatesOf(votes)
            && forall d | d in BestDatesOf(votes) :: LessEq(w.start, d) && LessEq(d, w.end)
  {
    var best := BestDatesOf(votes);
    BestDatesSorted(votes);
    forall d | d in best ensures LessEq(best[0], d) && LessEq(d, best[|best| - 1]) {
      var k :| 0 <= k < |best| && best[k] == d;
      assert k == 0 || LessEq(best[0], best[k]);
      assert k == |best| - 1 || LessEq(best[k], best[|best| - 1]);
    }
  }

  /** `handleGenerateItinerary` up to the plan request. */
  method ChooseWindow(votes: seq<DateVote>) returns (c: Choice)
    ensures c == ChooseFor(votes)
  {
    var voteCounts, keys := CountAvailable(votes);
    c := Choose(keys, voteCounts);
  }
}
