/** The voting calendar of `components/Calendar.tsx`: the per-day vote
    statistics, the heatmap tier of a cell, the perfect-match crown and which
    clicks reach `onVote`. The grid is `MonthGrid.BuildMonth`. */
module CalendarView {
  import opened Wrappers
  import opened Types
  import opened CalendarDates
  import opened DateUtils
  import opened MonthGrid

  // ---------------------------------------------------------------------------
  // getDayStats
  // ---------------------------------------------------------------------------

  /** `votes.filter(v => v.date === isoDate)`. */
  function VotesOn(votes: seq<DateVote>, iso: string): (r: seq<DateVote>)
    ensures |r| <= |votes|
    ensures forall v :: v in r <==> v in votes && v.date == iso
  {
    if |votes| == 0 then []
    else (if votes[0].date == iso then [votes[0]] else []) + VotesOn(votes[1..], iso)
  }

  /** `dateVotes.filter(v => v.type === t).length`. */
  function CountOfType(vs: seq<DateVote>, t: VoteType): (n: nat)
    ensures n <= |vs|
    ensures n == 0 <==> forall v | v in vs :: v.voteType != t
  {
    if |vs| == 0 then 0
    else (if vs[0].voteType == t then 1 else 0) + CountOfType(vs[1..], t)
  }

  /** Every vote is of one of the two types, so the two counts add up to the
      number of votes on the day. */
  lemma {:induction false} CountsCover(vs: seq<DateVote>)
    ensures CountOfType(vs, Available) + CountOfType(vs, Unavailable) == |vs|
  {
    if |vs| > 0 {
      CountsCover(vs[1..]);
    }
  }

  /** The index `find(v => v.userId === user)` stops at. */
  function FirstIndexOf(vs: seq<DateVote>, user: string): (r: Option<nat>)
    ensures r.None? <==> forall v | v in vs :: v.userId != user
    ensures r.Some? ==> r.value < |vs| && vs[r.value].userId == user &&
                        forall j | 0 <= j < r.value :: vs[j].userId != user
  {
    if |vs| == 0 then None
    else if vs[0].userId == user then Some(0)
    else match FirstIndexOf(vs[1..], user)
      case None => None
      case Some(i) => Some(i + 1)
  }

  /** What `getDayStats(isoDate)` returns. */
  datatype DayStats = DayStats(availableCount: nat, unavailableCount: nat, myVote: Option<VoteType>,
                               dateVotes: seq<DateVote>)

  /** `getDayStats(isoDate)`: the day's votes, the count of each type and the
      type of the current user's first vote on the day. */
  function GetDayStats(votes: seq<DateVote>, iso: string, me: string): (st: DayStats)
    ensures st.dateVotes == VotesOn(votes, iso)
    ensures st.availableCount + st.unavailableCount == |st.dateVotes|
    ensures st.myVote.None? <==> forall v | v in votes :: !(v.date == iso && v.userId == me)
    ensures st.myVote.Some? ==>
              exists i | 0 <= i < |st.dateVotes| ::
                st.dateVotes[i].userId == me && st.dateVotes[i].voteType == st.myVote.value &&
                forall j | 0 <= j < i :: st.dateVotes[j].userId != me
  {
    var dateVotes := VotesOn(votes, iso);
    CountsCover(dateVotes);
    var myVote := match FirstIndexOf(dateVotes, me)
      case None => None
      case Some(i) => Some(dateVotes[i].voteType);
    DayStats(CountOfType(dateVotes, Available), CountOfType(dateVotes, Unavailable), myVote, dateVotes)
  }

  // ---------------------------------------------------------------------------
  // getCellStyles: the heatmap
  // ---------------------------------------------------------------------------

  /** The background of a current-month cell, from the crown down to no votes. */
  datatype Heat = Perfect | Heat75 | Heat50 | Heat25 | HeatLow | OnlyUnavailable | NoVotes

  /** The order of the tiers: no availability, any, a quarter, a half, three
      quarters, everyone. */
  function Rank(h: Heat): nat {
    match h
    case NoVotes => 0
    case OnlyUnavailable => 0
    case HeatLow => 1
    case Heat25 => 2
    case Heat50 => 3
    case Heat75 => 4
    case Perfect => 5
  }

  /** `isPerfectMatch`: somebody takes part and everybody is available. */
  predicate IsPerfectMatch(a: nat, n: nat) {
    n > 0 && a == n
  }

  /** The heatmap branch of `getCellStyles` for `a` available and `u`
      unavailable votes among `n` participants; `a / n >= 0.75` and the other
      thresholds are compared by cross-multiplication. */
  function HeatOf(a: nat, u: nat, n: nat): (h: Heat)
    ensures h == Perfect <==> IsPerfectMatch(a, n)
    // the rose "only unavailable" background
    ensures h == OnlyUnavailable <==> a == 0 && u > 0
    ensures h == NoVotes <==> (a == 0 && u == 0) || (n == 0 && a > 0)
  {
    if IsPerfectMatch(a, n) then Perfect
    else if n > 0 && a > 0 then
      (if 4 * a >= 3 * n then Heat75
       else if 2 * a >= n then Heat50
       else if 4 * a >= n then Heat25
       else HeatLow)
    else if a == 0 && u > 0 then OnlyUnavailable
    else NoVotes
  }

  /** The integer thresholds are the source's ratio thresholds. */
  lemma {:induction false} HeatMatchesRatio(a: nat, u: nat, n: nat)
    requires 0 < a && 0 < n && a != n
    ensures var r := (a as real) / (n as real);
            && (HeatOf(a, u, n) == Heat75 <==> r >= 0.75)
            && (HeatOf(a, u, n) == Heat50 <==> 0.5 <= r < 0.75)
            && (HeatOf(a, u, n) == Heat25 <==> 0.25 <= r < 0.5)
            && (HeatOf(a, u, n) == HeatLow <==> r < 0.25)
  {
    var r := (a as real) / (n as real);
    RatioAtLeast(a, n, 3, 4);
    RatioAtLeast(a, n, 1, 2);
    RatioAtLeast(a, n, 1, 4);
  }

  /** `a / n >= p / q` exactly when `q * a >= p * n`. */
  lemma {:induction false} RatioAtLeast(a: nat, n: nat, p: nat, q: nat)
    requires 0 < n && 0 < q
    ensures (a as real) / (n as real) >= (p as real) / (q as real) <==> q * a >= p * n
  {
    var r, s := (a as real) / (n as real), (p as real) / (q as real);
    assert r * (n as real) == a as real;
    assert s * (q as real) == p as real;
    assert (q * a) as real == (q as real) * (a as real);
    assert (p * n) as real == (p as real) * (n as real);
    assert (q as real) * (a as real) - (p as real) * (n as real) == (r - s) * (q as real) * (n as real);
    assert 0.0 < (q as real) * (n as real);
    if r >= s {
      assert (r - s) * ((q as real) * (n as real)) >= 0.0;
    } else {
      assert (s - r) * ((q as real) * (n as real)) > 0.0;
    }
  }

  /** With the participants fixed, more available votes never lower the tier. */
  lemma {:induction false} HeatMonotone(a: nat, u: nat, b: nat, w: nat, n: nat)
    requires a <= b <= n
    ensures Rank(HeatOf(a, u, n)) <= Rank(HeatOf(b, w, n))
  {
  }

  /** A cell's look: grey outside the shown month; otherwise the ring of the
      current user's own vote and the heatmap background. */
  datatype CellLook = OtherMonth | InMonth(myRing: Option<VoteType>, heat: Heat)

  /** `getCellStyles(isoDate, isCurrentMonth)`. */
  function CellStyles(votes: seq<DateVote>, users: seq<User>, me: string, iso: string,
                      isCurrentMonth: bool): (look: CellLook)
    // other-month cells are always grey
    ensures look == OtherMonth <==> !isCurrentMonth
    ensures look.InMonth? ==>
              var st := GetDayStats(votes, iso, me);
              && look.myRing == st.myVote
              && (look.heat == Perfect <==> |users| > 0 && st.availableCount == |users|)
              && (look.heat == OnlyUnavailable <==> st.availableCount == 0 && st.unavailableCount > 0)
              && (look.myRing.None? <==> forall v | v in votes :: !(v.date == iso && v.userId == me))
  {
    if !isCurrentMonth then OtherMonth
    else
      var st := GetDayStats(votes, iso, me);
      InMonth(st.myVote, HeatOf(st.availableCount, st.unavailableCount, |users|))
  }

  // ---------------------------------------------------------------------------
  // The grid body: the crown and the click
  // ---------------------------------------------------------------------------

  /** The crown of a grid cell: a current-month cell whose every participant is available. */
  function PerfectMatchCell(cell: CalendarDay, votes: seq<DateVote>, users: seq<User>, me: string): (r: bool)
    requires Valid(cell.date)
    ensures r ==> cell.isCurrentMonth && |users| > 0
    ensures r <==> cell.isCurrentMonth &&
                   CellStyles(votes, users, me, cell.IsoString(), cell.isCurrentMonth).heat == Perfect
  {
    cell.isCurrentMonth && IsPerfectMatch(GetDayStats(votes, cell.IsoString(), me).availableCount, |users|)
  }

  /** The cell's `onClick`: `onVote(day.isoString)` for current-month cells only. */
  function VoteTarget(cell: CalendarDay): (r: Option<string>)
    requires Valid(cell.date)
    ensures r.Some? <==> cell.isCurrentMonth
    ensures r.Some? ==> r.value == ToLocalIsoString(cell.date)
  {
    if cell.isCurrentMonth then Some(cell.IsoString()) else None
  }

  /** In the grid exactly the cells of days 1..N of the shown month are clickable. */
  lemma {:induction false} GridVoteTargets(shown: Date, today: Date, k: int)
    requires Valid(shown) && 0 <= k < GridCells
    ensures VoteTarget(Grid(shown, today)[k]).Some? <==> Padding(shown) <= k < Padding(shown) + MonthLength(shown)
  {
    GridAt(shown, today, k);
  }

  /** The crown appears only inside the shown month. */
  lemma {:induction false} GridCrownInMonth(shown: Date, today: Date, k: int, votes: seq<DateVote>,
                                            users: seq<User>, me: string)
    requires Valid(shown) && 0 <= k < GridCells
    requires PerfectMatchCell(Grid(shown, today)[k], votes, users, me)
    ensures Padding(shown) <= k < Padding(shown) + MonthLength(shown)
  {
    GridAt(shown, today, k);
  }
}
