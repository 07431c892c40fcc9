/** The vote handler of `App.tsx` (`handleVote`): the new vote list it shows at
    once, and the remote writes it attempts afterwards. The list surgery is a
    set of functions; the handler is a method of `VoteBoard`, which holds the
    vote list and a log of the storage writes. A remote write's failure is a
    parameter: the handler swallows it and keeps the new list. */
module Votes {
  import opened Wrappers
  import opened Text
  import opened Types

  /** `dateIsoOrList`: one date key or an array of them. */
  datatype DateArg = Single(date: string) | Many(dates: seq<string>)

  /** `datesToUpdate`. */
  function DatesToUpdate(arg: DateArg): seq<string> {
    match arg
    case Single(d) => [d]
    case Many(ds) => ds
  }

  /** A vote the call may replace: the current user's, on a listed date. */
  predicate Touched(v: DateVote, dates: seq<string>, me: string) {
    v.userId == me && v.date in dates
  }

  // ---------------------------------------------------------------------------
  // The two halves of the list
  // ---------------------------------------------------------------------------

  /** `votes.filter(v => !(datesToUpdate.includes(v.date) && v.userId === currentUser.id))`. */
  function Without(vs: seq<DateVote>, dates: seq<string>, me: string): (r: seq<DateVote>)
    ensures |r| <= |vs|
  {
    if |vs| == 0 then []
    else (if Touched(vs[0], dates, me) then [] else [vs[0]]) + Without(vs[1..], dates, me)
  }

  /** `finalVotes.filter(v => v.userId === currentUser.id && datesToUpdate.includes(v.date))`. */
  function TouchedOf(vs: seq<DateVote>, dates: seq<string>, me: string): (r: seq<DateVote>)
    ensures |r| <= |vs|
  {
    if |vs| == 0 then []
    else (if Touched(vs[0], dates, me) then [vs[0]] else []) + TouchedOf(vs[1..], dates, me)
  }

  /** `Without` keeps exactly the untouched votes, `TouchedOf` exactly the touched ones. */
  lemma {:induction false} FilterMembers(vs: seq<DateVote>, dates: seq<string>, me: string, v: DateVote)
    ensures v in Without(vs, dates, me) <==> v in vs && !Touched(v, dates, me)
    ensures v in TouchedOf(vs, dates, me) <==> v in vs && Touched(v, dates, me)
  {
    if |vs| > 0 {
      FilterMembers(vs[1..], dates, me, v);
      assert vs == [vs[0]] + vs[1..];
    }
  }

  lemma {:induction false} WithoutAppend(a: seq<DateVote>, b: seq<DateVote>, dates: seq<string>, me: string)
    ensures Without(a + b, dates, me) == Without(a, dates, me) + Without(b, dates, me)
  {
    if |a| == 0 {
      assert a + b == b;
    } else {
      assert (a + b)[0] == a[0];
      assert (a + b)[1..] == a[1..] + b;
      WithoutAppend(a[1..], b, dates, me);
      var kept := if Touched(a[0], dates, me) then [] else [a[0]];
      assert Without(a + b, dates, me) == kept + (Without(a[1..], dates, me) + Without(b, dates, me));
    }
  }

  lemma {:induction false} TouchedOfAppend(a: seq<DateVote>, b: seq<DateVote>, dates: seq<string>, me: string)
    ensures TouchedOf(a + b, dates, me) == TouchedOf(a, dates, me) + TouchedOf(b, dates, me)
  {
    if |a| == 0 {
      assert a + b == b;
    } else {
      assert (a + b)[0] == a[0];
      assert (a + b)[1..] == a[1..] + b;
      TouchedOfAppend(a[1..], b, dates, me);
      var taken := if Touched(a[0], dates, me) then [a[0]] else [];
      assert TouchedOf(a + b, dates, me) == taken + (TouchedOf(a[1..], dates, me) + TouchedOf(b, dates, me));
    }
  }

  /** A list of touched votes is all removed by `Without` and all kept by `TouchedOf`. */
  lemma {:induction false} FiltersOfTouched(added: seq<DateVote>, dates: seq<string>, me: string)
    requires forall v | v in added :: Touched(v, dates, me)
    ensures Without(added, dates, me) == []
    ensures TouchedOf(added, dates, me) == added
  {
    if |added| > 0 {
      assert added[0] in added;
      FiltersOfTouched(added[1..], dates, me);
      assert added == [added[0]] + added[1..];
    }
  }

  /** A list without touched votes is kept whole by `Without` and dropped by `TouchedOf`. */
  lemma {:induction false} FiltersOfUntouched(vs: seq<DateVote>, dates: seq<string>, me: string)
    requires forall v | v in vs :: !Touched(v, dates, me)
    ensures Without(vs, dates, me) == vs
    ensures TouchedOf(vs, dates, me) == []
  {
    if |vs| > 0 {
      assert vs[0] in vs;
      FiltersOfUntouched(vs[1..], dates, me);
      assert vs == [vs[0]] + vs[1..];
    }
  }

  /** `dates.map(date => ({ date, userId, type: voteMode }))`. */
  function NewEntries(dates: seq<string>, me: string, mode: VoteType): (r: seq<DateVote>)
    ensures |r| == |dates|
    ensures forall v | v in r :: Touched(v, dates, me) && v.voteType == mode
  {
    if |dates| == 0 then []
    else [DateVote(dates[0], me, mode)] + NewEntries(dates[1..], me, mode)
  }

  /** `votes.find(v => v.date === date && v.userId === currentUser.id)`. */
  function FirstOwn(vs: seq<DateVote>, date: string, me: string): (r: Option<DateVote>)
    ensures r.None? <==> forall v | v in vs :: !(v.date == date && v.userId == me)
    ensures r.Some? ==> r.value in vs && r.value.date == date && r.value.userId == me
  {
    if |vs| == 0 then None
    else if vs[0].date == date && vs[0].userId == me then Some(vs[0])
    else FirstOwn(vs[1..], date, me)
  }

  // ---------------------------------------------------------------------------
  // The new list
  // ---------------------------------------------------------------------------

  /** Whether the call adds one vote per listed date: an array argument, or an
      explicit `shouldRemove === false`. */
  predicate IsBulkAdd(arg: DateArg, shouldRemove: Option<bool>) {
    shouldRemove == Some(false) || (shouldRemove.None? && arg.Many?)
  }

  /** The votes appended after the current user's listed votes are dropped:
      none for a bulk remove; for a single click a `mode` vote unless the
      user's existing vote on the date already has type `mode`; one `mode`
      vote per listed date for a bulk add. */
  function Added(votes: seq<DateVote>, arg: DateArg, shouldRemove: Option<bool>, me: string,
                 mode: VoteType): (added: seq<DateVote>)
    ensures forall v | v in added :: Touched(v, DatesToUpdate(arg), me) && v.voteType == mode
  {
    if shouldRemove == Some(true) then []
    else if shouldRemove.None? && arg.Single? then
      var existing := FirstOwn(votes, arg.date, me);
      if existing.None? || existing.value.voteType != mode then [DateVote(arg.date, me, mode)] else []
    else NewEntries(DatesToUpdate(arg), me, mode)
  }

  /** `finalVotes`. */
  function NextVotes(votes: seq<DateVote>, arg: DateArg, shouldRemove: Option<bool>, me: string,
                     mode: VoteType): (r: seq<DateVote>)
    // the kept votes come first, in their order; new entries are only appended
    ensures var ds := DatesToUpdate(arg); var w := Without(votes, ds, me);
            && |w| <= |r| && r[..|w|] == w
            && forall i | |w| <= i < |r| :: Touched(r[i], ds, me) && r[i].voteType == mode
  {
    var newVotes := Without(votes, DatesToUpdate(arg), me);
    var added := Added(votes, arg, shouldRemove, me, mode);
    assert forall i | |newVotes| <= i < |newVotes + added| :: (newVotes + added)[i] in added;
    newVotes + added
  }

  /** A bulk remove leaves no vote by the current user on any listed date. */
  lemma {:induction false} BulkRemoveClears(votes: seq<DateVote>, arg: DateArg, me: string, mode: VoteType)
    ensures forall v | v in NextVotes(votes, arg, Some(true), me, mode) :: !Touched(v, DatesToUpdate(arg), me)
  {
    forall v | v in NextVotes(votes, arg, Some(true), me, mode)
      ensures !Touched(v, DatesToUpdate(arg), me)
    {
      assert NextVotes(votes, arg, Some(true), me, mode) == Without(votes, DatesToUpdate(arg), me) + [];
      FilterMembers(votes, DatesToUpdate(arg), me, v);
    }
  }

  /** A touched vote of the new list is one of the appended votes. */
  lemma {:induction false} TouchedAreAdded(votes: seq<DateVote>, arg: DateArg, shouldRemove: Option<bool>,
                                           me: string, mode: VoteType, v: DateVote)
    requires v in NextVotes(votes, arg, shouldRemove, me, mode) && Touched(v, DatesToUpdate(arg), me)
    ensures v in Added(votes, arg, shouldRemove, me, mode) && v.voteType == mode
  {
    FilterMembers(votes, DatesToUpdate(arg), me, v);
  }

  /** `Without` applied to its own result changes nothing and leaves nothing touched. */
  lemma {:induction false} WithoutClean(vs: seq<DateVote>, dates: seq<string>, me: string)
    ensures Without(Without(vs, dates, me), dates, me) == Without(vs, dates, me)
    ensures TouchedOf(Without(vs, dates, me), dates, me) == []
  {
    forall v | v in Without(vs, dates, me) ensures !Touched(v, dates, me) {
      FilterMembers(vs, dates, me, v);
    }
    FiltersOfUntouched(Without(vs, dates, me), dates, me);
  }

  /** Nothing but the current user's votes on the listed dates changes: every
      other vote survives, in its order. */
  lemma {:induction false} OthersUnchanged(votes: seq<DateVote>, arg: DateArg, shouldRemove: Option<bool>,
                                           me: string, mode: VoteType)
    ensures var ds := DatesToUpdate(arg);
            Without(NextVotes(votes, arg, shouldRemove, me, mode), ds, me) == Without(votes, ds, me)
  {
    var ds := DatesToUpdate(arg);
    var w, added := Without(votes, ds, me), Added(votes, arg, shouldRemove, me, mode);
    WithoutAppend(w, added, ds, me);
    WithoutClean(votes, ds, me);
    FiltersOfTouched(added, ds, me);
    assert Without(w, ds, me) + Without(added, ds, me) == w + [];
  }

  // ---------------------------------------------------------------------------
  // Counting the current user's votes on a date
  // ---------------------------------------------------------------------------

  /** The number of votes by `user` on `date`. */
  function OwnCount(vs: seq<DateVote>, date: string, user: string): (n: nat)
    ensures n <= |vs|
    ensures n == 0 <==> forall v | v in vs :: !(v.date == date && v.userId == user)
  {
    if |vs| == 0 then 0
    else (if vs[0].date == date && vs[0].userId == user then 1 else 0) + OwnCount(vs[1..], date, user)
  }

  /** At most one vote per date and user. */
  ghost predicate Unique(vs: seq<DateVote>) {
    forall date, user :: OwnCount(vs, date, user) <= 1
  }

  lemma {:induction false} OwnCountAppend(a: seq<DateVote>, b: seq<DateVote>, date: string, user: string)
    ensures OwnCount(a + b, date, user) == OwnCount(a, date, user) + OwnCount(b, date, user)
  {
    if |a| == 0 {
      assert a + b == b;
    } else {
      assert (a + b)[0] == a[0];
      assert (a + b)[1..] == a[1..] + b;
      OwnCountAppend(a[1..], b, date, user);
    }
  }

  /** The count of a one-element list. */
  lemma {:induction false} OwnCountSingle(x: DateVote, date: string, user: string)
    ensures OwnCount([x], date, user) == if x.date == date && x.userId == user then 1 else 0
  {
    assert [x][1..] == [];
  }

  /** `Without` removes exactly the counts of touched (date, user) pairs. */
  lemma {:induction false} WithoutCount(vs: seq<DateVote>, dates: seq<string>, me: string, date: string, user: string)
    ensures OwnCount(Without(vs, dates, me), date, user) ==
            if user == me && date in dates then 0 else OwnCount(vs, date, user)
  {
    if |vs| > 0 {
      WithoutCount(vs[1..], dates, me, date, user);
      var kept := if Touched(vs[0], dates, me) then [] else [vs[0]];
      OwnCountAppend(kept, Without(vs[1..], dates, me), date, user);
      OwnCountSingle(vs[0], date, user);
    }
  }

  /** New entries for duplicate-free dates hold one vote per listed date. */
  lemma {:induction false} NewEntriesCount(dates: seq<string>, me: string, mode: VoteType, date: string, user: string)
    requires Distinct(dates)
    ensures OwnCount(NewEntries(dates, me, mode), date, user) == if user == me && date in dates then 1 else 0
  {
    if |dates| > 0 {
      var rest := dates[1..];
      DistinctTail(dates);
      NewEntriesCount(rest, me, mode, date, user);
      OwnCountAppend([DateVote(dates[0], me, mode)], NewEntries(rest, me, mode), date, user);
      OwnCountSingle(DateVote(dates[0], me, mode), date, user);
    }
  }

  /** The tail of a duplicate-free list is duplicate-free and lacks the head. */
  lemma {:induction false} DistinctTail(dates: seq<string>)
    requires Distinct(dates) && |dates| > 0
    ensures Distinct(dates[1..]) && dates[0] !in dates[1..]
    ensures forall d :: d in dates <==> d == dates[0] || d in dates[1..]
  {
    var rest := dates[1..];
    forall i, j | 0 <= i < j < |rest| ensures rest[i] != rest[j] {
      assert rest[i] == dates[i + 1] && rest[j] == dates[j + 1];
    }
    forall k | 0 <= k < |rest| ensures rest[k] != dates[0] {
      assert rest[k] == dates[k + 1];
    }
    assert dates == [dates[0]] + rest;
  }

  /** The new count of a (date, user) pair: the old one unless the pair is
      touched, plus the appended votes'. */
  lemma {:induction false} NextVotesCount(votes: seq<DateVote>, arg: DateArg, shouldRemove: Option<bool>,
                                          me: string, mode: VoteType, date: string, user: string)
    ensures var ds := DatesToUpdate(arg);
            OwnCount(NextVotes(votes, arg, shouldRemove, me, mode), date, user) ==
            (if user == me && date in ds then 0 else OwnCount(votes, date, user)) +
            OwnCount(Added(votes, arg, shouldRemove, me, mode), date, user)
  {
    var ds := DatesToUpdate(arg);
    OwnCountAppend(Without(votes, ds, me), Added(votes, arg, shouldRemove, me, mode), date, user);
    WithoutCount(votes, ds, me, date, user);
  }

  /** The appended votes count at most once per listed date, and not at all elsewhere. */
  lemma {:induction false} AddedCount(votes: seq<DateVote>, arg: DateArg, shouldRemove: Option<bool>,
                                      me: string, mode: VoteType, date: string, user: string)
    requires Distinct(DatesToUpdate(arg))
    ensures var n := OwnCount(Added(votes, arg, shouldRemove, me, mode), date, user);
            && n <= (if user == me && date in DatesToUpdate(arg) then 1 else 0)
            && (IsBulkAdd(arg, shouldRemove) && user == me && date in DatesToUpdate(arg) ==> n == 1)
  {
    var ds := DatesToUpdate(arg);
    if shouldRemove != Some(true) && !(shouldRemove.None? && arg.Single?) {
      NewEntriesCount(ds, me, mode, date, user);
    } else if shouldRemove.None? && arg.Single? {
      OwnCountSingle(DateVote(arg.date, me, mode), date, user);
    }
  }

  // ---------------------------------------------------------------------------
  // The three outcomes
  // ---------------------------------------------------------------------------

  /** A bulk add over duplicate-free dates leaves exactly one vote by the
      current user on each listed date, of type `mode`. */
  lemma {:induction false} BulkAddExact(votes: seq<DateVote>, arg: DateArg, shouldRemove: Option<bool>,
                                        me: string, mode: VoteType, date: string)
    requires IsBulkAdd(arg, shouldRemove) && Distinct(DatesToUpdate(arg)) && date in DatesToUpdate(arg)
    ensures OwnCount(NextVotes(votes, arg, shouldRemove, me, mode), date, me) == 1
    ensures forall v | v in NextVotes(votes, arg, shouldRemove, me, mode) && v.date == date && v.userId == me ::
              v.voteType == mode
  {
    NextVotesCount(votes, arg, shouldRemove, me, mode, date, me);
    AddedCount(votes, arg, shouldRemove, me, mode, date, me);
    forall v | v in NextVotes(votes, arg, shouldRemove, me, mode) && v.date == date && v.userId == me
      ensures v.voteType == mode
    {
      TouchedAreAdded(votes, arg, shouldRemove, me, mode, v);
    }
  }

  /** A single click clears the user's vote on the date when it already has
      type `mode`; otherwise it leaves exactly one vote there, of type `mode`. */
  lemma {:induction false} ToggleRule(votes: seq<DateVote>, date: string, me: string, mode: VoteType)
    ensures var r, e := NextVotes(votes, Single(date), None, me, mode), FirstOwn(votes, date, me);
            && (e.Some? && e.value.voteType == mode ==> OwnCount(r, date, me) == 0)
            && (e.None? || e.value.voteType != mode ==>
                  OwnCount(r, date, me) == 1 && forall v | v in r && v.date == date && v.userId == me :: v.voteType == mode)
  {
    NextVotesCount(votes, Single(date), None, me, mode, date, me);
    OwnCountSingle(DateVote(date, me, mode), date, me);
    forall v | v in NextVotes(votes, Single(date), None, me, mode) && v.date == date && v.userId == me
      ensures v.voteType == mode
    {
      TouchedAreAdded(votes, Single(date), None, me, mode, v);
    }
  }

  /** With duplicate-free dates, at most one vote per date and user stays so. */
  lemma {:induction false} UniquePreserved(votes: seq<DateVote>, arg: DateArg, shouldRemove: Option<bool>,
                                           me: string, mode: VoteType)
    requires Unique(votes) && Distinct(DatesToUpdate(arg))
    ensures Unique(NextVotes(votes, arg, shouldRemove, me, mode))
  {
    forall date, user ensures OwnCount(NextVotes(votes, arg, shouldRemove, me, mode), date, user) <= 1 {
      NextVotesCount(votes, arg, shouldRemove, me, mode, date, user);
      AddedCount(votes, arg, shouldRemove, me, mode, date, user);
    }
  }

  /** A bulk add followed by a bulk remove of the same dates leaves the list
      without the user's earlier votes on them, which is the original list
      when there were none. */
  lemma {:induction false} AddThenRemove(votes: seq<DateVote>, dates: seq<string>, me: string, mode: VoteType)
    ensures var added := NextVotes(votes, Many(dates), None, me, mode);
            NextVotes(added, Many(dates), Some(true), me, mode) == Without(votes, dates, me)
    ensures (forall v | v in votes :: !Touched(v, dates, me)) ==>
            NextVotes(NextVotes(votes, Many(dates), None, me, mode), Many(dates), Some(true), me, mode) == votes
  {
    OthersUnchanged(votes, Many(dates), None, me, mode);
    if forall v | v in votes :: !Touched(v, dates, me) {
      FiltersOfUntouched(votes, dates, me);
    }
  }

  // ---------------------------------------------------------------------------
  // The rows sent to storage
  // ---------------------------------------------------------------------------

  /** A row of the `votes` table. */
  datatype VoteRow = VoteRow(tripId: string, userId: string, date: string, voteType: VoteType)

  /** `.map(v => ({ trip_id, user_id, date: v.date, type: v.type }))`. */
  function RowsOf(vs: seq<DateVote>, tripId: string, me: string): (rows: seq<VoteRow>)
    ensures |rows| == |vs|
    // row `i` carries the trip, the current user and vote `i`'s date and kind
    ensures forall i | 0 <= i < |vs| ::
              rows[i].tripId == tripId && rows[i].userId == me
              && rows[i].date == vs[i].date && rows[i].voteType == vs[i].voteType
  {
    if |vs| == 0 then [] else [VoteRow(tripId, me, vs[0].date, vs[0].voteType)] + RowsOf(vs[1..], tripId, me)
  }

  /** `toInsert`. */
  function ToInsert(finalVotes: seq<DateVote>, dates: seq<string>, tripId: string, me: string): (rows: seq<VoteRow>)
    ensures |rows| <= |finalVotes|
    // every row is the current user's, for this trip, on one of the listed dates
    ensures forall i | 0 <= i < |rows| :: rows[i].tripId == tripId && rows[i].userId == me && rows[i].date in dates
  {
    var touched := TouchedOf(finalVotes, dates, me);
    forall i | 0 <= i < |touched| ensures Touched(touched[i], dates, me) {
      FilterMembers(finalVotes, dates, me, touched[i]);
    }
    RowsOf(touched, tripId, me)
  }

  /** The rows inserted are the appended votes: exactly the current user's
      votes on the listed dates in the new list. */
  lemma {:induction false} InsertIsAdded(votes: seq<DateVote>, arg: DateArg, shouldRemove: Option<bool>,
                                         tripId: string, me: string, mode: VoteType)
    ensures ToInsert(NextVotes(votes, arg, shouldRemove, me, mode), DatesToUpdate(arg), tripId, me)
            == RowsOf(Added(votes, arg, shouldRemove, me, mode), tripId, me)
  {
    var ds := DatesToUpdate(arg);
    var w, added := Without(votes, ds, me), Added(votes, arg, shouldRemove, me, mode);
    TouchedOfAppend(w, added, ds, me);
    WithoutClean(votes, ds, me);
    FiltersOfTouched(added, ds, me);
    assert NextVotes(votes, arg, shouldRemove, me, mode) == w + added;
    assert TouchedOf(w + added, ds, me) == [] + added == added;
  }

  /** A toggle-off sends no rows to insert. */
  lemma {:induction false} ToggleOffInsertsNothing(votes: seq<DateVote>, date: string, tripId: string,
                                                   me: string, mode: VoteType)
    requires FirstOwn(votes, date, me).Some? && FirstOwn(votes, date, me).value.voteType == mode
    ensures ToInsert(NextVotes(votes, Single(date), None, me, mode), [date], tripId, me) == []
  {
    InsertIsAdded(votes, Single(date), None, tripId, me, mode);
    assert Added(votes, Single(date), None, me, mode) == [];
  }

  // ---------------------------------------------------------------------------
  // The handler
  // ---------------------------------------------------------------------------

  /** A write the handler performs outside the list: the offline copy, or a
      call to the `votes` table. */
  datatype Write =
    | SaveLocal(tripId: string, votes: seq<DateVote>)
    | DeleteOwn(tripId: string, userId: string, dates: seq<string>)
    | Insert(rows: seq<VoteRow>)

  /** The writes one call attempts, in order: offline it only saves the list;
      a bulk remove deletes; otherwise it deletes and then, if the delete did
      not throw and there is something to insert, inserts. */
  function Writes(finalVotes: seq<DateVote>, dates: seq<string>, shouldRemove: Option<bool>,
                  tripId: string, me: string, offline: bool, deleteSucceeds: bool): (ws: seq<Write>)
    ensures offline ==> ws == [SaveLocal(tripId, finalVotes)]
    ensures !offline ==> |ws| >= 1 && ws[0] == DeleteOwn(tripId, me, dates)
    ensures forall w | w in ws && w.Insert? ::
              w.rows == ToInsert(finalVotes, dates, tripId, me) && |w.rows| > 0 &&
              shouldRemove != Some(true) && deleteSucceeds
    ensures !offline && shouldRemove == Some(true) ==> ws == [DeleteOwn(tripId, me, dates)]
    ensures !offline && shouldRemove != Some(true) && deleteSucceeds && |ToInsert(finalVotes, dates, tripId, me)| > 0 ==>
              ws == [DeleteOwn(tripId, me, dates), Insert(ToInsert(finalVotes, dates, tripId, me))]
    ensures !offline && shouldRemove != Some(true) && (!deleteSucceeds || |ToInsert(finalVotes, dates, tripId, me)| == 0) ==>
              ws == [DeleteOwn(tripId, me, dates)]
  {
    if offline then [SaveLocal(tripId, finalVotes)]
    else if shouldRemove == Some(true) then [DeleteOwn(tripId, me, dates)]
    else
      var toInsert := ToInsert(finalVotes, dates, tripId, me);
      [DeleteOwn(tripId, me, dates)] + (if deleteSucceeds && |toInsert| > 0 then [Insert(toInsert)] else [])
  }

  /** Online, a toggle-off deletes the user's vote on the date and inserts nothing. */
  lemma {:induction false} ToggleOffWrites(votes: seq<DateVote>, date: string, tripId: string, me: string,
                                           mode: VoteType, deleteSucceeds: bool)
    requires FirstOwn(votes, date, me).Some? && FirstOwn(votes, date, me).value.voteType == mode
    ensures Writes(NextVotes(votes, Single(date), None, me, mode), [date], None, tripId, me, false, deleteSucceeds)
            == [DeleteOwn(tripId, me, [date])]
  {
    ToggleOffInsertsNothing(votes, date, tripId, me, mode);
  }

  /** The application's vote state. */
  class VoteBoard {
    var votes: seq<DateVote>
    /** The writes attempted so far. */
    var log: seq<Write>
    const currentUser: Option<User>
    const tripId: Option<string>
    const isOffline: bool

    constructor (votes0: seq<DateVote>, currentUser: Option<User>, tripId: Option<string>, isOffline: bool)
      ensures votes == votes0 && log == []
      ensures this.currentUser == currentUser && this.tripId == tripId && this.isOffline == isOffline
    {
      votes := votes0;
      log := [];
      this.currentUser := currentUser;
      this.tripId := tripId;
      this.isOffline := isOffline;
    }

    /** `!currentUser || !tripId` is false. */
    predicate Ready()
      reads this
    {
      currentUser.Some? && tripId.Some? && tripId.value != ""
    }

    /** `handleVote(dateIsoOrList, shouldRemove)`: without a user or a trip
        nothing happens; otherwise the list becomes `NextVotes` at once, and
        the writes follow. A failing remote call is swallowed, and the list is
        not rolled back. */
    method HandleVote(arg: DateArg, shouldRemove: Option<bool>, voteMode: VoteType, deleteSucceeds: bool)
      modifies this
      ensures !Ready() ==> votes == old(votes) && log == old(log)
      ensures Ready() ==>
                && votes == NextVotes(old(votes), arg, shouldRemove, currentUser.value.id, voteMode)
                && log == old(log) + Writes(votes, DatesToUpdate(arg), shouldRemove, tripId.value,
                                            currentUser.value.id, isOffline, deleteSucceeds)
    {
      if !Ready() {
        return;
      }
      var me, trip := currentUser.value.id, tripId.value;
      var datesToUpdate := DatesToUpdate(arg);
      var finalVotes := NextVotes(votes, arg, shouldRemove, me, voteMode);
      votes := finalVotes;
      if isOffline {
        log := log + [SaveLocal(trip, finalVotes)];
        return;
      }
      log := log + [DeleteOwn(trip, me, datesToUpdate)];
      if shouldRemove != Some(true) && deleteSucceeds {
        var toInsert := ToInsert(finalVotes, datesToUpdate, trip, me);
        if |toInsert| > 0 {
          log := log + [Insert(toInsert)];
        }
      }
    }
  }
}
