/** `services/tripService.ts`: the decisions the trip service makes around
    its database calls. Each call's answer is a parameter: the random number
    stream, the database's answer to each insert attempt, the rows a query
    returns, the realtime payload. */
module TripService {
  import opened Wrappers
  import opened Text
  import opened Types

  // ---------------------------------------------------------------------------
  // Share codes
  // ---------------------------------------------------------------------------

  /** The 32 share-code characters: upper-case letters and digits without
      `0`, `O`, `I` and `1`. */
  const Alphabet: string := "ABCDEFGHJKLMNPQRSTUVWXYZ23456789"
  const CodeLength: nat := 6

  predicate IsShareCode(code: string) {
    |code| == CodeLength && forall i | 0 <= i < |code| :: code[i] in Alphabet
  }

  /** The code drawn from the random stream starting at draw `start`:
      `Math.floor(Math.random() * 32)` is the draw reduced below 32. */
  function ShareCodeFrom(random: nat -> nat, start: nat): (code: string)
    ensures |code| == CodeLength
    ensures forall i | 0 <= i < CodeLength :: code[i] == Alphabet[random(start + i) % |Alphabet|]
  {
    seq(CodeLength, i requires 0 <= i < CodeLength => Alphabet[random(start + i) % |Alphabet|])
  }

  /** Whatever the random numbers, a drawn code is a share code. */
  lemma {:induction false} ShareCodeValid(random: nat -> nat, start: nat)
    ensures IsShareCode(ShareCodeFrom(random, start))
  {
    var code := ShareCodeFrom(random, start);
    forall i | 0 <= i < |code|
      ensures code[i] in Alphabet
    {
      var k := random(start + i) % |Alphabet|;
      assert code[i] == Alphabet[k];
    }
  }

  /** Share codes use upper-case letters other than `I` and `O` and digits
      other than `0` and `1`. */
  lemma {:induction false} AlphabetExcludesLookalikes(c: char)
    requires c in Alphabet
    ensures ('A' <= c <= 'Z' && c != 'I' && c != 'O') || ('2' <= c <= '9')
  {
  }

  /** `generateShareCode()`: six draws appended one by one. */
  method GenerateShareCode(random: nat -> nat, start: nat) returns (result: string)
    ensures result == ShareCodeFrom(random, start)
  {
    result := "";
    for i := 0 to CodeLength
      invariant |result| == i
      invariant forall k | 0 <= k < i :: result[k] == Alphabet[random(start + k) % |Alphabet|]
    {
      result := result + [Alphabet[random(start + i) % |Alphabet|]];
    }
  }

  // ---------------------------------------------------------------------------
  // createTrip
  // ---------------------------------------------------------------------------

  /** `Trip`: a row of the `trips` table. */
  datatype Trip = Trip(
    id: string, destination: string, shareCode: string, createdAt: string,
    startDate: Option<string>, endDate: Option<string>, title: Option<string>,
    creatorId: Option<string>)

  /** The database's answer to one insert: the created row, an error it
      returned, or an error the call threw. */
  datatype InsertOutcome = Inserted(row: Trip) | Rejected(code: string) | Threw(code: string)

  /** Why `createTrip` failed: a database error passed on, or ten conflicts. */
  datatype CreateError = DbError(code: string) | NoUniqueCode

  const MaxAttempts: nat := 10
  const UniqueViolation: string := "23505"

  /** What one attempt leads to. */
  datatype Step = Done(row: Trip) | Retry | Fail(code: string)

  /** A returned unique violation is retried; a thrown one only while another
      attempt remains; any other error ends the loop. */
  function StepOf(outcome: InsertOutcome, attempts: nat): (s: Step)
    ensures s.Retry? <==> (outcome.Rejected? && outcome.code == UniqueViolation) ||
                          (outcome.Threw? && outcome.code == UniqueViolation && attempts < MaxAttempts - 1)
    ensures s.Done? <==> outcome.Inserted?
  {
    match outcome
    case Inserted(row) => Done(row)
    case Rejected(code) => if code == UniqueViolation then Retry else Fail(code)
    case Threw(code) => if code == UniqueViolation && attempts < MaxAttempts - 1 then Retry else Fail(code)
  }

  /** The share code of attempt `k`: attempt `k` consumes draws `6k` to
      `6k + 5` of the random stream. */
  function AttemptCode(random: nat -> nat, k: nat): string {
    ShareCodeFrom(random, CodeLength * k)
  }

  /** The share codes of the first `n` attempts, in order. */
  function AttemptCodes(random: nat -> nat, n: nat): (codes: seq<string>)
    ensures |codes| == n
  {
    if n == 0 then [] else AttemptCodes(random, n - 1) + [AttemptCode(random, n - 1)]
  }

  /** Attempt `k` sends the code drawn from the `k`-th block of six draws. */
  lemma {:induction false} AttemptCodesAt(random: nat -> nat, n: nat, k: nat)
    requires k < n
    ensures AttemptCodes(random, n)[k] == AttemptCode(random, k)
    decreases n
  {
    if k < n - 1 {
      AttemptCodesAt(random, n - 1, k);
    }
  }

  /** What `createTrip` ends with, and after how many insert attempts. */
  datatype CreateOutcome = CreateOutcome(result: Result<Trip, CreateError>, attempts: nat)

  /** The outcome of `createTrip` from attempt `k` on. */
  function CreateFrom(random: nat -> nat, respond: (nat, string) -> InsertOutcome, k: nat): (o: CreateOutcome)
    ensures k < MaxAttempts ==> k < o.attempts <= MaxAttempts
    decreases MaxAttempts - k
  {
    if k >= MaxAttempts then CreateOutcome(Err(NoUniqueCode), k)
    else match StepOf(respond(k, AttemptCode(random, k)), k)
      case Done(row) => CreateOutcome(Ok(row), k + 1)
      case Fail(code) => CreateOutcome(Err(DbError(code)), k + 1)
      case Retry => CreateFrom(random, respond, k + 1)
  }

  /** `createTrip(...)`: insert with a fresh share code until the database
      accepts it, an error other than a conflict occurs, or ten attempts are
      used. `tried` lists the share codes sent, one per attempt. */
  method CreateTrip(random: nat -> nat, respond: (nat, string) -> InsertOutcome)
    returns (r: Result<Trip, CreateError>, tried: seq<string>)
    ensures CreateOutcome(r, |tried|) == CreateFrom(random, respond, 0)
    ensures tried == AttemptCodes(random, |tried|)
  {
    var shareCode := GenerateShareCode(random, 0);
    var attempts := 0;
    tried := [];
    while attempts < MaxAttempts
      invariant attempts <= MaxAttempts && tried == AttemptCodes(random, attempts)
      invariant shareCode == AttemptCode(random, attempts)
      invariant CreateFrom(random, respond, 0) == CreateFrom(random, respond, attempts)
      decreases MaxAttempts - attempts
    {
      tried := tried + [shareCode];
      match StepOf(respond(attempts, shareCode), attempts) {
        case Done(row) =>
          return Ok(row), tried;
        case Fail(code) =>
          return Err(DbError(code)), tried;
        case Retry =>
          shareCode := GenerateShareCode(random, CodeLength * (attempts + 1));
          attempts := attempts + 1;
      }
    }
    assert CreateFrom(random, respond, attempts) == CreateOutcome(Err(NoUniqueCode), MaxAttempts);
    r := Err(NoUniqueCode);
  }

  /** `createTrip` retries only after a conflict: every attempt but the last
      asked for a retry, and a created trip is the last attempt's row. */
  lemma {:induction false} RetriesOnlyOnConflict(random: nat -> nat, respond: (nat, string) -> InsertOutcome, k: nat)
    requires k < MaxAttempts
    ensures var o := CreateFrom(random, respond, k);
            forall j | k <= j < o.attempts - 1 :: StepOf(respond(j, AttemptCode(random, j)), j).Retry?
    ensures var o := CreateFrom(random, respond, k);
            o.result.Ok? ==> respond(o.attempts - 1, AttemptCode(random, o.attempts - 1)) == Inserted(o.result.value)
    decreases MaxAttempts - k
  {
    if StepOf(respond(k, AttemptCode(random, k)), k).Retry? && k + 1 < MaxAttempts {
      RetriesOnlyOnConflict(random, respond, k + 1);
    }
  }

  /** `createTrip` gives up for want of a unique code exactly when every one
      of the ten attempts asks for a retry: the first nine conflict and the
      tenth returns a conflict (a thrown conflict on the tenth attempt is
      passed on as a database error instead). */
  lemma {:induction false} NoUniqueCodeIff(random: nat -> nat, respond: (nat, string) -> InsertOutcome, k: nat)
    requires k <= MaxAttempts
    ensures CreateFrom(random, respond, k).result == Err(NoUniqueCode) <==>
            forall j | k <= j < MaxAttempts :: StepOf(respond(j, AttemptCode(random, j)), j).Retry?
    decreases MaxAttempts - k
  {
    if k < MaxAttempts {
      NoUniqueCodeIff(random, respond, k + 1);
    }
  }

  /** Attempts that all ask for a retry lead on to the next attempt. */
  lemma {:induction false} RetriesLeadOn(random: nat -> nat, respond: (nat, string) -> InsertOutcome, j: nat, k: nat)
    requires j <= k <= MaxAttempts
    requires forall i | j <= i < k :: StepOf(respond(i, AttemptCode(random, i)), i).Retry?
    ensures CreateFrom(random, respond, j) == CreateFrom(random, respond, k)
    decreases k - j
  {
    if j < k {
      RetriesLeadOn(random, respond, j + 1, k);
    }
  }

  /** Any error other than a conflict ends `createTrip` at the attempt it
      occurs in, after however many conflicts, and is passed on. */
  lemma {:induction false} OtherErrorPassedOn(random: nat -> nat, respond: (nat, string) -> InsertOutcome, code: string, k: nat)
    requires k < MaxAttempts && code != UniqueViolation
    requires forall i | 0 <= i < k :: StepOf(respond(i, AttemptCode(random, i)), i).Retry?
    requires respond(k, AttemptCode(random, k)) in {Rejected(code), Threw(code)}
    ensures CreateFrom(random, respond, 0) == CreateOutcome(Err(DbError(code)), k + 1)
  {
    RetriesLeadOn(random, respond, 0, k);
  }

  // ---------------------------------------------------------------------------
  // getTripByShareCode
  // ---------------------------------------------------------------------------

  /** The answer of a `.single()` query: the row or an error code. */
  datatype SingleOutcome<T> = Row(row: T) | QueryError(code: string)

  const NoRows: string := "PGRST116"

  /** `getTripByShareCode(shareCode)`: the query looks the upper-cased code
      up; "no rows" becomes `null`, any other error is passed on. */
  function TripByShareCode(shareCode: string, lookup: string -> SingleOutcome<Trip>): (r: Result<Option<Trip>, string>)
    ensures r == Ok(None) <==> lookup(ToUpper(shareCode)) == QueryError(NoRows)
    ensures r.Ok? && r.value.Some? <==> lookup(ToUpper(shareCode)).Row?
    ensures r.Err? <==> lookup(ToUpper(shareCode)).QueryError? && lookup(ToUpper(shareCode)).code != NoRows
    ensures r.Err? ==> r.error == lookup(ToUpper(shareCode)).code
  {
    match lookup(ToUpper(shareCode))
    case Row(trip) => Ok(Some(trip))
    case QueryError(code) => if code == NoRows then Ok(None) else Err(code)
  }

  lemma {:induction false} ToUpperIdempotent(s: string)
    ensures ToUpper(ToUpper(s)) == ToUpper(s)
  {
    forall i | 0 <= i < |s|
      ensures ToUpper(ToUpper(s))[i] == ToUpper(s)[i]
    {
      assert ToUpper(s)[i] == UpperChar(s[i]);
    }
  }

  /** A share code is found regardless of the letter case it is typed in. */
  lemma {:induction false} ShareCodeCaseInsensitive(shareCode: string, lookup: string -> SingleOutcome<Trip>)
    ensures TripByShareCode(ToUpper(shareCode), lookup) == TripByShareCode(shareCode, lookup)
  {
    ToUpperIdempotent(shareCode);
  }

  // ---------------------------------------------------------------------------
  // getDateVotes
  // ---------------------------------------------------------------------------

  /** A row of `date_votes` as selected: `date, user_id, vote_type`. */
  datatype VoteRecord = VoteRecord(date: string, user_id: string, vote_type: VoteType)

  /** `getDateVotes`: one vote per row, in row order, with the columns renamed. */
  function VotesOfRows(rows: seq<VoteRecord>): (votes: seq<DateVote>)
    ensures |votes| == |rows|
    ensures forall i | 0 <= i < |rows| ::
              votes[i].date == rows[i].date && votes[i].userId == rows[i].user_id &&
              votes[i].voteType == rows[i].vote_type
  {
    seq(|rows|, i requires 0 <= i < |rows| => DateVote(rows[i].date, rows[i].user_id, rows[i].vote_type))
  }

  /** The row a vote is written as. */
  function RowOfVote(v: DateVote): VoteRecord {
    VoteRecord(v.date, v.userId, v.voteType)
  }

  /** Reading back the rows written for a list of votes gives the votes. */
  lemma {:induction false} VotesRoundTrip(votes: seq<DateVote>)
    ensures VotesOfRows(seq(|votes|, i requires 0 <= i < |votes| => RowOfVote(votes[i]))) == votes
  {
  }

  /** `getDateVotes(tripId)`: an error is passed on. */
  function DateVotes(response: Result<seq<VoteRecord>, string>): (r: Result<seq<DateVote>, string>)
    ensures r.Err? <==> response.Err?
    ensures r.Ok? ==> r.value == VotesOfRows(response.value)
  {
    match response
    case Ok(rows) => Ok(VotesOfRows(rows))
    case Err(code) => Err(code)
  }

  // ---------------------------------------------------------------------------
  // getUserParticipatedTrips
  // ---------------------------------------------------------------------------

  /** `.filter(trip => trip !== null)` over the joined `trips` column. */
  function Present(joined: seq<Option<Trip>>): (trips: seq<Trip>)
    ensures forall t | t in trips :: Some(t) in joined
    ensures forall t | Some(t) in joined :: t in trips
    ensures |trips| <= |joined|
  {
    if joined == [] then []
    else
      var rest := Present(joined[1..]);
      assert forall t | Some(t) in joined[1..] :: Some(t) in joined;
      if joined[0].Some? then [joined[0].value] + rest else rest
  }

  /** Dropping the missing trips keeps the order of the rest: the trips of a
      concatenation are the trips of each part, one after the other. */
  lemma {:induction false} PresentAppend(a: seq<Option<Trip>>, b: seq<Option<Trip>>)
    ensures Present(a + b) == Present(a) + Present(b)
    ensures forall t :: Present([Some(t)]) == [t]
    ensures Present([Option<Trip>.None]) == []
    decreases |a|
  {
    if a == [] {
      assert a + b == b;
    } else {
      assert (a + b)[0] == a[0] && (a + b)[1..] == a[1..] + b;
      PresentAppend(a[1..], b);
    }
    forall t
      ensures Present([Some(t)]) == [t]
    {
      assert [Some(t)][1..] == [];
    }
    assert [Option<Trip>.None][1..] == [];
  }

  /** `self.findIndex(t => t.id === id)`: the first index of that id, or
      `|trips|`. */
  function FirstIndexOf(trips: seq<Trip>, id: string): (k: nat)
    ensures k <= |trips|
    ensures k < |trips| ==> trips[k].id == id
    ensures forall j | 0 <= j < k :: trips[j].id != id
  {
    if trips == [] then 0
    else if trips[0].id == id then 0
    else 1 + FirstIndexOf(trips[1..], id)
  }

  /** The trips `trips[i..]` keeps: those at the first index of their id. */
  function KeepFirstFrom(trips: seq<Trip>, i: nat): (r: seq<Trip>)
    requires i <= |trips|
    ensures |r| <= |trips| - i
    ensures forall t | t in r :: t in trips[i..]
    decreases |trips| - i
  {
    if i == |trips| then []
    else
      var rest := KeepFirstFrom(trips, i + 1);
      if FirstIndexOf(trips, trips[i].id) == i then [trips[i]] + rest else rest
  }

  /** `trips.filter((trip, index, self) => index === self.findIndex(...))`. */
  function KeepFirst(trips: seq<Trip>): seq<Trip> {
    KeepFirstFrom(trips, 0)
  }

  predicate UniqueIds(trips: seq<Trip>) {
    forall i, j | 0 <= i < j < |trips| :: trips[i].id != trips[j].id
  }

  /** Every trip kept from `trips[i..]` sits at the first index of its id,
      at or after `i`. */
  lemma {:induction false} KeepFirstFromMembers(trips: seq<Trip>, i: nat)
    requires i <= |trips|
    ensures forall t | t in KeepFirstFrom(trips, i) ::
              i <= FirstIndexOf(trips, t.id) < |trips| && trips[FirstIndexOf(trips, t.id)] == t
    decreases |trips| - i
  {
    if i < |trips| {
      KeepFirstFromMembers(trips, i + 1);
    }
  }

  /** No id is kept twice. */
  lemma {:induction false} KeepFirstFromUnique(trips: seq<Trip>, i: nat)
    requires i <= |trips|
    ensures UniqueIds(KeepFirstFrom(trips, i))
    decreases |trips| - i
  {
    if i < |trips| {
      KeepFirstFromUnique(trips, i + 1);
      KeepFirstFromMembers(trips, i + 1);
      var rest := KeepFirstFrom(trips, i + 1);
      if FirstIndexOf(trips, trips[i].id) == i {
        forall t | t in rest
          ensures t.id != trips[i].id
        {
          assert FirstIndexOf(trips, t.id) > i;
        }
        UniqueCons(trips[i], rest);
      }
    }
  }

  /** The kept trips come in the order of their first occurrences. */
  predicate OrderedByFirst(trips: seq<Trip>, r: seq<Trip>) {
    forall a, b | 0 <= a < b < |r| :: FirstIndexOf(trips, r[a].id) < FirstIndexOf(trips, r[b].id)
  }

  /** The trips kept from `trips[i..]` are in the order of their first
      occurrences in `trips`. */
  lemma {:induction false} KeepFirstFromOrdered(trips: seq<Trip>, i: nat)
    requires i <= |trips|
    ensures OrderedByFirst(trips, KeepFirstFrom(trips, i))
    decreases |trips| - i
  {
    if i < |trips| {
      KeepFirstFromOrdered(trips, i + 1);
      KeepFirstFromMembers(trips, i + 1);
      if FirstIndexOf(trips, trips[i].id) == i {
        OrderedCons(trips, trips[i], KeepFirstFrom(trips, i + 1));
      }
    }
  }

  /** A trip whose id first occurs before every id of an ordered list can go
      in front of it. */
  lemma {:induction false} OrderedCons(trips: seq<Trip>, x: Trip, rest: seq<Trip>)
    requires OrderedByFirst(trips, rest)
    requires forall t | t in rest :: FirstIndexOf(trips, x.id) < FirstIndexOf(trips, t.id)
    ensures OrderedByFirst(trips, [x] + rest)
  {
    var r := [x] + rest;
    forall a, b | 0 <= a < b < |r|
      ensures FirstIndexOf(trips, r[a].id) < FirstIndexOf(trips, r[b].id)
    {
      assert r[b] == rest[b - 1] && rest[b - 1] in rest;
      if a > 0 {
        assert r[a] == rest[a - 1];
      }
    }
  }

  /** A trip whose id the rest lacks can go in front of a list of distinct ids. */
  lemma {:induction false} UniqueCons(x: Trip, rest: seq<Trip>)
    requires UniqueIds(rest)
    requires forall t | t in rest :: t.id != x.id
    ensures UniqueIds([x] + rest)
  {
    var r := [x] + rest;
    forall a, b | 0 <= a < b < |r|
      ensures r[a].id != r[b].id
    {
      assert r[b] == rest[b - 1];
      if a > 0 {
        assert r[a] == rest[a - 1];
      }
    }
  }

  /** Every id of the input is kept: its first occurrence survives. */
  lemma {:induction false} KeepFirstFromComplete(trips: seq<Trip>, i: nat, k: nat)
    requires i <= k < |trips| && FirstIndexOf(trips, trips[k].id) == k
    ensures trips[k] in KeepFirstFrom(trips, i)
    decreases k - i
  {
    if i < k {
      KeepFirstFromComplete(trips, i + 1, k);
    }
  }

  /** The kept trips have unique ids, each is the first occurrence of its id,
      they come in the order of those first occurrences, and every id of the
      input is among them. */
  lemma {:induction false} KeepFirstCorrect(trips: seq<Trip>)
    ensures UniqueIds(KeepFirst(trips))
    ensures forall t | t in KeepFirst(trips) :: t in trips
    ensures forall t | t in KeepFirst(trips) ::
              FirstIndexOf(trips, t.id) < |trips| && trips[FirstIndexOf(trips, t.id)] == t
    ensures OrderedByFirst(trips, KeepFirst(trips))
    ensures forall t | t in trips :: exists u | u in KeepFirst(trips) :: u.id == t.id
  {
    KeepFirstFromUnique(trips, 0);
    KeepFirstFromMembers(trips, 0);
    KeepFirstFromOrdered(trips, 0);
    forall t | t in trips
      ensures exists u | u in KeepFirst(trips) :: u.id == t.id
    {
      var j :| 0 <= j < |trips| && trips[j] == t;
      var k := FirstIndexOf(trips, t.id);
      assert k <= j;
      assert FirstIndexOf(trips, trips[k].id) == k;
      KeepFirstFromComplete(trips, 0, k);
    }
  }

  /** Trips with unique ids are kept as they are. */
  lemma {:induction false} KeepFirstUnique(trips: seq<Trip>, i: nat)
    requires i <= |trips| && UniqueIds(trips)
    ensures KeepFirstFrom(trips, i) == trips[i..]
    decreases |trips| - i
  {
    if i < |trips| {
      KeepFirstUnique(trips, i + 1);
      var k := FirstIndexOf(trips, trips[i].id);
      assert k == i;
      assert trips[i..] == [trips[i]] + trips[i + 1..];
    }
  }

  /** Deduplication is idempotent. */
  lemma {:induction false} KeepFirstIdempotent(trips: seq<Trip>)
    ensures KeepFirst(KeepFirst(trips)) == KeepFirst(trips)
  {
    KeepFirstCorrect(trips);
    KeepFirstUnique(KeepFirst(trips), 0);
  }

  /** `getUserParticipatedTrips(userId)`: an error other than "no rows" is
      passed on; otherwise the joined trips without the missing ones, each
      id once, first occurrence first. */
  function ParticipatedTrips(response: Result<seq<Option<Trip>>, string>): (r: Result<seq<Trip>, string>)
    ensures r.Err? <==> response.Err? && response.error != NoRows
    ensures r.Ok? && response.Ok? ==> r.value == KeepFirst(Present(response.value))
    ensures r.Ok? && response.Err? ==> r.value == []
  {
    match response
    case Err(code) => if code != NoRows then Err(code) else Ok([])
    case Ok(joined) => Ok(KeepFirst(Present(joined)))
  }

  /** The participated trips are joined trips with pairwise different ids;
      each is the first joined trip with its id, they come in the order of
      those first occurrences, and every joined trip's id is among them. */
  lemma {:induction false} ParticipatedTripsUnique(response: Result<seq<Option<Trip>>, string>)
    requires ParticipatedTrips(response).Ok?
    ensures UniqueIds(ParticipatedTrips(response).value)
    ensures response.Ok? ==> forall t | t in ParticipatedTrips(response).value :: Some(t) in response.value
    ensures response.Ok? ==>
              var present := Present(response.value);
              (forall t | t in ParticipatedTrips(response).value ::
                 FirstIndexOf(present, t.id) < |present| && present[FirstIndexOf(present, t.id)] == t) &&
              OrderedByFirst(present, ParticipatedTrips(response).value) &&
              forall t | Some(t) in response.value :: exists u | u in ParticipatedTrips(response).value :: u.id == t.id
  {
    if response.Ok? {
      KeepFirstCorrect(Present(response.value));
    }
  }

  // ---------------------------------------------------------------------------
  // subscribeToDateVotes
  // ---------------------------------------------------------------------------

  /** JavaScript truthiness of an optional string: present and not empty. */
  predicate Truthy(s: Option<string>) {
    s.Some? && s.value != ""
  }

  /** `payload.new?.user_id || payload.old?.user_id`. */
  function ChangedUserId(newUser: Option<string>, oldUser: Option<string>): Option<string> {
    if Truthy(newUser) then newUser else oldUser
  }

  /** Whether a change reaches the callback: only when there is no current
      user, or the changed user is someone else. */
  function Delivered(currentUserId: Option<string>, newUser: Option<string>, oldUser: Option<string>): (r: bool)
    // with no signed-in user every change is delivered
    ensures !Truthy(currentUserId) ==> r
    // a change naming a user on its new row is delivered exactly when that user is not the current one
    ensures Truthy(currentUserId) && Truthy(newUser) ==> (r <==> newUser != currentUserId)
  {
    !(Truthy(currentUserId) && ChangedUserId(newUser, oldUser) == currentUserId)
  }

  /** A user's own change, recorded on the new row or, failing that, on the
      old one, is never echoed back to them; every other change is. */
  lemma {:induction false} OwnChangesFiltered(u: string, newUser: Option<string>, oldUser: Option<string>)
    requires u != ""
    ensures !Delivered(Some(u), newUser, oldUser) <==>
            newUser == Some(u) || (!Truthy(newUser) && oldUser == Some(u))
  {
  }

  // ---------------------------------------------------------------------------
  // deleteTrip
  // ---------------------------------------------------------------------------

  const NotCreator: string := "Only the creator can delete this trip"

  /** What `deleteTrip` does: whether it issues the delete and what it
      returns. */
  datatype DeleteResult = DeleteResult(issued: bool, result: Result<(), string>)

  /** `deleteTrip(tripId, userId)`: fetch the creator, refuse anyone else,
      then delete. */
  function DeleteTrip(userId: string, fetched: SingleOutcome<Option<string>>, deleteError: Option<string>): (r: DeleteResult)
    ensures r.issued <==> fetched == Row(Some(userId))
    ensures r.result.Ok? <==> r.issued && deleteError.None?
    ensures fetched.Row? && fetched.row != Some(userId) ==> r.result == Err(NotCreator)
  {
    match fetched
    case QueryError(code) => DeleteResult(false, Err(code))
    case Row(creatorId) =>
      if creatorId != Some(userId) then DeleteResult(false, Err(NotCreator))
      else match deleteError
        case Some(code) => DeleteResult(true, Err(code))
        case None => DeleteResult(true, Ok(()))
  }
}
