/** The records shared by the application (`types.ts`). */
module Types {

  /** `VoteType`: `'available' | 'unavailable'`. */
  datatype VoteType = Available | Unavailable

  /** `DateVote`: one participant's vote on one date key. */
  datatype DateVote = DateVote(date: string, userId: string, voteType: VoteType)

  /** `User`: a participant of a trip. */
  datatype User = User(id: string, name: string, tripId: string)
}
