/** The app's data classes, as values (Kotlin data classes compare field by field). */
module Records {
  import opened Common

  /** Kotlin's `Int`. */
  newtype Int32 = x: int | -0x8000_0000 <= x < 0x8000_0000

  /** An incident read from the weekly bulletin (`data/Crime.kt`). */
  datatype Crime = Crime(date: string, time: string, location: string, offense: string)

  /** An incident of the open-data feed as listed on the reports screen (`CrimeReport.kt`). */
  datatype CrimeReport = CrimeReport(
    address: string, crimeType: string, date: string, time: string,
    rawDate: string, rawTime: string)

  /** A community question (`CommunityPost.kt`); the timestamp is in epoch milliseconds. */
  datatype CommunityPost = CommunityPost(
    id: string, userId: string, userName: string, userEmail: string, question: string,
    timestamp: int, likes: seq<string>, commentCount: Int32)

  /** A reply to a community question (`CommunityPost.kt`). */
  datatype Comment = Comment(
    id: string, postId: string, userId: string, userName: string, userEmail: string,
    text: string, timestamp: int)

  /** A person to alert in an emergency, keyed by its document id. */
  datatype EmergencyContact = EmergencyContact(
    id: string, name: string, relation: string, phoneNumber: string)

  /** The signed-in account as the authentication service reports it; the display name and
      the email may be absent. */
  datatype AuthUser = AuthUser(uid: string, displayName: Option<string>, email: Option<string>,
                               isEmailVerified: bool)
}
