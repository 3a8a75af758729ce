/**
 * The persisted Eco-Life user record and the entities it owns.
 *
 * The browser keeps exactly one record, serialised as JSON under the storage key
 * "user". JSON serialisation is taken to be the identity on these datatypes, so a
 * record read back from storage is the record that was written.
 *
 * Field names: js/userData.js writes the collections under `data` and the balance
 * under `ecopoints`, while js/dataTypes.js reads `ecoData` and `ecoPoints`. The
 * model takes both files to mean the same two fields, and gives the record one
 * collections container (`data`) and one points field (`points`).
 */
module Records {
  import opened Wrappers

  /** A date as it is stored: the text JSON gives a Date. Its content is opaque here. */
  type Timestamp = string

  /** One logged eco action (class EcoAction in js/dataTypes.js). */
  datatype EcoAction = EcoAction(createdDate: Timestamp, date: Timestamp, action: string, impact: string)

  /** The status the Challenge constructor gives by default. */
  const NotStarted: string := "Not Started"

  /** The one status that completes a challenge and may award its reward. */
  const Completed: string := "Completed"

  /** One challenge (class Challenge in js/dataTypes.js); its status is free text. */
  datatype Challenge = Challenge(name: string, reward: int, status: string, dateCompleted: Option<Timestamp>)

  /**
   * `new Challenge(name, reward, status, dateCompleted)`, where `None` is an
   * argument left out: the status defaults to "Not Started", and a missing or
   * empty date (both falsy) is stored as null.
   */
  function NewChallenge(name: string, reward: int, status: Option<string>, dateCompleted: Option<Timestamp>): (c: Challenge)
    ensures c.name == name && c.reward == reward
    ensures status.None? ==> c.status == NotStarted
    ensures status.Some? ==> c.status == status.value
    ensures c.dateCompleted.Some? <==> dateCompleted.Some? && dateCompleted.value != ""
    ensures c.dateCompleted.Some? ==> c.dateCompleted == dateCompleted
    ensures Undated(c) ==> c.dateCompleted.None?
  {
    var s := if status.Some? then status.value else NotStarted;
    var d := if dateCompleted.Some? && dateCompleted.value != "" then dateCompleted else None;
    Challenge(name, reward, s, d)
  }

  /** A challenge made with the defaults is not started, undated, and so dated iff completed. */
  lemma NewChallengeDefaults(name: string, reward: int)
    ensures NewChallenge(name, reward, None, None) == Challenge(name, reward, NotStarted, None)
    ensures DatedIffCompleted(NewChallenge(name, reward, None, None))
  {
  }

  /** One achievement (class Achievement in js/dataTypes.js). */
  datatype Achievement = Achievement(badge: string, description: string, completed: bool)

  /** `new Achievement(badge, description, completed)`: an achievement is not completed unless the caller says so. */
  function NewAchievement(badge: string, description: string, completed: Option<bool>): (a: Achievement)
    ensures a.badge == badge && a.description == description
    ensures a.completed <==> completed == Some(true)
  {
    Achievement(badge, description, completed == Some(true))
  }

  /** A friend entry is display data; the core never looks inside it. */
  type Friend = string

  /**
   * The collections container. Each collection may be absent: an imported file
   * only has to carry some `data` object, not any particular list inside it.
   */
  datatype EcoData = EcoData(
    ecoActions: Option<seq<EcoAction>>,
    challenges: Option<seq<Challenge>>,
    achievements: Option<seq<Achievement>>,
    friends: Option<seq<Friend>>)

  /** The container a new user starts with: four empty lists. */
  const EmptyData: EcoData := EcoData(Some([]), Some([]), Some([]), Some([]))

  /**
   * The stored record: exactly the five fields `saveToLocalStorage` writes.
   * `createdDate` and `points` may be absent after an import of a file that lacks them.
   */
  datatype UserRecord = UserRecord(
    createdDate: Option<string>,
    email: string,
    name: string,
    data: EcoData,
    points: Option<int>)

  /** The balance as the source reads it, `(points || 0)`: an absent balance counts as 0. */
  function PointsOr0(points: Option<int>): (r: int)
    ensures points.Some? ==> r == points.value
    ensures points.None? ==> r == 0
  {
    match points
    case None => 0
    case Some(p) => p
  }

  /**
   * `!challenge.dateCompleted`: a challenge has no completion date when the field
   * is null or the empty string, which an imported file may carry verbatim.
   */
  predicate Undated(c: Challenge) {
    c.dateCompleted.None? || c.dateCompleted.value == ""
  }

  /** Whether a challenge is dated exactly when it is completed. */
  predicate DatedIffCompleted(c: Challenge) {
    !Undated(c) <==> c.status == Completed
  }

  /** The balance is present-or-absent and never below zero. */
  predicate PointsNonNegative(u: UserRecord) {
    PointsOr0(u.points) >= 0
  }
}
