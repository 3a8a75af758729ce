/**
 * The top-level field names of the stored user object, as each file spells
 * them. js/userData.js writes, and js/uiManager.js reads, `data` and
 * `ecopoints`; js/dataTypes.js reads and writes `ecoData` and `ecoPoints`.
 *
 * The functions below say how each operation of js/dataTypes.js ends on a
 * stored object with top-level keys `keys` when it looks the collections up
 * under `containerKey`. The rest of the model uses one record with one
 * collections container and one balance, which is the corrected reading.
 */
module FieldNames {

  /** The keys of the object `saveToLocalStorage` writes. */
  const SavedKeys: set<string> := {"createdDate", "email", "name", "data", "ecopoints"}

  /** How an operation ends. */
  datatype Ending =
    | Saved     // it reached its `setUser` / `setItem`
    | Returned  // it logged and returned early
    | Threw     // a property read on `undefined` raised a TypeError

  /** `EcoAction.add` with a stored user: reading `ecoActions` on a missing container throws. */
  function AddEnding(keys: set<string>, containerKey: string): (r: Ending)
    ensures r != Returned
    ensures r == Saved <==> containerKey in keys
  {
    if containerKey in keys then Saved else Threw
  }

  /**
   * `EcoAction.delete` with a stored user: the guard reads `ecoActions` on the
   * container, which throws when the container is missing and returns when the
   * list is.
   */
  function DeleteEnding(keys: set<string>, containerKey: string, hasActions: bool): (r: Ending)
    ensures r == Threw <==> containerKey !in keys
    ensures r == Saved <==> containerKey in keys && hasActions
  {
    if containerKey !in keys then Threw
    else if hasActions then Saved
    else Returned
  }

  /**
   * `Challenge.updateStatus` with a stored user: the guard returns when the
   * container or the challenge list is missing; an index outside the list
   * throws when the status is assigned.
   */
  function UpdateStatusEnding(keys: set<string>, containerKey: string, hasChallenges: bool, inRange: bool): (r: Ending)
    ensures r == Returned <==> containerKey !in keys || !hasChallenges
    ensures r == Saved <==> containerKey in keys && hasChallenges && inRange
  {
    if containerKey !in keys || !hasChallenges then Returned
    else if inRange then Saved
    else Threw
  }

  /**
   * As written: on a record saved by js/userData.js, `add` and `delete` throw
   * before saving, and `updateStatus` always returns without a change; the
   * balance they read, `ecoPoints`, is never one the record has.
   */
  lemma AsWrittenOperationsNeverSave(hasActions: bool, hasChallenges: bool, inRange: bool)
    ensures AddEnding(SavedKeys, "ecoData") == Threw
    ensures DeleteEnding(SavedKeys, "ecoData", hasActions) == Threw
    ensures UpdateStatusEnding(SavedKeys, "ecoData", hasChallenges, inRange) == Returned
    ensures "ecoPoints" !in SavedKeys
  {
  }

  /** Read under the names the record is saved with, each operation reaches its save whenever its data is there. */
  lemma CorrectedOperationsSave(hasActions: bool, hasChallenges: bool, inRange: bool)
    ensures AddEnding(SavedKeys, "data") == Saved
    ensures hasActions ==> DeleteEnding(SavedKeys, "data", hasActions) == Saved
    ensures hasChallenges && inRange ==> UpdateStatusEnding(SavedKeys, "data", hasChallenges, inRange) == Saved
    ensures "ecopoints" in SavedKeys
  {
  }
}
