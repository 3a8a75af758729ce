/**
 * The point-awarding operations of js/dataTypes.js. Each one loads the stored
 * record, changes it and saves it back to the single slot. The current time
 * (`now`) is a parameter.
 *
 * Each method is specified by a function on records (AddedRecord,
 * DeletedRecord, StatusUpdatedRecord), and the lemmas below state what those
 * functions promise, alone and in sequence.
 */
module DataTypes {
  import opened Wrappers
  import opened Records
  import opened Strings
  import opened UserData

  /** Points one logged action is worth. */
  const PointsPerAction: int := 5

  // ---------------------------------------------------------------------------
  // Points

  /** The balance after `updateEcoPoints(change)`: five points per action, never below zero. */
  function ClampedPoints(points: Option<int>, change: int): (r: int)
    ensures r >= 0
    ensures r >= PointsOr0(points) + PointsPerAction * change
    ensures r == 0 || r == PointsOr0(points) + PointsPerAction * change
  {
    var p := PointsOr0(points) + change * PointsPerAction;
    if p < 0 then 0 else p
  }

  /** A record after `updateEcoPoints(change)`: only its balance differs. */
  function WithPoints(u: UserRecord, change: int): (r: UserRecord)
    ensures r == u.(points := r.points) && PointsNonNegative(r)
    ensures r.points == Some(ClampedPoints(u.points, change))
  {
    u.(points := Some(ClampedPoints(u.points, change)))
  }

  // ---------------------------------------------------------------------------
  // Eco actions

  /** The action list, `ecoActions || []`. */
  function ActionsOf(u: UserRecord): seq<EcoAction> {
    if u.data.ecoActions.Some? then u.data.ecoActions.value else []
  }

  /** The record after `EcoAction.add` logged `entry`. */
  function AddedRecord(u: UserRecord, entry: EcoAction): UserRecord {
    WithPoints(u.(data := u.data.(ecoActions := Some(ActionsOf(u) + [entry]))), 1)
  }

  /** Where `splice(index, 1)` starts on a list of length `len`; a negative index counts from the end. */
  function SpliceStart(len: nat, index: int): (k: nat)
    ensures k <= len
    ensures 0 <= index <= len ==> k == index
    ensures index > len ==> k == len
    ensures index < 0 && len + index >= 0 ==> k == len + index
    ensures len + index < 0 ==> k == 0
  {
    if index < 0 then (if len + index < 0 then 0 else len + index)
    else if index > len then len
    else index
  }

  /** The list left by `s.splice(index, 1)`: the entry at the start position removed, if there is one. */
  function Splice1<T>(s: seq<T>, index: int): seq<T> {
    var k := SpliceStart(|s|, index);
    if k < |s| then s[..k] + s[k + 1..] else s
  }

  /** The record after `EcoAction.delete(index)`, when it has an action list. */
  function DeletedRecord(u: UserRecord, index: int): UserRecord
    requires u.data.ecoActions.Some?
  {
    WithPoints(u.(data := u.data.(ecoActions := Some(Splice1(u.data.ecoActions.value, index)))), -1)
  }

  /** `updateEcoPoints(change)` on the stored user, which both callers have just saved. */
  method UpdateEcoPoints(store: Store, change: int)
    requires store.slot.Some?
    modifies store
    ensures store.slot == Some(WithPoints(old(store.slot.value), change))
  {
    var userData := store.GetUser();
    var p := PointsOr0(userData.value.points) + change * PointsPerAction;
    if p < 0 {
      p := 0;
    }
    store.SetUser(userData.value.(points := Some(p)));
  }

  /**
   * `EcoAction.add`: with a user present, trims the description and impact,
   * appends the new action (creating the list if needed), saves, then awards
   * five points and saves again. With no user, storage is left alone.
   */
  method Add(store: Store, date: Timestamp, action: string, impact: string, now: Timestamp)
    modifies store
    ensures old(store.slot).None? ==> store.slot == None
    ensures old(store.slot).Some? ==>
      store.slot == Some(AddedRecord(old(store.slot.value), EcoAction(now, date, Trim(action), Trim(impact))))
  {
    var userData := store.GetUser();
    if userData.Some? {
      var u := userData.value;
      var ecoAction := EcoAction(now, date, Trim(action), Trim(impact));
      var actions := if u.data.ecoActions.Some? then u.data.ecoActions.value else [];
      store.SetUser(u.(data := u.data.(ecoActions := Some(actions + [ecoAction]))));
      UpdateEcoPoints(store, 1);
    }
  }

  /**
   * `EcoAction.delete(index)`: with no user or no action list nothing happens;
   * otherwise the entry at the splice position is removed (if any), the list
   * is saved, and five points are taken off, clamped at zero, in every case.
   */
  method Delete(store: Store, index: int)
    modifies store
    ensures old(store.slot).None? || old(store.slot.value.data.ecoActions).None? ==>
      store.slot == old(store.slot)
    ensures old(store.slot).Some? && old(store.slot.value.data.ecoActions).Some? ==>
      store.slot == Some(DeletedRecord(old(store.slot.value), index))
  {
    var userData := store.GetUser();
    if userData.None? || userData.value.data.ecoActions.None? {
      return;
    }
    var u := userData.value;
    var actions := Splice1(u.data.ecoActions.value, index);
    store.SetUser(u.(data := u.data.(ecoActions := Some(actions))));
    UpdateEcoPoints(store, -1);
  }

  /** Adding an action appends exactly it, keeps everything else but the balance, and awards five points. */
  lemma AddAppendsOne(u: UserRecord, entry: EcoAction)
    ensures ActionsOf(AddedRecord(u, entry)) == ActionsOf(u) + [entry]
    ensures AddedRecord(u, entry).data.ecoActions.Some?
    ensures AddedRecord(u, entry).data == u.data.(ecoActions := Some(ActionsOf(u) + [entry]))
    ensures AddedRecord(u, entry).(data := u.data, points := u.points) == u
    ensures AddedRecord(u, entry).points == Some(if PointsOr0(u.points) + 5 < 0 then 0 else PointsOr0(u.points) + 5)
  {
  }

  /** Deleting at an index inside the list removes exactly that entry and keeps the rest in order. */
  lemma DeleteRemovesOne(u: UserRecord, index: int)
    requires u.data.ecoActions.Some? && 0 <= index < |u.data.ecoActions.value|
    ensures var before, after := u.data.ecoActions.value, DeletedRecord(u, index).data.ecoActions.value;
      && |after| == |before| - 1
      && (forall i :: 0 <= i < index ==> after[i] == before[i])
      && (forall i :: index <= i < |after| ==> after[i] == before[i + 1])
    ensures DeletedRecord(u, index).points == Some(if PointsOr0(u.points) - 5 < 0 then 0 else PointsOr0(u.points) - 5)
  {
  }

  /** Deleting past the end removes nothing, yet still takes five points off. */
  lemma DeletePastEndKeepsList(u: UserRecord, index: int)
    requires u.data.ecoActions.Some? && index >= |u.data.ecoActions.value|
    ensures DeletedRecord(u, index).data == u.data
    ensures DeletedRecord(u, index).points == Some(ClampedPoints(u.points, -1))
  {
  }

  /**
   * With a non-negative balance and an existing list, adding an action and then
   * deleting it at the index it received gives back the record unchanged.
   */
  lemma AddThenDeleteRestores(u: UserRecord, entry: EcoAction)
    requires u.data.ecoActions.Some? && u.points.Some? && u.points.value >= 0
    ensures DeletedRecord(AddedRecord(u, entry), |u.data.ecoActions.value|) == u
  {
    var s := u.data.ecoActions.value;
    assert Splice1(s + [entry], |s|) == s;
  }

  /**
   * Below five points, deleting the only action and adding it back restores the
   * list but not the balance: the clamp lost the difference, and the result is five.
   */
  lemma ClampIsLossy(u: UserRecord, entry: EcoAction)
    requires u.data.ecoActions == Some([entry]) && u.points.Some? && 0 <= u.points.value < 5
    ensures AddedRecord(DeletedRecord(u, 0), entry).data == u.data
    ensures AddedRecord(DeletedRecord(u, 0), entry).points == Some(5)
    ensures AddedRecord(DeletedRecord(u, 0), entry).points != u.points
  {
    var d := DeletedRecord(u, 0);
    assert Splice1([entry], 0) == [];
    assert ActionsOf(d) + [entry] == [entry];
  }

  // ---------------------------------------------------------------------------
  // Challenges

  /** Whether setting `newStatus` on `c` awards its reward: completion of a challenge with no date, null or empty. */
  predicate Awards(c: Challenge, newStatus: string) {
    newStatus == Completed && Undated(c)
  }

  /**
   * The challenge after `updateStatus(newStatus, …)`: the new status; a fresh
   * date when it is completed without one; no date when it is not completed;
   * otherwise the date it had.
   */
  function UpdatedChallenge(c: Challenge, newStatus: string, now: Timestamp): (r: Challenge)
    ensures r.name == c.name && r.reward == c.reward && r.status == newStatus
    ensures Awards(c, newStatus) ==> r.dateCompleted == Some(now)
    ensures newStatus != Completed ==> r.dateCompleted.None?
    ensures newStatus == Completed && !Undated(c) ==> r.dateCompleted == c.dateCompleted
  {
    if Awards(c, newStatus) then c.(status := newStatus, dateCompleted := Some(now))
    else if newStatus != Completed then c.(status := newStatus, dateCompleted := None)
    else c.(status := newStatus)
  }

  /** Whether the record has a challenge list holding a challenge at `index`. */
  predicate HasChallenge(u: UserRecord, index: int) {
    u.data.challenges.Some? && 0 <= index < |u.data.challenges.value|
  }

  /** The record after `Challenge.updateStatus(newStatus, index)` found the challenge. */
  function StatusUpdatedRecord(u: UserRecord, index: int, newStatus: string, now: Timestamp): (r: UserRecord)
    requires HasChallenge(u, index)
    ensures HasChallenge(r, index) && |r.data.challenges.value| == |u.data.challenges.value|
    ensures r.data.challenges.value[index].status == newStatus
  {
    var challenges := u.data.challenges.value;
    var c := challenges[index];
    u.(data := u.data.(challenges := Some(challenges[index := UpdatedChallenge(c, newStatus, now)])),
       points := if Awards(c, newStatus) then Some(PointsOr0(u.points) + c.reward) else u.points)
  }

  /** How `updateStatus` ended. */
  datatype StatusOutcome =
    | Updated          // the challenge was changed and the record saved
    | NoChallenges     // no user or no challenge list: logged and returned
    | NoSuchChallenge  // `challenges[index]` is undefined: the assignment throws before the save

  /** `Challenge.updateStatus(newStatus, index)` on the stored record. */
  method UpdateStatus(store: Store, newStatus: string, index: int, now: Timestamp)
    returns (outcome: StatusOutcome)
    modifies store
    ensures outcome == NoChallenges <==> old(store.slot).None? || old(store.slot.value.data.challenges).None?
    ensures outcome == Updated <==> old(store.slot).Some? && HasChallenge(old(store.slot.value), index)
    ensures outcome != Updated ==> store.slot == old(store.slot)
    ensures outcome == Updated ==>
      store.slot == Some(StatusUpdatedRecord(old(store.slot.value), index, newStatus, now))
  {
    var userData := store.GetUser();
    if userData.None? || userData.value.data.challenges.None? {
      return NoChallenges;
    }
    var u := userData.value;
    var challenges := u.data.challenges.value;
    if !(0 <= index < |challenges|) {
      return NoSuchChallenge;
    }
    var challenge := challenges[index];
    var points := u.points;
    var updated := challenge.(status := newStatus);
    if newStatus == Completed && Undated(challenge) {
      updated := updated.(dateCompleted := Some(now));
      points := Some(PointsOr0(u.points) + challenge.reward);
    } else if newStatus != Completed {
      updated := updated.(dateCompleted := None);
    }
    store.SetUser(u.(data := u.data.(challenges := Some(challenges[index := updated])), points := points));
    return Updated;
  }

  /**
   * Whatever the challenge was before, afterwards it is dated exactly when it is
   * completed, given a non-empty current date (a serialised `new Date()` never is).
   */
  lemma UpdatedChallengeDatedIffCompleted(c: Challenge, newStatus: string, now: Timestamp)
    requires now != ""
    ensures DatedIffCompleted(UpdatedChallenge(c, newStatus, now))
    ensures UpdatedChallenge(c, newStatus, now).status == newStatus
    ensures UpdatedChallenge(c, newStatus, now).(status := c.status, dateCompleted := c.dateCompleted) == c
  {
  }

  /**
   * `updateStatus` touches only the chosen challenge and the balance; the balance
   * grows by the reward exactly when a challenge with a null or empty date is completed.
   */
  lemma StatusUpdateFrame(u: UserRecord, index: int, newStatus: string, now: Timestamp)
    requires HasChallenge(u, index)
    ensures var r, before := StatusUpdatedRecord(u, index, newStatus, now), u.data.challenges.value;
      && r.(data := u.data, points := u.points) == u
      && r.data.(challenges := u.data.challenges) == u.data
      && |r.data.challenges.value| == |before|
      && (forall j :: 0 <= j < |before| && j != index ==> r.data.challenges.value[j] == before[j])
      && r.data.challenges.value[index] == UpdatedChallenge(before[index], newStatus, now)
      && (Awards(before[index], newStatus) ==> r.points == Some(PointsOr0(u.points) + before[index].reward))
      && (!Awards(before[index], newStatus) ==> r.points == u.points)
  {
  }

  /**
   * A challenge stored with an empty date, as an imported file may hold it, counts
   * as undated: completing it dates it and awards its reward.
   */
  lemma EmptyDateCompletionAwards(u: UserRecord, index: int, now: Timestamp)
    requires HasChallenge(u, index) && u.data.challenges.value[index].dateCompleted == Some("")
    ensures var r, c := StatusUpdatedRecord(u, index, Completed, now), u.data.challenges.value[index];
      && r.data.challenges.value[index] == c.(status := Completed, dateCompleted := Some(now))
      && r.points == Some(PointsOr0(u.points) + c.reward)
  {
  }

  /** Completing the same challenge twice awards its reward once; the second call changes nothing. */
  lemma CompleteTwiceAwardsOnce(u: UserRecord, index: int, now1: Timestamp, now2: Timestamp)
    requires HasChallenge(u, index) && now1 != ""
    ensures HasChallenge(StatusUpdatedRecord(u, index, Completed, now1), index)
    ensures var once := StatusUpdatedRecord(u, index, Completed, now1);
      StatusUpdatedRecord(once, index, Completed, now2) == once
  {
    var once := StatusUpdatedRecord(u, index, Completed, now1);
    var challenges := once.data.challenges.value;
    assert UpdatedChallenge(challenges[index], Completed, now2) == challenges[index];
    assert challenges[index := challenges[index]] == challenges;
  }

  /**
   * Moving a completed challenge away from "Completed" clears its date without
   * taking points back, so completing it again awards the reward a second time.
   */
  lemma ReopenAwardsAgain(u: UserRecord, index: int, other: string, t1: Timestamp, t2: Timestamp, t3: Timestamp)
    requires HasChallenge(u, index) && other != Completed && t1 != ""
    requires Undated(u.data.challenges.value[index])
    ensures var r1 := StatusUpdatedRecord(u, index, Completed, t1);
      && HasChallenge(r1, index)
      && var r2 := StatusUpdatedRecord(r1, index, other, t2);
      && r2.points == r1.points
      && HasChallenge(r2, index)
      && StatusUpdatedRecord(r2, index, Completed, t3).points
           == Some(PointsOr0(u.points) + 2 * u.data.challenges.value[index].reward)
  {
  }

  /** Adding and deleting actions always leave a non-negative balance; status updates keep one when rewards are non-negative. */
  lemma PointsStayNonNegative(u: UserRecord, entry: EcoAction, index: int, newStatus: string, now: Timestamp)
    ensures PointsNonNegative(AddedRecord(u, entry))
    ensures u.data.ecoActions.Some? ==> PointsNonNegative(DeletedRecord(u, index))
    ensures HasChallenge(u, index) && PointsNonNegative(u) && u.data.challenges.value[index].reward >= 0
      ==> PointsNonNegative(StatusUpdatedRecord(u, index, newStatus, now))
  {
  }
}
