/**
 * The user lifecycle of js/userData.js: creating a user, saving it to the single
 * storage slot, importing and exporting it as a file, and logging out.
 *
 * Left to parameters: the current date (`today`, already formatted as the
 * locale string the source stores), the file the user chose (already parsed:
 * `None` when its text is not JSON), and the answer to the logout confirmation.
 */
module UserData {
  import opened Wrappers
  import opened Records

  /** The browser's local storage under the key "user": empty, or one record. */
  class Store {
    var slot: Option<UserRecord>

    constructor (initial: Option<UserRecord>)
      ensures slot == initial
    {
      slot := initial;
    }

    /** Reads the stored record back (`User.getUser`). */
    method GetUser() returns (r: Option<UserRecord>)
      ensures r == slot
    {
      r := slot;
    }

    /** Overwrites the slot with one record, with no merge (`User.setUser`). */
    method SetUser(u: UserRecord)
      modifies this
      ensures slot == Some(u)
    {
      slot := Some(u);
    }

    /** `localStorage.removeItem("user")`. */
    method RemoveUser()
      modifies this
      ensures slot == None
    {
      slot := None;
    }
  }

  /** A record the lifecycle can have stored: both identity fields are non-empty. */
  predicate Identified(u: UserRecord) {
    u.email != "" && u.name != ""
  }

  /** Why creating or importing a user failed. */
  datatype UserError =
    | MissingIdentity  // "Invalid input: email and name are required."
    | NotJson          // JSON.parse threw on the file's text
    | InvalidFormat    // "Invalid user data format."
    | NoStoredUser     // export found nothing in storage

  /**
   * The top-level fields of a parsed file. Each of the five known fields may be
   * missing; `otherFields` holds every other top-level field (name and JSON text).
   */
  datatype Payload = Payload(
    createdDate: Option<string>,
    email: Option<string>,
    name: Option<string>,
    data: Option<EcoData>,
    ecopoints: Option<int>,
    otherFields: map<string, string>)

  /** The import check, `!email || !name || !data` negated: both strings present and non-empty, and data present. */
  predicate WellFormed(p: Payload) {
    p.email.Some? && p.email.value != "" && p.name.Some? && p.name.value != "" && p.data.Some?
  }

  /** The record that importing `p` leaves in storage, if `p` is accepted. */
  function ImportedRecord(p: Payload): (r: Option<UserRecord>)
    ensures r.Some? <==> WellFormed(p)
    ensures r.Some? ==> Identified(r.value)
  {
    if WellFormed(p) then
      Some(UserRecord(p.createdDate, p.email.value, p.name.value, p.data.value, p.ecopoints))
    else None
  }

  /** What the export produces: a file name and the serialised record. */
  datatype Export = Export(fileName: string, content: UserRecord)

  /** The name of the downloaded file. */
  function ExportFileName(email: string): (f: string)
    ensures |f| == |email| + 19
    ensures f[..9] == "Eco-Life_" && f[|f| - 10..] == "_data.json"
    ensures f[9..|f| - 10] == email
  {
    "Eco-Life_" + email + "_data.json"
  }

  /** The top-level fields of an exported file when it is read back in. */
  function ReadBack(u: UserRecord): (p: Payload)
    ensures p.otherFields == map[]
  {
    Payload(u.createdDate, Some(u.email), Some(u.name), Some(u.data), u.points, map[])
  }

  /** Exporting a stored record and importing the file restores the same record. */
  lemma ExportImportRoundTrip(u: UserRecord)
    requires Identified(u)
    ensures ImportedRecord(ReadBack(u)) == Some(u)
  {
  }

  /**
   * Importing a file and exporting the result gives back the file's five known
   * fields; the other top-level fields are gone.
   */
  lemma ImportExportKeepsKnownFields(p: Payload)
    requires WellFormed(p)
    ensures ImportedRecord(p).Some?
    ensures ReadBack(ImportedRecord(p).value) == p.(otherFields := map[])
  {
  }

  /** An instance of class User in js/userData.js. */
  class User {
    var createdDate: Option<string>
    var email: string
    var name: string
    var data: EcoData
    var ecopoints: Option<int>

    /** The object `saveToLocalStorage` serialises: these five fields and no others. */
    function Snapshot(): UserRecord
      reads this
    {
      UserRecord(createdDate, email, name, data, ecopoints)
    }

    /**
     * The body of the User constructor after its guard: a new user with no points
     * and four empty collections, saved at once.
     */
    constructor (store: Store, email: string, name: string, today: string)
      requires email != "" && name != ""
      modifies store
      ensures this.email == email && this.name == name && createdDate == Some(today)
      ensures data == EmptyData && ecopoints == Some(0)
      ensures store.slot == Some(Snapshot()) && Identified(Snapshot())
    {
      this.email := email;
      this.name := name;
      createdDate := Some(today);
      data := EmptyData;
      ecopoints := Some(0);
      new;
      SaveToLocalStorage(store);
    }

    /** Replaces the slot wholesale with this user's five fields. */
    method SaveToLocalStorage(store: Store)
      modifies store
      ensures store.slot == Some(Snapshot())
    {
      store.SetUser(Snapshot());
    }

    /**
     * `new User({email, name})` including its guard: an empty email or name
     * throws before anything is written.
     */
    static method CreateUser(store: Store, email: string, name: string, today: string)
      returns (r: Option<User>, err: Option<UserError>)
      modifies store
      ensures r.None? <==> email == "" || name == ""
      ensures r.None? ==> err == Some(MissingIdentity) && store.slot == old(store.slot)
      ensures r.Some? ==> err.None? && fresh(r.value) && r.value.email == email && r.value.name == name
      ensures r.Some? ==> store.slot == Some(UserRecord(Some(today), email, name, EmptyData, Some(0)))
    {
      if email == "" || name == "" {
        return None, Some(MissingIdentity);
      }
      var user := new User(store, email, name, today);
      return Some(user), None;
    }

    /**
     * Imports a parsed file. A file that is not JSON, or whose email, name or
     * data is missing, is rejected before any write. Otherwise a new user is
     * constructed (and saved), its date, data and points are overwritten with the
     * file's, and it is saved again; the points are not recomputed.
     */
    static method ImportUser(store: Store, file: Option<Payload>, today: string)
      returns (r: Option<User>, err: Option<UserError>)
      modifies store
      ensures file.None? ==> r.None? && err == Some(NotJson)
      ensures file.Some? && !WellFormed(file.value) ==> r.None? && err == Some(InvalidFormat)
      ensures r.None? ==> store.slot == old(store.slot)
      ensures r.Some? <==> file.Some? && WellFormed(file.value)
      ensures r.Some? ==> err.None? && fresh(r.value)
      ensures r.Some? ==> store.slot == ImportedRecord(file.value) && store.slot == Some(r.value.Snapshot())
    {
      if file.None? {
        return None, Some(NotJson);
      }
      var p := file.value;
      if !WellFormed(p) {
        return None, Some(InvalidFormat);
      }
      var user := new User(store, p.email.value, p.name.value, today);
      user.createdDate := p.createdDate;
      user.data := p.data.value;
      user.ecopoints := p.ecopoints;
      user.SaveToLocalStorage(store);
      return Some(user), None;
    }

    /** Reads the stored record and names the download after its email. */
    static method ExportUser(store: Store) returns (r: Option<Export>, err: Option<UserError>)
      ensures store.slot.None? ==> r.None? && err == Some(NoStoredUser)
      ensures store.slot.Some? ==> err.None? && r.Some? && r.value.content == store.slot.value
      ensures store.slot.Some? ==> r.value.fileName == "Eco-Life_" + store.slot.value.email + "_data.json"
    {
      var u := store.GetUser();
      if u.None? {
        return None, Some(NoStoredUser);
      }
      return Some(Export(ExportFileName(u.value.email), u.value)), None;
    }

    /** Clears the slot when the user confirms; otherwise nothing happens. */
    static method Logout(store: Store, confirmed: bool)
      modifies store
      ensures confirmed ==> store.slot == None
      ensures !confirmed ==> store.slot == old(store.slot)
    {
      if confirmed {
        store.RemoveUser();
      }
    }
  }
}
