/**
 * The `User` record the dashboard edits and the alert engine reads. Only the
 * columns that the two use are kept; `password_hash` is not modelled.
 */
module Models {
  import opened Wrappers

  /** A snapshot of one `User` row, as the engine's query returns it. */
  datatype UserRow = UserRow(
    id: int,
    username: string,
    role: string,
    email: Option<string>,
    symbols: Option<string>,
    notifyEnabled: bool)

  /** A `User` record that request handlers update field by field. */
  class User {
    const id: int
    var username: string
    var role: string
    var email: Option<string>
    var symbols: Option<string>
    var notifyEnabled: bool

    /** A new account: role "user", no e-mail, no watch list, notifications on. */
    constructor (id: int, username: string)
      ensures this.id == id && this.username == username
      ensures role == "user" && email == None && symbols == None && notifyEnabled
    {
      this.id := id;
      this.username := username;
      role := "user";
      email := None;
      symbols := None;
      notifyEnabled := true;
    }

    /** The row the engine reads for this record. */
    function Row(): (r: UserRow)
      reads this
      ensures r.id == id && r.symbols == symbols && r.email == email && r.notifyEnabled == notifyEnabled
    {
      UserRow(id, username, role, email, symbols, notifyEnabled)
    }
  }
}
