/** The `users` table as an in-memory map from login to its row. Every SQL
    helper of the server is a read-modify-write of one row, so a map update
    is a faithful stand-in for the statement and its commit. */
module Store {
  import opened Protocol
  import Lists

  /** One row: password, contact list and pending-message queue (both stored
      as JSON lists in the database). */
  datatype UserRecord = UserRecord(password: string, contacts: seq<Login>, messages: seq<Message>)

  type Users = map<Login, UserRecord>

  /** What the server keeps true of the rows it writes: a contact list names
      only registered users and never the same user twice. */
  ghost predicate WellFormed(users: Users) {
    forall l | l in users ::
      && Lists.NoDup(users[l].contacts)
      && forall c | c in users[l].contacts :: c in users
  }

  /** The row `INSERT`ed for a new user: `'[]'` contacts and `'[]'` messages. */
  function NewRecord(password: string): UserRecord {
    UserRecord(password, [], [])
  }

  lemma RegisterKeepsWellFormed(users: Users, l: Login, password: string)
    requires WellFormed(users) && l !in users
    ensures WellFormed(users[l := NewRecord(password)])
  {
  }

  /** Appending a registered user who is not yet a contact keeps the table well formed. */
  lemma AppendContactKeepsWellFormed(users: Users, l: Login, c: Login)
    requires WellFormed(users) && l in users && c in users && c !in users[l].contacts
    ensures WellFormed(users[l := users[l].(contacts := users[l].contacts + [c])])
  {
    Lists.AppendKeepsNoDup(users[l].contacts, c);
  }

  /** Removing a contact keeps the table well formed, and the contact is then gone. */
  lemma RemoveContactKeepsWellFormed(users: Users, l: Login, c: Login)
    requires WellFormed(users) && l in users && c in users[l].contacts
    ensures WellFormed(users[l := users[l].(contacts := Lists.RemoveFirst(users[l].contacts, c))])
    ensures c !in Lists.RemoveFirst(users[l].contacts, c)
  {
    Lists.RemoveFirstKeepsNoDup(users[l].contacts, c);
  }

  /** Changing a pending queue never touches contact lists. */
  lemma SetMessagesKeepsWellFormed(users: Users, l: Login, messages: seq<Message>)
    requires WellFormed(users) && l in users
    ensures WellFormed(users[l := users[l].(messages := messages)])
  {
  }
}
