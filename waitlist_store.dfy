/**
 * The `waitlist` table as the edge function sees it: rows keyed by a unique email,
 * each with a store-assigned id and a `welcome_email_sent` flag. The store, not the
 * handler, enforces uniqueness of the email: an insert of an email that is already
 * present fails with SQLSTATE 23505 (unique_violation).
 */
module WaitlistStore {
  import opened Wrappers

  /** SQLSTATE reported by PostgreSQL for a unique_violation. */
  const UniqueViolation: string := "23505"

  /** One row of the table (its creation timestamp is never read, so it is not modelled). */
  datatype Entry = Entry(id: nat, welcomeEmailSent: bool)

  /** The whole table, and the id the store will assign to the next row. */
  datatype Table = Table(rows: map<string, Entry>, nextId: nat)

  /** Result of `insert([{ email }]).select().single()`. */
  datatype InsertResult = Inserted(id: nat) | InsertFailed(code: string)

  /** Every id was handed out by the counter and no two rows share an id. */
  predicate WellFormed(t: Table)
  {
    (forall e | e in t.rows :: t.rows[e].id < t.nextId) &&
    (forall e1, e2 | e1 in t.rows && e2 in t.rows && t.rows[e1].id == t.rows[e2].id :: e1 == e2)
  }

  /**
   * The store's answer to an insert. `fault` is an error the store reports for reasons
   * of its own (unreachable, permissions, ...) before it looks at the row.
   */
  function InsertRow(t: Table, email: string, fault: Option<string>): (r: (InsertResult, Table))
    ensures r.0.Inserted? <==> fault.None? && email !in t.rows
    ensures r.0.Inserted? ==>
      r.0.id == t.nextId && r.1 == Table(t.rows[email := Entry(t.nextId, false)], t.nextId + 1)
    ensures r.0.InsertFailed? ==> r.1 == t
    ensures r.0.InsertFailed? && fault.None? ==> r.0.code == UniqueViolation
    ensures WellFormed(t) ==> WellFormed(r.1)
  {
    if fault.Some? then (InsertFailed(fault.value), t)
    else if email in t.rows then (InsertFailed(UniqueViolation), t)
    else (Inserted(t.nextId), Table(t.rows[email := Entry(t.nextId, false)], t.nextId + 1))
  }

  /**
   * `update({ welcome_email_sent: true }).eq('id', id)`: every row with that id gets the
   * flag, nothing else changes; `fails` is a store error, which leaves the table as it was.
   * Returns whether the update succeeded.
   */
  function MarkWelcomeSent(t: Table, id: nat, fails: bool): (r: (bool, Table))
    ensures r.0 == !fails
    ensures r.1.nextId == t.nextId && r.1.rows.Keys == t.rows.Keys
    ensures forall e | e in t.rows ::
      r.1.rows[e] == if !fails && t.rows[e].id == id then t.rows[e].(welcomeEmailSent := true) else t.rows[e]
    ensures WellFormed(t) ==> WellFormed(r.1)
  {
    if fails then (false, t)
    else
      (true, Table(map e | e in t.rows ::
                     if t.rows[e].id == id then t.rows[e].(welcomeEmailSent := true) else t.rows[e],
                   t.nextId))
  }

  /** The table as a mutable store object; its two write operations are the ones above. */
  class Waitlist {
    var rows: map<string, Entry>
    var nextId: nat

    function Contents(): Table
      reads this
    {
      Table(rows, nextId)
    }

    predicate Valid()
      reads this
    {
      WellFormed(Contents())
    }

    constructor ()
      ensures Valid() && rows == map[] && nextId == 0
    {
      rows := map[];
      nextId := 0;
    }

    method Insert(email: string, fault: Option<string>) returns (r: InsertResult)
      requires Valid()
      modifies this
      ensures Valid()
      ensures (r, Contents()) == InsertRow(old(Contents()), email, fault)
    {
      if fault.Some? {
        r := InsertFailed(fault.value);
      } else if email in rows {
        r := InsertFailed(UniqueViolation);
      } else {
        r := Inserted(nextId);
        rows := rows[email := Entry(nextId, false)];
        nextId := nextId + 1;
      }
    }

    method UpdateWelcomeSent(id: nat, fails: bool) returns (ok: bool)
      requires Valid()
      modifies this
      ensures Valid()
      ensures (ok, Contents()) == MarkWelcomeSent(old(Contents()), id, fails)
    {
      ok := !fails;
      if ok {
        rows := map e | e in rows :: if rows[e].id == id then rows[e].(welcomeEmailSent := true) else rows[e];
      }
    }
  }
}
