/** The `attendance` table of the PostgreSQL schema, at most one row per
    (user_id, date), and the newest-first attendance log read from it. */
module AttendanceStore {
  import opened Domain

  type Key = (UserId, Date)

  /** One attendance row; a NULL column is None. */
  datatype Record = Record(
    checkIn: Option<TimeOfDay>,
    checkOut: Option<TimeOfDay>,
    lateMinutes: Option<int>,
    earlyMinutes: Option<int>,
    isPresent: Option<bool>,
    isPaidLeave: Option<bool>,
    permissionUsed: Option<bool>)

  /** The row a check-in INSERT creates: `check_in`, `late_minutes` and
      `is_present = true`; the columns it does not name are NULL. */
  function CheckInRecord(t: TimeOfDay, late: int): Record {
    Record(Some(t), None, Some(late), None, Some(true), None, None)
  }

  /** The row after `UPDATE attendance SET check_out = t, early_minutes = early`. */
  function CheckOutRecord(rec: Record, t: TimeOfDay, early: int): Record {
    rec.(checkOut := Some(t), earlyMinutes := Some(early))
  }

  /** The per-(user, date) lifecycle: no row, checked in, checked out. */
  datatype Phase = NotCheckedIn | CheckedIn | CheckedOut

  function PhaseOf(rows: map<Key, Record>, key: Key): Phase {
    if key !in rows then NotCheckedIn
    else if rows[key].checkOut.None? then CheckedIn
    else CheckedOut
  }

  /** The attendance table: rows keyed by (user_id, date). */
  class AttendanceTable {
    var rows: map<Key, Record>

    constructor ()
      ensures rows == map[]
    {
      rows := map[];
    }
  }

  /** The columns `SELECT date, check_in, check_out, late_minutes,
      early_minutes, is_present, is_paid_leave` reads. */
  datatype LogEntry = LogEntry(
    date: Date,
    checkIn: Option<TimeOfDay>,
    checkOut: Option<TimeOfDay>,
    lateMinutes: Option<int>,
    earlyMinutes: Option<int>,
    isPresent: Option<bool>,
    isPaidLeave: Option<bool>)

  function Project(d: Date, rec: Record): LogEntry {
    LogEntry(d, rec.checkIn, rec.checkOut, rec.lateMinutes, rec.earlyMinutes, rec.isPresent, rec.isPaidLeave)
  }

  /** The dates on which a user has a row. */
  function UserDates(rows: map<Key, Record>, user: UserId): set<Date> {
    set k | k in rows && k.0 == user :: k.1
  }

  lemma UserDatesHaveRows(rows: map<Key, Record>, user: UserId)
    ensures forall d :: d in UserDates(rows, user) ==> (user, d) in rows
  {
    forall d | d in UserDates(rows, user) ensures (user, d) in rows {
      var k :| k in rows && k.0 == user && k.1 == d;
      assert k == (user, d);
    }
  }

  /** `SELECT ... FROM attendance WHERE user_id = %s ORDER BY date DESC`. */
  function AttendanceLog(rows: map<Key, Record>, user: UserId): (log: seq<LogEntry>)
    ensures |log| == |UserDates(rows, user)|
    ensures forall i :: 0 <= i < |log| ==>
      (user, log[i].date) in rows && log[i] == Project(log[i].date, rows[(user, log[i].date)])
    ensures forall k :: k in rows && k.0 == user ==> exists i :: 0 <= i < |log| && log[i].date == k.1
    ensures forall i, j :: 0 <= i < j < |log| ==> DateLt(log[j].date, log[i].date)
  {
    UserDatesHaveRows(rows, user);
    var ds := DatesDescending(UserDates(rows, user));
    var log := seq(|ds|, i requires 0 <= i < |ds| => Project(ds[i], rows[(user, ds[i])]));
    LogCoversUser(rows, user, ds, log);
    log
  }

  lemma LogCoversUser(rows: map<Key, Record>, user: UserId, ds: seq<Date>, log: seq<LogEntry>)
    requires |log| == |ds| && forall i :: 0 <= i < |ds| ==> log[i].date == ds[i]
    requires forall d :: d in ds <==> d in UserDates(rows, user)
    ensures forall k :: k in rows && k.0 == user ==> exists i :: 0 <= i < |log| && log[i].date == k.1
  {
    forall k | k in rows && k.0 == user
      ensures exists i :: 0 <= i < |log| && log[i].date == k.1
    {
      assert k.1 in UserDates(rows, user);
      var i :| 0 <= i < |ds| && ds[i] == k.1;
      assert log[i].date == k.1;
    }
  }
}
