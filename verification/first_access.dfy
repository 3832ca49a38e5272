/**
 * The once-per-day flag kept in the database: the first call on a date
 * answers 1 and records that the date has been seen; later calls on that
 * date answer 0. The table is a sequence of rows in storage order, and the
 * lookup takes the first row for the date, as `.first()` does. Today's
 * date is an input (a day number).
 */
module FirstAccess {
  import opened Wrappers

  datatype Row = Row(date: int, isFirst: bool)

  /** Where the first row for `date` is, if there is one. */
  function FindFirst(table: seq<Row>, date: int): (r: Option<nat>)
    ensures r.Some? ==> r.value < |table| && table[r.value].date == date &&
                        forall j :: 0 <= j < r.value ==> table[j].date != date
    ensures r.None? ==> forall j :: 0 <= j < |table| ==> table[j].date != date
  {
    if |table| == 0 then None
    else if table[0].date == date then Some(0)
    else
      match FindFirst(table[1..], date)
      case Some(i) => Some(i + 1)
      case None => None
  }

  /** The table after a call, and the call's answer. */
  datatype Answer = Answer(table: seq<Row>, first: int)

  /**
   * `check_and_update_first`: with no row for today a row already marked as
   * seen is added and the answer is 1; a row still marked first is marked
   * seen and the answer is 1; a row marked seen answers 0 and changes
   * nothing.
   */
  function CheckAndUpdateFirst(table: seq<Row>, today: int): (r: Answer)
    ensures r.first == 0 || r.first == 1
    ensures var found := FindFirst(table, today);
            r.first == 1 <==> found.None? || table[found.value].isFirst
    ensures r.first == 0 ==> r.table == table
    ensures |r.table| == |table| + (if FindFirst(table, today).None? then 1 else 0)
    ensures forall j :: 0 <= j < |table| && table[j].date != today ==> r.table[j] == table[j]
    ensures var seen := FindFirst(r.table, today);
            seen.Some? && !r.table[seen.value].isFirst
  {
    match FindFirst(table, today)
    case None =>
      var t := table + [Row(today, false)];
      assert FindFirst(t, today) == Some(|table|) by {
        FindInExtended(table, today, Row(today, false));
      }
      Answer(t, 1)
    case Some(i) =>
      if table[i].isFirst then
        var t := table[i := Row(today, false)];
        assert FindFirst(t, today) == Some(i) by {
          FindAfterUpdate(table, today, i, Row(today, false));
        }
        Answer(t, 1)
      else Answer(table, 0)
  }

  /** A row appended after a table with no row for its date is the first for that date. */
  lemma {:induction false} FindInExtended(table: seq<Row>, date: int, row: Row)
    requires FindFirst(table, date).None? && row.date == date
    ensures FindFirst(table + [row], date) == Some(|table|)
  {
    if |table| > 0 {
      assert (table + [row])[1..] == table[1..] + [row];
      FindInExtended(table[1..], date, row);
    }
  }

  /** Replacing the first row for a date by another row for that date keeps it first. */
  lemma {:induction false} FindAfterUpdate(table: seq<Row>, date: int, i: nat, row: Row)
    requires FindFirst(table, date) == Some(i) && row.date == date
    ensures FindFirst(table[i := row], date) == Some(i)
  {
    if i > 0 {
      assert table[i := row][1..] == table[1..][i - 1 := row];
      FindAfterUpdate(table[1..], date, i - 1, row);
    }
  }

  /** Two calls on the same date answer 1 and then 0, and the second leaves the table as it was. */
  lemma SecondCallAnswersZero(table: seq<Row>, today: int)
    ensures var a := CheckAndUpdateFirst(table, today);
            var b := CheckAndUpdateFirst(a.table, today);
            a.first == 1 ==> b == Answer(a.table, 0)
  {
  }

  /** A call on one date leaves the answer for every other date as it was. */
  lemma OtherDatesUnaffected(table: seq<Row>, today: int, other: int)
    requires other != today
    ensures CheckAndUpdateFirst(CheckAndUpdateFirst(table, today).table, other).first ==
            CheckAndUpdateFirst(table, other).first
  {
    var t := CheckAndUpdateFirst(table, today).table;
    if FindFirst(table, today).None? {
      assert t == table + [Row(today, false)];
      FindUnchanged(table, other, Row(today, false));
    } else {
      var i := FindFirst(table, today).value;
      if table[i].isFirst {
        assert t == table[i := Row(today, false)];
        FindIgnoresOtherDate(table, other, i, Row(today, false));
      }
    }
  }

  /** Appending a row for another date does not change where a date is found. */
  lemma {:induction false} FindUnchanged(table: seq<Row>, date: int, row: Row)
    requires row.date != date
    ensures FindFirst(table + [row], date) == FindFirst(table, date)
  {
    if |table| > 0 {
      assert (table + [row])[1..] == table[1..] + [row];
      FindUnchanged(table[1..], date, row);
    }
  }

  /** Replacing a row that is not for `date` by another that is not for it does not change where `date` is found. */
  lemma {:induction false} FindIgnoresOtherDate(table: seq<Row>, date: int, i: nat, row: Row)
    requires i < |table| && table[i].date != date && row.date != date
    ensures FindFirst(table[i := row], date) == FindFirst(table, date)
  {
    if i > 0 {
      assert table[i := row][1..] == table[1..][i - 1 := row];
      FindIgnoresOtherDate(table[1..], date, i - 1, row);
    }
  }
}
