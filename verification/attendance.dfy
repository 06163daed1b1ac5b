/** The attendance tracker: one attendance sheet per date and session,
    initialised to "present" for every listed student, edited per student,
    counted, and sent as a list of records. */
module Attendance {
  import opened Wrappers
  import opened JsText

  datatype Status = Present | Absent | Leave

  datatype Session = Morning | Evening

  function SessionName(s: Session): (r: string)
    ensures |r| == 7
  {
    match s
    case Morning => "morning"
    case Evening => "evening"
  }

  // ---------------------------------------------------------------------
  // Dates and sheet keys.

  /** A calendar date as the local clock reports it; `month` is 1-based. */
  datatype LocalDate = LocalDate(year: nat, month: nat, day: nat)

  predicate ValidDate(d: LocalDate) {
    1 <= d.month <= 12 && 1 <= d.day <= 31
  }

  /** A number padded to two digits keeps its value. */
  lemma ZeroPadded(n: nat)
    requires n < 100
    ensures var p := PadStart(NatToString(n), 2, '0');
      |p| == 2 && AllDigits(p) && DigitsValue(p) == n
  {
    var s := NatToString(n);
    var p := PadStart(s, 2, '0');
    if |s| < 2 {
      LeadingZeros(2 - |s|, s);
      assert p == seq(2 - |s|, _ => '0') + s;
    } else {
      assert |s| == 2 by {
        if |s| > 2 {
          LengthBound(s);
        }
      }
    }
  }

  /** A digit string without a leading zero and with three or more digits denotes at least 100. */
  lemma {:induction false} LengthBound(s: string)
    requires AllDigits(s) && |s| >= 3 && s[0] != '0'
    ensures DigitsValue(s) >= 100
    decreases |s|
  {
    var t := s[..|s| - 1];
    assert AllDigits(t);
    if |s| == 3 {
      assert t[..|t| - 1] == [s[0]];
      assert DigitsValue([s[0]]) == DigitsValue([]) * 10 + DigitValue(s[0]);
    } else {
      assert t[0] == s[0];
      LengthBound(t);
    }
  }

  /** `getLocalDateString`: `YYYY-MM-DD`, the year unpadded. */
  function LocalDateString(d: LocalDate): (r: string)
    requires ValidDate(d)
    ensures |r| == |NatToString(d.year)| + 6
    ensures r[|r| - 6] == '-' && r[|r| - 3] == '-'
  {
    ZeroPadded(d.month);
    ZeroPadded(d.day);
    Dashed(NatToString(d.year), PadStart(NatToString(d.month), 2, '0'), PadStart(NatToString(d.day), 2, '0'))
  }

  /** `${y}-${m}-${d}` */
  function Dashed(y: string, m: string, dd: string): (r: string)
    ensures |r| == |y| + |m| + |dd| + 2
  {
    y + "-" + m + "-" + dd
  }

  /** Reads `y-mm-dd` back into a date (the dashboard later hands the
      string to `new Date`). */
  function ParseLocalDate(s: string): Option<LocalDate> {
    if |s| < 7 || s[|s| - 6] != '-' || s[|s| - 3] != '-' then None
    else
      var y, m, dd := s[..|s| - 6], s[|s| - 5..|s| - 3], s[|s| - 2..];
      if AllDigits(y) && AllDigits(m) && AllDigits(dd) then
        Some(LocalDate(DigitsValue(y), DigitsValue(m), DigitsValue(dd)))
      else None
  }

  /** `y-mm-dd` reads back as its three fields. */
  lemma DateFields(y: string, m: string, dd: string)
    requires |y| >= 1 && |m| == 2 && |dd| == 2
    requires AllDigits(y) && AllDigits(m) && AllDigits(dd)
    ensures ParseLocalDate(Dashed(y, m, dd)) == Some(LocalDate(DigitsValue(y), DigitsValue(m), DigitsValue(dd)))
  {
    var r := Dashed(y, m, dd);
    assert r[..|r| - 6] == y;
    assert r[|r| - 5..|r| - 3] == m;
    assert r[|r| - 2..] == dd;
  }

  /** The date string reads back as the date it was made from. */
  lemma LocalDateStringRoundTrip(d: LocalDate)
    requires ValidDate(d)
    ensures ParseLocalDate(LocalDateString(d)) == Some(d)
  {
    ZeroPadded(d.month);
    ZeroPadded(d.day);
    var y, m, dd := NatToString(d.year), PadStart(NatToString(d.month), 2, '0'), PadStart(NatToString(d.day), 2, '0');
    DateFields(y, m, dd);
    assert LocalDateString(d) == Dashed(y, m, dd);
  }

  /** Different dates give different strings. */
  lemma LocalDateStringInjective(d1: LocalDate, d2: LocalDate)
    requires ValidDate(d1) && ValidDate(d2)
    requires LocalDateString(d1) == LocalDateString(d2)
    ensures d1 == d2
  {
    LocalDateStringRoundTrip(d1);
    LocalDateStringRoundTrip(d2);
  }

  /** `${date}-${session}`, the key of a sheet. */
  function SheetKey(date: string, session: Session): string {
    date + "-" + SessionName(session)
  }

  /** No two date/session pairs share a sheet. */
  lemma SheetKeyInjective(d1: string, s1: Session, d2: string, s2: Session)
    requires SheetKey(d1, s1) == SheetKey(d2, s2)
    ensures d1 == d2 && s1 == s2
  {
    var k := SheetKey(d1, s1);
    assert |d1| == |d2|;
    assert d1 == k[..|d1|] == d2;
    assert SessionName(s1) == k[|d1| + 1..] == SessionName(s2);
    assert SessionName(s1)[0] == SessionName(s2)[0];
  }

  // ---------------------------------------------------------------------
  // The tracker's state.

  /** A student as the attendance student list returns one. */
  datatype StudentRow = StudentRow(id: string, name: string)

  type Sheet = map<string, Status>

  datatype Tracker = Tracker(
    selectedDate: string,
    selectedSession: Session,
    sheets: map<string, Sheet>,
    attendanceExists: bool,
    isChecking: bool)

  /** The tracker opens on today's morning session with no sheets. */
  function Initial(today: LocalDate): (r: Tracker)
    requires ValidDate(today)
    ensures r.sheets == map[] && !r.attendanceExists && !r.isChecking
  {
    Tracker(LocalDateString(today), Morning, map[], false, false)
  }

  function CurrentKey(t: Tracker): string {
    SheetKey(t.selectedDate, t.selectedSession)
  }

  /** `getCurrentAttendance`: the selected sheet, or an empty one. */
  function CurrentAttendance(t: Tracker): (r: Sheet)
    ensures CurrentKey(t) !in t.sheets ==> r == map[]
  {
    if CurrentKey(t) in t.sheets then t.sheets[CurrentKey(t)] else map[]
  }

  /** The students' ids, in list order. */
  function Ids(students: seq<StudentRow>): seq<string> {
    if students == [] then [] else Ids(students[..|students| - 1]) + [students[|students| - 1].id]
  }

  /** The `reduce` that marks every student present. */
  function AllPresent(students: seq<StudentRow>): (r: Sheet)
    ensures forall k :: k in r ==> r[k] == Present
  {
    if students == [] then map[]
    else AllPresent(students[..|students| - 1])[students[|students| - 1].id := Present]
  }

  /** The initial sheet has exactly the listed students. */
  lemma {:induction false} AllPresentKeys(students: seq<StudentRow>)
    ensures forall k :: k in AllPresent(students) <==> exists i :: 0 <= i < |students| && students[i].id == k
  {
    if students != [] {
      var init := students[..|students| - 1];
      AllPresentKeys(init);
      forall k ensures k in AllPresent(students) <==> exists i :: 0 <= i < |students| && students[i].id == k {
        if k in AllPresent(init) {
          var i :| 0 <= i < |init| && init[i].id == k;
          assert students[i].id == k;
        }
        if exists i :: 0 <= i < |students| && students[i].id == k {
          var i :| 0 <= i < |students| && students[i].id == k;
          if i < |init| {
            assert init[i].id == k;
          }
        }
      }
    }
  }

  /** The initialising effect: once students are loaded and no saved sheet
      exists, the selected sheet is created with everyone present if it
      does not exist yet. (`studentsData?.data` is truthy for an empty list.) */
  function InitEffect(t: Tracker, students: Option<seq<StudentRow>>): (r: Tracker)
    ensures r == t.(sheets := r.sheets)
    ensures students.None? || t.attendanceExists || CurrentKey(t) in t.sheets ==> r == t
    ensures students.Some? && !t.attendanceExists && CurrentKey(t) !in t.sheets ==>
      r.sheets == t.sheets[CurrentKey(t) := AllPresent(students.value)]
    ensures forall k :: k in t.sheets ==> k in r.sheets && r.sheets[k] == t.sheets[k]
    ensures forall k :: k in r.sheets && k != CurrentKey(t) ==> k in t.sheets
  {
    if students.Some? && !t.attendanceExists && CurrentKey(t) !in t.sheets then
      t.(sheets := t.sheets[CurrentKey(t) := AllPresent(students.value)])
    else t
  }

  /** Running the effect again changes nothing. */
  lemma InitEffectIdempotent(t: Tracker, students: Option<seq<StudentRow>>)
    ensures InitEffect(InitEffect(t, students), students) == InitEffect(t, students)
  {
  }

  /** `handleAttendanceChange`: sets one student's status on the selected
      sheet (creating the sheet if needed) and touches nothing else. */
  function HandleAttendanceChange(t: Tracker, studentId: string, status: Status): (r: Tracker)
    ensures CurrentAttendance(r) == CurrentAttendance(t)[studentId := status]
    ensures forall k :: k != CurrentKey(t) ==> (k in r.sheets <==> k in t.sheets)
    ensures forall k :: k != CurrentKey(t) && k in t.sheets ==> r.sheets[k] == t.sheets[k]
    ensures r == t.(sheets := r.sheets)
  {
    t.(sheets := t.sheets[CurrentKey(t) := CurrentAttendance(t)[studentId := status]])
  }

  /** The status a row shows: the sheet's, "present" when the sheet has none. */
  function DisplayStatus(sheet: Sheet, studentId: string): (r: Status)
    ensures studentId in sheet ==> r == sheet[studentId]
    ensures studentId !in sheet ==> r == Present
  {
    if studentId in sheet then sheet[studentId] else Present
  }

  /** A change shows on the changed row at once and on no other row. */
  lemma ChangeShowsOnItsRow(t: Tracker, studentId: string, status: Status, other: string)
    requires other != studentId
    ensures DisplayStatus(CurrentAttendance(HandleAttendanceChange(t, studentId, status)), studentId) == status
    ensures DisplayStatus(CurrentAttendance(HandleAttendanceChange(t, studentId, status)), other)
         == DisplayStatus(CurrentAttendance(t), other)
  {
  }

  // ---------------------------------------------------------------------
  // The existence check.

  /** What the check request returned: a failure, or a body whose `exists` (here `found`)
      may be missing. */
  datatype CheckResult = CheckFailed | Checked(found: Option<bool>)

  function StartCheck(t: Tracker): (r: Tracker)
    ensures r.isChecking <==> t.isChecking || t.selectedDate != ""
  {
    if t.selectedDate == "" then t else t.(isChecking := true)
  }

  /** Only an explicit `exists: true` blocks the sheet; a failed check lets
      the user go on. */
  function OnCheckResult(t: Tracker, result: CheckResult): (r: Tracker)
    ensures r.attendanceExists <==> result == Checked(Some(true))
    ensures !r.isChecking
    ensures r == t.(attendanceExists := r.attendanceExists, isChecking := false)
  {
    var found := match result case CheckFailed => false case Checked(e) => e == Some(true);
    t.(attendanceExists := found, isChecking := false)
  }

  function SelectDate(t: Tracker, date: string): Tracker
  {
    t.(selectedDate := date)
  }

  function SelectSession(t: Tracker, s: Session): Tracker
  {
    t.(selectedSession := s)
  }

  /** Switching session and back returns to the same sheet, with whatever
      was marked on it. */
  lemma SessionsKeepTheirSheets(t: Tracker, studentId: string, status: Status, other: Session)
    requires other != t.selectedSession
    ensures var marked := HandleAttendanceChange(t, studentId, status);
      var away := HandleAttendanceChange(SelectSession(marked, other), studentId, Absent);
      CurrentAttendance(SelectSession(away, t.selectedSession)) == CurrentAttendance(marked)
  {
    var marked := HandleAttendanceChange(t, studentId, status);
    var m := SelectSession(marked, other);
    if CurrentKey(m) == CurrentKey(t) {
      SheetKeyInjective(t.selectedDate, other, t.selectedDate, t.selectedSession);
    }
  }

  // ---------------------------------------------------------------------
  // Statistics.

  /** How many students of the sheet have a status. */
  function Count(sheet: Sheet, s: Status): (r: nat)
    ensures r <= |sheet|
  {
    var ks := set k | k in sheet && sheet[k] == s;
    assert ks <= sheet.Keys;
    Cardinality(ks, sheet.Keys);
    |ks|
  }

  lemma Cardinality(a: set<string>, b: set<string>)
    requires a <= b
    ensures |a| <= |b|
  {
    assert b == a + (b - a);
  }

  datatype Stats = Stats(present: nat, absent: nat, leave: nat, total: nat)

  /** `getAttendanceStats`: the three counts of the selected sheet and the
      number of listed students; all zero before the list arrives. */
  function AttendanceStats(t: Tracker, students: Option<seq<StudentRow>>): (r: Stats)
    ensures students.None? ==> r == Stats(0, 0, 0, 0)
    ensures students.Some? ==> r.total == |students.value|
    ensures students.Some? ==>
      && r.present == Count(CurrentAttendance(t), Present)
      && r.absent == Count(CurrentAttendance(t), Absent)
      && r.leave == Count(CurrentAttendance(t), Leave)
    ensures students.Some? ==> r.present + r.absent + r.leave == |CurrentAttendance(t)|
  {
    match students
    case None => Stats(0, 0, 0, 0)
    case Some(list) =>
      var sheet := CurrentAttendance(t);
      CountsAddUp(sheet);
      Stats(Count(sheet, Present), Count(sheet, Absent), Count(sheet, Leave), |list|)
  }

  /** Every marked student is counted exactly once. */
  lemma CountsAddUp(sheet: Sheet)
    ensures Count(sheet, Present) + Count(sheet, Absent) + Count(sheet, Leave) == |sheet|
  {
    var p := set k | k in sheet && sheet[k] == Present;
    var a := set k | k in sheet && sheet[k] == Absent;
    var l := set k | k in sheet && sheet[k] == Leave;
    assert sheet.Keys == p + a + l;
    assert p * a == {} && (p + a) * l == {};
  }

  /** A freshly initialised sheet counts every distinct student present. */
  lemma FreshSheetAllPresent(t: Tracker, students: seq<StudentRow>)
    requires CurrentKey(t) !in t.sheets && !t.attendanceExists
    ensures var r := InitEffect(t, Some(students));
      var st := AttendanceStats(r, Some(students));
      && st.absent == 0 && st.leave == 0
      && st.present == |AllPresent(students)| <= st.total
  {
    var sheet := AllPresent(students);
    assert (set k | k in sheet && sheet[k] == Absent) == {};
    assert (set k | k in sheet && sheet[k] == Leave) == {};
    assert (set k | k in sheet && sheet[k] == Present) == sheet.Keys;
    AllPresentSize(students);
  }

  lemma {:induction false} AllPresentSize(students: seq<StudentRow>)
    ensures |AllPresent(students)| <= |students|
  {
    if students != [] {
      AllPresentSize(students[..|students| - 1]);
    }
  }

  // ---------------------------------------------------------------------
  // Saving.

  datatype StudentRecord = StudentRecord(student: string, status: Status)

  datatype SaveRequest = SaveRequest(sessionType: string, date: string, records: seq<StudentRecord>)

  /** The records list the sheet: each entry once, with its status. */
  ghost predicate ListsSheet(records: seq<StudentRecord>, sheet: Sheet) {
    && (forall i :: 0 <= i < |records| ==> records[i].student in sheet && sheet[records[i].student] == records[i].status)
    && (forall i, j :: 0 <= i < j < |records| ==> records[i].student != records[j].student)
    && (forall k :: k in sheet ==> exists i :: 0 <= i < |records| && records[i].student == k)
  }

  /** `handleSave`'s guard. */
  predicate SaveAllowed(t: Tracker, students: Option<seq<StudentRow>>) {
    students.Some? && !t.attendanceExists
  }

  /** `handleSave`: `Object.entries` of the selected sheet, one record per
      entry, sent with the selected date and session. */
  method HandleSave(t: Tracker, students: Option<seq<StudentRow>>) returns (r: Option<SaveRequest>)
    ensures r.Some? <==> SaveAllowed(t, students)
    ensures r.Some? ==> r.value.date == t.selectedDate && r.value.sessionType == SessionName(t.selectedSession)
    ensures r.Some? ==> ListsSheet(r.value.records, CurrentAttendance(t)) && |r.value.records| == |CurrentAttendance(t)|
  {
    if !SaveAllowed(t, students) {
      return None;
    }
    var sheet := CurrentAttendance(t);
    var remaining := sheet.Keys;
    var records: seq<StudentRecord> := [];
    while remaining != {}
      invariant remaining <= sheet.Keys
      invariant |records| + |remaining| == |sheet|
      invariant forall i :: 0 <= i < |records| ==> records[i].student in sheet && records[i].student !in remaining
      invariant forall i :: 0 <= i < |records| ==> sheet[records[i].student] == records[i].status
      invariant forall i, j :: 0 <= i < j < |records| ==> records[i].student != records[j].student
      invariant forall k :: k in sheet && k !in remaining ==> exists i :: 0 <= i < |records| && records[i].student == k
      decreases remaining
    {
      var k :| k in remaining;
      var before := records;
      records := records + [StudentRecord(k, sheet[k])];
      remaining := remaining - {k};
      forall k' | k' in sheet && k' !in remaining ensures exists i :: 0 <= i < |records| && records[i].student == k' {
        if k' == k {
          assert records[|records| - 1].student == k';
        } else {
          var i :| 0 <= i < |before| && before[i].student == k';
          assert records[i].student == k';
        }
      }
    }
    r := Some(SaveRequest(SessionName(t.selectedSession), t.selectedDate, records));
  }

  /** The sheet the server would rebuild from the records. */
  function SheetOf(records: seq<StudentRecord>): Sheet {
    if records == [] then map[]
    else SheetOf(records[..|records| - 1])[records[|records| - 1].student := records[|records| - 1].status]
  }

  lemma {:induction false} SheetOfFacts(records: seq<StudentRecord>)
    requires forall i, j :: 0 <= i < j < |records| ==> records[i].student != records[j].student
    ensures forall k :: k in SheetOf(records) <==> exists i :: 0 <= i < |records| && records[i].student == k
    ensures forall i :: 0 <= i < |records| ==> SheetOf(records)[records[i].student] == records[i].status
  {
    if records != [] {
      var init := records[..|records| - 1];
      SheetOfFacts(init);
      forall k ensures k in SheetOf(records) <==> exists i :: 0 <= i < |records| && records[i].student == k {
        if k in SheetOf(init) {
          var i :| 0 <= i < |init| && init[i].student == k;
          assert records[i].student == k;
        }
        if exists i :: 0 <= i < |records| && records[i].student == k {
          var i :| 0 <= i < |records| && records[i].student == k;
          if i < |init| {
            assert init[i].student == k;
          }
        }
      }
      forall i | 0 <= i < |records| ensures SheetOf(records)[records[i].student] == records[i].status {
        if i < |init| {
          assert init[i] == records[i];
        }
      }
    }
  }

  /** The records carry the whole sheet: rebuilding a sheet from them gives
      back exactly the sheet that was saved. */
  lemma RecordsRoundTrip(records: seq<StudentRecord>, sheet: Sheet)
    requires ListsSheet(records, sheet)
    ensures SheetOf(records) == sheet
  {
    SheetOfFacts(records);
    var m := SheetOf(records);
    forall k | k in sheet ensures k in m && m[k] == sheet[k] {
      var i :| 0 <= i < |records| && records[i].student == k;
    }
    forall k | k in m ensures k in sheet {
      var i :| 0 <= i < |records| && records[i].student == k;
    }
  }

  // ---------------------------------------------------------------------
  // Rendering.

  datatype SaveButton = SaveButton(disabled: bool, text: string)

  function SaveButtonOf(t: Tracker, students: Option<seq<StudentRow>>, pending: bool): (r: SaveButton)
    ensures r.disabled <==> pending || students.None? || t.attendanceExists || t.isChecking
    ensures pending ==> r.text == "Saving..."
    ensures !pending && t.attendanceExists ==> r.text == "Attendance Exists"
    ensures !pending && !t.attendanceExists && t.isChecking ==> r.text == "Checking..."
    ensures r.text == "Save Attendance" <==> !pending && !t.attendanceExists && !t.isChecking
  {
    var text :=
      if pending then "Saving..."
      else if t.attendanceExists then "Attendance Exists"
      else if t.isChecking then "Checking..."
      else "Save Attendance";
    SaveButton(pending || students.None? || t.attendanceExists || t.isChecking, text)
  }

  /** The button offers saving only when a save would go out; every other
      label belongs to a disabled button. */
  lemma SaveButtonHonest(t: Tracker, students: Option<seq<StudentRow>>, pending: bool)
    ensures var b := SaveButtonOf(t, students, pending);
      && (!b.disabled ==> b.text == "Save Attendance" && SaveAllowed(t, students))
      && (b.text != "Save Attendance" ==> b.disabled)
      && (b.text == "Attendance Exists" ==> !SaveAllowed(t, students))
  {
  }

  /** The statistics and the student list are shown only while no saved
      sheet exists and no check is running. */
  predicate ShowsSheet(t: Tracker) {
    !t.attendanceExists && !t.isChecking
  }

  /** Once a check reports a saved sheet, the editable sheet disappears and
      saving is impossible until another date or session is checked. */
  lemma ExistingSheetIsLocked(t: Tracker, students: Option<seq<StudentRow>>, pending: bool)
    ensures var r := OnCheckResult(t, Checked(Some(true)));
      !ShowsSheet(r) && !SaveAllowed(r, students) && SaveButtonOf(r, students, pending).disabled
  {
  }

  /** A row's avatar letters: the first unit of each space-separated piece,
      not upper-cased. */
  function RowInitials(name: string): (r: string)
    ensures r == WordStarts(name, true)
  {
    FirstLettersOfSplit(name);
    FirstLetters(Split(name))
  }
}
