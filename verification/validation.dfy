/**
 * The field validators of utils/validation.go. Each Go validator is a chain
 * of guards returning the first failing reason, or nil; here a validator
 * returns `Accepted`, `Rejected(reason)` for the first failing guard, or
 * `Panicked` where the Go code would crash instead of answering.
 *
 * Every validator is paired with a predicate that states, as a plain
 * conjunction, which records it accepts, and its contract proves the two
 * agree in both directions.
 */
module Validation {
  import opened Wrappers
  import opened GoTypes
  import opened Models
  import Email

  /** One constructor per distinct error message of the validators (and of db.ValidateNewAccount). */
  datatype Reason =
    // accounts
    | AccountNil | UserIdEmpty | NameEmpty | EmailEmpty | EmailInvalid | PasswordEmpty
    | PermissionInfoEmpty | StudentSchoolIdEmpty | UnregisteredSchoolId
    | GradeEmpty | ClassEmpty | NumberEmpty | TeacherSchoolIdEmpty | InvalidPermissionLevel
    // timetables
    | TimetableNil | TimetableNoEntries
    | TeacherIdEmpty | LocationEmpty | DayEmpty | PeriodEmpty | SubjectEmpty
    // checklists
    | ChecklistNil | StudentIdRequired | TitleRequired | ItemTextRequired
    // cafeteria menus
    | MenuSchoolIdMissing | MealNameMissing | DateMissing | MenuNoItems
    | ItemNameMissing | InvalidAllergy(allergy: AllergyType) | ItemContentsMissing
    // events and schools
    | SchoolIdRequired | MonthOutOfRange | InvalidDateFormat(date: string)
    | InvalidFirstGradeAttendance(first: AttendanceType)
    | InvalidSecondGradeAttendance(second: AttendanceType)
    | InvalidThirdGradeAttendance(third: AttendanceType)
    | RegionIdRequired | SchoolNameRequired | RegionNameRequired

  /** What a validator call ends in: nil, an error, or a run-time panic. */
  datatype Verdict = Accepted | Rejected(reason: Reason) | Panicked

  // ---------------------------------------------------------------------------
  // Accounts
  // ---------------------------------------------------------------------------

  /** The level-specific requirements: only zero is rejected, so negative grades, classes and numbers pass. */
  predicate PermissionValid(info: PermissionInfo) {
    match info
    case Unknown => false
    case StudentInfo(schoolId, _, grade, classNo, number, _, _) =>
      schoolId != "" && grade != 0 && classNo != 0 && number != 0
    case TeacherInfo(schoolId) => schoolId != ""
    case AdminInfo => true
  }

  /** Name, e-mail and password requirements, common to every account validator. */
  predicate ProfileValid(account: Account) {
    account.name != "" && Email.IsEmailValid(account.email) && account.password != ""
  }

  /** What ValidateNewAccount accepts. */
  predicate NewAccountValid(account: Account) {
    ProfileValid(account) && account.permissionInfo.Some? && PermissionValid(account.permissionInfo.value)
  }

  /** What ValidateAccount accepts: a new account that also has a user id. */
  predicate AccountValid(account: Account) {
    account.userId != NIL_UUID && NewAccountValid(account)
  }

  /**
   * The `switch account.GetLevel()` of both account validators. Calling
   * GetLevel through a nil interface panics. The type assertions inside the
   * cases always succeed, because the level fixes the variant.
   */
  function CheckPermission(permissionInfo: Option<PermissionInfo>): (r: Verdict)
    ensures r == Accepted <==> permissionInfo.Some? && PermissionValid(permissionInfo.value)
    ensures r == Panicked <==> permissionInfo.None?
  {
    if permissionInfo.None? then Panicked
    else
      var info := permissionInfo.value;
      var level := GetLevel(info);
      if level == STUDENT then
        if info.schoolId == "" then Rejected(StudentSchoolIdEmpty)
        else if info.grade == 0 then Rejected(GradeEmpty)
        else if info.classNo == 0 then Rejected(ClassEmpty)
        else if info.number == 0 then Rejected(NumberEmpty)
        else Accepted
      else if level == TEACHER then
        if info.schoolId == "" then Rejected(TeacherSchoolIdEmpty) else Accepted
      else if level == ADMIN then
        Accepted
      else
        Rejected(InvalidPermissionLevel)
  }

  /** The guards after the user-id check, shared by both account validators. */
  function CheckProfile(account: Account): (r: Verdict)
    ensures r == Accepted <==> NewAccountValid(account)
    ensures r == Panicked <==> ProfileValid(account) && account.permissionInfo.None?
  {
    if account.name == "" then Rejected(NameEmpty)
    else if account.email == "" then Rejected(EmailEmpty)
    else if !Email.IsEmailValid(account.email) then Rejected(EmailInvalid)
    else if |account.password| == 0 then Rejected(PasswordEmpty)
    else CheckPermission(account.permissionInfo)
  }

  /** ValidateNewAccount: ValidateAccount without the user-id check. */
  function ValidateNewAccount(account: Option<Account>): (r: Verdict)
    ensures r == Accepted <==> account.Some? && NewAccountValid(account.value)
    ensures r == Panicked <==> account.Some? && ProfileValid(account.value) && account.value.permissionInfo.None?
  {
    match account
    case None => Rejected(AccountNil)
    case Some(a) => CheckProfile(a)
  }

  /** ValidateAccount. */
  function ValidateAccount(account: Option<Account>): (r: Verdict)
    ensures r == Accepted <==> account.Some? && AccountValid(account.value)
    ensures r == Panicked <==>
      account.Some? && account.value.userId != NIL_UUID && ProfileValid(account.value)
      && account.value.permissionInfo.None?
  {
    match account
    case None => Rejected(AccountNil)
    case Some(a) =>
      if a.userId == NIL_UUID then Rejected(UserIdEmpty)
      else CheckProfile(a)
  }

  /** The two account validators differ only in the user-id check, which comes before every other guard. */
  lemma AccountIsNewAccountWithUserId(account: Option<Account>)
    ensures account.None? ==> ValidateAccount(account) == ValidateNewAccount(account) == Rejected(AccountNil)
    ensures account.Some? && account.value.userId == NIL_UUID ==> ValidateAccount(account) == Rejected(UserIdEmpty)
    ensures account.Some? && account.value.userId != NIL_UUID ==> ValidateAccount(account) == ValidateNewAccount(account)
  {
  }

  /** The profile guards run in source order: the reason names the first one that fails. */
  lemma ProfileRejectionOrder(a: Account)
    ensures CheckProfile(a) == Rejected(NameEmpty) <==> a.name == ""
    ensures CheckProfile(a) == Rejected(EmailEmpty) <==> a.name != "" && a.email == ""
    ensures CheckProfile(a) == Rejected(EmailInvalid) <==>
      a.name != "" && a.email != "" && !Email.IsEmailValid(a.email)
    ensures CheckProfile(a) == Rejected(PasswordEmpty) <==>
      a.name != "" && Email.IsEmailValid(a.email) && a.password == ""
  {
  }

  /**
   * A student with a complete profile: an empty school id, then a zero grade,
   * class or number, is rejected in that order; any other values, negative
   * ones included, are accepted.
   */
  lemma StudentChecks(a: Account, schoolId: SchoolId, timetable: Timetable, grade: int, classNo: int,
                      number: int, checklistId: DbId, friends: seq<UserId>)
    requires ProfileValid(a)
    requires a.permissionInfo == Some(StudentInfo(schoolId, timetable, grade, classNo, number, checklistId, friends))
    ensures schoolId == "" ==> ValidateNewAccount(Some(a)) == Rejected(StudentSchoolIdEmpty)
    ensures schoolId != "" && grade == 0 ==> ValidateNewAccount(Some(a)) == Rejected(GradeEmpty)
    ensures schoolId != "" && grade != 0 && classNo == 0 ==> ValidateNewAccount(Some(a)) == Rejected(ClassEmpty)
    ensures schoolId != "" && grade != 0 && classNo != 0 && number == 0 ==>
      ValidateNewAccount(Some(a)) == Rejected(NumberEmpty)
    ensures schoolId != "" && grade != 0 && classNo != 0 && number != 0 ==> ValidateNewAccount(Some(a)) == Accepted
  {
  }

  /** A teacher needs only a school id, an admin nothing more, and an Unknown level is always rejected. */
  lemma OtherLevelChecks(a: Account)
    requires ProfileValid(a) && a.permissionInfo.Some?
    ensures a.permissionInfo.value.TeacherInfo? ==>
      ValidateNewAccount(Some(a)) ==
        if a.permissionInfo.value.schoolId == "" then Rejected(TeacherSchoolIdEmpty) else Accepted
    ensures a.permissionInfo.value.AdminInfo? ==> ValidateNewAccount(Some(a)) == Accepted
    ensures a.permissionInfo.value.Unknown? ==> ValidateNewAccount(Some(a)) == Rejected(InvalidPermissionLevel)
  {
  }

  // ---------------------------------------------------------------------------
  // Timetables
  // ---------------------------------------------------------------------------

  /** ValidateTimetable: a timetable must reference at least one entry. */
  function ValidateTimetable(tt: Option<Timetable>): (r: Verdict)
    ensures r == Accepted <==> tt.Some? && |tt.value.entries| > 0
    ensures tt.None? ==> r == Rejected(TimetableNil)
    ensures tt.Some? && |tt.value.entries| == 0 ==> r == Rejected(TimetableNoEntries)
    ensures r != Panicked
  {
    match tt
    case None => Rejected(TimetableNil)
    case Some(t) => if |t.entries| == 0 then Rejected(TimetableNoEntries) else Accepted
  }

  /** ValidateTimeTableEntry. */
  function ValidateTimeTableEntry(entry: TimetableEntry): (r: Verdict)
    ensures r == Accepted <==>
      entry.teacherId != NIL_UUID && entry.location != "" && entry.day != "" && entry.period != ""
      && entry.subject != ""
    ensures r != Panicked
  {
    if entry.teacherId == NIL_UUID then Rejected(TeacherIdEmpty)
    else if entry.location == "" then Rejected(LocationEmpty)
    else if entry.day == "" then Rejected(DayEmpty)
    else if entry.period == "" then Rejected(PeriodEmpty)
    else if entry.subject == "" then Rejected(SubjectEmpty)
    else Accepted
  }

  // ---------------------------------------------------------------------------
  // Checklists
  // ---------------------------------------------------------------------------

  /** The loop over the checklist items. */
  function CheckChecklistItems(items: seq<ChecklistItem>): (r: Verdict)
    ensures r == Accepted <==> forall i :: 0 <= i < |items| ==> items[i].text != ""
    ensures r == Accepted || r == Rejected(ItemTextRequired)
  {
    if items == [] then Accepted
    else if items[0].text == "" then Rejected(ItemTextRequired)
    else CheckChecklistItems(items[1..])
  }

  /** ValidateChecklist: a checklist with no items at all is accepted. */
  function ValidateChecklist(checklist: Option<Checklist>): (r: Verdict)
    ensures r == Accepted <==>
      && checklist.Some?
      && checklist.value.studentId != NIL_UUID
      && checklist.value.title != ""
      && forall i :: 0 <= i < |checklist.value.items| ==> checklist.value.items[i].text != ""
    ensures checklist.None? ==> r == Rejected(ChecklistNil)
    ensures r != Panicked
  {
    match checklist
    case None => Rejected(ChecklistNil)
    case Some(c) =>
      if c.studentId == NIL_UUID then Rejected(StudentIdRequired)
      else if c.title == "" then Rejected(TitleRequired)
      else CheckChecklistItems(c.items)
  }

  // ---------------------------------------------------------------------------
  // Cafeteria menus
  // ---------------------------------------------------------------------------

  /** The allergy codes the menu validator accepts: 1 to 13. */
  predicate AllergyAccepted(allergy: AllergyType) {
    1 <= allergy <= 13
  }

  /** The inner loop over an item's allergy codes: the first code out of range, if any. */
  function FirstInvalidAllergy(allergies: seq<AllergyType>): (r: Option<AllergyType>)
    ensures r.None? <==> forall i :: 0 <= i < |allergies| ==> AllergyAccepted(allergies[i])
    ensures r.Some? ==> r.value in allergies && !AllergyAccepted(r.value)
  {
    if allergies == [] then None
    else if !AllergyAccepted(allergies[0]) then Some(allergies[0])
    else FirstInvalidAllergy(allergies[1..])
  }

  /** A menu item the validator accepts. */
  predicate MenuEntryValid(item: MenuEntry) {
    && item.name != ""
    && (forall i :: 0 <= i < |item.allergies| ==> AllergyAccepted(item.allergies[i]))
    && item.contents != ""
  }

  /** One pass of the loop over the menu items: name, then allergy codes, then contents. */
  function CheckMenuEntry(item: MenuEntry): (r: Verdict)
    ensures r == Accepted <==> MenuEntryValid(item)
    ensures r == Rejected(ItemNameMissing) <==> item.name == ""
    ensures r == Rejected(ItemContentsMissing) <==>
      item.name != "" && FirstInvalidAllergy(item.allergies).None? && item.contents == ""
    ensures item.name != "" && FirstInvalidAllergy(item.allergies).Some? ==>
      r == Rejected(InvalidAllergy(FirstInvalidAllergy(item.allergies).value))
    ensures r.Rejected? ==> r.reason.ItemNameMissing? || r.reason.InvalidAllergy? || r.reason.ItemContentsMissing?
    ensures r != Panicked
  {
    if item.name == "" then Rejected(ItemNameMissing)
    else match FirstInvalidAllergy(item.allergies)
      case Some(allergy) => Rejected(InvalidAllergy(allergy))
      case None => if item.contents == "" then Rejected(ItemContentsMissing) else Accepted
  }

  /** The loop over the menu items, stopping at the first item that fails. */
  function CheckMenuEntries(items: seq<MenuEntry>): (r: Verdict)
    ensures r == Accepted <==> forall i :: 0 <= i < |items| ==> MenuEntryValid(items[i])
    ensures r.Rejected? ==> r.reason.ItemNameMissing? || r.reason.InvalidAllergy? || r.reason.ItemContentsMissing?
    ensures r != Panicked
  {
    if items == [] then Accepted
    else
      var v := CheckMenuEntry(items[0]);
      if v != Accepted then v else CheckMenuEntries(items[1..])
  }

  /** The menu loop reports exactly the first invalid item's reason. */
  lemma {:induction false} MenuEntriesReportFirstInvalid(items: seq<MenuEntry>, i: nat)
    requires i < |items| && !MenuEntryValid(items[i])
    requires forall j :: 0 <= j < i ==> MenuEntryValid(items[j])
    ensures CheckMenuEntries(items) == CheckMenuEntry(items[i])
  {
    if i > 0 {
      assert MenuEntryValid(items[0]);
      MenuEntriesReportFirstInvalid(items[1..], i - 1);
    }
  }

  /** The menu header (school id, meal name, date), a non-empty item list, then every item. */
  function ValidateCafeteriaMenu(menu: CafeteriaMenu): (r: Verdict)
    ensures r == Accepted <==>
      && menu.schoolId != "" && menu.mealName != "" && menu.date != ""
      && |menu.items| > 0
      && forall i :: 0 <= i < |menu.items| ==> MenuEntryValid(menu.items[i])
    ensures r != Panicked
  {
    if menu.schoolId == "" then Rejected(MenuSchoolIdMissing)
    else if menu.mealName == "" then Rejected(MealNameMissing)
    else if menu.date == "" then Rejected(DateMissing)
    else if |menu.items| == 0 then Rejected(MenuNoItems)
    else CheckMenuEntries(menu.items)
  }

  /**
   * The codes declared after SULFITE in models/menu.go (WALNUT to SHELLFISH)
   * are rejected wherever they appear, and the first item that carries one,
   * if its name is present, is reported with that code.
   */
  lemma LateAllergyCodesRejected(menu: CafeteriaMenu, i: nat, k: nat)
    requires i < |menu.items| && k < |menu.items[i].allergies|
    requires WALNUT <= menu.items[i].allergies[k] <= SHELLFISH
    ensures ValidateCafeteriaMenu(menu) != Accepted
    ensures menu.schoolId != "" && menu.mealName != "" && menu.date != ""
            && (forall j :: 0 <= j < i ==> MenuEntryValid(menu.items[j]))
            && menu.items[i].name != ""
            && (forall j :: 0 <= j < k ==> AllergyAccepted(menu.items[i].allergies[j]))
            ==> ValidateCafeteriaMenu(menu) == Rejected(InvalidAllergy(menu.items[i].allergies[k]))
  {
    assert !MenuEntryValid(menu.items[i]);
    if menu.schoolId != "" && menu.mealName != "" && menu.date != ""
       && (forall j :: 0 <= j < i ==> MenuEntryValid(menu.items[j]))
       && menu.items[i].name != ""
       && (forall j :: 0 <= j < k ==> AllergyAccepted(menu.items[i].allergies[j]))
    {
      MenuEntriesReportFirstInvalid(menu.items, i);
      FirstInvalidAllergyAt(menu.items[i].allergies, k);
    }
  }

  /** The first out-of-range code is the one the inner loop reports. */
  lemma {:induction false} FirstInvalidAllergyAt(allergies: seq<AllergyType>, k: nat)
    requires k < |allergies| && !AllergyAccepted(allergies[k])
    requires forall j :: 0 <= j < k ==> AllergyAccepted(allergies[j])
    ensures FirstInvalidAllergy(allergies) == Some(allergies[k])
  {
    if k > 0 {
      FirstInvalidAllergyAt(allergies[1..], k - 1);
    }
  }

  // ---------------------------------------------------------------------------
  // Events and schools
  // ---------------------------------------------------------------------------

  /** isValidAttendanceType. */
  function IsValidAttendanceType(attendance: AttendanceType): (valid: bool)
    ensures valid <==> -1 <= attendance <= 1
  {
    attendance == YES || attendance == IGNORED || attendance == NO
  }

  /** Every attending value is valid, and the valid values that do not attend are exactly NO and IGNORED. */
  lemma ValidAttendanceTypes(attendance: AttendanceType)
    ensures Attends(attendance) ==> IsValidAttendanceType(attendance)
    ensures IsValidAttendanceType(attendance) && !Attends(attendance) <==> attendance == NO || attendance == IGNORED
  {
  }

  /** An event the validator accepts; `parsesAsDate` stands for `time.Parse("2006-01-02", date)` succeeding. */
  predicate EventEntryValid(event: EventEntry, parsesAsDate: string -> bool) {
    && parsesAsDate(event.date)
    && IsValidAttendanceType(event.firstGradeAttends)
    && IsValidAttendanceType(event.secondGradeAttends)
    && IsValidAttendanceType(event.thirdGradeAttends)
  }

  /** One pass of the loop over the month's events: date, then the three attendance codes in grade order. */
  function CheckEventEntry(event: EventEntry, parsesAsDate: string -> bool): (r: Verdict)
    ensures r == Accepted <==> EventEntryValid(event, parsesAsDate)
    ensures r == Rejected(InvalidDateFormat(event.date)) <==> !parsesAsDate(event.date)
    ensures r == Rejected(InvalidFirstGradeAttendance(event.firstGradeAttends)) <==>
      parsesAsDate(event.date) && !IsValidAttendanceType(event.firstGradeAttends)
    ensures r == Rejected(InvalidSecondGradeAttendance(event.secondGradeAttends)) <==>
      parsesAsDate(event.date) && IsValidAttendanceType(event.firstGradeAttends)
      && !IsValidAttendanceType(event.secondGradeAttends)
    ensures r == Rejected(InvalidThirdGradeAttendance(event.thirdGradeAttends)) <==>
      parsesAsDate(event.date) && IsValidAttendanceType(event.firstGradeAttends)
      && IsValidAttendanceType(event.secondGradeAttends) && !IsValidAttendanceType(event.thirdGradeAttends)
    ensures r.Rejected? ==>
      || r.reason.InvalidDateFormat? || r.reason.InvalidFirstGradeAttendance?
      || r.reason.InvalidSecondGradeAttendance? || r.reason.InvalidThirdGradeAttendance?
    ensures r != Panicked
  {
    if !parsesAsDate(event.date) then Rejected(InvalidDateFormat(event.date))
    else if !IsValidAttendanceType(event.firstGradeAttends) then
      Rejected(InvalidFirstGradeAttendance(event.firstGradeAttends))
    else if !IsValidAttendanceType(event.secondGradeAttends) then
      Rejected(InvalidSecondGradeAttendance(event.secondGradeAttends))
    else if !IsValidAttendanceType(event.thirdGradeAttends) then
      Rejected(InvalidThirdGradeAttendance(event.thirdGradeAttends))
    else Accepted
  }

  /** The loop over the month's events, stopping at the first event that fails. */
  function CheckEventEntries(entries: seq<EventEntry>, parsesAsDate: string -> bool): (r: Verdict)
    ensures r == Accepted <==> forall i :: 0 <= i < |entries| ==> EventEntryValid(entries[i], parsesAsDate)
    ensures r.Rejected? ==>
      || r.reason.InvalidDateFormat? || r.reason.InvalidFirstGradeAttendance?
      || r.reason.InvalidSecondGradeAttendance? || r.reason.InvalidThirdGradeAttendance?
    ensures r != Panicked
  {
    if entries == [] then Accepted
    else
      var v := CheckEventEntry(entries[0], parsesAsDate);
      if v != Accepted then v else CheckEventEntries(entries[1..], parsesAsDate)
  }

  /** The events loop reports exactly the first invalid event's reason. */
  lemma {:induction false} EventEntriesReportFirstInvalid(entries: seq<EventEntry>, parsesAsDate: string -> bool, i: nat)
    requires i < |entries| && !EventEntryValid(entries[i], parsesAsDate)
    requires forall j :: 0 <= j < i ==> EventEntryValid(entries[j], parsesAsDate)
    ensures CheckEventEntries(entries, parsesAsDate) == CheckEventEntry(entries[i], parsesAsDate)
  {
    if i > 0 {
      assert EventEntryValid(entries[0], parsesAsDate);
      EventEntriesReportFirstInvalid(entries[1..], parsesAsDate, i - 1);
    }
  }

  /** ValidateEvents. */
  function ValidateEvents(events: Events, parsesAsDate: string -> bool): (r: Verdict)
    ensures r == Accepted <==>
      && events.schoolId != ""
      && 1 <= events.month <= 12
      && forall i :: 0 <= i < |events.events| ==> EventEntryValid(events.events[i], parsesAsDate)
    ensures r != Panicked
  {
    if events.schoolId == "" then Rejected(SchoolIdRequired)
    else if events.month < 1 || events.month > 12 then Rejected(MonthOutOfRange)
    else CheckEventEntries(events.events, parsesAsDate)
  }

  /** ValidateSchool. */
  function ValidateSchool(school: School): (r: Verdict)
    ensures r == Accepted <==>
      school.schoolId != "" && school.regionId != "" && school.schoolName != "" && school.regionName != ""
    ensures r != Panicked
  {
    if school.schoolId == "" then Rejected(SchoolIdRequired)
    else if school.regionId == "" then Rejected(RegionIdRequired)
    else if school.schoolName == "" then Rejected(SchoolNameRequired)
    else if school.regionName == "" then Rejected(RegionNameRequired)
    else Accepted
  }

  // ---------------------------------------------------------------------------
  // Rejection order of the field validators
  // ---------------------------------------------------------------------------

  /** The entry guards run in source order: the reason names the first missing field. */
  lemma TimeTableEntryRejectionOrder(e: TimetableEntry)
    ensures ValidateTimeTableEntry(e) == Rejected(TeacherIdEmpty) <==> e.teacherId == NIL_UUID
    ensures ValidateTimeTableEntry(e) == Rejected(LocationEmpty) <==> e.teacherId != NIL_UUID && e.location == ""
    ensures ValidateTimeTableEntry(e) == Rejected(DayEmpty) <==>
      e.teacherId != NIL_UUID && e.location != "" && e.day == ""
    ensures ValidateTimeTableEntry(e) == Rejected(PeriodEmpty) <==>
      e.teacherId != NIL_UUID && e.location != "" && e.day != "" && e.period == ""
    ensures ValidateTimeTableEntry(e) == Rejected(SubjectEmpty) <==>
      e.teacherId != NIL_UUID && e.location != "" && e.day != "" && e.period != "" && e.subject == ""
  {
  }

  /** A checklist is rejected for its header first, then for the first item without text; no items at all is fine. */
  lemma ChecklistRejectionOrder(c: Checklist)
    ensures ValidateChecklist(Some(c)) == Rejected(StudentIdRequired) <==> c.studentId == NIL_UUID
    ensures ValidateChecklist(Some(c)) == Rejected(TitleRequired) <==> c.studentId != NIL_UUID && c.title == ""
    ensures ValidateChecklist(Some(c)) == Rejected(ItemTextRequired) <==>
      c.studentId != NIL_UUID && c.title != "" && exists i :: 0 <= i < |c.items| && c.items[i].text == ""
    ensures c.studentId != NIL_UUID && c.title != "" && c.items == [] ==> ValidateChecklist(Some(c)) == Accepted
  {
  }

  /**
   * The menu header is checked before any item, and an empty item list is
   * rejected; after them the verdict is that of the first invalid item.
   */
  lemma CafeteriaMenuRejectionOrder(menu: CafeteriaMenu, i: nat)
    ensures ValidateCafeteriaMenu(menu) == Rejected(MenuSchoolIdMissing) <==> menu.schoolId == ""
    ensures ValidateCafeteriaMenu(menu) == Rejected(MealNameMissing) <==> menu.schoolId != "" && menu.mealName == ""
    ensures ValidateCafeteriaMenu(menu) == Rejected(DateMissing) <==>
      menu.schoolId != "" && menu.mealName != "" && menu.date == ""
    ensures ValidateCafeteriaMenu(menu) == Rejected(MenuNoItems) <==>
      menu.schoolId != "" && menu.mealName != "" && menu.date != "" && menu.items == []
    ensures menu.schoolId != "" && menu.mealName != "" && menu.date != ""
            && i < |menu.items| && !MenuEntryValid(menu.items[i])
            && (forall j :: 0 <= j < i ==> MenuEntryValid(menu.items[j]))
            ==> ValidateCafeteriaMenu(menu) == CheckMenuEntry(menu.items[i])
  {
    if menu.schoolId != "" && menu.mealName != "" && menu.date != ""
       && i < |menu.items| && !MenuEntryValid(menu.items[i])
       && (forall j :: 0 <= j < i ==> MenuEntryValid(menu.items[j]))
    {
      MenuEntriesReportFirstInvalid(menu.items, i);
    }
  }

  /**
   * The school id and month are checked before any event; after them the
   * verdict is that of the first invalid event. A month with no events is accepted.
   */
  lemma EventsRejectionOrder(events: Events, parsesAsDate: string -> bool, i: nat)
    ensures ValidateEvents(events, parsesAsDate) == Rejected(SchoolIdRequired) <==> events.schoolId == ""
    ensures ValidateEvents(events, parsesAsDate) == Rejected(MonthOutOfRange) <==>
      events.schoolId != "" && (events.month < 1 || events.month > 12)
    ensures events.schoolId != "" && 1 <= events.month <= 12 && events.events == [] ==>
      ValidateEvents(events, parsesAsDate) == Accepted
    ensures events.schoolId != "" && 1 <= events.month <= 12
            && i < |events.events| && !EventEntryValid(events.events[i], parsesAsDate)
            && (forall j :: 0 <= j < i ==> EventEntryValid(events.events[j], parsesAsDate))
            ==> ValidateEvents(events, parsesAsDate) == CheckEventEntry(events.events[i], parsesAsDate)
  {
    if events.schoolId != "" && 1 <= events.month <= 12
       && i < |events.events| && !EventEntryValid(events.events[i], parsesAsDate)
       && (forall j :: 0 <= j < i ==> EventEntryValid(events.events[j], parsesAsDate))
    {
      EventEntriesReportFirstInvalid(events.events, parsesAsDate, i);
    }
  }

  /** The school guards run in source order. */
  lemma SchoolRejectionOrder(school: School)
    ensures ValidateSchool(school) == Rejected(SchoolIdRequired) <==> school.schoolId == ""
    ensures ValidateSchool(school) == Rejected(RegionIdRequired) <==> school.schoolId != "" && school.regionId == ""
    ensures ValidateSchool(school) == Rejected(SchoolNameRequired) <==>
      school.schoolId != "" && school.regionId != "" && school.schoolName == ""
    ensures ValidateSchool(school) == Rejected(RegionNameRequired) <==>
      school.schoolId != "" && school.regionId != "" && school.schoolName != "" && school.regionName == ""
  {
  }
}
