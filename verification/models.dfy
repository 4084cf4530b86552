/**
 * The records of the `models` package: the account with its permission-level
 * variants (models/accounts.go), school events with the attendance tri-state
 * (models/Events.go), and the plain record shapes the validators inspect
 * (timetables, checklists, cafeteria menus, schools).
 */
module Models {
  import opened Wrappers
  import opened GoTypes

  /** Database row id: Go's `int`, 64 bits wide on the targets the backend runs on. */
  newtype DbId = x: int | -0x8000_0000_0000_0000 <= x < 0x8000_0000_0000_0000

  /** External account id, compared against `uuid.Nil` by the validators. */
  type UserId = Uuid

  type SchoolId = string
  type RegionId = string

  // ---------------------------------------------------------------------------
  // Permission levels (models/accounts.go)
  // ---------------------------------------------------------------------------

  type PermissionLevel = Int8

  const UNKNOWN: PermissionLevel := 0
  const STUDENT: PermissionLevel := 1
  const TEACHER: PermissionLevel := 2
  const ADMIN: PermissionLevel := 3

  /** A student's timetable: references to timetable entries and a visibility flag. */
  datatype Timetable = Timetable(entries: seq<DbId>, isPublic: bool)

  /**
   * The closed set of implementations of the `PermissionInfo` interface.
   * Each variant carries exactly the fields of its Go struct, so a field can
   * only be read through the variant that owns it.
   */
  datatype PermissionInfo =
    | Unknown
    | StudentInfo(schoolId: SchoolId, timetable: Timetable, grade: int, classNo: int,
                  number: int, checklistId: DbId, friends: seq<UserId>)
    | TeacherInfo(schoolId: SchoolId)
    | AdminInfo

  /** `Account`; a nil `PermissionInfo` interface value is `None`. */
  datatype Account = Account(
    dbId: DbId,
    userId: UserId,
    name: string,
    email: string,
    password: string,
    permissionInfo: Option<PermissionInfo>)

  /** `GetLevel`, implemented once per variant: the level code is fixed by the variant alone. */
  function GetLevel(info: PermissionInfo): (level: PermissionLevel)
    ensures 0 <= level <= 3
    ensures level == UNKNOWN <==> info.Unknown?
    ensures level == STUDENT <==> info.StudentInfo?
    ensures level == TEACHER <==> info.TeacherInfo?
    ensures level == ADMIN <==> info.AdminInfo?
  {
    match info
    case Unknown => UNKNOWN
    case StudentInfo(_, _, _, _, _, _, _) => STUDENT
    case TeacherInfo(_) => TEACHER
    case AdminInfo => ADMIN
  }

  /** Two permission infos are built by the same variant. */
  predicate SameVariant(a: PermissionInfo, b: PermissionInfo) {
    || (a.Unknown? && b.Unknown?)
    || (a.StudentInfo? && b.StudentInfo?)
    || (a.TeacherInfo? && b.TeacherInfo?)
    || (a.AdminInfo? && b.AdminInfo?)
  }

  /** The four level codes are distinct, so the level and the variant determine each other. */
  lemma LevelIdentifiesVariant(a: PermissionInfo, b: PermissionInfo)
    ensures GetLevel(a) == GetLevel(b) <==> SameVariant(a, b)
  {
  }

  /** The level ignores the variant's field values: a student with no friends and no timetable entries is still a STUDENT. */
  lemma LevelIgnoresFields(a: PermissionInfo, b: PermissionInfo)
    requires SameVariant(a, b)
    ensures GetLevel(a) == GetLevel(b)
  {
  }

  // ---------------------------------------------------------------------------
  // Attendance tri-state (models/Events.go)
  // ---------------------------------------------------------------------------

  type AttendanceType = Int8

  /** The grade does not take part. */
  const NO: AttendanceType := -1
  /** The school has no such grade. */
  const IGNORED: AttendanceType := 0
  /** The grade takes part. */
  const YES: AttendanceType := 1

  /** `AttendanceType.Attends`. */
  function Attends(attendance: AttendanceType): (attends: bool)
    ensures attends ==> attendance != NO && attendance != IGNORED
    ensures attendance == YES ==> attends
  {
    attendance == YES
  }

  /** The three codes are distinct, only YES attends, and every other value, in or out of the three codes, does not. */
  lemma AttendsOnlyYes(attendance: AttendanceType)
    ensures NO != IGNORED && IGNORED != YES && NO != YES
    ensures Attends(YES) && !Attends(NO) && !Attends(IGNORED)
    ensures Attends(attendance) <==> attendance == 1
  {
  }

  datatype EventEntry = EventEntry(
    date: string,
    dateKind: string,
    eventName: string,
    eventContents: string,
    firstGradeAttends: AttendanceType,
    secondGradeAttends: AttendanceType,
    thirdGradeAttends: AttendanceType,
    modifiedDate: string)

  /** One school's calendar for one month. */
  datatype Events = Events(id: DbId, schoolId: SchoolId, month: int, events: seq<EventEntry>)

  // ---------------------------------------------------------------------------
  // Record shapes inspected by the validators
  // ---------------------------------------------------------------------------

  /** A lesson definition shared by the timetables that reference it. */
  datatype TimetableEntry = TimetableEntry(
    id: DbId, teacherId: UserId, location: string, day: string, period: string, subject: string)

  datatype ChecklistItem = ChecklistItem(text: string, complete: bool, isPublic: bool, sharedWith: seq<UserId>)

  datatype Checklist = Checklist(id: DbId, studentId: UserId, title: string, items: seq<ChecklistItem>)

  /** Allergy codes of models/menu.go. */
  type AllergyType = Int8

  const EGGS: AllergyType := 1
  const MILK: AllergyType := 2
  const BUCKWHEAT: AllergyType := 3
  const PEANUT: AllergyType := 4
  const SOYBEAN: AllergyType := 5
  const WHEAT: AllergyType := 6
  const MACKEREL: AllergyType := 7
  const CRAB: AllergyType := 8
  const SHRIMP: AllergyType := 9
  const PORK: AllergyType := 10
  const PEACH: AllergyType := 11
  const TOMATO: AllergyType := 12
  const SULFITE: AllergyType := 13
  const WALNUT: AllergyType := 14
  const CHICKEN: AllergyType := 15
  const BEEF: AllergyType := 16
  const SQUID: AllergyType := 17
  const SHELLFISH: AllergyType := 18

  datatype MenuEntry = MenuEntry(name: string, allergies: seq<AllergyType>, contents: string)

  datatype CafeteriaMenu = CafeteriaMenu(
    id: DbId, schoolId: SchoolId, mealName: string, date: string, items: seq<MenuEntry>)

  datatype School = School(
    id: DbId, schoolId: SchoolId, regionId: RegionId, schoolName: string, regionName: string,
    organizationEmailOnly: bool)
}
