/**
 * The stricter account validator of db/db.go, used by the registration and
 * update handlers. It differs from utils.ValidateNewAccount in two places:
 * it rejects an absent permission info instead of crashing on it, and it
 * rejects a student whose school id is not registered.
 *
 * The `GetSchool` lookup is a database query; here it is the set of school
 * ids for which the query returns a school.
 */
module DbValidation {
  import opened Wrappers
  import opened Models
  import opened Validation
  import Email

  /** A student account's school must be one the registry knows; other levels are not looked up. */
  predicate SchoolRegistered(info: PermissionInfo, registered: set<SchoolId>) {
    info.StudentInfo? ==> info.schoolId in registered
  }

  /** ValidateNewAccount of db/db.go. */
  function ValidateNewAccount(account: Option<Account>, registered: set<SchoolId>): (r: Verdict)
    ensures r == Accepted <==>
      account.Some? && NewAccountValid(account.value)
      && SchoolRegistered(account.value.permissionInfo.value, registered)
    ensures account.None? ==> r == Rejected(AccountNil)
    ensures account.Some? && !ProfileValid(account.value) ==> r == CheckProfile(account.value)
    ensures account.Some? && ProfileValid(account.value) && account.value.permissionInfo.None? ==>
      r == Rejected(PermissionInfoEmpty)
    ensures account.Some? && ProfileValid(account.value) && account.value.permissionInfo.Some?
            && account.value.permissionInfo.value.StudentInfo?
            && account.value.permissionInfo.value.schoolId != ""
            && account.value.permissionInfo.value.schoolId !in registered ==>
      r == Rejected(UnregisteredSchoolId)
    ensures r != Panicked
  {
    match account
    case None => Rejected(AccountNil)
    case Some(a) =>
      if a.name == "" then Rejected(NameEmpty)
      else if a.email == "" then Rejected(EmailEmpty)
      else if !Email.IsEmailValid(a.email) then Rejected(EmailInvalid)
      else if |a.password| == 0 then Rejected(PasswordEmpty)
      else if a.permissionInfo.None? then Rejected(PermissionInfoEmpty)
      else
        var info := a.permissionInfo.value;
        var level := GetLevel(info);
        if level == STUDENT then
          if info.schoolId == "" then Rejected(StudentSchoolIdEmpty)
          else if info.schoolId !in registered then Rejected(UnregisteredSchoolId)
          else if info.grade == 0 then Rejected(GradeEmpty)
          else if info.classNo == 0 then Rejected(ClassEmpty)
          else if info.number == 0 then Rejected(NumberEmpty)
          else Accepted
        else if level == TEACHER then
          if info.schoolId == "" then Rejected(TeacherSchoolIdEmpty) else Accepted
        else if level == ADMIN then
          Accepted
        else
          Rejected(InvalidPermissionLevel)
  }

  /**
   * The database validator is strictly stronger than utils.ValidateNewAccount:
   * whatever it accepts the utils validator accepts, and where the utils
   * validator answers at all (it does not panic) and the school is registered,
   * the two give the same answer.
   */
  lemma DbStrongerThanUtils(account: Option<Account>, registered: set<SchoolId>)
    ensures ValidateNewAccount(account, registered) == Accepted ==>
      Validation.ValidateNewAccount(account) == Accepted
    ensures account.Some? && account.value.permissionInfo.Some?
            && SchoolRegistered(account.value.permissionInfo.value, registered) ==>
      ValidateNewAccount(account, registered) == Validation.ValidateNewAccount(account)
  {
  }

  /**
   * An absent permission info is rejected once the profile passes, before any
   * level dispatch, where utils.ValidateNewAccount would panic.
   */
  lemma AbsentPermissionRejected(a: Account, registered: set<SchoolId>)
    requires ProfileValid(a) && a.permissionInfo.None?
    ensures ValidateNewAccount(Some(a), registered) == Rejected(PermissionInfoEmpty)
    ensures Validation.ValidateNewAccount(Some(a)) == Panicked
  {
  }

  /**
   * For a student with a complete profile, the registry lookup comes after the
   * empty-school-id check and before the grade, class and number checks.
   */
  lemma StudentRegistryOrder(a: Account, registered: set<SchoolId>)
    requires ProfileValid(a) && a.permissionInfo.Some? && a.permissionInfo.value.StudentInfo?
    ensures a.permissionInfo.value.schoolId == "" ==>
      ValidateNewAccount(Some(a), registered) == Rejected(StudentSchoolIdEmpty)
    ensures a.permissionInfo.value.schoolId != "" && a.permissionInfo.value.schoolId !in registered ==>
      ValidateNewAccount(Some(a), registered) == Rejected(UnregisteredSchoolId)
    ensures a.permissionInfo.value.schoolId in registered ==>
      ValidateNewAccount(Some(a), registered) == Validation.ValidateNewAccount(Some(a))
  {
  }

  /** A teacher's school id is only checked for emptiness: the registry never changes the verdict. */
  lemma TeacherIgnoresRegistry(a: Account, registered: set<SchoolId>, other: set<SchoolId>)
    requires a.permissionInfo.Some? && a.permissionInfo.value.TeacherInfo?
    ensures ValidateNewAccount(Some(a), registered) == ValidateNewAccount(Some(a), other)
  {
  }

  /** The sample student (school "S1", grade 2, class 3, number 15, e-mail kim@ex.com) is accepted by the
      database validator exactly when "S1" is registered, and it is accepted by `ValidateAccount`. */
  lemma ExampleStudentRegistration(registered: set<SchoolId>)
    ensures var info := StudentInfo("S1", Timetable([], true), 2, 3, 15, 0, []);
            var kim := Account(0, [1, 0, 0, 0, 0, 0, 0, 0, 0, 0, 0, 0, 0, 0, 0, 0], "Kim", "kim@ex.com", "abc123", Some(info));
            && (ValidateNewAccount(Some(kim), registered) == Accepted <==> "S1" in registered)
            && Validation.ValidateAccount(Some(kim)) == Accepted
  {
    Email.ExampleAddressAccepted();
  }

  // ---------------------------------------------------------------------------
  // The school lookup behind `registered`
  // ---------------------------------------------------------------------------

  /** Columns of the `schools` table as createTables declares it. */
  const SCHOOLS_COLUMNS: nat := 7

  /** Destinations GetSchool hands to `row.Scan`. */
  const GET_SCHOOL_DESTINATIONS: nat := 6

  /** The first row of the table with the given school id, if any. */
  function FirstWithId(schools: seq<School>, id: SchoolId): (r: Option<School>)
    ensures r.None? <==> forall i :: 0 <= i < |schools| ==> schools[i].schoolId != id
    ensures r.Some? ==> r.value in schools && r.value.schoolId == id
  {
    if schools == [] then None
    else if schools[0].schoolId == id then Some(schools[0])
    else FirstWithId(schools[1..], id)
  }

  /**
   * `GetSchool` over the rows of `schools`, scanning each column of the
   * `SELECT *` row into one of `destinations` targets. A scan whose target
   * count differs from the column count fails, and a failed scan, like a
   * missing row, yields a nil school.
   */
  function LookupSchool(schools: seq<School>, id: SchoolId, destinations: nat): (r: Option<School>)
    ensures r.Some? <==>
      destinations == SCHOOLS_COLUMNS && exists i :: 0 <= i < |schools| && schools[i].schoolId == id
    ensures r.Some? ==> r.value in schools && r.value.schoolId == id
  {
    if destinations != SCHOOLS_COLUMNS then None else FirstWithId(schools, id)
  }

  /** The school ids for which the lookup returns a school: the `registered` set of ValidateNewAccount. */
  function RegisteredIds(schools: seq<School>, destinations: nat): (ids: set<SchoolId>)
    ensures forall id :: id in ids ==> LookupSchool(schools, id, destinations).Some?
  {
    set i | 0 <= i < |schools| && LookupSchool(schools, schools[i].schoolId, destinations).Some? :: schools[i].schoolId
  }

  /**
   * As written, the lookup never finds a school, so every student whose
   * profile passes and whose school id is set is rejected as unregistered,
   * whatever the table holds.
   */
  lemma AsWrittenStudentsRejected(a: Account, schools: seq<School>)
    requires ProfileValid(a) && a.permissionInfo.Some? && a.permissionInfo.value.StudentInfo?
    requires a.permissionInfo.value.schoolId != ""
    ensures RegisteredIds(schools, GET_SCHOOL_DESTINATIONS) == {}
    ensures ValidateNewAccount(Some(a), RegisteredIds(schools, GET_SCHOOL_DESTINATIONS)) == Rejected(UnregisteredSchoolId)
  {
  }

  /**
   * With one scan target per column, the registered ids are exactly the
   * school ids in the table, and a student whose school is in the table passes
   * the registry check.
   */
  lemma IntendedLookupRegistersTable(schools: seq<School>, a: Account)
    ensures RegisteredIds(schools, SCHOOLS_COLUMNS) == set i | 0 <= i < |schools| :: schools[i].schoolId
    ensures a.permissionInfo.Some? && a.permissionInfo.value.StudentInfo?
            && (exists i :: 0 <= i < |schools| && schools[i].schoolId == a.permissionInfo.value.schoolId) ==>
      ValidateNewAccount(Some(a), RegisteredIds(schools, SCHOOLS_COLUMNS)) == Validation.ValidateNewAccount(Some(a))
  {
    var ids := RegisteredIds(schools, SCHOOLS_COLUMNS);
    forall i | 0 <= i < |schools|
      ensures schools[i].schoolId in ids
    {
      assert LookupSchool(schools, schools[i].schoolId, SCHOOLS_COLUMNS).Some?;
    }
    if a.permissionInfo.Some? && a.permissionInfo.value.StudentInfo?
       && (exists i :: 0 <= i < |schools| && schools[i].schoolId == a.permissionInfo.value.schoolId)
    {
      var i :| 0 <= i < |schools| && schools[i].schoolId == a.permissionInfo.value.schoolId;
      assert a.permissionInfo.value.schoolId in ids;
      DbStrongerThanUtils(Some(a), ids);
    }
  }
}
