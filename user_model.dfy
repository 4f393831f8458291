/** The user record and its role enum. */
module UserModel {
  import opened Wrappers
  import opened SubmissionModel

  datatype UserRole = Admin | User

  function RoleValue(r: UserRole): string {
    match r
    case Admin => "admin"
    case User => "user"
  }

  datatype UserRecord = UserRecord(
    username: string,
    email: string,
    hashedPassword: string,
    role: Option<UserRole>,       // the schema lets a caller send null
    fullName: Option<string>,
    createdAt: Time,
    updatedAt: Time,
    isActive: Option<bool>,
    solvedProblems: seq<Id>)

  /** `current_user.get("role") == "admin"`. */
  predicate IsAdmin(u: UserRecord) {
    u.role == Some(Admin)
  }
}
