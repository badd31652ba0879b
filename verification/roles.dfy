/** The client's role constants and the two helpers that read a role. */
module Roles {
  import opened Wrappers
  import opened Text

  const Admin := "admin"
  const Student := "student"
  const Guardian := "guardian"

  /** The values of `ROLES`. */
  const AllRoles := [Admin, Student, Guardian]

  /** `ROLES_LIST`: each role value with the label the role picker shows. */
  const RolesList := [(Admin, "Admin"), (Student, "Student"), (Guardian, "Parent")]

  /** The roles that share the student dashboard. */
  const DashboardRoles := [Student, Guardian]

  const AdminPath := "/admin/dashboard"
  const DashboardPath := "/dashboard"

  lemma AdminIsLower()
    ensures Lower(Admin) == Admin
  {
    assert forall i :: 0 <= i < |Admin| ==> !IsUpper(Admin[i]) by {
      forall i | 0 <= i < |Admin| ensures !IsUpper(Admin[i]) { assert Admin[i] in "admin"; }
    }
    LowerOfLowerCase(Admin);
  }

  /** The role values are lower case, so lowercasing leaves them unchanged. */
  lemma RoleValuesAreLower()
    ensures Lower(Admin) == Admin && Lower(Student) == Student && Lower(Guardian) == Guardian
  {
    AdminIsLower();
    assert forall i :: 0 <= i < |Student| ==> !IsUpper(Student[i]) by {
      forall i | 0 <= i < |Student| ensures !IsUpper(Student[i]) { assert Student[i] in "student"; }
    }
    assert forall i :: 0 <= i < |Guardian| ==> !IsUpper(Guardian[i]) by {
      forall i | 0 <= i < |Guardian| ensures !IsUpper(Guardian[i]) { assert Guardian[i] in "guardian"; }
    }
    LowerOfLowerCase(Student);
    LowerOfLowerCase(Guardian);
  }

  /** `ROLES_LIST` offers exactly the `ROLES` values, each once, in the same order. */
  lemma RolesListMatchesRoles()
    ensures |RolesList| == |AllRoles|
    ensures forall k :: 0 <= k < |RolesList| ==> RolesList[k].0 == AllRoles[k]
    ensures forall i, j :: 0 <= i < j < |RolesList| ==> RolesList[i].0 != RolesList[j].0
  {
  }

  /** The dashboard roles are the two non-administrator roles. */
  lemma DashboardRolesExcludeAdmin()
    ensures Admin !in DashboardRoles
    ensures forall r :: r in AllRoles ==> (r in DashboardRoles <==> r != Admin)
  {
  }

  /** `(role || '').toString().toLowerCase()`. */
  function Normalize(role: Option<string>): (r: string)
    ensures forall i :: 0 <= i < |r| ==> !IsUpper(r[i])
    ensures !TruthyText(role) ==> r == ""
  {
    Lower(OrText(role, ""))
  }

  /** `isAdmin`: the role, lowercased, is `admin`; a missing role is not. */
  function IsAdmin(role: Option<string>): (b: bool)
    ensures b <==> role.Some? && SqlEquals(role.value, Admin)
  {
    AdminIsLower();
    Normalize(role) == Admin
  }

  /** `getDashboardPath`: the administrator's dashboard for an administrator, else the shared one. */
  function GetDashboardPath(role: Option<string>): (path: string)
    ensures path == AdminPath <==> IsAdmin(role)
    ensures path == DashboardPath <==> !IsAdmin(role)
  {
    var r := Normalize(role);
    LowerIdempotent(OrText(role, ""));
    if IsAdmin(Some(r)) then AdminPath else DashboardPath
  }
}
