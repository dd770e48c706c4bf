/** Users, roles and what each role may do (internal/auth/authorization.go). */
module Authorization {
  import opened Core

  datatype Role = Carrier | Dispatcher | Customs | LockController | Auditor

  datatype User = User(id: string, tenantID: string, role: Role, disabled: bool)

  datatype Permission =
    | VoyageDeclare | VoyageRead | InspectionManage | PassageReserve | PassageOperate | AuditRead | UserManage

  function Permissions(role: Role): set<Permission> {
    match role
    case Carrier => {VoyageDeclare, VoyageRead}
    case Dispatcher => {VoyageDeclare, VoyageRead, PassageReserve}
    case Customs => {VoyageRead, InspectionManage}
    case LockController => {VoyageRead, PassageOperate}
    case Auditor => {VoyageRead, AuditRead}
  }

  function Authorize(user: User, tenantID: string, permission: Permission): Result<()> {
    if user.disabled || user.id == "" || user.tenantID == "" then Err(Forbidden)
    else if TrimSpace(tenantID) == "" || user.tenantID != tenantID then Err(Forbidden)
    else if permission !in Permissions(user.role) then Err(Forbidden)
    else Ok(())
  }

  /** For an account in order, the permissions that the service checks are the roles that
      the store's transactions check. */
  lemma PermissionsMatchStore(user: User)
    requires !user.disabled && user.id != "" && TrimSpace(user.tenantID) != ""
    ensures Authorize(user, user.tenantID, VoyageDeclare).Ok? <==> user.role.Carrier? || user.role.Dispatcher?
    ensures Authorize(user, user.tenantID, InspectionManage).Ok? <==> user.role.Customs?
    ensures Authorize(user, user.tenantID, PassageReserve).Ok? <==> user.role.Dispatcher?
    ensures Authorize(user, user.tenantID, PassageOperate).Ok? <==> user.role.LockController?
    ensures Authorize(user, user.tenantID, VoyageRead).Ok?
  {
  }

  /** The table by permission: who may do it. */
  predicate RoleMay(role: Role, permission: Permission) {
    match permission
    case VoyageDeclare => role == Carrier || role == Dispatcher
    case VoyageRead => true
    case InspectionManage => role == Customs
    case PassageReserve => role == Dispatcher
    case PassageOperate => role == LockController
    case AuditRead => role == Auditor
    case UserManage => false
  }

  /** Only an enabled account with a name may act, only for its own tenant, and only as its
      role allows. */
  lemma AuthorizeIff(user: User, tenantID: string, permission: Permission)
    ensures Authorize(user, tenantID, permission).Ok? <==>
              !user.disabled && user.id != "" && TrimSpace(tenantID) != "" && user.tenantID == tenantID && RoleMay(user.role, permission)
    ensures Authorize(user, tenantID, permission).Err? ==> Authorize(user, tenantID, permission).error == Forbidden
  {
  }
}
