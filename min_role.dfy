/** The `MinRole` authorization filter. */
module MinRole {
  import opened Wrappers
  import Roles
  import Entities

  /** `context.Result` after the filter: unauthorized, forbidden, or left unset. */
  datatype FilterResult = Unauthorized | Forbid | Unset

  /**
   * `OnAuthorization`: no user attached to the request gives Unauthorized; a user whose
   * role is below the minimum gives Forbid; otherwise the result stays unset and the
   * request proceeds.
   */
  function OnAuthorization(user: Option<Entities.User>, minRole: Roles.EUserRole): (r: FilterResult)
    ensures r == Unauthorized <==> user.None?
    ensures r == Forbid <==> user.Some? && Roles.Below(user.value.role, minRole)
    ensures r == Unset <==> user.Some? && !Roles.Below(user.value.role, minRole)
  {
    if user.None? then Unauthorized
    else if Roles.Below(user.value.role, minRole) then Forbid
    else Unset
  }

  /**
   * The gate is monotone in the role order None < User < Admin: an administrator passes
   * every gate, a user with role None fails a User gate, and whoever passes a gate also
   * passes every lower gate, as does every user with a higher role.
   */
  lemma GateOrder(u: Entities.User, v: Entities.User, gate: Roles.EUserRole, lower: Roles.EUserRole)
    requires OnAuthorization(Some(u), gate) == Unset
    requires !Roles.Below(gate, lower) && !Roles.Below(v.role, u.role)
    ensures OnAuthorization(Some(u), lower) == Unset
    ensures OnAuthorization(Some(v), gate) == Unset
    ensures OnAuthorization(Some(u.(role := Roles.Admin)), gate) == Unset
    ensures OnAuthorization(Some(u.(role := Roles.None)), Roles.User) == Forbid
  {
  }
}
