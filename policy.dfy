/** The static action policy (policy/MoltbookPolicy.java). */
module Policy {
  import opened Text

  /** Actions never executed autonomously. */
  const RestrictedActions: set<string> := {
    "bookCarService", "initiateCarPurchase", "authorizePayment", "scheduleAppointment",
    "confirmOrder", "deletePost", "createSubmolt", "addModerator"
  }

  /** Actions executed only after a human confirms them. */
  const ConfirmationRequired: set<string> := {"createMoltbookPost", "followAgent", "subscribeToSubmolt"}

  /** isActionAllowed. */
  predicate IsActionAllowed(actionName: string) {
    actionName !in RestrictedActions
  }

  /** requiresConfirmation. */
  predicate RequiresConfirmation(actionName: string) {
    actionName in ConfirmationRequired
  }

  /** getRestrictedActions: a copy holding exactly the actions isActionAllowed rejects. */
  function GetRestrictedActions(): (r: set<string>)
    ensures forall a :: a in r <==> !IsActionAllowed(a)
  {
    RestrictedActions
  }

  /** getConfirmationActions: a copy holding exactly the actions that need confirmation. */
  function GetConfirmationActions(): (r: set<string>)
    ensures forall a :: a in r <==> RequiresConfirmation(a)
  {
    ConfirmationRequired
  }

  /** The two sets share no action. */
  lemma PolicySetsDisjoint()
    ensures RestrictedActions !! ConfirmationRequired
  {
  }

  /** ValidationResult. */
  datatype ValidationResult = ValidationResult(allowed: bool, reason: string)

  /** The opening every per-action reason shares: the action's name in quotes. */
  function Naming(actionName: string): string {
    "Action '" + actionName + "'"
  }

  function RestrictedReason(actionName: string): (r: string)
    ensures StartsWith(r, Naming(actionName))
  {
    var r := Naming(actionName) + " is restricted and cannot be executed autonomously";
    assert r[..|Naming(actionName)|] == Naming(actionName);
    r
  }

  function ConfirmationReason(actionName: string): (r: string)
    ensures StartsWith(r, Naming(actionName))
  {
    var r := Naming(actionName) + " requires human confirmation";
    assert r[..|Naming(actionName)|] == Naming(actionName);
    r
  }

  const AllowedReason: string := "Action allowed"

  /**
   * validate: a restricted action is refused with a reason that names it; an action that needs
   * confirmation is allowed with a reason that names it; every other name, known or not, is allowed.
   */
  function Validate(actionName: string): (r: ValidationResult)
    ensures r.allowed <==> IsActionAllowed(actionName)
    ensures !r.allowed ==> StartsWith(r.reason, Naming(actionName)) && r.reason == RestrictedReason(actionName)
    ensures r.allowed && RequiresConfirmation(actionName) ==>
              StartsWith(r.reason, Naming(actionName)) && r.reason == ConfirmationReason(actionName)
    ensures r.allowed && !RequiresConfirmation(actionName) ==> r.reason == AllowedReason
  {
    if !IsActionAllowed(actionName) then
      ValidationResult(false, RestrictedReason(actionName))
    else if RequiresConfirmation(actionName) then
      ValidationResult(true, ConfirmationReason(actionName))
    else
      ValidationResult(true, AllowedReason)
  }

  /** No action that needs confirmation is ever reported as restricted. */
  lemma ConfirmationActionsAreAllowed(actionName: string)
    requires RequiresConfirmation(actionName)
    ensures Validate(actionName) == ValidationResult(true, ConfirmationReason(actionName))
  {
    PolicySetsDisjoint();
  }
}
