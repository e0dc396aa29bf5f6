/**
 * The squad ("role") menu of the workouts page: the role read from the
 * user lookup, the optimistic role change that is reverted when the
 * server refuses it, and which role button is shown as active. The
 * server's answers are parameters.
 */
module WorkoutsPage {
  import opened Wrappers

  const ROLE_OPTIONS: seq<string> := ["M1", "M2", "M3", "M4", "W1", "W2", "W3", "W4", "Coach", "None"]

  /** A record of the user lookup; only its `squad` is read. */
  datatype UserRow = UserRow(squad: Option<string>)

  /** The role after the lookup: the first record's squad when it has one,
      else "None"; a failed lookup (`None`) also gives "None". */
  function FetchedRole(answer: Option<seq<UserRow>>): (r: string)
    ensures r != ""
    ensures answer.None? || answer == Some([]) ==> r == "None"
    ensures r != "None" ==> answer.Some? && |answer.value| > 0 && answer.value[0].squad == Some(r)
    ensures answer.Some? && |answer.value| > 0 && answer.value[0].squad.Some? && answer.value[0].squad.value != ""
            ==> r == answer.value[0].squad.value
    ensures answer.Some? && |answer.value| > 0 && (answer.value[0].squad.None? || answer.value[0].squad == Some(""))
            ==> r == "None"
  {
    if answer.Some? && |answer.value| > 0 && answer.value[0].squad.Some? && answer.value[0].squad.value != ""
    then answer.value[0].squad.value
    else "None"
  }

  /** Whether the button of option `r` is drawn as active for `role`
      (`None` is the role before the lookup has answered). */
  predicate IsActive(r: string, role: Option<string>) {
    (r == "None" && role.None?) || role == Some(r)
  }

  /** A role that is one of the options, or no role yet, lights exactly one
      button; any other role lights none. */
  lemma ActiveButton(role: Option<string>)
    ensures role.None? || role.value in ROLE_OPTIONS
            ==> exists k :: 0 <= k < |ROLE_OPTIONS| && IsActive(ROLE_OPTIONS[k], role)
    ensures forall i, j ::
              0 <= i < |ROLE_OPTIONS| && 0 <= j < |ROLE_OPTIONS| && IsActive(ROLE_OPTIONS[i], role) && IsActive(ROLE_OPTIONS[j], role)
              ==> i == j
    ensures role.Some? && role.value !in ROLE_OPTIONS
            ==> forall k :: 0 <= k < |ROLE_OPTIONS| ==> !IsActive(ROLE_OPTIONS[k], role)
  {
    if role.None? {
      assert IsActive(ROLE_OPTIONS[9], role);
    }
  }

  /** The role state of the page: the role shown, whether a change is
      waiting for the server, and the role to go back to if it fails. */
  datatype RoleState = RoleState(role: Option<string>, updating: bool, prev: Option<string>)

  /** Whether `handleRoleChange(newRole)` does anything: not for the
      current role, and not while another change is waiting. */
  predicate Sends(s: RoleState, newRole: string) {
    s.role != Some(newRole) && !s.updating
  }

  /** The state right after `handleRoleChange(newRole)` sends the update:
      the new role is shown before the server answers. */
  function BeginChange(s: RoleState, newRole: string): (t: RoleState)
    ensures Sends(s, newRole) ==> t.role == Some(newRole) && t.updating && t.prev == s.role
    ensures !Sends(s, newRole) ==> t == s
  {
    if Sends(s, newRole) then RoleState(Some(newRole), true, s.role) else s
  }

  /** The state once the server has answered the waiting change. */
  function FinishChange(s: RoleState, ok: bool): (t: RoleState)
    ensures !t.updating && t.prev == s.prev
    ensures ok ==> t.role == s.role
    ensures !ok ==> t.role == s.prev
  {
    RoleState(if ok then s.role else s.prev, false, s.prev)
  }

  /** A change the server accepts leaves the new role; one it refuses
      brings back the role shown before the click. Either way nothing is
      waiting afterwards. */
  lemma ChangeOutcome(s: RoleState, newRole: string, ok: bool)
    requires Sends(s, newRole)
    ensures FinishChange(BeginChange(s, newRole), ok).role == if ok then Some(newRole) else s.role
    ensures !FinishChange(BeginChange(s, newRole), ok).updating
  {
  }

  /** While a change is waiting, further clicks are ignored; so are clicks
      on the current role. */
  lemma IgnoredClicks(s: RoleState, a: string, b: string)
    requires Sends(s, a)
    ensures BeginChange(BeginChange(s, a), b) == BeginChange(s, a)
    ensures BeginChange(BeginChange(s, a), a) == BeginChange(s, a)
  {
  }

  class RoleMenu {
    var role: Option<string>
    var loadingRole: bool
    var updatingRole: bool
    /** The role the waiting change reverts to (`prev` in the handler). */
    var prev: Option<string>

    function State(): RoleState
      reads this
    {
      RoleState(role, updatingRole, prev)
    }

    constructor()
      ensures role.None? && loadingRole && !updatingRole && prev.None?
    {
      role := None;
      loadingRole := true;
      updatingRole := false;
      prev := None;
    }

    /** The user lookup has answered (`None`: it failed). */
    method RoleFetched(answer: Option<seq<UserRow>>)
      modifies this`role, this`loadingRole
      ensures role == Some(FetchedRole(answer)) && !loadingRole
    {
      role := Some(FetchedRole(answer));
      loadingRole := false;
    }

    /** `handleRoleChange(newRole)` up to the server call; `sent` tells
      whether the call is made. */
    method ChangeRole(newRole: string) returns (sent: bool)
      modifies this`role, this`updatingRole, this`prev
      ensures sent == Sends(old(State()), newRole)
      ensures State() == BeginChange(old(State()), newRole)
    {
      sent := role != Some(newRole) && !updatingRole;
      if sent {
        prev := role;
        role := Some(newRole);
        updatingRole := true;
      }
    }

    /** The server's answer to the waiting change. */
    method ChangeDone(ok: bool)
      requires updatingRole
      modifies this`role, this`updatingRole
      ensures State() == FinishChange(old(State()), ok)
    {
      if !ok {
        role := prev;
      }
      updatingRole := false;
    }
  }
}
