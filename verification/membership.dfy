/**
 * Changes to who belongs to an organisation: removing a user, changing a
 * user's role, joining a public organisation and inviting a user.
 */
module Membership {
  import opened Wrappers
  import opened Organizations

  /**
   * The link of `user` to `org` whatever its role, invitations included,
   * in an active organisation: the lookup both user actions start from.
   */
  function MemberOrInvited(d: Directory, org: OrgId, user: UserId): (r: Option<Role>)
    ensures r.Some? <==> IsActive(d, org) && (org, user) in d.links
    ensures r.Some? ==> r.value == d.links[(org, user)]
  {
    if IsActive(d, org) && (org, user) in d.links then Some(d.links[(org, user)]) else None
  }

  /** A refused user action: the view only shows an error message. */
  datatype ActionError = Refused

  /**
   * The rule of `DeleteUserFromOrganizationView`: both links exist and
   * either the actor outranks the target without being a plain member, or
   * the actor removes themselves.
   */
  predicate MayRemove(actor: Option<Role>, target: Option<Role>, isSelf: bool) {
    actor.Some? && target.Some?
    && ((actor.value > target.value && actor.value != Participant) || isSelf)
  }

  /** `DeleteUserFromOrganizationView.get`: delete the target's link, or refuse. */
  function RemoveUser(d: Directory, org: OrgId, actor: UserId, target: UserId): (r: Result<Directory, ActionError>)
    ensures r.Ok? <==> MayRemove(MemberOrInvited(d, org, actor), MemberOrInvited(d, org, target), actor == target)
    ensures r.Ok? ==> r.value.orgs == d.orgs && (org, target) !in r.value.links
    ensures r.Ok? ==> forall k :: k != (org, target) ==> (k in r.value.links <==> k in d.links)
    ensures r.Ok? ==> forall k :: k in r.value.links ==> r.value.links[k] == d.links[k]
  {
    if MayRemove(MemberOrInvited(d, org, actor), MemberOrInvited(d, org, target), actor == target)
    then Ok(d.(links := d.links - {(org, target)}))
    else Err(Refused)
  }

  /** A plain member can remove nobody but themselves. */
  lemma MemberRemovesOnlySelf(d: Directory, org: OrgId, actor: UserId, target: UserId)
    requires MemberOrInvited(d, org, actor) == Some(Participant)
    requires actor != target
    ensures RemoveUser(d, org, actor, target).Err?
  {
  }

  /** Nobody removes another user whose role is equal to or higher than their own. */
  lemma NoRemovalUpward(d: Directory, org: OrgId, actor: UserId, target: UserId)
    requires actor != target
    requires (org, actor) in d.links && (org, target) in d.links
    requires d.links[(org, target)] >= d.links[(org, actor)]
    ensures RemoveUser(d, org, actor, target).Err?
  {
  }

  /** Anyone linked to an active organisation, the creator included, may leave it. */
  lemma AnyoneMayLeave(d: Directory, org: OrgId, user: UserId)
    requires IsActive(d, org) && (org, user) in d.links
    ensures RemoveUser(d, org, user, user).Ok?
    ensures (org, user) !in RemoveUser(d, org, user, user).value.links
  {
  }

  /**
   * The rule of `UpdateUserOrganizationRoleView`: the new role is 1 or 2,
   * both links exist, and either the actor outranks the target or the actor
   * accepts their own link as a plain member.
   */
  predicate MayUpdate(actor: Option<Role>, target: Option<Role>, isSelf: bool, newRole: int) {
    (newRole == 1 || newRole == 2)
    && actor.Some? && target.Some?
    && (actor.value > target.value || (isSelf && newRole == 1))
  }

  /** `UpdateUserOrganizationRoleView.get`: give the target's link the new role, or refuse. */
  function UpdateRole(d: Directory, org: OrgId, actor: UserId, target: UserId, newRole: int): (r: Result<Directory, ActionError>)
    ensures r.Ok? <==> MayUpdate(MemberOrInvited(d, org, actor), MemberOrInvited(d, org, target), actor == target, newRole)
    ensures r.Ok? ==> r.value.orgs == d.orgs && r.value.links.Keys == d.links.Keys
    ensures r.Ok? ==> r.value.links[(org, target)] == newRole
    ensures r.Ok? ==> forall k :: k in d.links && k != (org, target) ==> r.value.links[k] == d.links[k]
  {
    if MayUpdate(MemberOrInvited(d, org, actor), MemberOrInvited(d, org, target), actor == target, newRole)
    then Ok(d.(links := d.links[(org, target) := newRole as Role]))
    else Err(Refused)
  }

  /** Role changes never hand out the invited or the creator role. */
  lemma UpdateNeverAssignsInvitedOrCreator(d: Directory, org: OrgId, actor: UserId, target: UserId, newRole: int)
    requires UpdateRole(d, org, actor, target, newRole).Ok?
    ensures newRole == Participant || newRole == Admin
    ensures forall k :: k in d.links && d.links[k] == Creator && k != (org, target) ==>
      UpdateRole(d, org, actor, target, newRole).value.links[k] == Creator
  {
  }

  /** On one's own link the only change allowed is to plain member, e.g. accepting an invitation. */
  lemma SelfUpdateOnlyToParticipant(d: Directory, org: OrgId, user: UserId, newRole: int)
    ensures UpdateRole(d, org, user, user, newRole).Ok? <==>
      IsActive(d, org) && (org, user) in d.links && newRole == Participant
  {
  }

  /**
   * The rule asks only that the actor outrank the target, so a plain member
   * may raise an invited user straight to administrator.
   */
  lemma MemberMayPromoteInviteeToAdmin(d: Directory, org: OrgId, actor: UserId, target: UserId)
    requires IsActive(d, org) && actor != target
    requires (org, actor) in d.links && d.links[(org, actor)] == Participant
    requires (org, target) in d.links && d.links[(org, target)] == Invited
    ensures UpdateRole(d, org, actor, target, 2).Ok?
    ensures UpdateRole(d, org, actor, target, 2).value.links[(org, target)] == Admin
  {
  }

  /** Why joining did not create a link. */
  datatype JoinError =
    | JoinNotFound
      /**
       * The user already holds an invitation. A second link for the same pair
       * breaks the one-link-per-pair rule the model assumes, and the view does
       * not catch the store's `IntegrityError`: an HTTP 500.
       */
    | JoinConflict

  /**
   * `JoinOrganizationView.get`: behind the member mixin, a user who is not
   * a member of a public organisation gets a plain-member link.
   */
  function Join(d: Directory, org: OrgId, user: UserId): (r: Result<Directory, JoinError>)
    ensures r.Ok? <==> org in FilterUserAccess(d, user) && !d.orgs[org].isPrivate && (org, user) !in d.links
    ensures r.Ok? ==> r.value == d.(links := d.links[(org, user) := Participant])
    ensures r == Err(JoinConflict) ==> (org, user) in d.links && d.links[(org, user)] == Invited
  {
    match MemberMixin(d, org, user)
    case Err(_) => Err(JoinNotFound)
    case Ok(ctx) =>
      if !ctx.organization.isPrivate && !ctx.isGroupMember then
        if (org, user) in d.links then Err(JoinConflict)
        else Ok(d.(links := d.links[(org, user) := Participant]))
      else Err(JoinNotFound)
  }

  /** After joining, the user is a member of the organisation but not an administrator. */
  lemma JoinMakesMember(d: Directory, org: OrgId, user: UserId)
    requires Join(d, org, user).Ok?
    ensures OrganizationMember(Join(d, org, user).value, org, user) == Some(Participant)
    ensures OrganizationAdmin(Join(d, org, user).value, org, user) == None
  {
  }

  /** Why an invitation did not create a link. */
  datatype InviteError =
    | InviteFormInvalid
    | InviteNotFound
      /** The invitee already has a link: the store refuses a second one and the view shows an error. */
    | InviteDuplicate

  /**
   * `OrganizationUsersView.post`: `invitee` is the user the invitation form
   * resolved, `None` when the form is invalid. Only an administrator may
   * invite; the new link has role 0.
   */
  function Invite(d: Directory, org: OrgId, actor: UserId, invitee: Option<UserId>): (r: Result<Directory, InviteError>)
    ensures r.Ok? <==> invitee.Some? && OrganizationAdmin(d, org, actor).Some? && (org, invitee.value) !in d.links
    ensures r.Ok? ==> r.value == d.(links := d.links[(org, invitee.value) := Invited])
    ensures invitee.Some? && OrganizationAdmin(d, org, actor).None? ==> r == Err(InviteNotFound)
  {
    if invitee.None? then Err(InviteFormInvalid)
    else if OrganizationAdmin(d, org, actor).None? then Err(InviteNotFound)
    else if (org, invitee.value) in d.links then Err(InviteDuplicate)
    else Ok(d.(links := d.links[(org, invitee.value) := Invited]))
  }

  /** An invitation grants no access to a private organisation until it is accepted. */
  lemma InviteeCannotSeePrivate(d: Directory, org: OrgId, actor: UserId, invitee: UserId)
    requires Invite(d, org, actor, Some(invitee)).Ok?
    requires d.orgs[org].isPrivate
    ensures org !in FilterUserAccess(Invite(d, org, actor, Some(invitee)).value, invitee)
  {
    InvitationGrantsNoAccess(Invite(d, org, actor, Some(invitee)).value, org, invitee);
  }

  /** Accepting an invitation (a self update to role 1) makes the invitee a member. */
  lemma AcceptInvitation(d: Directory, org: OrgId, actor: UserId, invitee: UserId)
    requires Invite(d, org, actor, Some(invitee)).Ok?
    ensures var d' := Invite(d, org, actor, Some(invitee)).value;
      UpdateRole(d', org, invitee, invitee, 1).Ok?
      && OrganizationMember(UpdateRole(d', org, invitee, invitee, 1).value, org, invitee) == Some(Participant)
  {
    var d' := Invite(d, org, actor, Some(invitee)).value;
    assert MemberOrInvited(d', org, invitee) == Some(Invited);
  }
}
