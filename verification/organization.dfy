/**
 * Organisations, their membership links and who may see what: the
 * organisation managers (`filter_user_access`, `get_organization_member`,
 * `get_organization_admin`) and the mixins and views that turn them into
 * a 404 or into the `is_group_member` / `user_is_admin` flags.
 */
module Organizations {
  import opened Wrappers

  type OrgId = int
  type UserId = int
  type PostId = int

  /** A link's role: 0 invited, 1 member, 2 admin, 3 creator. */
  type Role = r: int | 0 <= r <= 3

  const Invited: Role := 0
  const Participant: Role := 1
  const Admin: Role := 2
  const Creator: Role := 3

  /** The roles that make a link a membership (`role__in=(1, 2, 3)`). */
  predicate IsMemberRole(r: Role) {
    1 <= r
  }

  /** The roles that make a member an administrator (`role__in=(2, 3)`). */
  predicate IsAdminRole(r: Role) {
    r == Admin || r == Creator
  }

  datatype Organization = Organization(isActive: bool, isPrivate: bool)

  datatype Post = Post(id: PostId, postedBy: OrgId, isPrivate: bool)

  /**
   * The organisation table and the organisation-to-user links; at most one
   * link per (organisation, user) pair.
   */
  datatype Directory = Directory(orgs: map<OrgId, Organization>, links: map<(OrgId, UserId), Role>)

  /** Failures a view answers with instead of a page. */
  datatype HttpError =
      /** HTTP 404. */
    | NotFound
      /** An uncaught exception: HTTP 500. */
    | ServerError

  predicate IsActive(d: Directory, org: OrgId) {
    org in d.orgs && d.orgs[org].isActive
  }

  /** `get_active_organizations`: the organisations whose `is_active` flag is set. */
  function ActiveOrganizations(d: Directory): (r: set<OrgId>)
    ensures forall o :: o in r <==> o in d.orgs && d.orgs[o].isActive
  {
    set o | o in d.orgs && d.orgs[o].isActive
  }

  /** `get_active_organization_to_user`: the links whose organisation is active. */
  function ActiveLinks(d: Directory): (r: set<(OrgId, UserId)>)
    ensures forall k :: k in r <==> k in d.links && IsActive(d, k.0)
  {
    set k | k in d.links && IsActive(d, k.0)
  }

  /**
   * `get_organization_member(org, user).first()`: the role of the user's
   * link when it is a membership of an active organisation.
   */
  function OrganizationMember(d: Directory, org: OrgId, user: UserId): (r: Option<Role>)
    ensures r.Some? ==> IsActive(d, org) && IsMemberRole(r.value)
    ensures r.Some? <==> IsActive(d, org) && (org, user) in d.links && IsMemberRole(d.links[(org, user)])
  {
    if IsActive(d, org) && (org, user) in d.links && IsMemberRole(d.links[(org, user)])
    then Some(d.links[(org, user)])
    else None
  }

  /** `get_organization_admin(org, user).first()`: the member rows narrowed to roles 2 and 3. */
  function OrganizationAdmin(d: Directory, org: OrgId, user: UserId): (r: Option<Role>)
    ensures r.Some? ==> OrganizationMember(d, org, user) == r && IsAdminRole(r.value)
  {
    var m := OrganizationMember(d, org, user);
    if m.Some? && IsAdminRole(m.value) then m else None
  }

  /** Administrators are exactly the members whose role is 2 or 3. */
  lemma AdminsAreMembers(d: Directory, org: OrgId, user: UserId)
    ensures OrganizationAdmin(d, org, user).Some? <==>
      OrganizationMember(d, org, user).Some? && IsAdminRole(OrganizationMember(d, org, user).value)
  {
  }

  /**
   * `Organization.objects.filter_user_access(user)`: active organisations
   * that are public or that the user is linked to with role 1, 2 or 3.
   * A set, so the result is free of duplicates as `.distinct()` makes it.
   */
  function FilterUserAccess(d: Directory, user: UserId): (r: set<OrgId>)
    ensures r <= ActiveOrganizations(d)
  {
    set o | o in d.orgs && d.orgs[o].isActive
              && (!d.orgs[o].isPrivate || ((o, user) in d.links && d.links[(o, user)] in {1, 2, 3}))
  }

  /**
   * An organisation is visible exactly when it is active and either public
   * or the user is one of its members; an invitation alone grants nothing.
   */
  lemma VisibleIffPublicOrMember(d: Directory, org: OrgId, user: UserId)
    ensures org in FilterUserAccess(d, user) <==>
      IsActive(d, org) && (!d.orgs[org].isPrivate || OrganizationMember(d, org, user).Some?)
  {
  }

  /** Membership, and with it administration, only ever stems from an active link. */
  lemma MembersHaveActiveLinks(d: Directory, org: OrgId, user: UserId)
    requires OrganizationMember(d, org, user).Some?
    ensures (org, user) in ActiveLinks(d) && org in ActiveOrganizations(d)
  {
  }

  /** An invitation to a private organisation shows it to nobody and makes no member. */
  lemma InvitationGrantsNoAccess(d: Directory, org: OrgId, user: UserId)
    requires org in d.orgs && d.orgs[org].isPrivate
    requires (org, user) in d.links && d.links[(org, user)] == Invited
    ensures org !in FilterUserAccess(d, user)
    ensures OrganizationMember(d, org, user) == None
  {
  }

  /**
   * Whether a post passes `OrganizationPost.objects.filter_user_access`:
   * its organisation is active and either both it and the post are
   * public, or the user has a link of any role to that organisation.
   */
  predicate PostVisible(d: Directory, p: Post, user: UserId) {
    IsActive(d, p.postedBy)
    && ((!d.orgs[p.postedBy].isPrivate && !p.isPrivate) || (p.postedBy, user) in d.links)
  }

  /** The optional organisation narrowing: `-1` means every organisation. */
  predicate InScope(p: Post, orgPk: int) {
    orgPk == -1 || p.postedBy == orgPk
  }

  /**
   * `OrganizationPost.objects.filter_user_access(user, org_pk)` over the
   * post table, in table order.
   */
  function FilterPostAccess(d: Directory, posts: seq<Post>, user: UserId, orgPk: int): (r: seq<Post>)
    ensures |r| <= |posts|
    ensures forall p :: p in r <==> p in posts && PostVisible(d, p, user) && InScope(p, orgPk)
  {
    if |posts| == 0 then []
    else
      var rest := FilterPostAccess(d, posts[1..], user, orgPk);
      assert posts == [posts[0]] + posts[1..];
      if PostVisible(d, posts[0], user) && InScope(posts[0], orgPk) then [posts[0]] + rest else rest
  }

  /** No post appears twice. */
  predicate DistinctPosts(posts: seq<Post>) {
    forall i, j :: 0 <= i < j < |posts| ==> posts[i].id != posts[j].id
  }

  /** Filtering a duplicate-free post table yields a duplicate-free list. */
  lemma {:induction false} FilterPostAccessDistinct(d: Directory, posts: seq<Post>, user: UserId, orgPk: int)
    requires DistinctPosts(posts)
    ensures DistinctPosts(FilterPostAccess(d, posts, user, orgPk))
  {
    if |posts| > 0 {
      FilterPostAccessDistinct(d, posts[1..], user, orgPk);
      var rest := FilterPostAccess(d, posts[1..], user, orgPk);
      forall q | q in rest ensures q.id != posts[0].id {
        var k :| 0 <= k < |posts[1..]| && posts[1..][k] == q;
        assert posts[k + 1] == q;
      }
    }
  }

  /** Narrowed to one organisation, every post returned was posted by it. */
  lemma FilterPostAccessScoped(d: Directory, posts: seq<Post>, user: UserId, orgPk: int)
    requires orgPk != -1
    ensures forall p :: p in FilterPostAccess(d, posts, user, orgPk) ==> p.postedBy == orgPk
  {
  }

  /** Unnarrowed, a post is returned exactly when it is visible. */
  lemma FilterPostAccessAll(d: Directory, posts: seq<Post>, user: UserId, p: Post)
    requires p in posts
    ensures p in FilterPostAccess(d, posts, user, -1) <==> PostVisible(d, p, user)
  {
  }

  /** The context `UserIsOrganizationMemberMixin` builds. */
  datatype MemberContext = MemberContext(
    organization: Organization,
    membership: Option<Role>,
    isGroupMember: bool,
    userIsAdmin: bool)

  /** `OrganizationMixin`: the organisation, or 404 when the user may not see it. */
  function OrganizationMixin(d: Directory, org: OrgId, user: UserId): (r: Result<Organization, HttpError>)
    ensures r.Ok? <==> org in FilterUserAccess(d, user)
    ensures r.Ok? ==> r.value == d.orgs[org]
  {
    if org in FilterUserAccess(d, user) then Ok(d.orgs[org]) else Err(NotFound)
  }

  /**
   * `UserIsOrganizationMemberMixin`: after `OrganizationMixin`, look up the
   * member row; `user_is_admin` reads its role only when there is one.
   */
  function MemberMixin(d: Directory, org: OrgId, user: UserId): (r: Result<MemberContext, HttpError>)
    ensures r.Ok? <==> org in FilterUserAccess(d, user)
    ensures r.Ok? ==> r.value.isGroupMember == OrganizationMember(d, org, user).Some?
    ensures r.Ok? ==> (r.value.userIsAdmin <==> OrganizationAdmin(d, org, user).Some?)
    ensures r.Ok? && r.value.userIsAdmin ==> r.value.isGroupMember
  {
    match OrganizationMixin(d, org, user)
    case Err(e) => Err(e)
    case Ok(o) =>
      var m := OrganizationMember(d, org, user);
      var isMember := m.Some?;
      Ok(MemberContext(o, m, isMember, if isMember then IsAdminRole(m.value) else false))
  }

  /** `IsAdminMixin`: the member context, or 404 unless the user is an administrator. */
  function IsAdminMixin(d: Directory, org: OrgId, user: UserId): (r: Result<MemberContext, HttpError>)
    ensures r.Ok? <==> org in FilterUserAccess(d, user) && OrganizationAdmin(d, org, user).Some?
    ensures r.Ok? ==> r.value.isGroupMember && r.value.userIsAdmin
  {
    match MemberMixin(d, org, user)
    case Err(e) => Err(e)
    case Ok(ctx) => if !ctx.userIsAdmin then Err(NotFound) else Ok(ctx)
  }

  /** Every administrator of an active organisation sees it, public or not. */
  lemma AdminsSeeTheirOrganization(d: Directory, org: OrgId, user: UserId)
    requires OrganizationAdmin(d, org, user).Some?
    ensures IsAdminMixin(d, org, user).Ok?
  {
  }

  /** The flags of the organisation's main page. */
  datatype MainPage = MainPage(organization: Organization, isGroupMember: bool, userIsAdmin: bool)

  /**
   * `OrganizationMainView`: a detail view over `filter_user_access`, with
   * `user_is_admin` computed as `is_group_member and role in (2, 3)`.
   */
  function OrganizationMainView(d: Directory, org: OrgId, user: UserId): (r: Result<MainPage, HttpError>)
    ensures r.Ok? <==> org in FilterUserAccess(d, user)
  {
    if org !in FilterUserAccess(d, user) then Err(NotFound)
    else
      var m := OrganizationMember(d, org, user);
      Ok(MainPage(d.orgs[org], m.Some?, m.Some? && IsAdminRole(m.value)))
  }

  /** The main page and the member mixin derive the same two flags. */
  lemma MainViewAgreesWithMixin(d: Directory, org: OrgId, user: UserId)
    ensures OrganizationMainView(d, org, user).Ok? <==> MemberMixin(d, org, user).Ok?
    ensures OrganizationMainView(d, org, user).Ok? ==>
      OrganizationMainView(d, org, user).value.isGroupMember == MemberMixin(d, org, user).value.isGroupMember
      && OrganizationMainView(d, org, user).value.userIsAdmin == MemberMixin(d, org, user).value.userIsAdmin
  {
  }
}
