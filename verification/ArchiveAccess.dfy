/**
  Who may see a digital document: the filter for lists and the check on one document
  (src/utils/digital-archive-access.js:25-258). Local days last 24 hours: `zone` is the offset of the server's clock.
 */
module ArchiveAccess {
  import opened Options
  import opened Where

  datatype AccessLevel = RESTRICT | NON_RESTRICT

  datatype AccessRequest = AccessRequest(requesterId: Option<string>, status: string, expiresAt: Option<int>)

  datatype Document = Document(
    id: string, createdBy: Option<string>, ownerUserId: Option<string>, ownerDivisionId: Option<string>,
    accessLevel: AccessLevel, isRestricted: bool, relatedUsers: seq<string>, accessRequests: seq<AccessRequest>)

  datatype Scope = Scope(
    userId: Option<string>, divisionId: Option<string>, canAccessRestricted: bool, canViewAll: bool,
      canAccessDivision: bool)

  // -------------------------------------------------------------------------------- reachable scopes

  datatype User = User(id: string, roleId: Option<string>, divisionId: Option<string>, canAccessRestricted: bool)

  /** `roleHasFeature`: no feature without a role; `grants` says which roles hold a feature on the menus asked for. */
  predicate RoleHasFeature(roleId: Option<string>, feature: string, grants: (string, string) -> bool) {
    IsTruthy(roleId) && grants(roleId.value, feature)
  }

  /** The scope of a user id, given the user row the database finds for it. */
  function AccessScope(userId: Option<string>, found: Option<User>, grants: (string, string) -> bool): Scope {
    if !IsTruthy(userId) || found.None? then Scope(None, None, false, false, false)
    else Scope(
      Some(found.value.id), found.value.divisionId, found.value.canAccessRestricted,
      RoleHasFeature(found.value.roleId, "manage_all", grants),
        RoleHasFeature(found.value.roleId, "view_division", grants))
  }

  /** Without a user there are no rights; user ids are never empty. */
  predicate IsReachable(scope: Scope) {
    if scope.userId.None? then scope == Scope(None, None, false, false, false) else scope.userId.value != ""
  }

  lemma ScopesAreReachable(userId: Option<string>, found: Option<User>, grants: (string, string) -> bool)
    requires found.Some? ==> found.value.id != ""
    ensures IsReachable(AccessScope(userId, found, grants))
    ensures var scope := AccessScope(userId, found, grants);
      && (scope.userId.Some? <==> userId.Some? && userId.value != "" && found.Some?)
      && (scope.userId.Some? ==>
            && scope.userId.value == found.value.id && scope.divisionId == found.value.divisionId
            && scope.canAccessRestricted == found.value.canAccessRestricted
            && var role := found.value.roleId;
               && (scope.canViewAll <==> role.Some? && role.value != "" && grants(role.value, "manage_all"))
               && (scope.canAccessDivision <==> role.Some? && role.value != "" && grants(role.value, "view_division")))
  {
  }

  // -------------------------------------------------------------------------------------- local days

  const DAY_MS := 86_400_000

  function StartOfLocalDay(ms: int, zone: int): int {
    (ms + zone) / DAY_MS * DAY_MS - zone
  }

  function EndOfLocalDay(ms: int, zone: int): int {
    StartOfLocalDay(ms, zone) + DAY_MS - 1
  }

  /** An expiry not before today's start is one whose day has not ended. */
  lemma ExpiryByDay(expiresAt: int, now: int, zone: int)
    ensures expiresAt >= StartOfLocalDay(now, zone) <==> EndOfLocalDay(expiresAt, zone) >= now
  {
    var a, b := (expiresAt + zone) / DAY_MS, (now + zone) / DAY_MS;
    assert a * DAY_MS <= expiresAt + zone < a * DAY_MS + DAY_MS;
    assert b * DAY_MS <= now + zone < b * DAY_MS + DAY_MS;
  }

  predicate IsAccessRequestActive(item: AccessRequest, now: int, zone: int) {
    item.status == "APPROVED" && (item.expiresAt.None? || EndOfLocalDay(item.expiresAt.value, zone) >= now)
  }

  // ------------------------------------------------------------------------------- the check on one document

  predicate CanScopeAccessDocument(d: Document, scope: Scope, now: int, zone: int) {
    var isRestricted := d.accessLevel == RESTRICT || d.isRestricted;
    && IsTruthy(scope.userId)
    && (|| d.createdBy == scope.userId
        || d.ownerUserId == scope.userId
        || scope.userId.value in d.relatedUsers
        || (exists i | 0 <= i < |d.accessRequests| ::
              d.accessRequests[i].requesterId == scope.userId && IsAccessRequestActive(d.accessRequests[i], now, zone))
        || (if scope.canViewAll then !isRestricted || scope.canAccessRestricted
            else
              && scope.canAccessDivision && IsTruthy(scope.divisionId) && d.ownerDivisionId == scope.divisionId
              && (!isRestricted || scope.canAccessRestricted)))
  }

  // -------------------------------------------------------------------------------- the filter for lists

  function BuildActiveApprovedAccessWhere(now: int, zone: int): Filter {
    Both(Equals("status", "APPROVED"), AtLeast("expires_at", StartOfLocalDay(now, zone)))
  }

  function BuildDirectDocumentAccessConditions(userId: Option<string>, now: int, zone: int): seq<Filter> {
    if !IsTruthy(userId) then []
    else [
      Equals("created_by", userId.value),
      Equals("owner_user_id", userId.value),
      Related("related_users", Equals("user_id", userId.value)),
      Related("access_requests", Both(Equals("requester_id", userId.value), BuildActiveApprovedAccessWhere(now, zone)))]
  }

  const NO_ACCESS := Equals("id", "__no_digital_archive_access__")

  function RestrictedAware(base: Filter, canAccessRestricted: bool): Filter {
    if canAccessRestricted then base else Both(base, Equals("access_level", "NON_RESTRICT"))
  }

  /** What the scope itself adds to the direct conditions. */
  function ScopeConditions(scope: Scope): seq<Filter> {
    if scope.canViewAll then [Equals("access_level", "NON_RESTRICT")]
    else if scope.canAccessDivision && IsTruthy(scope.divisionId) then
      [RestrictedAware(Equals("owner_division_id", scope.divisionId.value), scope.canAccessRestricted)]
    else []
  }

  function VisibilityWhere(scope: Scope, now: int, zone: int): Filter {
    var conditions := BuildDirectDocumentAccessConditions(scope.userId, now, zone) + ScopeConditions(scope);
    if scope.canViewAll && scope.canAccessRestricted then Everything
    else if conditions == [] then NO_ACCESS
    else if |conditions| == 1 then conditions[0]
    else AnyOf(conditions)
  }

  method BuildDocumentVisibilityWhere(scope: Scope, now: int, zone: int) returns (filter: Filter)
    ensures filter == VisibilityWhere(scope, now, zone)
  {
    var conditions := BuildDirectDocumentAccessConditions(scope.userId, now, zone);
    ghost var direct := conditions;
    if scope.canViewAll {
      if scope.canAccessRestricted {
        return Everything;
      }
      conditions := conditions + [Equals("access_level", "NON_RESTRICT")];
    } else if scope.canAccessDivision && IsTruthy(scope.divisionId) {
      conditions := conditions + [RestrictedAware(Equals("owner_division_id", scope.divisionId.value),
                                                  scope.canAccessRestricted)];
    } else {
      assert direct + [] == direct;
    }
    if |conditions| == 0 {
      return NO_ACCESS;
    }
    if |conditions| == 1 {
      return conditions[0];
    }
    filter := AnyOf(conditions);
  }

  // ------------------------------------------------------------------------------------ a document as a row

  function RequestRow(r: AccessRequest): Row {
    Row(map["requester_id" := OrNull(r.requesterId), "status" := Text(r.status),
            "expires_at" := if r.expiresAt.Some? then Instant(r.expiresAt.value) else Null], map[])
  }

  function UserRow(userId: string): Row {
    Row(map["user_id" := Text(userId)], map[])
  }

  function UserRows(users: seq<string>): (rows: seq<Row>)
    ensures |rows| == |users| && forall i | 0 <= i < |users| :: rows[i] == UserRow(users[i])
  {
    seq(|users|, i requires 0 <= i < |users| => UserRow(users[i]))
  }

  function RequestRows(requests: seq<AccessRequest>): (rows: seq<Row>)
    ensures |rows| == |requests| && forall i | 0 <= i < |requests| :: rows[i] == RequestRow(requests[i])
  {
    seq(|requests|, i requires 0 <= i < |requests| => RequestRow(requests[i]))
  }

  function ToRow(d: Document): Row {
    Row(
      map["id" := Text(d.id), "created_by" := OrNull(d.createdBy), "owner_user_id" := OrNull(d.ownerUserId),
          "owner_division_id" := OrNull(d.ownerDivisionId),
          "access_level" := Text(if d.accessLevel == RESTRICT then "RESTRICT" else "NON_RESTRICT")],
      map["related_users" := UserRows(d.relatedUsers), "access_requests" := RequestRows(d.accessRequests)])
  }

  // --------------------------------------------------------------------- where filter and check agree, exactly

  /** Creator, owner, related user, or an approved request whose expiry day has not passed. */
  predicate HasDatedAccess(d: Document, userId: string, now: int, zone: int) {
    || d.createdBy == Some(userId) || d.ownerUserId == Some(userId) || userId in d.relatedUsers
    || exists i | 0 <= i < |d.accessRequests| ::
         var r := d.accessRequests[i];
         r.requesterId == Some(userId) && r.status == "APPROVED" && r.expiresAt.Some?
           && EndOfLocalDay(r.expiresAt.value, zone) >= now
  }

  predicate HasEndlessApproval(d: Document, userId: string) {
    exists i | 0 <= i < |d.accessRequests| ::
      var r := d.accessRequests[i];
      r.requesterId == Some(userId) && r.status == "APPROVED" && r.expiresAt.None?
  }

  predicate IsCovered(d: Document, scope: Scope) {
    scope.canViewAll || (scope.canAccessDivision && IsTruthy(scope.divisionId) && d.ownerDivisionId == scope.divisionId)
  }

  lemma RequestMatches(r: AccessRequest, userId: string, now: int, zone: int)
    ensures Matches(Both(Equals("requester_id", userId), BuildActiveApprovedAccessWhere(now, zone)), RequestRow(r))
      <==> r.requesterId == Some(userId) && r.status == "APPROVED" && r.expiresAt.Some?
           && EndOfLocalDay(r.expiresAt.value, zone) >= now
  {
    hide StartOfLocalDay, EndOfLocalDay;
    if r.expiresAt.Some? {
      ExpiryByDay(r.expiresAt.value, now, zone);
    }
    var row := RequestRow(r);
    assert Matches(Equals("requester_id", userId), row) <==> r.requesterId == Some(userId);
    assert Matches(Equals("status", "APPROVED"), row) <==> r.status == "APPROVED";
    assert Matches(AtLeast("expires_at", StartOfLocalDay(now, zone)), row)
      <==> r.expiresAt.Some? && r.expiresAt.value >= StartOfLocalDay(now, zone);
  }

  lemma DirectMatches(d: Document, userId: string, now: int, zone: int)
    requires userId != ""
    ensures Matches(AnyOf(BuildDirectDocumentAccessConditions(Some(userId), now, zone)), ToRow(d))
      <==> HasDatedAccess(d, userId, now, zone)
  {
    var conditions := BuildDirectDocumentAccessConditions(Some(userId), now, zone);
    var row := ToRow(d);
    assert Matches(conditions[0], row) <==> d.createdBy == Some(userId);
    assert Matches(conditions[1], row) <==> d.ownerUserId == Some(userId);
    RelatedMatches(d, userId);
    RequestsMatch(d, userId, now, zone);
    hide Matches, ToRow, BuildActiveApprovedAccessWhere, EndOfLocalDay;
    FourConditions(conditions, row);
  }

  lemma FourConditions(filters: seq<Filter>, row: Row)
    requires |filters| == 4
    ensures Matches(AnyOf(filters), row)
      <==> Matches(filters[0], row) || Matches(filters[1], row) || Matches(filters[2], row) || Matches(filters[3], row)
  {
  }

  lemma RelatedMatches(d: Document, userId: string)
    ensures Matches(Related("related_users", Equals("user_id", userId)), ToRow(d)) <==> userId in d.relatedUsers
  {
    var rows := UserRows(d.relatedUsers);
    assert RelatedRows(ToRow(d), "related_users") == rows;
    assert forall i | 0 <= i < |rows| :: Matches(Equals("user_id", userId), rows[i]) <==> d.relatedUsers[i] == userId;
  }

  lemma RequestsMatch(d: Document, userId: string, now: int, zone: int)
    ensures Matches(Related("access_requests",
                            Both(Equals("requester_id", userId), BuildActiveApprovedAccessWhere(now, zone))), ToRow(d))
      <==> exists i | 0 <= i < |d.accessRequests| ::
             var r := d.accessRequests[i];
             r.requesterId == Some(userId) && r.status == "APPROVED" && r.expiresAt.Some?
               && EndOfLocalDay(r.expiresAt.value, zone) >= now
  {
    var rows := RequestRows(d.accessRequests);
    var f := Both(Equals("requester_id", userId), BuildActiveApprovedAccessWhere(now, zone));
    assert RelatedRows(ToRow(d), "access_requests") == rows;
    hide EndOfLocalDay, BuildActiveApprovedAccessWhere, RequestRow;
    forall i | 0 <= i < |rows|
      ensures Matches(f, rows[i]) <==>
        var r := d.accessRequests[i];
        r.requesterId == Some(userId) && r.status == "APPROVED" && r.expiresAt.Some?
          && EndOfLocalDay(r.expiresAt.value, zone) >= now
    {
      RequestMatches(d.accessRequests[i], userId, now, zone);
    }
    AnyRelated("access_requests", f, ToRow(d));
    hide Matches, ToRow;
  }

  lemma ScopeMatches(d: Document, scope: Scope)
    requires !(scope.canViewAll && scope.canAccessRestricted)
    ensures Matches(AnyOf(ScopeConditions(scope)), ToRow(d))
      <==> IsCovered(d, scope) && (scope.canAccessRestricted || d.accessLevel == NON_RESTRICT)
  {
    var row := ToRow(d);
    assert Column(row, "access_level") == Text(if d.accessLevel == RESTRICT then "RESTRICT" else "NON_RESTRICT");
    assert Column(row, "owner_division_id") == OrNull(d.ownerDivisionId);
    assert "RESTRICT" != "NON_RESTRICT" by {
      assert |"RESTRICT"| != |"NON_RESTRICT"|;
    }
    hide ToRow;
    if ScopeConditions(scope) != [] {
      var f := ScopeConditions(scope)[0];
      assert ScopeConditions(scope) == [f];
      OneOf(f, row);
      assert Matches(Equals("access_level", "NON_RESTRICT"), row) <==> d.accessLevel == NON_RESTRICT;
      if !scope.canViewAll {
        var base := Equals("owner_division_id", scope.divisionId.value);
        assert Matches(base, row) <==> d.ownerDivisionId == scope.divisionId;
        assert f == RestrictedAware(base, scope.canAccessRestricted);
        RestrictedMeans(base, scope.canAccessRestricted, row);
      }
    }
  }

  lemma RestrictedMeans(base: Filter, canAccessRestricted: bool, row: Row)
    ensures Matches(RestrictedAware(base, canAccessRestricted), row)
      <==> Matches(base, row) && (canAccessRestricted || Column(row, "access_level") == Text("NON_RESTRICT"))
  {
  }

  /** What the filter lets through, for every scope that can arise. */
  lemma FilterMeans(d: Document, scope: Scope, now: int, zone: int)
    requires IsReachable(scope)
    ensures Matches(VisibilityWhere(scope, now, zone), ToRow(d)) <==>
      if scope.userId.None? then d.id == "__no_digital_archive_access__"
      else HasDatedAccess(d, scope.userId.value, now, zone)
           || (IsCovered(d, scope) && (scope.canAccessRestricted || d.accessLevel == NON_RESTRICT))
  {
    if scope.userId.None? {
      assert VisibilityWhere(scope, now, zone) == NO_ACCESS;
      assert Column(ToRow(d), "id") == Text(d.id);
    } else if !(scope.canViewAll && scope.canAccessRestricted) {
      var direct := BuildDirectDocumentAccessConditions(scope.userId, now, zone);
      assert |direct| == 4;
      assert VisibilityWhere(scope, now, zone) == AnyOf(direct + ScopeConditions(scope));
      hide Matches, ToRow, BuildActiveApprovedAccessWhere, HasDatedAccess, ScopeConditions, IsCovered,
           BuildDirectDocumentAccessConditions, VisibilityWhere;
      AnyOfBoth(direct, ScopeConditions(scope), ToRow(d));
      DirectMatches(d, scope.userId.value, now, zone);
      ScopeMatches(d, scope);
    }
  }

  /** What the check lets through. */
  lemma CheckMeans(d: Document, scope: Scope, now: int, zone: int)
    requires IsReachable(scope)
    ensures CanScopeAccessDocument(d, scope, now, zone) <==>
      && scope.userId.Some?
      && (|| HasDatedAccess(d, scope.userId.value, now, zone) || HasEndlessApproval(d, scope.userId.value)
          || (IsCovered(d, scope) && (scope.canAccessRestricted || (d.accessLevel == NON_RESTRICT && !d.isRestricted))))
  {
    hide EndOfLocalDay;
  }

  /**
    List filter and document check agree exactly unless the user has no dated access and either an approval without
    expiry lets only the check through, or a restricted flag beside an unrestricted level lets only the filter through.
   */
  lemma AgreeExactly(d: Document, scope: Scope, now: int, zone: int)
    requires IsReachable(scope) && d.id != "__no_digital_archive_access__"
    ensures (Matches(VisibilityWhere(scope, now, zone), ToRow(d)) == CanScopeAccessDocument(d, scope, now, zone)) <==>
      (|| scope.userId.None?
       || HasDatedAccess(d, scope.userId.value, now, zone)
       || (IsCovered(d, scope) && scope.canAccessRestricted)
       || if IsCovered(d, scope) && d.accessLevel == NON_RESTRICT
          then !d.isRestricted || HasEndlessApproval(d, scope.userId.value)
          else !HasEndlessApproval(d, scope.userId.value))
  {
    hide Matches, VisibilityWhere, CanScopeAccessDocument, ToRow, HasDatedAccess, HasEndlessApproval, IsCovered;
    FilterMeans(d, scope, now, zone);
    CheckMeans(d, scope, now, zone);
  }

  /** Flag and level say the same, and every approval has an expiry. */
  predicate IsConsistent(d: Document) {
    && (d.isRestricted <==> d.accessLevel == RESTRICT)
    && forall i | 0 <= i < |d.accessRequests| && d.accessRequests[i].status == "APPROVED" ::
       d.accessRequests[i].expiresAt.Some?
  }

  /** On consistent documents the list shows exactly what the check allows. */
  lemma ConsistentDocumentsAgree(d: Document, scope: Scope, now: int, zone: int)
    requires IsReachable(scope) && d.id != "__no_digital_archive_access__" && IsConsistent(d)
    ensures Matches(VisibilityWhere(scope, now, zone), ToRow(d)) == CanScopeAccessDocument(d, scope, now, zone)
  {
    hide Matches, VisibilityWhere, CanScopeAccessDocument, ToRow, HasDatedAccess, IsCovered, IsReachable;
    AgreeExactly(d, scope, now, zone);
    if scope.userId.Some? {
      assert !HasEndlessApproval(d, scope.userId.value);
    }
  }
}
