/**
  Who may see and manage incoming mail, memoranda and outgoing mail: the filters for lists and the checks on one record
  (src/utils/persuratan-access.js:17-276).
 */
module PersuratanAccess {
  import opened Options
  import opened Where

  datatype Disposition = Disposition(receiverId: Option<string>, senderId: Option<string>)
  datatype TargetDivision = TargetDivision(divisionId: Option<string>, managerId: Option<string>)

  datatype Mail =
    | Incoming(id: string, createdBy: Option<string>, dispositions: seq<Disposition>, targets: seq<TargetDivision>)
    | Memorandum(id: string, createdBy: Option<string>, originDivisionId: Option<string>,
                 dispositions: seq<Disposition>,
                 targets: seq<TargetDivision>)
    | Outgoing(id: string, createdBy: Option<string>, creatorDivisionId: Option<Option<string>>)

  datatype Scope = Scope(userId: Option<string>, divisionId: Option<string>, canAccessAll: bool,
                         canAccessDivision: bool, canManageAll: bool)

  predicate HasDivisionScope(scope: Scope) {
    IsTruthy(scope.divisionId) && scope.canAccessDivision
  }

  // -------------------------------------------------------------------------------- reachable scopes

  datatype User = User(id: string, roleId: Option<string>, divisionId: Option<string>)

  /** The scope of a user id, given the active user row the database finds for it. */
  function AccessScope(userId: Option<string>, found: Option<User>, grants: (string, string) -> bool): Scope {
    if !IsTruthy(userId) || found.None? then Scope(None, None, false, false, false)
    else
      var role := found.value.roleId;
      var manageAll := IsTruthy(role) && grants(role.value, "manage_all");
      var division := IsTruthy(role) && grants(role.value, "view_division");
      Scope(Some(found.value.id), found.value.divisionId, manageAll, division, manageAll)
  }

  predicate IsReachable(scope: Scope) {
    && scope.canAccessAll == scope.canManageAll
    && if scope.userId.None? then scope == Scope(None, None, false, false, false) else scope.userId.value != ""
  }

  lemma ScopesAreReachable(userId: Option<string>, found: Option<User>, grants: (string, string) -> bool)
    requires found.Some? ==> found.value.id != ""
    ensures IsReachable(AccessScope(userId, found, grants))
    ensures var scope := AccessScope(userId, found, grants);
      && (scope.userId.Some? <==> userId.Some? && userId.value != "" && found.Some?)
      && (scope.userId.Some? ==>
            && scope.userId.value == found.value.id && scope.divisionId == found.value.divisionId
            && var role := found.value.roleId;
               && (scope.canManageAll <==> role.Some? && role.value != "" && grants(role.value, "manage_all"))
               && (scope.canAccessDivision <==> role.Some? && role.value != "" && grants(role.value, "view_division")))
  {
  }

  // --------------------------------------------------------------------------- the checks on one record

  predicate IsSame(a: Option<string>, b: Option<string>) {
    IsTruthy(a) && IsTruthy(b) && a == b
  }

  predicate HasDispositionInvolvement(dispositions: seq<Disposition>, userId: Option<string>) {
    exists i | 0 <= i < |dispositions| ::
      IsSame(userId, dispositions[i].receiverId) || IsSame(userId, dispositions[i].senderId)
  }

  predicate HasTarget(targets: seq<TargetDivision>, scope: Scope) {
    exists i | 0 <= i < |targets| ::
      IsSame(targets[i].divisionId, scope.divisionId) || IsSame(targets[i].managerId, scope.userId)
  }

  predicate HasDivisionAccess(mail: Mail, scope: Scope) {
    && HasDivisionScope(scope)
    && match mail
       case Incoming(_, _, _, targets) => HasTarget(targets, scope)
       case Memorandum(_, _, origin, _, targets) => IsSame(origin, scope.divisionId) || HasTarget(targets, scope)
       case Outgoing(_, _, creatorDivision) => creatorDivision.Some? && IsSame(creatorDivision.value, scope.divisionId)
  }

  predicate CanView(mail: Mail, scope: Scope) {
    && IsTruthy(scope.userId)
    && (|| scope.canAccessAll
        || IsSame(mail.createdBy, scope.userId)
        || (!mail.Outgoing? && HasDispositionInvolvement(mail.dispositions, scope.userId))
        || HasDivisionAccess(mail, scope))
  }

  predicate CanManage(mail: Mail, scope: Scope) {
    CanView(mail, scope) && (scope.canManageAll || IsSame(mail.createdBy, scope.userId))
  }

  // -------------------------------------------------------------------------------- the filters for lists

  const NO_ACCESS := Equals("id", "__no_persuratan_access__")

  function DispositionUserWhere(relation: string, userId: string): Filter {
    Related(relation, AnyOf([Equals("receiver_id", userId), Equals("sender_id", userId)]))
  }

  function TargetWhere(scope: Scope): Filter
    requires scope.userId.Some? && scope.divisionId.Some?
  {
    Related("target_divisions", AnyOf([Equals("division_id", scope.divisionId.value),
                                       Equals("manager_id", scope.userId.value)]))
  }

  datatype Kind = IncomingMail | MemorandumMail | OutgoingMail

  /** The conditions a division scope adds. */
  function DivisionConditions(kind: Kind, scope: Scope): seq<Filter>
    requires scope.userId.Some?
  {
    if !HasDivisionScope(scope) then []
    else match kind
      case IncomingMail => [TargetWhere(scope)]
      case MemorandumMail => [Equals("origin_division_id", scope.divisionId.value), TargetWhere(scope)]
      case OutgoingMail => [Related("creator", Equals("division_id", scope.divisionId.value))]
  }

  function BaseConditions(kind: Kind, userId: string): seq<Filter> {
    match kind
    case IncomingMail => [Equals("created_by", userId), DispositionUserWhere("disposition_mails", userId)]
    case MemorandumMail => [Equals("created_by", userId), DispositionUserWhere("dispositions", userId)]
    case OutgoingMail => [Equals("created_by", userId)]
  }

  function VisibilityWhere(kind: Kind, scope: Scope): Filter {
    if scope.canAccessAll then Everything
    else if !IsTruthy(scope.userId) then NO_ACCESS
    else AnyOf(BaseConditions(kind, scope.userId.value) + DivisionConditions(kind, scope))
  }

  method BuildVisibilityWhere(kind: Kind, scope: Scope) returns (filter: Filter)
    ensures filter == VisibilityWhere(kind, scope)
  {
    if scope.canAccessAll {
      return Everything;
    }
    if !IsTruthy(scope.userId) {
      return NO_ACCESS;
    }
    var userId := scope.userId.value;
    var conditions := [Equals("created_by", userId)];
    match kind {
      case IncomingMail => conditions := conditions + [DispositionUserWhere("disposition_mails", userId)];
      case MemorandumMail => conditions := conditions + [DispositionUserWhere("dispositions", userId)];
      case OutgoingMail =>
    }
    assert conditions == BaseConditions(kind, userId);
    ghost var base := conditions;
    if HasDivisionScope(scope) {
      match kind {
        case IncomingMail => conditions := conditions + [TargetWhere(scope)];
        case MemorandumMail => conditions :=
          conditions + [Equals("origin_division_id", scope.divisionId.value), TargetWhere(scope)];
        case OutgoingMail => conditions :=
          conditions + [Related("creator", Equals("division_id", scope.divisionId.value))];
      }
    } else {
      assert base + [] == base;
    }
    filter := AnyOf(conditions);
  }

  // --------------------------------------------------------------------------------------- mails as rows

  function DispositionRow(d: Disposition): Row {
    Row(map["receiver_id" := OrNull(d.receiverId), "sender_id" := OrNull(d.senderId)], map[])
  }

  function TargetRow(t: TargetDivision): Row {
    Row(map["division_id" := OrNull(t.divisionId), "manager_id" := OrNull(t.managerId)], map[])
  }

  function DispositionRows(ds: seq<Disposition>): (rows: seq<Row>)
    ensures |rows| == |ds| && forall i | 0 <= i < |ds| :: rows[i] == DispositionRow(ds[i])
  {
    seq(|ds|, i requires 0 <= i < |ds| => DispositionRow(ds[i]))
  }

  function TargetRows(ts: seq<TargetDivision>): (rows: seq<Row>)
    ensures |rows| == |ts| && forall i | 0 <= i < |ts| :: rows[i] == TargetRow(ts[i])
  {
    seq(|ts|, i requires 0 <= i < |ts| => TargetRow(ts[i]))
  }

  function KindOf(mail: Mail): Kind {
    match mail
    case Incoming(_, _, _, _) => IncomingMail
    case Memorandum(_, _, _, _, _) => MemorandumMail
    case Outgoing(_, _, _) => OutgoingMail
  }

  function ToRow(mail: Mail): Row {
    match mail
    case Incoming(id, createdBy, dispositions, targets) =>
      Row(map["id" := Text(id), "created_by" := OrNull(createdBy)],
          map["disposition_mails" := DispositionRows(dispositions), "target_divisions" := TargetRows(targets)])
    case Memorandum(id, createdBy, origin, dispositions, targets) =>
      Row(map["id" := Text(id), "created_by" := OrNull(createdBy), "origin_division_id" := OrNull(origin)],
          map["dispositions" := DispositionRows(dispositions), "target_divisions" := TargetRows(targets)])
    case Outgoing(id, createdBy, creatorDivision) =>
      Row(map["id" := Text(id), "created_by" := OrNull(createdBy)],
          map["creator" := CreatorRows(creatorDivision)])
  }

  /** A to-one relation has at most one row. */
  function CreatorRows(division: Option<Option<string>>): seq<Row> {
    if division.Some? then [Row(map["division_id" := OrNull(division.value)], map[])] else []
  }

  // ------------------------------------------------------------------------------ filter and check agree

  lemma EqualsMeans(column: string, id: string, row: Row, value: Option<string>)
    requires Column(row, column) == OrNull(value) && id != ""
    ensures Matches(Equals(column, id), row) <==> IsSame(value, Some(id))
  {
  }

  lemma DispositionsMatch(relation: string, ds: seq<Disposition>, userId: string, row: Row)
    requires RelatedRows(row, relation) == DispositionRows(ds) && userId != ""
    ensures Matches(DispositionUserWhere(relation, userId), row) <==> HasDispositionInvolvement(ds, Some(userId))
  {
    var f := AnyOf([Equals("receiver_id", userId), Equals("sender_id", userId)]);
    forall i | 0 <= i < |ds|
      ensures Matches(f, DispositionRows(ds)[i])
        <==> IsSame(Some(userId), ds[i].receiverId) || IsSame(Some(userId), ds[i].senderId)
    {
      TwoOf(Equals("receiver_id", userId), Equals("sender_id", userId), DispositionRow(ds[i]));
      EqualsMeans("receiver_id", userId, DispositionRow(ds[i]), ds[i].receiverId);
      EqualsMeans("sender_id", userId, DispositionRow(ds[i]), ds[i].senderId);
    }
    AnyRelated(relation, f, row);
    hide Matches, IsSame;
  }

  lemma TargetsMatch(ts: seq<TargetDivision>, scope: Scope, row: Row)
    requires RelatedRows(row, "target_divisions") == TargetRows(ts) && IsTruthy(scope.userId)
      && IsTruthy(scope.divisionId)
    ensures Matches(TargetWhere(scope), row) <==> HasTarget(ts, scope)
  {
    var division, manager := Equals("division_id", scope.divisionId.value), Equals("manager_id", scope.userId.value);
    forall i | 0 <= i < |ts|
      ensures Matches(AnyOf([division, manager]), TargetRows(ts)[i])
        <==> IsSame(ts[i].divisionId, scope.divisionId) || IsSame(ts[i].managerId, scope.userId)
    {
      TwoOf(division, manager, TargetRow(ts[i]));
      EqualsMeans("division_id", scope.divisionId.value, TargetRow(ts[i]), ts[i].divisionId);
      EqualsMeans("manager_id", scope.userId.value, TargetRow(ts[i]), ts[i].managerId);
    }
    AnyRelated("target_divisions", AnyOf([division, manager]), row);
    hide Matches, IsSame;
  }

  lemma RowHas(mail: Mail)
    ensures var row := ToRow(mail);
      && Column(row, "id") == Text(mail.id) && Column(row, "created_by") == OrNull(mail.createdBy)
      && (mail.Incoming? ==> RelatedRows(row, "disposition_mails") == DispositionRows(mail.dispositions)
                             && RelatedRows(row, "target_divisions") == TargetRows(mail.targets))
      && (mail.Memorandum? ==> RelatedRows(row, "dispositions") == DispositionRows(mail.dispositions)
                               && RelatedRows(row, "target_divisions") == TargetRows(mail.targets)
                               && Column(row, "origin_division_id") == OrNull(mail.originDivisionId))
      && (mail.Outgoing? ==> RelatedRows(row, "creator") == CreatorRows(mail.creatorDivisionId))
  {
  }

  lemma BaseMatches(mail: Mail, userId: string)
    requires userId != ""
    ensures Matches(AnyOf(BaseConditions(KindOf(mail), userId)), ToRow(mail))
      <==> IsSame(mail.createdBy, Some(userId))
           || (!mail.Outgoing? && HasDispositionInvolvement(mail.dispositions, Some(userId)))
  {
    hide ToRow, Matches, IsSame, HasDispositionInvolvement, DispositionUserWhere;
    var row, created := ToRow(mail), Equals("created_by", userId);
    RowHas(mail);
    EqualsMeans("created_by", userId, row, mail.createdBy);
    match mail
    case Incoming(_, _, ds, _) =>
      DispositionsMatch("disposition_mails", ds, userId, row);
      TwoOf(created, DispositionUserWhere("disposition_mails", userId), row);
    case Memorandum(_, _, _, ds, _) =>
      DispositionsMatch("dispositions", ds, userId, row);
      TwoOf(created, DispositionUserWhere("dispositions", userId), row);
    case Outgoing(_, _, _) =>
      OneOf(created, row);
  }

  lemma CreatorMatches(mail: Mail, divisionId: string)
    requires mail.Outgoing? && divisionId != ""
    ensures Matches(Related("creator", Equals("division_id", divisionId)), ToRow(mail))
      <==> mail.creatorDivisionId.Some? && IsSame(mail.creatorDivisionId.value, Some(divisionId))
  {
    RowHas(mail);
    AnyRelated("creator", Equals("division_id", divisionId), ToRow(mail));
    if mail.creatorDivisionId.Some? {
      var creator := Row(map["division_id" := OrNull(mail.creatorDivisionId.value)], map[]);
      EqualsMeans("division_id", divisionId, creator, mail.creatorDivisionId.value);
      assert RelatedRows(ToRow(mail), "creator")[0] == creator;
    }
    hide Matches, ToRow, IsSame;
  }

  lemma DivisionMatches(mail: Mail, scope: Scope)
    requires IsTruthy(scope.userId)
    ensures Matches(AnyOf(DivisionConditions(KindOf(mail), scope)), ToRow(mail)) <==> HasDivisionAccess(mail, scope)
  {
    var row := ToRow(mail);
    MatchesNone(row);
    RowHas(mail);
    hide ToRow, Matches, IsSame, HasTarget, TargetWhere;
    if HasDivisionScope(scope) {
      var division := scope.divisionId.value;
      match mail
      case Incoming(_, _, _, targets) =>
        TargetsMatch(targets, scope, row);
        OneOf(TargetWhere(scope), row);
      case Memorandum(_, _, origin, _, targets) =>
        TargetsMatch(targets, scope, row);
        EqualsMeans("origin_division_id", division, row, origin);
        TwoOf(Equals("origin_division_id", division), TargetWhere(scope), row);
      case Outgoing(_, _, _) =>
        CreatorMatches(mail, division);
        OneOf(Related("creator", Equals("division_id", division)), row);
    }
  }

  /** For every scope that can arise and each kind of mail, the list shows exactly what the check allows. */
  lemma FilterAgreesWithCheck(mail: Mail, scope: Scope)
    requires IsReachable(scope)
    ensures Matches(VisibilityWhere(KindOf(mail), scope), ToRow(mail))
      <==> CanView(mail, scope) || (scope.userId.None? && mail.id == "__no_persuratan_access__")
  {
    if scope.userId.None? {
      RowHas(mail);
      hide ToRow;
    } else if !scope.canAccessAll {
      hide ToRow, Matches, IsSame, HasDispositionInvolvement, BaseConditions, DivisionConditions, HasDivisionAccess;
      BaseMatches(mail, scope.userId.value);
      DivisionMatches(mail, scope);
      AnyOfBoth(BaseConditions(KindOf(mail), scope.userId.value), DivisionConditions(KindOf(mail), scope), ToRow(mail));
    }
  }

  /** Managing never exceeds viewing, and is left to the creator and to those who manage everything. */
  lemma ManagersAreCreatorsOrGlobal(mail: Mail, scope: Scope)
    requires IsReachable(scope)
    ensures CanManage(mail, scope) <==> scope.canManageAll || IsSame(mail.createdBy, scope.userId)
    ensures CanManage(mail, scope) ==> CanView(mail, scope)
  {
    hide HasDispositionInvolvement, HasDivisionAccess;
  }

  /**
    Outside the reachable scopes filter and check part: an anonymous scope with full access lists what it may not open.
   */
  lemma AnonymousFullAccessParts(mail: Mail)
    ensures var scope := Scope(None, None, true, false, true);
      Matches(VisibilityWhere(KindOf(mail), scope), ToRow(mail)) && !CanView(mail, scope)
  {
    hide ToRow;
  }
}
