/** The Authorization class: queries over the store, the grant/deny upserts in all their overloads,
    the typed query and the predicate-based bulk clear. */
module Authorizations {
  import opened Outcomes
  import opened Linq
  import opened EntityPermissions
  import opened DataStore
  import opened AuthorizationSpec

  function ActionIs(actionName: string): PermissionRecord -> bool
  {
    (rec: PermissionRecord) => rec.actionName == actionName
  }

  function RoleIs(roleName: string): PermissionRecord -> bool
  {
    (rec: PermissionRecord) => rec.roleName == roleName
  }

  /** The records GetUserPermissions collects for a list of role claims: for each claim in turn, the
      stored records with that role name, so a record appears once per claim naming its role. */
  function UserPermissions(s: seq<EntityPermission>, roles: seq<string>): (r: seq<EntityPermission>)
    reads s
    ensures forall i :: 0 <= i < |r| ==> r[i] in s && r[i].RoleName in roles
    ensures forall i :: 0 <= i < |s| && s[i].RoleName in roles ==> s[i] in r
  {
    if roles == [] then []
    else
      var last := roles[|roles| - 1];
      var r := UserPermissions(s, roles[..|roles| - 1]) + Where(s, RoleIs(last));
      assert forall x :: x in roles <==> x in roles[..|roles| - 1] || x == last;
      r
  }

  /** The inner loop of Query<T>: every entry of the record's bag whose key names a writable property of
      the parameter type is assigned to that property, in the dictionary's enumeration order; on a
      struct the assignment goes to a boxed copy and is lost. */
  method AssignParameters(rawActionParams: map<string, string>, table: ParameterType) returns (r: Result<map<string, string>>)
    ensures r == AssignedParameters(rawActionParams, table)
  {
    var actionParameters: map<string, string> := map[];
    var keys := rawActionParams.Keys;
    while keys != {}
      invariant keys <= rawActionParams.Keys
      invariant forall k :: k in rawActionParams && k !in keys && Settable(table, k) ==> table.properties[k].acceptsString
      invariant table.isValueType ==> actionParameters == map[]
      invariant !table.isValueType ==>
        actionParameters == map k | k in rawActionParams && k !in keys && Settable(table, k) :: rawActionParams[k]
      decreases keys
    {
      var key :| key in keys;
      if Settable(table, key) {
        if !table.properties[key].acceptsString {
          assert key in rawActionParams && Settable(table, key) && !table.properties[key].acceptsString;
          return Failure(PropertyTypeMismatch);
        }
        if !table.isValueType {
          actionParameters := actionParameters[key := rawActionParams[key]];
        }
      }
      keys := keys - {key};
    }
    assert !exists k :: k in rawActionParams && Settable(table, k) && !table.properties[k].acceptsString;
    assert !table.isValueType ==>
      actionParameters == map k | k in rawActionParams && Settable(table, k) :: rawActionParams[k];
    r := Success(actionParameters);
  }

  /** `views` followed by the views `rest` yields, or the fault `rest` ends in. */
  function Prepend(views: seq<TypedPermission>, rest: Result<seq<TypedPermission>>): Result<seq<TypedPermission>>
  {
    match rest
    case Failure(f) => Failure(f)
    case Success(vs) => Success(views + vs)
  }

  lemma PrependNothing(rest: Result<seq<TypedPermission>>)
    ensures Prepend([], rest) == rest
  {
    if rest.Success? {
      assert [] + rest.value == rest.value;
    }
  }

  lemma PrependTwice(a: seq<TypedPermission>, b: seq<TypedPermission>, rest: Result<seq<TypedPermission>>)
    ensures Prepend(a, Prepend(b, rest)) == Prepend(a + b, rest)
  {
    if rest.Success? {
      assert a + (b + rest.value) == (a + b) + rest.value;
    }
  }

  /** MaterializeAll on a suffix, unfolded once. */
  lemma MaterializeAllStep(recs: seq<PermissionRecord>, i: nat, table: ParameterType)
    requires i < |recs|
    ensures MaterializeAll(recs[i..], table) ==
      match Materialize(recs[i], table)
      case Failure(f) => Failure(f)
      case Success(v) => Prepend([v], MaterializeAll(recs[i + 1..], table))
  {
    assert recs[i..][0] == recs[i] && recs[i..][1..] == recs[i + 1..];
  }

  /** One step of Query<T>: the typed view of one stored record. */
  method TypedViewOf(entityPermission: EntityPermission, table: ParameterType) returns (r: Result<TypedPermission>)
    ensures r == Materialize(entityPermission.Snapshot(), table)
  {
    var actionParameters := AssignParameters(entityPermission.RawActionParams, table);
    if actionParameters.Failure? {
      return Failure(actionParameters.error);
    }
    r := Success(TypedPermission(
      PermissionRecord(entityPermission.Id, entityPermission.EntityId, entityPermission.ActionName, Null,
                       entityPermission.RoleName, entityPermission.Permission, map[]),
      actionParameters.value));
  }

  /** The loop of Query<T>: the typed views of the given records, in order; the first fault ends it. */
  method TypedViewsOf(entityPermissions: seq<EntityPermission>, table: ParameterType) returns (r: Result<seq<TypedPermission>>)
    ensures r == MaterializeAll(Snapshots(entityPermissions), table)
  {
    ghost var recs := Snapshots(entityPermissions);
    var result: seq<TypedPermission> := [];
    var i := 0;
    assert recs[i..] == recs;
    PrependNothing(MaterializeAll(recs, table));
    while i < |entityPermissions|
      invariant 0 <= i <= |entityPermissions|
      invariant MaterializeAll(recs, table) == Prepend(result, MaterializeAll(recs[i..], table))
      invariant Snapshots(entityPermissions) == recs
    {
      var entityPermission := entityPermissions[i];
      MaterializeAllStep(recs, i, table);
      var view := TypedViewOf(entityPermission, table);
      if view.Failure? {
        return Failure(view.error);
      }
      PrependTwice(result, [view.value], MaterializeAll(recs[i + 1..], table));
      result := result + [view.value];
      i := i + 1;
    }
    assert recs[i..] == [];
    assert result + [] == result;
    r := Success(result);
  }

  /** The record an upsert creates when none exists for the triple: the parameter object's properties
      are copied into its bag one by one, so a null value or a repeated name throws part-way. */
  method NewPermission(actionName: string, roleName: string, entityId: Guid, verdict: Permission,
                       props: seq<PropertyValue>) returns (r: Result<EntityPermission>)
    ensures Project(props).Failure? ==> r == Failure(Project(props).error)
    ensures Project(props).Success? ==>
      r.Success? && fresh(r.value) && r.value.Snapshot() == NewRecord(actionName, roleName, entityId, verdict, Project(props).value)
  {
    var ep := new EntityPermission(actionName, roleName, entityId, verdict);
    var i := 0;
    while i < |props|
      invariant 0 <= i <= |props|
      invariant ep.Snapshot() == NewRecord(actionName, roleName, entityId, verdict, ep.RawActionParams)
      invariant ProjectFrom(ep.RawActionParams, props[i..]) == Project(props)
      modifies ep
    {
      var property := props[i];
      assert props[i..][0] == property && props[i..][1..] == props[i + 1..];
      if property.value.Null? {
        return Failure(NullReference);
      }
      if property.name in ep.RawActionParams {
        return Failure(DuplicateKey);
      }
      ep.RawActionParams := ep.RawActionParams[property.name := property.value.value];
      i := i + 1;
    }
    assert props[i..] == [];
    r := Success(ep);
  }

  class Authorization {
    const dataStore: TestAuthorizationDataStore

    constructor (dataStore: TestAuthorizationDataStore)
      ensures this.dataStore == dataStore
    {
      this.dataStore := dataStore;
    }

    /** Query(): the store's own record objects, in store order, none twice. */
    function Query(): (r: seq<EntityPermission>)
      reads dataStore
      ensures |r| == |dataStore.entityPermissions| && forall i :: 0 <= i < |r| ==> r[i] == dataStore.entityPermissions[i]
      ensures dataStore.Valid() ==> Distinct(r)
    {
      dataStore.Query()
    }

    /** Query(actionName): the stored records with that action name, in store order. */
    function QueryAction(actionName: string): (r: seq<EntityPermission>)
      reads dataStore, dataStore.entityPermissions
      ensures forall i :: 0 <= i < |r| ==> r[i] in dataStore.entityPermissions && r[i].ActionName == actionName
      ensures forall i :: 0 <= i < |dataStore.entityPermissions| && dataStore.entityPermissions[i].ActionName == actionName
                ==> dataStore.entityPermissions[i] in r
      ensures Snapshots(r) == Filter(dataStore.View(), ActionIs(actionName))
    {
      Where(Query(), ActionIs(actionName))
    }

    /** Query<T>(actionName): one typed view per record of that action, in store order, unless SetValue
        throws for some record. */
    method QueryTyped(actionName: string, table: ParameterType) returns (r: Result<seq<TypedPermission>>)
      ensures r == MaterializeAll(Snapshots(QueryAction(actionName)), table)
    {
      var entityPermissions := QueryAction(actionName);
      r := TypedViewsOf(entityPermissions, table);
    }

    /** GetUserPermissions with the current principal's role claims passed in; the user name is not used. */
    method GetUserPermissions(username: string, roles: seq<string>) returns (result: seq<EntityPermission>)
      ensures result == UserPermissions(dataStore.entityPermissions, roles)
    {
      result := [];
      var i := 0;
      while i < |roles|
        invariant 0 <= i <= |roles|
        invariant result == UserPermissions(dataStore.entityPermissions, roles[..i])
      {
        assert roles[..i + 1][..i] == roles[..i];
        result := result + Where(Query(), RoleIs(roles[i]));
        i := i + 1;
      }
      assert roles[..i] == roles;
    }

    /** The store holds the records `u` describes, and `r` is what the call returned: the stored object
        at the index `u` names (from the list as it was before the call), null after an insert, or the
        fault `u` names. */
    ghost predicate Performed(u: Upserted, before: seq<EntityPermission>, r: Result<EntityPermission?>)
      reads dataStore, dataStore.entityPermissions
    {
      && dataStore.Valid()
      && dataStore.View() == u.records
      && before <= dataStore.entityPermissions
      && match u.result
         case Failure(f) => r == Failure(f)
         case Success(Null) => r == Success(null)
         case Success(NonNull(i)) => i < |before| && r == Success(before[i])
    }

    /** The body shared by every GrantAccess and DenyAccess overload that does the work. */
    method UpsertAccess(actionName: string, roleName: string, entityId: Guid, verdict: Permission,
                        props: seq<PropertyValue>) returns (r: Result<EntityPermission?>)
      requires dataStore.Valid()
      modifies dataStore, dataStore.entityPermissions
      ensures Performed(Upsert(old(dataStore.View()), actionName, roleName, entityId, verdict, props),
                        old(dataStore.entityPermissions), r)
      ensures forall k :: |old(dataStore.entityPermissions)| <= k < |dataStore.entityPermissions| ==>
        fresh(dataStore.entityPermissions[k])
    {
      var found := SingleOrDefault(dataStore.View(), TripleIs(actionName, roleName, entityId));
      match found {
        case Ambiguous =>
          r := Failure(MoreThanOneMatch);
        case NoMatch =>
          var created := NewPermission(actionName, roleName, entityId, verdict, props);
          if created.Failure? {
            return Failure(created.error);
          }
          var outcome := dataStore.Insert(created.value);
          r := if outcome.Pass? then Success(null) else Failure(outcome.error);
        case Single(i) =>
          r := SetVerdict(i, verdict);
      }
    }

    /** The found-record branch of the upserts: a record that already carries the verdict is returned
        as it is; otherwise its verdict is flipped in place and the record is handed to Update, whose
        fault, if any, is thrown with the flip already made. */
    method SetVerdict(i: nat, verdict: Permission) returns (r: Result<EntityPermission?>)
      requires dataStore.Valid() && i < |dataStore.entityPermissions|
      modifies dataStore.entityPermissions
      ensures dataStore.entityPermissions == old(dataStore.entityPermissions) && dataStore.Valid()
      ensures var before := old(dataStore.View());
        if before[i].permission == verdict then dataStore.View() == before && r == Success(dataStore.entityPermissions[i])
        else
          var flipped := before[i := before[i].(permission := verdict)];
          var stored := UpdateIn(flipped, flipped[i]);
          && dataStore.View() == stored.records
          && r == if stored.outcome.Pass? then Success(dataStore.entityPermissions[i]) else Failure(stored.outcome.error)
    {
      var entityPermission := dataStore.entityPermissions[i];
      if entityPermission.Permission != verdict {
        ghost var before := dataStore.View();
        entityPermission.Permission := verdict;
        assert forall j :: 0 <= j < |dataStore.entityPermissions| && j != i ==>
          dataStore.entityPermissions[j] != entityPermission;
        assert dataStore.View() == before[i := before[i].(permission := verdict)];
        var outcome := dataStore.Update(entityPermission);
        if outcome.Fail? {
          return Failure(outcome.error);
        }
      }
      r := Success(entityPermission);
    }

    /** GrantAccess(actionName, roleName, entityId). */
    method GrantAccess(actionName: string, roleName: string, entityId: Guid) returns (r: Result<EntityPermission?>)
      requires dataStore.Valid()
      modifies dataStore, dataStore.entityPermissions
      ensures Performed(Upsert(old(dataStore.View()), actionName, roleName, entityId, Grant, []),
                        old(dataStore.entityPermissions), r)
      ensures forall k :: |old(dataStore.entityPermissions)| <= k < |dataStore.entityPermissions| ==>
        fresh(dataStore.entityPermissions[k])
    {
      r := UpsertAccess(actionName, roleName, entityId, Grant, []);
    }

    /** GrantAccess(actionName, roleName): the entity is Guid.Empty. */
    method GrantAccessWithoutEntity(actionName: string, roleName: string) returns (r: Result<EntityPermission?>)
      requires dataStore.Valid()
      modifies dataStore, dataStore.entityPermissions
      ensures Performed(Upsert(old(dataStore.View()), actionName, roleName, EmptyGuid, Grant, []),
                        old(dataStore.entityPermissions), r)
      ensures forall k :: |old(dataStore.entityPermissions)| <= k < |dataStore.entityPermissions| ==>
        fresh(dataStore.entityPermissions[k])
    {
      r := GrantAccess(actionName, roleName, EmptyGuid);
    }

    /** GrantAccess<T>(actionName, roleName, T): the entity is Guid.Empty. */
    method GrantAccessTypedWithoutEntity(actionName: string, roleName: string, props: seq<PropertyValue>)
      returns (r: Result<EntityPermission?>)
      requires dataStore.Valid()
      modifies dataStore, dataStore.entityPermissions
      ensures Performed(Upsert(old(dataStore.View()), actionName, roleName, EmptyGuid, Grant, props),
                        old(dataStore.entityPermissions), r)
      ensures forall k :: |old(dataStore.entityPermissions)| <= k < |dataStore.entityPermissions| ==>
        fresh(dataStore.entityPermissions[k])
    {
      r := GrantAccessTyped(actionName, roleName, EmptyGuid, props);
    }

    /** GrantAccess<T>(actionName, roleName, entityId, T): the parameter object fills the bag of a record
        it creates, and only then. */
    method GrantAccessTyped(actionName: string, roleName: string, entityId: Guid, props: seq<PropertyValue>)
      returns (r: Result<EntityPermission?>)
      requires dataStore.Valid()
      modifies dataStore, dataStore.entityPermissions
      ensures Performed(Upsert(old(dataStore.View()), actionName, roleName, entityId, Grant, props),
                        old(dataStore.entityPermissions), r)
      ensures forall k :: |old(dataStore.entityPermissions)| <= k < |dataStore.entityPermissions| ==>
        fresh(dataStore.entityPermissions[k])
    {
      r := UpsertAccess(actionName, roleName, entityId, Grant, props);
    }

    /** DenyAccess(actionName, roleName): the entity is Guid.Empty. */
    method DenyAccessWithoutEntity(actionName: string, roleName: string) returns (r: Result<EntityPermission?>)
      requires dataStore.Valid()
      modifies dataStore, dataStore.entityPermissions
      ensures Performed(Upsert(old(dataStore.View()), actionName, roleName, EmptyGuid, Deny, []),
                        old(dataStore.entityPermissions), r)
      ensures forall k :: |old(dataStore.entityPermissions)| <= k < |dataStore.entityPermissions| ==>
        fresh(dataStore.entityPermissions[k])
    {
      r := DenyAccess(actionName, roleName, EmptyGuid);
    }

    /** DenyAccess(actionName, roleName, entityId). */
    method DenyAccess(actionName: string, roleName: string, entityId: Guid) returns (r: Result<EntityPermission?>)
      requires dataStore.Valid()
      modifies dataStore, dataStore.entityPermissions
      ensures Performed(Upsert(old(dataStore.View()), actionName, roleName, entityId, Deny, []),
                        old(dataStore.entityPermissions), r)
      ensures forall k :: |old(dataStore.entityPermissions)| <= k < |dataStore.entityPermissions| ==>
        fresh(dataStore.entityPermissions[k])
    {
      r := UpsertAccess(actionName, roleName, entityId, Deny, []);
    }

    /** DenyAccess<T>(actionName, roleName, T) as written: it calls the granting overload, so it grants. */
    method DenyAccessTypedWithoutEntity(actionName: string, roleName: string, props: seq<PropertyValue>)
      returns (r: Result<EntityPermission?>)
      requires dataStore.Valid()
      modifies dataStore, dataStore.entityPermissions
      ensures Performed(Upsert(old(dataStore.View()), actionName, roleName, EmptyGuid, Grant, props),
                        old(dataStore.entityPermissions), r)
      ensures forall k :: |old(dataStore.entityPermissions)| <= k < |dataStore.entityPermissions| ==>
        fresh(dataStore.entityPermissions[k])
    {
      r := GrantAccessTyped(actionName, roleName, EmptyGuid, props);
    }

    /** DenyAccess<T>(actionName, roleName, T) as evidently intended: the deny upsert on Guid.Empty. */
    method DenyAccessTypedWithoutEntityCorrected(actionName: string, roleName: string, props: seq<PropertyValue>)
      returns (r: Result<EntityPermission?>)
      requires dataStore.Valid()
      modifies dataStore, dataStore.entityPermissions
      ensures Performed(Upsert(old(dataStore.View()), actionName, roleName, EmptyGuid, Deny, props),
                        old(dataStore.entityPermissions), r)
      ensures forall k :: |old(dataStore.entityPermissions)| <= k < |dataStore.entityPermissions| ==>
        fresh(dataStore.entityPermissions[k])
    {
      r := DenyAccessTyped(actionName, roleName, EmptyGuid, props);
    }

    /** DenyAccess<T>(actionName, roleName, entityId, T). */
    method DenyAccessTyped(actionName: string, roleName: string, entityId: Guid, props: seq<PropertyValue>)
      returns (r: Result<EntityPermission?>)
      requires dataStore.Valid()
      modifies dataStore, dataStore.entityPermissions
      ensures Performed(Upsert(old(dataStore.View()), actionName, roleName, entityId, Deny, props),
                        old(dataStore.entityPermissions), r)
      ensures forall k :: |old(dataStore.entityPermissions)| <= k < |dataStore.entityPermissions| ==>
        fresh(dataStore.entityPermissions[k])
    {
      r := UpsertAccess(actionName, roleName, entityId, Deny, props);
    }

    /** ClearPermissions(predicate) as written, over the store's Delete as written: the selected records
        are handed over and ignored, so an empty store is left alone, and otherwise the first stored
        record is removed and the call throws, whatever the predicate selects. */
    method ClearPermissionsAsWritten(condition: PermissionRecord -> bool)
      returns (doomed: seq<EntityPermission>, outcome: Outcome)
      requires dataStore.Valid()
      modifies dataStore
      ensures dataStore.Valid()
      ensures doomed == old(Where(dataStore.entityPermissions, condition))
      ensures DeleteAsWritten(old(dataStore.entityPermissions), doomed) == Stored(outcome, dataStore.entityPermissions)
    {
      doomed := Where(dataStore.Query(), condition);
      outcome := dataStore.Delete(doomed);
    }

    /** ClearPermissions(predicate) as intended: hands the store exactly the stored records whose fields satisfy
        `condition`, in store order (returned here as `doomed`), for deletion; afterwards the store holds
        exactly the other records, in their order and with their values. */
    method ClearPermissions(condition: PermissionRecord -> bool) returns (doomed: seq<EntityPermission>)
      requires dataStore.Valid()
      modifies dataStore
      ensures dataStore.Valid()
      ensures doomed == old(Where(dataStore.entityPermissions, condition))
      ensures dataStore.entityPermissions == old(Where(dataStore.entityPermissions, Complement(condition)))
      ensures dataStore.View() == Filter(old(dataStore.View()), Complement(condition))
    {
      ghost var before := dataStore.entityPermissions;
      doomed := Where(dataStore.Query(), condition);
      WithoutWhere(before, condition);
      ghost var kept := Where(before, Complement(condition));
      ghost var keptView := Snapshots(kept);
      assert keptView == Filter(dataStore.View(), Complement(condition));
      dataStore.DeleteRecords(doomed);
      assert Snapshots(kept) == keptView;
    }
  }
}
