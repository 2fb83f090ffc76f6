/** What the grant/deny upsert guarantees, and the quirks it has against the list-backed store. */
module AuthorizationProperties {
  import opened Outcomes
  import opened Linq
  import opened EntityPermissions
  import opened DataStore
  import opened AuthorizationSpec

  /** Some record other than the one at `i` shares its Id. */
  predicate IdShared(records: seq<PermissionRecord>, i: nat)
    requires i < |records|
  {
    exists j :: 0 <= j < |records| && j != i && records[j].id == records[i].id
  }

  /** Some stored record collides with a record the engine would create for `actionName`
      under the store's duplicate check (null category, default Id, same action name). */
  predicate CollidesOnAction(records: seq<PermissionRecord>, actionName: string)
  {
    exists k :: 0 <= k < |records| && records[k].actionCategory == Null && records[k].actionName == actionName
                                     && records[k].id == EmptyGuid
  }

  /** No record for the triple: with a parameter object that projects, the upsert inserts exactly one
      new record at the end, carrying the triple, the verdict, the projected bag, the default Id and a
      null category, and returns null; unless the store rejects it as a duplicate of a record with
      the same action name, null category and default Id, which leaves the store unchanged. A
      parameter object that does not project fails before any store call. */
  lemma UpsertWhenAbsent(records: seq<PermissionRecord>, actionName: string, roleName: string, entityId: Guid,
                         verdict: Permission, props: seq<PropertyValue>)
    requires forall k :: 0 <= k < |records| ==> !HasTriple(records[k], actionName, roleName, entityId)
    ensures var u := Upsert(records, actionName, roleName, entityId, verdict, props);
      && (!Projectable(props) ==> u.result.Failure? && u.call == NoCall && u.records == records)
      && (Projectable(props) ==> u.call == InsertCall)
      && (Projectable(props) && CollidesOnAction(records, actionName) ==>
            u.result == Failure(DuplicateEntityPermission) && u.records == records)
      && (Projectable(props) && !CollidesOnAction(records, actionName) ==>
            && u.result == Success(Null)
            && u.records == records + [NewRecord(actionName, roleName, entityId, verdict, Project(props).value)])
  {
    ProjectSpec(props);
    var rec := NewRecord(actionName, roleName, entityId, verdict, map[]);
    if CollidesOnAction(records, actionName) {
      var k :| 0 <= k < |records| && records[k].actionCategory == Null && records[k].actionName == actionName
                                   && records[k].id == EmptyGuid;
      if Projectable(props) {
        assert SameStoreKey(records[k], NewRecord(actionName, roleName, entityId, verdict, Project(props).value));
      }
    }
  }

  /** The record for the triple exists and is unique: if it already has the verdict the upsert calls
      nothing and returns it; otherwise it sets the verdict on that record (Id, names, entity and bag
      untouched, every other record untouched) and calls Update, which throws when another record
      shares the record's Id; the new verdict stays set even then. The parameter object is not used. */
  lemma UpsertWhenPresent(records: seq<PermissionRecord>, actionName: string, roleName: string, entityId: Guid,
                          verdict: Permission, props: seq<PropertyValue>, i: nat)
    requires i < |records| && HasTriple(records[i], actionName, roleName, entityId)
    requires forall k :: 0 <= k < |records| && k != i ==> !HasTriple(records[k], actionName, roleName, entityId)
    ensures var u := Upsert(records, actionName, roleName, entityId, verdict, props);
      && (records[i].permission == verdict ==> u == Upserted(Success(NonNull(i)), NoCall, records))
      && (records[i].permission != verdict ==>
            && u.call == UpdateCall
            && u.records == records[i := records[i].(permission := verdict)]
            && u.result == if IdShared(records, i) then Failure(MoreThanOneMatch) else Success(NonNull(i)))
  {
    var found := SingleOrDefault(records, TripleIs(actionName, roleName, entityId));
    assert TripleIs(actionName, roleName, entityId)(records[i]);
    assert found == Single(i);
    if records[i].permission != verdict {
      var flipped := records[i := records[i].(permission := verdict)];
      UpdateWithItself(flipped, i);
      assert IdShared(records, i) <==> IdShared(flipped, i) by {
        assert forall j :: 0 <= j < |records| && j != i ==> flipped[j] == records[j];
      }
    }
  }

  /** Two or more records for the triple: the upsert throws before calling the store. */
  lemma UpsertWhenAmbiguous(records: seq<PermissionRecord>, actionName: string, roleName: string, entityId: Guid,
                            verdict: Permission, props: seq<PropertyValue>, i: nat, j: nat)
    requires i < j < |records|
    requires HasTriple(records[i], actionName, roleName, entityId) && HasTriple(records[j], actionName, roleName, entityId)
    ensures Upsert(records, actionName, roleName, entityId, verdict, props) == Upserted(Failure(MoreThanOneMatch), NoCall, records)
  {
    var p := TripleIs(actionName, roleName, entityId);
    assert p(records[i]) && p(records[j]);
  }

  /** Idempotence: once an upsert has succeeded, repeating it calls no store operation, returns the
      record it wrote and leaves the records as they are. */
  lemma UpsertIdempotent(records: seq<PermissionRecord>, actionName: string, roleName: string, entityId: Guid,
                         verdict: Permission, props: seq<PropertyValue>)
    requires Upsert(records, actionName, roleName, entityId, verdict, props).result.Success?
    ensures var once := Upsert(records, actionName, roleName, entityId, verdict, props).records;
      var twice := Upsert(once, actionName, roleName, entityId, verdict, props);
      && twice.call == NoCall && twice.records == once
      && twice.result.Success? && twice.result.value.NonNull?
      && once[twice.result.value.value].permission == verdict
  {
    var p := TripleIs(actionName, roleName, entityId);
    var u := Upsert(records, actionName, roleName, entityId, verdict, props);
    match SingleOrDefault(records, p)
    case NoMatch =>
      UpsertWhenAbsent(records, actionName, roleName, entityId, verdict, props);
      ProjectSpec(props);
      var n := |records|;
      assert p(u.records[n]);
      forall k | 0 <= k < |u.records| && k != n ensures !HasTriple(u.records[k], actionName, roleName, entityId) {
        assert !p(records[k]);
      }
      UpsertWhenPresent(u.records, actionName, roleName, entityId, verdict, props, n);
    case Single(i) =>
      UpsertWhenPresent(records, actionName, roleName, entityId, verdict, props, i);
      forall k | 0 <= k < |u.records| && k != i ensures !HasTriple(u.records[k], actionName, roleName, entityId) {
        assert !p(records[k]);
      }
      UpsertWhenPresent(u.records, actionName, roleName, entityId, verdict, props, i);
    case Ambiguous =>
  }

  /** At most one record per (action name, role name, entity). */
  ghost predicate UniqueTriples(records: seq<PermissionRecord>)
  {
    forall i, j :: 0 <= i < j < |records| ==>
      !HasTriple(records[j], records[i].actionName, records[i].roleName, records[i].entityId)
  }

  /** The upsert keeps every triple to at most one record. */
  lemma UpsertKeepsTriplesUnique(records: seq<PermissionRecord>, actionName: string, roleName: string, entityId: Guid,
                                 verdict: Permission, props: seq<PropertyValue>)
    requires UniqueTriples(records)
    ensures UniqueTriples(Upsert(records, actionName, roleName, entityId, verdict, props).records)
  {
    var p := TripleIs(actionName, roleName, entityId);
    var u := Upsert(records, actionName, roleName, entityId, verdict, props);
    match SingleOrDefault(records, p)
    case NoMatch =>
      UpsertWhenAbsent(records, actionName, roleName, entityId, verdict, props);
      forall i, j | 0 <= i < j < |u.records|
        ensures !HasTriple(u.records[j], u.records[i].actionName, u.records[i].roleName, u.records[i].entityId)
      {
        if j == |records| { assert !p(records[i]); }
      }
    case Single(i) =>
      UpsertWhenPresent(records, actionName, roleName, entityId, verdict, props, i);
    case Ambiguous =>
  }

  /** Scoping: an upsert on one triple leaves the records of every other triple exactly as they were. */
  lemma UpsertLeavesOtherTriples(records: seq<PermissionRecord>, actionName: string, roleName: string, entityId: Guid,
                                 verdict: Permission, props: seq<PropertyValue>,
                                 otherAction: string, otherRole: string, otherEntity: Guid)
    requires (otherAction, otherRole, otherEntity) != (actionName, roleName, entityId)
    ensures var q := TripleIs(otherAction, otherRole, otherEntity);
      Filter(Upsert(records, actionName, roleName, entityId, verdict, props).records, q) == Filter(records, q)
  {
    var p := TripleIs(actionName, roleName, entityId);
    var q := TripleIs(otherAction, otherRole, otherEntity);
    var u := Upsert(records, actionName, roleName, entityId, verdict, props);
    match SingleOrDefault(records, p)
    case NoMatch =>
      UpsertWhenAbsent(records, actionName, roleName, entityId, verdict, props);
      if u.records != records {
        var rec := NewRecord(actionName, roleName, entityId, verdict, Project(props).value);
        FilterConcat(records, [rec], q);
        assert !q(rec);
        assert Filter([rec], q) == [];
      }
    case Single(i) =>
      UpsertWhenPresent(records, actionName, roleName, entityId, verdict, props, i);
      if records[i].permission != verdict {
        FilterUpdateOutside(records, i, records[i].(permission := verdict), q);
      }
    case Ambiguous =>
  }

  /** Flip semantics: granting and then denying the same triple leaves one record, at the same place
      and with the same Id, now denied; and symmetrically for deny then grant. The parameter objects of
      the typed overloads make no difference to the second call. */
  lemma FlipKeepsRecord(records: seq<PermissionRecord>, actionName: string, roleName: string, entityId: Guid,
                        first: Permission, second: Permission, firstProps: seq<PropertyValue>,
                        secondProps: seq<PropertyValue>)
    requires first != second
    requires Upsert(records, actionName, roleName, entityId, first, firstProps).result.Success?
    ensures var once := Upsert(records, actionName, roleName, entityId, first, firstProps);
      var twice := Upsert(once.records, actionName, roleName, entityId, second, secondProps);
      exists i :: 0 <= i < |once.records| && HasTriple(once.records[i], actionName, roleName, entityId)
        && twice.records == once.records[i := once.records[i].(permission := second)]
  {
    var once := Upsert(records, actionName, roleName, entityId, first, firstProps);
    UpsertIdempotent(records, actionName, roleName, entityId, first, firstProps);
    var again := Upsert(once.records, actionName, roleName, entityId, first, firstProps);
    var i := again.result.value.value;
    var p := TripleIs(actionName, roleName, entityId);
    assert SingleOrDefault(once.records, p) == Single(i);
    UpsertWhenPresent(once.records, actionName, roleName, entityId, second, secondProps, i);
  }

  /** Records as the engine creates them: default Id and null category. */
  ghost predicate EngineMade(records: seq<PermissionRecord>)
  {
    forall k :: 0 <= k < |records| ==> records[k].id == EmptyGuid && records[k].actionCategory == Null
  }

  /** The upsert only ever adds engine-made records. */
  lemma UpsertKeepsEngineMade(records: seq<PermissionRecord>, actionName: string, roleName: string, entityId: Guid,
                              verdict: Permission, props: seq<PropertyValue>)
    requires EngineMade(records)
    ensures EngineMade(Upsert(records, actionName, roleName, entityId, verdict, props).records)
  {
    match SingleOrDefault(records, TripleIs(actionName, roleName, entityId))
    case NoMatch =>
      UpsertWhenAbsent(records, actionName, roleName, entityId, verdict, props);
    case Single(i) =>
      UpsertWhenPresent(records, actionName, roleName, entityId, verdict, props, i);
    case Ambiguous =>
  }

  /** Key mismatch between engine and store: among engine-made records a second record for an action
      that already has one (another role or another entity) is always rejected as a duplicate. */
  lemma SecondTripleForActionRejected(records: seq<PermissionRecord>, actionName: string, roleName: string,
                                      entityId: Guid, verdict: Permission, props: seq<PropertyValue>, k: nat)
    requires EngineMade(records) && Projectable(props)
    requires k < |records| && records[k].actionName == actionName
    requires forall j :: 0 <= j < |records| ==> !HasTriple(records[j], actionName, roleName, entityId)
    ensures Upsert(records, actionName, roleName, entityId, verdict, props).result == Failure(DuplicateEntityPermission)
  {
    UpsertWhenAbsent(records, actionName, roleName, entityId, verdict, props);
    assert CollidesOnAction(records, actionName);
  }

  /** Id never assigned: among engine-made records, once the store holds two or more records a flip
      always fails in Update (every record has the default Id), yet the flip stays applied. */
  lemma FlipFailsWithSharedDefaultId(records: seq<PermissionRecord>, actionName: string, roleName: string,
                                     entityId: Guid, verdict: Permission, props: seq<PropertyValue>, i: nat)
    requires EngineMade(records) && |records| >= 2
    requires i < |records| && HasTriple(records[i], actionName, roleName, entityId) && records[i].permission != verdict
    requires forall k :: 0 <= k < |records| && k != i ==> !HasTriple(records[k], actionName, roleName, entityId)
    ensures var u := Upsert(records, actionName, roleName, entityId, verdict, props);
      u.result == Failure(MoreThanOneMatch) && u.records == records[i := records[i].(permission := verdict)]
  {
    UpsertWhenPresent(records, actionName, roleName, entityId, verdict, props, i);
    var j := if i == 0 then 1 else 0;
    assert records[j].id == records[i].id;
  }

  /** DenyAccess<T>(actionName, roleName, T) as written runs the grant upsert: on an empty store, with
      a parameter object that projects, it leaves one record that grants, where the deny upsert it
      stands for leaves one that denies. */
  lemma TypedDenyWithoutEntityGrants(actionName: string, roleName: string, props: seq<PropertyValue>)
    requires Projectable(props)
    ensures var asWritten := Upsert([], actionName, roleName, EmptyGuid, Grant, props);
      var intended := Upsert([], actionName, roleName, EmptyGuid, Deny, props);
      && asWritten.result == intended.result == Success(Null)
      && |asWritten.records| == |intended.records| == 1
      && asWritten.records[0].permission == Grant
      && intended.records[0].permission == Deny
  {
    UpsertWhenAbsent([], actionName, roleName, EmptyGuid, Grant, props);
    UpsertWhenAbsent([], actionName, roleName, EmptyGuid, Deny, props);
  }

  /** Grant("Publish", "Editor") on an empty store creates one granted record; Deny on the same pair
      turns that record to Deny in place; granting the same action to another role is then rejected
      by the store as a duplicate. */
  lemma PublishScenario()
    ensures var granted := Upsert([], "Publish", "Editor", EmptyGuid, Grant, []);
      && granted.result == Success(Null)
      && granted.records == [NewRecord("Publish", "Editor", EmptyGuid, Grant, map[])]
      && var denied := Upsert(granted.records, "Publish", "Editor", EmptyGuid, Deny, []);
      && denied.result == Success(NonNull(0))
      && denied.records == [NewRecord("Publish", "Editor", EmptyGuid, Deny, map[])]
      && Upsert(denied.records, "Publish", "Author", EmptyGuid, Grant, []).result == Failure(DuplicateEntityPermission)
  {
    var granted := Upsert([], "Publish", "Editor", EmptyGuid, Grant, []);
    UpsertWhenAbsent([], "Publish", "Editor", EmptyGuid, Grant, []);
    ProjectSpec([]);
    assert Project([]).value == map[];
    var rec := NewRecord("Publish", "Editor", EmptyGuid, Grant, map[]);
    UpsertWhenPresent([rec], "Publish", "Editor", EmptyGuid, Deny, [], 0);
    var denied := [NewRecord("Publish", "Editor", EmptyGuid, Deny, map[])];
    assert !HasTriple(denied[0], "Publish", "Author", EmptyGuid) by {
      assert "Editor" != "Author" by { assert "Editor"[0] != "Author"[0]; }
    }
    SecondTripleForActionRejected(denied, "Publish", "Author", EmptyGuid, Grant, [], 0);
  }
}
