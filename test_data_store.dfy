/** The list-backed permission store the engine is exercised against. */
module DataStore {
  import opened Outcomes
  import opened Linq
  import opened EntityPermissions

  /** The key of the store's duplicate check: category, action name and Id (not the role, not the entity). */
  predicate SameStoreKey(a: PermissionRecord, b: PermissionRecord)
  {
    a.actionCategory == b.actionCategory && a.actionName == b.actionName && a.id == b.id
  }

  /** The predicate Update looks records up by. */
  function IdIs(id: Guid): PermissionRecord -> bool
  {
    (e: PermissionRecord) => e.id == id
  }

  /** What Update writes onto the stored record: every field of `source` but its Id and its parameter bag. */
  function CopyFields(target: PermissionRecord, source: PermissionRecord): PermissionRecord
  {
    target.(entityId := source.entityId, actionName := source.actionName,
            actionCategory := source.actionCategory, roleName := source.roleName,
            permission := source.permission)
  }

  /** A store call's outcome together with the list it leaves. */
  datatype Stored<T> = Stored(outcome: Outcome, records: seq<T>)

  /** Insert on the store's values: a record agreeing with a stored one on the store key is rejected
      and nothing changes; any other record is appended after all the stored ones. */
  function InsertInto(records: seq<PermissionRecord>, rec: PermissionRecord): (r: Stored<PermissionRecord>)
    ensures r.outcome.Fail? <==> exists k :: 0 <= k < |records| && SameStoreKey(records[k], rec)
    ensures r.outcome.Fail? ==> r.outcome.error == DuplicateEntityPermission && r.records == records
    ensures r.outcome.Pass? ==> r.records == records + [rec]
  {
    if exists k :: 0 <= k < |records| && SameStoreKey(records[k], rec) then Stored(Fail(DuplicateEntityPermission), records)
    else Stored(Pass, records + [rec])
  }

  /** Update on the store's values: the one record with `rec`'s Id takes `rec`'s entity, action name,
      category, role and verdict and every other record stays; with no such record, or several, the
      call fails and nothing changes. */
  function UpdateIn(records: seq<PermissionRecord>, rec: PermissionRecord): (r: Stored<PermissionRecord>)
    ensures |r.records| == |records|
    ensures r.outcome == Fail(EntityPermissionNotFound) <==> forall k :: 0 <= k < |records| ==> records[k].id != rec.id
    ensures r.outcome == Fail(MoreThanOneMatch) <==>
      exists j, k :: 0 <= j < k < |records| && records[j].id == rec.id && records[k].id == rec.id
    ensures r.outcome.Fail? ==> r.records == records
    ensures r.outcome.Pass? || r.outcome == Fail(EntityPermissionNotFound) || r.outcome == Fail(MoreThanOneMatch)
    ensures r.outcome.Pass? ==>
      exists k :: && 0 <= k < |records| && records[k].id == rec.id
                  && (forall j :: 0 <= j < |records| && j != k ==> records[j].id != rec.id)
                  && r.records == records[k := CopyFields(records[k], rec)]
  {
    match SingleOrDefault(records, IdIs(rec.id))
    case NoMatch => Stored(Fail(EntityPermissionNotFound), records)
    case Ambiguous => Stored(Fail(MoreThanOneMatch), records)
    case Single(k) => Stored(Pass, records[k := CopyFields(records[k], rec)])
  }

  /** Update handed the stored record itself (as the engine does) writes nothing: it fails when another
      record shares that record's Id and otherwise leaves every record as it was. */
  lemma UpdateWithItself(records: seq<PermissionRecord>, i: nat)
    requires i < |records|
    ensures UpdateIn(records, records[i]).records == records
    ensures UpdateIn(records, records[i]).outcome ==
      if exists j :: 0 <= j < |records| && j != i && records[j].id == records[i].id then Fail(MoreThanOneMatch) else Pass
  {
    var p := IdIs(records[i].id);
    assert p(records[i]);
    match SingleOrDefault(records, p)
    case Single(k) =>
      assert k == i;
    case Ambiguous =>
      var a, b :| 0 <= a < b < |records| && p(records[a]) && p(records[b]);
      assert a != i || b != i;
    case NoMatch =>
  }

  /** Delete as written, on values: the loop removes the first stored record and the next step of the
      enumeration throws; the records passed in play no part. */
  function DeleteAsWritten<T>(records: seq<T>, permissions: seq<T>): (r: Stored<T>)
    ensures r.outcome.Pass? <==> records == []
    ensures r.outcome.Pass? ==> r.records == records
    ensures r.outcome.Fail? ==> r.outcome.error == CollectionModified && [records[0]] + r.records == records
  {
    if records == [] then Stored(Pass, records) else Stored(Fail(CollectionModified), records[1..])
  }

  /** As written, Delete never removes exactly the records it is given: on a list without duplicates
      whose first record is not among them, the first record is lost and a requested one may stay. */
  lemma DeleteAsWrittenDiffers<T>(records: seq<T>, permissions: seq<T>)
    requires Distinct(records) && records != [] && records[0] !in permissions
    ensures DeleteAsWritten(records, permissions).outcome == Fail(CollectionModified)
    ensures DeleteAsWritten(records, permissions).records != Without(records, permissions)
  {
    var w := Without(records, permissions);
    assert records[0] in w;
    assert records[0] !in records[1..] by {
      forall k | 0 <= k < |records[1..]| ensures records[1..][k] != records[0] { assert records[1..][k] == records[k + 1]; }
    }
  }

  /** The list-backed store: `entityPermissions` is the List the test store mutates. */
  class TestAuthorizationDataStore {
    var entityPermissions: seq<EntityPermission>

    /** No record object is stored twice. */
    ghost predicate Valid()
      reads this
    {
      Distinct(entityPermissions)
    }

    /** The stored records' values, in list order. */
    function View(): seq<PermissionRecord>
      reads this, entityPermissions
    {
      Snapshots(entityPermissions)
    }

    /** A fresh store is empty. */
    constructor ()
      ensures Valid() && Query() == [] && View() == []
    {
      entityPermissions := [];
    }

    /** Query(): the stored record objects themselves (not copies), in insertion order, none twice. */
    function Query(): (r: seq<EntityPermission>)
      reads this
      ensures |r| == |entityPermissions| && forall i :: 0 <= i < |r| ==> r[i] == entityPermissions[i]
      ensures Valid() ==> Distinct(r)
    {
      entityPermissions
    }

    /** Rejects a record that agrees with a stored one on category, action name and Id; otherwise
        appends it, leaving every earlier record in place. */
    method Insert(ep: EntityPermission) returns (outcome: Outcome)
      requires Valid()
      modifies this
      ensures Valid()
      ensures outcome.Fail? <==> exists k :: 0 <= k < |old(View())| && SameStoreKey(old(View())[k], ep.Snapshot())
      ensures outcome.Fail? ==> outcome.error == DuplicateEntityPermission && entityPermissions == old(entityPermissions)
      ensures outcome.Pass? ==> entityPermissions == old(entityPermissions) + [ep]
      ensures InsertInto(old(View()), ep.Snapshot()) == Stored(outcome, View())
    {
      if exists e :: e in entityPermissions && SameStoreKey(e.Snapshot(), ep.Snapshot()) {
        outcome := Fail(DuplicateEntityPermission);
        var e :| e in entityPermissions && SameStoreKey(e.Snapshot(), ep.Snapshot());
        var k :| 0 <= k < |entityPermissions| && entityPermissions[k] == e;
        assert SameStoreKey(View()[k], ep.Snapshot());
      } else {
        assert ep !in entityPermissions;
        SnapshotsConcat(entityPermissions, [ep]);
        assert forall k :: 0 <= k < |View()| ==> View()[k] == entityPermissions[k].Snapshot();
        entityPermissions := entityPermissions + [ep];
        outcome := Pass;
      }
    }

    /** Finds the one record with the given record's Id and copies EntityId, ActionName, ActionCategory,
        RoleName and Permission onto it; its Id and parameter bag and every other record stay as they
        were. No record with that Id: throws, changing nothing; several: throws, changing nothing. */
    method Update(entityPermission: EntityPermission) returns (outcome: Outcome)
      requires Valid()
      modifies entityPermissions
      ensures entityPermissions == old(entityPermissions) && Valid()
      ensures UpdateIn(old(View()), old(entityPermission.Snapshot())) == Stored(outcome, View())
    {
      var found := SingleOrDefault(View(), IdIs(entityPermission.Id));
      ghost var before := View();
      ghost var source := entityPermission.Snapshot();
      match found {
        case NoMatch =>
          outcome := Fail(EntityPermissionNotFound);
        case Ambiguous =>
          outcome := Fail(MoreThanOneMatch);
        case Single(k) =>
          var permission := entityPermissions[k];
          forall j | 0 <= j < |entityPermissions| && j != k ensures entityPermissions[j] != permission {
            assert !IdIs(source.id)(before[j]);
          }
          permission.EntityId := entityPermission.EntityId;
          permission.ActionName := entityPermission.ActionName;
          permission.ActionCategory := entityPermission.ActionCategory;
          permission.RoleName := entityPermission.RoleName;
          permission.Permission := entityPermission.Permission;
          outcome := Pass;
          assert View() == before[k := CopyFields(before[k], source)];
      }
    }

    /** Delete as written: it walks the store's own list, not `permissions`, removing the record it is
        at; the list has then changed under the enumeration, whose next step throws. So an empty store is
        left alone, and otherwise exactly the first stored record goes and the call throws. */
    method Delete(permissions: seq<EntityPermission>) returns (outcome: Outcome)
      requires Valid()
      modifies this
      ensures Valid()
      ensures DeleteAsWritten(old(entityPermissions), permissions) == Stored(outcome, entityPermissions)
    {
      var index := 0;
      var modified := false;
      while !modified && index < |entityPermissions|
        invariant !modified ==> index == 0 && entityPermissions == old(entityPermissions)
        invariant modified ==> old(entityPermissions) != [] && entityPermissions == old(entityPermissions)[1..]
        decreases if modified then 0 else 1
      {
        var entityPermission := entityPermissions[index];
        index := index + 1;
        entityPermissions := RemoveFirst(entityPermissions, entityPermission);
        modified := true;
      }
      outcome := if modified then Fail(CollectionModified) else Pass;
    }

    /** Delete as evidently intended: removes each of the given records from the list, ignoring those
        it does not hold, and keeps the order of the rest. */
    method DeleteRecords(permissions: seq<EntityPermission>)
      requires Valid()
      modifies this
      ensures Valid()
      ensures entityPermissions == Without(old(entityPermissions), permissions)
    {
      var i := 0;
      WithoutNothing(entityPermissions);
      while i < |permissions|
        invariant 0 <= i <= |permissions|
        invariant entityPermissions == Without(old(entityPermissions), permissions[..i])
        invariant Valid()
      {
        RemoveFirstWithout(old(entityPermissions), permissions[..i], permissions[i]);
        assert permissions[..i + 1] == permissions[..i] + [permissions[i]];
        entityPermissions := RemoveFirst(entityPermissions, permissions[i]);
        i := i + 1;
      }
      assert permissions[..i] == permissions;
    }
  }
}
