/** The permission record: one fact "for this action (optionally scoped to one entity), this
    role is granted or denied", and the typed view that Query<T> builds from it. */
module EntityPermissions {
  import opened Outcomes
  import opened Linq

  /** A Guid; only equality matters to the core. */
  datatype Guid = Guid(bits: nat)

  /** Guid.Empty, the default Guid, used as "no particular entity". */
  const EmptyGuid: Guid := Guid(0)

  /** The verdict a record carries; None is the enumeration's default value. */
  datatype Permission = None | Grant | Deny

  /** The value of an EntityPermission object's fields at one moment. */
  datatype PermissionRecord = PermissionRecord(
    id: Guid,
    entityId: Guid,
    actionName: string,
    actionCategory: Nullable<string>,
    roleName: string,
    permission: Permission,
    rawActionParams: map<string, string>)

  /** A permission record object; the engine and the store change its fields in place. */
  class EntityPermission {
    var Id: Guid
    var EntityId: Guid
    var ActionName: string
    var ActionCategory: Nullable<string>
    var RoleName: string
    var Permission: Permission
    var RawActionParams: map<string, string>

    /** `new EntityPermission { ActionName = .., EntityId = .., RoleName = .., Permission = .. }`:
        the Id keeps the default Guid, the category stays null and the bag starts empty. */
    constructor (actionName: string, roleName: string, entityId: Guid, permission: Permission)
      ensures Snapshot() == PermissionRecord(EmptyGuid, entityId, actionName, Null, roleName, permission, map[])
    {
      Id := EmptyGuid;
      EntityId := entityId;
      ActionName := actionName;
      ActionCategory := Null;
      RoleName := roleName;
      Permission := permission;
      RawActionParams := map[];
    }

    function Snapshot(): PermissionRecord
      reads this
    {
      PermissionRecord(Id, EntityId, ActionName, ActionCategory, RoleName, Permission, RawActionParams)
    }
  }

  /** The values of a list of records, position by position. */
  function Snapshots(s: seq<EntityPermission>): (r: seq<PermissionRecord>)
    reads s
    ensures |r| == |s|
    ensures forall i :: 0 <= i < |s| ==> r[i] == s[i].Snapshot()
  {
    if s == [] then [] else [s[0].Snapshot()] + Snapshots(s[1..])
  }

  /** Enumerable.Where over record objects, with the predicate evaluated on each record's fields:
      the very objects whose fields satisfy `p`, in list order. */
  function Where(s: seq<EntityPermission>, p: PermissionRecord -> bool): (r: seq<EntityPermission>)
    reads s
    ensures forall i :: 0 <= i < |r| ==> r[i] in s && p(r[i].Snapshot())
    ensures forall i :: 0 <= i < |s| && p(s[i].Snapshot()) ==> s[i] in r
    ensures Snapshots(r) == Filter(Snapshots(s), p)
  {
    if s == [] then []
    else
      var head := if p(s[0].Snapshot()) then [s[0]] else [];
      var rest := Where(s[1..], p);
      SnapshotsConcat(head, rest);
      head + rest
  }

  lemma SnapshotsConcat(a: seq<EntityPermission>, b: seq<EntityPermission>)
    ensures Snapshots(a + b) == Snapshots(a) + Snapshots(b)
  {
    assert |Snapshots(a + b)| == |Snapshots(a) + Snapshots(b)|;
    forall i | 0 <= i < |a + b| ensures Snapshots(a + b)[i] == (Snapshots(a) + Snapshots(b))[i] {
      if i < |a| {
        assert (a + b)[i] == a[i];
      } else {
        assert (a + b)[i] == b[i - |a|];
      }
    }
  }

  /** On a list without duplicates, deleting the records a filter selects leaves exactly the
      records the complementary filter selects, in order. */
  lemma {:induction false} WithoutWhere(s: seq<EntityPermission>, p: PermissionRecord -> bool)
    requires Distinct(s)
    ensures Without(s, Where(s, p)) == Where(s, Complement(p))
  {
    if s != [] {
      assert Distinct(s[1..]) by {
        forall i, j | 0 <= i < j < |s[1..]| ensures s[1..][i] != s[1..][j] {
          assert s[1..][i] == s[i + 1] && s[1..][j] == s[j + 1];
        }
      }
      assert s[0] !in s[1..] by {
        forall k | 0 <= k < |s[1..]| ensures s[1..][k] != s[0] { assert s[1..][k] == s[k + 1]; }
      }
      var w := Where(s, p);
      assert w == (if p(s[0].Snapshot()) then [s[0]] else []) + Where(s[1..], p);
      forall x | x in s[1..] ensures x in w <==> x in Where(s[1..], p) {
        assert x != s[0];
      }
      WithoutAgree(s[1..], w, Where(s[1..], p));
      WithoutWhere(s[1..], p);
      assert s[0] in w <==> p(s[0].Snapshot());
    }
  }

  /** EntityPermission<T>: the record's scalar fields and the typed parameter object, whose
      assigned properties are given by name. */
  datatype TypedPermission = TypedPermission(record: PermissionRecord, actionParameters: map<string, string>)
}
