/** The RBAC seed revisions: insert the missing roles and permissions, link them, and on
    downgrade delete what bears a seeded name. */
module PermissionSeed {
  import opened Wrappers
  import opened ProviderSchema

  /** A row of `roles` or `permissions`: its unique name and its other columns. */
  datatype Entry = Entry(name: string, details: string)

  datatype Grant = Grant(role: string, permissions: seq<string>)

  /** What a revision declares; only the first one seeds roles. */
  datatype Seed = Seed(roles: seq<Entry>, permissions: seq<Entry>, grants: seq<Grant>)

  datatype Rbac = Rbac(
    roles: map<nat, Entry>, nextRole: nat,
    permissions: map<nat, Entry>, nextPermission: nat,
    links: set<(nat, nat)>)

  /** A unique key was met twice: the revision is rolled back. */
  datatype SeedError = UniqueViolated

  // ----- Specification

  function Names(table: map<nat, Entry>): set<string> {
    set i | i in table :: table[i].name
  }

  function IdsOf(table: map<nat, Entry>, names: set<string>): set<nat> {
    set i | i in table && table[i].name in names
  }

  function NamesOf(rows: seq<Entry>): set<string> {
    set k | 0 <= k < |rows| :: rows[k].name
  }

  /** `{row.name: row.id}` looked up; names are unique, so at most one id is there. */
  function IdOf(table: map<nat, Entry>, name: string): Option<nat> {
    var ids := IdsOf(table, {name});
    if ids == {} then None else Some(LeastOf(ids))
  }

  function Missing(present: set<string>, rows: seq<Entry>): seq<Entry> {
    if rows == [] then []
    else Missing(present, rows[..|rows| - 1])
         + (if rows[|rows| - 1].name in present then [] else [rows[|rows| - 1]])
  }

  /** `bulk_insert`: the rows get the next ids of the sequence. */
  function InsertRows(table: map<nat, Entry>, next: nat, rows: seq<Entry>): map<nat, Entry> {
    if rows == [] then table
    else InsertRows(table, next, rows[..|rows| - 1])[next + |rows| - 1 := rows[|rows| - 1]]
  }

  function PairsOf(roleId: nat, permissions: map<nat, Entry>, names: seq<string>): seq<(nat, nat)> {
    if names == [] then []
    else
      var id := IdOf(permissions, names[|names| - 1]);
      PairsOf(roleId, permissions, names[..|names| - 1]) + (if id.Some? then [(roleId, id.value)] else [])
  }

  function Assignments(roles: map<nat, Entry>, permissions: map<nat, Entry>, grants: seq<Grant>): seq<(nat, nat)> {
    if grants == [] then []
    else
      var last := grants[|grants| - 1];
      var id := IdOf(roles, last.role);
      Assignments(roles, permissions, grants[..|grants| - 1])
      + (if id.Some? then PairsOf(id.value, permissions, last.permissions) else [])
  }

  function ToSet(pairs: seq<(nat, nat)>): set<(nat, nat)> {
    set k | 0 <= k < |pairs| :: pairs[k]
  }

  /** `to_assign`: the pairs that are not linked yet, in order and with their repeats. */
  function NewLinks(links: set<(nat, nat)>, pairs: seq<(nat, nat)>): seq<(nat, nat)> {
    if pairs == [] then []
    else NewLinks(links, pairs[..|pairs| - 1])
         + (if pairs[|pairs| - 1] in links then [] else [pairs[|pairs| - 1]])
  }

  /** The unique index on `roles.name` and `permissions.name`, over one bulk insert. */
  predicate NoRepeats(rows: seq<Entry>) {
    forall j, k :: 0 <= j < k < |rows| ==> rows[j].name != rows[k].name
  }

  /** The primary key (role_id, permission_id) of `role_permissions`, over one bulk insert. */
  predicate DistinctPairs(pairs: seq<(nat, nat)>) {
    forall j, k :: 0 <= j < k < |pairs| ==> pairs[j] != pairs[k]
  }

  /** A bulk insert of a name or of a link that occurs twice aborts the revision. */
  function Upgrade(db: Rbac, seed: Seed): Result<Rbac, SeedError> {
    var newRoles := Missing(Names(db.roles), seed.roles);
    var newPermissions := Missing(Names(db.permissions), seed.permissions);
    var roles := InsertRows(db.roles, db.nextRole, newRoles);
    var permissions := InsertRows(db.permissions, db.nextPermission, newPermissions);
    var toAssign := NewLinks(db.links, Assignments(roles, permissions, seed.grants));
    if !NoRepeats(newRoles) || !NoRepeats(newPermissions) || !DistinctPairs(toAssign) then Failure(UniqueViolated)
    else
      Success(Rbac(roles, db.nextRole + |newRoles|, permissions, db.nextPermission + |newPermissions|,
                   db.links + ToSet(toAssign)))
  }

  function Downgrade(db: Rbac, seed: Seed): Rbac {
    var permissionIds := IdsOf(db.permissions, NamesOf(seed.permissions));
    var roleIds := IdsOf(db.roles, NamesOf(seed.roles));
    db.(links := (set l | l in db.links && l.1 !in permissionIds && l.0 !in roleIds),
        permissions := db.permissions - permissionIds,
        roles := db.roles - roleIds)
  }

  // ----- The revisions

  class RbacDatabase {
    var roles: map<nat, Entry>
    var nextRole: nat
    var permissions: map<nat, Entry>
    var nextPermission: nat
    var rolePermissions: set<(nat, nat)>

    function View(): Rbac
      reads this
    {
      Rbac(roles, nextRole, permissions, nextPermission, rolePermissions)
    }

    static method SelectMissing(present: set<string>, rows: seq<Entry>) returns (missing: seq<Entry>)
      ensures missing == Missing(present, rows)
    {
      missing := [];
      for k := 0 to |rows|
        invariant missing == Missing(present, rows[..k])
      {
        assert rows[..k + 1][..k] == rows[..k];
        if rows[k].name !in present {
          missing := missing + [rows[k]];
        }
      }
      assert rows[..|rows|] == rows;
    }

    /** The nested `_add` calls over the grants. */
    method BuildAssignments(grants: seq<Grant>) returns (assignments: seq<(nat, nat)>)
      ensures assignments == Assignments(roles, permissions, grants)
    {
      assignments := [];
      for g := 0 to |grants|
        invariant assignments == Assignments(roles, permissions, grants[..g])
      {
        assert grants[..g + 1][..g] == grants[..g];
        var roleId := IdOf(roles, grants[g].role);
        if roleId.Some? {
          ghost var before := assignments;
          var names := grants[g].permissions;
          for k := 0 to |names|
            invariant assignments == before + PairsOf(roleId.value, permissions, names[..k])
          {
            assert names[..k + 1][..k] == names[..k];
            var id := IdOf(permissions, names[k]);
            if id.Some? {
              assignments := assignments + [(roleId.value, id.value)];
            }
          }
          assert names[..|names|] == names;
        }
      }
      assert grants[..|grants|] == grants;
    }

    /** False, with every table as it was, when a bulk insert meets a key twice. */
    method UpgradeSeed(seed: Seed) returns (ok: bool)
      modifies this
      ensures match Upgrade(old(View()), seed)
        case Failure(_) =>
          && !ok && roles == old(roles) && permissions == old(permissions)
          && rolePermissions == old(rolePermissions)
        case Success(u) => ok && View() == u
    {
      hide Missing, Names, InsertRows, Assignments, NewLinks, NoRepeats, DistinctPairs;
      var savedRoles, savedPermissions := roles, permissions;
      var newRoles := SelectMissing(Names(roles), seed.roles);
      if !NoRepeats(newRoles) {
        return false;
      }
      roles, nextRole := InsertRows(roles, nextRole, newRoles), nextRole + |newRoles|;
      var newPermissions := SelectMissing(Names(permissions), seed.permissions);
      if !NoRepeats(newPermissions) {
        roles := savedRoles;
        return false;
      }
      permissions := InsertRows(permissions, nextPermission, newPermissions);
      nextPermission := nextPermission + |newPermissions|;
      var assignments := BuildAssignments(seed.grants);
      var toAssign := NewLinks(rolePermissions, assignments);
      if !DistinctPairs(toAssign) {
        roles, permissions := savedRoles, savedPermissions;
        return false;
      }
      rolePermissions := rolePermissions + ToSet(toAssign);
      ok := true;
    }

    method DowngradeSeed(seed: Seed)
      modifies this
      ensures View() == Downgrade(old(View()), seed)
    {
      var permissionIds := IdsOf(permissions, NamesOf(seed.permissions));
      rolePermissions := set l | l in rolePermissions && l.1 !in permissionIds;
      permissions := permissions - permissionIds;
      var roleIds := IdsOf(roles, NamesOf(seed.roles));
      rolePermissions := set l | l in rolePermissions && l.0 !in roleIds;
      roles := roles - roleIds;
    }
  }

  // ----- Tables with unique names

  ghost predicate UniqueNames(table: map<nat, Entry>) {
    forall i, j :: i in table && j in table && i != j ==> table[i].name != table[j].name
  }

  ghost predicate Valid(db: Rbac) {
    && UniqueNames(db.roles) && UniqueNames(db.permissions)
    && (forall i :: i in db.roles ==> i < db.nextRole)
    && (forall i :: i in db.permissions ==> i < db.nextPermission)
    && (forall l :: l in db.links ==> l.0 in db.roles && l.1 in db.permissions)
  }

  lemma {:induction false} MissingSpec(present: set<string>, rows: seq<Entry>)
    ensures NamesOf(Missing(present, rows)) == NamesOf(rows) - present
    ensures forall k :: 0 <= k < |Missing(present, rows)| ==> Missing(present, rows)[k] in rows
  {
    if rows != [] {
      var n := |rows| - 1;
      var init, last := rows[..n], rows[n];
      MissingSpec(present, init);
      assert rows == init + [last];
      NamesOfAppend(init, last);
      var before := Missing(present, init);
      if last.name in present {
        assert before + [] == before;
      } else {
        NamesOfAppend(before, last);
      }
    }
  }

  /** No name is declared twice unless the table has it already. */
  ghost predicate NewOnce(present: set<string>, rows: seq<Entry>) {
    forall j, k :: 0 <= j < k < |rows| && rows[j].name == rows[k].name ==> rows[j].name in present
  }

  lemma {:induction false} MissingDistinct(present: set<string>, rows: seq<Entry>)
    ensures NoRepeats(Missing(present, rows)) <==> NewOnce(present, rows)
  {
    if rows != [] {
      var n := |rows| - 1;
      MissingDistinct(present, rows[..n]);
      MissingSpec(present, rows[..n]);
      AppendDistinct(Missing(present, rows[..n]), rows[n]);
      NewOnceStep(present, rows);
      assert Missing(present, rows[..n]) + [] == Missing(present, rows[..n]);
    }
  }

  lemma AppendDistinct(rows: seq<Entry>, last: Entry)
    ensures NoRepeats(rows + [last]) <==> NoRepeats(rows) && last.name !in NamesOf(rows)
  {
    var all := rows + [last];
    assert forall k :: 0 <= k < |rows| ==> all[k] == rows[k];
    assert all[|rows|] == last;
  }

  lemma NewOnceStep(present: set<string>, rows: seq<Entry>)
    requires rows != []
    ensures var n := |rows| - 1;
      NewOnce(present, rows) <==>
        NewOnce(present, rows[..n]) && (rows[n].name in NamesOf(rows[..n]) ==> rows[n].name in present)
  {
    var n := |rows| - 1;
    assert forall k :: 0 <= k < n ==> rows[..n][k] == rows[k];
  }

  lemma NamesOfAppend(rows: seq<Entry>, last: Entry)
    ensures NamesOf(rows + [last]) == NamesOf(rows) + {last.name}
  {
    var all := rows + [last];
    forall n | n in NamesOf(rows) ensures n in NamesOf(all) {
      var k :| 0 <= k < |rows| && rows[k].name == n;
      assert all[k].name == n;
    }
    assert all[|rows|].name == last.name;
    forall n | n in NamesOf(all) ensures n in NamesOf(rows) || n == last.name {
      var k :| 0 <= k < |all| && all[k].name == n;
      if k < |rows| { assert rows[k].name == n; }
    }
  }

  lemma {:induction false} InsertRowsSpec(table: map<nat, Entry>, next: nat, rows: seq<Entry>)
    requires forall i :: i in table ==> i < next
    ensures var after := InsertRows(table, next, rows);
      && (forall i :: i in after <==> i in table || next <= i < next + |rows|)
      && (forall i :: i in table ==> after[i] == table[i])
      && (forall k :: 0 <= k < |rows| ==> after[next + k] == rows[k])
  {
    if rows != [] {
      InsertRowsSpec(table, next, rows[..|rows| - 1]);
    }
  }

  /** Inserting the missing rows: old rows untouched, exactly the required names added, no name
      ever twice. */
  lemma {:induction false} InsertMissing(table: map<nat, Entry>, next: nat, rows: seq<Entry>)
    requires UniqueNames(table) && NoRepeats(Missing(Names(table), rows)) && forall i :: i in table ==> i < next
    ensures var missing := Missing(Names(table), rows);
      var after := InsertRows(table, next, missing);
      && UniqueNames(after)
      && Names(after) == Names(table) + NamesOf(rows)
      && (forall i :: i in table ==> i in after && after[i] == table[i])
      && (forall i :: i in after && i !in table ==>
          next <= i < next + |missing| && after[i] in rows && after[i].name !in Names(table))
  {
    MissingSpec(Names(table), rows);
    InsertNew(table, next, Missing(Names(table), rows));
  }

  lemma {:induction false} InsertNew(table: map<nat, Entry>, next: nat, rows: seq<Entry>)
    requires UniqueNames(table) && NoRepeats(rows) && forall i :: i in table ==> i < next
    requires Names(table) !! NamesOf(rows)
    ensures var after := InsertRows(table, next, rows);
      && UniqueNames(after)
      && Names(after) == Names(table) + NamesOf(rows)
      && (forall i :: i in table ==> i in after && after[i] == table[i])
      && (forall i :: i in after && i !in table ==>
          next <= i < next + |rows| && after[i] in rows && after[i].name !in Names(table))
  {
    hide InsertRows;
    InsertRowsSpec(table, next, rows);
    var after := InsertRows(table, next, rows);
    forall k | 0 <= k < |rows| ensures rows[k].name !in Names(table) && rows[k].name in Names(after) {
      assert rows[k].name in NamesOf(rows);
      assert after[next + k].name == rows[k].name;
    }
    forall i | i in after && i !in table ensures after[i] == rows[i - next] {
      assert after[next + (i - next)] == rows[i - next];
    }
    forall i | i in table ensures table[i].name in Names(table) && table[i].name in Names(after) {
      assert after[i].name == table[i].name;
    }
    assert Names(after) == Names(table) + NamesOf(rows);
  }

  // ----- What the grants ask for

  /** The (role, permission) names the grants write down, in order. */
  function Wants(grants: seq<Grant>): seq<(string, string)> {
    if grants == [] then []
    else Wants(grants[..|grants| - 1]) + WantsOf(grants[|grants| - 1].role, grants[|grants| - 1].permissions)
  }

  function WantsOf(role: string, names: seq<string>): seq<(string, string)> {
    seq(|names|, k requires 0 <= k < |names| => (role, names[k]))
  }

  function PairOf(roles: map<nat, Entry>, permissions: map<nat, Entry>, want: (string, string)): Option<(nat, nat)> {
    var r, p := IdOf(roles, want.0), IdOf(permissions, want.1);
    if r.Some? && p.Some? then Some((r.value, p.value)) else None
  }

  function Resolve(roles: map<nat, Entry>, permissions: map<nat, Entry>, wants: seq<(string, string)>)
    : seq<(nat, nat)>
  {
    if wants == [] then []
    else
      var pair := PairOf(roles, permissions, wants[|wants| - 1]);
      Resolve(roles, permissions, wants[..|wants| - 1]) + (if pair.Some? then [pair.value] else [])
  }

  lemma {:induction false} ResolveAppend(roles: map<nat, Entry>, permissions: map<nat, Entry>,
                                         a: seq<(string, string)>, b: seq<(string, string)>)
    ensures Resolve(roles, permissions, a + b) == Resolve(roles, permissions, a) + Resolve(roles, permissions, b)
  {
    if b == [] {
      assert a + b == a;
    } else {
      assert (a + b)[..|a + b| - 1] == a + b[..|b| - 1];
      ResolveAppend(roles, permissions, a, b[..|b| - 1]);
    }
  }

  lemma {:induction false} PairsResolve(roles: map<nat, Entry>, permissions: map<nat, Entry>, role: string,
                                        names: seq<string>)
    ensures Resolve(roles, permissions, WantsOf(role, names)) ==
      if IdOf(roles, role).Some? then PairsOf(IdOf(roles, role).value, permissions, names) else []
  {
    if names != [] {
      var n := |names| - 1;
      assert WantsOf(role, names)[..n] == WantsOf(role, names[..n]);
      PairsResolve(roles, permissions, role, names[..n]);
    }
  }

  /** The nested loops resolve the wanted pairs one by one. */
  lemma {:induction false} AssignmentsResolve(roles: map<nat, Entry>, permissions: map<nat, Entry>, grants: seq<Grant>)
    ensures Assignments(roles, permissions, grants) == Resolve(roles, permissions, Wants(grants))
  {
    if grants != [] {
      var init, last := grants[..|grants| - 1], grants[|grants| - 1];
      AssignmentsResolve(roles, permissions, init);
      PairsResolve(roles, permissions, last.role, last.permissions);
      ResolveAppend(roles, permissions, Wants(init), WantsOf(last.role, last.permissions));
    }
  }

  /** Some grant names the role and the permission that these ids bear. */
  ghost predicate Granted(roles: map<nat, Entry>, permissions: map<nat, Entry>, grants: seq<Grant>, l: (nat, nat)) {
    Resolves(roles, permissions, Wants(grants), l)
  }

  ghost predicate Resolves(roles: map<nat, Entry>, permissions: map<nat, Entry>, wants: seq<(string, string)>,
                           l: (nat, nat))
  {
    exists a :: 0 <= a < |wants| && PairOf(roles, permissions, wants[a]) == Some(l)
  }

  lemma ToSetAppend(pairs: seq<(nat, nat)>, last: (nat, nat))
    ensures ToSet(pairs + [last]) == ToSet(pairs) + {last}
  {
    var all := pairs + [last];
    assert all[|pairs|] == last;
    forall x | x in ToSet(pairs) ensures x in ToSet(all) {
      var k :| 0 <= k < |pairs| && pairs[k] == x;
      assert all[k] == x;
    }
  }

  lemma {:induction false} ResolveFound(roles: map<nat, Entry>, permissions: map<nat, Entry>,
                                        wants: seq<(string, string)>, l: (nat, nat))
    ensures l in ToSet(Resolve(roles, permissions, wants)) <==> Resolves(roles, permissions, wants, l)
  {
    if wants != [] {
      var n := |wants| - 1;
      var pair := PairOf(roles, permissions, wants[n]);
      var before := Resolve(roles, permissions, wants[..n]);
      ResolveFound(roles, permissions, wants[..n], l);
      assert forall a :: 0 <= a < n ==> wants[..n][a] == wants[a];
      if pair.Some? {
        ToSetAppend(before, pair.value);
      } else {
        assert before + [] == before;
      }
    }
  }

  lemma {:induction false} NewLinksSpec(links: set<(nat, nat)>, pairs: seq<(nat, nat)>)
    ensures ToSet(NewLinks(links, pairs)) == ToSet(pairs) - links
    ensures ToSet(pairs) <= links ==> NewLinks(links, pairs) == []
  {
    if pairs != [] {
      var n := |pairs| - 1;
      var before := NewLinks(links, pairs[..n]);
      NewLinksSpec(links, pairs[..n]);
      assert pairs == pairs[..n] + [pairs[n]];
      ToSetAppend(pairs[..n], pairs[n]);
      ToSetAppend(before, pairs[n]);
      assert before + [] == before;
    }
  }

  /** No wanted pair resolves to the ids of an earlier one, unless these are linked already. */
  ghost predicate PairsOnce(roles: map<nat, Entry>, permissions: map<nat, Entry>, links: set<(nat, nat)>,
                            wants: seq<(string, string)>)
  {
    forall a, b :: 0 <= a < b < |wants| ==>
      (PairOf(roles, permissions, wants[a]) == PairOf(roles, permissions, wants[b]) ==>
         PairOf(roles, permissions, wants[a]).None? || PairOf(roles, permissions, wants[a]).value in links)
  }

  lemma AppendDistinctPairs(pairs: seq<(nat, nat)>, last: (nat, nat))
    ensures DistinctPairs(pairs + [last]) <==> DistinctPairs(pairs) && last !in ToSet(pairs)
  {
    var all := pairs + [last];
    assert forall k :: 0 <= k < |pairs| ==> all[k] == pairs[k];
    assert all[|pairs|] == last;
  }

  lemma PairsOnceStep(roles: map<nat, Entry>, permissions: map<nat, Entry>, links: set<(nat, nat)>,
                      wants: seq<(string, string)>)
    requires wants != []
    ensures var n := |wants| - 1;
      var pair := PairOf(roles, permissions, wants[n]);
      PairsOnce(roles, permissions, links, wants) <==>
        && PairsOnce(roles, permissions, links, wants[..n])
        && (pair.Some? && pair.value !in links ==> !Resolves(roles, permissions, wants[..n], pair.value))
  {
    hide PairOf;
    var n := |wants| - 1;
    assert forall a :: 0 <= a < n ==> wants[..n][a] == wants[a];
  }

  lemma {:induction false} ResolveDistinct(roles: map<nat, Entry>, permissions: map<nat, Entry>, links: set<(nat, nat)>,
                                           wants: seq<(string, string)>)
    ensures DistinctPairs(NewLinks(links, Resolve(roles, permissions, wants)))
      <==> PairsOnce(roles, permissions, links, wants)
  {
    hide PairOf, Resolves;
    if wants != [] {
      var n := |wants| - 1;
      var pair := PairOf(roles, permissions, wants[n]);
      var before := Resolve(roles, permissions, wants[..n]);
      ResolveDistinct(roles, permissions, links, wants[..n]);
      PairsOnceStep(roles, permissions, links, wants);
      if pair.Some? {
        assert (before + [pair.value])[..|before|] == before;
        NewLinksSpec(links, before);
        AppendDistinctPairs(NewLinks(links, before), pair.value);
        ResolveFound(roles, permissions, wants[..n], pair.value);
        assert NewLinks(links, before) + [] == NewLinks(links, before);
      } else {
        assert before + [] == before;
      }
    }
  }

  // ----- The revisions over any database

  lemma {:induction false} LinksGranted(roles: map<nat, Entry>, permissions: map<nat, Entry>, grants: seq<Grant>)
    ensures forall l: (nat, nat) ::
      l in ToSet(Assignments(roles, permissions, grants)) <==> Granted(roles, permissions, grants, l)
  {
    AssignmentsResolve(roles, permissions, grants);
    forall l: (nat, nat)
      ensures l in ToSet(Assignments(roles, permissions, grants)) <==> Granted(roles, permissions, grants, l)
    {
      ResolveFound(roles, permissions, Wants(grants), l);
    }
  }

  /** What an upgrade adds, and that it adds nothing else: the tables grow by exactly the seeded
      names that were missing, the links by exactly the granted pairs, and no row is touched. */
  lemma {:induction false} UpgradeIsLeastSuperset(db: Rbac, seed: Seed)
    requires Valid(db) && Upgrade(db, seed).Success?
    ensures var u := Upgrade(db, seed).value;
      && Valid(u)
      && Names(u.roles) == Names(db.roles) + NamesOf(seed.roles)
      && Names(u.permissions) == Names(db.permissions) + NamesOf(seed.permissions)
      && (forall i :: i in db.roles ==> i in u.roles && u.roles[i] == db.roles[i])
      && (forall i :: i in db.permissions ==> i in u.permissions && u.permissions[i] == db.permissions[i])
      && (forall l: (nat, nat) ::
            l in u.links <==> l in db.links || Granted(u.roles, u.permissions, seed.grants, l))
  {
    hide Granted, Missing, InsertRows, NewLinks, Assignments, NoRepeats, DistinctPairs;
    InsertMissing(db.roles, db.nextRole, seed.roles);
    InsertMissing(db.permissions, db.nextPermission, seed.permissions);
    var u := Upgrade(db, seed).value;
    LinksGranted(u.roles, u.permissions, seed.grants);
    NewLinksSpec(db.links, Assignments(u.roles, u.permissions, seed.grants));
    forall l: (nat, nat) | Granted(u.roles, u.permissions, seed.grants, l)
      ensures l.0 in u.roles && l.1 in u.permissions
    {
      GrantedExists(u.roles, u.permissions, seed.grants, l);
    }
  }

  lemma GrantedExists(roles: map<nat, Entry>, permissions: map<nat, Entry>, grants: seq<Grant>, l: (nat, nat))
    requires Granted(roles, permissions, grants, l)
    ensures l.0 in roles && l.1 in permissions
  {
  }

  // ----- When a seed revision goes through

  /** The database links the role and the permission of these names. */
  ghost predicate Linked(db: Rbac, want: (string, string)) {
    exists l :: l in db.links && l.0 in db.roles && l.1 in db.permissions
      && db.roles[l.0].name == want.0 && db.permissions[l.1].name == want.1
  }

  /** No pair of names that will both exist is granted twice, unless it is linked already. */
  ghost predicate GrantedOnce(db: Rbac, seed: Seed) {
    forall a, b :: 0 <= a < b < |Wants(seed.grants)| && Wants(seed.grants)[a] == Wants(seed.grants)[b]
      && Wants(seed.grants)[a].0 in Names(db.roles) + NamesOf(seed.roles)
      && Wants(seed.grants)[a].1 in Names(db.permissions) + NamesOf(seed.permissions)
      ==> Linked(db, Wants(seed.grants)[a])
  }

  lemma IdByName(table: map<nat, Entry>, name: string)
    requires UniqueNames(table)
    ensures IdOf(table, name).Some? <==> name in Names(table)
    ensures IdOf(table, name).Some? ==> IdOf(table, name).value in table && table[IdOf(table, name).value].name == name
    ensures forall i :: i in table && table[i].name == name ==> IdOf(table, name) == Some(i)
  {
    assert forall i :: i in table && table[i].name == name ==> i in IdsOf(table, {name});
  }

  lemma {:induction false} PairByName(roles: map<nat, Entry>, permissions: map<nat, Entry>,
                                      w: (string, string), v: (string, string))
    requires UniqueNames(roles) && UniqueNames(permissions)
    ensures PairOf(roles, permissions, w).Some? <==> w.0 in Names(roles) && w.1 in Names(permissions)
    ensures PairOf(roles, permissions, w).Some? ==>
      (PairOf(roles, permissions, w) == PairOf(roles, permissions, v) <==> w == v)
  {
    hide IdOf, Names;
    IdByName(roles, w.0);
    IdByName(roles, v.0);
    IdByName(permissions, w.1);
    IdByName(permissions, v.1);
  }

  /** Tables that extend those of the database: a resolved pair is linked exactly when its names are. */
  lemma {:induction false} LinkedByName(db: Rbac, roles: map<nat, Entry>, permissions: map<nat, Entry>,
                                        w: (string, string))
    requires Valid(db) && UniqueNames(roles) && UniqueNames(permissions)
    requires forall i :: i in db.roles ==> i in roles && roles[i] == db.roles[i]
    requires forall i :: i in db.permissions ==> i in permissions && permissions[i] == db.permissions[i]
    requires PairOf(roles, permissions, w).Some?
    ensures PairOf(roles, permissions, w).value in db.links <==> Linked(db, w)
  {
    hide IdOf, Names;
    IdByName(roles, w.0);
    IdByName(permissions, w.1);
  }

  lemma {:induction false} PairsOnceByName(db: Rbac, seed: Seed, roles: map<nat, Entry>, permissions: map<nat, Entry>)
    requires Valid(db) && UniqueNames(roles) && UniqueNames(permissions)
    requires forall i :: i in db.roles ==> i in roles && roles[i] == db.roles[i]
    requires forall i :: i in db.permissions ==> i in permissions && permissions[i] == db.permissions[i]
    requires Names(roles) == Names(db.roles) + NamesOf(seed.roles)
    requires Names(permissions) == Names(db.permissions) + NamesOf(seed.permissions)
    ensures PairsOnce(roles, permissions, db.links, Wants(seed.grants)) <==> GrantedOnce(db, seed)
  {
    hide PairOf, Linked, Names, NamesOf, Wants;
    var wants := Wants(seed.grants);
    forall a, b | 0 <= a < b < |wants|
      ensures PairOf(roles, permissions, wants[a]).Some?
        <==> wants[a].0 in Names(roles) && wants[a].1 in Names(permissions)
      ensures PairOf(roles, permissions, wants[a]).Some? ==>
        && (PairOf(roles, permissions, wants[a]) == PairOf(roles, permissions, wants[b]) <==> wants[a] == wants[b])
        && (PairOf(roles, permissions, wants[a]).value in db.links <==> Linked(db, wants[a]))
    {
      PairByName(roles, permissions, wants[a], wants[b]);
      if PairOf(roles, permissions, wants[a]).Some? {
        LinkedByName(db, roles, permissions, wants[a]);
      }
    }
  }

  /** Some grant lists the permission of this link under the role of this link. */
  ghost predicate Lists(db: Rbac, grants: seq<Grant>, l: (nat, nat)) {
    l.0 in db.roles && l.1 in db.permissions && ListsNames(grants, db.roles[l.0].name, db.permissions[l.1].name)
  }

  ghost predicate ListsNames(grants: seq<Grant>, role: string, permission: string) {
    exists g, k :: 0 <= g < |grants| && 0 <= k < |grants[g].permissions|
      && grants[g].role == role && grants[g].permissions[k] == permission
  }

  lemma {:induction false} WantsExactly(grants: seq<Grant>, w: (string, string))
    ensures w in Wants(grants) <==> ListsNames(grants, w.0, w.1)
  {
    if grants != [] {
      var n := |grants| - 1;
      var last := grants[n];
      WantsExactly(grants[..n], w);
      assert forall g :: 0 <= g < n ==> grants[..n][g] == grants[g];
      var wants := WantsOf(last.role, last.permissions);
      assert Wants(grants) == Wants(grants[..n]) + wants;
      if w in wants {
        var k :| 0 <= k < |wants| && wants[k] == w;
        assert last.permissions[k] == w.1;
      }
      if k :| 0 <= k < |last.permissions| && last.role == w.0 && last.permissions[k] == w.1 {
        assert wants[k] == w;
      }
    }
  }

  lemma {:induction false} GrantedLists(db: Rbac, grants: seq<Grant>, l: (nat, nat))
    requires Valid(db)
    ensures Granted(db.roles, db.permissions, grants, l) <==> Lists(db, grants, l)
  {
    hide ListsNames, Wants, IdOf, Names;
    var wants := Wants(grants);
    forall w: (string, string)
      ensures (PairOf(db.roles, db.permissions, w) == Some(l) <==>
                 l.0 in db.roles && l.1 in db.permissions && db.roles[l.0].name == w.0
                     && db.permissions[l.1].name == w.1)
      ensures w in wants <==> ListsNames(grants, w.0, w.1)
    {
      IdByName(db.roles, w.0);
      IdByName(db.permissions, w.1);
      WantsExactly(grants, w);
    }
    assert forall a :: 0 <= a < |wants| ==> wants[a] in wants;
    if Lists(db, grants, l) {
      var w := (db.roles[l.0].name, db.permissions[l.1].name);
      assert w in wants;
      var a :| 0 <= a < |wants| && wants[a] == w;
      assert PairOf(db.roles, db.permissions, wants[a]) == Some(l);
    }
  }

  /** The table after an upgrade: the old rows as they were, and one declared row for every name
      that was missing, with an id that was free. */
  ghost predicate GrownTable(before: map<nat, Entry>, next: nat, after: map<nat, Entry>, rows: seq<Entry>) {
    && (forall i :: i in before ==> i in after && after[i] == before[i])
    && (forall i :: i in after && i !in before ==>
          && next <= i && after[i] in rows && forall j :: j in after && j != i ==> after[j].name != after[i].name)
    && (forall k :: 0 <= k < |rows| ==> HasName(after, rows[k].name))
  }

  ghost predicate HasName(table: map<nat, Entry>, name: string) {
    exists i :: i in table && table[i].name == name
  }

  /** What an upgrade leaves, in rows: both tables grown by what is declared, and linked are the
      pairs that were and those that some grant lists. */
  lemma {:induction false} UpgradeExactly(db: Rbac, seed: Seed)
    requires Valid(db) && Upgrade(db, seed).Success?
    ensures var u := Upgrade(db, seed).value;
      && GrownTable(db.roles, db.nextRole, u.roles, seed.roles)
      && GrownTable(db.permissions, db.nextPermission, u.permissions, seed.permissions)
      && (forall l: (nat, nat) :: l in u.links <==> l in db.links || Lists(u, seed.grants, l))
  {
    hide Granted, Lists, GrownTable, Missing, InsertRows, NewLinks, Assignments, NoRepeats, DistinctPairs;
    UpgradeIsLeastSuperset(db, seed);
    var u := Upgrade(db, seed).value;
    InsertMissing(db.roles, db.nextRole, seed.roles);
    InsertMissing(db.permissions, db.nextPermission, seed.permissions);
    TableGrown(db.roles, db.nextRole, u.roles, seed.roles);
    TableGrown(db.permissions, db.nextPermission, u.permissions, seed.permissions);
    forall l: (nat, nat) ensures l in u.links <==> l in db.links || Lists(u, seed.grants, l) {
      GrantedLists(u, seed.grants, l);
    }
  }

  lemma TableGrown(before: map<nat, Entry>, next: nat, after: map<nat, Entry>, rows: seq<Entry>)
    requires UniqueNames(after) && Names(after) == Names(before) + NamesOf(rows)
    requires forall i :: i in before ==> i in after && after[i] == before[i]
    requires forall i :: i in after && i !in before ==> next <= i && after[i] in rows
    ensures GrownTable(before, next, after, rows)
  {
    forall k | 0 <= k < |rows| ensures HasName(after, rows[k].name) {
      assert rows[k].name in NamesOf(rows);
      var i :| i in after && after[i].name == rows[k].name;
    }
  }

  /** A name that the revision declares. */
  ghost predicate Declared(rows: seq<Entry>, name: string) {
    exists k :: 0 <= k < |rows| && rows[k].name == name
  }

  /** What a downgrade leaves, from any database: the rows whose name is not declared, and the
      links between two of them. */
  lemma {:induction false} DowngradeExactly(db: Rbac, seed: Seed)
    requires Valid(db)
    ensures var d := Downgrade(db, seed);
      && (forall i :: i in d.roles <==> i in db.roles && !Declared(seed.roles, db.roles[i].name))
      && (forall i :: i in d.roles ==> d.roles[i] == db.roles[i])
      && (forall i :: i in d.permissions <==>
            i in db.permissions && !Declared(seed.permissions, db.permissions[i].name))
      && (forall i :: i in d.permissions ==> d.permissions[i] == db.permissions[i])
      && (forall l :: l in d.links <==> l in db.links && l.0 in d.roles && l.1 in d.permissions)
      && Valid(d)
  {
    hide UniqueNames;
    DeclaredNames(seed.roles);
    DeclaredNames(seed.permissions);
    assert UniqueNames(Downgrade(db, seed).roles) && UniqueNames(Downgrade(db, seed).permissions) by {
      FewerUnique(db.roles, IdsOf(db.roles, NamesOf(seed.roles)));
      FewerUnique(db.permissions, IdsOf(db.permissions, NamesOf(seed.permissions)));
    }
  }

  lemma FewerUnique(table: map<nat, Entry>, ids: set<nat>)
    requires UniqueNames(table)
    ensures UniqueNames(table - ids)
  {
  }

  lemma DeclaredNames(rows: seq<Entry>)
    ensures forall name :: name in NamesOf(rows) <==> Declared(rows, name)
  {
    forall name ensures name in NamesOf(rows) <==> Declared(rows, name) {
    }
  }

  /** A seed revision goes through exactly when it declares no missing name twice and grants no
      pair of known names twice that is not linked already. */
  lemma {:induction false} UpgradeAccepted(db: Rbac, seed: Seed)
    requires Valid(db)
    ensures Upgrade(db, seed).Success? <==>
      && NewOnce(Names(db.roles), seed.roles)
      && NewOnce(Names(db.permissions), seed.permissions)
      && GrantedOnce(db, seed)
  {
    hide PairsOnce, GrantedOnce, NewOnce, Assignments, NoRepeats, DistinctPairs, InsertRows;
    MissingDistinct(Names(db.roles), seed.roles);
    MissingDistinct(Names(db.permissions), seed.permissions);
    if NewOnce(Names(db.roles), seed.roles) && NewOnce(Names(db.permissions), seed.permissions) {
      InsertMissing(db.roles, db.nextRole, seed.roles);
      InsertMissing(db.permissions, db.nextPermission, seed.permissions);
      var roles := InsertRows(db.roles, db.nextRole, Missing(Names(db.roles), seed.roles));
      var permissions := InsertRows(db.permissions, db.nextPermission,
                                    Missing(Names(db.permissions), seed.permissions));
      AssignmentsResolve(roles, permissions, seed.grants);
      ResolveDistinct(roles, permissions, db.links, Wants(seed.grants));
      PairsOnceByName(db, seed, roles, permissions);
    }
  }

  /** One permission written twice in the list of a role that exists: the second link violates the
      primary key. */
  lemma RepeatedGrantAborts(role: Entry, permission: Entry)
    ensures var db := Rbac(map[0 := role], 1, map[], 0, {});
      var seed := Seed([], [permission], [Grant(role.name, [permission.name, permission.name])]);
      Valid(db) && Upgrade(db, seed).Failure?
  {
    var db := Rbac(map[0 := role], 1, map[], 0, {});
    var seed := Seed([], [permission], [Grant(role.name, [permission.name, permission.name])]);
    var wants := Wants(seed.grants);
    assert Wants(seed.grants[..0]) == [];
    assert wants == WantsOf(role.name, [permission.name, permission.name]);
    assert wants[0] == wants[1] == (role.name, permission.name);
    assert db.roles[0].name in Names(db.roles) && seed.permissions[0].name in NamesOf(seed.permissions);
    UpgradeAccepted(db, seed);
  }

  lemma {:induction false} NothingMissing(present: set<string>, rows: seq<Entry>)
    requires NamesOf(rows) <= present
    ensures Missing(present, rows) == []
  {
    if rows != [] {
      var n := |rows| - 1;
      assert rows == rows[..n] + [rows[n]];
      NamesOfAppend(rows[..n], rows[n]);
      NothingMissing(present, rows[..n]);
    }
  }

  /** Seeding twice is seeding once. */
  lemma {:induction false} UpgradeTwice(db: Rbac, seed: Seed)
    requires Valid(db) && Upgrade(db, seed).Success?
    ensures Upgrade(Upgrade(db, seed).value, seed) == Upgrade(db, seed)
  {
    hide Granted;
    var u := Upgrade(db, seed).value;
    UpgradeIsLeastSuperset(db, seed);
    NothingMissing(Names(u.roles), seed.roles);
    NothingMissing(Names(u.permissions), seed.permissions);
    LinksGranted(u.roles, u.permissions, seed.grants);
    UpgradeNothing(u, seed);
  }

  lemma {:induction false} UpgradeNothing(db: Rbac, seed: Seed)
    requires Missing(Names(db.roles), seed.roles) == [] && Missing(Names(db.permissions), seed.permissions) == []
    requires ToSet(Assignments(db.roles, db.permissions, seed.grants)) <= db.links
    ensures Upgrade(db, seed) == Success(db)
  {
    assert InsertRows(db.roles, db.nextRole, []) == db.roles;
    assert InsertRows(db.permissions, db.nextPermission, []) == db.permissions;
    NewLinksSpec(db.links, Assignments(db.roles, db.permissions, seed.grants));
    var none: seq<(nat, nat)> := [];
    assert DistinctPairs(none) && db.links + ToSet(none) == db.links;
  }

  ghost predicate SameTables(a: Rbac, b: Rbac) {
    a.roles == b.roles && a.permissions == b.permissions && a.links == b.links
  }

  lemma {:induction false} AddedRows(table: map<nat, Entry>, next: nat, rows: seq<Entry>)
    requires UniqueNames(table) && NoRepeats(Missing(Names(table), rows)) && forall i :: i in table ==> i < next
    requires Names(table) !! NamesOf(rows)
    ensures var after := InsertRows(table, next, Missing(Names(table), rows));
      after - IdsOf(after, NamesOf(rows)) == table && IdsOf(after, NamesOf(rows)) == after.Keys - table.Keys
  {
    InsertMissing(table, next, rows);
    var after := InsertRows(table, next, Missing(Names(table), rows));
    var added := IdsOf(after, NamesOf(rows));
    forall i | i in after ensures i in added <==> i !in table {
      if i in table {
        assert table[i].name in Names(table);
      } else {
        var k :| 0 <= k < |rows| && rows[k] == after[i];
        assert rows[k].name in NamesOf(rows);
      }
    }
    assert (after - added).Keys == table.Keys;
    assert after - added == table;
  }

  /** Every pair granted to names that were both there before was linked before. */
  ghost predicate NoLateLink(db: Rbac, seed: Seed) {
    forall a :: 0 <= a < |Wants(seed.grants)| ==>
      (Wants(seed.grants)[a].0 in Names(db.roles) && Wants(seed.grants)[a].1 in Names(db.permissions) ==>
         Linked(db, Wants(seed.grants)[a]))
  }

  /** Of the granted links, those between old rows survive a downgrade that deletes the new rows:
      the old links come back exactly when each of them was one before. */
  lemma {:induction false} LinksRestored(db: Rbac, u: Rbac, seed: Seed)
    requires Valid(db) && UniqueNames(u.roles) && UniqueNames(u.permissions)
    requires forall i :: i in db.roles ==> i in u.roles && u.roles[i] == db.roles[i]
    requires forall i :: i in db.permissions ==> i in u.permissions && u.permissions[i] == db.permissions[i]
    requires forall l: (nat, nat) :: l in u.links <==> l in db.links || Granted(u.roles, u.permissions, seed.grants, l)
    ensures (set l | l in u.links && l.1 in db.permissions && l.0 in db.roles) == db.links <==> NoLateLink(db, seed)
  {
    hide Linked, PairOf, Wants, UniqueNames, Names;
    var wants := Wants(seed.grants);
    var kept := set l | l in u.links && l.1 in db.permissions && l.0 in db.roles;
    forall a | 0 <= a < |wants| ensures OldPair(db, u, wants[a]) {
      PairOfOld(db, u, wants[a]);
    }
    if NoLateLink(db, seed) {
      forall l | l in kept ensures l in db.links {
        if Granted(u.roles, u.permissions, seed.grants, l) {
          var a :| 0 <= a < |wants| && PairOf(u.roles, u.permissions, wants[a]) == Some(l);
          assert OldPair(db, u, wants[a]);
        }
      }
    } else {
      var a :| 0 <= a < |wants| && wants[a].0 in Names(db.roles) && wants[a].1 in Names(db.permissions)
          && !Linked(db, wants[a]);
      assert OldPair(db, u, wants[a]);
      var l := PairOf(u.roles, u.permissions, wants[a]).value;
      assert Granted(u.roles, u.permissions, seed.grants, l);
      assert l in kept && l !in db.links;
    }
  }

  /** A wanted pair resolves to old rows exactly when both names are old; it is linked exactly when
      the names are. */
  ghost predicate OldPair(db: Rbac, u: Rbac, w: (string, string)) {
    var pair := PairOf(u.roles, u.permissions, w);
    && (w.0 in Names(db.roles) && w.1 in Names(db.permissions) <==>
          pair.Some? && pair.value.0 in db.roles && pair.value.1 in db.permissions)
    && (pair.Some? ==> (pair.value in db.links <==> Linked(db, w)))
  }

  lemma {:induction false} PairOfOld(db: Rbac, u: Rbac, w: (string, string))
    requires Valid(db) && UniqueNames(u.roles) && UniqueNames(u.permissions)
    requires forall i :: i in db.roles ==> i in u.roles && u.roles[i] == db.roles[i]
    requires forall i :: i in db.permissions ==> i in u.permissions && u.permissions[i] == db.permissions[i]
    ensures OldPair(db, u, w)
  {
    hide Linked, IdOf, Valid;
    IdByName(u.roles, w.0);
    IdByName(u.permissions, w.1);
    if PairOf(u.roles, u.permissions, w).Some? {
      LinkedByName(db, u.roles, u.permissions, w);
    }
  }

  /** Upgrade then downgrade leaves roles, permissions and links as they were exactly when no
      seeded name existed before, a role or permission that was already there being deleted too,
      and every pair granted between rows that were there before was linked before. */
  lemma {:induction false} DowngradeUndoesExactly(db: Rbac, seed: Seed)
    requires Valid(db) && Upgrade(db, seed).Success?
    ensures SameTables(Downgrade(Upgrade(db, seed).value, seed), db) <==>
      && Names(db.roles) !! NamesOf(seed.roles) && Names(db.permissions) !! NamesOf(seed.permissions)
      && NoLateLink(db, seed)
  {
    hide NoLateLink, Granted;
    var u := Upgrade(db, seed).value;
    UpgradeIsLeastSuperset(db, seed);
    if Names(db.roles) !! NamesOf(seed.roles) && Names(db.permissions) !! NamesOf(seed.permissions) {
      AddedRows(db.roles, db.nextRole, seed.roles);
      AddedRows(db.permissions, db.nextPermission, seed.permissions);
      LinksRestored(db, u, seed);
      OldLinks(db, u, seed);
    } else {
      OlderRowDeleted(db, u, seed);
    }
  }

  lemma OldLinks(db: Rbac, u: Rbac, seed: Seed)
    requires Valid(u)
    requires IdsOf(u.roles, NamesOf(seed.roles)) == u.roles.Keys - db.roles.Keys
    requires IdsOf(u.permissions, NamesOf(seed.permissions)) == u.permissions.Keys - db.permissions.Keys
    ensures Downgrade(u, seed).links == set l | l in u.links && l.1 in db.permissions && l.0 in db.roles
  {
  }

  lemma OlderRowDeleted(db: Rbac, u: Rbac, seed: Seed)
    requires forall i :: i in db.roles ==> i in u.roles && u.roles[i] == db.roles[i]
    requires forall i :: i in db.permissions ==> i in u.permissions && u.permissions[i] == db.permissions[i]
    requires !(Names(db.roles) !! NamesOf(seed.roles)) || !(Names(db.permissions) !! NamesOf(seed.permissions))
    ensures !SameTables(Downgrade(u, seed), db)
  {
    if n :| n in Names(db.roles) && n in NamesOf(seed.roles) {
      var i :| i in db.roles && db.roles[i].name == n;
      assert i in IdsOf(u.roles, NamesOf(seed.roles));
    } else {
      var n :| n in Names(db.permissions) && n in NamesOf(seed.permissions);
      var i :| i in db.permissions && db.permissions[i].name == n;
      assert i in IdsOf(u.permissions, NamesOf(seed.permissions));
    }
  }

  /** A permission that an administrator had created under a seeded name: the upgrade leaves it
      alone, the downgrade deletes it. */
  lemma OlderPermissionLost(permission: Entry, seeded: Entry)
    requires permission.name == seeded.name
    ensures var db := Rbac(map[], 0, map[0 := permission], 1, {});
      var seed := Seed([], [seeded], []);
      && Valid(db) && Upgrade(db, seed) == Success(db)
      && Downgrade(db, seed).permissions == map[] != db.permissions
  {
    var db := Rbac(map[], 0, map[0 := permission], 1, {});
    var seed := Seed([], [seeded], []);
    assert db.permissions[0].name in Names(db.permissions) && seed.permissions[0].name in NamesOf(seed.permissions);
    NothingMissing(Names(db.permissions), seed.permissions);
    UpgradeNothing(db, seed);
    assert 0 in IdsOf(db.permissions, NamesOf(seed.permissions));
  }

  // ----- The chain of seed revisions

  function UpgradeAll(db: Rbac, seeds: seq<Seed>): Result<Rbac, SeedError> {
    if seeds == [] then Success(db)
    else
      match UpgradeAll(db, seeds[..|seeds| - 1])
      case Failure(e) => Failure(e)
      case Success(u) => Upgrade(u, seeds[|seeds| - 1])
  }

  /** Downgrades run newest first. */
  function DowngradeAll(db: Rbac, seeds: seq<Seed>): Rbac
    decreases |seeds|
  {
    if seeds == [] then db else DowngradeAll(Downgrade(db, seeds[|seeds| - 1]), seeds[..|seeds| - 1])
  }

  /** Grants only name permissions the same revision declares, as all three revisions do. */
  ghost predicate GrantsDeclared(seed: Seed) {
    forall a :: 0 <= a < |Wants(seed.grants)| ==> Wants(seed.grants)[a].1 in NamesOf(seed.permissions)
  }

  /** Each revision seeds names that neither the database nor an earlier revision has. */
  ghost predicate NewNames(db: Rbac, seeds: seq<Seed>) {
    && (forall k :: 0 <= k < |seeds| ==>
          && GrantsDeclared(seeds[k])
          && Names(db.roles) !! NamesOf(seeds[k].roles) && Names(db.permissions) !! NamesOf(seeds[k].permissions))
    && (forall j, k :: 0 <= j < k < |seeds| ==>
          && NamesOf(seeds[j].roles) !! NamesOf(seeds[k].roles)
          && NamesOf(seeds[j].permissions) !! NamesOf(seeds[k].permissions))
  }

  lemma {:induction false} ChainNames(db: Rbac, seeds: seq<Seed>, roles: set<string>, permissions: set<string>)
    requires Valid(db) && NewNames(db, seeds) && UpgradeAll(db, seeds).Success?
    requires Names(db.roles) !! roles && Names(db.permissions) !! permissions
    requires forall k :: 0 <= k < |seeds| ==>
      NamesOf(seeds[k].roles) !! roles && NamesOf(seeds[k].permissions) !! permissions
    ensures Valid(UpgradeAll(db, seeds).value)
    ensures Names(UpgradeAll(db, seeds).value.roles) !! roles
    ensures Names(UpgradeAll(db, seeds).value.permissions) !! permissions
  {
    hide Upgrade, Valid, Granted, GrantsDeclared;
    if seeds != [] {
      var n := |seeds| - 1;
      assert NewNames(db, seeds[..n]);
      ChainNames(db, seeds[..n], roles, permissions);
      UpgradeIsLeastSuperset(UpgradeAll(db, seeds[..n]).value, seeds[n]);
    }
  }

  lemma {:induction false} DowngradeAllSame(a: Rbac, b: Rbac, seeds: seq<Seed>)
    requires SameTables(a, b)
    ensures SameTables(DowngradeAll(a, seeds), DowngradeAll(b, seeds))
    decreases |seeds|
  {
    if seeds != [] {
      DowngradeAllSame(Downgrade(a, seeds[|seeds| - 1]), Downgrade(b, seeds[|seeds| - 1]), seeds[..|seeds| - 1]);
    }
  }

  /** The whole chain up and, newest first, down again restores the tables. */
  lemma {:induction false} ChainUndone(db: Rbac, seeds: seq<Seed>)
    requires Valid(db) && NewNames(db, seeds) && UpgradeAll(db, seeds).Success?
    ensures SameTables(DowngradeAll(UpgradeAll(db, seeds).value, seeds), db)
  {
    hide Upgrade, Downgrade, Valid;
    if seeds != [] {
      var n := |seeds| - 1;
      var init, last := seeds[..n], seeds[n];
      var u := UpgradeAll(db, init).value;
      assert NewNames(db, init) && GrantsDeclared(last);
      ChainNames(db, init, NamesOf(last.roles), NamesOf(last.permissions));
      DeclaredLeavesNone(u, last);
      DowngradeUndoesExactly(u, last);
      DowngradeAllSame(Downgrade(Upgrade(u, last).value, last), u, init);
      ChainUndone(db, init);
    }
  }

  lemma DeclaredLeavesNone(db: Rbac, seed: Seed)
    requires GrantsDeclared(seed) && Names(db.permissions) !! NamesOf(seed.permissions)
    ensures NoLateLink(db, seed)
  {
    hide Wants, Linked, Names, NamesOf;
  }
}
