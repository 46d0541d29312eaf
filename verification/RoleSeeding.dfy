/** Seeding the default roles of a tenant from the permission catalogue. */
module RoleSeeding {
  import opened Prelude
  import opened Text
  import opened PermissionKeys
  import opened Reconciliation

  /** The tenant-local role tables. */
  datatype Rbac = Rbac(
    roles: map<string, RoleId>,
    grants: set<(RoleId, string)>,
    memberRoles: set<(MembershipId, RoleId)>,
    next: RoleId)

  /** Role names are unique and so are role ids. */
  ghost predicate RolesOk(s: Rbac)
  {
    && (forall n :: n in s.roles ==> s.roles[n] < s.next)
    && (forall n, m :: n in s.roles && m in s.roles && s.roles[n] == s.roles[m] ==> n == m)
    && (forall p :: p in s.grants ==> p.0 < s.next)
  }

  const OWNER := "owner"
  const ADMIN := "admin"
  const VIEWER := "viewer"
  const OWNER_FALLBACK := "admin.*"
  const ADMIN_DENY: set<string> := {"admin.audit_logs.delete", "admin.users.delete"}

  predicate StartsWith(s: string, prefix: string)
  {
    |prefix| <= |s| && s[..|prefix|] == prefix
  }

  predicate EndsWith(s: string, suffix: string)
  {
    |suffix| <= |s| && s[|s| - |suffix|..] == suffix
  }

  /** The catalogue without the platform tier. */
  function TenantKeys(catalogue: set<string>): set<string>
  {
    set k | k in catalogue && !StartsWith(k, "platform.")
  }

  function OwnerKeys(catalogue: set<string>): set<string>
  {
    {OWNER_FALLBACK} + TenantKeys(catalogue)
  }

  function AdminKeys(catalogue: set<string>): set<string>
  {
    TenantKeys(catalogue) - ADMIN_DENY
  }

  function ViewerKeys(catalogue: set<string>): set<string>
  {
    set k | k in TenantKeys(catalogue) && EndsWith(k, ".list")
  }

  function KeysFor(name: string, catalogue: set<string>): set<string>
  {
    if name == OWNER then OwnerKeys(catalogue)
    else if name == ADMIN then AdminKeys(catalogue)
    else ViewerKeys(catalogue)
  }

  function EnsureRole(s: Rbac, name: string): Rbac
  {
    if name in s.roles then s else s.(roles := s.roles[name := s.next], next := s.next + 1)
  }

  function EnsureRoles(s: Rbac): Rbac
  {
    EnsureRole(EnsureRole(EnsureRole(s, OWNER), ADMIN), VIEWER)
  }

  function GrantAll(s: Rbac, name: string, keys: set<string>): Rbac
    requires name in s.roles
  {
    s.(grants := s.grants + Pairs(s.roles[name], keys))
  }

  function Seeded(s: Rbac, catalogue: set<string>, ownerMembership: Option<MembershipId>): Rbac
  {
    var s1 := EnsureRoles(s);
    var s2 := GrantAll(s1, OWNER, OwnerKeys(catalogue));
    var s3 := GrantAll(s2, ADMIN, AdminKeys(catalogue));
    var s4 := GrantAll(s3, VIEWER, ViewerKeys(catalogue));
    if ownerMembership.None? then s4
    else s4.(memberRoles := s4.memberRoles + {(ownerMembership.value, s4.roles[OWNER])})
  }

  /** The keys a named role holds. */
  function Held(s: Rbac, name: string): set<string>
  {
    if name in s.roles then RowOf(s.grants, s.roles[name]) else {}
  }

  ghost predicate Keeps(s: Rbac, s': Rbac)
  {
    && (forall n :: n in s.roles ==> n in s'.roles && s'.roles[n] == s.roles[n])
    && s.grants <= s'.grants && s.memberRoles <= s'.memberRoles
  }

  lemma EnsureRoleOk(s: Rbac, name: string)
    requires RolesOk(s)
    ensures RolesOk(EnsureRole(s, name)) && Keeps(s, EnsureRole(s, name)) && name in EnsureRole(s, name).roles
    ensures EnsureRole(s, name).grants == s.grants && EnsureRole(s, name).memberRoles == s.memberRoles
    ensures forall n :: n !in s.roles && n in EnsureRole(s, name).roles ==>
              n == name && EnsureRole(s, name).roles[n] == s.next
  {
  }

  lemma EnsureRolesOk(s: Rbac)
    requires RolesOk(s)
    ensures var s1 := EnsureRoles(s);
            && RolesOk(s1) && Keeps(s, s1) && s1.grants == s.grants && s1.memberRoles == s.memberRoles
            && OWNER in s1.roles && ADMIN in s1.roles && VIEWER in s1.roles
            && (forall n :: n in s1.roles && n !in s.roles ==> s.next <= s1.roles[n])
  {
    EnsureRoleOk(s, OWNER);
    EnsureRoleOk(EnsureRole(s, OWNER), ADMIN);
    EnsureRoleOk(EnsureRole(EnsureRole(s, OWNER), ADMIN), VIEWER);
  }

  /** What seeding leaves each of the three roles: all it had, and its share of the catalogue. */
  lemma SeededHolds(s: Rbac, catalogue: set<string>, m: Option<MembershipId>, name: string)
    requires RolesOk(s) && name in {OWNER, ADMIN, VIEWER}
    ensures Held(Seeded(s, catalogue, m), name) == Held(s, name) + KeysFor(name, catalogue)
  {
    var s1, s' := EnsureRoles(s), Seeded(s, catalogue, m);
    EnsureRolesOk(s);
    var role := s1.roles[name];
    assert s'.grants == s.grants + Pairs(s1.roles[OWNER], OwnerKeys(catalogue))
      + Pairs(s1.roles[ADMIN], AdminKeys(catalogue)) + Pairs(s1.roles[VIEWER], ViewerKeys(catalogue));
    assert s1.roles[OWNER] != s1.roles[ADMIN] && s1.roles[OWNER] != s1.roles[VIEWER]
        && s1.roles[ADMIN] != s1.roles[VIEWER];
    forall k ensures k in Held(s', name) <==> k in Held(s, name) + KeysFor(name, catalogue) {
      assert k in Held(s', name) <==> (role, k) in s'.grants;
      assert k in Held(s, name) <==> (role, k) in s.grants;
    }
  }

  /** Seeding only adds: no role, grant or assignment that was there is lost or moved. */
  lemma SeedingIsMonotone(s: Rbac, catalogue: set<string>, m: Option<MembershipId>)
    requires RolesOk(s)
    ensures RolesOk(Seeded(s, catalogue, m)) && Keeps(s, Seeded(s, catalogue, m))
  {
    EnsureRolesOk(s);
  }

  /** A larger catalogue seeds more. */
  lemma SeedingGrowsWithCatalogue(s: Rbac, small: set<string>, large: set<string>, m: Option<MembershipId>)
    requires RolesOk(s) && small <= large
    ensures Seeded(s, small, m).roles == Seeded(s, large, m).roles
    ensures Seeded(s, small, m).grants <= Seeded(s, large, m).grants
  {
    var a, b := Seeded(s, small, m), Seeded(s, large, m);
    assert TenantKeys(small) <= TenantKeys(large);
    assert OwnerKeys(small) <= OwnerKeys(large) && AdminKeys(small) <= AdminKeys(large)
        && ViewerKeys(small) <= ViewerKeys(large);
  }

  /** Seeding again changes nothing. */
  lemma SeedingIsIdempotent(s: Rbac, catalogue: set<string>, m: Option<MembershipId>)
    requires RolesOk(s)
    ensures Seeded(Seeded(s, catalogue, m), catalogue, m) == Seeded(s, catalogue, m)
  {
    var s' := Seeded(s, catalogue, m);
    assert EnsureRoles(s') == s';
    assert Seeded(s', catalogue, m).grants == s'.grants;
    assert Seeded(s', catalogue, m).memberRoles == s'.memberRoles;
  }

  lemma ListKeysAreNotDenied(k: string)
    requires EndsWith(k, ".list")
    ensures k !in ADMIN_DENY
  {
    assert k[|k| - 1] == ".list"[4] == 't';
  }

  /** In a fresh tenant the roles are nested: viewer within admin within owner. */
  lemma FreshRolesAreNested(s: Rbac, catalogue: set<string>, m: Option<MembershipId>)
    requires RolesOk(s) && s.roles == map[]
    ensures var s' := Seeded(s, catalogue, m);
            Held(s', VIEWER) <= Held(s', ADMIN) <= Held(s', OWNER)
  {
    SeededHolds(s, catalogue, m, OWNER);
    SeededHolds(s, catalogue, m, ADMIN);
    SeededHolds(s, catalogue, m, VIEWER);
    forall k | k in ViewerKeys(catalogue) ensures k in AdminKeys(catalogue) { ListKeysAreNotDenied(k); }
  }

  /**
   What the roles of a fresh tenant hold: the owner everything of the tenant tier and `admin.*`, the admin
   that tier without the two denied keys, the viewer just its ".list" keys.
   */
  lemma FreshRolesHold(s: Rbac, catalogue: set<string>, m: Option<MembershipId>, k: string)
    requires RolesOk(s) && s.roles == map[]
    ensures var s', tenantKey := Seeded(s, catalogue, m), k in catalogue && !("platform." <= k);
            && (k in Held(s', "owner") <==> tenantKey || k == "admin.*")
            && (k in Held(s', "admin") <==> tenantKey && k != "admin.audit_logs.delete" && k != "admin.users.delete")
            && (k in Held(s', "viewer") <==> tenantKey && |k| >= 5 && k[|k| - 5..] == ".list")
  {
    SeededHolds(s, catalogue, m, OWNER);
    SeededHolds(s, catalogue, m, ADMIN);
    SeededHolds(s, catalogue, m, VIEWER);
    assert StartsWith(k, "platform.") <==> "platform." <= k;
  }

  /** The membership that owns the tenant gets the owner role, and no other role is assigned. */
  lemma OwnerIsAssigned(s: Rbac, catalogue: set<string>, m: Option<MembershipId>)
    requires RolesOk(s)
    ensures var s' := Seeded(s, catalogue, m);
            && "owner" in s'.roles && "admin" in s'.roles && "viewer" in s'.roles
            && s'.memberRoles == s.memberRoles + if m.None? then {} else {(m.value, s'.roles["owner"])}
  {
    EnsureRolesOk(s);
  }

  lemma NamespaceFromStart(k: string)
    requires Valid(k) && Parse(k).namespace == "platform"
    ensures StartsWith(k, "platform.")
  {
    ParseRenders(k);
    var s := Parse(k).Segments();
    assert k == s[0] + ['.'] + Join(s[1..], '.');
    assert k[..9] == "platform" + ['.'];
  }

  /** No grant that seeding adds matches any key of the platform tier. */
  lemma SeedNeverReachesPlatform(s: Rbac, catalogue: set<string>, m: Option<MembershipId>, grant: (RoleId, string),
                                 required: string)
    requires forall k :: k in TenantKeys(catalogue) ==> Valid(k)
    requires grant in Seeded(s, catalogue, m).grants && grant !in s.grants
    requires Valid(required) && Parse(required).namespace == "platform"
    ensures !Matches(grant.1, required)
  {
    SeededKeysAreTenantKeys(s, catalogue, m, grant);
    FallbackIsAdmin();
    MatchesByParse(grant.1, required);
    if Parse(grant.1).namespace == "platform" {
      NamespaceFromStart(grant.1);
    }
  }

  lemma SeededKeysAreTenantKeys(s: Rbac, catalogue: set<string>, m: Option<MembershipId>, grant: (RoleId, string))
    requires grant in Seeded(s, catalogue, m).grants && grant !in s.grants
    ensures grant.1 == OWNER_FALLBACK || grant.1 in TenantKeys(catalogue)
  {
    var s1 := EnsureRoles(s);
    assert Seeded(s, catalogue, m).grants == s.grants + Pairs(s1.roles[OWNER], OwnerKeys(catalogue))
      + Pairs(s1.roles[ADMIN], AdminKeys(catalogue)) + Pairs(s1.roles[VIEWER], ViewerKeys(catalogue));
  }

  lemma FallbackIsAdmin()
    ensures Valid(OWNER_FALLBACK) && Parse(OWNER_FALLBACK) == Namespace("admin")
  {
    RenderParses(Namespace("admin"));
    assert Namespace("admin").Render() == OWNER_FALLBACK;
  }

  /** The tenant's role tables as bootstrap finds them. */
  class TenantRoles {
    var roles: map<string, RoleId>
    var links: LinkTable<RoleId, string>
    var memberRoles: set<(MembershipId, RoleId)>
    var next: RoleId

    ghost function View(): Rbac
      reads this, links
    {
      Rbac(roles, links.rows, memberRoles, next)
    }

    constructor ()
      ensures View() == Rbac(map[], {}, {}, 0) && fresh(links)
    {
      roles, memberRoles, next := map[], {}, 0;
      links := new LinkTable({});
    }

    method FindOrCreateRole(name: string)
      modifies this
      ensures View() == EnsureRole(old(View()), name) && links == old(links)
    {
      if name !in roles {
        roles := roles[name := next];
        next := next + 1;
      }
    }

    method GrantPermissions(name: string, keys: set<string>)
      requires name in roles
      modifies links
      ensures View() == GrantAll(old(View()), name, keys)
    {
      var existing := RowOf(links.rows, roles[name]);
      ghost var before := links.rows;
      links.AddAll(roles[name], keys - existing);
      forall p ensures p in links.rows <==> p in before + Pairs(roles[name], keys) {
        if p.0 == roles[name] { assert p == (roles[name], p.1); assert p.1 in existing <==> p in before; }
      }
    }

    /** An invalid catalogue key is an error and seeds nothing. */
    method SeedDefaultRoles(catalogue: set<string>, ownerMembership: Option<MembershipId>) returns (ok: bool)
      modifies this, links
      ensures links == old(links)
      ensures ok <==> forall k :: k in TenantKeys(catalogue) ==> Valid(k)
      ensures View() == if ok then Seeded(old(View()), catalogue, ownerMembership) else old(View())
    {
      var keys := TenantKeys(catalogue);
      if k :| k in keys && !Valid(k) {
        return false;
      }
      FindOrCreateRole(OWNER);
      FindOrCreateRole(ADMIN);
      FindOrCreateRole(VIEWER);
      GrantPermissions(OWNER, {OWNER_FALLBACK} + keys);
      GrantPermissions(ADMIN, keys - ADMIN_DENY);
      GrantPermissions(VIEWER, set k | k in keys && EndsWith(k, ".list"));
      if ownerMembership.Some? && (ownerMembership.value, roles[OWNER]) !in memberRoles {
        memberRoles := memberRoles + {(ownerMembership.value, roles[OWNER])};
      }
      return true;
    }
  }
}
