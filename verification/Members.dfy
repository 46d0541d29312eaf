/** Memberships of users in tenants, the roles they carry, and the tenant an impersonation enters. */
module Members {
  import opened Prelude
  import opened AuthModel
  import Reconciliation

  type MembershipId = Nonce
  type RoleId = Nonce

  datatype Membership = Membership(user: UserId, tenant: TenantId, active: bool)

  /** The memberships of all tenants, and each tenant's own role and role-link tables. */
  datatype Directory = Directory(
    memberships: map<MembershipId, Membership>,
    roles: map<TenantId, set<RoleId>>,
    links: map<TenantId, set<(MembershipId, RoleId)>>,
    next: Nonce)

  predicate Joins(d: Directory, m: MembershipId, user: UserId, tenant: TenantId)
  {
    m in d.memberships && d.memberships[m].user == user && d.memberships[m].tenant == tenant
  }

  /** A tenant's links lead from memberships of that tenant to roles of that tenant. */
  ghost predicate LinksOk(d: Directory, t: TenantId)
  {
    t in d.links ==>
      && t in d.roles
      && forall p :: p in d.links[t] ==> p.0 in d.memberships && d.memberships[p.0].tenant == t && p.1 in d.roles[t]
  }

  /** One membership per user and tenant, and no link without its membership and role. */
  ghost predicate DirectoryOk(d: Directory)
  {
    && (forall m :: m in d.memberships ==> m < d.next)
    && (forall m, n, user, tenant :: Joins(d, m, user, tenant) && Joins(d, n, user, tenant) ==> m == n)
    && d.roles.Keys == d.links.Keys
    && forall t :: LinksOk(d, t)
  }

  /** Nothing outside the tenant has changed, and no role anywhere. */
  ghost predicate Isolated(d: Directory, d': Directory, tenant: TenantId)
  {
    && d'.roles == d.roles && d'.links.Keys == d.links.Keys
    && (forall t :: t in d.links && t != tenant ==> d'.links[t] == d.links[t])
    && (forall m :: m in d.memberships && d.memberships[m].tenant != tenant ==>
          m in d'.memberships && d'.memberships[m] == d.memberships[m])
    && (forall m :: m in d'.memberships && d'.memberships[m].tenant != tenant ==>
          m in d.memberships && d'.memberships[m] == d.memberships[m])
  }

  /** The membership exists and is active afterwards: found, reactivated or made; no other is touched. */
  ghost predicate Ensured(d: Directory, d': Directory, user: UserId, tenant: TenantId, m: MembershipId)
  {
    && (Joins(d, m, user, tenant) || (m == d.next && forall n :: !Joins(d, n, user, tenant)))
    && d' == d.(memberships := d.memberships[m := Membership(user, tenant, true)], next := d'.next)
    && d'.next == if Joins(d, m, user, tenant) then d.next else d.next + 1
  }

  lemma EnsuredOk(d: Directory, d': Directory, user: UserId, tenant: TenantId, m: MembershipId)
    requires DirectoryOk(d) && Ensured(d, d', user, tenant, m)
    ensures DirectoryOk(d') && Isolated(d, d', tenant)
  {
    forall a, b, u, t | Joins(d', a, u, t) && Joins(d', b, u, t) ensures a == b {
      assert a != m ==> Joins(d, a, u, t);
      assert b != m ==> Joins(d, b, u, t);
    }
    forall t ensures LinksOk(d', t) { assert LinksOk(d, t); }
  }

  /** Adding a member again finds the same membership and changes nothing. */
  lemma EnsuringTwice(d: Directory, d1: Directory, d2: Directory, user: UserId, tenant: TenantId,
                      m: MembershipId, n: MembershipId)
    requires DirectoryOk(d) && Ensured(d, d1, user, tenant, m) && Ensured(d1, d2, user, tenant, n)
    ensures n == m && d2 == d1
  {
    EnsuredOk(d, d1, user, tenant, m);
    assert Joins(d1, m, user, tenant);
  }

  /** What the ids of a request parse to. */
  predicate RolesKnown(d: Directory, tenant: TenantId, ids: seq<string>, parse: string -> Option<RoleId>)
  {
    tenant in d.roles && forall id :: id in ids ==> parse(id).Some? && parse(id).value in d.roles[tenant]
  }

  function RolesOf(ids: seq<string>, parse: string -> Option<RoleId>): set<RoleId>
  {
    set id | id in ids && parse(id).Some? :: parse(id).value
  }

  ghost function WithRoles(d: Directory, tenant: TenantId, m: MembershipId, desired: set<RoleId>): Directory
    requires tenant in d.links
  {
    d.(links := d.links[tenant := Reconciliation.ReplaceRow(d.links[tenant], m, desired)])
  }

  lemma WithRolesOk(d: Directory, tenant: TenantId, m: MembershipId, desired: set<RoleId>)
    requires DirectoryOk(d) && tenant in d.links && desired <= d.roles[tenant]
    requires m in d.memberships && d.memberships[m].tenant == tenant
    ensures DirectoryOk(WithRoles(d, tenant, m, desired)) && Isolated(d, WithRoles(d, tenant, m, desired), tenant)
  {
    var d' := WithRoles(d, tenant, m, desired);
    forall a, b, u, t | Joins(d', a, u, t) && Joins(d', b, u, t) ensures a == b {
      assert Joins(d, a, u, t) && Joins(d, b, u, t);
    }
    forall t ensures LinksOk(d', t) {
      assert LinksOk(d, t);
      if t == tenant {
        forall p | p in d'.links[t]
          ensures p.0 in d.memberships && d.memberships[p.0].tenant == t && p.1 in d.roles[t]
        {
          if p.0 == m {
            assert p == (m, p.1) && p.1 in Reconciliation.RowOf(d'.links[t], m);
          }
        }
      }
    }
  }

  /** Without the membership and the links it had. */
  function Without(d: Directory, tenant: TenantId, m: MembershipId): Directory
    requires tenant in d.links
  {
    d.(memberships := d.memberships - {m}, links := d.links[tenant := set p | p in d.links[tenant] && p.0 != m])
  }

  lemma WithoutOk(d: Directory, tenant: TenantId, m: MembershipId)
    requires DirectoryOk(d) && tenant in d.links && m in d.memberships && d.memberships[m].tenant == tenant
    ensures DirectoryOk(Without(d, tenant, m)) && Isolated(d, Without(d, tenant, m), tenant)
  {
    var d' := Without(d, tenant, m);
    forall a, b, u, t | Joins(d', a, u, t) && Joins(d', b, u, t) ensures a == b {
      assert Joins(d, a, u, t) && Joins(d, b, u, t);
    }
    forall t ensures LinksOk(d', t) {
      assert LinksOk(d, t);
      if t in d.links {
        forall p | p in d'.links[t] ensures p.0 in d'.memberships {
          assert p in d.links[t];
        }
      }
    }
  }

  /** The membership's roles are what the ids name. */
  ghost predicate RolesAre(d: Directory, tenant: TenantId, m: MembershipId, ids: seq<string>,
                           parse: string -> Option<RoleId>)
  {
    tenant in d.links && forall r :: (m, r) in d.links[tenant] <==> exists id :: id in ids && parse(id) == Some(r)
  }

  lemma WithRolesAre(d: Directory, tenant: TenantId, m: MembershipId, ids: seq<string>,
                     parse: string -> Option<RoleId>)
    requires tenant in d.links
    ensures RolesAre(WithRoles(d, tenant, m, RolesOf(ids, parse)), tenant, m, ids, parse)
  {
    var table := Reconciliation.ReplaceRow(d.links[tenant], m, RolesOf(ids, parse));
    forall r ensures (m, r) in table <==> exists id :: id in ids && parse(id) == Some(r) {
      assert (m, r) in table <==> r in Reconciliation.RowOf(table, m);
    }
  }

  class MemberAdmin {
    var memberships: map<MembershipId, Membership>
    var roles: map<TenantId, set<RoleId>>
    var links: map<TenantId, set<(MembershipId, RoleId)>>
    var next: Nonce

    ghost function View(): Directory
      reads this
    {
      Directory(memberships, roles, links, next)
    }

    ghost predicate Valid()
      reads this
    {
      DirectoryOk(View())
    }

    constructor (d: Directory)
      requires DirectoryOk(d)
      ensures Valid() && View() == d
    {
      memberships, roles, links, next := d.memberships, d.roles, d.links, d.next;
    }

    method EnsureMembership(user: UserId, tenant: TenantId) returns (m: MembershipId)
      requires Valid()
      modifies this
      ensures Valid() && Ensured(old(View()), View(), user, tenant, m)
    {
      if found :| found in memberships && memberships[found].user == user && memberships[found].tenant == tenant {
        m := found;
        assert Joins(View(), m, user, tenant);
        if !memberships[m].active {
          memberships := memberships[m := memberships[m].(active := true)];
        } else {
          assert memberships[m := Membership(user, tenant, true)] == memberships;
        }
      } else {
        m := next;
        memberships := memberships[m := Membership(user, tenant, true)];
        next := next + 1;
      }
      EnsuredOk(old(View()), View(), user, tenant, m);
    }

    /** Every id must parse before any is looked up. */
    method ResolveRoles(tenant: TenantId, ids: seq<string>, parse: string -> Option<RoleId>)
      returns (found: Result<set<RoleId>, Refusal>)
      requires tenant in roles
      ensures found.Ok? <==> RolesKnown(View(), tenant, ids, parse)
      ensures found.Ok? ==> found.value == RolesOf(ids, parse)
      ensures found == Err(BadRequest) <==> exists id :: id in ids && parse(id).None?
      ensures found.Err? ==> found.error in {BadRequest, NotFound}
    {
      for i := 0 to |ids|
        modifies {}
        invariant forall j :: 0 <= j < i ==> parse(ids[j]).Some?
      {
        if parse(ids[i]).None? {
          assert ids[i] in ids;
          return Err(BadRequest);
        }
      }
      var parsed := RolesOf(ids, parse);
      if parsed <= roles[tenant] {
        forall id | id in ids ensures parse(id).value in roles[tenant] {
          assert parse(id).value in parsed;
        }
        return Ok(parsed);
      }
      var missing :| missing in parsed && missing !in roles[tenant];
      return Err(NotFound);
    }

    method SetMembershipRoles(tenant: TenantId, m: MembershipId, desired: set<RoleId>)
      requires Valid() && tenant in links && desired <= roles[tenant]
      requires m in memberships && memberships[m].tenant == tenant
      modifies this`links
      ensures Valid() && View() == WithRoles(old(View()), tenant, m, desired)
    {
      var table := new Reconciliation.LinkTable(links[tenant]);
      table.SetRow(m, desired);
      links := links[tenant := table.rows];
      WithRolesOk(old(View()), tenant, m, desired);
    }

    /** The part of adding a member that follows once the account is found or created. */
    method AddMember(tenant: TenantId, user: UserId, ids: seq<string>, parse: string -> Option<RoleId>)
      returns (result: Result<MembershipId, Refusal>)
      requires Valid() && tenant in roles
      modifies this
      ensures Valid() && Isolated(old(View()), View(), tenant)
      ensures result.Ok? <==> RolesKnown(old(View()), tenant, ids, parse)
      ensures result.Err? ==> View() == old(View())
      ensures result.Ok? ==> exists middle ::
                && Ensured(old(View()), middle, user, tenant, result.value) && tenant in middle.links
                && View() == if ids == [] then middle else WithRoles(middle, tenant, result.value, RolesOf(ids, parse))
      ensures result.Ok? ==>
                && result.value in memberships && memberships[result.value] == Membership(user, tenant, true)
                && (ids != [] ==> RolesAre(View(), tenant, result.value, ids, parse))
    {
      var desired := ResolveRoles(tenant, ids, parse);
      if desired.Err? {
        return Err(desired.error);
      }
      var m := EnsureMembership(user, tenant);
      ghost var middle := View();
      EnsuredOk(old(View()), middle, user, tenant, m);
      assert desired.value == {} <==> ids == [] by {
        if ids != [] { assert parse(ids[0]).value in desired.value; }
      }
      if desired.value != {} {
        forall r | r in desired.value ensures r in roles[tenant] {
          var id :| id in ids && parse(id) == Some(r);
        }
        SetMembershipRoles(tenant, m, desired.value);
        WithRolesOk(middle, tenant, m, desired.value);
        WithRolesAre(middle, tenant, m, ids, parse);
      }
      result := Ok(m);
    }

    /** A membership of another tenant is not found; a refusal rolls the flag back. */
    method UpdateMember(tenant: TenantId, m: MembershipId, active: Option<bool>, ids: Option<seq<string>>,
                        parse: string -> Option<RoleId>)
      returns (refusal: Option<Refusal>)
      requires Valid() && tenant in roles
      modifies this
      ensures Valid() && Isolated(old(View()), View(), tenant)
      ensures refusal.None? <==>
                && m in old(memberships) && old(memberships)[m].tenant == tenant
                && (ids.Some? ==> RolesKnown(old(View()), tenant, ids.value, parse))
      ensures refusal.Some? ==> View() == old(View())
      ensures refusal.None? && ids.Some? ==> RolesAre(View(), tenant, m, ids.value, parse)
      ensures refusal.None? ==>
                var was := old(memberships)[m];
                && memberships == old(memberships)[m := if active.Some? then was.(active := active.value) else was]
                && next == old(next) && tenant in old(links)
                && links == if ids.None? then old(links)
                            else WithRoles(old(View()), tenant, m, RolesOf(ids.value, parse)).links
    {
      if m !in memberships || memberships[m].tenant != tenant {
        return Some(NotFound);
      }
      var before := memberships;
      if active.Some? {
        memberships := memberships[m := memberships[m].(active := active.value)];
      }
      assert memberships[m := memberships[m]] == memberships;
      FlagOk(old(View()), View(), m);
      if ids.Some? {
        var desired := ResolveRoles(tenant, ids.value, parse);
        if desired.Err? {
          memberships := before;
          return Some(desired.error);
        }
        forall r | r in desired.value ensures r in roles[tenant] {
          var id :| id in ids.value && parse(id) == Some(r);
        }
        ghost var flagged := View();
        SetMembershipRoles(tenant, m, desired.value);
        WithRolesAre(flagged, tenant, m, ids.value, parse);
      }
      return None;
    }

    method RemoveMember(tenant: TenantId, m: MembershipId) returns (refusal: Option<Refusal>)
      requires Valid() && tenant in roles
      modifies this
      ensures Valid() && Isolated(old(View()), View(), tenant)
      ensures refusal.None? <==> m in old(memberships) && old(memberships)[m].tenant == tenant
      ensures refusal.Some? ==> View() == old(View())
      ensures refusal.None? ==> m !in memberships && memberships == old(memberships) - {m}
      ensures refusal.None? ==>
                && next == old(next) && links.Keys == old(links).Keys
                && forall t, p :: t in links ==> (p in links[t] <==> p in old(links)[t] && p.0 != m)
    {
      if m !in memberships || memberships[m].tenant != tenant {
        return Some(NotFound);
      }
      var table := new Reconciliation.LinkTable(links[tenant]);
      table.DeleteAll(m, Reconciliation.RowOf(links[tenant], m));
      memberships := memberships - {m};
      links := links[tenant := table.rows];
      RowGone(old(links)[tenant], m);
      WithoutOk(old(View()), tenant, m);
      forall t, p | t in links ensures p in links[t] <==> p in old(links)[t] && p.0 != m {
        assert LinksOk(View(), t);
      }
      return None;
    }
  }

  /** Deleting a row's links one by one leaves exactly the links of the others. */
  lemma RowGone(table: set<(MembershipId, RoleId)>, m: MembershipId)
    ensures table - Reconciliation.Pairs(m, Reconciliation.RowOf(table, m)) == set p | p in table && p.0 != m
  {
    forall p: (MembershipId, RoleId) | p in table && p.0 == m
      ensures p in Reconciliation.Pairs(m, Reconciliation.RowOf(table, m))
    {
      assert p == (m, p.1) && p.1 in Reconciliation.RowOf(table, m);
    }
  }

  lemma FlagOk(d: Directory, d': Directory, m: MembershipId)
    requires DirectoryOk(d) && m in d.memberships && m in d'.memberships
    requires d' == d.(memberships := d.memberships[m := d'.memberships[m]])
    requires d'.memberships[m] == d.memberships[m].(active := d'.memberships[m].active)
    ensures DirectoryOk(d') && Isolated(d, d', d.memberships[m].tenant)
  {
    forall a, b, u, t | Joins(d', a, u, t) && Joins(d', b, u, t) ensures a == b {
      assert Joins(d, a, u, t) && Joins(d, b, u, t);
    }
    forall t ensures LinksOk(d', t) { assert LinksOk(d, t); }
  }

  // ---- The tenant an impersonation enters ----

  function ActiveTenants(d: Directory, user: UserId): set<TenantId>
  {
    set m | m in d.memberships && d.memberships[m].user == user && d.memberships[m].active :: d.memberships[m].tenant
  }

  /** `tenants` says of each tenant whether it is active. A requested tenant wins; otherwise the only one, if any. */
  ghost function ResolveTargetTenant(d: Directory, tenants: map<TenantId, bool>, user: UserId,
                                     requested: Option<TenantId>): Result<Option<TenantId>, Refusal>
  {
    if requested.Some? then
      if requested.value !in tenants then Err(NotFound)
      else if !tenants[requested.value] then Err(Conflict)
      else Ok(requested)
    else
      var ids := ActiveTenants(d, user);
      if |ids| != 1 then Ok(None)
      else
        var only :| only in ids;
        if only in tenants && tenants[only] then Ok(Some(only)) else Ok(None)
  }

  /** The session enters exactly an active tenant that was asked for, or that is the target's only one. */
  lemma EntersIff(d: Directory, tenants: map<TenantId, bool>, user: UserId, requested: Option<TenantId>, t: TenantId)
    ensures ResolveTargetTenant(d, tenants, user, requested) == Ok(Some(t)) <==>
              && t in tenants && tenants[t]
              && (requested == Some(t) || (requested.None? && ActiveTenants(d, user) == {t}))
    ensures ResolveTargetTenant(d, tenants, user, requested).Err? <==>
              requested.Some? && !(requested.value in tenants && tenants[requested.value])
  {
    var ids := ActiveTenants(d, user);
    if |ids| == 1 {
      OnlyElement(ids);
    }
  }

  /** Unless one is asked for, it is the tenant of all the target's active memberships, of which there is one. */
  lemma EntersOnlyTenantIff(d: Directory, tenants: map<TenantId, bool>, user: UserId, t: TenantId)
    ensures ResolveTargetTenant(d, tenants, user, None) == Ok(Some(t)) <==>
              && t in tenants && tenants[t]
              && (exists m :: Joins(d, m, user, t) && d.memberships[m].active)
              && (forall m :: m in d.memberships && d.memberships[m].user == user && d.memberships[m].active ==>
                    d.memberships[m].tenant == t)
  {
    EntersIff(d, tenants, user, None, t);
    if ActiveTenants(d, user) == {t} {
      assert t in ActiveTenants(d, user);
      var m :| m in d.memberships && d.memberships[m].user == user && d.memberships[m].active
               && d.memberships[m].tenant == t;
      assert Joins(d, m, user, t);
      forall n | n in d.memberships && d.memberships[n].user == user && d.memberships[n].active
        ensures d.memberships[n].tenant == t
      {
        assert d.memberships[n].tenant in ActiveTenants(d, user);
      }
    }
  }

  lemma OnlyElement(ids: set<TenantId>)
    requires |ids| == 1
    ensures forall a, b :: a in ids && b in ids ==> a == b
    ensures forall a :: a in ids ==> ids == {a}
  {
    forall a | a in ids ensures ids == {a} {
      assert |ids - {a}| == 0;
      assert ids - {a} == {};
    }
  }

  /** A user added to a first tenant is impersonated in that tenant. */
  lemma FirstMembershipIsEntered(d: Directory, d': Directory, tenants: map<TenantId, bool>, user: UserId,
                                 tenant: TenantId, m: MembershipId)
    requires DirectoryOk(d) && Ensured(d, d', user, tenant, m) && ActiveTenants(d, user) <= {tenant}
    requires tenant in tenants && tenants[tenant]
    ensures ResolveTargetTenant(d', tenants, user, None) == Ok(Some(tenant))
  {
    forall t ensures t in ActiveTenants(d', user) <==> t == tenant {
      if t == tenant {
        assert m in d'.memberships && d'.memberships[m].tenant == t;
      } else {
        assert t !in ActiveTenants(d, user);
      }
    }
    assert ActiveTenants(d', user) == {tenant};
    EntersIff(d', tenants, user, None, tenant);
  }

  /** An impersonation token names no tenant but an active one: the requested, or the target's only one. */
  lemma ImpersonatedTenant(cfg: Config, w: World, bearer: Token, target: UserId, minutes: nat, reason: string,
                           d: Directory, tenants: map<TenantId, bool>, requested: Option<TenantId>)
    ensures var entry := ResolveTargetTenant(d, tenants, target, requested);
            var o := Impersonate(cfg, w, bearer, target, minutes, reason, entry);
            o.response.AccessOnly? && o.response.token.tenant.Some? ==>
              var t := o.response.token.tenant.value;
              && t in tenants && tenants[t]
              && (requested == Some(t) || (requested.None? && ActiveTenants(d, target) == {t}))
    ensures var entry := ResolveTargetTenant(d, tenants, target, requested);
            var o := Impersonate(cfg, w, bearer, target, minutes, reason, entry);
            o.response.AccessOnly? && requested.Some? ==> o.response.token.tenant == requested
  {
    var entry := ResolveTargetTenant(d, tenants, target, requested);
    if entry.Ok? && entry.value.Some? {
      EntersIff(d, tenants, target, requested, entry.value.value);
    }
  }
}
