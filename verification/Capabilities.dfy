/**
 What the contract says a caller can do with an admin, what the routes then let through, and which
 permission keys are worth handing out.
 */
module Capabilities {
  import opened Prelude
  import Text
  import opened PermissionKeys

  // ---- Admins, policies, callers ----

  /**
   `bound` is the resource the policy object was registered under; an object serves the first admin
   that registers it.
   */
  datatype Policy = AllowAll | ReadOnly | NoCreateDelete | SuperadminDeletable(bound: Option<string>)

  datatype Admin = Admin(resource: string, platformOnly: bool, singleton: bool, policy: Option<Policy>)

  /** `gated` is the setting that no-tenant access needs platform authority or the key itself. */
  datatype Caller = Caller(inTenant: bool, gated: bool, grants: set<string>)

  datatype Action = List | ReadOne | Create | Update | Delete

  predicate Writes(a: Action)
  {
    a.Create? || a.Update? || a.Delete?
  }

  function ActionName(a: Action): (name: string)
    ensures IsName(name, true)
  {
    match a
    case List => "list"
    case ReadOne => "read"
    case Create => "create"
    case Update => "update"
    case Delete => "delete"
  }

  predicate Registered(admin: Admin)
  {
    IsName(admin.resource, true)
  }

  function KeyOf(namespace: string, resource: string, a: Action): Key
  {
    Concrete(namespace, resource, ActionName(a))
  }

  function NamespaceFor(admin: Admin): (ns: string)
    ensures IsName(ns, false)
  {
    if admin.platformOnly then "platform" else "admin"
  }

  /** The key a caller needs for an action on the admin. */
  function CrudKey(admin: Admin, a: Action): string
  {
    KeyOf(NamespaceFor(admin), admin.resource, a).Render()
  }

  const PLATFORM_WILDCARD: string := Namespace("platform").Render()

  // ---- The contract ----

  datatype Flags = Flags(create: bool, update: bool, delete: bool)

  /** The default derives from a policy's static markers; one policy looks at platform authority. */
  function CapabilityFlags(policy: Policy, hasPlatform: bool): Flags
  {
    match policy
    case AllowAll => Flags(true, true, true)
    case ReadOnly => Flags(false, false, false)
    case NoCreateDelete => Flags(false, true, false)
    case SuperadminDeletable(_) => Flags(false, false, hasPlatform)
  }

  /** What the contract reports; `rows` says whether the table holds a row. */
  ghost function BuildCapabilities(admin: Admin, caller: Caller, rows: bool): Flags
  {
    var allowed :=
      if admin.policy.Some? then
        CapabilityFlags(admin.policy.value, Grants(caller.grants, KeyOf("platform", admin.resource, Delete).Render()))
      else if admin.singleton then Flags(!rows, true, false)
      else Flags(true, true, true);
    Flags(allowed.create && Grants(caller.grants, CrudKey(admin, Create)),
          allowed.update && Grants(caller.grants, CrudKey(admin, Update)),
          allowed.delete && Grants(caller.grants, CrudKey(admin, Delete)))
  }

  ghost predicate Capable(admin: Admin, caller: Caller, rows: bool, a: Action)
    requires Writes(a)
  {
    var c := BuildCapabilities(admin, caller, rows);
    match a
    case Create => c.create
    case Update => c.update
    case Delete => c.delete
  }

  // ---- The routes ----

  /** The route's permission gate. */
  ghost predicate PermissionGate(admin: Admin, caller: Caller, a: Action)
  {
    if admin.platformOnly || caller.inTenant then Grants(caller.grants, CrudKey(admin, a))
    else !caller.gated || Grants(caller.grants, PLATFORM_WILDCARD) || Grants(caller.grants, CrudKey(admin, a))
  }

  /** The policy object's own gates. */
  ghost predicate PolicyAllows(policy: Policy, grants: set<string>, a: Action)
  {
    match policy
    case AllowAll => true
    case ReadOnly => a.List? || a.ReadOne?
    case NoCreateDelete => !a.Create? && !a.Delete?
    case SuperadminDeletable(bound) =>
      if a.Delete? then bound.Some? && Grants(grants, KeyOf("platform", bound.value, Delete).Render())
      else a.List? || a.ReadOne?
  }

  /** The policy gate of the services, with the singleton rules where no policy decides. */
  ghost predicate PolicyGate(admin: Admin, caller: Caller, rows: bool, a: Action)
  {
    if admin.policy.Some? then PolicyAllows(admin.policy.value, caller.grants, a)
    else !admin.singleton || (a != Delete && (a != Create || !rows))
  }

  ghost predicate Passes(admin: Admin, caller: Caller, rows: bool, a: Action)
  {
    PermissionGate(admin, caller, a) && PolicyGate(admin, caller, rows, a)
  }

  // ---- Capabilities against the gates ----

  /** The admin has a policy object of its own. */
  predicate OwnsPolicy(admin: Admin)
  {
    admin.policy.Some? && admin.policy.value.SuperadminDeletable? ==> admin.policy.value.bound == Some(admin.resource)
  }

  /**
   A capability is exactly: both gates pass, and the caller holds the key itself. So a capability the
   contract reports is never refused by the gates.
   */
  lemma CapableIff(admin: Admin, caller: Caller, rows: bool, a: Action)
    requires Writes(a) && (OwnsPolicy(admin) || !a.Delete?)
    ensures Capable(admin, caller, rows, a) <==>
              Passes(admin, caller, rows, a) && Grants(caller.grants, CrudKey(admin, a))
    ensures Capable(admin, caller, rows, a) ==> Passes(admin, caller, rows, a)
  {
  }

  /** Inside a tenant, and for platform-tier admins anywhere, the contract reports exactly what passes. */
  lemma CapableExactlyInTenant(admin: Admin, caller: Caller, rows: bool, a: Action)
    requires Writes(a) && (OwnsPolicy(admin) || !a.Delete?)
    requires caller.inTenant || admin.platformOnly
    ensures Capable(admin, caller, rows, a) <==> Passes(admin, caller, rows, a)
  {
    CapableIff(admin, caller, rows, a);
  }

  /**
   Elsewhere the contract hides an allowed action exactly from a caller without the key whom the gate
   lets in anyway.
   */
  lemma UnderreportedIff(admin: Admin, caller: Caller, rows: bool, a: Action)
    requires Writes(a) && (OwnsPolicy(admin) || !a.Delete?)
    requires !caller.inTenant && !admin.platformOnly
    ensures Passes(admin, caller, rows, a) && !Capable(admin, caller, rows, a) <==>
              && PolicyGate(admin, caller, rows, a) && !Grants(caller.grants, CrudKey(admin, a))
              && (!caller.gated || Grants(caller.grants, PLATFORM_WILDCARD))
  {
    CapableIff(admin, caller, rows, a);
  }

  /** The text of the key an action needs. */
  lemma CrudKeyText(admin: Admin, a: Action)
    ensures CrudKey(admin, a)
         == (if admin.platformOnly then "platform" else "admin") + "." + admin.resource + "."
            + (match a case List => "list" case ReadOne => "read" case Create => "create" case Update => "update"
                       case Delete => "delete")
  {
    Text.JoinOfThree(NamespaceFor(admin), admin.resource, ActionName(a));
  }

  /**
   What passes for one caller. In a tenant, and for platform-tier admins, every action needs its key, reading
   included; elsewhere platform authority or an open setting does instead.
   */
  lemma PassesIff(admin: Admin, caller: Caller, rows: bool, a: Action)
    ensures Passes(admin, caller, rows, a) ==>
              || Grants(caller.grants, CrudKey(admin, a))
              || (!caller.inTenant && !admin.platformOnly
                  && (!caller.gated || Grants(caller.grants, PLATFORM_WILDCARD)))
    ensures (a.List? || a.ReadOne?) && (caller.inTenant || admin.platformOnly) ==>
              (Passes(admin, caller, rows, a) <==> Grants(caller.grants, CrudKey(admin, a)))
    ensures (a.List? || a.ReadOne?) && !caller.inTenant && !admin.platformOnly ==>
              (Passes(admin, caller, rows, a) <==>
                 !caller.gated || Grants(caller.grants, PLATFORM_WILDCARD) || Grants(caller.grants, CrudKey(admin, a)))
    ensures admin.policy == Some(ReadOnly) && Writes(a) ==> !Passes(admin, caller, rows, a)
    ensures admin.policy == Some(NoCreateDelete) && (a.Create? || a.Delete?) ==> !Passes(admin, caller, rows, a)
    ensures admin.policy.Some? && admin.policy.value.SuperadminDeletable? && (a.Create? || a.Update?) ==>
              !Passes(admin, caller, rows, a)
    ensures admin.policy.Some? && admin.policy.value.SuperadminDeletable? && a.Delete? && OwnsPolicy(admin) ==>
              Passes(admin, caller, rows, a) ==>
                Grants(caller.grants, KeyOf("platform", admin.resource, Delete).Render())
    ensures admin.policy.None? && admin.singleton && (a.Delete? || (a.Create? && rows)) ==>
              !Passes(admin, caller, rows, a)
    ensures Grants(caller.grants, CrudKey(admin, a))
            && (admin.policy == Some(AllowAll) || (admin.policy == Some(NoCreateDelete) && a.Update?)
                || (admin.policy.None? && !admin.singleton)) ==>
              Passes(admin, caller, rows, a)
  {
  }

  // ---- Single keys ----

  lemma KeyIsValid(namespace: string, resource: string, a: Action)
    requires IsName(namespace, false) && IsName(resource, true)
    ensures KeyOf(namespace, resource, a).WellFormed() && Valid(KeyOf(namespace, resource, a).Render())
  {
    RenderParses(KeyOf(namespace, resource, a));
  }

  /** A caller who holds one concrete key is granted that key and no other. */
  lemma OneKeyGrants(held: Key, needed: Key)
    requires held.WellFormed() && held.Concrete? && needed.WellFormed()
    ensures Grants({held.Render()}, needed.Render()) <==> held == needed
  {
    RenderParses(held);
    NotBlank(held.Render());
    MatchesIsCovers(held, needed);
    assert held.Render() in {held.Render()};
  }

  lemma ActionNamesDiffer(a: Action, b: Action)
    ensures ActionName(a) == ActionName(b) <==> a == b
  {
    assert ActionName(a)[0] == ActionName(b)[0] ==> a == b;
  }

  // ---- The catalogue of keys ----

  /** The CRUD actions that get a key: reading always, writing as the policy's flags say without platform authority. */
  predicate Emits(admin: Admin, a: Action)
  {
    var flags := if admin.policy.Some? then CapabilityFlags(admin.policy.value, false) else Flags(true, true, true);
    match a
    case List => true
    case ReadOne => true
    case Create => flags.create
    case Update => flags.update
    case Delete => flags.delete
  }

  method CrudActionsFor(admin: Admin) returns (actions: seq<Action>)
    ensures forall a :: a in actions <==> Emits(admin, a)
    ensures forall i, j :: 0 <= i < j < |actions| ==> actions[i] != actions[j]
  {
    var flags := if admin.policy.Some? then CapabilityFlags(admin.policy.value, false) else Flags(true, true, true);
    var slots := [(Create, flags.create), (Update, flags.update), (Delete, flags.delete)];
    actions := [List, ReadOne];
    for i := 0 to |slots|
      invariant forall a :: a in actions <==>
                  a == List || a == ReadOne || exists k :: 0 <= k < i && slots[k] == (a, true)
      invariant forall k, l :: 0 <= k < l < |actions| ==> actions[k] != actions[l]
    {
      if slots[i].1 {
        actions := actions + [slots[i].0];
      }
    }
    assert slots[0] == (Create, flags.create) && slots[1] == (Update, flags.update)
        && slots[2] == (Delete, flags.delete);
  }

  /** A caller with no grant but the key for one action, inside a tenant or not. */
  ghost function Holder(admin: Admin, a: Action, inTenant: bool): Caller
  {
    Caller(inTenant, true, {CrudKey(admin, a)})
  }

  /** A policy object is bound to the resource of some registered admin, if to any. */
  predicate BindsName(admin: Admin)
  {
    admin.policy.Some? && admin.policy.value.SuperadminDeletable? && admin.policy.value.bound.Some? ==>
      IsName(admin.policy.value.bound.value, true)
  }

  /** With just the key for an action the permission gate always passes, and the policy gate decides like this. */
  lemma HolderPasses(admin: Admin, a: Action, inTenant: bool, rows: bool)
    requires Registered(admin) && BindsName(admin)
    ensures PermissionGate(admin, Holder(admin, a, inTenant), a)
    ensures admin.policy.Some? && admin.policy.value.SuperadminDeletable? && a.Delete? ==>
              (PolicyGate(admin, Holder(admin, a, inTenant), rows, a) <==> admin.platformOnly && OwnsPolicy(admin))
  {
    var held := KeyOf(NamespaceFor(admin), admin.resource, a);
    KeyIsValid(NamespaceFor(admin), admin.resource, a);
    OneKeyGrants(held, held);
    if admin.policy.Some? && admin.policy.value.SuperadminDeletable? && admin.policy.value.bound.Some? {
      var platform := KeyOf("platform", admin.policy.value.bound.value, Delete);
      KeyIsValid("platform", admin.policy.value.bound.value, Delete);
      OneKeyGrants(held, platform);
      ActionNamesDiffer(a, Delete);
      assert "admin"[0] != "platform"[0];
    }
  }

  /**
   An emitted key is live, in a tenant as outside, unless the admin is a singleton without a policy
   and the key is for deleting, or for creating while the row exists.
   */
  lemma EmittedKeyIsLiveIff(admin: Admin, a: Action, inTenant: bool, rows: bool)
    requires Registered(admin) && BindsName(admin) && Emits(admin, a)
    ensures Passes(admin, Holder(admin, a, inTenant), rows, a) <==>
              !(admin.singleton && admin.policy.None? && (a.Delete? || (a.Create? && rows)))
  {
    HolderPasses(admin, a, inTenant, rows);
  }

  /** A key that is not emitted is dead, except the platform key for deleting under a policy object of its own. */
  lemma WithheldKeyIsLiveIff(admin: Admin, a: Action, inTenant: bool, rows: bool)
    requires Registered(admin) && BindsName(admin) && !Emits(admin, a)
    ensures Passes(admin, Holder(admin, a, inTenant), rows, a) <==>
              admin.platformOnly && admin.policy.value.SuperadminDeletable? && a.Delete? && OwnsPolicy(admin)
  {
    HolderPasses(admin, a, inTenant, rows);
  }

  /** A caller in a tenant with just the admin's own delete key and the platform's. */
  ghost function Deleter(admin: Admin): Caller
  {
    Caller(true, true, {CrudKey(admin, Delete), KeyOf("platform", admin.resource, Delete).Render()})
  }

  lemma TwoKeysGrant(one: Key, other: Key, needed: Key)
    requires one.WellFormed() && one.Concrete? && other.WellFormed() && other.Concrete? && needed.WellFormed()
    ensures Grants({one.Render(), other.Render()}, needed.Render()) <==> needed == one || needed == other
  {
    RenderParses(needed);
    OneKeyGrants(one, needed);
    OneKeyGrants(other, needed);
    PermissionsDistribute({one.Render()}, {other.Render()}, needed.Render());
    assert {one.Render()} + {other.Render()} == {one.Render(), other.Render()};
  }

  lemma DeleterHolds(admin: Admin, resource: string)
    requires Registered(admin) && IsName(resource, true)
    ensures Grants(Deleter(admin).grants, CrudKey(admin, Delete))
    ensures Grants(Deleter(admin).grants, KeyOf("platform", resource, Delete).Render()) <==> resource == admin.resource
  {
    var own, platform := KeyOf(NamespaceFor(admin), admin.resource, Delete), KeyOf("platform", admin.resource, Delete);
    KeyIsValid(NamespaceFor(admin), admin.resource, Delete);
    KeyIsValid("platform", admin.resource, Delete);
    KeyIsValid("platform", resource, Delete);
    TwoKeysGrant(own, platform, own);
    TwoKeysGrant(own, platform, KeyOf("platform", resource, Delete));
    assert "admin"[0] != "platform"[0];
  }

  /** An admin that uses another's policy object is told it may delete, and is refused unless the object was its own. */
  lemma SharedPolicyPartsIff(admin: Admin)
    requires Registered(admin) && BindsName(admin) && admin.policy.Some? && admin.policy.value.SuperadminDeletable?
    ensures Capable(admin, Deleter(admin), false, Delete)
    ensures Passes(admin, Deleter(admin), false, Delete) <==> OwnsPolicy(admin)
  {
    DeleterHolds(admin, admin.resource);
    if admin.policy.value.bound.Some? {
      DeleterHolds(admin, admin.policy.value.bound.value);
    }
  }

  /** No caller is told of a capability that the gates then refuse. */
  ghost predicate NeverOverreports(admin: Admin)
  {
    forall caller: Caller, rows: bool, a: Action | Writes(a) ::
      Capable(admin, caller, rows, a) ==> Passes(admin, caller, rows, a)
  }

  /** Inside a tenant, and for platform-tier admins anywhere, every caller is told exactly what passes. */
  ghost predicate ReportsExactly(admin: Admin)
  {
    forall caller: Caller, rows: bool, a: Action | Writes(a) && (caller.inTenant || admin.platformOnly) ::
      Capable(admin, caller, rows, a) <==> Passes(admin, caller, rows, a)
  }

  /**
   The contract never promises what a route refuses, to any caller, exactly when the admin's policy
   object is its own; and then it also tells every caller in a tenant all that passes.
   */
  lemma NeverOverreportsIff(admin: Admin)
    requires Registered(admin) && BindsName(admin)
    ensures NeverOverreports(admin) <==> OwnsPolicy(admin)
    ensures ReportsExactly(admin) <==> OwnsPolicy(admin)
  {
    if OwnsPolicy(admin) {
      forall caller: Caller, rows: bool, a: Action | Writes(a)
        ensures Capable(admin, caller, rows, a) ==> Passes(admin, caller, rows, a)
      {
        CapableIff(admin, caller, rows, a);
      }
      forall caller: Caller, rows: bool, a: Action | Writes(a) && (caller.inTenant || admin.platformOnly)
        ensures Capable(admin, caller, rows, a) <==> Passes(admin, caller, rows, a)
      {
        CapableExactlyInTenant(admin, caller, rows, a);
      }
    } else {
      SharedPolicyPartsIff(admin);
      assert Writes(Delete) && Deleter(admin).inTenant;
    }
  }
}
