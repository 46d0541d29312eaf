/**
 The three diff-and-apply routines: the permission catalogue, the role-permission matrix and the
 roles of one membership. Each compares a desired set with the stored rows, then adds and deletes
 only what differs.
 */
module Reconciliation {
  import opened Prelude
  import opened PermissionKeys

  type RoleId = nat
  type MembershipId = nat

  // ---- One row set of a two-column link table ----

  /** The second columns of the rows that start with `a`. */
  function RowOf<A(==), B(==)>(table: set<(A, B)>, a: A): set<B>
  {
    set p | p in table && p.0 == a :: p.1
  }

  /** The rows that link `a` to each of `bs`. */
  function Pairs<A(==), B(==)>(a: A, bs: set<B>): set<(A, B)>
  {
    set b | b in bs :: (a, b)
  }

  /** The table with the rows of `a` replaced by exactly `desired`, everything else as before. */
  ghost function ReplaceRow<A(!new), B(!new)>(table: set<(A, B)>, a: A, desired: set<B>): (r: set<(A, B)>)
    ensures RowOf(r, a) == desired
    ensures forall p: (A, B) :: p.0 != a ==> (p in r <==> p in table)
  {
    var r := (set p | p in table && p.0 != a) + Pairs(a, desired);
    assert forall b :: b in desired ==> (a, b) in r;
    r
  }

  /** A row set is replaced the same way whatever it was, and twice is once. */
  lemma ReplaceTwice<A(!new), B(!new)>(table: set<(A, B)>, a: A, first: set<B>, second: set<B>)
    ensures ReplaceRow(ReplaceRow(table, a, first), a, second) == ReplaceRow(table, a, second)
    ensures ReplaceRow(table, a, RowOf(table, a)) == table
  {
    var once, twice := ReplaceRow(table, a, second), ReplaceRow(ReplaceRow(table, a, first), a, second);
    forall p: (A, B) ensures p in twice <==> p in once {
      if p.0 == a {
        assert p == (a, p.1);
        assert p.1 in RowOf(once, a) <==> p in once;
        assert p.1 in RowOf(twice, a) <==> p in twice;
      }
    }
    var same := ReplaceRow(table, a, RowOf(table, a));
    forall p: (A, B) ensures p in same <==> p in table {
      if p.0 == a {
        assert p == (a, p.1);
        assert p.1 in RowOf(same, a) <==> p in same;
        assert p.1 in RowOf(table, a) <==> p in table;
      }
    }
  }

  lemma ReplaceIsDiff<A(!new), B(!new)>(table: set<(A, B)>, a: A, desired: set<B>)
    ensures ReplaceRow(table, a, desired)
         == (table - Pairs(a, RowOf(table, a) - desired)) + Pairs(a, desired - RowOf(table, a))
  {
    var add, remove := Pairs(a, desired - RowOf(table, a)), Pairs(a, RowOf(table, a) - desired);
    var r := ReplaceRow(table, a, desired);
    forall p: (A, B) ensures p in r <==> p in (table - remove) + add {
      if p.0 == a {
        assert p == (a, p.1);
        assert p.1 in RowOf(table, a) <==> p in table;
        assert p in add <==> p.1 in desired - RowOf(table, a);
        assert p in remove <==> p.1 in RowOf(table, a) - desired;
        assert p in r <==> p.1 in RowOf(r, a);
      }
    }
  }

  class LinkTable<A(==,!new), B(==,!new)> {
    var rows: set<(A, B)>

    constructor (rows: set<(A, B)>)
      ensures this.rows == rows
    {
      this.rows := rows;
    }

    method AddAll(a: A, toAdd: set<B>)
      modifies this
      ensures rows == old(rows) + Pairs(a, toAdd)
    {
      var todo := toAdd;
      while todo != {}
        invariant todo <= toAdd
        invariant rows == old(rows) + Pairs(a, toAdd - todo)
        decreases todo
      {
        var b :| b in todo;
        assert (toAdd - todo) + {b} == toAdd - (todo - {b});
        rows := rows + {(a, b)};
        todo := todo - {b};
      }
      assert toAdd - {} == toAdd;
    }

    method DeleteAll(a: A, toDelete: set<B>)
      modifies this
      ensures rows == old(rows) - Pairs(a, toDelete)
    {
      var todo := toDelete;
      while todo != {}
        invariant todo <= toDelete
        invariant rows == old(rows) - Pairs(a, toDelete - todo)
        decreases todo
      {
        var b :| b in todo;
        assert (toDelete - todo) + {b} == toDelete - (todo - {b});
        rows := rows - {(a, b)};
        todo := todo - {b};
      }
      assert toDelete - {} == toDelete;
    }

    /** `_set_membership_roles`: afterwards the rows of `a` are exactly the desired ones. */
    method SetRow(a: A, desired: set<B>)
      modifies this
      ensures rows == ReplaceRow(old(rows), a, desired)
    {
      var current := RowOf(rows, a);
      ReplaceIsDiff(rows, a, desired);
      ghost var before := rows;
      AddAll(a, desired - current);
      DeleteAll(a, current - desired);
      forall p: (A, B) ensures p in rows <==> p in ReplaceRow(before, a, desired) {
        assert p in Pairs(a, desired - current) ==> p.1 in desired - current;
        assert p in Pairs(a, current - desired) ==> p.1 in current - desired;
      }
    }
  }

  // ---- The permission catalogue ----

  /** Keys are unique across the catalogue; each row remembers which source put it there. */
  type Catalogue = map<string, Option<string>>

  datatype SyncResult = SyncResult(added: nat, removed: nat, kept: nat)

  datatype SyncError = InvalidKey(error: KeyError) | KeyOwnedByAnotherSource

  function OwnedBy(rows: Catalogue, source: string): set<string>
  {
    set k | k in rows && rows[k] == Some(source)
  }

  predicate AllValid(keys: seq<string>)
  {
    forall k :: k in keys ==> Valid(k)
  }

  /** The catalogue after a sync: exactly the desired keys for this source, all other rows as before. */
  ghost predicate SyncedTo(before: Catalogue, after: Catalogue, desired: set<string>, source: string, prune: bool)
  {
    && OwnedBy(after, source) == (if prune then desired else desired + OwnedBy(before, source))
    && (forall k :: k in after && after[k] != Some(source) ==> k in before && before[k] == after[k])
    && (forall k :: k in before && before[k] != Some(source) ==> k in after && after[k] == before[k])
  }

  /** The first key that is not valid, if any. */
  method ValidateKeys(keys: seq<string>) returns (invalid: Option<KeyError>)
    ensures invalid.None? <==> AllValid(keys)
  {
    for i := 0 to |keys|
      invariant AllValid(keys[..i])
    {
      var valid := ValidatePermissionKey(keys[i]);
      if valid.Err? {
        assert keys[i] in keys;
        return Some(valid.error);
      }
      assert keys[..i + 1] == keys[..i] + [keys[i]];
    }
    assert keys[..|keys|] == keys;
    return None;
  }

  class PermissionCatalogue {
    var rows: Catalogue

    constructor (rows: Catalogue)
      ensures this.rows == rows
    {
      this.rows := rows;
    }

    method InsertRows(keys: set<string>, source: string)
      modifies this
      ensures rows == old(rows) + Stamped(keys, source)
    {
      var todo := keys;
      while todo != {}
        invariant todo <= keys
        invariant rows == old(rows) + Stamped(keys - todo, source)
        decreases todo
      {
        var k :| k in todo;
        assert (keys - todo) + {k} == keys - (todo - {k});
        rows := rows[k := Some(source)];
        todo := todo - {k};
      }
      assert keys - {} == keys;
    }

    method DeleteRows(keys: set<string>)
      modifies this
      ensures rows == old(rows) - keys
    {
      var todo := keys;
      while todo != {}
        invariant todo <= keys
        invariant rows == old(rows) - (keys - todo)
        decreases todo
      {
        var k :| k in todo;
        rows := rows - {k};
        todo := todo - {k};
      }
    }

    /**
     Rejected, with the catalogue as it was, when a desired key is invalid or stored by another source;
     otherwise the source's rows become the desired ones.
     */
    method Sync(desiredKeys: seq<string>, source: string, prune: bool) returns (result: Result<SyncResult, SyncError>)
      modifies this
      ensures var desired := set k | k in desiredKeys;
        && (result.Ok? <==> AllValid(desiredKeys) && NoneForeign(old(rows), desired, source))
        && (result.Err? ==> rows == old(rows))
        && (result.Ok? ==>
              && SyncedTo(old(rows), rows, desired, source, prune)
              && result.value.added == |desired - OwnedBy(old(rows), source)|
              && result.value.removed == (if prune then |OwnedBy(old(rows), source) - desired| else 0)
              && result.value.added + result.value.kept == |desired|
              && |rows| == |old(rows)| + result.value.added - result.value.removed)
    {
      var invalid := ValidateKeys(desiredKeys);
      if invalid.Some? {
        return Err(InvalidKey(invalid.value));
      }
      var desired := set k | k in desiredKeys;
      var existing := OwnedBy(rows, source);
      var toAdd, toRemove := desired - existing, if prune then existing - desired else {};
      var kept := desired * existing;
      if k :| k in toAdd && k in rows {
        return Err(KeyOwnedByAnotherSource);
      }
      SyncLands(rows, desired, source, prune);
      SyncCounts(rows, desired, source, prune);
      InsertRows(toAdd, source);
      DeleteRows(toRemove);
      return Ok(SyncResult(|toAdd|, |toRemove|, |kept|));
    }
  }

  function Stamped(keys: set<string>, source: string): Catalogue
  {
    map k | k in keys :: Some(source)
  }

  /** No desired key is stored under another source. */
  ghost predicate NoneForeign(rows: Catalogue, desired: set<string>, source: string)
  {
    forall k :: k in desired && k in rows ==> rows[k] == Some(source)
  }

  /** The rows a sync leaves: the missing ones added, then the stale ones removed. */
  function Synced(before: Catalogue, desired: set<string>, source: string, prune: bool): Catalogue
  {
    var existing := OwnedBy(before, source);
    (before + Stamped(desired - existing, source)) - if prune then existing - desired else {}
  }

  lemma SyncLands(before: Catalogue, desired: set<string>, source: string, prune: bool)
    requires NoneForeign(before, desired, source)
    ensures SyncedTo(before, Synced(before, desired, source, prune), desired, source, prune)
  {
  }

  lemma SyncCounts(before: Catalogue, desired: set<string>, source: string, prune: bool)
    requires NoneForeign(before, desired, source)
    ensures var existing := OwnedBy(before, source);
            var toAdd, toRemove := desired - existing, if prune then existing - desired else {};
            && |toAdd| + |desired * existing| == |desired|
            && |Synced(before, desired, source, prune)| == |before| + |toAdd| - |toRemove|
  {
    var existing := OwnedBy(before, source);
    var toRemove := if prune then existing - desired else {};
    SyncKeys(before, desired, source, prune);
    AddRemoveCounts(before.Keys, desired, existing, toRemove);
  }

  lemma SyncKeys(before: Catalogue, desired: set<string>, source: string, prune: bool)
    requires NoneForeign(before, desired, source)
    ensures var existing := OwnedBy(before, source);
            && (desired - existing) !! before.Keys && existing <= before.Keys
            && Synced(before, desired, source, prune).Keys
               == before.Keys + (desired - existing) - if prune then existing - desired else {}
  {
  }

  lemma AddRemoveCounts<T>(all: set<T>, desired: set<T>, existing: set<T>, removed: set<T>)
    requires (desired - existing) !! all && removed <= all
    ensures |desired - existing| + |desired * existing| == |desired|
    ensures |all + (desired - existing) - removed| == |all| + |desired - existing| - |removed|
  {
    var added := desired - existing;
    assert desired == added + desired * existing;
    assert |all + added| == |all| + |added|;
    assert all + added == (all + added - removed) + removed;
  }

  /** The result of a sync is determined, pruning or not: there is one catalogue it can lead to. */
  lemma SyncDetermined(before: Catalogue, one: Catalogue, other: Catalogue, desired: set<string>, source: string,
                       prune: bool)
    requires SyncedTo(before, one, desired, source, prune) && SyncedTo(before, other, desired, source, prune)
    ensures one == other
  {
    forall k ensures k in one <==> k in other {
      assert k in OwnedBy(one, source) <==> k in one && one[k] == Some(source);
      assert k in OwnedBy(other, source) <==> k in other && other[k] == Some(source);
    }
    forall k | k in one ensures one[k] == other[k] {
      assert k in OwnedBy(one, source) <==> one[k] == Some(source);
      assert k in OwnedBy(other, source) <==> other[k] == Some(source);
    }
  }

  /**
   Syncing the same keys again, with the same pruning or none, is not refused, finds nothing to add or
   remove, and changes nothing: whatever a second run arrives at is the first run's catalogue.
   */
  lemma SyncRepeats(before: Catalogue, after: Catalogue, again: Catalogue, desired: set<string>, source: string,
                    prune: bool, pruneAgain: bool)
    requires SyncedTo(before, after, desired, source, prune) && (pruneAgain ==> prune)
    ensures NoneForeign(after, desired, source)
    ensures desired - OwnedBy(after, source) == {} && (pruneAgain ==> OwnedBy(after, source) - desired == {})
    ensures SyncedTo(after, again, desired, source, pruneAgain) ==> again == after
  {
    forall k | k in desired ensures k in after && after[k] == Some(source) { assert k in OwnedBy(after, source); }
    if SyncedTo(after, again, desired, source, pruneAgain) {
      assert SyncedTo(after, after, desired, source, pruneAgain);
      SyncDetermined(after, again, after, desired, source, pruneAgain);
    }
  }

  // ---- The role-permission matrix ----

  datatype MatrixError =
    | InvalidRoleId | UnknownRole | SystemRole | InvalidPermissionKey
    | UnknownPermissionKey | DuplicateGrant

  datatype Entry = Entry(role: RoleId, keys: set<string>)

  /** One entry: diff against the state at the start of the request; inserting a row twice is refused. */
  ghost function ApplyEntry(start: set<(RoleId, string)>, table: set<(RoleId, string)>,
                            e: Entry): Option<set<(RoleId, string)>>
  {
    var current := RowOf(start, e.role);
    var add := Pairs(e.role, e.keys - current);
    var remove := Pairs(e.role, current - e.keys);
    if add !! table then Some((table + add) - remove) else None
  }

  ghost function ApplyEntries(start: set<(RoleId, string)>, entries: seq<Entry>): Option<set<(RoleId, string)>>
  {
    if entries == [] then Some(start)
    else
      var before := ApplyEntries(start, entries[..|entries| - 1]);
      if before.None? then None else ApplyEntry(start, before.value, entries[|entries| - 1])
  }

  /** Every listed role gets exactly its keys, in turn. */
  ghost function Landed(start: set<(RoleId, string)>, entries: seq<Entry>): set<(RoleId, string)>
  {
    if entries == [] then start
    else
      var e := entries[|entries| - 1];
      ReplaceRow(Landed(start, entries[..|entries| - 1]), e.role, e.keys)
  }

  ghost predicate DistinctRoles(entries: seq<Entry>)
  {
    forall i, j :: 0 <= i < j < |entries| ==> entries[i].role != entries[j].role
  }

  lemma {:induction false} RowUntouched(start: set<(RoleId, string)>, entries: seq<Entry>, role: RoleId)
    requires forall i :: 0 <= i < |entries| ==> entries[i].role != role
    ensures RowOf(Landed(start, entries), role) == RowOf(start, role)
  {
    if entries != [] {
      var front, e := entries[..|entries| - 1], entries[|entries| - 1];
      RowUntouched(start, front, role);
      forall k ensures k in RowOf(Landed(start, entries), role) <==> k in RowOf(Landed(start, front), role) {
        assert (role, k) in Landed(start, entries) <==> (role, k) in Landed(start, front);
      }
    }
  }

  /** With distinct roles the stale diffs never collide and land on the desired sets. */
  lemma {:induction false} DistinctEntriesLand(start: set<(RoleId, string)>, entries: seq<Entry>)
    requires DistinctRoles(entries)
    ensures ApplyEntries(start, entries) == Some(Landed(start, entries))
  {
    if entries != [] {
      var front, e := entries[..|entries| - 1], entries[|entries| - 1];
      DistinctEntriesLand(start, front);
      RowUntouched(start, front, e.role);
      var table := Landed(start, front);
      ReplaceIsDiff(table, e.role, e.keys);
      var current := RowOf(start, e.role);
      var add := Pairs(e.role, e.keys - current);
      var remove := Pairs(e.role, current - e.keys);
      forall p | p in add ensures p !in table {
        assert p in table <==> p.1 in RowOf(table, e.role);
      }
      assert (table + add) - remove == (table - remove) + add;
    }
  }

  /** Each listed role ends with its own keys; every other role keeps what it had. */
  lemma {:induction false} LandedRow(start: set<(RoleId, string)>, entries: seq<Entry>, i: nat)
    requires DistinctRoles(entries) && i < |entries|
    ensures RowOf(Landed(start, entries), entries[i].role) == entries[i].keys
  {
    var front, e := entries[..|entries| - 1], entries[|entries| - 1];
    if i < |front| {
      LandedRow(start, front, i);
      var role := entries[i].role;
      forall k ensures k in RowOf(Landed(start, entries), role) <==> k in RowOf(Landed(start, front), role) {
        assert (role, k) in Landed(start, entries) <==> (role, k) in Landed(start, front);
      }
    }
  }

  /** Submitting the same matrix again changes nothing. */
  lemma {:induction false} LandedRepeats(start: set<(RoleId, string)>, entries: seq<Entry>, done: nat)
    requires DistinctRoles(entries) && done <= |entries|
    ensures Landed(Landed(start, entries), entries[..done]) == Landed(start, entries)
  {
    var landed := Landed(start, entries);
    if done > 0 {
      var front := entries[..done];
      assert front[..done - 1] == entries[..done - 1];
      LandedRepeats(start, entries, done - 1);
      LandedRow(start, entries, done - 1);
      ReplaceTwice(landed, entries[done - 1].role, {}, {});
    }
  }

  class PermissionMatrix {
    const systemFlag: map<RoleId, bool>
    const catalogue: set<string>
    var grants: set<(RoleId, string)>

    constructor (systemFlag: map<RoleId, bool>, catalogue: set<string>, grants: set<(RoleId, string)>)
      ensures this.systemFlag == systemFlag && this.catalogue == catalogue && this.grants == grants
    {
      this.systemFlag, this.catalogue, this.grants := systemFlag, catalogue, grants;
    }

    function Decode(assignments: seq<(string, seq<string>)>, parse: string -> Option<RoleId>): seq<Entry>
      requires forall i :: 0 <= i < |assignments| ==> parse(assignments[i].0).Some?
    {
      seq(|assignments|, i requires 0 <= i < |assignments| =>
        Entry(parse(assignments[i].0).value, set k | k in assignments[i].1))
    }

    ghost predicate RolesOk(assignments: seq<(string, seq<string>)>, parse: string -> Option<RoleId>)
    {
      forall i :: 0 <= i < |assignments| ==>
        && parse(assignments[i].0).Some?
        && parse(assignments[i].0).value in systemFlag
        && !systemFlag[parse(assignments[i].0).value]
    }

    ghost predicate KeysOk(assignments: seq<(string, seq<string>)>)
    {
      forall i :: 0 <= i < |assignments| ==> KeyListOk(assignments[i].1)
    }

    ghost predicate KeyListOk(keys: seq<string>)
    {
      forall k :: k in keys ==> Valid(k) && k in catalogue
    }

    method CheckRoles(assignments: seq<(string, seq<string>)>, parse: string -> Option<RoleId>)
      returns (error: Option<MatrixError>)
      ensures error.None? <==> RolesOk(assignments, parse)
    {
      for i := 0 to |assignments|
        invariant forall j :: 0 <= j < i ==> parse(assignments[j].0).Some?
      {
        if parse(assignments[i].0).None? {
          return Some(InvalidRoleId);
        }
      }
      for i := 0 to |assignments|
        invariant RolesOk(assignments[..i], parse)
      {
        var role := parse(assignments[i].0).value;
        if role !in systemFlag {
          return Some(UnknownRole);
        }
        if systemFlag[role] {
          return Some(SystemRole);
        }
      }
      return None;
    }

    method CheckKeys(assignments: seq<(string, seq<string>)>) returns (error: Option<MatrixError>)
      ensures error.None? <==> KeysOk(assignments)
    {
      var unknown := false;
      for i := 0 to |assignments|
        invariant forall j, k :: 0 <= j < i && k in assignments[j].1 ==> Valid(k)
        invariant !unknown <==> forall j, k :: 0 <= j < i && k in assignments[j].1 ==> k in catalogue
      {
        var keys := assignments[i].1;
        for n := 0 to |keys|
          invariant forall k :: k in keys[..n] ==> Valid(k)
          invariant !unknown <==>
            && (forall j, k :: 0 <= j < i && k in assignments[j].1 ==> k in catalogue)
            && (forall k :: k in keys[..n] ==> k in catalogue)
        {
          if !Valid(keys[n]) {
            assert keys[n] in assignments[i].1 && !KeyListOk(assignments[i].1);
            return Some(InvalidPermissionKey);
          }
          assert keys[..n + 1] == keys[..n] + [keys[n]];
          unknown := unknown || keys[n] !in catalogue;
        }
        assert keys[..|keys|] == keys;
      }
      if unknown {
        assert exists j, k :: 0 <= j < |assignments| && k in assignments[j].1 && k !in catalogue;
        var j, k :| 0 <= j < |assignments| && k in assignments[j].1 && k !in catalogue;
        assert !KeyListOk(assignments[j].1);
        return Some(UnknownPermissionKey);
      }
      return None;
    }

    /**
     All or nothing. With submitted role ids that name distinct roles, a PUT succeeds exactly when every
     role is known and editable and every key is valid and catalogued, and then lands on the desired sets.
     */
    method UpdateMatrix(assignments: seq<(string, seq<string>)>, parse: string -> Option<RoleId>)
      returns (error: Option<MatrixError>)
      modifies this
      ensures error.Some? ==> grants == old(grants)
      ensures error.None? ==> forall i :: 0 <= i < |assignments| ==>
        && parse(assignments[i].0).Some? && parse(assignments[i].0).value in systemFlag
        && !systemFlag[parse(assignments[i].0).value]
        && forall k :: k in assignments[i].1 ==> Valid(k) && k in catalogue
      ensures error.None? ==>
        && RolesOk(assignments, parse) && KeysOk(assignments)
        && ApplyEntries(old(grants), Decode(assignments, parse)) == Some(grants)
      ensures RolesOk(assignments, parse) && KeysOk(assignments) && DistinctRoles(Decode(assignments, parse)) ==>
        error.None? && grants == Landed(old(grants), Decode(assignments, parse))
    {
      error := CheckRoles(assignments, parse);
      if error.Some? {
        return;
      }
      error := CheckKeys(assignments);
      if error.Some? {
        return;
      }
      var entries := Decode(assignments, parse);
      if DistinctRoles(entries) { DistinctEntriesLand(grants, entries); }
      var table := new LinkTable(grants);
      var applied := ApplyAll(grants, table, entries);
      if !applied {
        return Some(DuplicateGrant);
      }
      grants := table.rows;
      return None;
    }

    method ApplyAll(start: set<(RoleId, string)>, table: LinkTable<RoleId, string>, entries: seq<Entry>)
      returns (applied: bool)
      requires table.rows == start
      modifies table
      ensures ApplyEntries(start, entries) == if applied then Some(table.rows) else None
    {
      for i := 0 to |entries|
        invariant ApplyEntries(start, entries[..i]) == Some(table.rows)
      {
        assert entries[..i + 1][..i] == entries[..i] && entries[..i + 1][i] == entries[i];
        applied := ApplyOne(start, table, entries[i]);
        if !applied {
          FailedPrefix(start, entries, i + 1);
          return false;
        }
      }
      assert entries[..|entries|] == entries;
      return true;
    }

    /** One role's diff against the state the request started from. */
    method ApplyOne(start: set<(RoleId, string)>, table: LinkTable<RoleId, string>, e: Entry) returns (applied: bool)
      modifies table
      ensures ApplyEntry(start, old(table.rows), e) == if applied then Some(table.rows) else None
    {
      var current := RowOf(start, e.role);
      var toAdd, toRemove := e.keys - current, current - e.keys;
      if !(Pairs(e.role, toAdd) !! table.rows) {
        return false;
      }
      ghost var before := table.rows;
      table.AddAll(e.role, toAdd);
      table.DeleteAll(e.role, toRemove);
      assert table.rows == (before + Pairs(e.role, toAdd)) - Pairs(e.role, toRemove);
      return true;
    }
  }

  lemma {:induction false} FailedPrefix(start: set<(RoleId, string)>, entries: seq<Entry>, n: nat)
    requires n <= |entries| && ApplyEntries(start, entries[..n]).None?
    ensures ApplyEntries(start, entries).None?
    decreases |entries| - n
  {
    if n < |entries| {
      assert entries[..n + 1][..n] == entries[..n];
      FailedPrefix(start, entries, n + 1);
    } else {
      assert entries[..n] == entries;
    }
  }
}
