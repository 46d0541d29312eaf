/**
 Saving a parent record together with the child rows edited inline: one transaction that applies every
 row or, when any of them is refused, none.
 */
module InlineWrites {
  import opened Prelude
  import FieldAccess

  datatype Json =
    | Null
    | Bool(flag: bool)
    | Number(number: int)
    | Text(text: string)
    | Array(items: seq<Json>)
    | Object(fields: map<string, Json>)

  predicate Truthy(j: Json)
  {
    match j
    case Null => false
    case Bool(flag) => flag
    case Number(n) => n != 0
    case Text(text) => text != ""
    case Array(items) => items != []
    case Object(fields) => fields != map[]
  }

  /** A primary key, drawn from a supply that never repeats. */
  type Id = nat
  type Row = map<string, Json>
  type Table = map<Id, Row>

  /** An inline's own policy, as it answers the caller at hand. */
  datatype InlinePolicy = InlinePolicy(create: bool, update: Row -> bool, delete: Row -> bool)

  /** `key` reads a primary key off the wire. */
  datatype Inline = Inline(
    columns: set<string>,
    fkName: Option<string>,
    fields: set<string>,
    readonlyFields: set<string>,
    maxNum: Option<int>,
    canDelete: bool,
    policy: Option<InlinePolicy>,
    key: Json -> Option<Id>)

  datatype Refusal =
    | BadPayload | UnknownTable | NoForeignKey | TooManyRows | NotAnObject | MissingId
    | Forbidden | NotFound | UnknownFields | NotAColumn | HookRaised | Database

  // ---- The payload ----

  /** Takes the `inlines` block out of a payload; a missing or empty one is no block. */
  function SplitParentPayload(payload: map<string, Json>): Result<(map<string, Json>, map<string, seq<Json>>), Refusal>
  {
    if "inlines" !in payload || !Truthy(payload["inlines"]) then Ok((payload - {"inlines"}, map[]))
    else if !payload["inlines"].Object? then Err(BadPayload)
    else
      var block := payload["inlines"].fields;
      if exists t :: t in block && !block[t].Array? then Err(BadPayload)
      else Ok((payload - {"inlines"}, map t | t in block :: block[t].items))
  }

  function Rejoined(parent: map<string, Json>, inlines: map<string, seq<Json>>): map<string, Json>
  {
    parent["inlines" := Object(map t | t in inlines :: Array(inlines[t]))]
  }

  /** Splitting takes nothing else away, and the two parts make up the payload again. */
  lemma SplitLosesNothing(payload: map<string, Json>)
    ensures var parts := SplitParentPayload(payload);
            && (parts.Ok? <==>
                  ("inlines" in payload && Truthy(payload["inlines"]) ==>
                     && payload["inlines"].Object?
                     && forall t :: t in payload["inlines"].fields ==> payload["inlines"].fields[t].Array?))
            && (parts.Ok? ==> parts.value.0 == payload - {"inlines"})
            && (parts.Ok? && parts.value.1 != map[] ==> Rejoined(parts.value.0, parts.value.1) == payload)
            && (parts.Ok? ==>
                  (parts.value.1 != map[] <==> "inlines" in payload && Truthy(payload["inlines"])))
  {
    var parts := SplitParentPayload(payload);
    if parts.Ok? && parts.value.1 != map[] {
      var block, inlines := payload["inlines"].fields, parts.value.1;
      assert (map t | t in inlines :: Array(inlines[t])) == block;
    }
  }

  // ---- One row ----

  /** The columns a row may write. */
  function Writable(inline: Inline): set<string>
  {
    if inline.fields != {} then inline.fields - inline.readonlyFields
    else inline.columns - inline.readonlyFields - (if inline.fkName.Some? then {inline.fkName.value} else {})
  }

  predicate WantsDelete(raw: Json)
  {
    raw.Object? && "_delete" in raw.fields && Truthy(raw.fields["_delete"])
  }

  predicate HasId(raw: Json)
  {
    raw.Object? && "id" in raw.fields && !raw.fields["id"].Null?
  }

  predicate IsCreate(raw: Json)
  {
    raw.Object? && !WantsDelete(raw) && !HasId(raw)
  }

  function Values(raw: Json): Row
    requires raw.Object?
  {
    raw.fields - {"_delete", "id"}
  }

  /** The row a payload entry names, read by primary key alone. */
  function Named(inline: Inline, raw: Json): Option<Id>
  {
    if HasId(raw) then inline.key(raw.fields["id"]) else None
  }

  /** One child table, and the next primary key. */
  datatype State = State(table: Table, next: Id)

  /** Sets the given columns; a name that is no column leaves no trace in the table. */
  function Updated(inline: Inline, was: Row, values: Row): Row
  {
    was + map k | k in values && k in inline.columns :: values[k]
  }

  function DeleteChild(inline: Inline, s: State, raw: Json): Result<State, Refusal>
  {
    var child := Named(inline, raw);
    if !HasId(raw) then Err(MissingId)
    else if !inline.canDelete then Err(Forbidden)
    else if child.None? || child.value !in s.table then Err(NotFound)
    else if inline.policy.Some? && !inline.policy.value.delete(s.table[child.value]) then Err(Forbidden)
    else Ok(s.(table := s.table - {child.value}))
  }

  function CreateChild(inline: Inline, fk: string, parent: Id, s: State, values: Row): Result<State, Refusal>
  {
    if inline.policy.Some? && !inline.policy.value.create then Err(Forbidden)
    else if !(values.Keys + {fk} <= inline.columns) then Err(NotAColumn)
    else Ok(State(s.table[s.next := values[fk := Number(parent)]], s.next + 1))
  }

  function UpdateChild(inline: Inline, s: State, child: Option<Id>, values: Row): Result<State, Refusal>
  {
    if child.None? || child.value !in s.table then Err(NotFound)
    else if inline.policy.Some? && !inline.policy.value.update(s.table[child.value]) then Err(Forbidden)
    else Ok(s.(table := s.table[child.value := Updated(inline, s.table[child.value], values)]))
  }

  function RowStep(inline: Inline, fk: string, parent: Id, s: State, raw: Json): Result<State, Refusal>
  {
    if !raw.Object? then Err(NotAnObject)
    else if WantsDelete(raw) then DeleteChild(inline, s, raw)
    else if !(Values(raw).Keys <= Writable(inline)) then Err(UnknownFields)
    else if !HasId(raw) then CreateChild(inline, fk, parent, s, Values(raw))
    else UpdateChild(inline, s, Named(inline, raw), Values(raw))
  }

  /** Only these values count as false. */
  lemma TruthyIff(j: Json)
    ensures !Truthy(j) <==> j in {Null, Bool(false), Number(0), Text(""), Array([]), Object(map[])}
  {
  }

  /** The declared fields less the read-only ones; with none declared, every column but the foreign key and those. */
  lemma WritableIff(inline: Inline, c: string)
    ensures c in Writable(inline) <==>
              && c !in inline.readonlyFields
              && (if inline.fields == {} then c in inline.columns && inline.fkName != Some(c) else c in inline.fields)
  {
  }

  /** The entry names a row of the table. */
  predicate NamesRow(inline: Inline, s: State, raw: Json)
  {
    && raw.Object? && "id" in raw.fields && raw.fields["id"] != Null
    && inline.key(raw.fields["id"]).Some? && inline.key(raw.fields["id"]).value in s.table
  }

  /** When an entry is accepted, by what it asks for. */
  lemma EntryAcceptedIff(inline: Inline, fk: string, parent: Id, s: State, raw: Json)
    requires raw.Object?
    ensures var fields, ok := raw.fields, RowStep(inline, fk, parent, s, raw).Ok?;
            if "_delete" in fields && Truthy(fields["_delete"]) then
              ok <==> && inline.canDelete && NamesRow(inline, s, raw)
                      && (inline.policy.Some? ==> inline.policy.value.delete(s.table[inline.key(fields["id"]).value]))
            else if "id" in fields && fields["id"] != Null then
              ok <==> && NamesRow(inline, s, raw)
                      && (forall k :: k in fields && k != "id" && k != "_delete" ==> k in Writable(inline))
                      && (inline.policy.Some? ==> inline.policy.value.update(s.table[inline.key(fields["id"]).value]))
            else
              ok <==> && (forall k :: k in fields && k != "id" && k != "_delete" ==>
                            k in Writable(inline) && k in inline.columns)
                      && fk in inline.columns && (inline.policy.Some? ==> inline.policy.value.create)
  {
    assert Values(raw).Keys == set k | k in raw.fields && k != "id" && k != "_delete";
  }

  function RunRows(inline: Inline, fk: string, parent: Id, s: State, rows: seq<Json>): Result<State, Refusal>
  {
    if rows == [] then Ok(s)
    else
      match RunRows(inline, fk, parent, s, rows[..|rows| - 1])
      case Err(e) => Err(e)
      case Ok(s') => RowStep(inline, fk, parent, s', rows[|rows| - 1])
  }

  /** All rows for one child table. */
  function RunTable(inline: Inline, parent: Id, s: State, rows: seq<Json>): Result<State, Refusal>
  {
    if inline.fkName.None? then Err(NoForeignKey)
    else if inline.maxNum.Some? && |rows| > inline.maxNum.value then Err(TooManyRows)
    else RunRows(inline, inline.fkName.value, parent, s, rows)
  }

  lemma {:induction false} RefusalStands(inline: Inline, fk: string, parent: Id, s: State, rows: seq<Json>, i: nat)
    requires i <= |rows| && RunRows(inline, fk, parent, s, rows[..i]).Err?
    ensures RunRows(inline, fk, parent, s, rows) == RunRows(inline, fk, parent, s, rows[..i])
  {
    if i == |rows| {
      assert rows[..i] == rows;
    } else {
      assert rows[..|rows| - 1][..i] == rows[..i];
      RefusalStands(inline, fk, parent, s, rows[..|rows| - 1], i);
    }
  }

  /** The entry is accepted in the table that the entries before it leave. */
  predicate AcceptedInTurn(inline: Inline, fk: string, parent: Id, s: State, rows: seq<Json>, i: nat)
    requires i < |rows|
  {
    var before := RunRows(inline, fk, parent, s, rows[..i]);
    before.Ok? && RowStep(inline, fk, parent, before.value, rows[i]).Ok?
  }

  lemma {:induction false} RowsAcceptedIff(inline: Inline, fk: string, parent: Id, s: State, rows: seq<Json>)
    ensures RunRows(inline, fk, parent, s, rows).Ok? <==>
              forall i :: 0 <= i < |rows| ==> AcceptedInTurn(inline, fk, parent, s, rows, i)
  {
    if rows != [] {
      var n := |rows| - 1;
      RowsAcceptedIff(inline, fk, parent, s, rows[..n]);
      forall i | 0 <= i < n
        ensures AcceptedInTurn(inline, fk, parent, s, rows, i) <==>
                  AcceptedInTurn(inline, fk, parent, s, rows[..n], i)
      {
        assert rows[..n][..i] == rows[..i];
      }
      assert RunRows(inline, fk, parent, s, rows).Ok? <==>
          RunRows(inline, fk, parent, s, rows[..n]).Ok? && AcceptedInTurn(inline, fk, parent, s, rows, n);
    }
  }

  /** A table's rows are saved exactly when there are not too many of them and each is accepted in turn. */
  lemma TableAcceptedIff(inline: Inline, parent: Id, s: State, rows: seq<Json>)
    ensures RunTable(inline, parent, s, rows).Ok? <==>
              && inline.fkName.Some? && (inline.maxNum.Some? ==> |rows| <= inline.maxNum.value)
              && forall i :: 0 <= i < |rows| ==> AcceptedInTurn(inline, inline.fkName.value, parent, s, rows, i)
  {
    if inline.fkName.Some? {
      RowsAcceptedIff(inline, inline.fkName.value, parent, s, rows);
    }
  }

  // ---- What the rows do to a table ----

  predicate BelowNext(s: State)
  {
    forall id :: id in s.table ==> id < s.next
  }

  function CountCreates(rows: seq<Json>): nat
  {
    if rows == [] then 0 else CountCreates(rows[..|rows| - 1]) + if IsCreate(rows[|rows| - 1]) then 1 else 0
  }

  function CountDeletes(rows: seq<Json>): nat
  {
    if rows == [] then 0 else CountDeletes(rows[..|rows| - 1]) + if WantsDelete(rows[|rows| - 1]) then 1 else 0
  }

  lemma RemovedOne(t: Table, id: Id)
    requires id in t
    ensures |t - {id}| == |t| - 1
  {
    assert (t - {id}).Keys == t.Keys - {id};
    assert |t - {id}| == |(t - {id}).Keys| && |t| == |t.Keys|;
  }

  lemma AddedOne(t: Table, id: Id, row: Row)
    ensures |t[id := row]| == if id in t then |t| else |t| + 1
  {
    assert t[id := row].Keys == t.Keys + {id};
    assert |t[id := row]| == |t[id := row].Keys| && |t| == |t.Keys|;
  }

  /** How many rows and keys a step adds. */
  ghost predicate Grows(s: State, s': State, rows: int, keys: nat)
  {
    BelowNext(s') && |s'.table| == |s.table| + rows && s'.next == s.next + keys
  }

  lemma DeleteConserves(inline: Inline, s: State, raw: Json)
    requires BelowNext(s) && DeleteChild(inline, s, raw).Ok?
    ensures Grows(s, DeleteChild(inline, s, raw).value, -1, 0)
  {
    RemovedOne(s.table, Named(inline, raw).value);
  }

  lemma CreateConserves(inline: Inline, fk: string, parent: Id, s: State, values: Row)
    requires BelowNext(s) && CreateChild(inline, fk, parent, s, values).Ok?
    ensures Grows(s, CreateChild(inline, fk, parent, s, values).value, 1, 1)
  {
    AddedOne(s.table, s.next, values[fk := Number(parent)]);
  }

  lemma UpdateConserves(inline: Inline, s: State, child: Option<Id>, values: Row)
    requires BelowNext(s) && UpdateChild(inline, s, child, values).Ok?
    ensures Grows(s, UpdateChild(inline, s, child, values).value, 0, 0)
  {
    AddedOne(s.table, child.value, Updated(inline, s.table[child.value], values));
  }

  lemma StepConserves(inline: Inline, fk: string, parent: Id, s: State, raw: Json)
    requires BelowNext(s) && RowStep(inline, fk, parent, s, raw).Ok?
    ensures var created, deleted := if IsCreate(raw) then 1 else 0, if WantsDelete(raw) then 1 else 0;
            Grows(s, RowStep(inline, fk, parent, s, raw).value, created - deleted, created)
  {
    if WantsDelete(raw) {
      DeleteConserves(inline, s, raw);
    } else if HasId(raw) {
      UpdateConserves(inline, s, Named(inline, raw), Values(raw));
    } else {
      CreateConserves(inline, fk, parent, s, Values(raw));
    }
  }

  /** On success the table has grown by the rows without an id and shrunk by the deleted ones. */
  lemma {:induction false} ChildrenAreConserved(inline: Inline, fk: string, parent: Id, s: State, rows: seq<Json>)
    requires BelowNext(s) && RunRows(inline, fk, parent, s, rows).Ok?
    ensures var s' := RunRows(inline, fk, parent, s, rows).value;
            && BelowNext(s')
            && |s'.table| == |s.table| + CountCreates(rows) - CountDeletes(rows)
            && s'.next == s.next + CountCreates(rows)
  {
    if rows != [] {
      var front, last := rows[..|rows| - 1], rows[|rows| - 1];
      ChildrenAreConserved(inline, fk, parent, s, front);
      StepConserves(inline, fk, parent, RunRows(inline, fk, parent, s, front).value, last);
    }
  }

  /** A stored row that differs from what it was in writable columns only. */
  ghost predicate SameButWritable(inline: Inline, was: Row, row: Row)
  {
    forall k :: k !in Writable(inline) ==> (k in was <==> k in row) && (k in was ==> row[k] == was[k])
  }

  lemma SameButWritableTwice(inline: Inline, a: Row, b: Row, c: Row)
    requires SameButWritable(inline, a, b) && SameButWritable(inline, b, c)
    ensures SameButWritable(inline, a, c)
  {
  }

  predicate Deletes(inline: Inline, raw: Json, id: Id)
  {
    WantsDelete(raw) && Named(inline, raw) == Some(id)
  }

  lemma StepFate(inline: Inline, fk: string, parent: Id, s: State, raw: Json, id: Id)
    requires RowStep(inline, fk, parent, s, raw).Ok? && id < s.next
    ensures var s' := RowStep(inline, fk, parent, s, raw).value;
            && (id in s'.table ==> id in s.table && SameButWritable(inline, s.table[id], s'.table[id]))
            && (id in s.table && id !in s'.table ==> Deletes(inline, raw, id))
            && (Named(inline, raw) != Some(id) && id in s.table ==> id in s'.table && s'.table[id] == s.table[id])
  {
    if id in s.table && HasId(raw) && !WantsDelete(raw) {
      UpdatedInWritable(inline, s.table[id], Values(raw));
    }
  }

  lemma UpdatedInWritable(inline: Inline, was: Row, values: Row)
    requires values.Keys <= Writable(inline)
    ensures SameButWritable(inline, was, Updated(inline, was, values))
  {
  }

  /** A child that is still there was there before, and has changed in writable columns only. */
  lemma {:induction false} SurvivorsChangeInWritable(inline: Inline, fk: string, parent: Id, s: State,
                                                     rows: seq<Json>, id: Id)
    requires BelowNext(s) && RunRows(inline, fk, parent, s, rows).Ok? && id < s.next
    ensures var s' := RunRows(inline, fk, parent, s, rows).value;
            id in s'.table ==> id in s.table && SameButWritable(inline, s.table[id], s'.table[id])
  {
    if rows != [] {
      var front, last := rows[..|rows| - 1], rows[|rows| - 1];
      var middle, end := RunRows(inline, fk, parent, s, front).value, RunRows(inline, fk, parent, s, rows).value;
      SurvivorsChangeInWritable(inline, fk, parent, s, front, id);
      ChildrenAreConserved(inline, fk, parent, s, front);
      StepFate(inline, fk, parent, middle, last, id);
      if id in end.table {
        SameButWritableTwice(inline, s.table[id], middle.table[id], end.table[id]);
      }
    }
  }

  /** A child that is gone was deleted by an entry that names it. */
  lemma {:induction false} GoneWereDeleted(inline: Inline, fk: string, parent: Id, s: State, rows: seq<Json>, id: Id)
    requires BelowNext(s) && RunRows(inline, fk, parent, s, rows).Ok? && id in s.table
    ensures id !in RunRows(inline, fk, parent, s, rows).value.table ==>
              exists i :: 0 <= i < |rows| && Deletes(inline, rows[i], id)
  {
    if rows != [] {
      var n := |rows| - 1;
      GoneWereDeleted(inline, fk, parent, s, rows[..n], id);
      ChildrenAreConserved(inline, fk, parent, s, rows[..n]);
      StepFate(inline, fk, parent, RunRows(inline, fk, parent, s, rows[..n]).value, rows[n], id);
      if i :| 0 <= i < n && Deletes(inline, rows[..n][i], id) {
        assert Deletes(inline, rows[i], id);
      }
    }
  }

  /** A child that no entry names is exactly as it was. */
  lemma {:induction false} UnnamedUntouched(inline: Inline, fk: string, parent: Id, s: State, rows: seq<Json>, id: Id)
    requires BelowNext(s) && RunRows(inline, fk, parent, s, rows).Ok? && id in s.table
    requires forall i :: 0 <= i < |rows| ==> Named(inline, rows[i]) != Some(id)
    ensures var s' := RunRows(inline, fk, parent, s, rows).value; id in s'.table && s'.table[id] == s.table[id]
  {
    if rows != [] {
      var n := |rows| - 1;
      UnnamedUntouched(inline, fk, parent, s, rows[..n], id);
      ChildrenAreConserved(inline, fk, parent, s, rows[..n]);
      StepFate(inline, fk, parent, RunRows(inline, fk, parent, s, rows[..n]).value, rows[n], id);
    }
  }

  /** No entry names a child that the same save is only about to create. */
  ghost predicate NamesExistingOnly(inline: Inline, s: State, rows: seq<Json>)
  {
    forall raw :: raw in rows && Named(inline, raw).Some? ==> Named(inline, raw).value < s.next
  }

  ghost predicate Belongs(t: Table, fk: string, parent: Id, id: Id)
  {
    id in t ==> fk in t[id] && t[id][fk] == Number(parent)
  }

  lemma StepBelongs(inline: Inline, fk: string, parent: Id, s: State, raw: Json, id: Id)
    requires BelowNext(s) && RowStep(inline, fk, parent, s, raw).Ok? && Belongs(s.table, fk, parent, id)
    requires fk !in Writable(inline) || Named(inline, raw) != Some(id)
    ensures Belongs(RowStep(inline, fk, parent, s, raw).value.table, fk, parent, id)
  {
    if id in s.table && HasId(raw) && !WantsDelete(raw) {
      UpdatedInWritable(inline, s.table[id], Values(raw));
    }
  }

  /** Every created child carries the parent's key, unless the key is writable and an entry guessed the child's. */
  lemma {:induction false} CreatedChildrenBelong(inline: Inline, fk: string, parent: Id, s: State, rows: seq<Json>,
                                                 id: Id)
    requires BelowNext(s) && RunRows(inline, fk, parent, s, rows).Ok? && s.next <= id
    requires fk !in Writable(inline) || NamesExistingOnly(inline, s, rows)
    ensures Belongs(RunRows(inline, fk, parent, s, rows).value.table, fk, parent, id)
  {
    if rows != [] {
      var front, last := rows[..|rows| - 1], rows[|rows| - 1];
      assert rows == front + [last];
      CreatedChildrenBelong(inline, fk, parent, s, front, id);
      ChildrenAreConserved(inline, fk, parent, s, front);
      assert last in rows;
      StepBelongs(inline, fk, parent, RunRows(inline, fk, parent, s, front).value, last, id);
    }
  }

  /** The entry sets a column of the child it names. */
  predicate SetsColumn(inline: Inline, column: string, raw: Json, id: Id)
  {
    raw.Object? && !WantsDelete(raw) && Named(inline, raw) == Some(id) && column in Values(raw)
  }

  /** The value that the last entry to set the column gives the child. */
  function LastSet(inline: Inline, column: string, rows: seq<Json>, id: Id): Option<Json>
  {
    if rows == [] then None
    else
      var last := rows[|rows| - 1];
      if SetsColumn(inline, column, last, id) then Some(Values(last)[column])
      else LastSet(inline, column, rows[..|rows| - 1], id)
  }

  function Column(row: Row, column: string): Option<Json>
  {
    if column in row then Some(row[column]) else None
  }

  function OrElse(key: Option<Json>, default: Option<Json>): Option<Json>
  {
    if key.Some? then key else default
  }

  /** A child's foreign key, `key` being the value last set, if any. */
  ghost predicate KeyIs(t: Table, fk: string, parent: Id, id: Id, key: Option<Json>)
  {
    id in t ==> fk in t[id] && t[id][fk] == if key.None? then Number(parent) else key.value
  }

  lemma StepKey(inline: Inline, fk: string, parent: Id, s: State, raw: Json, id: Id, before: Option<Json>)
    requires BelowNext(s) && RowStep(inline, fk, parent, s, raw).Ok? && fk in inline.columns
    requires KeyIs(s.table, fk, parent, id, before) && (id !in s.table && s.next <= id ==> before.None?)
    ensures var s' := RowStep(inline, fk, parent, s, raw).value;
            var after := if SetsColumn(inline, fk, raw, id) then Some(Values(raw)[fk]) else before;
            KeyIs(s'.table, fk, parent, id, after) && (s'.next <= id ==> s.next <= id && after == before)
  {
  }

  /** A create is accepted only where the foreign key is a column of the child. */
  lemma {:induction false} CreatedHasKey(inline: Inline, fk: string, parent: Id, s: State, rows: seq<Json>)
    requires RunRows(inline, fk, parent, s, rows).Ok?
    ensures RunRows(inline, fk, parent, s, rows).value.next != s.next ==> fk in inline.columns
  {
    if rows != [] {
      CreatedHasKey(inline, fk, parent, s, rows[..|rows| - 1]);
    }
  }

  lemma {:induction false} CreatedKeys(inline: Inline, fk: string, parent: Id, s: State, rows: seq<Json>, id: Id)
    requires BelowNext(s) && RunRows(inline, fk, parent, s, rows).Ok? && s.next <= id && fk in inline.columns
    ensures var s' := RunRows(inline, fk, parent, s, rows).value;
            && KeyIs(s'.table, fk, parent, id, LastSet(inline, fk, rows, id))
            && (s'.next <= id ==> LastSet(inline, fk, rows, id).None?)
  {
    if rows != [] {
      var front, last := rows[..|rows| - 1], rows[|rows| - 1];
      CreatedKeys(inline, fk, parent, s, front, id);
      ChildrenAreConserved(inline, fk, parent, s, front);
      var middle := RunRows(inline, fk, parent, s, front).value;
      StepKey(inline, fk, parent, middle, last, id, LastSet(inline, fk, front, id));
    }
  }

  /**
   A created child that is still there carries the parent's key exactly when the last entry of the
   save that names it and sets the key, if there is one, sets it to the parent's.
   */
  lemma CreatedChildBelongsIff(inline: Inline, fk: string, parent: Id, s: State, rows: seq<Json>, id: Id)
    requires BelowNext(s) && RunRows(inline, fk, parent, s, rows).Ok? && s.next <= id
    requires id in RunRows(inline, fk, parent, s, rows).value.table
    ensures Belongs(RunRows(inline, fk, parent, s, rows).value.table, fk, parent, id)
            <==> (LastSet(inline, fk, rows, id).Some? ==> LastSet(inline, fk, rows, id) == Some(Number(parent)))
  {
    ChildrenAreConserved(inline, fk, parent, s, rows);
    CreatedHasKey(inline, fk, parent, s, rows);
    CreatedKeys(inline, fk, parent, s, rows, id);
  }

  /** What one entry does to one column of a child that is there. */
  lemma StepColumn(inline: Inline, fk: string, parent: Id, s: State, raw: Json, id: Id, c: string)
    requires RowStep(inline, fk, parent, s, raw).Ok? && c in inline.columns && id in s.table && id < s.next
    ensures var s' := RowStep(inline, fk, parent, s, raw).value;
            id in s'.table ==>
              Column(s'.table[id], c)
              == if SetsColumn(inline, c, raw, id) then Some(Values(raw)[c]) else Column(s.table[id], c)
  {
  }

  /** Every column of a child that was there before holds what the last entry to set it says, or what it held. */
  lemma {:induction false} ExistingColumnsLand(inline: Inline, fk: string, parent: Id, s: State, rows: seq<Json>,
                                               id: Id, c: string)
    requires BelowNext(s) && RunRows(inline, fk, parent, s, rows).Ok? && c in inline.columns && id in s.table
    ensures var s' := RunRows(inline, fk, parent, s, rows).value;
            id in s'.table ==>
              Column(s'.table[id], c) == OrElse(LastSet(inline, c, rows, id), Column(s.table[id], c))
  {
    if rows != [] {
      var front, last := rows[..|rows| - 1], rows[|rows| - 1];
      var middle := RunRows(inline, fk, parent, s, front).value;
      ExistingColumnsLand(inline, fk, parent, s, front, id, c);
      ChildrenAreConserved(inline, fk, parent, s, front);
      StepFate(inline, fk, parent, middle, last, id);
      if id in middle.table {
        StepColumn(inline, fk, parent, middle, last, id, c);
      }
    }
  }

  /** No entry of a save that succeeds names a child before it is there. */
  lemma {:induction false} UnmadeIsUnnamed(inline: Inline, fk: string, parent: Id, s: State, rows: seq<Json>, id: Id,
                                           c: string)
    requires BelowNext(s) && RunRows(inline, fk, parent, s, rows).Ok?
    requires RunRows(inline, fk, parent, s, rows).value.next <= id
    ensures LastSet(inline, c, rows, id).None?
  {
    if rows != [] {
      var front, last := rows[..|rows| - 1], rows[|rows| - 1];
      ChildrenAreConserved(inline, fk, parent, s, front);
      StepConserves(inline, fk, parent, RunRows(inline, fk, parent, s, front).value, last);
      UnmadeIsUnnamed(inline, fk, parent, s, front, id, c);
    }
  }

  /** The key the entry's child gets. */
  function CreatedId(s: State, rows: seq<Json>, i: nat): Id
    requires i < |rows|
  {
    s.next + CountCreates(rows[..i])
  }

  /** What the creating entry gives the column: the parent's key, or its own value, if any. */
  function Given(fk: string, parent: Id, raw: Json, c: string): Option<Json>
    requires raw.Object?
  {
    if c == fk then Some(Number(parent)) else Column(Values(raw), c)
  }

  /** What a create leaves in a column: the parent's key, or the entry's value, if it gives one. */
  lemma CreateLands(inline: Inline, fk: string, parent: Id, s: State, raw: Json, c: string)
    requires IsCreate(raw) && RowStep(inline, fk, parent, s, raw).Ok?
    ensures var s' := RowStep(inline, fk, parent, s, raw).value;
            && s.next in s'.table
            && Column(s'.table[s.next], c) == Given(fk, parent, raw, c)
  {
  }

  /** The column of the child, if the child is there. */
  ghost predicate ColumnIs(t: Table, id: Id, c: string, value: Option<Json>)
  {
    id in t ==> Column(t[id], c) == value
  }

  lemma EntryLands(inline: Inline, fk: string, parent: Id, s: State, raw: Json, id: Id, c: string, set0: Option<Json>,
                   given: Option<Json>)
    requires RowStep(inline, fk, parent, s, raw).Ok? && c in inline.columns && id < s.next
    requires ColumnIs(s.table, id, c, OrElse(set0, given))
    ensures var set1 := if SetsColumn(inline, c, raw, id) then Some(Values(raw)[c]) else set0;
            ColumnIs(RowStep(inline, fk, parent, s, raw).value.table, id, c, OrElse(set1, given))
  {
    StepFate(inline, fk, parent, s, raw, id);
    if id in s.table {
      StepColumn(inline, fk, parent, s, raw, id, c);
    }
  }

  lemma JustCreated(inline: Inline, fk: string, parent: Id, s: State, front: seq<Json>, raw: Json, c: string)
    requires BelowNext(s) && RunRows(inline, fk, parent, s, front).Ok? && IsCreate(raw)
    requires RowStep(inline, fk, parent, RunRows(inline, fk, parent, s, front).value, raw).Ok?
    ensures var middle := RunRows(inline, fk, parent, s, front).value;
            && middle.next == s.next + CountCreates(front)
            && LastSet(inline, c, front, middle.next).None?
            && ColumnIs(RowStep(inline, fk, parent, middle, raw).value.table, middle.next, c, Given(fk, parent, raw, c))
  {
    var middle := RunRows(inline, fk, parent, s, front).value;
    ChildrenAreConserved(inline, fk, parent, s, front);
    UnmadeIsUnnamed(inline, fk, parent, s, front, middle.next, c);
    CreateLands(inline, fk, parent, middle, raw, c);
  }

  /** One more entry after the child was made. */
  lemma CreatedThenSet(inline: Inline, fk: string, parent: Id, s: State, front: seq<Json>, raw: Json, id: Id, c: string,
                       given: Option<Json>)
    requires BelowNext(s) && RunRows(inline, fk, parent, s, front).Ok? && c in inline.columns
    requires RowStep(inline, fk, parent, RunRows(inline, fk, parent, s, front).value, raw).Ok?
    requires id < s.next + CountCreates(front)
    requires ColumnIs(RunRows(inline, fk, parent, s, front).value.table, id, c,
                      OrElse(LastSet(inline, c, front, id), given))
    ensures ColumnIs(RunRows(inline, fk, parent, s, front + [raw]).value.table, id, c,
                     OrElse(LastSet(inline, c, front + [raw], id), given))
  {
    ChildrenAreConserved(inline, fk, parent, s, front);
    assert (front + [raw])[..|front|] == front;
    var middle := RunRows(inline, fk, parent, s, front).value;
    EntryLands(inline, fk, parent, middle, raw, id, c, LastSet(inline, c, front, id), given);
  }

  /**
   Every column of a created child holds what the last later entry to set it says; else the parent's key,
   or what the creating entry says.
   */
  lemma {:induction false} CreatedColumnsLand(inline: Inline, fk: string, parent: Id, s: State, rows: seq<Json>, i: nat,
                                              c: string)
    requires BelowNext(s) && RunRows(inline, fk, parent, s, rows).Ok? && c in inline.columns
    requires i < |rows| && IsCreate(rows[i])
    ensures var id := CreatedId(s, rows, i);
            ColumnIs(RunRows(inline, fk, parent, s, rows).value.table, id, c,
                     OrElse(LastSet(inline, c, rows, id), Given(fk, parent, rows[i], c)))
  {
    var n := |rows| - 1;
    var front, last, id := rows[..n], rows[n], CreatedId(s, rows, i);
    if i == n {
      JustCreated(inline, fk, parent, s, front, last, c);
      assert !SetsColumn(inline, c, last, id);
    } else {
      assert front[..i] == rows[..i];
      CreatedColumnsLand(inline, fk, parent, s, front, i, c);
      CreatesBefore(rows, i, n);
      assert rows == front + [last];
      CreatedThenSet(inline, fk, parent, s, front, last, id, c, Given(fk, parent, rows[i], c));
    }
  }

  lemma {:induction false} CreatesBefore(rows: seq<Json>, i: nat, n: nat)
    requires i < n <= |rows| && IsCreate(rows[i])
    ensures CountCreates(rows[..i]) < CountCreates(rows[..n])
  {
    assert rows[..n][..n - 1] == rows[..n - 1];
    if i < n - 1 {
      CreatesBefore(rows, i, n - 1);
    }
  }

  /** Comments whose post may be edited; a number on the wire is the primary key. */
  const MOVABLE: Inline := Inline({"note", "post_id"}, Some("post_id"), {"note", "post_id"}, {}, None, true, None,
                                  (j: Json) => if j.Number? && j.number >= 0 then Some(j.number) else None)

  /** One save that creates child 7 under parent 1 and moves it to parent 2. */
  const MOVING: seq<Json> :=
    [Object(map["note" := Text("")]), Object(map["id" := Number(7), "post_id" := Number(2)])]

  /** The failing input: the save succeeds, and the child it created belongs to another parent. */
  lemma MovedChildDoesNotBelong()
    ensures var end := RunRows(MOVABLE, "post_id", 1, State(map[], 7), MOVING);
            end.Ok? && 7 in end.value.table && !Belongs(end.value.table, "post_id", 1, 7)
  {
    var created, moved := MOVING[0], MOVING[1];
    assert MOVING[..1] == [created] && [created][..0] == [];
    var s: State := State(map[], 7);
    assert Values(created) == map["note" := Text("")];
    var s1 := RowStep(MOVABLE, "post_id", 1, s, created);
    assert RunRows(MOVABLE, "post_id", 1, s, [created]) == s1;
    assert Values(moved) == map["post_id" := Number(2)];
    assert RunRows(MOVABLE, "post_id", 1, s, MOVING) == RowStep(MOVABLE, "post_id", 1, s1.value, moved);
  }

  // ---- The session ----

  /** Each table's rows were applied, in order, to what the table held; other tables are as they were. */
  ghost predicate TableSaved(inline: Inline, parent: Id, before: Table, after: Table, rows: seq<Json>, first: Id)
  {
    exists next :: next >= first && RunTable(inline, parent, State(before, next), rows).Ok?
                   && RunTable(inline, parent, State(before, next), rows).value.table == after
  }

  ghost predicate Saved(index: map<string, Inline>, parent: Id, before: map<string, Table>, after: map<string, Table>,
                        payload: map<string, seq<Json>>, first: Id)
    requires payload.Keys <= index.Keys
  {
    && after.Keys == before.Keys
    && forall t :: t in before ==>
         if t in payload then TableSaved(index[t], parent, before[t], after[t], payload[t], first)
         else after[t] == before[t]
  }

  /** The refusal is that of an unknown table, or of the rows of a table. */
  ghost predicate RefusedWith(index: map<string, Inline>, parent: Id, before: map<string, Table>,
                              payload: map<string, seq<Json>>, first: Id, refusal: Refusal)
  {
    || (refusal == UnknownTable && !(payload.Keys <= index.Keys))
    || exists t, next :: t in payload && t in index && t in before && next >= first
                         && RunTable(index[t], parent, State(before[t], next), payload[t]) == Err(refusal)
  }

  /** The table as the first `i` entries leave it. */
  ghost predicate PartlyWritten(inline: Inline, parent: Id, before: Table, here: Table, rows: seq<Json>, first: Id)
  {
    exists i, next ::
      && 0 <= i <= |rows| && next >= first && inline.fkName.Some?
      && RunRows(inline, inline.fkName.value, parent, State(before, next), rows[..i]).Ok?
      && RunRows(inline, inline.fkName.value, parent, State(before, next), rows[..i]).value.table == here
  }

  /** A state on the way: some tables not begun, others with some of their entries applied. */
  ghost predicate OnTheWay(index: map<string, Inline>, parent: Id, before: map<string, Table>, here: map<string, Table>,
                           payload: map<string, seq<Json>>, first: Id)
  {
    && here.Keys == before.Keys
    && forall t :: t in before ==>
         || here[t] == before[t]
         || (t in payload && t in index && PartlyWritten(index[t], parent, before[t], here[t], payload[t], first))
  }

  lemma SavedIsOnTheWay(inline: Inline, parent: Id, before: Table, after: Table, rows: seq<Json>, first: Id)
    requires TableSaved(inline, parent, before, after, rows, first)
    ensures PartlyWritten(inline, parent, before, after, rows, first)
  {
    var next: Id :| next >= first && RunTable(inline, parent, State(before, next), rows).Ok?
                    && RunTable(inline, parent, State(before, next), rows).value.table == after;
    assert rows[..|rows|] == rows;
    assert RunRows(inline, inline.fkName.value, parent, State(before, next), rows[..|rows|]).Ok?;
  }

  lemma AllOnTheWay(index: map<string, Inline>, parent: Id, before: map<string, Table>, here: map<string, Table>,
                    payload: map<string, seq<Json>>, first: Id)
    requires payload.Keys <= index.Keys && Saved(index, parent, before, here, payload, first)
    ensures OnTheWay(index, parent, before, here, payload, first)
  {
    forall t | t in before && t in payload
      ensures PartlyWritten(index[t], parent, before[t], here[t], payload[t], first)
    {
      SavedIsOnTheWay(index[t], parent, before[t], here[t], payload[t], first);
    }
  }

  /** One table interrupted, the others saved or not begun. */
  lemma StillOnTheWay(index: map<string, Inline>, parent: Id, before: map<string, Table>, here: map<string, Table>,
                      payload: map<string, seq<Json>>, first: Id, later: Id, t: string)
    requires here.Keys == before.Keys && payload.Keys <= index.Keys && first <= later && t in before && t in payload
    requires PartlyWritten(index[t], parent, before[t], here[t], payload[t], later)
    requires forall u :: u in before && u != t ==>
               here[u] == before[u]
                   || (u in payload && TableSaved(index[u], parent, before[u], here[u], payload[u], first))
    ensures OnTheWay(index, parent, before, here, payload, first)
  {
    assert PartlyWritten(index[t], parent, before[t], here[t], payload[t], first);
    forall u | u in before && u != t && here[u] != before[u]
      ensures u in payload && PartlyWritten(index[u], parent, before[u], here[u], payload[u], first)
    {
      SavedIsOnTheWay(index[u], parent, before[u], here[u], payload[u], first);
    }
  }

  /**
   What surrounds a write of the parent: the policy gate, the hooks in their order, and the coercion of
   values to column types. `None` and `false` stand for a raised error.
   */
  datatype Surroundings = Surroundings(
    allows: Option<Row> -> bool,
    beforeValidate: Row -> Option<Row>,
    coerce: Row -> Option<Row>,
    validate: (Option<Row>, Row) -> bool,
    beforeWrite: (Option<Row>, Row) -> Option<Row>,
    after: Row -> bool)

  /** From the parent's part of the payload to the values that are written. */
  function Prepared(around: Surroundings, schema: seq<FieldAccess.FieldInfo>, row: Option<Row>, payload: Row,
                    partial: bool): Result<Row, Refusal>
  {
    var entered := around.beforeValidate(payload);
    if entered.None? then Err(HookRaised)
    else
      var cleaned := FieldAccess.CleanWritePayload(entered.value, schema, partial);
      if cleaned.Err? then Err(BadPayload)
      else
        var values := around.coerce(cleaned.value);
        if values.None? then Err(BadPayload)
        else if !around.validate(row, values.value) then Err(HookRaised)
        else
          var final := around.beforeWrite(row, values.value);
          if final.None? then Err(HookRaised) else Ok(final.value)
  }

  /**
   The values written come out of cleaning: every name the hook before validation lets in is writable,
   and then coercion, validation and the last hook must agree.
   */
  lemma PreparedIff(around: Surroundings, schema: seq<FieldAccess.FieldInfo>, row: Option<Row>, payload: Row,
                    partial: bool)
    ensures var prepared, entered := Prepared(around, schema, row, payload, partial), around.beforeValidate(payload);
            && (prepared.Ok? <==>
                  && entered.Some? && entered.value.Keys <= FieldAccess.WritableFieldNames(schema)
                  && (partial || entered.value != map[])
                  && around.coerce(entered.value).Some?
                  && around.validate(row, around.coerce(entered.value).value)
                  && around.beforeWrite(row, around.coerce(entered.value).value).Some?)
            && (prepared.Ok? ==> Some(prepared.value) == around.beforeWrite(row, around.coerce(entered.value).value))
            && (entered.Some? && !(entered.value.Keys <= FieldAccess.WritableFieldNames(schema)) ==>
                  prepared == Err(BadPayload))
  {
    var entered := around.beforeValidate(payload);
    if entered.Some? {
      FieldAccess.CleanedIsPayload(entered.value, schema, partial);
    }
  }

  /** Coercion and the last hook may change values and drop names, but bring none in. */
  ghost predicate AddsNoNames(around: Surroundings)
  {
    && (forall values :: around.coerce(values).Some? ==> around.coerce(values).value.Keys <= values.Keys)
    && (forall row, values :: around.beforeWrite(row, values).Some? ==>
          around.beforeWrite(row, values).value.Keys <= values.Keys)
  }

  lemma PreparedIsWritable(around: Surroundings, schema: seq<FieldAccess.FieldInfo>, row: Option<Row>, payload: Row,
                           partial: bool)
    requires AddsNoNames(around) && Prepared(around, schema, row, payload, partial).Ok?
    ensures Prepared(around, schema, row, payload, partial).value.Keys <= FieldAccess.WritableFieldNames(schema)
  {
    PreparedIff(around, schema, row, payload, partial);
  }

  /** Under an admin's own write schema only open columns are written, not the key, and as the policy lets it. */
  lemma WrittenIsAccepted(admin: FieldAccess.Admin<Row>, around: Surroundings, row: Option<Row>, payload: Row,
                          partial: bool, k: string)
    requires AddsNoNames(around)
    requires var prepared := Prepared(around, FieldAccess.WriteSchema(admin, row), row, payload, partial);
             prepared.Ok? && k in prepared.value
    ensures k in FieldAccess.Accepted(admin, row)
    ensures FieldAccess.Open(admin, k) && FieldAccess.PolicyWrites(admin, row, k)
    ensures exists c :: c in admin.columns && c.name == k && !c.primaryKey
  {
    PreparedIsWritable(around, FieldAccess.WriteSchema(admin, row), row, payload, partial);
    FieldAccess.AcceptedIff(admin, row, k);
  }

  /** Hooks that let everything pass, and no coercion. */
  ghost predicate Neutral(around: Surroundings)
  {
    && (forall values :: around.beforeValidate(values) == Some(values) && around.coerce(values) == Some(values))
    && (forall row, values :: around.validate(row, values) && around.beforeWrite(row, values) == Some(values))
  }

  /** Then the payload is written as it is, exactly when all its names are writable and, on create, it has one. */
  lemma NeutralWritesPayload(around: Surroundings, schema: seq<FieldAccess.FieldInfo>, row: Option<Row>, payload: Row,
                             partial: bool)
    requires Neutral(around)
    ensures var prepared := Prepared(around, schema, row, payload, partial);
            && (prepared.Ok? <==>
                  payload.Keys <= FieldAccess.WritableFieldNames(schema) && (partial || payload != map[]))
            && (prepared.Ok? ==> prepared.value == payload)
            && (prepared.Err? ==> prepared.error == BadPayload)
  {
    FieldAccess.CleanedIsPayload(payload, schema, partial);
  }

  /** Columns outside `names` are as they were. */
  ghost predicate SameOutside(was: Row, row: Row, names: set<string>)
  {
    forall k :: k !in names ==> (k in was <==> k in row) && (k in was ==> row[k] == was[k])
  }

  lemma AddedWithin(was: Row, values: Row, names: set<string>)
    requires values.Keys <= names
    ensures SameOutside(was, was + values, names)
  {
  }

  /** Writing one table leaves every table below the next key. */
  lemma TablesStayBelow(before: map<string, Table>, after: map<string, Table>, first: Id, next: Id, t: string)
    requires t in after && after == before[t := after[t]] && BelowNext(State(after[t], next)) && first <= next
    requires forall u :: u in before ==> BelowNext(State(before[u], first))
    ensures forall u :: u in after ==> BelowNext(State(after[u], next))
  {
    forall u | u in after ensures BelowNext(State(after[u], next)) {
      if u != t {
        assert BelowNext(State(before[u], first));
      }
    }
  }

  class AdminSession {
    var parents: Table
    var children: map<string, Table>
    var next: Id

    /** Whether the database stores these rows: its constraints, asked at every flush. */
    const storable: (Table, map<string, Table>) -> bool

    ghost predicate Valid()
      reads this
    {
      && (forall id :: id in parents ==> id < next)
      && (forall t :: t in children ==> BelowNext(State(children[t], next)))
    }

    constructor (parents: Table, children: map<string, Table>, next: Id, storable: (Table, map<string, Table>) -> bool)
      requires forall id :: id in parents ==> id < next
      requires forall t :: t in children ==> BelowNext(State(children[t], next))
      ensures Valid() && this.parents == parents && this.children == children && this.next == next
                && this.storable == storable
    {
      this.parents, this.children, this.next, this.storable := parents, children, next, storable;
    }

    /** One entry, applied in place: the child is fetched, the policy asked, the row written. */
    method WriteRow(t: string, inline: Inline, fk: string, parent: Id, raw: Json) returns (refusal: Option<Refusal>)
      requires Valid() && t in children
      modifies this`children, this`next
      ensures t in children && children == old(children)[t := children[t]]
      ensures refusal.None? ==>
                RowStep(inline, fk, parent, State(old(children)[t], old(next)), raw) == Ok(State(children[t], next))
      ensures refusal.Some? && refusal != Some(Database) ==>
                RowStep(inline, fk, parent, State(old(children)[t], old(next)), raw) == Err(refusal.value)
      ensures refusal.Some? ==> children == old(children) && next == old(next)
      ensures refusal == Some(Database) ==> !storable(parents, children)
    {
      if !raw.Object? {
        return Some(NotAnObject);
      }
      var values, child := Values(raw), Named(inline, raw);
      if WantsDelete(raw) {
        if !HasId(raw) {
          return Some(MissingId);
        }
        if !inline.canDelete {
          return Some(Forbidden);
        }
        if !storable(parents, children) {
          return Some(Database);
        }
        if child.None? || child.value !in children[t] {
          return Some(NotFound);
        }
        if inline.policy.Some? && !inline.policy.value.delete(children[t][child.value]) {
          return Some(Forbidden);
        }
        children := children[t := children[t] - {child.value}];
        return None;
      }
      if !(values.Keys <= Writable(inline)) {
        return Some(UnknownFields);
      }
      if !HasId(raw) {
        if inline.policy.Some? && !inline.policy.value.create {
          return Some(Forbidden);
        }
        if !(values.Keys + {fk} <= inline.columns) {
          return Some(NotAColumn);
        }
        values := values[fk := Number(parent)];
        var created: Table := children[t][next := values];
        children := children[t := created];
        next := next + 1;
        return None;
      }
      if !storable(parents, children) {
        return Some(Database);
      }
      if child.None? || child.value !in children[t] {
        return Some(NotFound);
      }
      if inline.policy.Some? && !inline.policy.value.update(children[t][child.value]) {
        return Some(Forbidden);
      }
      children := children[t := children[t][child.value := Updated(inline, children[t][child.value], values)]];
      return None;
    }

    /** The same, keeping the session valid. */
    method ApplyEntry(t: string, inline: Inline, fk: string, parent: Id, raw: Json) returns (refusal: Option<Refusal>)
      requires Valid() && t in children
      modifies this`children, this`next
      ensures Valid() && next >= old(next) && t in children && children == old(children)[t := children[t]]
      ensures refusal.None? ==>
                RowStep(inline, fk, parent, State(old(children)[t], old(next)), raw) == Ok(State(children[t], next))
      ensures refusal.Some? && refusal != Some(Database) ==>
                RowStep(inline, fk, parent, State(old(children)[t], old(next)), raw) == Err(refusal.value)
      ensures refusal.Some? ==> children == old(children) && next == old(next)
      ensures refusal == Some(Database) ==> !storable(parents, children)
    {
      ghost var here := State(children[t], next);
      refusal := WriteRow(t, inline, fk, parent, raw);
      if refusal.None? {
        StepConserves(inline, fk, parent, here, raw);
        TablesStayBelow(old(children), children, here.next, next, t);
      }
    }

    /** The entries of one child table, in order; a refusal leaves the table half-written. */
    method WriteEach(t: string, inline: Inline, fk: string, parent: Id, rows: seq<Json>)
      returns (refusal: Option<Refusal>, ghost done: nat)
      requires Valid() && t in children
      modifies this`children, this`next
      ensures Valid() && next >= old(next) && children.Keys == old(children).Keys
      ensures forall other :: other in children && other != t ==> children[other] == old(children)[other]
      ensures done <= |rows| && (refusal.None? ==> done == |rows|)
      ensures refusal.None? || refusal == Some(Database) ==>
                RunRows(inline, fk, parent, State(old(children)[t], old(next)), rows[..done])
                    == Ok(State(children[t], next))
      ensures refusal.Some? && refusal != Some(Database) ==>
                RunRows(inline, fk, parent, State(old(children)[t], old(next)), rows) == Err(refusal.value)
      ensures refusal == Some(Database) ==> !storable(parents, children)
    {
      ghost var start := State(children[t], next);
      for i := 0 to |rows|
        invariant Valid() && children.Keys == old(children).Keys && next >= old(next)
        invariant forall other :: other in children && other != t ==> children[other] == old(children)[other]
        invariant RunRows(inline, fk, parent, start, rows[..i]) == Ok(State(children[t], next))
      {
        assert rows[..i + 1][..i] == rows[..i];
        refusal := ApplyEntry(t, inline, fk, parent, rows[i]);
        if refusal.Some? {
          if refusal != Some(Database) {
            RefusalStands(inline, fk, parent, start, rows, i + 1);
          }
          return refusal, i;
        }
      }
      return None, |rows|;
    }

    /** All of one child table: its configuration first, then its entries. */
    method WriteRows(t: string, inline: Inline, parent: Id, rows: seq<Json>) returns (refusal: Option<Refusal>)
      requires Valid() && t in children
      modifies this`children, this`next
      ensures Valid() && next >= old(next) && children.Keys == old(children).Keys
      ensures forall other :: other in children && other != t ==> children[other] == old(children)[other]
      ensures refusal.None? ==>
                RunTable(inline, parent, State(old(children)[t], old(next)), rows) == Ok(State(children[t], next))
      ensures refusal.Some? && refusal != Some(Database) ==>
                RunTable(inline, parent, State(old(children)[t], old(next)), rows) == Err(refusal.value)
      ensures refusal == Some(Database) ==>
                !storable(parents, children)
                    && PartlyWritten(inline, parent, old(children)[t], children[t], rows, old(next))
    {
      if inline.fkName.None? {
        return Some(NoForeignKey);
      }
      if inline.maxNum.Some? && |rows| > inline.maxNum.value {
        return Some(TooManyRows);
      }
      ghost var done;
      refusal, done := WriteEach(t, inline, inline.fkName.value, parent, rows);
      assert rows[..|rows|] == rows;
      ghost var start := State(old(children)[t], old(next));
      if refusal == Some(Database) {
        assert RunRows(inline, inline.fkName.value, parent, start, rows[..done]).Ok?;
      }
    }

    /** The tables of the payload, in whatever order it lists them, and the final flush. */
    method ProcessInlineWrites(index: map<string, Inline>, parent: Id, payload: map<string, seq<Json>>)
      returns (refusal: Option<Refusal>)
      requires Valid() && index.Keys <= children.Keys
      modifies this`children, this`next
      ensures Valid() && next >= old(next)
      ensures refusal.None? ==>
                payload.Keys <= index.Keys && Saved(index, parent, old(children), children, payload, old(next))
      ensures refusal.Some? && refusal != Some(Database) ==>
                RefusedWith(index, parent, old(children), payload, old(next), refusal.value)
      ensures refusal == Some(Database) ==>
                !storable(parents, children) && OnTheWay(index, parent, old(children), children, payload, old(next))
    {
      if payload == map[] {
        return None;
      }
      if !(payload.Keys <= index.Keys) {
        return Some(UnknownTable);
      }
      var todo := payload.Keys;
      while todo != {}
        invariant todo <= payload.Keys
        invariant Valid() && children.Keys == old(children).Keys && next >= old(next)
        invariant forall t :: t in children && t in payload && t !in todo ==>
                    TableSaved(index[t], parent, old(children)[t], children[t], payload[t], old(next))
        invariant forall t :: t in children && (t !in payload || t in todo) ==> children[t] == old(children)[t]
        decreases todo
      {
        var t :| t in todo;
        ghost var first := next;
        refusal := WriteRows(t, index[t], parent, payload[t]);
        if refusal.Some? {
          if refusal == Some(Database) {
            StillOnTheWay(index, parent, old(children), children, payload, old(next), first, t);
          }
          return;
        }
        assert TableSaved(index[t], parent, old(children)[t], children[t], payload[t], old(next)) by {
          assert RunTable(index[t], parent, State(old(children)[t], first), payload[t]).Ok?;
        }
        todo := todo - {t};
      }
      if !storable(parents, children) {
        AllOnTheWay(index, parent, old(children), children, payload, old(next));
        return Some(Database);
      }
      return None;
    }

    /** The inline rows, or the database at one of the flushes, refuse the save of a parent. */
    ghost predicate ChildrenRefuse(index: map<string, Inline>, parent: Id, saved: Table, before: map<string, Table>,
                                   payload: map<string, seq<Json>>, first: Id, refusal: Refusal)
    {
      if refusal == Database then exists c :: !storable(saved, c) && OnTheWay(index, parent, before, c, payload, first)
      else RefusedWith(index, parent, before, payload, first, refusal)
    }

    /** The flush of the parent and the inline rows; what they refuse is left half-written. */
    method WriteParent(index: map<string, Inline>, id: Id, values: Row, payload: map<string, seq<Json>>)
      returns (refusal: Option<Refusal>)
      requires Valid() && index.Keys <= children.Keys && id < next
      modifies this`parents, this`children, this`next
      ensures Valid() && next >= old(next) && parents == old(parents)[id := values]
      ensures refusal.None? ==>
                payload.Keys <= index.Keys && Saved(index, id, old(children), children, payload, old(next))
      ensures refusal.Some? ==> ChildrenRefuse(index, id, parents, old(children), payload, old(next), refusal.value)
    {
      parents := parents[id := values];
      if !storable(parents, children) {
        assert OnTheWay(index, id, old(children), children, payload, old(next));
        return Some(Database);
      }
      refusal := ProcessInlineWrites(index, id, payload);
    }

    /** Why an update is refused. */
    ghost predicate UpdateRefused(index: map<string, Inline>, schema: seq<FieldAccess.FieldInfo>, around: Surroundings,
                                  id: Id, payload: Row, was: Table, before: map<string, Table>, first: Id,
                                  refusal: Refusal)
    {
      var parts := SplitParentPayload(payload);
      if parts.Err? then refusal == parts.error
      else if id !in was then refusal == NotFound
      else if !around.allows(Some(was[id])) then refusal == Forbidden
      else
        var values := Prepared(around, schema, Some(was[id]), parts.value.0, true);
        if values.Err? then refusal == values.error
        else
          || ChildrenRefuse(index, id, was[id := was[id] + values.value], before, parts.value.1, first, refusal)
          || (refusal == HookRaised && !around.after(was[id] + values.value))
    }

    /** One request: everything is saved, or the transaction is rolled back and nothing is. */
    method UpdateRecord(index: map<string, Inline>, schema: seq<FieldAccess.FieldInfo>, around: Surroundings, id: Id,
                        payload: Row)
      returns (refusal: Option<Refusal>)
      requires Valid() && index.Keys <= children.Keys
      modifies this`parents, this`children, this`next
      ensures Valid()
      ensures refusal.None? ==>
                var parts := SplitParentPayload(payload);
                && parts.Ok? && id in old(parents) && around.allows(Some(old(parents)[id]))
                && var values := Prepared(around, schema, Some(old(parents)[id]), parts.value.0, true);
                   && values.Ok? && parents == old(parents)[id := old(parents)[id] + values.value]
                   && around.after(parents[id])
                   && parts.value.1.Keys <= index.Keys
                   && Saved(index, id, old(children), children, parts.value.1, old(next))
      ensures refusal.None? ==>
                var entered := around.beforeValidate(SplitParentPayload(payload).value.0);
                entered.Some? && entered.value.Keys <= FieldAccess.WritableFieldNames(schema)
      ensures refusal.None? && AddsNoNames(around) ==>
                SameOutside(old(parents)[id], parents[id], FieldAccess.WritableFieldNames(schema))
      ensures refusal.Some? ==>
                && parents == old(parents) && children == old(children)
                && UpdateRefused(index, schema, around, id, payload, parents, children, old(next), refusal.value)
    {
      var parts := SplitParentPayload(payload);
      if parts.Err? {
        return Some(parts.error);
      }
      if id !in parents {
        return Some(NotFound);
      }
      if !around.allows(Some(parents[id])) {
        return Some(Forbidden);
      }
      var values := Prepared(around, schema, Some(parents[id]), parts.value.0, true);
      if values.Err? {
        return Some(values.error);
      }
      PreparedIff(around, schema, Some(parents[id]), parts.value.0, true);
      if AddsNoNames(around) {
        PreparedIsWritable(around, schema, Some(parents[id]), parts.value.0, true);
        AddedWithin(parents[id], values.value, FieldAccess.WritableFieldNames(schema));
      }
      var parentsBefore, childrenBefore := parents, children;
      refusal := WriteParent(index, id, parents[id] + values.value, parts.value.1);
      if refusal.None? && !around.after(parents[id]) {
        refusal := Some(HookRaised);
      }
      if refusal.Some? {
        parents, children := parentsBefore, childrenBefore;
      }
    }

    /** Why a create is refused; the policy is asked before the payload is looked at. */
    ghost predicate CreateRefused(index: map<string, Inline>, schema: seq<FieldAccess.FieldInfo>, around: Surroundings,
                                  id: Id, payload: Row, was: Table, before: map<string, Table>, refusal: Refusal)
    {
      var parts := SplitParentPayload(payload);
      if !around.allows(None) then refusal == Forbidden
      else if parts.Err? then refusal == parts.error
      else
        var values := Prepared(around, schema, None, parts.value.0, false);
        if values.Err? then refusal == values.error
        else
          || ChildrenRefuse(index, id, was[id := values.value], before, parts.value.1, id + 1, refusal)
          || (refusal == HookRaised && !around.after(values.value))
    }

    method CreateRecord(index: map<string, Inline>, schema: seq<FieldAccess.FieldInfo>, around: Surroundings,
                        payload: Row)
      returns (refusal: Option<Refusal>, id: Id)
      requires Valid() && index.Keys <= children.Keys
      modifies this`parents, this`children, this`next
      ensures Valid() && id == old(next) && id !in old(parents)
      ensures refusal.None? ==>
                var parts := SplitParentPayload(payload);
                && around.allows(None) && parts.Ok?
                && var values := Prepared(around, schema, None, parts.value.0, false);
                   && values.Ok? && parents == old(parents)[id := values.value] && around.after(parents[id])
                   && parts.value.1.Keys <= index.Keys
                   && Saved(index, id, old(children), children, parts.value.1, id + 1)
      ensures refusal.None? ==>
                var entered := around.beforeValidate(SplitParentPayload(payload).value.0);
                entered.Some? && entered.value != map[]
                && entered.value.Keys <= FieldAccess.WritableFieldNames(schema)
      ensures refusal.None? && AddsNoNames(around) ==>
                parents[id].Keys <= FieldAccess.WritableFieldNames(schema)
      ensures refusal.Some? ==>
                && parents == old(parents) && children == old(children)
                && CreateRefused(index, schema, around, id, payload, parents, children, refusal.value)
    {
      id := next;
      if !around.allows(None) {
        return Some(Forbidden), id;
      }
      var parts := SplitParentPayload(payload);
      if parts.Err? {
        return Some(parts.error), id;
      }
      var values := Prepared(around, schema, None, parts.value.0, false);
      if values.Err? {
        return Some(values.error), id;
      }
      PreparedIff(around, schema, None, parts.value.0, false);
      if AddsNoNames(around) {
        PreparedIsWritable(around, schema, None, parts.value.0, false);
      }
      var parentsBefore, childrenBefore := parents, children;
      next := next + 1;
      refusal := WriteParent(index, id, values.value, parts.value.1);
      if refusal.None? && !around.after(parents[id]) {
        refusal := Some(HookRaised);
      }
      if refusal.Some? {
        parents, children := parentsBefore, childrenBefore;
      }
    }
  }

  // ---- What a refused save was refused for ----

  /**
   An update of accepted names on a known row is refused only by the gate, coercion, a hook, the inline
   rows or the database, and never for its names.
   */
  lemma AcceptedNamesAreNotRefused(session: AdminSession, index: map<string, Inline>,
                                   schema: seq<FieldAccess.FieldInfo>, around: Surroundings, id: Id, payload: Row,
                                   was: Table, before: map<string, Table>, first: Id, refusal: Refusal)
    requires SplitParentPayload(payload).Ok? && id in was
    requires session.UpdateRefused(index, schema, around, id, payload, was, before, first, refusal)
    requires var entered := around.beforeValidate(SplitParentPayload(payload).value.0);
             entered.Some? ==> entered.value.Keys <= FieldAccess.WritableFieldNames(schema)
    ensures var parts := SplitParentPayload(payload).value;
            var entered := around.beforeValidate(parts.0);
            || (refusal == Forbidden && !around.allows(Some(was[id])))
            || (refusal == BadPayload && entered.Some? && around.coerce(entered.value).None?)
            || refusal == HookRaised
            || (var values := Prepared(around, schema, Some(was[id]), parts.0, true);
                var saved := was[id := was[id] + (if values.Ok? then values.value else map[])];
                values.Ok? && session.ChildrenRefuse(index, id, saved, before, parts.1, first, refusal))
  {
    var parts := SplitParentPayload(payload).value;
    var entered := around.beforeValidate(parts.0);
    if entered.Some? {
      FieldAccess.CleanedIsPayload(entered.value, schema, true);
    }
  }

  /** So is a create, of at least one name. */
  lemma AcceptedNamesAreCreated(session: AdminSession, index: map<string, Inline>,
                                schema: seq<FieldAccess.FieldInfo>, around: Surroundings, id: Id, payload: Row,
                                was: Table, before: map<string, Table>, refusal: Refusal)
    requires SplitParentPayload(payload).Ok?
    requires session.CreateRefused(index, schema, around, id, payload, was, before, refusal)
    requires var entered := around.beforeValidate(SplitParentPayload(payload).value.0);
             entered.Some? ==>
               entered.value != map[] && entered.value.Keys <= FieldAccess.WritableFieldNames(schema)
    ensures var parts := SplitParentPayload(payload).value;
            var entered := around.beforeValidate(parts.0);
            || (refusal == Forbidden && !around.allows(None))
            || (refusal == BadPayload && entered.Some? && around.coerce(entered.value).None?)
            || refusal == HookRaised
            || (var values := Prepared(around, schema, None, parts.0, false);
                && values.Ok?
                && session.ChildrenRefuse(index, id, was[id := values.value], before, parts.1, id + 1, refusal))
  {
    var entered := around.beforeValidate(SplitParentPayload(payload).value.0);
    if entered.Some? {
      FieldAccess.CleanedIsPayload(entered.value, schema, false);
    }
  }

  // ---- What a successful save leaves ----

  /** What one child table looks like after a save that was not refused. */
  lemma SavedTable(inline: Inline, parent: Id, before: Table, after: Table, rows: seq<Json>, first: Id)
    requires TableSaved(inline, parent, before, after, rows, first) && BelowNext(State(before, first))
    ensures inline.fkName.Some? && (inline.maxNum.Some? ==> |rows| <= inline.maxNum.value)
    ensures |after| == |before| + CountCreates(rows) - CountDeletes(rows)
    ensures forall id :: id in before && id in after ==> SameButWritable(inline, before[id], after[id])
    ensures forall id :: id in before && id !in after ==> exists i :: 0 <= i < |rows| && Deletes(inline, rows[i], id)
    ensures forall id :: id in before && (forall i :: 0 <= i < |rows| ==> Named(inline, rows[i]) != Some(id)) ==>
              id in after && after[id] == before[id]
    ensures inline.fkName.value !in Writable(inline) || NamesExistingOnly(inline, State(before, first), rows) ==>
              forall id :: id in after && id !in before ==> Belongs(after, inline.fkName.value, parent, id)
    ensures forall id :: id in after && id !in before ==>
              var key := LastSet(inline, inline.fkName.value, rows, id);
              Belongs(after, inline.fkName.value, parent, id) <==> (key.Some? ==> key.value == Number(parent))
  {
    var next :| next >= first && RunTable(inline, parent, State(before, next), rows).Ok?
                && RunTable(inline, parent, State(before, next), rows).value.table == after;
    var fk, s := inline.fkName.value, State(before, next);
    ChildrenAreConserved(inline, fk, parent, s, rows);
    forall id | id in before && id in after ensures SameButWritable(inline, before[id], after[id]) {
      SurvivorsChangeInWritable(inline, fk, parent, s, rows, id);
    }
    forall id | id in before && id !in after ensures exists i :: 0 <= i < |rows| && Deletes(inline, rows[i], id) {
      GoneWereDeleted(inline, fk, parent, s, rows, id);
    }
    forall id | id in before && (forall i :: 0 <= i < |rows| ==> Named(inline, rows[i]) != Some(id))
      ensures id in after && after[id] == before[id]
    {
      UnnamedUntouched(inline, fk, parent, s, rows, id);
    }
    forall id | id in after && id !in before
      ensures var key := LastSet(inline, fk, rows, id);
              Belongs(after, fk, parent, id) <==> (key.Some? ==> key.value == Number(parent))
    {
      if id < next {
        SurvivorsChangeInWritable(inline, fk, parent, s, rows, id);
      } else {
        CreatedChildBelongsIff(inline, fk, parent, s, rows, id);
      }
    }
    if fk !in Writable(inline) || NamesExistingOnly(inline, State(before, first), rows) {
      forall id | id in after && id !in before ensures Belongs(after, fk, parent, id) {
        if id < next {
          SurvivorsChangeInWritable(inline, fk, parent, s, rows, id);
        } else {
          CreatedChildrenBelong(inline, fk, parent, s, rows, id);
        }
      }
    }
  }
}
