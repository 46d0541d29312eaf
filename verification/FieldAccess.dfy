/**
 Which fields of an admin a caller may write: what the contract tells the client, and what the write
 path then accepts.
 */
module FieldAccess {
  import opened Prelude

  // ---- Permissions ----

  datatype Permission = Write | Read | Hidden

  function Rank(p: Permission): nat
  {
    match p
    case Write => 0
    case Read => 1
    case Hidden => 2
  }

  function Stricter(a: Permission, b: Permission): Permission
  {
    if Rank(a) < Rank(b) then b else a
  }

  method Strictest(perms: seq<Permission>) returns (result: Permission)
    ensures forall p :: p in perms ==> Rank(p) <= Rank(result)
    ensures result == Write || result in perms
    ensures (result == Hidden <==> Hidden in perms) && (result == Write <==> Read !in perms && Hidden !in perms)
  {
    result := Write;
    for i := 0 to |perms|
      invariant forall p :: p in perms[..i] ==> Rank(p) <= Rank(result)
      invariant result == Write || result in perms
    {
      if Rank(perms[i]) > Rank(result) {
        result := perms[i];
      }
      assert perms[..i + 1] == perms[..i] + [perms[i]];
    }
  }

  /** What a field policy returns: a member of the enumeration, or a bare text. */
  datatype Answer = Member(permission: Permission) | Text(text: string)

  /** The contract coerces a text; one that names no permission is an error. */
  function Coerced(answer: Answer): Option<Permission>
  {
    match answer
    case Member(p) => Some(p)
    case Text(text) =>
      if text == "write" then Some(Write)
      else if text == "read" then Some(Read)
      else if text == "hidden" then Some(Hidden)
      else None
  }

  // ---- The configuration ----

  datatype Column = Column(name: string, primaryKey: bool)

  /** The policy sees the field's name and the row, if there is one yet. */
  datatype Admin<!Row> = Admin(
    columns: seq<Column>,
    calculated: seq<string>,
    protectedNames: set<string>,
    readonlyNames: set<string>,
    policy: Option<(string, Option<Row>) -> Answer>,
    listDisplay: set<string>,
    listEditable: seq<string>)

  const AUTO_READONLY: set<string> := {"id", "created_at", "updated_at", "created_by", "updated_by", "deleted_at"}

  /** The columns of one table have different names. */
  ghost predicate DistinctColumns(columns: seq<Column>)
  {
    forall i, j :: 0 <= i < j < |columns| ==> columns[i].name != columns[j].name
  }

  // ---- Lists built by a loop that keeps some entries ----

  function Kept<A, B>(s: seq<A>, f: A -> Option<B>): seq<B>
  {
    if s == [] then []
    else
      var before, last := Kept(s[..|s| - 1], f), f(s[|s| - 1]);
      if last.None? then before else before + [last.value]
  }

  lemma KeptSnoc<A, B>(s: seq<A>, i: nat, f: A -> Option<B>)
    requires i < |s|
    ensures Kept(s[..i + 1], f) == Kept(s[..i], f) + if f(s[i]).None? then [] else [f(s[i]).value]
  {
    assert s[..i + 1][..i] == s[..i];
  }

  lemma {:induction false} KeptMember<A, B>(s: seq<A>, f: A -> Option<B>, y: B)
    ensures y in Kept(s, f) <==> exists x :: x in s && f(x) == Some(y)
  {
    if s != [] {
      var n := |s| - 1;
      KeptMember(s[..n], f, y);
      assert s == s[..n] + [s[n]];
    }
  }

  // ---- The contract ----

  function StaticPermission<Row>(admin: Admin<Row>, field: string): Permission
  {
    if field in admin.protectedNames then Hidden
    else if field in admin.calculated then Read
    else if field in admin.readonlyNames || field in AUTO_READONLY then Read
    else Write
  }

  /** The permission the contract reports for a field; none if the policy's answer cannot be read. */
  function Resolved<Row>(admin: Admin<Row>, field: string): Option<Permission>
  {
    var fixed := StaticPermission(admin, field);
    if admin.policy.None? then Some(fixed)
    else
      match Coerced(admin.policy.value(field, None))
      case None => None
      case Some(dynamic) => Some(Stricter(fixed, dynamic))
  }

  function FieldNames<Row>(admin: Admin<Row>): seq<string>
  {
    seq(|admin.columns|, i requires 0 <= i < |admin.columns| => admin.columns[i].name) + admin.calculated
  }

  ghost predicate Readable<Row>(admin: Admin<Row>)
  {
    forall field :: field in FieldNames(admin) ==> Resolved(admin, field).Some?
  }

  /** One entry per column and calculated field, or an error if an answer cannot be read. */
  method ComputeFieldPermissions<Row>(admin: Admin<Row>) returns (perms: Option<map<string, Permission>>)
    ensures perms.Some? <==> Readable(admin)
    ensures perms.Some? ==>
              && perms.value.Keys == set field | field in FieldNames(admin)
              && forall field :: field in perms.value ==> Resolved(admin, field) == Some(perms.value[field])
  {
    var names := FieldNames(admin);
    var out: map<string, Permission> := map[];
    for i := 0 to |names|
      invariant out.Keys == set field | field in names[..i]
      invariant forall field :: field in out ==> Resolved(admin, field) == Some(out[field])
    {
      var name, result := names[i], StaticPermission(admin, names[i]);
      if admin.policy.Some? {
        var dynamic := Coerced(admin.policy.value(name, None));
        if dynamic.None? {
          assert name in names && Resolved(admin, name).None?;
          return None;
        }
        result := Strictest([result, dynamic.value]);
      }
      out := out[name := result];
      assert names[..i + 1] == names[..i] + [name];
    }
    assert names[..|names|] == names;
    return Some(out);
  }

  // ---- The write path ----

  datatype FieldInfo = FieldInfo(name: string, primaryKey: bool, hidden: bool, readOnly: bool)

  function ColumnInfo<Row>(admin: Admin<Row>, c: Column): Option<FieldInfo>
  {
    if c.name in admin.protectedNames then None
    else Some(FieldInfo(c.name, c.primaryKey, false, c.primaryKey || c.name in admin.readonlyNames))
  }

  function ColumnInfos<Row>(admin: Admin<Row>): Column -> Option<FieldInfo>
  {
    c => ColumnInfo(admin, c)
  }

  function CalculatedInfo(name: string): Option<FieldInfo>
  {
    Some(FieldInfo(name, false, false, true))
  }

  function ModelSchema<Row>(admin: Admin<Row>): seq<FieldInfo>
  {
    Kept(admin.columns, ColumnInfos(admin)) + Kept(admin.calculated, CalculatedInfo)
  }

  method BuildModelSchema<Row>(admin: Admin<Row>) returns (fields: seq<FieldInfo>)
    ensures fields == ModelSchema(admin)
  {
    fields := [];
    ghost var info := ColumnInfos(admin);
    for i := 0 to |admin.columns|
      invariant fields == Kept(admin.columns[..i], info)
    {
      var c := admin.columns[i];
      KeptSnoc(admin.columns, i, info);
      if c.name in admin.protectedNames {
        continue;
      }
      fields := fields + [FieldInfo(c.name, c.primaryKey, false, c.primaryKey || c.name in admin.readonlyNames)];
    }
    assert admin.columns[..|admin.columns|] == admin.columns;
    ghost var columns := fields;
    for i := 0 to |admin.calculated|
      invariant fields == columns + Kept(admin.calculated[..i], CalculatedInfo)
    {
      KeptSnoc(admin.calculated, i, CalculatedInfo);
      fields := fields + [FieldInfo(admin.calculated[i], false, false, true)];
    }
    assert admin.calculated[..|admin.calculated|] == admin.calculated;
  }

  /** The write path compares answers with the enumeration's members, so a bare text never tightens. */
  function Shaped<Row>(policy: (string, Option<Row>) -> Answer, row: Option<Row>, field: FieldInfo): Option<FieldInfo>
  {
    match policy(field.name, row)
    case Member(Hidden) => None
    case Member(Read) => Some(field.(readOnly := true))
    case _ => Some(field)
  }

  function Shape<Row>(policy: (string, Option<Row>) -> Answer, row: Option<Row>): FieldInfo -> Option<FieldInfo>
  {
    f => Shaped(policy, row, f)
  }

  function WriteSchema<Row>(admin: Admin<Row>, row: Option<Row>): seq<FieldInfo>
  {
    if admin.policy.None? then ModelSchema(admin)
    else Kept(ModelSchema(admin), Shape(admin.policy.value, row))
  }

  method ApplyFieldPolicy<Row>(schema: seq<FieldInfo>, admin: Admin<Row>, row: Option<Row>)
    returns (fields: seq<FieldInfo>)
    requires schema == ModelSchema(admin)
    ensures fields == WriteSchema(admin, row)
  {
    if admin.policy.None? {
      return schema;
    }
    fields := [];
    ghost var shape := Shape(admin.policy.value, row);
    for i := 0 to |schema|
      invariant fields == Kept(schema[..i], shape)
    {
      KeptSnoc(schema, i, shape);
      var answer := admin.policy.value(schema[i].name, row);
      if answer == Member(Hidden) {
        continue;
      }
      if answer == Member(Read) {
        fields := fields + [schema[i].(readOnly := true)];
      } else {
        fields := fields + [schema[i]];
      }
    }
    assert schema[..|schema|] == schema;
  }

  predicate IsWritable(f: FieldInfo)
  {
    !f.hidden && !f.readOnly && !f.primaryKey && f.name !in AUTO_READONLY
  }

  function KnownFieldNames(schema: seq<FieldInfo>): set<string>
  {
    set f | f in schema :: f.name
  }

  function WritableFieldNames(schema: seq<FieldInfo>): set<string>
  {
    set f | f in schema && IsWritable(f) :: f.name
  }

  datatype PayloadError = UnknownFields | NotWritable | NothingToWrite

  function CleanWritePayload<V>(payload: map<string, V>, schema: seq<FieldInfo>,
                                partial: bool): Result<map<string, V>, PayloadError>
  {
    if payload.Keys - KnownFieldNames(schema) != {} then Err(UnknownFields)
    else if payload.Keys - WritableFieldNames(schema) != {} then Err(NotWritable)
    else
      var cleaned := map k | k in payload && k in WritableFieldNames(schema) :: payload[k];
      if !partial && cleaned == map[] then Err(NothingToWrite) else Ok(cleaned)
  }

  /** The names a create (no row) or an update of `row` lets through. */
  function Accepted<Row>(admin: Admin<Row>, row: Option<Row>): set<string>
  {
    WritableFieldNames(WriteSchema(admin, row))
  }

  /** Cleaning never drops a value: what passes is the payload itself. */
  lemma CleanedIsPayload<V>(payload: map<string, V>, schema: seq<FieldInfo>, partial: bool)
    ensures var cleaned := CleanWritePayload(payload, schema, partial);
            && (cleaned.Ok? <==> payload.Keys <= WritableFieldNames(schema) && (partial || payload != map[]))
            && (cleaned.Ok? ==> cleaned.value == payload)
  {
    var writable := WritableFieldNames(schema);
    assert writable <= KnownFieldNames(schema);
    if payload.Keys <= writable {
      assert payload.Keys - KnownFieldNames(schema) == {} && payload.Keys - writable == {};
      assert (map k | k in payload && k in writable :: payload[k]) == payload;
    } else {
      var k :| k in payload.Keys && k !in writable;
      assert k in payload.Keys - writable;
    }
  }

  // ---- What the write path accepts ----

  /** Nothing in the admin's static configuration closes the field. */
  predicate Open<Row>(admin: Admin<Row>, name: string)
  {
    name !in admin.protectedNames && name !in admin.readonlyNames && name !in AUTO_READONLY
  }

  /** The policy lets the write path write the field of this row. */
  predicate PolicyWrites<Row>(admin: Admin<Row>, row: Option<Row>, name: string)
  {
    admin.policy.None? || !(admin.policy.value(name, row) in {Member(Read), Member(Hidden)})
  }

  /** The policy's answer without a row, as the contract reads it, is "write". */
  predicate PolicyShowsWrite<Row>(admin: Admin<Row>, name: string)
  {
    admin.policy.None? || Coerced(admin.policy.value(name, None)) == Some(Write)
  }

  /** The accepted names are the open non-key columns that the policy leaves alone. */
  lemma AcceptedIff<Row>(admin: Admin<Row>, row: Option<Row>, name: string)
    ensures name in Accepted(admin, row) <==>
              && Open(admin, name) && PolicyWrites(admin, row, name)
              && exists c :: c in admin.columns && c.name == name && !c.primaryKey
  {
    var info := FieldInfo(name, false, false, false);
    var columnInfo := ColumnInfos(admin);
    WritableInfo(admin, row, name);
    KeptMember(admin.columns, columnInfo, info);
    KeptMember(admin.calculated, CalculatedInfo, info);
    if c :| c in admin.columns && c.name == name && !c.primaryKey && Open(admin, name) {
      assert columnInfo(c) == Some(info);
    }
  }

  /** Spelled out: never a protected, read-only or automatic column, nor a key, nor what a member answer closes. */
  lemma AcceptedNames<Row>(admin: Admin<Row>, row: Option<Row>, name: string)
    ensures name in Accepted(admin, row) <==>
              && (exists c :: c in admin.columns && c.name == name && !c.primaryKey)
              && name !in admin.protectedNames && name !in admin.readonlyNames
              && name != "id" && name != "created_at" && name != "updated_at"
              && name != "created_by" && name != "updated_by" && name != "deleted_at"
              && (admin.policy.Some? ==>
                    admin.policy.value(name, row) != Member(Read) && admin.policy.value(name, row) != Member(Hidden))
  {
    AcceptedIff(admin, row, name);
  }

  /** Spelled out: what the contract reports as hidden, as read-only and as writable when no policy is attached. */
  lemma ReportedWithoutPolicy<Row>(admin: Admin<Row>, name: string)
    requires admin.policy.None?
    ensures Resolved(admin, name) ==
              if name in admin.protectedNames then Some(Hidden)
              else if || name in admin.calculated || name in admin.readonlyNames
                      || name in {"id", "created_at", "updated_at", "created_by", "updated_by", "deleted_at"}
              then Some(Read)
              else Some(Write)
  {
  }

  /** Spelled out: with a policy the contract reports the stricter of that and the answer, read as member or text. */
  lemma ReportedUnderPolicy<Row>(admin: Admin<Row>, name: string)
    requires admin.policy.Some?
    ensures var answer, alone := admin.policy.value(name, None), Resolved(admin.(policy := None), name);
            Resolved(admin, name) ==
              if answer.Text? && answer.text !in {"write", "read", "hidden"} then None
              else if alone == Some(Hidden) || answer == Member(Hidden) || answer == Text("hidden") then Some(Hidden)
              else if alone == Some(Read) || answer == Member(Read) || answer == Text("read") then Some(Read)
              else Some(Write)
  {
  }

  /** A policy can tighten what the contract reports, never loosen it. */
  lemma PolicyOnlyTightens<Row>(admin: Admin<Row>, name: string)
    requires Resolved(admin, name).Some?
    ensures var alone := Resolved(admin.(policy := None), name).value;
            && Rank(alone) <= Rank(Resolved(admin, name).value)
            && (admin.policy.Some? ==>
                  var dynamic := Coerced(admin.policy.value(name, None)).value;
                  && Rank(dynamic) <= Rank(Resolved(admin, name).value)
                  && Resolved(admin, name).value in {alone, dynamic})
  {
  }

  /** A writable entry of the write schema is a writable entry of the static schema that the policy left alone. */
  lemma WritableInfo<Row>(admin: Admin<Row>, row: Option<Row>, name: string)
    ensures name in Accepted(admin, row) <==>
              && name !in AUTO_READONLY && PolicyWrites(admin, row, name)
              && FieldInfo(name, false, false, false) in ModelSchema(admin)
  {
    var schema, info := ModelSchema(admin), FieldInfo(name, false, false, false);
    forall f | f in WriteSchema(admin, row) && IsWritable(f) && f.name == name ensures f == info { }
    if admin.policy.Some? {
      var shape := Shape(admin.policy.value, row);
      KeptMember(schema, shape, info);
      if f :| f in schema && shape(f) == Some(info) {
        assert f == info || f == info.(readOnly := true);
      }
      assert shape(info) == Some(info) <==> PolicyWrites(admin, row, name);
    }
  }

  // ---- The two agree ----

  /** The contract reports "write" for a column exactly when nothing static closes it and the policy shows write. */
  lemma ReportedIff<Row>(admin: Admin<Row>, name: string)
    requires Resolved(admin, name).Some?
    ensures Resolved(admin, name) == Some(Write) <==>
              Open(admin, name) && name !in admin.calculated && PolicyShowsWrite(admin, name)
  {
  }

  /**
   For a column, the contract says "write" and the write path accepts it together, unless the column
   is statically open and its key or calculated status, or the policy, is read differently by the two.
   */
  lemma AgreementIff<Row>(admin: Admin<Row>, row: Option<Row>, c: Column)
    requires DistinctColumns(admin.columns) && c in admin.columns && Resolved(admin, c.name).Some?
    ensures (Resolved(admin, c.name) == Some(Write) <==> c.name in Accepted(admin, row)) <==>
              || !Open(admin, c.name)
              || ((c.name !in admin.calculated && PolicyShowsWrite(admin, c.name))
                  == (!c.primaryKey && PolicyWrites(admin, row, c.name)))
  {
    ReportedIff(admin, c.name);
    AcceptedIff(admin, row, c.name);
    OneColumn(admin, c);
  }

  lemma OneColumn<Row>(admin: Admin<Row>, c: Column)
    requires DistinctColumns(admin.columns) && c in admin.columns
    ensures (exists c' :: c' in admin.columns && c'.name == c.name && !c'.primaryKey) <==> !c.primaryKey
  {
  }

  /** The policy answers with members of the enumeration, and for this field as if there were no row. */
  predicate SteadyAnswer<Row>(admin: Admin<Row>, row: Option<Row>, name: string)
  {
    admin.policy.Some? ==>
      admin.policy.value(name, None).Member? && admin.policy.value(name, row) == admin.policy.value(name, None)
  }

  /**
   The promise of the contract: for a non-key column that is not also calculated, and a policy of
   enumeration members that does not look at the row, "write" means accepted and nothing else does.
   On create there is no row to look at.
   */
  lemma ContractMatchesWrites<Row>(admin: Admin<Row>, row: Option<Row>, c: Column)
    requires DistinctColumns(admin.columns) && c in admin.columns
    requires !c.primaryKey && c.name !in admin.calculated && SteadyAnswer(admin, row, c.name)
    ensures Resolved(admin, c.name) == Some(Write) <==> c.name in Accepted(admin, row)
  {
    AgreementIff(admin, row, c);
  }

  // ---- Where they part ----

  /**
   A key column is never accepted, yet reported as writable whenever nothing else closes it; "id" is
   closed by name.
   */
  lemma NaturalKeyParts<Row>(admin: Admin<Row>, row: Option<Row>, c: Column)
    requires DistinctColumns(admin.columns) && c in admin.columns && c.primaryKey && Resolved(admin, c.name).Some?
    ensures c.name !in Accepted(admin, row)
    ensures Resolved(admin, c.name) == Some(Write) <==>
              Open(admin, c.name) && c.name !in admin.calculated && PolicyShowsWrite(admin, c.name)
    ensures c.name == "id" ==> Resolved(admin, c.name) != Some(Write)
  {
    ReportedIff(admin, c.name);
    AcceptedIff(admin, row, c.name);
    OneColumn(admin, c);
  }

  /** A policy that answers with a text other than "write" locks the editor of a field and never the field. */
  lemma TextAnswerParts<Row>(admin: Admin<Row>, row: Option<Row>, c: Column)
    requires DistinctColumns(admin.columns) && c in admin.columns && !c.primaryKey && Resolved(admin, c.name).Some?
    requires admin.policy.Some? && admin.policy.value(c.name, row).Text?
    requires admin.policy.value(c.name, None).Text? && admin.policy.value(c.name, None).text != "write"
    ensures Resolved(admin, c.name) != Some(Write)
    ensures c.name in Accepted(admin, row) <==> Open(admin, c.name)
  {
    ReportedIff(admin, c.name);
    AcceptedIff(admin, row, c.name);
    OneColumn(admin, c);
  }

  const NATURAL_KEY: Admin<int> := Admin([Column("code", true)], [], {}, {}, None, {}, [])

  const TEXT_ANSWERS: Admin<int> := Admin([Column("note", false)], [], {}, {}, Some((_, _) => Text("read")), {}, [])

  /** Both happen: a natural key reported as writable, and a field reported as read-only and accepted. */
  lemma PartingWitnesses()
    ensures Resolved(NATURAL_KEY, "code") == Some(Write) && "code" !in Accepted(NATURAL_KEY, None)
    ensures Resolved(TEXT_ANSWERS, "note") == Some(Read) && "note" in Accepted(TEXT_ANSWERS, None)
  {
    assert NATURAL_KEY.columns[0] in NATURAL_KEY.columns && TEXT_ANSWERS.columns[0] in TEXT_ANSWERS.columns;
    NaturalKeyParts(NATURAL_KEY, None, NATURAL_KEY.columns[0]);
    TextAnswerParts(TEXT_ANSWERS, None, TEXT_ANSWERS.columns[0]);
  }

  // ---- Editing in the list ----

  datatype FieldMeta = FieldMeta(name: string, primaryKey: bool, readOnly: bool, hidden: bool, calculated: bool)

  function Reported<Row>(admin: Admin<Row>, name: string): Permission
  {
    var p := Resolved(admin, name);
    if p.None? then Write else p.value
  }

  function ColumnMeta<Row>(admin: Admin<Row>, c: Column): Option<FieldMeta>
  {
    if c.name in admin.protectedNames || Reported(admin, c.name).Hidden? then None
    else
      var readOnly := c.primaryKey || c.name in admin.readonlyNames || Reported(admin, c.name).Read?;
      Some(FieldMeta(c.name, c.primaryKey, readOnly, false, false))
  }

  function CalculatedMeta<Row>(admin: Admin<Row>, name: string): Option<FieldMeta>
  {
    if Reported(admin, name).Hidden? then None else Some(FieldMeta(name, false, true, false, true))
  }

  function ColumnMetas<Row>(admin: Admin<Row>): Column -> Option<FieldMeta>
  {
    c => ColumnMeta(admin, c)
  }

  function CalculatedMetas<Row>(admin: Admin<Row>): string -> Option<FieldMeta>
  {
    name => CalculatedMeta(admin, name)
  }

  function FieldMetas<Row>(admin: Admin<Row>): seq<FieldMeta>
  {
    Kept(admin.columns, ColumnMetas(admin)) + Kept(admin.calculated, CalculatedMetas(admin))
  }

  /** The entry a dictionary by name ends up with: the last one. */
  function ByName(metas: seq<FieldMeta>, name: string): Option<FieldMeta>
  {
    if metas == [] then None
    else if metas[|metas| - 1].name == name then Some(metas[|metas| - 1])
    else ByName(metas[..|metas| - 1], name)
  }

  predicate Editable<Row>(admin: Admin<Row>, name: string)
  {
    var meta := ByName(FieldMetas(admin), name);
    && meta.Some? && name in admin.listDisplay
    && !(meta.value.primaryKey || meta.value.readOnly || meta.value.calculated || meta.value.hidden)
  }

  function IfEditable<Row>(admin: Admin<Row>, name: string): Option<string>
  {
    if Editable(admin, name) then Some(name) else None
  }

  function Editables<Row>(admin: Admin<Row>): string -> Option<string>
  {
    name => IfEditable(admin, name)
  }

  /** Declaration order is kept. */
  method BuildListEditable<Row>(admin: Admin<Row>) returns (names: seq<string>)
    ensures names == Kept(admin.listEditable, Editables(admin))
  {
    names := [];
    ghost var keep := Editables(admin);
    for i := 0 to |admin.listEditable|
      invariant names == Kept(admin.listEditable[..i], keep)
    {
      KeptSnoc(admin.listEditable, i, keep);
      var name := admin.listEditable[i];
      var meta := ByName(FieldMetas(admin), name);
      if meta.None? || name !in admin.listDisplay {
        continue;
      }
      if meta.value.primaryKey || meta.value.readOnly || meta.value.calculated || meta.value.hidden {
        continue;
      }
      names := names + [name];
    }
    assert admin.listEditable[..|admin.listEditable|] == admin.listEditable;
  }

  lemma {:induction false} ByNameFinds(metas: seq<FieldMeta>, name: string)
    ensures ByName(metas, name).Some? <==> exists m :: m in metas && m.name == name
    ensures ByName(metas, name).Some? ==> ByName(metas, name).value in metas && ByName(metas, name).value.name == name
  {
    if metas != [] {
      var n := |metas| - 1;
      ByNameFinds(metas[..n], name);
      assert metas == metas[..n] + [metas[n]];
    }
  }

  lemma {:induction false} LastWins(a: seq<FieldMeta>, b: seq<FieldMeta>, name: string)
    ensures ByName(a + b, name) == if ByName(b, name).Some? then ByName(b, name) else ByName(a, name)
  {
    if b == [] {
      assert a + b == a;
    } else {
      assert (a + b)[..|a + b| - 1] == a + b[..|b| - 1];
      LastWins(a, b[..|b| - 1], name);
    }
  }

  lemma ColumnEntry<Row>(admin: Admin<Row>, name: string)
    requires DistinctColumns(admin.columns)
    ensures var entry := ByName(Kept(admin.columns, ColumnMetas(admin)), name);
            && (entry.Some? ==> exists c :: c in admin.columns && c.name == name && ColumnMeta(admin, c) == entry)
            && (forall c :: c in admin.columns && c.name == name ==> ColumnMeta(admin, c) == entry)
  {
    var metas := Kept(admin.columns, ColumnMetas(admin));
    var entry := ByName(metas, name);
    ByNameFinds(metas, name);
    if entry.Some? {
      KeptMember(admin.columns, ColumnMetas(admin), entry.value);
    }
    forall c | c in admin.columns && c.name == name ensures ColumnMeta(admin, c) == entry {
      if ColumnMeta(admin, c).Some? {
        KeptMember(admin.columns, ColumnMetas(admin), ColumnMeta(admin, c).value);
      }
    }
  }

  lemma CalculatedEntry<Row>(admin: Admin<Row>, name: string)
    ensures ByName(Kept(admin.calculated, CalculatedMetas(admin)), name)
         == if name in admin.calculated then CalculatedMeta(admin, name) else None
  {
    var metas := Kept(admin.calculated, CalculatedMetas(admin));
    var entry := ByName(metas, name);
    ByNameFinds(metas, name);
    if entry.Some? {
      KeptMember(admin.calculated, CalculatedMetas(admin), entry.value);
    }
    if CalculatedMeta(admin, name).Some? {
      KeptMember(admin.calculated, CalculatedMetas(admin), CalculatedMeta(admin, name).value);
    }
  }

  /**
   The entry of a column in the contract's list of fields: it is left out exactly when protected or hidden, and
   is not read-only exactly when the write path accepts the column, keys included.
   */
  lemma FieldEntryIff<Row>(admin: Admin<Row>, row: Option<Row>, c: Column)
    requires DistinctColumns(admin.columns) && c in admin.columns
    requires c.name !in admin.calculated && SteadyAnswer(admin, row, c.name)
    ensures var entry := ByName(FieldMetas(admin), c.name);
            && (entry.None? <==>
                  c.name in admin.protectedNames
                  || (admin.policy.Some? && admin.policy.value(c.name, None) == Member(Hidden)))
            && (entry.Some? ==>
                  && entry.value.name == c.name && entry.value.primaryKey == c.primaryKey && !entry.value.calculated
                  && (!entry.value.readOnly <==> c.name in Accepted(admin, row)))
  {
    LastWins(Kept(admin.columns, ColumnMetas(admin)), Kept(admin.calculated, CalculatedMetas(admin)), c.name);
    ColumnEntry(admin, c.name);
    CalculatedEntry(admin, c.name);
    AcceptedIff(admin, row, c.name);
    OneColumn(admin, c);
  }

  /** The list offers an editor for a displayed column exactly when the contract says "write" for it. */
  lemma EditableIff<Row>(admin: Admin<Row>, name: string)
    requires DistinctColumns(admin.columns) && Resolved(admin, name).Some?
    ensures Editable(admin, name) <==>
              && name in admin.listDisplay && Resolved(admin, name) == Some(Write)
              && exists c :: c in admin.columns && c.name == name && !c.primaryKey
  {
    LastWins(Kept(admin.columns, ColumnMetas(admin)), Kept(admin.calculated, CalculatedMetas(admin)), name);
    ColumnEntry(admin, name);
    CalculatedEntry(admin, name);
  }

  /**
   Every name offered for editing in the list is one the update path accepts, and every declared and
   displayed name that it accepts is offered.
   */
  lemma ListEditableIsAccepted<Row>(admin: Admin<Row>, row: Option<Row>, name: string)
    requires DistinctColumns(admin.columns) && SteadyAnswer(admin, row, name)
    ensures var offered := name in Kept(admin.listEditable, Editables(admin));
            && (offered ==> name in Accepted(admin, row))
            && (name !in admin.calculated ==>
                  (offered <==>
                     name in admin.listEditable && name in admin.listDisplay && name in Accepted(admin, row)))
  {
    var keep := Editables(admin);
    KeptMember(admin.listEditable, keep, name);
    assert keep(name) == Some(name) <==> Editable(admin, name);
    EditableIff(admin, name);
    AcceptedIff(admin, row, name);
    ReportedIff(admin, name);
  }
}
