/** Rows, tables and schemas of the in-memory relational store (internal/db/interfaces). */
module Records {
  import opened Options

  /** A dynamically typed cell; a missing key and nil read the same. */
  datatype Value =
    | Null
    | Str(s: string)
    | Int(i: int)
    | Int64(n: int)
    | Float(x: real)
    | Bool(b: bool)
    | Time(t: int)

  type Id = string
  type Record = map<string, Value>
  type Table = map<Id, Record>
  type Tables = map<string, Table>

  datatype ForeignKey = ForeignKey(table: string, column: string)

  datatype FieldType = StringField | IntField | Int64Field | BoolField | FloatField | TimeField | OtherField

  datatype FieldSchema = FieldSchema(
    fieldType: FieldType, nullable: bool, default: Value, unique: bool, foreignKey: Option<ForeignKey>)

  datatype Index = Index(columns: seq<string>, unique: bool)

  datatype Schema = Schema(tableName: string, fields: map<string, FieldSchema>, indexes: seq<Index>)

  function Get(r: Record, field: string): Value {
    if field in r then r[field] else Null
  }

  /** Copies `over` on top of `base`, entry by entry. */
  method Overlay(base: Record, over: Record) returns (r: Record)
    ensures r == base + over
  {
    r := base;
    var keys := over.Keys;
    while keys != {}
      invariant keys <= over.Keys
      invariant r == base + (map k | k in over && k !in keys :: over[k])
    {
      var k :| k in keys;
      keys := keys - {k};
      r := r[k := over[k]];
    }
  }

  method Copy(source: Record) returns (r: Record)
    ensures r == source
  {
    r := Overlay(map[], source);
    assert map[] + source == source;
  }

  // ---------- Validation of incoming data ----------

  predicate TypeOk(v: Value, t: FieldType) {
    match t
    case StringField => v.Str?
    case IntField => v.Int?
    case Int64Field => v.Int64?
    case BoolField => v.Bool?
    case FloatField => v.Float?
    case TimeField => v.Str? || v.Time?
    case OtherField => true
  }

  predicate FieldValid(name: string, f: FieldSchema, data: Record) {
    if name == "id" || name == "created_at" || name == "updated_at" then true
    else if name !in data then f.nullable || f.default != Null
    else if data[name] == Null then f.nullable
    else TypeOk(data[name], f.fieldType)
  }

  predicate DataValid(schema: Schema, data: Record) {
    forall name :: name in schema.fields ==> FieldValid(name, schema.fields[name], data)
  }

  // ---------- Uniqueness ----------

  /** A unique field both records hold with the same non-null value. */
  predicate SameUnique(a: Record, b: Record, field: string) {
    Get(a, field) != Null && Get(a, field) == Get(b, field)
  }

  predicate SameTuple(a: Record, b: Record, columns: seq<string>) {
    forall i :: 0 <= i < |columns| ==> Get(a, columns[i]) == Get(b, columns[i])
  }

  predicate Clash(schema: Schema, a: Record, b: Record) {
    || (exists f :: f in schema.fields && schema.fields[f].unique && SameUnique(a, b, f))
    || (exists i :: 0 <= i < |schema.indexes| && schema.indexes[i].unique
                    && SameTuple(a, b, schema.indexes[i].columns))
  }

  lemma ClashSymmetric(schema: Schema, a: Record, b: Record)
    ensures Clash(schema, a, b) == Clash(schema, b, a)
  {
  }

  /** What the uniqueness validator decides: no clash with any row but the excluded one. */
  predicate ClashFree(schema: Schema, table: Table, record: Record, excludeId: Id) {
    forall id :: id in table && id != excludeId ==> !Clash(schema, record, table[id])
  }

  // ---------- References ----------

  predicate Resolves(tables: Tables, fk: ForeignKey, v: Value) {
    fk.table in tables &&
    exists id :: id in tables[fk.table] && Get(tables[fk.table][id], fk.column) == v
  }

  predicate FieldRefOk(tables: Tables, f: FieldSchema, v: Value) {
    f.foreignKey.Some? && v != Null ==> Resolves(tables, f.foreignKey.value, v)
  }

  predicate RefsResolve(tables: Tables, schema: Schema, record: Record) {
    forall name :: name in schema.fields ==>
      FieldRefOk(tables, schema.fields[name], Get(record, name))
  }

  /** A cell of another table that holds the id: what blocks a delete. */
  predicate HeldElsewhere(tables: Tables, own: string, id: Id) {
    exists t :: t in tables && t != own && HeldIn(tables[t], id)
  }

  predicate HeldIn(table: Table, id: Id) {
    exists row :: row in table && RowHolds(table[row], id)
  }

  predicate RowHolds(r: Record, id: Id) {
    exists field :: field in r && r[field] == Str(id)
  }
}
