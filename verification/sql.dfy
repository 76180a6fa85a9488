/**
 * The relational driver's side of the row mapping: column types, the values a row holds, the
 * output buffer that `to_sql` appends to, and the checks `row.get::<T>(name)` makes before it
 * hands a value over (it panics when one fails; the model states them as preconditions).
 */
module Sql {
  import opened Strings

  datatype SqlType =
    | Varchar
    | Text
    | Bpchar
    | NameType  // postgres `name`
    | Unknown
    | Int4
    | Bool
    | Timestamptz
    | Bytea
    | OtherType(name: string)  // any other type, by its name in the catalogue

  datatype Cell =
    | Null
    | TextValue(text: string)
    | Int4Value(i: int32)
    | BoolValue(b: bool)
    | TimestampValue(t: Timestamp)

  datatype Column = Column(sqlType: SqlType, value: Cell)

  /** A result row, by column name. */
  type Row = map<string, Column>

  /** Whether `to_sql` produced a SQL NULL. */
  datatype IsNull = Yes | No

  /** The extension types whose values Rust's `String` also reads, matched by their names. */
  const TEXT_EXTENSIONS: set<string> := {"citext", "ltree", "lquery", "ltxtquery"}

  /** The column types Rust's `String` accepts. */
  predicate StringAccepts(ty: SqlType) {
    || ty.Varchar? || ty.Text? || ty.Bpchar? || ty.NameType? || ty.Unknown?
    || (ty.OtherType? && ty.name in TEXT_EXTENSIONS)
  }

  /** `row.get::<String>(name)` succeeds. */
  predicate HasString(row: Row, name: string) {
    name in row && StringAccepts(row[name].sqlType) && row[name].value.TextValue?
  }

  /** `row.get::<Option<String>>(name)` succeeds. */
  predicate HasOptString(row: Row, name: string) {
    name in row && StringAccepts(row[name].sqlType) && (row[name].value.TextValue? || row[name].value.Null?)
  }

  /** `row.get::<bool>(name)` succeeds. */
  predicate HasBool(row: Row, name: string) {
    name in row && row[name].sqlType.Bool? && row[name].value.BoolValue?
  }

  /** `row.get::<Option<i32>>(name)` succeeds. */
  predicate HasOptInt4(row: Row, name: string) {
    name in row && row[name].sqlType.Int4? && (row[name].value.Int4Value? || row[name].value.Null?)
  }

  /** `row.get::<DateTime<Utc>>(name)` succeeds. */
  predicate HasTimestamp(row: Row, name: string) {
    name in row && row[name].sqlType.Timestamptz? && row[name].value.TimestampValue?
  }

  /** The buffer of bytes a parameter is serialised into. */
  class BytesMut {
    var bytes: seq<byte>

    constructor ()
      ensures bytes == []
    {
      bytes := [];
    }

    /** Appends `src` after the bytes already written. */
    method Put(src: seq<byte>)
      modifies this
      ensures bytes == old(bytes) + src
    {
      bytes := bytes + src;
    }
  }
}
