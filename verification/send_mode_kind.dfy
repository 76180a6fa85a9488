/**
 * `SendModeEnum`, the closed set of send-mode kinds, and its four encodings: the SQL bytes
 * `to_sql` appends to a parameter buffer, the SQL decoder `from_sql`, `Display` and `FromStr`.
 */
module SendModeKinds {
  import opened Wrappers
  import opened Strings
  import opened Sql

  datatype SendModeEnum = Kraft | Trademo

  /** b"KRAFT" */
  const KRAFT_BYTES: seq<byte> := [0x4B, 0x52, 0x41, 0x46, 0x54]
  /** b"TRADEMO" */
  const TRADEMO_BYTES: seq<byte> := [0x54, 0x52, 0x41, 0x44, 0x45, 0x4D, 0x4F]

  const INVALID_PARAMETER := "Invalid parameter"

  /** The `Display` text of a kind: its variant name, a different one for each kind. */
  function Name(v: SendModeEnum): (s: string)
    ensures s == "KRAFT" || s == "TRADEMO"
    ensures s == "KRAFT" <==> v == Kraft
  {
    match v
    case Kraft => "KRAFT"
    case Trademo => "TRADEMO"
  }

  /** The bytes `to_sql` writes for a kind. */
  function SqlBytes(v: SendModeEnum): seq<byte> {
    match v
    case Kraft => KRAFT_BYTES
    case Trademo => TRADEMO_BYTES
  }

  /** `FromStr`: exact, case-sensitive match on the two names; any other string is `Err(())`. */
  function FromStr(s: string): (r: Result<SendModeEnum, ()>)
    ensures r.Ok? <==> s == "KRAFT" || s == "TRADEMO"
    ensures r.Ok? ==> Name(r.value) == s
  {
    match s
    case "KRAFT" => Ok(Kraft)
    case "TRADEMO" => Ok(Trademo)
    case _ => Err(())
  }

  /** `from_sql`: the raw bytes of the two names decode; anything else is an error, never a panic. */
  function FromSql(ty: SqlType, raw: seq<byte>): (r: Result<SendModeEnum, string>)
    ensures r.Ok? <==> raw == KRAFT_BYTES || raw == TRADEMO_BYTES
    ensures r.Ok? ==> SqlBytes(r.value) == raw
    ensures r.Err? ==> r.error == INVALID_PARAMETER
  {
    if raw == KRAFT_BYTES then Ok(Kraft)
    else if raw == TRADEMO_BYTES then Ok(Trademo)
    else Err(INVALID_PARAMETER)
  }

  /** `ToSql::accepts`. */
  predicate ToSqlAccepts(ty: SqlType) {
    ty.Varchar? || ty.Text?
  }

  /** `FromSql::accepts`. */
  predicate FromSqlAccepts(ty: SqlType) {
    ty.Varchar? || ty.Text?
  }

  /** `to_sql`: appends the kind's name to `out`, leaving what is already there untouched. */
  method ToSql(v: SendModeEnum, ty: SqlType, out: BytesMut) returns (r: Result<IsNull, string>)
    modifies out
    ensures out.bytes == old(out.bytes) + SqlBytes(v)
    ensures r == Ok(No)
  {
    match v {
      case Kraft => out.Put(KRAFT_BYTES);
      case Trademo => out.Put(TRADEMO_BYTES);
    }
    r := Ok(No);
  }

  /**
   * `to_sql_checked`, as written: the same appending as `to_sql`. It does not consult
   * `ToSqlAccepts`, so it writes the name whatever the parameter's column type is.
   */
  method ToSqlChecked(v: SendModeEnum, ty: SqlType, out: BytesMut) returns (r: Result<IsNull, string>)
    modifies out
    ensures out.bytes == old(out.bytes) + SqlBytes(v)
    ensures r == Ok(No)
  {
    match v {
      case Kraft => out.Put(KRAFT_BYTES);
      case Trademo => out.Put(TRADEMO_BYTES);
    }
    r := Ok(No);
  }

  /** Both encoders produce the same bytes and the same result for every kind and column type. */
  method EncodersAgree(v: SendModeEnum, ty: SqlType, prefix: seq<byte>)
    returns (plain: seq<byte>, checked: seq<byte>, plainResult: Result<IsNull, string>,
             checkedResult: Result<IsNull, string>)
    ensures plain == checked == prefix + SqlBytes(v)
    ensures plainResult == checkedResult
  {
    var a := new BytesMut();
    a.Put(prefix);
    plainResult := ToSql(v, ty, a);
    var b := new BytesMut();
    b.Put(prefix);
    checkedResult := ToSqlChecked(v, ty, b);
    plain, checked := a.bytes, b.bytes;
  }

  /** The SQL bytes of a kind are the UTF-8 encoding of its displayed name. */
  lemma NamesEncodeAsSqlBytes()
    ensures IsAscii("KRAFT") && IsAscii("TRADEMO")
    ensures forall v :: SqlBytes(v) == Utf8(Name(v))
  {
    assert IsAscii("KRAFT");
    assert IsAscii("TRADEMO");
    Utf8OfAscii("KRAFT");
    Utf8OfAscii("TRADEMO");
  }

  /** The SQL decoder inverts the SQL encoder, for every column type. */
  lemma SqlRoundTrip(v: SendModeEnum, ty: SqlType)
    ensures FromSql(ty, SqlBytes(v)) == Ok(v)
  {
  }

  /** `FromStr` inverts `Display`. */
  lemma DisplayRoundTrip(v: SendModeEnum)
    ensures FromStr(Name(v)) == Ok(v)
  {
  }

  /**
   * A text column holding `s` reaches `from_sql` as the UTF-8 bytes of `s`; it decodes exactly
   * when `s` is one of the two names, to the same kind `FromStr` gives.
   */
  lemma FromSqlOfText(ty: SqlType, s: string)
    ensures FromSql(ty, Utf8(s)).Ok? <==> FromStr(s).Ok?
    ensures FromSql(ty, Utf8(s)).Ok? ==> FromSql(ty, Utf8(s)).value == FromStr(s).value
  {
    NamesEncodeAsSqlBytes();
    assert Utf8("KRAFT") == KRAFT_BYTES by { assert SqlBytes(Kraft) == Utf8(Name(Kraft)); }
    assert Utf8("TRADEMO") == TRADEMO_BYTES by { assert SqlBytes(Trademo) == Utf8(Name(Trademo)); }
    var raw := Utf8(s);
    if raw == KRAFT_BYTES {
      Utf8MatchesAscii(s, "KRAFT");
    } else if raw == TRADEMO_BYTES {
      Utf8MatchesAscii(s, "TRADEMO");
    } else {
      assert s != "KRAFT" && s != "TRADEMO";
    }
  }

  /** A text column holding a kind's displayed name decodes to that kind. */
  lemma FromSqlOfName(ty: SqlType, v: SendModeEnum)
    ensures FromSql(ty, Utf8(Name(v))) == Ok(v)
  {
    NamesEncodeAsSqlBytes();
    assert Utf8(Name(v)) == SqlBytes(v);
  }

  /** Both encoder and decoder accept exactly the VARCHAR and TEXT column types. */
  lemma AcceptedTypes(ty: SqlType)
    ensures ToSqlAccepts(ty) == FromSqlAccepts(ty)
    ensures ToSqlAccepts(ty) <==> ty == Varchar || ty == Text
  {
  }
}
