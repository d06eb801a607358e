/** The text form of the logged-in user kept in browser storage. The store
    writes it with `JSON.stringify` and reads it back with `JSON.parse`; the
    model replaces JSON text by a simpler self-delimiting encoding of the same
    flat record, keeping the two facts the store relies on: `null` is the
    text "null", and reading back what was written yields the same record.
    Text that is not a valid encoding is rejected; the store's own writes
    never produce such text. */
module UserCodec {

  import opened Records
  import opened Decimal

  /** A field value of a flat record. */
  datatype Value = VNull | VInt(i: int) | VStr(s: string)

  /** `n`, `i<decimal>;`, or `s<length>:<characters>`. */
  function EncodeValue(v: Value): string {
    match v
    case VNull => "n"
    case VInt(i) => "i" + IntToString(i) + ";"
    case VStr(s) => "s" + NatToString(|s|) + ":" + s
  }

  /** Reads an integer, an optional '-' then digits then ';', from the front
      of `t`; the text after the ';' comes back too. */
  function DecodeInt(t: string): (r: Option<(Value, string)>)
    ensures r.Some? ==> |r.value.1| < |t|
  {
    var neg := |t| > 0 && t[0] == '-';
    var u := if neg then t[1..] else t;
    match ReadNat(u)
    case None => None
    case Some((n, rest)) =>
      var m: int := n;
      if |rest| > 0 && rest[0] == ';' then Some((VInt(if neg then -m else m), rest[1..])) else None
  }

  /** Reads one value from the front of `s`; the text after it comes back too. */
  function DecodeValue(s: string): (r: Option<(Value, string)>)
    ensures r.Some? ==> |r.value.1| < |s|
  {
    if |s| == 0 then None
    else if s[0] == 'n' then Some((VNull, s[1..]))
    else if s[0] == 'i' then DecodeInt(s[1..])
    else if s[0] == 's' then
      match ReadNat(s[1..])
      case None => None
      case Some((n, rest)) =>
        if |rest| > 0 && rest[0] == ':' && n <= |rest| - 1
        then Some((VStr(rest[1..1 + n]), rest[1 + n..]))
        else None
    else None
  }

  lemma DecodeNegative(n: nat, rest: string)
    requires n > 0
    ensures DecodeInt("-" + (NatToString(n) + ([';'] + rest))) == Some((VInt(-(n as int)), rest))
  {
    var tail := [';'] + rest;
    var t := "-" + (NatToString(n) + tail);
    assert t[1..] == NatToString(n) + tail;
    ReadNatRoundTrip(n, tail);
    assert tail[1..] == rest;
  }

  lemma EncodeNegative(i: int, rest: string)
    requires i < 0
    ensures EncodeValue(VInt(i)) + rest == "i" + ("-" + (NatToString(-i) + ([';'] + rest)))
  {
    assert IntToString(i) == "-" + NatToString(-i);
  }

  lemma DecodeEncodeNegative(i: int, rest: string)
    requires i < 0
    ensures DecodeValue(EncodeValue(VInt(i)) + rest) == Some((VInt(i), rest))
  {
    var n: nat := -i;
    var t := "-" + (NatToString(n) + ([';'] + rest));
    EncodeNegative(i, rest);
    DecodeNegative(n, rest);
    assert ("i" + t)[0] == 'i' && ("i" + t)[1..] == t;
    assert DecodeValue("i" + t) == DecodeInt(t);
    assert DecodeInt(t) == Some((VInt(i), rest));
  }

  lemma DecodeNonNegative(n: nat, rest: string)
    ensures DecodeInt(NatToString(n) + ([';'] + rest)) == Some((VInt(n), rest))
  {
    var ds := NatToString(n);
    var tail := [';'] + rest;
    assert IsDigit(ds[0]);
    assert (ds + tail)[0] == ds[0];
    ReadNatRoundTrip(n, tail);
    assert tail[1..] == rest;
  }

  lemma DecodeEncodeNonNegative(i: int, rest: string)
    requires i >= 0
    ensures DecodeValue(EncodeValue(VInt(i)) + rest) == Some((VInt(i), rest))
  {
    var t := NatToString(i) + ([';'] + rest);
    assert EncodeValue(VInt(i)) + rest == "i" + t;
    DecodeNonNegative(i, rest);
    assert ("i" + t)[0] == 'i' && ("i" + t)[1..] == t;
    assert DecodeValue("i" + t) == DecodeInt(t);
  }

  lemma DecodeEncodeStr(str: string, rest: string)
    ensures DecodeValue(EncodeValue(VStr(str)) + rest) == Some((VStr(str), rest))
  {
    var e := EncodeValue(VStr(str)) + rest;
    var after := [':'] + str + rest;
    assert e == "s" + (NatToString(|str|) + after);
    assert e[1..] == NatToString(|str|) + after;
    ReadNatRoundTrip(|str|, after);
    assert after[1..1 + |str|] == str;
    assert after[1 + |str|..] == rest;
  }

  /** Every value reads back as itself, whatever follows it. */
  lemma DecodeEncodeValue(v: Value, rest: string)
    ensures DecodeValue(EncodeValue(v) + rest) == Some((v, rest))
  {
    match v
    case VNull =>
      assert (EncodeValue(v) + rest)[1..] == rest;
    case VInt(i) =>
      if i < 0 { DecodeEncodeNegative(i, rest); } else { DecodeEncodeNonNegative(i, rest); }
    case VStr(str) =>
      DecodeEncodeStr(str, rest);
  }

  function EncodeValues(vs: seq<Value>): string {
    if |vs| == 0 then "" else EncodeValue(vs[0]) + EncodeValues(vs[1..])
  }

  /** Reads values until the text is used up; `None` if any value is malformed. */
  function DecodeValues(s: string): Option<seq<Value>>
    decreases |s|
  {
    if |s| == 0 then Some([])
    else match DecodeValue(s)
      case None => None
      case Some((v, rest)) =>
        match DecodeValues(rest)
        case None => None
        case Some(vs) => Some([v] + vs)
  }

  lemma {:induction false} DecodeEncodeValues(vs: seq<Value>)
    ensures DecodeValues(EncodeValues(vs)) == Some(vs)
    decreases |vs|
  {
    if |vs| > 0 {
      var tail := EncodeValues(vs[1..]);
      DecodeEncodeValue(vs[0], tail);
      DecodeEncodeValues(vs[1..]);
      assert |EncodeValue(vs[0])| > 0;
      assert [vs[0]] + vs[1..] == vs;
    }
  }

  function OptStr(o: Option<string>): Value {
    match o
    case None => VNull
    case Some(s) => VStr(s)
  }

  function ToOptStr(v: Value): Option<Option<string>> {
    match v
    case VNull => Some(None)
    case VStr(s) => Some(Some(s))
    case VInt(_) => None
  }

  /** The fields of a user in a fixed order. */
  function UserFields(u: User): seq<Value> {
    [VInt(u.userId), VStr(u.identifier), VStr(u.userName), VStr(u.email), OptStr(u.password),
     VInt(u.role), VInt(u.status), VStr(u.avatar), VInt(u.gender), OptStr(u.birthday),
     OptStr(u.signature), VStr(u.createdAt), VStr(u.updatedAt), OptStr(u.jwt)]
  }

  /** Rebuilds a user from its fields; `None` if the shape is wrong. */
  function FieldsToUser(vs: seq<Value>): Option<User> {
    if |vs| != 14 then None
    else if !(vs[0].VInt? && vs[1].VStr? && vs[2].VStr? && vs[3].VStr? && vs[5].VInt?
              && vs[6].VInt? && vs[7].VStr? && vs[8].VInt? && vs[11].VStr? && vs[12].VStr?) then None
    else
      match (ToOptStr(vs[4]), ToOptStr(vs[9]), ToOptStr(vs[10]), ToOptStr(vs[13]))
      case (Some(password), Some(birthday), Some(signature), Some(jwt)) =>
        Some(User(vs[0].i, vs[1].s, vs[2].s, vs[3].s, password, vs[5].i, vs[6].i, vs[7].s,
                  vs[8].i, birthday, signature, vs[11].s, vs[12].s, jwt))
      case _ => None
  }

  lemma FieldsRoundTrip(u: User)
    ensures FieldsToUser(UserFields(u)) == Some(u)
  {
  }

  const NULL_TEXT := "null"

  /** `JSON.stringify(userInfo)`. */
  function EncodeUserInfo(info: Option<User>): (text: string)
    ensures info.None? ==> text == NULL_TEXT
    ensures info.Some? ==> |text| > 0 && text[0] == '{' && text != NULL_TEXT
  {
    match info
    case None => NULL_TEXT
    case Some(u) => "{" + EncodeValues(UserFields(u))
  }

  /** `JSON.parse(text)`: `Some(None)` for "null", `Some(Some(u))` for an
      encoded user, and `None` for any other text. */
  function DecodeUserInfo(text: string): (r: Option<Option<User>>)
    ensures r == Some(None) <==> text == NULL_TEXT
    ensures r.Some? && r.value.Some? ==> |text| > 0 && text[0] == '{'
    ensures |text| == 0 ==> r.None?
  {
    if text == NULL_TEXT then Some(None)
    else if |text| > 0 && text[0] == '{' then
      match DecodeValues(text[1..])
      case None => None
      case Some(vs) =>
        match FieldsToUser(vs)
        case None => None
        case Some(u) => Some(Some(u))
    else None
  }

  /** What the store writes as its userInfo it reads back unchanged. */
  lemma UserInfoRoundTrip(info: Option<User>)
    ensures DecodeUserInfo(EncodeUserInfo(info)) == Some(info)
  {
    if info.Some? {
      var u := info.value;
      var text := EncodeUserInfo(info);
      assert text[1..] == EncodeValues(UserFields(u));
      DecodeEncodeValues(UserFields(u));
      FieldsRoundTrip(u);
      assert text != NULL_TEXT by { assert text[0] == '{'; }
    }
  }
}
