// Values as database/sql passes them, and as they go over the wire.
module Values {
  import opened Wrappers
  import opened Integers
  import opened Base64

  // A Go value of the types that ToValue tells apart; a time stands for the text it formats to.
  datatype GoValue =
    | GoNil
    | GoInt64(int64: int)
    | GoInt(i: int)
    | GoText(text: string)
    | GoBlob(bytes: seq<Byte>)
    | GoFloat(float: real)
    | GoTime(formatted: string)
    | GoBool(b: bool)
    | GoOther

  // What the "value" field holds.
  datatype Payload = Absent | Text(s: string) | Number(r: real)

  datatype Value = Value(typ: string, value: Payload, base64: Option<string>)

  function ToValue(v: GoValue): Result<Value> {
    match v
    case GoNil => Ok(Value("null", Absent, None))
    case GoInt64(n) => Ok(Value("integer", Text(FormatInt(n)), None))
    case GoInt(n) => Ok(Value("integer", Text(FormatInt(n)), None))
    case GoText(s) => Ok(Value("text", Text(s), None))
    case GoBlob(b) => Ok(Value("blob", Absent, Some(Encode(b))))
    case GoFloat(r) => Ok(Value("float", Number(r), None))
    case GoTime(s) => Ok(Value("text", Text(s), None))
    case GoBool(b) => Ok(Value("integer", Text(if b then "1" else "0"), None))
    case GoOther => Err("unsupported value type")
  }

  function Lower(c: char): char {
    if 'A' <= c <= 'Z' then ('a' as int + (c as int - 'A' as int)) as char else c
  }

  function ToLower(s: string): (r: string)
    ensures |r| == |s|
  {
    if s == "" then "" else [Lower(s[0])] + ToLower(s[1..])
  }

  lemma {:induction false} ToLowerAt(s: string, i: nat)
    requires i < |s|
    ensures ToLower(s)[i] == Lower(s[i])
  {
    if i > 0 {
      ToLowerAt(s[1..], i - 1);
    }
  }

  predicate IsTimeColumn(columnType: Option<string>) {
    columnType.Some? && ToLower(columnType.value) in {"timestamp", "datetime"}
  }

  // Reading a wire value: a Go value, or a failed type assertion.
  datatype Reading = Read(value: GoValue) | Panics

  // parseTime is the time package: it says which texts are times.
  function FromValue(v: Value, columnType: Option<string>, parseTime: string -> Option<string>): Reading {
    if v.typ == "blob" then
      match v.base64
      case None => Read(GoNil)
      case Some(s) => (match Decode(s) case None => Read(GoNil) case Some(b) => Read(GoBlob(b)))
    else if v.typ == "integer" then
      if !v.value.Text? then Panics
      else (match ParseInt(v.value.s) case None => Read(GoNil) case Some(n) => Read(GoInt64(n)))
    else if IsTimeColumn(columnType) && v.typ == "text" then
      if !v.value.Text? then Panics
      else (match parseTime(v.value.s) case None => Read(GoText(v.value.s)) case Some(t) => Read(GoTime(t)))
    else
      match v.value
      case Absent => Read(GoNil)
      case Text(s) => Read(GoText(s))
      case Number(r) => Read(GoFloat(r))
  }

  // 64 bits for both integer types.
  predicate IsGoValue(v: GoValue) {
    (v.GoInt64? ==> IsInt64(v.int64)) && (v.GoInt? ==> IsInt64(v.i))
  }

  // What the wire keeps of a value: an int becomes an int64, a bool an integer, a time its text.
  function Normal(v: GoValue): GoValue {
    match v
    case GoInt(n) => GoInt64(n)
    case GoBool(b) => GoInt64(if b then 1 else 0)
    case GoTime(s) => GoText(s)
    case _ => v
  }

  // A value of a supported type comes back, unless it is a text that the column's type turns into a time.
  lemma ValueRoundTrip(v: GoValue, columnType: Option<string>, parseTime: string -> Option<string>)
    requires IsGoValue(v) && v != GoOther
    ensures ToValue(v).Ok?
    ensures FromValue(ToValue(v).value, columnType, parseTime) == Read(Normal(v)) <==>
      !(Normal(v).GoText? && IsTimeColumn(columnType) && parseTime(Normal(v).text).Some?)
    ensures v.GoNil? || v.GoInt64? || v.GoText? || v.GoBlob? || v.GoFloat? ==> Normal(v) == v
  {
    match v
    case GoInt64(n) => ParseFormatInt(n);
    case GoInt(n) => ParseFormatInt(n);
    case GoBlob(b) => DecodeEncode(b);
    case GoBool(b) => ParseFormatInt(if b then 1 else 0);
    case _ =>
  }

  // Two values with the same wire form are the same value up to Normal.
  lemma WireFormIsFaithful(v: GoValue, w: GoValue)
    requires IsGoValue(v) && IsGoValue(w) && v != GoOther && ToValue(v) == ToValue(w)
    ensures Normal(v) == Normal(w)
  {
    ValueRoundTrip(v, None, _ => None);
    ValueRoundTrip(w, None, _ => None);
  }

  // ---- the wire form, kind by kind -----------------------------------------------------------

  // The tags of the Hrana 2 protocol: each kind of value has its own, and carries what belongs to it.
  lemma WireFormExactly(v: GoValue)
    requires ToValue(v).Ok?
    ensures var w := ToValue(v).value;
      && (w.typ == "null" <==> v.GoNil?)
      && (w.typ == "integer" <==> v.GoInt64? || v.GoInt? || v.GoBool?)
      && (w.typ == "text" <==> v.GoText? || v.GoTime?)
      && (w.typ == "blob" <==> v.GoBlob?)
      && (w.typ == "float" <==> v.GoFloat?)
      && (w.base64.Some? <==> v.GoBlob?)
      && (v.GoInt64? ==> w.value == Text(FormatInt(v.int64)))
      && (v.GoInt? ==> w.value == Text(FormatInt(v.i)))
      && (v.GoBool? ==> w.value == Text(if v.b then "1" else "0"))
      && (v.GoText? ==> w.value == Text(v.text))
      && (v.GoTime? ==> w.value == Text(v.formatted))
      && (v.GoFloat? ==> w.value == Number(v.float))
      && (v.GoBlob? ==> w.base64 == Some(Encode(v.bytes)))
      && (v.GoNil? ==> w.value == Absent)
  {
  }

  // The letters of a word, in any case.
  predicate IsWord(s: string, word: string) {
    |s| == |word| && forall i :: 0 <= i < |word| ==> s[i] == word[i] || s[i] as int == word[i] as int - 32
  }

  lemma {:induction false} LowerIsWord(s: string, word: string)
    requires forall i :: 0 <= i < |word| ==> 'a' <= word[i] <= 'z'
    ensures ToLower(s) == word <==> IsWord(s, word)
  {
    if |s| == |word| {
      forall i | 0 <= i < |s|
        ensures ToLower(s)[i] == word[i] <==> s[i] == word[i] || s[i] as int == word[i] as int - 32
      {
        ToLowerAt(s, i);
      }
    }
  }

  // Exactly the columns declared timestamp or datetime, in any case, hold times.
  lemma TimeColumnsExactly(columnType: Option<string>)
    ensures IsTimeColumn(columnType) <==>
      columnType.Some? && (IsWord(columnType.value, "timestamp") || IsWord(columnType.value, "datetime"))
  {
    if columnType.Some? {
      LowerIsWord(columnType.value, "timestamp");
      LowerIsWord(columnType.value, "datetime");
    }
  }
}
