/** How `addEdit` builds the envelope it stores: the defaulting of its two
    optional arguments, the decimal rendering of the timestamp, and the
    synthetic key `<timestamp>_<fragment>`, with a parser that recovers both
    parts from a key. */
module EditKeys {
  import opened JsValues

  predicate IsDigit(c: char) {
    '0' <= c <= '9'
  }

  predicate AllDigits(s: string) {
    forall i :: 0 <= i < |s| ==> IsDigit(s[i])
  }

  function DigitChar(d: nat): (c: char)
    requires d < 10
    ensures IsDigit(c)
  {
    ('0' as int + d) as char
  }

  function DigitValue(c: char): (d: nat)
    requires IsDigit(c)
    ensures d < 10 && DigitChar(d) == c
  {
    c as int - '0' as int
  }

  /** The decimal digits of `n`: never empty, no leading zero. */
  function NatDecimal(n: nat): (s: string)
    ensures |s| >= 1 && AllDigits(s)
    ensures s[0] == '0' <==> n == 0
    ensures n < 10 <==> |s| == 1
    decreases n
  {
    if n < 10 then [DigitChar(n)] else NatDecimal(n / 10) + [DigitChar(n % 10)]
  }

  /** The value of a non-empty string of decimal digits. */
  function ParseNat(s: string): (n: nat)
    requires |s| >= 1 && AllDigits(s)
    decreases |s|
  {
    if |s| == 1 then DigitValue(s[0])
    else 10 * ParseNat(s[..|s| - 1]) + DigitValue(s[|s| - 1])
  }

  /** `String(t)` for an integer `t`: an optional minus sign, then the digits. */
  function Decimal(t: int): (s: string)
    ensures |s| >= 1
    ensures s[0] == '-' <==> t < 0
    ensures forall i :: 0 <= i < |s| ==> s[i] != '_'
  {
    if t < 0 then "-" + NatDecimal(-t) else NatDecimal(t)
  }

  /** Reads back what `Decimal` writes; None for anything else. */
  function ParseDecimal(s: string): (r: Option<int>) {
    if |s| >= 2 && s[0] == '-' && AllDigits(s[1..]) then Some(-(ParseNat(s[1..]) as int))
    else if |s| >= 1 && AllDigits(s) then Some(ParseNat(s))
    else None
  }

  /** The synthetic key of an edit: the timestamp in decimal, `_`, the random fragment. */
  function EditKey(timestamp: int, fragment: string): (key: string)
    ensures |key| == |Decimal(timestamp)| + 1 + |fragment|
    ensures key[..|Decimal(timestamp)|] == Decimal(timestamp)
    ensures key[|Decimal(timestamp)|] == '_'
    ensures key[|Decimal(timestamp)| + 1..] == fragment
  {
    Decimal(timestamp) + "_" + fragment
  }

  /** The index of the first `_` in `s`, or `|s|` when there is none. */
  function FirstUnderscore(s: string): (i: nat)
    ensures i <= |s|
    ensures i < |s| ==> s[i] == '_'
    ensures forall j :: 0 <= j < i ==> s[j] != '_'
    decreases |s|
  {
    if |s| == 0 || s[0] == '_' then 0 else 1 + FirstUnderscore(s[1..])
  }

  /** Splits a key at its first `_` into the timestamp and the fragment. */
  function ParseEditKey(key: string): (r: Option<(int, string)>) {
    var i := FirstUnderscore(key);
    if i == |key| then None
    else match ParseDecimal(key[..i])
      case None => None
      case Some(t) => Some((t, key[i + 1..]))
  }

  /** `replace === false ? false : true`: only the value `false` turns replacing off. */
  function ResolveReplace(replace: Value): (r: bool)
    ensures !r <==> replace == Bool(false)
  {
    if replace == Bool(false) then false else true
  }

  /** `Number.isInteger(timestamp) ? timestamp : now`. */
  function ResolveTimestamp(timestamp: Value, now: int): (t: int)
    ensures IsInteger(timestamp) ==> timestamp == Num(t as real)
    ensures !IsInteger(timestamp) ==> t == now
  {
    if IsInteger(timestamp) then timestamp.x.Floor else now
  }

  /** The stored envelope `{timestamp, edit, key}`. */
  function Envelope(timestamp: int, edit: Value, key: string): (env: Value)
    ensures env.Obj? && env.fields.Keys == {"timestamp", "edit", "key"}
    ensures Field(env, "timestamp") == Num(timestamp as real)
    ensures Field(env, "edit") == edit
    ensures Field(env, "key") == Str(key)
  {
    Obj(map["timestamp" := Num(timestamp as real), "edit" := edit, "key" := Str(key)])
  }

  /** Reading the digits back gives the number. */
  lemma {:induction false} NatDecimalRoundTrip(n: nat)
    ensures ParseNat(NatDecimal(n)) == n
    decreases n
  {
    if n >= 10 {
      var s := NatDecimal(n);
      assert s[..|s| - 1] == NatDecimal(n / 10);
      assert s[|s| - 1] == DigitChar(n % 10);
      NatDecimalRoundTrip(n / 10);
    }
  }

  /** Reading the decimal rendering back gives the integer. */
  lemma DecimalRoundTrip(t: int)
    ensures ParseDecimal(Decimal(t)) == Some(t)
  {
    if t < 0 {
      assert Decimal(t)[1..] == NatDecimal(-t);
      NatDecimalRoundTrip(-t);
    } else {
      NatDecimalRoundTrip(t);
    }
  }

  /** A synthetic key determines its timestamp and its fragment, whatever the fragment holds. */
  lemma EditKeyRoundTrip(timestamp: int, fragment: string)
    ensures ParseEditKey(EditKey(timestamp, fragment)) == Some((timestamp, fragment))
  {
    var key := EditKey(timestamp, fragment);
    var n := |Decimal(timestamp)|;
    assert FirstUnderscore(key) == n;
    DecimalRoundTrip(timestamp);
  }

  /** Two edits get the same key only with the same timestamp and the same fragment. */
  lemma EditKeyInjective(t1: int, f1: string, t2: int, f2: string)
    requires EditKey(t1, f1) == EditKey(t2, f2)
    ensures t1 == t2 && f1 == f2
  {
    EditKeyRoundTrip(t1, f1);
    EditKeyRoundTrip(t2, f2);
  }

  /** Unlike truthiness, the defaulting keeps replacing on for every other falsy value. */
  lemma FalsyValuesStillReplace()
    ensures ResolveReplace(Undefined) && ResolveReplace(Null)
    ensures ResolveReplace(Num(0.0)) && ResolveReplace(Str(""))
    ensures !Truthy(Num(0.0)) && !ResolveReplace(Bool(false))
  {
  }
}
