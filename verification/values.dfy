/**
 * PHP values as they travel through `json_decode(..., true)`, database rows
 * and the record setters, together with PHP's truthiness test and the
 * coercions (`strval`, `intval`, `floatval`) the setters apply.
 */
module Values {
  import opened Text

  /**
   * A PHP scalar or array.  `Amount` stands for a PHP float; the model keeps
   * amounts as fixed-point numbers in units of 1/Scale.  `Assoc` is an
   * associative array with its keys in insertion order.
   */
  datatype Value =
    | Null
    | Bool(b: bool)
    | Int(i: int)
    | Amount(units: int)
    | Str(s: string)
    | List(items: seq<Value>)
    | Assoc(entries: seq<(string, Value)>)

  /** PHP's `(bool)$v`, the test behind `!$data['field']`. */
  predicate Truthy(v: Value) {
    match v
    case Null => false
    case Bool(b) => b
    case Int(i) => i != 0
    case Amount(u) => u != 0
    case Str(s) => !Falsy(s)
    case List(items) => items != []
    case Assoc(entries) => entries != []
  }

  /** `$v[$key]` on a decoded document: the last entry with that key, Null when there is none. */
  function Get(v: Value, key: string): (r: Value)
    ensures v.Assoc? && r != Null ==> exists i :: 0 <= i < |v.entries| && v.entries[i] == (key, r)
  {
    if v.Assoc? then Lookup(v.entries, key) else Null
  }

  function Lookup(entries: seq<(string, Value)>, key: string): (r: Value)
    ensures r != Null ==> exists i :: 0 <= i < |entries| && entries[i] == (key, r)
  {
    if entries == [] then Null
    else if entries[|entries| - 1].0 == key then entries[|entries| - 1].1
    else Lookup(entries[..|entries| - 1], key)
  }

  /** An entry whose key does not occur again later is the one a lookup finds. */
  lemma {:induction false} LookupLatest(entries: seq<(string, Value)>, i: nat)
    requires i < |entries|
    requires forall j :: i < j < |entries| ==> entries[j].0 != entries[i].0
    ensures Lookup(entries, entries[i].0) == entries[i].1
  {
    if i < |entries| - 1 {
      var front := entries[..|entries| - 1];
      LookupLatest(front, i);
    }
  }

  /** The elements a PHP `foreach` visits; anything that is not an array yields none. */
  function Elements(v: Value): seq<Value> {
    match v
    case List(items) => items
    case Assoc(entries) => seq(|entries|, i requires 0 <= i < |entries| => entries[i].1)
    case _ => []
  }

  /** `strval($v)`. */
  function StrVal(v: Value): string {
    match v
    case Null => ""
    case Bool(b) => if b then "1" else ""
    case Int(i) => Decimal(i)
    case Amount(u) => FormatAmount(u)
    case Str(s) => s
    case List(_) => "Array"
    case Assoc(_) => "Array"
  }

  /** The longest prefix of `s` made of digits. */
  function DigitPrefix(s: string): (p: string)
    ensures |p| <= |s| && p == s[..|p|]
  {
    if s == [] || !IsDigit(s[0]) then [] else [s[0]] + DigitPrefix(s[1..])
  }

  /** The integer a numeric-looking string starts with: an optional minus sign and digits. */
  function LeadingInt(s: string): int {
    if |s| > 0 && s[0] == '-' then -DigitsValue(DigitPrefix(s[1..])) else DigitsValue(DigitPrefix(s))
  }

  /** `intval($v)`; a float is truncated toward zero. */
  function IntVal(v: Value): int {
    match v
    case Null => 0
    case Bool(b) => if b then 1 else 0
    case Int(i) => i
    case Amount(u) => if u < 0 then -((-u) / Scale) else u / Scale
    case Str(s) => LeadingInt(s)
    case List(items) => if items == [] then 0 else 1
    case Assoc(entries) => if entries == [] then 0 else 1
  }

  /** `floatval($v)`, in fixed-point units: a float keeps its value, a whole number is scaled exactly, and a number's truthiness survives. */
  function AmountVal(v: Value): (u: int)
    ensures v.Amount? ==> u == v.units
    ensures v.Int? ==> u == v.i * Scale
    ensures (v.Int? || v.Amount?) ==> (u != 0 <==> Truthy(v))
  {
    match v
    case Amount(u) => u
    case _ => IntVal(v) * Scale
  }

  /** A string of digits is its own digit prefix. */
  lemma {:induction false} DigitPrefixOfDigits(s: string)
    requires forall i :: 0 <= i < |s| ==> IsDigit(s[i])
    ensures DigitPrefix(s) == s
  {
    if s != [] {
      DigitPrefixOfDigits(s[1..]);
    }
  }

  /** `intval(strval($n))` gives `$n` back for every integer. */
  lemma IntValInvertsStrVal(n: int)
    ensures IntVal(Str(StrVal(Int(n)))) == n
  {
    var s := Decimal(n);
    if n < 0 {
      assert s[1..] == NatDigits(-n);
      DigitPrefixOfDigits(s[1..]);
      NatDigitsRoundTrip(-n);
    } else {
      assert IsDigit(s[0]);
      DigitPrefixOfDigits(s);
      NatDigitsRoundTrip(n);
    }
  }
}
