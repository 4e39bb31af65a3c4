/** JSON values as the configuration code sees them.

    Objects are finite maps, so two objects are equal when they hold the same
    members, whatever order a parser met them in. */
module JsonValue {

  datatype Option<+T> = None | Some(value: T)

  /** `K` is the type of member names. */
  datatype Json<K> =
    | Null
    | Bool(b: bool)
    | Num(n: int)
    | Str(s: string)
    | Arr(items: seq<Json<K>>)
    | Obj(fields: map<K, Json<K>>)

  predicate Has<K(==)>(v: Json<K>, key: K) {
    v.Obj? && key in v.fields
  }

  function Get<K(==)>(v: Json<K>, key: K): Option<Json<K>> {
    if Has(v, key) then Some(v.fields[key]) else None
  }

  function AsStr<K>(v: Option<Json<K>>): Option<string> {
    if v.Some? && v.value.Str? then Some(v.value.s) else None
  }

  function AsArr<K>(v: Option<Json<K>>): Option<seq<Json<K>>> {
    if v.Some? && v.value.Arr? then Some(v.value.items) else None
  }

  function GetStr<K(==)>(v: Json<K>, key: K): Option<string> {
    AsStr(Get(v, key))
  }

  function GetArr<K(==)>(v: Json<K>, key: K): Option<seq<Json<K>>> {
    AsArr(Get(v, key))
  }

  /** The boolean member `key`; anything else reads as false. */
  predicate Flag<K(==)>(v: Json<K>, key: K) {
    Has(v, key) && v.fields[key].Bool? && v.fields[key].b
  }

  function StrItems<K>(items: seq<Json<K>>): (r: seq<string>)
    ensures |r| <= |items|
  {
    if items == [] then []
    else if items[0].Str? then [items[0].s] + StrItems(items[1..])
    else StrItems(items[1..])
  }

  function ToStrs<K>(tags: seq<string>): (r: seq<Json<K>>)
    ensures |r| == |tags| && forall i :: 0 <= i < |r| ==> r[i] == Str(tags[i])
  {
    seq(|tags|, i requires 0 <= i < |tags| => Str(tags[i]))
  }

  lemma {:induction false} StrItemsOfStrs<K>(items: seq<Json<K>>)
    requires forall i :: 0 <= i < |items| ==> items[i].Str?
    ensures |StrItems(items)| == |items|
    ensures forall i :: 0 <= i < |items| ==> StrItems(items)[i] == items[i].s
  {
    if items == [] {
    } else {
      StrItemsOfStrs(items[1..]);
    }
  }

  predicate StartsWith(s: string, prefix: string) {
    |prefix| <= |s| && s[..|prefix|] == prefix
  }

  predicate EndsWith(s: string, suffix: string) {
    |suffix| <= |s| && s[|s| - |suffix|..] == suffix
  }

  function LowerChar(c: char): char {
    if 'A' <= c <= 'Z' then (c as int + 32) as char else c
  }

  function Lower(s: string): (r: string)
    ensures |r| == |s|
  {
    seq(|s|, i requires 0 <= i < |s| => LowerChar(s[i]))
  }

  /** Characters with the Unicode White_Space property. */
  predicate IsWhitespace(c: char) {
    var n := c as int;
    0x09 <= n <= 0x0D || n == 0x20 || n == 0x85 || n == 0xA0 || n == 0x1680 || 0x2000 <= n <= 0x200A
    || n == 0x2028 || n == 0x2029 || n == 0x202F || n == 0x205F || n == 0x3000
  }

  function Trim(s: string): string {
    if s != "" && IsWhitespace(s[0]) then Trim(s[1..])
    else if s != "" && IsWhitespace(s[|s| - 1]) then Trim(s[..|s| - 1])
    else s
  }

  predicate IsDigit(c: char) { '0' <= c <= '9' }

  predicate IsAlnum(c: char) {
    IsDigit(c) || 'a' <= c <= 'z' || 'A' <= c <= 'Z'
  }
}
