/** The JavaScript values the modelled code handles, and the language operations
    it applies to them: truthiness, `typeof v === 'object'`, conversion with
    `String(v)`, property enumeration, object spread and property reads.
    An object is the list of its own properties in enumeration order. */
module JsValues {
  import opened Outcomes
  import opened Strings

  datatype Value =
    | Undefined
    | Null
    | Bool(b: bool)
    | Num(n: int)
    | Str(s: string)
    | Arr(items: seq<Value>)
    | Obj(props: seq<Prop>)

  datatype Prop = Prop(key: string, val: Value)

  /** The value JavaScript treats as true in a condition. */
  predicate Truthy(v: Value)
  {
    match v
    case Undefined => false
    case Null => false
    case Bool(b) => b
    case Num(n) => n != 0
    case Str(s) => s != ""
    case Arr(_) => true
    case Obj(_) => true
  }

  /** `typeof v === 'object'`, which holds of `null` too. */
  predicate IsObjectType(v: Value)
  {
    v.Obj? || v.Arr? || v.Null?
  }

  // ----------------------------------------------------------------------
  // Decimal numerals

  function Digit(d: nat): (c: char)
    requires d < 10
    ensures '0' <= c <= '9'
  {
    ('0' as int + d) as char
  }

  /** The decimal numeral of `n`, without leading zeros. */
  function NatToString(n: nat): (s: string)
    ensures |s| >= 1
    ensures forall i :: 0 <= i < |s| ==> '0' <= s[i] <= '9'
    ensures s[0] == '0' ==> n == 0
  {
    if n < 10 then [Digit(n)] else NatToString(n / 10) + [Digit(n % 10)]
  }

  /** The number a string of decimal digits denotes. */
  function DigitsValue(s: string): nat
    requires forall i :: 0 <= i < |s| ==> '0' <= s[i] <= '9'
  {
    if s == [] then 0
    else DigitsValue(s[..|s| - 1]) * 10 + (s[|s| - 1] as int - '0' as int)
  }

  /** Reading back a numeral gives the number it was written from. */
  lemma {:induction false} NatToStringValue(n: nat)
    ensures DigitsValue(NatToString(n)) == n
  {
    var s := NatToString(n);
    if n >= 10 {
      NatToStringValue(n / 10);
      assert s[..|s| - 1] == NatToString(n / 10);
    }
  }

  /** `String(n)` for an integer `n`. */
  function IntToString(n: int): (s: string)
    ensures |s| >= 1
    ensures s[0] == '-' <==> n < 0
  {
    if n < 0 then "-" + NatToString(-n) else NatToString(n)
  }

  /** After the sign, `String(n)` is the decimal numeral of `|n|`. */
  lemma IntToStringDigits(n: int)
    ensures var s := IntToString(n);
      var d := if n < 0 then s[1..] else s;
      && (forall i :: 0 <= i < |d| ==> '0' <= d[i] <= '9')
      && DigitsValue(d) == (if n < 0 then -n else n)
  {
    var m := if n < 0 then -n else n;
    NatToStringValue(m);
    if n < 0 {
      assert IntToString(n)[1..] == NatToString(m);
    }
  }

  // ----------------------------------------------------------------------
  // String(v)

  /** `String(v)`: the conversion template literals, `+` on a string and
      `encodeURIComponent` apply. An array converts as `items.join(',')`. */
  function ToString(v: Value): string
    decreases v, 0
  {
    match v
    case Undefined => "undefined"
    case Null => "null"
    case Bool(b) => if b then "true" else "false"
    case Num(n) => IntToString(n)
    case Str(s) => s
    case Arr(items) =>
      Join(seq(|items|, i requires 0 <= i < |items| => JoinElement(items[i])), ",")
    case Obj(_) => "[object Object]"
  }

  /** How `Array.prototype.join` renders one element: `undefined` and `null` as
      the empty string, anything else by `String`. */
  function JoinElement(v: Value): string
    decreases v, 1
  {
    if v.Undefined? || v.Null? then "" else ToString(v)
  }

  /** `vs.join(sep)` for an array of arbitrary values. */
  function ArrayJoin(vs: seq<Value>, sep: string): string
  {
    Join(seq(|vs|, i requires 0 <= i < |vs| => JoinElement(vs[i])), sep)
  }

  // ----------------------------------------------------------------------
  // Property lists

  function Keys(props: seq<Prop>): (ks: seq<string>)
    ensures |ks| == |props|
    ensures forall i :: 0 <= i < |props| ==> ks[i] == props[i].key
  {
    if props == [] then [] else [props[0].key] + Keys(props[1..])
  }

  predicate DistinctKeys(props: seq<Prop>)
  {
    forall i, j :: 0 <= i < j < |props| ==> props[i].key != props[j].key
  }

  /** The value of the first property named `k`, if any. */
  function Lookup(props: seq<Prop>, k: string): (r: Option<Value>)
    ensures r.Some? <==> k in Keys(props)
    ensures r.Some? ==> Prop(k, r.value) in props
  {
    if props == [] then None
    else if props[0].key == k then Some(props[0].val)
    else Lookup(props[1..], k)
  }

  /** `{...props, [k]: v}`: an existing property `k` gets the new value in its
      place, a new one is added last. */
  function Put(props: seq<Prop>, k: string, v: Value): (r: seq<Prop>)
    ensures |r| >= 1
  {
    if props == [] then [Prop(k, v)]
    else if props[0].key == k then [Prop(k, v)] + props[1..]
    else [props[0]] + Put(props[1..], k, v)
  }

  /** After `Put`, `k` reads the new value and every other name reads as before. */
  lemma {:induction false} PutLookup(props: seq<Prop>, k: string, v: Value, k': string)
    ensures Lookup(Put(props, k, v), k') == if k' == k then Some(v) else Lookup(props, k')
  {
    if props != [] && props[0].key != k {
      PutLookup(props[1..], k, v, k');
      var r := Put(props, k, v);
      assert r[0] == props[0] && r[1..] == Put(props[1..], k, v);
    } else if props != [] {
      var r := Put(props, k, v);
      assert r[1..] == props[1..];
    }
  }

  /** `Put` keeps the names and their order, appending `k` when it is new. */
  lemma {:induction false} PutKeys(props: seq<Prop>, k: string, v: Value)
    ensures Keys(Put(props, k, v)) == if k in Keys(props) then Keys(props) else Keys(props) + [k]
  {
    if props != [] {
      var r := Put(props, k, v);
      assert Keys(props) == [props[0].key] + Keys(props[1..]);
      assert Keys(r) == [r[0].key] + Keys(r[1..]);
      if props[0].key != k {
        PutKeys(props[1..], k, v);
        assert r[1..] == Put(props[1..], k, v);
      } else {
        assert r[1..] == props[1..];
      }
    }
  }

  /** Setting a property keeps the property names distinct. */
  lemma PutDistinct(props: seq<Prop>, k: string, v: Value)
    requires DistinctKeys(props)
    ensures DistinctKeys(Put(props, k, v))
  {
    var r := Put(props, k, v);
    PutKeys(props, k, v);
    var ks, ks' := Keys(props), Keys(r);
    assert forall i, j :: 0 <= i < j < |props| ==> ks[i] != ks[j];
    assert forall i, j :: 0 <= i < j < |r| ==> ks'[i] != ks'[j];
  }

  /** The array-index properties `"0"`, `"1"`, ... of a list of values. */
  function IndexProps(items: seq<Value>): (props: seq<Prop>)
    ensures |props| == |items|
  {
    seq(|items|, i requires 0 <= i < |items| => Prop(NatToString(i), items[i]))
  }

  /** The one-character strings of `s`, as a string's index properties hold them. */
  function Chars(s: string): seq<Value>
  {
    seq(|s|, i requires 0 <= i < |s| => Str([s[i]]))
  }

  /** `Object.getOwnPropertyNames(v)` with the values: every own property,
      including the `length` of arrays and strings. Numbers and booleans have
      none. A string is indexed by its characters (Unicode scalar values), not
      by UTF-16 code units. */
  function OwnProps(v: Value): seq<Prop>
  {
    match v
    case Obj(props) => props
    case Arr(items) => IndexProps(items) + [Prop("length", Num(|items|))]
    case Str(s) => IndexProps(Chars(s)) + [Prop("length", Num(|s|))]
    case _ => []
  }

  /** The properties `{...v}` copies: the own enumerable ones (so no `length`);
      `undefined` and `null` spread to nothing. */
  function SpreadProps(v: Value): seq<Prop>
  {
    match v
    case Obj(props) => props
    case Arr(items) => IndexProps(items)
    case Str(s) => IndexProps(Chars(s))
    case _ => []
  }

  /** `v[k]`: throws on `undefined` and `null`, reads `undefined` for a missing
      property. */
  function Get(v: Value, k: string): (r: Result<Value>)
    ensures r.Throw? <==> v.Undefined? || v.Null?
    ensures r.Ok? && k in Keys(OwnProps(v)) ==> Prop(k, r.value) in OwnProps(v)
    ensures r.Ok? && k !in Keys(OwnProps(v)) ==> r.value == Undefined
  {
    if v.Undefined? || v.Null? then Throw(TypeError("cannot read property " + k))
    else
      match Lookup(OwnProps(v), k)
      case Some(x) => Ok(x)
      case None => Ok(Undefined)
  }
}
