/** The PHP values the handlers receive from `json_decode($input, true)` and
    the array operations they apply to them. */
module Php {
  import opened Wrappers
  import opened Strings

  /** A PHP array key: an integer or a string that is not a canonical
      decimal integer. */
  datatype Key = IntKey(i: int) | StrKey(s: string)

  /** A decoded JSON value: `null`, a boolean, an integer, a float, a string,
      or an (ordered) array. */
  datatype Value =
    | Null
    | Bool(b: bool)
    | Int(i: int)
    | Float(r: real)
    | Str(s: string)
    | Arr(entries: seq<(Key, Value)>)

  /** PHP's `empty()`, which is also PHP's falsiness (`!$v`): the values
      that convert to `false` are exactly `null`, `false`, `0`, `0.0`, `""`,
      `"0"` and the empty array. */
  predicate IsEmpty(v: Value): (r: bool)
    ensures r <==> || v == Null || v == Bool(false) || v == Int(0) || v == Float(0.0)
                   || v == Str("") || v == Str("0") || v == Arr([])
  {
    match v
    case Null => true
    case Bool(b) => !b
    case Int(i) => i == 0
    case Float(r) => r == 0.0
    case Str(s) => IsEmptyString(s)
    case Arr(es) => |es| == 0
  }

  /** PHP truthiness of a nullable string (a column or a parameter): set,
      and neither "" nor "0". */
  predicate Truthy(o: Option<string>) { o.Some? && !IsEmptyString(o.value) }

  /** The entry stored under `k`, if any. */
  function Find(es: seq<(Key, Value)>, k: Key): (r: Option<Value>)
    ensures r.Some? <==> exists i :: 0 <= i < |es| && es[i].0 == k
    ensures r.Some? ==> (k, r.value) in es
    decreases |es|
  {
    if |es| == 0 then None
    else if es[0].0 == k then Some(es[0].1)
    else
      var r := Find(es[1..], k);
      assert forall i :: 1 <= i < |es| ==> es[i] == es[1..][i - 1];
      r
  }

  /** `$v[$k]` in a context that tolerates a missing offset (`empty`,
      `isset`, `??`): an absent key, or an offset into anything but an
      array, reads as `null`. */
  function Get(v: Value, k: Key): Value {
    if v.Arr? then Find(v.entries, k).GetOr(Null) else Null
  }

  /** PHP `isset($v[$k])`. */
  predicate IsSet(v: Value, k: Key) { Get(v, k) != Null }

  /** No key occurs twice, as in every PHP array. */
  predicate UniqueKeys(es: seq<(Key, Value)>) {
    forall i, j :: 0 <= i < j < |es| ==> es[i].0 != es[j].0
  }

  /** A string PHP reads as an integer array key: "0", or an optional minus
      sign and digits without a leading zero, within the 64-bit range. */
  predicate IsCanonicalInt(s: string) {
    if s == "0" then true
    else if |s| > 0 && s[0] == '-' then
      |s| > 1 && s[1] != '0' && AllDigits(s[1..]) && DigitsValue(s[1..]) <= -IntMin
    else
      |s| > 0 && s[0] != '0' && AllDigits(s) && DigitsValue(s) <= IntMax
  }

  function CanonicalIntValue(s: string): int
    requires IsCanonicalInt(s)
  {
    if s == "0" then 0
    else if s[0] == '-' then 0 - DigitsValue(s[1..])
    else DigitsValue(s)
  }

  /** Truncation of a float toward zero, as PHP's `(int)` does. */
  function Truncate(r: real): (n: int)
    ensures r >= 0.0 ==> n as real <= r < n as real + 1.0
    ensures r < 0.0 ==> n as real - 1.0 < r <= n as real
  {
    if r >= 0.0 then r.Floor else -((-r).Floor)
  }

  /** The key PHP uses for `$a[$v] = ...`: numeric strings become integer
      keys, booleans 0/1, floats are truncated, null is "". An array cannot
      be a key (None). */
  function ToKey(v: Value): (r: Option<Key>)
    ensures r.None? <==> v.Arr?
  {
    match v
    case Null => Some(StrKey(""))
    case Bool(b) => Some(IntKey(if b then 1 else 0))
    case Int(i) => Some(IntKey(i))
    case Float(r) => Some(IntKey(Truncate(r)))
    case Str(s) => Some(if IsCanonicalInt(s) then IntKey(CanonicalIntValue(s)) else StrKey(s))
    case Arr(_) => None
  }

  /** The key of a string-literal subscript such as `$data['name']`. */
  function FieldKey(name: string): Key {
    ToKey(Str(name)).value
  }

  /** PHP `$a[$k] = $v`: overwrite in place when the key exists, append
      otherwise. */
  function Assign(es: seq<(Key, Value)>, k: Key, v: Value): (r: seq<(Key, Value)>)
    ensures Find(r, k) == Some(v)
    ensures forall k' :: k' != k ==> Find(r, k') == Find(es, k')
    ensures UniqueKeys(es) ==> UniqueKeys(r)
    ensures |r| == |es| || |r| == |es| + 1
    decreases |es|
  {
    if |es| == 0 then [(k, v)]
    else if es[0].0 == k then
      var r := [(k, v)] + es[1..];
      OverwriteHead(es, k, v, r);
      r
    else
      var tail := Assign(es[1..], k, v);
      var r := [es[0]] + tail;
      KeepHead(es, k, v, tail, r);
      r
  }

  /** Overwriting the first entry keeps every key where it was. */
  lemma OverwriteHead(es: seq<(Key, Value)>, k: Key, v: Value, r: seq<(Key, Value)>)
    requires |es| > 0 && es[0].0 == k && r == [(k, v)] + es[1..]
    ensures Find(r, k) == Some(v)
    ensures forall k' :: k' != k ==> Find(r, k') == Find(es, k')
    ensures UniqueKeys(es) ==> UniqueKeys(r)
  {
    assert r[1..] == es[1..];
    assert forall i :: 0 <= i < |r| ==> r[i].0 == es[i].0;
  }

  /** Assigning past a first entry with another key keeps that entry in front. */
  lemma KeepHead(es: seq<(Key, Value)>, k: Key, v: Value, tail: seq<(Key, Value)>, r: seq<(Key, Value)>)
    requires |es| > 0 && es[0].0 != k && r == [es[0]] + tail
    requires Find(tail, k) == Some(v)
    requires forall k' :: k' != k ==> Find(tail, k') == Find(es[1..], k')
    requires UniqueKeys(es[1..]) ==> UniqueKeys(tail)
    ensures Find(r, k) == Some(v)
    ensures forall k' :: k' != k ==> Find(r, k') == Find(es, k')
    ensures UniqueKeys(es) ==> UniqueKeys(r)
  {
    assert r[1..] == tail;
    if UniqueKeys(es) {
      UniqueTail(es);
      ConsUnique(es[0], tail);
    }
  }

  /** Without its first entry a unique-key array stays unique and no longer
      holds the first key. */
  lemma UniqueTail(es: seq<(Key, Value)>)
    requires |es| > 0 && UniqueKeys(es)
    ensures UniqueKeys(es[1..]) && Find(es[1..], es[0].0).None?
  {
    var t := es[1..];
    assert forall i :: 0 <= i < |t| ==> t[i] == es[i + 1];
    assert forall i :: 0 <= i < |t| ==> t[i].0 != es[0].0;
  }

  /** Putting an entry with an absent key in front keeps keys unique. */
  lemma ConsUnique(x: (Key, Value), tail: seq<(Key, Value)>)
    requires UniqueKeys(tail) && Find(tail, x.0).None?
    ensures UniqueKeys([x] + tail)
  {
    var r := [x] + tail;
    forall i, j | 0 <= i < j < |r| ensures r[i].0 != r[j].0 {
      assert r[j] == tail[j - 1];
      if i > 0 {
        assert r[i] == tail[i - 1];
      }
    }
  }

  /** PHP `(int)$v`. */
  function IntCast(v: Value): (n: int)
    ensures v.Str? ==> IntMin <= n <= IntMax
    ensures v.Arr? ==> (n == 0 <==> IsEmpty(v))
  {
    match v
    case Null => 0
    case Bool(b) => if b then 1 else 0
    case Int(i) => i
    case Float(r) => Truncate(r)
    case Str(s) => Intval(s)
    case Arr(es) => if |es| == 0 then 0 else 1
  }
}
