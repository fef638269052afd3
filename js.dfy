/**
 * The JavaScript values that travel through the gateway: request-body fields,
 * the elements of a Socket.IO event frame's `data` array and redis error codes.
 * Only the shapes the gateway produces or inspects are represented.
 */
module Js {

  /**
   * A JavaScript value. `Num` holds the integral numbers the gateway sees
   * (`Date.now()`, a numeric message id); `ChangeSet` is the object
   * `{joins, leaves}` that the `/changeRoom` route sends as a message payload.
   */
  datatype Value =
    | Undefined
    | Null
    | Str(s: string)
    | Num(n: int)
    | ChangeSet(joins: Value, leaves: Value)

  /** JavaScript truthiness: `undefined`, `null`, `""` and `0` are falsy, every object is truthy. */
  predicate Truthy(v: Value) {
    match v
    case Undefined => false
    case Null => false
    case Str(s) => s != ""
    case Num(n) => n != 0
    case ChangeSet(_, _) => true
  }

  /** `util.isNullOrUndefined(v)`. */
  predicate Nullish(v: Value) {
    v == Undefined || v == Null
  }

  /** The element at `i` of an array, `undefined` past its end. */
  function At(data: seq<Value>, i: nat): (v: Value)
    ensures i < |data| ==> v == data[i]
    ensures i >= |data| ==> v == Undefined
  {
    if i < |data| then data[i] else Undefined
  }

  /** The decimal digit for 0..9. */
  function Digit(d: nat): (c: char)
    requires d < 10
    ensures '0' <= c <= '9' && c as int - '0' as int == d
  {
    ('0' as int + d) as char
  }

  /** The decimal text of a natural number, as `String(n)` writes it. */
  function NatText(n: nat): (r: string)
    ensures |r| >= 1
    ensures forall i :: 0 <= i < |r| ==> '0' <= r[i] <= '9'
    decreases n
  {
    if n < 10 then [Digit(n)] else NatText(n / 10) + [Digit(n % 10)]
  }

  /** The decimal text of an integer, as `String(n)` writes it. */
  function IntText(n: int): string {
    if n < 0 then "-" + NatText(-n) else NatText(n)
  }

  /**
   * `String(v)`, which is also what `util.format`'s `%s` and a property lookup
   * `obj[v]` make of the value.
   */
  function ToText(v: Value): string {
    match v
    case Undefined => "undefined"
    case Null => "null"
    case Str(s) => s
    case Num(n) => IntText(n)
    case ChangeSet(_, _) => "[object Object]"
  }

  /**
   * `v == lit` in JavaScript, where `lit` is the string literal giving the
   * decimal text of the integer `n` (the gateway compares with '-1' and '-2'):
   * equal strings, or a number that the literal converts to.
   */
  predicate LooseEqualsNumeral(v: Value, lit: string, n: int)
    requires lit == IntText(n)
  {
    v == Str(lit) || v == Num(n)
  }

  /** The characters JavaScript's regular-expression class `\s` matches. */
  predicate IsSpace(c: char) {
    c == '\t' || c == '\n' || c == '\U{000B}' || c == '\U{000C}' || c == '\r' || c == ' '
    || c == '\U{00A0}' || c == '\U{1680}' || ('\U{2000}' <= c <= '\U{200A}')
    || c == '\U{2028}' || c == '\U{2029}' || c == '\U{202F}' || c == '\U{205F}'
    || c == '\U{3000}' || c == '\U{FEFF}'
  }
}
