/**
 * The values `json.loads` produces, the `dict.get` lookup the pipeline uses on
 * them, and Python's `str()` of such a value (what an f-string inserts).
 */
module Json {
  import opened Results

  /**
   * A decoded JSON value as Python holds it. An object keeps its members in
   * insertion order, as a Python dict does. Numbers are integers.
   */
  datatype JsonValue =
    | JNull
    | JBool(b: bool)
    | JNumber(n: int)
    | JString(s: string)
    | JArray(items: seq<JsonValue>)
    | JObject(members: seq<(string, JsonValue)>)

  /** The value bound to `key`; with a repeated key, the last binding wins as in `json.loads`. */
  function Lookup(members: seq<(string, JsonValue)>, key: string): Option<JsonValue>
  {
    if |members| == 0 then None
    else if members[|members| - 1].0 == key then Some(members[|members| - 1].1)
    else Lookup(members[..|members| - 1], key)
  }

  /** `d.get(key, default)`. */
  function Get(members: seq<(string, JsonValue)>, key: string, default: JsonValue): JsonValue
  {
    match Lookup(members, key)
    case Some(v) => v
    case None => default
  }

  /** A key bound nowhere in the object is not found. */
  lemma {:induction false} LookupAbsent(members: seq<(string, JsonValue)>, key: string)
    requires forall j :: 0 <= j < |members| ==> members[j].0 != key
    ensures Lookup(members, key) == None
  {
    if |members| > 0 {
      var front := members[..|members| - 1];
      assert forall j :: 0 <= j < |front| ==> front[j] == members[j];
      LookupAbsent(front, key);
    }
  }

  /** The last binding of a key is the one found, whatever bindings of it come earlier. */
  lemma {:induction false} LookupLast(members: seq<(string, JsonValue)>, key: string, i: nat)
    requires i < |members| && members[i].0 == key
    requires forall j :: i < j < |members| ==> members[j].0 != key
    ensures Lookup(members, key) == Some(members[i].1)
  {
    if i < |members| - 1 {
      var front := members[..|members| - 1];
      assert forall j :: 0 <= j < |front| ==> front[j] == members[j];
      LookupLast(front, key, i);
    }
  }

  /** `str(v)`: a string is itself, anything else is its `repr`. */
  function Str(v: JsonValue): string
  {
    if v.JString? then v.s else Repr(v)
  }

  /** `repr(v)` for the values above. */
  function Repr(v: JsonValue): string
    decreases v, 1
  {
    match v
    case JNull => "None"
    case JBool(b) => if b then "True" else "False"
    case JNumber(n) => IntToString(n)
    case JString(s) => StrRepr(s)
    case JArray(items) => "[" + Join(seq(|items|, i requires 0 <= i < |items| => Repr(items[i]))) + "]"
    case JObject(ms) => "{" + Join(seq(|ms|, i requires 0 <= i < |ms| => MemberRepr(v, i))) + "}"
  }

  /** `repr(key) + ": " + repr(value)` for the `i`-th member of an object. */
  function MemberRepr(v: JsonValue, i: nat): string
    requires v.JObject? && i < |v.members|
    decreases v, 0
  {
    var m := v.members[i];
    assert m in v.members;
    StrRepr(m.0) + ": " + Repr(m.1)
  }

  /** `", ".join(parts)`. */
  function Join(parts: seq<string>): string
  {
    if |parts| == 0 then ""
    else if |parts| == 1 then parts[0]
    else parts[0] + ", " + Join(parts[1..])
  }

  /** `str(n)` for an integer: decimal digits with a leading minus sign when negative. */
  function IntToString(n: int): string
  {
    if n < 0 then "-" + NatToString(-n) else NatToString(n)
  }

  function NatToString(n: nat): string
    decreases n
  {
    if n < 10 then [Digit(n)] else NatToString(n / 10) + [Digit(n % 10)]
  }

  function Digit(d: nat): char
    requires d < 16
  {
    "0123456789abcdef"[d]
  }

  /**
   * `repr(s)` for a string: single quotes, or double quotes when `s` holds a single quote
   * and no double quote; backslash, the chosen quote, tab, newline and carriage return are
   * escaped, other ASCII control characters are written `\xNN`.
   */
  function StrRepr(s: string): string
  {
    var q := if '\'' in s && '"' !in s then '"' else '\'';
    [q] + Escaped(s, q) + [q]
  }

  /**
   * `repr` of a string is wrapped in one kind of quote, the same at both ends: double quotes
   * exactly when the text holds a single quote and no double quote, single quotes otherwise.
   */
  lemma StrReprQuotes(s: string)
    ensures |StrRepr(s)| >= 2
    ensures StrRepr(s)[0] == StrRepr(s)[|StrRepr(s)| - 1]
    ensures StrRepr(s)[0] == '"' <==> '\'' in s && '"' !in s
    ensures StrRepr(s)[0] == '"' || StrRepr(s)[0] == '\''
  {
  }

  function Escaped(s: string, q: char): string
  {
    if |s| == 0 then "" else EscapedChar(s[0], q) + Escaped(s[1..], q)
  }

  function EscapedChar(c: char, q: char): string
  {
    if c == '\\' || c == q then ['\\', c]
    else if c == '\t' then "\\t"
    else if c == '\n' then "\\n"
    else if c == '\r' then "\\r"
    else if c < ' ' || c == '\U{7F}' then "\\x" + [Digit(c as nat / 16), Digit(c as nat % 16)]
    else [c]
  }
}
