/**
 * Optional values (a missing field — `undefined`, `null`, `None` — is `None`),
 * truthiness, the two implementations, and the outcome of an HTTP request.
 */
module Wrappers {
  /** The TypeScript application or its Python port, where the two differ. */
  datatype Lang = TS | Py

  /** What an HTTP request gave: an exception, or a status code and a decoded body. */
  datatype Reply<T> = Threw | Reply(status: int, body: T)

  /** `res.ok` in TypeScript (any 2xx status); `status_code == 200` in Python. */
  predicate StatusOk(lang: Lang, status: int) {
    if lang == TS then 200 <= status <= 299 else status == 200
  }

  /** A process environment: variable name to value. */
  type Env = map<string, string>

  /** The variable's value when it is set, "" otherwise. */
  function EnvGet(env: Env, name: string): string {
    if name in env then env[name] else ""
  }

  datatype Option<T> = None | Some(value: T) {
    function GetOr(default: T): (r: T)
      ensures Some? ==> r == value
      ensures None? ==> r == default
    {
      match this
      case None => default
      case Some(v) => v
    }
  }

  /** JavaScript / Python truthiness of an optional number: absent and 0 are falsy. */
  predicate TruthyNum(x: Option<real>) {
    x.Some? && x.value != 0.0
  }

  /** Truthiness of an optional integer. */
  predicate TruthyInt(x: Option<int>) {
    x.Some? && x.value != 0
  }

  /** Truthiness of an optional string: absent and "" are falsy. */
  predicate TruthyStr(x: Option<string>) {
    x.Some? && |x.value| > 0
  }

  /** `a || b` on optional strings: the first truthy one, else the second. */
  function OrStr(a: Option<string>, b: Option<string>): (r: Option<string>)
    ensures TruthyStr(a) ==> r == a
    ensures !TruthyStr(a) ==> r == b
  {
    if TruthyStr(a) then a else b
  }

  /** `a || "default"` on an optional string: never falsy when the default is not. */
  function StrOr(a: Option<string>, default: string): (r: string)
    ensures TruthyStr(a) ==> r == a.value
    ensures !TruthyStr(a) ==> r == default
  {
    if TruthyStr(a) then a.value else default
  }

  /** `a || default` on an optional number. */
  function NumOr(a: Option<real>, default: real): (r: real)
    ensures TruthyNum(a) ==> r == a.value
    ensures !TruthyNum(a) ==> r == default
  {
    if TruthyNum(a) then a.value else default
  }

  /** `a || default` on an optional integer. */
  function IntOr(a: Option<int>, default: int): (r: int)
    ensures TruthyInt(a) ==> r == a.value
    ensures !TruthyInt(a) ==> r == default
  {
    if TruthyInt(a) then a.value else default
  }

  /** `a ?? b`: the first that is present. */
  function Coalesce<T>(a: Option<T>, b: Option<T>): (r: Option<T>)
    ensures a.Some? ==> r == a
    ensures a.None? ==> r == b
  {
    if a.Some? then a else b
  }

  /** A loop over a whole sequence ends at the full prefix. */
  lemma WholePrefix<T>(s: seq<T>)
    ensures s[..|s|] == s
  {
  }

  /** `s.slice(0, n)` / `s[:n]`: at most the first n elements. */
  function Take<T>(s: seq<T>, n: nat): (r: seq<T>)
    ensures |r| == if |s| < n then |s| else n
    ensures forall k | 0 <= k < |r| :: r[k] == s[k]
  {
    if |s| < n then s else s[..n]
  }

  /** `s.filter(f)`: the elements satisfying f, in order. */
  function Filter<T>(s: seq<T>, f: T -> bool): (r: seq<T>)
    ensures |r| <= |s|
  {
    if s == [] then [] else (if f(s[0]) then [s[0]] else []) + Filter(s[1..], f)
  }

  /** The filter keeps exactly the elements satisfying f. */
  lemma {:induction false} FilterMembers<T>(s: seq<T>, f: T -> bool)
    ensures forall x | x in Filter(s, f) :: x in s && f(x)
    ensures forall x | x in s && f(x) :: x in Filter(s, f)
  {
    if s != [] {
      FilterMembers(s[1..], f);
      assert forall x | x in s :: x == s[0] || x in s[1..];
    }
  }

  /** Nothing passes a filter no element satisfies. */
  lemma {:induction false} FilterNone<T>(s: seq<T>, f: T -> bool)
    requires forall x | x in s :: !f(x)
    ensures Filter(s, f) == []
  {
    if s != [] {
      assert s[0] in s;
      FilterNone(s[1..], f);
    }
  }
}
