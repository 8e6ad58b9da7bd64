/** The environment chain (src/interpreter/environment.ts). An environment
    and its `enclosing` links form a chain of tables; here the chain is a
    sequence whose element 0 is the current table and whose last element is
    the globals. A chain is a value: the interpreter never lets two live
    chains share a table other than the globals (no closures are created), so
    writing the updated chain back is exact. */
module Environment {
  import opened Common
  import opened Tokens

  /** The error a Lox program can raise: the token it is reported at and
      the message (src/error.ts). */
  datatype RuntimeError = RuntimeError(token: Token, message: string)

  datatype Result<+T> = Ok(value: T) | Err(error: RuntimeError)

  type Chain<V> = seq<map<string, V>>

  /** `define`: write `name` into the current table, overwriting any entry. */
  function Define<V>(c: Chain<V>, name: string, v: V): (r: Chain<V>)
    requires |c| > 0
    ensures |r| == |c| && r[1..] == c[1..]
    ensures r[0].Keys == c[0].Keys + {name} && r[0][name] == v
    ensures forall k :: k in c[0] && k != name ==> r[0][k] == c[0][k]
  {
    c[0 := c[0][name := v]]
  }

  /** `name` is in table `d` and in no table nearer the current one. */
  predicate Nearest<V>(c: Chain<V>, d: int, name: string) {
    0 <= d < |c| && name in c[d] && forall j :: 0 <= j < d ==> name !in c[j]
  }

  predicate Declared<V>(c: Chain<V>, name: string) {
    exists d :: 0 <= d < |c| && name in c[d]
  }

  function UndefinedOnGet(name: Token): RuntimeError {
    RuntimeError(name, "Undefined variable: " + name.lexeme + ".")
  }

  function UndefinedOnAssign(name: Token): RuntimeError {
    RuntimeError(name, "Undefined variable: '" + name.lexeme + "'.")
  }

  /** `get`: the value in the nearest table holding the name; a name no
      table holds raises. */
  function Get<V>(c: Chain<V>, name: Token): (r: Result<V>)
    requires |c| > 0
    ensures r.Ok? <==> Declared(c, name.lexeme)
    ensures r.Ok? ==> exists d :: Nearest(c, d, name.lexeme) && r.value == c[d][name.lexeme]
    ensures r.Err? ==> r.error == UndefinedOnGet(name)
  {
    if name.lexeme in c[0] then Ok(c[0][name.lexeme])
    else if |c| > 1 then
      var r := Get(c[1..], name);
      assert Declared(c[1..], name.lexeme) <==> Declared(c, name.lexeme) by {
        if Declared(c, name.lexeme) {
          var d :| 0 <= d < |c| && name.lexeme in c[d];
          assert c[1..][d - 1] == c[d];
        }
      }
      if r.Ok? then NearestGetShift(c, name.lexeme, r.value); r else r
    else Err(UndefinedOnGet(name))
  }

  /** `assign`: overwrite the entry in the nearest table holding the name,
      leaving every other table as it was; a name no table holds raises and
      changes nothing. */
  function Assign<V>(c: Chain<V>, name: Token, v: V): (r: Result<Chain<V>>)
    requires |c| > 0
    ensures r.Ok? <==> Declared(c, name.lexeme)
    ensures r.Ok? ==> exists d :: Nearest(c, d, name.lexeme) && r.value == c[d := c[d][name.lexeme := v]]
    ensures r.Err? ==> r.error == UndefinedOnAssign(name)
  {
    if name.lexeme in c[0] then Ok(c[0 := c[0][name.lexeme := v]])
    else if |c| > 1 then
      var r := Assign(c[1..], name, v);
      assert Declared(c[1..], name.lexeme) <==> Declared(c, name.lexeme) by {
        if Declared(c, name.lexeme) {
          var d :| 0 <= d < |c| && name.lexeme in c[d];
          assert c[1..][d - 1] == c[d];
        }
      }
      if r.Ok? then NearestAssignShift(c, name.lexeme, v, r.value); Ok([c[0]] + r.value)
      else Err(r.error)
    else Err(UndefinedOnAssign(name))
  }

  lemma NearestGetShift<V>(c: Chain<V>, name: string, x: V)
    requires |c| > 1 && name !in c[0]
    requires exists d :: Nearest(c[1..], d, name) && x == c[1..][d][name]
    ensures exists d :: Nearest(c, d, name) && x == c[d][name]
  {
    var d :| Nearest(c[1..], d, name) && x == c[1..][d][name];
    assert Nearest(c, d + 1, name);
  }

  lemma NearestAssignShift<V>(c: Chain<V>, name: string, v: V, rest: Chain<V>)
    requires |c| > 1 && name !in c[0]
    requires exists d :: Nearest(c[1..], d, name) && rest == c[1..][d := c[1..][d][name := v]]
    ensures exists d :: Nearest(c, d, name) && [c[0]] + rest == c[d := c[d][name := v]]
  {
    var d :| Nearest(c[1..], d, name) && rest == c[1..][d := c[1..][d][name := v]];
    assert Nearest(c, d + 1, name);
    assert [c[0]] + rest == c[d + 1 := c[d + 1][name := v]];
  }

  /** `ancestor`: follow `d` enclosing links. The host's non-null assertion
      on the result is the caller's promise that the chain is long enough. */
  function Ancestor<V>(c: Chain<V>, d: nat): (r: Chain<V>)
    requires d < |c|
    ensures |r| == |c| - d && r[0] == c[d]
    ensures forall j :: 0 <= j < |r| ==> r[j] == c[d + j]
  {
    if d == 0 then c else Ancestor(c[1..], d - 1)
  }

  /** `getAt`: the entry in the ancestor's own table, with no further search;
      `None` is the host's `undefined` for a missing entry. */
  function GetAt<V>(c: Chain<V>, d: nat, name: string): (r: Option<V>)
    requires d < |c|
    ensures r.Some? <==> name in c[d]
    ensures r.Some? ==> r.value == c[d][name]
  {
    var t := Ancestor(c, d)[0];
    if name in t then Some(t[name]) else None
  }

  /** `assignAt`: write into the ancestor's own table, creating the entry if
      it is missing. */
  function AssignAt<V>(c: Chain<V>, d: nat, name: string, v: V): (r: Chain<V>)
    requires d < |c|
    ensures |r| == |c| && r[d] == c[d][name := v]
    ensures forall j :: 0 <= j < |c| && j != d ==> r[j] == c[j]
  {
    var t := Ancestor(c, d)[0];
    c[d := t[name := v]]
  }

  // --------------------------------------------------------------- lemmas

  /** After `define(n, v)`, `get(n)` yields `v`. */
  lemma GetAfterDefine<V>(c: Chain<V>, name: Token, v: V)
    requires |c| > 0
    ensures Get(Define(c, name.lexeme, v), name) == Ok(v)
  {
  }

  /** `ancestor(a)` then `ancestor(b)` is `ancestor(a + b)`. */
  lemma {:induction false} AncestorCompose<V>(c: Chain<V>, a: nat, b: nat)
    requires a + b < |c|
    ensures Ancestor(Ancestor(c, a), b) == Ancestor(c, a + b)
  {
    var x := Ancestor(Ancestor(c, a), b);
    var y := Ancestor(c, a + b);
    assert |x| == |y|;
    forall j | 0 <= j < |x|
      ensures x[j] == y[j]
    {
    }
  }

  /** The resolver's promise kept: when the nearest table holding a name is
      at distance `d`, `getAt(d)` and `get` agree. */
  lemma GetAtAgreesWithGet<V>(c: Chain<V>, d: nat, name: Token)
    requires |c| > 0 && Nearest(c, d, name.lexeme)
    ensures Get(c, name) == Ok(GetAt(c, d, name.lexeme).value)
  {
    var r := Get(c, name);
    var d' :| Nearest(c, d', name.lexeme) && r.value == c[d'][name.lexeme];
    assert d' == d;
  }

  /** Assigning to a declared name and reading it back yields the new value,
      and no table gains or loses a name. */
  lemma AssignThenGet<V>(c: Chain<V>, name: Token, v: V)
    requires |c| > 0 && Declared(c, name.lexeme)
    ensures Assign(c, name, v).Ok?
    ensures Get(Assign(c, name, v).value, name) == Ok(v)
    ensures forall j :: 0 <= j < |c| ==> Assign(c, name, v).value[j].Keys == c[j].Keys
  {
    var r := Assign(c, name, v).value;
    var d :| Nearest(c, d, name.lexeme) && r == c[d := c[d][name.lexeme := v]];
    assert r[d][name.lexeme] == v;
    assert Nearest(r, d, name.lexeme) by {
      assert forall j :: 0 <= j < d ==> r[j] == c[j];
    }
    var g := Get(r, name);
    var d' :| Nearest(r, d', name.lexeme) && g.value == r[d'][name.lexeme];
    assert d' == d;
    forall j | 0 <= j < |c|
      ensures r[j].Keys == c[j].Keys
    {
      if j == d {
        assert r[j] == c[d][name.lexeme := v];
      }
    }
  }

  /** `assignAt` is `assign` when the distance is the nearest one. */
  lemma {:induction false} AssignAtAgreesWithAssign<V>(c: Chain<V>, d: nat, name: Token, v: V)
    requires |c| > 0 && Nearest(c, d, name.lexeme)
    ensures Assign(c, name, v) == Ok(AssignAt(c, d, name.lexeme, v))
  {
    var r := Assign(c, name, v).value;
    var d' :| Nearest(c, d', name.lexeme) && r == c[d' := c[d'][name.lexeme := v]];
    assert d' == d;
  }
}
