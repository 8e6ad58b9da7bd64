/** Runtime values and the runtime objects of src/interpreter/callable.ts and
    src/interpreter/class.ts, together with the value tests of the
    interpreter (`isTruthy`, `isEqual`). Host objects have an identity; here
    each carries an `id`, and the interpreter hands out a fresh one whenever
    the host would allocate an object. */
module Runtime {
  import opened Common
  import opened Tokens
  import opened Ast

  /** A `LoxFunction`: its identity and its declaration. */
  datatype LoxFunction = LoxFunction(fnId: nat, decl: FunDecl)

  /** A `LoxClass`: its identity and its name. */
  datatype LoxClass = LoxClass(classId: nat, name: string)

  /** A Lox value. `NilValue` stands for both host markers `null` and
      `undefined`, which no rule tells apart. */
  datatype Value =
    | NilValue
    | BoolValue(b: bool)
    | NumberValue(n: real)
    | StringValue(s: string)
    | FunctionValue(f: LoxFunction)
    | ClassValue(c: LoxClass)
    | InstanceValue(instanceId: nat, klass: LoxClass)

  /** The value of a literal node. */
  function FromLiteral(lit: LitValue): (v: Value)
    ensures lit.NilLit? <==> v.NilValue?
    ensures v.NilValue? || v.BoolValue? || v.NumberValue? || v.StringValue?
    ensures lit.BoolLit? ==> v == BoolValue(lit.b)
    ensures lit.NumLit? ==> v == NumberValue(lit.n)
    ensures lit.StrLit? ==> v == StringValue(lit.s)
  {
    match lit
    case NilLit => NilValue
    case BoolLit(b) => BoolValue(b)
    case NumLit(n) => NumberValue(n)
    case StrLit(s) => StringValue(s)
  }

  /** `isTruthy`: nil is false, a boolean is itself, anything else is true. */
  function IsTruthy(v: Value): bool {
    if v.NilValue? then false
    else if v.BoolValue? then v.b
    else true
  }

  /** Exactly nil and `false` are falsy. */
  lemma TruthyExceptNilAndFalse(v: Value)
    ensures !IsTruthy(v) <==> v == NilValue || v == BoolValue(false)
  {
  }

  /** The host's `===`: primitives compare by kind and content, objects by
      identity. */
  function StrictEquals(a: Value, b: Value): bool {
    match (a, b)
    case (NilValue, NilValue) => true
    case (BoolValue(x), BoolValue(y)) => x == y
    case (NumberValue(x), NumberValue(y)) => x == y
    case (StringValue(x), StringValue(y)) => x == y
    case (FunctionValue(x), FunctionValue(y)) => x.fnId == y.fnId
    case (ClassValue(x), ClassValue(y)) => x.classId == y.classId
    case (InstanceValue(x, _), InstanceValue(y, _)) => x == y
    case _ => false
  }

  /** `isEqual`: two nils are equal, nil equals nothing else, and otherwise
      it is `===`, with no conversion between kinds. */
  function IsEqual(a: Value, b: Value): bool {
    if a.NilValue? && b.NilValue? then true
    else if a.NilValue? then false
    else StrictEquals(a, b)
  }

  /** Objects are identified by their ids: two objects of one kind with the
      same id are the same object. */
  predicate Identified(a: Value, b: Value) {
    && (a.FunctionValue? && b.FunctionValue? && a.f.fnId == b.f.fnId ==> a == b)
    && (a.ClassValue? && b.ClassValue? && a.c.classId == b.c.classId ==> a == b)
    && (a.InstanceValue? && b.InstanceValue? && a.instanceId == b.instanceId ==> a == b)
  }

  /** `isEqual` is equality of values: nil equals only nil, values of
      different kinds are never equal, and it is symmetric. */
  lemma IsEqualIsEquality(a: Value, b: Value)
    requires Identified(a, b)
    ensures IsEqual(a, b) <==> a == b
    ensures IsEqual(a, b) == IsEqual(b, a)
  {
  }

  /** The callable interface: `Some(arity)` for an object with a `call`
      method, `None` for any other value. */
  function Arity(v: Value): (r: Option<nat>)
    ensures r.Some? <==> v.FunctionValue? || v.ClassValue?
    ensures v.FunctionValue? ==> r == Some(|v.f.decl.params|)
    ensures v.ClassValue? ==> r == Some(0)
  {
    match v
    case FunctionValue(f) => Some(FunctionArity(f))
    case ClassValue(c) => Some(ClassArity(c))
    case _ => None
  }

  /** `LoxFunction.arity`. */
  function FunctionArity(f: LoxFunction): nat {
    |f.decl.params|
  }

  /** `LoxClass.arity`. */
  function ClassArity(c: LoxClass): nat {
    0
  }

  /** `LoxClass.call`: a fresh instance of the callee; the arguments are not
      looked at. */
  function ClassCall(c: LoxClass, args: seq<Value>, freshId: nat): (v: Value)
    ensures v.InstanceValue? && v.klass == c && v.instanceId == freshId
  {
    InstanceValue(freshId, c)
  }

  /** The class call's result depends on the callee and the fresh identity
      only. */
  lemma ClassCallIgnoresArguments(c: LoxClass, a1: seq<Value>, a2: seq<Value>, freshId: nat)
    ensures ClassCall(c, a1, freshId) == ClassCall(c, a2, freshId)
  {
  }

  /** The argument for parameter `i`; the host reads `undefined` past the
      end of the argument array. */
  function ArgumentAt(args: seq<Value>, i: nat): Value {
    if i < |args| then args[i] else NilValue
  }

  /** The names of the parameters. */
  function ParamNames(params: seq<Token>): set<string> {
    set i | 0 <= i < |params| :: params[i].lexeme
  }

  /** The table of the frame `LoxFunction.call` builds: each parameter
      defined, in order, to the argument at its position. */
  function BindParameters(params: seq<Token>, args: seq<Value>): (m: map<string, Value>)
    ensures m.Keys == ParamNames(params)
    decreases |params|
  {
    if |params| == 0 then map[]
    else
      var n := |params| - 1;
      var m := BindParameters(params[..n], args);
      assert ParamNames(params) == ParamNames(params[..n]) + {params[n].lexeme} by {
        forall x | x in ParamNames(params)
          ensures x in ParamNames(params[..n]) + {params[n].lexeme}
        {
          var i :| 0 <= i < |params| && params[i].lexeme == x;
          if i < n {
            assert params[..n][i] == params[i];
          }
        }
      }
      m[params[n].lexeme := ArgumentAt(args, n)]
  }

  /** Parameter `i` is bound to argument `i` unless a later parameter has
      the same name, in which case the later definition wins. */
  lemma {:induction false} BindParametersAt(params: seq<Token>, args: seq<Value>, i: nat)
    requires i < |params|
    requires forall j :: i < j < |params| ==> params[j].lexeme != params[i].lexeme
    ensures BindParameters(params, args)[params[i].lexeme] == ArgumentAt(args, i)
    decreases |params|
  {
    var n := |params| - 1;
    if i < n {
      assert params[..n][i] == params[i];
      BindParametersAt(params[..n], args, i);
    }
  }

  /** `toString` of a function, a class and an instance. */
  function Describe(v: Value): (r: Option<string>)
    ensures r.Some? <==> v.FunctionValue? || v.ClassValue? || v.InstanceValue?
  {
    match v
    case FunctionValue(f) => Some("<fn " + f.decl.name.lexeme + ">")
    case ClassValue(c) => Some("<class " + c.name + ">")
    case InstanceValue(_, c) => Some("<class instance " + c.name + ">")
    case _ => None
  }

  /** Each form is a fixed prefix, the name, and `>`: the name is recovered
      by dropping the prefix and the final character. */
  lemma DescribeRecoversName(v: Value)
    requires v.FunctionValue? || v.ClassValue? || v.InstanceValue?
    ensures var t := Describe(v).value;
      && t[|t| - 1] == '>'
      && (v.FunctionValue? ==> IsPrefix("<fn ", t) && t[4..|t| - 1] == v.f.decl.name.lexeme)
      && (v.ClassValue? ==> IsPrefix("<class ", t) && t[7..|t| - 1] == v.c.name)
      && (v.InstanceValue? ==> IsPrefix("<class instance ", t) && t[16..|t| - 1] == v.klass.name)
  {
  }
}
