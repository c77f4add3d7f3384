/** The interpreter's environment: a stack of variable scopes (innermost
    last), the object record being built, the names declared as fields of
    that record, and the records emitted so far.  A record is a map from
    field name to a JSON scalar; JSON key order is not modelled. */
module HeadEnv {
  import opened Results
  import opened HeadValue

  datatype Field = JInt(i: int) | JFloat(x: real) | JBool(b: bool) | JStr(s: string)

  type Scope = map<string, Value>
  type Record = map<string, Field>

  datatype Env = Env(scopes: seq<Scope>, current: Option<Record>, declared: set<string>, output: seq<Record>)

  /** A fresh interpreter's environment: no scopes, no object, no output. */
  function EmptyEnv(): (e: Env)
    ensures |e.scopes| == 0 && e.current.None? && e.declared == {} && |e.output| == 0
  {
    Env([], None, {}, [])
  }

  function PushScope(e: Env): (r: Env)
    ensures r.scopes == e.scopes + [map[]]
    ensures r.current == e.current && r.declared == e.declared && r.output == e.output
  {
    e.(scopes := e.scopes + [map[]])
  }

  /** Removes the innermost scope; does nothing on an empty stack. */
  function PopScope(e: Env): (r: Env)
    ensures |e.scopes| > 0 ==> r.scopes == e.scopes[..|e.scopes| - 1]
    ensures |e.scopes| == 0 ==> r.scopes == []
    ensures r.current == e.current && r.declared == e.declared && r.output == e.output
  {
    if |e.scopes| > 0 then e.(scopes := e.scopes[..|e.scopes| - 1]) else e
  }

  /** The index of the innermost scope that binds `k`, or -1. */
  function Binder(scopes: seq<Scope>, k: string): (i: int)
    ensures -1 <= i < |scopes|
    ensures i == -1 <==> forall j :: 0 <= j < |scopes| ==> k !in scopes[j]
    ensures i >= 0 ==> k in scopes[i] && forall j :: i < j < |scopes| ==> k !in scopes[j]
  {
    if |scopes| == 0 then -1
    else if k in scopes[|scopes| - 1] then |scopes| - 1
    else Binder(scopes[..|scopes| - 1], k)
  }

  /** `Env::getVar`: the innermost binding of `k`. */
  function GetVar(e: Env, k: string): Option<Value> {
    var i := Binder(e.scopes, k);
    if i < 0 then None else Some(e.scopes[i][k])
  }

  /** `Env::setVar`: binds `k` in the innermost scope, first pushing one if
      the stack is empty. */
  function SetVar(e: Env, k: string, v: Value): (r: Env)
    ensures |r.scopes| == if |e.scopes| == 0 then 1 else |e.scopes|
    ensures GetVar(r, k) == Some(v)
    ensures forall j :: j != k ==> GetVar(r, j) == GetVar(e, j)
    ensures |e.scopes| > 0 ==> r.scopes[..|e.scopes| - 1] == e.scopes[..|e.scopes| - 1]
    ensures r.current == e.current && r.declared == e.declared && r.output == e.output
  {
    var s := if |e.scopes| == 0 then [map[]] else e.scopes;
    var n := |s| - 1;
    var r := e.(scopes := s[n := s[n][k := v]]);
    assert forall j :: j != k ==> Binder(r.scopes, j) == Binder(s, j) by {
      forall j | j != k
        ensures Binder(r.scopes, j) == Binder(s, j)
      {
        BinderOther(s, n, j, k, v);
      }
    }
    r
  }

  /** Rebinding `k` in scope `n` does not change where any other name is
      found. */
  lemma {:induction false} BinderOther(s: seq<Scope>, n: nat, j: string, k: string, v: Value)
    requires n < |s| && j != k
    ensures Binder(s[n := s[n][k := v]], j) == Binder(s, j)
    ensures Binder(s, j) >= 0 ==> s[n := s[n][k := v]][Binder(s, j)][j] == s[Binder(s, j)][j]
    decreases |s|
  {
    var t := s[n := s[n][k := v]];
    var m := |s| - 1;
    if j in s[m] {
    } else if n == m {
      assert t[..m] == s[..m];
    } else {
      assert t[..m] == s[..m][n := s[n][k := v]];
      BinderOther(s[..m], n, j, k, v);
    }
  }

  /** Writing `k` into scope `n`, above which no scope binds `k`, makes
      scope `n` the innermost binder of `k`. */
  lemma {:induction false} BinderWritten(s: seq<Scope>, n: nat, k: string, v: Value)
    requires n < |s|
    requires forall j :: n < j < |s| ==> k !in s[j]
    ensures Binder(s[n := s[n][k := v]], k) == n
    decreases |s|
  {
    var t := s[n := s[n][k := v]];
    var m := |s| - 1;
    if n < m {
      assert t[..m] == s[..m][n := s[n][k := v]];
      BinderWritten(s[..m], n, k, v);
    }
  }

  /** The JSON scalar a value is stored as in a record. */
  function ToField(v: Value): (f: Field)
    ensures v.Num? ==> (f.JInt? <==> v.isInt) && (f.JFloat? <==> !v.isInt)
    ensures v.Num? && !v.isInt ==> f == JFloat(v.n)
    ensures v.Bool? ==> f == JBool(v.b)
    ensures v.Str? ==> f == JStr(v.s)
  {
    match v
    case Num(n, isInt) => if isInt then JInt(Trunc(n)) else JFloat(n)
    case Bool(b) => JBool(b)
    case Str(s) => JStr(s)
  }

  /** How `evalIdent` reads a record field back: a number whose fractional
      part is zero comes back integer-flagged. */
  function FieldValue(f: Field): (v: Value)
    ensures ValueOk(v)
    ensures v.Num? <==> f.JInt? || f.JFloat?
    ensures f.JFloat? ==> v.n == f.x && (v.isInt <==> Integral(f.x))
  {
    match f
    case JInt(i) => MakeInt(i)
    case JFloat(x) => if Integral(x) then MakeInt(x.Floor) else MakeNum(x)
    case JBool(b) => Bool(b)
    case JStr(s) => Str(s)
  }

  /** Storing a value in a record and reading it back gives it back, except
      that a whole number loses nothing but gains the integer flag. */
  lemma FieldRoundTrip(v: Value)
    requires ValueOk(v)
    ensures FieldValue(ToField(v)) == (if v.Num? && Integral(v.n) then MakeInt(v.n.Floor) else v)
    ensures FieldValue(ToField(v)) == v <==> !(v.Num? && !v.isInt && Integral(v.n))
  {
    if v.Num? && v.isInt {
      var i := v.n.Floor;
      assert v.n == i as real;
      TruncWhole(i);
      assert ToField(v) == JInt(i);
    }
  }

  /** The `id` field of a new record: a NUM keeps its integer flag, any other
      value is stored as its text. */
  function IdField(h: Host, v: Value): (f: Field)
    ensures v.Num? ==> f == ToField(v)
    ensures !v.Num? ==> f == JStr(ToStr(h, v))
  {
    if v.Num? then (if v.isInt then JInt(Trunc(v.n)) else JFloat(v.n)) else JStr(ToStr(h, v))
  }

  /** Writes field `k` of the current record (which must exist). */
  function WriteField(e: Env, k: string, v: Value): (r: Env)
    requires e.current.Some?
    ensures r.current == Some(e.current.value[k := ToField(v)])
    ensures r.scopes == e.scopes && r.declared == e.declared && r.output == e.output
  {
    e.(current := Some(e.current.value[k := ToField(v)]))
  }

  /** The assignment statement: a name bound on the stack is updated in the
      innermost scope that binds it; otherwise, inside an object, the field
      is written (and declared unless the record already has it); otherwise
      the name is bound in the innermost scope. */
  function Assign(e: Env, k: string, v: Value): (r: Env)
    ensures Binder(e.scopes, k) >= 0 ==>
              && |r.scopes| == |e.scopes|
              && (forall i :: 0 <= i < |e.scopes| ==> r.scopes[i].Keys == e.scopes[i].Keys)
              && GetVar(r, k) == Some(v)
              && (forall j :: j != k ==> GetVar(r, j) == GetVar(e, j))
              && r.current == e.current && r.declared == e.declared && r.output == e.output
    ensures Binder(e.scopes, k) < 0 && e.current.Some? ==>
              && r.scopes == e.scopes
              && r.current == Some(e.current.value[k := ToField(v)])
              && r.declared == e.declared + (if k in e.current.value then {} else {k})
              && r.output == e.output
    ensures Binder(e.scopes, k) < 0 && e.current.None? ==> r == SetVar(e, k, v)
  {
    var i := Binder(e.scopes, k);
    if i >= 0 then
      var r := e.(scopes := e.scopes[i := e.scopes[i][k := v]]);
      BinderWritten(e.scopes, i, k, v);
      assert forall j :: j != k ==> GetVar(r, j) == GetVar(e, j) by {
        forall j | j != k
          ensures GetVar(r, j) == GetVar(e, j)
        {
          BinderOther(e.scopes, i, j, k, v);
        }
      }
      r
    else if e.current.Some? then
      var w := WriteField(e, k, v);
      if k in e.declared || k in e.current.value then w else w.(declared := e.declared + {k})
    else SetVar(e, k, v)
  }

  /** A declaration's write: inside an object the field is written and
      always declared, otherwise the name is bound in the innermost scope. */
  function Declare(e: Env, k: string, v: Value): (r: Env)
    ensures e.current.Some? ==>
              r.scopes == e.scopes && r.current == Some(e.current.value[k := ToField(v)])
              && r.declared == e.declared + {k} && r.output == e.output
    ensures e.current.None? ==> GetVar(r, k) == Some(v) && r.current.None? && r.output == e.output
  {
    if e.current.Some? then WriteField(e, k, v).(declared := e.declared + {k}) else SetVar(e, k, v)
  }
}
