/**
 * The scope chain of ExecutionContext. A context holds a local map and a link
 * to its parent; the static globalVariables map is the last fallback. Every
 * context the engine creates is parented on the context that is current when
 * it is created, so the live contexts form a stack: a chain is modelled as the
 * sequence of local maps, outermost first, innermost (the current scope) last.
 */
module Scopes {
  import opened Wrappers
  import opened Values

  type Frame = map<string, Value>

  /** What an expression can see: the chain of the current context and the globals. */
  datatype Env = Env(chain: seq<Frame>, globals: Frame) {
    predicate Has(name: string) { HasVariable(chain, globals, name) }
    function Get(name: string): Option<Value> { GetVariable(chain, globals, name) }
  }

  /** hasVariable: some level of the chain binds `name`, or the globals do. */
  predicate HasVariable(chain: seq<Frame>, globals: Frame, name: string)
    decreases |chain|
  {
    if |chain| == 0 then name in globals
    else name in chain[|chain| - 1] || HasVariable(chain[..|chain| - 1], globals, name) || name in globals
  }

  /** getVariable: the innermost binding of `name`, else the global one, else null (None). */
  function GetVariable(chain: seq<Frame>, globals: Frame, name: string): Option<Value>
    decreases |chain|
  {
    if |chain| == 0 then (if name in globals then Some(globals[name]) else None)
    else if name in chain[|chain| - 1] then Some(chain[|chain| - 1][name])
    else GetVariable(chain[..|chain| - 1], globals, name)
  }

  /** Some level of the chain binds `name`. */
  predicate BoundInChain(chain: seq<Frame>, name: string) {
    exists k :: 0 <= k < |chain| && name in chain[k]
  }

  /** `k` is the innermost level of the chain that binds `name`. */
  predicate InnermostLevel(chain: seq<Frame>, name: string, k: int) {
    0 <= k < |chain| && name in chain[k] && forall j :: k < j < |chain| ==> name !in chain[j]
  }

  /** hasVariable(n) holds exactly when some level or the globals contain n, exactly when getVariable(n) is not null. */
  lemma {:induction false} HasVariableSpec(chain: seq<Frame>, globals: Frame, name: string)
    ensures HasVariable(chain, globals, name) <==> BoundInChain(chain, name) || name in globals
    ensures HasVariable(chain, globals, name) <==> GetVariable(chain, globals, name).Some?
    decreases |chain|
  {
    if |chain| > 0 {
      var n := |chain| - 1;
      var parent := chain[..n];
      HasVariableSpec(parent, globals, name);
      if BoundInChain(chain, name) && name !in chain[n] {
        var k :| 0 <= k < |chain| && name in chain[k];
        assert name in parent[k];
      }
      if BoundInChain(parent, name) {
        var k :| 0 <= k < |parent| && name in parent[k];
        assert name in chain[k];
      }
    }
  }

  /** getVariable returns the binding of the innermost level that has one; the globals only when no level has. */
  lemma {:induction false} GetVariableSpec(chain: seq<Frame>, globals: Frame, name: string, k: int)
    requires InnermostLevel(chain, name, k)
    ensures GetVariable(chain, globals, name) == Some(chain[k][name])
    decreases |chain|
  {
    var n := |chain| - 1;
    if k < n {
      assert InnermostLevel(chain[..n], name, k);
      GetVariableSpec(chain[..n], globals, name, k);
    }
  }

  lemma {:induction false} GetVariableGlobal(chain: seq<Frame>, globals: Frame, name: string)
    requires !BoundInChain(chain, name)
    ensures GetVariable(chain, globals, name) == if name in globals then Some(globals[name]) else None
    decreases |chain|
  {
    if |chain| > 0 {
      var n := |chain| - 1;
      assert name !in chain[n];
      GetVariableGlobal(chain[..n], globals, name);
    }
  }

  /** setVariable: a put into the innermost (current) local map. */
  function SetLocal(chain: seq<Frame>, name: string, v: Value): (r: seq<Frame>)
    requires |chain| > 0
    ensures |r| == |chain|
    ensures r[..|r| - 1] == chain[..|chain| - 1]
    ensures r[|r| - 1] == chain[|chain| - 1][name := v]
  {
    chain[..|chain| - 1] + [chain[|chain| - 1][name := v]]
  }

  /** After setVariable(n, v), getVariable(n) is v and every other name reads as before; the parents and globals are untouched. */
  lemma SetLocalSpec(chain: seq<Frame>, globals: Frame, name: string, v: Value, other: string)
    requires |chain| > 0
    ensures GetVariable(SetLocal(chain, name, v), globals, name) == Some(v)
    ensures other != name ==> GetVariable(SetLocal(chain, name, v), globals, other) == GetVariable(chain, globals, other)
  {
    var r := SetLocal(chain, name, v);
    assert r[..|r| - 1] == chain[..|chain| - 1];
  }

  /** SetLocalSpec for every other name at once. */
  lemma SetLocalKeeps(chain: seq<Frame>, globals: Frame, name: string, v: Value)
    requires |chain| > 0
    ensures GetVariable(SetLocal(chain, name, v), globals, name) == Some(v)
    ensures forall other :: other != name ==> GetVariable(SetLocal(chain, name, v), globals, other) == GetVariable(chain, globals, other)
  {
    forall other | other != name
      ensures GetVariable(SetLocal(chain, name, v), globals, other) == GetVariable(chain, globals, other)
    {
      SetLocalSpec(chain, globals, name, v, other);
    }
    SetLocalSpec(chain, globals, name, v, name);
  }

  /** Reading through a context pushed on the chain: its own map first, then the caller's chain. */
  lemma PushSpec(chain: seq<Frame>, f: Frame, globals: Frame, name: string)
    ensures GetVariable(chain + [f], globals, name) == if name in f then Some(f[name]) else GetVariable(chain, globals, name)
    ensures HasVariable(chain + [f], globals, name) <==> name in f || HasVariable(chain, globals, name)
  {
    assert (chain + [f])[..|chain|] == chain;
    if |chain| > 0 {
      HasVariableSpec(chain, globals, name);
    }
  }

  /**
   * The effect of `ArrayList.add` on the list found through the chain: the
   * innermost level holding `name` (or the globals, when no level does) now
   * binds `v`. Every other binding is unchanged.
   */
  function Rebind(chain: seq<Frame>, globals: Frame, name: string, v: Value): (r: (seq<Frame>, Frame))
    requires HasVariable(chain, globals, name)
    ensures |r.0| == |chain|
    decreases |chain|
  {
    if |chain| == 0 then ([], globals[name := v])
    else
      var n := |chain| - 1;
      if name in chain[n] then (chain[..n] + [chain[n][name := v]], globals)
      else
        var (c, g) := Rebind(chain[..n], globals, name, v);
        (c + [chain[n]], g)
  }

  /** After Rebind, getVariable(n) is the new value. */
  lemma {:induction false} RebindReads(chain: seq<Frame>, globals: Frame, name: string, v: Value)
    requires HasVariable(chain, globals, name)
    ensures var (c, g) := Rebind(chain, globals, name, v); GetVariable(c, g, name) == Some(v)
    decreases |chain|
  {
    if |chain| > 0 {
      var n := |chain| - 1;
      var (c, g) := Rebind(chain, globals, name, v);
      if name in chain[n] {
        assert c[..n] == chain[..n];
      } else {
        RebindReads(chain[..n], globals, name, v);
        var (c', g') := Rebind(chain[..n], globals, name, v);
        assert c[..n] == c';
      }
    }
  }

  /** Rebind leaves every other name reading as before. */
  lemma {:induction false} RebindOthers(chain: seq<Frame>, globals: Frame, name: string, v: Value, other: string)
    requires HasVariable(chain, globals, name) && other != name
    ensures var (c, g) := Rebind(chain, globals, name, v); GetVariable(c, g, other) == GetVariable(chain, globals, other)
    decreases |chain|
  {
    if |chain| > 0 {
      var n := |chain| - 1;
      var (c, g) := Rebind(chain, globals, name, v);
      if name in chain[n] {
        assert c[..n] == chain[..n];
      } else {
        RebindOthers(chain[..n], globals, name, v, other);
        var (c', g') := Rebind(chain[..n], globals, name, v);
        assert c[..n] == c';
      }
    }
  }

  /** RebindReads and RebindOthers together, for every other name at once. */
  lemma RebindKeeps(chain: seq<Frame>, globals: Frame, name: string, v: Value)
    requires HasVariable(chain, globals, name)
    ensures var (c, g) := Rebind(chain, globals, name, v);
      GetVariable(c, g, name) == Some(v)
      && forall other :: other != name ==> GetVariable(c, g, other) == GetVariable(chain, globals, other)
  {
    var (c, g) := Rebind(chain, globals, name, v);
    RebindReads(chain, globals, name, v);
    forall other | other != name
      ensures GetVariable(c, g, other) == GetVariable(chain, globals, other)
    {
      RebindOthers(chain, globals, name, v, other);
    }
  }

  /** A binding that stays put, or a list that only grew at its end. */
  predicate ValueGrows(a: Value, b: Value) {
    a == b || (a.ListVal? && b.ListVal? && a.items <= b.items)
  }

  /** Same names, each bound to the same value or to an extension of its list. */
  predicate FrameGrows(f: Frame, g: Frame) {
    f.Keys == g.Keys && forall k :: k in f ==> ValueGrows(f[k], g[k])
  }

  predicate ChainGrows(c: seq<Frame>, d: seq<Frame>) {
    |c| == |d| && forall i :: 0 <= i < |c| ==> FrameGrows(c[i], d[i])
  }

  /** Appending to the list found through the chain only grows the chain and the globals. */
  lemma {:induction false} RebindGrows(chain: seq<Frame>, globals: Frame, name: string, x: Value)
    requires HasVariable(chain, globals, name)
    requires GetVariable(chain, globals, name).Some? && GetVariable(chain, globals, name).value.ListVal?
    ensures var old_ := GetVariable(chain, globals, name).value;
      var (c, g) := Rebind(chain, globals, name, ListVal(old_.items + [x]));
      ChainGrows(chain, c) && FrameGrows(globals, g)
    decreases |chain|
  {
    var old_ := GetVariable(chain, globals, name).value;
    var v := ListVal(old_.items + [x]);
    var (c, g) := Rebind(chain, globals, name, v);
    assert ValueGrows(old_, v);
    if |chain| > 0 {
      var n := |chain| - 1;
      if name in chain[n] {
        assert c[n] == chain[n][name := v];
        assert forall i :: 0 <= i < n ==> c[i] == chain[i];
      } else {
        RebindGrows(chain[..n], globals, name, x);
        var (c', g') := Rebind(chain[..n], globals, name, v);
        assert c == c' + [chain[n]];
      }
    }
  }
}
