/** The three lodash path operations the registry relies on (`_.has`, `_.get`,
    `_.set`), restricted to paths of plain segments. A path is the sequence of
    property names of a dot identifier; the operations act on the own properties
    of an object (for the registry, on the properties of `window`). */
module Lodash {
  import opened JsValues

  type Path = seq<string>

  /** `_.has(obj, path)`: every segment is an own property of the object reached so far. */
  predicate Has(m: map<string, Value>, p: Path)
    ensures Has(m, p) ==> |p| > 0 && p[0] in m
    decreases p
  {
    && |p| > 0
    && p[0] in m
    && (|p| == 1 || (m[p[0]].Obj? && Has(m[p[0]].props, p[1..])))
  }

  /** `_.get(obj, path)`: the value at the path, `undefined` when some segment is missing. */
  function Get(m: map<string, Value>, p: Path): (v: Value)
    ensures v != Undefined ==> Has(m, p)
    decreases p
  {
    if |p| == 0 || p[0] !in m then Undefined
    else if |p| == 1 then m[p[0]]
    else if m[p[0]].Obj? then Get(m[p[0]].props, p[1..])
    else Undefined
  }

  /** `_.set(obj, path, x)`: intermediate values that are objects are kept, every
      other intermediate value (absent, primitive) is replaced by `{}`, and the
      last segment is assigned `x`. An empty path changes nothing. */
  function Set(m: map<string, Value>, p: Path, x: Value): (r: map<string, Value>)
    ensures m.Keys <= r.Keys
    ensures |p| > 0 ==> p[0] in r
    decreases p
  {
    if |p| == 0 then m
    else if |p| == 1 then m[p[0] := x]
    else
      var child := if p[0] in m && m[p[0]].Obj? then m[p[0]] else EmptyObject();
      m[p[0] := Obj(child.kind, Set(child.props, p[1..], x))]
  }

  /** After `_.set(obj, p, x)` the path is present and holds `x`. */
  lemma {:induction false} SetThenGet(m: map<string, Value>, p: Path, x: Value)
    requires |p| > 0
    ensures Has(Set(m, p, x), p)
    ensures Get(Set(m, p, x), p) == x
    decreases p
  {
    if |p| > 1 {
      var child := if p[0] in m && m[p[0]].Obj? then m[p[0]] else EmptyObject();
      SetThenGet(child.props, p[1..], x);
    }
  }

  /** A path that is absent reads as `undefined`. */
  lemma {:induction false} GetAbsent(m: map<string, Value>, p: Path)
    requires !Has(m, p)
    ensures Get(m, p) == Undefined
    decreases p
  {
    if |p| > 1 && p[0] in m && m[p[0]].Obj? {
      GetAbsent(m[p[0]].props, p[1..]);
    }
  }

  /** Every non-empty prefix of a present path is present. */
  lemma {:induction false} HasPrefix(m: map<string, Value>, p: Path, q: Path)
    requires |p| > 0 && p <= q && Has(m, q)
    ensures Has(m, p)
    decreases p
  {
    if |p| > 1 {
      assert q[0] == p[0] && p[1..] <= q[1..];
      HasPrefix(m[p[0]].props, p[1..], q[1..]);
    }
  }

  /** `_.set` never removes a present path, except the paths running through the
      one it assigns (those at `p` or below `p`). */
  lemma {:induction false} SetKeepsPresence(m: map<string, Value>, p: Path, q: Path, x: Value)
    requires Has(m, q) && !(p <= q)
    ensures Has(Set(m, p, x), q)
    decreases p
  {
    if |p| > 1 && p[0] == q[0] && |q| > 1 {
      assert !(p[1..] <= q[1..]);
      SetKeepsPresence(m[p[0]].props, p[1..], q[1..], x);
    }
  }

  /** `_.set` at `p` leaves every path that neither leads to `p` nor lies below it
      exactly as it was, present or absent. */
  lemma {:induction false} SetFrame(m: map<string, Value>, p: Path, q: Path, x: Value)
    requires !(p <= q) && !(q <= p)
    ensures Has(Set(m, p, x), q) <==> Has(m, q)
    ensures Get(Set(m, p, x), q) == Get(m, q)
    decreases p
  {
    if p[0] == q[0] {
      var child := if p[0] in m && m[p[0]].Obj? then m[p[0]] else EmptyObject();
      assert |p| > 1 && |q| > 1;
      assert !(p[1..] <= q[1..]) && !(q[1..] <= p[1..]);
      SetFrame(child.props, p[1..], q[1..], x);
    }
  }
}
