/** The walk over all R objects that can be reached from one of them, cycles included. */
module GraphWalk {
  import opened Wrappers
  type Ref(==, 0) = int

  /** R objects by what the walk looks at. `immediate` marks a cell whose first field is not an object. */
  datatype Object =
    | Nil
    | Unbound
    | Chars
    | Symbol(printName: Ref, value: Ref, internal_: Ref, attributes: Ref)
    | Cell(car: Ref, cdr: Ref, tag: Ref, immediate: bool, attributes: Ref)
    | Closure(formals: Ref, body: Ref, environment: Ref, attributes: Ref)
    | BaseEnvironment(variables: seq<Ref>, attributes: Ref)
    | EmptyEnvironment(attributes: Ref)
    | Environment(enclosing: Ref, frame: Ref, hashTable: Ref, attributes: Ref)
    | Promise(value: Ref, code: Ref, environment: Ref, attributes: Ref)
    | Strings(elements: seq<Ref>, attributes: Ref)
    | Vector(elements: seq<Ref>, attributes: Ref)
    | Bytecode(code: Ref, constants: Ref, expression: Ref, attributes: Ref)
    | ExternalPointer(protected: Ref, tag: Ref, attributes: Ref)
    | WeakReference(key: Ref, value: Ref, attributes: Ref)
    | Other(attributes: Ref)

  type Heap = map<Ref, Object>

  /** The objects that are looked at after an object, in this order. */
  function Successors(o: Object): seq<Ref> {
    match o
    case Nil => []
    case Unbound => []
    case Chars => []
    case Symbol(printName, value, internal_, attributes) => [printName, value, internal_, attributes]
    case Cell(car, cdr, tag, immediate, attributes) =>
      if immediate then [cdr, tag, attributes] else [car, cdr, tag, attributes]
    case Closure(formals, body, environment, attributes) => [formals, body, environment, attributes]
    case BaseEnvironment(variables, attributes) => variables + [attributes]
    case EmptyEnvironment(attributes) => [attributes]
    case Environment(enclosing, frame, hashTable, attributes) => [enclosing, frame, hashTable, attributes]
    case Promise(value, code, environment, attributes) => [value, code, environment, attributes]
    case Strings(elements, attributes) => elements + [attributes]
    case Vector(elements, attributes) => elements + [attributes]
    case Bytecode(code, constants, expression, attributes) => [code, constants, expression, attributes]
    case ExternalPointer(protected, tag, attributes) => [protected, tag, attributes]
    case WeakReference(key, value, attributes) => [key, value, attributes]
    case Other(attributes) => [attributes]
  }

  /** The object has a field with this reference, told by the fields instead of the kinds. */
  predicate Refers(o: Object, r: Ref) {
    || (!o.Nil? && !o.Unbound? && !o.Chars? && r == o.attributes)
    || ((o.Symbol? || o.Promise? || o.WeakReference?) && r == o.value)
    || ((o.Closure? || o.Promise?) && r == o.environment)
    || ((o.Promise? || o.Bytecode?) && r == o.code)
    || ((o.Cell? || o.ExternalPointer?) && r == o.tag)
    || ((o.Strings? || o.Vector?) && r in o.elements)
    || (o.Cell? && (r == o.cdr || (r == o.car && !o.immediate)))
    || (o.Symbol? && (r == o.printName || r == o.internal_))
    || (o.Closure? && (r == o.formals || r == o.body))
    || (o.Environment? && (r == o.enclosing || r == o.frame || r == o.hashTable))
    || (o.BaseEnvironment? && r in o.variables)
    || (o.Bytecode? && (r == o.constants || r == o.expression))
    || (o.ExternalPointer? && r == o.protected)
    || (o.WeakReference? && r == o.key)
  }

  /** No field is left out, and nothing else is looked at. */
  lemma SuccessorsAreFields(o: Object, r: Ref)
    ensures r in Successors(o) <==> Refers(o, r)
  {
    if o.Strings? || o.Vector? { assert r in o.elements ==> r in Successors(o); }
  }

  /** All references lead to objects. */
  predicate Closed(heap: Heap) {
    forall x, y :: x in heap && y in Successors(heap[x]) ==> y in heap
  }

  predicate Visitable(heap: Heap, x: Ref) {
    x in heap && !heap[x].Nil? && !heap[x].Unbound? && !heap[x].Chars?
  }

  predicate IsStep(heap: Heap, x: Ref, y: Ref) {
    Visitable(heap, x) && Visitable(heap, y) && y in Successors(heap[x])
  }

  predicate IsPath(heap: Heap, path: seq<Ref>) {
    && path != [] && Visitable(heap, path[0])
    && (|path| > 1 ==> IsStep(heap, path[0], path[1]) && IsPath(heap, path[1..]))
  }

  /** There is a path of visitable objects. */
  ghost predicate Reachable(heap: Heap, from: Ref, to: Ref) {
    exists path :: IsPath(heap, path) && path[0] == from && path[|path| - 1] == to
  }

  lemma ReachesItself(heap: Heap, x: Ref)
    requires Visitable(heap, x)
    ensures Reachable(heap, x, x)
  {
    assert IsPath(heap, [x]) && [x][0] == x && [x][|[x]| - 1] == x;
  }

  lemma ReachesFurther(heap: Heap, x: Ref, y: Ref, z: Ref)
    requires IsStep(heap, x, y) && Reachable(heap, y, z)
    ensures Reachable(heap, x, z)
  {
    var path :| IsPath(heap, path) && path[0] == y && path[|path| - 1] == z;
    var longer := [x] + path;
    assert longer[1..] == path;
    assert IsPath(heap, longer) && longer[0] == x && longer[|longer| - 1] == z;
  }

  /** All visitable successors of x are in the set. */
  predicate Covers(heap: Heap, visited: set<Ref>, x: Ref)
    requires x in heap
  {
    forall y :: y in Successors(heap[x]) && Visitable(heap, y) ==> y in visited
  }

  lemma {:induction false} CoveredPathStays(heap: Heap, visited: set<Ref>, path: seq<Ref>)
    requires forall x :: x in visited ==> x in heap && Covers(heap, visited, x)
    requires IsPath(heap, path) && path[0] in visited
    ensures path[|path| - 1] in visited
  {
    if |path| > 1 {
      CoveredPathStays(heap, visited, path[1..]);
    }
  }

  /** What a walk from x has added to the visited objects. */
  ghost predicate Walked(heap: Heap, before: set<Ref>, after: set<Ref>, x: Ref) {
    && before <= after
    && (Visitable(heap, x) ==> x in after)
    && (forall y :: y in after && y !in before ==> Reachable(heap, x, y) && y in heap && Covers(heap, after, y))
  }

  class Walker {
    const heap: Heap
    var visited: set<Ref>
    // the objects the function was called on, in order
    var calls: seq<Ref>

    ghost predicate Valid()
      reads this
    {
      && Closed(heap) && visited <= heap.Keys
      && NoDuplicates(calls) && (forall x :: x in visited <==> x in calls)
    }

    constructor (heap: Heap)
      requires Closed(heap)
      ensures Valid() && this.heap == heap && visited == {} && calls == []
    {
      this.heap, visited, calls := heap, {}, [];
    }

    method Call(x: Ref)
      requires Valid() && x in heap && x !in visited
      modifies this
      ensures Valid() && visited == old(visited) + {x} && calls == old(calls) + [x]
    {
      visited := visited + {x};
      calls := calls + [x];
    }

    method Walk(x: Ref)
      requires Valid() && x in heap
      modifies this
      ensures Valid() && old(calls) <= calls && Walked(heap, old(visited), visited, x)
      decreases heap.Keys - visited
    {
      hide Reachable;
      if !Visitable(heap, x) || x in visited {
        return;
      }
      ReachesItself(heap, x);
      Call(x);
      ghost var before, ours := old(visited), visited;
      var successors := Successors(heap[x]);
      for i := 0 to |successors|
        invariant Valid() && old(calls) <= calls && ours <= visited
        invariant forall j :: 0 <= j < i && Visitable(heap, successors[j]) ==> successors[j] in visited
        invariant forall y :: y in visited && y !in ours ==> Reachable(heap, x, y) && Covers(heap, visited, y)
      {
        ghost var now := visited;
        var next := successors[i];
        assert next in successors;
        Walk(next);
        StepWalked(heap, ours, now, visited, x, next);
      }
    }
  }

  lemma StepWalked(heap: Heap, ours: set<Ref>, before: set<Ref>, after: set<Ref>, x: Ref, next: Ref)
    requires ours <= before && Visitable(heap, x) && next in Successors(heap[x]) && next in heap
    requires before <= heap.Keys && after <= heap.Keys
    requires forall y :: y in before && y !in ours ==> Reachable(heap, x, y) && Covers(heap, before, y)
    requires Walked(heap, before, after, next)
    ensures ours <= after
    ensures forall y :: y in after && y !in ours ==> Reachable(heap, x, y) && Covers(heap, after, y)
  {
    hide Reachable, IsStep;
    forall y | y in after && y !in ours ensures Reachable(heap, x, y) && Covers(heap, after, y) {
      if y !in before {
        FirstIsVisitable(heap, next, y);
        assert IsStep(heap, x, next) by { StepIs(heap, x, next); }
        ReachesFurther(heap, x, next, y);
      }
    }
  }

  lemma StepIs(heap: Heap, x: Ref, y: Ref)
    requires Visitable(heap, x) && Visitable(heap, y) && y in Successors(heap[x])
    ensures IsStep(heap, x, y)
  {
  }

  lemma FirstIsVisitable(heap: Heap, x: Ref, y: Ref)
    requires Reachable(heap, x, y)
    ensures Visitable(heap, x)
  {
  }

  /** On any heap, the walk ends, and calls the function exactly once on every object that can be
      reached from the root through visitable objects, and on nothing else. */
  method WalkObjects(heap: Heap, root: Ref) returns (calls: seq<Ref>)
    requires Closed(heap) && root in heap
    ensures NoDuplicates(calls)
    ensures forall x :: x in calls <==> Reachable(heap, root, x)
  {
    var walker := new Walker(heap);
    walker.Walk(root);
    calls := walker.calls;
    forall x | Reachable(heap, root, x) ensures x in calls {
      var path :| IsPath(heap, path) && path[0] == root && path[|path| - 1] == x;
      CoveredPathStays(heap, walker.visited, path);
    }
  }
}
