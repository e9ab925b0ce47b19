/** The order in which workload entities are created on restore (workload_entities.py). */
module WorkloadOrder {
  import opened Bytes

  datatype Entity = Entity(name: string, parent: Option<string>)

  /** `{entity.name: entity for entity in entities}`. */
  function MapOf(entities: seq<Entity>): (m: map<string, Entity>)
    ensures forall name :: name in m <==> exists e <- entities :: e.name == name
    ensures forall name <- m :: m[name] in entities && m[name].name == name
  {
    if entities == [] then map[]
    else
      var last := entities[|entities| - 1];
      assert entities == entities[..|entities| - 1] + [last];
      MapOf(entities[..|entities| - 1])[last.name := last]
  }

  predicate UniqueNames(entities: seq<Entity>) {
    forall i, j | 0 <= i < j < |entities| :: entities[i].name != entities[j].name
  }

  function NamesOf(entities: seq<Entity>): set<string> {
    set e <- entities :: e.name
  }

  /** The ancestor `n` steps up. */
  function Ancestor(m: map<string, Entity>, name: string, n: nat): Option<string> {
    if n == 0 then Some(name)
    else
      var below := Ancestor(m, name, n - 1);
      if below.Some? && below.value in m then m[below.value].parent else None
  }

  ghost predicate OnCycle(m: map<string, Entity>, name: string) {
    exists n: nat :: n > 0 && Ancestor(m, name, n) == Some(name)
  }

  /** The parent of entry `i`, if it has one, comes before it. */
  predicate ParentBefore(result: seq<Entity>, i: nat)
    requires i < |result|
  {
    result[i].parent.Some? ==> exists j :: 0 <= j < i && result[j].name == result[i].parent.value
  }

  ghost predicate Ordered(m: map<string, Entity>, result: seq<Entity>) {
    forall i | 0 <= i < |result| :: ParentBefore(result, i) || OnCycle(m, result[i].name)
  }

  /** Each name is the child of the next one. */
  predicate Chain(m: map<string, Entity>, path: seq<string>) {
    forall i | 0 <= i < |path| - 1 :: path[i] in m && m[path[i]].parent == Some(path[i + 1])
  }

  lemma SingleChain(m: map<string, Entity>, name: string)
    ensures Chain(m, [] + [name])
  {
  }

  lemma {:induction false} ChainClimbs(m: map<string, Entity>, path: seq<string>, i: nat, n: nat)
    requires Chain(m, path) && i + n < |path|
    ensures Ancestor(m, path[i], n) == Some(path[i + n])
  {
    if n > 0 {
      ChainClimbs(m, path, i, n - 1);
    }
  }

  lemma {:induction false} AncestorOfParent(m: map<string, Entity>, name: string, n: nat)
    requires name in m && m[name].parent.Some?
    ensures Ancestor(m, name, n + 1) == Ancestor(m, m[name].parent.value, n)
  {
    if n == 0 {
      assert Ancestor(m, name, 0) == Some(name);
    } else {
      AncestorOfParent(m, name, n - 1);
    }
  }

  /** A child whose parent is still being walked is on a cycle. */
  lemma ParentOnStack(m: map<string, Entity>, stack: seq<string>, name: string)
    requires Chain(m, stack + [name]) && name in m && m[name].parent.Some? && m[name].parent.value in stack + [name]
    ensures OnCycle(m, name)
  {
    var parent := m[name].parent.value;
    var i :| 0 <= i < |stack + [name]| && (stack + [name])[i] == parent;
    ChainClimbs(m, stack + [name], i, |stack| - i);
    AncestorOfParent(m, name, |stack| - i);
    assert Ancestor(m, name, |stack| - i + 1) == Some(name);
  }

  lemma UniqueLookup(entities: seq<Entity>, e: Entity)
    requires UniqueNames(entities) && e in entities
    ensures MapOf(entities)[e.name] == e
  {
  }

  // ---------- the walk

  /** What holds at any moment of the walk; the names on the stack have been entered and not left. */
  ghost predicate Walking(entities: seq<Entity>, visited: set<string>, result: seq<Entity>, stack: seq<string>) {
    var m := MapOf(entities);
    && visited == NamesOf(result) + (set name <- stack) && visited <= m.Keys
    && (forall name <- stack :: name !in NamesOf(result))
    && UniqueNames(result)
    && (forall e <- result :: e in entities && (e.parent.Some? ==> e.parent.value in visited))
    && (UniqueNames(entities) ==> Ordered(m, result))
  }

  lemma Enter(entities: seq<Entity>, visited: set<string>, result: seq<Entity>, stack: seq<string>, e: Entity)
    requires Walking(entities, visited, result, stack) && e in entities && e.name !in visited
    ensures Walking(entities, visited + {e.name}, result, stack + [e.name])
  {
    assert (set name <- stack + [e.name]) == (set name <- stack) + {e.name};
  }

  lemma Descend(entities: seq<Entity>, path: seq<string>, e: Entity)
    requires UniqueNames(entities) && e in entities && e.parent.Some?
    requires Chain(MapOf(entities), path + [e.name])
    ensures Chain(MapOf(entities), path + [e.name] + [e.parent.value])
  {
    UniqueLookup(entities, e);
    var longer := path + [e.name] + [e.parent.value];
    forall i | 0 <= i < |longer| - 1
      ensures longer[i] in MapOf(entities) && MapOf(entities)[longer[i]].parent == Some(longer[i + 1])
    {
      if i < |path| {
        assert longer[i] == (path + [e.name])[i] && longer[i + 1] == (path + [e.name])[i + 1];
      }
    }
  }

  lemma Leave(entities: seq<Entity>, visited: set<string>, result: seq<Entity>, stack: seq<string>, e: Entity)
    requires Walking(entities, visited, result, stack + [e.name]) && e in entities && e.name !in stack
    requires e.parent.Some? ==> e.parent.value in visited
    requires UniqueNames(entities) ==> Chain(MapOf(entities), stack + [e.name])
    ensures Walking(entities, visited, result + [e], stack)
  {
    var m := MapOf(entities);
    assert (set name <- stack + [e.name]) == (set name <- stack) + {e.name};
    assert NamesOf(result + [e]) == NamesOf(result) + {e.name};
    assert e.name in stack + [e.name];
    NotAmong(result, e.name);
    if UniqueNames(entities) {
      LeaveOrdered(entities, visited, result, stack, e);
    }
  }

  lemma NotAmong(result: seq<Entity>, name: string)
    requires name !in NamesOf(result)
    ensures forall i | 0 <= i < |result| :: result[i].name != name
  {
    forall i | 0 <= i < |result|
      ensures result[i].name in NamesOf(result)
    {
    }
  }

  lemma LeaveOrdered(entities: seq<Entity>, visited: set<string>, result: seq<Entity>, stack: seq<string>, e: Entity)
    requires UniqueNames(entities) && Ordered(MapOf(entities), result) && e in entities
    requires visited == NamesOf(result) + (set name <- stack + [e.name])
    requires e.parent.Some? ==> e.parent.value in visited
    requires Chain(MapOf(entities), stack + [e.name])
    ensures Ordered(MapOf(entities), result + [e])
  {
    var m, more := MapOf(entities), result + [e];
    UniqueLookup(entities, e);
    forall i | 0 <= i < |more|
      ensures ParentBefore(more, i) || OnCycle(m, more[i].name)
    {
      if i < |result| {
        assert ParentBefore(result, i) || OnCycle(m, result[i].name);
        if ParentBefore(result, i) && more[i].parent.Some? {
          var j :| 0 <= j < i && result[j].name == more[i].parent.value;
          assert more[j].name == more[i].parent.value;
        }
      } else if e.parent.Some? {
        if e.parent.value in NamesOf(result) {
          var p :| p in result && p.name == e.parent.value;
          var j :| 0 <= j < |result| && result[j] == p;
          assert more[j].name == e.parent.value;
        } else {
          ParentOnStack(m, stack, e.name);
        }
      }
    }
  }

  /** The entity and all its ancestors. */
  ghost predicate AncestorsIn(m: map<string, Entity>, name: string, visited: set<string>) {
    forall n: nat :: Ancestor(m, name, n).Some? ==> Ancestor(m, name, n).value in visited
  }

  /** Whenever the name that the stack leads to has been visited, so have the parents of all visited ones. */
  lemma ParentsVisited(entities: seq<Entity>, visited: set<string>, result: seq<Entity>, stack: seq<string>,
                       name: string)
    requires UniqueNames(entities) && Walking(entities, visited, result, stack) && name in visited
    requires Chain(MapOf(entities), stack + [name])
    ensures forall x <- visited :: MapOf(entities)[x].parent.Some? ==> MapOf(entities)[x].parent.value in visited
  {
    var m, path := MapOf(entities), stack + [name];
    forall x <- visited
      ensures m[x].parent.Some? ==> m[x].parent.value in visited
    {
      if x in NamesOf(result) {
        var e :| e in result && e.name == x;
        UniqueLookup(entities, e);
      } else {
        var i :| 0 <= i < |stack| && stack[i] == x;
        assert path[i] == x && m[path[i]].parent == Some(path[i + 1]);
        assert path[i + 1] == if i + 1 < |stack| then stack[i + 1] else name;
      }
    }
  }

  lemma {:induction false} AncestorVisited(m: map<string, Entity>, visited: set<string>, name: string, n: nat)
    requires visited <= m.Keys && name in visited
    requires forall x <- visited :: m[x].parent.Some? ==> m[x].parent.value in visited
    ensures Ancestor(m, name, n).Some? ==> Ancestor(m, name, n).value in visited
  {
    if n > 0 {
      AncestorVisited(m, visited, name, n - 1);
    }
  }

  lemma AncestorsVisited(entities: seq<Entity>, visited: set<string>, result: seq<Entity>, stack: seq<string>,
                         name: string)
    requires Walking(entities, visited, result, stack) && name in visited
    requires UniqueNames(entities) ==> Chain(MapOf(entities), stack + [name])
    ensures UniqueNames(entities) ==> AncestorsIn(MapOf(entities), name, visited)
  {
    if UniqueNames(entities) {
      ParentsVisited(entities, visited, result, stack, name);
      forall n: nat
        ensures Ancestor(MapOf(entities), name, n).Some? ==> Ancestor(MapOf(entities), name, n).value in visited
      {
        AncestorVisited(MapOf(entities), visited, name, n);
      }
    }
  }

  /** Some entity has a parent that is not in the backup. */
  predicate ParentMissing(entities: seq<Entity>) {
    exists e <- entities :: e.parent.Some? && e.parent.value !in NamesOf(entities)
  }

  lemma SameNames(entities: seq<Entity>)
    ensures MapOf(entities).Keys == NamesOf(entities)
  {
  }

  predicate AllVisited(entities: seq<Entity>, n: nat, visited: set<string>)
    requires n <= |entities|
  {
    forall i | 0 <= i < n :: entities[i].name in visited
  }

  class Sorter {
    const entities: seq<Entity>
    const workloads: map<string, Entity>
    var visited: set<string>
    var result: seq<Entity>

    ghost predicate Valid(stack: seq<string>)
      reads this
    {
      workloads == MapOf(entities) && Walking(entities, visited, result, stack)
    }

    constructor (entities: seq<Entity>)
      ensures this.entities == entities && Valid([]) && visited == {}
    {
      this.entities, workloads := entities, MapOf(entities);
      visited, result := {}, [];
    }

    /** _walk_to_parents; false stands for the RuntimeError. */
    method WalkToParents(entity: Entity, ghost stack: seq<string>) returns (ok: bool)
      requires Valid(stack) && entity in entities
      requires UniqueNames(entities) ==> Chain(workloads, stack + [entity.name])
      modifies this
      ensures ok ==> Valid(stack) && entity.name in visited
      ensures ok && UniqueNames(entities) ==> AncestorsIn(workloads, entity.name, visited)
      ensures old(visited) <= visited
      ensures !ok ==> ParentMissing(entities)
      decreases workloads.Keys - visited
    {
      if entity.name in visited {
        AncestorsVisited(entities, visited, result, stack, entity.name);
        return true;
      }
      Enter(entities, visited, result, stack, entity);
      visited := visited + {entity.name};
      var parent := entity.parent;
      if parent.Some? {
        if parent.value !in workloads {
          SameNames(entities);
          return false;
        }
        if UniqueNames(entities) {
          Descend(entities, stack, entity);
        }
        ok := WalkToParents(workloads[parent.value], stack + [entity.name]);
        if !ok {
          return;
        }
      }
      Leave(entities, visited, result, stack, entity);
      result := result + [entity];
      AncestorsVisited(entities, visited, result, stack, entity.name);
      ok := true;
    }

    /** The loop over all entities. */
    method WalkAll() returns (ok: bool)
      requires Valid([])
      modifies this
      ensures ok ==> Valid([]) && AllVisited(entities, |entities|, visited)
      ensures !ok ==> ParentMissing(entities)
    {
      for i := 0 to |entities|
        invariant Valid([])
        invariant AllVisited(entities, i, visited)
      {
        SingleChain(workloads, entities[i].name);
        ok := WalkToParents(entities[i], []);
        if !ok {
          return;
        }
      }
      ok := true;
    }
  }

  // ---------- what the result is

  /** One entity per name, and every parent named. */
  ghost predicate SortOf(entities: seq<Entity>, result: seq<Entity>) {
    && UniqueNames(result) && NamesOf(result) == NamesOf(entities)
    && (forall e <- result :: e in entities && (e.parent.Some? ==> e.parent.value in NamesOf(entities)))
    && (UniqueNames(entities) ==> Ordered(MapOf(entities), result))
  }

  /** With unique names nothing is left out. */
  lemma AllSorted(entities: seq<Entity>, result: seq<Entity>)
    requires SortOf(entities, result) && UniqueNames(entities)
    ensures multiset(result) == multiset(entities)
    ensures forall e <- entities :: e.parent.Some? ==> e.parent.value in NamesOf(entities)
  {
    forall e
      ensures e in result <==> e in entities
    {
      if e in entities {
        assert e.name in NamesOf(result);
        var f :| f in result && f.name == e.name;
        UniqueLookup(entities, e);
        UniqueLookup(entities, f);
      }
    }
    OncePerName(result);
    OncePerName(entities);
    assert (set e <- result) == (set e <- entities);
  }

  lemma {:induction false} OncePerName(entities: seq<Entity>)
    requires UniqueNames(entities)
    ensures multiset(entities) == multiset(set e <- entities)
  {
    if entities != [] {
      var init, last := entities[..|entities| - 1], entities[|entities| - 1];
      assert entities == init + [last];
      OncePerName(init);
      assert last !in init;
      assert (set e <- entities) == (set e <- init) + {last};
    }
  }

  /** Where a name stands in the result. */
  lemma {:induction false} AncestorsComeBefore(m: map<string, Entity>, result: seq<Entity>, i: nat, n: nat)
    returns (j: nat)
    requires i < |result| && (forall k | 0 <= k < |result| :: ParentBefore(result, k))
    requires forall e <- result :: e.name in m && m[e.name] == e
    requires Ancestor(m, result[i].name, n).Some?
    ensures j <= i - (if n > 0 then 1 else 0) && result[j].name == Ancestor(m, result[i].name, n).value
  {
    j := i;
    if n > 0 {
      j := AncestorsComeBefore(m, result, i, n - 1);
      assert ParentBefore(result, j) && result[j] in result;
      var k: nat :| k < j && result[k].name == result[j].parent.value;
      j := k;
    }
  }

  /**
   * The order is right exactly if the parent graph has no cycle: then every parent comes before its children, and
   * otherwise no order could do that.
   */
  lemma OrderedIffAcyclic(entities: seq<Entity>, result: seq<Entity>)
    requires SortOf(entities, result) && UniqueNames(entities)
    ensures (forall i | 0 <= i < |result| :: ParentBefore(result, i))
       <==> (forall e <- entities :: !OnCycle(MapOf(entities), e.name))
  {
    AllSorted(entities, result);
    var m := MapOf(entities);
    forall e <- result
      ensures e.name in m && m[e.name] == e
    {
      UniqueLookup(entities, e);
    }
    if forall i | 0 <= i < |result| :: ParentBefore(result, i) {
      forall e <- entities
        ensures !OnCycle(m, e.name)
      {
        if OnCycle(m, e.name) {
          var n: nat :| n > 0 && Ancestor(m, e.name, n) == Some(e.name);
          assert e in multiset(result);
          var i :| 0 <= i < |result| && result[i] == e;
          var j := AncestorsComeBefore(m, result, i, n);
          assert false;
        }
      }
    } else {
      var i :| 0 <= i < |result| && !ParentBefore(result, i);
      assert OnCycle(m, result[i].name) && result[i] in entities;
    }
  }

  lemma WalkedAll(entities: seq<Entity>, visited: set<string>, result: seq<Entity>)
    requires Walking(entities, visited, result, []) && AllVisited(entities, |entities|, visited)
    ensures SortOf(entities, result)
    ensures UniqueNames(entities) ==> !ParentMissing(entities)
  {
    SameNames(entities);
    assert visited == NamesOf(result);
    if UniqueNames(entities) {
      AllSorted(entities, result);
    }
  }

  /** topologically_sort_workload_entities; None stands for the RuntimeError. */
  method TopologicallySort(entities: seq<Entity>) returns (result: Option<seq<Entity>>)
    ensures result == None ==> ParentMissing(entities)
    ensures UniqueNames(entities) && ParentMissing(entities) ==> result == None
    ensures result.Some? ==> SortOf(entities, result.value)
  {
    var sorter := new Sorter(entities);
    var ok := sorter.WalkAll();
    if !ok {
      return None;
    }
    WalkedAll(entities, sorter.visited, sorter.result);
    result := Some(sorter.result);
  }
}
