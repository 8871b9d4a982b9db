/** Which plugin must be built before which: the dependency graph, its cycles and its build orders. */
module PluginOrder {
  import opened Wrappers
  import opened Sequences

  type Id = string
  type Facade = nat

  datatype Configuration = Configuration(section: string, settings: Facade)

  datatype Plugin = Plugin(id: Id, offers: seq<Facade>, needs: seq<Facade>, configuration: seq<Configuration>)

  /** Who owns a service: the host, or the plugin that provides it. */
  datatype Owner = Host | Provider(id: Id)

  /** A checked recipe. In a profile a plugin may require what it provides itself; in a build it may not. */
  datatype Recipe = Recipe(plugins: map<Id, Plugin>, owners: map<Facade, Owner>, selfAllowed: bool)

  ghost predicate Sound(r: Recipe) {
    && (forall id :: id in r.plugins ==> r.plugins[id].id == id)
    && (forall f :: f in r.owners && r.owners[f].Provider? ==> r.owners[f].id in r.plugins)
  }

  /** The plugin `a` has to wait for `b`. */
  predicate Waits(r: Recipe, a: Id, b: Id) {
    && a in r.plugins
    && (exists f :: f in r.plugins[a].needs && f in r.owners && r.owners[f] == Provider(b))
    && !(r.selfAllowed && a == b)
  }

  predicate Declared(r: Recipe, id: Id)
    requires id in r.plugins
  {
    forall f :: f in r.plugins[id].needs ==> f in r.owners
  }

  /** Each plugin on the path waits for the next. */
  predicate IsPath(r: Recipe, path: seq<Id>) {
    forall i :: 0 <= i < |path| - 1 ==> Waits(r, path[i], path[i + 1])
  }

  predicate IsCycle(r: Recipe, cycle: seq<Id>) {
    cycle != [] && IsPath(r, cycle) && Waits(r, cycle[|cycle| - 1], cycle[0])
  }

  /** Exactly the plugins of the recipe, once each, every provider before whoever waits for it. */
  ghost predicate IsBuildOrder(r: Recipe, order: seq<Id>) {
    && NoDuplicates(order) && Elements(order) == r.plugins.Keys
    && Layered(r, order)
  }

  ghost predicate Layered(r: Recipe, order: seq<Id>) {
    forall i, b :: 0 <= i < |order| && Waits(r, order[i], b) ==> b in order[..i]
  }

  ghost predicate Buildable(r: Recipe) {
    (forall id :: id in r.plugins ==> Declared(r, id)) && forall cycle :: !IsCycle(r, cycle)
  }

  /** Requiring what one provides oneself is a cycle exactly where that is not allowed. */
  lemma OwnNeedIsCycleExactly(r: Recipe, a: Id, f: Facade)
    requires a in r.plugins && f in r.plugins[a].needs && f in r.owners && r.owners[f] == Provider(a)
    ensures IsCycle(r, [a]) <==> !r.selfAllowed
    ensures !r.selfAllowed ==> !Buildable(r)
  {
    assert IsPath(r, [a]);
    if !r.selfAllowed { assert Waits(r, a, a) && IsCycle(r, [a]); }
  }

  function Position(order: seq<Id>, id: Id): (p: nat)
    requires id in order
    ensures p < |order| && order[p] == id && forall j :: 0 <= j < p ==> order[j] != id
  {
    if order[0] == id then 0
    else
      assert order == [order[0]] + order[1..];
      1 + Position(order[1..], id)
  }

  lemma WaitingIsLater(r: Recipe, order: seq<Id>, a: Id, b: Id)
    requires Layered(r, order) && a in order && Waits(r, a, b)
    ensures b in order && Position(order, b) < Position(order, a)
  {
    var i := Position(order, a);
    assert b in order[..i];
    var j :| 0 <= j < i && order[j] == b;
  }

  lemma {:induction false} PathGoesDown(r: Recipe, order: seq<Id>, path: seq<Id>)
    requires Layered(r, order) && path != [] && path[0] in order && IsPath(r, path)
    ensures path[|path| - 1] in order && Position(order, path[|path| - 1]) <= Position(order, path[0])
    decreases |path|
  {
    if |path| > 1 {
      WaitingIsLater(r, order, path[0], path[1]);
      assert path[1..][|path| - 2] == path[|path| - 1];
      assert IsPath(r, path[1..]) by {
        forall i | 0 <= i < |path[1..]| - 1 ensures Waits(r, path[1..][i], path[1..][i + 1]) {
          assert Waits(r, path[i + 1], path[i + 1 + 1]);
        }
      }
      PathGoesDown(r, order, path[1..]);
    }
  }

  /** A recipe with a build order has no cycle. */
  lemma OrderExcludesCycles(r: Recipe, order: seq<Id>, cycle: seq<Id>)
    requires IsBuildOrder(r, order)
    ensures !IsCycle(r, cycle)
  {
    if IsCycle(r, cycle) {
      var last := cycle[|cycle| - 1];
      assert last in r.plugins && last in Elements(order);
      WaitingIsLater(r, order, last, cycle[0]);
      PathGoesDown(r, order, cycle);
    }
  }
}
