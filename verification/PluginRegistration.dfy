/** Registration of plugins: the recipe checks, the depth-first resolution, and the build loop that relies on it. */
module PluginRegistration {
  import opened Wrappers
  import opened Sequences
  import opened DottedPaths
  import opened PluginOrder

  datatype RegistrationError = BadIdentity | BadSection | Overlap | TwoOwners | Cycle | Undeclared | Mismatch

  // ---------- Depth-first resolution ----------

  class Resolver {
    const recipe: Recipe
    var visiting: set<Id>
    var complete: set<Id>
    var ordered: seq<Id>

    ghost predicate Valid()
      reads this
    {
      && Sound(recipe) && visiting <= recipe.plugins.Keys && complete <= recipe.plugins.Keys && visiting !! complete
      && NoDuplicates(ordered) && Elements(ordered) == complete && Layered(recipe, ordered)
      && forall id :: id in complete ==> Declared(recipe, id)
    }

    constructor (recipe: Recipe)
      requires Sound(recipe)
      ensures Valid() && this.recipe == recipe && visiting == {} && complete == {}
    {
      this.recipe := recipe;
      visiting, complete, ordered := {}, {}, [];
    }

    /** What is wrong when a visit along `path` fails. */
    ghost predicate Explains(e: RegistrationError) {
      match e
      case Cycle => exists cycle :: IsCycle(recipe, cycle)
      case Undeclared => exists id :: id in recipe.plugins && !Declared(recipe, id)
      case BadIdentity => false
      case BadSection => false
      case Overlap => false
      case TwoOwners => false
      case Mismatch => false
    }

    /** Visits a plugin after everything it waits for; `path` is the chain of plugins being visited. */
    method Visit(id: Id, ghost path: seq<Id>) returns (r: Outcome<(), RegistrationError>)
      requires Valid() && id in recipe.plugins
      requires Elements(path) == visiting && IsPath(recipe, path + [id])
      modifies this
      ensures r.Ok? ==> Valid() && visiting == old(visiting) && id in complete && old(complete) <= complete
      ensures r.Raised? ==> Explains(r.error)
      decreases recipe.plugins.Keys - visiting
    {
      if id in complete {
        return Ok(());
      }
      if id in visiting {
        ClosesCycle(recipe, path, id);
        return Raised(Cycle);
      }
      visiting := visiting + {id};
      var plugin := recipe.plugins[id];
      NoDuplicatesAppend(path, id);
      for i := 0 to |plugin.needs|
        invariant Valid() && visiting == old(visiting) + {id} && old(complete) <= complete
        invariant forall f :: f in plugin.needs[..i] ==> f in recipe.owners && Settled(id, f)
      {
        var service := plugin.needs[i];
        assert plugin.needs[..i + 1] == plugin.needs[..i] + [service];
        if service !in recipe.owners {
          assert !Declared(recipe, id);
          return Raised(Undeclared);
        }
        var owner := recipe.owners[service];
        if owner.Provider? && !(recipe.selfAllowed && owner.id == id) {
          assert Waits(recipe, id, owner.id);
          ExtendsPath(recipe, path, id, owner.id);
          var visited := Visit(owner.id, path + [id]);
          if visited.Raised? {
            return Raised(visited.error);
          }
        }
      }
      assert plugin.needs[..|plugin.needs|] == plugin.needs;
      visiting := visiting - {id};
      complete := complete + {id};
      ExtendsOrder(recipe, ordered, id);
      ordered := ordered + [id];
      return Ok(());
    }

    /** A required service needs no further visit. */
    ghost predicate Settled(id: Id, f: Facade)
      requires f in recipe.owners
      reads this
    {
      recipe.owners[f].Provider? && !(recipe.selfAllowed && recipe.owners[f].id == id) ==> recipe.owners[f].id in complete
    }
  }

  lemma ClosesCycle(r: Recipe, path: seq<Id>, id: Id)
    requires id in path && IsPath(r, path + [id])
    ensures exists cycle :: IsCycle(r, cycle)
  {
    var i :| 0 <= i < |path| && path[i] == id;
    var cycle, whole := path[i..], path + [id];
    forall j | 0 <= j < |cycle| - 1 ensures Waits(r, cycle[j], cycle[j + 1]) {
      assert Waits(r, whole[i + j], whole[i + j + 1]);
    }
    assert Waits(r, whole[|path| - 1], whole[|path| - 1 + 1]);
    assert IsCycle(r, cycle);
  }

  lemma ExtendsPath(r: Recipe, path: seq<Id>, id: Id, next: Id)
    requires IsPath(r, path + [id]) && Waits(r, id, next)
    ensures IsPath(r, path + [id] + [next])
  {
    var all := path + [id] + [next];
    forall j | 0 <= j < |all| - 1 ensures Waits(r, all[j], all[j + 1]) {
      if j < |path| { assert Waits(r, (path + [id])[j], (path + [id])[j + 1]); }
    }
  }

  lemma ExtendsOrder(r: Recipe, order: seq<Id>, id: Id)
    requires NoDuplicates(order) && Layered(r, order) && id !in order
    requires forall b :: Waits(r, id, b) ==> b in order
    ensures NoDuplicates(order + [id]) && Elements(order + [id]) == Elements(order) + {id} && Layered(r, order + [id])
  {
    NoDuplicatesAppend(order, id);
    var all := order + [id];
    forall i, b | 0 <= i < |all| && Waits(r, all[i], b) ensures b in all[..i] {
      if i < |order| {
        assert all[..i] == order[..i] && all[i] == order[i];
      } else {
        assert all[..i] == order;
      }
    }
  }

  /**
   * Resolution succeeds exactly on recipes in which every requirement is declared and no plugin waits for itself, and
   * then it lists every plugin once, after everything it waits for.
   */
  method Resolve(recipe: Recipe, plugins: seq<Id>) returns (r: Outcome<seq<Id>, RegistrationError>)
    requires Sound(recipe) && Elements(plugins) == recipe.plugins.Keys
    ensures r.Ok? <==> Buildable(recipe)
    ensures r.Ok? ==> IsBuildOrder(recipe, r.value)
    ensures r.Raised? ==> r.error.Cycle? || r.error.Undeclared?
    ensures r.Raised? && r.error.Cycle? ==> exists cycle :: IsCycle(recipe, cycle)
    ensures r.Raised? && r.error.Undeclared? ==> exists id :: id in recipe.plugins && !Declared(recipe, id)
  {
    var resolver := new Resolver(recipe);
    for i := 0 to |plugins|
      invariant fresh(resolver) && resolver.recipe == recipe && resolver.Valid() && resolver.visiting == {}
      invariant forall id :: id in plugins[..i] ==> id in resolver.complete
    {
      assert plugins[..i + 1] == plugins[..i] + [plugins[i]];
      assert plugins[i] in Elements(plugins);
      var visited := resolver.Visit(plugins[i], []);
      if visited.Raised? {
        return Raised(visited.error);
      }
    }
    assert plugins[..|plugins|] == plugins;
    assert resolver.complete == recipe.plugins.Keys by {
      forall id | id in recipe.plugins ensures id in resolver.complete { assert id in Elements(plugins); }
    }
    forall cycle ensures !IsCycle(recipe, cycle) { OrderExcludesCycles(recipe, resolver.ordered, cycle); }
    return Ok(resolver.ordered);
  }

  // ---------- Checking the recipe ----------

  function Ids(plugins: seq<Plugin>): seq<Id> {
    seq(|plugins|, i requires 0 <= i < |plugins| => plugins[i].id)
  }

  function Offers(plugins: seq<Plugin>): seq<Facade> {
    if plugins == [] then [] else Offers(plugins[..|plugins| - 1]) + plugins[|plugins| - 1].offers
  }

  function Configurations(plugins: seq<Plugin>): seq<Configuration> {
    if plugins == [] then [] else Configurations(plugins[..|plugins| - 1]) + plugins[|plugins| - 1].configuration
  }

  function Sections(items: seq<Configuration>): seq<string> {
    seq(|items|, i requires 0 <= i < |items| => items[i].section)
  }

  function Settings(items: seq<Configuration>): seq<Facade> {
    seq(|items|, i requires 0 <= i < |items| => items[i].settings)
  }

  predicate Apart(sections: seq<string>) {
    forall i, j :: 0 <= i < j < |sections| ==> !ScopesOverlap(sections[j], sections[i])
  }

  predicate SectionsFit(sections: seq<string>) {
    (forall s :: s in sections ==> IsSection(s)) && Apart(sections)
  }

  predicate Disjoint<T(==)>(xs: seq<T>, ys: seq<T>) {
    forall x :: x in xs ==> x !in ys
  }

  /** The owners table says exactly who offers what. */
  ghost predicate OwnersExact(r: Recipe, hosts: seq<Facade>) {
    && (forall f :: f in r.owners && r.owners[f].Host? <==> f in hosts)
    && (forall f, id :: f in r.owners && r.owners[f] == Provider(id) <==> id in r.plugins && f in r.plugins[id].offers)
  }

  method CheckSections(sections: seq<string>) returns (r: Outcome<(), RegistrationError>)
    ensures r.Ok? <==> SectionsFit(sections)
  {
    for i := 0 to |sections|
      invariant SectionsFit(sections[..i])
    {
      assert sections[..i + 1] == sections[..i] + [sections[i]];
      if !IsSection(sections[i]) {
        return Raised(BadSection);
      }
      if exists j | 0 <= j < i :: ScopesOverlap(sections[i], sections[j]) {
        return Raised(Overlap);
      }
    }
    assert sections[..|sections|] == sections;
    return Ok(());
  }

  lemma {:induction false} OffersPrefix(plugins: seq<Plugin>, i: nat)
    requires i <= |plugins|
    ensures Offers(plugins[..i]) <= Offers(plugins)
    ensures Configurations(plugins[..i]) <= Configurations(plugins)
    decreases |plugins|
  {
    if i < |plugins| {
      assert plugins[..|plugins| - 1][..i] == plugins[..i];
      OffersPrefix(plugins[..|plugins| - 1], i);
    } else {
      assert plugins[..i] == plugins;
    }
  }

  lemma OffersNext(plugins: seq<Plugin>, i: nat)
    requires i < |plugins|
    ensures Offers(plugins[..i + 1]) == Offers(plugins[..i]) + plugins[i].offers
    ensures Configurations(plugins[..i + 1]) == Configurations(plugins[..i]) + plugins[i].configuration
  {
    assert plugins[..i + 1][..i] == plugins[..i];
  }

  lemma OfferedTwice(plugins: seq<Plugin>, i: nat, j: nat)
    requires i < |plugins| && j < |plugins[i].offers|
    requires plugins[i].offers[j] in Offers(plugins[..i]) + plugins[i].offers[..j]
    ensures !NoDuplicates(Offers(plugins))
  {
    OffersNext(plugins, i);
    OffersPrefix(plugins, i + 1);
    var before, all := Offers(plugins[..i]) + plugins[i].offers[..j], Offers(plugins);
    var k :| 0 <= k < |before| && before[k] == plugins[i].offers[j];
    assert Offers(plugins[..i + 1])[k] == before[k];
    assert Offers(plugins[..i + 1])[|before|] == plugins[i].offers[j];
    assert all[k] == Offers(plugins[..i + 1])[k] && all[|before|] == Offers(plugins[..i + 1])[|before|];
  }

  lemma OfferedToHost(plugins: seq<Plugin>, i: nat, f: Facade)
    requires i < |plugins| && f in plugins[i].offers
    ensures f in Offers(plugins)
  {
    OffersNext(plugins, i);
    OffersPrefix(plugins, i + 1);
  }

  /** The owners seen so far: the host's services, then what has been offered by whom. */
  ghost predicate OwnersSoFar(owners: map<Facade, Owner>, hosts: seq<Facade>, plugins: seq<Plugin>, seen: seq<Facade>) {
    && (forall f :: f in owners <==> f in hosts || f in seen)
    && (forall f :: f in owners ==> (owners[f].Host? <==> f in hosts))
    && (forall f :: f in owners && owners[f].Provider? ==> exists p :: p in plugins && p.id == owners[f].id && f in p.offers)
  }

  method ClaimOffers(plugins: seq<Plugin>, i: nat, hosts: seq<Facade>, before: map<Facade, Owner>)
    returns (r: Outcome<map<Facade, Owner>, RegistrationError>)
    requires i < |plugins| && NoDuplicates(Offers(plugins[..i])) && Disjoint(Offers(plugins[..i]), hosts)
    requires OwnersSoFar(before, hosts, plugins, Offers(plugins[..i]))
    ensures r.Ok? ==> NoDuplicates(Offers(plugins[..i + 1])) && Disjoint(Offers(plugins[..i + 1]), hosts)
    ensures r.Ok? ==> OwnersSoFar(r.value, hosts, plugins, Offers(plugins[..i + 1]))
    ensures r.Raised? ==> !(NoDuplicates(Offers(plugins)) && Disjoint(Offers(plugins), hosts))
  {
    var plugin, owners := plugins[i], before;
    ghost var seen := Offers(plugins[..i]);
    assert seen + plugin.offers[..0] == seen;
    for j := 0 to |plugin.offers|
      invariant NoDuplicates(seen + plugin.offers[..j]) && Disjoint(seen + plugin.offers[..j], hosts)
      invariant OwnersSoFar(owners, hosts, plugins, seen + plugin.offers[..j])
    {
      var service := plugin.offers[j];
      assert seen + plugin.offers[..j + 1] == (seen + plugin.offers[..j]) + [service];
      if service in owners {
        if service in hosts { OfferedToHost(plugins, i, service); } else { OfferedTwice(plugins, i, j); }
        return Raised(TwoOwners);
      }
      NoDuplicatesAppend(seen + plugin.offers[..j], service);
      assert plugin in plugins;
      owners := owners[service := Provider(plugin.id)];
    }
    OffersNext(plugins, i);
    assert plugin.offers[..|plugin.offers|] == plugin.offers;
    return Ok(owners);
  }

  lemma OneOfferer(plugins: seq<Plugin>, a: nat, b: nat, f: Facade)
    requires NoDuplicates(Offers(plugins)) && a < |plugins| && b < |plugins|
    requires f in plugins[a].offers && f in plugins[b].offers
    ensures a == b
  {
    if a < b {
      OneOffererBefore(plugins, a, b, f);
    } else if b < a {
      OneOffererBefore(plugins, b, a, f);
    }
  }

  lemma OneOffererBefore(plugins: seq<Plugin>, a: nat, b: nat, f: Facade)
    requires a < b < |plugins| && f in plugins[a].offers && f in plugins[b].offers
    ensures !NoDuplicates(Offers(plugins))
  {
    OffersNext(plugins, a);
    assert plugins[..b][..a + 1] == plugins[..a + 1];
    OffersPrefix(plugins[..b], a + 1);
    assert f in Offers(plugins[..a + 1]);
    var j :| 0 <= j < |plugins[b].offers| && plugins[b].offers[j] == f;
    OfferedTwice(plugins, b, j);
  }

  ghost predicate Indexed(byId: map<Id, Plugin>, plugins: seq<Plugin>) {
    && (forall id :: id in byId ==> byId[id].id == id && byId[id] in plugins)
    && (forall p :: p in plugins ==> p.id in byId && byId[p.id] == p)
  }

  lemma OwnersAreExact(byId: map<Id, Plugin>, owners: map<Facade, Owner>, plugins: seq<Plugin>, hosts: seq<Facade>)
    requires Indexed(byId, plugins) && NoDuplicates(Offers(plugins)) && Disjoint(Offers(plugins), hosts)
    requires OwnersSoFar(owners, hosts, plugins, Offers(plugins))
    ensures OwnersExact(Recipe(byId, owners, false), hosts) && Sound(Recipe(byId, owners, false))
  {
    var r := Recipe(byId, owners, false);
    forall id, f | id in byId && f in byId[id].offers ensures f in owners && owners[f] == Provider(id) {
      var a :| 0 <= a < |plugins| && plugins[a] == byId[id];
      OfferedToHost(plugins, a, f);
      assert f in Offers(plugins) && f !in hosts;
      var p :| p in plugins && p.id == owners[f].id && f in p.offers;
      var b :| 0 <= b < |plugins| && plugins[b] == p;
      OneOfferer(plugins, a, b, f);
    }
  }

  method CheckSettings(items: seq<Configuration>) returns (ok: bool)
    ensures ok == NoDuplicates(Settings(items))
  {
    var seen: set<Facade> := {};
    for i := 0 to |items|
      invariant seen == Elements(Settings(items[..i])) && NoDuplicates(Settings(items[..i]))
    {
      assert Settings(items[..i + 1]) == Settings(items[..i]) + [items[i].settings];
      NoDuplicatesAppend(Settings(items[..i]), items[i].settings);
      if items[i].settings in seen {
        assert Settings(items)[..i + 1] == Settings(items[..i + 1]);
        return false;
      }
      seen := seen + {items[i].settings};
    }
    assert items[..|items|] == items;
    return true;
  }

  predicate IdentitiesFit(plugins: seq<Plugin>) {
    (forall p :: p in plugins ==> IsSnake(p.id)) && NoDuplicates(Ids(plugins))
  }

  predicate OffersFit(plugins: seq<Plugin>, hosts: seq<Facade>) {
    NoDuplicates(Offers(plugins)) && Disjoint(Offers(plugins), hosts)
  }

  predicate ConfigurationFits(items: seq<Configuration>, reserved: seq<string>) {
    && SectionsFit(Sections(items)) && NoDuplicates(Settings(items))
    && (forall s, r :: s in Sections(items) && r in reserved ==> !ScopesOverlap(s, r))
  }

  lemma NextIdentity(plugins: seq<Plugin>, i: nat)
    requires i < |plugins|
    ensures IdentitiesFit(plugins[..i + 1]) <==>
            IdentitiesFit(plugins[..i]) && IsSnake(plugins[i].id) && plugins[i].id !in Ids(plugins[..i])
    ensures IdentitiesFit(plugins) ==> IdentitiesFit(plugins[..i + 1])
    ensures Elements(Ids(plugins[..i + 1])) == Elements(Ids(plugins[..i])) + {plugins[i].id}
  {
    assert plugins[..i + 1] == plugins[..i] + [plugins[i]];
    assert Ids(plugins[..i + 1]) == Ids(plugins[..i]) + [plugins[i].id];
    assert Ids(plugins)[..i + 1] == Ids(plugins[..i + 1]);
    NoDuplicatesAppend(Ids(plugins[..i]), plugins[i].id);
  }

  lemma NextIndexed(byId: map<Id, Plugin>, plugins: seq<Plugin>, i: nat)
    requires i < |plugins| && Indexed(byId, plugins[..i]) && plugins[i].id !in byId
    ensures Indexed(byId[plugins[i].id := plugins[i]], plugins[..i + 1])
  {
    assert plugins[..i + 1] == plugins[..i] + [plugins[i]];
  }

  method Index(plugins: seq<Plugin>, hosts: seq<Facade>) returns (r: Outcome<Recipe, RegistrationError>)
    ensures r.Ok? <==> IdentitiesFit(plugins) && OffersFit(plugins, hosts)
    ensures r.Ok? ==> Indexed(r.value.plugins, plugins) && OwnersSoFar(r.value.owners, hosts, plugins, Offers(plugins))
    ensures r.Ok? ==> !r.value.selfAllowed
  {
    var byId: map<Id, Plugin> := map[];
    var owners := map f | f in hosts :: Host;
    hide IdentitiesFit, Indexed, OwnersSoFar, Offers;
    assert IdentitiesFit(plugins[..0]) && Indexed(byId, plugins[..0]) && Offers(plugins[..0]) == [] by { NothingIndexed(plugins); }
    assert OwnersSoFar(owners, hosts, plugins, []) by { OnlyHosts(hosts, plugins); }
    for i := 0 to |plugins|
      invariant IdentitiesFit(plugins[..i]) && byId.Keys == Elements(Ids(plugins[..i])) && Indexed(byId, plugins[..i])
      invariant OffersFit(plugins[..i], hosts) && OwnersSoFar(owners, hosts, plugins, Offers(plugins[..i]))
    {
      var plugin := plugins[i];
      NextIdentity(plugins, i);
      assert plugin.id in byId <==> plugin.id in Ids(plugins[..i]);
      if !IsSnake(plugin.id) || plugin.id in byId {
        return Raised(BadIdentity);
      }
      NextIndexed(byId, plugins, i);
      byId := byId[plugin.id := plugin];
      var claimed := ClaimOffers(plugins, i, hosts, owners);
      if claimed.Raised? {
        return Raised(claimed.error);
      }
      owners := claimed.value;
    }
    assert plugins[..|plugins|] == plugins;
    return Ok(Recipe(byId, owners, false));
  }

  lemma NothingIndexed(plugins: seq<Plugin>)
    ensures IdentitiesFit(plugins[..0]) && Indexed(map[], plugins[..0]) && Offers(plugins[..0]) == []
  {
  }

  lemma OnlyHosts(hosts: seq<Facade>, plugins: seq<Plugin>)
    ensures OwnersSoFar(map f | f in hosts :: Host, hosts, plugins, [])
  {
  }

  method CheckConfiguration(items: seq<Configuration>, reserved: seq<string>) returns (r: Outcome<(), RegistrationError>)
    ensures r.Ok? <==> ConfigurationFits(items, reserved)
  {
    var sections := Sections(items);
    var fits := CheckSections(sections);
    if fits.Raised? {
      return Raised(fits.error);
    }
    if exists i, j | 0 <= i < |sections| && 0 <= j < |reserved| :: ScopesOverlap(sections[i], reserved[j]) {
      return Raised(Overlap);
    }
    var unique := CheckSettings(items);
    return if unique then Ok(()) else Raised(TwoOwners);
  }

  /** Unique snake-case identities, one owner per service and settings facade, and scopes nobody shares. */
  predicate WellDeclared(plugins: seq<Plugin>, hosts: seq<Facade>, reserved: seq<string>) {
    SectionsFit(reserved) && IdentitiesFit(plugins) && OffersFit(plugins, hosts) && ConfigurationFits(Configurations(plugins), reserved)
  }

  /** A recipe is accepted exactly when it is well declared; its table then says exactly who owns which service. */
  method Declare(plugins: seq<Plugin>, hosts: seq<Facade>, reserved: seq<string>) returns (r: Outcome<Recipe, RegistrationError>)
    ensures r.Ok? <==> WellDeclared(plugins, hosts, reserved)
    ensures r.Ok? ==> Indexed(r.value.plugins, plugins) && Sound(r.value) && OwnersExact(r.value, hosts) && !r.value.selfAllowed
  {
    var fits := CheckSections(reserved);
    if fits.Raised? {
      return Raised(fits.error);
    }
    var indexed := Index(plugins, hosts);
    if indexed.Raised? {
      return Raised(indexed.error);
    }
    fits := CheckConfiguration(Configurations(plugins), reserved);
    if fits.Raised? {
      return Raised(fits.error);
    }
    OwnersAreExact(indexed.value.plugins, indexed.value.owners, plugins, hosts);
    return Ok(indexed.value);
  }

  lemma IndexedKeys(byId: map<Id, Plugin>, plugins: seq<Plugin>)
    requires Indexed(byId, plugins)
    ensures Elements(Ids(plugins)) == byId.Keys
  {
    var ids := Ids(plugins);
    forall id | id in byId ensures id in ids {
      var i :| 0 <= i < |plugins| && plugins[i] == byId[id];
      assert ids[i] == id;
    }
    forall id | id in ids ensures id in byId {
      var i :| 0 <= i < |ids| && ids[i] == id;
      assert plugins[i] in plugins;
    }
  }

  /** A set of plugins is accepted exactly when it is well declared and buildable, and then it is in build order. */
  method Define(plugins: seq<Plugin>, hosts: seq<Facade>, reserved: seq<string>)
    returns (r: Outcome<seq<Id>, RegistrationError>, ghost recipe: Recipe)
    ensures WellDeclared(plugins, hosts, reserved) ==>
              Indexed(recipe.plugins, plugins) && Sound(recipe) && OwnersExact(recipe, hosts) && !recipe.selfAllowed
    ensures r.Ok? <==> WellDeclared(plugins, hosts, reserved) && Buildable(recipe)
    ensures r.Ok? ==> IsBuildOrder(recipe, r.value)
  {
    hide WellDeclared, Buildable, IsBuildOrder, Indexed, Sound, OwnersExact;
    recipe := Recipe(map[], map[], false);
    var declared := Declare(plugins, hosts, reserved);
    if declared.Raised? {
      return Raised(declared.error), recipe;
    }
    recipe := declared.value;
    IndexedKeys(recipe.plugins, plugins);
    r := Resolve(declared.value, Ids(plugins));
  }

  /** A profile resolves like a build, except that a declaration may require what it registers itself. */
  method ResolveProfile(declarations: seq<Plugin>) returns (r: Outcome<seq<Id>, RegistrationError>, ghost recipe: Recipe)
    requires forall d :: d in declarations ==> IsSnake(d.id)
    ensures NoDuplicates(Ids(declarations)) && NoDuplicates(Offers(declarations)) ==>
              Indexed(recipe.plugins, declarations) && Sound(recipe) && OwnersExact(recipe, []) && recipe.selfAllowed
    ensures r.Ok? <==> NoDuplicates(Ids(declarations)) && NoDuplicates(Offers(declarations)) && Buildable(recipe)
    ensures r.Ok? ==> IsBuildOrder(recipe, r.value)
  {
    hide Buildable, IsBuildOrder, Indexed, NoDuplicates, OwnersSoFar;
    recipe := Recipe(map[], map[], true);
    var indexed := Index(declarations, []);
    if indexed.Raised? {
      return Raised(indexed.error), recipe;
    }
    OwnersAreExact(indexed.value.plugins, indexed.value.owners, declarations, []);
    var profile := indexed.value.(selfAllowed := true);
    recipe := profile;
    IndexedKeys(recipe.plugins, declarations);
    r := Resolve(profile, Ids(declarations));
  }

  // ---------- The build loop ----------

  datatype Generation = Generation(id: Id, services: seq<Facade>, exports: seq<Facade>)

  /** The dependencies handed to a plugin: each thing it needs, from the services built so far. */
  method Select(services: seq<Facade>, needs: seq<Facade>) returns (r: Outcome<seq<Facade>, RegistrationError>)
    ensures r.Ok? <==> NoDuplicates(services) && NoDuplicates(needs) && forall f :: f in needs ==> f in services
    ensures r.Ok? ==> r.value == needs
  {
    if !NoDuplicates(services) {
      return Raised(TwoOwners);
    }
    for i := 0 to |needs|
      invariant forall f :: f in needs[..i] ==> f in services
    {
      assert needs[..i + 1] == needs[..i] + [needs[i]];
      if needs[i] !in services {
        return Raised(Undeclared);
      }
    }
    assert needs[..|needs|] == needs;
    return if NoDuplicates(needs) then Ok(needs) else Raised(TwoOwners);
  }

  /** A generation is what its plugin declared. */
  predicate Matches(plugin: Plugin, g: Generation) {
    g.id == plugin.id && Elements(g.services) == Elements(plugin.offers) && NoDuplicates(g.services)
  }

  ghost predicate AllMatch(r: Recipe, generations: map<Id, Generation>) {
    forall id :: id in r.plugins ==> id in generations && Matches(r.plugins[id], generations[id])
  }

  /** No two generations export the same service, and none exports one twice. */
  ghost predicate ExportsApart(order: seq<Id>, generations: map<Id, Generation>) {
    && (forall id :: id in order && id in generations ==> NoDuplicates(generations[id].exports))
    && (forall i, j :: 0 <= i < j < |order| && order[i] in generations && order[j] in generations ==>
                         Disjoint(generations[order[i]].exports, generations[order[j]].exports))
  }

  /** The services available once the plugins in `done` are built. */
  ghost predicate Available(r: Recipe, hosts: seq<Facade>, done: seq<Id>, services: seq<Facade>) {
    && NoDuplicates(services)
    && forall f :: f in services <==> f in r.owners && (r.owners[f].Provider? ==> r.owners[f].id in done)
  }

  method AddExports(exports: set<Facade>, more: seq<Facade>) returns (r: Outcome<set<Facade>, RegistrationError>)
    ensures r.Ok? <==> NoDuplicates(more) && forall f :: f in more ==> f !in exports
    ensures r.Ok? ==> r.value == exports + Elements(more)
  {
    var all := exports;
    for i := 0 to |more|
      invariant NoDuplicates(more[..i]) && (forall f :: f in more[..i] ==> f !in exports) && all == exports + Elements(more[..i])
    {
      assert more[..i + 1] == more[..i] + [more[i]];
      NoDuplicatesAppend(more[..i], more[i]);
      if more[i] in all {
        return Raised(TwoOwners);
      }
      all := all + {more[i]};
    }
    assert more[..|more|] == more;
    return Ok(all);
  }

  lemma NeedsAreAvailable(r: Recipe, hosts: seq<Facade>, order: seq<Id>, i: nat, services: seq<Facade>)
    requires IsBuildOrder(r, order) && i < |order| && order[i] in r.plugins && Declared(r, order[i]) && !r.selfAllowed
    requires Available(r, hosts, order[..i], services)
    ensures forall f :: f in r.plugins[order[i]].needs ==> f in services
  {
    forall f | f in r.plugins[order[i]].needs ensures f in services {
      if r.owners[f].Provider? {
        assert Waits(r, order[i], r.owners[f].id);
      }
    }
  }

  lemma ServicesGrow(r: Recipe, hosts: seq<Facade>, order: seq<Id>, i: nat, services: seq<Facade>, g: Generation)
    requires IsBuildOrder(r, order) && i < |order| && order[i] in r.plugins && Sound(r) && OwnersExact(r, hosts)
    requires Available(r, hosts, order[..i], services) && Matches(r.plugins[order[i]], g)
    ensures Available(r, hosts, order[..i + 1], services + g.services)
  {
    var id, all := order[i], services + g.services;
    assert order[..i + 1] == order[..i] + [id];
    forall f ensures f in g.services <==> f in r.owners && r.owners[f] == Provider(id) {
      assert f in g.services <==> f in Elements(g.services);
      assert f in Elements(r.plugins[id].offers) <==> f in r.plugins[id].offers;
    }
    assert id !in order[..i];
    forall a, b | 0 <= a < b < |all| ensures all[a] != all[b] {
      if b < |services| {
        assert all[a] == services[a] && all[b] == services[b];
      } else if a < |services| {
        assert all[a] in services && all[b] in g.services;
      } else {
        assert all[a] == g.services[a - |services|] && all[b] == g.services[b - |services|];
      }
    }
  }

  ghost predicate NeedsOnce(r: Recipe) {
    forall id :: id in r.plugins ==> NoDuplicates(r.plugins[id].needs)
  }

  /**
   * Building in a build order: as long as every generation is what its plugin declared, the build succeeds exactly when
   * no plugin lists a requirement twice, and each plugin is handed exactly what it requires.
   */
  method Build(recipe: Recipe, order: seq<Id>, hosts: seq<Facade>, generations: map<Id, Generation>)
    returns (r: Outcome<seq<seq<Facade>>, RegistrationError>)
    requires Sound(recipe) && !recipe.selfAllowed && IsBuildOrder(recipe, order) && OwnersExact(recipe, hosts) && Buildable(recipe)
    requires NoDuplicates(hosts) && generations.Keys == recipe.plugins.Keys
    ensures AllMatch(recipe, generations) && ExportsApart(order, generations) ==> (r.Ok? <==> NeedsOnce(recipe))
    ensures r.Ok? ==> AllMatch(recipe, generations) && |r.value| == |order|
                      && forall i :: 0 <= i < |order| ==> order[i] in recipe.plugins && r.value[i] == recipe.plugins[order[i]].needs
  {
    hide IsBuildOrder, OwnersExact, Available, Buildable, Matches;
    var services, handed, exports := hosts, [], {};
    InOrder(recipe, order);
    assert Available(recipe, hosts, order[..0], services) by { HostsAvailable(recipe, hosts); }
    for i := 0 to |order|
      invariant Available(recipe, hosts, order[..i], services)
      invariant |handed| == i && forall j :: 0 <= j < i ==>
                  && handed[j] == recipe.plugins[order[j]].needs && NoDuplicates(handed[j])
                  && Matches(recipe.plugins[order[j]], generations[order[j]])
      invariant forall f :: f in exports <==> exists j :: 0 <= j < i && f in generations[order[j]].exports
    {
      var plugin, generation := recipe.plugins[order[i]], generations[order[i]];
      NeedsAreAvailable(recipe, hosts, order, i, services);
      DistinctServices(recipe, hosts, order[..i], services);
      var dependencies := Select(services, plugin.needs);
      if dependencies.Raised? {
        assert !NeedsOnce(recipe);
        return Raised(dependencies.error);
      }
      handed := handed + [dependencies.value];
      if !Matches(plugin, generation) {
        return Raised(Mismatch);
      }
      var exported := AddExports(exports, generation.exports);
      if exported.Raised? {
        ClashingExports(order, generations, exports, i);
        return Raised(exported.error);
      }
      exports := exported.value;
      ServicesGrow(recipe, hosts, order, i, services, generation);
      services := services + generation.services;
    }
    forall id | id in recipe.plugins ensures NoDuplicates(recipe.plugins[id].needs) && Matches(recipe.plugins[id], generations[id]) {
      var j :| 0 <= j < |order| && order[j] == id;
      assert NoDuplicates(handed[j]);
    }
    return Ok(handed);
  }

  lemma InOrder(r: Recipe, order: seq<Id>)
    requires IsBuildOrder(r, order) && Buildable(r)
    ensures forall id :: id in order <==> id in r.plugins
    ensures forall id :: id in order ==> Declared(r, id)
  {
    assert forall id :: id in order <==> id in Elements(order);
  }

  lemma HostsAvailable(r: Recipe, hosts: seq<Facade>)
    requires NoDuplicates(hosts) && OwnersExact(r, hosts)
    ensures Available(r, hosts, [], hosts)
  {
  }

  lemma DistinctServices(r: Recipe, hosts: seq<Facade>, done: seq<Id>, services: seq<Facade>)
    requires Available(r, hosts, done, services)
    ensures NoDuplicates(services)
  {
  }

  lemma ClashingExports(order: seq<Id>, generations: map<Id, Generation>, exports: set<Facade>, i: nat)
    requires i < |order| && (forall id :: id in order ==> id in generations)
    requires forall f :: f in exports <==> exists j :: 0 <= j < i && f in generations[order[j]].exports
    requires !(NoDuplicates(generations[order[i]].exports) && forall f :: f in generations[order[i]].exports ==> f !in exports)
    ensures !ExportsApart(order, generations)
  {
    if NoDuplicates(generations[order[i]].exports) {
      var f :| f in generations[order[i]].exports && f in exports;
      var j :| 0 <= j < i && f in generations[order[j]].exports;
      assert !Disjoint(generations[order[j]].exports, generations[order[i]].exports);
    }
  }

  /** A plugin that requires the same host service twice. */
  const TWICE := Plugin("twice", [], [0, 0], [])
  const DOUBLED := Recipe(map["twice" := TWICE], map[0 := Host], false)

  lemma DoubledIsWellDeclared()
    ensures WellDeclared([TWICE], [0], []) && Indexed(DOUBLED.plugins, [TWICE])
  {
    assert [TWICE][..0] == [] && Offers([]) == [] && Configurations([]) == [];
    assert Offers([TWICE]) == [] && Configurations([TWICE]) == [];
  }

  lemma NothingWaits()
    ensures forall a, b :: !Waits(DOUBLED, a, b)
    ensures forall cycle :: !IsCycle(DOUBLED, cycle)
  {
  }

  lemma DoubledIsBuildable()
    ensures Sound(DOUBLED) && OwnersExact(DOUBLED, [0]) && Buildable(DOUBLED) && IsBuildOrder(DOUBLED, ["twice"])
  {
    NothingWaits();
    hide Waits, IsCycle;
  }

  /** It is well declared, has a build order, and every generation matches: only the build itself fails (`Build`). */
  lemma DoubledNeedIsOverlooked()
    ensures WellDeclared([TWICE], [0], []) && Indexed(DOUBLED.plugins, [TWICE]) && Sound(DOUBLED) && OwnersExact(DOUBLED, [0])
    ensures Buildable(DOUBLED) && IsBuildOrder(DOUBLED, ["twice"])
    ensures var generations := map["twice" := Generation("twice", [], [])];
            AllMatch(DOUBLED, generations) && ExportsApart(["twice"], generations) && generations.Keys == DOUBLED.plugins.Keys
    ensures !NeedsOnce(DOUBLED)
  {
    DoubledIsWellDeclared();
    DoubledIsBuildable();
    hide WellDeclared, Sound, OwnersExact, Buildable, IsBuildOrder, Indexed;
    assert TWICE.needs[0] == TWICE.needs[1] && "twice" in DOUBLED.plugins;
  }
}
