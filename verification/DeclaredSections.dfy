/** What the registration checks are for: accepted plugins cannot reach one another's configuration, nor the host's. */
module DeclaredSections {
  import opened ConfigTree
  import opened ConfigSections
  import opened DottedPaths
  import P = PluginRegistration
  import PluginOrder

  /** Every section of a recipe: the plugins', then the ones reserved for the host. */
  function AllSections(plugins: seq<PluginOrder.Plugin>, reserved: seq<string>): seq<string> {
    P.Sections(P.Configurations(plugins)) + reserved
  }

  lemma OverlapIsMutual(left: string, right: string)
    ensures ScopesOverlap(left, right) <==> ScopesOverlap(right, left)
  {
  }

  /** In an accepted recipe no two sections overlap, whoever owns them, and every one is named throughout. */
  lemma DeclaredSectionsAreApart(plugins: seq<PluginOrder.Plugin>, hosts: seq<PluginOrder.Facade>, reserved: seq<string>, i: nat, j: nat)
    requires P.WellDeclared(plugins, hosts, reserved) && i < |AllSections(plugins, reserved)| && j < |AllSections(plugins, reserved)| && i != j
    ensures var all := AllSections(plugins, reserved); !ScopesOverlap(all[i], all[j]) && Named(all[i])
  {
    hide P.IdentitiesFit, P.OffersFit, IsSection, Named;
    var all, own := AllSections(plugins, reserved), P.Sections(P.Configurations(plugins));
    assert forall k :: 0 <= k < |all| ==> all[k] == if k < |own| then own[k] else reserved[k - |own|];
    assert all[i] in own || all[i] in reserved;
    SectionsAreNamed(all[i]);
    OverlapIsMutual(all[i], all[j]);
    hide ScopesOverlap;
    if i < |own| && j < |own| {
      assert !ScopesOverlap(own[if i < j then j else i], own[if i < j then i else j]);
    } else if i >= |own| && j >= |own| {
      var a, b := i - |own|, j - |own|;
      assert !ScopesOverlap(reserved[if a < b then b else a], reserved[if a < b then a else b]);
    } else if i < |own| {
      assert all[i] in own && all[j] in reserved;
    } else {
      assert all[j] in own && all[i] in reserved;
    }
  }

  /** So leaving out every write that reaches one section changes no other section's tree. */
  lemma DeclaredSectionsAreIsolated(plugins: seq<PluginOrder.Plugin>, hosts: seq<PluginOrder.Facade>, reserved: seq<string>, i: nat, j: nat,
                                    writes: seq<Write>)
    requires P.WellDeclared(plugins, hosts, reserved) && i < |AllSections(plugins, reserved)| && j < |AllSections(plugins, reserved)| && i != j
    ensures var all := AllSections(plugins, reserved);
            SectionFold(Table(map[]), all[i], Without(writes, all[j])) == SectionFold(Table(map[]), all[i], writes)
  {
    DeclaredSectionsAreApart(plugins, hosts, reserved, i, j);
    hide *;
    var all := AllSections(plugins, reserved);
    SectionsAreIsolated(Table(map[]), all[i], all[j], writes);
  }
}
