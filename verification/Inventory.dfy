/** The closed-world proofs over live inventories: loops with seen-sets and size equalities. */
module Inventory {
  import opened Collections
  import opened Text
  import opened Values
  import opened Unions
  import opened Attestations
  import opened Qualification

  // ----- The installation inventory

  /** What the loop reads: the declared total, the dispositions, the live installations, the catalogue and
      the observed document. `integer` reads a JSON number; `envelope` is what the attestation check asks of
      time and digest. */
  datatype World = World(
    total: int, dispositions: seq<Fields>, live: Fields, catalog: Fields, state: Fields,
    integer: Json -> int, envelope: Fields -> bool)
  {
    function Slug(d: Fields): string {
      ToLower(StringValue(Field(d, "app_slug")))
    }

    function Installation(d: Fields): int {
      integer(Field(d, "installation_id"))
    }

    function Integration(d: Fields): string {
      StringValue(Field(d, "integration_id"))
    }

    predicate IsCatalog(d: Fields) {
      Field(d, "disposition") == Str("catalog")
    }

    predicate IsExternal(d: Fields) {
      StringValue(Field(d, "disposition")) in {"approved_external", "retirement_pending"}
    }

    /** The disposition names a live installation and agrees with it. */
    predicate BindsLive(d: Fields) {
      var slug := Slug(d);
      && slug != "" && integer(Field(d, "app_id")) > 0 && Installation(d) > 0
      && slug in live && live[slug].Obj?
      && integer(Field(live[slug].fields, "actor_id")) == integer(Field(d, "app_id"))
      && integer(Field(live[slug].fields, "installation_id")) == Installation(d)
      && EqualFold(StringValue(Field(live[slug].fields, "app_slug")), slug)
    }

    /** The disposition names an integration and its evidence. */
    predicate NamesIntegration(d: Fields) {
      var id := Integration(d);
      && id in catalog && catalog[id].Obj? && EqualFold(id, Slug(d))
      && StringValue(Field(d, "integration_evidence_digest")) ==
         StringValue(Field(ObjectValue(Field(catalog[id].fields, "qualification")), "evidence_digest"))
    }

    /** A catalog disposition binds its integration, by name, by evidence digest and by qualification. */
    ghost predicate BindsIntegration(d: Fields)
      requires BindsLive(d)
    {
      NamesIntegration(d) &&
      Qualified(integer, envelope, state, Integration(d), catalog[Integration(d)].fields, live[Slug(d)].fields)
    }

    predicate IsAccountedFor(d: Fields) {
      IsExternal(d) && Slug(d) !in catalog && !IsBlank(StringValue(Field(d, "reason")))
    }

    ghost predicate Matches(d: Fields) {
      BindsLive(d) &&
      if IsCatalog(d) then BindsIntegration(d)
      else IsAccountedFor(d)
    }
  }

  function Slugs(w: World): (r: seq<string>)
    ensures |r| == |w.dispositions| && forall i :: 0 <= i < |r| ==> r[i] == w.Slug(w.dispositions[i])
  {
    seq(|w.dispositions|, i requires 0 <= i < |w.dispositions| => w.Slug(w.dispositions[i]))
  }

  function Installations(w: World): (r: seq<int>)
    ensures |r| == |w.dispositions| && forall i :: 0 <= i < |r| ==> r[i] == w.Installation(w.dispositions[i])
  {
    seq(|w.dispositions|, i requires 0 <= i < |w.dispositions| => w.Installation(w.dispositions[i]))
  }

  /** The integrations the first n dispositions bind. */
  function Bound(w: World, n: nat): (r: set<string>)
    requires n <= |w.dispositions|
    ensures forall i :: 0 <= i < n && w.IsCatalog(w.dispositions[i]) ==> w.Integration(w.dispositions[i]) in r
  {
    set i | 0 <= i < n && w.IsCatalog(w.dispositions[i]) :: w.Integration(w.dispositions[i])
  }

  ghost predicate Accepted(w: World) {
    && |w.dispositions| == w.total && |w.dispositions| == |w.live|
    && (forall i :: 0 <= i < |w.dispositions| ==> w.Matches(w.dispositions[i]))
    && NoRepeats(Slugs(w)) && NoRepeats(Installations(w))
    && |Bound(w, |w.dispositions|)| == |w.catalog|
  }

  lemma BoundOneMore(w: World, n: nat)
    requires n < |w.dispositions|
    ensures var d := w.dispositions[n];
      Bound(w, n + 1) == if w.IsCatalog(d) then Bound(w, n) + {w.Integration(d)} else Bound(w, n)
  {
    hide World.IsCatalog, World.Integration;
  }

  /** The body of the loop, after the seen-sets. */
  method CheckDisposition(w: World, d: Fields) returns (matches: bool)
    ensures matches <==> w.Matches(d)
  {
    hide World.IsCatalog, World.IsAccountedFor, World.Slug, World.Integration, Qualified, EqualFold;
    if !w.BindsLive(d) {
      return false;
    }
    if !w.IsCatalog(d) {
      return w.IsAccountedFor(d);
    }
    if !w.NamesIntegration(d) {
      return false;
    }
    matches := IntegrationQualified(
      w.integer, w.envelope, w.state, w.Integration(d), w.catalog[w.Integration(d)].fields, w.live[w.Slug(d)].fields);
  }

  /** The loop of `validateInstallationInventoryQualification`. */
  method ValidateDispositions(w: World) returns (valid: bool)
    ensures valid <==> Accepted(w)
  {
    hide World.Matches, World.Slug, World.Installation, World.IsCatalog, World.Integration, Bound, NoRepeats;
    if |w.dispositions| != w.total || |w.dispositions| != |w.live| {
      return false;
    }
    var seenSlugs: set<string>, seenInstallations: set<int>, bound: set<string> := {}, {}, {};
    ghost var slugs, installations := Slugs(w), Installations(w);
    NothingSeen(w);
    for i := 0 to |w.dispositions|
      invariant forall j :: 0 <= j < i ==> w.Matches(w.dispositions[j])
      invariant SeenOnce(slugs, i, seenSlugs) && SeenOnce(installations, i, seenInstallations)
      invariant bound == Bound(w, i)
    {
      var d := w.dispositions[i];
      SeeNext(slugs, i, seenSlugs);
      SeeNext(installations, i, seenInstallations);
      BoundOneMore(w, i);
      if w.Slug(d) in seenSlugs || w.Installation(d) in seenInstallations {
        return false;
      }
      seenSlugs := seenSlugs + {w.Slug(d)};
      seenInstallations := seenInstallations + {w.Installation(d)};
      var matches := CheckDisposition(w, d);
      if !matches {
        return false;
      }
      if w.IsCatalog(d) {
        bound := bound + {w.Integration(d)};
      }
    }
    SeenAll(slugs, seenSlugs);
    SeenAll(installations, seenInstallations);
    return |bound| == |w.catalog|;
  }

  lemma NothingSeen(w: World)
    ensures Bound(w, 0) == {}
    ensures SeenOnce(Slugs(w), 0, {}) && SeenOnce(Installations(w), 0, {})
  {
  }

  // ----- What success proves

  /** The dispositions are exactly the live installations, each once, and agree with them. */
  lemma DispositionsAreLive(w: World)
    requires Accepted(w)
    ensures NoRepeats(Slugs(w)) && forall slug :: slug in w.live <==> slug in Slugs(w)
    ensures NoRepeats(Installations(w))
    ensures forall i :: 0 <= i < |w.dispositions| ==> w.BindsLive(w.dispositions[i])
  {
    hide World.Slug, World.Installation, World.IsCatalog, World.Integration, World.BindsIntegration, Bound, NoRepeats;
    var slugs := Slugs(w);
    forall i | 0 <= i < |slugs| ensures slugs[i] in w.live && w.BindsLive(w.dispositions[i]) {
      assert w.Matches(w.dispositions[i]);
    }
    forall slug | slug in slugs ensures slug in w.live.Keys {
      var i :| 0 <= i < |slugs| && slugs[i] == slug;
    }
    assert |w.live| == |w.live.Keys|;
    DistinctFillSet(slugs, w.live.Keys);
  }

  /** The i-th disposition binds this integration. */
  ghost predicate Binds(w: World, i: nat, id: string) {
    i < |w.dispositions| && w.IsCatalog(w.dispositions[i]) && w.Integration(w.dispositions[i]) == id
  }

  /** Every integration of the catalogue is bound by a catalog disposition, and qualified. */
  lemma EveryIntegrationIsBound(w: World, id: string) returns (i: nat)
    requires Accepted(w) && id in w.catalog
    ensures Binds(w, i, id) && w.BindsLive(w.dispositions[i]) && w.BindsIntegration(w.dispositions[i])
  {
    hide World.Slug, World.Installation, World.IsCatalog, NoRepeats, Qualified;
    var bound := Bound(w, |w.dispositions|);
    forall other | other in bound ensures other in w.catalog.Keys {
      var j :| 0 <= j < |w.dispositions| && w.IsCatalog(w.dispositions[j]) && w.Integration(w.dispositions[j]) == other;
      assert w.Matches(w.dispositions[j]);
    }
    assert |w.catalog| == |w.catalog.Keys|;
    SubsetOfSameSize(bound, w.catalog.Keys);
    assert id in bound;
    i :| 0 <= i < |w.dispositions| && w.IsCatalog(w.dispositions[i]) && w.Integration(w.dispositions[i]) == id;
    assert w.Matches(w.dispositions[i]);
  }

  lemma NoRepeatsMeans<T>(xs: seq<T>, i: nat, j: nat)
    requires NoRepeats(xs) && i < |xs| && j < |xs| && xs[i] == xs[j]
    ensures i == j
  {
  }

  /** What binds an integration is installed under the identifier of the integration's attestation. */
  lemma BoundInstallation(w: World, id: string, i: nat)
    requires Accepted(w) && Binds(w, i, id)
    ensures id in w.catalog && w.catalog[id].Obj?
    ensures Installations(w)[i] == w.integer(Field(AttestationOf(w.catalog[id].fields), "installation_id"))
  {
    hide World.Slug, World.IsCatalog, World.Integration, NoRepeats, Qualified, AttestationOf, EqualFold;
    var d := w.dispositions[i];
    assert w.Matches(d);
    QualifiedInstallation(
      w.integer, w.envelope, w.state, id, w.catalog[id].fields, w.live[w.Slug(d)].fields);
  }

  /** Every integration of the catalogue has exactly one catalog disposition. */
  lemma EveryIntegrationIsBoundOnce(w: World, id: string)
    requires Accepted(w) && id in w.catalog
    ensures exists i :: Binds(w, i, id)
    ensures forall i: nat, j: nat :: Binds(w, i, id) && Binds(w, j, id) ==> i == j
  {
    hide Binds, World.Matches, NoRepeats, AttestationOf;
    var k := EveryIntegrationIsBound(w, id);
    forall i: nat, j: nat | Binds(w, i, id) && Binds(w, j, id) ensures i == j {
      BoundInstallation(w, id, i);
      BoundInstallation(w, id, j);
      BindsInRange(w, i, id);
      BindsInRange(w, j, id);
      NoRepeatsMeans(Installations(w), i, j);
    }
  }

  lemma BindsInRange(w: World, i: nat, id: string)
    requires Binds(w, i, id)
    ensures i < |Installations(w)|
  {
  }

  /** The whole of the closed-world proof: in an accepted world every catalogue integration is installed
      exactly as the catalogue has it, with its permissions, its events and its repositories. */
  lemma EveryIntegrationIsExact(w: World, id: string) returns (i: nat)
    requires Accepted(w) && id in w.catalog
    ensures Binds(w, i, id) && w.Slug(w.dispositions[i]) in w.live && w.live[w.Slug(w.dispositions[i])].Obj?
    ensures w.catalog[id].Obj?
    ensures var installed, desired := w.live[w.Slug(w.dispositions[i])].fields, w.catalog[id].fields;
      var permissions := PermissionMap(Objects(Field(desired, "permissions")));
      && ObjectValue(Field(installed, "permissions")) == (map name | name in permissions :: Str(permissions[name]))
      && multiset(Strings(Field(desired, "events"))) == multiset(Strings(Field(installed, "events")))
      && RepositoriesExact(w.integer, w.state, desired)
  {
    hide Accepted, World.Slug, World.Integration, World.IsCatalog, PermissionMap, Objects, Strings, Qualified,
      RepositoriesExact, EqualFold;
    i := EveryIntegrationIsBound(w, id);
    var installed, desired := w.live[w.Slug(w.dispositions[i])].fields, w.catalog[id].fields;
    QualifiedIsExact(w.integer, w.envelope, w.state, id, desired, installed);
  }

  // ----- The whole check

  /** What the check reads from its two documents. */
  function WorldOf(
    integer: Json -> int, envelope: Fields -> bool, desired: Fields, observed: Fields): World
  {
    var qualification :=
      ObjectValue(Field(ObjectValue(Field(desired, "organization")), "installation_inventory_qualification"));
    World(
      integer(Field(ObjectValue(Field(observed, "installation_inventory")), "total_count")),
      Objects(Field(qualification, "installations")), ObjectValue(Field(observed, "integrations")),
      ObjectValue(Field(desired, "integrations")), observed, integer, envelope)
  }

  /** Qualified by the bootstrap authority, by its protected apply at an exact source, over a complete live
      inventory. `seal` stands for the validity window and the digest of the attestation. */
  predicate Sealed(seal: Fields -> bool, desired: Fields, observed: Fields) {
    var qualification :=
      ObjectValue(Field(ObjectValue(Field(desired, "organization")), "installation_inventory_qualification"));
    && StringValue(Field(qualification, "state")) == "qualified"
    && StringValue(Field(qualification, "authority")) == "bootstrap"
    && BoolValue(Field(ObjectValue(Field(observed, "installation_inventory")), "api_inventory_complete"))
    && IsSource(StringValue(Field(qualification, "source_sha")))
    && StringValue(Field(qualification, "workflow_ref")) ==
       "mindclade/bootstrap/.github/workflows/protected-apply.yml@" + StringValue(Field(qualification, "source_sha"))
    && seal(qualification)
  }

  /** `validateInstallationInventoryQualification`. */
  method ValidateInstallationInventoryQualification(
    integer: Json -> int, envelope: Fields -> bool, seal: Fields -> bool, desired: Fields, observed: Fields)
    returns (valid: bool)
    ensures valid <==>
      Sealed(seal, desired, observed) && Accepted(WorldOf(integer, envelope, desired, observed))
  {
    hide Accepted, WorldOf;
    if !Sealed(seal, desired, observed) {
      return false;
    }
    valid := ValidateDispositions(WorldOf(integer, envelope, desired, observed));
  }
}
