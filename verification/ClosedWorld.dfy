/** The closed-world checks by the text of their documents: what is attested, what is live and what the
    catalogue asks for are the same. */
module ClosedWorld {
  import opened Collections
  import opened Text
  import opened Ordering
  import opened Values
  import opened Unions
  import opened Attestations
  import opened Qualification
  import opened Inventory

  // ----- One integration

  /** A repository of the attestation is live under its name and its identifier. */
  ghost predicate IsLiveRepository(integer: Json -> int, live: Fields, repository: Fields) {
    exists name :: name != "" && Field(repository, "name") == Str(name) && name in live && live[name].Obj? &&
      Field(live[name].fields, "name") == Str(name) && integer(Field(repository, "id")) > 0 &&
      integer(Field(repository, "id")) == integer(Field(live[name].fields, "id"))
  }

  /** The names of the objects in a list. */
  ghost function NamesIn(list: Json): (r: seq<string>)
    ensures |r| == |Objects(list)|
    ensures forall i :: 0 <= i < |r| ==> r[i] == StringValue(Field(Objects(list)[i], "name"))
  {
    seq(|Objects(list)|, i requires 0 <= i < |Objects(list)| => StringValue(Field(Objects(list)[i], "name")))
  }

  ghost function IdsIn(integer: Json -> int, list: Json): (r: seq<int>)
    ensures |r| == |Objects(list)|
    ensures forall i :: 0 <= i < |r| ==> r[i] == integer(Field(Objects(list)[i], "id"))
  {
    seq(|Objects(list)|, i requires 0 <= i < |Objects(list)| => integer(Field(Objects(list)[i], "id")))
  }

  /** The attested repositories are those of the catalogue, and live, each with a name and an identifier of its
      own. */
  ghost predicate SameRepositories(integer: Json -> int, state: Fields, desired: Fields, claim: Fields) {
    var attested := Field(claim, "repositories");
    && Field(state, "repository_inventory_complete") == Bool(true) && Field(state, "repositories").Obj?
    && multiset(NamesIn(attested)) == multiset(Strings(Field(desired, "repositories")))
    && NoRepeats(NamesIn(attested)) && NoRepeats(IdsIn(integer, attested))
    && forall repository :: repository in Objects(attested) ==>
         IsLiveRepository(integer, Field(state, "repositories").fields, repository)
  }

  /** The permissions listed are these: each has a name and an access of its own. */
  ghost predicate ListsPermissions(list: Json, permissions: map<string, string>) {
    && Objects(list) != [] && NoRepeats(NamesIn(list))
    && (forall permission :: permission in Objects(list) ==>
          StringValue(Field(permission, "name")) != "" && StringValue(Field(permission, "access")) != "")
    && (forall permission :: permission in Objects(list) ==>
          var name := StringValue(Field(permission, "name"));
          name in permissions && permissions[name] == StringValue(Field(permission, "access")))
    && (forall name :: name in permissions ==> name in NamesIn(list))
  }

  /** Catalogue and attestation list the same permissions, and the live installation has exactly these. */
  ghost predicate SamePermissions(desired: Fields, claim: Fields, observed: Fields) {
    exists permissions ::
      && ListsPermissions(Field(desired, "permissions"), permissions)
      && ListsPermissions(Field(claim, "permissions"), permissions)
      && ObjectValue(Field(observed, "permissions")) == map name | name in permissions :: Str(permissions[name])
  }

  /** Catalogue, attestation and live installation list the same events, each once. */
  ghost predicate SameEvents(desired: Fields, claim: Fields, observed: Fields) {
    var events := Strings(Field(desired, "events"));
    && events != [] && "" !in events && NoRepeats(events)
    && multiset(events) == multiset(Strings(Field(claim, "events")))
    && multiset(events) == multiset(Strings(Field(observed, "events")))
  }

  lemma UniqueIsListed(list: Json)
    ensures var permissions := Objects(list);
      UniquePermissions(permissions, |permissions|) && permissions != [] ==>
      ListsPermissions(list, PermissionMap(permissions))
    ensures forall listed :: ListsPermissions(list, listed) ==>
      var permissions := Objects(list);
      UniquePermissions(permissions, |permissions|) && permissions != [] && listed == PermissionMap(permissions)
  {
    hide Objects, PermissionMap;
    var permissions := Objects(list);
    PermissionMapHolds(permissions);
    if UniquePermissions(permissions, |permissions|) && permissions != [] {
      ListedAreMapped(list);
    }
    forall listed | ListsPermissions(list, listed)
      ensures UniquePermissions(permissions, |permissions|) && permissions != [] && listed == PermissionMap(permissions)
    {
      MappedAreListed(list, listed);
    }
  }

  lemma ListedAreMapped(list: Json)
    requires Objects(list) != [] && UniquePermissions(Objects(list), |Objects(list)|)
    ensures ListsPermissions(list, PermissionMap(Objects(list)))
  {
    hide Objects, PermissionMap;
    var permissions := Objects(list);
    forall i | 0 <= i < |permissions|
      ensures var name := StringValue(Field(permissions[i], "name"));
        name in PermissionMap(permissions) &&
        PermissionMap(permissions)[name] == StringValue(Field(permissions[i], "access"))
    {
      MappedEntry(permissions, i);
    }
    forall name | name in PermissionMap(permissions) ensures name in NamesIn(list) {
      PermissionMapHolds(permissions);
      var i :| 0 <= i < |permissions| && PermissionName(permissions[i]) == name;
      assert NamesIn(list)[i] == name;
    }
  }

  lemma MappedEntry(permissions: seq<Fields>, i: nat)
    requires UniquePermissions(permissions, |permissions|) && i < |permissions|
    ensures var name := PermissionName(permissions[i]);
      name in PermissionMap(permissions) && PermissionMap(permissions)[name] == PermissionAccess(permissions[i])
  {
    hide PermissionMap, PermissionName, PermissionAccess;
    var name := PermissionName(permissions[i]);
    PermissionMapHolds(permissions);
    var j :| 0 <= j < |permissions| && PermissionName(permissions[j]) == name &&
      PermissionAccess(permissions[j]) == PermissionMap(permissions)[name];
    assert i == j;
  }

  lemma ListedEntry(list: Json, listed: map<string, string>, i: nat)
    requires ListsPermissions(list, listed) && i < |Objects(list)|
    ensures var name, access := PermissionName(Objects(list)[i]), PermissionAccess(Objects(list)[i]);
      name != "" && access != "" && name in listed && listed[name] == access && NamesIn(list)[i] == name
  {
    hide Objects, NoRepeats;
    assert Objects(list)[i] in Objects(list);
  }

  lemma ListedName(list: Json, listed: map<string, string>, name: string) returns (i: nat)
    requires ListsPermissions(list, listed) && name in listed
    ensures i < |Objects(list)| && PermissionName(Objects(list)[i]) == name
  {
    hide Objects, NoRepeats;
    i :| i < |Objects(list)| && NamesIn(list)[i] == name;
  }

  lemma MappedAreListed(list: Json, listed: map<string, string>)
    requires ListsPermissions(list, listed)
    ensures Objects(list) != [] && UniquePermissions(Objects(list), |Objects(list)|)
    ensures listed == PermissionMap(Objects(list))
  {
    hide Objects, PermissionMap, PermissionName, PermissionAccess, ListsPermissions, NoRepeats;
    var permissions := Objects(list);
    var mapped := PermissionMap(permissions);
    PermissionMapHolds(permissions);
    ListedNamesDiffer(list, listed);
    forall i | 0 <= i < |permissions|
      ensures var name, access := PermissionName(permissions[i]), PermissionAccess(permissions[i]);
        name != "" && access != "" && name in listed && listed[name] == access
    {
      ListedEntry(list, listed, i);
    }
    forall name | name in listed ensures name in mapped && mapped[name] == listed[name] {
      var i := ListedName(list, listed, name);
    }
    assert listed == mapped;
  }

  lemma ListedNamesDiffer(list: Json, listed: map<string, string>)
    requires ListsPermissions(list, listed)
    ensures Objects(list) != []
    ensures forall i, j :: 0 <= i < j < |Objects(list)| ==>
      PermissionName(Objects(list)[i]) != PermissionName(Objects(list)[j])
  {
    hide Objects;
    forall i, j | 0 <= i < j < |Objects(list)|
      ensures PermissionName(Objects(list)[i]) != PermissionName(Objects(list)[j])
    {
      assert NamesIn(list)[i] != NamesIn(list)[j];
    }
  }

  lemma PermissionsByText(desired: Fields, claim: Fields, observed: Fields)
    ensures SamePermissions(desired, claim, observed) <==>
      PermissionsAttested(Objects(Field(desired, "permissions")), Objects(Field(claim, "permissions"))) &&
      PermissionsMatch(claim, observed)
  {
    hide Objects, PermissionMap, ListsPermissions, UniquePermissions, PermissionsMatch;
    UniqueIsListed(Field(desired, "permissions"));
    UniqueIsListed(Field(claim, "permissions"));
    var attested := Objects(Field(claim, "permissions"));
    if UniquePermissions(attested, |attested|) {
      PermissionsAreExact(claim, observed);
    }
    if PermissionsAttested(Objects(Field(desired, "permissions")), attested) && PermissionsMatch(claim, observed) {
      assert ListsPermissions(Field(desired, "permissions"), PermissionMap(attested));
    }
  }

  lemma EventsByText(desired: Fields, claim: Fields, observed: Fields)
    ensures SameEvents(desired, claim, observed) <==>
      EventsAttested(Strings(Field(desired, "events")), Strings(Field(claim, "events"))) &&
      EventsMatch(claim, observed)
  {
    hide SortBy, Strings;
    var events, attested := Strings(Field(desired, "events")), Strings(Field(claim, "events"));
    EventsAreExact(claim, observed);
    SortedAlike(events, attested);
    if multiset(events) == multiset(attested) {
      RearrangedUnique(events, attested);
      RearrangedUnique(attested, events);
    }
  }

  lemma RearrangedUnique(xs: seq<string>, ys: seq<string>)
    requires multiset(xs) == multiset(ys)
    ensures UniqueStrings(xs) ==> UniqueStrings(ys)
  {
    assert |multiset(xs)| == |multiset(ys)|;
    SameElements(xs, ys);
    if NoRepeats(xs) {
      RearrangedNoRepeats(xs, ys);
    }
  }

  lemma RepositoryByText(integer: Json -> int, live: Fields, repository: Fields)
    ensures IsLiveRepository(integer, live, repository) <==>
      RepositoryMatches(integer, live, repository) && StringValue(Field(repository, "name")) != "" &&
      integer(Field(repository, "id")) > 0
  {
  }

  lemma RepositoriesByText(integer: Json -> int, state: Fields, desired: Fields, claim: Fields)
    ensures SameRepositories(integer, state, desired, claim) <==>
      RepositoriesAttested(integer, Objects(Field(claim, "repositories")), Strings(Field(desired, "repositories"))) &&
      RepositoriesMatch(integer, state, claim)
  {
    hide SortBy, Objects, Strings, IsLiveRepository, RepositoryMatches, NoRepeats;
    var attested, expected := Objects(Field(claim, "repositories")), Strings(Field(desired, "repositories"));
    var live := ObjectValue(Field(state, "repositories"));
    SortedAlike(RepositoryNames(attested), expected);
    assert RepositoryNames(attested) == NamesIn(Field(claim, "repositories"));
    assert RepositoryIds(integer, attested) == IdsIn(integer, Field(claim, "repositories"));
    SameSizes(RepositoryNames(attested), expected);
    forall repository | repository in attested
      ensures IsLiveRepository(integer, live, repository) <==>
        RepositoryMatches(integer, live, repository) && RepositoryName(repository) != "" &&
        integer(Field(repository, "id")) > 0
    {
      RepositoryByText(integer, live, repository);
    }
    assert forall i :: 0 <= i < |attested| ==> attested[i] in attested;
  }

  lemma SameSizes(xs: seq<string>, ys: seq<string>)
    ensures multiset(xs) == multiset(ys) ==> |xs| == |ys|
  {
    assert |multiset(xs)| == |xs| && |multiset(ys)| == |ys|;
  }

  ghost predicate IsObject(fields: Fields, key: string, inner: Fields) {
    key in fields && fields[key] == Obj(inner)
  }

  /** An integration is ready, attested by the bootstrap authority, and installed exactly as the catalogue and
      the attestation have it: actor, installation, selection, repositories, permissions and events. */
  ghost predicate IsInstalled(
    integer: Json -> int, envelope: Fields -> bool, state: Fields, id: string, desired: Fields, observed: Fields)
  {
    exists activation, qualification, claim ::
      && IsObject(desired, "activation", activation) && IsObject(desired, "qualification", qualification)
      && IsObject(qualification, "attestation", claim)
      && Field(activation, "state") == Str("ready") && Strings(Field(activation, "blockers")) == []
      && IsAttested(integer, desired, qualification, claim) && envelope(desired)
      && IsLiveAs(integer, id, desired, claim, observed)
      && SameRepositories(integer, state, desired, claim)
      && SamePermissions(desired, claim, observed) && SameEvents(desired, claim, observed)
  }

  ghost predicate IsAttested(integer: Json -> int, desired: Fields, qualification: Fields, claim: Fields) {
    && Field(qualification, "state") == Str("qualified") && Field(qualification, "authority") == Str("bootstrap")
    && Field(claim, "authority") == Str("bootstrap")
    && (exists sha :: Field(claim, "source_sha") == Str(sha) && IsSha(sha))
    && integer(Field(claim, "app_id")) > 0 && integer(Field(claim, "app_id")) == integer(Field(desired, "actor_id"))
    && integer(Field(claim, "installation_id")) > 0
    && StringValue(Field(claim, "repository_selection")) == StringValue(Field(desired, "repository_selection"))
  }

  ghost predicate IsSha(s: string) {
    |s| == 40 && forall c :: c in s ==> c in "0123456789abcdef"
  }

  ghost predicate IsLiveAs(integer: Json -> int, id: string, desired: Fields, claim: Fields, observed: Fields) {
    && integer(Field(claim, "app_id")) == integer(Field(observed, "actor_id"))
    && integer(Field(claim, "installation_id")) == integer(Field(observed, "installation_id"))
    && Field(observed, "installed") == Bool(true) && Field(observed, "suspended_at") == Null
    && EqualFold(StringValue(Field(observed, "app_slug")), id)
    && (exists selection :: selection != "" && Field(observed, "repository_selection") == Str(selection) &&
          Field(desired, "repository_selection") == Str(selection))
  }

  lemma ShaExactly(s: string)
    ensures IsSource(s) <==> IsSha(s)
  {
    forall c: char ensures ('0' <= c <= '9' || 'a' <= c <= 'f') <==> c in "0123456789abcdef" {
      HexExactly(c);
    }
  }

  lemma HexExactly(c: char)
    ensures ('0' <= c <= '9' || 'a' <= c <= 'f') <==> c in "0123456789abcdef"
  {
    var digits := "0123456789abcdef";
    if '0' <= c <= '9' {
      assert digits[c as int - '0' as int] == c;
    }
    if 'a' <= c <= 'f' {
      assert digits[10 + c as int - 'a' as int] == c;
    }
  }

  lemma AttestationByText(integer: Json -> int, desired: Fields)
    ensures var qualification, claim := ObjectValue(Field(desired, "qualification")), AttestationOf(desired);
      BindsCatalogue(integer, desired) <==>
      IsObject(desired, "qualification", qualification) && IsObject(qualification, "attestation", claim) &&
      IsAttested(integer, desired, qualification, claim)
  {
    hide IsSource, IsSha;
    forall sha ensures IsSource(sha) <==> IsSha(sha) {
      ShaExactly(sha);
    }
    EmptyIsNoSource();
  }

  lemma IdentityByText(integer: Json -> int, id: string, desired: Fields, claim: Fields, observed: Fields)
    requires integer(Field(claim, "app_id")) > 0 && integer(Field(claim, "installation_id")) > 0
    requires integer(Field(claim, "app_id")) == integer(Field(desired, "actor_id"))
    requires StringValue(Field(claim, "repository_selection")) == StringValue(Field(desired, "repository_selection"))
    ensures IdentityMatches(integer, id, desired, claim, observed) <==>
      IsLiveAs(integer, id, desired, claim, observed)
  {
    hide EqualFold;
  }

  lemma AttestedParts(integer: Json -> int, desired: Fields)
    requires BindsCatalogue(integer, desired)
    ensures var claim := AttestationOf(desired);
      && integer(Field(claim, "app_id")) > 0 && integer(Field(claim, "installation_id")) > 0
      && integer(Field(claim, "app_id")) == integer(Field(desired, "actor_id"))
      && StringValue(Field(claim, "repository_selection")) == StringValue(Field(desired, "repository_selection"))
  {
    hide IsSource;
  }

  lemma EmptyIsNoSource()
    ensures !IsSource("")
  {
  }

  /** An integration is qualified exactly when its documents show it installed as it should be. */
  lemma QualifiedExactly(
    integer: Json -> int, envelope: Fields -> bool, state: Fields, id: string, desired: Fields, observed: Fields)
    ensures Qualified(integer, envelope, state, id, desired, observed) <==>
      IsInstalled(integer, envelope, state, id, desired, observed)
  {
    hide BindsCatalogue, IdentityMatches, RepositoriesAttested, RepositoriesMatch, PermissionsAttested,
      PermissionsMatch, EventsAttested, EventsMatch, IsAttested, IsLiveAs, SameRepositories, SamePermissions,
      SameEvents, Objects, Strings, IsObject;
    var activation, qualification := ObjectValue(Field(desired, "activation")),
      ObjectValue(Field(desired, "qualification"));
    var claim := AttestationOf(desired);
    AttestationByText(integer, desired);
    if BindsCatalogue(integer, desired) {
      AttestedParts(integer, desired);
      IdentityByText(integer, id, desired, claim, observed);
    }
    RepositoriesByText(integer, state, desired, claim);
    PermissionsByText(desired, claim, observed);
    EventsByText(desired, claim, observed);
    ObjectsAreFields(desired);
    ObjectsAreFields(qualification);
  }

  lemma ObjectsAreFields(fields: Fields)
    ensures forall key, inner :: IsObject(fields, key, inner) ==> ObjectValue(Field(fields, key)) == inner
    ensures forall key, name :: Field(ObjectValue(Field(fields, key)), name) != Null ==>
      IsObject(fields, key, ObjectValue(Field(fields, key)))
  {
  }

  // ----- The inventory

  /** A disposition agrees with the live installation of an app. */
  ghost predicate AgreesWithLive(integer: Json -> int, live: Fields, d: Fields, slug: string) {
    && slug == ToLower(StringValue(Field(d, "app_slug"))) && slug != "" && slug in live && live[slug].Obj?
    && var app := live[slug].fields;
       integer(Field(d, "app_id")) > 0 && integer(Field(app, "actor_id")) == integer(Field(d, "app_id")) &&
       integer(Field(d, "installation_id")) > 0 &&
       integer(Field(app, "installation_id")) == integer(Field(d, "installation_id")) &&
       EqualFold(StringValue(Field(app, "app_slug")), slug)
  }

  /** A catalog disposition: it names an integration of the catalogue by its slug and its evidence, and the
      integration is installed as it should be. */
  ghost predicate IsCatalogued(
    integer: Json -> int, envelope: Fields -> bool, state: Fields, live: Fields, catalog: Fields, d: Fields,
    slug: string, id: string)
    requires slug in live && live[slug].Obj?
  {
    && Field(d, "disposition") == Str("catalog") && id == StringValue(Field(d, "integration_id"))
    && id in catalog && catalog[id].Obj? && EqualFold(id, slug)
    && StringValue(Field(d, "integration_evidence_digest")) ==
       StringValue(Field(ObjectValue(Field(catalog[id].fields, "qualification")), "evidence_digest"))
    && IsInstalled(integer, envelope, state, id, catalog[id].fields, live[slug].fields)
  }

  /** A disposition of something outside the catalogue, with a reason. */
  ghost predicate IsOutside(catalog: Fields, d: Fields, slug: string) {
    && Field(d, "disposition") in {Str("approved_external"), Str("retirement_pending")} && slug !in catalog
    && exists reason :: Field(d, "reason") == Str(reason) && !IsBlank(reason)
  }

  /** A disposition accounts for the live installation of an app. */
  ghost predicate Disposes(
    integer: Json -> int, envelope: Fields -> bool, state: Fields, live: Fields, catalog: Fields, d: Fields,
    slug: string)
  {
    AgreesWithLive(integer, live, d, slug) &&
    (IsOutside(catalog, d, slug) || exists id :: IsCatalogued(integer, envelope, state, live, catalog, d, slug, id))
  }

  /** The disposition is the catalog disposition of an integration. */
  ghost predicate Claims(d: Fields, id: string) {
    Field(d, "disposition") == Str("catalog") && StringValue(Field(d, "integration_id")) == id
  }

  lemma LiveByText(w: World, d: Fields)
    ensures w.BindsLive(d) <==> AgreesWithLive(w.integer, w.live, d, ToLower(StringValue(Field(d, "app_slug"))))
  {
    hide EqualFold, ToLower;
  }

  lemma OutsideByText(w: World, d: Fields)
    ensures !w.IsCatalog(d) && w.IsAccountedFor(d) <==>
      IsOutside(w.catalog, d, ToLower(StringValue(Field(d, "app_slug"))))
  {
    hide ToLower, IsBlank;
    EmptyIsBlank();
  }

  lemma CataloguedByText(w: World, d: Fields)
    requires w.BindsLive(d)
    ensures w.IsCatalog(d) && w.BindsIntegration(d) <==>
      var slug := ToLower(StringValue(Field(d, "app_slug")));
      exists id :: IsCatalogued(w.integer, w.envelope, w.state, w.live, w.catalog, d, slug, id)
  {
    hide EqualFold, ToLower, Qualified, IsInstalled;
    var slug, id := ToLower(StringValue(Field(d, "app_slug"))), StringValue(Field(d, "integration_id"));
    if id in w.catalog && w.catalog[id].Obj? {
      QualifiedExactly(w.integer, w.envelope, w.state, id, w.catalog[id].fields, w.live[slug].fields);
    }
    if w.IsCatalog(d) && w.BindsIntegration(d) {
      assert IsCatalogued(w.integer, w.envelope, w.state, w.live, w.catalog, d, slug, id);
    }
  }

  lemma MatchesExactly(w: World, d: Fields)
    ensures w.Matches(d) <==>
      Disposes(w.integer, w.envelope, w.state, w.live, w.catalog, d, ToLower(StringValue(Field(d, "app_slug"))))
  {
    hide ToLower, World.BindsLive, World.BindsIntegration, World.IsAccountedFor, World.IsCatalog, IsCatalogued,
      IsOutside, AgreesWithLive;
    LiveByText(w, d);
    OutsideByText(w, d);
    if w.BindsLive(d) {
      AgreeingIsLive(w, d);
      CataloguedByText(w, d);
    }
    if w.IsCatalog(d) {
      CatalogIsNotOutside(w, d);
    }
  }

  lemma AgreeingIsLive(w: World, d: Fields)
    requires w.BindsLive(d)
    ensures var slug := ToLower(StringValue(Field(d, "app_slug"))); slug in w.live && w.live[slug].Obj?
  {
    hide ToLower, EqualFold;
  }

  lemma CatalogIsNotOutside(w: World, d: Fields)
    requires w.IsCatalog(d)
    ensures forall slug :: !IsOutside(w.catalog, d, slug)
    ensures !w.IsAccountedFor(d)
  {
    hide IsBlank;
  }

  lemma EmptyIsBlank()
    ensures IsBlank("")
  {
  }

  /** Every live installation has exactly one disposition, every disposition accounts for a live installation,
      no two for one installation identifier, and every integration of the catalogue has a catalog disposition. */
  ghost predicate IsDisposedOnce(
    integer: Json -> int, envelope: Fields -> bool, state: Fields, dispositions: seq<Fields>, live: Fields,
    catalog: Fields)
  {
    && (forall d :: d in dispositions ==> exists slug :: Disposes(integer, envelope, state, live, catalog, d, slug))
    && (forall slug :: slug in live ==> HasOneDisposition(dispositions, slug))
    && (forall i, j :: 0 <= i < j < |dispositions| ==>
          integer(Field(dispositions[i], "installation_id")) != integer(Field(dispositions[j], "installation_id")))
    && (forall id :: id in catalog ==> exists d :: d in dispositions && Claims(d, id))
  }

  ghost predicate IsDispositionOf(dispositions: seq<Fields>, i: int, slug: string) {
    0 <= i < |dispositions| && ToLower(StringValue(Field(dispositions[i], "app_slug"))) == slug
  }

  ghost predicate HasOneDisposition(dispositions: seq<Fields>, slug: string) {
    exists i :: IsDispositionOf(dispositions, i, slug) &&
      (forall j :: IsDispositionOf(dispositions, j, slug) ==> j == i)
  }

  lemma ElementsFill<T(!new)>(xs: seq<T>, s: set<T>)
    requires NoRepeats(xs) && forall x :: x in xs <==> x in s
    ensures |xs| == |s|
  {
    if xs == [] {
      assert s == {};
    } else {
      var x, rest := xs[0], xs[1..];
      assert xs == [x] + rest && x !in rest;
      ElementsFill(rest, s - {x});
    }
  }

  lemma DistinctSlugsAreOnce(w: World, slug: string)
    requires forall d :: d in w.dispositions ==> w.Slug(d) in w.live
    requires NoRepeats(Slugs(w)) && |w.dispositions| == |w.live| && slug in w.live
    ensures HasOneDisposition(w.dispositions, slug)
  {
    hide ToLower, NoRepeats, World.Slug;
    var slugs := Slugs(w);
    SlugsAreLive(w);
    assert |w.live| == |w.live.Keys|;
    DistinctFillSet(slugs, w.live.Keys);
    var i :| 0 <= i < |slugs| && slugs[i] == slug;
    SlugOf(w, i, slug);
    forall j | IsDispositionOf(w.dispositions, j, slug) ensures j == i {
      SlugOf(w, j, slug);
      NoRepeatsMeans(slugs, i, j);
    }
  }

  lemma SlugsAreLive(w: World)
    requires forall d :: d in w.dispositions ==> w.Slug(d) in w.live
    ensures forall slug :: slug in Slugs(w) ==> slug in w.live.Keys
  {
    hide World.Slug;
    assert forall i :: 0 <= i < |w.dispositions| ==> w.dispositions[i] in w.dispositions;
  }

  lemma SlugOf(w: World, i: int, slug: string)
    ensures IsDispositionOf(w.dispositions, i, slug) <==> 0 <= i < |Slugs(w)| && Slugs(w)[i] == slug
  {
    hide ToLower;
  }

  lemma OnceMeansDistinctSlugs(w: World)
    requires forall d :: d in w.dispositions ==> w.Slug(d) in w.live
    requires forall slug :: slug in w.live ==> HasOneDisposition(w.dispositions, slug)
    ensures NoRepeats(Slugs(w)) && |w.dispositions| == |w.live|
  {
    hide ToLower;
    var slugs := Slugs(w);
    assert forall i :: 0 <= i < |slugs| ==> w.dispositions[i] in w.dispositions && slugs[i] in w.live;
    forall i, j | 0 <= i < j < |slugs| ensures slugs[i] != slugs[j] {
      assert IsDispositionOf(w.dispositions, i, slugs[i]) && IsDispositionOf(w.dispositions, j, slugs[j]);
      assert HasOneDisposition(w.dispositions, slugs[i]);
    }
    forall slug | slug in w.live ensures slug in slugs {
      assert HasOneDisposition(w.dispositions, slug);
      var i :| IsDispositionOf(w.dispositions, i, slug);
      assert slugs[i] == slug;
    }
    ElementsFill(slugs, w.live.Keys);
    assert |w.live| == |w.live.Keys|;
  }

  lemma SlugsExactly(w: World)
    requires forall d :: d in w.dispositions ==> w.Slug(d) in w.live
    ensures NoRepeats(Slugs(w)) && |w.dispositions| == |w.live| <==>
      forall slug :: slug in w.live ==> HasOneDisposition(w.dispositions, slug)
  {
    hide HasOneDisposition, NoRepeats, World.Slug;
    if NoRepeats(Slugs(w)) && |w.dispositions| == |w.live| {
      forall slug | slug in w.live ensures HasOneDisposition(w.dispositions, slug) {
        DistinctSlugsAreOnce(w, slug);
      }
    }
    if forall slug :: slug in w.live ==> HasOneDisposition(w.dispositions, slug) {
      OnceMeansDistinctSlugs(w);
    }
  }

  lemma BoundExactly(w: World, id: string)
    ensures id in Bound(w, |w.dispositions|) <==> exists d :: d in w.dispositions && Claims(d, id)
  {
    if id in Bound(w, |w.dispositions|) {
      var i :| 0 <= i < |w.dispositions| && w.IsCatalog(w.dispositions[i]) && w.Integration(w.dispositions[i]) == id;
      assert Claims(w.dispositions[i], id);
    }
    if d :| d in w.dispositions && Claims(d, id) {
      var i :| 0 <= i < |w.dispositions| && w.dispositions[i] == d;
      assert w.IsCatalog(w.dispositions[i]);
    }
  }

  lemma ClaimsExactly(w: World)
    requires forall d :: d in w.dispositions && w.IsCatalog(d) ==> w.Integration(d) in w.catalog
    ensures |Bound(w, |w.dispositions|)| == |w.catalog| <==>
      forall id :: id in w.catalog ==> exists d :: d in w.dispositions && Claims(d, id)
  {
    hide Claims, World.IsCatalog, World.Integration;
    var bound := Bound(w, |w.dispositions|);
    forall id ensures id in bound <==> exists d :: d in w.dispositions && Claims(d, id) {
      BoundExactly(w, id);
    }
    BoundIsCatalogued(w);
    assert |w.catalog| == |w.catalog.Keys|;
    if |bound| == |w.catalog| {
      SubsetOfSameSize(bound, w.catalog.Keys);
    }
    if forall id :: id in w.catalog ==> exists d :: d in w.dispositions && Claims(d, id) {
      assert bound == w.catalog.Keys;
    }
  }

  lemma BoundIsCatalogued(w: World)
    requires forall d :: d in w.dispositions && w.IsCatalog(d) ==> w.Integration(d) in w.catalog
    ensures Bound(w, |w.dispositions|) <= w.catalog.Keys
  {
    hide World.IsCatalog, World.Integration;
    assert forall i :: 0 <= i < |w.dispositions| ==> w.dispositions[i] in w.dispositions;
  }

  lemma InstallationsExactly(w: World)
    ensures NoRepeats(Installations(w)) <==>
      forall i, j :: 0 <= i < j < |w.dispositions| ==>
        w.integer(Field(w.dispositions[i], "installation_id")) != w.integer(Field(w.dispositions[j], "installation_id"))
  {
  }

  lemma MatchedIsFound(w: World, d: Fields)
    requires w.Matches(d)
    ensures w.Slug(d) in w.live && (w.IsCatalog(d) ==> w.Integration(d) in w.catalog)
  {
    hide EqualFold, ToLower, Qualified, IsBlank;
  }

  lemma DisposesSlug(
    integer: Json -> int, envelope: Fields -> bool, state: Fields, live: Fields, catalog: Fields, d: Fields,
    slug: string)
    requires Disposes(integer, envelope, state, live, catalog, d, slug)
    ensures slug == ToLower(StringValue(Field(d, "app_slug")))
  {
    hide IsCatalogued, IsOutside, ToLower, EqualFold;
  }

  /** The seen-sets and the size equalities stand for the bijection. */
  lemma AcceptedExactly(w: World)
    ensures Accepted(w) <==>
      |w.dispositions| == w.total &&
      IsDisposedOnce(w.integer, w.envelope, w.state, w.dispositions, w.live, w.catalog)
  {
    hide World.Matches, World.Slug, World.IsCatalog, World.Integration, Bound, NoRepeats, Disposes, IsDispositionOf,
      Claims, ToLower, Slugs, Installations;
    var ds := w.dispositions;
    InstallationsExactly(w);
    forall d ensures w.Matches(d) <==>
      exists slug :: Disposes(w.integer, w.envelope, w.state, w.live, w.catalog, d, slug)
    {
      MatchesExactly(w, d);
      if slug :| Disposes(w.integer, w.envelope, w.state, w.live, w.catalog, d, slug) {
        DisposesSlug(w.integer, w.envelope, w.state, w.live, w.catalog, d, slug);
      }
    }
    assert forall i :: 0 <= i < |ds| ==> ds[i] in ds;
    if forall d :: d in ds ==> w.Matches(d) {
      forall d | d in ds ensures w.Slug(d) in w.live && (w.IsCatalog(d) ==> w.Integration(d) in w.catalog) {
        MatchedIsFound(w, d);
      }
      SlugsExactly(w);
      ClaimsExactly(w);
    }
  }

  /** What the two documents show when the check succeeds: a qualified attestation of the bootstrap authority, by
      its protected apply at an exact source, over a complete live inventory of so many installations, each with
      exactly one disposition that accounts for it, and with every integration of the catalogue claimed. */
  ghost predicate IsClosedWorld(
    integer: Json -> int, envelope: Fields -> bool, seal: Fields -> bool, desired: Fields, observed: Fields)
  {
    var qualification :=
      ObjectValue(Field(ObjectValue(Field(desired, "organization")), "installation_inventory_qualification"));
    var inventory, dispositions :=
      ObjectValue(Field(observed, "installation_inventory")), Objects(Field(qualification, "installations"));
    && Field(qualification, "state") == Str("qualified") && Field(qualification, "authority") == Str("bootstrap")
    && (exists sha :: IsSha(sha) && Field(qualification, "source_sha") == Str(sha) &&
          Field(qualification, "workflow_ref") ==
            Str("mindclade/bootstrap/.github/workflows/protected-apply.yml@" + sha))
    && seal(qualification)
    && Field(inventory, "api_inventory_complete") == Bool(true)
    && integer(Field(inventory, "total_count")) == |dispositions|
    && IsDisposedOnce(integer, envelope, observed, dispositions, ObjectValue(Field(observed, "integrations")),
         ObjectValue(Field(desired, "integrations")))
  }

  lemma SealedExactly(seal: Fields -> bool, desired: Fields, observed: Fields)
    ensures var qualification :=
        ObjectValue(Field(ObjectValue(Field(desired, "organization")), "installation_inventory_qualification"));
      var inventory := ObjectValue(Field(observed, "installation_inventory"));
      Sealed(seal, desired, observed) <==>
        && Field(qualification, "state") == Str("qualified") && Field(qualification, "authority") == Str("bootstrap")
        && (exists sha :: IsSha(sha) && Field(qualification, "source_sha") == Str(sha) &&
              Field(qualification, "workflow_ref") ==
                Str("mindclade/bootstrap/.github/workflows/protected-apply.yml@" + sha))
        && seal(qualification)
        && Field(inventory, "api_inventory_complete") == Bool(true)
  {
    hide IsSource, IsSha;
    forall sha ensures IsSource(sha) <==> IsSha(sha) {
      ShaExactly(sha);
    }
    EmptyIsNoSource();
  }

  /** The inventory check succeeds exactly when the two documents show a closed world. */
  lemma ClosedWorldExactly(
    integer: Json -> int, envelope: Fields -> bool, seal: Fields -> bool, desired: Fields, observed: Fields)
    ensures Sealed(seal, desired, observed) && Accepted(WorldOf(integer, envelope, desired, observed)) <==>
      IsClosedWorld(integer, envelope, seal, desired, observed)
  {
    hide Accepted, IsDisposedOnce, Objects, Sealed, IsSha;
    SealedExactly(seal, desired, observed);
    AcceptedExactly(WorldOf(integer, envelope, desired, observed));
  }
}
