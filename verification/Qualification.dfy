/** `integrationQualified`: an attested integration against its live installation. */
module Qualification {
  import opened Collections
  import opened Text
  import opened Ordering
  import opened Values
  import opened Unions
  import opened Attestations

  /** A repository of the attestation is the live one of its name. */
  predicate RepositoryMatches(integer: Json -> int, live: Fields, repository: Fields) {
    var name, id := StringValue(Field(repository, "name")), integer(Field(repository, "id"));
    name in live && live[name].Obj? && StringValue(Field(live[name].fields, "name")) == name &&
    id > 0 && id == integer(Field(live[name].fields, "id"))
  }

  predicate RepositoriesMatch(integer: Json -> int, state: Fields, attestation: Fields) {
    var live := Field(state, "repositories");
    BoolValue(Field(state, "repository_inventory_complete")) && live.Obj? &&
    forall i :: 0 <= i < |Objects(Field(attestation, "repositories"))| ==>
      RepositoryMatches(integer, live.fields, Objects(Field(attestation, "repositories"))[i])
  }

  predicate IdentityMatches(integer: Json -> int, id: string, desired: Fields, attestation: Fields, observed: Fields) {
    var installation, actor := integer(Field(attestation, "installation_id")), integer(Field(attestation, "app_id"));
    var selection := StringValue(Field(attestation, "repository_selection"));
    && installation > 0 && installation == integer(Field(observed, "installation_id"))
    && actor > 0 && actor == integer(Field(desired, "actor_id")) && actor == integer(Field(observed, "actor_id"))
    && BoolValue(Field(observed, "installed")) && EqualFold(StringValue(Field(observed, "app_slug")), id)
    && Field(observed, "suspended_at") == Null
    && selection != "" && selection == StringValue(Field(desired, "repository_selection"))
    && selection == StringValue(Field(observed, "repository_selection"))
  }

  /** The comparison by size and by entry. */
  predicate PermissionsMatch(attestation: Fields, observed: Fields) {
    var desired := PermissionMap(Objects(Field(attestation, "permissions")));
    var live := ObjectValue(Field(observed, "permissions"));
    |desired| == |live| && forall name :: name in desired ==> StringValue(Field(live, name)) == desired[name]
  }

  predicate EventsMatch(attestation: Fields, observed: Fields) {
    SortBy(Identity, Strings(Field(attestation, "events"))) == SortBy(Identity, Strings(Field(observed, "events")))
  }

  predicate Ready(desired: Fields) {
    var activation := ObjectValue(Field(desired, "activation"));
    StringValue(Field(activation, "state")) == "ready" && Strings(Field(activation, "blockers")) == []
  }

  /** What `integrationQualified` asks. */
  ghost predicate Qualified(
    integer: Json -> int, envelope: Fields -> bool, state: Fields, id: string, desired: Fields, observed: Fields)
  {
    var attestation := AttestationOf(desired);
    && Ready(desired) && Attested(integer, envelope, desired)
    && IdentityMatches(integer, id, desired, attestation, observed)
    && RepositoriesMatch(integer, state, attestation)
    && PermissionsMatch(attestation, observed) && EventsMatch(attestation, observed)
  }

  /** The attested permissions: `desiredPermissions` as the loop fills it. */
  method CollectPermissions(permissions: seq<Fields>) returns (result: map<string, string>)
    ensures result == PermissionMap(permissions)
  {
    result := map[];
    for i := 0 to |permissions|
      invariant result == PermissionMap(permissions[..i])
    {
      assert permissions[..i + 1][..i] == permissions[..i];
      result := result[PermissionName(permissions[i]) := PermissionAccess(permissions[i])];
    }
    assert permissions[..|permissions|] == permissions;
  }

  method ComparePermissions(attestation: Fields, observed: Fields) returns (equal: bool)
    ensures equal <==> PermissionsMatch(attestation, observed)
  {
    hide PermissionMap, Objects;
    var desired := CollectPermissions(Objects(Field(attestation, "permissions")));
    var live := ObjectValue(Field(observed, "permissions"));
    if |desired| != |live| {
      return false;
    }
    var rest := desired.Keys;
    while rest != {}
      invariant rest <= desired.Keys
      invariant forall name :: name in desired.Keys - rest ==> StringValue(Field(live, name)) == desired[name]
    {
      var name :| name in rest;
      if StringValue(Field(live, name)) != desired[name] {
        return false;
      }
      rest := rest - {name};
    }
    assert forall name :: name in desired ==> name in desired.Keys - rest;
    return true;
  }

  method CompareRepositories(integer: Json -> int, state: Fields, attestation: Fields) returns (equal: bool)
    ensures equal <==> RepositoriesMatch(integer, state, attestation)
  {
    hide Objects, RepositoryMatches;
    var live := Field(state, "repositories");
    if !BoolValue(Field(state, "repository_inventory_complete")) || !live.Obj? {
      return false;
    }
    var repositories := Objects(Field(attestation, "repositories"));
    for i := 0 to |repositories|
      invariant forall j :: 0 <= j < i ==> RepositoryMatches(integer, live.fields, repositories[j])
    {
      if !RepositoryMatches(integer, live.fields, repositories[i]) {
        return false;
      }
    }
    return true;
  }

  /** `integrationQualified`. */
  method IntegrationQualified(
    integer: Json -> int, envelope: Fields -> bool, state: Fields, id: string, desired: Fields, observed: Fields)
    returns (qualified: bool)
    ensures qualified <==> Qualified(integer, envelope, state, id, desired, observed)
  {
    hide Ready, Attested, AttestationOf, IdentityMatches, RepositoriesMatch, PermissionsMatch, SortBy, Strings;
    if !Ready(desired) {
      return false;
    }
    var validated := ValidatedIntegrationAttestation(integer, envelope, desired);
    if validated.None? {
      return false;
    }
    var attestation := validated.value;
    if !IdentityMatches(integer, id, desired, attestation, observed) {
      return false;
    }
    var repositories := CompareRepositories(integer, state, attestation);
    if !repositories {
      return false;
    }
    var permissions := ComparePermissions(attestation, observed);
    if !permissions {
      return false;
    }
    qualified := CompareSorted(Strings(Field(attestation, "events")), Strings(Field(observed, "events")));
  }

  // ----- What qualification proves

  /** The live installation holds exactly the attested permissions: none missing, none more. */
  lemma PermissionsAreExact(attestation: Fields, observed: Fields)
    requires var permissions := Objects(Field(attestation, "permissions"));
      UniquePermissions(permissions, |permissions|)
    ensures var desired := PermissionMap(Objects(Field(attestation, "permissions")));
      PermissionsMatch(attestation, observed) <==>
      ObjectValue(Field(observed, "permissions")) == map name | name in desired :: Str(desired[name])
  {
    hide PermissionMap, Objects, UniquePermissions;
    UniqueAccessesAreNamed(Objects(Field(attestation, "permissions")));
    var desired := PermissionMap(Objects(Field(attestation, "permissions")));
    var live := ObjectValue(Field(observed, "permissions"));
    var exact := map name | name in desired :: Str(desired[name]);
    assert |desired| == |desired.Keys| && |live| == |live.Keys|;
    if PermissionsMatch(attestation, observed) {
      forall name | name in desired ensures name in live && live[name] == Str(desired[name]) {
      }
      SubsetOfSameSize(desired.Keys, live.Keys);
      assert live == exact;
    }
    assert live == exact ==> live.Keys == desired.Keys;
  }

  /** The live installation listens to exactly the attested events, with repetitions. */
  lemma EventsAreExact(attestation: Fields, observed: Fields)
    ensures EventsMatch(attestation, observed) <==>
      multiset(Strings(Field(attestation, "events"))) == multiset(Strings(Field(observed, "events")))
  {
    hide SortBy, Strings;
    SortedAlike(Strings(Field(attestation, "events")), Strings(Field(observed, "events")));
  }

  /** Every repository of the catalogue entry is the live one of its name, under an immutable identifier
      of its own, and the catalogue names no other. */
  ghost predicate RepositoriesExact(integer: Json -> int, state: Fields, desired: Fields) {
    var live := ObjectValue(Field(state, "repositories"));
    var attested := Objects(Field(AttestationOf(desired), "repositories"));
    && multiset(RepositoryNames(attested)) == multiset(Strings(Field(desired, "repositories")))
    && NoRepeats(RepositoryNames(attested)) && NoRepeats(RepositoryIds(integer, attested))
    && forall i :: 0 <= i < |attested| ==> RepositoryMatches(integer, live, attested[i])
  }

  /** A qualified integration is installed exactly as the catalogue has it: the same permissions, the same
      events, the same repositories. */
  lemma QualifiedIsExact(
    integer: Json -> int, envelope: Fields -> bool, state: Fields, id: string, desired: Fields, observed: Fields)
    requires Qualified(integer, envelope, state, id, desired, observed)
    ensures var permissions := PermissionMap(Objects(Field(desired, "permissions")));
      ObjectValue(Field(observed, "permissions")) == map name | name in permissions :: Str(permissions[name])
    ensures multiset(Strings(Field(desired, "events"))) == multiset(Strings(Field(observed, "events")))
    ensures RepositoriesExact(integer, state, desired)
  {
    hide SortBy, Strings, PermissionMap, Objects, UniquePermissions, UniqueStrings, Ready, BindsCatalogue, NoRepeats,
      PermissionsMatch, EventsMatch, IdentityMatches, RepositoryMatches, AttestationOf;
    var attestation := AttestationOf(desired);
    PermissionsAreExact(attestation, observed);
    EventsAreExact(attestation, observed);
    SortedAlike(Strings(Field(desired, "events")), Strings(Field(attestation, "events")));
    SortedAlike(
      RepositoryNames(Objects(Field(attestation, "repositories"))), Strings(Field(desired, "repositories")));
  }

  /** A qualified integration is installed under the one identifier its attestation names. */
  lemma QualifiedInstallation(
    integer: Json -> int, envelope: Fields -> bool, state: Fields, id: string, desired: Fields, observed: Fields)
    requires Qualified(integer, envelope, state, id, desired, observed)
    ensures integer(Field(observed, "installation_id")) == integer(Field(AttestationOf(desired), "installation_id"))
  {
    hide Attested, AttestationOf, RepositoriesMatch, PermissionsMatch, EventsMatch, Ready, EqualFold;
  }
}
