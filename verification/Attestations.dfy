/** `validatedIntegrationAttestation`: what an attestation of one integration must agree on with the catalogue. */
module Attestations {
  import opened Collections
  import opened Wrappers
  import opened Ordering
  import opened Values
  import opened Unions

  /** The objects of a list, anything else dropped. */
  function ObjectItems(items: seq<Json>): seq<Fields> {
    if items == [] then []
    else ObjectItems(items[..|items| - 1]) + (if items[|items| - 1].Obj? then [items[|items| - 1].fields] else [])
  }

  /** The objects of a list are kept in order, and everything else is dropped. */
  lemma {:induction false} ObjectsInOrder(xs: seq<Json>, x: Json, ys: seq<Json>)
    ensures ObjectItems([]) == []
    ensures ObjectItems(xs + [x] + ys) == ObjectItems(xs) + (if x.Obj? then [x.fields] else []) + ObjectItems(ys)
    decreases |ys|
  {
    var all := xs + [x] + ys;
    if ys == [] {
      assert all[..|all| - 1] == xs && all[|all| - 1] == x;
    } else {
      var front := ys[..|ys| - 1];
      assert all[..|all| - 1] == xs + [x] + front;
      ObjectsInOrder(xs, x, front);
    }
  }

  function Objects(v: Json): seq<Fields> {
    ObjectItems(ListValue(v))
  }

  function PermissionName(permission: Fields): string {
    StringValue(Field(permission, "name"))
  }

  function PermissionAccess(permission: Fields): string {
    StringValue(Field(permission, "access"))
  }

  /** The access each permission ends up with; a later entry wins. */
  function PermissionMap(permissions: seq<Fields>): map<string, string> {
    if permissions == [] then map[]
    else
      var last := permissions[|permissions| - 1];
      PermissionMap(permissions[..|permissions| - 1])[PermissionName(last) := PermissionAccess(last)]
  }

  /** Names and accesses are given, and no name repeats, among the first n entries. */
  ghost predicate UniquePermissions(permissions: seq<Fields>, n: nat) {
    n <= |permissions| &&
    (forall i :: 0 <= i < n ==> PermissionName(permissions[i]) != "" && PermissionAccess(permissions[i]) != "") &&
    (forall i, j :: 0 <= i < j < n ==> PermissionName(permissions[i]) != PermissionName(permissions[j]))
  }

  lemma {:induction false} PermissionMapHolds(permissions: seq<Fields>)
    ensures forall name :: name in PermissionMap(permissions) <==>
      exists i :: 0 <= i < |permissions| && PermissionName(permissions[i]) == name
    ensures forall name :: name in PermissionMap(permissions) ==>
      exists i :: 0 <= i < |permissions| && PermissionName(permissions[i]) == name &&
        PermissionAccess(permissions[i]) == PermissionMap(permissions)[name]
    decreases |permissions|
  {
    if permissions != [] {
      var front := permissions[..|permissions| - 1];
      PermissionMapHolds(front);
      assert permissions == front + [permissions[|permissions| - 1]];
    }
  }

  /** `uniquePermissionMap`, which the attestation check applies on both sides. */
  method UniquePermissionMap(permissions: seq<Fields>) returns (result: map<string, string>, valid: bool)
    ensures valid <==> permissions != [] && UniquePermissions(permissions, |permissions|)
    ensures valid ==> result == PermissionMap(permissions)
  {
    hide PermissionName, PermissionAccess;
    result := map[];
    for i := 0 to |permissions|
      invariant result == PermissionMap(permissions[..i]) && |result| == i
      invariant UniquePermissions(permissions, i)
    {
      var name, access := PermissionName(permissions[i]), PermissionAccess(permissions[i]);
      PermissionMapNext(permissions, i);
      if name == "" || access == "" || name in result {
        return map[], false;
      }
      result := result[name := access];
    }
    assert permissions[..|permissions|] == permissions;
    return result, |result| > 0;
  }

  lemma PermissionMapNext(permissions: seq<Fields>, i: nat)
    requires i < |permissions|
    ensures PermissionMap(permissions[..i + 1]) ==
      PermissionMap(permissions[..i])[PermissionName(permissions[i]) := PermissionAccess(permissions[i])]
    ensures PermissionName(permissions[i]) in PermissionMap(permissions[..i]) <==>
      exists j :: 0 <= j < i && PermissionName(permissions[j]) == PermissionName(permissions[i])
  {
    var front, name := permissions[..i], PermissionName(permissions[i]);
    assert permissions[..i + 1][..i] == front;
    PermissionMapHolds(front);
    assert forall j :: 0 <= j < i ==> front[j] == permissions[j];
  }

  lemma UniqueAccessesAreNamed(permissions: seq<Fields>)
    requires UniquePermissions(permissions, |permissions|)
    ensures forall name :: name in PermissionMap(permissions) ==> PermissionMap(permissions)[name] != ""
  {
    hide PermissionMap, PermissionName, PermissionAccess;
    PermissionMapHolds(permissions);
  }

  method CompareSorted(left: seq<string>, right: seq<string>) returns (equal: bool)
    ensures equal <==> SortBy(Identity, left) == SortBy(Identity, right)
  {
    hide SortBy;
    var l := new string[|left|](i requires 0 <= i < |left| => left[i]);
    var r := new string[|right|](i requires 0 <= i < |right| => right[i]);
    assert l[..] == left && r[..] == right;
    SortStrings(l);
    SortStrings(r);
    if l.Length != r.Length {
      assert |l[..]| != |r[..]|;
      return false;
    }
    for i := 0 to l.Length
      invariant l[..] == SortBy(Identity, left) && r[..] == SortBy(Identity, right)
      invariant l[..i] == r[..i]
    {
      if l[i] != r[i] {
        assert l[..][i] != r[..][i];
        return false;
      }
      assert l[..i + 1] == l[..i] + [l[i]] && r[..i + 1] == r[..i] + [r[i]];
    }
    assert l[..l.Length] == l[..] && r[..l.Length] == r[..];
    return true;
  }

  // ----- Repositories

  function RepositoryName(repository: Fields): string {
    StringValue(Field(repository, "name"))
  }

  function RepositoryNames(repositories: seq<Fields>): (r: seq<string>)
    ensures |r| == |repositories| && forall i :: 0 <= i < |r| ==> r[i] == RepositoryName(repositories[i])
  {
    seq(|repositories|, i requires 0 <= i < |repositories| => RepositoryName(repositories[i]))
  }

  function RepositoryIds(integer: Json -> int, repositories: seq<Fields>): (r: seq<int>)
    ensures |r| == |repositories|
    ensures forall i :: 0 <= i < |r| ==> r[i] == integer(Field(repositories[i], "id"))
  {
    seq(|repositories|, i requires 0 <= i < |repositories| => integer(Field(repositories[i], "id")))
  }

  /** Named and numbered, without repeats, and named exactly as expected. */
  ghost predicate RepositoriesAttested(integer: Json -> int, repositories: seq<Fields>, expected: seq<string>) {
    var names, ids := RepositoryNames(repositories), RepositoryIds(integer, repositories);
    && |repositories| == |expected|
    && (forall i :: 0 <= i < |names| ==> names[i] != "" && ids[i] > 0)
    && NoRepeats(names) && NoRepeats(ids)
    && SortBy(Identity, names) == SortBy(Identity, expected)
  }

  method CheckRepositories(integer: Json -> int, repositories: seq<Fields>, expected: seq<string>)
    returns (valid: bool)
    ensures valid <==> RepositoriesAttested(integer, repositories, expected)
  {
    hide SortBy, NoRepeats, RepositoryName;
    if |repositories| != |expected| {
      return false;
    }
    var attestedNames: seq<string> := [];
    var seenNames: set<string>, seenIds: set<int> := {}, {};
    ghost var names, ids := RepositoryNames(repositories), RepositoryIds(integer, repositories);
    SeenNone(names);
    SeenNone(ids);
    for i := 0 to |repositories|
      invariant forall j :: 0 <= j < i ==> names[j] != "" && ids[j] > 0
      invariant SeenOnce(names, i, seenNames) && SeenOnce(ids, i, seenIds)
      invariant attestedNames == names[..i]
    {
      var name, id := RepositoryName(repositories[i]), integer(Field(repositories[i], "id"));
      SeeNext(names, i, seenNames);
      SeeNext(ids, i, seenIds);
      if name == "" || id <= 0 {
        return false;
      }
      if name in seenNames || id in seenIds {
        return false;
      }
      seenNames := seenNames + {name};
      seenIds := seenIds + {id};
      attestedNames := attestedNames + [name];
    }
    SeenAll(names, seenNames);
    SeenAll(ids, seenIds);
    assert attestedNames == names;
    valid := CompareSorted(attestedNames, expected);
  }

  // ----- Permissions and events

  ghost predicate PermissionsAttested(desired: seq<Fields>, attested: seq<Fields>) {
    && desired != [] && UniquePermissions(desired, |desired|)
    && attested != [] && UniquePermissions(attested, |attested|)
    && PermissionMap(desired) == PermissionMap(attested)
  }

  /** `equalStringMaps`, where a missing key reads as the empty string. */
  method EqualStringMaps(left: map<string, string>, right: map<string, string>) returns (equal: bool)
    requires forall k :: k in left ==> left[k] != ""
    ensures equal <==> left == right
  {
    if |left| != |right| {
      return false;
    }
    var rest := left.Keys;
    while rest != {}
      invariant rest <= left.Keys
      invariant forall k :: k in left.Keys - rest ==> k in right && right[k] == left[k]
    {
      var k :| k in rest;
      if (if k in right then right[k] else "") != left[k] {
        return false;
      }
      rest := rest - {k};
    }
    assert forall k :: k in left ==> k in left.Keys - rest;
    assert |left| == |left.Keys| && |right| == |right.Keys|;
    SubsetOfSameSize(left.Keys, right.Keys);
    assert left == right;
    return true;
  }

  method CheckPermissions(desired: seq<Fields>, attested: seq<Fields>) returns (valid: bool)
    ensures valid <==> PermissionsAttested(desired, attested)
  {
    hide UniquePermissions, PermissionMap;
    var desiredMap, desiredValid := UniquePermissionMap(desired);
    if !desiredValid {
      return false;
    }
    var attestedMap, attestedValid := UniquePermissionMap(attested);
    if !attestedValid {
      return false;
    }
    UniqueAccessesAreNamed(desired);
    valid := EqualStringMaps(desiredMap, attestedMap);
  }

  /** A nonempty list of distinct, nonempty strings. */
  ghost predicate UniqueStrings(texts: seq<string>) {
    texts != [] && "" !in texts && NoRepeats(texts)
  }

  /** `uniqueSortedStrings`, before the sort. */
  method CheckUnique(texts: seq<string>) returns (valid: bool)
    ensures valid <==> UniqueStrings(texts)
  {
    hide NoRepeats;
    var seen: set<string> := {};
    SeenNone(texts);
    for i := 0 to |texts|
      invariant "" !in texts[..i]
      invariant SeenOnce(texts, i, seen)
    {
      SeeNext(texts, i, seen);
      if texts[i] == "" || texts[i] in seen {
        return false;
      }
      seen := seen + {texts[i]};
      assert texts[..i + 1] == texts[..i] + [texts[i]];
    }
    SeenAll(texts, seen);
    assert texts[..|texts|] == texts;
    return |texts| > 0;
  }

  ghost predicate EventsAttested(desired: seq<string>, attested: seq<string>) {
    UniqueStrings(desired) && UniqueStrings(attested) && SortBy(Identity, desired) == SortBy(Identity, attested)
  }

  method CheckEvents(desired: seq<string>, attested: seq<string>) returns (valid: bool)
    ensures valid <==> EventsAttested(desired, attested)
  {
    hide UniqueStrings, SortBy;
    var desiredValid := CheckUnique(desired);
    if !desiredValid {
      return false;
    }
    var attestedValid := CheckUnique(attested);
    if !attestedValid {
      return false;
    }
    valid := CompareSorted(desired, attested);
  }

  // ----- The attestation

  function AttestationOf(desired: Fields): Fields {
    ObjectValue(Field(ObjectValue(Field(desired, "qualification")), "attestation"))
  }

  /** Forty lower-case hexadecimal digits. */
  predicate IsSource(s: string) {
    |s| == 40 && forall c :: c in s ==> '0' <= c <= '9' || 'a' <= c <= 'f'
  }

  /** Qualified by the bootstrap authority, from an exact source. */
  predicate IsBootstrap(desired: Fields) {
    var qualification, attestation := ObjectValue(Field(desired, "qualification")), AttestationOf(desired);
    && StringValue(Field(qualification, "state")) == "qualified"
    && StringValue(Field(qualification, "authority")) == "bootstrap"
    && StringValue(Field(attestation, "authority")) == "bootstrap"
    && IsSource(StringValue(Field(attestation, "source_sha")))
  }

  predicate BindsCatalogue(integer: Json -> int, desired: Fields) {
    var attestation := AttestationOf(desired);
    && attestation != map[] && IsBootstrap(desired)
    && integer(Field(attestation, "app_id")) > 0
    && integer(Field(attestation, "app_id")) == integer(Field(desired, "actor_id"))
    && integer(Field(attestation, "installation_id")) > 0
    && StringValue(Field(attestation, "repository_selection")) == StringValue(Field(desired, "repository_selection"))
  }

  /** What an accepted attestation agrees on. `envelope` stands for its validity window and evidence digest. */
  ghost predicate Attested(integer: Json -> int, envelope: Fields -> bool, desired: Fields) {
    var attestation := AttestationOf(desired);
    && envelope(desired) && BindsCatalogue(integer, desired)
    && RepositoriesAttested(
         integer, Objects(Field(attestation, "repositories")), Strings(Field(desired, "repositories")))
    && PermissionsAttested(Objects(Field(desired, "permissions")), Objects(Field(attestation, "permissions")))
    && EventsAttested(Strings(Field(desired, "events")), Strings(Field(attestation, "events")))
  }

  /** `validatedIntegrationAttestation`. */
  method ValidatedIntegrationAttestation(integer: Json -> int, envelope: Fields -> bool, desired: Fields)
    returns (attestation: Option<Fields>)
    ensures attestation == if Attested(integer, envelope, desired) then Some(AttestationOf(desired)) else None
  {
    hide BindsCatalogue, RepositoriesAttested, PermissionsAttested, EventsAttested, Objects, Strings, AttestationOf;
    var claim := AttestationOf(desired);
    if !envelope(desired) || !BindsCatalogue(integer, desired) {
      return None;
    }
    var repositories := CheckRepositories(
      integer, Objects(Field(claim, "repositories")), Strings(Field(desired, "repositories")));
    if !repositories {
      return None;
    }
    var permissions := CheckPermissions(
      Objects(Field(desired, "permissions")), Objects(Field(claim, "permissions")));
    if !permissions {
      return None;
    }
    var events := CheckEvents(Strings(Field(desired, "events")), Strings(Field(claim, "events")));
    return if events then Some(claim) else None;
  }

  lemma SortedAlike(xs: seq<string>, ys: seq<string>)
    ensures SortBy(Identity, xs) == SortBy(Identity, ys) <==> multiset(xs) == multiset(ys)
  {
    hide SortBy;
    SortByIsSortedPermutation(Identity, xs);
    SortByIsSortedPermutation(Identity, ys);
    if multiset(xs) == multiset(ys) {
      SortForgetsOrder(Identity, xs, ys);
    }
  }
}
