/** `observedOIDCIdentity`: catalogue repositories against their immutable identifiers. */
module Identities {
  import opened Wrappers
  import opened Values

  /** The observed identifier of a catalogue repository, zero where there is none to trust. */
  function IdentityOf(integer: Json -> int, spec: Json, observed: Fields): int {
    var name := StringValue(Field(ObjectValue(spec), "name"));
    if name !in observed then 0
    else
      var repository := ObjectValue(observed[name]);
      if StringValue(Field(repository, "name")) != name then 0 else integer(Field(repository, "id"))
  }

  predicate IsMissing(spec: Json, observed: Fields) {
    StringValue(Field(ObjectValue(spec), "name")) !in observed
  }

  ghost predicate SameIdentity(integer: Json -> int, desired: Fields, observed: Fields, k: string, l: string) {
    k in desired && l in desired &&
    IdentityOf(integer, desired[k], observed) == IdentityOf(integer, desired[l], observed)
  }

  /** Every one of the repositories has a positive identifier, no two the same. */
  ghost predicate IdentitiesComplete(integer: Json -> int, desired: Fields, observed: Fields, keys: set<string>) {
    && (forall k :: k in keys ==> k in desired && IdentityOf(integer, desired[k], observed) > 0)
    && (forall k, l :: k in keys && l in keys && SameIdentity(integer, desired, observed, k, l) ==> k == l)
  }

  /** A positive identifier is that of a catalogue repository: it stands in the record observed under the
      repository's name, which carries that name itself. */
  ghost predicate IsIdentity(integer: Json -> int, spec: Json, observed: Fields, id: int) {
    var name := StringValue(Field(ObjectValue(spec), "name"));
    && id > 0 && name in observed
    && StringValue(Field(ObjectValue(observed[name]), "name")) == name
    && integer(Field(ObjectValue(observed[name]), "id")) == id
  }

  lemma IdentityExactly(integer: Json -> int, spec: Json, observed: Fields, id: int)
    ensures id > 0 ==> (IdentityOf(integer, spec, observed) == id <==> IsIdentity(integer, spec, observed, id))
  {
  }

  /** The identities are complete exactly when every repository of the catalogue has an identifier, and two have
      different ones. */
  lemma IdentitiesCompleteExactly(integer: Json -> int, desired: Fields, observed: Fields)
    ensures IdentitiesComplete(integer, desired, observed, desired.Keys) <==>
      && (forall k :: k in desired ==> exists id :: IsIdentity(integer, desired[k], observed, id))
      && (forall k, l, id :: k in desired && l in desired && k != l ==>
            !(IsIdentity(integer, desired[k], observed, id) && IsIdentity(integer, desired[l], observed, id)))
  {
    hide IdentityOf, IsIdentity;
    forall spec, id: int ensures id > 0 ==>
      (IdentityOf(integer, spec, observed) == id <==> IsIdentity(integer, spec, observed, id))
    {
      IdentityExactly(integer, spec, observed, id);
    }
    forall spec, id | IsIdentity(integer, spec, observed, id) ensures id > 0 {
      IdentityIsPositive(integer, spec, observed, id);
    }
    if IdentitiesComplete(integer, desired, observed, desired.Keys) {
      forall k | k in desired ensures exists id :: IsIdentity(integer, desired[k], observed, id) {
        assert IsIdentity(integer, desired[k], observed, IdentityOf(integer, desired[k], observed));
      }
      forall k, l, id | k in desired && l in desired && k != l
        ensures !(IsIdentity(integer, desired[k], observed, id) && IsIdentity(integer, desired[l], observed, id))
      {
        assert SameIdentity(integer, desired, observed, k, l) ==> k == l;
      }
    }
  }

  lemma IdentityIsPositive(integer: Json -> int, spec: Json, observed: Fields, id: int)
    requires IsIdentity(integer, spec, observed, id)
    ensures id > 0
  {
  }

  /** The identifiers found among the repositories done so far. */
  ghost predicate Tracks(
    integer: Json -> int, desired: Fields, observed: Fields, done: set<string>, result: map<string, int>,
    seen: map<int, string>, sound: bool)
  {
    && result.Keys <= done
    && (forall k :: k in result ==>
          k in desired && result[k] == IdentityOf(integer, desired[k], observed) && result[k] > 0 &&
          result[k] in seen && seen[result[k]] == k)
    && (forall id :: id in seen ==> seen[id] in result && result[seen[id]] == id)
    && (sound <==> IdentitiesComplete(integer, desired, observed, done))
    && (sound ==> result.Keys == done)
  }

  lemma TrackNext(
    integer: Json -> int, desired: Fields, observed: Fields, done: set<string>, result: map<string, int>,
    seen: map<int, string>, sound: bool, key: string)
    requires Tracks(integer, desired, observed, done, result, seen, sound) && key in desired && key !in done
    ensures var id := IdentityOf(integer, desired[key], observed);
      if id <= 0 || id in seen then Tracks(integer, desired, observed, done + {key}, result, seen, false)
      else Tracks(integer, desired, observed, done + {key}, result[key := id], seen[id := key], sound)
  {
    hide IdentityOf;
    var id := IdentityOf(integer, desired[key], observed);
    if id > 0 {
      if id in seen {
        assert SameIdentity(integer, desired, observed, seen[id], key);
      } else {
        forall k | k in done && SameIdentity(integer, desired, observed, k, key) ensures !sound {
        }
      }
    }
  }

  /** The loop over the catalogue's repositories, in any order. */
  method CollectIdentities(
    integer: Json -> int, organizationId: int, desired: Fields, observed: Fields)
    returns (ids: Option<map<string, int>>)
    ensures ids.Some? <==> organizationId > 0 && IdentitiesComplete(integer, desired, observed, desired.Keys)
    ensures ids.Some? ==> ids.value == map k | k in desired :: IdentityOf(integer, desired[k], observed)
  {
    hide IdentityOf, Tracks, IdentitiesComplete;
    var result: map<string, int> := map[];
    var seen: map<int, string> := map[];
    var missing, issues := false, if organizationId <= 0 then 1 else 0;
    var rest := desired.Keys;
    ghost var done, sound := {}, true;
    TrackNone(integer, desired, observed);
    while rest != {}
      invariant rest <= desired.Keys && done == desired.Keys - rest
      invariant issues >= 0 && (!missing && issues == 0 <==> organizationId > 0 && sound)
      invariant Tracks(integer, desired, observed, done, result, seen, sound)
    {
      var key :| key in rest;
      rest := rest - {key};
      TrackNext(integer, desired, observed, done, result, seen, sound, key);
      var id := IdentityOf(integer, desired[key], observed);
      MissingHasNoIdentity(integer, desired[key], observed);
      if IsMissing(desired[key], observed) {
        missing, sound := true, false;
      } else if id <= 0 || id in seen {
        issues, sound := issues + 1, false;
      } else {
        result := result[key := id];
        seen := seen[id := key];
      }
      done := done + {key};
    }
    assert done == desired.Keys;
    TrackAll(integer, desired, observed, result, seen, sound);
    if organizationId > 0 && !missing && issues == 0 && |result| == |desired| {
      return Some(result);
    }
    return None;
  }

  lemma TrackNone(integer: Json -> int, desired: Fields, observed: Fields)
    ensures Tracks(integer, desired, observed, {}, map[], map[], true)
  {
  }

  lemma MissingHasNoIdentity(integer: Json -> int, spec: Json, observed: Fields)
    ensures IsMissing(spec, observed) ==> IdentityOf(integer, spec, observed) <= 0
  {
  }

  lemma TrackAll(
    integer: Json -> int, desired: Fields, observed: Fields, result: map<string, int>, seen: map<int, string>,
    sound: bool)
    requires Tracks(integer, desired, observed, desired.Keys, result, seen, sound)
    ensures sound <==> IdentitiesComplete(integer, desired, observed, desired.Keys)
    ensures sound ==>
      result == (map k | k in desired :: IdentityOf(integer, desired[k], observed)) && |result| == |desired|
  {
    hide IdentityOf, IdentitiesComplete;
    if sound {
      assert result == map k | k in desired :: IdentityOf(integer, desired[k], observed);
      assert |result| == |result.Keys| && |desired| == |desired.Keys|;
    }
  }

  datatype Identity = Identity(organization: int, repositories: map<string, int>)

  /** `observedOIDCIdentity`: it succeeds exactly on a complete observation in which the organization and
      every repository have a positive identifier, no two repositories the same, and it then reports those
      identifiers. */
  method ObservedOIDCIdentity(
    integer: Json -> int, coreComplete: bool, desired: Fields, observed: Option<Fields>)
    returns (identity: Option<Identity>)
    ensures identity.Some? <==>
      && coreComplete && observed.Some?
      && integer(Field(ObjectValue(Field(observed.value, "organization")), "id")) > 0
      && var catalogue, live :=
           ObjectValue(Field(desired, "repositories")), ObjectValue(Field(observed.value, "repositories"));
         IdentitiesComplete(integer, catalogue, live, catalogue.Keys)
    ensures identity.Some? ==>
      var catalogue, live :=
        ObjectValue(Field(desired, "repositories")), ObjectValue(Field(observed.value, "repositories"));
      identity.value == Identity(
        integer(Field(ObjectValue(Field(observed.value, "organization")), "id")),
        map k | k in catalogue :: IdentityOf(integer, catalogue[k], live))
  {
    hide IdentityOf, IdentitiesComplete;
    if !coreComplete || observed.None? {
      return None;
    }
    var organization := integer(Field(ObjectValue(Field(observed.value, "organization")), "id"));
    var ids := CollectIdentities(integer, organization,
      ObjectValue(Field(desired, "repositories")), ObjectValue(Field(observed.value, "repositories")));
    return if ids.Some? then Some(Identity(organization, ids.value)) else None;
  }
}
