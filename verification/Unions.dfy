/** The in-place sort-and-dedupe unions: one loop, three callers that must agree. */
module Unions {
  import opened Collections
  import opened Wrappers
  import opened Text
  import opened Ordering
  import opened Values

  function Identity(s: string): string {
    s
  }

  function Elements(xs: seq<string>): (r: set<string>)
    ensures forall x :: x in r <==> x in xs
  {
    set x | x in xs
  }

  /** `sort.Strings`. */
  method SortStrings(a: array<string>)
    modifies a
    ensures a[..] == SortBy(Identity, old(a[..]))
    ensures SortedBy(Identity, a[..])
    ensures forall x :: x in a[..] <==> x in old(a[..])
  {
    hide SortBy, SortedBy;
    ghost var was := a[..];
    var sorted := SortBy(Identity, a[..]);
    SortByIsSortedPermutation(Identity, was);
    SameElements(sorted, was);
    forall i | 0 <= i < a.Length {
      a[i] := sorted[i];
    }
    assert a[..] == sorted;
  }

  lemma SameElements(xs: seq<string>, ys: seq<string>)
    requires multiset(xs) == multiset(ys)
    ensures forall x :: x in xs <==> x in ys
  {
    forall x ensures x in xs <==> x in ys {
      assert x in xs <==> x in multiset(xs);
      assert x in ys <==> x in multiset(ys);
    }
  }

  /** What the dedupe loop has kept of the sorted values it has read: each once, in order. */
  ghost predicate Kept(kept: seq<string>, read: seq<string>) {
    && Increasing(kept)
    && (forall x :: x in kept <==> x in read)
    && (kept != [] ==> read != [] && kept[|kept| - 1] == read[|read| - 1])
  }

  lemma KeptNext(kept: seq<string>, read: seq<string>, x: string)
    requires Kept(kept, read) && SortedBy(Identity, read + [x])
    ensures kept != [] && kept[|kept| - 1] == x ==> Kept(kept, read + [x])
    ensures !(kept != [] && kept[|kept| - 1] == x) ==> Kept(kept + [x], read + [x])
  {
    var all := read + [x];
    assert read != [] ==> read[0] in kept;
    if kept != [] && kept[|kept| - 1] != x {
      assert Leq(all[|read| - 1], all[|read|]);
      forall i | 0 <= i < |kept| ensures Less(kept[i], x) {
        if i < |kept| - 1 {
          LessIsTransitive(kept[i], kept[|kept| - 1], x);
        }
      }
    }
  }

  /** The loop over `values[:0]`: it writes into the array it is still reading, always behind the reader. */
  method Dedupe(a: array<string>) returns (n: nat)
    requires SortedBy(Identity, a[..])
    modifies a
    ensures n <= a.Length
    ensures Increasing(a[..n])
    ensures forall x :: x in a[..n] <==> x in old(a[..])
  {
    hide SortedBy, Kept, Increasing;
    ghost var was := a[..];
    n := 0;
    KeptNothing();
    for i := 0 to a.Length
      invariant n <= i && a[i..] == was[i..]
      invariant Kept(a[..n], was[..i])
    {
      var value := a[i];
      assert value == a[i..][0] == was[i];
      assert was[..i + 1] == was[..i] + [value];
      SortedPrefix(was, i + 1);
      KeptNext(a[..n], was[..i], value);
      if n == 0 || a[n - 1] != value {
        ghost var kept := a[..n];
        a[n] := value;
        n := n + 1;
        assert a[..n] == kept + [value];
      }
      assert a[i + 1..] == was[i + 1..];
    }
    assert was[..a.Length] == was;
    KeptMeans(a[..n], was);
  }

  lemma KeptNothing()
    ensures Kept([], [])
  {
  }

  lemma KeptMeans(kept: seq<string>, read: seq<string>)
    requires Kept(kept, read)
    ensures Increasing(kept) && forall x :: x in kept <==> x in read
  {
  }

  lemma SortedPrefix(xs: seq<string>, n: nat)
    requires SortedBy(Identity, xs) && n <= |xs|
    ensures SortedBy(Identity, xs[..n])
  {
    forall i, j | 0 <= i < j < n ensures Leq(Identity(xs[..n][i]), Identity(xs[..n][j])) {
      assert Leq(Identity(xs[i]), Identity(xs[j]));
    }
  }

  lemma IncreasingIsSortedKeys(xs: seq<string>, elements: set<string>)
    requires Increasing(xs) && forall x :: x in xs <==> x in elements
    ensures xs == SortedKeys(elements)
  {
    hide SortedKeys, Increasing;
    IncreasingIsUnique(xs, SortedKeys(elements));
  }

  /** Append, sort, dedupe: the strictly increasing sequence of everything on either side. */
  method Union(left: seq<string>, right: seq<string>) returns (unique: seq<string>)
    ensures unique == SortedKeys(Elements(left) + Elements(right))
  {
    hide SortedKeys, Increasing, SortedBy;
    var all := left + right;
    var values := new string[|all|](i requires 0 <= i < |all| => all[i]);
    assert values[..] == all;
    SortStrings(values);
    var n := Dedupe(values);
    unique := values[..n];
    IncreasingIsSortedKeys(unique, Elements(left) + Elements(right));
  }

  // ----- Lists of strings in JSON

  /** The strings of a list, anything else dropped (`stringValues`, `stringList`, `stringSlice`). */
  function StringItems(items: seq<Json>): seq<string> {
    if items == [] then []
    else StringItems(items[..|items| - 1]) + (if items[|items| - 1].Str? then [items[|items| - 1].s] else [])
  }

  function Strings(v: Json): seq<string> {
    StringItems(ListValue(v))
  }

  /** The strings of a list are kept in order, and everything else is dropped. */
  lemma {:induction false} StringsInOrder(xs: seq<Json>, x: Json, ys: seq<Json>)
    ensures StringItems([]) == []
    ensures StringItems(xs + [x] + ys) == StringItems(xs) + (if x.Str? then [x.s] else []) + StringItems(ys)
    decreases |ys|
  {
    var all := xs + [x] + ys;
    if ys == [] {
      assert all[..|all| - 1] == xs && all[|all| - 1] == x;
    } else {
      var front := ys[..|ys| - 1];
      assert all[..|all| - 1] == xs + [x] + front;
      StringsInOrder(xs, x, front);
    }
  }

  function Texts(xs: seq<string>): (r: Json)
    ensures r.Arr? && |r.items| == |xs| && forall i :: 0 <= i < |xs| ==> r.items[i] == Str(xs[i])
  {
    Arr(seq(|xs|, i requires 0 <= i < |xs| => Str(xs[i])))
  }

  lemma {:induction false} StringsOfTexts(xs: seq<string>)
    ensures Strings(Texts(xs)) == xs
    decreases |xs|
  {
    if xs != [] {
      var front := xs[..|xs| - 1];
      StringsOfTexts(front);
      assert Texts(xs).items[..|xs| - 1] == Texts(front).items;
      assert xs == front + [xs[|xs| - 1]];
    }
  }

  /** A list of strings without repeats. */
  ghost predicate IsStringSet(v: Json) {
    v.Arr? && (forall i :: 0 <= i < |v.items| ==> v.items[i].Str?) && NoRepeats(Strings(v))
  }

  method CollectStrings(items: seq<Json>) returns (texts: seq<string>, clean: bool)
    ensures clean <==> forall i :: 0 <= i < |items| ==> items[i].Str?
    ensures clean ==> texts == StringItems(items)
  {
    texts := [];
    for i := 0 to |items|
      invariant forall j :: 0 <= j < i ==> items[j].Str?
      invariant texts == StringItems(items[..i])
    {
      assert items[..i + 1][..i] == items[..i];
      if !items[i].Str? {
        return [], false;
      }
      texts := texts + [items[i].s];
    }
    assert items[..|items|] == items;
    return texts, true;
  }

  lemma NeighboursDecide(sorted: seq<string>)
    requires SortedBy(Identity, sorted)
    requires forall i :: 0 < i < |sorted| ==> sorted[i] != sorted[i - 1]
    ensures Increasing(sorted)
  {
    forall i, j | 0 <= i < j < |sorted| ensures Less(sorted[i], sorted[j]) {
      assert Leq(Identity(sorted[i]), Identity(sorted[i + 1]));
      if i + 1 < j {
        assert Leq(Identity(sorted[i + 1]), Identity(sorted[j]));
        if Less(sorted[i + 1], sorted[j]) {
          LessIsTransitive(sorted[i], sorted[i + 1], sorted[j]);
        }
      }
    }
  }

  lemma SortedRepeats(xs: seq<string>, sorted: seq<string>)
    requires sorted == SortBy(Identity, xs)
    ensures SortedBy(Identity, sorted)
    ensures NoRepeats(xs) <==> forall i :: 0 < i < |sorted| ==> sorted[i] != sorted[i - 1]
    ensures NoRepeats(xs) ==> sorted == SortedKeys(Elements(xs))
  {
    hide SortBy, SortedKeys;
    SortByIsSortedPermutation(Identity, xs);
    SameElements(xs, sorted);
    if forall i :: 0 < i < |sorted| ==> sorted[i] != sorted[i - 1] {
      NeighboursDecide(sorted);
      IncreasingIsDistinct(sorted);
      RearrangedNoRepeats(sorted, xs);
      IncreasingIsSortedKeys(sorted, Elements(xs));
    } else if NoRepeats(xs) {
      RearrangedNoRepeats(xs, sorted);
    }
  }

  /** `normalizedStringList`. */
  method NormalizedStringList(v: Json) returns (r: Option<seq<string>>)
    ensures IsStringSet(v) ==> r == Some(SortedKeys(Elements(Strings(v))))
    ensures !IsStringSet(v) ==> r == None
  {
    hide SortBy, SortedBy, SortedKeys, NoRepeats;
    if !v.Arr? {
      return None;
    }
    var texts, clean := CollectStrings(v.items);
    if !clean {
      return None;
    }
    var a := new string[|texts|](i requires 0 <= i < |texts| => texts[i]);
    assert a[..] == texts;
    SortStrings(a);
    SortedRepeats(texts, a[..]);
    var i := 1;
    while i < a.Length
      invariant 1 <= i && a[..] == SortBy(Identity, texts)
      invariant forall j :: 0 < j < i && j < a.Length ==> a[..][j] != a[..][j - 1]
    {
      if a[i] == a[i - 1] {
        assert a[..][i] == a[..][i - 1];
        return None;
      }
      i := i + 1;
    }
    return Some(a[..]);
  }

  // ----- The three projections of a custom property's allowed values

  /** The migration's legacy values for a property. */
  function Legacy(organization: map<string, Json>, property: map<string, Json>): Json {
    var migration := ObjectValue(Field(organization, "custom_property_migration"));
    Field(ObjectValue(Field(migration, "legacy_allowed_values")), StringValue(Field(property, "name")))
  }

  predicate Preserves(organization: map<string, Json>) {
    StringValue(Field(ObjectValue(Field(organization, "custom_property_migration")), "phase")) == "preserve"
  }

  const PROJECTED_KEYS: set<string> := {"name", "value_type", "required", "allowed_values", "values_editable_by"}

  /** Desired values together with legacy values. */
  function Combined(desired: Json, legacy: Json): Json {
    Texts(SortedKeys(Elements(Strings(desired)) + Elements(Strings(legacy))))
  }

  /** The migration is in its preserve phase. */
  lemma PreservesExactly(organization: map<string, Json>)
    ensures Preserves(organization) <==>
      "custom_property_migration" in organization && organization["custom_property_migration"].Obj? &&
      "phase" in organization["custom_property_migration"].fields &&
      organization["custom_property_migration"].fields["phase"] == Str("preserve")
  {
  }

  /** A value is listed for a property by its definition. */
  ghost predicate Defines(property: map<string, Json>, x: string) {
    "allowed_values" in property && property["allowed_values"].Arr? && Str(x) in property["allowed_values"].items
  }

  /** A value is listed for a property, under its name, by the migration. */
  ghost predicate Inherits(organization: map<string, Json>, property: map<string, Json>, x: string) {
    && "custom_property_migration" in organization && organization["custom_property_migration"].Obj?
    && var migration := organization["custom_property_migration"].fields;
       "legacy_allowed_values" in migration && migration["legacy_allowed_values"].Obj? &&
       var legacy := migration["legacy_allowed_values"].fields;
       exists name :: name in legacy && legacy[name].Arr? && Str(x) in legacy[name].items && IsNamed(property, name)
  }

  /** A property without a name, or with one that is no text, goes by the empty name. */
  ghost predicate IsNamed(property: map<string, Json>, name: string) {
    if "name" in property && property["name"].Str? then property["name"].s == name else name == ""
  }

  lemma {:induction false} InStringItems(items: seq<Json>, x: string)
    ensures x in StringItems(items) <==> Str(x) in items
    decreases |items|
  {
    if items != [] {
      InStringItems(items[..|items| - 1], x);
      assert items == items[..|items| - 1] + [items[|items| - 1]];
    }
  }

  /** The combined values are exactly those that the property's definition or the migration lists, each once, in
      increasing order. */
  lemma CombinedExactly(organization: map<string, Json>, property: map<string, Json>) returns (values: seq<string>)
    ensures Combined(Field(property, "allowed_values"), Legacy(organization, property)) == Texts(values)
    ensures Increasing(values)
    ensures forall x :: x in values <==> Defines(property, x) || Inherits(organization, property, x)
  {
    hide SortedKeys, StringItems, Texts;
    var allowed, legacy := Field(property, "allowed_values"), Legacy(organization, property);
    values := SortedKeys(Elements(Strings(allowed)) + Elements(Strings(legacy)));
    forall x ensures x in values <==> Defines(property, x) || Inherits(organization, property, x) {
      InStringItems(ListValue(allowed), x);
      InStringItems(ListValue(legacy), x);
      LegacyExactly(organization, property, x);
    }
  }

  lemma LegacyExactly(organization: map<string, Json>, property: map<string, Json>, x: string)
    ensures Str(x) in ListValue(Legacy(organization, property)) <==> Inherits(organization, property, x)
  {
    var name := StringValue(Field(property, "name"));
    assert forall other :: IsNamed(property, other) <==> other == name;
  }

  /** The loop body of `projectDesiredCustomProperties`. */
  method ProjectDesiredCustomProperty(organization: map<string, Json>, property: map<string, Json>)
    returns (projected: map<string, Json>)
    ensures Preserves(organization) ==>
      Field(projected, "allowed_values") == Combined(Field(property, "allowed_values"), Legacy(organization, property))
    ensures !Preserves(organization) ==> Field(projected, "allowed_values") == Field(property, "allowed_values")
    ensures forall k :: k != "allowed_values" ==>
      (k in projected <==>
         k in property && k in {"name", "value_type", "required", "allowed_values", "values_editable_by"}) &&
      (k in projected ==> projected[k] == property[k])
  {
    hide SortedKeys, Strings, Texts;
    projected := map k | k in property && k in PROJECTED_KEYS :: property[k];
    if Preserves(organization) {
      var unique := Union(Strings(Field(property, "allowed_values")), Strings(Legacy(organization, property)));
      projected := projected["allowed_values" := Texts(unique)];
    }
  }

  /** `effectiveCustomPropertyDefinition`. */
  method EffectiveCustomPropertyDefinition(organization: map<string, Json>, property: map<string, Json>)
    returns (result: map<string, Json>)
    ensures Preserves(organization) ==>
      result == property["allowed_values" :=
        Combined(Field(property, "allowed_values"), Legacy(organization, property))]
    ensures !Preserves(organization) ==> result == property
  {
    hide SortedKeys, Strings, Texts;
    result := property;
    if Preserves(organization) {
      var unique := Union(Strings(Field(property, "allowed_values")), Strings(Legacy(organization, property)));
      result := result["allowed_values" := Texts(unique)];
    }
  }

  /** `effectiveOrganizationPropertyAllowedValues`, which refuses malformed lists. */
  method EffectiveOrganizationPropertyAllowedValues(organization: map<string, Json>, property: map<string, Json>)
    returns (value: Json)
    ensures value == EvidenceAllowedValues(organization, property)
  {
    hide SortedKeys, Strings, Texts, IsStringSet;
    var values := NormalizedStringList(Field(property, "allowed_values"));
    if values.None? {
      return Field(property, "allowed_values");
    }
    if !Preserves(organization) {
      return Texts(values.value);
    }
    var legacy := Legacy(organization, property);
    var legacyValues := NormalizedStringList(legacy);
    if legacy != Null && legacyValues.None? {
      return Null;
    }
    NullHasNoStrings();
    var unique := Union(values.value, if legacyValues.Some? then legacyValues.value else []);
    SortedElements(Strings(Field(property, "allowed_values")));
    SortedElements(Strings(legacy));
    return Texts(unique);
  }

  lemma NullHasNoStrings()
    ensures Strings(Null) == [] && !IsStringSet(Null)
  {
  }

  lemma SortedElements(xs: seq<string>)
    ensures Elements(SortedKeys(Elements(xs))) == Elements(xs)
  {
    hide SortedKeys;
  }

  ghost function EvidenceAllowedValues(organization: map<string, Json>, property: map<string, Json>): Json {
    var allowed, legacy := Field(property, "allowed_values"), Legacy(organization, property);
    if !IsStringSet(allowed) then allowed
    else if !Preserves(organization) then Texts(SortedKeys(Elements(Strings(allowed))))
    else if legacy != Null && !IsStringSet(legacy) then Null
    else Combined(allowed, legacy)
  }

  lemma {:induction false} TextsAreStringSet(xs: seq<string>)
    requires Increasing(xs)
    ensures IsStringSet(Texts(xs))
  {
    StringsOfTexts(xs);
    IncreasingIsDistinct(xs);
  }

  /** In the preserve phase all three unions agree exactly when the desired values are a list of distinct
      strings, and the legacy values are one too or absent; the organization schema admits no others. The
      agreement is on the union: the drift projection is normalised afterwards, which sorts by canonical text. */
  lemma UnionsAgreeExactly(organization: map<string, Json>, property: map<string, Json>)
    requires Preserves(organization)
    ensures
      (EvidenceAllowedValues(organization, property) ==
       Combined(Field(property, "allowed_values"), Legacy(organization, property))) <==>
      (IsStringSet(Field(property, "allowed_values")) &&
       (Legacy(organization, property) == Null || IsStringSet(Legacy(organization, property))))
  {
    hide IsStringSet, SortedKeys, Strings;
    var allowed, legacy := Field(property, "allowed_values"), Legacy(organization, property);
    TextsAreStringSet(SortedKeys(Elements(Strings(allowed)) + Elements(Strings(legacy))));
  }
}
