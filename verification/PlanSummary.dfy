/** `summarizePlan`: the loops that keep writes, high-risk entries, removals and counts in step. */
module PlanSummary {
  import opened Text
  import opened Ordering
  import opened Values
  import opened Canonical
  import opened ChangeIds
  import opened Unions
  import opened PlanView
  import opened PlanChanges

  // ----- The order of the changes

  /** One string whose order is that of the pair. */
  function PairKey(a: string, b: string): string {
    if a == [] then ['0'] + b else ['1', a[0]] + PairKey(a[1..], b)
  }

  lemma {:induction false} PairKeyOrders(a: string, b: string, c: string, d: string)
    ensures Less(PairKey(a, b), PairKey(c, d)) <==> Less(a, c) || (a == c && Less(b, d))
    ensures PairKey(a, b) == PairKey(c, d) <==> a == c && b == d
    decreases |a|
  {
    var k, l := PairKey(a, b), PairKey(c, d);
    if a == [] {
      assert k[1..] == b;
      if c == [] {
        assert l[1..] == d;
      }
    } else if c != [] {
      assert k[1..][0] == a[0] && k[1..][1..] == PairKey(a[1..], b);
      assert l[1..][0] == c[0] && l[1..][1..] == PairKey(c[1..], d);
      PairKeyOrders(a[1..], b, c[1..], d);
      assert a == [a[0]] + a[1..] && c == [c[0]] + c[1..];
    }
  }

  function RawKey(raw: Json): string {
    PairKey(AddressOf(raw), CanonicalText(raw))
  }

  lemma RawKeyTellsApart(changes: multiset<Json>)
    ensures TellsApart(RawKey, changes)
  {
    hide CanonicalText, PairKey, AddressOf;
    forall x, y | x in changes && y in changes && RawKey(x) == RawKey(y) ensures x == y {
      PairKeyOrders(AddressOf(x), CanonicalText(x), AddressOf(y), CanonicalText(y));
      CanonicalTextIsInjective(x, y);
    }
  }

  function ParseAll(raws: seq<Json>): (r: seq<Resource>)
    ensures |r| == |raws| && forall i :: 0 <= i < |raws| ==> r[i] == Parse(raws[i])
  {
    seq(|raws|, i requires 0 <= i < |raws| => Parse(raws[i]))
  }

  /** `sortedResourceChanges`: by address, then by canonical text. */
  function SortedResourceChanges(changes: seq<Json>): (r: seq<Resource>)
    ensures |r| == |changes|
  {
    SortByIsSortedPermutation(RawKey, changes);
    ParseAll(SortBy(RawKey, changes))
  }

  /** The order of `resource_changes` does not matter. */
  lemma SortedResourceChangesForgetsOrder(xs: seq<Json>, ys: seq<Json>)
    requires multiset(xs) == multiset(ys)
    ensures SortedResourceChanges(xs) == SortedResourceChanges(ys)
  {
    hide SortBy, RawKey, Parse;
    RawKeyTellsApart(multiset(xs));
    SortForgetsOrder(RawKey, xs, ys);
  }

  /** Every change is summarised, and nothing else. */
  lemma SortedResourceChangesHolds(changes: seq<Json>, r: Resource)
    ensures r in SortedResourceChanges(changes) <==> exists raw :: raw in changes && r == Parse(raw)
  {
    hide SortBy, RawKey, Parse;
    var sorted := SortBy(RawKey, changes);
    SortByIsSortedPermutation(RawKey, changes);
    assert forall raw :: raw in sorted <==> raw in multiset(sorted);
    assert forall raw :: raw in changes <==> raw in multiset(changes);
    if r in SortedResourceChanges(changes) {
      var i :| 0 <= i < |sorted| && Parse(sorted[i]) == r;
      assert sorted[i] in changes;
    }
    if raw :| raw in changes && r == Parse(raw) {
      var i :| 0 <= i < |sorted| && sorted[i] == raw;
      assert ParseAll(sorted)[i] == r;
    }
  }

  // ----- What the summary records

  datatype Write = Write(
    id: string, kind: string, actions: seq<string>, changeClass: string, classes: seq<string>, fields: seq<FieldView>)

  datatype Risk = Risk(id: string, kind: string, classes: seq<string>, reasons: seq<string>)

  function WriteId(w: Write): string {
    w.id
  }

  function RiskId(r: Risk): string {
    r.id
  }

  /** `writeClass`. */
  function WriteClass(classes: seq<string>): string {
    if exists i :: 0 <= i < |classes| && classes[i] in FUNDAMENTAL then "fundamental_deny"
    else if "privilege_expansion" in classes then "privilege_expansion"
    else "routine_write"
  }

  /** A write with the reasons found for it and its position in the sorted plan. */
  datatype Rated = Rated(number: nat, write: Write, reasons: seq<string>)

  ghost function Rate(rules: Rules, r: Resource, number: nat): Rated {
    var classes := SortedKeys(Classes(rules, r));
    Rated(number, Write(ChangeId(number), r.kind, r.actions, WriteClass(classes), classes, ChangedFields(rules, r)),
      SortedKeys(Reasons(rules, r)))
  }

  /** The writes among the first n changes. */
  ghost function RatedUpTo(rules: Rules, rs: seq<Resource>, n: nat): seq<Rated>
    requires n <= |rs|
  {
    if n == 0 then []
    else RatedUpTo(rules, rs, n - 1) + (if rs[n - 1].IsWrite() then [Rate(rules, rs[n - 1], n)] else [])
  }

  ghost predicate IsRated(rules: Rules, rs: seq<Resource>, n: nat, x: Rated) {
    1 <= x.number <= n <= |rs| && rs[x.number - 1].IsWrite() && x == Rate(rules, rs[x.number - 1], x.number)
  }

  /** The rated writes are those of the first n changes, in order. */
  lemma {:induction false} RatedAreTheWrites(rules: Rules, rs: seq<Resource>, n: nat)
    requires n <= |rs|
    ensures forall x :: x in RatedUpTo(rules, rs, n) <==> IsRated(rules, rs, n, x)
    ensures forall i, j :: 0 <= i < j < |RatedUpTo(rules, rs, n)| ==>
      RatedUpTo(rules, rs, n)[i].number < RatedUpTo(rules, rs, n)[j].number
  {
    hide Rate, Resource.IsWrite;
    if n > 0 {
      RatedAreTheWrites(rules, rs, n - 1);
      var front := RatedUpTo(rules, rs, n - 1);
      assert forall i :: 0 <= i < |front| ==> front[i] in front;
      assert Rate(rules, rs[n - 1], n).number == n by { RateNumber(rules, rs[n - 1], n); }
    }
  }

  lemma RateNumber(rules: Rules, r: Resource, number: nat)
    ensures var x := Rate(rules, r, number);
      x.number == number && x.write.id == ChangeId(number) && x.write.kind == r.kind && x.write.actions == r.actions
  {
    hide SortedKeys, Classes, Reasons, ChangeId, ChangedFields;
  }

  function Writes(rated: seq<Rated>): (r: seq<Write>)
    ensures |r| == |rated| && forall i :: 0 <= i < |rated| ==> r[i] == rated[i].write
  {
    seq(|rated|, i requires 0 <= i < |rated| => rated[i].write)
  }

  function RiskOf(x: Rated): Risk {
    Risk(x.write.id, x.write.kind, x.write.classes, x.reasons)
  }

  /** One high-risk entry for every write with reasons. */
  function Risks(rated: seq<Rated>): seq<Risk> {
    if rated == [] then []
    else (if rated[0].reasons != [] then [RiskOf(rated[0])] else []) + Risks(rated[1..])
  }

  lemma {:induction false} RisksConcat(xs: seq<Rated>, ys: seq<Rated>)
    ensures Risks(xs + ys) == Risks(xs) + Risks(ys)
  {
    if xs == [] {
      assert xs + ys == ys;
    } else {
      assert (xs + ys)[0] == xs[0] && (xs + ys)[1..] == xs[1..] + ys;
      RisksConcat(xs[1..], ys);
    }
  }

  /** Identifiers of the changes among the first n that satisfy a test. */
  function IdsUpTo(test: Resource -> bool, rs: seq<Resource>, n: nat): seq<string>
    requires n <= |rs|
  {
    if n == 0 then []
    else IdsUpTo(test, rs, n - 1) + (if test(rs[n - 1]) then [ChangeId(n)] else [])
  }

  function Removes(r: Resource): bool {
    r.Removes()
  }

  function Replaces(r: Resource): bool {
    r.Action() == Replace
  }

  function ActionsOf(rs: seq<Resource>): (r: seq<Action>)
    ensures |r| == |rs| && forall i :: 0 <= i < |rs| ==> r[i] == rs[i].Action()
  {
    seq(|rs|, i requires 0 <= i < |rs| => rs[i].Action())
  }

  const ALL_ACTIONS: set<Action> := {Create, Update, Delete, Replace, Forget, Read, NoOp, Unknown}

  function CountsOf(rs: seq<Resource>): map<Action, nat> {
    map a | a in ALL_ACTIONS :: multiset(ActionsOf(rs))[a]
  }

  /** `containsSensitive`. */
  predicate ContainsSensitive(v: Json) {
    match v
    case Bool(b) => b
    case Obj(fields) => exists k :: k in fields && ContainsSensitive(fields[k])
    case Arr(items) => exists i :: 0 <= i < |items| && ContainsSensitive(items[i])
    case _ => false
  }

  predicate IsSensitive(r: Resource) {
    ContainsSensitive(Field(r.change, "after_sensitive")) || ContainsSensitive(Field(r.change, "before_sensitive"))
  }

  function SensitiveUpTo(rs: seq<Resource>, n: nat): nat
    requires n <= |rs|
  {
    if n == 0 then 0 else SensitiveUpTo(rs, n - 1) + (if IsSensitive(rs[n - 1]) then 1 else 0)
  }

  // ----- Governed deletes beside other writes

  /** Some write is a governed delete, and some other write is not. */
  ghost predicate Mixed(rules: Rules, rs: seq<Resource>) {
    (exists r :: r in rs && IsGovernedDelete(rules, r)) &&
    (exists r :: r in rs && r.IsWrite() && !IsGovernedDelete(rules, r))
  }

  const AUTHORITY_REPLACEMENT: string := "authority_replacement"
  const MIXED_REASON: string := "governed revocations must be the only writes in a retirement plan"

  function DenyWrite(w: Write): Write {
    w.(classes := SortedKeys(Elements(w.classes) + {AUTHORITY_REPLACEMENT}), changeClass := "fundamental_deny")
  }

  function Raise(r: Risk, class_: string, reason: string): Risk {
    r.(classes := SortedKeys(Elements(r.classes) + {class_}), reasons := SortedKeys(Elements(r.reasons) + {reason}))
  }

  function Denied(x: Rated): Risk {
    if x.reasons != [] then Raise(RiskOf(x), AUTHORITY_REPLACEMENT, MIXED_REASON)
    else Risk(x.write.id, x.write.kind, [AUTHORITY_REPLACEMENT], [MIXED_REASON])
  }

  function DeniedWrites(rated: seq<Rated>): (r: seq<Write>)
    ensures |r| == |rated| && forall i :: 0 <= i < |rated| ==> r[i] == DenyWrite(rated[i].write)
  {
    seq(|rated|, i requires 0 <= i < |rated| => DenyWrite(rated[i].write))
  }

  function DeniedRisks(rated: seq<Rated>): (r: seq<Risk>)
    ensures |r| == |rated| && forall i :: 0 <= i < |rated| ==> r[i] == Denied(rated[i])
  {
    seq(|rated|, i requires 0 <= i < |rated| => Denied(rated[i]))
  }

  datatype Summary = Summary(
    counts: map<Action, nat>, writes: seq<Write>, highRisk: seq<Risk>, destructive: seq<string>,
    replacements: seq<string>, sensitive: nat)

  ghost function AllRated(rules: Rules, rs: seq<Resource>): seq<Rated> {
    RatedUpTo(rules, rs, |rs|)
  }

  ghost function FinalWrites(rules: Rules, rs: seq<Resource>): seq<Write> {
    SortBy(WriteId,
      if Mixed(rules, rs) then DeniedWrites(AllRated(rules, rs)) else Writes(AllRated(rules, rs)))
  }

  ghost function FinalRisks(rules: Rules, rs: seq<Resource>): seq<Risk> {
    SortBy(RiskId,
      if Mixed(rules, rs) then DeniedRisks(AllRated(rules, rs)) else Risks(AllRated(rules, rs)))
  }

  /** The summary of the sorted changes. */
  ghost function Summarized(rules: Rules, rs: seq<Resource>): Summary {
    Summary(CountsOf(rs), FinalWrites(rules, rs), FinalRisks(rules, rs),
      SortBy(Identity, IdsUpTo(Removes, rs, |rs|)), SortBy(Identity, IdsUpTo(Replaces, rs, |rs|)),
      SensitiveUpTo(rs, |rs|))
  }
}
