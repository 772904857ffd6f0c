/** The summary as it is built: one pass over the sorted changes, then the check on governed deletes. */
module PlanLedger {
  import opened Text
  import opened Ordering
  import opened Values
  import opened ChangeIds
  import opened Unions
  import opened PlanView
  import opened PlanChanges
  import opened PlanSummary

  ghost function RatedOne(rules: Rules, r: Resource, number: nat): seq<Rated> {
    if r.IsWrite() then [Rate(rules, r, number)] else []
  }

  /** The entry of every recorded address. */
  ghost predicate Remembers(addresses: map<string, string>, rs: seq<Resource>, n: nat) {
    forall k: nat :: k < n ==> RemembersOne(addresses, rs, k)
  }

  ghost predicate RemembersOne(addresses: map<string, string>, rs: seq<Resource>, k: nat) {
    k < |rs| && ChangeId(k + 1) in addresses && addresses[ChangeId(k + 1)] == rs[k].address
  }

  /** The entry with the write's identifier raised, or a new one. */
  ghost predicate Raised(before: seq<Risk>, after: seq<Risk>, w: Write, class_: string, reason: string) {
    if exists j :: 0 <= j < |before| && before[j].id == w.id then
      exists j :: 0 <= j < |before| && before[j].id == w.id && after == before[j := Raise(before[j], class_, reason)]
    else after == before + [Risk(w.id, w.kind, [class_], [reason])]
  }

  class Ledger {
    var counts: map<Action, nat>
    var writes: seq<Write>
    var highRisk: seq<Risk>
    var destructive: seq<string>
    var replacements: seq<string>
    var sensitive: nat
    var governed: bool
    var addresses: map<string, string>

    constructor ()
      ensures counts == CountsOf([]) && writes == [] && highRisk == [] && destructive == [] && replacements == []
      ensures sensitive == 0 && !governed && addresses == map[]
    {
      counts := map[
        Create := 0, Update := 0, Delete := 0, Replace := 0, Forget := 0, Read := 0, NoOp := 0, Unknown := 0];
      writes, highRisk, destructive, replacements := [], [], [], [];
      sensitive, governed, addresses := 0, false, map[];
    }

    /** The body of the first loop, before it turns to writes. */
    method Tally(rules: Rules, r: Resource, number: nat)
      requires r.Action() in counts
      modifies `counts, `destructive, `replacements, `sensitive, `governed, `addresses
      ensures counts == old(counts)[r.Action() := old(counts)[r.Action()] + 1]
      ensures destructive == old(destructive) + (if Removes(r) then [ChangeId(number)] else [])
      ensures replacements == old(replacements) + (if Replaces(r) then [ChangeId(number)] else [])
      ensures sensitive == old(sensitive) + (if IsSensitive(r) then 1 else 0)
      ensures governed <==> old(governed) || IsGovernedDelete(rules, r)
      ensures addresses == old(addresses)[ChangeId(number) := r.address]
    {
      hide *;
      var id, action := ChangeId(number), r.Action();
      ReadAction(rules, r, number);
      addresses := addresses[id := r.address];
      counts := counts[action := counts[action] + 1];
      if action == Delete && (r.IsReduction() || IsRetirement(rules, r)) {
        governed := true;
      }
      if action == Delete || action == Replace || action == Forget {
        destructive := destructive + [id];
      }
      if action == Replace {
        replacements := replacements + [id];
      }
      if IsSensitive(r) {
        sensitive := sensitive + 1;
      }
    }

    /** The rest of the body: a write is classified, and listed as high-risk when there are reasons. */
    method Record(rules: Rules, r: Resource, number: nat)
      modifies `writes, `highRisk
      ensures writes == old(writes) + Writes(RatedOne(rules, r, number))
      ensures highRisk == old(highRisk) + Risks(RatedOne(rules, r, number))
    {
      hide *;
      var id, action := ChangeId(number), r.Action();
      ReadAction(rules, r, number);
      if action == Read || action == NoOp {
        return;
      }
      var classes, reasons := ClassifyChange(rules, r);
      var fields := ProjectFields(rules, r);
      RatedWrite(rules, r, number, classes, reasons, fields);
      writes := writes + [Write(id, r.kind, r.actions, WriteClass(classes), classes, fields)];
      if |reasons| > 0 {
        highRisk := highRisk + [Risk(id, r.kind, classes, reasons)];
      }
    }

    /** The first loop. */
    method ReadAll(rules: Rules, rs: seq<Resource>)
      requires counts == CountsOf([]) && writes == [] && highRisk == [] && destructive == [] && replacements == []
      requires sensitive == 0 && !governed && addresses == map[]
      modifies this
      ensures counts == CountsOf(rs)
      ensures writes == Writes(AllRated(rules, rs)) && highRisk == Risks(AllRated(rules, rs))
      ensures destructive == IdsUpTo(Removes, rs, |rs|) && replacements == IdsUpTo(Replaces, rs, |rs|)
      ensures sensitive == SensitiveUpTo(rs, |rs|)
      ensures governed <==> AnyGoverned(rules, rs, |rs|)
      ensures Remembers(addresses, rs, |rs|)
    {
      hide *;
      NothingRead(rules, rs);
      for i := 0 to |rs|
        invariant counts == CountsOf(rs[..i]) && counts.Keys == ALL_ACTIONS
        invariant writes == Writes(RatedUpTo(rules, rs, i)) && highRisk == Risks(RatedUpTo(rules, rs, i))
        invariant destructive == IdsUpTo(Removes, rs, i) && replacements == IdsUpTo(Replaces, rs, i)
        invariant sensitive == SensitiveUpTo(rs, i)
        invariant governed <==> AnyGoverned(rules, rs, i)
        invariant Remembers(addresses, rs, i)
      {
        ReadOneMore(rules, rs, i);
        RateOneMore(rules, rs, i);
        RememberOneMore(addresses, rs, i);
        Tally(rules, rs[i], i + 1);
        Record(rules, rs[i], i + 1);
      }
      assert rs[..|rs|] == rs;
      EverythingRead(rules, rs);
    }

    /** The second loop: whether every write is a governed delete, and there is one. */
    method AllWritesAreGoverned(rules: Rules, ghost rs: seq<Resource>) returns (all: bool)
      requires writes == Writes(AllRated(rules, rs)) && Remembers(addresses, rs, |rs|)
      ensures all <==> writes != [] && forall r :: r in rs && r.IsWrite() ==> IsGovernedDelete(rules, r)
    {
      hide *;
      ghost var rated := AllRated(rules, rs);
      NoneChecked(rules, rs, rated);
      all := |writes| > 0;
      for i := 0 to |writes|
        invariant all <==> writes != [] && AllGovernedUpTo(rules, rs, rated, i)
      {
        WriteRemembered(rules, rs, addresses, i);
        var w := writes[i];
        var address := addresses[w.id];
        if ActionClass(w.actions) != Delete || !IsGovernedDelete(rules, Resource(address, w.kind, w.actions, map[])) {
          NotAllGoverned(rules, rs, i);
          return false;
        }
      }
      AllGovernedMeans(rules, rs);
    }

    /** `addHighRiskClass`. */
    method AddHighRiskClass(w: Write, class_: string, reason: string)
      modifies `highRisk
      ensures Raised(old(highRisk), highRisk, w, class_, reason)
    {
      hide *;
      for j := 0 to |highRisk|
        invariant highRisk == old(highRisk)
        invariant forall i :: 0 <= i < j ==> highRisk[i].id != w.id
      {
        if highRisk[j].id == w.id {
          RaisedAt(highRisk, j, w, class_, reason);
          var entry := RaiseEntry(highRisk[j], class_, reason);
          highRisk := highRisk[j := entry];
          return;
        }
      }
      RaisedNew(highRisk, w, class_, reason);
      highRisk := highRisk + [Risk(w.id, w.kind, [class_], [reason])];
    }

    /** The third loop: every write of a mixed plan is denied, in place, and listed as high-risk. */
    method DenyAll(ghost rated: seq<Rated>)
      requires writes == Writes(rated) && highRisk == Risks(rated) && DistinctIds(rated)
      modifies `writes, `highRisk
      ensures writes == DeniedWrites(rated)
      ensures multiset(highRisk) == multiset(DeniedRisks(rated))
    {
      hide *;
      DeniedNone(rated);
      for i := 0 to |writes|
        invariant |writes| == |rated|
        invariant forall j :: 0 <= j < i ==> writes[j] == DenyWrite(rated[j].write)
        invariant forall j :: i <= j < |rated| ==> writes[j] == rated[j].write
        invariant PartlyDenied(rated, i, highRisk)
      {
        ghost var before := highRisk;
        var denied := DenyOne(writes[i]);
        AddHighRiskClass(denied, AUTHORITY_REPLACEMENT, MIXED_REASON);
        DenyStep(rated, i, before, highRisk, denied);
        writes := writes[i := denied];
      }
      DeniedEverything(rated, highRisk);
      assert writes == DeniedWrites(rated);
    }
  }

  ghost predicate DistinctIds(rated: seq<Rated>) {
    forall i, j :: 0 <= i < j < |rated| ==> rated[i].write.id != rated[j].write.id
  }

  /** The entries once the first n writes are denied, in whatever order. */
  ghost predicate PartlyDenied(rated: seq<Rated>, n: nat, risks: seq<Risk>) {
    n <= |rated| && multiset(risks) == multiset(DeniedRisks(rated[..n])) + multiset(Risks(rated[n..]))
  }

  lemma DeniedNone(rated: seq<Rated>)
    ensures PartlyDenied(rated, 0, Risks(rated))
  {
    hide Risks;
    assert rated[..0] == [] && rated[0..] == rated;
  }

  lemma DeniedEverything(rated: seq<Rated>, risks: seq<Risk>)
    requires PartlyDenied(rated, |rated|, risks)
    ensures multiset(risks) == multiset(DeniedRisks(rated))
  {
    hide Denied;
    assert rated[..|rated|] == rated;
    assert Risks(rated[|rated|..]) == [];
  }

  method DenyOne(w: Write) returns (denied: Write)
    ensures denied == DenyWrite(w) && denied.id == w.id && denied.kind == w.kind
  {
    hide SortedKeys;
    var classes := Union(w.classes, [AUTHORITY_REPLACEMENT]);
    OneElement(AUTHORITY_REPLACEMENT);
    denied := w.(classes := classes, changeClass := "fundamental_deny");
  }

  lemma {:induction false} RisksAreRated(xs: seq<Rated>, r: Risk)
    ensures r in Risks(xs) <==> exists i :: 0 <= i < |xs| && xs[i].reasons != [] && r == RiskOf(xs[i])
  {
    if xs != [] {
      RisksAreRated(xs[1..], r);
      if i :| 0 <= i < |xs| && xs[i].reasons != [] && r == RiskOf(xs[i]) {
        assert i > 0 ==> xs[1..][i - 1] == xs[i];
      }
    }
  }

  lemma EntryOf(rated: seq<Rated>, i: nat, risks: seq<Risk>, j: nat)
    requires DistinctIds(rated) && i < |rated| && PartlyDenied(rated, i, risks)
    requires j < |risks| && risks[j].id == rated[i].write.id
    ensures rated[i].reasons != [] && risks[j] == RiskOf(rated[i])
  {
    hide Risks;
    var front, back := rated[..i], rated[i..];
    assert risks[j] in multiset(risks);
    assert risks[j] in DeniedRisks(front) || risks[j] in Risks(back);
    DeniedIds(front, risks[j]);
    RisksAreRated(back, risks[j]);
  }

  lemma DeniedIds(rated: seq<Rated>, r: Risk)
    ensures r in DeniedRisks(rated) ==> exists m :: 0 <= m < |rated| && r.id == rated[m].write.id
  {
    hide SortedKeys;
    if r in DeniedRisks(rated) {
      var m :| 0 <= m < |rated| && DeniedRisks(rated)[m] == r;
    }
  }

  lemma DenySplit(rated: seq<Rated>, i: nat)
    requires i < |rated|
    ensures multiset(DeniedRisks(rated[..i + 1])) == multiset(DeniedRisks(rated[..i])) + multiset{Denied(rated[i])}
    ensures rated[i].reasons != [] ==>
      multiset(Risks(rated[i..])) == multiset{RiskOf(rated[i])} + multiset(Risks(rated[i + 1..]))
    ensures rated[i].reasons == [] ==> Risks(rated[i..]) == Risks(rated[i + 1..])
  {
    hide Denied, RiskOf;
    var back := rated[i..];
    assert back[0] == rated[i] && back[1..] == rated[i + 1..];
    assert rated[..i + 1] == rated[..i] + [rated[i]];
    assert DeniedRisks(rated[..i + 1]) == DeniedRisks(rated[..i]) + [Denied(rated[i])];
  }

  lemma DenyStep(rated: seq<Rated>, i: nat, before: seq<Risk>, after: seq<Risk>, w: Write)
    requires DistinctIds(rated) && i < |rated| && PartlyDenied(rated, i, before)
    requires w.id == rated[i].write.id && w.kind == rated[i].write.kind
    requires Raised(before, after, w, AUTHORITY_REPLACEMENT, MIXED_REASON)
    ensures PartlyDenied(rated, i + 1, after)
  {
    hide Raise, Raised, DistinctIds, DeniedRisks, Risks, PartlyDenied, RiskOf, Denied;
    RaisedCases(before, after, w);
    DenySplit(rated, i);
    EntryExists(rated, i, before);
    if j :| IsRaisedAt(before, after, w, j) {
      EntryOf(rated, i, before, j);
      DeniedCases(rated[i]);
      ReplaceInMultiset(before, j, Denied(rated[i]));
      SwapDenied(rated, i, before, after);
    } else {
      if rated[i].reasons == [] {
        DeniedCases(rated[i]);
        SwapDenied(rated, i, before, after);
      }
    }
  }

  ghost predicate IsRaisedAt(before: seq<Risk>, after: seq<Risk>, w: Write, j: int) {
    0 <= j < |before| && before[j].id == w.id &&
    after == before[j := Raise(before[j], AUTHORITY_REPLACEMENT, MIXED_REASON)]
  }

  lemma RaisedCases(before: seq<Risk>, after: seq<Risk>, w: Write)
    requires Raised(before, after, w, AUTHORITY_REPLACEMENT, MIXED_REASON)
    ensures (exists j :: IsRaisedAt(before, after, w, j)) ||
      ((forall j :: 0 <= j < |before| ==> before[j].id != w.id) &&
       after == before + [Risk(w.id, w.kind, [AUTHORITY_REPLACEMENT], [MIXED_REASON])])
  {
    hide Raise;
    if j :| 0 <= j < |before| && before[j].id == w.id {
      var k :| 0 <= k < |before| && before[k].id == w.id &&
        after == before[k := Raise(before[k], AUTHORITY_REPLACEMENT, MIXED_REASON)];
      assert IsRaisedAt(before, after, w, k);
    }
  }

  lemma EntryExists(rated: seq<Rated>, i: nat, risks: seq<Risk>)
    requires i < |rated| && PartlyDenied(rated, i, risks)
    ensures rated[i].reasons != [] ==> exists j :: 0 <= j < |risks| && risks[j].id == rated[i].write.id
  {
    hide DeniedRisks, Risks;
    if rated[i].reasons != [] {
      DenySplit(rated, i);
      assert RiskOf(rated[i]) in multiset(risks);
    }
  }

  lemma DeniedCases(x: Rated)
    ensures x.reasons != [] ==> Denied(x) == Raise(RiskOf(x), AUTHORITY_REPLACEMENT, MIXED_REASON)
    ensures x.reasons == [] ==>
      Denied(x) == Risk(x.write.id, x.write.kind, [AUTHORITY_REPLACEMENT], [MIXED_REASON])
  {
    hide Raise;
  }

  lemma SwapDenied(rated: seq<Rated>, i: nat, before: seq<Risk>, after: seq<Risk>)
    requires i < |rated| && PartlyDenied(rated, i, before)
    requires if rated[i].reasons != [] then
        RiskOf(rated[i]) in before &&
        multiset(after) == multiset(before) - multiset{RiskOf(rated[i])} + multiset{Denied(rated[i])}
      else after == before + [Denied(rated[i])]
    ensures PartlyDenied(rated, i + 1, after)
  {
    hide DeniedRisks, Risks, RiskOf, Denied;
    DenySplit(rated, i);
  }

  lemma ReplaceInMultiset(xs: seq<Risk>, j: nat, r: Risk)
    requires j < |xs|
    ensures multiset(xs[j := r]) == multiset(xs) - multiset{xs[j]} + multiset{r}
  {
    var front, back := xs[..j], xs[j + 1..];
    assert xs == front + [xs[j]] + back;
    assert xs[j := r] == front + [r] + back;
  }

  ghost predicate AnyGoverned(rules: Rules, rs: seq<Resource>, n: nat) {
    exists k :: 0 <= k < n && k < |rs| && IsGovernedDelete(rules, rs[k])
  }

  lemma NothingRead(rules: Rules, rs: seq<Resource>)
    ensures rs[..0] == [] && CountsOf([]).Keys == ALL_ACTIONS
    ensures RatedUpTo(rules, rs, 0) == [] && Writes([]) == [] && Risks([]) == []
    ensures IdsUpTo(Removes, rs, 0) == [] == IdsUpTo(Replaces, rs, 0) && SensitiveUpTo(rs, 0) == 0
    ensures !AnyGoverned(rules, rs, 0) && Remembers(map[], rs, 0)
  {
  }

  lemma EverythingRead(rules: Rules, rs: seq<Resource>)
    ensures RatedUpTo(rules, rs, |rs|) == AllRated(rules, rs)
  {
  }

  lemma ReadOneMore(rules: Rules, rs: seq<Resource>, i: nat)
    requires i < |rs|
    ensures var counts, action := CountsOf(rs[..i]), rs[i].Action();
      action in counts && CountsOf(rs[..i + 1]) == counts[action := counts[action] + 1]
    ensures CountsOf(rs[..i + 1]).Keys == ALL_ACTIONS
    ensures IdsUpTo(Removes, rs, i + 1) ==
      IdsUpTo(Removes, rs, i) + (if Removes(rs[i]) then [ChangeId(i + 1)] else [])
    ensures IdsUpTo(Replaces, rs, i + 1) ==
      IdsUpTo(Replaces, rs, i) + (if Replaces(rs[i]) then [ChangeId(i + 1)] else [])
    ensures SensitiveUpTo(rs, i + 1) == SensitiveUpTo(rs, i) + (if IsSensitive(rs[i]) then 1 else 0)
    ensures AnyGoverned(rules, rs, i + 1) <==> AnyGoverned(rules, rs, i) || IsGovernedDelete(rules, rs[i])
  {
    hide *;
    CountOneMore(rs, i);
    CountsCover(rs[..i + 1]);
    IdsOneMore(Removes, rs, i);
    IdsOneMore(Replaces, rs, i);
    SensitiveOneMore(rs, i);
    GovernedOneMore(rules, rs, i);
  }

  lemma CountsCover(rs: seq<Resource>)
    ensures CountsOf(rs).Keys == ALL_ACTIONS
  {
    hide ActionClass;
  }

  lemma IdsOneMore(test: Resource -> bool, rs: seq<Resource>, i: nat)
    requires i < |rs|
    ensures IdsUpTo(test, rs, i + 1) == IdsUpTo(test, rs, i) + (if test(rs[i]) then [ChangeId(i + 1)] else [])
  {
    hide ChangeId;
  }

  lemma SensitiveOneMore(rs: seq<Resource>, i: nat)
    requires i < |rs|
    ensures SensitiveUpTo(rs, i + 1) == SensitiveUpTo(rs, i) + (if IsSensitive(rs[i]) then 1 else 0)
  {
    hide IsSensitive;
  }

  lemma GovernedOneMore(rules: Rules, rs: seq<Resource>, i: nat)
    requires i < |rs|
    ensures AnyGoverned(rules, rs, i + 1) <==> AnyGoverned(rules, rs, i) || IsGovernedDelete(rules, rs[i])
  {
    hide IsGovernedDelete;
  }

  lemma RateOneMore(rules: Rules, rs: seq<Resource>, i: nat)
    requires i < |rs|
    ensures Writes(RatedUpTo(rules, rs, i + 1)) ==
      Writes(RatedUpTo(rules, rs, i)) + Writes(RatedOne(rules, rs[i], i + 1))
    ensures Risks(RatedUpTo(rules, rs, i + 1)) ==
      Risks(RatedUpTo(rules, rs, i)) + Risks(RatedOne(rules, rs[i], i + 1))
  {
    hide ActionClass, Rate, Risks, ChangeId, Resource.IsWrite;
    RisksConcat(RatedUpTo(rules, rs, i), RatedOne(rules, rs[i], i + 1));
    assert RatedUpTo(rules, rs, i + 1) == RatedUpTo(rules, rs, i) + RatedOne(rules, rs[i], i + 1);
  }

  lemma CountOneMore(rs: seq<Resource>, i: nat)
    requires i < |rs|
    ensures var counts, action := CountsOf(rs[..i]), rs[i].Action();
      action in counts && CountsOf(rs[..i + 1]) == counts[action := counts[action] + 1]
  {
    hide ActionClass;
    var counts, action := CountsOf(rs[..i]), rs[i].Action();
    EveryAction(action);
    assert ActionsOf(rs[..i + 1]) == ActionsOf(rs[..i]) + [action];
    assert CountsOf(rs[..i + 1]) == counts[action := counts[action] + 1];
  }

  lemma EveryAction(a: Action)
    ensures a in ALL_ACTIONS
  {
  }

  lemma RememberOneMore(addresses: map<string, string>, rs: seq<Resource>, i: nat)
    requires i < |rs| && Remembers(addresses, rs, i)
    ensures Remembers(addresses[ChangeId(i + 1) := rs[i].address], rs, i + 1)
  {
    hide ChangeId;
    var grown := addresses[ChangeId(i + 1) := rs[i].address];
    forall k: nat | k < i + 1 ensures RemembersOne(grown, rs, k) {
      assert k < i ==> RemembersOne(addresses, rs, k);
      if ChangeId(k + 1) == ChangeId(i + 1) {
        ChangeIdIsInjective(k + 1, i + 1);
      }
    }
  }

  /** The change a rated write came from. */
  ghost predicate FromGoverned(rules: Rules, rs: seq<Resource>, x: Rated) {
    1 <= x.number <= |rs| && IsGovernedDelete(rules, rs[x.number - 1])
  }

  ghost predicate AllGovernedUpTo(rules: Rules, rs: seq<Resource>, rated: seq<Rated>, n: nat) {
    forall i :: 0 <= i < n && i < |rated| ==> FromGoverned(rules, rs, rated[i])
  }

  lemma NoneChecked(rules: Rules, rs: seq<Resource>, rated: seq<Rated>)
    ensures AllGovernedUpTo(rules, rs, rated, 0)
  {
  }

  lemma WriteRemembered(rules: Rules, rs: seq<Resource>, addresses: map<string, string>, i: nat)
    requires i < |AllRated(rules, rs)| && Remembers(addresses, rs, |rs|)
    ensures var rated := AllRated(rules, rs);
      var w := rated[i].write;
      && w.id in addresses
      && (FromGoverned(rules, rs, rated[i]) <==>
            ActionClass(w.actions) == Delete &&
            IsGovernedDelete(rules, Resource(addresses[w.id], w.kind, w.actions, map[])))
      && (AllGovernedUpTo(rules, rs, rated, i + 1) <==>
            AllGovernedUpTo(rules, rs, rated, i) && FromGoverned(rules, rs, rated[i]))
  {
    hide ActionClass, ToLower, ChangeId, Rate, RatedUpTo;
    var rated := AllRated(rules, rs);
    RatedAreTheWrites(rules, rs, |rs|);
    assert rated[i] in rated;
    var k := rated[i].number - 1;
    RateNumber(rules, rs[k], k + 1);
    assert RemembersOne(addresses, rs, k);
  }

  lemma NotAllGoverned(rules: Rules, rs: seq<Resource>, i: nat)
    requires i < |AllRated(rules, rs)| && !FromGoverned(rules, rs, AllRated(rules, rs)[i])
    ensures exists r :: r in rs && r.IsWrite() && !IsGovernedDelete(rules, r)
  {
    hide ActionClass, ChangeId, Rate, RatedUpTo, IsGovernedDelete, Resource.IsWrite;
    var rated := AllRated(rules, rs);
    RatedAreTheWrites(rules, rs, |rs|);
    assert rated[i] in rated;
    assert rs[rated[i].number - 1] in rs;
  }

  lemma AllGovernedMeans(rules: Rules, rs: seq<Resource>)
    ensures AllGovernedUpTo(rules, rs, AllRated(rules, rs), |AllRated(rules, rs)|) ==>
      forall r :: r in rs && r.IsWrite() ==> IsGovernedDelete(rules, r)
  {
    hide ActionClass, ChangeId, Rate, RatedUpTo, IsGovernedDelete, Resource.IsWrite;
    var rated := AllRated(rules, rs);
    RatedAreTheWrites(rules, rs, |rs|);
    if AllGovernedUpTo(rules, rs, rated, |rated|) {
      forall r | r in rs && r.IsWrite() ensures IsGovernedDelete(rules, r) {
        var k :| 0 <= k < |rs| && rs[k] == r;
        var x := Rate(rules, r, k + 1);
        RateNumber(rules, r, k + 1);
        assert IsRated(rules, rs, |rs|, x);
        var i :| 0 <= i < |rated| && rated[i] == x;
        assert FromGoverned(rules, rs, rated[i]);
      }
    }
  }

  method RaiseEntry(entry: Risk, class_: string, reason: string) returns (raised: Risk)
    ensures raised == Raise(entry, class_, reason)
  {
    hide SortedKeys;
    var classes := Union(entry.classes, [class_]);
    var reasons := Union(entry.reasons, [reason]);
    OneElement(class_);
    OneElement(reason);
    raised := entry.(classes := classes, reasons := reasons);
  }

  lemma RaisedAt(risks: seq<Risk>, j: nat, w: Write, class_: string, reason: string)
    requires j < |risks| && risks[j].id == w.id
    ensures Raised(risks, risks[j := Raise(risks[j], class_, reason)], w, class_, reason)
  {
    hide Raise;
  }

  lemma RaisedNew(risks: seq<Risk>, w: Write, class_: string, reason: string)
    requires forall i :: 0 <= i < |risks| ==> risks[i].id != w.id
    ensures Raised(risks, risks + [Risk(w.id, w.kind, [class_], [reason])], w, class_, reason)
  {
    hide Raise;
  }

  lemma ReadAction(rules: Rules, r: Resource, number: nat)
    ensures IsGovernedDelete(rules, r) <==> r.Action() == Delete && (r.IsReduction() || IsRetirement(rules, r))
    ensures Removes(r) <==> r.Action() == Delete || r.Action() == Replace || r.Action() == Forget
    ensures Replaces(r) <==> r.Action() == Replace
    ensures r.IsWrite() <==> r.Action() != Read && r.Action() != NoOp
    ensures !r.IsWrite() ==> Writes(RatedOne(rules, r, number)) == [] && Risks(RatedOne(rules, r, number)) == []
  {
    hide ActionClass, ToLower, IsRetirement, Rate;
  }

  lemma RatedWrite(
    rules: Rules, r: Resource, number: nat, classes: seq<string>, reasons: seq<string>, fields: seq<FieldView>)
    requires r.IsWrite() && fields == ChangedFields(rules, r)
    requires classes == SortedKeys(Classes(rules, r)) && reasons == SortedKeys(Reasons(rules, r))
    ensures var id := ChangeId(number);
      && Writes(RatedOne(rules, r, number)) == [Write(id, r.kind, r.actions, WriteClass(classes), classes, fields)]
      && Risks(RatedOne(rules, r, number)) == if |reasons| > 0 then [Risk(id, r.kind, classes, reasons)] else []
  {
    hide ActionClass, ToLower, SortedKeys, Classes, Reasons, ChangeId, WriteClass, ChangedFields, Resource.IsWrite;
    var one := RatedOne(rules, r, number);
    assert one[1..] == [];
    assert Risks(one[1..]) == [];
  }

  lemma OneElement(s: string)
    ensures Elements([s]) == {s}
  {
  }

  // ----- The whole summary

  lemma MixedExactly(rules: Rules, rs: seq<Resource>, all: bool)
    requires all <==>
      AllRated(rules, rs) != [] && forall r :: r in rs && r.IsWrite() ==> IsGovernedDelete(rules, r)
    ensures AnyGoverned(rules, rs, |rs|) && !all <==> Mixed(rules, rs)
  {
    hide ActionClass, Rate, RatedUpTo, Resource.IsReduction, IsRetirement;
    if k :| 0 <= k < |rs| && IsGovernedDelete(rules, rs[k]) {
      assert rs[k] in rs && rs[k].IsWrite();
      RatedAreTheWrites(rules, rs, |rs|);
      RateNumber(rules, rs[k], k + 1);
      assert IsRated(rules, rs, |rs|, Rate(rules, rs[k], k + 1));
    }
  }

  lemma RatedHaveDistinctIds(rules: Rules, rs: seq<Resource>)
    ensures DistinctIds(AllRated(rules, rs))
    ensures TellsApart(RiskId, multiset(DeniedRisks(AllRated(rules, rs))))
  {
    hide Rate, RatedUpTo, ChangeId, Resource.IsWrite;
    var rated := AllRated(rules, rs);
    RatedAreTheWrites(rules, rs, |rs|);
    forall i, j | 0 <= i < j < |rated| ensures rated[i].write.id != rated[j].write.id {
      assert rated[i] in rated && rated[j] in rated;
      RateNumber(rules, rs[rated[i].number - 1], rated[i].number);
      RateNumber(rules, rs[rated[j].number - 1], rated[j].number);
      if rated[i].write.id == rated[j].write.id {
        ChangeIdIsInjective(rated[i].number, rated[j].number);
      }
    }
    DeniedTellApart(rated);
  }

  lemma DeniedTellApart(rated: seq<Rated>)
    requires DistinctIds(rated)
    ensures TellsApart(RiskId, multiset(DeniedRisks(rated)))
  {
    hide Denied;
    var risks := DeniedRisks(rated);
    forall x, y | x in multiset(risks) && y in multiset(risks) && RiskId(x) == RiskId(y) ensures x == y {
      var i :| 0 <= i < |risks| && risks[i] == x;
      var j :| 0 <= j < |risks| && risks[j] == y;
      DeniedId(rated[i]);
      DeniedId(rated[j]);
    }
  }

  lemma DeniedId(x: Rated)
    ensures Denied(x).id == x.write.id
  {
    hide SortedKeys;
  }

  lemma FinalParts(rules: Rules, rs: seq<Resource>)
    ensures Mixed(rules, rs) ==>
      FinalWrites(rules, rs) == SortBy(WriteId, DeniedWrites(AllRated(rules, rs))) &&
      FinalRisks(rules, rs) == SortBy(RiskId, DeniedRisks(AllRated(rules, rs)))
    ensures !Mixed(rules, rs) ==>
      FinalWrites(rules, rs) == SortBy(WriteId, Writes(AllRated(rules, rs))) &&
      FinalRisks(rules, rs) == SortBy(RiskId, Risks(AllRated(rules, rs)))
    ensures Summarized(rules, rs) ==
      Summary(CountsOf(rs), FinalWrites(rules, rs), FinalRisks(rules, rs),
        SortBy(Identity, IdsUpTo(Removes, rs, |rs|)), SortBy(Identity, IdsUpTo(Replaces, rs, |rs|)),
        SensitiveUpTo(rs, |rs|))
  {
    hide SortBy, Mixed, AllRated, Risks, IdsUpTo, CountsOf, SensitiveUpTo;
  }

  /** `summarizePlan`. */
  method SummarizePlan(rules: Rules, plan: map<string, Json>) returns (summary: Summary)
    ensures summary == Summarized(rules, SortedResourceChanges(ListValue(Field(plan, "resource_changes"))))
  {
    hide *;
    var rs := SortedResourceChanges(ListValue(Field(plan, "resource_changes")));
    var ledger := new Ledger();
    ledger.ReadAll(rules, rs);
    var all := ledger.AllWritesAreGoverned(rules, rs);
    WritesEmpty(AllRated(rules, rs));
    MixedExactly(rules, rs, all);
    if ledger.governed && !all {
      RatedHaveDistinctIds(rules, rs);
      ledger.DenyAll(AllRated(rules, rs));
      SortForgetsOrder(RiskId, DeniedRisks(AllRated(rules, rs)), ledger.highRisk);
    }
    FinalParts(rules, rs);
    summary := Summary(ledger.counts, SortBy(WriteId, ledger.writes), SortBy(RiskId, ledger.highRisk),
      SortBy(Identity, ledger.destructive), SortBy(Identity, ledger.replacements), ledger.sensitive);
  }

  lemma WritesEmpty(rated: seq<Rated>)
    ensures Writes(rated) == [] <==> rated == []
  {
  }
}
