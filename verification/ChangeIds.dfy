/** The opaque identifiers `change-000001`, `change-000002`, and so on. */
module ChangeIds {
  import opened Text

  function Zeros(n: nat): (s: string)
    ensures |s| == n && forall i :: 0 <= i < n ==> s[i] == '0'
  {
    seq(n, i => '0')
  }

  /** The verb `%06d`. */
  function SixDigits(n: nat): (s: string)
    ensures forall i :: 0 <= i < |s| ==> IsDigit(s[i])
  {
    var digits := Itoa(n);
    if |digits| < 6 then Zeros(6 - |digits|) + digits else digits
  }

  const CHANGE_PREFIX: string := "change-"

  function ChangeId(n: nat): string {
    CHANGE_PREFIX + SixDigits(n)
  }

  /** The pattern `^change-[0-9]{6}$`. */
  predicate IsChangeId(id: string) {
    |id| == 13 && id[..7] == CHANGE_PREFIX && forall i :: 7 <= i < 13 ==> IsDigit(id[i])
  }

  lemma {:induction false} LeadingZeros(n: nat, digits: string)
    requires forall i :: 0 <= i < |digits| ==> IsDigit(digits[i])
    ensures DigitsValue(Zeros(n) + digits) == DigitsValue(digits)
    decreases n + |digits|
  {
    var s := Zeros(n) + digits;
    if digits != [] {
      var front := digits[..|digits| - 1];
      assert s[..|s| - 1] == Zeros(n) + front;
      LeadingZeros(n, front);
    } else if n > 0 {
      assert s[..|s| - 1] == Zeros(n - 1) + [];
      LeadingZeros(n - 1, []);
    }
  }

  lemma SixDigitsValue(n: nat)
    ensures DigitsValue(SixDigits(n)) == n
  {
    DigitsValueOfItoa(n);
    if |Itoa(n)| < 6 {
      LeadingZeros(6 - |Itoa(n)|, Itoa(n));
    }
  }

  /** Different changes have different identifiers. */
  lemma ChangeIdIsInjective(m: nat, n: nat)
    requires ChangeId(m) == ChangeId(n)
    ensures m == n
  {
    hide SixDigits, DigitsValue;
    DropPrefix(CHANGE_PREFIX, SixDigits(m));
    DropPrefix(CHANGE_PREFIX, SixDigits(n));
    SixDigitsValue(m);
    SixDigitsValue(n);
  }

  /** An identifier is its number behind a fixed word, with zeros in front up to six digits. */
  lemma ChangeIdReads(n: nat) returns (digits: string)
    ensures ChangeId(n) == "change-" + digits && |digits| >= 6 && AllDigits(digits) && DigitsValue(digits) == n
    ensures |digits| == 6 || digits[0] != '0'
  {
    digits := SixDigits(n);
    SixDigitsValue(n);
    LeadingDigit(n);
  }

  lemma {:induction false} LeadingDigit(n: nat)
    ensures n > 0 ==> Itoa(n)[0] != '0'
  {
    if n >= 10 {
      LeadingDigit(n / 10);
    }
  }

  function Pow10(k: nat): nat {
    if k == 0 then 1 else 10 * Pow10(k - 1)
  }

  /** A number takes at most k digits exactly when it is below ten to the k. */
  lemma {:induction false} ItoaLength(n: nat, k: nat)
    requires k > 0
    ensures |Itoa(n)| <= k <==> n < Pow10(k)
    decreases k
  {
    if k == 1 {
      assert Pow10(1) == 10 by { assert Pow10(0) == 1; }
    } else if n < 10 {
      PowAtLeastTen(k);
    } else {
      ItoaLength(n / 10, k - 1);
    }
  }

  lemma {:induction false} PowAtLeastTen(k: nat)
    requires k > 0
    ensures Pow10(k) >= 10
  {
    if k == 1 {
      assert Pow10(0) == 1;
    } else {
      PowAtLeastTen(k - 1);
    }
  }

  /** The validator's pattern accepts exactly the identifiers of the first 999,999 changes. */
  lemma ChangeIdMatchesExactly(n: nat)
    ensures IsChangeId(ChangeId(n)) <==> n <= 999_999
  {
    hide Itoa;
    ItoaLength(n, 6);
    assert Pow10(6) == 1_000_000 by {
      assert Pow10(1) == 10 && Pow10(2) == 100 && Pow10(3) == 1000;
      assert Pow10(4) == 10_000 && Pow10(5) == 100_000;
    }
    var id := ChangeId(n);
    assert id[..7] == CHANGE_PREFIX && id[7..] == SixDigits(n);
    assert forall i :: 7 <= i < |id| ==> id[i] == SixDigits(n)[i - 7];
  }
}
