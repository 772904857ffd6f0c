/** Strings as the program handles them: Go's `strings` helpers over sequences of characters,
    the byte order of `sort.Strings`, and decimal print and parse. */
module Text {
  import opened Wrappers

  /** Go compares strings byte by byte; on valid UTF-8 that is the order of the code points. */
  predicate Less(a: string, b: string) {
    b != [] && (a == [] || a[0] < b[0] || (a[0] == b[0] && Less(a[1..], b[1..])))
  }

  predicate Leq(a: string, b: string) {
    a == b || Less(a, b)
  }

  lemma {:induction false} LessIsTotal(a: string, b: string)
    ensures Less(a, b) || a == b || Less(b, a)
  {
    if a != [] && b != [] && a[0] == b[0] {
      LessIsTotal(a[1..], b[1..]);
      assert a == [a[0]] + a[1..] && b == [b[0]] + b[1..];
    }
  }

  lemma {:induction false} LessIsTransitive(a: string, b: string, c: string)
    requires Less(a, b) && Less(b, c)
    ensures Less(a, c)
  {
    if a != [] && a[0] == b[0] && b[0] == c[0] {
      LessIsTransitive(a[1..], b[1..], c[1..]);
    }
  }

  lemma {:induction false} LessIsIrreflexive(a: string)
    ensures !Less(a, a)
  {
    if a != [] {
      LessIsIrreflexive(a[1..]);
    }
  }

  lemma LessIsAsymmetric(a: string, b: string)
    requires Less(a, b)
    ensures !Less(b, a)
  {
    if Less(b, a) {
      LessIsTransitive(a, b, a);
      LessIsIrreflexive(a);
    }
  }

  lemma {:induction false} LessAfterSame(head: string, a: string, b: string)
    ensures Less(head + a, head + b) <==> Less(a, b)
  {
    if head == [] {
      assert head + a == a && head + b == b;
    } else {
      assert (head + a)[1..] == head[1..] + a && (head + b)[1..] == head[1..] + b;
      LessAfterSame(head[1..], a, b);
    }
  }

  /** The order of two texts decides, whatever follows them, if what follows the lesser begins with NUL. */
  lemma {:induction false} LessBeforeNul(a: string, b: string, s: string, t: string)
    requires Less(a, b) && '\0' !in b && (s == [] || s[0] == '\0')
    ensures Less(a + s, b + t)
  {
    if a == [] {
      assert a + s == s;
    } else {
      assert (a + s)[1..] == a[1..] + s && (b + t)[1..] == b[1..] + t;
      if a[0] == b[0] {
        LessBeforeNul(a[1..], b[1..], s, t);
      }
    }
  }

  /** `strings.ReplaceAll` for a nonempty pattern: leftmost, non-overlapping. */
  function ReplaceAll(s: string, old_: string, new_: string): string
    requires old_ != []
  {
    if s == [] then []
    else if old_ <= s then new_ + ReplaceAll(s[|old_|..], old_, new_)
    else [s[0]] + ReplaceAll(s[1..], old_, new_)
  }

  /** `strings.Split` on one character: never empty, and the empty string splits into itself. */
  function Split(s: string, sep: char): (parts: seq<string>)
    ensures parts != []
    ensures forall i :: 0 <= i < |parts| ==> sep !in parts[i]
  {
    if s == [] then [[]]
    else
      var rest := Split(s[1..], sep);
      if s[0] == sep then [[]] + rest
      else [[s[0]] + rest[0]] + rest[1..]
  }

  /** `strings.Join`. */
  function Join(parts: seq<string>, sep: string): string {
    if parts == [] then []
    else if |parts| == 1 then parts[0]
    else parts[0] + sep + Join(parts[1..], sep)
  }

  lemma {:induction false} SplitAtSeparator(head: string, tail: string, sep: char)
    requires sep !in head
    ensures Split(head + [sep] + tail, sep) == [head] + Split(tail, sep)
  {
    var s := head + [sep] + tail;
    if head == [] {
      assert s[1..] == tail;
    } else {
      assert s[1..] == head[1..] + [sep] + tail;
      SplitAtSeparator(head[1..], tail, sep);
      assert head == [head[0]] + head[1..];
    }
  }

  lemma {:induction false} SplitWithoutSeparator(s: string, sep: char)
    requires sep !in s
    ensures Split(s, sep) == [s]
  {
    if s != [] {
      SplitWithoutSeparator(s[1..], sep);
      assert s == [s[0]] + s[1..];
    }
  }

  /** Splitting undoes joining whenever no part holds the separator. */
  lemma {:induction false} SplitUndoesJoin(parts: seq<string>, sep: char)
    requires parts != []
    requires forall i :: 0 <= i < |parts| ==> sep !in parts[i]
    ensures Split(Join(parts, [sep]), sep) == parts
  {
    if |parts| == 1 {
      SplitWithoutSeparator(parts[0], sep);
    } else {
      SplitUndoesJoin(parts[1..], sep);
      SplitAtSeparator(parts[0], Join(parts[1..], [sep]), sep);
      assert parts == [parts[0]] + parts[1..];
    }
  }

  /** Joining undoes splitting. */
  lemma {:induction false} JoinUndoesSplit(s: string, sep: char)
    ensures Join(Split(s, sep), [sep]) == s
  {
    if s != [] {
      var rest := Split(s[1..], sep);
      JoinUndoesSplit(s[1..], sep);
      if s[0] == sep {
        assert ([[]] + rest)[1..] == rest;
      } else {
        assert ([[s[0]] + rest[0]] + rest[1..])[1..] == rest[1..];
      }
    }
  }

  /** Joined by NUL, texts without NUL are ordered by the first part in which they differ. */
  lemma {:induction false} JoinOrders(xs: seq<string>, ys: seq<string>, i: nat)
    requires i < |xs| == |ys| && xs[..i] == ys[..i] && Less(xs[i], ys[i])
    requires forall j :: 0 <= j < |ys| ==> '\0' !in ys[j]
    ensures Less(Join(xs, "\0"), Join(ys, "\0"))
  {
    if i > 0 {
      assert xs[0] == xs[..i][0] == ys[0];
      assert xs[1..][..i - 1] == xs[..i][1..] == ys[1..][..i - 1];
      JoinOrders(xs[1..], ys[1..], i - 1);
      LessAfterSame(xs[0] + "\0", Join(xs[1..], "\0"), Join(ys[1..], "\0"));
    } else if |xs| > 1 {
      LessBeforeNul(xs[0], ys[0], "\0" + Join(xs[1..], "\0"), "\0" + Join(ys[1..], "\0"));
      assert Join(xs, "\0") == xs[0] + ("\0" + Join(xs[1..], "\0"));
      assert Join(ys, "\0") == ys[0] + ("\0" + Join(ys[1..], "\0"));
    }
  }

  /** `strings.LastIndex` for one character, -1 when absent. */
  function LastIndex(s: string, c: char): (i: int)
    ensures -1 <= i < |s|
    ensures i >= 0 ==> s[i] == c
    ensures c !in s[i + 1..]
  {
    LastIndexBefore(s, c, |s|)
  }

  function LastIndexBefore(s: string, c: char, end: nat): (i: int)
    requires end <= |s|
    requires c !in s[end..]
    ensures -1 <= i < end
    ensures i >= 0 ==> s[i] == c
    ensures c !in s[i + 1..]
  {
    if end == 0 then -1
    else if s[end - 1] == c then end - 1
    else
      assert s[end - 1..] == [s[end - 1]] + s[end..];
      LastIndexBefore(s, c, end - 1)
  }

  /** The last separator of head + separator + tail, when the tail holds none. */
  lemma LastIndexOfTail(head: string, c: char, tail: string)
    requires c !in tail
    ensures var s := head + [c] + tail;
      LastIndex(s, c) == |head| && s[..|head|] == head && s[|head| + 1..] == tail
  {
    var s := head + [c] + tail;
    var at, tailAt := LastIndex(s, c), |head| + 1;
    assert s[..|head|] == head && s[tailAt..] == tail;
    assert s[|head|] == c;
    forall k | at < k < |s| ensures s[k] != c {
      assert s[at + 1..][k - at - 1] == s[k];
    }
    forall k | tailAt <= k < |s| ensures s[k] != c {
      assert s[tailAt..][k - tailAt] == s[k];
    }
  }

  lemma DropPrefix(prefix: string, s: string)
    ensures prefix <= prefix + s && (prefix + s)[|prefix|..] == s
  {
  }

  /** Four parts joined by a separator split back into themselves. */
  lemma SplitFour(a: string, b: string, c: string, d: string, sep: char)
    requires sep !in a && sep !in b && sep !in c && sep !in d
    ensures Split(a + [sep] + (b + [sep] + (c + [sep] + d)), sep) == [a, b, c, d]
  {
    SplitAtSeparator(a, b + [sep] + (c + [sep] + d), sep);
    SplitAtSeparator(b, c + [sep] + d, sep);
    SplitAtSeparator(c, d, sep);
    SplitWithoutSeparator(d, sep);
  }

  /** `unicode.ToLower` on the letters that matter here: ASCII, and the Kelvin sign, whose lower case is k. */
  function LowerChar(c: char): char {
    if 'A' <= c <= 'Z' then c + ('a' - 'A') else if c == '\U{212A}' then 'k' else c
  }

  const UPPER_CASE: string := "ABCDEFGHIJKLMNOPQRSTUVWXYZ"
  const LOWER_CASE: string := "abcdefghijklmnopqrstuvwxyz"

  /** Letter by letter, and nothing else but the Kelvin sign. */
  lemma LowerExactly(c: char)
    ensures forall i :: 0 <= i < 26 && UPPER_CASE[i] == c ==> LowerChar(c) == LOWER_CASE[i]
    ensures c !in UPPER_CASE ==> LowerChar(c) == if c == '\U{212A}' then 'k' else c
  {
    if 'A' <= c <= 'Z' {
      assert UPPER_CASE[c as int - 'A' as int] == c;
    }
  }

  function ToLower(s: string): (r: string)
    ensures |r| == |s|
  {
    seq(|s|, i requires 0 <= i < |s| => LowerChar(s[i]))
  }

  /** Simple case folding, which also identifies the long s with s. */
  function FoldChar(c: char): char {
    if c == '\U{17F}' then 's' else LowerChar(c)
  }

  /** Two characters fold alike when they are the same, the two cases of a letter, or among the three signs that
      are a k or an s. */
  lemma FoldExactly(c: char, d: char)
    ensures FoldChar(c) == FoldChar(d) <==>
      || c == d
      || ('A' <= c <= 'Z' && d == c + ' ') || ('A' <= d <= 'Z' && c == d + ' ')
      || (c in {'k', 'K', '\U{212A}'} && d in {'k', 'K', '\U{212A}'})
      || (c in {'s', 'S', '\U{17F}'} && d in {'s', 'S', '\U{17F}'})
  {
  }

  function Fold(s: string): (r: string)
    ensures |r| == |s|
  {
    seq(|s|, i requires 0 <= i < |s| => FoldChar(s[i]))
  }

  /** `strings.EqualFold`. */
  predicate EqualFold(a: string, b: string) {
    Fold(a) == Fold(b)
  }

  /** A text with one of the given characters at each position. */
  predicate IsSpelled(s: string, choices: seq<set<char>>) {
    |s| == |choices| && forall i :: 0 <= i < |s| ==> s[i] in choices[i]
  }

  /** Equal folds are equal letters in either case. */
  lemma EqualFoldInherit(s: string)
    ensures EqualFold(s, "inherit") <==>
      IsSpelled(s, [{'i', 'I'}, {'n', 'N'}, {'h', 'H'}, {'e', 'E'}, {'r', 'R'}, {'i', 'I'}, {'t', 'T'}])
  {
    FoldSpells(s, "inherit", [{'i', 'I'}, {'n', 'N'}, {'h', 'H'}, {'e', 'E'}, {'r', 'R'}, {'i', 'I'}, {'t', 'T'}]);
  }

  /** The Kelvin sign counts as a k. */
  lemma EqualFoldUnknown(s: string)
    ensures EqualFold(s, "unknown") <==>
      IsSpelled(s,
        [{'u', 'U'}, {'n', 'N'}, {'k', 'K', '\U{212A}'}, {'n', 'N'}, {'o', 'O'}, {'w', 'W'}, {'n', 'N'}])
  {
    FoldSpells(s, "unknown",
      [{'u', 'U'}, {'n', 'N'}, {'k', 'K', '\U{212A}'}, {'n', 'N'}, {'o', 'O'}, {'w', 'W'}, {'n', 'N'}]);
  }

  lemma FoldSpells(s: string, word: string, choices: seq<set<char>>)
    requires |word| == |choices| && Fold(word) == word
    requires forall i, c :: 0 <= i < |word| ==> (FoldChar(c) == word[i] <==> c in choices[i])
    ensures EqualFold(s, word) <==> IsSpelled(s, choices)
  {
    if EqualFold(s, word) {
      forall i | 0 <= i < |s| ensures s[i] in choices[i] {
        assert Fold(s)[i] == FoldChar(s[i]) == word[i];
      }
    }
    if IsSpelled(s, choices) {
      forall i | 0 <= i < |s| ensures Fold(s)[i] == word[i] {
      }
      assert Fold(s) == word;
    }
  }

  /** `unicode.IsSpace`. */
  predicate IsSpace(c: char) {
    c in {' ', '\t', '\n', '\r', '\U{B}', '\U{C}', '\U{85}', '\U{A0}', '\U{1680}', '\U{2028}', '\U{2029}', '\U{202F}',
          '\U{205F}', '\U{3000}'} || '\U{2000}' <= c <= '\U{200A}'
  }

  /** The white space of Unicode, by code point. */
  lemma SpaceExactly(c: char)
    ensures IsSpace(c) <==>
      0x9 <= c as int <= 0xD || 0x2000 <= c as int <= 0x200A || 0x2028 <= c as int <= 0x2029 ||
      c as int in {0x20, 0x85, 0xA0, 0x1680, 0x202F, 0x205F, 0x3000}
  {
  }

  /** `strings.TrimSpace(s) == ""`. */
  predicate IsBlank(s: string) {
    forall c :: c in s ==> IsSpace(c)
  }

  predicate IsDigit(c: char) {
    '0' <= c <= '9'
  }

  function Digit(d: nat): (c: char)
    requires d < 10
    ensures IsDigit(c) && c as int - '0' as int == d
  {
    '0' + d as char
  }

  /** Decimal print of a nonnegative integer, as `strconv.Itoa` or the verb `%d`. */
  function Itoa(n: nat): (s: string)
    ensures s != [] && forall i :: 0 <= i < |s| ==> IsDigit(s[i])
  {
    if n < 10 then [Digit(n)] else Itoa(n / 10) + [Digit(n % 10)]
  }

  /** Value of a run of digits. */
  function DigitsValue(s: string): nat
    requires forall i :: 0 <= i < |s| ==> IsDigit(s[i])
  {
    if s == [] then 0
    else
      assert IsDigit(s[|s| - 1]);
      10 * DigitsValue(s[..|s| - 1]) + (s[|s| - 1] as int - '0' as int)
  }

  const INT64_LIMIT: int := 0x8000_0000_0000_0000

  predicate AllDigits(s: string) {
    s != [] && forall i :: 0 <= i < |s| ==> IsDigit(s[i])
  }

  /** `strconv.Atoi`: an optional sign, at least one digit, and a value that fits 64 bits. */
  function Atoi(s: string): Option<int> {
    if AllDigits(s) then
      (if DigitsValue(s) < INT64_LIMIT then Some(DigitsValue(s)) else None)
    else if s != [] && s[0] == '+' && AllDigits(s[1..]) then
      (if DigitsValue(s[1..]) < INT64_LIMIT then Some(DigitsValue(s[1..])) else None)
    else if s != [] && s[0] == '-' && AllDigits(s[1..]) then
      (if DigitsValue(s[1..]) <= INT64_LIMIT then (var v: int := DigitsValue(s[1..]); Some(-v)) else None)
    else None
  }

  lemma {:induction false} DigitsValueOfItoa(n: nat)
    ensures DigitsValue(Itoa(n)) == n
  {
    if n >= 10 {
      DigitsValueOfItoa(n / 10);
      var s := Itoa(n);
      assert s[..|s| - 1] == Itoa(n / 10);
    } else {
      assert Itoa(n)[..0] == [];
    }
  }

  lemma AtoiOfItoa(n: nat)
    ensures Atoi(Itoa(n)) == if n < INT64_LIMIT then Some(n) else None
  {
    DigitsValueOfItoa(n);
  }

  /** A sign in front of the digits, and the 64-bit limits on either side. */
  lemma AtoiOfSigned(digits: string)
    requires AllDigits(digits)
    ensures var v: int := DigitsValue(digits);
      && Atoi(['+'] + digits) == (if v < 0x8000_0000_0000_0000 then Some(v) else None)
      && Atoi(['-'] + digits) == (if v <= 0x8000_0000_0000_0000 then Some(-v) else None)
  {
    hide DigitsValue;
    SignIsNoDigit('+', digits);
    SignIsNoDigit('-', digits);
  }

  lemma SignIsNoDigit(sign: char, digits: string)
    requires !IsDigit(sign)
    ensures !AllDigits([sign] + digits) && ([sign] + digits)[0] == sign && ([sign] + digits)[1..] == digits
  {
    assert !IsDigit(([sign] + digits)[0]);
  }

  /** Anything that is not digits behind at most one sign is refused. */
  lemma AtoiRefuses(s: string)
    ensures Atoi(s).Some? ==> AllDigits(s) || (s != [] && s[0] in {'+', '-'} && AllDigits(s[1..]))
  {
  }

  lemma ItoaIsInjective(m: nat, n: nat)
    requires Itoa(m) == Itoa(n)
    ensures m == n
  {
    DigitsValueOfItoa(m);
    DigitsValueOfItoa(n);
  }
}
