/** The canonical encoding of `rendering.CanonicalJSON`: keys sorted, two-space indent, no HTML
    escaping, a final newline. The encoding is injective, so comparing canonical text is comparing
    values, and sorting by it has one result. */
module Canonical {
  import opened Wrappers
  import opened Text
  import opened Ordering
  import opened Values

  function HexDigit(d: int): char
    requires 0 <= d < 16
  {
    if d < 10 then '0' + d as char else 'a' + (d - 10) as char
  }

  /** String escapes: the short forms, four hex digits for other control characters, and the two
      Unicode line separators. */
  function EscapeChar(c: char): (r: string)
    ensures r != [] && r[0] != '\"'
  {
    if c == '\"' then ['\\', '\"']
    else if c == '\\' then ['\\', '\\']
    else if c == '\U{8}' then ['\\', 'b']
    else if c == '\U{C}' then ['\\', 'f']
    else if c == '\n' then ['\\', 'n']
    else if c == '\r' then ['\\', 'r']
    else if c == '\t' then ['\\', 't']
    else if c < ' ' then ['\\', 'u', '0', '0', HexDigit(c as int / 16), HexDigit(c as int % 16)]
    else if c == '\U{2028}' then ['\\', 'u', '2', '0', '2', '8']
    else if c == '\U{2029}' then ['\\', 'u', '2', '0', '2', '9']
    else [c]
  }

  function EscapeString(s: string): string {
    if s == [] then [] else EscapeChar(s[0]) + EscapeString(s[1..])
  }

  function Quote(s: string): string {
    ['\"'] + EscapeString(s) + ['\"']
  }

  function Spaces(n: nat): string {
    if n == 0 then [] else [' '] + Spaces(n - 1)
  }

  function NewLine(depth: nat): string {
    ['\n'] + Spaces(2 * depth)
  }

  function Print(v: Json, depth: nat): string
    decreases v, 1, 0
  {
    match v
    case Null => "null"
    case Bool(b) => if b then "true" else "false"
    case Num(text) => text
    case Str(s) => Quote(s)
    case Arr(items) => if items == [] then "[]" else ['['] + PrintItems(items, depth + 1)
    case Obj(fields) =>
      if fields == map[] then "{}" else ['{'] + PrintFields(v, SortedKeys(fields.Keys), depth + 1)
  }

  /** The elements of a list, each on its own line, and the closing bracket. */
  function PrintItems(items: seq<Json>, depth: nat): string
    requires depth > 0
    decreases items, 0, 0
  {
    if items == [] then NewLine(depth - 1) + [']']
    else
      NewLine(depth) + Print(items[0], depth) +
      (if |items| == 1 then [] else [',']) + PrintItems(items[1..], depth)
  }

  /** The fields of an object under the given keys, and the closing brace. */
  function PrintFields(v: Json, keys: seq<string>, depth: nat): string
    requires v.Obj? && forall k :: k in keys ==> k in v.fields
    requires depth > 0
    decreases v, 0, |keys|
  {
    if keys == [] then NewLine(depth - 1) + ['}']
    else
      NewLine(depth) + Quote(keys[0]) + [':', ' '] + Print(v.fields[keys[0]], depth) +
      (if |keys| == 1 then [] else [',']) + PrintFields(v, keys[1..], depth)
  }

  function CanonicalText(v: Json): string {
    Print(v, 0) + ['\n']
  }

  // ----- Injectivity

  /** What can follow a value inside an encoding. */
  predicate Delimits(x: string) {
    x != [] && (x[0] == ',' || x[0] == '\n')
  }

  /** Cancels a common head. */
  lemma Cancel(head: string, x: string, y: string)
    requires head + x == head + y
    ensures x == y
  {
    assert x == (head + x)[|head|..];
    assert y == (head + y)[|head|..];
  }

  lemma EscapeCharIsPrefixFree(c: char, d: char, x: string, y: string)
    requires EscapeChar(c) + x == EscapeChar(d) + y
    ensures c == d && x == y
  {
    var l, r := EscapeChar(c) + x, EscapeChar(d) + y;
    assert l[0] == EscapeChar(c)[0] && r[0] == EscapeChar(d)[0];
    if |EscapeChar(c)| > 1 || |EscapeChar(d)| > 1 {
      assert c == d by {
        assert l[0] == '\\';
        assert l[1] == EscapeChar(c)[1] && r[1] == EscapeChar(d)[1];
        if EscapeChar(c)[1] == 'u' {
          assert l[2] == EscapeChar(c)[2] && r[2] == EscapeChar(d)[2];
          assert l[4] == EscapeChar(c)[4] && r[4] == EscapeChar(d)[4];
          assert l[5] == EscapeChar(c)[5] && r[5] == EscapeChar(d)[5];
        }
      }
    }
    Cancel(EscapeChar(c), x, y);
  }

  /** The text from inside a string literal on. */
  function Quoted(s: string, x: string): (r: string)
    ensures r != [] && (r[0] == '\"' <==> s == [])
  {
    if s == [] then ['\"'] + x else EscapeChar(s[0]) + Quoted(s[1..], x)
  }

  lemma Regroup(a: string, b: string, c: string, x: string)
    ensures a + b + c + x == a + (b + (c + x))
  {
  }

  lemma {:induction false} EscapedIsQuoted(s: string, x: string)
    ensures EscapeString(s) + (['\"'] + x) == Quoted(s, x)
  {
    if s == [] {
      assert [] + (['\"'] + x) == ['\"'] + x;
    } else {
      EscapedIsQuoted(s[1..], x);
      Regroup([], EscapeChar(s[0]), EscapeString(s[1..]), ['\"'] + x);
    }
  }

  lemma QuotedIsQuote(s: string, x: string)
    ensures Quote(s) + x == ['\"'] + Quoted(s, x)
  {
    EscapedIsQuoted(s, x);
    Regroup(['\"'], EscapeString(s), ['\"'], x);
  }

  lemma {:induction false} QuotedIsPrefixFree(s: string, t: string, x: string, y: string)
    requires Quoted(s, x) == Quoted(t, y)
    ensures s == t && x == y
  {
    if s == [] {
      Cancel(['\"'], x, y);
    } else {
      EscapeCharIsPrefixFree(s[0], t[0], Quoted(s[1..], x), Quoted(t[1..], y));
      QuotedIsPrefixFree(s[1..], t[1..], x, y);
      assert s == [s[0]] + s[1..] && t == [t[0]] + t[1..];
    }
  }

  lemma QuotesArePrefixFree(s: string, t: string, x: string, y: string)
    requires Quote(s) + x == Quote(t) + y
    ensures s == t && x == y
  {
    QuotedIsQuote(s, x);
    QuotedIsQuote(t, y);
    Cancel(['\"'], Quoted(s, x), Quoted(t, y));
    QuotedIsPrefixFree(s, t, x, y);
  }

  lemma NumberEndsAtDelimiter(u: NumberText, w: NumberText, x: string, y: string)
    requires Delimits(x)
    requires u + x == w + y
    ensures |w| <= |u|
  {
    forall i | 0 <= i < |w| ensures IsNumberChar((u + x)[i]) {
      assert (w + y)[i] == w[i] && w[i] in w;
    }
    assert (u + x)[|u|] == x[0];
  }

  lemma NumberIsPrefixFree(u: NumberText, w: NumberText, x: string, y: string)
    requires Delimits(x) && Delimits(y)
    requires u + x == w + y
    ensures u == w && x == y
  {
    NumberEndsAtDelimiter(u, w, x, y);
    NumberEndsAtDelimiter(w, u, y, x);
    assert u == (u + x)[..|u|] && w == (w + y)[..|w|];
    Cancel(u, x, y);
  }

  /** The first character of a value's text tells its kind. */
  function Lead(v: Json): char {
    match v
    case Null => 'n'
    case Bool(b) => if b then 't' else 'f'
    case Num(text) => text[0]
    case Str(_) => '\"'
    case Arr(_) => '['
    case Obj(_) => '{'
  }

  lemma PrintLead(v: Json, depth: nat, x: string)
    ensures Print(v, depth) != [] && (Print(v, depth) + x)[0] == Lead(v)
  {
  }

  lemma {:induction false} PrintIsPrefixFree(a: Json, b: Json, depth: nat, x: string, y: string)
    requires Delimits(x) && Delimits(y)
    requires Print(a, depth) + x == Print(b, depth) + y
    ensures a == b && x == y
    decreases a, 1, 0
  {
    PrintLead(a, depth, x);
    PrintLead(b, depth, y);
    match a
    case Null => Cancel("null", x, y);
    case Bool(v) => Cancel(Print(a, depth), x, y);
    case Num(u) => NumberIsPrefixFree(u, b.text, x, y);
    case Str(s) =>
      QuotesArePrefixFree(s, b.s, x, y);
    case Arr(items) => ListIsPrefixFree(items, b.items, depth, x, y);
    case Obj(fields) => ObjectIsPrefixFree(a, b, depth, x, y);
  }

  lemma {:induction false} ListIsPrefixFree(xs: seq<Json>, ys: seq<Json>, depth: nat, x: string, y: string)
    requires Delimits(x) && Delimits(y)
    requires Print(Arr(xs), depth) + x == Print(Arr(ys), depth) + y
    ensures xs == ys && x == y
    decreases xs, 1, 0
  {
    var l, r := Print(Arr(xs), depth) + x, Print(Arr(ys), depth) + y;
    assert xs != [] ==> l[1] == '\n';
    assert ys != [] ==> r[1] == '\n';
    assert l[1] == r[1];
    if xs == [] {
      Cancel("[]", x, y);
    } else {
      var u, w := PrintItems(xs, depth + 1) + x, PrintItems(ys, depth + 1) + y;
      assert l == ['['] + u && r == ['['] + w;
      Cancel(['['], u, w);
      ItemsArePrefixFree(xs, ys, depth + 1, x, y);
    }
  }

  /** The text after a list element or an object field: a comma or the closing line. */
  function Rest(more: bool, tail: string): string {
    (if more then [','] else []) + tail
  }

  lemma PrintItemsStep(xs: seq<Json>, depth: nat, x: string)
    requires depth > 0
    ensures (PrintItems(xs, depth) + x)[0] == '\n'
    ensures xs != [] ==>
      PrintItems(xs, depth) + x ==
      NewLine(depth) + (Print(xs[0], depth) + Rest(|xs| > 1, PrintItems(xs[1..], depth) + x))
  {
  }

  lemma PrintFieldsStep(v: Json, keys: seq<string>, depth: nat, x: string)
    requires v.Obj? && forall k :: k in keys ==> k in v.fields
    requires depth > 0
    ensures (PrintFields(v, keys, depth) + x)[0] == '\n'
    ensures keys != [] ==>
      PrintFields(v, keys, depth) + x ==
      NewLine(depth) + (Quote(keys[0]) + FieldTail(v, keys, depth, x))
  {
    if keys != [] {
      Reassociate(
        NewLine(depth), Quote(keys[0]), [':', ' '], Print(v.fields[keys[0]], depth),
        if |keys| == 1 then [] else [','], PrintFields(v, keys[1..], depth), x);
    }
  }

  lemma Reassociate(a: string, b: string, c: string, d: string, e: string, f: string, x: string)
    ensures a + b + c + d + e + f + x == a + (b + (c + (d + (e + (f + x)))))
  {
  }

  /** An object's text after its first quoted key. */
  function FieldTail(v: Json, keys: seq<string>, depth: nat, x: string): string
    requires v.Obj? && keys != [] && forall k :: k in keys ==> k in v.fields
    requires depth > 0
  {
    [':', ' '] + (Print(v.fields[keys[0]], depth) + Rest(|keys| > 1, PrintFields(v, keys[1..], depth) + x))
  }

  lemma RestIsPrefixFree(more: bool, more': bool, tail: string, tail': string)
    requires tail != [] && tail' != [] && tail[0] == '\n' && tail'[0] == '\n'
    requires Rest(more, tail) == Rest(more', tail')
    ensures more == more' && tail == tail'
  {
    assert Rest(more, tail)[0] == if more then ',' else '\n';
    assert Rest(more', tail')[0] == if more' then ',' else '\n';
    Cancel(if more then [','] else [], tail, tail');
  }

  lemma {:induction false} ItemsArePrefixFree(xs: seq<Json>, ys: seq<Json>, depth: nat, x: string, y: string)
    requires depth > 0 && (xs == [] <==> ys == [])
    requires PrintItems(xs, depth) + x == PrintItems(ys, depth) + y
    ensures xs == ys && x == y
    decreases xs, 0, 0
  {
    if xs == [] {
      Cancel(PrintItems([], depth), x, y);
    } else {
      var u, w := PrintItems(xs[1..], depth) + x, PrintItems(ys[1..], depth) + y;
      var l, r := Rest(|xs| > 1, u), Rest(|ys| > 1, w);
      PrintItemsStep(xs, depth, x);
      PrintItemsStep(ys, depth, y);
      Cancel(NewLine(depth), Print(xs[0], depth) + l, Print(ys[0], depth) + r);
      PrintItemsStep(xs[1..], depth, x);
      PrintItemsStep(ys[1..], depth, y);
      PrintIsPrefixFree(xs[0], ys[0], depth, l, r);
      RestIsPrefixFree(|xs| > 1, |ys| > 1, u, w);
      ItemsArePrefixFree(xs[1..], ys[1..], depth, x, y);
      assert xs == [xs[0]] + xs[1..] && ys == [ys[0]] + ys[1..];
    }
  }

  lemma PrintObjectStep(v: Json, depth: nat, x: string)
    requires v.Obj?
    ensures |Print(v, depth)| >= 2
    ensures v.fields == map[] ==> Print(v, depth) == "{}"
    ensures (Print(v, depth) + x)[1] == if v.fields == map[] then '}' else '\n'
    ensures v.fields != map[] ==>
      SortedKeys(v.fields.Keys) != [] &&
      Print(v, depth) + x == ['{'] + (PrintFields(v, SortedKeys(v.fields.Keys), depth + 1) + x)
  {
    if v.fields != map[] {
      var keys := SortedKeys(v.fields.Keys);
      assert v.fields.Keys != {};
      PrintFieldsStep(v, keys, depth + 1, []);
      var text := PrintFields(v, keys, depth + 1);
      assert text + [] == text;
      assert ['{'] + text + x == ['{'] + (text + x);
    }
  }

  lemma {:induction false} ObjectIsPrefixFree(a: Json, b: Json, depth: nat, x: string, y: string)
    requires a.Obj? && b.Obj? && Delimits(x) && Delimits(y)
    requires Print(a, depth) + x == Print(b, depth) + y
    ensures a == b && x == y
    decreases a, 0, |a.fields| + 1
  {
    hide Print, PrintFields, SortedKeys, Delimits;
    PrintObjectStep(a, depth, x);
    PrintObjectStep(b, depth, y);
    if a.fields == map[] {
      Cancel("{}", x, y);
    } else {
      var ks, ls := SortedKeys(a.fields.Keys), SortedKeys(b.fields.Keys);
      Cancel(['{'], PrintFields(a, ks, depth + 1) + x, PrintFields(b, ls, depth + 1) + y);
      assert |a.fields| == |a.fields.Keys|;
      FieldsArePrefixFree(a, b, ks, ls, depth + 1, x, y);
      assert a.fields.Keys == b.fields.Keys;
      assert a.fields == b.fields;
    }
  }

  lemma {:induction false} FieldsArePrefixFree(
    a: Json, b: Json, ks: seq<string>, ls: seq<string>, depth: nat, x: string, y: string)
    requires a.Obj? && (forall k :: k in ks ==> k in a.fields)
    requires b.Obj? && (forall k :: k in ls ==> k in b.fields)
    requires depth > 0 && (ks == [] <==> ls == [])
    requires PrintFields(a, ks, depth) + x == PrintFields(b, ls, depth) + y
    ensures ks == ls && x == y
    ensures forall k :: k in ks ==> a.fields[k] == b.fields[k]
    decreases a, 0, |ks|
  {
    if ks == [] {
      Cancel(PrintFields(a, [], depth), x, y);
    } else {
      var u, w := PrintFields(a, ks[1..], depth) + x, PrintFields(b, ls[1..], depth) + y;
      var l, r := Rest(|ks| > 1, u), Rest(|ls| > 1, w);
      PrintFieldsStep(a, ks, depth, x);
      PrintFieldsStep(b, ls, depth, y);
      var p, q := FieldTail(a, ks, depth, x), FieldTail(b, ls, depth, y);
      Cancel(NewLine(depth), Quote(ks[0]) + p, Quote(ls[0]) + q);
      QuotesArePrefixFree(ks[0], ls[0], p, q);
      Cancel([':', ' '], Print(a.fields[ks[0]], depth) + l, Print(b.fields[ls[0]], depth) + r);
      PrintFieldsStep(a, ks[1..], depth, x);
      PrintFieldsStep(b, ls[1..], depth, y);
      PrintIsPrefixFree(a.fields[ks[0]], b.fields[ls[0]], depth, l, r);
      RestIsPrefixFree(|ks| > 1, |ls| > 1, u, w);
      FieldsArePrefixFree(a, b, ks[1..], ls[1..], depth, x, y);
      assert ks == [ks[0]] + ks[1..] && ls == [ls[0]] + ls[1..];
    }
  }

  /** Equal canonical text means equal values. */
  lemma CanonicalTextIsInjective(a: Json, b: Json)
    requires CanonicalText(a) == CanonicalText(b)
    ensures a == b
  {
    PrintIsPrefixFree(a, b, 0, ['\n'], ['\n']);
  }

  // ----- What the text is

  function HexValue(c: char): (r: Option<int>)
    ensures r.Some? ==> 0 <= r.value < 16
  {
    if '0' <= c <= '9' then Some(c as int - '0' as int)
    else if 'a' <= c <= 'f' then Some(c as int - 'a' as int + 10)
    else if 'A' <= c <= 'F' then Some(c as int - 'A' as int + 10)
    else None
  }

  function HexPair(a: char, b: char): (r: Option<int>)
    ensures r.Some? ==> 0 <= r.value < 256
  {
    if HexValue(a).None? || HexValue(b).None? then None else Some(HexValue(a).value * 16 + HexValue(b).value)
  }

  /** The character of four hexadecimal digits, if there is one. */
  function HexChar(a: char, b: char, c: char, d: char): Option<char> {
    var high, low := HexPair(a, b), HexPair(c, d);
    if high.None? || low.None? || 0xD8 <= high.value < 0xE0 then None else Some((high.value * 256 + low.value) as char)
  }

  /** The character a short escape stands for. */
  function ShortEscape(c: char): Option<char> {
    if c in {'\"', '\\', '/'} then Some(c)
    else if c == 'b' then Some('\U{8}')
    else if c == 'f' then Some('\U{C}')
    else if c == 'n' then Some('\n')
    else if c == 'r' then Some('\r')
    else if c == 't' then Some('\t')
    else None
  }

  /** A reader of string contents, as section 7 of RFC 8259 has them. */
  function ReadString(s: string): Option<string> {
    if s == [] then Some([])
    else if s[0] == '\\' then
      if |s| >= 6 && s[1] == 'u' then ReadAfter(HexChar(s[2], s[3], s[4], s[5]), ReadString(s[6..]))
      else if |s| >= 2 then ReadAfter(ShortEscape(s[1]), ReadString(s[2..]))
      else None
    else if s[0] == '\"' || s[0] < ' ' then None
    else ReadAfter(Some(s[0]), ReadString(s[1..]))
  }

  function ReadAfter(c: Option<char>, rest: Option<string>): Option<string> {
    if c.None? || rest.None? then None else Some([c.value] + rest.value)
  }

  lemma ReadEscaped(c: char, rest: string)
    ensures ReadString(EscapeChar(c) + rest) == ReadAfter(Some(c), ReadString(rest))
  {
    var s := EscapeChar(c) + rest;
    if |EscapeChar(c)| == 2 {
      assert s[0] == '\\' && s[1] == EscapeChar(c)[1] && s[2..] == rest;
    } else if |EscapeChar(c)| == 6 {
      assert s[0] == '\\' && s[1] == 'u' && s[6..] == rest;
      assert s[2..6] == EscapeChar(c)[2..6];
      assert s[2] == EscapeChar(c)[2] && s[3] == EscapeChar(c)[3];
      assert s[4] == EscapeChar(c)[4] && s[5] == EscapeChar(c)[5];
      ReadHex(c);
    } else {
      assert s[0] == c && s[1..] == rest;
    }
  }

  lemma ReadHex(c: char)
    requires |EscapeChar(c)| == 6
    ensures HexChar(EscapeChar(c)[2], EscapeChar(c)[3], EscapeChar(c)[4], EscapeChar(c)[5]) == Some(c)
  {
    if c < ' ' {
      assert HexValue(HexDigit(c as int / 16)) == Some(c as int / 16);
      assert HexValue(HexDigit(c as int % 16)) == Some(c as int % 16);
    }
  }

  /** A reader gets back every string from its escaped text. */
  lemma {:induction false} ReadUndoesEscape(s: string)
    ensures ReadString(EscapeString(s)) == Some(s)
  {
    if s != [] {
      ReadUndoesEscape(s[1..]);
      ReadEscaped(s[0], EscapeString(s[1..]));
      assert s == [s[0]] + s[1..];
    }
  }

  // ----- The layout

  /** A line is a line feed and two spaces for every level. */
  lemma {:induction false} LineIsIndented(depth: nat)
    ensures |NewLine(depth)| == 1 + 2 * depth && NewLine(depth)[0] == '\n'
    ensures forall i :: 1 <= i < |NewLine(depth)| ==> NewLine(depth)[i] == ' '
  {
    SpacesAre(2 * depth);
  }

  lemma {:induction false} SpacesAre(n: nat)
    ensures |Spaces(n)| == n && forall i :: 0 <= i < n ==> Spaces(n)[i] == ' '
  {
    if n > 0 {
      SpacesAre(n - 1);
    }
  }

  /** The words, the empty containers, the quotes around a string and the final line feed. */
  lemma AtomsLayout(v: Json, depth: nat)
    ensures v == Null ==> Print(v, depth) == "null"
    ensures v == Bool(true) ==> Print(v, depth) == "true"
    ensures v == Bool(false) ==> Print(v, depth) == "false"
    ensures v.Num? ==> Print(v, depth) == v.text
    ensures v.Str? ==> Print(v, depth) == "\"" + EscapeString(v.s) + "\""
    ensures v == Arr([]) ==> Print(v, depth) == "[]"
    ensures v == Obj(map[]) ==> Print(v, depth) == "{}"
    ensures CanonicalText(v) == Print(v, 0) + "\n"
  {
  }

  /** The characters with an escape of their own; other control characters and the two separators are given by
      number, and every other character stands for itself. */
  lemma EscapesAre(c: char)
    ensures EscapeChar('\"') == "\\\"" && EscapeChar('\\') == "\\\\"
    ensures EscapeChar('\U{8}') == "\\b" && EscapeChar('\U{C}') == "\\f"
    ensures EscapeChar('\n') == "\\n" && EscapeChar('\r') == "\\r" && EscapeChar('\t') == "\\t"
    ensures EscapeChar('\U{2028}') == "\\u2028" && EscapeChar('\U{2029}') == "\\u2029"
    ensures c >= ' ' && c !in {'\"', '\\', '\U{2028}', '\U{2029}'} ==> EscapeChar(c) == [c]
    ensures c < ' ' && c !in {'\U{8}', '\U{C}', '\n', '\r', '\t'} ==>
      |EscapeChar(c)| == 6 && EscapeChar(c)[..4] == "\\u00"
  {
  }

  /** A list: brackets around its elements, each on its own line, one level deeper, with commas between. */
  lemma ListLayout(x: Json, y: Json, depth: nat)
    ensures Print(Arr([x, y]), depth) ==
      "[" + (NewLine(depth + 1) + Print(x, depth + 1) + "," +
             (NewLine(depth + 1) + Print(y, depth + 1) + (NewLine(depth) + "]")))
  {
    hide NewLine, PrintItems;
    ItemsLayout(y, [], depth + 1);
    ItemsLayout(x, [y], depth + 1);
    assert [y] + [] == [y] && [x] + [y] == [x, y];
    assert NewLine(depth + 1) + Print(y, depth + 1) + "" == NewLine(depth + 1) + Print(y, depth + 1);
  }

  lemma ItemsLayout(x: Json, rest: seq<Json>, depth: nat)
    requires depth > 0
    ensures PrintItems([], depth) == NewLine(depth - 1) + "]"
    ensures PrintItems([x] + rest, depth) ==
      NewLine(depth) + Print(x, depth) + (if rest == [] then "" else ",") + PrintItems(rest, depth)
  {
    var items := [x] + rest;
    assert items[1..] == rest;
  }

  /** An object: braces around its fields, in the order of their keys, each on its own line, one level deeper,
      with a colon and a space behind the key and commas between. */
  lemma ObjectLayout(a: string, b: string, x: Json, y: Json, depth: nat)
    requires Less(a, b)
    ensures Print(Obj(map[b := y, a := x]), depth) ==
      "{" + (NewLine(depth + 1) + Quote(a) + ": " + Print(x, depth + 1) + "," +
             (NewLine(depth + 1) + Quote(b) + ": " + Print(y, depth + 1) + (NewLine(depth) + "}")))
  {
    hide *;
    var v := Obj(map[b := y, a := x]);
    LessIsIrreflexive(a);
    TwoKeys(a, b);
    assert v.fields.Keys == {a, b} && v.fields[a] == x && v.fields[b] == y;
    ObjectOpens(v, [a, b], depth);
    FieldsLayout(v, [a, b], depth + 1);
    FieldsLayout(v, [b], depth + 1);
    assert [a, b][1..] == [b] && [b][1..] == [];
    NoSeparator(NewLine(depth + 1) + Quote(b) + ": " + Print(y, depth + 1));
  }

  lemma NoSeparator(s: string)
    ensures s + "" == s
  {
  }

  lemma ObjectOpens(v: Json, keys: seq<string>, depth: nat)
    requires v.Obj? && keys == SortedKeys(v.fields.Keys) && keys != []
    ensures Print(v, depth) == "{" + PrintFields(v, keys, depth + 1)
  {
    hide PrintFields, SortedKeys;
    assert v.fields != map[];
  }

  lemma FieldsLayout(v: Json, keys: seq<string>, depth: nat)
    requires v.Obj? && (forall k :: k in keys ==> k in v.fields) && depth > 0
    ensures PrintFields(v, [], depth) == NewLine(depth - 1) + "}"
    ensures keys != [] ==>
      PrintFields(v, keys, depth) ==
      NewLine(depth) + Quote(keys[0]) + ": " + Print(v.fields[keys[0]], depth) +
      (if |keys| == 1 then "" else ",") + PrintFields(v, keys[1..], depth)
  {
  }

  lemma TwoKeys(a: string, b: string)
    requires Less(a, b)
    ensures SortedKeys({a, b}) == [a, b]
  {
    hide Less, SortedKeys;
    assert Increasing([a, b]);
    IncreasingIsUnique(SortedKeys({a, b}), [a, b]);
  }
}
