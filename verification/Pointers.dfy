/** JSON Pointer paths (sections 3 and 4 of RFC 6901) as the walkers build them and the look-ups
    take them apart. */
module Pointers {
  import opened Collections
  import opened Text

  /** One step into a value: an object key or a list position. */
  datatype Segment = Key(name: string) | Index(i: nat)

  type Path = seq<Segment>

  /** `escapePointer` and `escapeEvidencePointer`: the tilde first, then the slash. */
  function EscapePointer(s: string): string {
    ReplaceAll(ReplaceAll(s, "~", "~0"), "/", "~1")
  }

  /** The look-ups undo the escapes in the opposite order. */
  function UnescapePointer(s: string): string {
    ReplaceAll(ReplaceAll(s, "~1", "/"), "~0", "~")
  }

  function Token(seg: Segment): string {
    match seg
    case Key(name) => EscapePointer(name)
    case Index(i) => Itoa(i)
  }

  /** What a look-up reads back from a token. */
  function Name(seg: Segment): string {
    match seg
    case Key(name) => name
    case Index(i) => Itoa(i)
  }

  function Names(p: Path): (r: seq<string>)
    ensures |r| == |p|
    ensures forall i :: 0 <= i < |p| ==> r[i] == Name(p[i])
  {
    seq(|p|, i requires 0 <= i < |p| => Name(p[i]))
  }

  function Tokens(p: Path): (r: seq<string>)
    ensures |r| == |p|
    ensures forall i :: 0 <= i < |p| ==> r[i] == Token(p[i])
  {
    seq(|p|, i requires 0 <= i < |p| => Token(p[i]))
  }

  function JoinTokens(tokens: seq<string>): string {
    if tokens == [] then [] else "/" + (tokens[0] + JoinTokens(tokens[1..]))
  }

  /** The text a walker accumulates on its way down: a slash before every token. */
  function EncodePath(p: Path): string {
    JoinTokens(Tokens(p))
  }

  /** `displayFieldPath` and `pointerOrRoot`: the root is shown as a slash. */
  function DisplayPath(path: string): string {
    if path == [] then "/" else path
  }

  function TrimSlash(path: string): string {
    if path != [] && path[0] == '/' then path[1..] else path
  }

  function RawSegments(path: string): (r: seq<string>)
    ensures r != []
  {
    Split(TrimSlash(path), '/')
  }

  /** The segments a look-up follows, unescaped. */
  function PathNames(path: string): (r: seq<string>)
    ensures r != [] && |r| == |RawSegments(path)|
  {
    UnescapeAll(RawSegments(path))
  }

  function UnescapeAll(raw: seq<string>): (r: seq<string>)
    ensures |r| == |raw|
    ensures forall i :: 0 <= i < |raw| ==> r[i] == UnescapePointer(raw[i])
  {
    seq(|raw|, i requires 0 <= i < |raw| => UnescapePointer(raw[i]))
  }

  // ----- Escapes

  function EscapedChar(c: char): string {
    if c == '~' then "~0" else if c == '/' then "~1" else [c]
  }

  lemma ReplaceSkip(c: char, t: string, old_: string, new_: string)
    requires old_ != [] && (old_[0] != c || (|old_| > 1 && t != [] && old_[1] != t[0]))
    ensures ReplaceAll([c] + t, old_, new_) == [c] + ReplaceAll(t, old_, new_)
  {
    var s := [c] + t;
    assert s[0] == c && s[1..] == t;
    assert t != [] ==> s[1] == t[0];
    assert !(old_ <= s);
  }

  lemma ReplaceMatch(t: string, old_: string, new_: string)
    requires old_ != []
    ensures ReplaceAll(old_ + t, old_, new_) == new_ + ReplaceAll(t, old_, new_)
  {
    assert (old_ + t)[|old_|..] == t;
  }

  lemma EscapeStep(c: char, t: string)
    ensures EscapePointer([c] + t) == EscapedChar(c) + EscapePointer(t)
  {
    var u := ReplaceAll(t, "~", "~0");
    if c == '~' {
      ReplaceMatch(t, "~", "~0");
      assert "~0" + u == ['~'] + (['0'] + u);
      ReplaceSkip('~', ['0'] + u, "/", "~1");
      ReplaceSkip('0', u, "/", "~1");
    } else {
      ReplaceSkip(c, t, "~", "~0");
      if c == '/' {
        ReplaceMatch(u, "/", "~1");
      } else {
        ReplaceSkip(c, u, "/", "~1");
      }
    }
  }

  lemma UnescapeStep(c: char, y: string)
    ensures UnescapePointer(EscapedChar(c) + y) == [c] + UnescapePointer(y)
  {
    var u := ReplaceAll(y, "~1", "/");
    if c == '~' {
      assert "~0" + y == ['~'] + (['0'] + y);
      ReplaceSkip('~', ['0'] + y, "~1", "/");
      ReplaceSkip('0', y, "~1", "/");
      assert ['~'] + (['0'] + u) == "~0" + u;
      ReplaceMatch(u, "~0", "~");
    } else if c == '/' {
      ReplaceMatch(y, "~1", "/");
      ReplaceSkip('/', u, "~0", "~");
    } else {
      ReplaceSkip(c, y, "~1", "/");
      ReplaceSkip(c, u, "~0", "~");
    }
  }

  /** Unescaping undoes escaping, for every key. */
  lemma {:induction false} UnescapeUndoesEscape(s: string)
    ensures UnescapePointer(EscapePointer(s)) == s
  {
    if s != [] {
      assert s == [s[0]] + s[1..];
      EscapeStep(s[0], s[1..]);
      UnescapeStep(s[0], EscapePointer(s[1..]));
      UnescapeUndoesEscape(s[1..]);
    }
  }

  lemma {:induction false} EscapeHidesSlashes(s: string)
    ensures '/' !in EscapePointer(s)
  {
    if s != [] {
      assert s == [s[0]] + s[1..];
      EscapeStep(s[0], s[1..]);
      EscapeHidesSlashes(s[1..]);
    }
  }

  lemma {:induction false} ReplaceAbsent(s: string, old_: string, new_: string)
    requires old_ != [] && old_[0] !in s
    ensures ReplaceAll(s, old_, new_) == s
  {
    if s != [] {
      assert s == [s[0]] + s[1..];
      ReplaceAbsent(s[1..], old_, new_);
    }
  }

  lemma UnescapeToken(seg: Segment)
    ensures UnescapePointer(Token(seg)) == Name(seg)
    ensures '/' !in Token(seg)
  {
    match seg
    case Key(name) =>
      UnescapeUndoesEscape(name);
      EscapeHidesSlashes(name);
    case Index(i) =>
      ReplaceAbsent(Itoa(i), "~1", "/");
      ReplaceAbsent(Itoa(i), "~0", "~");
  }

  // ----- Paths

  /** The raw segments of joined tokens are the tokens. */
  lemma {:induction false} JoinedTokensSplit(tokens: seq<string>)
    requires tokens != [] && forall i :: 0 <= i < |tokens| ==> '/' !in tokens[i]
    ensures JoinTokens(tokens) != [] && JoinTokens(tokens)[0] == '/'
    ensures RawSegments(JoinTokens(tokens)) == tokens
  {
    var rest := tokens[0] + JoinTokens(tokens[1..]);
    assert ("/" + rest)[1..] == rest;
    assert tokens == [tokens[0]] + tokens[1..];
    if |tokens| == 1 {
      assert rest == tokens[0];
      SplitWithoutSeparator(tokens[0], '/');
    } else {
      var tail := JoinTokens(tokens[1..]);
      JoinedTokensSplit(tokens[1..]);
      assert tail == ['/'] + tail[1..];
      Associate(tokens[0], ['/'], tail[1..]);
      SplitAtSeparator(tokens[0], tail[1..], '/');
    }
  }

  /** A look-up reads back exactly the names the walker encoded. */
  lemma EncodePathSplits(p: Path)
    requires p != []
    ensures EncodePath(p) != [] && EncodePath(p)[0] == '/'
    ensures PathNames(EncodePath(p)) == Names(p)
  {
    forall i | 0 <= i < |p| ensures UnescapePointer(Token(p[i])) == Name(p[i]) && '/' !in Token(p[i]) {
      UnescapeToken(p[i]);
    }
    JoinedTokensSplit(Tokens(p));
  }

  lemma {:induction false} JoinTokensConcat(s: seq<string>, t: seq<string>)
    ensures JoinTokens(s + t) == JoinTokens(s) + JoinTokens(t)
  {
    if s == [] {
      assert s + t == t;
    } else {
      JoinTokensConcat(s[1..], t);
      assert (s + t)[1..] == s[1..] + t;
      Rotate("/", s[0], JoinTokens(s[1..]), JoinTokens(t));
    }
  }

  lemma EncodePathConcat(p: Path, q: Path)
    ensures EncodePath(p + q) == EncodePath(p) + EncodePath(q)
  {
    assert Tokens(p + q) == Tokens(p) + Tokens(q);
    JoinTokensConcat(Tokens(p), Tokens(q));
  }

  /** What a walker passes down for one more step. */
  lemma EncodeChild(p: Path, seg: Segment)
    ensures EncodePath(p + [seg]) == EncodePath(p) + "/" + Token(seg)
  {
    EncodePathConcat(p, [seg]);
    assert Tokens([seg]) == [Token(seg)];
    assert JoinTokens([Token(seg)]) == "/" + (Token(seg) + JoinTokens([]));
    Associate(EncodePath(p), "/", Token(seg));
  }

  lemma Rotate(a: string, b: string, c: string, d: string)
    ensures (a + (b + c)) + d == a + (b + (c + d))
  {
  }

  /** Path text determines the names along the path. */
  lemma EncodingDeterminesNames(p: Path, q: Path)
    requires EncodePath(p) == EncodePath(q)
    ensures Names(p) == Names(q)
  {
    if p != [] { EncodePathSplits(p); }
    if q != [] { EncodePathSplits(q); }
  }

  /** Shown paths coincide only for the root and a lone empty key. */
  lemma DisplayDeterminesNames(p: Path, q: Path)
    requires DisplayPath(EncodePath(p)) == DisplayPath(EncodePath(q))
    ensures Names(p) == Names(q) || (p == [] && Names(q) == [""]) || (q == [] && Names(p) == [""])
  {
    if p != [] { EncodePathSplits(p); }
    if q != [] { EncodePathSplits(q); }
    if p == [] && q != [] {
      assert PathNames("/") == Names(q);
      assert RawSegments("/") == [""] && UnescapePointer("") == "";
    } else if q == [] && p != [] {
      assert PathNames("/") == Names(p);
      assert RawSegments("/") == [""] && UnescapePointer("") == "";
    } else if p != [] {
      EncodingDeterminesNames(p, q);
    }
  }
}
