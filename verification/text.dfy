/**
  String helpers with Python's meaning: removing whitespace (`re.sub(r'\s', '', s)`),
  splitting on a literal separator (`str.split`) or on a fixed-width pattern
  (`re.split` with a pattern such as `\s\+\s`), joining, and substring search (`in`).
 */
module Text {
  import opened Wrappers

  /** The characters `\s` matches in a Python str pattern (those `str.isspace` accepts). */
  predicate IsWhitespace(c: char) {
    var n := c as int;
    (9 <= n <= 13) || (28 <= n <= 32) || n == 0x85 || n == 0xA0 || n == 0x1680
    || (0x2000 <= n <= 0x200A) || n == 0x2028 || n == 0x2029 || n == 0x202F
    || n == 0x205F || n == 0x3000
  }

  /** `re.sub(r'\s', '', s)` */
  function StripWhitespace(s: string): (r: string)
    ensures |r| <= |s|
    ensures forall i :: 0 <= i < |r| ==> !IsWhitespace(r[i])
    ensures forall c :: !IsWhitespace(c) ==> multiset(r)[c] == multiset(s)[c]
  {
    if s == [] then []
    else
      var rest := StripWhitespace(s[1..]);
      assert s == [s[0]] + s[1..];
      if IsWhitespace(s[0]) then rest else [s[0]] + rest
  }

  /** A string without whitespace is left as it is, so stripping twice is stripping once. */
  lemma {:induction false} StripWhitespaceFixes(s: string)
    requires forall i :: 0 <= i < |s| ==> !IsWhitespace(s[i])
    ensures StripWhitespace(s) == s
  {
    if s != [] {
      StripWhitespaceFixes(s[1..]);
    }
  }

  /** Removal works character by character, so it keeps the order of what it keeps. */
  lemma {:induction false} StripWhitespaceAppend(a: string, b: string)
    ensures StripWhitespace(a + b) == StripWhitespace(a) + StripWhitespace(b)
  {
    if a == [] {
      assert a + b == b;
    } else {
      var h := if IsWhitespace(a[0]) then [] else [a[0]];
      assert a + b == [a[0]] + (a[1..] + b);
      assert a == [a[0]] + a[1..];
      StripWhitespaceCons(a[0], a[1..] + b);
      StripWhitespaceCons(a[0], a[1..]);
      StripWhitespaceAppend(a[1..], b);
      AppendAssociates(h, StripWhitespace(a[1..]), StripWhitespace(b));
    }
  }

  lemma AppendAssociates<T>(x: seq<T>, y: seq<T>, z: seq<T>)
    ensures x + (y + z) == (x + y) + z
  {
  }

  /** One leading character is dropped when it is whitespace and kept otherwise. */
  lemma StripWhitespaceCons(c: char, s: string)
    ensures StripWhitespace([c] + s) == (if IsWhitespace(c) then [] else [c]) + StripWhitespace(s)
  {
    assert ([c] + s)[1..] == s;
  }

  lemma StripWhitespaceIdempotent(s: string)
    ensures StripWhitespace(StripWhitespace(s)) == StripWhitespace(s)
  {
    StripWhitespaceFixes(StripWhitespace(s));
  }

  /** Leading and trailing whitespace removal, as a `\s*` next to a separator consumes it. */
  function TrimStart(s: string): (r: string)
    ensures |r| <= |s| && r == s[|s| - |r|..]
    ensures forall i :: 0 <= i < |s| - |r| ==> IsWhitespace(s[i])
    ensures r != [] ==> !IsWhitespace(r[0])
  {
    if s != [] && IsWhitespace(s[0]) then TrimStart(s[1..]) else s
  }

  function TrimEnd(s: string): (r: string)
    ensures |r| <= |s| && r == s[..|r|]
    ensures forall i :: |r| <= i < |s| ==> IsWhitespace(s[i])
    ensures r != [] ==> !IsWhitespace(r[|r| - 1])
  {
    if s != [] && IsWhitespace(s[|s| - 1]) then TrimEnd(s[..|s| - 1]) else s
  }

  /** One position of a fixed-width pattern: a given character, or any whitespace (`\s`). */
  datatype CharClass = Exactly(c: char) | AnySpace

  type Pattern = seq<CharClass>

  predicate ClassHas(k: CharClass, c: char) {
    match k
    case Exactly(d) => c == d
    case AnySpace => IsWhitespace(c)
  }

  predicate MatchesAt(s: string, j: nat, p: Pattern) {
    j + |p| <= |s| && forall k :: 0 <= k < |p| ==> ClassHas(p[k], s[j + k])
  }

  /** The pattern of a literal separator, as `str.split(sep)` uses it. */
  function Literal(sep: string): (p: Pattern)
    ensures |p| == |sep|
    ensures forall k :: 0 <= k < |sep| ==> p[k] == Exactly(sep[k])
  {
    seq(|sep|, k requires 0 <= k < |sep| => Exactly(sep[k]))
  }

  lemma LiteralMatchesAt(s: string, j: nat, sep: string)
    ensures MatchesAt(s, j, Literal(sep)) <==> j + |sep| <= |s| && s[j..j + |sep|] == sep
  {
    if j + |sep| <= |s| && s[j..j + |sep|] == sep {
      forall k | 0 <= k < |sep| ensures ClassHas(Literal(sep)[k], s[j + k]) {
        assert s[j..j + |sep|][k] == s[j + k];
      }
    }
    if MatchesAt(s, j, Literal(sep)) {
      assert s[j..j + |sep|] == sep by {
        forall k | 0 <= k < |sep| ensures s[j..j + |sep|][k] == sep[k] {
          assert ClassHas(Literal(sep)[k], s[j + k]);
        }
      }
    }
  }

  /** The first position at or after `j` where `p` matches. */
  function FindFrom(s: string, p: Pattern, j: nat): (r: Option<nat>)
    ensures r.Some? ==> j <= r.value && MatchesAt(s, r.value, p)
    ensures r.Some? ==> forall i: nat :: j <= i < r.value ==> !MatchesAt(s, i, p)
    ensures r.None? ==> forall i: nat :: j <= i ==> !MatchesAt(s, i, p)
    decreases |s| - j
  {
    if j + |p| > |s| then None
    else if MatchesAt(s, j, p) then Some(j)
    else FindFrom(s, p, j + 1)
  }

  function Find(s: string, p: Pattern): (r: Option<nat>)
    ensures r.Some? ==> MatchesAt(s, r.value, p) && forall i: nat :: i < r.value ==> !MatchesAt(s, i, p)
    ensures r.None? ==> forall i: nat :: !MatchesAt(s, i, p)
  {
    FindFrom(s, p, 0)
  }

  /**
    Python's `s.split(sep)` (with `p == Literal(sep)`) and `re.split(p, s)`:
    the pieces between successive non-overlapping matches, scanning from the left.
    An empty string gives `[""]`.
   */
  function Split(s: string, p: Pattern): (r: seq<string>)
    requires |p| > 0
    ensures |r| >= 1
    ensures forall k {:trigger Find(r[k], p)} :: 0 <= k < |r| ==> Find(r[k], p).None?
    decreases |s|
  {
    match Find(s, p)
    case None => [s]
    case Some(i) =>
      PrefixBeforeFirstMatch(s, p, i);
      [s[..i]] + Split(s[i + |p|..], p)
  }

  /**
    The scan rule of `str.split` and `re.split`: the first piece ends where the leftmost
    match of `s` begins, the match is dropped, and the rest is cut the same way; the last
    piece is what remains once no match is left.
   */
  predicate LeftmostCuts(s: string, p: Pattern, pieces: seq<string>)
    requires |p| > 0
    decreases |pieces|
  {
    match Find(s, p)
    case None => pieces == [s]
    case Some(i) =>
      && |pieces| > 1 && pieces[0] == s[..i]
      && LeftmostCuts(s[i + |p|..], p, pieces[1..])
  }

  /** `Split` cuts by the scan rule, and it is the only list of pieces that does. */
  lemma SplitIsLeftmost(s: string, p: Pattern, pieces: seq<string>)
    requires |p| > 0
    ensures LeftmostCuts(s, p, pieces) <==> pieces == Split(s, p)
  {
    SplitLeftmost(s, p);
    if LeftmostCuts(s, p, pieces) {
      LeftmostUnique(s, p, pieces);
    }
  }

  lemma {:induction false} SplitLeftmost(s: string, p: Pattern)
    requires |p| > 0
    ensures LeftmostCuts(s, p, Split(s, p))
    decreases |s|
  {
    match Find(s, p)
    case None =>
    case Some(i) =>
      var rest := s[i + |p|..];
      var tail := SplitUnfold(s, p, i);
      SplitLeftmost(rest, p);
      LeftmostCons(s, p, i, tail);
  }

  lemma {:induction false} LeftmostUnique(s: string, p: Pattern, pieces: seq<string>)
    requires |p| > 0 && LeftmostCuts(s, p, pieces)
    ensures pieces == Split(s, p)
    decreases |pieces|
  {
    match Find(s, p)
    case None =>
      assert Split(s, p) == [s];
    case Some(i) =>
      var rest := s[i + |p|..];
      LeftmostUnique(rest, p, pieces[1..]);
      var tail := SplitUnfold(s, p, i);
      HeadTail(pieces, s[..i], tail);
  }

  /** A leftmost cut followed by leftmost cuts of the rest is a decomposition by leftmost cuts. */
  lemma LeftmostCons(s: string, p: Pattern, i: nat, tail: seq<string>)
    requires |p| > 0 && Find(s, p) == Some(i) && i + |p| <= |s|
    requires LeftmostCuts(s[i + |p|..], p, tail)
    ensures LeftmostCuts(s, p, [s[..i]] + tail)
  {
    ConsParts(s[..i], tail);
  }

  lemma ConsParts<T>(head: T, tail: seq<T>)
    ensures ([head] + tail)[0] == head && ([head] + tail)[1..] == tail
  {
  }

  lemma HeadTail<T>(x: seq<T>, head: T, tail: seq<T>)
    requires |x| > 0 && x[0] == head && x[1..] == tail
    ensures x == [head] + tail
  {
    assert x == [x[0]] + x[1..];
  }

  /** One cut of `Split`: the text before the leftmost match, then the split of what follows it. */
  lemma SplitUnfold(s: string, p: Pattern, i: nat) returns (tail: seq<string>)
    requires |p| > 0 && Find(s, p) == Some(i)
    ensures i + |p| <= |s| && tail == Split(s[i + |p|..], p)
    ensures Split(s, p) == [s[..i]] + tail
  {
    tail := Split(s[i + |p|..], p);
    assert Split(s, p) == [s[..i]] + tail;
  }

  /**
    `s` is rebuilt from the pieces of any split by putting back the matched texts, one
    between each two pieces; this holds for patterns such as `\s\+\s` too.
   */
  function Weave(pieces: seq<string>, seps: seq<string>): string
    requires |pieces| == |seps| + 1
  {
    if seps == [] then pieces[0] else pieces[0] + seps[0] + Weave(pieces[1..], seps[1..])
  }

  lemma {:induction false} SplitWeave(s: string, p: Pattern) returns (seps: seq<string>)
    requires |p| > 0
    ensures |seps| + 1 == |Split(s, p)|
    ensures forall k :: 0 <= k < |seps| ==> |seps[k]| == |p| && MatchesAt(seps[k], 0, p)
    ensures Weave(Split(s, p), seps) == s
    decreases |s|
  {
    match Find(s, p)
    case None =>
      seps := [];
    case Some(i) =>
      var rest := s[i + |p|..];
      var tail := SplitUnfold(s, p, i);
      var more := SplitWeave(rest, p);
      var sep := MatchedText(s, p, i);
      seps := [sep] + more;
      WeaveCons(s[..i], sep, tail, more);
      ThreeParts(s, i, i + |p|);
  }

  /** The text a match covers matches the pattern on its own. */
  lemma MatchedText(s: string, p: Pattern, i: nat) returns (sep: string)
    requires MatchesAt(s, i, p)
    ensures sep == s[i..i + |p|] && |sep| == |p| && MatchesAt(sep, 0, p)
  {
    sep := s[i..i + |p|];
    forall k | 0 <= k < |p| ensures ClassHas(p[k], sep[0 + k]) {
      assert sep[k] == s[i + k];
    }
  }

  lemma WeaveCons(piece: string, sep: string, pieces: seq<string>, seps: seq<string>)
    requires |pieces| == |seps| + 1
    ensures Weave([piece] + pieces, [sep] + seps) == piece + sep + Weave(pieces, seps)
  {
    assert ([piece] + pieces)[1..] == pieces && ([sep] + seps)[1..] == seps;
  }

  lemma ThreeParts<T>(s: seq<T>, i: nat, j: nat)
    requires i <= j <= |s|
    ensures s == s[..i] + s[i..j] + s[j..]
  {
  }

  /** The text before the first match holds no match. */
  lemma PrefixBeforeFirstMatch(s: string, p: Pattern, i: nat)
    requires |p| > 0 && Find(s, p) == Some(i)
    ensures Find(s[..i], p).None?
  {
    forall j: nat ensures !MatchesAt(s[..i], j, p) {
      if MatchesAt(s[..i], j, p) {
        forall k | 0 <= k < |p| ensures ClassHas(p[k], s[j + k]) {
          assert s[..i][j + k] == s[j + k];
        }
        assert MatchesAt(s, j, p) && j < i;
      }
    }
  }

  /** `s.split(sep, maxsplit=1)`: one piece, or the text before and after the first match. */
  function SplitOnce(s: string, p: Pattern): (r: seq<string>)
    requires |p| > 0
    ensures 1 <= |r| <= 2
    ensures |r| == 1 <==> Find(s, p).None?
    ensures |r| == 1 ==> r[0] == s
    ensures |r| == 2 ==> MatchesAt(s, |r[0]|, p) && s == r[0] + s[|r[0]|..|r[0]| + |p|] + r[1]
    ensures |r| == 2 ==> forall i: nat :: !MatchesAt(r[0], i, p)
    ensures |r| == 2 ==> Find(s, p) == Some(|r[0]|) && r[1] == s[|r[0]| + |p|..]
  {
    match Find(s, p)
    case None => [s]
    case Some(i) =>
      assert s == s[..i] + s[i..i + |p|] + s[i + |p|..];
      forall j: nat ensures !MatchesAt(s[..i], j, p) {
        if MatchesAt(s[..i], j, p) {
          assert MatchesAt(s, j, p);
        }
      }
      [s[..i], s[i + |p|..]]
  }

  /** `sep.join(xs)` */
  function Join(xs: seq<string>, sep: string): string {
    if |xs| == 0 then ""
    else if |xs| == 1 then xs[0]
    else xs[0] + sep + Join(xs[1..], sep)
  }

  /** Splitting on a literal separator and joining back with it gives the original string. */
  lemma {:induction false} JoinSplit(s: string, sep: string)
    requires |sep| > 0
    ensures Join(Split(s, Literal(sep)), sep) == s
    decreases |s|
  {
    var p := Literal(sep);
    match Find(s, p)
    case None =>
    case Some(i) =>
      LiteralMatchesAt(s, i, sep);
      var rest := Split(s[i + |p|..], p);
      JoinSplit(s[i + |p|..], sep);
      assert Split(s, p) == [s[..i]] + rest;
      assert ([s[..i]] + rest)[1..] == rest;
      assert s == s[..i] + s[i..i + |sep|] + s[i + |sep|..];
  }

  /** Splitting on a one-character separator gives one more piece than there are occurrences. */
  lemma {:induction false} SplitCount(s: string, c: char)
    ensures |Split(s, Literal([c]))| == multiset(s)[c] + 1
    decreases |s|
  {
    var p := Literal([c]);
    match Find(s, p)
    case None =>
      forall i | 0 <= i < |s| ensures s[i] != c {
        LiteralMatchesAt(s, i, [c]);
        assert s[i..i + 1] == [s[i]];
      }
      assert c !in s;
    case Some(i) =>
      LiteralMatchesAt(s, i, [c]);
      assert s[i..i + 1] == [s[i]];
      forall j | 0 <= j < i ensures s[..i][j] != c {
        LiteralMatchesAt(s, j, [c]);
        assert s[j..j + 1] == [s[j]];
      }
      assert c !in s[..i];
      SplitCount(s[i + 1..], c);
      assert s == s[..i] + [s[i]] + s[i + 1..];
      assert multiset(s) == multiset(s[..i]) + multiset([s[i]]) + multiset(s[i + 1..]);
  }

  /** A pattern whose position `m` demands `sep[m]` cannot match where that character is absent. */
  lemma NoMatchWithoutMarker(x: string, p: Pattern, m: nat, marker: char)
    requires m < |p| && p[m] == Exactly(marker) && marker !in x
    ensures forall i: nat :: !MatchesAt(x, i, p)
  {
    forall i: nat | i + |p| <= |x| ensures !MatchesAt(x, i, p) {
      assert x[i + m] in x;
      assert !ClassHas(p[m], x[i + m]);
    }
  }

  /**
    When `sep` matches `p` and position `m` of `p` is a character that `x` lacks and
    that `sep` does not repeat before `m`, the first match in `x + sep + rest` is
    where `sep` starts.
   */
  lemma FirstMatchAtSeparator(x: string, sep: string, rest: string, p: Pattern, m: nat)
    requires |p| == |sep| && m < |sep| && MatchesAt(sep, 0, p)
    requires p[m] == Exactly(sep[m]) && sep[m] !in x
    requires forall k :: 0 <= k < m ==> sep[k] != sep[m]
    ensures Find(x + sep + rest, p) == Some(|x|)
  {
    var s := x + sep + rest;
    forall k | 0 <= k < |p| ensures ClassHas(p[k], s[|x| + k]) {
      assert s[|x| + k] == sep[k];
      assert ClassHas(p[0 + k], sep[0 + k]);
    }
    assert MatchesAt(s, |x|, p);
    forall j: nat | j < |x| ensures !MatchesAt(s, j, p) {
      if j + m < |x| {
        assert s[j + m] == x[j + m];
        assert x[j + m] in x;
      } else {
        assert s[j + m] == sep[j + m - |x|];
      }
      assert !ClassHas(p[m], s[j + m]);
    }
  }

  /** Under the same conditions, splitting the joined terms gives the terms back. */
  lemma {:induction false} SplitJoinMarked(xs: seq<string>, sep: string, p: Pattern, m: nat)
    requires |xs| >= 1
    requires |p| == |sep| && m < |sep| && MatchesAt(sep, 0, p)
    requires p[m] == Exactly(sep[m])
    requires forall k :: 0 <= k < m ==> sep[k] != sep[m]
    requires forall i :: 0 <= i < |xs| ==> sep[m] !in xs[i]
    ensures Split(Join(xs, sep), p) == xs
  {
    if |xs| == 1 {
      NoMatchWithoutMarker(xs[0], p, m, sep[m]);
    } else {
      var rest := Join(xs[1..], sep);
      FirstMatchAtSeparator(xs[0], sep, rest, p, m);
      var s := xs[0] + sep + rest;
      assert s[..|xs[0]|] == xs[0];
      assert s[|xs[0]| + |p|..] == rest;
      SplitJoinMarked(xs[1..], sep, p, m);
      assert xs == [xs[0]] + xs[1..];
    }
  }

  /** `c` in none of the terms nor the separator is not in their join. */
  lemma {:induction false} JoinAvoids(xs: seq<string>, sep: string, c: char)
    requires c !in sep && forall i :: 0 <= i < |xs| ==> c !in xs[i]
    ensures c !in Join(xs, sep)
  {
    if |xs| > 1 {
      JoinAvoids(xs[1..], sep, c);
    }
  }

  /**
    `re.split(r'\s*c\s*', s)`: the pieces of `s` split on `c`, each losing the
    whitespace next to a separator (not at the very start or end of `s`).
   */
  function SplitTrimmed(s: string, c: char): (r: seq<string>)
    ensures |r| == |Split(s, Literal([c]))|
    ensures c !in s ==> r == [s]
  {
    var pieces := Split(s, Literal([c]));
    if c !in s then
      SplitCount(s, c);
      [s]
    else
      seq(|pieces|, k requires 0 <= k < |pieces| => TrimPiece(pieces[k], k > 0, k < |pieces| - 1))
  }

  /** A piece after a separator loses its leading whitespace, one before a separator its trailing. */
  function TrimPiece(piece: string, afterSep: bool, beforeSep: bool): string {
    var a := if afterSep then TrimStart(piece) else piece;
    if beforeSep then TrimEnd(a) else a
  }

  /**
    `t` sits at offset `i` of `piece` with only whitespace around it; nothing is removed on a
    side without a separator, and all whitespace is removed on a side with one.
   */
  predicate TrimmedAt(piece: string, t: string, i: nat, afterSep: bool, beforeSep: bool) {
    && i + |t| <= |piece| && piece[i..i + |t|] == t
    && (forall m :: 0 <= m < i ==> IsWhitespace(piece[m]))
    && (forall m :: i + |t| <= m < |piece| ==> IsWhitespace(piece[m]))
    && (!afterSep ==> i == 0) && (!beforeSep ==> i + |t| == |piece|)
    && (afterSep && t != [] ==> !IsWhitespace(t[0]))
    && (beforeSep && t != [] ==> !IsWhitespace(t[|t| - 1]))
  }

  lemma TrimPieceMeaning(piece: string, afterSep: bool, beforeSep: bool) returns (i: nat)
    ensures TrimmedAt(piece, TrimPiece(piece, afterSep, beforeSep), i, afterSep, beforeSep)
  {
    var a := if afterSep then TrimStart(piece) else piece;
    var t := if beforeSep then TrimEnd(a) else a;
    i := |piece| - |a|;
    assert a == piece[i..] && forall m :: 0 <= m < i ==> IsWhitespace(piece[m]);
    assert t == a[..|t|] && forall m :: |t| <= m < |a| ==> IsWhitespace(a[m]);
    TrimmedFromParts(piece, a, t, i, afterSep, beforeSep);
  }

  /** Trimming the front of `piece` to `a` and then the back of `a` to `t` leaves `t` at offset `i`. */
  lemma TrimmedFromParts(piece: string, a: string, t: string, i: nat, afterSep: bool, beforeSep: bool)
    requires i <= |piece| && a == piece[i..] && forall m :: 0 <= m < i ==> IsWhitespace(piece[m])
    requires |t| <= |a| && t == a[..|t|] && forall m :: |t| <= m < |a| ==> IsWhitespace(a[m])
    requires (!afterSep ==> i == 0) && (afterSep && a != [] ==> !IsWhitespace(a[0]))
    requires (!beforeSep ==> t == a) && (beforeSep && t != [] ==> !IsWhitespace(t[|t| - 1]))
    ensures TrimmedAt(piece, t, i, afterSep, beforeSep)
  {
    InfixAt(piece, a, t, i);
    if t != [] {
      assert t[0] == a[0];
    }
    forall m | i + |t| <= m < |piece| ensures IsWhitespace(piece[m]) {
      assert piece[m] == a[m - i];
    }
  }

  /** A prefix of a suffix is an infix, and what follows it in the whole follows it in the suffix. */
  lemma InfixAt<T>(x: seq<T>, a: seq<T>, t: seq<T>, i: nat)
    requires i <= |x| && a == x[i..] && |t| <= |a| && t == a[..|t|]
    ensures i + |t| <= |x| && x[i..i + |t|] == t
    ensures forall m :: i + |t| <= m < |x| ==> x[m] == a[m - i]
  {
  }

  /**
    Piece `k` of `re.split(r'\s*c\s*', s)` sits at offset `i` inside piece `k` of `s.split(c)`:
    only whitespace surrounds it there, none is removed at the very start or end of `s`, and
    all of it is removed next to a separator.
   */
  lemma SplitTrimmedPiece(s: string, c: char, k: nat) returns (i: nat)
    requires k < |Split(s, Literal([c]))|
    ensures TrimmedAt(Split(s, Literal([c]))[k], SplitTrimmed(s, c)[k], i, k > 0, k < |Split(s, Literal([c]))| - 1)
  {
    var pieces := Split(s, Literal([c]));
    if c !in s {
      NoMatchWithoutMarker(s, Literal([c]), 0, c);
      assert pieces == [s];
      i := 0;
    } else {
      i := TrimPieceMeaning(pieces[k], k > 0, k < |pieces| - 1);
    }
  }

  /** Python's `sub in s` on strings (an empty `sub` is in every string). */
  predicate Contains(s: string, sub: string) {
    exists j :: 0 <= j <= |s| - |sub| && OccursAt(s, sub, j)
  }

  predicate OccursAt(s: string, sub: string, j: int) {
    0 <= j && j + |sub| <= |s| && s[j..j + |sub|] == sub
  }
}
