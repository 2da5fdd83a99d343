/**
 * The Python string primitives the webhook relies on, restricted to ASCII:
 * `str.isspace`, `str.lower`, `str.strip`, `re.sub(r"\s+", " ", s)`,
 * the webhook's own `_norm`, `str.startswith`, `str.split(sep[, maxsplit])`,
 * `sep.join(parts)`, and the `str(int)` / `int(str)` conversions used for
 * the grade inside button payloads.
 */
module Text {
  import opened Opt

  // ---------------------------------------------------------------------------
  // Characters
  // ---------------------------------------------------------------------------

  /** Python's whitespace on ASCII: \t \n \v \f \r, the separators 0x1c-0x1f and space. */
  predicate IsSpace(c: char) {
    9 <= c as int <= 13 || 28 <= c as int <= 32
  }

  predicate IsUpper(c: char) {
    'A' <= c <= 'Z'
  }

  predicate IsDigit(c: char) {
    '0' <= c <= '9'
  }

  function LowerChar(c: char): (r: char)
    ensures !IsUpper(r)
    ensures IsSpace(r) <==> IsSpace(c)
    ensures r == ' ' <==> c == ' '
    ensures !IsUpper(c) ==> r == c
    ensures IsDigit(r) <==> IsDigit(c)
  {
    if IsUpper(c) then (c as int + 32) as char else c
  }

  /** `s.lower()` for ASCII text. */
  function Lower(s: string): (r: string)
    ensures |r| == |s|
    ensures forall i :: 0 <= i < |s| ==> r[i] == LowerChar(s[i])
  {
    if s == [] then [] else [LowerChar(s[0])] + Lower(s[1..])
  }

  // ---------------------------------------------------------------------------
  // Whitespace shapes
  // ---------------------------------------------------------------------------

  /** The characters of `s` that are not whitespace, in order. */
  function NonSpace(s: string): string {
    if s == [] then []
    else (if IsSpace(s[0]) then [] else [s[0]]) + NonSpace(s[1..])
  }

  /** The only whitespace is a plain space, and never two of them in a row. */
  predicate SingleSpaced(s: string) {
    && (forall i :: 0 <= i < |s| && IsSpace(s[i]) ==> s[i] == ' ')
    && (forall i :: 0 <= i < |s| - 1 && s[i] == ' ' ==> s[i + 1] != ' ')
  }

  /** Single-spaced, with no whitespace at either end. */
  predicate WellSpaced(s: string) {
    SingleSpaced(s) && (|s| > 0 ==> !IsSpace(s[0]) && !IsSpace(s[|s| - 1]))
  }

  /** The shape of every `_norm` result: well spaced and without upper-case letters. */
  predicate IsNormal(s: string) {
    WellSpaced(s) && forall i :: 0 <= i < |s| ==> !IsUpper(s[i])
  }

  // ---------------------------------------------------------------------------
  // strip, re.sub(r"\s+", " ", ...), _norm
  // ---------------------------------------------------------------------------

  /** How many whitespace characters `s` starts with. */
  function LeadingSpaces(s: string): (n: nat)
    ensures n <= |s|
    ensures n < |s| ==> !IsSpace(s[n])
    ensures forall i :: 0 <= i < n ==> IsSpace(s[i])
    decreases |s|
  {
    if s != [] && IsSpace(s[0]) then 1 + LeadingSpaces(s[1..]) else 0
  }

  /** `s.lstrip()`: the suffix left after dropping leading whitespace. */
  function TrimLeft(s: string): (r: string)
    ensures r != [] ==> !IsSpace(r[0])
  {
    s[LeadingSpaces(s)..]
  }

  /** `s.rstrip()`: the prefix left after dropping trailing whitespace. */
  function TrimRight(s: string): (r: string)
    ensures |r| <= |s| && r == s[..|r|]
    ensures r != [] ==> !IsSpace(r[|r| - 1])
  {
    if s != [] && IsSpace(s[|s| - 1]) then TrimRight(s[..|s| - 1]) else s
  }

  /** What `rstrip` drops is whitespace. */
  lemma {:induction false} TrimRightDropsSpace(s: string)
    ensures forall i :: |TrimRight(s)| <= i < |s| ==> IsSpace(s[i])
    decreases |s|
  {
    if s != [] && IsSpace(s[|s| - 1]) {
      TrimRightDropsSpace(s[..|s| - 1]);
    }
  }

  /** `s.strip()`. */
  function Strip(s: string): (r: string) {
    TrimRight(TrimLeft(s))
  }

  /** `re.sub(r"\s+", " ", s)`: every maximal run of whitespace becomes one space. */
  function Collapse(s: string): (r: string)
    ensures |r| <= |s|
    ensures r == [] <==> s == []
    ensures r != [] ==> (r[0] == ' ' <==> IsSpace(s[0]))
    ensures SingleSpaced(r)
    decreases |s|
  {
    if s == [] then []
    else if IsSpace(s[0]) then
      var t := TrimLeft(s[1..]);
      ConsSingleSpaced(' ', Collapse(t));
      [' '] + Collapse(t)
    else
      ConsSingleSpaced(s[0], Collapse(s[1..]));
      [s[0]] + Collapse(s[1..])
  }

  /** A plain space or a visible character in front of single-spaced text, without doubling a space. */
  lemma ConsSingleSpaced(c: char, r: string)
    requires SingleSpaced(r)
    requires IsSpace(c) ==> c == ' ' && (r == [] || r[0] != ' ')
    ensures SingleSpaced([c] + r)
  {
    var s := [c] + r;
    assert forall i :: 1 <= i < |s| ==> s[i] == r[i - 1];
  }

  /** Collapsing keeps every visible character, in order. */
  lemma {:induction false} CollapseKeepsNonSpace(s: string)
    ensures NonSpace(Collapse(s)) == NonSpace(s)
    decreases |s|
  {
    if s != [] {
      var r := Collapse(s);
      if IsSpace(s[0]) {
        var t := TrimLeft(s[1..]);
        var gap := s[1..][..LeadingSpaces(s[1..])];
        CollapseKeepsNonSpace(t);
        NonSpaceOfSpaces(gap);
        NonSpaceAppend(gap, t);
        assert s[1..] == gap + t;
        assert r[1..] == Collapse(t);
      } else {
        CollapseKeepsNonSpace(s[1..]);
        assert r[1..] == Collapse(s[1..]);
      }
    }
  }

  /** Text that is already single-spaced is left as it is. */
  lemma {:induction false} CollapseFixesSingleSpaced(s: string)
    ensures SingleSpaced(s) ==> Collapse(s) == s
    decreases |s|
  {
    if s != [] && SingleSpaced(s) {
      assert SingleSpaced(s[1..]);
      if IsSpace(s[0]) {
        assert TrimLeft(s[1..]) == s[1..];
      }
      CollapseFixesSingleSpaced(s[1..]);
      assert [s[0]] + s[1..] == s;
    }
  }

  /**
   * `_norm(s)` in one pass: whitespace before the first visible character is dropped, a run of
   * whitespace after one becomes a single space only when another visible character follows,
   * and every visible character is lower-cased. `started` records that a visible character has
   * been emitted, `gap` that whitespace has been seen since.
   */
  function Squeeze(s: string, started: bool, gap: bool): string
    decreases |s|
  {
    if s == [] then []
    else if IsSpace(s[0]) then Squeeze(s[1..], started, started)
    else (if gap then " " else "") + [LowerChar(s[0])] + Squeeze(s[1..], true, false)
  }

  /** `_norm(s)`: collapse whitespace runs, strip, lower-case. */
  function Norm(s: string): (r: string)
    ensures IsNormal(r)
    ensures NonSpace(r) == Lower(NonSpace(s))
    ensures WellSpaced(s) ==> r == Lower(s)
  {
    NormIsPipeline(s);
    NormShape(s);
    Squeeze(s, false, false)
  }

  /** Dropping leading whitespace is unaffected by one more leading whitespace character. */
  lemma TrimLeftSpace(s: string)
    requires s != [] && IsSpace(s[0])
    ensures TrimLeft(s) == TrimLeft(s[1..])
  {
  }

  /** Leading whitespace changes nothing while no gap is pending. */
  lemma {:induction false} SqueezeSkipsSpace(s: string, started: bool)
    ensures Squeeze(s, started, started) == Squeeze(TrimLeft(s), started, started)
    decreases |s|
  {
    if s != [] && IsSpace(s[0]) {
      SqueezeSkipsSpace(s[1..], started);
      TrimLeftSpace(s);
    }
  }

  /** Trailing whitespace stripping passes over a prefix that ends in a visible character. */
  lemma {:induction false} TrimRightAfterVisible(p: string, x: string)
    requires p != [] && !IsSpace(p[|p| - 1])
    ensures TrimRight(p + x) == p + TrimRight(x)
    decreases |x|
  {
    if x == [] {
      assert p + x == p;
    } else if IsSpace(x[|x| - 1]) {
      assert (p + x)[..|p + x| - 1] == p + x[..|x| - 1];
      TrimRightAfterVisible(p, x[..|x| - 1]);
    }
  }

  /** After the first visible character, the scan is `rstrip` of the collapsed rest, lower-cased. */
  lemma {:induction false} SqueezeStarted(s: string)
    ensures Squeeze(s, true, false) == Lower(TrimRight(Collapse(s)))
    decreases |s|
  {
    if s != [] && !IsSpace(s[0]) {
      SqueezeStarted(s[1..]);
      SqueezeVisible(s, "", false);
      assert "" + Collapse(s) == Collapse(s);
    } else if s != [] {
      var t := TrimLeft(s[1..]);
      SqueezeSkipsSpace(s[1..], true);
      assert Squeeze(s, true, false) == Squeeze(t, true, true);
      if t == [] {
        assert Collapse(s) == [' '];
        assert TrimRight([' ']) == [];
      } else {
        SqueezeStarted(t[1..]);
        SqueezeVisible(t, " ", true);
        assert Collapse(s) == [' '] + Collapse(t);
      }
    }
  }

  /** The scan at a visible character emits the pending space and the lower-cased character. */
  lemma SqueezeVisibleHead(s: string, pre: string, gap: bool)
    requires s != [] && !IsSpace(s[0])
    requires pre == (if gap then " " else "")
    ensures Squeeze(s, true, gap) == Lower(pre + [s[0]]) + Squeeze(s[1..], true, false)
  {
    LowerAppend(pre, [s[0]]);
  }

  /** Stripping and lower-casing pass over a prefix that ends in a visible character. */
  lemma LowerTrimAfterVisible(p: string, x: string)
    requires p != [] && !IsSpace(p[|p| - 1])
    ensures Lower(TrimRight(p + x)) == Lower(p) + Lower(TrimRight(x))
  {
    TrimRightAfterVisible(p, x);
    LowerAppend(p, TrimRight(x));
  }

  /** Stripping and lower-casing the collapsed text pass over its visible first character. */
  lemma CollapseVisibleHead(s: string, pre: string)
    requires s != [] && !IsSpace(s[0])
    requires pre == " " || pre == ""
    ensures Lower(TrimRight(pre + Collapse(s))) == Lower(pre + [s[0]]) + Lower(TrimRight(Collapse(s[1..])))
  {
    var p := pre + [s[0]];
    assert pre + Collapse(s) == p + Collapse(s[1..]);
    LowerTrimAfterVisible(p, Collapse(s[1..]));
  }

  /** One step of the scan at a visible character, given the claim for the rest. */
  lemma SqueezeVisible(s: string, pre: string, gap: bool)
    requires s != [] && !IsSpace(s[0])
    requires pre == (if gap then " " else "")
    requires Squeeze(s[1..], true, false) == Lower(TrimRight(Collapse(s[1..])))
    ensures Squeeze(s, true, gap) == Lower(TrimRight(pre + Collapse(s)))
  {
    SqueezeVisibleHead(s, pre, gap);
    CollapseVisibleHead(s, pre);
  }

  /** The one-pass scan computes exactly `re.sub(r"\s+", " ", s).strip().lower()`. */
  lemma NormIsPipeline(s: string)
    ensures Squeeze(s, false, false) == Lower(Strip(Collapse(s)))
  {
    var t := TrimLeft(s);
    SqueezeSkipsSpace(s, false);
    StripCollapse(s);
    if t == [] {
      assert Collapse(t) == [];
    } else {
      SqueezeStarted(t[1..]);
      SqueezeVisible(t, "", false);
      assert "" + Collapse(t) == Collapse(t);
      assert Squeeze(t, false, false) == Squeeze(t, true, false);
    }
  }

  /** Collapsing first and then dropping leading whitespace is collapsing the `lstrip`ped text. */
  lemma StripCollapse(s: string)
    ensures TrimLeft(Collapse(s)) == Collapse(TrimLeft(s))
  {
    if s != [] && IsSpace(s[0]) {
      var t := TrimLeft(s);
      TrimLeftSpace(s);
      assert Collapse(s) == [' '] + Collapse(t);
      assert TrimLeft(Collapse(s)) == TrimLeft(Collapse(t));
    }
  }

  lemma NormShape(s: string)
    ensures IsNormal(Lower(Strip(Collapse(s))))
    ensures NonSpace(Lower(Strip(Collapse(s)))) == Lower(NonSpace(s))
    ensures WellSpaced(s) ==> Lower(Strip(Collapse(s))) == Lower(s)
  {
    var c := Collapse(s);
    var t := Strip(c);
    CollapseKeepsNonSpace(s);
    CollapseFixesSingleSpaced(s);
    StripKeepsNonSpace(c);
    StripWellSpaced(c);
    StripFixesWellSpaced(s);
    NonSpaceLower(t);
    LowerKeepsSpacing(t);
  }

  lemma LowerKeepsSpacing(s: string)
    ensures WellSpaced(s) ==> IsNormal(Lower(s))
  {
    var r := Lower(s);
    assert forall i :: 0 <= i < |s| ==> (IsSpace(r[i]) <==> IsSpace(s[i])) && (r[i] == ' ' <==> s[i] == ' ');
  }

  lemma {:induction false} NonSpaceAppend(a: string, b: string)
    ensures NonSpace(a + b) == NonSpace(a) + NonSpace(b)
    decreases |a|
  {
    if a != [] {
      var h: string := if IsSpace(a[0]) then [] else [a[0]];
      assert (a + b)[0] == a[0];
      assert (a + b)[1..] == a[1..] + b;
      NonSpaceAppend(a[1..], b);
      calc {
        NonSpace(a + b);
        h + NonSpace(a[1..] + b);
        h + (NonSpace(a[1..]) + NonSpace(b));
        (h + NonSpace(a[1..])) + NonSpace(b);
      }
    } else {
      assert a + b == b;
    }
  }

  lemma {:induction false} NonSpaceOfSpaces(s: string)
    requires forall i :: 0 <= i < |s| ==> IsSpace(s[i])
    ensures NonSpace(s) == []
    decreases |s|
  {
    if s != [] {
      NonSpaceOfSpaces(s[1..]);
    }
  }

  lemma {:induction false} NonSpaceLower(s: string)
    ensures NonSpace(Lower(s)) == Lower(NonSpace(s))
    decreases |s|
  {
    if s != [] {
      var h: string := if IsSpace(s[0]) then [] else [s[0]];
      assert Lower(s)[1..] == Lower(s[1..]);
      NonSpaceLower(s[1..]);
      LowerAppend(h, NonSpace(s[1..]));
    }
  }

  lemma {:induction false} LowerAppend(a: string, b: string)
    ensures Lower(a + b) == Lower(a) + Lower(b)
    decreases |a|
  {
    if a == [] {
      assert a + b == b;
    } else {
      assert (a + b)[0] == a[0];
      assert (a + b)[1..] == a[1..] + b;
      LowerAppend(a[1..], b);
    }
  }

  /** Stripping only removes whitespace. */
  lemma StripKeepsNonSpace(s: string)
    ensures NonSpace(Strip(s)) == NonSpace(s)
  {
    TrimLeftKeepsNonSpace(s);
    TrimRightKeepsNonSpace(TrimLeft(s));
  }

  lemma {:induction false} TrimLeftKeepsNonSpace(s: string)
    ensures NonSpace(TrimLeft(s)) == NonSpace(s)
    decreases |s|
  {
    if s != [] && IsSpace(s[0]) {
      TrimLeftKeepsNonSpace(s[1..]);
      assert TrimLeft(s) == TrimLeft(s[1..]);
    }
  }

  lemma {:induction false} TrimRightKeepsNonSpace(s: string)
    ensures NonSpace(TrimRight(s)) == NonSpace(s)
    decreases |s|
  {
    if s != [] && IsSpace(s[|s| - 1]) {
      var init := s[..|s| - 1];
      TrimRightKeepsNonSpace(init);
      assert s == init + [s[|s| - 1]];
      NonSpaceAppend(init, [s[|s| - 1]]);
      assert NonSpace([s[|s| - 1]]) == [];
    }
  }

  /** Stripping single-spaced text leaves it well spaced. */
  lemma SliceSingleSpaced(s: string, a: nat, b: nat)
    requires SingleSpaced(s) && a <= b <= |s|
    ensures SingleSpaced(s[a..b])
  {
    var t := s[a..b];
    assert forall i :: 0 <= i < |t| ==> t[i] == s[a + i];
  }

  lemma StripWellSpaced(s: string)
    ensures SingleSpaced(s) ==> WellSpaced(Strip(s))
  {
    var l := TrimLeft(s);
    var r := TrimRight(l);
    if SingleSpaced(s) {
      var k := LeadingSpaces(s);
      assert r == s[k..k + |r|];
      SliceSingleSpaced(s, k, k + |r|);
    }
  }

  lemma StripFixesWellSpaced(s: string)
    ensures WellSpaced(s) ==> Strip(s) == s
  {
  }

  /** `_norm` is idempotent, and leaves a string already in normal form alone. */
  lemma NormalIsFixed(s: string)
    requires IsNormal(s)
    ensures Norm(s) == s
  {
    assert Lower(s) == s;
  }

  lemma NormIdempotent(s: string)
    ensures Norm(Norm(s)) == Norm(s)
  {
    NormalIsFixed(Norm(s));
  }

  /** `name` differs from the lower-case `key` only in the case of its letters. */
  predicate Recases(name: string, key: string) {
    |name| == |key| && forall i :: 0 <= i < |name| ==> LowerChar(name[i]) == key[i]
  }

  /** A re-casing of a normal string normalises back to it. */
  lemma {:induction false} RecasedNormalises(name: string, key: string)
    requires IsNormal(key) && Recases(name, key)
    ensures Norm(name) == key
  {
    assert forall i :: 0 <= i < |name| ==> (IsSpace(name[i]) <==> IsSpace(key[i]));
    assert forall i :: 0 <= i < |name| ==> (name[i] == ' ' <==> key[i] == ' ');
    assert WellSpaced(name);
    assert Lower(name) == key;
  }

  // ---------------------------------------------------------------------------
  // startswith, split, join
  // ---------------------------------------------------------------------------

  predicate StartsWith(s: string, prefix: string) {
    |prefix| <= |s| && s[..|prefix|] == prefix
  }

  /** `s.split(sep, n)`: split at the first `n` occurrences of `sep`. */
  function SplitN(s: string, sep: char, n: nat): (r: seq<string>)
    ensures 1 <= |r| <= n + 1
    decreases |s|
  {
    if n == 0 || s == [] then [s]
    else if s[0] == sep then [[]] + SplitN(s[1..], sep, n - 1)
    else
      var rest := SplitN(s[1..], sep, n);
      [[s[0]] + rest[0]] + rest[1..]
  }

  /** `s.split(sep)` without a limit: a string never has more separators than characters. */
  function Split(s: string, sep: char): (r: seq<string>)
    ensures |r| >= 1
  {
    SplitN(s, sep, |s|)
  }

  /** `sep.join(parts)`. */
  function Join(parts: seq<string>, sep: char): (r: string)
    ensures parts == [] ==> r == []
    ensures |parts| == 1 ==> r == parts[0]
    ensures |parts| >= 1 ==> |r| >= |parts| - 1
  {
    if parts == [] then []
    else if |parts| == 1 then parts[0]
    else parts[0] + [sep] + Join(parts[1..], sep)
  }

  /** A character found in no part and differing from the separator is not in the joined string. */
  lemma {:induction false} JoinAvoids(parts: seq<string>, sep: char, c: char)
    requires c != sep && forall i :: 0 <= i < |parts| ==> c !in parts[i]
    ensures c !in Join(parts, sep)
    decreases |parts|
  {
    if |parts| > 1 {
      JoinAvoids(parts[1..], sep, c);
      assert c !in parts[0];
    }
  }

  lemma {:induction false} SplitNOfPlain(s: string, sep: char, n: nat)
    requires sep !in s
    ensures SplitN(s, sep, n) == [s]
    decreases |s|
  {
    if n != 0 && s != [] {
      SplitNOfPlain(s[1..], sep, n);
      assert [s[0]] + s[1..] == s;
    }
  }

  lemma {:induction false} SplitNCons(x: string, sep: char, rest: string, n: nat)
    requires sep !in x && n >= 1
    ensures SplitN(x + [sep] + rest, sep, n) == [x] + SplitN(rest, sep, n - 1)
    decreases |x|
  {
    var s := x + [sep] + rest;
    if x == [] {
      assert s[1..] == rest;
    } else {
      assert s[1..] == x[1..] + [sep] + rest;
      SplitNCons(x[1..], sep, rest, n);
      assert [x[0]] + x[1..] == x;
    }
  }

  /** With at least as many splits as characters, no part keeps a separator. */
  lemma {:induction false} SplitNParts(s: string, sep: char, n: nat)
    requires n >= |s|
    ensures forall i :: 0 <= i < |SplitN(s, sep, n)| ==> sep !in SplitN(s, sep, n)[i]
    decreases |s|
  {
    if n != 0 && s != [] {
      var r := SplitN(s, sep, n);
      if s[0] == sep {
        SplitNParts(s[1..], sep, n - 1);
        assert forall i :: 1 <= i < |r| ==> r[i] == SplitN(s[1..], sep, n - 1)[i - 1];
      } else {
        var rest := SplitN(s[1..], sep, n);
        SplitNParts(s[1..], sep, n);
        assert r[0] == [s[0]] + rest[0];
        assert forall i :: 1 <= i < |r| ==> r[i] == rest[i];
      }
    }
  }

  /**
   * Splitting a joined list with enough splits gives the parts back: every part but the last
   * must be free of the separator, and the last one too unless the split limit stops before it.
   */
  lemma {:induction false} SplitNJoin(parts: seq<string>, sep: char, n: nat)
    requires |parts| >= 1 && n >= |parts| - 1
    requires forall i :: 0 <= i < |parts| - 1 ==> sep !in parts[i]
    requires n > |parts| - 1 ==> sep !in parts[|parts| - 1]
    ensures SplitN(Join(parts, sep), sep, n) == parts
    decreases |parts|
  {
    if |parts| == 1 {
      if n > 0 {
        SplitNOfPlain(parts[0], sep, n);
      }
    } else {
      SplitNCons(parts[0], sep, Join(parts[1..], sep), n);
      SplitNJoin(parts[1..], sep, n - 1);
      assert [parts[0]] + parts[1..] == parts;
    }
  }

  // ---------------------------------------------------------------------------
  // str(int) and int(str)
  // ---------------------------------------------------------------------------

  function DigitChar(d: nat): (c: char)
    requires d < 10
    ensures IsDigit(c)
  {
    ('0' as int + d) as char
  }

  function DigitValue(c: char): (d: nat)
    requires IsDigit(c)
    ensures d < 10 && DigitChar(d) == c
  {
    c as int - '0' as int
  }

  /** The decimal digits of `n`, most significant first, without leading zeros. */
  function NatToString(n: nat): (s: string)
    ensures |s| >= 1
    ensures forall i :: 0 <= i < |s| ==> IsDigit(s[i])
    ensures |s| > 1 ==> s[0] != '0'
  {
    if n < 10 then [DigitChar(n)] else NatToString(n / 10) + [DigitChar(n % 10)]
  }

  /** `str(g)` for an `int`. */
  function IntToString(g: int): (s: string)
    ensures |s| >= 1
  {
    if g < 0 then "-" + NatToString(-g) else NatToString(g)
  }

  /** A literal accepted by Python's `int()` after the sign: digits, single `_` between digits. */
  predicate IsDigitLiteral(s: string) {
    && |s| > 0
    && IsDigit(s[0]) && IsDigit(s[|s| - 1])
    && (forall i :: 0 <= i < |s| ==> IsDigit(s[i]) || s[i] == '_')
    && (forall i :: 0 <= i < |s| - 1 && s[i] == '_' ==> s[i + 1] != '_')
  }

  /** The value of a digit literal; underscores are skipped. */
  function LiteralValue(s: string): nat
    requires forall i :: 0 <= i < |s| ==> IsDigit(s[i]) || s[i] == '_'
  {
    if s == [] then 0
    else if s[|s| - 1] == '_' then LiteralValue(s[..|s| - 1])
    else LiteralValue(s[..|s| - 1]) * 10 + DigitValue(s[|s| - 1])
  }

  /** `int(s)` for ASCII text: `None` where Python raises `ValueError`. */
  function ParseInt(s: string): Option<int> {
    var t := Strip(s);
    if t != [] && (t[0] == '-' || t[0] == '+') then
      if IsDigitLiteral(t[1..]) then
        var v: int := LiteralValue(t[1..]);
        Some(if t[0] == '-' then -v else v)
      else None
    else if IsDigitLiteral(t) then Some(LiteralValue(t))
    else None
  }

  lemma {:induction false} NatToStringValue(n: nat)
    ensures LiteralValue(NatToString(n)) == n
  {
    var s := NatToString(n);
    if n >= 10 {
      NatToStringValue(n / 10);
      assert s[..|s| - 1] == NatToString(n / 10);
    }
  }

  /** Text that starts and ends with a visible character is its own `strip()`. */
  lemma StripVisibleEnds(s: string)
    requires s != [] && !IsSpace(s[0]) && !IsSpace(s[|s| - 1])
    ensures Strip(s) == s
  {
    assert TrimLeft(s) == s;
  }

  /** `int()` reads an unsigned digit string as its value. */
  lemma ParseUnsigned(digits: string)
    requires |digits| >= 1 && forall i :: 0 <= i < |digits| ==> IsDigit(digits[i])
    ensures ParseInt(digits) == Some(LiteralValue(digits) as int)
  {
    DigitsAreLiteral(digits);
    StripVisibleEnds(digits);
  }

  /** `int()` reads a minus sign followed by digits as the negated value of the digits. */
  lemma ParseNegative(s: string)
    requires |s| >= 2 && s[0] == '-' && forall i :: 1 <= i < |s| ==> IsDigit(s[i])
    ensures ParseInt(s) == Some(-(LiteralValue(s[1..]) as int))
  {
    var digits := s[1..];
    assert Strip(s) == s by {
      assert s[|s| - 1] == digits[|digits| - 1];
      StripVisibleEnds(s);
    }
    assert IsDigitLiteral(digits) by {
      DigitsAreLiteral(digits);
    }
  }

  /** `int(str(g)) == g` for every integer. */
  lemma IntRoundTrip(g: int)
    ensures ParseInt(IntToString(g)) == Some(g)
  {
    var n: nat := if g < 0 then -g else g;
    var digits := NatToString(n);
    NatToStringValue(n);
    if g < 0 {
      var s := IntToString(g);
      assert s == "-" + digits && s[1..] == digits;
      ParseNegative(s);
    } else {
      ParseUnsigned(digits);
    }
  }

  lemma DigitsAreLiteral(s: string)
    requires |s| >= 1 && forall i :: 0 <= i < |s| ==> IsDigit(s[i])
    ensures IsDigitLiteral(s) && WellSpaced(s)
  {
  }

  /** A decimal rendering never contains the payload separators or whitespace. */
  lemma IntToStringPlain(g: int, c: char)
    requires !IsDigit(c) && c != '-'
    ensures c !in IntToString(g)
  {
    var s := IntToString(g);
    assert forall i :: 0 <= i < |s| ==> IsDigit(s[i]) || s[i] == '-';
  }
}
