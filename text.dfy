/**
 * The parts of Python's `str` that the pipeline relies on: `isspace`, `strip`,
 * `rstrip(c)`, `split(sep)`, `sep.join`, `in`, `lower().endswith`, and
 * `split(c, 1)[0]`. Strings are sequences of Unicode code points.
 */
module Text {

  /** `c.isspace()`: the characters Python's `str.strip()` removes. */
  predicate IsSpace(c: char) {
    var n := c as int;
    n == 0x20 || (0x09 <= n <= 0x0D) || (0x1C <= n <= 0x1F) || n == 0x85 || n == 0xA0
    || n == 0x1680 || (0x2000 <= n <= 0x200A) || n == 0x2028 || n == 0x2029
    || n == 0x202F || n == 0x205F || n == 0x3000
  }

  /** Every character is whitespace (so `s.strip()` is falsy). */
  predicate IsBlank(s: string) {
    forall i :: 0 <= i < |s| ==> IsSpace(s[i])
  }

  /** Neither end of `s` is whitespace. */
  predicate IsStripped(s: string) {
    s == [] || (!IsSpace(s[0]) && !IsSpace(s[|s| - 1]))
  }

  function LeadingSpaces(s: string): (n: nat)
    ensures n <= |s|
    ensures forall i :: 0 <= i < n ==> IsSpace(s[i])
    ensures n < |s| ==> !IsSpace(s[n])
  {
    if |s| > 0 && IsSpace(s[0]) then 1 + LeadingSpaces(s[1..]) else 0
  }

  function TrailingSpaces(s: string): (n: nat)
    ensures n <= |s|
    ensures forall i :: |s| - n <= i < |s| ==> IsSpace(s[i])
    ensures n < |s| ==> !IsSpace(s[|s| - 1 - n])
  {
    if |s| > 0 && IsSpace(s[|s| - 1]) then 1 + TrailingSpaces(s[..|s| - 1]) else 0
  }

  /** `s.strip()`: the longest infix of `s` with whitespace only around it. */
  function Strip(s: string): (r: string)
    ensures IsStripped(r)
    ensures r == [] <==> IsBlank(s)
    ensures |r| <= |s|
  {
    var lead := LeadingSpaces(s);
    if lead == |s| then
      []
    else
      var trail := TrailingSpaces(s);
      assert lead < |s| - trail;
      s[lead..|s| - trail]
  }

  /** What `strip` removes is whitespace at both ends, and only that. */
  lemma StripIsTrimmedInfix(s: string)
    ensures var r := Strip(s);
            r != [] ==> exists i :: 0 <= i <= |s| - |r| && s[i..i + |r|] == r
                                    && IsBlank(s[..i]) && IsBlank(s[i + |r|..])
    ensures forall c :: c in Strip(s) ==> c in s
  {
    var lead := LeadingSpaces(s);
    if lead < |s| {
      var r := Strip(s);
      assert r == s[lead..lead + |r|];
      assert IsBlank(s[..lead]) && IsBlank(s[lead + |r|..]);
    }
  }

  lemma StripOfStripped(s: string)
    requires IsStripped(s)
    ensures Strip(s) == s
  {
    if s != [] {
      assert LeadingSpaces(s) == 0;
      assert TrailingSpaces(s) == 0;
    }
  }

  lemma StripIdempotent(s: string)
    ensures Strip(Strip(s)) == Strip(s)
  {
    StripOfStripped(Strip(s));
  }

  /** `sep.join(parts)`. */
  function Join(parts: seq<string>, sep: string): string {
    if |parts| == 0 then ""
    else if |parts| == 1 then parts[0]
    else parts[0] + sep + Join(parts[1..], sep)
  }

  /** The last piece of a join follows the last separator. */
  lemma {:induction false} JoinLast(xs: seq<string>, sep: string)
    requires |xs| >= 2
    ensures Join(xs, sep) == Join(xs[..|xs| - 1], sep) + sep + xs[|xs| - 1]
  {
    if |xs| > 2 {
      JoinLast(xs[1..], sep);
      assert xs[1..][..|xs| - 2] == xs[..|xs| - 1][1..];
    } else {
      assert xs[..1] == [xs[0]];
    }
  }

  /** `s.split(sep)` for a one-character separator: never empty, and `Join` undoes it. */
  function Split(s: string, sep: char): (parts: seq<string>)
    ensures |parts| >= 1
    ensures forall p :: p in parts ==> sep !in p
    ensures Join(parts, [sep]) == s
  {
    if |s| == 0 then [""]
    else
      var rest := Split(s[1..], sep);
      if s[0] == sep then
        var parts := [""] + rest;
        assert parts[1..] == rest;
        parts
      else
        var parts := [[s[0]] + rest[0]] + rest[1..];
        assert |rest| > 1 ==> Join(rest, [sep]) == rest[0] + [sep] + Join(rest[1..], [sep]);
        assert |parts| > 1 ==> parts[1..] == rest[1..];
        parts
  }

  /** `[p.strip() for p in xs if p.strip()]`. */
  function CleanPieces(xs: seq<string>): (r: seq<string>)
    ensures |r| <= |xs|
    ensures forall p :: p in r ==> p != [] && IsStripped(p)
  {
    if xs == [] then []
    else
      var t := Strip(xs[0]);
      (if t == [] then [] else [t]) + CleanPieces(xs[1..])
  }

  /** Stripping never introduces a character, so cleaning keeps pieces free of `c`. */
  lemma {:induction false} CleanPiecesAvoid(xs: seq<string>, c: char)
    requires forall x :: x in xs ==> c !in x
    ensures forall p :: p in CleanPieces(xs) ==> c !in p
  {
    if xs != [] {
      assert forall x :: x in xs[1..] ==> x in xs;
      CleanPiecesAvoid(xs[1..], c);
      assert xs[0] in xs;
      StripIsTrimmedInfix(xs[0]);
    }
  }

  /** `[item.strip() for item in s.split(sep) if item.strip()]`. */
  function SplitClean(s: string, sep: char): (r: seq<string>)
    ensures forall p :: p in r ==> p != [] && IsStripped(p) && sep !in p
    ensures IsBlank(s) ==> r == []
  {
    var r := CleanPieces(Split(s, sep));
    CleanPiecesAvoid(Split(s, sep), sep);
    assert IsBlank(s) ==> r == [] by {
      if IsBlank(s) { BlankSplitClean(s, sep); }
    }
    r
  }

  lemma {:induction false} BlankSplitClean(s: string, sep: char)
    requires IsBlank(s)
    ensures CleanPieces(Split(s, sep)) == []
  {
    if |s| > 0 {
      BlankSplitClean(s[1..], sep);
      var rest := Split(s[1..], sep);
      if s[0] != sep {
        assert Strip(rest[0]) == [];
        assert IsBlank([s[0]] + rest[0]);
        assert CleanPieces(rest) == CleanPieces(rest[..1]) + CleanPieces(rest[1..]) by {
          CleanPiecesAppend(rest[..1], rest[1..]);
          assert rest[..1] + rest[1..] == rest;
        }
      }
    }
  }

  /** Cleaning a list with a first piece `x` keeps `x` stripped, if it is not blank, in front. */
  lemma CleanPiecesCons(x: string, rest: seq<string>)
    ensures var t := Strip(x);
            CleanPieces([x] + rest) == (if t == [] then [] else [t]) + CleanPieces(rest)
  {
    assert ([x] + rest)[0] == x && ([x] + rest)[1..] == rest;
  }

  lemma AppendAssoc<T>(a: seq<T>, b: seq<T>, c: seq<T>)
    ensures a + (b + c) == (a + b) + c
  {
  }

  /** One more piece in front of both sides keeps `CleanPieces` distributing over `+`. */
  lemma CleanPiecesConsAppend(x: string, xs: seq<string>, ys: seq<string>)
    requires CleanPieces(xs + ys) == CleanPieces(xs) + CleanPieces(ys)
    ensures CleanPieces([x] + xs + ys) == CleanPieces([x] + xs) + CleanPieces(ys)
  {
    var t := Strip(x);
    var head := if t == [] then [] else [t];
    AppendAssoc([x], xs, ys);
    CleanPiecesCons(x, xs + ys);
    CleanPiecesCons(x, xs);
    AppendAssoc(head, CleanPieces(xs), CleanPieces(ys));
  }

  lemma {:induction false} CleanPiecesAppend(xs: seq<string>, ys: seq<string>)
    ensures CleanPieces(xs + ys) == CleanPieces(xs) + CleanPieces(ys)
  {
    if xs != [] {
      CleanPiecesAppend(xs[1..], ys);
      CleanPiecesConsAppend(xs[0], xs[1..], ys);
      assert [xs[0]] + xs[1..] == xs;
    } else {
      assert xs + ys == ys;
    }
  }

  /** Cleaning a list of already stripped, non-blank pieces changes nothing. */
  lemma {:induction false} CleanPiecesOfClean(xs: seq<string>)
    requires forall x :: x in xs ==> x != [] && IsStripped(x)
    ensures CleanPieces(xs) == xs
  {
    if xs != [] {
      assert xs[0] in xs;
      StripOfStripped(xs[0]);
      assert forall x :: x in xs[1..] ==> x in xs;
      CleanPiecesOfClean(xs[1..]);
    }
  }

  lemma {:induction false} SplitNoSep(a: string, sep: char)
    requires sep !in a
    ensures Split(a, sep) == [a]
  {
    if a != [] {
      SplitNoSep(a[1..], sep);
      assert [a[0]] + a[1..] == a;
    }
  }

  lemma {:induction false} SplitAfterSep(a: string, b: string, sep: char)
    requires sep !in a
    ensures Split(a + [sep] + b, sep) == [a] + Split(b, sep)
  {
    if a == [] {
      assert a + [sep] + b == [sep] + b;
      assert ([sep] + b)[1..] == b;
    } else {
      var s := a + [sep] + b;
      assert s[1..] == a[1..] + [sep] + b;
      SplitAfterSep(a[1..], b, sep);
      assert [a[0]] + a[1..] == a;
    }
  }

  /** Splitting on the separator undoes joining with it, for separator-free pieces. */
  lemma {:induction false} SplitJoin(xs: seq<string>, sep: char)
    requires |xs| >= 1
    requires forall x :: x in xs ==> sep !in x
    ensures Split(Join(xs, [sep]), sep) == xs
  {
    if |xs| == 1 {
      SplitNoSep(xs[0], sep);
    } else {
      SplitJoin(xs[1..], sep);
      SplitAfterSep(xs[0], Join(xs[1..], [sep]), sep);
      assert [xs[0]] + xs[1..] == xs;
    }
  }

  /** Cleaning one more piece appends its stripped text, if that is non-empty. */
  lemma CleanPiecesTake(xs: seq<string>, k: nat)
    requires k < |xs|
    ensures var c := Strip(xs[k]);
            CleanPieces(xs[..k + 1]) == CleanPieces(xs[..k]) + (if c != "" then [c] else [])
  {
    assert xs[..k + 1] == xs[..k] + [xs[k]];
    CleanPiecesAppend(xs[..k], [xs[k]]);
    assert CleanPieces([xs[k]]) == (if Strip(xs[k]) != "" then [Strip(xs[k])] else []) + CleanPieces([]);
  }

  /** `sub in s`. */
  predicate Contains(s: string, sub: string)
    decreases |s|
  {
    (|sub| <= |s| && s[..|sub|] == sub) || (|s| > 0 && Contains(s[1..], sub))
  }

  /** `c.lower()` for the characters where Python and ASCII agree. */
  function LowerAscii(c: char): (r: char)
    ensures 'A' <= c <= 'Z' ==> r as int == c as int + 32
    ensures !('A' <= c <= 'Z') ==> r == c
  {
    if 'A' <= c <= 'Z' then (c as int + 32) as char else c
  }

  /** `s.lower().endswith(suffix)` for a lower-case ASCII `suffix`. */
  predicate EndsWithIgnoreCase(s: string, suffix: string) {
    |suffix| <= |s| && forall i :: 0 <= i < |suffix| ==> LowerAscii(s[|s| - |suffix| + i]) == suffix[i]
  }

  /** `s.rstrip(c)`. */
  function RStripChar(s: string, c: char): (r: string)
    ensures |r| <= |s| && r == s[..|r|]
    ensures r == [] || r[|r| - 1] != c
    ensures forall i :: |r| <= i < |s| ==> s[i] == c
  {
    if |s| > 0 && s[|s| - 1] == c then RStripChar(s[..|s| - 1], c) else s
  }

  /** `s.split(c, 1)[0]`: everything before the first `c`. */
  function BeforeFirst(s: string, c: char): (r: string)
    ensures |r| <= |s| && r == s[..|r|]
    ensures c !in r
    ensures c in s ==> |r| < |s| && s[|r|] == c
    ensures c !in s ==> r == s
  {
    if |s| == 0 || s[0] == c then "" else [s[0]] + BeforeFirst(s[1..], c)
  }
}
