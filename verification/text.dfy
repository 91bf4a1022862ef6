/**
 * The handful of JavaScript string operations the pages rely on: `trim`,
 * `toLowerCase`, `includes` and `split`, together with the inverse `join`.
 */
module Text {

  /** The characters ECMAScript counts as white space or line terminators:
      what `String.prototype.trim` strips and what the class `\s` matches. */
  const Whitespace: set<char> := {
    '\t', '\n', '\U{000B}', '\U{000C}', '\r', ' ', '\U{00A0}', '\U{1680}',
    '\U{2000}', '\U{2001}', '\U{2002}', '\U{2003}', '\U{2004}', '\U{2005}',
    '\U{2006}', '\U{2007}', '\U{2008}', '\U{2009}', '\U{200A}',
    '\U{2028}', '\U{2029}', '\U{202F}', '\U{205F}', '\U{3000}', '\U{FEFF}'
  }

  /** Every character of `s` is white space (vacuously so for ""). */
  predicate IsBlank(s: string)
  {
    forall i :: 0 <= i < |s| ==> s[i] in Whitespace
  }

  /** No character of `s` belongs to `chars`. */
  predicate NoneOf(s: string, chars: set<char>)
  {
    forall i :: 0 <= i < |s| ==> s[i] !in chars
  }

  /** `s` with its leading white space removed (`trimStart`). */
  function TrimStart(s: string): (r: string)
    ensures |r| <= |s| && r == s[|s| - |r|..]
    ensures r != [] ==> r[0] !in Whitespace
    ensures IsBlank(s[..|s| - |r|])
    decreases |s|
  {
    if s != [] && s[0] in Whitespace then
      var r := TrimStart(s[1..]);
      assert s[..|s| - |r|] == [s[0]] + s[1..][..|s| - 1 - |r|];
      BlankCons(s[0], s[1..][..|s| - 1 - |r|]);
      r
    else s
  }

  /** `s` with its trailing white space removed (`trimEnd`). */
  function TrimEnd(s: string): (r: string)
    ensures |r| <= |s| && r == s[..|r|]
    ensures r != [] ==> r[|r| - 1] !in Whitespace
    ensures IsBlank(s[|r|..])
    decreases |s|
  {
    if s != [] && s[|s| - 1] in Whitespace then
      var init := s[..|s| - 1];
      var r := TrimEnd(init);
      assert s[|r|..] == init[|r|..] + [s[|s| - 1]];
      BlankSnoc(init[|r|..], s[|s| - 1]);
      assert r == s[..|r|];
      r
    else s
  }

  /** JavaScript's `s.trim()`. */
  function Trim(s: string): string
  {
    TrimEnd(TrimStart(s))
  }

  /** A trimmed string is empty exactly when the original was blank: this is
      what every `!x.trim()` guard of the pages tests. */
  lemma TrimEmptyIffBlank(s: string)
    ensures Trim(s) == "" <==> IsBlank(s)
  {
    var t := TrimStart(s);
    if Trim(s) == "" {
      assert IsBlank(t[0..]);
      assert t == [];
    }
  }

  /** A trimmed string neither starts nor ends with white space. */
  lemma TrimEndsUnpadded(s: string)
    ensures Trim(s) != "" ==> Trim(s)[0] !in Whitespace && Trim(s)[|Trim(s)| - 1] !in Whitespace
  {
    var t := TrimStart(s);
    var r := TrimEnd(t);
    if r != [] {
      assert r[0] == t[0];
    }
  }

  /** A trimmed string is the block of the original that starts after the
      leading white space. */
  lemma TrimIsSlice(s: string)
    ensures OccursAt(s, Trim(s), |s| - |TrimStart(s)|)
  {
    var t := TrimStart(s);
    var r := TrimEnd(t);
    var k := |s| - |t|;
    SliceOfSuffix(s, k, |r|);
  }

  /** White space before a blank string leaves it blank. */
  lemma BlankCons(c: char, s: string)
    requires c in Whitespace && IsBlank(s)
    ensures IsBlank([c] + s)
  {
    var r := [c] + s;
    forall i | 0 <= i < |r| ensures r[i] in Whitespace {
      if i > 0 { assert r[i] == s[i - 1]; }
    }
  }

  /** White space after a blank string leaves it blank. */
  lemma BlankSnoc(s: string, c: char)
    requires IsBlank(s) && c in Whitespace
    ensures IsBlank(s + [c])
  {
    var r := s + [c];
    forall i | 0 <= i < |r| ensures r[i] in Whitespace {
      if i < |s| { assert r[i] == s[i]; }
    }
  }

  /** Padding with white space on both sides keeps a string blank or not
      blank. */
  lemma BlankPadded(s: string, pad: string)
    requires IsBlank(pad)
    ensures IsBlank(pad + s + pad) <==> IsBlank(s)
  {
    var t := pad + s + pad;
    forall i | 0 <= i < |s| ensures t[|pad| + i] == s[i] {
    }
    forall i | 0 <= i < |t| && !(|pad| <= i < |pad| + |s|) ensures t[i] in Whitespace {
      if i < |pad| {
        assert t[i] == pad[i];
      } else {
        assert t[i] == pad[i - |pad| - |s|];
      }
    }
  }

  /** A prefix of a suffix is a slice. */
  lemma SliceOfSuffix(s: string, k: int, n: int)
    requires 0 <= k <= |s| && 0 <= n <= |s| - k
    ensures s[k..][..n] == s[k..k + n]
  {
  }

  /** A string that neither starts nor ends with white space trims to
      itself. */
  lemma TrimUnpadded(s: string)
    requires s != [] && s[0] !in Whitespace && s[|s| - 1] !in Whitespace
    ensures Trim(s) == s
  {
  }

  /** JavaScript's `c.toLowerCase()` on the ASCII letters; every other
      character is left as it is. */
  function LowerChar(c: char): char
  {
    if 'A' <= c <= 'Z' then (c as int + 32) as char else c
  }

  /** JavaScript's `s.toLowerCase()`, character by character. */
  function Lower(s: string): string
  {
    seq(|s|, i requires 0 <= i < |s| => LowerChar(s[i]))
  }

  /** `s` begins with `prefix`. */
  predicate StartsWith(s: string, prefix: string)
  {
    |prefix| <= |s| && s[..|prefix|] == prefix
  }

  /** `s` ends with `suffix`. */
  predicate EndsWith(s: string, suffix: string)
  {
    |suffix| <= |s| && s[|s| - |suffix|..] == suffix
  }

  /** JavaScript's `s.includes(t)`, by scanning the start positions of `s`. */
  predicate Includes(s: string, t: string)
    decreases |s|
  {
    StartsWith(s, t) || (s != [] && Includes(s[1..], t))
  }

  /** `t` occurs in `s` starting at position `i`. */
  predicate OccursAt(s: string, t: string, i: int)
  {
    0 <= i <= |s| - |t| && s[i..i + |t|] == t
  }

  /** `Includes` agrees with the positional definition of a substring; in
      particular the empty string occurs in every string. */
  lemma {:induction false} IncludesIffOccurs(s: string, t: string)
    ensures Includes(s, t) <==> exists i :: OccursAt(s, t, i)
    decreases |s|
  {
    if StartsWith(s, t) {
      assert OccursAt(s, t, 0);
    } else if s == [] {
      assert |t| > 0;
    } else {
      IncludesIffOccurs(s[1..], t);
      if Includes(s[1..], t) {
        var i :| OccursAt(s[1..], t, i);
        assert s[i + 1..i + 1 + |t|] == s[1..][i..i + |t|];
        assert OccursAt(s, t, i + 1);
      }
      if exists i :: OccursAt(s, t, i) {
        var i :| OccursAt(s, t, i);
        assert i != 0;
        assert s[1..][i - 1..i - 1 + |t|] == s[i..i + |t|];
        assert OccursAt(s[1..], t, i - 1);
      }
    }
  }

  /** JavaScript's `s.split(p)` where `p` matches exactly one character of
      `seps` (a one-character string, or a one-character class): the pieces
      between consecutive separators, empty ones included, so there is always
      one piece more than there are separators. */
  function Split(s: string, seps: set<char>): (pieces: seq<string>)
    ensures |pieces| >= 1
    ensures forall k :: 0 <= k < |pieces| ==> NoneOf(pieces[k], seps)
    decreases |s|
  {
    if s == [] then [""]
    else
      var rest := Split(s[1..], seps);
      if s[0] in seps then [""] + rest
      else [[s[0]] + rest[0]] + rest[1..]
  }

  /** JavaScript's `pieces.join(sep)` for a one-character separator. */
  function Join(pieces: seq<string>, sep: char): string
    requires |pieces| >= 1
    decreases |pieces|
  {
    if |pieces| == 1 then pieces[0] else pieces[0] + [sep] + Join(pieces[1..], sep)
  }

  /** All pieces glued together with nothing in between. */
  function Concat(pieces: seq<string>): string
    decreases |pieces|
  {
    if pieces == [] then "" else pieces[0] + Concat(pieces[1..])
  }

  /** `s` with every character of `chars` deleted. */
  function Without(s: string, chars: set<char>): string
    decreases |s|
  {
    if s == [] then "" else (if s[0] in chars then "" else [s[0]]) + Without(s[1..], chars)
  }

  /** Joining the pieces of a split with the same separator gives back the
      original string. */
  lemma {:induction false} JoinInvertsSplit(s: string, sep: char)
    ensures Join(Split(s, {sep}), sep) == s
    decreases |s|
  {
    if s != [] {
      var rest := Split(s[1..], {sep});
      JoinInvertsSplit(s[1..], sep);
      if s[0] == sep {
        assert Split(s, {sep}) == [""] + rest;
        assert ([""] + rest)[1..] == rest;
      } else {
        var p := Split(s, {sep});
        assert p == [[s[0]] + rest[0]] + rest[1..];
        if |rest| == 1 {
          assert Join(p, sep) == [s[0]] + rest[0];
        } else {
          assert p[1..] == rest[1..];
          assert Join(p, sep) == [s[0]] + rest[0] + [sep] + Join(rest[1..], sep);
        }
        assert s == [s[0]] + s[1..];
      }
    }
  }

  /** Splitting a string with no separator in it yields that string alone. */
  lemma {:induction false} SplitWithoutSeparator(s: string, seps: set<char>)
    requires NoneOf(s, seps)
    ensures Split(s, seps) == [s]
    decreases |s|
  {
    if s != [] {
      SplitWithoutSeparator(s[1..], seps);
      assert [s[0]] + s[1..] == s;
    }
  }

  /** Splitting `a + [sep] + b`, where `a` holds no separator, yields `a`
      followed by the pieces of `b`. */
  lemma {:induction false} SplitAfterPiece(a: string, sep: char, b: string, seps: set<char>)
    requires sep in seps && NoneOf(a, seps)
    ensures Split(a + [sep] + b, seps) == [a] + Split(b, seps)
    decreases |a|
  {
    var s := a + [sep] + b;
    if a == [] {
      assert s[1..] == b;
    } else {
      assert s[1..] == a[1..] + [sep] + b;
      SplitAfterPiece(a[1..], sep, b, seps);
      assert [a[0]] + a[1..] == a;
    }
  }

  /** Splitting a join of separator-free pieces, on any separator set that
      contains the joining character, gives back the pieces. */
  lemma {:induction false} SplitInvertsJoin(pieces: seq<string>, sep: char, seps: set<char>)
    requires |pieces| >= 1 && sep in seps
    requires forall k :: 0 <= k < |pieces| ==> NoneOf(pieces[k], seps)
    ensures Split(Join(pieces, sep), seps) == pieces
    decreases |pieces|
  {
    if |pieces| == 1 {
      SplitWithoutSeparator(pieces[0], seps);
    } else {
      SplitInvertsJoin(pieces[1..], sep, seps);
      SplitAfterPiece(pieces[0], sep, Join(pieces[1..], sep), seps);
      assert [pieces[0]] + pieces[1..] == pieces;
    }
  }

  /** No character is lost or invented by a split: its pieces, glued back
      together, are the string with the separators deleted. */
  lemma {:induction false} ConcatSplit(s: string, seps: set<char>)
    ensures Concat(Split(s, seps)) == Without(s, seps)
    decreases |s|
  {
    if s != [] {
      var rest := Split(s[1..], seps);
      ConcatSplit(s[1..], seps);
      if s[0] in seps {
        assert ([""] + rest)[1..] == rest;
      } else {
        var p := [[s[0]] + rest[0]] + rest[1..];
        assert p[1..] == rest[1..];
        assert Concat(rest) == rest[0] + Concat(rest[1..]);
      }
    }
  }
}
