/**
 * String helpers with Python's meaning: substring search (`p in s`),
 * `str.strip()`, `str.split(sep)`, `str.lower()` (ASCII letters only),
 * prefix tests and the first-separator split `s.split(sep, 1)`.
 */
module Text {

  /** `s` starts with `p` (Python `s.startswith(p)`). */
  predicate StartsWith(s: string, p: string) {
    |p| <= |s| && s[..|p|] == p
  }

  /** `p` occurs in `s` at index `i`. */
  ghost predicate OccursAt(s: string, p: string, i: nat) {
    i + |p| <= |s| && s[i..i + |p|] == p
  }

  /** Python's substring test `p in s`; the empty string occurs everywhere. */
  predicate Contains(s: string, p: string)
    decreases |s|
  {
    StartsWith(s, p) || (|s| > 0 && Contains(s[1..], p))
  }

  /** `Contains` is exactly "occurs at some index". */
  lemma {:induction false} ContainsIff(s: string, p: string)
    ensures Contains(s, p) <==> exists i: nat :: OccursAt(s, p, i)
    decreases |s|
  {
    if StartsWith(s, p) {
      assert OccursAt(s, p, 0);
    } else if |s| == 0 {
      forall i: nat ensures !OccursAt(s, p, i) {
      }
    } else {
      ContainsIff(s[1..], p);
      if Contains(s[1..], p) {
        var i: nat :| OccursAt(s[1..], p, i);
        assert s[1..][i..i + |p|] == s[i + 1..i + 1 + |p|];
        assert OccursAt(s, p, i + 1);
      } else {
        forall i: nat | 0 < i && i + |p| <= |s| ensures !OccursAt(s, p, i) {
          assert s[1..][i - 1..i - 1 + |p|] == s[i..i + |p|];
          assert OccursAt(s, p, i) ==> OccursAt(s[1..], p, i - 1);
        }
      }
    }
  }

  /** An occurrence inside a part is an occurrence inside the whole. */
  lemma ContainsInfix(a: string, p: string, b: string)
    ensures Contains(a + p + b, p)
  {
    var s := a + p + b;
    assert s[|a|..|a| + |p|] == p;
    assert OccursAt(s, p, |a|);
    ContainsIff(s, p);
  }

  /** Python's `s.endswith(p)`. */
  predicate EndsWith(s: string, p: string) {
    |p| <= |s| && s[|s| - |p|..] == p
  }

  /** A string that contains `p` holds every character of `p`. */
  lemma {:induction false} ContainsCarriesChars(s: string, p: string, c: char)
    requires c in p
    ensures Contains(s, p) ==> c in s
    decreases |s|
  {
    var k :| 0 <= k < |p| && p[k] == c;
    if StartsWith(s, p) {
      assert s[k] == s[..|p|][k];
    }
    if |s| > 0 {
      ContainsCarriesChars(s[1..], p, c);
    }
  }

  /** An occurrence in a part is an occurrence in the whole. */
  lemma ContainsInFront(a: string, b: string, p: string)
    requires Contains(a, p)
    ensures Contains(a + b, p)
  {
    ContainsIff(a, p);
    var i: nat :| OccursAt(a, p, i);
    assert (a + b)[i..i + |p|] == a[i..i + |p|];
    assert OccursAt(a + b, p, i);
    ContainsIff(a + b, p);
  }

  /**
   * Where an occurrence of `p` in `a + b` lies, measured by `j`, the number of
   * its characters that fall in `a`: all of them, none, or a nonempty end of
   * `a` followed by a nonempty front of `b`.
   */
  lemma Straddle(a: string, b: string, p: string) returns (j: int)
    requires Contains(a + b, p)
    ensures |p| <= j ==> Contains(a, p)
    ensures j <= 0 ==> Contains(b, p)
    ensures 0 < j < |p| ==>
      && j <= |a| && |p| - j <= |b|
      && a[|a| - j..] == p[..j] && b[..|p| - j] == p[j..]
      && a[|a| - 1] == p[j - 1] && b[0] == p[j] && b[|p| - j - 1] == p[|p| - 1]
  {
    var s := a + b;
    ContainsIff(s, p);
    var i: nat :| OccursAt(s, p, i);
    j := |a| - i;
    if |p| <= j {
      assert a[i..i + |p|] == s[i..i + |p|];
      assert OccursAt(a, p, i);
      ContainsIff(a, p);
    } else if j <= 0 {
      assert b[i - |a|..i - |a| + |p|] == s[i..i + |p|];
      assert OccursAt(b, p, i - |a|);
      ContainsIff(b, p);
    } else {
      assert a[i..] == s[i..|a|] == s[i..i + |p|][..j];
      assert b[..|p| - j] == s[|a|..i + |p|] == s[i..i + |p|][j..];
      assert a[|a| - 1] == a[i..][j - 1];
      assert b[0] == b[..|p| - j][0];
      assert b[|p| - j - 1] == b[..|p| - j][|p| - j - 1];
    }
  }

  lemma ContainsInBack(a: string, b: string, p: string)
    requires Contains(b, p)
    ensures Contains(a + b, p)
  {
    ContainsIff(b, p);
    var i: nat :| OccursAt(b, p, i);
    assert (a + b)[|a| + i..|a| + i + |p|] == b[i..i + |p|];
    assert OccursAt(a + b, p, |a| + i);
    ContainsIff(a + b, p);
  }

  /** When `b` starts with a character foreign to `p`, no occurrence straddles the junction. */
  lemma JunctionAtForeignFront(a: string, b: string, p: string)
    requires |b| > 0 && b[0] !in p
    ensures Contains(a + b, p) <==> Contains(a, p) || Contains(b, p)
  {
    if Contains(a, p) {
      ContainsInFront(a, b, p);
    }
    if Contains(b, p) {
      ContainsInBack(a, b, p);
    }
    if Contains(a + b, p) && !Contains(a, p) && !Contains(b, p) {
      var j := Straddle(a, b, p);
      assert false;
    }
  }

  /** When `a` ends with a character found in `p` only as its last, no occurrence straddles. */
  lemma JunctionAtForeignEnd(a: string, b: string, p: string)
    requires |a| > 0 && |p| > 0 && a[|a| - 1] !in p[..|p| - 1]
    ensures Contains(a + b, p) <==> Contains(a, p) || Contains(b, p)
  {
    if Contains(a, p) {
      ContainsInFront(a, b, p);
    }
    if Contains(b, p) {
      ContainsInBack(a, b, p);
    }
    if Contains(a + b, p) && !Contains(a, p) && !Contains(b, p) {
      var j := Straddle(a, b, p);
      assert false;
    }
  }

  /** When `b` lacks the last character of `p`, every occurrence in `a + b` lies in `a`. */
  lemma JunctionBeforeLast(a: string, b: string, p: string)
    requires |p| > 0 && p[|p| - 1] !in b
    ensures Contains(a + b, p) <==> Contains(a, p)
  {
    ContainsCarriesChars(b, p, p[|p| - 1]);
    if Contains(a, p) {
      ContainsInFront(a, b, p);
    }
    if Contains(a + b, p) && !Contains(a, p) {
      var j := Straddle(a, b, p);
      assert false;
    }
  }

  /**
   * When `b` starts with the last character of `p` and that character occurs
   * nowhere else in `p`, an occurrence straddles the junction exactly when
   * `a` ends with the rest of `p`.
   */
  lemma JunctionAtLastOnly(a: string, b: string, p: string)
    requires |p| > 0 && |b| > 0 && b[0] == p[|p| - 1] && b[0] !in p[..|p| - 1] && !Contains(b, p)
    ensures Contains(a + b, p) <==> Contains(a, p) || EndsWith(a, p[..|p| - 1])
  {
    if Contains(a, p) {
      ContainsInFront(a, b, p);
    }
    if EndsWith(a, p[..|p| - 1]) {
      CompletedAtJunction(a, b, p);
    }
    if Contains(a + b, p) && !Contains(a, p) {
      var j := Straddle(a, b, p);
    }
  }

  /** An end of `a` that `b`'s first character completes into `p` is an occurrence of `p`. */
  lemma CompletedAtJunction(a: string, b: string, p: string)
    requires |p| > 0 && |b| > 0 && b[0] == p[|p| - 1] && EndsWith(a, p[..|p| - 1])
    ensures Contains(a + b, p)
  {
    var n := |p| - 1;
    var i := |a| - n;
    var s := a + b;
    assert s[i..i + |p|] == a[i..] + [b[0]];
    assert p == p[..n] + [p[n]];
    assert OccursAt(s, p, i);
    ContainsIff(s, p);
  }

  // ---------------------------------------------------------------- case

  function LowerChar(c: char): char {
    if 'A' <= c <= 'Z' then (c as int + 32) as char else c
  }

  /**
   * `str.lower()` restricted to ASCII letters; every other character,
   * including Hangul and CJK, is its own lower case.
   */
  function Lower(s: string): (r: string)
    ensures |r| == |s|
  {
    seq(|s|, i requires 0 <= i < |s| => LowerChar(s[i]))
  }

  predicate HasUpper(s: string) {
    exists i | 0 <= i < |s| :: 'A' <= s[i] <= 'Z'
  }

  /** Lowering leaves a string without upper-case letters unchanged. */
  lemma LowerOfLower(s: string)
    requires !HasUpper(s)
    ensures Lower(s) == s
  {
  }

  /** Lowering is idempotent and leaves no upper-case letter behind. */
  lemma LowerIdempotent(s: string)
    ensures !HasUpper(Lower(s))
    ensures Lower(Lower(s)) == Lower(s)
  {
  }

  // --------------------------------------------------------------- strip

  /** Python's `str.isspace()` for one character. */
  predicate IsSpace(c: char) {
    c == ' ' || ('\t' <= c <= '\r') || ('\U{1C}' <= c <= '\U{1F}')
    || c == '\U{85}' || c == '\U{A0}' || c == '\U{1680}'
    || ('\U{2000}' <= c <= '\U{200A}') || c == '\U{2028}' || c == '\U{2029}'
    || c == '\U{202F}' || c == '\U{205F}' || c == '\U{3000}'
  }

  function TrimStart(s: string): (r: string)
    decreases |s|
  {
    if |s| > 0 && IsSpace(s[0]) then TrimStart(s[1..]) else s
  }

  function TrimEnd(s: string): (r: string)
    decreases |s|
  {
    if |s| > 0 && IsSpace(s[|s| - 1]) then TrimEnd(s[..|s| - 1]) else s
  }

  /** Python's `str.strip()`. */
  function Strip(s: string): string {
    TrimEnd(TrimStart(s))
  }

  ghost predicate AllSpace(s: string) {
    forall i | 0 <= i < |s| :: IsSpace(s[i])
  }

  /** A stripped string has no whitespace at either end. */
  ghost predicate Stripped(s: string) {
    |s| == 0 || (!IsSpace(s[0]) && !IsSpace(s[|s| - 1]))
  }

  /** The length of the whitespace run `TrimStart` removes. */
  lemma {:induction false} TrimStartCut(s: string) returns (k: nat)
    ensures k <= |s| && TrimStart(s) == s[k..] && AllSpace(s[..k])
    decreases |s|
  {
    if |s| > 0 && IsSpace(s[0]) {
      var t := s[1..];
      var m := TrimStartCut(t);
      k := m + 1;
      assert t[m..] == s[k..];
      var head := s[..k];
      forall j | 0 <= j < |head| ensures IsSpace(head[j]) {
        if j > 0 {
          assert head[j] == t[..m][j - 1];
        }
      }
    } else {
      k := 0;
      assert s == s[0..];
    }
  }

  lemma {:induction false} TrimStartSpec(s: string)
    ensures exists k | 0 <= k <= |s| :: TrimStart(s) == s[k..] && AllSpace(s[..k])
    ensures TrimStart(s) == "" || !IsSpace(TrimStart(s)[0])
    decreases |s|
  {
    var k := TrimStartCut(s);
    if |s| > 0 && IsSpace(s[0]) {
      TrimStartSpec(s[1..]);
    }
  }

  /** The length of what `TrimEnd` keeps: everything after it is whitespace. */
  lemma {:induction false} TrimEndCut(s: string) returns (k: nat)
    ensures k <= |s| && TrimEnd(s) == s[..k] && AllSpace(s[k..])
    decreases |s|
  {
    if |s| > 0 && IsSpace(s[|s| - 1]) {
      var t := s[..|s| - 1];
      k := TrimEndCut(t);
      assert t[..k] == s[..k];
      var tail := s[k..];
      forall j | 0 <= j < |tail| ensures IsSpace(tail[j]) {
        if k + j < |t| {
          assert tail[j] == t[k..][j];
        }
      }
    } else {
      k := |s|;
      assert s == s[..|s|];
    }
  }

  lemma {:induction false} TrimEndSpec(s: string)
    ensures exists k | 0 <= k <= |s| :: TrimEnd(s) == s[..k] && AllSpace(s[k..])
    ensures TrimEnd(s) == "" || !IsSpace(TrimEnd(s)[|TrimEnd(s)| - 1])
    decreases |s|
  {
    var k := TrimEndCut(s);
    if |s| > 0 && IsSpace(s[|s| - 1]) {
      TrimEndSpec(s[..|s| - 1]);
    }
  }

  /** TrimEnd never exposes whitespace at the front of a string that had none. */
  lemma {:induction false} TrimEndKeepsFront(s: string)
    requires |s| > 0 && !IsSpace(s[0])
    ensures TrimEnd(s) != [] && TrimEnd(s)[0] == s[0]
    decreases |s|
  {
    if IsSpace(s[|s| - 1]) {
      assert |s| > 1;
      TrimEndKeepsFront(s[..|s| - 1]);
    }
  }

  /**
   * `strip()` removes a whitespace prefix and a whitespace suffix, and
   * what is left starts and ends with non-whitespace.
   */
  lemma StripSpec(s: string)
    ensures Stripped(Strip(s))
    ensures exists i, j | 0 <= i <= j <= |s| :: Strip(s) == s[i..j] && AllSpace(s[..i]) && AllSpace(s[j..])
  {
    var t := TrimStart(s);
    TrimStartSpec(s);
    var i :| 0 <= i <= |s| && t == s[i..] && AllSpace(s[..i]);
    TrimEndSpec(t);
    var k :| 0 <= k <= |t| && TrimEnd(t) == t[..k] && AllSpace(t[k..]);
    if t != [] { TrimEndKeepsFront(t); }
    SliceOfSuffix(s, i, k);
    assert Strip(s) == s[i..i + k];
  }

  lemma SliceOfSuffix(s: string, i: nat, k: nat)
    requires i <= |s| && k <= |s| - i
    ensures s[i..][..k] == s[i..i + k] && s[i..][k..] == s[i + k..]
  {
  }

  lemma {:induction false} TrimStartOfStripped(s: string)
    requires Stripped(s)
    ensures TrimStart(s) == s
  {
  }

  lemma {:induction false} TrimEndOfStripped(s: string)
    requires Stripped(s)
    ensures TrimEnd(s) == s
  {
  }

  /** `strip()` is idempotent: a stripped string is its own `strip()`. */
  lemma StripIdempotent(s: string)
    ensures Strip(Strip(s)) == Strip(s)
  {
    StripSpec(s);
    TrimStartOfStripped(Strip(s));
    TrimEndOfStripped(Strip(s));
  }

  /** Stripping never introduces a character that was not there. */
  lemma StripKeepsAbsent(s: string, c: char)
    requires c !in s
    ensures c !in Strip(s)
  {
    StripSpec(s);
    var i, j :| 0 <= i <= j <= |s| && Strip(s) == s[i..j] && AllSpace(s[..i]) && AllSpace(s[j..]);
    assert forall n | i <= n < j :: s[i..j][n - i] == s[n];
  }

  // --------------------------------------------------------------- split

  /** Python's `s.split(sep)` for a one-character separator: always at least one piece. */
  function Split(s: string, sep: char): (r: seq<string>)
    ensures |r| >= 1
    decreases |s|
  {
    if |s| == 0 then [""]
    else
      var rest := Split(s[1..], sep);
      if s[0] == sep then [""] + rest else [[s[0]] + rest[0]] + rest[1..]
  }

  /** The inverse of `Split`: Python's `sep.join(pieces)`. */
  function Join(pieces: seq<string>, sep: char): string
    decreases |pieces|
  {
    if |pieces| == 0 then ""
    else if |pieces| == 1 then pieces[0]
    else pieces[0] + [sep] + Join(pieces[1..], sep)
  }

  ghost predicate NoSeparator(pieces: seq<string>, sep: char) {
    forall k | 0 <= k < |pieces| :: sep !in pieces[k]
  }

  /** Joining the pieces gives back the string, and no piece holds the separator. */
  lemma {:induction false} SplitJoin(s: string, sep: char)
    ensures Join(Split(s, sep), sep) == s
    ensures NoSeparator(Split(s, sep), sep)
    decreases |s|
  {
    if |s| > 0 {
      var rest := Split(s[1..], sep);
      SplitJoin(s[1..], sep);
      if s[0] == sep {
        assert Split(s, sep)[1..] == rest;
        assert Join(Split(s, sep), sep) == "" + [sep] + Join(rest, sep);
        assert s == [s[0]] + s[1..];
      } else {
        var r := Split(s, sep);
        assert r[0] == [s[0]] + rest[0];
        assert r[1..] == rest[1..];
        if |rest| == 1 {
          assert Join(r, sep) == [s[0]] + rest[0];
        } else {
          assert Join(rest, sep) == rest[0] + [sep] + Join(rest[1..], sep);
          assert Join(r, sep) == [s[0]] + rest[0] + [sep] + Join(rest[1..], sep);
        }
        assert s == [s[0]] + s[1..];
        forall k | 0 <= k < |r| ensures sep !in r[k] {
          if k > 0 { assert r[k] == rest[k]; }
        }
      }
    }
  }

  /** Splitting at a separator concatenates the pieces of both sides. */
  lemma {:induction false} SplitAppend(a: string, sep: char, b: string)
    ensures Split(a + [sep] + b, sep) == Split(a, sep) + Split(b, sep)
    decreases |a|
  {
    var s := a + [sep] + b;
    if |a| == 0 {
      assert s[1..] == b;
    } else {
      assert s[1..] == a[1..] + [sep] + b;
      SplitAppend(a[1..], sep, b);
    }
  }

  /** A string without the separator is a single piece. */
  lemma {:induction false} SplitNoSeparator(s: string, sep: char)
    requires sep !in s
    ensures Split(s, sep) == [s]
    decreases |s|
  {
    if |s| > 0 {
      SplitNoSeparator(s[1..], sep);
      assert [s[0]] + s[1..] == s;
    }
  }

  /** `Split` undoes `Join` for pieces that do not hold the separator. */
  lemma {:induction false} JoinSplit(pieces: seq<string>, sep: char)
    requires |pieces| >= 1
    requires NoSeparator(pieces, sep)
    ensures Split(Join(pieces, sep), sep) == pieces
    decreases |pieces|
  {
    if |pieces| == 1 {
      SplitNoSeparator(pieces[0], sep);
    } else {
      JoinSplit(pieces[1..], sep);
      SplitNoSeparator(pieces[0], sep);
      SplitAppend(pieces[0], sep, Join(pieces[1..], sep));
      assert [pieces[0]] + pieces[1..] == pieces;
    }
  }

  /** The last element of a non-empty sequence of pieces. */
  function LastPiece(pieces: seq<string>): string
    requires |pieces| >= 1
  {
    pieces[|pieces| - 1]
  }

  lemma {:induction false} SplitLastSuffix(s: string, sep: char)
    ensures |LastPiece(Split(s, sep))| <= |s|
    ensures s[|s| - |LastPiece(Split(s, sep))|..] == LastPiece(Split(s, sep))
    ensures |LastPiece(Split(s, sep))| == |s| || s[|s| - |LastPiece(Split(s, sep))| - 1] == sep
    ensures |Split(s, sep)| > 1 ==> |LastPiece(Split(s, sep))| < |s|
    decreases |s|
  {
    if |s| > 0 {
      SplitLastSuffix(s[1..], sep);
      var rest := Split(s[1..], sep);
      var last := LastPiece(Split(s, sep));
      var t := s[1..];
      assert t[|t| - |LastPiece(rest)|..] == s[|s| - |LastPiece(rest)|..];
      if s[0] == sep || |rest| > 1 {
        assert last == LastPiece(rest);
        if |last| < |t| {
          assert t[|t| - |last| - 1] == s[|s| - |last| - 1];
        } else {
          assert s[|s| - |last| - 1] == s[0];
        }
      } else {
        SplitJoin(t, sep);
        assert rest[0] == t;
        assert last == [s[0]] + rest[0];
        assert s == [s[0]] + t;
      }
    }
  }

  /**
   * The last piece of `Split(s, sep)` (Python `s.split(sep)[-1]`) is the
   * suffix of `s` after its last separator, or all of `s` when there is none.
   */
  lemma SplitLast(s: string, sep: char)
    ensures var last := LastPiece(Split(s, sep));
      && sep !in last
      && |last| <= |s|
      && s[|s| - |last|..] == last
      && (|last| == |s| || s[|s| - |last| - 1] == sep)
      && (|last| == |s| <==> sep !in s)
  {
    SplitJoin(s, sep);
    SplitLastSuffix(s, sep);
    if sep !in s { SplitNoSeparator(s, sep); }
    var last := LastPiece(Split(s, sep));
    if |last| == |s| { assert s[0..] == s; }
  }

  // ------------------------------------------------------- one-time split

  /** Index of the first `c` in `s`, or `|s|` when there is none. */
  function IndexOf(s: string, c: char): (i: nat)
    ensures i <= |s|
    ensures forall j | 0 <= j < i :: s[j] != c
    ensures i < |s| <==> c in s
    ensures i < |s| ==> s[i] == c
    decreases |s|
  {
    if |s| == 0 then 0 else if s[0] == c then 0 else 1 + IndexOf(s[1..], c)
  }
}
