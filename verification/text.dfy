/**
 * The two Swift string operations the credential parser relies on:
 * `split(separator:)` with its default of omitting empty pieces, and
 * `trimmingCharacters(in: .whitespaces)`.
 */
module Text {

  /** Membership in Foundation's `CharacterSet.whitespaces`: the Unicode
      space separators (general category Zs) and the horizontal tab.
      Line breaks are not part of this set. */
  predicate IsWhitespace(c: char) {
    || c == '\t'
    || c == ' '
    || c == '\U{00A0}'
    || c == '\U{1680}'
    || ('\U{2000}' <= c <= '\U{200A}')
    || c == '\U{202F}'
    || c == '\U{205F}'
    || c == '\U{3000}'
  }

  predicate AllWhitespace(s: string) {
    forall i :: 0 <= i < |s| ==> IsWhitespace(s[i])
  }

  /** Neither end of `s` is whitespace. */
  predicate Trimmed(s: string) {
    s == [] || (!IsWhitespace(s[0]) && !IsWhitespace(s[|s| - 1]))
  }

  /** Drops the leading whitespace. */
  function TrimStart(s: string): (r: string)
    decreases |s|
  {
    if s != [] && IsWhitespace(s[0]) then TrimStart(s[1..]) else s
  }

  /** The result of `TrimStart` is the longest suffix of `s` that does not
      start with whitespace. */
  lemma {:induction false} TrimStartSpec(s: string)
    ensures var r := TrimStart(s);
            && |r| <= |s| && r == s[|s| - |r|..]
            && AllWhitespace(s[..|s| - |r|])
            && (r == [] || !IsWhitespace(r[0]))
    decreases |s|
  {
    if s != [] && IsWhitespace(s[0]) {
      TrimStartSpec(s[1..]);
      var r := TrimStart(s);
      forall i | 0 <= i < |s| - |r| ensures IsWhitespace(s[i]) {
        if i > 0 { assert s[i] == s[1..][i - 1]; }
      }
    }
  }

  /** Drops the trailing whitespace. */
  function TrimEnd(s: string): (r: string)
    decreases |s|
  {
    if s != [] && IsWhitespace(s[|s| - 1]) then TrimEnd(s[..|s| - 1]) else s
  }

  /** The result of `TrimEnd` is the longest prefix of `s` that does not end
      with whitespace. */
  lemma {:induction false} TrimEndSpec(s: string)
    ensures var r := TrimEnd(s);
            && |r| <= |s| && r == s[..|r|]
            && AllWhitespace(s[|r|..])
            && (r == [] || !IsWhitespace(r[|r| - 1]))
    decreases |s|
  {
    if s != [] && IsWhitespace(s[|s| - 1]) {
      var s' := s[..|s| - 1];
      TrimEndSpec(s');
      var r := TrimEnd(s);
      forall i | |r| <= i < |s| ensures IsWhitespace(s[i]) {
        if i < |s| - 1 { assert s[i] == s'[i]; }
      }
      assert AllWhitespace(s[|r|..]) by {
        forall i | 0 <= i < |s[|r|..]| ensures IsWhitespace(s[|r|..][i]) {
          assert s[|r|..][i] == s[|r| + i];
        }
      }
    }
  }

  /** `trimmingCharacters(in: .whitespaces)`: the infix of `s` left once the
      whitespace on both sides is gone. */
  function Trim(s: string): (r: string)
    ensures |r| <= |s| && Trimmed(r)
  {
    TrimStartSpec(s);
    TrimEndSpec(TrimStart(s));
    TrimEnd(TrimStart(s))
  }

  /** What trimming removes is whitespace only: `s` is the trimmed text with
      whitespace padding on either side. */
  lemma TrimKeepsInfix(s: string)
    ensures exists i :: 0 <= i <= |s| - |Trim(s)| && s[i..i + |Trim(s)|] == Trim(s)
                        && AllWhitespace(s[..i]) && AllWhitespace(s[i + |Trim(s)|..])
  {
    var t := TrimStart(s);
    var r := TrimEnd(t);
    TrimStartSpec(s);
    TrimEndSpec(t);
    var i := |s| - |t|;
    InfixWitness(s, i, t, r);
    assert AllWhitespace(s[..i]) && AllWhitespace(s[i + |r|..]);
  }

  lemma InfixWitness(s: string, i: nat, t: string, r: string)
    requires i <= |s| && t == s[i..] && |r| <= |t| && r == t[..|r|]
    ensures r == s[i..i + |r|] && s[i + |r|..] == t[|r|..]
  {
  }

  /** Padding made of whitespace on either side of a trimmed text is exactly
      what trimming removes. */
  lemma {:induction false} TrimRemovesPadding(left: string, t: string, right: string)
    requires AllWhitespace(left) && AllWhitespace(right) && Trimmed(t)
    ensures Trim(left + t + right) == t
  {
    if t == [] {
      TrimAllWhitespace(left, right);
    } else {
      assert (t + right)[0] == t[0];
      assert left + t + right == left + (t + right);
      TrimStartPadding(left, t + right);
      TrimEndPadding(t, right);
      assert Trim(left + t + right) == TrimEnd(TrimStart(left + (t + right)));
    }
  }

  lemma TrimAllWhitespace(left: string, right: string)
    requires AllWhitespace(left) && AllWhitespace(right)
    ensures Trim(left + [] + right) == []
  {
    var w := left + right;
    assert AllWhitespace(w) by {
      forall i | 0 <= i < |w| ensures IsWhitespace(w[i]) {
        if i >= |left| { assert w[i] == right[i - |left|]; }
      }
    }
    assert left + [] + right == w + [];
    TrimStartPadding(w, []);
    TrimEndSpec([]);
  }

  lemma {:induction false} TrimStartPadding(left: string, rest: string)
    requires AllWhitespace(left)
    requires rest == [] || !IsWhitespace(rest[0])
    ensures TrimStart(left + rest) == rest
    decreases |left|
  {
    if left != [] {
      assert (left + rest)[1..] == left[1..] + rest;
      TrimStartPadding(left[1..], rest);
    } else {
      assert left + rest == rest;
    }
  }

  lemma {:induction false} TrimEndPadding(t: string, right: string)
    requires AllWhitespace(right) && Trimmed(t)
    ensures TrimEnd(t + right) == t
    decreases |right|
  {
    if right != [] {
      var r' := right[..|right| - 1];
      assert (t + right)[..|t + right| - 1] == t + r';
      TrimEndPadding(t, r');
    } else {
      assert t + right == t;
    }
  }

  /** Trimming twice is trimming once. */
  lemma TrimIdempotent(s: string)
    ensures Trim(Trim(s)) == Trim(s)
  {
  }

  /** Length of the run before the first `sep` of `s` (or all of `s`). */
  function RunLength(s: string, sep: char): (k: nat)
    ensures k <= |s|
    ensures forall i :: 0 <= i < k ==> s[i] != sep
    ensures k == |s| || s[k] == sep
  {
    if s == [] || s[0] == sep then 0 else 1 + RunLength(s[1..], sep)
  }

  /** Swift's `s.split(separator: sep)`: the maximal runs of `s` free of
      `sep`, in order. Empty runs (between adjacent separators, or before a
      leading or after a trailing separator) are omitted. */
  function Split(s: string, sep: char): (pieces: seq<string>)
    ensures |pieces| <= |s|
    decreases |s|
  {
    if s == [] then []
    else if s[0] == sep then Split(s[1..], sep)
    else
      var k := RunLength(s, sep);
      [s[..k]] + Split(s[k..], sep)
  }

  /** Every piece is non-empty and free of the separator. */
  lemma {:induction false} SplitPieces(s: string, sep: char)
    ensures forall i :: 0 <= i < |Split(s, sep)| ==> Split(s, sep)[i] != [] && sep !in Split(s, sep)[i]
    decreases |s|
  {
    if s != [] {
      if s[0] == sep {
        SplitPieces(s[1..], sep);
        var pieces := Split(s, sep);
        assert pieces == Split(s[1..], sep);
        forall i | 0 <= i < |pieces| ensures pieces[i] != [] && sep !in pieces[i] {
          assert pieces[i] == Split(s[1..], sep)[i];
        }
      } else {
        var k := RunLength(s, sep);
        SplitPieces(s[k..], sep);
        var pieces := Split(s, sep);
        assert pieces == [s[..k]] + Split(s[k..], sep);
        forall i | 0 <= i < |pieces| ensures pieces[i] != [] && sep !in pieces[i] {
          if i > 0 { assert pieces[i] == Split(s[k..], sep)[i - 1]; }
        }
      }
    }
  }

  /** Glues `pieces` back together with one `sep` between neighbours. */
  function Join(pieces: seq<string>, sep: char): (s: string) {
    if |pieces| == 0 then []
    else if |pieces| == 1 then pieces[0]
    else pieces[0] + [sep] + Join(pieces[1..], sep)
  }

  /** `s` with every occurrence of `sep` removed. */
  function Without(s: string, sep: char): (r: string) {
    if s == [] then []
    else if s[0] == sep then Without(s[1..], sep)
    else [s[0]] + Without(s[1..], sep)
  }

  function Concat(pieces: seq<string>): (s: string) {
    if pieces == [] then [] else pieces[0] + Concat(pieces[1..])
  }

  lemma RunLengthIsFirstSeparator(s: string, sep: char, k: nat)
    requires k <= |s|
    requires forall i :: 0 <= i < k ==> s[i] != sep
    requires k == |s| || s[k] == sep
    ensures RunLength(s, sep) == k
  {
  }

  /** A separator cuts the text into two halves that split independently. */
  lemma {:induction false} SplitAtSeparator(a: string, sep: char, b: string)
    ensures Split(a + [sep] + b, sep) == Split(a, sep) + Split(b, sep)
    decreases |a|
  {
    var s := a + [sep] + b;
    if a == [] {
      assert s[1..] == b;
    } else if a[0] == sep {
      assert s[1..] == a[1..] + [sep] + b;
      SplitAtSeparator(a[1..], sep, b);
    } else {
      var k := RunLength(a, sep);
      RunLengthIsFirstSeparator(s, sep, k);
      assert s[..k] == a[..k];
      assert s[k..] == a[k..] + [sep] + b;
      SplitAtSeparator(a[k..], sep, b);
    }
  }

  /** A non-empty text without the separator is a single piece. */
  lemma SplitSinglePiece(p: string, sep: char)
    requires p != [] && sep !in p
    ensures Split(p, sep) == [p]
  {
    RunLengthIsFirstSeparator(p, sep, |p|);
    assert p[..|p|] == p;
    assert p[|p|..] == [];
  }

  /** A separator-free text contributes no piece when empty and one piece
      otherwise. */
  lemma SplitAtMostOnePiece(p: string, sep: char)
    requires sep !in p
    ensures p == [] ==> Split(p, sep) == []
    ensures p != [] ==> Split(p, sep) == [p]
  {
    if p != [] {
      SplitSinglePiece(p, sep);
    }
  }

  /** Splitting inverts joining, as long as no piece is empty or contains the
      separator. */
  lemma {:induction false} SplitJoin(pieces: seq<string>, sep: char)
    requires forall i :: 0 <= i < |pieces| ==> pieces[i] != [] && sep !in pieces[i]
    ensures Split(Join(pieces, sep), sep) == pieces
  {
    if |pieces| == 1 {
      SplitSinglePiece(pieces[0], sep);
    } else if |pieces| > 1 {
      SplitAtSeparator(pieces[0], sep, Join(pieces[1..], sep));
      SplitSinglePiece(pieces[0], sep);
      SplitJoin(pieces[1..], sep);
    }
  }

  lemma {:induction false} WithoutAppend(a: string, b: string, sep: char)
    ensures Without(a + b, sep) == Without(a, sep) + Without(b, sep)
    decreases |a|
  {
    if a != [] {
      assert (a + b)[1..] == a[1..] + b;
      WithoutAppend(a[1..], b, sep);
    } else {
      assert a + b == b;
    }
  }

  lemma {:induction false} WithoutAbsent(a: string, sep: char)
    requires sep !in a
    ensures Without(a, sep) == a
    decreases |a|
  {
    if a != [] {
      WithoutAbsent(a[1..], sep);
    }
  }

  /** Splitting loses the separators and nothing else. */
  lemma {:induction false} SplitKeepsOtherCharacters(s: string, sep: char)
    ensures Concat(Split(s, sep)) == Without(s, sep)
    decreases |s|
  {
    if s != [] {
      if s[0] == sep {
        SplitKeepsOtherCharacters(s[1..], sep);
      } else {
        var k := RunLength(s, sep);
        var pieces := Split(s, sep);
        assert pieces[1..] == Split(s[k..], sep);
        SplitKeepsOtherCharacters(s[k..], sep);
        assert s == s[..k] + s[k..];
        WithoutAppend(s[..k], s[k..], sep);
        WithoutAbsent(s[..k], sep);
      }
    }
  }
}
