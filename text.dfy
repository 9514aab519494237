/** PHP's string functions as the tracker commands use them: `explode`,
    `implode`, `str_replace` with an empty replacement, `trim`, ASCII
    `strtoupper`/`strtolower` and `str_ends_with`.  A `string` stands for the
    byte string PHP works on: one char per byte, so `|s|` is `strlen($s)`;
    text beyond ASCII, such as the emoji of the message headers, is written as
    its UTF-8 bytes. */
module Text {

  /** `implode($sep, $pieces)`. */
  function Join(pieces: seq<string>, sep: string): string
    decreases |pieces|
  {
    if |pieces| == 0 then ""
    else if |pieces| == 1 then pieces[0]
    else pieces[0] + sep + Join(pieces[1..], sep)
  }

  /** `explode($sep, $s)`: split at every occurrence of sep, scanning left to
      right; the pieces never overlap a separator. */
  function Explode(s: string, sep: string): (r: seq<string>)
    requires |sep| > 0
    ensures |r| > 0
    decreases |s|
  {
    if |s| < |sep| then [s]
    else if s[..|sep|] == sep then [""] + Explode(s[|sep|..], sep)
    else
      var rest := Explode(s[1..], sep);
      [[s[0]] + rest[0]] + rest[1..]
  }

  /** sep occurs in s at index j. */
  predicate OccursAt(s: string, sep: string, j: int) {
    0 <= j && j + |sep| <= |s| && s[j..j + |sep|] == sep
  }

  /** sep occurs somewhere in s. */
  ghost predicate Contains(s: string, sep: string) {
    exists j :: OccursAt(s, sep, j)
  }

  /** `str_replace($pat, '', $s)`: drop every occurrence found scanning left
      to right, which is joining the exploded pieces with nothing. */
  function RemoveAll(s: string, pat: string): string
    requires |pat| > 0
  {
    Join(Explode(s, pat), "")
  }

  /** `str_ends_with($s, $suffix)`. */
  predicate EndsWith(s: string, suffix: string) {
    |suffix| <= |s| && s[|s| - |suffix|..] == suffix
  }

  /** The characters PHP's `trim` strips by default. */
  predicate IsTrimmable(c: char) {
    c == ' ' || c == '\t' || c == '\n' || c == '\r' || c == '\0' || c == 11 as char
  }

  function TrimLeft(s: string): (r: string)
    ensures |r| <= |s| && r == s[|s| - |r|..]
    ensures r == [] || !IsTrimmable(r[0])
    decreases |s|
  {
    if s != [] && IsTrimmable(s[0]) then TrimLeft(s[1..]) else s
  }

  function TrimRight(s: string): (r: string)
    ensures |r| <= |s| && r == s[..|r|]
    ensures r == [] || !IsTrimmable(r[|r| - 1])
    decreases |s|
  {
    if s != [] && IsTrimmable(s[|s| - 1]) then TrimRight(s[..|s| - 1]) else s
  }

  /** `trim($s)`: neither end of the result is a trimmable character, and
      nothing is removed from a string whose ends are not trimmable. */
  function Trim(s: string): (r: string)
    ensures |r| <= |s|
    ensures r == [] || (!IsTrimmable(r[0]) && !IsTrimmable(r[|r| - 1]))
    ensures s == [] || (!IsTrimmable(s[0]) && !IsTrimmable(s[|s| - 1])) ==> r == s
  {
    TrimRight(TrimLeft(s))
  }

  function UpperChar(c: char): char {
    if 'a' <= c <= 'z' then (c as int - 32) as char else c
  }

  function LowerChar(c: char): char {
    if 'A' <= c <= 'Z' then (c as int + 32) as char else c
  }

  /** `strtoupper`, which since PHP 8.2 changes ASCII letters only. */
  function Upper(s: string): (r: string)
    ensures |r| == |s|
    ensures forall i :: 0 <= i < |s| ==> r[i] == UpperChar(s[i])
  {
    seq(|s|, i requires 0 <= i < |s| => UpperChar(s[i]))
  }

  /** `strtolower`, ASCII letters only. */
  function Lower(s: string): (r: string)
    ensures |r| == |s|
    ensures forall i :: 0 <= i < |s| ==> r[i] == LowerChar(s[i])
  {
    seq(|s|, i requires 0 <= i < |s| => LowerChar(s[i]))
  }

  /** Characters that `strtoupper` leaves alone: no lower-case ASCII letter. */
  predicate NoLowerAscii(s: string) {
    forall i :: 0 <= i < |s| ==> !('a' <= s[i] <= 'z')
  }

  /** Lower-casing a string with no lower-case letters and upper-casing it
      again gives the string back. */
  lemma UpperLowerRoundTrip(s: string)
    requires NoLowerAscii(s)
    ensures Upper(Lower(s)) == s
  {
    var r := Upper(Lower(s));
    forall i | 0 <= i < |s| ensures r[i] == s[i] {
      assert Lower(s)[i] == LowerChar(s[i]);
    }
  }

  // ---------------------------------------------------------------------------
  // explode / implode are inverse to each other

  lemma JoinCons(p: string, ps: seq<string>, sep: string)
    requires |ps| > 0
    ensures Join([p] + ps, sep) == p + sep + Join(ps, sep)
  {
    assert ([p] + ps)[1..] == ps;
  }

  /** Appending a piece appends the separator and the piece. */
  lemma {:induction false} JoinSnoc(ps: seq<string>, p: string, sep: string)
    requires |ps| > 0
    ensures Join(ps + [p], sep) == Join(ps, sep) + sep + p
    decreases |ps|
  {
    if |ps| == 1 {
      assert ps + [p] == [ps[0]] + [p];
    } else {
      assert (ps + [p])[1..] == ps[1..] + [p];
      JoinSnoc(ps[1..], p, sep);
      assert ps[0] + sep + (Join(ps[1..], sep) + sep + p) == (ps[0] + sep + Join(ps[1..], sep)) + sep + p;
    }
  }

  /** The piece after a leading separator of s. */
  lemma JoinExplodeSeparatorCase(s: string, sep: string)
    requires |sep| > 0 && |s| >= |sep| && s[..|sep|] == sep
    requires Join(Explode(s[|sep|..], sep), sep) == s[|sep|..]
    ensures Join(Explode(s, sep), sep) == s
  {
    var tail := s[|sep|..];
    var rest := Explode(tail, sep);
    assert Explode(s, sep) == [""] + rest;
    JoinCons("", rest, sep);
    SplitAtSeparator(s, sep);
  }

  /** A string that starts with sep is an empty piece, sep and the rest. */
  lemma SplitAtSeparator(s: string, sep: string)
    requires |s| >= |sep| && s[..|sep|] == sep
    ensures s == "" + sep + s[|sep|..]
  {
    assert s == s[..|sep|] + s[|sep|..];
  }

  /** The first piece of s grows by s[0]. */
  lemma JoinExplodeCharCase(s: string, sep: string)
    requires |sep| > 0 && |s| >= |sep| && s[..|sep|] != sep
    requires Join(Explode(s[1..], sep), sep) == s[1..]
    ensures Join(Explode(s, sep), sep) == s
  {
    var rest := Explode(s[1..], sep);
    var first := [s[0]] + rest[0];
    assert Explode(s, sep) == [first] + rest[1..];
    JoinGrowFirst(s[0], rest, sep);
    assert s == [s[0]] + s[1..];
  }

  lemma JoinGrowFirst(c: char, ps: seq<string>, sep: string)
    requires |ps| > 0
    ensures Join([[c] + ps[0]] + ps[1..], sep) == [c] + Join(ps, sep)
  {
    if |ps| == 1 {
      assert [[c] + ps[0]] + ps[1..] == [[c] + ps[0]];
    } else {
      var tail := Join(ps[1..], sep);
      assert ps == [ps[0]] + ps[1..];
      JoinCons(ps[0], ps[1..], sep);
      JoinCons([c] + ps[0], ps[1..], sep);
      assert [c] + ps[0] + sep + tail == [c] + (ps[0] + sep + tail);
    }
  }

  /** Joining the pieces of `explode` with the same separator gives back the
      original string. */
  lemma {:induction false} JoinExplode(s: string, sep: string)
    requires |sep| > 0
    ensures Join(Explode(s, sep), sep) == s
    decreases |s|
  {
    if |s| < |sep| {
    } else if s[..|sep|] == sep {
      JoinExplode(s[|sep|..], sep);
      JoinExplodeSeparatorCase(s, sep);
    } else {
      JoinExplode(s[1..], sep);
      JoinExplodeCharCase(s, sep);
    }
  }

  /** An occurrence in x[1..] is an occurrence in x, one place further on. */
  lemma OccursShift(x: string, sep: string, j: int)
    requires |x| > 0 && OccursAt(x[1..], sep, j)
    ensures OccursAt(x, sep, j + 1)
  {
    assert x[j + 1..j + 1 + |sep|] == x[1..][j..j + |sep|];
  }

  /** An occurrence in a prefix is an occurrence in the whole string. */
  lemma OccursPrefix(x: string, y: string, sep: string, j: int)
    requires OccursAt(x, sep, j)
    ensures OccursAt(x + y, sep, j)
  {
    assert (x + y)[j..j + |sep|] == x[j..j + |sep|];
  }

  lemma NotContainsTail(x: string, sep: string)
    requires |x| > 0 && !Contains(x, sep)
    ensures !Contains(x[1..], sep)
  {
    if Contains(x[1..], sep) {
      var j :| OccursAt(x[1..], sep, j);
      OccursShift(x, sep, j);
    }
  }

  /** A string without the separator explodes into itself. */
  lemma {:induction false} ExplodeNoSeparator(p: string, sep: string)
    requires |sep| > 0 && !Contains(p, sep)
    ensures Explode(p, sep) == [p]
    decreases |p|
  {
    if |p| >= |sep| {
      assert !OccursAt(p, sep, 0);
      assert p[0..0 + |sep|] == p[..|sep|];
      NotContainsTail(p, sep);
      ExplodeNoSeparator(p[1..], sep);
      assert [p[0]] + p[1..] == p;
    }
  }

  /** The next separator after piece p is the one right behind it, provided
      that p followed by all but the last character of sep holds no separator. */
  lemma {:induction false} ExplodeSkip(p: string, rest: string, sep: string)
    requires |sep| > 0 && !Contains(p + sep[..|sep| - 1], sep)
    ensures Explode(p + sep + rest, sep) == [p] + Explode(rest, sep)
    decreases |p|
  {
    var s := p + sep + rest;
    if |p| == 0 {
      assert s[..|sep|] == sep;
      assert s[|sep|..] == rest;
    } else {
      var x := p + sep[..|sep| - 1];
      assert !OccursAt(x, sep, 0);
      assert s[..|sep|] == x[0..0 + |sep|];
      NotContainsTail(x, sep);
      assert x == [p[0]] + (p[1..] + sep[..|sep| - 1]);
      assert x[1..] == p[1..] + sep[..|sep| - 1];
      ExplodeSkip(p[1..], rest, sep);
      assert s[1..] == p[1..] + sep + rest;
      assert [p[0]] + p[1..] == p;
    }
  }

  lemma NotContainsPrefix(p: string, sep: string)
    requires |sep| > 0 && !Contains(p + sep[..|sep| - 1], sep)
    ensures !Contains(p, sep)
  {
    if Contains(p, sep) {
      var j :| OccursAt(p, sep, j);
      OccursPrefix(p, sep[..|sep| - 1], sep, j);
    }
  }

  /** Pieces that cannot run into the separator come back out of `explode`
      after `implode`. */
  lemma {:induction false} ExplodeJoin(pieces: seq<string>, sep: string)
    requires |sep| > 0 && |pieces| > 0
    requires forall i :: 0 <= i < |pieces| ==> !Contains(pieces[i] + sep[..|sep| - 1], sep)
    ensures Explode(Join(pieces, sep), sep) == pieces
    decreases |pieces|
  {
    var p := pieces[0];
    if |pieces| == 1 {
      NotContainsPrefix(p, sep);
      ExplodeNoSeparator(p, sep);
    } else {
      ExplodeJoin(pieces[1..], sep);
      ExplodeSkip(p, Join(pieces[1..], sep), sep);
      assert [p] + pieces[1..] == pieces;
    }
  }

  /** The first piece of `explode` is a prefix of the input. */
  lemma {:induction false} ExplodeFirstIsPrefix(s: string, sep: string)
    requires |sep| > 0
    ensures |Explode(s, sep)[0]| <= |s| && Explode(s, sep)[0] == s[..|Explode(s, sep)[0]|]
    decreases |s|
  {
    if |s| < |sep| {
      assert Explode(s, sep) == [s];
    } else if s[..|sep|] == sep {
      assert Explode(s, sep)[0] == "";
    } else {
      ExplodeFirstIsPrefix(s[1..], sep);
      var rest := Explode(s[1..], sep);
      var n := |rest[0]|;
      assert rest[0] == s[1..][..n];
      assert Explode(s, sep)[0] == [s[0]] + rest[0];
      assert s[..1 + n] == [s[0]] + s[1..][..n];
    }
  }

  /** The piece that grows by s[0] still holds no separator. */
  lemma FirstPieceFree(s: string, sep: string)
    requires |sep| > 0 && |s| >= |sep| && s[..|sep|] != sep
    requires !Contains(Explode(s[1..], sep)[0], sep)
    ensures !Contains([s[0]] + Explode(s[1..], sep)[0], sep)
  {
    var tail := Explode(s[1..], sep)[0];
    ExplodeFirstIsPrefix(s[1..], sep);
    GrowFree(s, tail, sep);
  }

  lemma GrowFree(s: string, tail: string, sep: string)
    requires |sep| > 0 && |s| >= |sep| && s[..|sep|] != sep
    requires |tail| <= |s| - 1 && tail == s[1..][..|tail|]
    requires !Contains(tail, sep)
    ensures !Contains([s[0]] + tail, sep)
  {
    var first := [s[0]] + tail;
    assert first == s[..|first|];
    assert first[1..] == tail;
    forall j ensures !OccursAt(first, sep, j) {
      if j == 0 && |sep| <= |first| {
        assert s[..|sep|] == first[0..0 + |sep|];
      } else if j > 0 && j + |sep| <= |first| {
        assert first[1..][j - 1..j - 1 + |sep|] == first[j..j + |sep|];
        assert !OccursAt(tail, sep, j - 1);
      }
    }
  }

  /** No piece of `explode` holds the separator. */
  lemma {:induction false} ExplodePiecesFree(s: string, sep: string)
    requires |sep| > 0
    ensures forall i :: 0 <= i < |Explode(s, sep)| ==> !Contains(Explode(s, sep)[i], sep)
    decreases |s|
  {
    var r := Explode(s, sep);
    if |s| < |sep| {
      assert r == [s];
    } else if s[..|sep|] == sep {
      ExplodePiecesFree(s[|sep|..], sep);
      var rest := Explode(s[|sep|..], sep);
      assert r == [""] + rest;
      forall i | 0 <= i < |r| ensures !Contains(r[i], sep) {
        if i > 0 {
          assert r[i] == rest[i - 1];
        }
      }
    } else {
      ExplodePiecesFree(s[1..], sep);
      var rest := Explode(s[1..], sep);
      FirstPieceFree(s, sep);
      forall i | 0 <= i < |r| ensures !Contains(r[i], sep) {
        if i > 0 {
          assert r[i] == rest[i];
        }
      }
    }
  }

  lemma {:induction false} JoinEmptyNoChar(pieces: seq<string>, c: char)
    requires forall i :: 0 <= i < |pieces| ==> c !in pieces[i]
    ensures c !in Join(pieces, "")
    decreases |pieces|
  {
    if |pieces| > 1 {
      JoinEmptyNoChar(pieces[1..], c);
    }
  }

  /** `str_replace` of a one-character pattern leaves no such character. */
  lemma RemoveAllChar(s: string, c: char)
    ensures c !in RemoveAll(s, [c])
  {
    var ps := Explode(s, [c]);
    ExplodePiecesFree(s, [c]);
    forall i | 0 <= i < |ps| ensures c !in ps[i] {
      if c in ps[i] {
        var j :| 0 <= j < |ps[i]| && ps[i][j] == c;
        assert OccursAt(ps[i], [c], j);
      }
    }
    JoinEmptyNoChar(ps, c);
  }

  /** Removing the pattern from `base + pat` gives `base` back when base cannot
      run into the pattern. */
  lemma RemoveAllSuffix(base: string, pat: string)
    requires |pat| > 0 && !Contains(base + pat[..|pat| - 1], pat)
    ensures RemoveAll(base + pat, pat) == base
  {
    var pieces := [base, ""];
    JoinCons(base, [""], pat);
    assert Join(pieces, pat) == base + pat;
    assert "" + pat[..|pat| - 1] == pat[..|pat| - 1];
    assert !Contains(pat[..|pat| - 1], pat);
    ExplodeJoin(pieces, pat);
    JoinCons(base, [""], "");
  }

  /** Upper-casing leaves no lower-case letter. */
  lemma UpperHasNoLower(s: string)
    ensures NoLowerAscii(Upper(s))
  {
  }

  /** Changing case neither adds nor removes a character that is not a
      letter, such as `/` or `@`. */
  lemma CaseKeepsNonLetter(s: string, c: char)
    requires !('a' <= c <= 'z') && !('A' <= c <= 'Z')
    ensures c in Upper(s) <==> c in s
    ensures c in Lower(s) <==> c in s
  {
    if c in Upper(s) {
      var i :| 0 <= i < |s| && Upper(s)[i] == c;
      assert s[i] == c;
    }
    if c in Lower(s) {
      var i :| 0 <= i < |s| && Lower(s)[i] == c;
      assert s[i] == c;
    }
    if c in s {
      var i :| 0 <= i < |s| && s[i] == c;
      assert Upper(s)[i] == c && Lower(s)[i] == c;
    }
  }

  /** Joining pieces free of a one-character separator and exploding the
      result on it gives the pieces back. */
  lemma {:induction false} SplitOnChar(pieces: seq<string>, c: char)
    requires |pieces| > 0
    requires forall i :: 0 <= i < |pieces| ==> c !in pieces[i]
    ensures Explode(Join(pieces, [c]), [c]) == pieces
  {
    forall i | 0 <= i < |pieces| ensures !Contains(pieces[i] + [c][..0], [c]) {
      assert pieces[i] + [c][..0] == pieces[i];
      forall j ensures !OccursAt(pieces[i], [c], j) {
        if 0 <= j && j + 1 <= |pieces[i]| {
          assert pieces[i][j..j + 1][0] == pieces[i][j];
        }
      }
    }
    ExplodeJoin(pieces, [c]);
  }
}
