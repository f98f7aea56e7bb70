/**
 * Text: the string operations the report and gminfo code rely on.
 *
 * `ReplaceAll` is Python's `str.replace(pat, rep)` for a non-empty pattern:
 * it scans left to right and replaces every non-overlapping occurrence. The
 * lemmas below say when a replacement can be pushed through a concatenation,
 * which is what lets the report templates be reasoned about piece by piece.
 */
module Text {

  /** Python's `s.replace(pat, rep)` for a non-empty `pat`. */
  function ReplaceAll(s: string, pat: string, rep: string): string
    requires pat != []
    decreases |s|
  {
    if |s| < |pat| then s
    else if s[..|pat|] == pat then rep + ReplaceAll(s[|pat|..], pat, rep)
    else [s[0]] + ReplaceAll(s[1..], pat, rep)
  }

  /** `pat` occurs in `s` at position `i`. */
  ghost predicate MatchAt(pat: string, s: string, i: int) {
    0 <= i && i + |pat| <= |s| && s[i..i + |pat|] == pat
  }

  /** Python's `pat in s`. */
  ghost predicate Occurs(pat: string, s: string) {
    exists i :: MatchAt(pat, s, i)
  }

  /** No proper suffix of `x` is a proper prefix of `pat`: no occurrence of
      `pat` can start inside `x` and end after it. */
  ghost predicate Boundary(x: string, pat: string) {
    forall k :: 0 < k < |pat| && k <= |x| ==> x[|x| - k..] != pat[..k]
  }

  /** A bracket word such as `[MAPPATH]` or `[box]`: one `[` at the start,
      one `]` at the end. Every template placeholder is one. */
  ghost predicate Closed(w: string) {
    && |w| >= 2 && w[0] == '[' && w[|w| - 1] == ']'
    && '[' !in w[1..] && ']' !in w[..|w| - 1]
  }

  /** A template piece: text without `[`, or a bracket word. */
  ghost predicate IsPiece(x: string) {
    '[' !in x || Closed(x)
  }

  ghost predicate AllPieces(ps: seq<string>) {
    forall i :: 0 <= i < |ps| ==> IsPiece(ps[i])
  }

  /** Concatenation of a list of pieces. */
  function Concat(ps: seq<string>): string {
    if ps == [] then "" else ps[0] + Concat(ps[1..])
  }

  /** Each piece equal to `pat` becomes `rep`; the others are kept. */
  function Subst(ps: seq<string>, pat: string, rep: string): (r: seq<string>)
    ensures |r| == |ps|
    ensures forall i :: 0 <= i < |ps| ==> r[i] == if ps[i] == pat then rep else ps[i]
  {
    seq(|ps|, i requires 0 <= i < |ps| => if ps[i] == pat then rep else ps[i])
  }

  lemma ConcatAppend(a: seq<string>, b: seq<string>)
    ensures Concat(a + b) == Concat(a) + Concat(b)
  {
    if a == [] {
      assert a + b == b;
    } else {
      assert (a + b)[0] == a[0];
      assert (a + b)[1..] == a[1..] + b;
      ConcatAppend(a[1..], b);
    }
  }

  /** A string in which `pat` does not occur is left unchanged. */
  lemma {:induction false} ReplaceAllAbsent(s: string, pat: string, rep: string)
    requires pat != [] && !Occurs(pat, s)
    ensures ReplaceAll(s, pat, rep) == s
    decreases |s|
  {
    if |s| >= |pat| {
      assert !MatchAt(pat, s, 0);
      assert !Occurs(pat, s[1..]) by {
        forall i | MatchAt(pat, s[1..], i) ensures MatchAt(pat, s, i + 1) {
          assert s[1..][i..i + |pat|] == s[i + 1..i + 1 + |pat|];
        }
      }
      ReplaceAllAbsent(s[1..], pat, rep);
      assert s == [s[0]] + s[1..];
    }
  }

  /** A suffix of a string with a boundary keeps the boundary. */
  lemma BoundaryDrop(x: string, n: nat, pat: string)
    requires n <= |x| && Boundary(x, pat)
    ensures Boundary(x[n..], pat)
  {
    forall k | 0 < k < |pat| && k <= |x[n..]| ensures x[n..][|x[n..]| - k..] != pat[..k] {
      assert x[n..][|x[n..]| - k..] == x[|x| - k..];
    }
  }

  /** Replacement commutes with concatenation when no occurrence straddles
      the seam. */
  lemma {:induction false} ReplaceAllAppend(x: string, y: string, pat: string, rep: string)
    requires pat != [] && Boundary(x, pat)
    ensures ReplaceAll(x + y, pat, rep) == ReplaceAll(x, pat, rep) + ReplaceAll(y, pat, rep)
    decreases |x|, 1
  {
    var s := x + y;
    if x == [] {
      assert s == y;
    } else if |s| < |pat| {
      assert ReplaceAll(y, pat, rep) == y;
    } else if |x| < |pat| {
      assert s[..|pat|][..|x|] == x == x[|x| - |x|..];
      AppendSkip(x, y, pat, rep);
    } else if x[..|pat|] == pat {
      AppendMatch(x, y, pat, rep);
    } else {
      AppendSkip(x, y, pat, rep);
    }
  }

  lemma {:induction false} AppendMatch(x: string, y: string, pat: string, rep: string)
    requires pat != [] && Boundary(x, pat) && |pat| <= |x| && x[..|pat|] == pat
    ensures ReplaceAll(x + y, pat, rep) == ReplaceAll(x, pat, rep) + ReplaceAll(y, pat, rep)
    decreases |x|, 0
  {
    var s := x + y;
    assert s[..|pat|] == x[..|pat|];
    assert s[|pat|..] == x[|pat|..] + y;
    BoundaryDrop(x, |pat|, pat);
    ReplaceAllAppend(x[|pat|..], y, pat, rep);
  }

  lemma {:induction false} AppendSkip(x: string, y: string, pat: string, rep: string)
    requires pat != [] && Boundary(x, pat) && x != [] && |pat| <= |x + y|
    requires (x + y)[..|pat|] != pat
    requires |pat| <= |x| ==> x[..|pat|] != pat
    ensures ReplaceAll(x + y, pat, rep) == ReplaceAll(x, pat, rep) + ReplaceAll(y, pat, rep)
    decreases |x|, 0
  {
    var s := x + y;
    assert s[0] == x[0] && s[1..] == x[1..] + y;
    assert ReplaceAll(s, pat, rep) == [x[0]] + ReplaceAll(x[1..] + y, pat, rep);
    BoundaryDrop(x, 1, pat);
    ReplaceAllAppend(x[1..], y, pat, rep);
    if |x| < |pat| {
      assert ReplaceAll(x[1..], pat, rep) == x[1..];
      assert ReplaceAll(x, pat, rep) == x == [x[0]] + x[1..];
    } else {
      assert ReplaceAll(x, pat, rep) == [x[0]] + ReplaceAll(x[1..], pat, rep);
    }
  }

  /** Text without `[` neither contains a placeholder nor lets one straddle
      its end. */
  lemma TextInert(x: string, pat: string)
    requires |pat| > 0 && pat[0] == '[' && '[' !in x
    ensures !Occurs(pat, x) && Boundary(x, pat)
  {
    forall i | 0 <= i && i + |pat| <= |x| ensures !MatchAt(pat, x, i) {
      assert x[i..i + |pat|][0] == x[i];
    }
    forall k | 0 < k < |pat| && k <= |x| ensures x[|x| - k..] != pat[..k] {
      assert x[|x| - k..][0] == x[|x| - k];
    }
  }

  /** Two different bracket words: neither occurs in the other, and neither
      can straddle the end of the other. */
  lemma ClosedInert(x: string, pat: string)
    requires Closed(x) && Closed(pat) && x != pat
    ensures !Occurs(pat, x) && Boundary(x, pat)
  {
    forall i | 0 <= i && i + |pat| <= |x| ensures !MatchAt(pat, x, i) {
      if i > 0 {
        assert x[i..i + |pat|][0] == x[i] == x[1..][i - 1];
      } else if |pat| < |x| {
        assert x[i..i + |pat|][|pat| - 1] == x[|pat| - 1] == x[..|x| - 1][|pat| - 1];
      } else {
        assert x[i..i + |pat|] == x;
      }
    }
    forall k | 0 < k < |pat| && k <= |x| ensures x[|x| - k..] != pat[..k] {
      if k < |x| {
        assert x[|x| - k..][0] == x[|x| - k] == x[1..][|x| - k - 1];
      } else {
        assert x[|x| - k..][k - 1] == x[|x| - 1];
        assert pat[..k][k - 1] == pat[..|pat| - 1][k - 1];
      }
    }
  }

  lemma PieceInert(x: string, pat: string)
    requires IsPiece(x) && Closed(pat) && x != pat
    ensures !Occurs(pat, x) && Boundary(x, pat)
  {
    if '[' !in x { TextInert(x, pat); } else { ClosedInert(x, pat); }
  }

  /** A bracket word has no proper border. */
  lemma ClosedSelfBoundary(pat: string)
    requires Closed(pat)
    ensures Boundary(pat, pat)
  {
    forall k | 0 < k < |pat| && k <= |pat| ensures pat[|pat| - k..] != pat[..k] {
      assert pat[|pat| - k..][0] == pat[|pat| - k] == pat[1..][|pat| - k - 1];
    }
  }

  /** Filling one placeholder of a template given as pieces: Python's
      replace on the whole text is the piecewise substitution. */
  lemma {:induction false} Fill(ps: seq<string>, pat: string, rep: string)
    requires Closed(pat) && AllPieces(ps)
    ensures ReplaceAll(Concat(ps), pat, rep) == Concat(Subst(ps, pat, rep))
    decreases |ps|
  {
    if ps != [] {
      assert AllPieces(ps[1..]) by {
        forall i | 0 <= i < |ps[1..]| ensures IsPiece(ps[1..][i]) {
          assert ps[1..][i] == ps[i + 1];
        }
      }
      Fill(ps[1..], pat, rep);
      assert IsPiece(ps[0]);
      FillPiece(ps[0], pat, rep);
      ReplaceAllAppend(ps[0], Concat(ps[1..]), pat, rep);
      assert Subst(ps, pat, rep) == [Subst(ps, pat, rep)[0]] + Subst(ps[1..], pat, rep);
    }
  }

  /** One piece on its own: the placeholder becomes the replacement, any
      other piece is kept, and no occurrence starts inside the piece and runs
      past its end. */
  lemma FillPiece(x: string, pat: string, rep: string)
    requires Closed(pat) && IsPiece(x)
    ensures Boundary(x, pat)
    ensures ReplaceAll(x, pat, rep) == if x == pat then rep else x
  {
    if x == pat {
      ClosedSelfBoundary(pat);
      assert pat[..|pat|] == pat;
      assert pat[|pat|..] == [];
    } else {
      PieceInert(x, pat);
      ReplaceAllAbsent(x, pat, rep);
    }
  }

  /** `[inner]`. */
  function Bracket(inner: string): string {
    "[" + inner + "]"
  }

  lemma BracketClosed(inner: string)
    requires forall k :: 0 <= k < |inner| ==> inner[k] != '[' && inner[k] != ']'
    ensures Closed(Bracket(inner))
  {
    var w := Bracket(inner);
    assert w[1..] == inner + "]";
    assert w[..|w| - 1] == "[" + inner;
  }

  /** A pattern holding a character the text lacks does not occur in it. */
  lemma MissingChar(pat: string, s: string, c: char)
    requires c in pat && c !in s
    ensures !Occurs(pat, s)
  {
    forall i | 0 <= i && i + |pat| <= |s| ensures !MatchAt(pat, s, i) {
      var k :| 0 <= k < |pat| && pat[k] == c;
      assert s[i..i + |pat|][k] == s[i + k];
    }
  }

  lemma AllPiecesJoin(a: seq<string>, b: seq<string>)
    requires AllPieces(a) && AllPieces(b)
    ensures AllPieces(a + b)
  {
    forall i | 0 <= i < |a + b| ensures IsPiece((a + b)[i]) {
      if i < |a| { assert (a + b)[i] == a[i]; } else { assert (a + b)[i] == b[i - |a|]; }
    }
  }

  lemma ConcatOne(x: string)
    ensures Concat([x]) == x
  {
    assert Concat([x]) == x + Concat([]);
  }

  lemma ConcatSnoc(ps: seq<string>, x: string)
    ensures Concat(ps + [x]) == Concat(ps) + x
  {
    ConcatAppend(ps, [x]);
    ConcatOne(x);
  }

  lemma AppendAssoc<T>(a: seq<T>, b: seq<T>, c: seq<T>)
    ensures (a + b) + c == a + (b + c)
  {
  }

  lemma AppendEmpty<T>(a: seq<T>)
    ensures a + [] == a
  {
  }

  lemma TakeDrop<T>(s: seq<T>, k: int)
    requires 0 <= k <= |s|
    ensures s == s[..k] + s[k..]
  {
  }

  lemma TakeAll<T>(s: seq<T>)
    ensures s[..|s|] == s
  {
  }

  /** A non-empty list is its front followed by its last element. */
  lemma TakeSnoc<T>(s: seq<T>, i: int)
    requires 0 <= i < |s|
    ensures s[..i + 1] == s[..i] + [s[i]]
  {
  }

  lemma InitLast<T>(s: seq<T>)
    requires s != []
    ensures s[..|s| - 1] + [s[|s| - 1]] == s
  {
  }

  lemma ConcatSplice(a: seq<string>, x: string, b: seq<string>)
    ensures Concat(a + [x] + b) == Concat(a) + x + Concat(b)
  {
    ConcatAppend(a + [x], b);
    ConcatAppend(a, [x]);
    assert Concat([x]) == x + Concat([]);
  }

  /** A list of pieces in which none of the placeholders `pats` appears. */
  ghost predicate FreeOf(ps: seq<string>, pats: seq<string>) {
    AllPieces(ps) && forall j :: 0 <= j < |pats| ==> pats[j] !in ps
  }

  ghost predicate AllClosed(pats: seq<string>) {
    forall j :: 0 <= j < |pats| ==> Closed(pats[j])
  }

  lemma FreeOfJoin(a: seq<string>, b: seq<string>, pats: seq<string>)
    requires FreeOf(a, pats) && FreeOf(b, pats)
    ensures FreeOf(a + b, pats)
  {
    AllPiecesJoin(a, b);
  }

  /** Text without `[` is a piece and is none of the placeholders. */
  lemma FreeOfText(x: string, pats: seq<string>)
    requires '[' !in x && AllClosed(pats)
    ensures FreeOf([x], pats)
  {
    forall j | 0 <= j < |pats| ensures pats[j] !in [x] {
      assert Closed(pats[j]);
      assert pats[j][0] == '[';
    }
  }

  /** A bracket word that is not a placeholder is a harmless piece. */
  lemma FreeOfWord(w: string, pats: seq<string>)
    requires Closed(w) && w !in pats
    ensures FreeOf([w], pats)
  {
    forall j | 0 <= j < |pats| ensures pats[j] !in [w] {
      assert pats[j] != w;
    }
  }

  lemma FreeOfEach(ps: seq<string>, pats: seq<string>)
    requires forall i :: 0 <= i < |ps| ==> FreeOf([ps[i]], pats)
    ensures FreeOf(ps, pats)
  {
    forall i | 0 <= i < |ps| ensures IsPiece(ps[i]) {
      assert FreeOf([ps[i]], pats);
      assert [ps[i]][0] == ps[i];
    }
    forall j, i | 0 <= j < |pats| && 0 <= i < |ps| ensures ps[i] != pats[j] {
      assert FreeOf([ps[i]], pats);
    }
  }

  /** A template with exactly one copy of `pat`, between `a` and `b`: the
      replacement lands there, and both sides are left as they were. When
      the replacement is itself a list of pieces `r`, the result is again a
      list of pieces. */
  lemma FillSplice(a: seq<string>, b: seq<string>, pat: string, r: seq<string>)
    requires Closed(pat) && AllPieces(a) && AllPieces(b) && pat !in a && pat !in b
    ensures ReplaceAll(Concat(a + [pat] + b), pat, Concat(r)) == Concat(a + r + b)
  {
    var ps := a + [pat] + b;
    AllPiecesJoin(a, [pat]);
    AllPiecesJoin(a + [pat], b);
    Fill(ps, pat, Concat(r));
    var q := Subst(ps, pat, Concat(r));
    assert q == a + [Concat(r)] + b by {
      forall i | 0 <= i < |ps| ensures q[i] == (a + [Concat(r)] + b)[i] {
        if i < |a| {
          assert ps[i] == a[i];
        } else if i > |a| {
          assert ps[i] == b[i - |a| - 1];
        }
      }
    }
    ConcatSplice(a, Concat(r), b);
    ConcatAppend(a + r, b);
    ConcatAppend(a, r);
  }

  /** A placeholder that no piece equals does not occur in the template. */
  lemma {:induction false} Absent(ps: seq<string>, pat: string)
    requires Closed(pat) && AllPieces(ps) && pat !in ps
    ensures !Occurs(pat, Concat(ps))
    decreases |ps|
  {
    if ps != [] {
      assert AllPieces(ps[1..]) by {
        forall i | 0 <= i < |ps[1..]| ensures IsPiece(ps[1..][i]) {
          assert ps[1..][i] == ps[i + 1];
        }
      }
      Absent(ps[1..], pat);
      assert IsPiece(ps[0]);
      PieceInert(ps[0], pat);
      var x, y := ps[0], Concat(ps[1..]);
      forall i | 0 <= i && i + |pat| <= |x + y| ensures !MatchAt(pat, x + y, i) {
        if i + |pat| <= |x| {
          assert (x + y)[i..i + |pat|] == x[i..i + |pat|];
          assert !MatchAt(pat, x, i);
        } else if i >= |x| {
          assert (x + y)[i..i + |pat|] == y[i - |x|..i - |x| + |pat|];
          assert !MatchAt(pat, y, i - |x|);
        } else {
          var k := |x| - i;
          assert (x + y)[i..i + |pat|][..k] == x[|x| - k..];
          assert x[|x| - k..] != pat[..k];
        }
      }
    }
  }

  /** Characters of the result come from the input or from the replacement. */
  lemma {:induction false} ReplaceAllChars(s: string, pat: string, rep: string, c: char)
    requires pat != [] && c !in s && c !in rep
    ensures c !in ReplaceAll(s, pat, rep)
    decreases |s|
  {
    if |s| >= |pat| {
      if s[..|pat|] == pat {
        assert c !in s[|pat|..];
        ReplaceAllChars(s[|pat|..], pat, rep, c);
      } else {
        assert c !in s[1..];
        ReplaceAllChars(s[1..], pat, rep, c);
      }
    }
  }

  /** A leading occurrence is replaced, and the rest is scanned on its own. */
  lemma ReplaceAllLeading(pat: string, rest: string, rep: string)
    requires pat != []
    ensures ReplaceAll(pat + rest, pat, rep) == rep + ReplaceAll(rest, pat, rep)
  {
    assert (pat + rest)[..|pat|] == pat;
    assert (pat + rest)[|pat|..] == rest;
  }
}
