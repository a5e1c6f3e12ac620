/** The exact condition under which redaction with one secret is complete, whatever the secret looks like. */
module SingleSecret {
  import opened Text
  import opened Redactor

  /** `s` can come about around a marker: it agrees with the marker where it overlaps it at `d`, and if it begins before
      the marker, its beginning can stand in front of an occurrence of `s` that is the leftmost one. */
  ghost predicate ArisesAt(s: string, m: string, d: int) {
    ClashAt(s, m, d) && (d < 0 ==> OnlyAtEnd(s[..-d], s))
  }

  // ---------------------------------------------------------------------
  // Nothing else brings the secret back

  lemma InFirstPiece(s: string, p: string, k: nat)
    requires s != [] && OccursAt(s, p, k)
    ensures OccursAt(s, p + s, k) && k != |p|
  {
    assert (p + s)[k..k + |s|] == p[k..k + |s|];
  }

  /** An occurrence that begins in a piece and ends behind it. */
  lemma AcrossPiece(s: string, p: string, m: string, rest: string, k: nat)
    requires k < |p| < k + |s| && OccursAt(s, p + m + rest, k) && m != []
    requires OnlyAtEnd(p, s)
    ensures ArisesAt(s, m, k - |p|)
  {
    var d, whole := k - |p|, p + m + rest;
    assert forall i :: 0 <= i < |s| ==> whole[k + i] == s[i];
    assert ClashAt(s, m, d);
    var x := s[..-d];
    assert x == p[k..] by {
      assert whole[k..|p|] == p[k..];
      assert forall i :: 0 <= i < -d ==> x[i] == whole[k..|p|][i];
    }
    assert p + s == p[..k] + (x + s);
    forall j | OccursAt(s, x + s, j)
      ensures j == -d
    {
      OccursBehindPrefix(s, p[..k], x + s, j);
    }
  }

  lemma OccursBehindPrefix(s: string, a: string, t: string, j: nat)
    requires OccursAt(s, t, j)
    ensures OccursAt(s, a + t, |a| + j)
  {
    assert (a + t)[|a| + j..|a| + j + |s|] == t[j..j + |s|];
  }

  /** In a text cut at the leftmost occurrences, with markers in the cuts, the secret occurs only where it arises. */
  lemma {:induction false} ArisesFromPieces(s: string, parts: seq<string>, m: string, k: nat) returns (d: int)
    requires s != [] && m != [] && parts != [] && Leftmost(parts, s) && OccursAt(s, Join(parts, m), k)
    ensures ArisesAt(s, m, d)
    decreases |parts|
  {
    var p, rest := parts[0], parts[1..];
    d := k - |p|;
    if |parts| > 1 {
      var later := Join(rest, m);
      assert OccursAt(s, p + m + later, k);
      FirstPiece(parts, s);
      if k + |s| <= |p| {
        assert p[k..k + |s|] == (p + m + later)[k..k + |s|];
        InFirstPiece(s, p, k);
      } else if k < |p| {
        AcrossPiece(s, p, m, later, k);
      } else if k < |p| + |m| {
        FromMarker(s, p, m, later, k);
      } else {
        assert later[d - |m|..d - |m| + |s|] == (p + m + later)[k..k + |s|];
        d := ArisesFromPieces(s, rest, m, d - |m|);
      }
    }
  }

  lemma FirstPiece(parts: seq<string>, s: string)
    requires |parts| > 1 && Leftmost(parts, s)
    ensures OnlyAtEnd(parts[0], s)
    ensures Leftmost(parts[1..], s)
  {
    hide OnlyAtEnd, Occurs;
    var rest := parts[1..];
    assert forall i :: 0 <= i < |rest| ==> rest[i] == parts[i + 1];
  }

  /** An occurrence that begins in a marker. */
  lemma FromMarker(s: string, p: string, m: string, rest: string, k: nat)
    requires s != [] && |p| <= k < |p| + |m| && OccursAt(s, p + m + rest, k)
    ensures ArisesAt(s, m, k - |p|)
  {
    var whole := p + m + rest;
    assert forall i :: 0 <= i < |s| ==> whole[k + i] == s[i];
  }

  // ---------------------------------------------------------------------
  // Where it arises, some text brings it back

  lemma FrontOccurs(s: string, a: string, b: string)
    requires |s| <= |a| && s <= a + b
    ensures OccursAt(s, a, 0)
  {
    assert a[0..|s|] == (a + b)[..|s|];
  }

  /** A text in front of the leftmost occurrence is kept. */
  lemma {:induction false} ReplaceSkips(x: string, s: string, y: string, m: string)
    requires s != [] && OnlyAtEnd(x, s)
    ensures Replace(x + s + y, s, m) == x + m + Replace(y, s, m)
    decreases |x|
  {
    var t := x + s + y;
    if x == [] {
      assert t == s + y && t[|s|..] == y;
      ReplaceUnfold(t, s, m);
      hide Replace;
      assert [] + m + Replace(y, s, m) == m + Replace(y, s, m);
    } else {
      NotYet(x, s, y);
      OnlyAtEndLater(x, s);
      ReplaceUnfold(t, s, m);
      ReplaceSkips(x[1..], s, y, m);
      hide Replace, OnlyAtEnd;
      FirstAndRest(x, s, y);
      FirstAndRest(x, m, Replace(y, s, m));
    }
  }

  lemma FirstAndRest(x: string, a: string, b: string)
    requires x != []
    ensures var t := x + a + b;
            t != [] && t[0] == x[0] && t[1..] == x[1..] + a + b && t == [x[0]] + (x[1..] + a + b)
  {
  }

  lemma NotYet(x: string, s: string, y: string)
    requires x != [] && OnlyAtEnd(x, s)
    ensures !(s <= x + s + y)
  {
    hide OccursAt;
    if s <= x + s + y {
      FrontOccurs(s, x + s, y);
    }
  }

  lemma OnlyAtEndLater(x: string, s: string)
    requires x != [] && OnlyAtEnd(x, s)
    ensures OnlyAtEnd(x[1..], s)
  {
    hide OccursAt;
    assert x + s == [x[0]] + (x[1..] + s);
    forall k | OccursAt(s, x[1..] + s, k)
      ensures k == |x[1..]|
    {
      OccursBehindPrefix(s, [x[0]], x[1..] + s, k);
    }
  }

  /** Text shorter than the secret is kept. */
  lemma ShorterIsKept(y: string, s: string, m: string)
    requires s != [] && |y| < |s|
    ensures Replace(y, s, m) == y
  {
    ContainsIsOccurs(y, s);
    ReplaceAbsent(y, s, m);
  }

  /** The text that brings the secret back: its part before the marker, the secret, and its part behind the marker. */
  lemma BroughtBack(s: string, m: string, d: int) returns (text: string)
    requires s != [] && ArisesAt(s, m, d)
    ensures Occurs(s, Replace(text, s, m))
  {
    var x := if d < 0 then s[..-d] else [];
    var y := if |m| - d < |s| then s[|m| - d..] else [];
    text := x + s + y;
    if d >= 0 {
      OnlyItself(s);
    }
    ReplaceSkips(x, s, y, m);
    ShorterIsKept(y, s, m);
    AroundMarker(s, m, d, x, y);
  }

  lemma OnlyItself(s: string)
    ensures OnlyAtEnd([], s)
  {
  }

  lemma AroundMarker(s: string, m: string, d: int, x: string, y: string)
    requires ClashAt(s, m, d)
    requires x == if d < 0 then s[..-d] else []
    requires y == if |m| - d < |s| then s[|m| - d..] else []
    ensures Occurs(s, x + m + y)
  {
    var whole, k := x + m + y, if d < 0 then 0 else d;
    assert k + |s| <= |whole|;
    forall i | 0 <= i < |s|
      ensures whole[k + i] == s[i]
    {
      if 0 <= i + d < |m| {
        assert s[i] == m[i + d];
      }
    }
    assert whole[k..k + |s|] == s;
    assert OccursAt(s, whole, k);
  }

  /** Redaction with one secret is complete exactly when the secret arises nowhere around the marker. */
  lemma CompleteExactly(s: Secret)
    ensures Complete([s]) <==> forall d: int :: !ArisesAt(s, REDACTED, d)
  {
    hide ArisesAt, Replace, Contains, OccursAt;
    if d: int :| ArisesAt(s, REDACTED, d) {
      var text := BroughtBack(s, REDACTED, d);
      OneSecret(s, text);
      assert s in [s];
    } else {
      forall text, u | u in [s]
        ensures !Occurs(u, RedactAll([s], text))
      {
        OneSecret(s, text);
        var parts := Pieces(text, s);
        ReplaceIsExact(text, s, REDACTED);
        if Occurs(s, Replace(text, s, REDACTED)) {
          var k: nat :| OccursAt(s, Join(parts, REDACTED), k);
          var d := ArisesFromPieces(s, parts, REDACTED, k);
        }
      }
    }
  }

  lemma OneSecret(s: Secret, text: string)
    ensures RedactAll([s], text) == Replace(text, s, REDACTED)
  {
    assert [s][1..] == [];
    if !Contains(text, s) {
      ReplaceAbsent(text, s, REDACTED);
    }
  }

  /** Brackets as such do no harm... */
  lemma SomeBracketsAreSafe()
    ensures Clear("p<w", REDACTED) && Complete(["p<w"])
  {
    hide Complete;
    PwIsClear();
    assert AllClear(["p<w"]);
    ClearIsComplete(["p<w"]);
  }

  lemma PwIsClear()
    ensures Clear("p<w", REDACTED)
  {
    var u, m := "p<w", REDACTED;
    assert u[0] == 'p' && u[1] == '<' && u[2] == 'w' && |u| == 3;
    assert |m| == 10 && forall i :: 0 <= i < 10 ==> m[i] != 'p' && m[i] != 'w';
    forall d: int
      ensures !ClashAt(u, m, d)
    {
      if ClashAt(u, m, d) {
        ClashBounds(u, m, d);
        hide ClashAt;
        Agrees(u, m, d, if d >= 0 then 0 else 2);
      }
    }
  }

  /** Two opening brackets agree with a text that has one bracket, its first character, only in front of it. */
  lemma DoubleBracketClash(m: string, d: int)
    requires |m| > 1 && forall i :: 0 < i < |m| ==> m[i] != '<'
    requires ClashAt(['<', '<'], m, d)
    ensures d == -1
  {
    hide ClashAt;
    var u := ['<', '<'];
    ClashBounds(u, m, d);
    if d == 0 {
      Agrees(u, m, d, 1);
    } else if d > 0 {
      Agrees(u, m, d, 0);
    }
  }

  /** ... and a clash with the marker need not either: the leftmost replacement never leaves `<` in front of it. */
  lemma SomeClashesAreSafe()
    ensures ClashAt("<<", REDACTED, -1) && Complete(["<<"])
  {
    var u, m := "<<", REDACTED;
    assert u == ['<', '<'] && m[0] == '<' && |m| == 10 && forall i :: 0 < i < 10 ==> m[i] != '<';
    assert ClashAt(u, m, -1);
    var x := u[..1];
    assert (x + u)[0..2] == u;
    assert OccursAt(u, x + u, 0) && !OnlyAtEnd(x, u);
    forall d: int
      ensures !ArisesAt(u, m, d)
    {
      if ArisesAt(u, m, d) {
        DoubleBracketClash(m, d);
      }
    }
    hide ArisesAt, ClashAt, Complete;
    CompleteExactly("<<");
  }
}
