/** What redaction does, told without the members that compute it: the chain of texts it goes through, the order it
    takes the secrets in, and the lengths it orders them by. */
module RedactionEffects {
  import opened Text
  import opened Redactor

  // ---------------------------------------------------------------------
  // One secret after the other

  /** `out` is `t` with the leftmost occurrences of `s` exchanged for the marker and nothing else changed. */
  ghost predicate Exchanges(t: string, s: string, out: string) {
    exists parts: seq<string> {:trigger Leftmost(parts, s)} ::
      parts != [] && Leftmost(parts, s) && Join(parts, s) == t && Join(parts, "<redacted>") == out
  }

  /** The texts redaction goes through: one exchange for each secret, in the order of the list. */
  lemma {:induction false} RedactsInTurn(secrets: seq<Secret>, text: string) returns (texts: seq<string>)
    ensures |texts| == |secrets| + 1 && texts[0] == text && texts[|secrets|] == RedactAll(secrets, text)
    ensures forall k :: 0 <= k < |secrets| ==> Exchanges(texts[k], secrets[k], texts[k + 1])
    decreases |secrets|
  {
    hide Exchanges, Replace, Contains;
    texts := [text];
    if secrets != [] {
      var s := secrets[0];
      var next := if Contains(text, s) then Replace(text, s, REDACTED) else text;
      OneExchange(text, s);
      var later := RedactsInTurn(secrets[1..], next);
      texts := [text] + later;
      assert forall k :: 0 < k < |secrets| ==> secrets[k] == secrets[1..][k - 1];
    }
  }

  lemma OneExchange(t: string, s: Secret)
    ensures Exchanges(t, s, if Contains(t, s) then Replace(t, s, REDACTED) else t)
  {
    ReplaceIsExact(t, s, REDACTED);
    if !Contains(t, s) {
      ReplaceAbsent(t, s, REDACTED);
    }
    hide Leftmost, Join, Replace, Contains, Pieces;
    assert Leftmost(Pieces(t, s), s);
  }

  lemma JoinFirst(parts: seq<string>, s: string)
    requires |parts| > 1
    ensures Join(parts, s) == (parts[0] + s) + Join(parts[1..], s)
  {
  }

  /** A list that begins the same text cannot have a longer first part. */
  lemma FirstPartIsNoLonger(p: seq<string>, q: seq<string>, s: string)
    requires p != [] && |q| > 1 && Leftmost(p, s) && Leftmost(q, s) && Join(p, s) == Join(q, s) && s != []
    ensures |p| > 1 && |p[0]| <= |q[0]|
  {
    var t := Join(p, s);
    JoinFirst(q, s);
    assert t[|q[0]|..|q[0]| + |s|] == s;
    assert OccursAt(s, t, |q[0]|);
    if |p| > 1 {
      JoinFirst(p, s);
      if |q[0]| < |p[0]| {
        assert (p[0] + s)[|q[0]|..|q[0]| + |s|] == t[|q[0]|..|q[0]| + |s|];
        assert OccursAt(s, p[0] + s, |q[0]|);
      }
    }
  }

  /** There is only one way to cut a text at the leftmost occurrences. */
  lemma {:induction false} OneWayToCut(p: seq<string>, q: seq<string>, s: string)
    requires p != [] && q != [] && s != [] && Leftmost(p, s) && Leftmost(q, s) && Join(p, s) == Join(q, s)
    ensures p == q
    decreases |p|
  {
    if |p| > 1 || |q| > 1 {
      if |p| > 1 {
        FirstPartIsNoLonger(q, p, s);
      }
      FirstPartIsNoLonger(p, q, s);
      FirstPartIsNoLonger(q, p, s);
      JoinFirst(p, s);
      JoinFirst(q, s);
      SameFront(p[0] + s, Join(p[1..], s), q[0] + s, Join(q[1..], s));
      assert p[0] == (p[0] + s)[..|p[0]|] == (q[0] + s)[..|q[0]|] == q[0];
      LeftmostLater(p, s);
      LeftmostLater(q, s);
      OneWayToCut(p[1..], q[1..], s);
      assert p == [p[0]] + p[1..] && q == [q[0]] + q[1..];
    }
  }

  lemma SameFront(a: string, b: string, c: string, d: string)
    requires a + b == c + d && |a| == |c|
    ensures a == c && b == d
  {
    assert a == (a + b)[..|a|] && c == (c + d)[..|c|];
    assert b == (a + b)[|a|..] && d == (c + d)[|c|..];
  }

  lemma LeftmostLater(parts: seq<string>, s: string)
    requires |parts| > 1 && Leftmost(parts, s)
    ensures Leftmost(parts[1..], s)
  {
    hide OnlyAtEnd;
  }

  /** So an exchange has one outcome. */
  lemma ExchangesOnce(t: string, s: string, out: string, other: string)
    requires s != [] && Exchanges(t, s, out) && Exchanges(t, s, other)
    ensures out == other
  {
    hide Leftmost, Join;
    var p :| p != [] && Leftmost(p, s) && Join(p, s) == t && Join(p, "<redacted>") == out;
    var q :| q != [] && Leftmost(q, s) && Join(q, s) == t && Join(q, "<redacted>") == other;
    OneWayToCut(p, q, s);
  }

  // ---------------------------------------------------------------------
  // The order of the secrets

  /** The entries of that length, in order. */
  ghost function OfLength(secrets: seq<Secret>, n: nat): seq<Secret> {
    if secrets == [] then []
    else (if ByteLen(secrets[0]) == n then [secrets[0]] else []) + OfLength(secrets[1..], n)
  }

  lemma {:induction false} OfLengthAppend(a: seq<Secret>, b: seq<Secret>, n: nat)
    ensures OfLength(a + b, n) == OfLength(a, n) + OfLength(b, n)
    decreases |a|
  {
    hide ByteLen;
    if a == [] {
      assert a + b == b;
    } else {
      OfLengthAppend(a[1..], b, n);
      assert (a + b)[1..] == a[1..] + b;
    }
  }

  lemma InsertUnfold(secrets: seq<Secret>, s: Secret)
    ensures Insert(secrets, s) == if secrets != [] && ByteLen(secrets[0]) >= ByteLen(s)
                                  then [secrets[0]] + Insert(secrets[1..], s) else [s] + secrets
  {
    hide ByteLen;
  }

  lemma FirstIsLongest(secrets: seq<Secret>, n: nat)
    requires LongestFirst(secrets) && secrets != []
    ensures LongestFirst(secrets[1..])
    ensures ByteLen(secrets[0]) < n ==> OfLength(secrets, n) == []
  {
    hide ByteLen;
    if ByteLen(secrets[0]) < n {
      NoneThatLong(secrets, n);
    }
  }

  lemma {:induction false} InsertIsStable(secrets: seq<Secret>, s: Secret, n: nat)
    requires LongestFirst(secrets)
    ensures OfLength(Insert(secrets, s), n) == OfLength(secrets, n) + OfLength([s], n)
    decreases |secrets|
  {
    hide ByteLen, Insert, LongestFirst, OfLength;
    InsertUnfold(secrets, s);
    if secrets != [] {
      FirstIsLongest(secrets, ByteLen(s));
    }
    if secrets != [] && ByteLen(secrets[0]) >= ByteLen(s) {
      InsertIsStable(secrets[1..], s, n);
      assert secrets == [secrets[0]] + secrets[1..];
      OfLengthAppend([secrets[0]], Insert(secrets[1..], s), n);
      OfLengthAppend([secrets[0]], secrets[1..], n);
    } else {
      OfLengthAppend([s], secrets, n);
      AloneOfLength(s, n);
      if secrets == [] {
        NoneThatLong(secrets, n);
      }
    }
  }

  lemma AloneOfLength(s: Secret, n: nat)
    ensures OfLength([s], n) == if ByteLen(s) == n then [s] else []
  {
    hide ByteLen;
    assert [s][1..] == [];
  }

  lemma {:induction false} NoneThatLong(secrets: seq<Secret>, n: nat)
    requires forall k :: 0 <= k < |secrets| ==> ByteLen(secrets[k]) != n
    ensures OfLength(secrets, n) == []
    decreases |secrets|
  {
    hide ByteLen;
    if secrets != [] {
      NoneThatLong(secrets[1..], n);
    }
  }

  /** The sort is by descending length and leaves entries of one length in the order they were in. */
  lemma {:induction false} SortIsStable(secrets: seq<Secret>, n: nat)
    ensures LongestFirst(SortByLength(secrets)) && OfLength(SortByLength(secrets), n) == OfLength(secrets, n)
    decreases |secrets|
  {
    hide ByteLen, Insert;
    SortedByLength(secrets);
    if secrets != [] {
      var front, last := secrets[..|secrets| - 1], secrets[|secrets| - 1];
      assert secrets == front + [last];
      SortIsStable(front, n);
      InsertIsStable(SortByLength(front), last, n);
      OfLengthAppend(SortByLength(front), [last], n);
      OfLengthAppend(front, [last], n);
    }
  }

  /** The filter of the constructor goes entry by entry and in order. */
  lemma {:induction false} FilterAppend(a: seq<string>, b: seq<string>)
    ensures NonEmpty(a + b) == NonEmpty(a) + NonEmpty(b)
    decreases |b|
  {
    if b == [] {
      assert a + b == a;
    } else {
      var front, last := b[..|b| - 1], b[|b| - 1];
      FilterAppend(a, front);
      assert (a + b)[..|a + b| - 1] == a + front && (a + b)[|a + b| - 1] == last;
    }
  }

  /** It keeps every non-empty entry and drops every empty one. */
  lemma {:induction false} FilterKeeps(given: seq<string>)
    ensures (forall k :: 0 <= k < |given| ==> given[k] != []) ==> NonEmpty(given) == given
    ensures (forall k :: 0 <= k < |given| ==> given[k] == []) ==> NonEmpty(given) == []
    decreases |given|
  {
    if given != [] {
      var front, last := given[..|given| - 1], given[|given| - 1];
      FilterKeeps(front);
      FilterLast(given);
      hide NonEmpty;
      assert given == front + [last];
      assert forall k :: 0 <= k < |front| ==> front[k] == given[k];
    }
  }

  lemma FilterLast(given: seq<string>)
    requires given != []
    ensures var last := given[|given| - 1];
            NonEmpty(given) == NonEmpty(given[..|given| - 1]) + if last == [] then [] else [last]
  {
  }

  // ---------------------------------------------------------------------
  // Lengths

  /** What fits into a code of `w` octets: the first keeps 7 bits if it is alone and 7 - w if not, each other one 6. */
  function Capacity(w: nat): nat {
    if w <= 1 then 128 else 2 * 32 * 32 * (if w == 2 then 1 else if w == 3 then 32 else 1024)
  }

  /** A character takes the fewest octets of UTF-8 that hold it. */
  lemma WidthIsLeast(c: char)
    ensures var w := Utf8Width(c);
            1 <= w <= 4 && (c as int) < Capacity(w) && (w > 1 ==> Capacity(w - 1) <= c as int)
  {
  }

  /** `len` counts octets: each character by its width, an ASCII character as one. */
  lemma {:induction false} LengthCounts(s: string)
    ensures |s| <= ByteLen(s) <= 4 * |s|
    ensures ByteLen(s) == |s| <==> forall k :: 0 <= k < |s| ==> (s[k] as int) < 128
    decreases |s|
  {
    if s != [] {
      LengthCounts(s[1..]);
      assert forall k :: 0 < k < |s| ==> s[k] == s[1..][k - 1];
    }
  }
}
