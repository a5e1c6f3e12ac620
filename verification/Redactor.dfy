/** Redaction of secrets from log lines: `Redactor::new`, `add`, `redact`.

    Each secret in turn is replaced everywhere by `<redacted>`.  If no secret can overlap the marker, redaction removes
    every secret from every input (`ClearIsComplete`) and redacting twice is redacting once (`Idempotent`).  For secrets
    free of angle brackets that means: none is part of the word `redacted` (`CompleteExactly`).  For a single secret of
    any shape the exact condition is in `SingleSecret`. */
module Redactor {
  import opened Text

  const REDACTED: string := "<redacted>"
  const WORD: string := "redacted"

  /** A secret the list may hold: the empty string is filtered out. */
  type Secret = s: string | s != [] witness "s"

  // ---------------------------------------------------------------------
  // Strings

  /** `s` occurs in `t` at position `k`. */
  ghost predicate OccursAt(s: string, t: string, k: nat) {
    k + |s| <= |t| && t[k..k + |s|] == s
  }

  ghost predicate Occurs(s: string, t: string) {
    exists k :: OccursAt(s, t, k)
  }

  /** `str::contains`. */
  predicate Contains(t: string, s: string) {
    s <= t || (t != [] && Contains(t[1..], s))
  }

  /** `str::replace`: leftmost occurrences first, without overlap. */
  function Replace(t: string, s: string, marker: string): string
    requires s != []
    decreases |t|
  {
    if t == [] then []
    else if s <= t then marker + Replace(t[|s|..], s, marker)
    else [t[0]] + Replace(t[1..], s, marker)
  }

  /** One character's length in UTF-8. */
  function Utf8Width(c: char): nat {
    if c as int < 0x80 then 1 else if c as int < 0x800 then 2 else if c as int < 0x1_0000 then 3 else 4
  }

  /** `str::len`. */
  function ByteLen(s: string): nat {
    if s == [] then 0 else Utf8Width(s[0]) + ByteLen(s[1..])
  }

  lemma OccursLater(u: string, t: string, n: nat)
    requires n <= |t| && Occurs(u, t[n..])
    ensures Occurs(u, t)
  {
    var k: nat :| OccursAt(u, t[n..], k);
    assert forall i :: 0 <= i < |u| ==> t[n..][k + i] == u[i];
    assert t[n + k..n + k + |u|] == u;
    assert OccursAt(u, t, n + k);
  }

  /** An occurrence is at the front or in what follows the first character. */
  lemma FrontOrTail(s: string, t: string)
    ensures Occurs(s, t) <==> s <= t || (t != [] && Occurs(s, t[1..]))
  {
    if s <= t {
      assert OccursAt(s, t, 0);
    } else if Occurs(s, t) {
      var k: nat :| OccursAt(s, t, k);
      assert k > 0;
      assert forall i :: 0 <= i < |s| ==> t[k + i] == s[i];
      assert t[1..][k - 1..k - 1 + |s|] == s;
      assert OccursAt(s, t[1..], k - 1);
    } else if t != [] && Occurs(s, t[1..]) {
      OccursLater(s, t, 1);
    }
  }

  lemma {:induction false} ContainsIsOccurs(t: string, s: string)
    ensures Contains(t, s) <==> Occurs(s, t)
    decreases |t|
  {
    hide Occurs;
    FrontOrTail(s, t);
    if t != [] {
      ContainsIsOccurs(t[1..], s);
    }
  }

  // ---------------------------------------------------------------------
  // The redactor

  function RedactAll(secrets: seq<Secret>, text: string): string
    decreases |secrets|
  {
    if secrets == [] then text
    else RedactAll(secrets[1..], if Contains(text, secrets[0]) then Replace(text, secrets[0], REDACTED) else text)
  }

  predicate LongestFirst(secrets: seq<Secret>) {
    forall i, j :: 0 <= i < j < |secrets| ==> ByteLen(secrets[i]) >= ByteLen(secrets[j])
  }

  function NonEmpty(given: seq<string>): seq<Secret> {
    if given == [] then []
    else
      var last := given[|given| - 1];
      NonEmpty(given[..|given| - 1]) + if last == [] then [] else [last]
  }

  /** Inserting into a list sorted by descending length, behind entries of equal length. */
  function Insert(secrets: seq<Secret>, s: Secret): (r: seq<Secret>)
    ensures multiset(r) == multiset(secrets) + multiset{s}
  {
    if secrets == [] then [s]
    else if ByteLen(secrets[0]) >= ByteLen(s) then
      assert secrets == [secrets[0]] + secrets[1..];
      [secrets[0]] + Insert(secrets[1..], s)
    else [s] + secrets
  }

  /** The stable sort by descending length. */
  function SortByLength(secrets: seq<Secret>): (r: seq<Secret>)
    ensures multiset(r) == multiset(secrets)
  {
    if secrets == [] then []
    else
      assert secrets == secrets[..|secrets| - 1] + [secrets[|secrets| - 1]];
      Insert(SortByLength(secrets[..|secrets| - 1]), secrets[|secrets| - 1])
  }

  lemma {:induction false} InsertMembers(secrets: seq<Secret>, s: Secret)
    ensures forall t :: t in Insert(secrets, s) <==> t in secrets || t == s
  {
    forall t: Secret
      ensures t in Insert(secrets, s) <==> t in secrets || t == s
    {
      assert t in Insert(secrets, s) <==> t in multiset(Insert(secrets, s));
    }
  }

  lemma {:induction false} InsertKeepsOrder(secrets: seq<Secret>, s: Secret)
    requires LongestFirst(secrets)
    ensures LongestFirst(Insert(secrets, s))
    decreases |secrets|
  {
    if secrets != [] && ByteLen(secrets[0]) >= ByteLen(s) {
      var rest := Insert(secrets[1..], s);
      assert LongestFirst(secrets[1..]);
      InsertKeepsOrder(secrets[1..], s);
      InsertMembers(secrets[1..], s);
      forall j | 0 <= j < |rest|
        ensures ByteLen(secrets[0]) >= ByteLen(rest[j])
      {
        assert rest[j] in rest;
        hide ByteLen;
      }
      ConsKeepsOrder(secrets[0], rest);
    } else {
      ConsKeepsOrder(s, secrets);
    }
  }

  lemma ConsKeepsOrder(s: Secret, rest: seq<Secret>)
    requires LongestFirst(rest) && forall j :: 0 <= j < |rest| ==> ByteLen(s) >= ByteLen(rest[j])
    ensures LongestFirst([s] + rest)
  {
  }

  lemma {:induction false} SortedByLength(secrets: seq<Secret>)
    ensures LongestFirst(SortByLength(secrets))
    decreases |secrets|
  {
    if secrets != [] {
      SortedByLength(secrets[..|secrets| - 1]);
      InsertKeepsOrder(SortByLength(secrets[..|secrets| - 1]), secrets[|secrets| - 1]);
    }
  }

  lemma SortMembers(secrets: seq<Secret>)
    ensures forall t :: t in SortByLength(secrets) <==> t in secrets
  {
    forall t: Secret
      ensures t in SortByLength(secrets) <==> t in secrets
    {
      assert t in SortByLength(secrets) <==> t in multiset(SortByLength(secrets));
    }
  }

  class Redactor {
    var secrets: seq<Secret>

    ghost predicate Valid()
      reads this
    {
      LongestFirst(secrets)
    }

    constructor (given: seq<string>)
      ensures Valid()
      ensures secrets == SortByLength(NonEmpty(given))
      ensures forall s :: s in secrets <==> s in given && s != []
    {
      var kept: seq<Secret> := [];
      for k := 0 to |given|
        invariant kept == NonEmpty(given[..k])
        invariant forall s :: s in kept <==> s in given[..k] && s != []
      {
        assert given[..k + 1] == given[..k] + [given[k]];
        if given[k] != [] {
          kept := kept + [given[k]];
        }
      }
      assert given[..|given|] == given;
      SortedByLength(kept);
      SortMembers(kept);
      secrets := SortByLength(kept);
    }

    method Add(secret: string)
      requires Valid()
      modifies this
      ensures Valid()
      ensures forall s :: s in secrets <==> s in old(secrets) || (s == secret && s != [])
      ensures secrets == if secret == [] || secret in old(secrets) then old(secrets)
                         else SortByLength(old(secrets) + [secret])
    {
      if secret != [] && secret !in secrets {
        SortedByLength(secrets + [secret]);
        SortMembers(secrets + [secret]);
        secrets := SortByLength(secrets + [secret]);
      }
    }

    method Redact(input: string) returns (out: string)
      requires Valid()
      ensures out == RedactAll(secrets, input)
    {
      out := input;
      var k := 0;
      while k < |secrets|
        invariant k <= |secrets|
        invariant RedactAll(secrets[k..], out) == RedactAll(secrets, input)
      {
        var secret := secrets[k];
        assert secrets[k..][1..] == secrets[k + 1..];
        if Contains(out, secret) {
          out := Replace(out, secret, REDACTED);
        }
        k := k + 1;
      }
      assert secrets[k..] == [];
    }
  }

  // ---------------------------------------------------------------------
  // One replacement

  /** Placed `d` characters behind the start of `m`, `u` overlaps `m` and agrees with it. */
  ghost predicate ClashAt(u: string, m: string, d: int) {
    -|u| < d < |m| && forall i :: 0 <= i < |u| && 0 <= i + d < |m| ==> u[i] == m[i + d]
  }

  /** `u` cannot overlap `m` in any text: it is not inside `m`, does not contain it, and shares no end with it. */
  ghost predicate Clear(u: string, m: string) {
    forall d: int :: !ClashAt(u, m, d)
  }

  /** Without an occurrence nothing changes. */
  lemma {:induction false} ReplaceAbsent(t: string, s: string, marker: string)
    requires s != [] && !Contains(t, s)
    ensures Replace(t, s, marker) == t
    decreases |t|
  {
    if t != [] {
      ReplaceAbsent(t[1..], s, marker);
    }
  }

  /** The text between the leftmost occurrences of `s`. */
  function Pieces(t: string, s: string): (parts: seq<string>)
    requires s != []
    ensures parts != []
    decreases |t|
  {
    if t == [] then [[]]
    else if s <= t then [[]] + Pieces(t[|s|..], s)
    else
      var rest := Pieces(t[1..], s);
      [[t[0]] + rest[0]] + rest[1..]
  }

  /** In `x + s`, `s` occurs only behind `x`. */
  ghost predicate OnlyAtEnd(x: string, s: string) {
    forall k :: OccursAt(s, x + s, k) ==> k == |x|
  }

  /** Every piece ends where the first occurrence of `s` behind its start begins; there is none in the last piece. */
  ghost predicate Leftmost(parts: seq<string>, s: string)
    requires parts != []
  {
    && (forall i :: 0 <= i < |parts| - 1 ==> OnlyAtEnd(parts[i], s))
    && !Occurs(s, parts[|parts| - 1])
  }

  /** `parts` cuts `t` at the leftmost occurrences of `s`, and the replacement puts the marker into the cuts. */
  ghost predicate CutsExactly(parts: seq<string>, t: string, s: string, marker: string)
    requires s != [] && parts != []
  {
    Join(parts, s) == t && Join(parts, marker) == Replace(t, s, marker) && Leftmost(parts, s)
  }

  lemma CutAtFront(rest: seq<string>, t: string, s: string, marker: string)
    requires s != [] && rest != [] && t != [] && s <= t && CutsExactly(rest, t[|s|..], s, marker)
    ensures CutsExactly([[]] + rest, t, s, marker)
  {
  }

  lemma CutBehind(rest: seq<string>, t: string, s: string, marker: string)
    requires s != [] && rest != [] && t != [] && !(s <= t) && CutsExactly(rest, t[1..], s, marker)
    ensures CutsExactly([[t[0]] + rest[0]] + rest[1..], t, s, marker)
  {
    ReplaceUnfold(t, s, marker);
    hide Replace;
    assert t == [t[0]] + t[1..];
    LeftmostCons(t[0], rest, s);
    JoinCons(t[0], rest, s);
    JoinCons(t[0], rest, marker);
    hide Leftmost, Join;
  }

  /** A replacement exchanges the leftmost occurrences for the marker and keeps everything between them. */
  lemma {:induction false} ReplaceIsExact(t: string, s: string, marker: string)
    requires s != []
    ensures var parts := Pieces(t, s);
            Join(parts, s) == t && Join(parts, marker) == Replace(t, s, marker) && Leftmost(parts, s)
    decreases |t|
  {
    hide Leftmost, Replace;
    if t == [] {
      NoPieces(s);
      ReplaceNothing(s, marker);
    } else {
      hide Join;
      if s <= t {
        ReplaceIsExact(t[|s|..], s, marker);
        CutAtFront(Pieces(t[|s|..], s), t, s, marker);
      } else {
        ReplaceIsExact(t[1..], s, marker);
        CutBehind(Pieces(t[1..], s), t, s, marker);
      }
    }
  }

  lemma ReplaceNothing(s: string, marker: string)
    requires s != []
    ensures Replace([], s, marker) == []
  {
  }

  lemma NoPieces(s: string)
    requires s != []
    ensures Leftmost([[]], s)
  {
  }

  lemma JoinCons(c: char, rest: seq<string>, separator: string)
    requires rest != []
    ensures Join([[c] + rest[0]] + rest[1..], separator) == [c] + Join(rest, separator)
  {
  }

  lemma LeftmostCons(c: char, rest: seq<string>, s: string)
    requires s != [] && rest != [] && Leftmost(rest, s) && !(s <= [c] + Join(rest, s))
    ensures Leftmost([[c] + rest[0]] + rest[1..], s)
  {
    var parts := [[c] + rest[0]] + rest[1..];
    var first := [c] + rest[0];
    if |rest| == 1 {
      FrontOrTail(s, first);
      assert first[1..] == rest[0];
    } else {
      var whole := [c] + Join(rest, s);
      assert whole == (first + s) + Join(rest[1..], s);
      assert OnlyAtEnd(rest[0], s);
      forall k | OccursAt(s, first + s, k)
        ensures k == |first|
      {
        NotAtFront(s, first + s, Join(rest[1..], s));
        assert first + s == [c] + (rest[0] + s);
        OccursBehind(s, c, rest[0] + s, k);
      }
    }
    assert forall i :: 0 < i < |rest| ==> parts[i] == rest[i];
  }

  lemma NotAtFront(s: string, a: string, b: string)
    requires !(s <= a + b)
    ensures !OccursAt(s, a, 0)
  {
  }

  lemma OccursBehind(s: string, c: char, t: string, k: nat)
    requires k > 0 && OccursAt(s, [c] + t, k)
    ensures OccursAt(s, t, k - 1)
  {
  }

  /** `u` cannot begin at or before `m` and overlap it. */
  ghost predicate ClearInFront(u: string, m: string) {
    forall d: int :: d <= 0 ==> !ClashAt(u, m, d)
  }

  lemma ClearBehindFirst(u: string, m: string)
    requires u != [] && ClearInFront(u, m)
    ensures ClearInFront(u[1..], m)
  {
    hide ClashAt;
    forall d: int | d <= 0
      ensures !ClashAt(u[1..], m, d)
    {
      if ClashAt(u[1..], m, d) {
        ClashInFront(u, m, d);
      }
    }
  }

  lemma ClashInFront(u: string, m: string, d: int)
    requires u != [] && d <= 0 && ClashAt(u[1..], m, d)
    ensures ClashAt(u, m, d - 1)
  {
    assert forall i :: 0 < i < |u| && 0 <= i + (d - 1) < |m| ==> u[i] == u[1..][i - 1];
  }

  lemma FrontClashes(u: string, m: string, rest: string)
    requires u != [] && m != [] && u <= m + rest
    ensures ClashAt(u, m, 0)
  {
    assert forall i :: 0 <= i < |u| ==> u[i] == (m + rest)[i];
  }

  /** A string that cannot overlap the marker from the front and stands at the front of the result stood at the front
      of the input. */
  lemma {:induction false} FrontWasThere(u: string, t: string, s: string, m: string)
    requires s != [] && m != [] && ClearInFront(u, m) && u <= Replace(t, s, m)
    ensures u <= t
    decreases |t|
  {
    hide ClashAt;
    if u != [] && t != [] {
      if s <= t {
        FrontClashes(u, m, Replace(t[|s|..], s, m));
      } else {
        var rest := Replace(t[1..], s, m);
        assert ([t[0]] + rest)[1..] == rest;
        assert u[1..] <= rest;
        ClearBehindFirst(u, m);
        FrontWasThere(u[1..], t[1..], s, m);
        assert t == [t[0]] + t[1..] && u == [u[0]] + u[1..];
      }
    }
  }

  /** A string that cannot overlap the marker lies behind it. */
  lemma BehindMarker(u: string, m: string, rest: string)
    requires u != [] && Clear(u, m) && Occurs(u, m + rest)
    ensures Occurs(u, rest)
  {
    hide ClashAt;
    var whole := m + rest;
    var k: nat :| OccursAt(u, whole, k);
    if k < |m| {
      OverlapClashes(u, m, rest, k);
    } else {
      assert rest[k - |m|..k - |m| + |u|] == whole[k..k + |u|];
      assert OccursAt(u, rest, k - |m|);
    }
  }

  lemma OverlapClashes(u: string, m: string, rest: string, k: nat)
    requires u != [] && k < |m| && OccursAt(u, m + rest, k)
    ensures ClashAt(u, m, k)
  {
    assert forall i :: 0 <= i < |u| ==> (m + rest)[k + i] == u[i];
  }

  lemma ReplaceUnfold(t: string, s: string, marker: string)
    requires s != [] && t != []
    ensures Replace(t, s, marker) == if s <= t then marker + Replace(t[|s|..], s, marker)
                                     else [t[0]] + Replace(t[1..], s, marker)
  {
  }

  /** A replacement never creates or uncovers a string that cannot overlap the marker. */
  lemma {:induction false} ReplaceCreatesNothing(u: string, t: string, s: string, m: string)
    requires s != [] && u != [] && m != [] && Clear(u, m)
    requires Occurs(u, Replace(t, s, m))
    ensures Occurs(u, t)
    decreases |t|
  {
    if t == [] {
      ReplaceNothing(s, m);
    } else {
      var out := Replace(t, s, m);
      ReplaceUnfold(t, s, m);
      hide Replace, Occurs, ClashAt;
      if s <= t {
        BehindMarker(u, m, Replace(t[|s|..], s, m));
        ReplaceCreatesNothing(u, t[|s|..], s, m);
        OccursLater(u, t, |s|);
      } else {
        FrontOrTail(u, out);
        FrontOrTail(u, t);
        assert out[1..] == Replace(t[1..], s, m);
        if u <= out {
          FrontWasThere(u, t, s, m);
        } else {
          ReplaceCreatesNothing(u, t[1..], s, m);
        }
      }
    }
  }

  /** A replacement removes a secret that cannot overlap the marker. */
  lemma {:induction false} ReplaceRemoves(t: string, s: string, m: string)
    requires s != [] && m != [] && Clear(s, m)
    ensures !Occurs(s, Replace(t, s, m))
    decreases |t|
  {
    var out := Replace(t, s, m);
    FrontOrTail(s, out);
    if t == [] {
      ReplaceNothing(s, m);
    } else {
      ReplaceUnfold(t, s, m);
      hide Replace, Occurs, ClashAt;
      if s <= t {
        ReplaceRemoves(t[|s|..], s, m);
        if Occurs(s, out) {
          BehindMarker(s, m, Replace(t[|s|..], s, m));
        }
      } else {
        ReplaceRemoves(t[1..], s, m);
        assert out[1..] == Replace(t[1..], s, m);
        if s <= out {
          FrontWasThere(s, t, s, m);
        }
      }
    }
  }

  // ---------------------------------------------------------------------
  // The whole list

  ghost predicate AllClear(secrets: seq<Secret>) {
    forall s :: s in secrets ==> Clear(s, REDACTED)
  }

  /** Text a string has been removed from stays free of it while the remaining secrets are replaced. */
  lemma {:induction false} StaysAbsent(u: string, secrets: seq<Secret>, text: string)
    requires u != [] && Clear(u, REDACTED) && !Occurs(u, text)
    ensures !Occurs(u, RedactAll(secrets, text))
    decreases |secrets|
  {
    if secrets != [] {
      var next := if Contains(text, secrets[0]) then Replace(text, secrets[0], REDACTED) else text;
      if Occurs(u, next) && Contains(text, secrets[0]) {
        ReplaceCreatesNothing(u, text, secrets[0], REDACTED);
      }
      StaysAbsent(u, secrets[1..], next);
    }
  }

  /** A secret that cannot overlap the marker does not survive. */
  lemma {:induction false} NoSecretSurvives(secrets: seq<Secret>, text: string, s: string)
    requires s in secrets && Clear(s, REDACTED)
    ensures !Occurs(s, RedactAll(secrets, text))
    decreases |secrets|
  {
    var next := if Contains(text, secrets[0]) then Replace(text, secrets[0], REDACTED) else text;
    if s == secrets[0] {
      ContainsIsOccurs(text, s);
      ReplaceRemoves(text, s, REDACTED);
      StaysAbsent(s, secrets[1..], next);
    } else {
      NoSecretSurvives(secrets[1..], next, s);
    }
  }

  /** Redacting text without secrets changes nothing. */
  lemma {:induction false} NothingToRedact(secrets: seq<Secret>, text: string)
    requires forall s :: s in secrets ==> !Occurs(s, text)
    ensures RedactAll(secrets, text) == text
    decreases |secrets|
  {
    if secrets != [] {
      ContainsIsOccurs(text, secrets[0]);
      NothingToRedact(secrets[1..], text);
    }
  }

  /** Once something was replaced, an intact marker stands in the text to the end. */
  lemma {:induction false} MarkerStays(secrets: seq<Secret>, text: string)
    requires Occurs(REDACTED, text)
    ensures Occurs(REDACTED, RedactAll(secrets, text))
    decreases |secrets|
  {
    if secrets != [] {
      if Contains(text, secrets[0]) {
        MarkerInserted(text, secrets[0]);
        MarkerStays(secrets[1..], Replace(text, secrets[0], REDACTED));
      } else {
        MarkerStays(secrets[1..], text);
      }
    }
  }

  lemma {:induction false} MarkerInserted(t: string, s: string)
    requires s != [] && Contains(t, s)
    ensures Occurs(REDACTED, Replace(t, s, REDACTED))
    decreases |t|
  {
    var out := Replace(t, s, REDACTED);
    if s <= t {
      assert OccursAt(REDACTED, out, 0);
    } else {
      MarkerInserted(t[1..], s);
      assert out[1..] == Replace(t[1..], s, REDACTED);
      OccursLater(REDACTED, out, 1);
    }
  }

  /** Redacting a text that is itself one of the secrets leaves a marker. */
  lemma {:induction false} SecretLeavesMarker(secrets: seq<Secret>, s: string)
    requires s in secrets
    ensures Occurs(REDACTED, RedactAll(secrets, s))
    decreases |secrets|
  {
    if Contains(s, secrets[0]) {
      MarkerInserted(s, secrets[0]);
      MarkerStays(secrets[1..], Replace(s, secrets[0], REDACTED));
    } else {
      assert s <= s;
      SecretLeavesMarker(secrets[1..], s);
    }
  }

  lemma OccursThrough(u: string, s: string, t: string)
    requires Occurs(u, s) && Occurs(s, t)
    ensures Occurs(u, t)
  {
    var k: nat :| OccursAt(u, s, k);
    var j: nat :| OccursAt(s, t, j);
    assert forall i :: 0 <= i < |s| ==> t[j + i] == s[i];
    assert forall i :: 0 <= i < |u| ==> t[j + k + i] == s[k + i] == u[i];
    assert t[j + k..j + k + |u|] == u;
    assert OccursAt(u, t, j + k);
  }

  /** Redaction with these secrets removes every one of them from every text. */
  ghost predicate Complete(secrets: seq<Secret>) {
    forall text, s :: s in secrets ==> !Occurs(s, RedactAll(secrets, text))
  }

  /** Redaction is complete if no secret can overlap the marker. */
  lemma ClearIsComplete(secrets: seq<Secret>)
    requires AllClear(secrets)
    ensures Complete(secrets)
  {
    hide Contains, Replace, RedactAll, OccursAt, Clear;
    forall text, s | s in secrets
      ensures !Occurs(s, RedactAll(secrets, text))
    {
      NoSecretSurvives(secrets, text, s);
    }
  }

  ghost predicate Bracketless(s: string) {
    forall k :: 0 <= k < |s| ==> s[k] != '<' && s[k] != '>'
  }

  ghost predicate AllBracketless(secrets: seq<Secret>) {
    forall s :: s in secrets ==> Bracketless(s)
  }

  ghost predicate OutsideWord(secrets: seq<Secret>) {
    forall s :: s in secrets ==> !Occurs(s, WORD)
  }

  lemma MarkerIsBracketedWord()
    ensures REDACTED == ['<'] + WORD + ['>']
  {
  }

  /** A bracketless string overlaps a bracketed word only inside the word. */
  lemma ClashIsInside(u: string, word: string, d: int)
    requires u != [] && Bracketless(u) && ClashAt(u, ['<'] + word + ['>'], d)
    ensures Occurs(u, word)
  {
    var m := ['<'] + word + ['>'];
    var close := |word| + 1;
    assert m[0] == '<' && m[close] == '>';
    ClashBounds(u, m, d);
    hide ClashAt;
    if d <= 0 {
      Agrees(u, m, d, -d);
    } else if d + |u| > close {
      Agrees(u, m, d, close - d);
    } else {
      ClashWithin(u, m, d);
      assert word[d - 1..d - 1 + |u|] == m[d..d + |u|];
      assert OccursAt(u, word, d - 1);
    }
  }

  lemma ClashBounds(u: string, m: string, d: int)
    requires ClashAt(u, m, d)
    ensures -|u| < d < |m|
  {
  }

  lemma Agrees(u: string, m: string, d: int, i: nat)
    requires ClashAt(u, m, d) && i < |u| && 0 <= i + d < |m|
    ensures u[i] == m[i + d]
  {
  }

  lemma ClashWithin(u: string, m: string, d: nat)
    requires ClashAt(u, m, d) && d + |u| <= |m|
    ensures m[d..d + |u|] == u
  {
    assert forall i :: 0 <= i < |u| ==> u[i] == m[i + d] == m[d..d + |u|][i];
  }

  lemma BracketlessIsClear(u: string)
    requires u != [] && Bracketless(u) && !Occurs(u, WORD)
    ensures Clear(u, REDACTED)
  {
    MarkerIsBracketedWord();
    hide ClashAt, Occurs;
    forall d: int
      ensures !ClashAt(u, REDACTED, d)
    {
      if ClashAt(u, REDACTED, d) {
        ClashIsInside(u, WORD, d);
      }
    }
  }

  /** For secrets without angle brackets, redaction is complete exactly when no secret is part of the word
      `redacted`. */
  lemma CompleteExactly(secrets: seq<Secret>)
    requires AllBracketless(secrets)
    ensures Complete(secrets) <==> OutsideWord(secrets)
  {
    hide Contains, Replace, RedactAll, OccursAt, Clear, Bracketless;
    if OutsideWord(secrets) {
      forall s | s in secrets
        ensures Clear(s, REDACTED)
      {
        BracketlessIsClear(s);
      }
      ClearIsComplete(secrets);
    } else {
      var s :| s in secrets && Occurs(s, WORD);
      SecretLeavesMarker(secrets, s);
      WordInMarker();
      OccursThrough(s, WORD, REDACTED);
      OccursThrough(s, REDACTED, RedactAll(secrets, s));
    }
  }

  lemma WordInMarker()
    ensures Occurs(WORD, REDACTED)
  {
    assert REDACTED[1..9] == WORD;
    assert OccursAt(WORD, REDACTED, 1);
  }

  /** Redacting again changes nothing. */
  lemma Idempotent(secrets: seq<Secret>, text: string)
    requires AllClear(secrets)
    ensures RedactAll(secrets, RedactAll(secrets, text)) == RedactAll(secrets, text)
  {
    forall s | s in secrets
      ensures !Occurs(s, RedactAll(secrets, text))
    {
      NoSecretSurvives(secrets, text, s);
    }
    NothingToRedact(secrets, RedactAll(secrets, text));
  }

  // ---------------------------------------------------------------------
  // Why the list is sorted

  lemma {:induction false} ByteLenAppend(s: string, t: string)
    ensures ByteLen(s + t) == ByteLen(s) + ByteLen(t)
    decreases |s|
  {
    if s == [] {
      assert s + t == t;
    } else {
      ByteLenAppend(s[1..], t);
      assert (s + t)[1..] == s[1..] + t;
    }
  }

  lemma ByteLenPositive(s: string)
    requires s != []
    ensures ByteLen(s) > 0
  {
  }

  /** A string at least as long as the text it occurs in is that text. */
  lemma OnlyWholeFits(u: string, s: string)
    requires Occurs(u, s) && ByteLen(u) >= ByteLen(s)
    ensures u == s
  {
    hide ByteLen;
    var k: nat :| OccursAt(u, s, k);
    var before, after := s[..k], s[k + |u|..];
    assert s == (before + u) + after;
    ByteLenAppend(before + u, after);
    ByteLenAppend(before, u);
    if before != [] {
      ByteLenPositive(before);
    }
    if after != [] {
      ByteLenPositive(after);
    }
    assert before == [] && after == [];
  }

  lemma MarkerIsClean(u: string, m: string)
    requires u != [] && Clear(u, m)
    ensures !Occurs(u, m)
  {
    assert m + [] == m;
    if Occurs(u, m) {
      BehindMarker(u, m, []);
    }
  }

  /** Longest first, a secret that is the whole text disappears as a whole: no shorter secret inside it is replaced
      first and leaves the rest of it readable. */
  lemma {:induction false} WholeSecretDisappears(secrets: seq<Secret>, s: Secret)
    requires AllClear(secrets) && LongestFirst(secrets) && s in secrets
    ensures RedactAll(secrets, s) == REDACTED
    decreases |secrets|
  {
    hide Replace, ByteLen, Clear;
    var rest := secrets[1..];
    assert forall u :: u in rest ==> u in secrets;
    ContainsIsOccurs(s, secrets[0]);
    if s == secrets[0] {
      assert Replace(s, s, REDACTED) == REDACTED by { WholeReplaced(s); }
      forall u | u in rest
        ensures !Occurs(u, REDACTED)
      {
        MarkerIsClean(u, REDACTED);
      }
      NothingToRedact(rest, REDACTED);
      assert OccursAt(s, s, 0);
    } else {
      assert s in rest;
      if Occurs(secrets[0], s) {
        OnlyWholeFits(secrets[0], s);
      }
      WholeSecretDisappears(rest, s);
    }
  }

  lemma WholeReplaced(s: Secret)
    ensures Replace(s, s, REDACTED) == REDACTED
  {
  }

  lemma XIsOutside(u: string, t: string)
    requires u != [] && u[0] == 'x' && forall k :: 0 <= k < |t| ==> t[k] != 'x'
    ensures !Occurs(u, t)
  {
  }

  lemma XIsClear(u: string)
    requires u != [] && u[0] == 'x' && Bracketless(u)
    ensures Clear(u, REDACTED)
  {
    XIsOutside(u, WORD);
    BracketlessIsClear(u);
  }

  lemma XReplaced()
    ensures Contains("xy", "x") && Replace("xy", "x", REDACTED) == "<redacted>y"
  {
    assert "x" <= "xy" && "xy"[1..] == "y";
    assert "x"[0] == 'x' && "y"[0] == 'y' && "y"[1..] == "";
    ReplaceAbsent("y", "x", REDACTED);
  }

  lemma ShortestFirstLeaks()
    ensures RedactAll(["x", "xy"], "xy") == "<redacted>y"
  {
    hide Replace, Contains, Occurs;
    XReplaced();
    ContainsIsOccurs("<redacted>y", "xy");
    XIsOutside("xy", "<redacted>y");
    var secrets: seq<Secret> := ["x", "xy"];
    assert secrets[1..] == ["xy"] && secrets[1..][1..] == [];
    assert RedactAll(secrets[1..], "<redacted>y") == "<redacted>y";
  }

  /** Shortest first, part of the longer secret would stay readable. */
  lemma OrderMatters()
    ensures RedactAll(["x", "xy"], "xy") == "<redacted>y"
    ensures RedactAll(SortByLength(["x", "xy"]), "xy") == "<redacted>"
  {
    ShortestFirstLeaks();
    hide RedactAll, SortByLength, LongestFirst;
    var secrets: seq<Secret> := ["x", "xy"];
    SortedByLength(secrets);
    SortMembers(secrets);
    XIsClear("x");
    XIsClear("xy");
    WholeSecretDisappears(SortByLength(secrets), "xy");
  }

  /** A secret with a bracket can be created by the replacement of another. */
  lemma BracketsMatter()
    ensures var secrets := ["a<", "b"];
            RedactAll(secrets, "ab") == "a<redacted>" && Occurs("a<", RedactAll(secrets, "ab"))
  {
    var secrets: seq<Secret> := ["a<", "b"];
    var text: string := "ab";
    assert text[1..] == "b" && text[1..][1..] == "";
    assert text[0] == 'a' && text[1] == 'b' && text[1..][0] == 'b' && |text| == 2;
    assert "a<"[0] == 'a' && "a<"[1] == '<';
    assert !("a<" <= text) && !("a<" <= text[1..]) && !("a<" <= text[1..][1..]);
    assert !Contains(text, "a<");
    assert "b" <= text[1..];
    assert Replace(text[1..], "b", REDACTED) == REDACTED + Replace([], "b", REDACTED);
    assert Replace(text, "b", REDACTED) == "a<redacted>";
    assert secrets[1..] == ["b"] && ["b"][1..] == [];
    var out: string := "a<redacted>";
    assert out[0..2] == "a<";
    assert OccursAt("a<", out, 0);
  }
}
