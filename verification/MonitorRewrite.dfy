/** Turning an enforcing rule into a monitoring one by textual replacement
    (management-plane/main.go). */
module MonitorRewrite {
  import opened Wrappers
  import opened Strings

  /** `strings.ReplaceAll`: leftmost, non-overlapping occurrences. */
  function ReplaceAll(s: string, from: string, to: string): string
    requires from != ""
    decreases |s|
  {
    if s == "" then ""
    else if HasPrefix(s, from) then to + ReplaceAll(s[|from|..], from, to)
    else [s[0]] + ReplaceAll(s[1..], from, to)
  }

  /** How many occurrences `ReplaceAll` replaces. */
  function Count(s: string, from: string): nat
    requires from != ""
    decreases |s|
  {
    if s == "" then 0
    else if HasPrefix(s, from) then 1 + Count(s[|from|..], from)
    else Count(s[1..], from)
  }

  /** No character in common. */
  predicate Apart(a: string, b: string) {
    forall i, j | 0 <= i < |a| && 0 <= j < |b| :: a[i] != b[j]
  }

  /** A replacement whose first and last characters do not occur in the word, and that does not
      contain it: no occurrence of the word can overlap an inserted replacement. */
  predicate Fenced(to: string, word: string) {
    to != "" && to[0] !in word && to[|to| - 1] !in word && !Contains(to, word)
  }

  lemma OneMore(k: int, d: int)
    ensures (k + 1) * d == k * d + d
  {
  }

  lemma {:induction false} LengthGrows(s: string, from: string, to: string)
    requires from != ""
    ensures |ReplaceAll(s, from, to)| == |s| + Count(s, from) * (|to| - |from|)
    decreases |s|
  {
    if s == "" {
    } else {
      if HasPrefix(s, from) {
        LengthGrows(s[|from|..], from, to);
        OneMore(Count(s[|from|..], from), |to| - |from|);
      } else {
        LengthGrows(s[1..], from, to);
      }
    }
  }

  /** A word without the replacement's first character starts the result only if it started the
      original. */
  lemma {:induction false} PrefixSurvives(s: string, from: string, to: string, word: string)
    requires from != "" && to != "" && to[0] !in word
    requires HasPrefix(ReplaceAll(s, from, to), word)
    ensures HasPrefix(s, word)
    decreases |word|
  {
    if word == "" {
    } else {
      var r := ReplaceAll(s, from, to);
      assert r[0] == word[0] && word[0] in word;
      assert !HasPrefix(s, from);
      var tail := ReplaceAll(s[1..], from, to);
      assert r[1..] == tail;
      assert r[..|word|][1..] == tail[..|word| - 1];
      PrefixSurvives(s[1..], from, to, word[1..]);
      assert s[..|word|] == [s[0]] + s[1..][..|word| - 1];
    }
  }

  lemma ContainsTail(s: string, word: string)
    requires s != "" && word != ""
    ensures Contains(s, word) <==> HasPrefix(s, word) || Contains(s[1..], word)
  {
    assert OccursAt(s, word, 0) <==> HasPrefix(s, word);
    if i :| 0 <= i <= |s[1..]| && OccursAt(s[1..], word, i) {
      ShiftOccurrence(s, word, i);
      assert OccursAt(s, word, i + 1);
    }
    if i :| 0 <= i <= |s| && OccursAt(s, word, i) {
      if i > 0 {
        ShiftOccurrence(s, word, i - 1);
        assert OccursAt(s[1..], word, i - 1);
      }
    }
  }

  lemma ShiftOccurrence(s: string, word: string, i: nat)
    requires s != ""
    ensures OccursAt(s, word, i + 1) <==> OccursAt(s[1..], word, i)
  {
    OccursPointwise(s, word, i + 1);
    OccursPointwise(s[1..], word, i);
  }

  /** No occurrence starts in an inserted replacement. */
  lemma NoneStartsInFence(to: string, s: string, word: string, i: nat)
    requires word != "" && Fenced(to, word) && i < |to|
    ensures !OccursAt(to + s, word, i)
  {
    var t, last := to + s, |to| - 1;
    OccursPointwise(t, word, i);
    OccursPointwise(to, word, i);
    assert !OccursAt(to, word, i);
    assert t[last] == to[last];
    assert last - i < |word| ==> word[last - i] in word;
    assert forall k | i <= k < |to| :: t[k] == to[k];
  }

  lemma ContainsAfterFence(to: string, s: string, word: string)
    requires word != "" && Fenced(to, word)
    ensures Contains(to + s, word) <==> Contains(s, word)
  {
    var t := to + s;
    if i :| 0 <= i <= |t| && OccursAt(t, word, i) {
      if i < |to| {
        NoneStartsInFence(to, s, word, i);
      } else {
        assert t[i..i + |word|] == s[i - |to|..i - |to| + |word|];
        assert OccursAt(s, word, i - |to|);
      }
    }
    if i :| 0 <= i <= |s| && OccursAt(s, word, i) {
      assert t[|to| + i..|to| + i + |word|] == s[i..i + |word|];
      assert OccursAt(t, word, |to| + i);
    }
  }

  /** Replacing never creates an occurrence of a word the replacement is fenced against; and the
      replaced word itself is gone. */
  lemma {:induction false} NothingCreated(s: string, from: string, to: string, word: string)
    requires from != "" && word != "" && Fenced(to, word)
    requires word == from || !Contains(s, word)
    ensures !Contains(ReplaceAll(s, from, to), word)
    decreases |s|
  {
    if s == "" {
      assert !OccursAt("", word, 0);
    } else if HasPrefix(s, from) {
      var rest := s[|from|..];
      if word != from {
        assert s == s[..|from|] + rest;
        NoneInSuffix(s[..|from|], rest, word);
      }
      NothingCreated(rest, from, to, word);
      ContainsAfterFence(to, ReplaceAll(rest, from, to), word);
    } else {
      var r := ReplaceAll(s, from, to);
      ContainsTail(s, word);
      NothingCreated(s[1..], from, to, word);
      ContainsTail(r, word);
      assert r[1..] == ReplaceAll(s[1..], from, to);
      if HasPrefix(r, word) {
        PrefixSurvives(s, from, to, word);
        assert false;
      }
    }
  }

  lemma NoneInSuffix(a: string, s: string, word: string)
    requires !Contains(a + s, word)
    ensures !Contains(s, word)
  {
    if i :| 0 <= i <= |s| && OccursAt(s, word, i) {
      assert (a + s)[|a| + i..|a| + i + |word|] == s[i..i + |word|];
      assert OccursAt(a + s, word, |a| + i);
      assert false;
    }
  }

  lemma {:induction false} NothingToReplace(s: string, from: string, to: string)
    requires from != "" && !Contains(s, from)
    ensures ReplaceAll(s, from, to) == s
    decreases |s|
  {
    if s == "" {
    } else {
      ContainsTail(s, from);
      NothingToReplace(s[1..], from, to);
    }
  }

  lemma {:induction false} CountAfter(a: string, s: string, word: string)
    requires word != ""
    requires forall i | 0 <= i < |a| :: !OccursAt(a + s, word, i)
    ensures Count(a + s, word) == Count(s, word)
    decreases |a|
  {
    if a == "" {
      assert a + s == s;
    } else {
      assert (a + s)[1..] == a[1..] + s;
      assert !OccursAt(a + s, word, 0);
      forall i | 0 <= i < |a| - 1 ensures !OccursAt(a[1..] + s, word, i) {
        ShiftOccurrence(a + s, word, i);
      }
      CountAfter(a[1..], s, word);
    }
  }

  lemma CountAfterApart(a: string, s: string, word: string)
    requires word != "" && Apart(a, word)
    ensures Count(a + s, word) == Count(s, word)
  {
    forall i | 0 <= i < |a| ensures !OccursAt(a + s, word, i) {
      OccursPointwise(a + s, word, i);
      assert (a + s)[i + 0] == a[i];
    }
    CountAfter(a, s, word);
  }

  lemma CountAfterFence(to: string, s: string, word: string)
    requires word != "" && Fenced(to, word)
    ensures Count(to + s, word) == Count(s, word)
  {
    forall i | 0 <= i < |to| ensures !OccursAt(to + s, word, i) {
      NoneStartsInFence(to, s, word, i);
    }
    CountAfter(to, s, word);
  }

  /** Replacing a word leaves the count of another word alone when the two words share no character
      and the replacement is fenced against the other one. */
  lemma {:induction false} OtherCountUnchanged(s: string, from: string, to: string, word: string)
    requires from != "" && word != "" && Fenced(to, word) && Apart(from, word)
    ensures Count(ReplaceAll(s, from, to), word) == Count(s, word)
    decreases |s|
  {
    if s == "" {
    } else {
      if HasPrefix(s, from) {
        var rest := s[|from|..];
        OtherCountUnchanged(rest, from, to, word);
        CountAfterFence(to, ReplaceAll(rest, from, to), word);
        assert s == from + rest;
        CountAfterApart(from, rest, word);
      } else {
        var r := ReplaceAll(s, from, to);
        if HasPrefix(s, word) {
          WordStays(s, from, to, word);
          OtherCountUnchanged(s[|word|..], from, to, word);
          assert r == word + ReplaceAll(s[|word|..], from, to);
          assert r[|word|..] == ReplaceAll(s[|word|..], from, to);
        } else {
          if HasPrefix(r, word) {
            PrefixSurvives(s, from, to, word);
          }
          OtherCountUnchanged(s[1..], from, to, word);
          assert r[1..] == ReplaceAll(s[1..], from, to);
        }
      }
    }
  }

  /** An occurrence of such a word passes through the replacement. */
  lemma {:induction false} WordStays(s: string, from: string, to: string, word: string)
    requires from != "" && Apart(from, word) && HasPrefix(s, word)
    ensures ReplaceAll(s, from, to) == word + ReplaceAll(s[|word|..], from, to)
    decreases |word|
  {
    if word == "" {
      assert s[0..] == s;
    } else {
      assert s[0] == word[0];
      assert !HasPrefix(s, from) by {
        assert from[0] != word[0];
      }
      assert s[1..][..|word| - 1] == s[..|word|][1..];
      WordStays(s[1..], from, to, word[1..]);
      assert s[1..][|word| - 1..] == s[|word|..];
      assert word == [word[0]] + word[1..];
    }
  }

  // ---------------------------------------------------------------- the rewriting of MONITOR rules

  const DENY := "deny"
  const BLOCK := "block"
  const HARMLESS := "pass,auditlog"

  function Monitor(code: string): string {
    ReplaceAll(ReplaceAll(code, DENY, HARMLESS), BLOCK, HARMLESS)
  }

  /** "pass,auditlog" shares letters with both words, but is fenced against them by `p` and `g`. */
  lemma WordsAreFenced()
    ensures Fenced(HARMLESS, DENY) && Fenced(HARMLESS, BLOCK) && Apart(DENY, BLOCK)
  {
    var h, d, b := HARMLESS, DENY, BLOCK;
    assert h[7] == 'd' && h[8] == 'i' && 'd' !in h[..7] && 'd' !in h[8..];
    assert 'b' !in h && 'p' !in d && 'g' !in d && 'p' !in b && 'g' !in b;
    forall i: nat ensures !OccursAt(h, d, i) && !OccursAt(h, b, i) {
      OccursPointwise(h, d, i);
      OccursPointwise(h, b, i);
      assert d[0] == 'd' && d[1] == 'e' && b[0] == 'b';
      assert i < 7 ==> h[i + 0] == h[..7][i];
      assert 7 < i < |h| ==> h[i + 0] == h[8..][i - 8];
      assert i < |h| ==> h[i + 0] in h;
    }
  }

  lemma WordLengths()
    ensures |DENY| == 4 && |BLOCK| == 5 && |HARMLESS| == 13
  {
  }

  /** After the rewriting neither word is left, inside or across a replacement. */
  lemma MonitorIsTotal(code: string)
    ensures !Contains(Monitor(code), DENY) && !Contains(Monitor(code), BLOCK)
  {
    hide DENY, BLOCK, HARMLESS, Contains, ReplaceAll;
    WordLengths();
    WordsAreFenced();
    var first := ReplaceAll(code, DENY, HARMLESS);
    NothingCreated(code, DENY, HARMLESS, DENY);
    NothingCreated(first, BLOCK, HARMLESS, DENY);
    NothingCreated(first, BLOCK, HARMLESS, BLOCK);
  }

  /** Rewriting again changes nothing. */
  lemma MonitorIsStable(code: string)
    ensures Monitor(Monitor(code)) == Monitor(code)
  {
    hide DENY, BLOCK, HARMLESS, Contains, ReplaceAll;
    WordLengths();
    MonitorIsTotal(code);
    NothingToReplace(Monitor(code), DENY, HARMLESS);
    NothingToReplace(Monitor(code), BLOCK, HARMLESS);
  }

  /** Exactly the codes without either word pass through untouched, whatever else they do. */
  lemma MonitorKeepsIff(code: string)
    ensures Monitor(code) == code <==> !Contains(code, DENY) && !Contains(code, BLOCK)
  {
    hide DENY, BLOCK, HARMLESS, Contains, ReplaceAll;
    WordLengths();
    if Monitor(code) == code {
      MonitorIsTotal(code);
    }
    if !Contains(code, DENY) && !Contains(code, BLOCK) {
      NothingToReplace(code, DENY, HARMLESS);
      NothingToReplace(code, BLOCK, HARMLESS);
    }
  }

  /** So a rule in upper case keeps its action, and so does a code that is another action. */
  lemma OtherSpellingsSurvive(code: string)
    ensures Monitor(ToUpper(code)) == ToUpper(code)
    ensures Monitor("drop") == "drop" && Monitor("redirect") == "redirect"
  {
    hide Monitor;
    var upper := ToUpper(code);
    assert DENY[0] == 'd' && BLOCK[0] == 'b' && DENY[1] == 'e';
    forall i: nat ensures !OccursAt(upper, DENY, i) && !OccursAt(upper, BLOCK, i) {
      OccursPointwise(upper, DENY, i);
      OccursPointwise(upper, BLOCK, i);
      assert i < |upper| ==> upper[i + 0] == UpperChar(code[i]);
    }
    MonitorKeepsIff(upper);
    forall i: nat ensures !OccursAt("drop", DENY, i) && !OccursAt("drop", BLOCK, i) {
      OccursPointwise("drop", DENY, i);
      OccursPointwise("drop", BLOCK, i);
      assert "drop"[0 + 1] == 'r';
    }
    MonitorKeepsIff("drop");
    forall i: nat ensures !OccursAt("redirect", DENY, i) && !OccursAt("redirect", BLOCK, i) {
      OccursPointwise("redirect", DENY, i);
      OccursPointwise("redirect", BLOCK, i);
      assert "redirect"[2 + 1] != DENY[0 + 1];
    }
    MonitorKeepsIff("redirect");
  }

  /** Laying `b` over `a` at `d` puts different characters on each other. */
  predicate Differs(a: string, b: string, d: int) {
    exists k | 0 <= k < |a| :: 0 <= k - d < |b| && a[k] != b[k - d]
  }

  /** No occurrences of the two words can overlap. */
  predicate Incompatible(a: string, b: string) {
    forall d | -|b| < d < |a| :: Differs(a, b, d)
  }

  lemma NotBoth(s: string, a: string, b: string, i: nat, j: nat)
    requires Differs(a, b, j - i)
    ensures !(OccursAt(s, a, i) && OccursAt(s, b, j))
  {
    var k :| 0 <= k < |a| && 0 <= k - (j - i) < |b| && a[k] != b[k - (j - i)];
    OccursPointwise(s, a, i);
    OccursPointwise(s, b, j);
    assert OccursAt(s, a, i) ==> s[i + k] == a[k];
    assert OccursAt(s, b, j) ==> s[j + (k - (j - i))] == b[k - (j - i)];
  }

  lemma NeverOverlap(s: string, a: string, b: string, i: nat, j: nat)
    requires Incompatible(a, b)
    ensures i < j + |b| && j < i + |a| ==> !(OccursAt(s, a, i) && OccursAt(s, b, j))
  {
    hide OccursAt, Differs;
    if i < j + |b| && j < i + |a| {
      assert Differs(a, b, j - i);
      NotBoth(s, a, b, i, j);
    }
  }

  lemma {:induction false} UntouchedPart(s: string, from: string, to: string, n: nat)
    requires from != "" && n <= |s| && forall i: nat | i < n :: !OccursAt(s, from, i)
    ensures ReplaceAll(s, from, to) == s[..n] + ReplaceAll(s[n..], from, to)
    decreases n
  {
    hide OccursAt, ReplaceAll, HasPrefix;
    if n == 0 {
      assert s[0..] == s;
    } else {
      assert !OccursAt(s, from, 0);
      NothingStarts(s, from, to);
      forall i: nat | i < n - 1 ensures !OccursAt(s[1..], from, i) {
        ShiftOccurrence(s, from, i);
        assert !OccursAt(s, from, i + 1);
      }
      UntouchedPart(s[1..], from, to, n - 1);
      assert s[1..][n - 1..] == s[n..] && s[..n] == [s[0]] + s[1..][..n - 1];
    }
  }

  lemma NothingStarts(s: string, from: string, to: string)
    requires s != "" && from != "" && !OccursAt(s, from, 0)
    ensures ReplaceAll(s, from, to) == [s[0]] + ReplaceAll(s[1..], from, to)
  {
  }

  lemma StartsThere(s: string, word: string)
    ensures OccursAt(s, word, 0) <==> HasPrefix(s, word)
  {
  }

  lemma PrefixOccurs(a: string, b: string)
    ensures Contains(a + b, a)
  {
    assert (a + b)[0..0 + |a|] == a;
    assert OccursAt(a + b, a, 0);
  }

  lemma ContainsBehind(a: string, s: string, word: string)
    requires Contains(s, word)
    ensures Contains(a + s, word)
  {
    var i :| 0 <= i <= |s| && OccursAt(s, word, i);
    assert (a + s)[|a| + i..|a| + i + |word|] == s[i..i + |word|];
    assert OccursAt(a + s, word, |a| + i);
  }

  /** A word that cannot overlap the replaced one is still there after the replacement. */
  lemma {:induction false} OtherWordStays(s: string, from: string, to: string, word: string)
    requires from != "" && word != "" && Incompatible(from, word) && Contains(s, word)
    ensures Contains(ReplaceAll(s, from, to), word)
    decreases |s|
  {
    hide Incompatible, Contains, OccursAt;
    var i := Occurrence(s, word);
    StartsThere(s, from);
    StartsThere(s, word);
    if i == 0 {
      forall k: nat | k < |word| ensures !OccursAt(s, from, k) {
        NeverOverlap(s, from, word, k, 0);
      }
      UntouchedPart(s, from, to, |word|);
      PrefixOccurs(word, ReplaceAll(s[|word|..], from, to));
    } else if HasPrefix(s, from) {
      NeverOverlap(s, from, word, 0, i);
      Found(s, word, i, |from|);
      OtherWordStays(s[|from|..], from, to, word);
      ContainsBehind(to, ReplaceAll(s[|from|..], from, to), word);
    } else {
      Found(s, word, i, 1);
      OtherWordStays(s[1..], from, to, word);
      ContainsBehind([s[0]], ReplaceAll(s[1..], from, to), word);
    }
  }

  lemma Occurrence(s: string, word: string) returns (i: nat)
    requires Contains(s, word)
    ensures OccursAt(s, word, i) && i + |word| <= |s|
  {
    i :| 0 <= i <= |s| && OccursAt(s, word, i);
  }

  lemma Found(s: string, word: string, i: nat, n: nat)
    requires n <= i && OccursAt(s, word, i)
    ensures n <= |s| && Contains(s[n..], word)
  {
    assert s[n..][i - n..i - n + |word|] == s[i..i + |word|];
    assert OccursAt(s[n..], word, i - n);
  }

  const DROP := "drop"
  const REDIRECT := "redirect"

  lemma DifferAt(a: string, b: string, d: int, k: nat)
    requires k < |a| && 0 <= k - d < |b| && a[k] != b[k - d]
    ensures Differs(a, b, d)
  {
  }

  lemma DropDiffers()
    ensures Incompatible(DENY, DROP) && Incompatible(BLOCK, DROP)
  {
    hide Differs;
    forall d | -|DROP| < d < |DENY| ensures Differs(DENY, DROP, d) {
      DifferAt(DENY, DROP, d, if d > 0 then d else if d == 0 then 1 else 0);
    }
    forall d | -|DROP| < d < |BLOCK| ensures Differs(BLOCK, DROP, d) {
      DifferAt(BLOCK, DROP, d, if d > 0 then d else 0);
    }
  }

  lemma DenyIsNotRedirect()
    ensures Incompatible(DENY, REDIRECT)
  {
    hide Differs;
    forall d | -|REDIRECT| < d < |DENY| ensures Differs(DENY, REDIRECT, d) {
      DifferAt(DENY, REDIRECT, d, if d > 0 then d else if d == -2 then 1 else 0);
    }
  }

  lemma BlockIsNotRedirect()
    ensures Incompatible(BLOCK, REDIRECT)
  {
    hide Differs;
    forall d | -|REDIRECT| < d < |BLOCK| ensures Differs(BLOCK, REDIRECT, d) {
      DifferAt(BLOCK, REDIRECT, d, if d > 0 then d else 0);
    }
  }

  lemma OtherActionsAreIncompatible()
    ensures Incompatible(DENY, DROP) && Incompatible(BLOCK, DROP)
    ensures Incompatible(DENY, REDIRECT) && Incompatible(BLOCK, REDIRECT)
  {
    DropDiffers();
    DenyIsNotRedirect();
    BlockIsNotRedirect();
  }

  /** The other disruptive actions keep their effect in every monitored code. */
  lemma OtherActionsStay(code: string)
    ensures Contains(code, DROP) ==> Contains(Monitor(code), DROP)
    ensures Contains(code, REDIRECT) ==> Contains(Monitor(code), REDIRECT)
  {
    hide DENY, BLOCK, HARMLESS, DROP, REDIRECT, Contains, ReplaceAll, Incompatible;
    WordLengths();
    OtherActionsAreIncompatible();
    assert DROP != "" && REDIRECT != "" by {
      OtherLengths();
    }
    var first := ReplaceAll(code, DENY, HARMLESS);
    if Contains(code, DROP) {
      OtherWordStays(code, DENY, HARMLESS, DROP);
      OtherWordStays(first, BLOCK, HARMLESS, DROP);
    }
    if Contains(code, REDIRECT) {
      OtherWordStays(code, DENY, HARMLESS, REDIRECT);
      OtherWordStays(first, BLOCK, HARMLESS, REDIRECT);
    }
  }

  lemma OtherLengths()
    ensures |DROP| == 4 && |REDIRECT| == 8
  {
  }

  /** Nine characters more for each "deny" of the original and eight for each "block". */
  lemma MonitorLength(code: string)
    ensures |Monitor(code)| == |code| + 9 * Count(code, DENY) + 8 * Count(code, BLOCK)
  {
    hide DENY, BLOCK, HARMLESS, ReplaceAll, Count;
    WordLengths();
    WordsAreFenced();
    var first := ReplaceAll(code, DENY, HARMLESS);
    LengthGrows(code, DENY, HARMLESS);
    LengthGrows(first, BLOCK, HARMLESS);
    OtherCountUnchanged(code, DENY, HARMLESS, BLOCK);
  }

  // ---------------------------------------------------------------- the loop over custom rules

  datatype CustomRow = CustomRow(code: string, status: string, enabled: bool, expires: Option<int>)

  /** The WHERE clause: enabled, in force, not yet expired. */
  predicate InForce(r: CustomRow, now: int) {
    r.enabled && r.status in {"ENFORCE", "MONITOR"} && (r.expires.None? || r.expires.value > now)
  }

  function CompileCustom(rows: seq<CustomRow>, now: int): seq<string> {
    if rows == [] then []
    else
      var n := |rows| - 1;
      var code := TrimSpace(rows[n].code);
      CompileCustom(rows[..n], now)
      + if !InForce(rows[n], now) || code == "" then []
        else [if ToUpper(rows[n].status) == "MONITOR" then Monitor(code) else code]
  }

  method CompileCustomRules(rows: seq<CustomRow>, now: int) returns (active: seq<string>)
    ensures active == CompileCustom(rows, now)
  {
    hide TrimSpace, ToUpper, ReplaceAll, InForce;
    active := [];
    for i := 0 to |rows|
      invariant active == CompileCustom(rows[..i], now)
    {
      assert rows[..i + 1][..i] == rows[..i];
      var code := TrimSpace(rows[i].code);
      if InForce(rows[i], now) && code != "" {
        if ToUpper(rows[i].status) == "MONITOR" {
          code := ReplaceAll(code, DENY, HARMLESS);
          code := ReplaceAll(code, BLOCK, HARMLESS);
        }
        active := active + [code];
      }
    }
    assert rows[..|rows|] == rows;
  }

  /** What a row must be to contribute to the policy. */
  predicate Contributes(r: CustomRow, now: int) {
    && r.enabled && (r.status == "ENFORCE" || r.status == "MONITOR") && TrimSpace(r.code) != ""
    && match r.expires case None => true case Some(at) => at > now
  }

  lemma StatusWords()
    ensures ToUpper("MONITOR") == "MONITOR" && ToUpper("ENFORCE") != "MONITOR"
  {
    assert ToUpper("ENFORCE")[0] == 'E';
  }

  /** The place of a row's code: behind those of the contributing rows before it. */
  function PlaceOf(rows: seq<CustomRow>, i: nat, now: int): nat
    requires i <= |rows|
  {
    |set k | 0 <= k < i && Contributes(rows[k], now)|
  }

  lemma PlaceOfNext(rows: seq<CustomRow>, i: nat, now: int)
    requires i < |rows|
    ensures PlaceOf(rows, i + 1, now) == PlaceOf(rows, i, now) + if Contributes(rows[i], now) then 1 else 0
  {
    hide Contributes;
    var few := set k | 0 <= k < i && Contributes(rows[k], now);
    var more := set k | 0 <= k < i + 1 && Contributes(rows[k], now);
    assert more == few + if Contributes(rows[i], now) then {i} else {};
  }

  lemma PlaceOfFront(rows: seq<CustomRow>, i: nat, now: int)
    requires i < |rows|
    ensures PlaceOf(rows[..|rows| - 1], i, now) == PlaceOf(rows, i, now)
  {
    hide Contributes;
    var front := rows[..|rows| - 1];
    assert (set k | 0 <= k < i && Contributes(front[k], now)) == set k | 0 <= k < i && Contributes(rows[k], now);
  }

  /** Each enabled, unexpired row with a code contributes exactly one text, in the order of the rows:
      its trimmed code as it is when it enforces, rewritten when it monitors. No other row contributes. */
  lemma {:induction false} CustomRulesExact(rows: seq<CustomRow>, now: int, i: nat)
    ensures |CompileCustom(rows, now)| == PlaceOf(rows, |rows|, now)
    ensures i < |rows| && Contributes(rows[i], now) ==>
              && PlaceOf(rows, i, now) < |CompileCustom(rows, now)|
              && CompileCustom(rows, now)[PlaceOf(rows, i, now)] ==
                 if rows[i].status == "ENFORCE" then TrimSpace(rows[i].code)
                 else ReplaceAll(ReplaceAll(TrimSpace(rows[i].code), "deny", "pass,auditlog"), "block", "pass,auditlog")
    decreases |rows|
  {
    hide TrimSpace, ReplaceAll, PlaceOf, ToUpper, Contributes, InForce, Monitor;
    if rows == [] {
      NoPlace(now);
    } else {
      var n := |rows| - 1;
      CustomRulesExact(rows[..n], now, i);
      CompileLast(rows, now);
      PlaceOfNext(rows, n, now);
      PlaceOfFront(rows, n, now);
      if i < n {
        PlaceOfFront(rows, i, now);
      }
    }
  }

  lemma CompileLast(rows: seq<CustomRow>, now: int)
    requires rows != []
    ensures var r := rows[|rows| - 1];
            CompileCustom(rows, now) == CompileCustom(rows[..|rows| - 1], now) +
            if !Contributes(r, now) then []
            else [if r.status == "ENFORCE" then TrimSpace(r.code)
                  else ReplaceAll(ReplaceAll(TrimSpace(r.code), "deny", "pass,auditlog"), "block", "pass,auditlog")]
  {
    hide TrimSpace, ReplaceAll, ToUpper;
    StatusWords();
  }

  lemma NoPlace(now: int)
    ensures PlaceOf([], 0, now) == 0
  {
  }

  /** When every enabled rule only monitors, no compiled custom rule contains either word. */
  lemma {:induction false} MonitoredRulesHoldNeitherWord(rows: seq<CustomRow>, now: int)
    requires forall r | r in rows && r.enabled :: r.status == "MONITOR"
    ensures forall code | code in CompileCustom(rows, now) :: !Contains(code, DENY) && !Contains(code, BLOCK)
    decreases |rows|
  {
    hide TrimSpace, Contains, Monitor, DENY, BLOCK;
    if rows == [] {
    } else {
      var n := |rows| - 1;
      assert forall r | r in rows[..n] :: r in rows;
      MonitoredRulesHoldNeitherWord(rows[..n], now);
      MonitorIsTotal(TrimSpace(rows[n].code));
      assert rows[n] in rows;
      assert ToUpper("MONITOR") == "MONITOR";
    }
  }
}
