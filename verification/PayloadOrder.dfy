/** When the decision of the chain depends on the order in which the parameters are met, and what an
    override of one signature does to the other (management-plane/policy_engine_v2.go). */
module PayloadOrder {
  import opened Wrappers
  import opened Strings
  import opened PolicyChain

  const UNION := "union"
  const SELECT := "select"
  const UNION_SELECT := "union select"
  const QUOTE := "'"
  const QUOTE_OR := "' or"
  const OR := "or"
  const OR_ONE := "or '1'='1"
  const ONE := "'1'='1"
  const QUOTE_OR_ONE := "' or '1'='1"

  predicate HasSuffix(s: string, suffix: string) {
    |suffix| <= |s| && s[|s| - |suffix|..] == suffix
  }

  // ---------------------------------------------------------------- occurrences across a blank

  /** An occurrence of `sub` around a blank that joins two texts. */
  predicate Straddles(a: string, b: string, sub: string, j: nat)
    requires j < |sub|
  {
    sub[j] == ' ' && HasSuffix(a, sub[..j]) && HasPrefix(b, sub[j + 1..])
  }

  lemma SuffixFits(a: string, b: string, sub: string, j: nat)
    requires j < |sub| && Straddles(a, b, sub, j)
    ensures j <= |a|
  {
  }

  lemma StraddleOccurs(a: string, b: string, sub: string, j: nat)
    requires j < |sub| && j <= |a| && Straddles(a, b, sub, j)
    ensures OccursAt(a + " " + b, sub, |a| - j)
  {
    var s, at := a + " " + b, |a| - j;
    assert sub == sub[..j] + [sub[j]] + sub[j + 1..];
    assert s[at..|a|] == sub[..j];
    assert s[|a|] == ' ';
    assert s[|a| + 1..at + |sub|] == b[..|sub| - j - 1];
    assert s[at..at + |sub|] == s[at..|a|] + [s[|a|]] + s[|a| + 1..at + |sub|];
  }

  lemma OccursAcross(a: string, b: string, sub: string, i: nat)
    requires OccursAt(a + " " + b, sub, i) && i <= |a| < i + |sub|
    ensures Straddles(a, b, sub, |a| - i)
  {
    var s, j := a + " " + b, |a| - i;
    assert sub == s[i..i + |sub|];
    assert sub[j] == s[|a|] == ' ';
    assert sub[..j] == s[i..|a|] == a[i..];
    assert sub[j + 1..] == s[|a| + 1..i + |sub|] == b[..|sub| - j - 1];
  }

  lemma FoundInJoined(a: string, b: string, sub: string, i: nat)
    requires sub != "" && OccursAt(a + " " + b, sub, i)
    ensures Contains(a, sub) || Contains(b, sub) || exists j | 0 <= j < |sub| :: Straddles(a, b, sub, j)
  {
    hide Straddles;
    var s := a + " " + b;
    if i + |sub| <= |a| {
      assert s[i..i + |sub|] == a[i..i + |sub|];
      assert OccursAt(a, sub, i);
    } else if i > |a| {
      assert s[i..i + |sub|] == b[i - |a| - 1..i - |a| - 1 + |sub|];
      assert OccursAt(b, sub, i - |a| - 1);
    } else {
      OccursAcross(a, b, sub, i);
    }
  }

  lemma ShiftedOccurrence(a: string, s: string, b: string, sub: string, i: nat)
    requires OccursAt(s, sub, i)
    ensures OccursAt(a + s + b, sub, |a| + i)
  {
    assert (a + s + b)[|a| + i..|a| + i + |sub|] == s[i..i + |sub|];
  }

  /** A text occurs in two texts joined by a blank exactly when it occurs in one of them or straddles
      the blank. */
  lemma ContainsJoined(a: string, b: string, sub: string)
    requires sub != ""
    ensures Contains(a + " " + b, sub) <==>
            Contains(a, sub) || Contains(b, sub) || exists j | 0 <= j < |sub| :: Straddles(a, b, sub, j)
  {
    hide Straddles, OccursAt;
    var s := a + " " + b;
    if Contains(s, sub) {
      var i :| 0 <= i <= |s| && OccursAt(s, sub, i);
      FoundInJoined(a, b, sub, i);
    }
    if i :| 0 <= i <= |a| && OccursAt(a, sub, i) {
      ShiftedOccurrence("", a, " " + b, sub, i);
      assert "" + a + (" " + b) == s;
      assert OccursAt(s, sub, i);
    }
    if i :| 0 <= i <= |b| && OccursAt(b, sub, i) {
      ShiftedOccurrence(a + " ", b, "", sub, i);
      assert a + " " + b + "" == s;
      assert OccursAt(s, sub, |a| + 1 + i);
    }
    if j :| 0 <= j < |sub| && Straddles(a, b, sub, j) {
      SuffixFits(a, b, sub, j);
      StraddleOccurs(a, b, sub, j);
      assert OccursAt(s, sub, |a| - j);
    }
  }

  lemma PrefixJoined(a: string, b: string, prefix: string)
    ensures HasPrefix(a + " " + b, prefix) <==>
            || HasPrefix(a, prefix)
            || (|a| < |prefix| && prefix[..|a|] == a && prefix[|a|] == ' ' && HasPrefix(b, prefix[|a| + 1..]))
  {
    var s := a + " " + b;
    if |prefix| <= |a| {
      assert s[..|prefix|] == a[..|prefix|];
    } else {
      assert prefix == prefix[..|a|] + [prefix[|a|]] + prefix[|a| + 1..];
      if |prefix| <= |s| {
        assert s[..|prefix|] == a + " " + b[..|prefix| - |a| - 1];
      }
    }
  }

  // ---------------------------------------------------------------- the signatures

  /** The piece holds an injection signature by itself; pieces are in lower case. */
  predicate Holds(p: string) {
    Contains(p, UNION_SELECT) || Contains(p, QUOTE_OR_ONE)
  }

  /** The two pieces, joined by a blank, make a signature that neither holds. */
  predicate Links(p: string, q: string) {
    || (HasSuffix(p, UNION) && HasPrefix(q, SELECT))
    || (HasSuffix(p, QUOTE) && HasPrefix(q, OR_ONE))
    || (HasSuffix(p, QUOTE_OR) && HasPrefix(q, ONE))
  }

  /** The three pieces make one over both blanks. */
  predicate LinksAcross(p: string, q: string, r: string) {
    HasSuffix(p, QUOTE) && q == OR && HasPrefix(r, ONE)
  }

  lemma UnionStraddles(a: string, b: string)
    ensures (exists j | 0 <= j < |UNION_SELECT| :: Straddles(a, b, UNION_SELECT, j)) <==> HasSuffix(a, UNION) && HasPrefix(b, SELECT)
  {
    assert UNION_SELECT[..5] == UNION && UNION_SELECT[6..] == SELECT;
    assert forall j | 0 <= j < |UNION_SELECT| :: UNION_SELECT[j] == ' ' <==> j == 5;
    assert HasSuffix(a, UNION) && HasPrefix(b, SELECT) <==> Straddles(a, b, UNION_SELECT, 5);
  }

  lemma OrStraddles(a: string, b: string)
    ensures (exists j | 0 <= j < |QUOTE_OR_ONE| :: Straddles(a, b, QUOTE_OR_ONE, j)) <==>
            (HasSuffix(a, QUOTE) && HasPrefix(b, OR_ONE)) || (HasSuffix(a, QUOTE_OR) && HasPrefix(b, ONE))
  {
    assert QUOTE_OR_ONE[..1] == QUOTE && QUOTE_OR_ONE[2..] == OR_ONE;
    assert QUOTE_OR_ONE[..4] == QUOTE_OR && QUOTE_OR_ONE[5..] == ONE;
    assert forall j | 0 <= j < |QUOTE_OR_ONE| :: QUOTE_OR_ONE[j] == ' ' <==> j == 1 || j == 4;
    assert HasSuffix(a, QUOTE) && HasPrefix(b, OR_ONE) <==> Straddles(a, b, QUOTE_OR_ONE, 1);
    assert HasSuffix(a, QUOTE_OR) && HasPrefix(b, ONE) <==> Straddles(a, b, QUOTE_OR_ONE, 4);
  }

  lemma JoinOfMore(p: string, rest: seq<string>)
    requires rest != []
    ensures Join([p] + rest, " ") == p + " " + Join(rest, " ")
  {
    assert ([p] + rest)[1..] == rest;
  }

  lemma SolidPrefix(ps: seq<string>, prefix: string)
    requires ps != [] && ' ' !in prefix
    ensures HasPrefix(Join(ps, " "), prefix) <==> HasPrefix(ps[0], prefix)
  {
    if |ps| > 1 {
      PrefixJoined(ps[0], Join(ps[1..], " "), prefix);
    }
  }

  lemma OrOnePrefix(ps: seq<string>)
    requires ps != []
    ensures HasPrefix(Join(ps, " "), OR_ONE) <==> HasPrefix(ps[0], OR_ONE) || (|ps| > 1 && ps[0] == OR && HasPrefix(ps[1], ONE))
  {
    hide HasPrefix;
    if |ps| > 1 {
      var rest := ps[1..];
      PrefixJoined(ps[0], Join(rest, " "), OR_ONE);
      SolidPrefix(rest, ONE);
      assert OR_ONE[..2] == OR && OR_ONE[3..] == ONE;
      assert forall j | 0 <= j < |OR_ONE| :: OR_ONE[j] == ' ' <==> j == 2;
    }
  }

  predicate HoldsAt(ps: seq<string>, i: nat) {
    i < |ps| && Holds(ps[i])
  }

  predicate LinksAt(ps: seq<string>, i: nat) {
    i + 1 < |ps| && Links(ps[i], ps[i + 1])
  }

  predicate LinksAcrossAt(ps: seq<string>, i: nat) {
    i + 2 < |ps| && LinksAcross(ps[i], ps[i + 1], ps[i + 2])
  }

  /** Some piece holds a signature, or neighbouring pieces make one. */
  ghost predicate Injects(ps: seq<string>) {
    exists i: nat :: HoldsAt(ps, i) || LinksAt(ps, i) || LinksAcrossAt(ps, i)
  }

  lemma Shifted(p: string, rest: seq<string>, i: nat)
    ensures HoldsAt([p] + rest, i + 1) == HoldsAt(rest, i)
    ensures LinksAt([p] + rest, i + 1) == LinksAt(rest, i)
    ensures LinksAcrossAt([p] + rest, i + 1) == LinksAcrossAt(rest, i)
  {
  }

  lemma InjectsCons(p: string, rest: seq<string>)
    ensures Injects([p] + rest) <==> HoldsAt([p] + rest, 0) || LinksAt([p] + rest, 0) || LinksAcrossAt([p] + rest, 0) || Injects(rest)
  {
    hide HoldsAt, LinksAt, LinksAcrossAt;
    var ps := [p] + rest;
    if i: nat :| HoldsAt(ps, i) || LinksAt(ps, i) || LinksAcrossAt(ps, i) {
      if i > 0 {
        Shifted(p, rest, i - 1);
      }
    }
    if i: nat :| HoldsAt(rest, i) || LinksAt(rest, i) || LinksAcrossAt(rest, i) {
      Shifted(p, rest, i);
    }
  }

  /** Joined by blanks, pieces hold a signature exactly when one of them does or neighbours make one. */
  lemma {:induction false} InjectsExact(ps: seq<string>)
    requires ps != []
    ensures Holds(Join(ps, " ")) <==> Injects(ps)
    decreases |ps|
  {
    hide Contains, HasPrefix, HasSuffix, Straddles, Injects, OR, ONE, OR_ONE, QUOTE_OR, QUOTE, UNION, SELECT;
    var p, rest := ps[0], ps[1..];
    assert ps == [p] + rest;
    InjectsCons(p, rest);
    if |ps| == 1 {
      NothingInjects();
    } else {
      var joined := Join(rest, " ");
      InjectsExact(rest);
      ContainsJoined(p, joined, UNION_SELECT);
      ContainsJoined(p, joined, QUOTE_OR_ONE);
      UnionStraddles(p, joined);
      OrStraddles(p, joined);
      SolidWords();
      SolidPrefix(rest, SELECT);
      SolidPrefix(rest, ONE);
      OrOnePrefix(rest);
    }
  }

  lemma SolidWords()
    ensures ' ' !in SELECT && ' ' !in ONE
  {
  }

  lemma NothingInjects()
    ensures !Injects([])
  {
  }

  // ---------------------------------------------------------------- the pieces of a payload

  /** Path, body and the values in the order met. */
  function Pieces(req: EvaluationRequest, order: seq<string>): seq<string>
    requires forall name | name in order :: name in req.params
  {
    if order == [] then [req.path, req.body]
    else
      var n := |order| - 1;
      Pieces(req, order[..n]) + [req.params[order[n]]]
  }

  function LowerAll(ps: seq<string>): seq<string> {
    if ps == [] then [] else [ToLower(ps[0])] + LowerAll(ps[1..])
  }

  lemma {:induction false} PieceAt(req: EvaluationRequest, order: seq<string>, i: nat)
    requires (forall name | name in order :: name in req.params) && i < |order| + 2
    ensures |Pieces(req, order)| == |order| + 2
    ensures Pieces(req, order)[i] == if i == 0 then req.path else if i == 1 then req.body else req.params[order[i - 2]]
    decreases |order|
  {
    if order == [] {
    } else {
      var n := |order| - 1;
      PieceAt(req, order[..n], if i < n + 2 then i else 0);
    }
  }

  lemma {:induction false} LowerAt(ps: seq<string>, i: nat)
    requires i < |ps|
    ensures |LowerAll(ps)| == |ps| && LowerAll(ps)[i] == ToLower(ps[i])
    decreases |ps|
  {
    hide ToLower;
    if |ps| == 1 {
    } else {
      LowerAt(ps[1..], if i > 0 then i - 1 else 0);
    }
  }

  lemma {:induction false} JoinSnoc(ps: seq<string>, p: string)
    requires ps != []
    ensures Join(ps + [p], " ") == Join(ps, " ") + " " + p
    decreases |ps|
  {
    var more := ps + [p];
    assert more[1..] == ps[1..] + [p];
    if |ps| == 1 {
      assert more[1..] == [p];
    } else {
      JoinSnoc(ps[1..], p);
    }
  }

  lemma {:induction false} PayloadIsJoin(req: EvaluationRequest, order: seq<string>)
    requires forall name | name in order :: name in req.params
    ensures Pieces(req, order) != [] && Payload(req, order) == Join(Pieces(req, order), " ")
    decreases |order|
  {
    if order == [] {
      assert [req.path, req.body][1..] == [req.body];
    } else {
      var n := |order| - 1;
      PayloadIsJoin(req, order[..n]);
      JoinSnoc(Pieces(req, order[..n]), req.params[order[n]]);
    }
  }

  lemma LowerConcat(a: string, b: string)
    ensures ToLower(a + " " + b) == ToLower(a) + " " + ToLower(b)
  {
    assert ToLower(" ") == " ";
    assert |ToLower(a + " " + b)| == |ToLower(a) + " " + ToLower(b)|;
  }

  lemma {:induction false} LowerJoin(ps: seq<string>)
    requires ps != []
    ensures ToLower(Join(ps, " ")) == Join(LowerAll(ps), " ")
    decreases |ps|
  {
    hide ToLower;
    if |ps| == 1 {
      assert LowerAll(ps) == [ToLower(ps[0])];
    } else {
      LowerJoin(ps[1..]);
      LowerConcat(ps[0], Join(ps[1..], " "));
      LowerAt(ps[1..], 0);
      JoinOfMore(ToLower(ps[0]), LowerAll(ps[1..]));
    }
  }

  lemma InjectionIsHeld(s: string)
    ensures LooksLikeInjection(s) <==> Holds(ToLower(s))
  {
  }

  /** The searched text looks like an injection exactly when its pieces, in the order met, inject. */
  lemma PayloadInjects(req: EvaluationRequest, order: seq<string>)
    requires forall name | name in order :: name in req.params
    ensures LooksLikeInjection(Payload(req, order)) <==> Injects(LowerAll(Pieces(req, order)))
  {
    hide Injects, LooksLikeInjection, Holds, ToLower, Payload, Join;
    PayloadIsJoin(req, order);
    InjectionIsHeld(Payload(req, order));
    LowerJoin(Pieces(req, order));
    LowerAt(Pieces(req, order), 0);
    InjectsExact(LowerAll(Pieces(req, order)));
  }

  lemma {:induction false} SolidInJoin(ps: seq<string>, sub: string)
    requires ps != [] && sub != "" && ' ' !in sub
    ensures Contains(Join(ps, " "), sub) <==> exists p | p in ps :: Contains(p, sub)
    decreases |ps|
  {
    hide Contains;
    if |ps| == 1 {
    } else {
      SolidInJoin(ps[1..], sub);
      ContainsJoined(ps[0], Join(ps[1..], " "), sub);
      assert forall p :: p in ps <==> p == ps[0] || p in ps[1..];
    }
  }

  /** A script signature holds no blank, so it is found in a single piece or not at all. */
  lemma PayloadScripts(req: EvaluationRequest, order: seq<string>)
    requires forall name | name in order :: name in req.params
    ensures LooksLikeScript(Payload(req, order)) <==> exists p | p in Pieces(req, order) :: LooksLikeScript(p)
  {
    hide Contains, Join;
    var ps := Pieces(req, order);
    PayloadIsJoin(req, order);
    SolidInJoin(ps, "<script>");
    SolidInJoin(ps, "alert(");
  }

  // ---------------------------------------------------------------- when the order is irrelevant

  function LowerValue(req: EvaluationRequest, name: string): string
    requires name in req.params
  {
    ToLower(req.params[name])
  }

  /** Path, body or one value holds a signature, or path and body make one. */
  ghost predicate HeldAnyway(req: EvaluationRequest) {
    || Holds(ToLower(req.path)) || Holds(ToLower(req.body)) || Links(ToLower(req.path), ToLower(req.body))
    || exists name | name in req.params :: Holds(LowerValue(req, name))
  }

  /** The value can end a signature that begins in another piece. */
  predicate CanEnd(v: string) {
    HasPrefix(v, SELECT) || HasPrefix(v, OR_ONE) || HasPrefix(v, ONE)
  }

  predicate EarlierTier(req: EvaluationRequest, blocklist: map<string, string>) {
    req.clientIP in blocklist || IsScanner(req) || ForbiddenVerb(req)
  }

  /** The pieces in lower case. */
  function LowerPieces(req: EvaluationRequest, order: seq<string>): seq<string>
    requires forall name | name in order :: name in req.params
  {
    LowerAll(Pieces(req, order))
  }

  lemma LowerPieceAt(req: EvaluationRequest, order: seq<string>, i: nat)
    requires (forall name | name in order :: name in req.params) && i < |order| + 2
    ensures |LowerPieces(req, order)| == |order| + 2
    ensures i < 2 || order[i - 2] in req.params
    ensures LowerPieces(req, order)[i] ==
            if i == 0 then ToLower(req.path) else if i == 1 then ToLower(req.body) else LowerValue(req, order[i - 2])
  {
    hide LowerAll, ToLower, Pieces;
    PieceAt(req, order, i);
    LowerAt(Pieces(req, order), i);
    assert i >= 2 ==> order[i - 2] in order;
  }

  lemma HeldInjects(req: EvaluationRequest, order: seq<string>)
    requires IsOrder(req.params, order) && HeldAnyway(req)
    ensures Injects(LowerPieces(req, order))
  {
    hide Holds, Links, LinksAcrossAt, ToLower, LowerPieces;
    var ps := LowerPieces(req, order);
    LowerPieceAt(req, order, 0);
    LowerPieceAt(req, order, 1);
    if name :| name in req.params && Holds(LowerValue(req, name)) {
      assert name in order;
      var i :| 0 <= i < |order| && order[i] == name;
      LowerPieceAt(req, order, i + 2);
      assert HoldsAt(ps, i + 2);
    } else {
      assert HoldsAt(ps, 0) || HoldsAt(ps, 1) || LinksAt(ps, 0);
    }
  }

  /** Two values, next to each other in some order, make a signature. */
  ghost predicate LinkedValues(req: EvaluationRequest, x: string, y: string) {
    x in req.params && y in req.params && x != y && Links(LowerValue(req, x), LowerValue(req, y))
  }

  ghost predicate LinkedToBody(req: EvaluationRequest, v: string) {
    v in req.params && (Links(ToLower(req.body), LowerValue(req, v)) || LinksAcross(ToLower(req.path), ToLower(req.body), LowerValue(req, v)))
  }

  ghost predicate LinkedPair(req: EvaluationRequest, v: string, w: string) {
    v in req.params && w in req.params && v != w && LinksAcross(ToLower(req.body), LowerValue(req, v), LowerValue(req, w))
  }

  ghost predicate LinkedTriple(req: EvaluationRequest, u: string, v: string, w: string) {
    && u in req.params && v in req.params && w in req.params && u != v && u != w && v != w
    && LinksAcross(LowerValue(req, u), LowerValue(req, v), LowerValue(req, w))
  }

  /** Some order can put pieces side by side that make a signature. */
  ghost predicate CanInject(req: EvaluationRequest) {
    || HeldAnyway(req)
    || (exists v :: LinkedToBody(req, v))
    || (exists x, y :: LinkedValues(req, x, y))
    || (exists v, w :: LinkedPair(req, v, w))
    || (exists u, v, w :: LinkedTriple(req, u, v, w))
  }

  /** What neighbours from place `i` on make, in any order. */
  lemma NeighboursCanInject(req: EvaluationRequest, order: seq<string>, i: nat)
    requires IsOrder(req.params, order)
    ensures var ps := LowerPieces(req, order);
            HoldsAt(ps, i) || LinksAt(ps, i) || LinksAcrossAt(ps, i) ==> CanInject(req)
  {
    hide Holds, Links, LinksAcross, LowerValue, LowerPieces;
    var ps := LowerPieces(req, order);
    LowerPieceAt(req, order, 0);
    LowerPieceAt(req, order, 1);
    if i < |ps| {
      LowerPieceAt(req, order, i);
    }
    if i + 1 < |ps| {
      LowerPieceAt(req, order, i + 1);
    }
    if i + 2 < |ps| {
      LowerPieceAt(req, order, i + 2);
    }
    if LinksAt(ps, i) && i > 0 {
      assert i == 1 ==> LinkedToBody(req, order[0]);
      assert i > 1 ==> LinkedValues(req, order[i - 2], order[i - 1]);
    }
    if LinksAcrossAt(ps, i) {
      assert i == 0 ==> LinkedToBody(req, order[0]);
      assert i == 1 ==> LinkedPair(req, order[0], order[1]);
      assert i > 1 ==> LinkedTriple(req, order[i - 2], order[i - 1], order[i]);
    }
  }

  lemma InjectingCanInject(req: EvaluationRequest, order: seq<string>)
    requires IsOrder(req.params, order) && Injects(LowerPieces(req, order))
    ensures CanInject(req)
  {
    hide HoldsAt, LinksAt, LinksAcrossAt, CanInject, LowerPieces;
    var ps := LowerPieces(req, order);
    var i: nat :| HoldsAt(ps, i) || LinksAt(ps, i) || LinksAcrossAt(ps, i);
    NeighboursCanInject(req, order, i);
  }

  /** A request whose values can end no signature has only the signatures it holds anyway. */
  lemma NoEnderCannotInject(req: EvaluationRequest)
    requires forall name | name in req.params :: !CanEnd(LowerValue(req, name))
    ensures CanInject(req) <==> HeldAnyway(req)
  {
    hide Links, LinksAcross, LowerValue, CanEnd, HeldAnyway, ToLower;
    forall p, q, r ensures !CanEnd(q) ==> !Links(p, q) ensures !CanEnd(r) ==> !LinksAcross(p, q, r) {
      NoEnder(p, q, r);
    }
  }

  lemma NoEnder(p: string, q: string, r: string)
    ensures !CanEnd(q) ==> !Links(p, q)
    ensures !CanEnd(r) ==> !LinksAcross(p, q, r)
  {
  }

  function Without(order: seq<string>, names: seq<string>): (rest: seq<string>)
    ensures forall n :: n in rest <==> n in order && n !in names
    ensures (forall i, j | 0 <= i < j < |order| :: order[i] != order[j]) ==> forall i, j | 0 <= i < j < |rest| :: rest[i] != rest[j]
  {
    if order == [] then []
    else
      assert forall n :: n in order <==> n == order[0] || n in order[1..];
      var rest := Without(order[1..], names);
      if order[0] in names then rest
      else
        assert (forall i, j | 0 <= i < j < |order| :: order[i] != order[j]) ==> order[0] !in order[1..];
        [order[0]] + rest
  }

  /** Any different parameters can come first. */
  lemma OrderStartingWith(params: map<string, string>, order: seq<string>, first: seq<string>) returns (started: seq<string>)
    requires IsOrder(params, order) && forall name | name in first :: name in params
    requires forall i, j | 0 <= i < j < |first| :: first[i] != first[j]
    ensures IsOrder(params, started) && |first| <= |started| && forall i | 0 <= i < |first| :: started[i] == first[i]
  {
    var others := Without(order, first);
    started := first + others;
    forall i, j | 0 <= i < j < |started| ensures started[i] != started[j] {
      if i < |first| <= j {
        assert first[i] in first && others[j - |first|] in others;
      }
    }
  }

  lemma OrderNames(params: map<string, string>, order: seq<string>)
    requires IsOrder(params, order)
    ensures forall name | name in order :: name in params
  {
  }

  ghost predicate InjectsUnder(req: EvaluationRequest, order: seq<string>) {
    IsOrder(req.params, order) && LooksLikeInjection(Payload(req, order))
  }

  lemma UnderIff(req: EvaluationRequest, order: seq<string>)
    requires IsOrder(req.params, order)
    ensures InjectsUnder(req, order) <==> Injects(LowerPieces(req, order))
  {
    hide LooksLikeInjection, Payload, Injects;
    PayloadInjects(req, order);
  }

  /** Some order makes the text an injection if and only if a signature is there anyway, a value links
      to another or to the body, or three pieces make one: the parameters need only be put first. */
  lemma SomeOrderInjectsIff(req: EvaluationRequest, order: seq<string>)
    requires IsOrder(req.params, order)
    ensures (exists o :: InjectsUnder(req, o)) <==> CanInject(req)
  {
    hide Injects, LowerPieces, CanInject, LooksLikeInjection, Payload;
    if o :| InjectsUnder(req, o) {
      UnderIff(req, o);
      InjectingCanInject(req, o);
    }
    if CanInject(req) {
      var o := InjectingOrder(req, order);
      UnderIff(req, o);
    }
  }

  lemma InjectingOrder(req: EvaluationRequest, order: seq<string>) returns (o: seq<string>)
    requires IsOrder(req.params, order) && CanInject(req)
    ensures IsOrder(req.params, o) && Injects(LowerPieces(req, o))
  {
    hide HeldAnyway, LinkedToBody, LinkedValues, LinkedPair, LinkedTriple, LowerPieces, Injects, IsOrder;
    if HeldAnyway(req) {
      o := order;
      HeldInjects(req, o);
    } else if v :| LinkedToBody(req, v) {
      o := BodyLinks(req, order, v);
    } else if x, y :| LinkedValues(req, x, y) {
      o := ValuesLink(req, order, x, y);
    } else if v, w :| LinkedPair(req, v, w) {
      o := PairLinks(req, order, v, w);
    } else {
      var u, v, w :| LinkedTriple(req, u, v, w);
      o := TripleLinks(req, order, u, v, w);
    }
  }

  lemma BodyLinks(req: EvaluationRequest, order: seq<string>, v: string) returns (o: seq<string>)
    requires IsOrder(req.params, order) && LinkedToBody(req, v)
    ensures IsOrder(req.params, o) && Injects(LowerPieces(req, o))
  {
    hide Links, LinksAcross, LowerPieces, LowerValue, ToLower, IsOrder, HoldsAt;
    o := OrderStartingWith(req.params, order, [v]);
    assert o[0] == v by {
      assert [v][0] == v;
    }
    OrderNames(req.params, o);
    LowerPieceAt(req, o, 0);
    LowerPieceAt(req, o, 1);
    LowerPieceAt(req, o, 2);
    assert LinksAt(LowerPieces(req, o), 1) || LinksAcrossAt(LowerPieces(req, o), 0);
  }

  lemma ValuesLink(req: EvaluationRequest, order: seq<string>, x: string, y: string) returns (o: seq<string>)
    requires IsOrder(req.params, order) && LinkedValues(req, x, y)
    ensures IsOrder(req.params, o) && Injects(LowerPieces(req, o))
  {
    hide Links, LinksAcross, LowerPieces, LowerValue, ToLower, IsOrder, HoldsAt;
    o := OrderStartingWith(req.params, order, [x, y]);
    assert o[0] == x && o[1] == y by {
      assert [x, y][0] == x && [x, y][1] == y;
    }
    OrderNames(req.params, o);
    LowerPieceAt(req, o, 0);
    LowerPieceAt(req, o, 1);
    LowerPieceAt(req, o, 2);
    LowerPieceAt(req, o, 3);
    assert LinksAt(LowerPieces(req, o), 2);
  }

  lemma PairLinks(req: EvaluationRequest, order: seq<string>, v: string, w: string) returns (o: seq<string>)
    requires IsOrder(req.params, order) && LinkedPair(req, v, w)
    ensures IsOrder(req.params, o) && Injects(LowerPieces(req, o))
  {
    hide Links, LinksAcross, LowerPieces, LowerValue, ToLower, IsOrder, HoldsAt;
    o := OrderStartingWith(req.params, order, [v, w]);
    assert o[0] == v && o[1] == w by {
      assert [v, w][0] == v && [v, w][1] == w;
    }
    OrderNames(req.params, o);
    LowerPieceAt(req, o, 0);
    LowerPieceAt(req, o, 1);
    LowerPieceAt(req, o, 2);
    LowerPieceAt(req, o, 3);
    assert LinksAcrossAt(LowerPieces(req, o), 1);
  }

  lemma TripleLinks(req: EvaluationRequest, order: seq<string>, u: string, v: string, w: string) returns (o: seq<string>)
    requires IsOrder(req.params, order) && LinkedTriple(req, u, v, w)
    ensures IsOrder(req.params, o) && Injects(LowerPieces(req, o))
  {
    hide Links, LinksAcross, LowerPieces, LowerValue, ToLower, IsOrder, HoldsAt;
    o := OrderStartingWith(req.params, order, [u, v, w]);
    assert o[0] == u && o[1] == v && o[2] == w by {
      assert [u, v, w][0] == u && [u, v, w][1] == v && [u, v, w][2] == w;
    }
    OrderNames(req.params, o);
    LowerPieceAt(req, o, 0);
    LowerPieceAt(req, o, 1);
    LowerPieceAt(req, o, 2);
    LowerPieceAt(req, o, 3);
    LowerPieceAt(req, o, 4);
    assert LinksAcrossAt(LowerPieces(req, o), 2);
  }

  lemma {:induction false} PieceIn(req: EvaluationRequest, order: seq<string>, p: string)
    requires forall name | name in order :: name in req.params
    ensures p in Pieces(req, order) <==> p == req.path || p == req.body || exists name | name in order :: p == req.params[name]
    decreases |order|
  {
    if order == [] {
    } else {
      var n := |order| - 1;
      PieceIn(req, order[..n], p);
      assert forall name :: name in order <==> name in order[..n] || name == order[n];
    }
  }

  lemma SameScripts(req: EvaluationRequest, a: seq<string>, b: seq<string>)
    requires IsOrder(req.params, a) && IsOrder(req.params, b)
    ensures LooksLikeScript(Payload(req, a)) == LooksLikeScript(Payload(req, b))
  {
    hide LooksLikeScript, Payload, Pieces;
    PayloadScripts(req, a);
    PayloadScripts(req, b);
    forall p ensures p in Pieces(req, a) <==> p in Pieces(req, b) {
      PieceIn(req, a, p);
      PieceIn(req, b, p);
    }
  }

  /** All orders of the parameters give the same decision, tier and rule when a tier before the
      eighth blocks, when a signature is there anyway, or when no order puts one together. */
  lemma OrderIsIrrelevant(req: EvaluationRequest, blocklist: map<string, string>, scoped: Option<string>,
                          a: seq<string>, ra: Response, b: seq<string>, rb: Response)
    requires IsOrder(req.params, a) && WellFormed(ra) && Decides(ra, req, blocklist, scoped, Payload(req, a))
    requires IsOrder(req.params, b) && WellFormed(rb) && Decides(rb, req, blocklist, scoped, Payload(req, b))
    requires EarlierTier(req, blocklist) || HeldAnyway(req) || !CanInject(req)
    ensures ra.blocked == rb.blocked && ra.tier == rb.tier && ra.rule == rb.rule
  {
    hide Injects, LooksLikeInjection, LooksLikeScript, IsScanner, ForbiddenVerb, HeldAnyway, CanInject, Payload, WellFormed, Decides, LowerValue;
    FirstTier(ra, req, blocklist, scoped, Payload(req, a));
    FirstTier(rb, req, blocklist, scoped, Payload(req, b));
    PayloadInjects(req, a);
    PayloadInjects(req, b);
    SameScripts(req, a, b);
    if HeldAnyway(req) {
      HeldInjects(req, a);
      HeldInjects(req, b);
    } else if !EarlierTier(req, blocklist) {
      if Injects(LowerPieces(req, a)) {
        InjectingCanInject(req, a);
      }
      if Injects(LowerPieces(req, b)) {
        InjectingCanInject(req, b);
      }
    }
  }

  // ---------------------------------------------------------------- when it is not

  predicate AdjacentAt(order: seq<string>, x: string, y: string, i: nat) {
    i + 1 < |order| && order[i] == x && order[i + 1] == y
  }

  ghost predicate Adjacent(order: seq<string>, x: string, y: string) {
    exists i: nat :: AdjacentAt(order, x, y, i)
  }

  /** The values of `x` and `y` make a signature, and no other neighbours can. */
  ghost predicate LoneLink(req: EvaluationRequest, x: string, y: string) {
    && x in req.params && y in req.params && x != y
    && Links(LowerValue(req, x), LowerValue(req, y))
    && !HeldAnyway(req)
    && (forall u, v | u in req.params && v in req.params && u != v && Links(LowerValue(req, u), LowerValue(req, v)) :: u == x && v == y)
    && (forall v | v in req.params :: !Links(ToLower(req.body), LowerValue(req, v)))
    && (forall v | v in req.params :: LowerValue(req, v) != OR) && ToLower(req.body) != OR
  }

  lemma LonePieceAt(req: EvaluationRequest, order: seq<string>, x: string, y: string, i: nat)
    requires IsOrder(req.params, order) && LoneLink(req, x, y)
    ensures var ps := LowerPieces(req, order);
            !HoldsAt(ps, i) && !LinksAcrossAt(ps, i) && (LinksAt(ps, i) <==> i >= 2 && AdjacentAt(order, x, y, i - 2))
  {
    hide Holds, Links, LowerValue, LowerPieces, OR;
    var ps := LowerPieces(req, order);
    LowerPieceAt(req, order, 0);
    if i < |ps| {
      LowerPieceAt(req, order, i);
    }
    if i + 1 < |ps| {
      LowerPieceAt(req, order, i + 1);
    }
  }

  /** Then the searched text looks like an injection exactly under the orders that put them side by
      side. */
  lemma LoneLinkExact(req: EvaluationRequest, order: seq<string>, x: string, y: string)
    requires IsOrder(req.params, order) && LoneLink(req, x, y)
    ensures LooksLikeInjection(Payload(req, order)) <==> Adjacent(order, x, y)
  {
    hide HoldsAt, LinksAt, LinksAcrossAt, AdjacentAt, Payload, LooksLikeInjection, LoneLink;
    PayloadInjects(req, order);
    var ps := LowerPieces(req, order);
    forall i: nat ensures !HoldsAt(ps, i) && !LinksAcrossAt(ps, i) && (LinksAt(ps, i) <==> i >= 2 && AdjacentAt(order, x, y, i - 2)) {
      LonePieceAt(req, order, x, y, i);
    }
    if i: nat :| AdjacentAt(order, x, y, i) {
      assert AdjacentAt(order, x, y, i + 2 - 2);
      assert LinksAt(ps, i + 2);
    }
  }

  /** So, unless an earlier tier blocks, two such orders decide differently exactly when the override
      for the path and a script signature do not cancel out. */
  lemma OrderDecides(req: EvaluationRequest, blocklist: map<string, string>, scoped: Option<string>, x: string, y: string,
                     joined: seq<string>, rj: Response, apart: seq<string>, ra: Response)
    requires LoneLink(req, x, y) && !EarlierTier(req, blocklist)
    requires IsOrder(req.params, joined) && Adjacent(joined, x, y)
    requires IsOrder(req.params, apart) && !Adjacent(apart, x, y)
    requires WellFormed(rj) && Decides(rj, req, blocklist, scoped, Payload(req, joined))
    requires WellFormed(ra) && Decides(ra, req, blocklist, scoped, Payload(req, apart))
    ensures rj.blocked <==> scoped != Some("MONITOR")
    ensures ra.blocked <==> LooksLikeScript(Payload(req, apart))
    ensures rj.blocked != ra.blocked <==> (scoped == Some("MONITOR")) == LooksLikeScript(Payload(req, apart))
  {
    hide LooksLikeInjection, LooksLikeScript, IsScanner, ForbiddenVerb, Payload, WellFormed, Decides, LoneLink, Adjacent;
    FirstTier(rj, req, blocklist, scoped, Payload(req, joined));
    FirstTier(ra, req, blocklist, scoped, Payload(req, apart));
    LoneLinkExact(req, joined, x, y);
    LoneLinkExact(req, apart, x, y);
  }

  /** Whatever the other parameters are, there are orders of both kinds. */
  lemma BothOrdersExist(params: map<string, string>, order: seq<string>, x: string, y: string) returns (joined: seq<string>, apart: seq<string>)
    requires IsOrder(params, order) && x in params && y in params && x != y
    ensures IsOrder(params, joined) && Adjacent(joined, x, y)
    ensures IsOrder(params, apart) && !Adjacent(apart, x, y)
  {
    hide IsOrder;
    joined := OrderStartingWith(params, order, [x, y]);
    assert joined[0] == x && joined[1] == y by {
      assert [x, y][0] == x && [x, y][1] == y;
    }
    assert AdjacentAt(joined, x, y, 0);
    apart := OrderEndingWith(params, order, x);
    NothingFollowsLast(params, apart, x, y);
  }

  lemma OrderEndingWith(params: map<string, string>, order: seq<string>, last: string) returns (ended: seq<string>)
    requires IsOrder(params, order) && last in params
    ensures IsOrder(params, ended) && ended != [] && ended[|ended| - 1] == last
  {
    var others := Without(order, [last]);
    ended := others + [last];
    assert forall i | 0 <= i < |others| :: others[i] in others;
  }

  lemma NothingFollowsLast(params: map<string, string>, order: seq<string>, x: string, y: string)
    requires IsOrder(params, order) && order != [] && order[|order| - 1] == x
    ensures !Adjacent(order, x, y)
  {
    forall i: nat ensures !AdjacentAt(order, x, y, i) {
    }
  }

  const SPLIT_INJECTION := EvaluationRequest("GET", "/", "c", map[], "", map["a" := UNION, "b" := SELECT])

  /** The shortest instance: two values in one order are blocked, in the other let through. */
  lemma OrderOfParametersMatters(a: Response, b: Response)
    requires WellFormed(a) && Decides(a, SPLIT_INJECTION, map[], None, Payload(SPLIT_INJECTION, ["a", "b"]))
    requires WellFormed(b) && Decides(b, SPLIT_INJECTION, map[], None, Payload(SPLIT_INJECTION, ["b", "a"]))
    ensures IsOrder(SPLIT_INJECTION.params, ["a", "b"]) && IsOrder(SPLIT_INJECTION.params, ["b", "a"])
    ensures a.blocked && a.tier == 8 && !b.blocked
  {
    hide Payload, WellFormed, Decides, LooksLikeScript, LooksLikeInjection, Adjacent, IsOrder, LoneLink, EarlierTier, SPLIT_INJECTION, RuleAt, PayloadBlocks;
    var req := SPLIT_INJECTION;
    SplitOrders();
    SplitIsLone();
    SplitHasNoScript();
    SplitPassesTiers();
    OrderDecides(req, map[], None, "a", "b", ["a", "b"], a, ["b", "a"], b);
    FirstTier(a, req, map[], None, Payload(req, ["a", "b"]));
  }

  lemma SplitOrders()
    ensures IsOrder(SPLIT_INJECTION.params, ["a", "b"]) && Adjacent(["a", "b"], "a", "b")
    ensures IsOrder(SPLIT_INJECTION.params, ["b", "a"]) && !Adjacent(["b", "a"], "a", "b")
  {
    assert "a" != "b";
    assert AdjacentAt(["a", "b"], "a", "b", 0);
  }

  lemma SplitPassesTiers()
    ensures !EarlierTier(SPLIT_INJECTION, map[])
    ensures !IsScanner(SPLIT_INJECTION) && !ForbiddenVerb(SPLIT_INJECTION)
  {
  }

  lemma TooShort(s: string, sub: string)
    requires |s| <= |sub| && s != sub
    ensures !Contains(s, sub)
  {
    forall i: nat ensures !OccursAt(s, sub, i) {
      if i + |sub| <= |s| {
        assert s[0..|s|] == s;
      }
    }
  }

  lemma HoldsNothing(s: string)
    requires |s| < 11
    ensures !Holds(s)
  {
    assert |UNION_SELECT| == 12 && |QUOTE_OR_ONE| == 11;
    TooShort(s, UNION_SELECT);
    TooShort(s, QUOTE_OR_ONE);
  }

  lemma SplitIsLone()
    ensures LoneLink(SPLIT_INJECTION, "a", "b")
  {
    hide Holds, Links, ToLower, UNION, SELECT, OR;
    assert "a" != "b";
    LowerAlready();
    HoldsNothing("/");
    HoldsNothing("");
    HoldsNothing(UNION);
    HoldsNothing(SELECT);
    UnlinkedPieces();
  }

  lemma LowerAlready()
    ensures ToLower("/") == "/" && ToLower("") == "" && ToLower(UNION) == UNION && ToLower(SELECT) == SELECT
    ensures |UNION| < 11 && |SELECT| < 11 && UNION != OR && SELECT != OR && "" != OR
  {
  }

  lemma UnlinkedPieces()
    ensures Links(UNION, SELECT) && !Links(SELECT, UNION) && !Links("/", "") && !Links("", UNION) && !Links("", SELECT)
  {
    assert UNION[0] == 'u' && UNION[4] == 'n' && SELECT[0] == 's' && SELECT[5] == 't';
  }

  lemma SplitHasNoScript()
    ensures IsOrder(SPLIT_INJECTION.params, ["b", "a"]) && !LooksLikeScript(Payload(SPLIT_INJECTION, ["b", "a"]))
  {
    hide Payload;
    var req := SPLIT_INJECTION;
    var order := ["b", "a"];
    assert "a" != "b";
    PayloadScripts(req, order);
    forall p | p in Pieces(req, order) ensures !LooksLikeScript(p) {
      PieceIn(req, order, p);
      assert p in {"/", "", UNION, SELECT};
      assert SELECT[0] != "alert("[0];
      TooShort(p, "<script>");
      TooShort(p, "alert(");
    }
  }

  // ---------------------------------------------------------------- an override shields more than its rule

  lemma ContainsMore(a: string, b: string, sub: string)
    requires Contains(a, sub)
    ensures Contains(a + b, sub)
  {
    var i :| 0 <= i <= |a| && OccursAt(a, sub, i);
    assert (a + b)[i..i + |sub|] == a[i..i + |sub|];
    assert OccursAt(a + b, sub, i);
  }

  /** Appending to a blocked payload lets it through exactly when the path has a MONITOR override, the
      payload held a script and no injection, and what is appended completes an injection: the
      override is for one signature, but skips the search for the other. */
  lemma OverrideShieldsScript(scoped: Option<string>, payload: string, more: string)
    ensures PayloadBlocks(scoped, payload) && !PayloadBlocks(scoped, payload + more) <==>
            && scoped == Some("MONITOR") && LooksLikeScript(payload)
            && !LooksLikeInjection(payload) && LooksLikeInjection(payload + more)
  {
    hide Contains, ToLower;
    assert ToLower(payload + more) == ToLower(payload) + ToLower(more);
    if LooksLikeInjection(payload) {
      if Contains(ToLower(payload), "union select") {
        ContainsMore(ToLower(payload), ToLower(more), "union select");
      } else {
        ContainsMore(ToLower(payload), ToLower(more), "' or '1'='1");
      }
    }
    if LooksLikeScript(payload) {
      if Contains(payload, "<script>") {
        ContainsMore(payload, more, "<script>");
      } else {
        ContainsMore(payload, more, "alert(");
      }
    }
  }
}
