/** How the rule engine cuts a line of SecLang: quoted fields, in which a backslash protects the next
    character, and actions, which end at commas outside apostrophes. */
module SecLang {
  import opened Wrappers
  import opened Strings

  // ---------------------------------------------------------------- the words of the language

  const RULE_WORD := "SecRule "
  const REMOVAL_WORD := "SecRuleRemoveById "
  const ADDRESS := "REMOTE_ADDR"
  const URI := "REQUEST_URI"
  const HEADER := "REQUEST_HEADERS:"
  const COUNTRY_HEADER := "CF-IPCountry"
  const COUNTRY_CODE_HEADER := "X-Country-Code"
  const USER_AGENT_HEADER := "User-Agent"
  const HOST_HEADER := "Host"
  const VERB := "REQUEST_METHOD"
  const IP_MATCH_OPERATOR := "@ipMatch "
  const STR_EQ_OPERATOR := "@streq "
  const BEGINS_WITH_OPERATOR := "@beginsWith "
  const RX_OPERATOR := "@rx "
  const ID_ACTION := "id:"
  const PHASE_ACTION := "phase:1"
  const CHAIN_ACTION := "chain"
  const DENY_ACTION := "deny"
  const STATUS_ACTION := "status:403"
  const PASS_ACTION := "pass"
  const NO_LOG_ACTION := "nolog"
  const MESSAGE_ACTION := "msg:"
  const REMOVE_RULE_ACTION := "ctl:ruleRemoveById="
  const REMOVE_TARGET_ACTION := "ctl:ruleRemoveTargetById="
  const ARGS_COLLECTION := "ARGS:"
  const NO_TRANSFORM_ACTION := "t:none"

  // ---------------------------------------------------------------- quoted fields

  function Prepended(s: string, r: Option<(string, string)>): Option<(string, string)> {
    match r
    case None => None
    case Some((field, rest)) => Some((s + field, rest))
  }

  /** The text up to the closing quote, with `\"` read as a quote, and what follows it. */
  function ReadQuoted(s: string): Option<(string, string)>
    decreases |s|
  {
    if s == "" then None
    else if s[0] == '"' then Some(("", s[1..]))
    else if s[0] == '\\' && |s| > 1 then
      Prepended(if s[1] == '"' then [s[1]] else s[..2], ReadQuoted(s[2..]))
    else Prepended([s[0]], ReadQuoted(s[1..]))
  }

  /** The text ends in a backslash that protects what comes next. */
  predicate Dangling(s: string)
    decreases |s|
  {
    s != "" && if s[0] == '\\' then |s| == 1 || Dangling(s[2..]) else Dangling(s[1..])
  }

  /** The text can stand in quotes. */
  predicate Quotable(s: string) {
    '"' !in s && !Dangling(s)
  }

  /** A quoted field reads back as it was written exactly when it holds no quote and does not end in a
      protecting backslash; and then the field ends where it was meant to. */
  lemma {:induction false} QuotedExact(s: string, rest: string)
    ensures Quotable(s) ==> ReadQuoted(s + ['"'] + rest) == Some((s, rest))
    ensures !Quotable(s) ==> !(ReadQuoted(s + ['"'] + rest).Some? && ReadQuoted(s + ['"'] + rest).value.0 == s)
    decreases |s|
  {
    var t := s + ['"'] + rest;
    if s == "" {
      assert t[1..] == rest;
    } else if s[0] == '"' {
    } else if s[0] == '\\' {
      if |s| > 1 && s[1] != '"' {
        assert t[2..] == s[2..] + ['"'] + rest;
        QuotedExact(s[2..], rest);
        assert s == s[..2] + s[2..] && t[..2] == s[..2];
      } else {
        FirstOfPrepended("\"", ReadQuoted(t[2..]));
      }
    } else {
      assert t[1..] == s[1..] + ['"'] + rest;
      QuotedExact(s[1..], rest);
      assert s == [s[0]] + s[1..];
    }
  }

  lemma FirstOfPrepended(s: string, r: Option<(string, string)>)
    requires s != ""
    ensures Prepended(s, r).Some? ==> Prepended(s, r).value.0 != "" && Prepended(s, r).value.0[0] == s[0]
  {
  }

  lemma {:induction false} DanglingAfter(a: string, s: string)
    requires '\\' !in a
    ensures Dangling(a + s) == Dangling(s)
    decreases |a|
  {
    if a == "" {
      assert a + s == s;
    } else {
      assert (a + s)[1..] == a[1..] + s;
      DanglingAfter(a[1..], s);
    }
  }

  lemma {:induction false} NotDangling(s: string)
    requires s != "" && s[|s| - 1] != '\\'
    ensures !Dangling(s)
    decreases |s|
  {
    if s[0] == '\\' {
      if |s| == 2 {
        assert s[2..] == "";
      } else {
        NotDangling(s[2..]);
      }
    } else if |s| == 1 {
      assert s[1..] == "";
    } else {
      NotDangling(s[1..]);
    }
  }

  // ---------------------------------------------------------------- actions

  /** The character stands at `i` and no backslash precedes it. */
  predicate Bare(s: string, i: nat, c: char) {
    i < |s| && s[i] == c && (i == 0 || s[i - 1] != '\\')
  }

  /** Where the action that begins the text ends: at the next bare comma outside apostrophes. */
  function ItemEnd(s: string, i: nat, quoted: bool): (j: nat)
    requires i <= |s|
    ensures i <= j <= |s|
    decreases |s| - i
  {
    if i == |s| then i
    else if Bare(s, i, '\'') then ItemEnd(s, i + 1, !quoted)
    else if Bare(s, i, ',') && !quoted then i
    else ItemEnd(s, i + 1, quoted)
  }

  /** The actions of a list. */
  function Items(s: string): (items: seq<string>)
    ensures items != []
    decreases |s|
  {
    var j := ItemEnd(s, 0, false);
    if j == |s| then [s] else [s[..j]] + Items(s[j + 1..])
  }

  lemma {:induction false} ItemEndIsComma(s: string, i: nat, quoted: bool)
    requires i <= |s|
    ensures var j := ItemEnd(s, i, quoted); j < |s| ==> s[j] == ','
    decreases |s| - i
  {
    if i == |s| {
    } else if Bare(s, i, '\'') {
      ItemEndIsComma(s, i + 1, !quoted);
    } else if Bare(s, i, ',') && !quoted {
    } else {
      ItemEndIsComma(s, i + 1, quoted);
    }
  }

  lemma JoinOne(s: string)
    ensures Join([s], ",") == s
  {
  }

  lemma JoinFirst(first: string, rest: seq<string>)
    requires rest != []
    ensures Join([first] + rest, ",") == first + "," + Join(rest, ",")
  {
    assert ([first] + rest)[1..] == rest;
  }

  /** Nothing is lost by cutting. */
  lemma {:induction false} ItemsJoin(s: string)
    ensures Join(Items(s), ",") == s
    decreases |s|
  {
    hide ItemEnd, Join;
    var j := ItemEnd(s, 0, false);
    ItemEndIsComma(s, 0, false);
    if j == |s| {
      JoinOne(s);
    } else {
      var rest := s[j + 1..];
      ItemsJoin(rest);
      JoinFirst(s[..j], Items(rest));
      assert s == s[..j] + "," + rest;
    }
  }

  /** The text holds no bare comma and no bare apostrophe. */
  predicate Unbroken(s: string) {
    forall i | 0 <= i < |s| :: !Bare(s, i, ',') && !Bare(s, i, '\'')
  }

  /** The text can stand between apostrophes. */
  predicate Apostrophable(s: string) {
    (forall i | 0 <= i < |s| :: !Bare(s, i, '\'')) && (s != "" ==> s[|s| - 1] != '\\')
  }

  lemma {:induction false} UnbrokenEnd(s: string, i: nat)
    requires Unbroken(s) && i <= |s|
    ensures ItemEnd(s, i, false) == |s|
    decreases |s| - i
  {
    if i == |s| {
    } else {
      assert !Bare(s, i, ',') && !Bare(s, i, '\'');
      UnbrokenEnd(s, i + 1);
    }
  }

  lemma {:induction false} CommaEnds(a: string, rest: string, i: nat)
    requires Unbroken(a) && (a != "" ==> a[|a| - 1] != '\\') && i <= |a|
    ensures ItemEnd(a + [','] + rest, i, false) == |a|
    decreases |a| - i
  {
    var s := a + [','] + rest;
    if i == |a| {
      assert Bare(s, i, ',');
    } else {
      assert Bare(s, i, ',') == Bare(a, i, ',') && Bare(s, i, '\'') == Bare(a, i, '\'');
      CommaEnds(a, rest, i + 1);
    }
  }

  lemma FirstItem(a: string, rest: string)
    requires Unbroken(a) && (a != "" ==> a[|a| - 1] != '\\')
    ensures Items(a + [','] + rest) == [a] + Items(rest)
  {
    var s := a + [','] + rest;
    CommaEnds(a, rest, 0);
    assert s[..|a|] == a && s[|a| + 1..] == rest;
  }

  lemma {:induction false} QuotedEnd(head: string, text: string, i: nat)
    requires Apostrophable(text) && |head| < i <= |head| + 1 + |text|
    ensures ItemEnd(head + ['\''] + text + ['\''], i, true) == |head| + |text| + 2
    decreases |head| + 1 + |text| - i
  {
    var s := head + ['\''] + text + ['\''];
    if i == |head| + 1 + |text| {
      assert s[i - 1] == if text == "" then '\'' else text[|text| - 1];
      assert Bare(s, i, '\'');
      assert ItemEnd(s, i + 1, false) == i + 1;
    } else {
      var k := i - |head| - 1;
      assert s[i] == text[k] && s[i - 1] == if k == 0 then '\'' else text[k - 1];
      assert Bare(s, i, '\'') == Bare(text, k, '\'');
      QuotedEnd(head, text, i + 1);
    }
  }

  lemma {:induction false} HeadThenQuote(head: string, text: string, i: nat)
    requires Unbroken(head) && (head != "" ==> head[|head| - 1] != '\\') && Apostrophable(text) && i <= |head|
    ensures ItemEnd(head + ['\''] + text + ['\''], i, false) == |head| + |text| + 2
    decreases |head| - i
  {
    var s := head + ['\''] + text + ['\''];
    if i == |head| {
      assert Bare(s, i, '\'');
      QuotedEnd(head, text, i + 1);
    } else {
      assert Bare(s, i, ',') == Bare(head, i, ',') && Bare(s, i, '\'') == Bare(head, i, '\'');
      HeadThenQuote(head, text, i + 1);
    }
  }

  /** A value in apostrophes is one action, whatever commas it holds. */
  lemma QuotedItem(head: string, text: string)
    requires Unbroken(head) && (head != "" ==> head[|head| - 1] != '\\') && Apostrophable(text)
    ensures Items(head + ['\''] + text + ['\'']) == [head + ['\''] + text + ['\'']]
  {
    HeadThenQuote(head, text, 0);
  }

  lemma UnbrokenItem(s: string)
    requires Unbroken(s)
    ensures Items(s) == [s]
  {
    UnbrokenEnd(s, 0);
  }

  lemma UnbrokenConcat(a: string, b: string)
    requires a == "" || a[|a| - 1] != '\\'
    ensures Unbroken(a + b) <==> Unbroken(a) && Unbroken(b)
  {
    var s := a + b;
    if Unbroken(s) {
      forall i: nat ensures !Bare(a, i, ',') && !Bare(a, i, '\'') {
        assert !Bare(s, i, ',') && !Bare(s, i, '\'');
      }
      forall i: nat ensures !Bare(b, i, ',') && !Bare(b, i, '\'') {
        assert !Bare(s, |a| + i, ',') && !Bare(s, |a| + i, '\'');
      }
    }
    if Unbroken(a) && Unbroken(b) {
      forall i: nat ensures !Bare(s, i, ',') && !Bare(s, i, '\'') {
        if i < |a| {
          assert !Bare(a, i, ',') && !Bare(a, i, '\'');
        } else {
          assert !Bare(b, i - |a|, ',') && !Bare(b, i - |a|, '\'');
        }
      }
    }
  }
}
