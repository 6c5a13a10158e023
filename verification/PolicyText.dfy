/** The text that is pushed: its assembly in order of precedence, and the lines it consists of
    (management-plane/main.go). */
module PolicyText {
  import opened Strings
  import opened PolicyPrinter

  // ---------------------------------------------------------------- assembly

  /** The ten blocks of the policy; `base` is the stored rule text, the others are printed rules. */
  datatype Sections = Sections(ip: seq<string>, geo: seq<string>, endpoint: seq<string>, bot: seq<string>,
                               indicator: seq<string>, exception: seq<string>, custom: seq<string>, cve: seq<string>,
                               base: string, dlp: seq<string>)

  const LEARNER_ITEMS := ["id:1000", "phase:1", "pass", "nolog", "auditlog"]

  /** Records every request for the discovery of endpoints. */
  const LEARNER := PrintRule("REQUEST_URI", "@rx ^/", Join(LEARNER_ITEMS, ","))

  const BODY_ACCESS := "SecResponseBodyAccess On"

  const BODY_TYPES := "SecResponseBodyMimeType" + " text/plain text/html" + " text/xml" + " application/json"

  function Prepend(block: seq<string>, text: string): string {
    if block == [] then text else Join(block, "\n") + "\n" + text
  }

  function BaseText(s: Sections): string {
    if s.dlp == [] then s.base
    else s.base + "\n" + (BODY_ACCESS + "\n" + BODY_TYPES) + "\n" + Join(s.dlp, "\n")
  }

  function AssembledText(s: Sections): string {
    Prepend(s.ip, Prepend(s.geo, Prepend(s.endpoint, Prepend(s.bot, Prepend(s.indicator,
      Prepend(s.exception, Prepend(s.custom, Prepend(s.cve, BaseText(s)))))))))
  }

  function WithLearner(text: string): string {
    if Contains(text, "id:1000") then text else LEARNER + "\n" + text
  }

  method PrependBlock(block: seq<string>, text: string) returns (fullRules: string)
    ensures fullRules == Prepend(block, text)
  {
    fullRules := text;
    if |block| > 0 {
      fullRules := Join(block, "\n") + "\n" + fullRules;
    }
  }

  /** Each block goes in front of what is there, last precedence first. */
  method Assemble(s: Sections) returns (fullRules: string)
    ensures fullRules == WithLearner(AssembledText(s))
  {
    hide Join, Contains, Prepend, BODY_ACCESS, BODY_TYPES, LEARNER;
    fullRules := s.base;
    if |s.dlp| > 0 {
      fullRules := fullRules + "\n" + (BODY_ACCESS + "\n" + BODY_TYPES) + "\n" + Join(s.dlp, "\n");
    }
    fullRules := PrependBlock(s.cve, fullRules);
    fullRules := PrependBlock(s.custom, fullRules);
    fullRules := PrependBlock(s.exception, fullRules);
    fullRules := PrependBlock(s.indicator, fullRules);
    fullRules := PrependBlock(s.bot, fullRules);
    fullRules := PrependBlock(s.endpoint, fullRules);
    fullRules := PrependBlock(s.geo, fullRules);
    fullRules := PrependBlock(s.ip, fullRules);
    if !Contains(fullRules, "id:1000") {
      fullRules := LEARNER + "\n" + fullRules;
    }
  }

  // ---------------------------------------------------------------- lines

  function Split(s: string): (lines: seq<string>)
    ensures lines != []
  {
    SplitOn(s, '\n')
  }

  /** Trimmed, with the blank ones dropped. */
  function TrimAll(lines: seq<string>): seq<string> {
    if lines == [] then []
    else
      var n := |lines| - 1;
      var line := TrimSpace(lines[n]);
      TrimAll(lines[..n]) + if line == "" then [] else [line]
  }

  function CleanLines(s: string): seq<string> {
    TrimAll(Split(s))
  }

  /** What a block contributes: the clean lines of each of its rules, in order. */
  function Flat(texts: seq<string>): seq<string> {
    if texts == [] then [] else CleanLines(texts[0]) + Flat(texts[1..])
  }

  lemma {:induction false} SplitConcat(a: string, b: string)
    ensures Split(a + ['\n'] + b) == Split(a) + Split(b)
    decreases |a|
  {
    hide SplitOn;
    var j := IndexOf(a, '\n');
    if j == |a| {
      assert a[..j] == a;
      SplitOnFirst(a, '\n', b);
    } else {
      var p, c := a[..j], a[j + 1..];
      assert a == p + ['\n'] + c;
      SplitOnFirst(p, '\n', c);
      SplitOnFirst(p, '\n', c + ['\n'] + b);
      assert a + ['\n'] + b == p + ['\n'] + (c + ['\n'] + b);
      SplitConcat(c, b);
    }
  }

  lemma {:induction false} TrimAllConcat(a: seq<string>, b: seq<string>)
    ensures TrimAll(a + b) == TrimAll(a) + TrimAll(b)
    decreases |b|
  {
    hide TrimSpace;
    if b == [] {
      assert a + b == a;
    } else {
      var n := |b| - 1;
      assert (a + b)[..|a + b| - 1] == a + b[..n];
      TrimAllConcat(a, b[..n]);
    }
  }

  lemma CleanLinesConcat(a: string, b: string)
    ensures CleanLines(a + "\n" + b) == CleanLines(a) + CleanLines(b)
  {
    hide Split, TrimAll;
    SplitConcat(a, b);
    assert "\n" == ['\n'];
    TrimAllConcat(Split(a), Split(b));
  }

  lemma {:induction false} CleanLinesJoin(texts: seq<string>)
    requires texts != []
    ensures CleanLines(Join(texts, "\n")) == Flat(texts)
    decreases |texts|
  {
    hide CleanLines;
    if |texts| == 1 {
      assert Flat(texts[1..]) == [];
    } else {
      CleanLinesConcat(texts[0], Join(texts[1..], "\n"));
      CleanLinesJoin(texts[1..]);
    }
  }

  lemma CleanLinesPrepend(block: seq<string>, text: string)
    ensures CleanLines(Prepend(block, text)) == Flat(block) + CleanLines(text)
  {
    hide CleanLines, Join;
    if block != [] {
      CleanLinesConcat(Join(block, "\n"), text);
      CleanLinesJoin(block);
    }
  }

  /** A trimmed, non-blank string without line breaks is its own only line. */
  lemma OneLine(s: string)
    requires s != "" && '\n' !in s && Trimmed(s)
    ensures CleanLines(s) == [s]
  {
    TrimSpaceProps(s);
    var j := IndexOf(s, '\n');
    assert j == |s|;
    assert Split(s) == [s];
    assert [s][..0] == [];
    assert TrimAll([]) == [];
    assert TrimAll([s]) == TrimAll([s][..0]) + [s];
  }

  lemma OneLineConcat(a: string, b: string)
    requires a != "" && '\n' !in a && !IsSpace(a[0])
    requires b != "" && '\n' !in b && !IsSpace(b[|b| - 1])
    ensures CleanLines(a + b) == [a + b]
  {
    OneLine(a + b);
  }

  lemma LearnerJoined()
    ensures Join(LEARNER_ITEMS, ",") == "id:1000" + "," + "phase:1" + "," + "pass" + "," + "nolog" + "," + "auditlog"
  {
    var items := LEARNER_ITEMS;
    assert items[1..] == ["phase:1", "pass", "nolog", "auditlog"];
    assert items[1..][1..] == ["pass", "nolog", "auditlog"];
    assert items[1..][1..][1..] == ["nolog", "auditlog"];
    assert items[1..][1..][1..][1..] == ["auditlog"];
  }

  lemma LearnerHasNoBreak()
    ensures '\n' !in Join(LEARNER_ITEMS, ",")
  {
    hide Join, LEARNER_ITEMS;
    LearnerJoined();
    assert '\n' !in "id:1000" && '\n' !in "phase:1" && '\n' !in "pass" && '\n' !in "nolog" && '\n' !in "auditlog" && '\n' !in ",";
  }

  lemma LearnerIsOneLine()
    ensures CleanLines(LEARNER) == [LEARNER]
  {
    hide CleanLines, Join, LEARNER_ITEMS;
    LearnerHasNoBreak();
    var rest := "REQUEST_URI" + " " + Quoted("@rx ^/") + " " + Quoted(Join(LEARNER_ITEMS, ","));
    assert LEARNER == RULE + rest;
    OneLineConcat(RULE, rest);
  }

  lemma BodyLines()
    ensures CleanLines(BODY_ACCESS) == [BODY_ACCESS]
    ensures CleanLines(BODY_TYPES) == [BODY_TYPES]
  {
    hide CleanLines;
    OneLine(BODY_ACCESS);
    OneLineConcat("SecResponseBodyMimeType" + " text/plain text/html" + " text/xml", " application/json");
  }

  function DlpLines(dlp: seq<string>): seq<string> {
    if dlp == [] then [] else [BODY_ACCESS, BODY_TYPES] + Flat(dlp)
  }

  lemma BaseLines(s: Sections)
    ensures CleanLines(BaseText(s)) == CleanLines(s.base) + DlpLines(s.dlp)
  {
    hide CleanLines, Join, BODY_ACCESS, BODY_TYPES;
    if s.dlp != [] {
      var header := BODY_ACCESS + "\n" + BODY_TYPES;
      var dlp := Join(s.dlp, "\n");
      assert BaseText(s) == (s.base + "\n" + header) + "\n" + dlp;
      CleanLinesConcat(s.base + "\n" + header, dlp);
      CleanLinesConcat(s.base, header);
      CleanLinesConcat(BODY_ACCESS, BODY_TYPES);
      CleanLinesJoin(s.dlp);
      BodyLines();
    }
  }

  /** The lines of the policy, block by block, whatever the blocks contain. */
  function PolicyLines(s: Sections): seq<string> {
    (if Contains(AssembledText(s), "id:1000") then [] else [LEARNER])
    + Flat(s.ip) + Flat(s.geo) + Flat(s.endpoint) + Flat(s.bot) + Flat(s.indicator)
    + Flat(s.exception) + Flat(s.custom) + Flat(s.cve) + CleanLines(s.base) + DlpLines(s.dlp)
  }

  lemma AssembledLines(s: Sections)
    ensures CleanLines(WithLearner(AssembledText(s))) == PolicyLines(s)
  {
    hide CleanLines, Flat, Contains, Prepend, BaseText, DlpLines, LEARNER;
    var t0 := BaseText(s);
    var t1 := Prepend(s.cve, t0);
    var t2 := Prepend(s.custom, t1);
    var t3 := Prepend(s.exception, t2);
    var t4 := Prepend(s.indicator, t3);
    var t5 := Prepend(s.bot, t4);
    var t6 := Prepend(s.endpoint, t5);
    var t7 := Prepend(s.geo, t6);
    var t8 := Prepend(s.ip, t7);
    BaseLines(s);
    CleanLinesPrepend(s.cve, t0);
    CleanLinesPrepend(s.custom, t1);
    CleanLinesPrepend(s.exception, t2);
    CleanLinesPrepend(s.indicator, t3);
    CleanLinesPrepend(s.bot, t4);
    CleanLinesPrepend(s.endpoint, t5);
    CleanLinesPrepend(s.geo, t6);
    CleanLinesPrepend(s.ip, t7);
    LearnerLine(t8);
    GroupEight(if Contains(t8, "id:1000") then [] else [LEARNER], Flat(s.ip), Flat(s.geo), Flat(s.endpoint), Flat(s.bot), Flat(s.indicator),
               Flat(s.exception), Flat(s.custom), Flat(s.cve), CleanLines(s.base), DlpLines(s.dlp));
  }

  lemma GroupSix(l: seq<string>, a: seq<string>, b: seq<string>, c: seq<string>, d: seq<string>, e: seq<string>, f: seq<string>,
                 g: seq<string>, h: seq<string>, i: seq<string>, j: seq<string>)
    ensures l + a + b + c + d + e + f + g + h + i + j == l + (a + b + c + d + e + f + (g + h + i + j))
  {
    var m := a + b + c + d + e + f;
    assert l + a + b + c + d + e + f == l + m;
  }

  lemma GroupEight(l: seq<string>, a: seq<string>, b: seq<string>, c: seq<string>, d: seq<string>, e: seq<string>, f: seq<string>,
                   g: seq<string>, h: seq<string>, i: seq<string>, j: seq<string>)
    ensures l + a + b + c + d + e + f + g + h + i + j == l + (a + (b + (c + (d + (e + (f + (g + (h + (i + j)))))))))
  {
    var m := g + (h + (i + j));
    var n := d + (e + (f + m));
    assert g + h + i + j == m;
    assert d + e + f + m == n;
    GroupSix(l, a, b, c, d, e, f, g, h, i, j);
    assert a + b + c + d + e + f + m == a + (b + (c + n));
  }

  lemma LearnerLine(text: string)
    ensures CleanLines(LEARNER + "\n" + text) == [LEARNER] + CleanLines(text)
  {
    hide CleanLines, LEARNER;
    CleanLinesConcat(LEARNER, text);
    LearnerIsOneLine();
  }
}
