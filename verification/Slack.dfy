/** pkg/sinks/slack.go: the message blocks built from a ValidationResult. */
module Slack {
  import opened Text
  import opened Api

  // ----- Escaping -----

  /** strings.ReplaceAll for a pattern of one character. */
  function ReplaceAll(s: string, c: char, with: string): string {
    if s == "" then "" else (if s[0] == c then with else [s[0]]) + ReplaceAll(s[1..], c, with)
  }

  function Escape(s: string): string {
    ReplaceAll(ReplaceAll(ReplaceAll(s, '&', "&amp;"), '<', "&lt;"), '>', "&gt;")
  }

  function EscapeChar(c: char): string {
    if c == '&' then "&amp;" else if c == '<' then "&lt;" else if c == '>' then "&gt;" else [c]
  }

  ghost function EscapeEach(s: string): string {
    if s == "" then "" else EscapeChar(s[0]) + EscapeEach(s[1..])
  }

  /** The decoder: each of the three entities back to its character. */
  function Unescape(t: string): string {
    if t == "" then ""
    else if "&amp;" <= t then "&" + Unescape(t[5..])
    else if "&lt;" <= t then "<" + Unescape(t[4..])
    else if "&gt;" <= t then ">" + Unescape(t[4..])
    else [t[0]] + Unescape(t[1..])
  }

  lemma {:induction false} ReplaceAllConcat(a: string, b: string, c: char, with: string)
    ensures ReplaceAll(a + b, c, with) == ReplaceAll(a, c, with) + ReplaceAll(b, c, with)
  {
    if a == "" {
      assert a + b == b;
    } else {
      assert (a + b)[1..] == a[1..] + b;
      ReplaceAllConcat(a[1..], b, c, with);
    }
  }

  lemma {:induction false} ReplaceAllAbsent(s: string, c: char, with: string)
    requires c !in s
    ensures ReplaceAll(s, c, with) == s
  {
    if s != "" {
      assert s == [s[0]] + s[1..] && s[0] in s;
      ReplaceAllAbsent(s[1..], c, with);
    }
  }

  lemma {:induction false} EscapeConcat(a: string, b: string)
    ensures Escape(a + b) == Escape(a) + Escape(b)
  {
    var a1, b1 := ReplaceAll(a, '&', "&amp;"), ReplaceAll(b, '&', "&amp;");
    ReplaceAllConcat(a, b, '&', "&amp;");
    ReplaceAllConcat(a1, b1, '<', "&lt;");
    ReplaceAllConcat(ReplaceAll(a1, '<', "&lt;"), ReplaceAll(b1, '<', "&lt;"), '>', "&gt;");
  }

  lemma {:induction false} ReplaceOne(d: char, c: char, with: string)
    ensures ReplaceAll([d], c, with) == if d == c then with else [d]
  {
    assert [d][1..] == "" && ReplaceAll("", c, with) == "";
  }

  lemma {:induction false} EscapeOne(c: char)
    ensures Escape([c]) == EscapeChar(c)
  {
    ReplaceOne(c, '&', "&amp;");
    ReplaceOne(c, '<', "&lt;");
    ReplaceOne(c, '>', "&gt;");
    if c == '&' {
      ReplaceAllAbsent("&amp;", '<', "&lt;");
      ReplaceAllAbsent("&amp;", '>', "&gt;");
    } else if c == '<' {
      ReplaceAllAbsent("&lt;", '>', "&gt;");
    }
  }

  /** The three successive replacements amount to one simultaneous replacement. */
  lemma {:induction false} EscapeIsSimultaneous(s: string)
    ensures Escape(s) == EscapeEach(s)
  {
    if s != "" {
      assert s == [s[0]] + s[1..];
      EscapeConcat([s[0]], s[1..]);
      EscapeOne(s[0]);
      EscapeIsSimultaneous(s[1..]);
    }
  }

  lemma {:induction false} UnescapeEntity(c: char, t: string)
    ensures Unescape(EscapeChar(c) + t) == [c] + Unescape(t)
  {
    var e := EscapeChar(c);
    assert (e + t)[|e|..] == t;
    if c == '<' || c == '>' {
      assert (e + t)[1] != 'a';
    } else if c != '&' {
      assert (e + t)[0] != '&';
    }
  }

  /** The decoder undoes the escaping, so distinct texts stay distinct. */
  lemma {:induction false} UnescapeInvertsEscape(s: string)
    ensures Unescape(Escape(s)) == s
  {
    EscapeIsSimultaneous(s);
    if s != "" {
      EscapeIsSimultaneous(s[1..]);
      UnescapeEntity(s[0], Escape(s[1..]));
      UnescapeInvertsEscape(s[1..]);
    }
  }

  ghost predicate StartsEntity(t: string) {
    "&amp;" <= t || "&lt;" <= t || "&gt;" <= t
  }

  /** No raw angle bracket is left. */
  lemma {:induction false} NoRawBrackets(s: string)
    ensures '<' !in Escape(s) && '>' !in Escape(s)
  {
    EscapeIsSimultaneous(s);
    if s != "" {
      EscapeIsSimultaneous(s[1..]);
      NoRawBrackets(s[1..]);
      var e := EscapeChar(s[0]);
      assert '<' !in e && '>' !in e;
    }
  }

  lemma {:induction false} AmpersandsOfEntity(c: char, rest: string, i: nat)
    requires i < |EscapeChar(c)| && EscapeChar(c)[i] == '&'
    ensures i == 0 && StartsEntity(EscapeChar(c) + rest)
  {
  }

  /** Every ampersand left starts one of the three entities. */
  lemma {:induction false} AmpersandsStartEntities(s: string, i: nat)
    requires i < |Escape(s)| && Escape(s)[i] == '&'
    ensures StartsEntity(Escape(s)[i..])
  {
    EscapeIsSimultaneous(s);
    EscapeIsSimultaneous(s[1..]);
    var e, rest := EscapeChar(s[0]), Escape(s[1..]);
    assert Escape(s) == e + rest;
    if i < |e| {
      AmpersandsOfEntity(s[0], rest, i);
      assert Escape(s)[0..] == Escape(s);
    } else {
      assert Escape(s)[i..] == rest[i - |e|..];
      AmpersandsStartEntities(s[1..], i - |e|);
    }
  }

  // ----- Blocks -----

  /** A plain-text header, a section holding one escaped mark-down text, or a divider. */
  datatype Block = Header(text: string) | Section(text: string) | Divider

  function TextSection(s: string): Block {
    Section(Escape(s))
  }

  const RESULT := "*ValidationResult* "
  const METADATA := ":information_source: Metadata"
  const NAME := "*Name:* "
  const TYPE := "*Validation Type:* "
  const RULE := "*Validation Rule:* "
  const MESSAGE := "*Message:* "
  const DETAILS := ":mag_right: Details"
  const BULLET := "- "
  const FAILURES := ":x: Failures"

  function Number(i: nat): string {
    Itoa(i + 1) + ". "
  }

  function StateLine(state: ValidationState): string {
    "*State:* " + PrintState(state) + if state != Succeeded then " :red_circle:" else " :white_check_mark:"
  }

  function Preamble(name: string, plugin: string, state: ValidationState): seq<Block> {
    [Header(plugin + " Validator: " + name), TextSection(StateLine(state)), Divider]
  }

  function Basics(name: string, i: nat, c: ValidationCondition): seq<Block> {
    [TextSection(RESULT + Itoa(i + 1)), TextSection(METADATA), TextSection(NAME + name),
     TextSection(TYPE + c.validationType), TextSection(RULE + c.validationRule), TextSection(MESSAGE + c.message)]
  }

  function Bullets(details: seq<string>): seq<Block> {
    if details == [] then []
    else Bullets(details[..|details| - 1]) + [TextSection(BULLET + details[|details| - 1])]
  }

  function Numbered(failures: seq<string>): seq<Block> {
    if failures == [] then []
    else Numbered(failures[..|failures| - 1]) + [TextSection(Number(|failures| - 1) + failures[|failures| - 1])]
  }

  function DetailBlocks(details: seq<string>): seq<Block> {
    if details == [] then [] else [TextSection(DETAILS)] + Bullets(details)
  }

  function FailureBlocks(failures: seq<string>): seq<Block> {
    if failures == [] then [] else [TextSection(FAILURES)] + Numbered(failures)
  }

  function ConditionBlocks(name: string, i: nat, c: ValidationCondition): seq<Block> {
    Basics(name, i, c) + (DetailBlocks(c.details) + (FailureBlocks(c.failures) + [Divider]))
  }

  function AllConditionBlocks(name: string, cs: seq<ValidationCondition>): seq<Block> {
    if cs == [] then []
    else AllConditionBlocks(name, cs[..|cs| - 1]) + ConditionBlocks(name, |cs| - 1, cs[|cs| - 1])
  }

  lemma {:induction false} Append(blocks: seq<Block>, xs: seq<Block>, ys: seq<Block>)
    ensures blocks + xs + ys == blocks + (xs + ys)
  {
  }

  method AppendDetails(blocks: seq<Block>, details: seq<string>) returns (r: seq<Block>)
    ensures r == blocks + DetailBlocks(details)
  {
    hide TextSection;
    r := blocks;
    if |details| > 0 {
      r := r + [TextSection(DETAILS)];
      ghost var start := r;
      for k := 0 to |details|
        invariant r == start + Bullets(details[..k])
      {
        assert details[..k + 1][..k] == details[..k];
        Append(start, Bullets(details[..k]), [TextSection(BULLET + details[k])]);
        r := r + [TextSection(BULLET + details[k])];
      }
      assert details[..|details|] == details;
      Append(blocks, [TextSection(DETAILS)], Bullets(details));
    }
  }

  method AppendFailures(blocks: seq<Block>, failures: seq<string>) returns (r: seq<Block>)
    ensures r == blocks + FailureBlocks(failures)
  {
    hide TextSection, Number;
    r := blocks;
    if |failures| > 0 {
      r := r + [TextSection(FAILURES)];
      ghost var start := r;
      for k := 0 to |failures|
        invariant r == start + Numbered(failures[..k])
      {
        assert failures[..k + 1][..k] == failures[..k];
        Append(start, Numbered(failures[..k]), [TextSection(Number(k) + failures[k])]);
        r := r + [TextSection(Number(k) + failures[k])];
      }
      assert failures[..|failures|] == failures;
      Append(blocks, [TextSection(FAILURES)], Numbered(failures));
    }
  }

  method BuildSlackBlocks(name: string, plugin: string, state: ValidationState, cs: seq<ValidationCondition>)
    returns (blocks: seq<Block>)
    ensures blocks == Preamble(name, plugin, state) + AllConditionBlocks(name, cs)
  {
    hide Basics, Preamble, DetailBlocks, FailureBlocks, ConditionBlocks;
    blocks := Preamble(name, plugin, state);
    ghost var preamble := blocks;
    for i := 0 to |cs|
      invariant blocks == preamble + AllConditionBlocks(name, cs[..i])
    {
      var c := cs[i];
      ghost var before := blocks;
      blocks := blocks + Basics(name, i, c);
      blocks := AppendDetails(blocks, c.details);
      blocks := AppendFailures(blocks, c.failures);
      blocks := blocks + [Divider];
      AppendCondition(before, name, i, c);
      assert cs[..i + 1][..i] == cs[..i];
      Append(preamble, AllConditionBlocks(name, cs[..i]), ConditionBlocks(name, i, c));
    }
    assert cs[..|cs|] == cs;
  }

  lemma {:induction false} AppendCondition(blocks: seq<Block>, name: string, i: nat, c: ValidationCondition)
    ensures blocks + Basics(name, i, c) + DetailBlocks(c.details) + FailureBlocks(c.failures) + [Divider] ==
            blocks + ConditionBlocks(name, i, c)
  {
    var xs, ys, zs := Basics(name, i, c), DetailBlocks(c.details), FailureBlocks(c.failures);
    Append(blocks + xs + ys, zs, [Divider]);
    Append(blocks + xs, ys, zs + [Divider]);
    Append(blocks, xs, ys + (zs + [Divider]));
  }
}
