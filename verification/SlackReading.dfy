/** Reading a Slack message back: a parser over the blocks, and the proof that it recovers
    every condition that the message was built from. */
module SlackReading {
  import opened Text
  import opened Api
  import opened Slack

  datatype Reading = Reading(
    name: string, validationType: string, validationRule: string, message: string,
    details: seq<string>, failures: seq<string>)

  function ReadingOf(name: string, c: ValidationCondition): Reading {
    Reading(name, c.validationType, c.validationRule, c.message, c.details, c.failures)
  }

  function Readings(name: string, cs: seq<ValidationCondition>): (rs: seq<Reading>)
    ensures |rs| == |cs| && forall i | 0 <= i < |cs| :: rs[i] == ReadingOf(name, cs[i])
  {
    if cs == [] then [] else Readings(name, cs[..|cs| - 1]) + [ReadingOf(name, cs[|cs| - 1])]
  }

  // ----- The parser -----

  /** What follows the prefix in the decoded text of a section. */
  function Strip(prefix: string, b: Block): Option<string> {
    if b.Section? && prefix <= Unescape(b.text) then Some(Unescape(b.text)[|prefix|..]) else None
  }

  function TakeBullets(bs: seq<Block>): (r: (seq<string>, seq<Block>)) {
    if bs == [] || Strip("- ", bs[0]).None? then ([], bs)
    else
      var r := TakeBullets(bs[1..]);
      ([Strip("- ", bs[0]).value] + r.0, r.1)
  }

  function TakeNumbered(bs: seq<Block>, k: nat): (r: (seq<string>, seq<Block>)) {
    if bs == [] || Strip(Itoa(k + 1) + ". ", bs[0]).None? then ([], bs)
    else
      var r := TakeNumbered(bs[1..], k + 1);
      ([Strip(Itoa(k + 1) + ". ", bs[0]).value] + r.0, r.1)
  }

  function TakeDetails(bs: seq<Block>): (seq<string>, seq<Block>) {
    if bs != [] && Strip(":mag_right: Details", bs[0]).Some? then TakeBullets(bs[1..]) else ([], bs)
  }

  function TakeFailures(bs: seq<Block>): (seq<string>, seq<Block>) {
    if bs != [] && Strip(":x: Failures", bs[0]).Some? then TakeNumbered(bs[1..], 0) else ([], bs)
  }

  function ReadBasics(bs: seq<Block>, i: nat): Option<Reading> {
    if |bs| < 6 || Strip("*ValidationResult* ", bs[0]) != Some(Itoa(i + 1)) then None
    else if Strip(":information_source: Metadata", bs[1]) != Some("") then None
    else
      var name, validationType := Strip("*Name:* ", bs[2]), Strip("*Validation Type:* ", bs[3]);
      var rule, message := Strip("*Validation Rule:* ", bs[4]), Strip("*Message:* ", bs[5]);
      match (name, validationType, rule, message)
      case (Some(n), Some(t), Some(r), Some(m)) => Some(Reading(n, t, r, m, [], []))
      case _ => None
  }

  function ReadCondition(bs: seq<Block>, i: nat): Option<(Reading, seq<Block>)> {
    match ReadBasics(bs, i)
    case None => None
    case Some(basics) =>
      var d := TakeDetails(bs[6..]);
      var f := TakeFailures(d.1);
      if f.1 == [] || f.1[0] != Divider then None
      else Some((basics.(details := d.0, failures := f.0), f.1[1..]))
  }

  /** The conditions numbered from i on, until the blocks stop making sense. */
  function ReadConditions(bs: seq<Block>, i: nat): seq<Reading>
    decreases |bs|
  {
    match ReadCondition(bs, i)
    case None => []
    case Some((reading, rest)) => if |rest| < |bs| then [reading] + ReadConditions(rest, i + 1) else []
  }

  // ----- Each part reads back -----

  lemma {:induction false} StripSection(prefix: string, s: string)
    ensures Strip(prefix, TextSection(prefix + s)) == Some(s)
  {
    hide Escape, Unescape;
    UnescapeInvertsEscape(prefix + s);
    assert (prefix + s)[|prefix|..] == s;
  }

  lemma {:induction false} StripOther(prefix: string, s: string)
    requires !(prefix <= s)
    ensures Strip(prefix, TextSection(s)) == None
  {
    hide Escape, Unescape;
    UnescapeInvertsEscape(s);
  }

  lemma {:induction false} TakeBulletsBack(details: seq<string>, rest: seq<Block>)
    ensures TakeBullets(Bullets(details) + rest) == (details + TakeBullets(rest).0, TakeBullets(rest).1)
  {
    hide TextSection, Strip;
    if details == [] {
      assert Bullets(details) + rest == rest;
      assert details + TakeBullets(rest).0 == TakeBullets(rest).0;
    } else {
      var init, last := details[..|details| - 1], details[|details| - 1];
      var b := TextSection(BULLET + last);
      Append(Bullets(init), [b], rest);
      TakeBulletsBack(init, [b] + rest);
      StripSection(BULLET, last);
      assert ([b] + rest)[1..] == rest;
      assert init + ([last] + TakeBullets(rest).0) == details + TakeBullets(rest).0;
    }
  }

  lemma {:induction false} TakeNumberedBack(failures: seq<string>, rest: seq<Block>)
    ensures TakeNumbered(Numbered(failures) + rest, 0) ==
            (failures + TakeNumbered(rest, |failures|).0, TakeNumbered(rest, |failures|).1)
  {
    hide TextSection, Strip, Itoa;
    if failures == [] {
      assert Numbered(failures) + rest == rest;
      assert failures + TakeNumbered(rest, 0).0 == TakeNumbered(rest, 0).0;
    } else {
      var n, init, last := |failures| - 1, failures[..|failures| - 1], failures[|failures| - 1];
      var b := TextSection(Number(n) + last);
      Append(Numbered(init), [b], rest);
      TakeNumberedBack(init, [b] + rest);
      StripSection(Number(n), last);
      assert ([b] + rest)[1..] == rest;
      assert init + ([last] + TakeNumbered(rest, n + 1).0) == failures + TakeNumbered(rest, n + 1).0;
    }
  }

  lemma {:induction false} StripHeading(prefix: string)
    ensures Strip(prefix, TextSection(prefix)) == Some("")
  {
    StripSection(prefix, "");
    assert prefix + "" == prefix;
  }

  /** The heading of the failures is neither a bullet nor the heading of the details. */
  lemma {:induction false} FailuresHeadingIsNoDetail()
    ensures Strip(BULLET, TextSection(FAILURES)) == None
    ensures Strip(DETAILS, TextSection(FAILURES)) == None
  {
    hide TextSection, Strip;
    assert FAILURES[0] != BULLET[0] && FAILURES[1] != DETAILS[1];
    StripOther(BULLET, FAILURES);
    StripOther(DETAILS, FAILURES);
  }

  lemma {:induction false} FailuresReadBack(failures: seq<string>, rest: seq<Block>)
    ensures TakeFailures(FailureBlocks(failures) + ([Divider] + rest)) == (failures, [Divider] + rest)
  {
    hide TextSection, Escape, Unescape, Number;
    var tail := [Divider] + rest;
    assert tail[0] == Divider && Strip(FAILURES, Divider) == None && Strip(Number(|failures|), Divider) == None;
    if failures == [] {
      assert FailureBlocks(failures) + tail == tail;
    } else {
      Append([TextSection(FAILURES)], Numbered(failures), tail);
      TakeNumberedBack(failures, tail);
      StripHeading(FAILURES);
      var all := [TextSection(FAILURES)] + (Numbered(failures) + tail);
      assert all[1..] == Numbered(failures) + tail && all[0] == TextSection(FAILURES);
      assert failures + [] == failures;
    }
  }

  lemma {:induction false} DetailsReadBack(details: seq<string>, failures: seq<string>, rest: seq<Block>)
    ensures
      var tail := FailureBlocks(failures) + ([Divider] + rest);
      TakeDetails(DetailBlocks(details) + tail) == (details, tail)
  {
    hide TextSection, Escape, Unescape, Number;
    var tail := FailureBlocks(failures) + ([Divider] + rest);
    FailuresHeadingIsNoDetail();
    assert tail[0] == if failures == [] then Divider else TextSection(FAILURES);
    if details == [] {
      assert DetailBlocks(details) + tail == tail;
    } else {
      Append([TextSection(DETAILS)], Bullets(details), tail);
      TakeBulletsBack(details, tail);
      StripHeading(DETAILS);
      var all := [TextSection(DETAILS)] + (Bullets(details) + tail);
      assert all[1..] == Bullets(details) + tail && all[0] == TextSection(DETAILS);
      assert details + [] == details;
    }
  }

  lemma {:induction false} BasicsReadBack(name: string, i: nat, c: ValidationCondition, rest: seq<Block>)
    ensures |Basics(name, i, c)| == 6
    ensures ReadBasics(Basics(name, i, c) + rest, i) ==
            Some(Reading(name, c.validationType, c.validationRule, c.message, [], []))
  {
    hide TextSection, Strip;
    StripSection(RESULT, Itoa(i + 1));
    StripHeading(METADATA);
    StripSection(NAME, name);
    StripSection(TYPE, c.validationType);
    StripSection(RULE, c.validationRule);
    StripSection(MESSAGE, c.message);
  }

  lemma {:induction false} ConditionReadsBack(name: string, i: nat, c: ValidationCondition, rest: seq<Block>)
    ensures ReadCondition(ConditionBlocks(name, i, c) + rest, i) == Some((ReadingOf(name, c), rest))
  {
    hide TextSection, Strip, Basics, ReadBasics, DetailBlocks, FailureBlocks, TakeDetails, TakeFailures;
    var basics, ds, fs := Basics(name, i, c), DetailBlocks(c.details), FailureBlocks(c.failures);
    var tail := ds + (fs + ([Divider] + rest));
    Append(basics, ds + (fs + [Divider]), rest);
    Append(ds, fs + [Divider], rest);
    Append(fs, [Divider], rest);
    assert ConditionBlocks(name, i, c) + rest == basics + tail;
    BasicsReadBack(name, i, c, tail);
    assert (basics + tail)[6..] == tail;
    DetailsReadBack(c.details, c.failures, rest);
    FailuresReadBack(c.failures, rest);
    assert ([Divider] + rest)[1..] == rest;
  }

  lemma {:induction false} ConditionsReadBack(name: string, cs: seq<ValidationCondition>, rest: seq<Block>)
    ensures ReadConditions(AllConditionBlocks(name, cs) + rest, 0) == Readings(name, cs) + ReadConditions(rest, |cs|)
  {
    hide ReadCondition, ConditionBlocks;
    if cs == [] {
      assert AllConditionBlocks(name, cs) + rest == rest;
    } else {
      var n, init, c := |cs| - 1, cs[..|cs| - 1], cs[|cs| - 1];
      var blocks := ConditionBlocks(name, n, c);
      Append(AllConditionBlocks(name, init), blocks, rest);
      ConditionsReadBack(name, init, blocks + rest);
      ConditionReadsBack(name, n, c, rest);
      ConditionLength(name, n, c);
      Regroup(Readings(name, init), ReadingOf(name, c), ReadConditions(rest, |cs|));
    }
  }

  lemma {:induction false} Regroup(xs: seq<Reading>, x: Reading, ys: seq<Reading>)
    ensures xs + ([x] + ys) == xs + [x] + ys
  {
  }

  // ----- The whole message -----

  lemma {:induction false} SectionLengths(details: seq<string>, failures: seq<string>)
    ensures |Bullets(details)| == |details| && |Numbered(failures)| == |failures|
  {
    if details != [] {
      SectionLengths(details[..|details| - 1], failures);
    } else if failures != [] {
      SectionLengths(details, failures[..|failures| - 1]);
    }
  }

  function ListLength(xs: seq<string>): nat {
    if xs == [] then 0 else 1 + |xs|
  }

  lemma {:induction false} ConditionLength(name: string, i: nat, c: ValidationCondition)
    ensures |ConditionBlocks(name, i, c)| == 7 + ListLength(c.details) + ListLength(c.failures)
  {
    hide TextSection, Number;
    SectionLengths(c.details, c.failures);
  }

  function MessageLength(cs: seq<ValidationCondition>): nat {
    if cs == [] then 3
    else
      var c := cs[|cs| - 1];
      MessageLength(cs[..|cs| - 1]) + 7 + ListLength(c.details) + ListLength(c.failures)
  }

  lemma {:induction false} BlockCount(name: string, cs: seq<ValidationCondition>)
    ensures |AllConditionBlocks(name, cs)| + 3 == MessageLength(cs)
  {
    hide ConditionBlocks;
    if cs != [] {
      BlockCount(name, cs[..|cs| - 1]);
      ConditionLength(name, |cs| - 1, cs[|cs| - 1]);
    }
  }

  lemma {:induction false} StateLineInDetail(state: ValidationState)
    ensures StateLine(state) ==
            "*State:* " + (PrintState(state) + if state == Succeeded then " :white_check_mark:" else " :red_circle:")
  {
  }

  /** The message names the object, gives its state, and reads back to exactly the conditions
      it was built from, in order; its length is determined by their lists. */
  lemma {:induction false} MessageReadsBack(name: string, plugin: string, state: ValidationState,
                                            cs: seq<ValidationCondition>)
    ensures
      var blocks := Preamble(name, plugin, state) + AllConditionBlocks(name, cs);
      && |blocks| == MessageLength(cs)
      && blocks[0] == Header(plugin + " Validator: " + name) && blocks[2] == Divider
      && Strip("*State:* ", blocks[1]) ==
         Some(PrintState(state) + if state == Succeeded then " :white_check_mark:" else " :red_circle:")
      && ReadConditions(blocks[3..], 0) == Readings(name, cs)
  {
    hide TextSection, Strip, StateLine, ReadCondition, ConditionBlocks;
    var blocks := Preamble(name, plugin, state) + AllConditionBlocks(name, cs);
    BlockCount(name, cs);
    StateLineInDetail(state);
    var mark := if state == Succeeded then " :white_check_mark:" else " :red_circle:";
    StripSection("*State:* ", PrintState(state) + mark);
    assert blocks[3..] == AllConditionBlocks(name, cs) + [];
    ConditionsReadBack(name, cs, []);
    assert ReadConditions([], |cs|) == [] by { NothingToRead(|cs|); }
  }

  lemma {:induction false} NothingToRead(i: nat)
    ensures ReadConditions([], i) == []
  {
  }
}
