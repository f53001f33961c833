/** pkg/util/strings.go: de-duplication of a list of strings, and the normal form used
    for resource names. */
module Strings {
  import opened Text

  // ----- DeDupeStrSlice -----

  /** The distinct elements of ss in order of first appearance. */
  function DeDupe(ss: seq<string>): seq<string> {
    if ss == [] then []
    else
      var init, last := DeDupe(ss[..|ss| - 1]), ss[|ss| - 1];
      if last in ss[..|ss| - 1] then init else init + [last]
  }

  method DeDupeStrSlice(ss: seq<string>) returns (l: seq<string>)
    ensures l == DeDupe(ss)
  {
    var found: map<string, bool> := map[];
    l := [];
    for i := 0 to |ss|
      invariant found.Keys == set s | s in ss[..i]
      invariant l == DeDupe(ss[..i])
    {
      assert ss[..i + 1][..i] == ss[..i];
      if ss[i] !in found {
        found := found[ss[i] := true];
        l := l + [ss[i]];
      }
    }
    assert ss[..|ss|] == ss;
  }

  ghost predicate Distinct(ss: seq<string>) {
    forall i, j :: 0 <= i < j < |ss| ==> ss[i] != ss[j]
  }

  lemma {:induction false} DeDupeIsDistinct(ss: seq<string>)
    ensures Distinct(DeDupe(ss))
    ensures forall s :: s in DeDupe(ss) <==> s in ss
  {
    if ss != [] {
      DeDupeIsDistinct(ss[..|ss| - 1]);
      assert ss == ss[..|ss| - 1] + [ss[|ss| - 1]];
    }
  }

  lemma {:induction false} DeDupeNoLonger(ss: seq<string>)
    ensures |DeDupe(ss)| <= |ss|
  {
    if ss != [] {
      DeDupeNoLonger(ss[..|ss| - 1]);
    }
  }

  lemma {:induction false} DeDupeShortens(ss: seq<string>, i: nat, j: nat)
    requires i < j < |ss| && ss[i] == ss[j]
    ensures |DeDupe(ss)| < |ss|
  {
    var init := ss[..|ss| - 1];
    if j < |ss| - 1 {
      DeDupeShortens(init, i, j);
    } else {
      DeDupeNoLonger(init);
      assert init[i] == ss[j];
    }
  }

  lemma {:induction false} DeDupeSnoc(ss: seq<string>, s: string)
    ensures DeDupe(ss + [s]) == if s in DeDupe(ss) then DeDupe(ss) else DeDupe(ss) + [s]
  {
    assert (ss + [s])[..|ss|] == ss;
    DeDupeIsDistinct(ss);
  }

  lemma {:induction false} DistinctLength(ss: seq<string>)
    requires Distinct(ss)
    ensures |ss| == |set s | s in ss|
  {
    if ss != [] {
      var init, last := ss[..|ss| - 1], ss[|ss| - 1];
      DistinctLength(init);
      var seen := set s | s in init;
      assert ss == init + [last];
      assert (set s | s in ss) == seen + {last} && last !in seen;
    }
  }

  /** Order is that of first appearance: x comes before y in the result when its first
      occurrence comes before the first occurrence of y. */
  lemma {:induction false} DeDupeKeepsFirstAppearance(ss: seq<string>, i: nat, j: nat)
    requires i < j < |ss| && ss[i] !in ss[..i] && ss[j] !in ss[..j]
    ensures exists p, q :: 0 <= p < q < |DeDupe(ss)| && DeDupe(ss)[p] == ss[i] && DeDupe(ss)[q] == ss[j]
  {
    var init := ss[..|ss| - 1];
    if j < |ss| - 1 {
      assert init[..i] == ss[..i] && init[..j] == ss[..j];
      DeDupeKeepsFirstAppearance(init, i, j);
      var p, q :| 0 <= p < q < |DeDupe(init)| && DeDupe(init)[p] == ss[i] && DeDupe(init)[q] == ss[j];
      assert DeDupe(ss)[p] == ss[i] && DeDupe(ss)[q] == ss[j];
    } else {
      DeDupeIsDistinct(init);
      assert ss[i] == init[i];
      assert ss[i] in DeDupe(init);
      var p :| 0 <= p < |DeDupe(init)| && DeDupe(init)[p] == ss[i];
      assert DeDupe(ss) == DeDupe(init) + [ss[j]];
      assert DeDupe(ss)[p] == ss[i] && DeDupe(ss)[|DeDupe(init)|] == ss[j];
    }
  }

  lemma {:induction false} DeDupeOfDistinct(ss: seq<string>)
    requires Distinct(ss)
    ensures DeDupe(ss) == ss
  {
    if ss != [] {
      DeDupeOfDistinct(ss[..|ss| - 1]);
    }
  }

  /** Nothing is dropped exactly if no element occurs twice. */
  lemma {:induction false} DeDupeLength(ss: seq<string>)
    ensures |DeDupe(ss)| <= |ss|
    ensures |DeDupe(ss)| == |ss| <==> Distinct(ss)
  {
    DeDupeNoLonger(ss);
    if Distinct(ss) {
      DeDupeOfDistinct(ss);
    } else {
      var i, j :| 0 <= i < j < |ss| && ss[i] == ss[j];
      DeDupeShortens(ss, i, j);
    }
  }

  // ----- Sanitize -----

  predicate Alnum(c: char) {
    'a' <= c <= 'z' || '0' <= c <= '9'
  }

  /** The two character tables of Go's unicode package that Sanitize consults. */
  datatype Unicode = Unicode(lower: char -> char, isSpace: char -> bool)

  /** What is assumed of the tables: letters a-z, digits and the dash are their own lower
      case, and none of them is white space. */
  ghost predicate Standard(u: Unicode) {
    forall c: char :: Alnum(c) || c == '-' ==> u.lower(c) == c && !u.isSpace(c)
  }

  function MapString(f: char -> char, s: string): (r: string)
    ensures |r| == |s| && forall i | 0 <= i < |s| :: r[i] == f(s[i])
  {
    if s == "" then "" else MapString(f, s[..|s| - 1]) + [f(s[|s| - 1])]
  }

  function TrimLeft(p: char -> bool, s: string): string {
    if s != "" && p(s[0]) then TrimLeft(p, s[1..]) else s
  }

  function TrimRight(p: char -> bool, s: string): string {
    if s != "" && p(s[|s| - 1]) then TrimRight(p, s[..|s| - 1]) else s
  }

  function Trim(p: char -> bool, s: string): string {
    TrimRight(p, TrimLeft(p, s))
  }

  function AlnumOrDash(c: char): char {
    if Alnum(c) then c else '-'
  }

  predicate IsDash(c: char) { c == '-' }

  /** s with each run of consecutive dashes replaced by one dash. */
  function Collapse(s: string): string {
    if s == "" then ""
    else
      var init, c := Collapse(s[..|s| - 1]), s[|s| - 1];
      if c == '-' && init != "" && init[|init| - 1] == '-' then init else init + [c]
  }

  function SanitizeSteps(u: Unicode, s: string): string {
    Trim(IsDash, Collapse(MapString(AlnumOrDash, Trim(u.isSpace, MapString(u.lower, s)))))
  }

  method Sanitize(u: Unicode, s: string) returns (r: string)
    ensures r == SanitizeSteps(u, s)
  {
    var t := MapString(AlnumOrDash, Trim(u.isSpace, MapString(u.lower, s)));
    var b := "";
    var prevDash := false;
    for i := 0 to |t|
      invariant b == Collapse(t[..i])
      invariant prevDash <==> b != "" && b[|b| - 1] == '-'
    {
      assert t[..i + 1][..i] == t[..i];
      if t[i] == '-' {
        if !prevDash {
          b := b + [t[i]];
          prevDash := true;
        }
      } else {
        b := b + [t[i]];
        prevDash := false;
      }
    }
    assert t[..|t|] == t;
    r := Trim(IsDash, b);
  }

  // ----- The independent definition: words between separators -----

  ghost function GrowLast(ws: seq<string>, c: char): seq<string>
    requires ws != []
  {
    ws[..|ws| - 1] + [ws[|ws| - 1] + [c]]
  }

  /** s cut at every character outside [a-z0-9]; pieces may be empty. */
  ghost function Pieces(s: string): (ps: seq<string>)
    ensures ps != []
  {
    if s == "" then [""]
    else
      var ps, c := Pieces(s[..|s| - 1]), s[|s| - 1];
      if Alnum(c) then GrowLast(ps, c) else ps + [""]
  }

  ghost function NonEmpty(ps: seq<string>): seq<string> {
    if ps == [] then []
    else NonEmpty(ps[..|ps| - 1]) + (if ps[|ps| - 1] == "" then [] else [ps[|ps| - 1]])
  }

  /** The maximal runs of [a-z0-9] in s, in order. */
  ghost function Words(s: string): seq<string> {
    NonEmpty(Pieces(s))
  }

  lemma {:induction false} NonEmptyConcat(ps: seq<string>, qs: seq<string>)
    ensures NonEmpty(ps + qs) == NonEmpty(ps) + NonEmpty(qs)
  {
    if qs == [] {
      assert ps + qs == ps;
    } else {
      assert (ps + qs)[..|ps + qs| - 1] == ps + qs[..|qs| - 1];
      NonEmptyConcat(ps, qs[..|qs| - 1]);
    }
  }

  lemma {:induction false} PiecesSnoc(s: string, c: char)
    ensures Pieces(s + [c]) == if Alnum(c) then GrowLast(Pieces(s), c) else Pieces(s) + [""]
  {
    assert (s + [c])[..|s|] == s;
  }

  lemma {:induction false} GrowLastConcat(ps: seq<string>, qs: seq<string>, c: char)
    requires qs != []
    ensures GrowLast(ps + qs, c) == ps + GrowLast(qs, c)
  {
    assert (ps + qs)[..|ps + qs| - 1] == ps + qs[..|qs| - 1];
  }

  lemma {:induction false} PiecesConcat(a: string, c: char, b: string)
    requires !Alnum(c)
    ensures Pieces(a + [c] + b) == Pieces(a) + Pieces(b)
  {
    if b == "" {
      assert a + [c] + b == a + [c];
      PiecesSnoc(a, c);
    } else {
      var init, d := b[..|b| - 1], b[|b| - 1];
      PiecesConcat(a, c, init);
      assert a + [c] + b == (a + [c] + init) + [d] && b == init + [d];
      PiecesSnoc(a + [c] + init, d);
      PiecesSnoc(init, d);
      if Alnum(d) {
        GrowLastConcat(Pieces(a), Pieces(init), d);
      } else {
        assert Pieces(a) + Pieces(init) + [""] == Pieces(a) + (Pieces(init) + [""]);
      }
    }
  }

  lemma {:induction false} WordsConcat(a: string, c: char, b: string)
    requires !Alnum(c)
    ensures Words(a + [c] + b) == Words(a) + Words(b)
  {
    PiecesConcat(a, c, b);
    NonEmptyConcat(Pieces(a), Pieces(b));
  }

  lemma {:induction false} EmptyHasNoWords()
    ensures Words("") == []
  {
    assert NonEmpty([""]) == NonEmpty([]);
  }

  lemma {:induction false} TrimLeftKeepsWords(p: char -> bool, s: string)
    requires forall c :: p(c) ==> !Alnum(c)
    ensures Words(TrimLeft(p, s)) == Words(s)
  {
    if s != "" && p(s[0]) {
      TrimLeftKeepsWords(p, s[1..]);
      assert s == "" + [s[0]] + s[1..];
      WordsConcat("", s[0], s[1..]);
      EmptyHasNoWords();
    }
  }

  lemma {:induction false} TrimRightKeepsWords(p: char -> bool, s: string)
    requires forall c :: p(c) ==> !Alnum(c)
    ensures Words(TrimRight(p, s)) == Words(s)
  {
    if s != "" && p(s[|s| - 1]) {
      TrimRightKeepsWords(p, s[..|s| - 1]);
      assert s == s[..|s| - 1] + [s[|s| - 1]] + "";
      WordsConcat(s[..|s| - 1], s[|s| - 1], "");
      EmptyHasNoWords();
    }
  }

  lemma {:induction false} MappingKeepsPieces(s: string)
    ensures Pieces(MapString(AlnumOrDash, s)) == Pieces(s)
  {
    if s != "" {
      MappingKeepsPieces(s[..|s| - 1]);
      assert s == s[..|s| - 1] + [s[|s| - 1]];
      PiecesSnoc(s[..|s| - 1], s[|s| - 1]);
      PiecesSnoc(MapString(AlnumOrDash, s[..|s| - 1]), AlnumOrDash(s[|s| - 1]));
    }
  }

  // ----- Joining words -----

  ghost predicate AllAlnum(w: string) {
    forall i | 0 <= i < |w| :: Alnum(w[i])
  }

  lemma {:induction false} PiecesAreAlnum(s: string)
    ensures forall p | p in Pieces(s) :: AllAlnum(p)
  {
    if s != "" {
      PiecesAreAlnum(s[..|s| - 1]);
      var ps := Pieces(s[..|s| - 1]);
      assert ps[|ps| - 1] in ps;
    }
  }

  lemma {:induction false} NonEmptyKeepsMembers(ps: seq<string>)
    ensures forall p :: p in NonEmpty(ps) <==> p in ps && p != ""
  {
    if ps != [] {
      NonEmptyKeepsMembers(ps[..|ps| - 1]);
      assert ps == ps[..|ps| - 1] + [ps[|ps| - 1]];
    }
  }

  ghost predicate AreWords(ws: seq<string>) {
    forall w | w in ws :: w != "" && AllAlnum(w)
  }

  lemma {:induction false} WordsAreWords(s: string)
    ensures AreWords(Words(s))
  {
    PiecesAreAlnum(s);
    NonEmptyKeepsMembers(Pieces(s));
  }

  lemma {:induction false} JoinSnoc(ws: seq<string>, w: string)
    ensures Join(ws + [w], "-") == if ws == [] then w else Join(ws, "-") + "-" + w
  {
    if |ws| >= 1 {
      assert (ws + [w])[1..] == ws[1..] + [w];
      JoinSnoc(ws[1..], w);
      if |ws| > 1 {
        assert Join(ws + [w], "-") == ws[0] + "-" + (Join(ws[1..], "-") + "-" + w);
        assert Join(ws, "-") == ws[0] + "-" + Join(ws[1..], "-");
      }
    }
  }

  lemma {:induction false} JoinGrowLast(ws: seq<string>, w: string, c: char)
    ensures Join(ws + [w + [c]], "-") == Join(ws + [w], "-") + [c]
  {
    JoinSnoc(ws, w);
    JoinSnoc(ws, w + [c]);
  }

  lemma {:induction false} WordsByLastPiece(s: string, init: seq<string>, last: string)
    requires Pieces(s) == init + [last]
    ensures Words(s) == NonEmpty(init) + if last == "" then [] else [last]
  {
    assert (init + [last])[..|init|] == init;
  }

  /** Appending one character either ends the current word, starts a new one, or extends it. */
  lemma {:induction false} WordsSnoc(s: string, c: char)
    ensures !Alnum(c) ==> Words(s + [c]) == Words(s)
    ensures Alnum(c) && (s == "" || !Alnum(s[|s| - 1])) ==> Words(s + [c]) == Words(s) + [[c]]
    ensures Alnum(c) && s != "" && Alnum(s[|s| - 1]) ==> Words(s) != [] && Words(s + [c]) == GrowLast(Words(s), c)
  {
    assert (s + [c])[..|s|] == s;
    var init, last := Pieces(s)[..|Pieces(s)| - 1], Pieces(s)[|Pieces(s)| - 1];
    WordsByLastPiece(s, init, last);
    assert last == "" <==> s == "" || !Alnum(s[|s| - 1]);
    if Alnum(c) {
      WordsByLastPiece(s + [c], init, last + [c]);
      assert last == "" ==> last + [c] == [c];
    } else {
      WordsByLastPiece(s + [c], Pieces(s), "");
    }
  }

  ghost predicate EndsInDash(s: string) {
    s != "" && s[|s| - 1] == '-'
  }

  ghost function Lead(s: string): string {
    if s != "" && s[0] == '-' then "-" else ""
  }

  ghost function Body(s: string): string {
    Join(Words(s), "-") + if Words(s) != [] && EndsInDash(s) then "-" else ""
  }

  ghost predicate OverAlnumDash(s: string) {
    forall i | 0 <= i < |s| :: Alnum(s[i]) || s[i] == '-'
  }

  lemma {:induction false} LeadSnoc(s: string, c: char)
    requires s != ""
    ensures Lead(s + [c]) == Lead(s)
  {
  }

  lemma {:induction false} CollapseSnoc(s: string, c: char)
    ensures Collapse(s + [c]) == if c == '-' && EndsInDash(Collapse(s)) then Collapse(s) else Collapse(s) + [c]
  {
    assert (s + [c])[..|s|] == s;
  }

  lemma {:induction false} BodyAfterDash(s: string)
    requires s != "" && OverAlnumDash(s)
    ensures Body(s + "-") == if EndsInDash(s) then Body(s) else Body(s) + "-"
  {
    WordsSnoc(s, '-');
    if !EndsInDash(s) && Words(s) == [] {
      NoWordsMeansDashes(s);
    }
  }

  lemma {:induction false} BodyAfterAlnum(s: string, c: char)
    requires s != "" && OverAlnumDash(s) && Alnum(c)
    ensures Body(s + [c]) == Body(s) + [c]
  {
    WordsSnoc(s, c);
    if Alnum(s[|s| - 1]) {
      var ws := Words(s);
      assert ws == ws[..|ws| - 1] + [ws[|ws| - 1]];
      JoinGrowLast(ws[..|ws| - 1], ws[|ws| - 1], c);
    } else {
      JoinSnoc(Words(s), [c]);
    }
  }

  ghost predicate Shaped(s: string) {
    Collapse(s) == Lead(s) + Body(s) && (EndsInDash(Collapse(s)) <==> EndsInDash(s))
  }

  lemma {:induction false} ShortIsShaped(c: char)
    requires Alnum(c) || c == '-'
    ensures Shaped("") && Shaped([c])
  {
    EmptyHasNoWords();
    WordsSnoc("", c);
    CollapseSnoc("", c);
    assert "" + [c] == [c];
  }

  lemma {:induction false} LongerIsShaped(s: string, c: char)
    requires s != "" && OverAlnumDash(s) && Shaped(s) && (Alnum(c) || c == '-')
    ensures Shaped(s + [c])
  {
    hide Collapse, Body, Lead, OverAlnumDash;
    CollapseSnoc(s, c);
    LeadSnoc(s, c);
    if c == '-' {
      BodyAfterDash(s);
    } else {
      BodyAfterAlnum(s, c);
    }
    assert Lead(s) + Body(s) + [c] == Lead(s) + (Body(s) + [c]);
  }

  /** Collapsing leaves the dash-joined words, plus at most one dash at either end. */
  lemma {:induction false} CollapseShape(s: string)
    requires OverAlnumDash(s)
    ensures Shaped(s)
  {
    hide Shaped, Alnum;
    ShortIsShaped('-');
    if s != "" {
      var init, c := s[..|s| - 1], s[|s| - 1];
      assert s == init + [c];
      if init == "" {
        ShortIsShaped(c);
        assert s == [c];
      } else {
        CollapseShape(init);
        LongerIsShaped(init, c);
      }
    }
  }

  lemma {:induction false} NoWordsMeansDashes(s: string)
    requires OverAlnumDash(s) && Words(s) == []
    ensures forall i | 0 <= i < |s| :: s[i] == '-'
  {
    if s != "" {
      var init, c := s[..|s| - 1], s[|s| - 1];
      assert s == init + [c];
      WordsSnoc(init, c);
      NoWordsMeansDashes(init);
    }
  }

  lemma {:induction false} JoinEnds(ws: seq<string>)
    requires AreWords(ws)
    ensures ws != [] ==> Join(ws, "-") != "" && Alnum(Join(ws, "-")[0])
                         && Alnum(Join(ws, "-")[|Join(ws, "-")| - 1])
  {
    if ws != [] {
      assert ws[0] in ws;
      if |ws| > 1 {
        JoinEnds(ws[1..]);
      }
    }
  }

  lemma {:induction false} TrimOneDash(s: string, lead: string, trail: string)
    requires s != "" ==> s[0] != '-' && s[|s| - 1] != '-'
    requires lead in {"", "-"} && trail in {"", "-"} && (s == "" ==> trail == "")
    ensures Trim(IsDash, lead + s + trail) == s
  {
    hide TrimLeft, TrimRight;
    assert lead + s + trail == lead + (s + trail);
    TrimLead(s + trail, lead);
    TrimTrail(s, trail);
  }

  lemma {:induction false} TrimLead(t: string, lead: string)
    requires (t != "" ==> t[0] != '-') && lead in {"", "-"}
    ensures TrimLeft(IsDash, lead + t) == t
  {
    if lead == "" {
      assert lead + t == t;
    } else {
      assert (lead + t)[1..] == t;
      assert TrimLeft(IsDash, t) == t;
    }
  }

  lemma {:induction false} TrimTrail(s: string, trail: string)
    requires (s != "" ==> s[|s| - 1] != '-') && trail in {"", "-"}
    ensures TrimRight(IsDash, s + trail) == s
  {
    if trail == "" {
      assert s + trail == s;
    } else {
      assert (s + trail)[..|s|] == s;
      assert TrimRight(IsDash, s) == s;
    }
  }

  lemma {:induction false} TrimmedCollapse(s: string)
    requires OverAlnumDash(s)
    ensures Trim(IsDash, Collapse(s)) == Join(Words(s), "-")
  {
    CollapseShape(s);
    WordsAreWords(s);
    JoinEnds(Words(s));
    var j := Join(Words(s), "-");
    var trail := if Words(s) != [] && EndsInDash(s) then "-" else "";
    assert Body(s) == j + trail;
    assert Lead(s) + j + trail == Lead(s) + (j + trail);
    TrimOneDash(j, Lead(s), trail);
  }

  // ----- Laws of Sanitize -----

  lemma {:induction false} DashMapped(s: string)
    ensures OverAlnumDash(MapString(AlnumOrDash, s))
  {
    forall i | 0 <= i < |s|
      ensures Alnum(MapString(AlnumOrDash, s)[i]) || MapString(AlnumOrDash, s)[i] == '-'
    {
      assert MapString(AlnumOrDash, s)[i] == AlnumOrDash(s[i]);
    }
  }

  /** Sanitize is the dash-join of the words of the lower-cased string; in particular the
      white-space trimming step never changes the result. */
  lemma {:induction false} SanitizeJoinsWords(u: Unicode, s: string)
    requires Standard(u)
    ensures SanitizeSteps(u, s) == Join(Words(MapString(u.lower, s)), "-")
    ensures SanitizeSteps(u, s) == Trim(IsDash, Collapse(MapString(AlnumOrDash, MapString(u.lower, s))))
  {
    var low := MapString(u.lower, s);
    var trimmed := Trim(u.isSpace, low);
    TrimLeftKeepsWords(u.isSpace, low);
    TrimRightKeepsWords(u.isSpace, TrimLeft(u.isSpace, low));
    MappingKeepsPieces(trimmed);
    MappingKeepsPieces(low);
    DashMapped(trimmed);
    DashMapped(low);
    TrimmedCollapse(MapString(AlnumOrDash, trimmed));
    TrimmedCollapse(MapString(AlnumOrDash, low));
  }

  /** Over [a-z0-9-] with no leading, trailing or doubled dash. */
  ghost predicate Canonical(s: string) {
    && (forall i | 0 <= i < |s| :: 'a' <= s[i] <= 'z' || '0' <= s[i] <= '9' || s[i] == '-')
    && (s != "" ==> s[0] != '-' && s[|s| - 1] != '-')
    && forall i | 0 <= i < |s| - 1 :: !(s[i] == '-' && s[i + 1] == '-')
  }

  lemma {:induction false} JoinedWordsAreCanonical(ws: seq<string>)
    requires AreWords(ws)
    ensures Canonical(Join(ws, "-"))
  {
    if ws != [] {
      assert ws[0] in ws;
      if |ws| > 1 {
        JoinedWordsAreCanonical(ws[1..]);
        JoinEnds(ws[1..]);
      }
    }
  }

  lemma {:induction false} CollapseOfCanonical(s: string)
    requires forall i | 0 <= i < |s| - 1 :: !(s[i] == '-' && s[i + 1] == '-')
    ensures Collapse(s) == s
  {
    if s != "" {
      CollapseOfCanonical(s[..|s| - 1]);
    }
  }

  lemma {:induction false} StandardKeepsCanonical(u: Unicode, s: string)
    requires Standard(u) && Canonical(s)
    ensures SanitizeSteps(u, s) == s
  {
    hide Collapse, TrimLeft, TrimRight, MapString, AlnumOrDash, Canonical, OverAlnumDash;
    CanonicalParts(s);
    LowerKeeps(u, s);
    TrimKeeps(u.isSpace, s);
    TrimKeeps(IsDash, s);
    DashMapKeeps(s);
    CollapseOfCanonical(s);
  }

  lemma {:induction false} CanonicalParts(s: string)
    requires Canonical(s)
    ensures OverAlnumDash(s)
    ensures s != "" ==> s[0] != '-' && s[|s| - 1] != '-' && Alnum(s[0]) && Alnum(s[|s| - 1])
    ensures forall i | 0 <= i < |s| - 1 :: !(s[i] == '-' && s[i + 1] == '-')
  {
  }

  lemma {:induction false} LowerKeeps(u: Unicode, s: string)
    requires Standard(u) && OverAlnumDash(s)
    ensures MapString(u.lower, s) == s
  {
    hide Alnum;
  }

  lemma {:induction false} DashMapKeeps(s: string)
    requires OverAlnumDash(s)
    ensures MapString(AlnumOrDash, s) == s
  {
    hide Alnum;
  }

  lemma {:induction false} TrimKeeps(p: char -> bool, s: string)
    requires s != "" ==> !p(s[0]) && !p(s[|s| - 1])
    ensures Trim(p, s) == s
  {
  }

  /** The fixed points are exactly the canonical strings, and every result is one. */
  lemma {:induction false} SanitizeFixedPoints(u: Unicode, s: string)
    requires Standard(u)
    ensures SanitizeSteps(u, s) == s <==> Canonical(s)
    ensures Canonical(SanitizeSteps(u, s))
    ensures SanitizeSteps(u, SanitizeSteps(u, s)) == SanitizeSteps(u, s)
  {
    var r := SanitizeSteps(u, s);
    SanitizeJoinsWords(u, s);
    WordsAreWords(MapString(u.lower, s));
    JoinedWordsAreCanonical(Words(MapString(u.lower, s)));
    StandardKeepsCanonical(u, r);
    if Canonical(s) {
      StandardKeepsCanonical(u, s);
    }
  }

  function DashJoin(a: string, b: string): string {
    if a == "" then b else if b == "" then a else a + "-" + b
  }

  lemma {:induction false} JoinConcat(xs: seq<string>, ys: seq<string>)
    requires AreWords(xs) && AreWords(ys)
    ensures Join(xs + ys, "-") == DashJoin(Join(xs, "-"), Join(ys, "-"))
  {
    JoinEnds(xs);
    JoinEnds(ys);
    assert forall i | 0 <= i < |xs| :: xs[i] in xs;
    if xs == [] {
      assert xs + ys == ys;
    } else if ys == [] {
      assert xs + ys == xs;
    } else {
      assert (xs + ys)[1..] == xs[1..] + ys;
      JoinEnds(xs[1..]);
      JoinConcat(xs[1..], ys);
      if |xs| > 1 {
        assert Join(xs + ys, "-") == xs[0] + "-" + (Join(xs[1..], "-") + "-" + Join(ys, "-"));
      }
    }
  }

  lemma {:induction false} SanitizeConcat(u: Unicode, a: string, b: string)
    requires Standard(u)
    ensures SanitizeSteps(u, a + "-" + b) == DashJoin(SanitizeSteps(u, a), SanitizeSteps(u, b))
  {
    var la, lb := MapString(u.lower, a), MapString(u.lower, b);
    assert MapString(u.lower, a + "-" + b) == la + "-" + lb;
    WordsConcat(la, '-', lb);
    WordsAreWords(la);
    WordsAreWords(lb);
    JoinConcat(Words(la), Words(lb));
    SanitizeJoinsWords(u, a);
    SanitizeJoinsWords(u, b);
    SanitizeJoinsWords(u, a + "-" + b);
  }

  // ----- Name (pkg/validationresult/validation_result.go) -----

  function Name(u: Unicode, pluginCode: string, objectName: string): string {
    SanitizeSteps(u, NAME_PREFIX + "-" + pluginCode + "-" + objectName)
  }

  const NAME_PREFIX := "validator-plugin"

  lemma {:induction false} PrefixIsCanonical()
    ensures NAME_PREFIX == "validator-plugin" && Canonical(NAME_PREFIX)
  {
  }

  /** The name always starts with validator-plugin, followed by whatever is left of the
      plugin code and of the object name, and is already in normal form. */
  lemma {:induction false} NameShape(u: Unicode, pluginCode: string, objectName: string)
    requires Standard(u)
    ensures Name(u, pluginCode, objectName) ==
            DashJoin("validator-plugin", DashJoin(SanitizeSteps(u, pluginCode), SanitizeSteps(u, objectName)))
    ensures SanitizeSteps(u, Name(u, pluginCode, objectName)) == Name(u, pluginCode, objectName)
  {
    hide SanitizeSteps, Canonical, DashJoin, Standard;
    var full := NAME_PREFIX + "-" + pluginCode + "-" + objectName;
    assert full == NAME_PREFIX + "-" + (pluginCode + "-" + objectName);
    SanitizeConcat(u, NAME_PREFIX, pluginCode + "-" + objectName);
    SanitizeConcat(u, pluginCode, objectName);
    PrefixIsCanonical();
    StandardKeepsCanonical(u, NAME_PREFIX);
    SanitizeFixedPoints(u, full);
  }
}
