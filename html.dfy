/** The HTML escaper and unescaper the renderer uses. Both files of the
    source define the same chain of five replacements and differ only in the
    entity written for the apostrophe: `&#x27;` in src/misc.ts and `&#039;`
    in src/index.ts. The chain is defined once here, with that entity as a
    parameter, and characterised as a per-character map so that the
    round-trip and its exceptions can be proved. */
module Html {
  import opened Strings

  /** The apostrophe entity of src/misc.ts. */
  const AposHex: string := "&#x27;"
  /** The apostrophe entity of src/index.ts. */
  const AposDec: string := "&#039;"

  predicate IsApos(apos: string) {
    apos == AposHex || apos == AposDec
  }

  /** `&` first, then `<`, `>`, `"` and `'`, each with a global replace. */
  function Escape(text: string, apos: string): string {
    ReplaceAll(ReplaceAll(ReplaceAll(ReplaceAll(ReplaceAll(
      text, "&", "&amp;"), "<", "&lt;"), ">", "&gt;"), "\"", "&quot;"), "'", apos)
  }

  /** `&lt;` first, then `&gt;`, `&amp;`, `&quot;` and the apostrophe entity. */
  function Unescape(html: string, apos: string): string
    requires |apos| > 0
  {
    ReplaceAll(ReplaceAll(ReplaceAll(ReplaceAll(ReplaceAll(
      html, "&lt;", "<"), "&gt;", ">"), "&amp;", "&"), "&quot;", "\""), apos, "'")
  }

  // ---------------------------------------------------------------------
  // Stages. Stage 0 is the escaped text; stage k + 1 is stage k after the
  // k-th replacement of Unescape. Each stage is a per-character map.

  predicate IsSpecial(c: char) {
    c == '&' || c == '<' || c == '>' || c == '"' || c == '\''
  }

  /** What the character `c` of the original text has become at stage `k`. */
  function Tok(k: nat, c: char, apos: string): string {
    if c == '&' then (if k <= 2 then "&amp;" else "&")
    else if c == '<' then (if k == 0 then "&lt;" else "<")
    else if c == '>' then (if k <= 1 then "&gt;" else ">")
    else if c == '"' then (if k <= 3 then "&quot;" else "\"")
    else if c == '\'' then (if k <= 4 then apos else "'")
    else [c]
  }

  function Stage(k: nat, x: string, apos: string): string {
    if x == [] then [] else Tok(k, x[0], apos) + Stage(k, x[1..], apos)
  }

  /** The entity Unescape decodes in its k-th replacement, and what it becomes. */
  function Pat(k: nat, apos: string): string
    requires k < 5
  {
    if k == 0 then "&lt;" else if k == 1 then "&gt;" else if k == 2 then "&amp;"
    else if k == 3 then "&quot;" else apos
  }

  function Rep(k: nat): string
    requires k < 5
  {
    if k == 0 then "<" else if k == 1 then ">" else if k == 2 then "&"
    else if k == 3 then "\"" else "'"
  }

  /** The five single-character replacements of Escape, as character maps. */
  function EscapeMaps(x: string, apos: string): string {
    MapChar(MapChar(MapChar(MapChar(MapChar(
      x, '&', "&amp;"), '<', "&lt;"), '>', "&gt;"), '"', "&quot;"), '\'', apos)
  }

  lemma MapCharSingle(c: char, d: char, rep: string)
    ensures MapChar([c], d, rep) == if c == d then rep else [c]
  {
    assert [c][1..] == [];
  }

  /** The five maps of Escape applied to a string none of whose characters
      is replaced by the remaining maps. */
  lemma MapsUntouched(t: string, apos: string)
    requires IsApos(apos)
    requires '<' !in t && '>' !in t && '"' !in t && '\'' !in t
    ensures MapChar(MapChar(MapChar(MapChar(t, '<', "&lt;"), '>', "&gt;"), '"', "&quot;"), '\'', apos) == t
  {
    MapCharAbsent(t, '<', "&lt;");
    MapCharAbsent(t, '>', "&gt;");
    MapCharAbsent(t, '"', "&quot;");
    MapCharAbsent(t, '\'', apos);
  }

  lemma EscapeMapsOne(c: char, apos: string)
    requires IsApos(apos)
    ensures EscapeMaps([c], apos) == Tok(0, c, apos)
  {
    MapCharSingle(c, '&', "&amp;");
    if c == '&' {
      MapsUntouched("&amp;", apos);
    } else {
      MapCharSingle(c, '<', "&lt;");
      if c == '<' {
        LastMapsUntouched("&lt;", apos);
      } else {
        EscapeMapsLate(c, apos);
      }
    }
  }

  /** The maps for `>`, `"` and `'` leave text without those characters alone. */
  lemma LastMapsUntouched(t: string, apos: string)
    requires IsApos(apos)
    requires '>' !in t && '"' !in t && '\'' !in t
    ensures MapChar(MapChar(MapChar(t, '>', "&gt;"), '"', "&quot;"), '\'', apos) == t
  {
    MapCharAbsent(t, '>', "&gt;");
    MapCharAbsent(t, '"', "&quot;");
    MapCharAbsent(t, '\'', apos);
  }

  /** A character other than `&` and `<` is escaped by the last three maps. */
  lemma EscapeMapsLate(c: char, apos: string)
    requires IsApos(apos) && c != '&' && c != '<'
    ensures MapChar(MapChar(MapChar([c], '>', "&gt;"), '"', "&quot;"), '\'', apos) == Tok(0, c, apos)
  {
    MapCharSingle(c, '>', "&gt;");
    if c == '>' {
      MapCharAbsent("&gt;", '"', "&quot;");
      MapCharAbsent("&gt;", '\'', apos);
    } else {
      MapCharSingle(c, '"', "&quot;");
      if c == '"' {
        MapCharAbsent("&quot;", '\'', apos);
      } else {
        MapCharSingle(c, '\'', apos);
      }
    }
  }

  lemma {:induction false} EscapeMapsIsStage(x: string, apos: string)
    requires IsApos(apos)
    ensures EscapeMaps(x, apos) == Stage(0, x, apos)
  {
    if x != [] {
      var c, t := x[0], x[1..];
      assert x == [c] + t;
      var a1 := MapChar([c], '&', "&amp;");
      var b1 := MapChar(t, '&', "&amp;");
      MapCharAppend([c], t, '&', "&amp;");
      var a2 := MapChar(a1, '<', "&lt;");
      var b2 := MapChar(b1, '<', "&lt;");
      MapCharAppend(a1, b1, '<', "&lt;");
      var a3 := MapChar(a2, '>', "&gt;");
      var b3 := MapChar(b2, '>', "&gt;");
      MapCharAppend(a2, b2, '>', "&gt;");
      var a4 := MapChar(a3, '"', "&quot;");
      var b4 := MapChar(b3, '"', "&quot;");
      MapCharAppend(a3, b3, '"', "&quot;");
      MapCharAppend(a4, b4, '\'', apos);
      EscapeMapsOne(c, apos);
      EscapeMapsIsStage(t, apos);
    }
  }

  /** Escape is the per-character map Tok(0, ·). */
  lemma EscapeIsStage(x: string, apos: string)
    requires IsApos(apos)
    ensures Escape(x, apos) == Stage(0, x, apos)
  {
    var s1 := ReplaceAll(x, "&", "&amp;");
    ReplaceAllOneChar(x, '&', "&amp;");
    var s2 := ReplaceAll(s1, "<", "&lt;");
    ReplaceAllOneChar(s1, '<', "&lt;");
    var s3 := ReplaceAll(s2, ">", "&gt;");
    ReplaceAllOneChar(s2, '>', "&gt;");
    var s4 := ReplaceAll(s3, "\"", "&quot;");
    ReplaceAllOneChar(s3, '"', "&quot;");
    ReplaceAllOneChar(s4, '\'', apos);
    EscapeMapsIsStage(x, apos);
  }

  /** Every token is either one plain character or starts with `&` and has
      no other `&`. */
  lemma TokShape(k: nat, c: char, apos: string)
    requires IsApos(apos)
    ensures |Tok(k, c, apos)| > 0
    ensures Tok(k, c, apos) == [c] || Tok(k, c, apos)[0] == '&'
    ensures forall i :: 1 <= i < |Tok(k, c, apos)| ==> Tok(k, c, apos)[i] != '&'
  {
  }

  /** A stage starts with a run of `&`-free text only if the original does. */
  lemma {:induction false} StagePrefix(k: nat, t: string, p: string, apos: string)
    requires IsApos(apos)
    requires '&' !in p
    requires StartsWith(Stage(k, t, apos), p)
    ensures StartsWith(t, p)
  {
    if p != [] {
      var s := Stage(k, t, apos);
      assert s[0] == p[0];
      assert t != [];
      var tok := Tok(k, t[0], apos);
      TokShape(k, t[0], apos);
      assert s == tok + Stage(k, t[1..], apos);
      assert tok[0] == s[0];
      assert tok == [t[0]];
      assert Stage(k, t[1..], apos) == s[1..];
      assert s[1..][..|p| - 1] == p[1..];
      StagePrefix(k, t[1..], p[1..], apos);
      assert t[..|p|] == [t[0]] + t[1..][..|p| - 1];
    }
  }

  /** Decoding step k changes exactly the tokens that spell its entity. */
  lemma TokNext(k: nat, c: char, apos: string)
    requires IsApos(apos) && k < 5
    ensures Tok(k + 1, c, apos) == if Tok(k, c, apos) == Pat(k, apos) then Rep(k) else Tok(k, c, apos)
  {
  }

  /** A token that is not the entity of step k cannot begin an occurrence of
      it on its own: it is a plain character, a bare `&`, or an entity that
      differs from the pattern within the pattern's length. */
  lemma TokVsPat(k: nat, c: char, apos: string)
    requires IsApos(apos) && k < 5
    ensures var tok, pat := Tok(k, c, apos), Pat(k, apos);
      || tok == pat
      || (tok == [c] && c != '&')
      || (tok == "&" && k >= 3)
      || (|tok| >= |pat| >= 2 && tok[1] != pat[1])
  {
    var pat := Pat(k, apos);
    assert |pat| >= 4 && pat[1] in "lgaq#";
    assert pat[1] == 'l' <==> k == 0;
    assert pat[1] == 'g' <==> k == 1;
    assert pat[1] == 'a' <==> k == 2;
    assert pat[1] == 'q' <==> k == 3;
  }

  /** The k-th replacement of Unescape takes stage k to stage k + 1, provided
      that the original text does not itself spell `&quot;` (k = 3) or the
      apostrophe entity (k = 4). */
  lemma {:induction false} StageStep(k: nat, x: string, apos: string)
    requires IsApos(apos) && k < 5
    requires k == 3 ==> !Occurs("&quot;", x)
    requires k == 4 ==> !Occurs(apos, x)
    ensures ReplaceAll(Stage(k, x, apos), Pat(k, apos), Rep(k)) == Stage(k + 1, x, apos)
  {
    if x != [] {
      var c, t := x[0], x[1..];
      var tok := Tok(k, c, apos);
      var rest := Stage(k, t, apos);
      var pat := Pat(k, apos);
      assert Stage(k, x, apos) == tok + rest;
      assert Stage(k + 1, x, apos) == Tok(k + 1, c, apos) + Stage(k + 1, t, apos);
      assert !Occurs(pat, x) ==> !Occurs(pat, t);
      StageStep(k, t, apos);
      TokNext(k, c, apos);
      if tok == pat {
        ReplaceAllHit(rest, pat, Rep(k));
      } else {
        StageSkip(k, x, apos);
      }
    }
  }

  /** A token that is not the entity of step k is left as it is, and the
      replacement goes on after it. */
  lemma StageSkip(k: nat, x: string, apos: string)
    requires IsApos(apos) && k < 5 && x != []
    requires Tok(k, x[0], apos) != Pat(k, apos)
    requires k == 3 ==> !Occurs("&quot;", x)
    requires k == 4 ==> !Occurs(apos, x)
    ensures var tok, rest := Tok(k, x[0], apos), Stage(k, x[1..], apos);
      ReplaceAll(tok + rest, Pat(k, apos), Rep(k)) == tok + ReplaceAll(rest, Pat(k, apos), Rep(k))
  {
    var c := x[0];
    var tok, rest, pat := Tok(k, c, apos), Stage(k, x[1..], apos), Pat(k, apos);
    TokShape(k, c, apos);
    TokVsPat(k, c, apos);
    if tok == "&" {
      assert !Occurs(pat, x);
      assert !StartsWith(x, pat);
      StageBareAmp(k, x, apos);
    } else if |tok| >= |pat| {
      assert (tok + rest)[..|pat|][1] == tok[1];
    }
    ReplaceAllSkip(tok, rest, pat, Rep(k));
  }

  /** A bare `&` of stage 3 or 4 begins the entity only if the original text
      spells it there. */
  lemma StageBareAmp(k: nat, x: string, apos: string)
    requires IsApos(apos) && 3 <= k < 5
    requires x != [] && Tok(k, x[0], apos) == "&"
    requires !StartsWith(x, Pat(k, apos))
    ensures !StartsWith(Tok(k, x[0], apos) + Stage(k, x[1..], apos), Pat(k, apos))
  {
    var pat := Pat(k, apos);
    var rest := Stage(k, x[1..], apos);
    var tail := pat[1..];
    assert '&' !in tail;
    if StartsWith("&" + rest, pat) {
      assert ("&" + rest)[1..] == rest;
      assert ("&" + rest)[..|pat|][1..] == rest[..|tail|];
      assert StartsWith(rest, tail);
      StagePrefix(k, x[1..], tail, apos);
      assert false;
    }
  }

  lemma {:induction false} StageFinal(x: string, apos: string)
    ensures Stage(5, x, apos) == x
  {
    if x != [] {
      StageFinal(x[1..], apos);
    }
  }

  /** Unescape as its five steps, each named by Pat and Rep. */
  lemma UnescapeSteps(h: string, apos: string)
    requires IsApos(apos)
    ensures Unescape(h, apos) ==
      ReplaceAll(ReplaceAll(ReplaceAll(ReplaceAll(ReplaceAll(
        h, Pat(0, apos), Rep(0)), Pat(1, apos), Rep(1)), Pat(2, apos), Rep(2)),
        Pat(3, apos), Rep(3)), Pat(4, apos), Rep(4))
  {
  }

  /** The round trip holds for every text that does not spell `&quot;` or
      the apostrophe entity. */
  lemma RoundTrip(x: string, apos: string)
    requires IsApos(apos)
    requires !Occurs("&quot;", x) && !Occurs(apos, x)
    ensures Unescape(Escape(x, apos), apos) == x
  {
    EscapeIsStage(x, apos);
    UnescapeSteps(Escape(x, apos), apos);
    StageStep(0, x, apos);
    StageStep(1, x, apos);
    StageStep(2, x, apos);
    StageStep(3, x, apos);
    StageStep(4, x, apos);
    StageFinal(x, apos);
  }

  /** The first three decoding steps undo Escape up to stage 3. */
  lemma UnescapeFromStage3(x: string, apos: string)
    requires IsApos(apos)
    ensures Unescape(Escape(x, apos), apos) ==
      ReplaceAll(ReplaceAll(Stage(3, x, apos), "&quot;", "\""), apos, "'")
  {
    EscapeIsStage(x, apos);
    UnescapeSteps(Escape(x, apos), apos);
    StageStep(0, x, apos);
    StageStep(1, x, apos);
    StageStep(2, x, apos);
    LatePatterns(apos);
  }

  /** The last two entities Unescape decodes. */
  lemma LatePatterns(apos: string)
    ensures Pat(3, apos) == "&quot;" && Rep(3) == "\""
    ensures Pat(4, apos) == apos && Rep(4) == "'"
  {
  }

  /** Text spelling `&quot;` does not survive: `&amp;` is decoded before
      `&quot;`, so the decoded `&` and the following `quot;` are decoded
      again. */
  lemma RoundTripFailsOnQuot(apos: string)
    requires IsApos(apos)
    ensures Unescape(Escape("&quot;", apos), apos) == "\""
  {
    var x := "&quot;";
    UnescapeFromStage3(x, apos);
    StageSpelled(x, apos);
    assert x + "" == x;
    ReplaceAllHit("", x, "\"");
  }

  /** A text with no special character other than `&` is its own stage 3 and 4. */
  lemma StageSpelled(x: string, apos: string)
    requires IsApos(apos)
    requires x == "&quot;" || x == apos
    ensures Stage(3, x, apos) == x && Stage(4, x, apos) == x
  {
    SpelledTail(x);
    StageAmpFront(3, x, apos);
    StageAmpFront(4, x, apos);
  }

  /** From stage 3 on, `&` followed by plain characters is left as it is. */
  lemma StageAmpFront(k: nat, x: string, apos: string)
    requires k >= 3 && x != [] && x[0] == '&'
    requires forall i :: 0 <= i < |x[1..]| ==> !IsSpecial(x[1..][i])
    ensures Stage(k, x, apos) == x
  {
    StageIdentityAt(k, x[1..], apos);
    assert Stage(k, x, apos) == Tok(k, x[0], apos) + Stage(k, x[1..], apos);
    assert x == [x[0]] + x[1..];
  }

  /** The entities are `&` followed by plain characters. */
  lemma SpelledTail(x: string)
    requires x == "&quot;" || x == AposHex || x == AposDec
    ensures x != [] && x[0] == '&' && forall i :: 0 <= i < |x[1..]| ==> !IsSpecial(x[1..][i])
  {
  }

  lemma {:induction false} StageIdentityAt(k: nat, x: string, apos: string)
    requires forall i :: 0 <= i < |x| ==> !IsSpecial(x[i])
    ensures Stage(k, x, apos) == x
  {
    if x != [] {
      StageIdentityAt(k, x[1..], apos);
    }
  }

  /** The same happens to text spelling the apostrophe entity. */
  lemma RoundTripFailsOnApos(apos: string)
    requires IsApos(apos)
    ensures Unescape(Escape(apos, apos), apos) == "'"
  {
    var x := apos;
    UnescapeFromStage3(x, apos);
    StageSpelled(x, apos);
    QuotSparesApos(apos);
    assert x + "" == x;
    ReplaceAllHit("", apos, "'");
  }

  /** Decoding `&quot;` leaves the apostrophe entity alone. */
  lemma QuotSparesApos(x: string)
    requires IsApos(x)
    ensures ReplaceAll(x, "&quot;", "\"") == x
  {
    assert !StartsWith(x, "&quot;") by { assert x[1] != 'q'; }
    assert x == [x[0]] + x[1..];
    assert '&' !in x[1..];
    ReplaceAllAbsent(x[1..], "&quot;", "\"");
    ReplaceAllSkip([x[0]], x[1..], "&quot;", "\"");
  }

  /** A pattern cannot occur in a text that lacks its first character. */
  lemma {:induction false} ReplaceAllAbsentOccurs(s: string, p: string)
    requires |p| > 0 && p[0] !in s
    ensures !Occurs(p, s)
  {
    if s != [] {
      ReplaceAllAbsentOccurs(s[1..], p);
    }
  }

  /** No `<`, `>`, `"` or `'` is left in escaped text. */
  lemma {:induction false} EscapeRemovesSpecials(x: string, apos: string)
    requires IsApos(apos)
    ensures var r := Escape(x, apos);
      '<' !in r && '>' !in r && '"' !in r && '\'' !in r
  {
    EscapeIsStage(x, apos);
    StageNoSpecials(x, apos);
  }

  lemma {:induction false} StageNoSpecials(x: string, apos: string)
    requires IsApos(apos)
    ensures var r := Stage(0, x, apos);
      '<' !in r && '>' !in r && '"' !in r && '\'' !in r
  {
    if x != [] {
      StageNoSpecials(x[1..], apos);
      TokNoSpecials(x[0], apos);
      NoSpecialsConcat(Tok(0, x[0], apos), Stage(0, x[1..], apos));
    }
  }

  /** An escaped character holds no `<`, `>`, `"` or `'`. */
  lemma TokNoSpecials(c: char, apos: string)
    requires IsApos(apos)
    ensures var t := Tok(0, c, apos);
      '<' !in t && '>' !in t && '"' !in t && '\'' !in t
  {
  }

  lemma NoSpecialsConcat(a: string, b: string)
    requires '<' !in a && '>' !in a && '"' !in a && '\'' !in a
    requires '<' !in b && '>' !in b && '"' !in b && '\'' !in b
    ensures var r := a + b; '<' !in r && '>' !in r && '"' !in r && '\'' !in r
  {
  }

  /** Text without any of the five special characters is not changed. */
  lemma {:induction false} EscapeIdentity(x: string, apos: string)
    requires IsApos(apos)
    requires forall i :: 0 <= i < |x| ==> !IsSpecial(x[i])
    ensures Escape(x, apos) == x
  {
    EscapeIsStage(x, apos);
    StageIdentity(x, apos);
  }

  lemma {:induction false} StageIdentity(x: string, apos: string)
    requires forall i :: 0 <= i < |x| ==> !IsSpecial(x[i])
    ensures Stage(0, x, apos) == x
  {
    if x != [] {
      StageIdentity(x[1..], apos);
    }
  }

  /** Text without specials is not changed, stated as an implication. */
  lemma EscapeIdentityIf(x: string, apos: string)
    requires IsApos(apos)
    ensures (forall i :: 0 <= i < |x| ==> !IsSpecial(x[i])) ==> Escape(x, apos) == x
  {
    if forall i :: 0 <= i < |x| ==> !IsSpecial(x[i]) {
      EscapeIdentity(x, apos);
    }
  }

  /** Text without `&` is not changed by Unescape. */
  lemma UnescapeIdentity(s: string, apos: string)
    requires IsApos(apos)
    requires '&' !in s
    ensures Unescape(s, apos) == s
  {
    ReplaceAllAbsent(s, "&lt;", "<");
    ReplaceAllAbsent(s, "&gt;", ">");
    ReplaceAllAbsent(s, "&amp;", "&");
    ReplaceAllAbsent(s, "&quot;", "\"");
    ReplaceAllAbsent(s, apos, "'");
  }

  /** Each special character grows by the length of its entity minus one. */
  lemma {:induction false} EscapeLength(x: string, apos: string)
    requires IsApos(apos)
    ensures |Escape(x, apos)| == |x| + 4 * Count(x, '&') + 3 * Count(x, '<') + 3 * Count(x, '>')
                                 + 5 * Count(x, '"') + 5 * Count(x, '\'')
  {
    EscapeIsStage(x, apos);
    StageLength(x, apos);
  }

  lemma {:induction false} StageLength(x: string, apos: string)
    requires IsApos(apos)
    ensures |Stage(0, x, apos)| == |x| + 4 * Count(x, '&') + 3 * Count(x, '<') + 3 * Count(x, '>')
                                   + 5 * Count(x, '"') + 5 * Count(x, '\'')
  {
    if x != [] {
      StageLength(x[1..], apos);
    }
  }

  /** Text escaped with the decimal apostrophe never contains the hexadecimal
      one: every `&` of the output begins one of `&amp;`, `&lt;`, `&gt;`,
      `&quot;` or `&#039;`. */
  lemma {:induction false} DecimalEscapeHasNoHexApos(x: string)
    ensures !Occurs(AposHex, Escape(x, AposDec))
  {
    EscapeIsStage(x, AposDec);
    StageHasNoHexApos(x);
  }

  lemma {:induction false} StageHasNoHexApos(x: string)
    ensures !Occurs(AposHex, Stage(0, x, AposDec))
  {
    if x == [] {
      assert !StartsWith([], AposHex);
    } else {
      var tok := Tok(0, x[0], AposDec);
      var rest := Stage(0, x[1..], AposDec);
      StageHasNoHexApos(x[1..]);
      TokShape(0, x[0], AposDec);
      forall i | 0 <= i < |tok| ensures !StartsWith((tok + rest)[i..], AposHex) {
        var u := (tok + rest)[i..];
        if i > 0 || tok[0] != '&' {
          assert u[0] == tok[i] != '&';
          assert |u| >= 6 ==> u[..6][0] == u[0];
        } else {
          assert IsSpecial(x[0]);
          assert tok[1] != '#' || tok[2] != 'x';
          assert u[1] == tok[1] && u[2] == tok[2];
          assert |u| >= 6 ==> u[..6][1] == u[1] && u[..6][2] == u[2];
        }
      }
      OccursSkip(tok, rest, AposHex);
    }
  }
}
